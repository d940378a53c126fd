/**
 * The seed form of `src/components/PromptForm.tsx`: the `seedConcept` text,
 * the example buttons that fill it, and the guards that decide whether a
 * submit or a retry reaches the `onSubmit` callback and whether the submit
 * button is disabled.  The guards test `seedConcept.trim()`, so
 * `String.prototype.trim` (section 22.1.3.32 of ECMA-262) is modelled with
 * the exact set of characters it strips.
 */
module PromptForm {
  import opened Common

  const Examples: seq<string> := ["forest ambience", "ocean waves", "distant thunder", "morning birdsong"]

  /** WhiteSpace and LineTerminator code points of ECMA-262 (sections 12.2 and 12.3). */
  predicate IsJsWhitespace(c: char)
  {
    var v := c as int;
    || 0x09 <= v <= 0x0D || v == 0x20 || v == 0xA0 || v == 0x1680
    || 0x2000 <= v <= 0x200A || v == 0x2028 || v == 0x2029 || v == 0x202F
    || v == 0x205F || v == 0x3000 || v == 0xFEFF
  }

  predicate AllWhitespace(s: string)
  {
    forall i :: 0 <= i < |s| ==> IsJsWhitespace(s[i])
  }

  /** `s` without its leading whitespace. */
  function TrimStart(s: string): (r: string)
    ensures |r| <= |s| && r == s[|s| - |r|..]
    ensures r == [] || !IsJsWhitespace(r[0])
  {
    if s != [] && IsJsWhitespace(s[0]) then TrimStart(s[1..]) else s
  }

  /** `s` without its trailing whitespace. */
  function TrimEnd(s: string): (r: string)
    ensures |r| <= |s| && r == s[..|r|]
    ensures r == [] || !IsJsWhitespace(r[|r| - 1])
  {
    if s != [] && IsJsWhitespace(s[|s| - 1]) then TrimEnd(s[..|s| - 1]) else s
  }

  /** What `TrimStart` removes is whitespace. */
  lemma {:induction false} TrimStartDropsWhitespace(s: string)
    ensures AllWhitespace(s[..|s| - |TrimStart(s)|])
  {
    if s != [] && IsJsWhitespace(s[0]) {
      var r := TrimStart(s[1..]);
      TrimStartDropsWhitespace(s[1..]);
      assert s[..|s| - |r|] == [s[0]] + s[1..][..|s[1..]| - |r|];
    }
  }

  /** What `TrimEnd` removes is whitespace. */
  lemma {:induction false} TrimEndDropsWhitespace(s: string)
    ensures AllWhitespace(s[|TrimEnd(s)|..])
  {
    if s != [] && IsJsWhitespace(s[|s| - 1]) {
      var r := TrimEnd(s[..|s| - 1]);
      TrimEndDropsWhitespace(s[..|s| - 1]);
      assert s[|r|..] == s[..|s| - 1][|r|..] + [s[|s| - 1]];
    }
  }

  /** `s.trim()`. */
  function Trim(s: string): string
  {
    TrimEnd(TrimStart(s))
  }

  /** `s.trim()` is truthy. */
  predicate HasContent(s: string)
  {
    Trim(s) != ""
  }

  /** The trimmed text neither starts nor ends with whitespace. */
  lemma TrimEnds(s: string)
    ensures Trim(s) == [] || (!IsJsWhitespace(Trim(s)[0]) && !IsJsWhitespace(Trim(s)[|Trim(s)| - 1]))
  {
    var a := TrimStart(s);
    var r := TrimEnd(a);
    assert Trim(s) == r;
    if r != [] {
      assert r == a[..|r|];
      assert r[0] == a[0];
      assert !IsJsWhitespace(a[0]);
    }
  }

  /** The guard `seedConcept.trim()` fails exactly on text made only of whitespace. */
  lemma HasContentIff(s: string)
    ensures HasContent(s) <==> !AllWhitespace(s)
  {
    var a := TrimStart(s);
    var r := TrimEnd(a);
    if r == [] {
      TrimStartDropsWhitespace(s);
      TrimEndDropsWhitespace(a);
      assert a == [];
      assert s[..|s| - |a|] == s;
    } else {
      assert !IsJsWhitespace(r[0]);
      assert r[0] == s[|s| - |a|];
    }
  }

  /** Text whose first character is not whitespace passes the guard. */
  lemma NonBlankStartHasContent(s: string)
    requires s != [] && !IsJsWhitespace(s[0])
    ensures HasContent(s)
  {
    HasContentIff(s);
  }

  /** Trimming twice is trimming once. */
  lemma TrimIdempotent(s: string)
    ensures Trim(Trim(s)) == Trim(s)
  {
    var r := Trim(s);
    TrimEnds(s);
    if r != [] {
      assert TrimStart(r) == r;
      assert TrimEnd(r) == r;
    }
  }

  /** Every example passes the guard. */
  lemma ExamplesHaveContent(i: nat)
    requires i < |Examples|
    ensures HasContent(Examples[i])
  {
    if i == 0 {
      NonBlankStartHasContent("forest ambience");
    } else if i == 1 {
      NonBlankStartHasContent("ocean waves");
    } else if i == 2 {
      NonBlankStartHasContent("distant thunder");
    } else {
      NonBlankStartHasContent("morning birdsong");
    }
  }

  /** `disabled={isLoading || !seedConcept.trim()}`. */
  function SubmitDisabled(seedConcept: string, isLoading: bool): (disabled: bool)
    ensures !disabled <==> !isLoading && !AllWhitespace(seedConcept)
  {
    HasContentIff(seedConcept);
    isLoading || !HasContent(seedConcept)
  }

  /** The form component, with its `seedConcept` state as a field. */
  class Form {
    var seedConcept: string

    /** `useState('')`. */
    constructor ()
      ensures seedConcept == ""
    {
      seedConcept := "";
    }

    /** The textarea's `onChange`: the state becomes the typed text as it is. */
    method Change(value: string)
      modifies this
      ensures seedConcept == value
    {
      seedConcept := value;
    }

    /** `handleExampleClick` for the `i`-th example button. */
    method ClickExample(i: nat)
      requires i < |Examples|
      modifies this
      ensures seedConcept == Examples[i] && seedConcept in Examples
    {
      seedConcept := Examples[i];
    }

    /**
     * `handleSubmit`: the value passed to `onSubmit`, if it is called.  It is
     * the untrimmed text, and it is passed exactly when the text is not all
     * whitespace.
     */
    method Submit() returns (submitted: Option<string>)
      ensures submitted.Some? <==> !AllWhitespace(seedConcept)
      ensures submitted.Some? ==> submitted.value == seedConcept
    {
      HasContentIff(seedConcept);
      if HasContent(seedConcept) {
        submitted := Some(seedConcept);
      } else {
        submitted := None;
      }
    }

    /**
     * A click on Retry, which is rendered only while `error` is truthy: the
     * same guard as a submit, whatever the loading flag says.  The button
     * is not disabled while loading, so `isLoading` is taken only to show
     * that the outcome does not depend on it.
     */
    method Retry(error: Option<string>, isLoading: bool) returns (submitted: Option<string>)
      ensures submitted.Some? <==> error.Some? && error.value != "" && !AllWhitespace(seedConcept)
      ensures submitted.Some? ==> submitted.value == seedConcept
    {
      var shown := error.Some? && error.value != "";
      if shown {
        submitted := Submit();
      } else {
        submitted := None;
      }
    }
  }
}
