/**
 * The `Home` page of `src/app/page.tsx`.
 *
 * Its React state is `prompt` and `isLoading`; it reads and writes the
 * `"currentPrompt"` slot of `localStorage` directly.  The page reacts to four
 * events: the mount effect, the start of `handleSubmit` (which sets the
 * loading flag and then waits), the end of `handleSubmit` (after the
 * simulated delay: the placeholder prompt is set and written through to
 * storage, and the flag is cleared in `finally`), and `handleClear`.
 *
 * `PageState` with `Next` is the page as a state machine; the class `Home`
 * holds the same state in fields and its methods perform each event step by
 * step.
 */
module HomePage {
  import opened Common
  import PromptStorage

  const Key := PromptStorage.CurrentPromptKey

  /** The text of the placeholder prompt before the seed. */
  const PlaceholderHead := "Create an ambient soundscape that evokes the feeling of "

  /**
   * The text after the seed: the template literal spans two source lines,
   * so it holds a newline and the eight spaces that indent the second line.
   */
  const PlaceholderTail := ",\n        with gentle textures and evolving harmonies that create a sense of space and tranquility."

  /** The placeholder prompt generated for `seed`. */
  function PlaceholderPrompt(seed: string): (p: string)
    ensures OccursAt(p, seed, |PlaceholderHead|) && Contains(p, seed)
    ensures p != ""
  {
    ContainsMiddle(PlaceholderHead, seed, PlaceholderTail);
    PlaceholderHead + seed + PlaceholderTail
  }

  datatype PageState = PageState(prompt: string, isLoading: bool, storage: map<string, string>)

  /** The state right after the first render: `useState('')` and `useState(false)`. */
  function Initial(storage: map<string, string>): PageState
  {
    PageState("", false, storage)
  }

  datatype Event =
    | Mount
    | BeginSubmit
      /** The end of `handleSubmit(seed)`; `storageThrows` says whether `setItem` threw. */
    | CompleteSubmit(seed: string, storageThrows: bool)
      /** `handleClear`; `storageThrows` says whether `removeItem`, called outside any `try`, threw. */
    | Clear(storageThrows: bool)

  /** The page after one event. */
  function Next(s: PageState, e: Event): (r: PageState)
    ensures forall k :: k != Key ==> PromptStorage.SameAt(r.storage, s.storage, k)
    ensures e.Mount? ==> r.isLoading == s.isLoading && r.storage == s.storage
                         && (r.prompt == s.prompt || (Key in s.storage && r.prompt == s.storage[Key]))
    ensures e.BeginSubmit? ==> r.isLoading && r.prompt == s.prompt && r.storage == s.storage
    ensures e.CompleteSubmit? ==> !r.isLoading && r.prompt != "" && Contains(r.prompt, e.seed)
    ensures e.Clear? ==> r.prompt == "" && r.isLoading == s.isLoading
  {
    match e
    case Mount =>
      if Key in s.storage && s.storage[Key] != "" then s.(prompt := s.storage[Key]) else s
    case BeginSubmit =>
      s.(isLoading := true)
    case CompleteSubmit(seed, storageThrows) =>
      var generated := PlaceholderPrompt(seed);
      var storage := if storageThrows then s.storage else s.storage[Key := generated];
      PageState(generated, false, storage)
    case Clear(storageThrows) =>
      PageState("", s.isLoading, if storageThrows then s.storage else s.storage - {Key})
  }

  function Run(s: PageState, events: seq<Event>): PageState
    decreases |events|
  {
    if events == [] then s else Run(Next(s, events[0]), events[1..])
  }

  /** What the page shows: the form (with its loading flag) or the prompt card and clear button. */
  datatype View = FormView(isLoading: bool) | CardView(prompt: string)

  function Render(s: PageState): (v: View)
    ensures v.FormView? <==> s.prompt == ""
    ensures v.FormView? ==> v.isLoading == s.isLoading
    ensures v.CardView? ==> v.prompt == s.prompt
  {
    if s.prompt != "" then CardView(s.prompt) else FormView(s.isLoading)
  }

  /** A shown prompt is the one stored under `"currentPrompt"`. */
  predicate Synced(s: PageState)
  {
    s.prompt != "" ==> Key in s.storage && s.storage[Key] == s.prompt
  }

  /** No event in `events` is a submit whose `setItem` throws. */
  predicate WritesSucceed(events: seq<Event>)
  {
    forall i :: 0 <= i < |events| ==> !(events[i].CompleteSubmit? && events[i].storageThrows)
  }

  /** Mounting shows the stored prompt exactly when it is a non-empty string. */
  lemma MountLoads(storage: map<string, string>)
    ensures var s := Next(Initial(storage), Mount);
      && (Key in storage && storage[Key] != "" ==> s.prompt == storage[Key])
      && (Key !in storage || storage[Key] == "" ==> s.prompt == "")
      && !s.isLoading && s.storage == storage
  {
  }

  /**
   * A submit that starts and completes: the flag is set in between and
   * cleared at the end, and the page shows a prompt embedding the seed, which
   * is also the stored prompt unless `setItem` threw.
   */
  lemma SubmitCycle(s: PageState, seed: string, storageThrows: bool)
    ensures Next(s, BeginSubmit).isLoading
    ensures var t := Run(s, [BeginSubmit, CompleteSubmit(seed, storageThrows)]);
      && !t.isLoading
      && t.prompt == PlaceholderPrompt(seed) && Contains(t.prompt, seed)
      && (!storageThrows ==> Key in t.storage && t.storage[Key] == t.prompt)
      && (storageThrows ==> t.storage == s.storage)
      && Render(t) == CardView(t.prompt)
  {
    var b := Next(s, BeginSubmit);
    var t := Next(b, CompleteSubmit(seed, storageThrows));
    var events := [BeginSubmit, CompleteSubmit(seed, storageThrows)];
    assert events[1..] == [CompleteSubmit(seed, storageThrows)];
    assert Run(b, events[1..]) == Run(t, []);
  }

  /**
   * Clearing empties the prompt and shows the form again.  The key is
   * removed unless `removeItem` throws; since `setPrompt('')` has already
   * run by then, the form is shown even so, with storage unchanged.
   */
  lemma ClearResets(s: PageState, storageThrows: bool)
    ensures var t := Next(s, Clear(storageThrows));
      && t.prompt == "" && t.isLoading == s.isLoading
      && Render(t) == FormView(s.isLoading)
      && (!storageThrows ==> Key !in t.storage)
      && (storageThrows ==> t.storage == s.storage)
      && forall k :: k != Key && k in s.storage ==> k in t.storage && t.storage[k] == s.storage[k]
  {
  }

  lemma NextKeepsSynced(s: PageState, e: Event)
    requires Synced(s)
    requires !(e.CompleteSubmit? && e.storageThrows)
    ensures Synced(Next(s, e))
  {
  }

  /** As long as no `setItem` throws, the shown prompt and the stored one never disagree. */
  lemma {:induction false} RunKeepsSynced(s: PageState, events: seq<Event>)
    requires Synced(s)
    requires WritesSucceed(events)
    ensures Synced(Run(s, events))
    decreases |events|
  {
    if events != [] {
      assert !(events[0].CompleteSubmit? && events[0].storageThrows);
      NextKeepsSynced(s, events[0]);
      assert WritesSucceed(events[1..]) by {
        forall i | 0 <= i < |events[1..]|
          ensures !(events[1..][i].CompleteSubmit? && events[1..][i].storageThrows)
        {
          assert events[1..][i] == events[i + 1];
        }
      }
      RunKeepsSynced(Next(s, events[0]), events[1..]);
    }
  }

  /** The page starts synced whatever storage holds. */
  lemma InitialSynced(storage: map<string, string>)
    ensures Synced(Initial(storage))
  {
  }

  /**
   * `setPrompt` runs before `setItem`, so when `setItem` throws the page
   * shows a prompt that storage does not hold.
   */
  lemma StorageWriteFailureDesyncs(seed: string)
    ensures !Synced(Next(Initial(map[]), CompleteSubmit(seed, true)))
  {
  }

  /**
   * A clear whose `removeItem` throws has emptied the page but not storage,
   * so a later visit shows the cleared prompt again.
   */
  lemma FailedClearReturnsOnReload(s: PageState)
    requires Key in s.storage && s.storage[Key] != ""
    ensures Next(s, Clear(true)).prompt == ""
    ensures Next(Initial(Next(s, Clear(true)).storage), Mount).prompt == s.storage[Key]
  {
  }

  /** A later visit (a fresh page on the same storage) shows the prompt a successful submit produced. */
  lemma ReloadRestores(s: PageState, seed: string)
    ensures var t := Next(s, CompleteSubmit(seed, false));
      Next(Initial(t.storage), Mount).prompt == t.prompt
  {
  }

  /** The page component, with React's state and `localStorage` as fields. */
  class Home {
    var prompt: string
    var isLoading: bool
    var storage: map<string, string>

    function State(): PageState
      reads this
    {
      PageState(prompt, isLoading, storage)
    }

    /** The first render. */
    constructor (storage: map<string, string>)
      ensures State() == Initial(storage)
    {
      prompt := "";
      isLoading := false;
      this.storage := storage;
    }

    /** The mount effect: a truthy `getItem('currentPrompt')` becomes the prompt. */
    method Mount()
      modifies this
      ensures State() == Next(old(State()), Event.Mount)
    {
      var saved: Option<string> := if Key in storage then Some(storage[Key]) else None;
      if saved.Some? && saved.value != "" {
        prompt := saved.value;
      }
    }

    /** `handleSubmit` up to the delay: `setIsLoading(true)`. */
    method BeginSubmit()
      modifies this
      ensures State() == Next(old(State()), Event.BeginSubmit)
    {
      isLoading := true;
    }

    /** `handleSubmit` after the delay: set the prompt, write it through, and always clear the flag. */
    method CompleteSubmit(seed: string, storageThrows: bool)
      modifies this
      ensures State() == Next(old(State()), Event.CompleteSubmit(seed, storageThrows))
    {
      var generated := PlaceholderPrompt(seed);
      prompt := generated;
      if !storageThrows {
        storage := storage[Key := generated];
      }
      isLoading := false;
    }

    /** `handleClear`: the prompt is emptied first, then `removeItem` runs, and may throw. */
    method Clear(storageThrows: bool)
      modifies this
      ensures State() == Next(old(State()), Event.Clear(storageThrows))
    {
      prompt := "";
      if !storageThrows {
        storage := storage - {Key};
      }
    }
  }
}
