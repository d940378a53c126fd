/**
 * File discovery in `concat_files.py`: `normalize_extensions` and
 * `find_matching_files` with its nested `search_directory`.
 *
 * The file system is an in-memory tree: a directory holds its entries in
 * the order `iterdir` lists them, and a directory whose listing raises
 * (`PermissionError` or another error, which `search_directory` reports and
 * swallows) is marked not `listable`.  A path is the list of names from the
 * searched folder down to the file.
 */
module ConcatSearch {

  /** A name relative to the searched folder, one component per directory level. */
  type Path = seq<string>

  datatype Entry =
    | File(name: string)
    | Dir(name: string, listable: bool, children: seq<Entry>)
      /** Neither a regular file nor a directory (a socket, a broken link). */
    | Other(name: string)

  /** ASCII lower-casing of one character. */
  function LowerChar(c: char): (d: char)
    ensures !('A' <= d <= 'Z')
    ensures !('A' <= c <= 'Z') ==> d == c
    ensures 'A' <= c <= 'Z' ==> 'a' <= d <= 'z' && (d as int) - ('a' as int) == (c as int) - ('A' as int)
  {
    if 'A' <= c <= 'Z' then (c as int + 32) as char else c
  }

  /** `s.lower()`. */
  function Lower(s: string): (r: string)
    ensures |r| == |s|
    ensures forall i :: 0 <= i < |s| ==> r[i] == LowerChar(s[i])
  {
    if s == [] then [] else [LowerChar(s[0])] + Lower(s[1..])
  }

  predicate IsLower(s: string)
  {
    forall i :: 0 <= i < |s| ==> !('A' <= s[i] <= 'Z')
  }

  lemma LowerIdempotent(s: string)
    ensures IsLower(Lower(s))
    ensures Lower(Lower(s)) == Lower(s)
  {
  }

  /** One element of the result of `normalize_extensions`. */
  function NormalizeExtension(ext: string): (r: string)
    ensures |r| > 0 && r[0] == '.' && IsLower(r)
    ensures |ext| > 0 && ext[0] == '.' ==> |r| == |ext|
    ensures !(|ext| > 0 && ext[0] == '.') ==> |r| == |ext| + 1
  {
    var dotted := if |ext| > 0 && ext[0] == '.' then ext else "." + ext;
    LowerIdempotent(dotted);
    Lower(dotted)
  }

  /**
   * What a normalised extension holds: the lowered input, after the dot
   * that is added when the input has none.
   */
  lemma NormalizeExtensionContents(ext: string)
    ensures var r := NormalizeExtension(ext);
      && r[|r| - |ext|..] == Lower(ext)
      && (|ext| > 0 && ext[0] == '.' ==> r == Lower(ext))
      && (!(|ext| > 0 && ext[0] == '.') ==> r == "." + Lower(ext))
  {
    LowerDotted(ext);
  }

  /** Lowering leaves a leading dot in front of the lowered rest. */
  lemma LowerDotted(ext: string)
    ensures Lower("." + ext) == "." + Lower(ext)
  {
    var d := "." + ext;
    assert forall j :: 0 <= j < |ext| ==> d[j + 1] == ext[j];
  }

  /** The examples of the `normalize_extensions` docstring. */
  lemma NormalizeExamples()
    ensures NormalizeExtension("txt") == ".txt"
    ensures NormalizeExtension(".py") == ".py"
    ensures NormalizeExtension("MD") == ".md"
  {
    assert Lower("txt") == "txt";
    assert Lower(".py") == ".py";
    assert Lower("MD") == "md";
  }

  /** A normalised extension starts with a dot, is lower-case, and is unchanged by normalising again. */
  lemma NormalizeExtensionProperties(ext: string)
    ensures var r := NormalizeExtension(ext);
      |r| > 0 && r[0] == '.' && IsLower(r) && NormalizeExtension(r) == r
  {
    var r := NormalizeExtension(ext);
    var dotted := if |ext| > 0 && ext[0] == '.' then ext else "." + ext;
    assert dotted[0] == '.';
    assert r[0] == LowerChar(dotted[0]);
    LowerIdempotent(dotted);
  }

  /** `normalize_extensions(extensions)`: the loop that appends each normalised extension. */
  method NormalizeExtensions(extensions: seq<string>) returns (normalized: seq<string>)
    ensures |normalized| == |extensions|
    ensures forall i :: 0 <= i < |extensions| ==> normalized[i] == NormalizeExtension(extensions[i])
    ensures forall i :: 0 <= i < |normalized| ==>
      |normalized[i]| > 0 && normalized[i][0] == '.' && IsLower(normalized[i])
  {
    normalized := [];
    var k := 0;
    while k < |extensions|
      invariant 0 <= k <= |extensions|
      invariant |normalized| == k
      invariant forall i :: 0 <= i < k ==> normalized[i] == NormalizeExtension(extensions[i])
    {
      var ext := NormalizeOne(extensions[k]);
      normalized := normalized + [ext];
      k := k + 1;
    }
  }

  /** One iteration: prefix a dot unless there is one, then lower-case. */
  method NormalizeOne(ext: string) returns (r: string)
    ensures r == NormalizeExtension(ext)
  {
    r := ext;
    if !(|r| > 0 && r[0] == '.') {
      r := "." + r;
    }
    r := Lower(r);
  }

  /** Normalising an already normalised list changes nothing. */
  method NormalizeTwice(extensions: seq<string>) returns (once: seq<string>, twice: seq<string>)
    ensures twice == once
    ensures |once| == |extensions|
  {
    once := NormalizeExtensions(extensions);
    twice := NormalizeExtensions(once);
    forall i | 0 <= i < |once| ensures twice[i] == once[i] {
      NormalizeExtensionProperties(extensions[i]);
    }
  }

  /** The index of the last `.` in `name`, or -1: `name.rfind('.')`. */
  function LastDot(name: string): (i: int)
    ensures -1 <= i < |name|
    ensures i >= 0 ==> name[i] == '.'
    ensures forall k :: i < k < |name| ==> name[k] != '.'
  {
    if name == [] then -1
    else if name[|name| - 1] == '.' then |name| - 1
    else LastDot(name[..|name| - 1])
  }

  /**
   * `Path(name).suffix`: from the last dot to the end, when that dot is
   * neither the first nor the last character; otherwise empty.
   */
  function Suffix(name: string): (r: string)
    ensures r == [] || (2 <= |r| <= |name| && r[0] == '.' && r == name[|name| - |r|..])
    ensures r != [] <==> exists i :: 0 < i < |name| - 1 && IsLastDot(name, i)
    ensures forall k :: 0 < k < |r| ==> r[k] != '.'
  {
    var i := LastDot(name);
    LastDotIsLastDot(name);
    if 0 < i < |name| - 1 then assert IsLastDot(name, i); name[i..] else ""
  }

  /** Position `i` of `name` holds a dot and no later position does. */
  predicate IsLastDot(name: string, i: int)
  {
    0 <= i < |name| && name[i] == '.' && forall k :: i < k < |name| ==> name[k] != '.'
  }

  /** `LastDot` finds the one position that `IsLastDot` describes, if any. */
  lemma LastDotIsLastDot(name: string)
    ensures forall i :: IsLastDot(name, i) <==> i == LastDot(name) && i >= 0
  {
  }

  /** A hidden file such as `.txt` has no suffix, so no extension selects it. */
  lemma DotFileHasNoSuffix(rest: string)
    requires forall k :: 0 <= k < |rest| ==> rest[k] != '.'
    ensures Suffix("." + rest) == ""
  {
    assert forall k :: 0 < k < |"." + rest| ==> ("." + rest)[k] == rest[k - 1];
  }

  /** `item.suffix.lower() in extensions`. */
  predicate NameMatches(name: string, extensions: seq<string>): (m: bool)
    ensures m && (forall i :: 0 <= i < |extensions| ==> extensions[i] != []) ==> Suffix(name) != []
  {
    Lower(Suffix(name)) in extensions
  }

  /** Lower-casing a name does not move its last dot. */
  lemma LastDotOfLower(name: string)
    ensures LastDot(Lower(name)) == LastDot(name)
  {
    var low := Lower(name);
    LastDotIsLastDot(name);
    LastDotIsLastDot(low);
    assert forall i :: IsLastDot(low, i) <==> IsLastDot(name, i);
  }

  /** The suffix of the lower-cased name is the lower-cased suffix. */
  lemma SuffixOfLower(name: string)
    ensures Suffix(Lower(name)) == Lower(Suffix(name))
  {
    LastDotOfLower(name);
    var i := LastDot(name);
    if 0 < i < |name| - 1 {
      LowerSlice(name, i);
    }
  }

  lemma LowerSlice(s: string, i: nat)
    requires i <= |s|
    ensures Lower(s)[i..] == Lower(s[i..])
  {
  }

  /** The extension test ignores the case of the file name: `FOO.TXT` matches wherever `foo.txt` does. */
  lemma NameMatchesIgnoresCase(name: string, extensions: seq<string>)
    ensures NameMatches(Lower(name), extensions) <==> NameMatches(name, extensions)
  {
    SuffixOfLower(name);
    LowerIdempotent(Suffix(name));
  }

  /**
   * The paths `search_directory` appends, in order, while it walks the
   * `entries` of the directory at `dir`, `level` directories below the
   * searched folder.
   */
  function Matches(entries: seq<Entry>, dir: Path, level: nat, maxLevel: nat, extensions: seq<string>): seq<Path>
    decreases entries
  {
    if entries == [] then []
    else Matches(entries[..|entries| - 1], dir, level, maxLevel, extensions)
         + EntryMatches(entries[|entries| - 1], dir, level, maxLevel, extensions)
  }

  function EntryMatches(e: Entry, dir: Path, level: nat, maxLevel: nat, extensions: seq<string>): seq<Path>
    decreases e
  {
    match e
    case File(name) => if NameMatches(name, extensions) then [dir + [name]] else []
    case Dir(name, _, _) =>
      if level < maxLevel then DirMatches(e, dir + [name], level + 1, maxLevel, extensions) else []
    case Other(_) => []
  }

  /** A call of `search_directory` on a directory: nothing when its listing fails. */
  function DirMatches(d: Entry, dir: Path, level: nat, maxLevel: nat, extensions: seq<string>): seq<Path>
    requires d.Dir?
    decreases d, 0
  {
    if d.listable then Matches(d.children, dir, level, maxLevel, extensions) else []
  }

  lemma MatchesSnoc(entries: seq<Entry>, i: nat, dir: Path, level: nat, maxLevel: nat, extensions: seq<string>)
    requires i < |entries|
    ensures Matches(entries[..i + 1], dir, level, maxLevel, extensions)
      == Matches(entries[..i], dir, level, maxLevel, extensions) + EntryMatches(entries[i], dir, level, maxLevel, extensions)
  {
    assert entries[..i + 1][..i] == entries[..i];
  }

  /** `p` names a regular file among `entries`, through listable directories only. */
  predicate InEntries(entries: seq<Entry>, p: Path)
    decreases entries
  {
    exists i :: 0 <= i < |entries| && InEntry(entries[i], p)
  }

  predicate InEntry(e: Entry, p: Path)
    decreases e
  {
    match e
    case File(name) => p == [name]
    case Dir(name, listable, children) => listable && |p| > 1 && p[0] == name && InEntries(children, p[1..])
    case Other(_) => false
  }

  /** What a search from `dir` at `level` finds: files below `dir`, deep enough, with a wanted suffix. */
  predicate Found(entries: seq<Entry>, dir: Path, level: nat, maxLevel: nat, extensions: seq<string>, p: Path)
  {
    && |dir| < |p| && p[..|dir|] == dir
    && InEntries(entries, p[|dir|..])
    && |p| - |dir| - 1 <= maxLevel - level
    && NameMatches(p[|p| - 1], extensions)
  }

  predicate FoundIn(e: Entry, dir: Path, level: nat, maxLevel: nat, extensions: seq<string>, p: Path)
  {
    && |dir| < |p| && p[..|dir|] == dir
    && InEntry(e, p[|dir|..])
    && |p| - |dir| - 1 <= maxLevel - level
    && NameMatches(p[|p| - 1], extensions)
  }

  lemma InEntriesLast(entries: seq<Entry>, p: Path)
    requires entries != []
    ensures InEntries(entries, p) <==>
      InEntries(entries[..|entries| - 1], p) || InEntry(entries[|entries| - 1], p)
  {
    var init := entries[..|entries| - 1];
    if InEntries(entries, p) {
      var i :| 0 <= i < |entries| && InEntry(entries[i], p);
      if i < |init| {
        assert init[i] == entries[i];
      }
    }
    if InEntries(init, p) {
      var i :| 0 <= i < |init| && InEntry(init[i], p);
      assert entries[i] == init[i];
    }
  }

  /**
   * The search finds exactly the files below `dir` that lie at most
   * `maxLevel - level` directories deeper and whose lower-cased suffix is
   * one of the extensions.
   */
  lemma {:induction false} MatchesIff(entries: seq<Entry>, dir: Path, level: nat, maxLevel: nat, extensions: seq<string>, p: Path)
    requires level <= maxLevel
    ensures p in Matches(entries, dir, level, maxLevel, extensions) <==> Found(entries, dir, level, maxLevel, extensions, p)
    decreases entries
  {
    if entries != [] {
      var init, last := entries[..|entries| - 1], entries[|entries| - 1];
      MatchesIff(init, dir, level, maxLevel, extensions, p);
      EntryMatchesIff(last, dir, level, maxLevel, extensions, p);
      if |dir| < |p| {
        InEntriesLast(entries, p[|dir|..]);
      }
    }
  }

  /** Going one directory down: found under the child directory is found under its entry. */
  lemma DirStep(e: Entry, dir: Path, level: nat, maxLevel: nat, extensions: seq<string>, p: Path)
    requires e.Dir? && e.listable && level < maxLevel
    ensures FoundIn(e, dir, level, maxLevel, extensions, p) <==>
      Found(e.children, dir + [e.name], level + 1, maxLevel, extensions, p)
  {
    var sub := dir + [e.name];
    if |sub| < |p| && p[..|sub|] == sub {
      assert p[..|dir|] == dir;
      assert p[|dir|..][0] == e.name;
      assert p[|dir|..][1..] == p[|sub|..];
    }
    if |dir| < |p| && p[..|dir|] == dir && InEntry(e, p[|dir|..]) {
      assert p[..|sub|] == p[..|dir|] + [p[|dir|..][0]];
      assert p[|dir|..][1..] == p[|sub|..];
    }
  }

  lemma {:induction false} EntryMatchesIff(e: Entry, dir: Path, level: nat, maxLevel: nat, extensions: seq<string>, p: Path)
    requires level <= maxLevel
    ensures p in EntryMatches(e, dir, level, maxLevel, extensions) <==> FoundIn(e, dir, level, maxLevel, extensions, p)
    decreases e
  {
    match e
    case File(name) =>
      if |dir| < |p| && p[..|dir|] == dir && p[|dir|..] == [name] {
        assert p == dir + [name];
      }
      if p == dir + [name] {
        assert p[|dir|..] == [name];
      }
    case Dir(name, listable, children) =>
      if level < maxLevel && listable {
        MatchesIff(children, dir + [name], level + 1, maxLevel, extensions, p);
        DirStep(e, dir, level, maxLevel, extensions, p);
      }
    case Other(_) =>
  }

  /** Strict order of Python strings: code point by code point, a proper prefix first. */
  predicate StrLess(a: string, b: string)
  {
    b != [] && (a == [] || a[0] < b[0] || (a[0] == b[0] && StrLess(a[1..], b[1..])))
  }

  /** Strict order of paths as `pathlib` compares them: component lists, lexicographically. */
  predicate PathLess(a: Path, b: Path)
  {
    b != [] && (a == [] || StrLess(a[0], b[0]) || (a[0] == b[0] && PathLess(a[1..], b[1..])))
  }

  lemma {:induction false} StrLessAsymmetric(a: string, b: string)
    ensures !(StrLess(a, b) && StrLess(b, a))
  {
    if a != [] && b != [] && a[0] == b[0] {
      StrLessAsymmetric(a[1..], b[1..]);
    }
  }

  lemma {:induction false} StrLessTotal(a: string, b: string)
    requires a != b
    ensures StrLess(a, b) || StrLess(b, a)
  {
    if a != [] && b != [] && a[0] == b[0] {
      assert a == [a[0]] + a[1..] && b == [b[0]] + b[1..];
      StrLessTotal(a[1..], b[1..]);
    }
  }

  lemma {:induction false} PathLessAsymmetric(a: Path, b: Path)
    ensures !(PathLess(a, b) && PathLess(b, a))
  {
    if a != [] && b != [] {
      StrLessAsymmetric(a[0], b[0]);
      if a[0] == b[0] {
        PathLessAsymmetric(a[1..], b[1..]);
      }
    }
  }

  /** Two different paths are always ordered one way or the other. */
  lemma {:induction false} PathLessTotal(a: Path, b: Path)
    requires a != b
    ensures PathLess(a, b) || PathLess(b, a)
  {
    if a != [] && b != [] {
      if a[0] != b[0] {
        StrLessTotal(a[0], b[0]);
      } else {
        assert a == [a[0]] + a[1..] && b == [b[0]] + b[1..];
        PathLessTotal(a[1..], b[1..]);
      }
    }
  }

  /** Each path is not less than the one before it. */
  predicate Sorted(s: seq<Path>)
  {
    forall i :: 0 < i < |s| ==> !PathLess(s[i], s[i - 1])
  }

  function Insert(x: Path, s: seq<Path>): (r: seq<Path>)
    ensures multiset(r) == multiset(s) + multiset{x}
    ensures |r| == |s| + 1 && (r[0] == x || (s != [] && r[0] == s[0]))
  {
    if s == [] || !PathLess(s[0], x) then [x] + s
    else
      assert s == [s[0]] + s[1..];
      [s[0]] + Insert(x, s[1..])
  }

  lemma {:induction false} InsertSorted(x: Path, s: seq<Path>)
    requires Sorted(s)
    ensures Sorted(Insert(x, s))
  {
    if s != [] && PathLess(s[0], x) {
      var t := Insert(x, s[1..]);
      InsertSorted(x, s[1..]);
      PathLessAsymmetric(s[0], x);
      var r := [s[0]] + t;
      forall i | 0 < i < |r| ensures !PathLess(r[i], r[i - 1]) {
        if i >= 2 {
          assert r[i] == t[i - 1] && r[i - 1] == t[i - 2];
        }
      }
    }
  }

  /** `matching_files.sort()`. */
  function SortPaths(s: seq<Path>): (r: seq<Path>)
    ensures multiset(r) == multiset(s)
    ensures Sorted(r)
  {
    if s == [] then []
    else
      assert s == [s[0]] + s[1..];
      InsertSorted(s[0], SortPaths(s[1..]));
      Insert(s[0], SortPaths(s[1..]))
  }

  lemma SortKeepsMembers(s: seq<Path>)
    ensures forall p :: p in SortPaths(s) <==> p in s
  {
    var r := SortPaths(s);
    forall p ensures p in r <==> p in s {
      assert p in r <==> p in multiset(r);
      assert p in s <==> p in multiset(s);
    }
  }

  lemma AppendAssoc(a: seq<Path>, b: seq<Path>, c: seq<Path>)
    ensures (a + b) + c == a + (b + c)
  {
  }

  /** The state of one `find_matching_files` call: its extension list and its `matching_files` list. */
  class FileSearch {
    const extensions: seq<string>
    var matchingFiles: seq<Path>

    constructor (extensions: seq<string>)
      ensures this.extensions == extensions && matchingFiles == []
    {
      this.extensions := extensions;
      matchingFiles := [];
    }

    /** `search_directory(d, level, maxLevel)`, for the directory `d` at path `dir`. */
    method SearchDirectory(d: Entry, dir: Path, level: nat, maxLevel: nat)
      requires d.Dir?
      modifies this
      ensures matchingFiles == old(matchingFiles) + DirMatches(d, dir, level, maxLevel, extensions)
      decreases d, 0
    {
      if !d.listable {
        return;
      }
      var items := d.children;
      var i := 0;
      while i < |items|
        invariant 0 <= i <= |items|
        invariant matchingFiles == old(matchingFiles) + Matches(items[..i], dir, level, maxLevel, extensions)
      {
        ghost var before := matchingFiles;
        VisitItem(items[i], dir, level, maxLevel);
        MatchesSnoc(items, i, dir, level, maxLevel, extensions);
        AppendAssoc(old(matchingFiles), Matches(items[..i], dir, level, maxLevel, extensions),
                    EntryMatches(items[i], dir, level, maxLevel, extensions));
        i := i + 1;
      }
      assert items[..i] == items;
    }

    /** One iteration of the loop over `iterdir()`: a matching file is appended, a directory searched one level down. */
    method VisitItem(item: Entry, dir: Path, level: nat, maxLevel: nat)
      modifies this
      ensures matchingFiles == old(matchingFiles) + EntryMatches(item, dir, level, maxLevel, extensions)
      decreases item, 1
    {
      match item {
        case File(name) =>
          if NameMatches(name, extensions) {
            matchingFiles := matchingFiles + [dir + [name]];
          }
        case Dir(name, _, _) =>
          if level < maxLevel {
            SearchDirectory(item, dir + [name], level + 1, maxLevel);
          }
        case Other(_) =>
      }
    }
  }

  /**
   * `find_matching_files(root, extensions, levels)`: the files found under
   * `root` within `levels` directory levels, sorted.
   */
  method FindMatchingFiles(root: Entry, extensions: seq<string>, levels: nat) returns (files: seq<Path>)
    requires root.Dir?
    ensures Sorted(files)
    ensures forall p :: p in files <==>
      root.listable && Found(root.children, [], 0, levels, extensions, p)
    ensures files == SortPaths(DirMatches(root, [], 0, levels, extensions))
  {
    var search := new FileSearch(extensions);
    search.SearchDirectory(root, [], 0, levels);
    var found := search.matchingFiles;
    assert found == DirMatches(root, [], 0, levels, extensions);
    files := SortPaths(found);
    SortKeepsMembers(found);
    forall p ensures p in found <==> root.listable && Found(root.children, [], 0, levels, extensions, p) {
      if root.listable {
        MatchesIff(root.children, [], 0, levels, extensions, p);
      }
    }
  }
}
