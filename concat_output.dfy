/**
 * The body of `concat_files` in `concat_files.py` after the search: the
 * output file is dropped from the matches, each match is read, and the
 * records are written one after another, each as its path, the first
 * separator, its content and the second separator.
 *
 * Reading a file (`read_file_content`, with its encoding fallbacks) is a
 * parameter `read`, and the separators arrive with their escape sequences
 * already processed.  The output file is the text the writer loop produces.
 */
module ConcatOutput {
  import opened Common
  import opened ConcatSearch

  /** `[f for f in files if f != output]`: the matches without the output file. */
  function ExcludeOutput(files: seq<Path>, output: Path): (r: seq<Path>)
    ensures forall p :: p in r <==> p in files && p != output
    ensures |r| <= |files|
  {
    if files == [] then []
    else if files[0] == output then ExcludeOutput(files[1..], output)
    else [files[0]] + ExcludeOutput(files[1..], output)
  }

  /** The filter works piece by piece, so the kept paths stay in their order. */
  lemma {:induction false} ExcludeOutputAppend(a: seq<Path>, b: seq<Path>, output: Path)
    ensures ExcludeOutput(a + b, output) == ExcludeOutput(a, output) + ExcludeOutput(b, output)
  {
    if a == [] {
      assert a + b == b;
    } else {
      assert (a + b)[0] == a[0] && (a + b)[1..] == a[1..] + b;
      ExcludeOutputAppend(a[1..], b, output);
    }
  }

  /** When the output file is not among the matches, the filter keeps them all. */
  lemma {:induction false} ExcludeOutputAbsent(files: seq<Path>, output: Path)
    requires output !in files
    ensures ExcludeOutput(files, output) == files
  {
    if files != [] {
      assert output !in files[1..] by {
        assert forall k :: 0 <= k < |files[1..]| ==> files[1..][k] == files[k + 1];
      }
      ExcludeOutputAbsent(files[1..], output);
    }
  }

  /** What `read_file_content` returns: `(success, content)`. */
  datatype ReadResult = ReadResult(success: bool, content: string)

  /** One tuple of `processed_file_data`. */
  datatype Processed = Processed(path: Path, content: string, success: bool)

  /** The `processed_file_data` list for `files`. */
  function ProcessedAll(files: seq<Path>, read: Path -> ReadResult): (r: seq<Processed>)
    ensures |r| == |files|
  {
    seq(|files|, i requires 0 <= i < |files| => Processed(files[i], read(files[i]).content, read(files[i]).success))
  }

  /** The read loop that fills `processed_file_data`. */
  method ProcessFiles(files: seq<Path>, read: Path -> ReadResult) returns (data: seq<Processed>)
    ensures data == ProcessedAll(files, read)
  {
    data := [];
    for i := 0 to |files|
      invariant data == ProcessedAll(files[..i], read)
    {
      var result := read(files[i]);
      data := data + [Processed(files[i], result.content, result.success)];
    }
    assert files[..|files|] == files;
  }

  /** A relative path as `str(path)` prints it: the components joined by `/`. */
  function PathText(p: Path): (t: string)
    ensures p == [] ==> t == "."
    ensures p != [] ==> |p[0]| <= |t| && t[..|p[0]|] == p[0]
  {
    if p == [] then "."
    else if |p| == 1 then p[0]
    else p[0] + "/" + PathText(p[1..])
  }

  /** `s.split('/')`. */
  function SplitSlash(s: string): (parts: seq<string>)
    ensures |parts| >= 1
  {
    if s == [] then [""]
    else
      var rest := SplitSlash(s[1..]);
      if s[0] == '/' then [""] + rest else [[s[0]] + rest[0]] + rest[1..]
  }

  predicate NoSlash(s: string)
  {
    forall i :: 0 <= i < |s| ==> s[i] != '/'
  }

  /** A character other than `/` joins the first part of what follows it. */
  lemma SplitSlashCons(c: char, u: string)
    requires c != '/'
    ensures SplitSlash([c] + u) == [[c] + SplitSlash(u)[0]] + SplitSlash(u)[1..]
  {
    assert ([c] + u)[1..] == u;
  }

  /** A leading run without `/` joins the first part of what follows it. */
  lemma {:induction false} SplitSlashPrefix(a: string, t: string)
    requires NoSlash(a)
    ensures SplitSlash(a + t) == [a + SplitSlash(t)[0]] + SplitSlash(t)[1..]
  {
    var parts := SplitSlash(t);
    if a == [] {
      assert a + t == t && a + parts[0] == parts[0];
      assert parts == [parts[0]] + parts[1..];
    } else {
      var tail := a[1..];
      assert NoSlash(tail) by {
        forall i | 0 <= i < |tail| ensures tail[i] != '/' {
          assert tail[i] == a[i + 1];
        }
      }
      SplitSlashPrefix(tail, t);
      assert a + t == [a[0]] + (tail + t);
      SplitSlashCons(a[0], tail + t);
      assert [a[0]] + (tail + parts[0]) == a + parts[0];
    }
  }

  /**
   * Splitting the printed path on `/` gives back its components, as long as
   * no component holds a `/` (which a file name cannot).
   */
  lemma {:induction false} PathTextSplits(p: Path)
    requires p != []
    requires forall i :: 0 <= i < |p| ==> NoSlash(p[i])
    ensures SplitSlash(PathText(p)) == p
  {
    if |p| == 1 {
      SplitSlashPrefix(p[0], "");
      assert p[0] + "" == p[0];
    } else {
      var tail := PathText(p[1..]);
      PathTextSplits(p[1..]);
      SplitSlashPrefix(p[0], "/" + tail);
      assert ("/" + tail)[0] == '/' && ("/" + tail)[1..] == tail;
      var parts := SplitSlash("/" + tail);
      assert parts == [""] + p[1..];
      assert parts[0] == "" && parts[1..] == p[1..];
      assert PathText(p) == p[0] + ("/" + tail);
      assert p[0] + "" == p[0];
      assert p == [p[0]] + p[1..];
    }
  }

  /** The content as written: with a newline added when it is non-empty and does not end with one. */
  function ContentBlock(content: string): (b: string)
    ensures b == content || b == content + "\n"
    ensures b == [] <==> content == []
    ensures b != [] ==> b[|b| - 1] == '\n'
    ensures b == content + "\n" <==> content != [] && content[|content| - 1] != '\n'
  {
    if content != [] && content[|content| - 1] != '\n' then content + "\n" else content
  }

  /** The text written before the content: the path line and the first separator line. */
  function Header(r: Processed, sep1: string): string
  {
    PathText(r.path) + "\n" + sep1 + "\n"
  }

  /** The text written after the content: the second separator, then one blank line unless this is the last record. */
  function Trailer(sep2: string, last: bool): string
  {
    sep2 + (if last then "\n" else "\n\n")
  }

  /** One record of the output file. */
  function Record(r: Processed, sep1: string, sep2: string, last: bool): (rec: string)
    ensures OccursAt(rec, r.content, |Header(r, sep1)|)
    ensures EndsWith(rec, "\n")
  {
    var h, b, t := Header(r, sep1), ContentBlock(r.content), Trailer(sep2, last);
    ThreeParts(h, r.content, b, t);
    h + b + t
  }

  /** Text `c`, possibly followed by one more character, between `h` and a non-empty `t`. */
  lemma ThreeParts(h: string, c: string, b: string, t: string)
    requires b == c || b == c + "\n"
    requires t != [] && t[|t| - 1] == '\n'
    ensures OccursAt(h + b + t, c, |h|)
    ensures EndsWith(h + b + t, "\n")
  {
    assert (h + b + t)[|h|..|h| + |c|] == b[..|c|];
    assert (h + b + t)[|h + b + t| - 1..] == [t[|t| - 1]];
  }

  /**
   * The content appears verbatim right after the header, and the second
   * separator always starts a line of its own.
   */
  lemma RecordShape(r: Processed, sep1: string, sep2: string, last: bool)
    ensures var rec, h, t := Record(r, sep1, sep2, last), Header(r, sep1), Trailer(sep2, last);
      && |h| + |r.content| + |t| <= |rec|
      && rec[..|h|] == h
      && rec[|h|..|h| + |r.content|] == r.content
      && rec[|rec| - |t|..] == t
      && rec[|rec| - |t| - 1] == '\n'
  {
    var rec, h, b, t := Record(r, sep1, sep2, last), Header(r, sep1), ContentBlock(r.content), Trailer(sep2, last);
    assert rec == h + b + t;
    assert rec[..|h|] == h;
    assert rec[|h|..|h| + |r.content|] == b[..|r.content|];
    assert rec[|rec| - |t|..] == t;
    if b == [] {
      assert rec[|rec| - |t| - 1] == h[|h| - 1];
    } else {
      assert rec[|rec| - |t| - 1] == b[|b| - 1];
    }
  }

  /** The first `n` records of the output, the last of all records ending without the blank line. */
  function Rendered(records: seq<Processed>, n: nat, sep1: string, sep2: string): string
    requires n <= |records|
  {
    if n == 0 then ""
    else Rendered(records, n - 1, sep1, sep2) + Record(records[n - 1], sep1, sep2, n == |records|)
  }

  /** `s.endswith(t)`. */
  predicate EndsWith(s: string, t: string)
  {
    |t| <= |s| && s[|s| - |t|..] == t
  }

  /** A tail of `b` is a tail of `a + b`. */
  lemma TailOfAppend(a: string, b: string, t: string)
    requires EndsWith(b, t)
    ensures EndsWith(a + b, t)
  {
    assert (a + b)[|a + b| - |t|..] == b[|b| - |t|..];
  }

  /** A text ending with `t` ends with every tail of `t`. */
  lemma TailOfTail(s: string, t: string, k: nat)
    requires EndsWith(s, t) && k <= |t|
    ensures EndsWith(s, t[|t| - k..])
  {
    assert s[|s| - k..] == s[|s| - |t|..][|t| - k..];
  }

  /** A record ends with its trailer. */
  lemma RecordEndsWithTrailer(r: Processed, sep1: string, sep2: string, last: bool)
    ensures EndsWith(Record(r, sep1, sep2, last), Trailer(sep2, last))
  {
    var h, b, t := Header(r, sep1), ContentBlock(r.content), Trailer(sep2, last);
    assert EndsWith(t, t);
    TailOfAppend(h + b, t, t);
  }

  /** The first `n` records end with the trailer of the `n`-th. */
  lemma RenderedEndsWithTrailer(records: seq<Processed>, n: nat, sep1: string, sep2: string)
    requires 0 < n <= |records|
    ensures EndsWith(Rendered(records, n, sep1, sep2), Trailer(sep2, n == |records|))
  {
    var prev, rec := Rendered(records, n - 1, sep1, sep2), Record(records[n - 1], sep1, sep2, n == |records|);
    assert Rendered(records, n, sep1, sep2) == prev + rec;
    RecordEndsWithTrailer(records[n - 1], sep1, sep2, n == |records|);
    TailOfAppend(prev, rec, Trailer(sep2, n == |records|));
  }

  /** The whole output file ends with the second separator and a single newline. */
  lemma OutputEnds(records: seq<Processed>, sep1: string, sep2: string)
    requires records != []
    ensures EndsWith(Rendered(records, |records|, sep1, sep2), sep2 + "\n")
  {
    RenderedEndsWithTrailer(records, |records|, sep1, sep2);
  }

  /** Every record other than the last is followed by a blank line after its second separator. */
  lemma BlankLineBetween(records: seq<Processed>, n: nat, sep1: string, sep2: string)
    requires 0 < n < |records|
    ensures EndsWith(Rendered(records, n, sep1, sep2), sep2 + "\n\n")
    ensures EndsWith(Rendered(records, n, sep1, sep2), "\n\n")
  {
    var t := sep2 + "\n\n";
    RenderedEndsWithTrailer(records, n, sep1, sep2);
    TailOfTail(Rendered(records, n, sep1, sep2), t, 2);
    assert t[|t| - 2..] == "\n\n";
  }

  /** The writes of one loop iteration: path line, first separator line, content, second separator. */
  method WriteRecord(r: Processed, sep1: string, sep2: string, last: bool) returns (piece: string)
    ensures piece == Record(r, sep1, sep2, last)
  {
    var header := PathText(r.path) + "\n";
    header := header + sep1 + "\n";
    var block := r.content;
    if r.content != "" && r.content[|r.content| - 1] != '\n' {
      block := block + "\n";
    }
    var trailer;
    if last {
      trailer := sep2 + "\n";
    } else {
      trailer := sep2 + "\n\n";
    }
    assert header == Header(r, sep1) && block == ContentBlock(r.content) && trailer == Trailer(sep2, last);
    piece := header + block + trailer;
  }

  /** The writer loop over `enumerate(processed_file_data)`. */
  method WriteOutput(records: seq<Processed>, sep1: string, sep2: string) returns (text: string)
    ensures text == Rendered(records, |records|, sep1, sep2)
  {
    text := "";
    var i := 0;
    while i < |records|
      invariant 0 <= i <= |records|
      invariant text == Rendered(records, i, sep1, sep2)
    {
      var piece := WriteRecord(records[i], sep1, sep2, !(i < |records| - 1));
      assert Rendered(records, i + 1, sep1, sep2) == Rendered(records, i, sep1, sep2) + piece;
      text := text + piece;
      i := i + 1;
    }
  }

  /** The number of records whose read succeeded: `sum(1 for _, _, success in ... if success)`. */
  function SuccessCount(records: seq<Processed>): (n: nat)
    ensures n <= |records|
  {
    if records == [] then 0
    else SuccessCount(records[..|records| - 1]) + (if records[|records| - 1].success then 1 else 0)
  }

  /** Every read succeeded exactly when the count is the number of records, and none did exactly when it is 0. */
  lemma {:induction false} SuccessCountExtremes(records: seq<Processed>)
    ensures SuccessCount(records) == |records| <==> forall i :: 0 <= i < |records| ==> records[i].success
    ensures SuccessCount(records) == 0 <==> forall i :: 0 <= i < |records| ==> !records[i].success
  {
    if records != [] {
      var init := records[..|records| - 1];
      SuccessCountExtremes(init);
      assert forall i :: 0 <= i < |init| ==> init[i] == records[i];
    }
  }

  /** `successful_reads`, counted over `processed_file_data`. */
  method CountSuccessfulReads(records: seq<Processed>) returns (count: nat)
    ensures count == SuccessCount(records)
  {
    count := 0;
    for i := 0 to |records|
      invariant count == SuccessCount(records[..i])
    {
      assert records[..i + 1][..i] == records[..i];
      if records[i].success {
        count := count + 1;
      }
    }
    assert records[..|records|] == records;
  }

  /** The list `normalize_extensions` returns. */
  function NormalizedAll(extensions: seq<string>): (r: seq<string>)
    ensures |r| == |extensions|
  {
    seq(|extensions|, i requires 0 <= i < |extensions| => NormalizeExtension(extensions[i]))
  }

  /** The files `concat_files` processes: the sorted matches without the output file. */
  function Selected(root: Entry, output: Path, extensions: seq<string>, levels: nat): seq<Path>
    requires root.Dir?
  {
    ExcludeOutput(SortPaths(DirMatches(root, [], 0, levels, NormalizedAll(extensions))), output)
  }

  /**
   * A file is processed exactly when it is a match of the search and not
   * the output file.
   */
  lemma SelectedIff(root: Entry, output: Path, extensions: seq<string>, levels: nat, p: Path)
    requires root.Dir?
    ensures p in Selected(root, output, extensions, levels) <==>
      p != output && root.listable && Found(root.children, [], 0, levels, NormalizedAll(extensions), p)
  {
    var exts := NormalizedAll(extensions);
    SortKeepsMembers(DirMatches(root, [], 0, levels, exts));
    if root.listable {
      MatchesIff(root.children, [], 0, levels, exts, p);
    }
  }

  /**
   * `concat_files(folder, output_filename, extensions, sep1, sep2, levels)`.
   * `root` is the folder (`None` when it does not exist), `output` the
   * output file's path relative to it, and `writeFails` whether opening or
   * writing the output file raises.  The result is the returned flag, the
   * text of the output file when it was written, and `successful_reads`.
   */
  method ConcatFiles(root: Option<Entry>, output: Path, extensions: seq<string>, sep1: string, sep2: string,
                     levels: nat, read: Path -> ReadResult, writeFails: bool)
    returns (success: bool, written: Option<string>, successfulReads: nat)
    ensures success <==> written.Some?
    ensures !(root.Some? && root.value.Dir?) ==> !success
    ensures root.Some? && root.value.Dir? ==>
      var selected := Selected(root.value, output, extensions, levels);
      && (success <==> selected != [] && !writeFails)
      && (success ==> written.value == Rendered(ProcessedAll(selected, read), |selected|, sep1, sep2))
      && (success ==> successfulReads == SuccessCount(ProcessedAll(selected, read)))
  {
    success, written, successfulReads := false, None, 0;
    if root.None? || !root.value.Dir? {
      return;
    }
    var normalized := NormalizeExtensions(extensions);
    assert normalized == NormalizedAll(extensions);
    var matching := FindMatchingFiles(root.value, normalized, levels);
    matching := ExcludeOutput(matching, output);
    if matching == [] {
      return;
    }
    var data := ProcessFiles(matching, read);
    if writeFails {
      return;
    }
    var text := WriteOutput(data, sep1, sep2);
    successfulReads := CountSuccessfulReads(data);
    success, written := true, Some(text);
  }
}
