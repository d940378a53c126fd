/**
 * `main` of `concat_files.py`: the checks on the parsed command line, in
 * the order the script makes them, the default output file name, and the
 * exit status.  The clock (`datetime.now()`) is the parameter `today`, the
 * text `strftime("%Y-%m-%d")` gives; the folder is the tree of
 * `ConcatSearch`, `None` when the path does not exist.
 */
module ConcatMain {
  import opened Common
  import opened ConcatSearch
  import ConcatOutput

  const LevelsError := "Error: --levels must be 0 or greater"
  const TypesError := "Error: No file types specified. Use --types followed by extensions (e.g., --types txt md)"
  const InvalidChars := "<>:\"|?*"
  const FilenameError := "Error: Output filename contains invalid characters: " + InvalidChars

  /** The defaults of the argument parser. */
  const DefaultPath := "."
  const DefaultTypes := ["txt", "md"]
  const DefaultSep1 := "----"
  const DefaultSep2 := "===="
  const DefaultLevels := 0

  /** The parsed command line; `filename` is `None` when `--filename` is not given. */
  datatype Args = Args(path: string, filename: Option<string>, types: seq<string>, sep1: string, sep2: string, levels: int)

  /** What `--path` names. */
  datatype PathKind = Missing | NotADirectory | Directory

  /** Either the run goes on with this output file name, or the script exits with status 1 after printing `message`. */
  datatype Validated = Proceed(outputFilename: string) | Reject(message: string)

  function DefaultFilename(today: string): string
  {
    "concat_files_" + today + ".txt"
  }

  /** Some character of `InvalidChars` occurs in `name`. */
  predicate HasInvalidChar(name: string)
  {
    exists i :: 0 <= i < |name| && name[i] in InvalidChars
  }

  function MissingPathError(path: string): string
  {
    "\nError: The specified path does not exist: '" + path + "'"
  }

  function NotADirectoryError(path: string): string
  {
    "\nError: The specified path is not a directory: '" + path + "'"
  }

  /** The checks of `main`, made in order; the first that fails decides the message. */
  function Validate(args: Args, today: string, kind: PathKind): (r: Validated)
    ensures r.Reject? <==>
      || args.levels < 0 || args.types == []
      || (args.filename.Some? && HasInvalidChar(args.filename.value))
      || !kind.Directory?
    ensures args.levels < 0 ==> r == Reject(LevelsError)
    ensures args.levels >= 0 && args.types == [] ==> r == Reject(TypesError)
    ensures args.levels >= 0 && args.types != [] && args.filename.Some? && HasInvalidChar(args.filename.value)
      ==> r == Reject(FilenameError)
    ensures (args.levels >= 0 && args.types != [] && !(args.filename.Some? && HasInvalidChar(args.filename.value))
             && kind.Missing?) ==> r == Reject(MissingPathError(args.path))
    ensures (args.levels >= 0 && args.types != [] && !(args.filename.Some? && HasInvalidChar(args.filename.value))
             && kind.NotADirectory?) ==> r == Reject(NotADirectoryError(args.path))
    ensures r.Proceed? ==> r.outputFilename == if args.filename.Some? then args.filename.value else DefaultFilename(today)
    ensures r.Proceed? && args.filename.Some? ==> !HasInvalidChar(r.outputFilename)
  {
    if args.levels < 0 then Reject(LevelsError)
    else if args.types == [] then Reject(TypesError)
    else
      var outputFilename := if args.filename.None? then DefaultFilename(today) else args.filename.value;
      if args.filename.Some? && HasInvalidChar(outputFilename) then Reject(FilenameError)
      else if kind.Missing? then Reject(MissingPathError(args.path))
      else if kind.NotADirectory? then Reject(NotADirectoryError(args.path))
      else Proceed(outputFilename)
  }

  /** The default command line passes validation on an existing folder and writes `concat_files_<today>.txt`. */
  lemma DefaultsAccepted(today: string)
    ensures Validate(Args(DefaultPath, None, DefaultTypes, DefaultSep1, DefaultSep2, DefaultLevels), today, Directory)
      == Proceed(DefaultFilename(today))
  {
  }

  /** Each invalid character on its own is enough to reject a given file name. */
  lemma EachInvalidCharRejected(args: Args, today: string, kind: PathKind, k: nat)
    requires args.levels >= 0 && args.types != []
    requires args.filename.Some? && k < |InvalidChars| && InvalidChars[k] in args.filename.value
    ensures Validate(args, today, kind) == Reject(FilenameError)
  {
    var name := args.filename.value;
    var i :| 0 <= i < |name| && name[i] == InvalidChars[k];
    assert name[i] in InvalidChars;
  }

  function KindOf(root: Option<Entry>): PathKind
  {
    match root
    case None => Missing
    case Some(e) => if e.Dir? then Directory else NotADirectory
  }

  /**
   * `main`: validate, run `concat_files` with the output file at the top
   * of the folder, and exit with 0 exactly when it returned `True`.
   */
  method Run(args: Args, today: string, root: Option<Entry>, read: Path -> ConcatOutput.ReadResult, writeFails: bool)
    returns (exitStatus: int, written: Option<string>)
    ensures exitStatus == 0 || exitStatus == 1
    ensures Validate(args, today, KindOf(root)).Reject? ==> exitStatus == 1 && written.None?
    ensures exitStatus == 0 <==> written.Some?
    ensures exitStatus == 0 ==> args.levels >= 0 && root.Some? && root.value.Dir?
    ensures var v := Validate(args, today, KindOf(root));
      v.Proceed? ==>
        && args.levels >= 0 && root.Some? && root.value.Dir?
        && var selected := ConcatOutput.Selected(root.value, [v.outputFilename], args.types, args.levels as nat);
        && (exitStatus == 0 <==> selected != [] && !writeFails)
        && (exitStatus == 0 ==>
              written == Some(ConcatOutput.Rendered(ConcatOutput.ProcessedAll(selected, read), |selected|, args.sep1, args.sep2)))
  {
    var validated := Validate(args, today, KindOf(root));
    if validated.Reject? {
      return 1, None;
    }
    var success, text, _ := ConcatOutput.ConcatFiles(root, [validated.outputFilename], args.types,
                                                    args.sep1, args.sep2, args.levels, read, writeFails);
    exitStatus := if success then 0 else 1;
    written := text;
  }
}
