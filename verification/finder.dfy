/**
 * `find_build_dependencies` of `finder.py`: fetch a package's source
 * archive, look for `pyproject.toml`, `setup.cfg` and `setup.py` under the
 * archive's root directory, in that order, and concatenate what the parsers
 * of the files that are present give. A `setup.py` the evaluator cannot
 * handle either raises or, in the lenient mode, is logged and skipped.
 *
 * Fetching the archive, UTF-8 decoding and the TOML, INI and Python parsers
 * are library calls; they are the fields of `Libraries`.
 */
module Finder {
  import opened Wrappers
  import opened Text
  import Parsers
  import SetupPy

  newtype byte = x: int | 0 <= x < 256

  /** A source archive: its member names in archive order, and the contents of its regular files. */
  datatype Archive = Archive(names: seq<string>, members: map<string, seq<byte>>)

  datatype Package = Package(name: string, version: string)

  /** The library calls the finder makes. */
  datatype Libraries = Libraries(
    fetch: Package -> Result<Archive, string>,
    decodeUtf8: seq<byte> -> Option<string>,
    loads: string -> Result<Parsers.TomlDocument, string>,
    readString: string -> Result<Parsers.IniDocument, string>,
    parsePython: string -> Option<SetupPy.Module>)

  /** The keys of `file_parser_map`. */
  datatype BuildFile = PyprojectToml | SetupCfg | SetupPyFile {
    function FileName(): string {
      match this
      case PyprojectToml => "pyproject.toml"
      case SetupCfg => "setup.cfg"
      case SetupPyFile => "setup.py"
    }
  }

  /** The order in which the map is walked. */
  const BuildFiles: seq<BuildFile> := [PyprojectToml, SetupCfg, SetupPyFile]

  /** What can go wrong; only a `setup.py` the evaluator rejects is ever caught. */
  datatype FinderError =
    | SourceUnavailable(reason: string)       // whatever fetching the source raises
    | NoMembers                               // `getnames()[0]` of an empty archive: `IndexError`
    | UndecodableFile(path: string)           // `UnicodeDecodeError`
    | ParserFailure(cause: Parsers.ParseError) // TOML or INI reader errors
    | SetupPyParsing(message: string)         // re-raised `SetupPyParsingError`
    | Recursion                               // `RecursionError` out of the `setup.py` evaluator

  /** What one parser reports. */
  datatype FileError = DeclarativeError(readerError: Parsers.ParseError) | SetupPyError(evaluatorError: SetupPy.SetupPyError)

  /** What a file, or the whole walk, adds: dependencies and error-level log lines. */
  datatype Found = Found(deps: seq<string>, logged: seq<string>)

  /** Result and log of a walk; the log is kept when the walk stops at an error. */
  datatype Outcome = Outcome(result: Result<seq<string>, FinderError>, logged: seq<string>)

  /** `s.split("/")[0]`: everything before the first `/`. */
  function FirstSegment(s: string): (r: string)
    ensures |r| <= |s| && r == s[..|r|]
    ensures forall i :: 0 <= i < |r| ==> r[i] != '/'
    ensures |r| == |s| || s[|r|] == '/'
  {
    if s == [] || s[0] == '/' then [] else [s[0]] + FirstSegment(s[1..])
  }

  /** `f"{root_dir}/{file_name}"`, with the root taken from the first member name. */
  function MemberPath(firstName: string, file: BuildFile): string {
    FirstSegment(firstName) + "/" + file.FileName()
  }

  const BOM: char := '\U{FEFF}'

  /** The "utf-8-sig" codec: UTF-8, less one leading byte-order mark. */
  function DecodeSig(decodeUtf8: seq<byte> -> Option<string>, bytes: seq<byte>): (r: Option<string>)
    ensures r.Some? <==> decodeUtf8(bytes).Some?
    ensures r.Some? ==> decodeUtf8(bytes).value == (if decodeUtf8(bytes).value != [] && decodeUtf8(bytes).value[0] == BOM then [BOM] else []) + r.value
  {
    match decodeUtf8(bytes)
    case None => None
    case Some(s) => if s != [] && s[0] == BOM then Some(s[1..]) else Some(s)
  }

  /** The parser `file_parser_map` assigns to a file. */
  function ParseBuildFile(libs: Libraries, file: BuildFile, text: string): (r: Result<seq<string>, FileError>)
    ensures file != SetupPyFile ==> r.Err? ==> r.error.DeclarativeError?
    ensures file == SetupPyFile ==> r.Err? ==> r.error.SetupPyError?
  {
    match file
    case PyprojectToml =>
      (match Parsers.ParsePyprojectToml(libs.loads, text)
       case Ok(deps) => Ok(deps)
       case Err(e) => Err(DeclarativeError(e)))
    case SetupCfg =>
      (match Parsers.ParseSetupCfg(libs.readString, text)
       case Ok(deps) => Ok(deps)
       case Err(e) => Err(DeclarativeError(e)))
    case SetupPyFile =>
      (match SetupPy.ParseSetupPy(libs.parsePython, text)
       case Ok(deps) => Ok(deps)
       case Err(e) => Err(SetupPyError(e)))
  }

  function UnableToParse(pkg: Package): string {
    "Unable to parse setup.py for package " + pkg.name + "==" + pkg.version + "."
  }

  /** One pass of the loop body, for one file of the map. */
  function Consult(libs: Libraries, archive: Archive, file: BuildFile, pkg: Package, strict: bool): Result<Found, FinderError> {
    if |archive.names| == 0 then Err(NoMembers)
    else
      var path := MemberPath(archive.names[0], file);
      if path !in archive.members then Ok(Found([], []))
      else
        match DecodeSig(libs.decodeUtf8, archive.members[path])
        case None => Err(UndecodableFile(path))
        case Some(text) =>
          match ParseBuildFile(libs, file, text)
          case Ok(deps) => Ok(Found(deps, []))
          case Err(DeclarativeError(e)) => Err(ParserFailure(e))
          case Err(SetupPyError(RecursionError)) => Err(Recursion)
          case Err(SetupPyError(SetupPyParsingError)) =>
            if strict then Err(SetupPyParsing(UnableToParse(pkg)))
            else Ok(Found([], [UnableToParse(pkg)]))
  }

  /** One more pass after `before`: an earlier error stands, a new one ends the walk, or the outputs are appended. */
  function Step(before: Outcome, next: Result<Found, FinderError>): Outcome {
    if before.result.Err? then before
    else
      match next
      case Err(e) => Outcome(Err(e), before.logged)
      case Ok(found) => Outcome(Ok(before.result.value + found.deps), before.logged + found.logged)
  }

  /** The loop over `files`, as a left fold that stops at the first error. */
  function Gather(libs: Libraries, archive: Archive, files: seq<BuildFile>, pkg: Package, strict: bool): Outcome
    decreases |files|
  {
    if files == [] then Outcome(Ok([]), [])
    else
      Step(Gather(libs, archive, files[..|files| - 1], pkg, strict), Consult(libs, archive, files[|files| - 1], pkg, strict))
  }

  lemma GatherStep(libs: Libraries, archive: Archive, files: seq<BuildFile>, file: BuildFile, pkg: Package, strict: bool)
    ensures Gather(libs, archive, files + [file], pkg, strict)
         == Step(Gather(libs, archive, files, pkg, strict), Consult(libs, archive, file, pkg, strict))
  {
    assert (files + [file])[..|files|] == files;
  }

  /** Once a pass fails, the remaining passes change nothing. */
  lemma {:induction false} ErrorStands(libs: Libraries, archive: Archive, files: seq<BuildFile>, k: nat, pkg: Package, strict: bool)
    requires k <= |files|
    requires Gather(libs, archive, files[..k], pkg, strict).result.Err?
    ensures Gather(libs, archive, files, pkg, strict) == Gather(libs, archive, files[..k], pkg, strict)
    decreases |files| - k
  {
    if k < |files| {
      assert files[..k + 1] == files[..k] + [files[k]];
      GatherStep(libs, archive, files[..k], files[k], pkg, strict);
      ErrorStands(libs, archive, files, k + 1, pkg, strict);
    } else {
      assert files[..k] == files;
    }
  }

  /** The three files, one pass each. */
  lemma GatherBuildFiles(libs: Libraries, archive: Archive, pkg: Package, strict: bool)
    ensures Gather(libs, archive, BuildFiles, pkg, strict)
         == Step(Step(Step(Outcome(Ok([]), []),
                           Consult(libs, archive, PyprojectToml, pkg, strict)),
                      Consult(libs, archive, SetupCfg, pkg, strict)),
                 Consult(libs, archive, SetupPyFile, pkg, strict))
  {
    GatherStep(libs, archive, [], PyprojectToml, pkg, strict);
    GatherStep(libs, archive, [PyprojectToml], SetupCfg, pkg, strict);
    GatherStep(libs, archive, [PyprojectToml, SetupCfg], SetupPyFile, pkg, strict);
  }

  /** The whole of `find_build_dependencies`. */
  function Find(libs: Libraries, pkg: Package, strict: bool): Outcome {
    match libs.fetch(pkg)
    case Err(reason) => Outcome(Err(SourceUnavailable(reason)), [])
    case Ok(archive) => Gather(libs, archive, BuildFiles, pkg, strict)
  }

  /**
   * `find_build_dependencies(package_name, version, raise_setuppy_parsing_exc)`:
   * returns the dependencies, or the error raised, and the lines logged at
   * error level.
   */
  method FindBuildDependencies(libs: Libraries, pkg: Package, raiseSetupPyParsingExc: bool)
    returns (r: Result<seq<string>, FinderError>, errorLog: seq<string>)
    ensures Outcome(r, errorLog) == Find(libs, pkg, raiseSetupPyParsingExc)
  {
    errorLog := [];
    var source := libs.fetch(pkg);
    if source.Err? {
      return Err(SourceUnavailable(source.error)), errorLog;
    }
    var archive := source.value;
    var buildDependencies: seq<string> := [];
    var i := 0;
    while i < |BuildFiles|
      invariant 0 <= i <= |BuildFiles|
      invariant Gather(libs, archive, BuildFiles[..i], pkg, raiseSetupPyParsingExc) == Outcome(Ok(buildDependencies), errorLog)
    {
      var file := BuildFiles[i];
      assert BuildFiles[..i + 1] == BuildFiles[..i] + [file];
      GatherStep(libs, archive, BuildFiles[..i], file, pkg, raiseSetupPyParsingExc);
      if |archive.names| == 0 {
        ErrorStands(libs, archive, BuildFiles, i + 1, pkg, raiseSetupPyParsingExc);
        return Err(NoMembers), errorLog;
      }
      var path := MemberPath(archive.names[0], file);
      if path !in archive.members {
        assert buildDependencies + [] == buildDependencies && errorLog + [] == errorLog;
        i := i + 1;
        continue;
      }
      var contents := DecodeSig(libs.decodeUtf8, archive.members[path]);
      if contents.None? {
        ErrorStands(libs, archive, BuildFiles, i + 1, pkg, raiseSetupPyParsingExc);
        return Err(UndecodableFile(path)), errorLog;
      }
      var parsed := ParseBuildFile(libs, file, contents.value);
      match parsed {
        case Ok(deps) =>
          assert errorLog + [] == errorLog;
          buildDependencies := buildDependencies + deps;
        case Err(DeclarativeError(e)) =>
          ErrorStands(libs, archive, BuildFiles, i + 1, pkg, raiseSetupPyParsingExc);
          return Err(ParserFailure(e)), errorLog;
        case Err(SetupPyError(RecursionError)) =>
          ErrorStands(libs, archive, BuildFiles, i + 1, pkg, raiseSetupPyParsingExc);
          return Err(Recursion), errorLog;
        case Err(SetupPyError(SetupPyParsingError)) =>
          var message := UnableToParse(pkg);
          if raiseSetupPyParsingExc {
            ErrorStands(libs, archive, BuildFiles, i + 1, pkg, raiseSetupPyParsingExc);
            return Err(SetupPyParsing(message)), errorLog;
          }
          assert buildDependencies + [] == buildDependencies;
          errorLog := errorLog + [message];
      }
      i := i + 1;
    }
    assert BuildFiles[..i] == BuildFiles;
    return Ok(buildDependencies), errorLog;
  }

  // ------------------------------------------------------------ properties

  /** The concatenation of several outputs, first to last. */
  function Concat(outs: seq<seq<string>>): seq<string>
    decreases |outs|
  {
    if outs == [] then [] else Concat(outs[..|outs| - 1]) + outs[|outs| - 1]
  }

  /**
   * When every file goes through without an error or a log line, the result
   * is the concatenation of all their outputs in order: a file that gives
   * dependencies does not end the search.
   */
  lemma {:induction false} GatherConcatenates(libs: Libraries, archive: Archive, files: seq<BuildFile>, pkg: Package, strict: bool, outs: seq<seq<string>>)
    requires |outs| == |files|
    requires forall i :: 0 <= i < |files| ==> Consult(libs, archive, files[i], pkg, strict) == Ok(Found(outs[i], []))
    ensures Gather(libs, archive, files, pkg, strict) == Outcome(Ok(Concat(outs)), [])
    decreases |files|
  {
    if files != [] {
      var n := |files| - 1;
      GatherConcatenates(libs, archive, files[..n], pkg, strict, outs[..n]);
      assert Consult(libs, archive, files[n], pkg, strict) == Ok(Found(outs[n], []));
    }
  }

  /** The three files' outputs, concatenated in the map's order. */
  lemma AllPresentFilesConcatenated(libs: Libraries, pkg: Package, strict: bool, a: seq<string>, b: seq<string>, c: seq<string>)
    requires libs.fetch(pkg).Ok?
    requires Consult(libs, libs.fetch(pkg).value, PyprojectToml, pkg, strict) == Ok(Found(a, []))
    requires Consult(libs, libs.fetch(pkg).value, SetupCfg, pkg, strict) == Ok(Found(b, []))
    requires Consult(libs, libs.fetch(pkg).value, SetupPyFile, pkg, strict) == Ok(Found(c, []))
    ensures Find(libs, pkg, strict) == Outcome(Ok(a + b + c), [])
  {
    var archive := libs.fetch(pkg).value;
    GatherBuildFiles(libs, archive, pkg, strict);
    var none: seq<string> := [];
    assert none + a == a && none + none == none;
    var first := Step(Outcome(Ok([]), []), Consult(libs, archive, PyprojectToml, pkg, strict));
    assert first == Outcome(Ok(a), []);
    var second := Step(first, Consult(libs, archive, SetupCfg, pkg, strict));
    assert second == Outcome(Ok(a + b), []);
  }

  /**
   * A file present in the archive is decoded and handed to its parser, less
   * one leading byte-order mark when it has one and unchanged otherwise.
   */
  lemma PresentFileIsParsed(libs: Libraries, archive: Archive, file: BuildFile, pkg: Package, strict: bool,
                            raw: string, text: string, deps: seq<string>)
    requires |archive.names| > 0
    requires MemberPath(archive.names[0], file) in archive.members
    requires libs.decodeUtf8(archive.members[MemberPath(archive.names[0], file)]) == Some(raw)
    requires raw == [BOM] + text || (raw == text && (text == [] || text[0] != BOM))
    requires ParseBuildFile(libs, file, text) == Ok(deps)
    ensures Consult(libs, archive, file, pkg, strict) == Ok(Found(deps, []))
  {
    if raw == [BOM] + text {
      assert raw[1..] == text;
    }
  }

  /** A file missing from the archive contributes nothing and raises nothing. */
  lemma AbsentFileContributesNothing(libs: Libraries, archive: Archive, file: BuildFile, pkg: Package, strict: bool)
    requires |archive.names| > 0
    requires MemberPath(archive.names[0], file) !in archive.members
    ensures Consult(libs, archive, file, pkg, strict) == Ok(Found([], []))
  {
  }

  /** An archive with none of the three files gives `[]`. */
  lemma NoBuildFileGivesEmpty(libs: Libraries, pkg: Package, strict: bool)
    requires libs.fetch(pkg).Ok? && |libs.fetch(pkg).value.names| > 0
    requires forall f :: MemberPath(libs.fetch(pkg).value.names[0], f) !in libs.fetch(pkg).value.members
    ensures Find(libs, pkg, strict) == Outcome(Ok([]), [])
  {
    AllPresentFilesConcatenated(libs, pkg, strict, [], [], []);
  }

  /** An empty archive raises `IndexError` at the first file. */
  lemma EmptyArchiveRaises(libs: Libraries, pkg: Package, strict: bool)
    requires libs.fetch(pkg).Ok? && libs.fetch(pkg).value.names == []
    ensures Find(libs, pkg, strict) == Outcome(Err(NoMembers), [])
  {
    GatherBuildFiles(libs, libs.fetch(pkg).value, pkg, strict);
  }

  /** With the flag set, a rejected `setup.py` raises `SetupPyParsingError` with the package in the message. */
  lemma StrictSetupPyFailureRaises(libs: Libraries, pkg: Package, a: seq<string>, b: seq<string>)
    requires libs.fetch(pkg).Ok?
    requires Consult(libs, libs.fetch(pkg).value, PyprojectToml, pkg, true) == Ok(Found(a, []))
    requires Consult(libs, libs.fetch(pkg).value, SetupCfg, pkg, true) == Ok(Found(b, []))
    requires Consult(libs, libs.fetch(pkg).value, SetupPyFile, pkg, false) == Ok(Found([], [UnableToParse(pkg)]))
    ensures Find(libs, pkg, true) == Outcome(Err(SetupPyParsing("Unable to parse setup.py for package " + pkg.name + "==" + pkg.version + ".")), [])
  {
    var archive := libs.fetch(pkg).value;
    GatherBuildFiles(libs, archive, pkg, true);
    assert Consult(libs, archive, SetupPyFile, pkg, true) == Err(SetupPyParsing(UnableToParse(pkg)));
  }

  /**
   * Without the flag, the same `setup.py` only adds the message to the log:
   * the other files' dependencies are still returned.
   */
  lemma LenientSetupPyFailureIsLogged(libs: Libraries, pkg: Package, a: seq<string>, b: seq<string>)
    requires libs.fetch(pkg).Ok?
    requires Consult(libs, libs.fetch(pkg).value, PyprojectToml, pkg, false) == Ok(Found(a, []))
    requires Consult(libs, libs.fetch(pkg).value, SetupCfg, pkg, false) == Ok(Found(b, []))
    requires Consult(libs, libs.fetch(pkg).value, SetupPyFile, pkg, false) == Ok(Found([], [UnableToParse(pkg)]))
    ensures Find(libs, pkg, false) == Outcome(Ok(a + b), ["Unable to parse setup.py for package " + pkg.name + "==" + pkg.version + "."])
  {
    var archive := libs.fetch(pkg).value;
    GatherBuildFiles(libs, archive, pkg, false);
    var none: seq<string> := [];
    assert none + a == a && none + none == none;
    var first := Step(Outcome(Ok([]), []), Consult(libs, archive, PyprojectToml, pkg, false));
    assert first == Outcome(Ok(a), []);
    var second := Step(first, Consult(libs, archive, SetupCfg, pkg, false));
    assert second == Outcome(Ok(a + b), []);
    assert a + b + [] == a + b;
  }

  /** A `setup.py` the evaluator rejects is the only failure the flag decides; it is logged only when not raised. */
  lemma SetupPyPolicy(libs: Libraries, archive: Archive, pkg: Package, strict: bool)
    requires |archive.names| > 0
    requires MemberPath(archive.names[0], SetupPyFile) in archive.members
    requires DecodeSig(libs.decodeUtf8, archive.members[MemberPath(archive.names[0], SetupPyFile)]).Some?
    requires SetupPy.ParseSetupPy(libs.parsePython,
               DecodeSig(libs.decodeUtf8, archive.members[MemberPath(archive.names[0], SetupPyFile)]).value)
             == Err(SetupPy.SetupPyParsingError)
    ensures strict ==> Consult(libs, archive, SetupPyFile, pkg, strict) == Err(SetupPyParsing(UnableToParse(pkg)))
    ensures !strict ==> Consult(libs, archive, SetupPyFile, pkg, strict) == Ok(Found([], [UnableToParse(pkg)]))
  {
  }

  /** Every other parser failure propagates whatever the flag says. */
  lemma OtherFailuresPropagate(libs: Libraries, archive: Archive, file: BuildFile, pkg: Package, text: string)
    requires |archive.names| > 0
    requires MemberPath(archive.names[0], file) in archive.members
    requires DecodeSig(libs.decodeUtf8, archive.members[MemberPath(archive.names[0], file)]) == Some(text)
    requires ParseBuildFile(libs, file, text).Err?
    requires ParseBuildFile(libs, file, text).error != SetupPyError(SetupPy.SetupPyParsingError)
    ensures Consult(libs, archive, file, pkg, true).Err?
    ensures Consult(libs, archive, file, pkg, false) == Consult(libs, archive, file, pkg, true)
  {
  }

  /** Only `setup.py` can write to the log. */
  lemma DeclarativeFilesLogNothing(libs: Libraries, archive: Archive, file: BuildFile, pkg: Package, strict: bool)
    requires file != SetupPyFile
    requires Consult(libs, archive, file, pkg, strict).Ok?
    ensures Consult(libs, archive, file, pkg, strict).value.logged == []
  {
  }

  /** `setup.py` comes last, so a raised error was never logged first. */
  lemma ErrorsLeaveNoLog(libs: Libraries, pkg: Package, strict: bool)
    requires Find(libs, pkg, strict).result.Err?
    ensures Find(libs, pkg, strict).logged == []
  {
    if libs.fetch(pkg).Ok? {
      var archive := libs.fetch(pkg).value;
      GatherBuildFiles(libs, archive, pkg, strict);
      if Consult(libs, archive, PyprojectToml, pkg, strict).Ok? {
        DeclarativeFilesLogNothing(libs, archive, PyprojectToml, pkg, strict);
      }
      if Consult(libs, archive, SetupCfg, pkg, strict).Ok? {
        DeclarativeFilesLogNothing(libs, archive, SetupCfg, pkg, strict);
      }
    }
  }
}
