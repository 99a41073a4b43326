/**
 * The older `find_build_dependencies` of `find_build_dependencies.py`: the
 * same walk over `pyproject.toml`, `setup.cfg` and `setup.py`, but the
 * files are decoded as plain UTF-8 (a byte-order mark stays in the text)
 * and every parser failure propagates, `SetupPyParsingError` included.
 */
module LegacyFinder {
  import opened Wrappers
  import opened Finder

  datatype LegacyError =
    | FetchFailed(reason: string)
    | EmptyArchive
    | NotUtf8(path: string)
    | ParseFailure(failure: FileError)

  /** One pass of the loop body. */
  function LegacyConsult(libs: Libraries, archive: Archive, file: BuildFile): Result<seq<string>, LegacyError> {
    if |archive.names| == 0 then Err(EmptyArchive)
    else
      var path := MemberPath(archive.names[0], file);
      if path !in archive.members then Ok([])
      else
        match libs.decodeUtf8(archive.members[path])
        case None => Err(NotUtf8(path))
        case Some(text) =>
          match ParseBuildFile(libs, file, text)
          case Ok(deps) => Ok(deps)
          case Err(e) => Err(ParseFailure(e))
  }

  function LegacyStep(before: Result<seq<string>, LegacyError>, next: Result<seq<string>, LegacyError>): Result<seq<string>, LegacyError> {
    if before.Err? then before
    else
      match next
      case Err(e) => Err(e)
      case Ok(deps) => Ok(before.value + deps)
  }

  /** The loop over `files`, as a left fold that stops at the first error. */
  function LegacyGather(libs: Libraries, archive: Archive, files: seq<BuildFile>): Result<seq<string>, LegacyError>
    decreases |files|
  {
    if files == [] then Ok([])
    else LegacyStep(LegacyGather(libs, archive, files[..|files| - 1]), LegacyConsult(libs, archive, files[|files| - 1]))
  }

  function LegacyFind(libs: Libraries, pkg: Package): Result<seq<string>, LegacyError> {
    match libs.fetch(pkg)
    case Err(reason) => Err(FetchFailed(reason))
    case Ok(archive) => LegacyGather(libs, archive, BuildFiles)
  }

  lemma LegacyGatherStep(libs: Libraries, archive: Archive, files: seq<BuildFile>, file: BuildFile)
    ensures LegacyGather(libs, archive, files + [file])
         == LegacyStep(LegacyGather(libs, archive, files), LegacyConsult(libs, archive, file))
  {
    assert (files + [file])[..|files|] == files;
  }

  lemma {:induction false} LegacyErrorStands(libs: Libraries, archive: Archive, files: seq<BuildFile>, k: nat)
    requires k <= |files|
    requires LegacyGather(libs, archive, files[..k]).Err?
    ensures LegacyGather(libs, archive, files) == LegacyGather(libs, archive, files[..k])
    decreases |files| - k
  {
    if k < |files| {
      assert files[..k + 1] == files[..k] + [files[k]];
      LegacyGatherStep(libs, archive, files[..k], files[k]);
      LegacyErrorStands(libs, archive, files, k + 1);
    } else {
      assert files[..k] == files;
    }
  }

  lemma LegacyGatherBuildFiles(libs: Libraries, archive: Archive)
    ensures LegacyGather(libs, archive, BuildFiles)
         == LegacyStep(LegacyStep(LegacyStep(Ok([]),
                                             LegacyConsult(libs, archive, PyprojectToml)),
                                  LegacyConsult(libs, archive, SetupCfg)),
                       LegacyConsult(libs, archive, SetupPyFile))
  {
    LegacyGatherStep(libs, archive, [], PyprojectToml);
    LegacyGatherStep(libs, archive, [PyprojectToml], SetupCfg);
    LegacyGatherStep(libs, archive, [PyprojectToml, SetupCfg], SetupPyFile);
  }

  /** `find_build_dependencies(package_name, version)` of the older module. */
  method FindBuildDependencies(libs: Libraries, pkg: Package) returns (r: Result<seq<string>, LegacyError>)
    ensures r == LegacyFind(libs, pkg)
  {
    var source := libs.fetch(pkg);
    if source.Err? {
      return Err(FetchFailed(source.error));
    }
    var archive := source.value;
    var buildDependencies: seq<string> := [];
    var i := 0;
    while i < |BuildFiles|
      invariant 0 <= i <= |BuildFiles|
      invariant LegacyGather(libs, archive, BuildFiles[..i]) == Ok(buildDependencies)
    {
      var file := BuildFiles[i];
      assert BuildFiles[..i + 1] == BuildFiles[..i] + [file];
      LegacyGatherStep(libs, archive, BuildFiles[..i], file);
      if |archive.names| == 0 {
        LegacyErrorStands(libs, archive, BuildFiles, i + 1);
        return Err(EmptyArchive);
      }
      var path := MemberPath(archive.names[0], file);
      if path !in archive.members {
        assert buildDependencies + [] == buildDependencies;
        i := i + 1;
        continue;
      }
      var contents := libs.decodeUtf8(archive.members[path]);
      if contents.None? {
        LegacyErrorStands(libs, archive, BuildFiles, i + 1);
        return Err(NotUtf8(path));
      }
      var parsed := ParseBuildFile(libs, file, contents.value);
      if parsed.Err? {
        LegacyErrorStands(libs, archive, BuildFiles, i + 1);
        return Err(ParseFailure(parsed.error));
      }
      buildDependencies := buildDependencies + parsed.value;
      i := i + 1;
    }
    assert BuildFiles[..i] == BuildFiles;
    return Ok(buildDependencies);
  }

  // ------------------------------------------------------------ properties

  /** Every present file's output is kept, in the map's order. */
  lemma LegacyAllPresentFilesConcatenated(libs: Libraries, pkg: Package, a: seq<string>, b: seq<string>, c: seq<string>)
    requires libs.fetch(pkg).Ok?
    requires LegacyConsult(libs, libs.fetch(pkg).value, PyprojectToml) == Ok(a)
    requires LegacyConsult(libs, libs.fetch(pkg).value, SetupCfg) == Ok(b)
    requires LegacyConsult(libs, libs.fetch(pkg).value, SetupPyFile) == Ok(c)
    ensures LegacyFind(libs, pkg) == Ok(a + b + c)
  {
    LegacyGatherBuildFiles(libs, libs.fetch(pkg).value);
    var none: seq<string> := [];
    assert none + a == a;
  }

  /** A missing file is skipped without an error. */
  lemma LegacyAbsentFileSkipped(libs: Libraries, archive: Archive, file: BuildFile)
    requires |archive.names| > 0
    requires MemberPath(archive.names[0], file) !in archive.members
    ensures LegacyConsult(libs, archive, file) == Ok([])
  {
  }

  /** The parser sees the decoded text as it is: a leading byte-order mark is not removed. */
  lemma LegacyKeepsMark(libs: Libraries, archive: Archive, file: BuildFile, text: string)
    requires |archive.names| > 0
    requires MemberPath(archive.names[0], file) in archive.members
    requires libs.decodeUtf8(archive.members[MemberPath(archive.names[0], file)]) == Some([BOM] + text)
    ensures LegacyConsult(libs, archive, file) ==
              match ParseBuildFile(libs, file, [BOM] + text)
              case Ok(deps) => Ok(deps)
              case Err(e) => Err(ParseFailure(e))
  {
  }

  /** Every parser failure propagates, a rejected `setup.py` included. */
  lemma LegacyFailuresPropagate(libs: Libraries, archive: Archive, file: BuildFile, text: string)
    requires |archive.names| > 0
    requires MemberPath(archive.names[0], file) in archive.members
    requires libs.decodeUtf8(archive.members[MemberPath(archive.names[0], file)]) == Some(text)
    requires ParseBuildFile(libs, file, text).Err?
    ensures LegacyConsult(libs, archive, file) == Err(ParseFailure(ParseBuildFile(libs, file, text).error))
  {
  }

  /** No present file starts with a byte-order mark. */
  predicate NoMarks(libs: Libraries, archive: Archive) {
    |archive.names| > 0 ==>
      forall f: BuildFile :: MemberPath(archive.names[0], f) in archive.members
        && libs.decodeUtf8(archive.members[MemberPath(archive.names[0], f)]).Some?
        ==> var text := libs.decodeUtf8(archive.members[MemberPath(archive.names[0], f)]).value;
            text == [] || text[0] != BOM
  }

  /** Per file, without marks: the two revisions succeed together and agree on the output. */
  lemma SameFileSameOutput(libs: Libraries, archive: Archive, file: BuildFile, pkg: Package)
    requires NoMarks(libs, archive)
    ensures LegacyConsult(libs, archive, file).Ok? <==> Consult(libs, archive, file, pkg, true).Ok?
    ensures LegacyConsult(libs, archive, file).Ok? ==>
              Consult(libs, archive, file, pkg, true).value == Found(LegacyConsult(libs, archive, file).value, [])
  {
  }

  /**
   * Without byte-order marks, the older finder succeeds exactly when the
   * newer one does with `raise_setuppy_parsing_exc` set, and with the same
   * dependencies.
   */
  lemma AgreesWithStrictFinder(libs: Libraries, pkg: Package)
    requires libs.fetch(pkg).Ok? ==> NoMarks(libs, libs.fetch(pkg).value)
    ensures LegacyFind(libs, pkg).Ok? <==> Find(libs, pkg, true).result.Ok?
    ensures LegacyFind(libs, pkg).Ok? ==> Find(libs, pkg, true) == Outcome(Ok(LegacyFind(libs, pkg).value), [])
  {
    if libs.fetch(pkg).Ok? {
      var archive := libs.fetch(pkg).value;
      LegacyGatherBuildFiles(libs, archive);
      GatherBuildFiles(libs, archive, pkg, true);
      SameFileSameOutput(libs, archive, PyprojectToml, pkg);
      SameFileSameOutput(libs, archive, SetupCfg, pkg);
      SameFileSameOutput(libs, archive, SetupPyFile, pkg);
    }
  }
}
