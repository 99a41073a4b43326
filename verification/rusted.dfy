/**
 * `scripts/rusted.py`: for every pinned requirement whose build
 * dependencies name a Rust toolchain, the crates listed in the `Cargo.lock`
 * files of its source archive become download artifacts; the artifacts are
 * then made unique by file name and wrapped in an `artifacts.lock` document.
 */
module Rusted {
  import opened Wrappers
  import opened Text
  import opened Collections
  import Finder

  const CratesIoIndex: string := "registry+https://github.com/rust-lang/crates.io-index"
  const CratesIoApi: string := "https://crates.io/api/v1/crates"
  const Toolchain: set<string> := {"maturin", "setuptools-rust"}
  const LockSuffix: string := "cargo.lock"
  const Metadata: string := "1.0"

  /** One `[[package]]` table of a `Cargo.lock`, as string-valued keys. */
  datatype LockPackage = LockPackage(fields: map<string, string>)

  /** A parsed `Cargo.lock`: its `package` array, when it has one. */
  datatype CargoLock = CargoLock(packages: Option<seq<LockPackage>>)

  /** One entry of the `artifacts` list. */
  datatype Artifact = Artifact(downloadUrl: string, checksum: string, filename: string)

  /** The `artifacts.lock` document. */
  datatype ArtifactLock = ArtifactLock(metadata: string, artifacts: seq<Artifact>)

  /** A requirement read from the input files: its name and, when pinned, its version. */
  datatype Dependency = Dependency(name: string, version: Option<string>)

  datatype RustedError =
    | InvalidToml(reason: string)             // `toml.loads` rejects the text
    | MissingKey(key: string)                 // `KeyError`
    | UnsupportedSource(source: string)       // `NotImplementedError` of `_get_base_for_crate_index`
    | NotPinned(dependency: string)           // `get_version` of an unpinned requirement
    | FinderFailed(error: Finder.FinderError) // whatever `find_build_dependencies` raises
    | InvalidRequirement(text: string)        // `install_req_from_req_string` rejects a string
    | SourceUnavailable(reason: string)       // `get_package_source` fails
    | NotAFile(member: string)                // `extractfile` of a member that is no regular file
    | NotUtf8(member: string)                 // `.decode()` fails

  /** The outside world: the finder's libraries (source download included), the TOML reader and the requirement parser. */
  datatype Environment = Environment(
    libs: Finder.Libraries,
    parseToml: string -> Result<CargoLock, string>,
    requirementName: string -> Result<string, string>)

  // ------------------------------------------------------------ _parse_cargo_lock

  /** `_get_base_for_crate_index`: only the crates.io index is known. */
  function BaseForCrateIndex(source: string): Result<string, RustedError> {
    if source == CratesIoIndex then Ok(CratesIoApi) else Err(UnsupportedSource(source))
  }

  /** `package[key]`. */
  function Field(p: LockPackage, key: string): Result<string, RustedError> {
    if key in p.fields then Ok(p.fields[key]) else Err(MissingKey(key))
  }

  /** `package.get("source")`, with an absent source read as the empty one: both are skipped. */
  function SourceOf(p: LockPackage): string {
    if "source" in p.fields then p.fields["source"] else ""
  }

  function MakeArtifact(base: string, name: string, version: string, checksum: string): Artifact {
    Artifact(base + "/" + name + "/" + version + "/download", "sha256:" + checksum, name + "-" + version + ".crate")
  }

  /** The artifact of a well-formed package. */
  function ArtifactFor(p: LockPackage): Artifact
    requires Emittable(p)
  {
    MakeArtifact(CratesIoApi, p.fields["name"], p.fields["version"], p.fields["checksum"])
  }

  /** One pass of the loop: nothing for a local package, otherwise its artifact. */
  function ArtifactOf(p: LockPackage): Result<Option<Artifact>, RustedError> {
    if SourceOf(p) == "" then Ok(None)
    else
      match BaseForCrateIndex(SourceOf(p))
      case Err(e) => Err(e)
      case Ok(base) =>
        match Field(p, "name")
        case Err(e) => Err(e)
        case Ok(name) =>
          match Field(p, "version")
          case Err(e) => Err(e)
          case Ok(version) =>
            match Field(p, "checksum")
            case Err(e) => Err(e)
            case Ok(checksum) => Ok(Some(MakeArtifact(base, name, version, checksum)))
  }

  /** The artifacts so far, then one package's outcome: the first error stands, a local package adds nothing. */
  function Emit(done: Result<seq<Artifact>, RustedError>, next: Result<Option<Artifact>, RustedError>): Result<seq<Artifact>, RustedError> {
    if done.Err? then done
    else if next.Err? then Err(next.error)
    else if next.value.None? then done
    else Ok(done.value + [next.value.value])
  }

  /** The loop over `lock["package"]`, as a left fold that stops at the first error. */
  function Artifacts(packages: seq<LockPackage>): Result<seq<Artifact>, RustedError>
    decreases |packages|
  {
    if packages == [] then Ok([])
    else Emit(Artifacts(packages[..|packages| - 1]), ArtifactOf(packages[|packages| - 1]))
  }

  lemma ArtifactsSnoc(packages: seq<LockPackage>, p: LockPackage)
    ensures Artifacts(packages + [p]) == Emit(Artifacts(packages), ArtifactOf(p))
  {
    assert (packages + [p])[..|packages|] == packages;
  }

  /** `_parse_cargo_lock` on values. */
  function CargoLockArtifacts(parseToml: string -> Result<CargoLock, string>, contents: string): Result<seq<Artifact>, RustedError> {
    match parseToml(contents)
    case Err(reason) => Err(InvalidToml(reason))
    case Ok(lock) =>
      if lock.packages.None? then Err(MissingKey("package")) else Artifacts(lock.packages.value)
  }

  /** `_parse_cargo_lock`. */
  method ParseCargoLock(parseToml: string -> Result<CargoLock, string>, lockContents: string)
    returns (r: Result<seq<Artifact>, RustedError>)
    ensures r == CargoLockArtifacts(parseToml, lockContents)
  {
    var lock := parseToml(lockContents);
    if lock.Err? {
      return Err(InvalidToml(lock.error));
    }
    if lock.value.packages.None? {
      return Err(MissingKey("package"));
    }
    var packages := lock.value.packages.value;
    var deps: seq<Artifact> := [];
    var i := 0;
    while i < |packages|
      invariant 0 <= i <= |packages|
      invariant Artifacts(packages[..i]) == Ok(deps)
    {
      var package := packages[i];
      assert packages[..i + 1] == packages[..i] + [package];
      ArtifactsSnoc(packages[..i], package);
      var emitted := ArtifactOf(package);
      if emitted.Err? {
        ArtifactsErrorStands(packages, i + 1);
        return Err(emitted.error);
      }
      if emitted.value.Some? {
        deps := deps + [emitted.value.value];
      }
      i := i + 1;
    }
    assert packages[..i] == packages;
    return Ok(deps);
  }

  /** Once a package fails, the rest of the list changes nothing. */
  lemma {:induction false} ArtifactsErrorStands(packages: seq<LockPackage>, k: nat)
    requires k <= |packages|
    requires Artifacts(packages[..k]).Err?
    ensures Artifacts(packages) == Artifacts(packages[..k])
    decreases |packages| - k
  {
    if k < |packages| {
      assert packages[..k + 1] == packages[..k] + [packages[k]];
      ArtifactsSnoc(packages[..k], packages[k]);
      ArtifactsErrorStands(packages, k + 1);
    } else {
      assert packages[..k] == packages;
    }
  }

  // ------------------------------------------------------------ properties of _parse_cargo_lock

  /** The packages that have a source, in the lock's order. */
  function Sourced(packages: seq<LockPackage>): seq<LockPackage>
    decreases |packages|
  {
    if packages == [] then []
    else
      var last := packages[|packages| - 1];
      Sourced(packages[..|packages| - 1]) + if SourceOf(last) == "" then [] else [last]
  }

  lemma SourcedSnoc(packages: seq<LockPackage>, p: LockPackage)
    ensures Sourced(packages + [p]) == Sourced(packages) + if SourceOf(p) == "" then [] else [p]
  {
    assert (packages + [p])[..|packages|] == packages;
  }

  /** A package is well formed: a crates.io source and the three keys an artifact needs. */
  predicate Emittable(p: LockPackage) {
    SourceOf(p) == CratesIoIndex && "name" in p.fields && "version" in p.fields && "checksum" in p.fields
  }

  predicate AllEmittable(src: seq<LockPackage>) {
    forall i :: 0 <= i < |src| ==> Emittable(src[i])
  }

  /** A package with a source yields an artifact exactly when it is well formed. */
  lemma OneArtifact(p: LockPackage)
    requires SourceOf(p) != ""
    ensures ArtifactOf(p).Ok? <==> Emittable(p)
    ensures ArtifactOf(p).Ok? ==> ArtifactOf(p) == Ok(Some(ArtifactFor(p)))
  {
  }

  /** One artifact per package, in order. */
  function Emitted(src: seq<LockPackage>): (arts: seq<Artifact>)
    requires AllEmittable(src)
    decreases |src|
  {
    if src == [] then []
    else
      var n := |src| - 1;
      assert AllEmittable(src[..n]) by {
        forall i | 0 <= i < n ensures Emittable(src[..n][i]) {
          assert src[..n][i] == src[i];
        }
      }
      Emitted(src[..n]) + [ArtifactFor(src[n])]
  }

  lemma {:induction false} EmittedPointwise(src: seq<LockPackage>)
    requires AllEmittable(src)
    ensures |Emitted(src)| == |src|
    ensures forall i :: 0 <= i < |src| ==> Emitted(src)[i] == ArtifactFor(src[i])
    decreases |src|
  {
    if src != [] {
      var n := |src| - 1;
      AllEmittableSnoc(src[..n], src[n]);
      assert src == src[..n] + [src[n]];
      EmittedPointwise(src[..n]);
    }
  }

  lemma AllEmittableSnoc(src: seq<LockPackage>, p: LockPackage)
    ensures AllEmittable(src + [p]) <==> AllEmittable(src) && Emittable(p)
  {
    var all := src + [p];
    if AllEmittable(all) {
      assert all[|src|] == p;
      forall i | 0 <= i < |src| ensures Emittable(src[i]) {
        assert all[i] == src[i];
      }
    }
    if AllEmittable(src) && Emittable(p) {
      forall i | 0 <= i < |all| ensures Emittable(all[i]) {
        if i < |src| {
          assert all[i] == src[i];
        }
      }
    }
  }

  lemma EmittedSnoc(src: seq<LockPackage>, p: LockPackage)
    requires AllEmittable(src) && Emittable(p)
    ensures AllEmittable(src + [p])
    ensures Emitted(src + [p]) == Emitted(src) + [ArtifactFor(p)]
  {
    AllEmittableSnoc(src, p);
    assert (src + [p])[..|src|] == src;
  }

  /**
   * Reading a lock succeeds exactly when every package with a source is
   * well formed, and the artifacts are then those packages' artifacts, in
   * the lock's order: packages without a source are skipped.
   */
  lemma {:induction false} ArtifactsMeaning(packages: seq<LockPackage>)
    ensures Artifacts(packages).Ok? <==> AllEmittable(Sourced(packages))
    ensures Artifacts(packages).Ok? ==> Artifacts(packages).value == Emitted(Sourced(packages))
    decreases |packages|
  {
    if packages != [] {
      var n := |packages| - 1;
      var init, last := packages[..n], packages[n];
      assert packages == init + [last];
      ArtifactsMeaning(init);
      ArtifactsMeaningStep(init, last);
    }
  }

  /** One more package keeps the meaning of `Artifacts`. */
  lemma ArtifactsMeaningStep(init: seq<LockPackage>, last: LockPackage)
    requires Artifacts(init).Ok? <==> AllEmittable(Sourced(init))
    requires Artifacts(init).Ok? ==> Artifacts(init).value == Emitted(Sourced(init))
    ensures Artifacts(init + [last]).Ok? <==> AllEmittable(Sourced(init + [last]))
    ensures Artifacts(init + [last]).Ok? ==> Artifacts(init + [last]).value == Emitted(Sourced(init + [last]))
  {
    ArtifactsSnoc(init, last);
    SourcedSnoc(init, last);
    if SourceOf(last) != "" {
      SourcedStep(init, last);
    } else {
      assert ArtifactOf(last) == Ok(None);
      assert Sourced(init + [last]) == Sourced(init);
    }
  }

  /** The step of `ArtifactsMeaningStep` for a package with a source. */
  lemma SourcedStep(init: seq<LockPackage>, last: LockPackage)
    requires SourceOf(last) != ""
    requires Artifacts(init).Ok? <==> AllEmittable(Sourced(init))
    requires Artifacts(init).Ok? ==> Artifacts(init).value == Emitted(Sourced(init))
    ensures Emit(Artifacts(init), ArtifactOf(last)).Ok? <==> AllEmittable(Sourced(init) + [last])
    ensures Emit(Artifacts(init), ArtifactOf(last)).Ok? ==>
              Emit(Artifacts(init), ArtifactOf(last)).value == Emitted(Sourced(init) + [last])
  {
    OneArtifact(last);
    AllEmittableSnoc(Sourced(init), last);
    if AllEmittable(Sourced(init)) && Emittable(last) {
      EmittedSnoc(Sourced(init), last);
    }
  }

  /** The artifacts of a lock are one per package with a source, in the lock's order. */
  lemma ArtifactsInLockOrder(packages: seq<LockPackage>)
    requires Artifacts(packages).Ok?
    ensures var arts := Artifacts(packages).value;
            var src := Sourced(packages);
            && |arts| == |src|
            && forall i :: 0 <= i < |arts| ==> Emittable(src[i]) && arts[i] == ArtifactFor(src[i])
  {
    ArtifactsMeaning(packages);
    EmittedPointwise(Sourced(packages));
  }

  /** A package without a source, or with an empty one, contributes nothing. */
  lemma LocalPackagesSkipped(packages: seq<LockPackage>, p: LockPackage)
    requires SourceOf(p) == ""
    ensures Artifacts(packages + [p]) == Artifacts(packages)
  {
    assert (packages + [p])[..|packages|] == packages;
  }

  /** Any other registry raises, whatever else the package holds. */
  lemma OtherRegistryRaises(packages: seq<LockPackage>, p: LockPackage)
    requires Artifacts(packages).Ok?
    requires SourceOf(p) != "" && SourceOf(p) != CratesIoIndex
    ensures Artifacts(packages + [p]) == Err(UnsupportedSource(SourceOf(p)))
  {
    assert (packages + [p])[..|packages|] == packages;
  }

  /** The URL, checksum and file name of an artifact. */
  lemma ArtifactShape(p: LockPackage)
    requires Emittable(p)
    ensures ArtifactOf(p).Ok? && ArtifactOf(p).value.Some?
    ensures var a := ArtifactOf(p).value.value;
            var name, version := p.fields["name"], p.fields["version"];
            && a.downloadUrl == "https://crates.io/api/v1/crates/" + name + "/" + version + "/download"
            && a.checksum == "sha256:" + p.fields["checksum"]
            && a.filename == name + "-" + version + ".crate"
  {
    var name, version := p.fields["name"], p.fields["version"];
    assert CratesIoApi + "/" + name + "/" + version + "/download" == "https://crates.io/api/v1/crates/" + name + "/" + version + "/download";
  }

  // ------------------------------------------------------------ toolchain detection and lock files

  /** `{ireq.name.lower() for ireq in map(install_req_from_req_string, raw_build_deps)}`. */
  function BuildDepNames(requirementName: string -> Result<string, string>, raw: seq<string>): Result<set<string>, RustedError>
    decreases |raw|
  {
    if raw == [] then Ok({})
    else
      match BuildDepNames(requirementName, raw[..|raw| - 1])
      case Err(e) => Err(e)
      case Ok(names) =>
        match requirementName(raw[|raw| - 1])
        case Err(_) => Err(InvalidRequirement(raw[|raw| - 1]))
        case Ok(name) => Ok(names + {Lower(name)})
  }

  /** `{"maturin", "setuptools-rust"} & build_deps`. */
  function RustToolchain(names: set<string>): set<string> {
    Toolchain * names
  }

  /** The set comprehension over `getnames()`. */
  function CargoLocks(names: seq<string>): set<string> {
    set n | n in names && EndsWith(Lower(n), LockSuffix)
  }

  /** The build-dependency names hold every string's lowercased name. */
  lemma {:induction false} BuildDepNamesMeaning(requirementName: string -> Result<string, string>, raw: seq<string>)
    ensures BuildDepNames(requirementName, raw).Ok? <==> forall i :: 0 <= i < |raw| ==> requirementName(raw[i]).Ok?
    ensures BuildDepNames(requirementName, raw).Ok? ==>
              forall n :: n in BuildDepNames(requirementName, raw).value <==>
                exists i :: 0 <= i < |raw| && n == Lower(requirementName(raw[i]).value)
    decreases |raw|
  {
    if raw != [] {
      var k := |raw| - 1;
      BuildDepNamesMeaning(requirementName, raw[..k]);
      assert forall i :: 0 <= i < k ==> raw[..k][i] == raw[i];
    }
  }

  /**
   * A package is looked at for Rust exactly when some build requirement,
   * in any letter case, is `maturin` or `setuptools-rust`.
   */
  lemma NeedsRustWhenToolchainNamed(requirementName: string -> Result<string, string>, raw: seq<string>)
    requires forall i :: 0 <= i < |raw| ==> requirementName(raw[i]).Ok?
    ensures BuildDepNames(requirementName, raw).Ok?
    ensures RustToolchain(BuildDepNames(requirementName, raw).value) != {} <==>
              exists i :: 0 <= i < |raw| && Lower(requirementName(raw[i]).value) in Toolchain
  {
    BuildDepNamesMeaning(requirementName, raw);
    var names := BuildDepNames(requirementName, raw).value;
    if RustToolchain(names) != {} {
      var t :| t in RustToolchain(names);
      var i :| 0 <= i < |raw| && t == Lower(requirementName(raw[i]).value);
    }
    if exists i :: 0 <= i < |raw| && Lower(requirementName(raw[i]).value) in Toolchain {
      var i :| 0 <= i < |raw| && Lower(requirementName(raw[i]).value) in Toolchain;
      assert Lower(requirementName(raw[i]).value) in RustToolchain(names);
    }
  }

  lemma {:induction false} LowerConcat(a: string, b: string)
    ensures Lower(a + b) == Lower(a) + Lower(b)
  {
    var l, r := Lower(a + b), Lower(a) + Lower(b);
    assert |l| == |r|;
    forall i | 0 <= i < |l| ensures l[i] == r[i] {
      if i < |a| {
        assert (a + b)[i] == a[i];
      } else {
        assert (a + b)[i] == b[i - |a|];
      }
    }
  }

  /**
   * A member is a lock file when its name ends in `cargo.lock` in any letter
   * case, inside any directory and after any prefix: `vendor/x/Cargo.lock`
   * and `old-cargo.lock` both count.
   */
  lemma LockFileNames(names: seq<string>, prefix: string, base: string)
    requires Lower(base) == LockSuffix
    requires prefix + base in names
    ensures prefix + base in CargoLocks(names)
  {
    LowerConcat(prefix, base);
    var n := prefix + base;
    assert Lower(n)[|Lower(n)| - |LockSuffix|..] == Lower(base);
  }

  /** Only members of the archive are lock files. */
  lemma CargoLocksAreMembers(names: seq<string>)
    ensures CargoLocks(names) <= Elements(names)
  {
  }

  // ------------------------------------------------------------ _get_cargo_dependencies

  /** The results so far, then the next one: the first error stands. */
  function Then(done: Result<seq<Artifact>, RustedError>, next: Result<seq<Artifact>, RustedError>): Result<seq<Artifact>, RustedError> {
    if done.Err? then done else if next.Err? then next else Ok(done.value + next.value)
  }

  /** `sdist_tarball.extractfile(lock).read().decode()`, through `_parse_cargo_lock`. */
  function LockArtifacts(env: Environment, archive: Finder.Archive, lock: string): Result<seq<Artifact>, RustedError> {
    if lock !in archive.members then Err(NotAFile(lock))
    else
      match env.libs.decodeUtf8(archive.members[lock])
      case None => Err(NotUtf8(lock))
      case Some(text) => CargoLockArtifacts(env.parseToml, text)
  }

  /** The loop over the lock files, in the order `order`, stopping at the first error. */
  function LocksArtifacts(env: Environment, archive: Finder.Archive, order: seq<string>): Result<seq<Artifact>, RustedError>
    decreases |order|
  {
    if order == [] then Ok([])
    else Then(LocksArtifacts(env, archive, order[..|order| - 1]), LockArtifacts(env, archive, order[|order| - 1]))
  }

  lemma LocksArtifactsSnoc(env: Environment, archive: Finder.Archive, order: seq<string>, lock: string)
    ensures LocksArtifacts(env, archive, order + [lock]) == Then(LocksArtifacts(env, archive, order), LockArtifacts(env, archive, lock))
  {
    assert (order + [lock])[..|order|] == order;
  }

  /** The body of the loop over the lock files: one member read, decoded and parsed. */
  method ReadLock(env: Environment, archive: Finder.Archive, lock: string) returns (r: Result<seq<Artifact>, RustedError>)
    ensures r == LockArtifacts(env, archive, lock)
  {
    if lock !in archive.members {
      return Err(NotAFile(lock));
    }
    var contents := env.libs.decodeUtf8(archive.members[lock]);
    if contents.None? {
      return Err(NotUtf8(lock));
    }
    r := ParseCargoLock(env.parseToml, contents.value);
  }

  /** The loop over `cargo_locks`, taken in the order `locks`. */
  method ReadLocks(env: Environment, archive: Finder.Archive, locks: seq<string>)
    returns (r: Result<seq<Artifact>, RustedError>, order: seq<string>)
    ensures order <= locks
    ensures r == LocksArtifacts(env, archive, order)
    ensures r.Ok? ==> order == locks
  {
    var deps: seq<Artifact> := [];
    var i := 0;
    while i < |locks|
      invariant 0 <= i <= |locks|
      invariant LocksArtifacts(env, archive, locks[..i]) == Ok(deps)
    {
      var lock := locks[i];
      var lockDeps := ReadLock(env, archive, lock);
      assert locks[..i + 1] == locks[..i] + [lock];
      LocksArtifactsSnoc(env, archive, locks[..i], lock);
      if lockDeps.Err? {
        return Err(lockDeps.error), locks[..i + 1];
      }
      deps := deps + lockDeps.value;
      i := i + 1;
    }
    assert locks[..i] == locks;
    return Ok(deps), locks;
  }

  /** `_get_cargo_dependencies`: the source archive of `pkg`, and every lock file in it. */
  method GetCargoDependencies(env: Environment, pkg: Finder.Package)
    returns (r: Result<seq<Artifact>, RustedError>, order: seq<string>)
    ensures env.libs.fetch(pkg).Err? ==> r == Err(SourceUnavailable(env.libs.fetch(pkg).error)) && order == []
    ensures env.libs.fetch(pkg).Ok? ==>
              var archive := env.libs.fetch(pkg).value;
              && Distinct(order)
              && Elements(order) <= CargoLocks(archive.names)
              && r == LocksArtifacts(env, archive, order)
              && (r.Ok? ==> Elements(order) == CargoLocks(archive.names))
  {
    var sdist := env.libs.fetch(pkg);
    if sdist.Err? {
      return Err(SourceUnavailable(sdist.error)), [];
    }
    var cargoLocks := CargoLocks(sdist.value.names);
    var locks := Enumerate(cargoLocks);
    r, order := ReadLocks(env, sdist.value, locks);
    assert Elements(order) <= Elements(locks) && Distinct(order) by {
      assert order == locks[..|order|];
    }
  }

  // ------------------------------------------------------------ lock

  /**
   * Whether `lock` collects a dependency's Cargo locks: its version, its
   * build dependencies found with the finder's default (raising) policy,
   * their lowercased names, and the toolchain intersection.
   */
  function NeedsRust(env: Environment, dep: Dependency): Result<bool, RustedError> {
    if dep.version.None? then Err(NotPinned(dep.name))
    else
      match Finder.Find(env.libs, Finder.Package(dep.name, dep.version.value), true).result
      case Err(e) => Err(FinderFailed(e))
      case Ok(raw) =>
        match BuildDepNames(env.requirementName, raw)
        case Err(e) => Err(e)
        case Ok(names) => Ok(RustToolchain(names) != {})
  }

  /** What one dependency adds to `cargo_dependencies`, reading its lock files in the order `order`. */
  function DependencyArtifacts(env: Environment, dep: Dependency, order: seq<string>): Result<seq<Artifact>, RustedError> {
    match NeedsRust(env, dep)
    case Err(e) => Err(e)
    case Ok(false) => Ok([])
    case Ok(true) =>
      match env.libs.fetch(Finder.Package(dep.name, dep.version.value))
      case Err(reason) => Err(SourceUnavailable(reason))
      case Ok(archive) => LocksArtifacts(env, archive, order)
  }

  /** `order` is a reading order the archive walk can take for `dep`. */
  ghost predicate ReadingOrder(env: Environment, dep: Dependency, order: seq<string>) {
    Distinct(order)
    && if NeedsRust(env, dep) == Ok(true) && env.libs.fetch(Finder.Package(dep.name, dep.version.value)).Ok? then
         var archive := env.libs.fetch(Finder.Package(dep.name, dep.version.value)).value;
         Elements(order) <= CargoLocks(archive.names)
         && (LocksArtifacts(env, archive, order).Ok? ==> Elements(order) == CargoLocks(archive.names))
       else order == []
  }

  /** The first `|orders|` dependencies had their lock files read in orders the archive walk can take. */
  ghost predicate ReadingOrders(env: Environment, deps: seq<Dependency>, orders: seq<seq<string>>)
    decreases |orders|
  {
    |orders| <= |deps|
    && (orders == [] ||
        var n := |orders| - 1;
        ReadingOrders(env, deps, orders[..n]) && ReadingOrder(env, deps[n], orders[n]))
  }

  /** The loop over the first `|orders|` dependencies, as a left fold that stops at the first error. */
  function Collected(env: Environment, deps: seq<Dependency>, orders: seq<seq<string>>): Result<seq<Artifact>, RustedError>
    requires |orders| <= |deps|
    decreases |orders|
  {
    if orders == [] then Ok([])
    else
      var n := |orders| - 1;
      Then(Collected(env, deps, orders[..n]), DependencyArtifacts(env, deps[n], orders[n]))
  }

  lemma CollectedSnoc(env: Environment, deps: seq<Dependency>, orders: seq<seq<string>>, order: seq<string>)
    requires |orders| < |deps|
    ensures Collected(env, deps, orders + [order]) == Then(Collected(env, deps, orders), DependencyArtifacts(env, deps[|orders|], order))
    ensures ReadingOrders(env, deps, orders) && ReadingOrder(env, deps[|orders|], order) ==> ReadingOrders(env, deps, orders + [order])
  {
    assert (orders + [order])[..|orders|] == orders;
  }

  /** The loop of `lock` that fills `cargo_dependencies`. */
  method CollectCargoDependencies(env: Environment, deps: seq<Dependency>)
    returns (r: Result<seq<Artifact>, RustedError>, orders: seq<seq<string>>)
    ensures ReadingOrders(env, deps, orders) && (r.Ok? ==> |orders| == |deps|)
    ensures r == Collected(env, deps, orders)
  {
    orders := [];
    var cargoDependencies: seq<Artifact> := [];
    var i := 0;
    while i < |deps|
      invariant 0 <= i <= |deps| && |orders| == i
      invariant ReadingOrders(env, deps, orders)
      invariant Collected(env, deps, orders) == Ok(cargoDependencies)
    {
      var contribution, order := DependencyStep(env, deps[i]);
      CollectedSnoc(env, deps, orders, order);
      orders := orders + [order];
      if contribution.Err? {
        return Err(contribution.error), orders;
      }
      cargoDependencies := cargoDependencies + contribution.value;
      i := i + 1;
    }
    return Ok(cargoDependencies), orders;
  }

  /** One pass of `lock`'s loop over the dependencies. */
  method DependencyStep(env: Environment, dep: Dependency)
    returns (r: Result<seq<Artifact>, RustedError>, order: seq<string>)
    ensures ReadingOrder(env, dep, order)
    ensures r == DependencyArtifacts(env, dep, order)
  {
    order := [];
    if dep.version.None? {
      return Err(NotPinned(dep.name)), order;
    }
    var pkg := Finder.Package(dep.name, dep.version.value);
    var raw, _ := Finder.FindBuildDependencies(env.libs, pkg, true);
    if raw.Err? {
      return Err(FinderFailed(raw.error)), order;
    }
    var buildDeps := BuildDepNames(env.requirementName, raw.value);
    if buildDeps.Err? {
      return Err(buildDeps.error), order;
    }
    var rustToolchain := RustToolchain(buildDeps.value);
    if rustToolchain == {} {
      return Ok([]), order;
    }
    r, order := GetCargoDependencies(env, pkg);
  }

  // ------------------------------------------------------------ deduplication and the document

  /** A dict filled in order: its keys in insertion order and its values. */
  datatype FilenameDict = FilenameDict(keys: seq<string>, values: map<string, Artifact>)

  /** `{c["filename"]: c for c in cargo_dependencies}`. */
  function ByFilename(arts: seq<Artifact>): FilenameDict
    decreases |arts|
  {
    if arts == [] then FilenameDict([], map[])
    else
      var d := ByFilename(arts[..|arts| - 1]);
      var a := arts[|arts| - 1];
      if a.filename in d.values then FilenameDict(d.keys, d.values[a.filename := a])
      else FilenameDict(d.keys + [a.filename], d.values[a.filename := a])
  }

  /** The dict's keys are its insertion order, without repetition. */
  lemma {:induction false} ByFilenameKeys(arts: seq<Artifact>)
    ensures Distinct(ByFilename(arts).keys)
    ensures Elements(ByFilename(arts).keys) == ByFilename(arts).values.Keys
    ensures forall f :: f in ByFilename(arts).values ==> ByFilename(arts).values[f].filename == f
    decreases |arts|
  {
    if arts != [] {
      ByFilenameKeys(arts[..|arts| - 1]);
    }
  }

  /** `list(_deps_as_dict.values())`. */
  function DeduplicateByFilename(arts: seq<Artifact>): seq<Artifact> {
    var d := ByFilename(arts);
    ByFilenameKeys(arts);
    seq(|d.keys|, i requires 0 <= i < |d.keys| => d.values[d.keys[i]])
  }

  /** The document `yaml.dump` writes. */
  function ArtifactLockOf(cargoDependencies: seq<Artifact>): ArtifactLock {
    ArtifactLock(Metadata, DeduplicateByFilename(cargoDependencies))
  }

  /** `lock` without its command-line and output parts. */
  method Lock(env: Environment, deps: seq<Dependency>)
    returns (r: Result<ArtifactLock, RustedError>, orders: seq<seq<string>>)
    ensures ReadingOrders(env, deps, orders) && (r.Ok? ==> |orders| == |deps|)
    ensures var c := Collected(env, deps, orders);
            && r.Ok? == c.Ok?
            && (r.Ok? ==> r.value == ArtifactLockOf(c.value))
            && (r.Err? ==> r.error == c.error)
  {
    var cargoDependencies;
    cargoDependencies, orders := CollectCargoDependencies(env, deps);
    if cargoDependencies.Err? {
      return Err(cargoDependencies.error), orders;
    }
    return Ok(ArtifactLock(Metadata, DeduplicateByFilename(cargoDependencies.value))), orders;
  }

  // ------------------------------------------------------------ properties of the deduplication

  /** Each value of the dict is the last artifact with its file name. */
  lemma {:induction false} ByFilenameLast(arts: seq<Artifact>, f: string)
    requires f in ByFilename(arts).values
    ensures exists k :: 0 <= k < |arts| && arts[k] == ByFilename(arts).values[f]
              && arts[k].filename == f
              && forall j :: k < j < |arts| ==> arts[j].filename != f
    decreases |arts|
  {
    var n := |arts| - 1;
    var init := arts[..n];
    var d := ByFilename(init);
    if arts[n].filename == f {
      assert ByFilename(arts).values[f] == arts[n];
    } else {
      assert ByFilename(arts).values == d.values[arts[n].filename := arts[n]];
      ByFilenameLast(init, f);
      var k :| 0 <= k < n && init[k] == d.values[f] && init[k].filename == f
                && forall j :: k < j < n ==> init[j].filename != f;
      assert arts[k] == init[k];
      forall j | k < j < |arts| ensures arts[j].filename != f {
        if j < n {
          assert arts[j] == init[j];
        }
      }
    }
  }

  /** Every file name of the input is a key of the dict. */
  lemma {:induction false} ByFilenameCovers(arts: seq<Artifact>)
    ensures ByFilename(arts).values.Keys == set a | a in arts :: a.filename
    decreases |arts|
  {
    if arts != [] {
      var n := |arts| - 1;
      ByFilenameCovers(arts[..n]);
      assert arts == arts[..n] + [arts[n]];
    }
  }

  /**
   * Keys keep the order of their first insertion: every occurrence of a
   * later key is preceded by an occurrence of an earlier one.
   */
  lemma {:induction false} ByFilenameOrder(arts: seq<Artifact>, i: int, j: int, kj: int)
    requires 0 <= i < j < |ByFilename(arts).keys|
    requires 0 <= kj < |arts| && arts[kj].filename == ByFilename(arts).keys[j]
    ensures exists ki :: 0 <= ki < kj && arts[ki].filename == ByFilename(arts).keys[i]
    decreases |arts|
  {
    var n := |arts| - 1;
    var init := arts[..n];
    var d := ByFilename(init);
    ByFilenameKeys(init);
    if j < |d.keys| {
      var m := kj;
      if kj == n {
        // `arts[n]` carries a key already present, so an earlier artifact carries it too.
        KeyOccurs(init, d.keys[j]);
        m :| 0 <= m < n && init[m].filename == d.keys[j];
      } else {
        assert init[kj] == arts[kj];
      }
      ByFilenameOrder(init, i, j, m);
      var ki :| 0 <= ki < m && init[ki].filename == d.keys[i];
      assert arts[ki] == init[ki];
    } else {
      // `keys[j]` was inserted last, by `arts[n]`, and no earlier artifact has it.
      KeyOccurs(init, d.keys[i]);
      var m :| 0 <= m < n && init[m].filename == d.keys[i];
      assert arts[m] == init[m];
      ByFilenameCovers(init);
      assert kj == n;
    }
  }

  /** A key of the dict is the file name of some artifact. */
  lemma KeyOccurs(arts: seq<Artifact>, f: string)
    requires f in ByFilename(arts).values
    ensures exists m :: 0 <= m < |arts| && arts[m].filename == f
  {
    ByFilenameCovers(arts);
    var a :| a in arts && a.filename == f;
  }

  /** The deduplicated list is the dict's values in key order. */
  lemma DeduplicatedAt(arts: seq<Artifact>)
    ensures |DeduplicateByFilename(arts)| == |ByFilename(arts).keys|
    ensures forall i :: 0 <= i < |ByFilename(arts).keys| ==>
              ByFilename(arts).keys[i] in ByFilename(arts).values &&
              DeduplicateByFilename(arts)[i] == ByFilename(arts).values[ByFilename(arts).keys[i]] &&
              DeduplicateByFilename(arts)[i].filename == ByFilename(arts).keys[i]
  {
    ByFilenameKeys(arts);
  }

  /** After deduplication no two artifacts share a file name. */
  lemma DeduplicatedFilenamesUnique(arts: seq<Artifact>)
    ensures var out := DeduplicateByFilename(arts);
            forall i, j :: 0 <= i < j < |out| ==> out[i].filename != out[j].filename
  {
    DeduplicatedAt(arts);
    ByFilenameKeys(arts);
  }

  /** Deduplication loses no file name and adds none. */
  lemma DeduplicatedFilenamesKept(arts: seq<Artifact>)
    ensures (set a | a in DeduplicateByFilename(arts) :: a.filename) == (set a | a in arts :: a.filename)
  {
    var d, out := ByFilename(arts), DeduplicateByFilename(arts);
    DeduplicatedAt(arts);
    ByFilenameKeys(arts);
    ByFilenameCovers(arts);
    forall f | f in d.values ensures f in set a | a in out :: a.filename {
      var i :| 0 <= i < |d.keys| && d.keys[i] == f;
      assert out[i] in out;
    }
  }

  /** The artifact kept for a file name is the last one carrying it. */
  lemma DeduplicatedKeepsLast(arts: seq<Artifact>)
    ensures var out := DeduplicateByFilename(arts);
            forall i :: 0 <= i < |out| ==>
              exists k :: 0 <= k < |arts| && out[i] == arts[k] &&
                forall j :: k < j < |arts| ==> arts[j].filename != out[i].filename
  {
    var d, out := ByFilename(arts), DeduplicateByFilename(arts);
    DeduplicatedAt(arts);
    forall i | 0 <= i < |out|
      ensures exists k :: 0 <= k < |arts| && out[i] == arts[k] &&
                forall j :: k < j < |arts| ==> arts[j].filename != out[i].filename
    {
      ByFilenameLast(arts, d.keys[i]);
    }
  }

  /** File names keep the order of their first appearance. */
  lemma DeduplicatedFirstAppearanceOrder(arts: seq<Artifact>)
    ensures var out := DeduplicateByFilename(arts);
            forall i, j, kj :: 0 <= i < j < |out| && 0 <= kj < |arts| && arts[kj].filename == out[j].filename ==>
              exists ki :: 0 <= ki < kj && arts[ki].filename == out[i].filename
  {
    var out := DeduplicateByFilename(arts);
    DeduplicatedAt(arts);
    forall i, j, kj | 0 <= i < j < |out| && 0 <= kj < |arts| && arts[kj].filename == out[j].filename
      ensures exists ki :: 0 <= ki < kj && arts[ki].filename == out[i].filename
    {
      ByFilenameOrder(arts, i, j, kj);
    }
  }

  function Filenames(arts: seq<Artifact>): seq<string> {
    seq(|arts|, i requires 0 <= i < |arts| => arts[i].filename)
  }

  /** With unique file names, every artifact opens a new key. */
  lemma {:induction false} DistinctKeys(arts: seq<Artifact>)
    requires forall i, j :: 0 <= i < j < |arts| ==> arts[i].filename != arts[j].filename
    ensures ByFilename(arts).keys == Filenames(arts)
    decreases |arts|
  {
    if arts != [] {
      var n := |arts| - 1;
      var a := arts[n];
      DistinctKeys(arts[..n]);
      ByFilenameKeys(arts[..n]);
      var d := ByFilename(arts[..n]);
      assert a.filename !in Elements(d.keys);
      assert Filenames(arts) == Filenames(arts[..n]) + [a.filename];
    }
  }

  /** With unique file names, every artifact is the value of its own key. */
  lemma {:induction false} DistinctValues(arts: seq<Artifact>)
    requires forall i, j :: 0 <= i < j < |arts| ==> arts[i].filename != arts[j].filename
    ensures forall i :: 0 <= i < |arts| ==>
              arts[i].filename in ByFilename(arts).values && ByFilename(arts).values[arts[i].filename] == arts[i]
    decreases |arts|
  {
    if arts != [] {
      var n := |arts| - 1;
      DistinctValues(arts[..n]);
      forall i | 0 <= i < n
        ensures arts[i].filename in ByFilename(arts).values && ByFilename(arts).values[arts[i].filename] == arts[i]
      {
        assert arts[..n][i] == arts[i];
      }
    }
  }

  /** A list whose file names are already unique is left as it is. */
  lemma DistinctFilenamesUnchanged(arts: seq<Artifact>)
    requires forall i, j :: 0 <= i < j < |arts| ==> arts[i].filename != arts[j].filename
    ensures DeduplicateByFilename(arts) == arts
  {
    DistinctKeys(arts);
    DistinctValues(arts);
    DeduplicatedAt(arts);
  }

  /** The document always carries metadata `1.0`, and deduplicating its list again changes nothing. */
  lemma ArtifactLockShape(cargoDependencies: seq<Artifact>)
    ensures ArtifactLockOf(cargoDependencies).metadata == "1.0"
    ensures DeduplicateByFilename(ArtifactLockOf(cargoDependencies).artifacts) == ArtifactLockOf(cargoDependencies).artifacts
  {
    DeduplicatedFilenamesUnique(cargoDependencies);
    DistinctFilenamesUnchanged(DeduplicateByFilename(cargoDependencies));
  }
}
