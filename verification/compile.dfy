/**
 * `compile_build_dependencies.py`: the engine that turns pinned requirements
 * into the pinned closure of their build dependencies. It finds each
 * requirement's build requirements, lets the resolver pin them (first
 * against the runtime constraints, then without them), recurses into the
 * pinned set until it stops growing, caches per requirement, and finally
 * keeps one requirement per name and version while merging where each one
 * came from.
 */
module Compile {
  import opened Wrappers
  import opened Collections
  import Finder

  /** The value part of an `InstallRequirement`: what never changes after it is built. */
  datatype RequirementSpec = RequirementSpec(
    name: string,              // `ireq.name`
    req: string,               // `str(ireq.req)`
    version: Option<string>,   // `get_version(ireq)` when the requirement is pinned
    comesFrom: Option<string>) // `ireq.comes_from`

  /**
   * An `InstallRequirement`. Objects are compared by identity, as Python
   * sets of them are; `sourceIreqs` is the `_source_ireqs` attribute,
   * `None` while it is not set.
   */
  class InstallRequirement {
    const spec: RequirementSpec
    var sourceIreqs: Option<set<InstallRequirement>>

    constructor (spec: RequirementSpec)
      ensures this.spec == spec && sourceIreqs == None
    {
      this.spec := spec;
      sourceIreqs := None;
    }
  }

  /** What the engine raises. */
  datatype CompileError =
    | NotPinned(requirement: string)                  // `PyBuildDepsError` of `get_version`
    | Unsolvable(package: string, causes: seq<string>) // `UnsolvableDependenciesError(package, args)`
    | NoDistribution                                  // `DistributionNotFound` without `ResolutionImpossible`
    | FinderFailed(error: Finder.FinderError)         // whatever the finder raises
    | InvalidRequirement(text: string)                // `install_req_from_req_string` rejects a string
    | RecursionLimit                                  // the interpreter's stack runs out

  // ------------------------------------------------------------ deduplication

  predicate Pinned(x: InstallRequirement) {
    x.spec.version.Some?
  }

  predicate AllPinned(xs: seq<InstallRequirement>) {
    forall i :: 0 <= i < |xs| ==> Pinned(xs[i])
  }

  /** `(ireq.name, get_version(ireq))`. */
  function KeyOf(x: InstallRequirement): (string, string)
    requires Pinned(x)
  {
    (x.spec.name, x.spec.version.value)
  }

  /** No earlier entry has the key of entry `i`. */
  predicate IsFirstOfKey(xs: seq<InstallRequirement>, i: int)
    requires 0 <= i < |xs| && forall j :: 0 <= j <= i ==> Pinned(xs[j])
  {
    forall j :: 0 <= j < i ==> KeyOf(xs[j]) != KeyOf(xs[i])
  }

  /** The entries `unique_ireqs` ends up holding: the first one of each key. */
  function Deduplicated(xs: seq<InstallRequirement>): set<InstallRequirement>
    requires AllPinned(xs)
  {
    set i | 0 <= i < |xs| && IsFirstOfKey(xs, i) :: xs[i]
  }

  /** The keys of the first `n` entries. */
  function KeysUpTo(xs: seq<InstallRequirement>, n: int): set<(string, string)>
    requires 0 <= n <= |xs| && forall j :: 0 <= j < n ==> Pinned(xs[j])
  {
    set j | 0 <= j < n :: KeyOf(xs[j])
  }

  /** `getattr(ireq, "_source_ireqs", {ireq})`. */
  function Own(x: InstallRequirement, sources: Option<set<InstallRequirement>>): set<InstallRequirement> {
    sources.GetOr({x})
  }

  /** The `_source_ireqs` of every entry, in order. */
  function SourcesOf(xs: seq<InstallRequirement>): (r: seq<Option<set<InstallRequirement>>>)
    reads set x | x in xs
    ensures |r| == |xs|
  {
    if xs == [] then [] else [xs[0].sourceIreqs] + SourcesOf(xs[1..])
  }

  lemma {:induction false} SourcesOfAt(xs: seq<InstallRequirement>)
    ensures forall i :: 0 <= i < |xs| ==> SourcesOf(xs)[i] == xs[i].sourceIreqs
  {
    if xs != [] {
      SourcesOfAt(xs[1..]);
    }
  }

  /**
   * What `unique_ireqs` maps each key to after the first `n` entries, as far
   * as sources go: the union of the sources each entry with that key had on
   * entry.
   */
  function MergedMap(xs: seq<InstallRequirement>, initial: seq<Option<set<InstallRequirement>>>, n: int): map<(string, string), set<InstallRequirement>>
    requires 0 <= n <= |xs| && |initial| == |xs| && forall j :: 0 <= j < n ==> Pinned(xs[j])
    decreases n
  {
    if n == 0 then map[]
    else
      var m := MergedMap(xs, initial, n - 1);
      var k := KeyOf(xs[n - 1]);
      m[k := (if k in m then m[k] else {}) + Own(xs[n - 1], initial[n - 1])]
  }

  /** The merged sources of key `k` over all entries. */
  function MergedSources(xs: seq<InstallRequirement>, initial: seq<Option<set<InstallRequirement>>>, k: (string, string)): set<InstallRequirement>
    requires AllPinned(xs) && |initial| == |xs|
  {
    var m := MergedMap(xs, initial, |xs|);
    if k in m then m[k] else {}
  }

  lemma {:induction false} MergedMapKeys(xs: seq<InstallRequirement>, initial: seq<Option<set<InstallRequirement>>>, n: int)
    requires 0 <= n <= |xs| && |initial| == |xs| && forall j :: 0 <= j < n ==> Pinned(xs[j])
    ensures MergedMap(xs, initial, n).Keys == KeysUpTo(xs, n)
    decreases n
  {
    if n > 0 {
      MergedMapKeys(xs, initial, n - 1);
      assert KeysUpTo(xs, n) == KeysUpTo(xs, n - 1) + {KeyOf(xs[n - 1])};
    }
  }

  /** An entry's own sources are among the merged sources of its key. */
  lemma {:induction false} OwnInMerged(xs: seq<InstallRequirement>, initial: seq<Option<set<InstallRequirement>>>, n: int, j: int)
    requires 0 <= j < n <= |xs| && |initial| == |xs| && forall i :: 0 <= i < n ==> Pinned(xs[i])
    ensures KeyOf(xs[j]) in MergedMap(xs, initial, n)
    ensures Own(xs[j], initial[j]) <= MergedMap(xs, initial, n)[KeyOf(xs[j])]
    decreases n
  {
    if j < n - 1 {
      OwnInMerged(xs, initial, n - 1, j);
    }
  }

  /** Merged sources are exactly the sources of the entries with that key. */
  lemma {:induction false} MergedMembers(xs: seq<InstallRequirement>, initial: seq<Option<set<InstallRequirement>>>, n: int,
                                         k: (string, string), y: InstallRequirement)
    requires 0 <= n <= |xs| && |initial| == |xs| && forall i :: 0 <= i < n ==> Pinned(xs[i])
    ensures (k in MergedMap(xs, initial, n) && y in MergedMap(xs, initial, n)[k])
        <==> exists j :: 0 <= j < n && KeyOf(xs[j]) == k && y in Own(xs[j], initial[j])
    decreases n
  {
    if n > 0 {
      MergedMembers(xs, initial, n - 1, k, y);
    }
  }

  /** Whether `x` is the entry kept for its key. */
  predicate Kept(unique: map<(string, string), InstallRequirement>, x: InstallRequirement) {
    Pinned(x) && KeyOf(x) in unique && unique[KeyOf(x)] == x
  }

  /**
   * The bookkeeping of the loop after `i` entries: every key met is in
   * `unique`, held by the first entry with that key (at index `at[k]`), and
   * `merged` holds the merged sources of the keys met.
   */
  ghost predicate DedupState(xs: seq<InstallRequirement>, initial: seq<Option<set<InstallRequirement>>>, i: int,
                       unique: map<(string, string), InstallRequirement>, at: map<(string, string), int>,
                       merged: map<(string, string), set<InstallRequirement>>)
  {
    && 0 <= i <= |xs| && |initial| == |xs|
    && (forall j :: 0 <= j < i ==> Pinned(xs[j]) && KeyOf(xs[j]) in unique)
    && (forall k :: k in unique ==> k in at && 0 <= at[k] < i && xs[at[k]] == unique[k]
                                    && KeyOf(unique[k]) == k && IsFirstOfKey(xs, at[k]))
    && merged == MergedMap(xs, initial, i)
    && (forall k :: k in merged <==> k in unique)
  }

  /** The same object had the same sources on entry wherever it occurs. */
  ghost predicate SourcesFollowObjects(xs: seq<InstallRequirement>, initial: seq<Option<set<InstallRequirement>>>) {
    |initial| == |xs| && forall a, b :: 0 <= a < |xs| && 0 <= b < |xs| && xs[a] == xs[b] ==> initial[a] == initial[b]
  }

  /**
   * One pass of the loop on the bookkeeping: a new key is kept with the
   * entry's own sources, a known key gains them. `own` is what the entry
   * reads from its `_source_ireqs` at that point.
   */
  lemma DedupStep(xs: seq<InstallRequirement>, initial: seq<Option<set<InstallRequirement>>>, i: int,
                  unique: map<(string, string), InstallRequirement>, at: map<(string, string), int>,
                  merged: map<(string, string), set<InstallRequirement>>, own: set<InstallRequirement>)
    requires DedupState(xs, initial, i, unique, at, merged) && SourcesFollowObjects(xs, initial)
    requires i < |xs| && Pinned(xs[i])
    requires KeyOf(xs[i]) in unique && unique[KeyOf(xs[i])] == xs[i] ==> own == merged[KeyOf(xs[i])]
    requires !(KeyOf(xs[i]) in unique && unique[KeyOf(xs[i])] == xs[i]) ==> own == Own(xs[i], initial[i])
    ensures var key := KeyOf(xs[i]);
            if key !in unique then
              DedupState(xs, initial, i + 1, unique[key := xs[i]], at[key := i], merged[key := own])
            else
              DedupState(xs, initial, i + 1, unique, at, merged[key := merged[key] + own])
  {
    if KeyOf(xs[i]) !in unique {
      DedupNewKey(xs, initial, i, unique, at, merged);
    } else {
      DedupKnownKey(xs, initial, i, unique, at, merged, own);
    }
  }

  /** A key met for the first time is kept with the entry's own sources. */
  lemma DedupNewKey(xs: seq<InstallRequirement>, initial: seq<Option<set<InstallRequirement>>>, i: int,
                    unique: map<(string, string), InstallRequirement>, at: map<(string, string), int>,
                    merged: map<(string, string), set<InstallRequirement>>)
    requires DedupState(xs, initial, i, unique, at, merged)
    requires i < |xs| && Pinned(xs[i]) && KeyOf(xs[i]) !in unique
    ensures var key := KeyOf(xs[i]);
            DedupState(xs, initial, i + 1, unique[key := xs[i]], at[key := i], merged[key := Own(xs[i], initial[i])])
  {
    var key, own := KeyOf(xs[i]), Own(xs[i], initial[i]);
    assert {} + own == own;
    assert merged[key := own] == MergedMap(xs, initial, i + 1);
  }

  /** A known key gains the entry's sources. */
  lemma DedupKnownKey(xs: seq<InstallRequirement>, initial: seq<Option<set<InstallRequirement>>>, i: int,
                      unique: map<(string, string), InstallRequirement>, at: map<(string, string), int>,
                      merged: map<(string, string), set<InstallRequirement>>, own: set<InstallRequirement>)
    requires DedupState(xs, initial, i, unique, at, merged) && SourcesFollowObjects(xs, initial)
    requires i < |xs| && Pinned(xs[i]) && KeyOf(xs[i]) in unique
    requires unique[KeyOf(xs[i])] == xs[i] ==> own == merged[KeyOf(xs[i])]
    requires unique[KeyOf(xs[i])] != xs[i] ==> own == Own(xs[i], initial[i])
    ensures var key := KeyOf(xs[i]);
            DedupState(xs, initial, i + 1, unique, at, merged[key := merged[key] + own])
  {
    var key := KeyOf(xs[i]);
    if unique[key] == xs[i] {
      OwnInMerged(xs, initial, i, at[key]);
      assert merged[key] + own == merged[key] + Own(xs[i], initial[i]);
    }
    assert merged[key := merged[key] + own] == MergedMap(xs, initial, i + 1);
  }

  /**
   * The sources on the heap agree with the bookkeeping: a kept entry holds
   * the merged sources of its key, every other entry still holds what it had
   * on entry.
   */
  ghost predicate HeapAgrees(xs: seq<InstallRequirement>, initial: seq<Option<set<InstallRequirement>>>,
                             unique: map<(string, string), InstallRequirement>, merged: map<(string, string), set<InstallRequirement>>)
    reads set x | x in xs
    reads set k | k in unique :: unique[k]
  {
    && |initial| == |xs|
    && (forall k :: k in unique ==> k in merged && unique[k].sourceIreqs == Some(merged[k]))
    && (forall j :: 0 <= j < |xs| && !Kept(unique, xs[j]) ==> xs[j].sourceIreqs == initial[j])
  }

  /** The body of the loop for the pinned entry `xs[i]`. */
  method Absorb(xs: seq<InstallRequirement>, ghost initial: seq<Option<set<InstallRequirement>>>, i: int,
                unique: map<(string, string), InstallRequirement>,
                ghost at: map<(string, string), int>, ghost merged: map<(string, string), set<InstallRequirement>>)
    returns (unique': map<(string, string), InstallRequirement>,
             ghost at': map<(string, string), int>, ghost merged': map<(string, string), set<InstallRequirement>>)
    requires DedupState(xs, initial, i, unique, at, merged) && SourcesFollowObjects(xs, initial)
    requires HeapAgrees(xs, initial, unique, merged)
    requires i < |xs| && Pinned(xs[i])
    modifies set x | x in xs
    ensures DedupState(xs, initial, i + 1, unique', at', merged')
    ensures HeapAgrees(xs, initial, unique', merged')
  {
    var ireq := xs[i];
    var key := (ireq.spec.name, ireq.spec.version.value);
    var own := Own(ireq, ireq.sourceIreqs);
    DedupStep(xs, initial, i, unique, at, merged, own);
    if key !in unique {
      ireq.sourceIreqs := Some(own);
      unique', at', merged' := unique[key := ireq], at[key := i], merged[key := own];
    } else {
      var kept := unique[key];
      kept.sourceIreqs := Some(kept.sourceIreqs.value + own);
      unique', at', merged' := unique, at, merged[key := merged[key] + own];
    }
  }

  /**
   * `deduplicate_install_requirements`: one requirement per name and version,
   * the first one met, whose `_source_ireqs` becomes the union of the sources
   * of all requirements with that key; an unpinned requirement raises.
   */
  method DeduplicateInstallRequirements(ireqs: seq<InstallRequirement>) returns (r: Result<set<InstallRequirement>, CompileError>)
    modifies set x | x in ireqs
    ensures r.Ok? <==> AllPinned(ireqs)
    ensures r.Err? ==> exists i :: 0 <= i < |ireqs| && AllPinned(ireqs[..i]) && !Pinned(ireqs[i])
                                   && r.error == NotPinned(ireqs[i].spec.req)
    ensures r.Ok? ==> r.value == Deduplicated(ireqs)
    ensures r.Ok? ==> forall x :: x in r.value ==> x.sourceIreqs == Some(MergedSources(ireqs, old(SourcesOf(ireqs)), KeyOf(x)))
    ensures r.Ok? ==> forall j :: 0 <= j < |ireqs| && ireqs[j] !in r.value ==> ireqs[j].sourceIreqs == old(ireqs[j].sourceIreqs)
  {
    ghost var initial := SourcesOf(ireqs);
    var unique: map<(string, string), InstallRequirement> := map[];
    ghost var at: map<(string, string), int> := map[];
    ghost var merged: map<(string, string), set<InstallRequirement>> := map[];
    DedupStart(ireqs);
    var i := 0;
    while i < |ireqs|
      invariant DedupState(ireqs, initial, i, unique, at, merged)
      invariant HeapAgrees(ireqs, initial, unique, merged)
    {
      if ireqs[i].spec.version.None? {
        DedupStops(ireqs, initial, i, unique, at, merged);
        return Err(NotPinned(ireqs[i].spec.req));
      }
      unique, at, merged := Absorb(ireqs, initial, i, unique, at, merged);
      i := i + 1;
    }
    DedupOutcome(ireqs, initial, unique, at, merged);
    return Ok(unique.Values);
  }

  /** An unpinned entry stops the loop: it is the first one. */
  lemma DedupStops(xs: seq<InstallRequirement>, initial: seq<Option<set<InstallRequirement>>>, i: int,
                   unique: map<(string, string), InstallRequirement>, at: map<(string, string), int>,
                   merged: map<(string, string), set<InstallRequirement>>)
    requires DedupState(xs, initial, i, unique, at, merged)
    requires i < |xs| && !Pinned(xs[i])
    ensures !AllPinned(xs)
    ensures exists j :: 0 <= j < |xs| && AllPinned(xs[..j]) && !Pinned(xs[j]) && xs[j].spec.req == xs[i].spec.req
  {
    assert AllPinned(xs[..i]);
  }

  /** Before the loop: nothing kept, every entry holds its own sources. */
  lemma DedupStart(xs: seq<InstallRequirement>)
    ensures DedupState(xs, SourcesOf(xs), 0, map[], map[], map[])
    ensures SourcesFollowObjects(xs, SourcesOf(xs))
    ensures HeapAgrees(xs, SourcesOf(xs), map[], map[])
  {
    SourcesOfAt(xs);
  }

  /** What the bookkeeping says once every entry is met. */
  lemma DedupOutcome(xs: seq<InstallRequirement>, initial: seq<Option<set<InstallRequirement>>>,
                     unique: map<(string, string), InstallRequirement>, at: map<(string, string), int>,
                     merged: map<(string, string), set<InstallRequirement>>)
    requires DedupState(xs, initial, |xs|, unique, at, merged) && HeapAgrees(xs, initial, unique, merged)
    ensures AllPinned(xs)
    ensures unique.Values == Deduplicated(xs)
    ensures forall x :: x in unique.Values ==> x.sourceIreqs == Some(MergedSources(xs, initial, KeyOf(x)))
    ensures forall j :: 0 <= j < |xs| && xs[j] !in unique.Values ==> xs[j].sourceIreqs == initial[j]
  {
    DeduplicatedIsKept(xs, unique, at);
    forall j | 0 <= j < |xs| && xs[j] !in unique.Values
      ensures !Kept(unique, xs[j])
    {
    }
  }

  lemma DeduplicatedIsKept(xs: seq<InstallRequirement>, unique: map<(string, string), InstallRequirement>, at: map<(string, string), int>)
    requires AllPinned(xs)
    requires forall j :: 0 <= j < |xs| ==> KeyOf(xs[j]) in unique
    requires forall k :: k in unique ==> k in at && 0 <= at[k] < |xs| && xs[at[k]] == unique[k]
                                         && KeyOf(unique[k]) == k && IsFirstOfKey(xs, at[k])
    ensures unique.Values == Deduplicated(xs)
  {
    forall x | x in Deduplicated(xs) ensures x in unique.Values {
      var i :| 0 <= i < |xs| && IsFirstOfKey(xs, i) && xs[i] == x;
      var k := KeyOf(x);
      var j := at[k];
      assert KeyOf(xs[j]) == k;
      assert j == i;
    }
  }

  /** Two kept entries with the same key are the same entry. */
  lemma DeduplicatedOnePerKey(xs: seq<InstallRequirement>, x: InstallRequirement, y: InstallRequirement)
    requires AllPinned(xs)
    requires x in Deduplicated(xs) && y in Deduplicated(xs) && KeyOf(x) == KeyOf(y)
    ensures x == y
  {
    var i :| 0 <= i < |xs| && IsFirstOfKey(xs, i) && xs[i] == x;
    var j :| 0 <= j < |xs| && IsFirstOfKey(xs, j) && xs[j] == y;
    if i < j {
      assert KeyOf(xs[i]) == KeyOf(xs[j]);
    }
  }

  /** The keys of a set of pinned requirements. */
  function KeysOf(xs: set<InstallRequirement>): set<(string, string)>
    requires forall x :: x in xs ==> Pinned(x)
  {
    set x | x in xs :: KeyOf(x)
  }

  /** Every key has a first entry. */
  lemma {:induction false} FirstOfKeyExists(xs: seq<InstallRequirement>, i: int)
    requires AllPinned(xs) && 0 <= i < |xs|
    ensures exists j :: 0 <= j <= i && IsFirstOfKey(xs, j) && KeyOf(xs[j]) == KeyOf(xs[i])
    decreases i
  {
    if !IsFirstOfKey(xs, i) {
      var j :| 0 <= j < i && KeyOf(xs[j]) == KeyOf(xs[i]);
      FirstOfKeyExists(xs, j);
    }
  }

  /** Every key of the input survives, carried by an entry of the input. */
  lemma DeduplicatedCoversKeys(xs: seq<InstallRequirement>)
    requires AllPinned(xs)
    ensures Deduplicated(xs) <= Elements(xs)
    ensures forall i :: 0 <= i < |xs| ==> KeyOf(xs[i]) in KeysOf(Deduplicated(xs))
  {
    forall i | 0 <= i < |xs|
      ensures KeyOf(xs[i]) in KeysOf(Deduplicated(xs))
    {
      FirstOfKeyExists(xs, i);
      var j :| 0 <= j <= i && IsFirstOfKey(xs, j) && KeyOf(xs[j]) == KeyOf(xs[i]);
      assert xs[j] in Deduplicated(xs);
      assert KeyOf(xs[j]) == KeyOf(xs[i]);
    }
  }

  /** An entry that occurs for the first time at `i` in a list of distinct keys is kept. */
  lemma FirstOccurrenceKept(ys: seq<InstallRequirement>, i: int)
    requires AllPinned(ys) && 0 <= i < |ys|
    requires forall a, b :: a in Elements(ys) && b in Elements(ys) && KeyOf(a) == KeyOf(b) ==> a == b
    requires forall j :: 0 <= j < i ==> ys[j] != ys[i]
    ensures ys[i] in Deduplicated(ys)
  {
    forall j | 0 <= j < i
      ensures KeyOf(ys[j]) != KeyOf(ys[i])
    {
      assert ys[j] in Elements(ys) && ys[i] in Elements(ys);
    }
  }

  /**
   * Deduplication is idempotent: listing a deduplicated set in any order and
   * deduplicating again gives the same set.
   */
  lemma DeduplicatedIdempotent(xs: seq<InstallRequirement>, ys: seq<InstallRequirement>)
    requires AllPinned(xs)
    requires Elements(ys) == Deduplicated(xs)
    ensures AllPinned(ys)
    ensures Deduplicated(ys) == Deduplicated(xs)
  {
    assert AllPinned(ys) by {
      forall i | 0 <= i < |ys| ensures Pinned(ys[i]) {
        assert ys[i] in Elements(ys);
      }
    }
    forall a, b | a in Elements(ys) && b in Elements(ys) && KeyOf(a) == KeyOf(b)
      ensures a == b
    {
      DeduplicatedOnePerKey(xs, a, b);
    }
    forall y | y in Elements(ys)
      ensures y in Deduplicated(ys)
    {
      var i := FirstIndex(ys, y);
      FirstOccurrenceKept(ys, i);
    }
    DeduplicatedCoversKeys(ys);
  }

  /** The first position of an element. */
  function FirstIndex<T(==)>(xs: seq<T>, x: T): (i: int)
    requires x in Elements(xs)
    ensures 0 <= i < |xs| && xs[i] == x && forall j :: 0 <= j < i ==> xs[j] != x
  {
    if xs[0] == x then 0
    else
      assert x in Elements(xs[1..]) by { var k :| 0 <= k < |xs| && xs[k] == x; assert xs[1..][k - 1] == x; }
      1 + FirstIndex(xs[1..], x)
  }

  // ------------------------------------------------------------ resolver and finder

  /** How a resolver run fails: `DistributionNotFound`, with the `args` of its `ResolutionImpossible` cause when it has one. */
  datatype ResolutionFailure = DistributionNotFound(impossible: Option<seq<string>>)

  /** What one `BacktrackingResolver(...).resolve()` reports, and the unsafe data it collects. */
  datatype ResolverRun = ResolverRun(
    outcome: Result<set<RequirementSpec>, ResolutionFailure>,
    unsafePackages: set<string>,
    unsafeConstraints: set<RequirementSpec>)

  /** The resolver the compiler keeps in `self.resolver`. */
  datatype ResolverState = ResolverState(
    constraints: set<RequirementSpec>,
    existingConstraints: map<string, RequirementSpec>,
    unsafePackages: set<string>,
    unsafeConstraints: set<RequirementSpec>)

  /**
   * The outside world the compiler reaches through its repository: the
   * finder's libraries, `install_req_from_req_string`, `key_from_ireq` and
   * the pip-tools resolver.
   */
  datatype Repository = Repository(
    libs: Finder.Libraries,
    parseRequirement: string -> Result<RequirementSpec, string>,
    keyOf: RequirementSpec -> string,
    resolve: (set<RequirementSpec>, map<string, RequirementSpec>) -> ResolverRun)

  function SpecsOf(xs: set<InstallRequirement>): set<RequirementSpec> {
    set x | x in xs :: x.spec
  }

  function SpecMap(m: map<string, InstallRequirement>): map<string, RequirementSpec> {
    map k | k in m :: m[k].spec
  }

  /** `getattr(self.resolver, "unsafe_packages", set())`. */
  function UnsafePackagesOf(resolver: Option<ResolverState>): set<string> {
    if resolver.Some? then resolver.value.unsafePackages else {}
  }

  /** `getattr(self.resolver, "unsafe_constraints", set())`. */
  function UnsafeConstraintsOf(resolver: Option<ResolverState>): set<RequirementSpec> {
    if resolver.Some? then resolver.value.unsafeConstraints else {}
  }

  /** `_resolve_with_piptools` on values: the pinned set, or the error it raises. */
  function Attempt(repository: Repository, package: string, ireqs: set<RequirementSpec>, constraints: map<string, RequirementSpec>)
    : Result<set<RequirementSpec>, CompileError>
  {
    match repository.resolve(ireqs, constraints).outcome
    case Ok(pinned) => Ok(pinned)
    case Err(DistributionNotFound(Some(args))) => Err(Unsolvable(package, args))
    case Err(DistributionNotFound(None)) => Err(NoDistribution)
  }

  /** The resolver left behind by a run: the new one, plus the unsafe data of the old one when the run succeeds. */
  function ResolverAfter(before: Option<ResolverState>, run: ResolverRun, ireqs: set<RequirementSpec>, constraints: map<string, RequirementSpec>)
    : ResolverState
  {
    if run.outcome.Ok? then
      ResolverState(ireqs, constraints, run.unsafePackages + UnsafePackagesOf(before), run.unsafeConstraints + UnsafeConstraintsOf(before))
    else
      ResolverState(ireqs, constraints, run.unsafePackages, run.unsafeConstraints)
  }

  /** `install_req_from_req_string(s, comes_from=origin)` for every string, stopping at the first it rejects. */
  function ParseAll(parse: string -> Result<RequirementSpec, string>, texts: seq<string>, origin: string): Result<seq<RequirementSpec>, CompileError>
    decreases |texts|
  {
    if texts == [] then Ok([])
    else
      match ParseAll(parse, texts[..|texts| - 1], origin)
      case Err(e) => Err(e)
      case Ok(done) =>
        match parse(texts[|texts| - 1])
        case Err(_) => Err(InvalidRequirement(texts[|texts| - 1]))
        case Ok(spec) => Ok(done + [spec.(comesFrom := Some(origin))])
  }

  /** `_find_build_dependencies` on values: the finder in its lenient mode, then one requirement per string. */
  function BuildRequirements(repository: Repository, ireq: RequirementSpec): Result<seq<RequirementSpec>, CompileError> {
    if ireq.version.None? then Err(NotPinned(ireq.req))
    else
      match Finder.Find(repository.libs, Finder.Package(ireq.name, ireq.version.value), false).result
      case Err(e) => Err(FinderFailed(e))
      case Ok(found) => ParseAll(repository.parseRequirement, found, ireq.name)
  }

  /**
   * `_resolve_build_deps_for_ireq` on values: nothing to resolve gives the
   * empty set; otherwise the resolver runs under the constraints, and once
   * more without them when that run is unsolvable.
   */
  function BuildDepsOutcome(repository: Repository, ireq: RequirementSpec, constraints: map<string, RequirementSpec>)
    : Result<set<RequirementSpec>, CompileError>
  {
    match BuildRequirements(repository, ireq)
    case Err(e) => Err(e)
    case Ok(reqs) =>
      if reqs == [] then Ok({})
      else
        match Attempt(repository, ireq.req, Elements(reqs), constraints)
        case Err(Unsolvable(_, _)) => Attempt(repository, ireq.req, Elements(reqs), map[])
        case other => other
  }

  /** One fresh requirement per value, none of them with sources yet. */
  method Materialize(specs: set<RequirementSpec>) returns (objs: set<InstallRequirement>)
    ensures fresh(objs)
    ensures SpecsOf(objs) == specs
    ensures forall x :: x in objs ==> x.sourceIreqs == None
  {
    objs := {};
    var left := specs;
    while left != {}
      invariant left <= specs
      invariant SpecsOf(objs) + left == specs
      invariant fresh(objs)
      invariant forall x :: x in objs ==> x.sourceIreqs == None
      decreases |left|
    {
      var s :| s in left;
      var x := new InstallRequirement(s);
      objs := objs + {x};
      left := left - {s};
    }
  }

  // ------------------------------------------------------------ what a requirement's resolution does to the resolver

  /** A run that failed with a `ResolutionImpossible` cause: the one `_resolve_build_deps_for_ireq` retries. */
  predicate IsUnsolvable(run: ResolverRun) {
    run.outcome.Err? && run.outcome.error.impossible.Some?
  }

  /**
   * The resolver runs `_resolve_build_deps_for_ireq` makes: none when the
   * lookup fails or finds nothing, one under the constraints, and a second
   * one without them when the first is unsolvable.
   */
  function RunsFor(repository: Repository, ireq: RequirementSpec, constraints: map<string, RequirementSpec>): seq<ResolverRun> {
    match BuildRequirements(repository, ireq)
    case Err(_) => []
    case Ok(reqs) =>
      if reqs == [] then []
      else
        var first := repository.resolve(Elements(reqs), constraints);
        if IsUnsolvable(first) then [first, repository.resolve(Elements(reqs), map[])] else [first]
  }

  /** The resolver `_resolve_build_deps_for_ireq` leaves in `self.resolver`: the one of its last run. */
  function ResolverAfterIreq(before: Option<ResolverState>, repository: Repository, ireq: RequirementSpec,
                             constraints: map<string, RequirementSpec>): Option<ResolverState>
  {
    match BuildRequirements(repository, ireq)
    case Err(_) => before
    case Ok(reqs) =>
      if reqs == [] then before
      else
        var wanted := Elements(reqs);
        var first := repository.resolve(wanted, constraints);
        var afterFirst := ResolverAfter(before, first, wanted, constraints);
        if IsUnsolvable(first) then Some(ResolverAfter(Some(afterFirst), repository.resolve(wanted, map[]), wanted, map[]))
        else Some(afterFirst)
  }

  predicate AllSucceeded(runs: seq<ResolverRun>) {
    forall i :: 0 <= i < |runs| ==> runs[i].outcome.Ok?
  }

  /** The unsafe data `before` holds is still held by `after`. */
  predicate UnsafeKept(before: Option<ResolverState>, after: Option<ResolverState>) {
    UnsafePackagesOf(before) <= UnsafePackagesOf(after) && UnsafeConstraintsOf(before) <= UnsafeConstraintsOf(after)
  }

  /** What the compiler has done: the requirement strings it looked up, the resolver runs, and the resolver it keeps. */
  datatype Trace = Trace(lookedUp: seq<string>, runs: seq<ResolverRun>, resolver: Option<ResolverState>)

  /**
   * From `before` to `after` the compiler only appended to its record,
   * looked up no requirement string in `cached`, and, when every resolver
   * run in between succeeded, kept the unsafe data it held before.
   */
  predicate Progress(before: Trace, after: Trace, cached: set<string>) {
    && before.lookedUp <= after.lookedUp
    && before.runs <= after.runs
    && (forall j :: |before.lookedUp| <= j < |after.lookedUp| ==> after.lookedUp[j] !in cached)
    && (AllSucceeded(after.runs[|before.runs|..]) ==> UnsafeKept(before.resolver, after.resolver))
  }

  lemma ProgressChain(a: Trace, b: Trace, c: Trace, outer: set<string>, inner: set<string>)
    requires Progress(a, b, outer) && Progress(b, c, inner) && outer <= inner
    ensures Progress(a, c, outer)
  {
    forall j | |a.lookedUp| <= j < |c.lookedUp|
      ensures c.lookedUp[j] !in outer
    {
      if j < |b.lookedUp| {
        assert c.lookedUp[j] == b.lookedUp[j];
      }
    }
    if AllSucceeded(c.runs[|a.runs|..]) {
      forall i | 0 <= i < |b.runs| - |a.runs|
        ensures b.runs[|a.runs|..][i].outcome.Ok?
      {
        assert b.runs[|a.runs|..][i] == c.runs[|a.runs|..][i];
      }
      forall i | 0 <= i < |c.runs| - |b.runs|
        ensures c.runs[|b.runs|..][i].outcome.Ok?
      {
        assert c.runs[|b.runs|..][i] == c.runs[|a.runs|..][i + |b.runs| - |a.runs|];
      }
    }
  }

  /** Resolving the build dependencies of a requirement not in `cached` is progress. */
  lemma IreqProgress(before: Trace, after: Trace, repository: Repository, ireq: RequirementSpec,
                     constraints: map<string, RequirementSpec>, cached: set<string>)
    requires ireq.req !in cached
    requires after.resolver == ResolverAfterIreq(before.resolver, repository, ireq, constraints)
    requires after.runs == before.runs + RunsFor(repository, ireq, constraints)
    requires after.lookedUp == before.lookedUp + (if ireq.version.Some? then [ireq.req] else [])
    ensures Progress(before, after, cached)
  {
    SuccessfulRunsKeepUnsafeData(before.resolver, repository, ireq, constraints);
    assert after.runs[|before.runs|..] == RunsFor(repository, ireq, constraints);
  }

  // ------------------------------------------------------------ the cache and the recursion

  /** `dependency_cache`: the build dependencies found so far, per requirement string. */
  class DependencyCache {
    var entries: map<string, set<InstallRequirement>>
    /** Every requirement some entry holds. */
    ghost var objects: set<InstallRequirement>
    /** The requirement each entry was solved for. */
    ghost var solvedFor: map<string, RequirementSpec>

    ghost predicate Valid()
      reads this
    {
      && (forall k :: k in entries ==> entries[k] <= objects)
      && entries.Keys == solvedFor.Keys
    }

    constructor ()
      ensures entries == map[] && objects == {} && solvedFor == map[] && Valid()
    {
      entries := map[];
      objects := {};
      solvedFor := map[];
    }

    /** `dependency_cache[key] = value`, the value being what was found for `spec`. */
    method Store(key: string, value: set<InstallRequirement>, ghost spec: RequirementSpec)
      requires Valid()
      modifies this
      ensures Valid()
      ensures entries == old(entries)[key := value] && objects == old(objects) + value
      ensures solvedFor == old(solvedFor)[key := spec]
    {
      entries := entries[key := value];
      objects := objects + value;
      solvedFor := solvedFor[key := spec];
    }
  }

  ghost function CacheObjects(c: DependencyCache?): set<InstallRequirement>
    reads c
  {
    if c == null then {} else c.objects
  }

  ghost function CacheKeys(c: DependencyCache?): set<string>
    reads c
  {
    if c == null then {} else c.entries.Keys
  }

  /** The position of the first requirement whose string `cached` does not hold, `|xs|` when it holds them all. */
  function FirstUncached(cached: set<string>, xs: seq<InstallRequirement>): (k: nat)
    ensures k <= |xs|
    ensures forall j :: 0 <= j < k ==> xs[j].spec.req in cached
    ensures k < |xs| ==> xs[k].spec.req !in cached
  {
    if xs == [] || xs[0].spec.req !in cached then 0 else 1 + FirstUncached(cached, xs[1..])
  }

  /** `reqs[first]` has been solved for itself, and its build requirements were found. */
  ghost predicate SolvedFirst(repository: Repository, reqs: seq<InstallRequirement>, first: int,
                              solvedFor: map<string, RequirementSpec>, constraints: map<string, RequirementSpec>) {
    && 0 <= first < |reqs|
    && reqs[first].spec.req in solvedFor && solvedFor[reqs[first].spec.req] == reqs[first].spec
    && BuildDepsOutcome(repository, reqs[first].spec, constraints).Ok?
  }

  /**
   * What `resolve`'s loop reports about the first requirement whose string
   * `cached` does not hold: the error of its lookup when that fails, and,
   * when the loop succeeds, that the cache entry was solved for it.
   */
  ghost predicate ReportsFirst<T>(repository: Repository, cached: set<string>, reqs: seq<InstallRequirement>, r: Result<T, CompileError>,
                                  solvedFor: map<string, RequirementSpec>, constraints: map<string, RequirementSpec>) {
    var k := FirstUncached(cached, reqs);
    k < |reqs| ==>
      var o := BuildDepsOutcome(repository, reqs[k].spec, constraints);
      && (o.Err? ==> r.Err? && r.error == o.error)
      && (r.Ok? ==> reqs[k].spec.req in solvedFor && solvedFor[reqs[k].spec.req] == reqs[k].spec)
  }

  /** The requirement each one's cache entry was solved for, found by its string; itself when the cache lacks it. */
  ghost function SolvedAs(solvedFor: map<string, RequirementSpec>, reqs: seq<InstallRequirement>): (r: seq<RequirementSpec>)
    ensures |r| == |reqs|
    ensures forall i :: 0 <= i < |reqs| && reqs[i].spec.req in solvedFor ==> r[i] == solvedFor[reqs[i].spec.req]
  {
    seq(|reqs|, i requires 0 <= i < |reqs| => if reqs[i].spec.req in solvedFor then solvedFor[reqs[i].spec.req] else reqs[i].spec)
  }

  /**
   * `resolve`'s promise about the first requirement whose string `cached`
   * does not hold: `r` is the error of that requirement's lookup when the
   * lookup fails, and when `r` succeeds, that requirement's contribution was
   * solved for the requirement itself (`solvedAs`).
   */
  ghost predicate FirstReported<U>(repository: Repository, cached: set<string>, reqs: seq<InstallRequirement>, r: Result<U, CompileError>,
                                   solvedAs: seq<RequirementSpec>, constraints: map<string, RequirementSpec>) {
    var k := FirstUncached(cached, reqs);
    k < |reqs| ==>
      var o := BuildDepsOutcome(repository, reqs[k].spec, constraints);
      && (o.Err? ==> r == Err(o.error))
      && (r.Ok? ==> k < |solvedAs| && solvedAs[k] == reqs[k].spec)
  }

  /**
   * What the loop reports about the first uncached requirement holds of
   * `resolve`'s result `r`, which fails when the loop does and succeeds only
   * when it does, with `solvedAs` read off the cache.
   */
  lemma ReportsFirstCarried<T, U>(repository: Repository, cached: set<string>, reqs: seq<InstallRequirement>,
                                  gathered: Result<T, CompileError>, solvedFor: map<string, RequirementSpec>,
                                  constraints: map<string, RequirementSpec>, solvedAs: seq<RequirementSpec>, r: Result<U, CompileError>)
    requires ReportsFirst(repository, cached, reqs, gathered, solvedFor, constraints)
    requires |solvedAs| == |reqs|
    requires forall i :: 0 <= i < |reqs| && reqs[i].spec.req in solvedFor ==> solvedAs[i] == solvedFor[reqs[i].spec.req]
    requires gathered.Err? ==> r == Err(gathered.error)
    requires r.Ok? ==> gathered.Ok?
    ensures FirstReported(repository, cached, reqs, r, solvedAs, constraints)
  {
  }

  lemma SolvedFirstGrows(repository: Repository, reqs: seq<InstallRequirement>, first: int,
                         f0: map<string, RequirementSpec>, f1: map<string, RequirementSpec>, constraints: map<string, RequirementSpec>)
    requires SolvedFirst(repository, reqs, first, f0, constraints) && Grows(f0, f1)
    ensures SolvedFirst(repository, reqs, first, f1, constraints)
  {
  }

  /** The cache is given, not empty, and already holds every requirement. */
  predicate AllCached(c: DependencyCache?, xs: seq<InstallRequirement>)
    reads c
  {
    c != null && c.entries != map[] && forall i :: 0 <= i < |xs| ==> xs[i].spec.req in c.entries
  }

  /** Entries already present keep their value. */
  ghost predicate Grows<K, V>(before: map<K, V>, after: map<K, V>) {
    forall k :: k in before ==> k in after && after[k] == before[k]
  }

  /** Every pinned value has a requirement of the same name and version among `objs`. */
  ghost predicate Covers(objs: set<InstallRequirement>, specs: set<RequirementSpec>) {
    forall s :: s in specs ==> exists x :: x in objs && x.spec.name == s.name && x.spec.version == s.version
  }

  /**
   * The entry for `k` was solved for a requirement written `k`, whose
   * build dependencies under `constraints` resolve, and it covers their
   * pinned set.
   */
  ghost predicate SolvedIn(repository: Repository, entries: map<string, set<InstallRequirement>>, solvedFor: map<string, RequirementSpec>,
                           k: string, constraints: map<string, RequirementSpec>)
  {
    && k in entries && k in solvedFor && solvedFor[k].req == k
    && var o := BuildDepsOutcome(repository, solvedFor[k], constraints);
       o.Ok? && Covers(entries[k], o.value)
  }

  /** Every entry whose key is not in `cached` is solved. */
  ghost predicate SolvedSince(repository: Repository, entries: map<string, set<InstallRequirement>>, solvedFor: map<string, RequirementSpec>,
                              cached: set<string>, constraints: map<string, RequirementSpec>)
  {
    forall k :: k in entries && k !in cached ==> SolvedIn(repository, entries, solvedFor, k, constraints)
  }

  lemma SolvedSinceChain(repository: Repository, e0: map<string, set<InstallRequirement>>, f0: map<string, RequirementSpec>,
                         e1: map<string, set<InstallRequirement>>, f1: map<string, RequirementSpec>,
                         cached: set<string>, constraints: map<string, RequirementSpec>)
    requires SolvedSince(repository, e0, f0, cached, constraints)
    requires Grows(e0, e1) && Grows(f0, f1)
    requires SolvedSince(repository, e1, f1, e0.Keys, constraints)
    ensures SolvedSince(repository, e1, f1, cached, constraints)
  {
    forall k | k in e1 && k !in cached
      ensures SolvedIn(repository, e1, f1, k, constraints)
    {
      if k in e0 {
        assert SolvedIn(repository, e0, f0, k, constraints);
      }
    }
  }

  /** From `(e0, f0)` to `(e1, f1)` the cache kept its entries and solved every entry it gained. */
  ghost predicate Extends(repository: Repository, e0: map<string, set<InstallRequirement>>, f0: map<string, RequirementSpec>,
                          e1: map<string, set<InstallRequirement>>, f1: map<string, RequirementSpec>, constraints: map<string, RequirementSpec>)
  {
    Grows(e0, e1) && Grows(f0, f1) && SolvedSince(repository, e1, f1, e0.Keys, constraints)
  }

  lemma ExtendsChain(repository: Repository, e0: map<string, set<InstallRequirement>>, f0: map<string, RequirementSpec>,
                     e1: map<string, set<InstallRequirement>>, f1: map<string, RequirementSpec>,
                     e2: map<string, set<InstallRequirement>>, f2: map<string, RequirementSpec>, constraints: map<string, RequirementSpec>)
    requires Extends(repository, e0, f0, e1, f1, constraints) && Extends(repository, e1, f1, e2, f2, constraints)
    ensures Extends(repository, e0, f0, e2, f2, constraints)
  {
    SolvedSinceChain(repository, e1, f1, e2, f2, e0.Keys, constraints);
  }

  lemma SolvedSinceStore(repository: Repository, e: map<string, set<InstallRequirement>>, f: map<string, RequirementSpec>,
                         cached: set<string>, constraints: map<string, RequirementSpec>,
                         key: string, value: set<InstallRequirement>, spec: RequirementSpec)
    requires SolvedSince(repository, e, f, cached, constraints)
    requires spec.req == key
    requires BuildDepsOutcome(repository, spec, constraints).Ok?
    requires Covers(value, BuildDepsOutcome(repository, spec, constraints).value)
    ensures SolvedSince(repository, e[key := value], f[key := spec], cached, constraints)
  {
    forall k | k in e[key := value] && k !in cached
      ensures SolvedIn(repository, e[key := value], f[key := spec], k, constraints)
    {
      if k != key {
        assert SolvedIn(repository, e, f, k, constraints);
      }
    }
  }

  /** The first `|listings|` requirements are cached, each entry listed, once per element, in `listings`. */
  ghost predicate Listed(entries: map<string, set<InstallRequirement>>, reqs: seq<InstallRequirement>, listings: seq<seq<InstallRequirement>>) {
    && |listings| <= |reqs|
    && forall j :: 0 <= j < |listings| ==>
         && reqs[j].spec.req in entries
         && entries[reqs[j].spec.req] == Elements(listings[j])
         && Distinct(listings[j])
  }

  lemma ListedGrows(e0: map<string, set<InstallRequirement>>, e1: map<string, set<InstallRequirement>>,
                    reqs: seq<InstallRequirement>, listings: seq<seq<InstallRequirement>>)
    requires Listed(e0, reqs, listings) && Grows(e0, e1)
    ensures Listed(e1, reqs, listings)
  {
    forall j | 0 <= j < |listings|
      ensures reqs[j].spec.req in e1 && e1[reqs[j].spec.req] == Elements(listings[j])
    {
      assert reqs[j].spec.req in e0;
    }
  }

  lemma ListedSnoc(entries: map<string, set<InstallRequirement>>, reqs: seq<InstallRequirement>,
                   listings: seq<seq<InstallRequirement>>, listed: seq<InstallRequirement>)
    requires Listed(entries, reqs, listings) && |listings| < |reqs|
    requires reqs[|listings|].spec.req in entries && entries[reqs[|listings|].spec.req] == Elements(listed) && Distinct(listed)
    ensures Listed(entries, reqs, listings + [listed])
  {
    forall j | 0 <= j < |listings| + 1
      ensures (listings + [listed])[j] == if j < |listings| then listings[j] else listed
    {
    }
  }

  /**
   * Every requirement solved since `cached` was taken contributes a listing
   * that covers the pinned build dependencies it was solved for, and so
   * does their deduplicated concatenation.
   */
  lemma ListingsCover(repository: Repository, entries: map<string, set<InstallRequirement>>, solvedFor: map<string, RequirementSpec>,
                      cached: set<string>, constraints: map<string, RequirementSpec>,
                      reqs: seq<InstallRequirement>, listings: seq<seq<InstallRequirement>>, solvedAs: seq<RequirementSpec>)
    requires SolvedSince(repository, entries, solvedFor, cached, constraints)
    requires Listed(entries, reqs, listings) && |listings| == |reqs| && |solvedAs| == |reqs|
    requires forall i :: 0 <= i < |reqs| && reqs[i].spec.req in solvedFor ==> solvedAs[i] == solvedFor[reqs[i].spec.req]
    requires AllPinned(Flatten(listings))
    ensures forall i :: 0 <= i < |reqs| && reqs[i].spec.req !in cached ==>
              && solvedAs[i].req == reqs[i].spec.req
              && var o := BuildDepsOutcome(repository, solvedAs[i], constraints);
                 o.Ok? && Covers(Elements(listings[i]), o.value) && Covers(Deduplicated(Flatten(listings)), o.value)
  {
    forall i | 0 <= i < |reqs| && reqs[i].spec.req !in cached
      ensures && solvedAs[i].req == reqs[i].spec.req
              && var o := BuildDepsOutcome(repository, solvedAs[i], constraints);
                 o.Ok? && Covers(Elements(listings[i]), o.value) && Covers(Deduplicated(Flatten(listings)), o.value)
    {
      var k := reqs[i].spec.req;
      assert SolvedIn(repository, entries, solvedFor, k, constraints);
      ElementsFlatten(listings, i);
      CoversAfterDedup(Elements(listings[i]), Flatten(listings), BuildDepsOutcome(repository, solvedAs[i], constraints).value);
    }
  }

  /** Storing a solved entry under a new key extends the cache. */
  lemma ExtendsStore(repository: Repository, e0: map<string, set<InstallRequirement>>, f0: map<string, RequirementSpec>,
                     e1: map<string, set<InstallRequirement>>, f1: map<string, RequirementSpec>, constraints: map<string, RequirementSpec>,
                     key: string, value: set<InstallRequirement>, spec: RequirementSpec)
    requires Extends(repository, e0, f0, e1, f1, constraints) && key !in e0 && key !in f0
    requires spec.req == key
    requires BuildDepsOutcome(repository, spec, constraints).Ok?
    requires Covers(value, BuildDepsOutcome(repository, spec, constraints).value)
    ensures Extends(repository, e0, f0, e1[key := value], f1[key := spec], constraints)
  {
    SolvedSinceStore(repository, e1, f1, e0.Keys, constraints, key, value, spec);
  }

  /** `{key_from_ireq(ireq): ireq for ireq in install_requirements}`. */
  function ConstraintsFrom(keyOf: RequirementSpec -> string, xs: seq<InstallRequirement>): map<string, InstallRequirement>
    decreases |xs|
  {
    if xs == [] then map[]
    else ConstraintsFrom(keyOf, xs[..|xs| - 1])[keyOf(xs[|xs| - 1].spec) := xs[|xs| - 1]]
  }

  /** `existing_constraints or {...}`: an absent or empty map gives way to the requirements' own. */
  function ConstraintsOr(keyOf: RequirementSpec -> string, given: Option<map<string, InstallRequirement>>, xs: seq<InstallRequirement>)
    : map<string, InstallRequirement>
  {
    if given.Some? && given.value != map[] then given.value else ConstraintsFrom(keyOf, xs)
  }

  /** Deduplicating the old set together with new requirements keeps every name and version the old set covered. */
  lemma CoversAfterDedup(old_: set<InstallRequirement>, merged: seq<InstallRequirement>, specs: set<RequirementSpec>)
    requires Covers(old_, specs)
    requires old_ <= Elements(merged) && AllPinned(merged)
    ensures Covers(Deduplicated(merged), specs)
  {
    DeduplicatedCoversKeys(merged);
    forall s | s in specs
      ensures exists y :: y in Deduplicated(merged) && y.spec.name == s.name && y.spec.version == s.version
    {
      var x :| x in old_ && x.spec.name == s.name && x.spec.version == s.version;
      var i :| 0 <= i < |merged| && merged[i] == x;
      assert KeyOf(merged[i]) in KeysOf(Deduplicated(merged));
      var y :| y in Deduplicated(merged) && KeyOf(y) == KeyOf(x);
    }
  }

  /** The generator of `_find_build_dependencies`: one fresh requirement per string, coming from `origin`. */
  method BuildIreqs(parse: string -> Result<RequirementSpec, string>, texts: seq<string>, origin: string)
    returns (r: Result<seq<InstallRequirement>, CompileError>)
    ensures var p := ParseAll(parse, texts, origin);
            && r.Ok? == p.Ok?
            && (r.Ok? ==> |r.value| == |p.value| && forall i :: 0 <= i < |r.value| ==> r.value[i].spec == p.value[i])
            && (r.Err? ==> r.error == p.error)
    ensures r.Ok? ==> forall i :: 0 <= i < |r.value| ==> fresh(r.value[i]) && r.value[i].sourceIreqs == None
  {
    var built: seq<InstallRequirement> := [];
    var i := 0;
    while i < |texts|
      invariant 0 <= i <= |texts|
      invariant ParseAll(parse, texts[..i], origin).Ok?
      invariant var done := ParseAll(parse, texts[..i], origin).value;
                |built| == |done| && forall j :: 0 <= j < |built| ==> built[j].spec == done[j]
      invariant forall j :: 0 <= j < |built| ==> fresh(built[j]) && built[j].sourceIreqs == None
    {
      assert texts[..i + 1][..i] == texts[..i];
      var parsed := parse(texts[i]);
      if parsed.Err? {
        assert ParseAll(parse, texts[..i + 1], origin) == Err(InvalidRequirement(texts[i]));
        ParseErrorStands(parse, texts, i + 1, origin);
        return Err(InvalidRequirement(texts[i]));
      }
      var x := new InstallRequirement(parsed.value.(comesFrom := Some(origin)));
      built := built + [x];
      i := i + 1;
    }
    assert texts[..i] == texts;
    return Ok(built);
  }

  class BuildDependencyCompiler {
    const repository: Repository
    var resolver: Option<ResolverState>
    /** The requirement strings whose build requirements were looked up, in order. */
    ghost var lookedUp: seq<string>
    /** The resolver runs, in order. */
    ghost var runs: seq<ResolverRun>

    ghost function History(): Trace
      reads this
    {
      Trace(lookedUp, runs, resolver)
    }

    constructor (repository: Repository)
      ensures this.repository == repository && resolver == None && lookedUp == [] && runs == []
    {
      this.repository := repository;
      resolver := None;
      lookedUp := [];
      runs := [];
    }

    /**
     * `_resolve_with_piptools`: replaces the resolver, runs it, and carries
     * the old resolver's unsafe data over when the run succeeds.
     */
    method ResolveWithPiptools(package: string, ireqs: set<InstallRequirement>, constraints: map<string, InstallRequirement>)
      returns (r: Result<set<InstallRequirement>, CompileError>)
      modifies this
      ensures var run := repository.resolve(SpecsOf(ireqs), SpecMap(constraints));
              && resolver == Some(ResolverAfter(old(resolver), run, SpecsOf(ireqs), SpecMap(constraints)))
              && runs == old(runs) + [run]
      ensures var a := Attempt(repository, package, SpecsOf(ireqs), SpecMap(constraints));
              && r.Ok? == a.Ok?
              && (r.Ok? ==> SpecsOf(r.value) == a.value)
              && (r.Err? ==> r.error == a.error)
      ensures r.Ok? ==> fresh(r.value) && forall x :: x in r.value ==> x.sourceIreqs == None
      ensures lookedUp == old(lookedUp)
    {
      var unsafePackages := UnsafePackagesOf(resolver);
      var unsafeConstraints := UnsafeConstraintsOf(resolver);
      var wanted, existing := SpecsOf(ireqs), SpecMap(constraints);
      var run := repository.resolve(wanted, existing);
      runs := runs + [run];
      resolver := Some(ResolverState(wanted, existing, run.unsafePackages, run.unsafeConstraints));
      match run.outcome {
        case Err(DistributionNotFound(cause)) =>
          if cause.Some? {
            return Err(Unsolvable(package, cause.value));
          }
          return Err(NoDistribution);
        case Ok(pinned) =>
          var requirements := Materialize(pinned);
          resolver := Some(ResolverState(wanted, existing, run.unsafePackages + unsafePackages, run.unsafeConstraints + unsafeConstraints));
          return Ok(requirements);
      }
    }

    /** `_find_build_dependencies`, consumed whole as `set(...)` does; the finder is reached only for a pinned requirement. */
    method FindBuildIreqs(ireq: InstallRequirement) returns (r: Result<seq<InstallRequirement>, CompileError>)
      modifies this
      ensures resolver == old(resolver) && runs == old(runs)
      ensures lookedUp == old(lookedUp) + (if ireq.spec.version.Some? then [ireq.spec.req] else [])
      ensures var b := BuildRequirements(repository, ireq.spec);
              && r.Ok? == b.Ok?
              && (r.Ok? ==> |r.value| == |b.value| && forall i :: 0 <= i < |r.value| ==> r.value[i].spec == b.value[i])
              && (r.Err? ==> r.error == b.error)
      ensures r.Ok? ==> forall i :: 0 <= i < |r.value| ==> fresh(r.value[i]) && r.value[i].sourceIreqs == None
    {
      if ireq.spec.version.None? {
        return Err(NotPinned(ireq.spec.req));
      }
      var found, _ := Finder.FindBuildDependencies(repository.libs, Finder.Package(ireq.spec.name, ireq.spec.version.value), false);
      lookedUp := lookedUp + [ireq.spec.req];
      if found.Err? {
        return Err(FinderFailed(found.error));
      }
      r := BuildIreqs(repository.parseRequirement, found.value, ireq.spec.name);
    }

    /** `_resolve_build_deps_for_ireq`. */
    method ResolveBuildDepsForIreq(ireq: InstallRequirement, constraints: map<string, InstallRequirement>)
      returns (r: Result<set<InstallRequirement>, CompileError>)
      modifies this
      ensures var o := BuildDepsOutcome(repository, ireq.spec, SpecMap(constraints));
              && r.Ok? == o.Ok?
              && (r.Ok? ==> SpecsOf(r.value) == o.value)
              && (r.Err? ==> r.error == o.error)
      ensures r.Ok? ==> fresh(r.value) && forall x :: x in r.value ==> x.sourceIreqs == None
      ensures resolver == ResolverAfterIreq(old(resolver), repository, ireq.spec, SpecMap(constraints))
      ensures runs == old(runs) + RunsFor(repository, ireq.spec, SpecMap(constraints))
      ensures lookedUp == old(lookedUp) + (if ireq.spec.version.Some? then [ireq.spec.req] else [])
    {
      var found := FindBuildIreqs(ireq);
      if found.Err? {
        return Err(found.error);
      }
      var buildIreqs := Elements(found.value);
      assert SpecsOf(buildIreqs) == Elements(BuildRequirements(repository, ireq.spec).value);
      if buildIreqs == {} {
        ElementsEmpty(found.value);
        return Ok({});
      }
      assert BuildRequirements(repository, ireq.spec).value != [];
      ghost var before := resolver;
      ResolutionSteps(before, repository, ireq.spec, SpecMap(constraints));
      r := ResolveWithPiptools(ireq.spec.req, buildIreqs, constraints);
      if r.Err? && r.error.Unsolvable? {
        assert SpecMap(map[]) == map[];
        r := ResolveWithPiptools(ireq.spec.req, buildIreqs, map[]);
      }
    }

    /**
     * `resolve`. A cache that is absent or empty is replaced by a fresh one,
     * as `dependency_cache or {}` does, so the caller never sees what is put
     * in it; `fuel` bounds the depth of the recursion. `all` is
     * `all_build_deps`, the contributions of the requirements in their
     * order, and `solvedAs[i]` the requirement, written as the `i`-th one,
     * whose build dependencies its contribution was found for.
     */
    method Resolve(installRequirements: seq<InstallRequirement>, existingConstraints: Option<map<string, InstallRequirement>>,
                   dependencyCache: DependencyCache?, fuel: nat)
      returns (r: Result<set<InstallRequirement>, CompileError>, ghost all: seq<InstallRequirement>,
               ghost listings: seq<seq<InstallRequirement>>, ghost solvedAs: seq<RequirementSpec>)
      requires dependencyCache != null ==> dependencyCache.Valid()
      modifies this, dependencyCache, CacheObjects(dependencyCache)
      decreases fuel, 6
      ensures dependencyCache != null ==>
                && dependencyCache.Valid()
                && Extends(repository, old(dependencyCache.entries), old(dependencyCache.solvedFor),
                           dependencyCache.entries, dependencyCache.solvedFor,
                           SpecMap(ConstraintsOr(repository.keyOf, existingConstraints, installRequirements)))
                && old(dependencyCache.objects) <= dependencyCache.objects
                && (forall x :: x in dependencyCache.objects ==> x in old(dependencyCache.objects) || fresh(x))
      ensures dependencyCache != null && old(dependencyCache.entries) == map[] ==> dependencyCache.entries == map[]
      ensures Progress(old(History()), History(), old(CacheKeys(dependencyCache)))
      ensures r.Ok? ==> && |listings| == |installRequirements| && |solvedAs| == |installRequirements|
                        && all == Flatten(listings)
                        && AllPinned(all)
                        && r.value == Deduplicated(all)
                        && (forall i :: 0 <= i < |listings| ==> Distinct(listings[i]))
      ensures r.Ok? ==>
                forall i :: 0 <= i < |installRequirements| && installRequirements[i].spec.req !in old(CacheKeys(dependencyCache)) ==>
                  && solvedAs[i].req == installRequirements[i].spec.req
                  && var o := BuildDepsOutcome(repository, solvedAs[i], SpecMap(ConstraintsOr(repository.keyOf, existingConstraints, installRequirements)));
                     o.Ok? && Covers(Elements(listings[i]), o.value) && Covers(r.value, o.value)
      ensures r.Ok? && dependencyCache != null && old(dependencyCache.entries) != map[] ==>
                Listed(dependencyCache.entries, installRequirements, listings)
      ensures r.Ok? ==> forall x :: x in r.value ==> x in old(CacheObjects(dependencyCache)) || fresh(x)
      ensures old(AllCached(dependencyCache, installRequirements)) ==>
                History() == old(History()) && dependencyCache.entries == old(dependencyCache.entries)
      ensures FirstReported(repository, old(CacheKeys(dependencyCache)), installRequirements, r, solvedAs,
                            SpecMap(ConstraintsOr(repository.keyOf, existingConstraints, installRequirements)))
    {
      var cache: DependencyCache;
      if dependencyCache != null && dependencyCache.entries != map[] {
        cache := dependencyCache;
      } else {
        cache := new DependencyCache();
      }
      var constraints := ConstraintsOr(repository.keyOf, existingConstraints, installRequirements);
      if installRequirements != [] {
        ConstraintsOrNonEmpty(repository.keyOf, existingConstraints, installRequirements);
      }
      assert cache.entries.Keys == CacheKeys(dependencyCache);
      r, all, listings, solvedAs := ResolveIn(installRequirements, constraints, cache, fuel);
    }

    /** `resolve` once its cache and its constraints are chosen: the loop, then the deduplication. */
    method ResolveIn(installRequirements: seq<InstallRequirement>, constraints: map<string, InstallRequirement>,
                     cache: DependencyCache, fuel: nat)
      returns (r: Result<set<InstallRequirement>, CompileError>, ghost all: seq<InstallRequirement>,
               ghost listings: seq<seq<InstallRequirement>>, ghost solvedAs: seq<RequirementSpec>)
      requires cache.Valid() && (installRequirements != [] ==> constraints != map[])
      modifies this, cache, cache.objects
      decreases fuel, 5
      ensures cache.Valid() && Extends(repository, old(cache.entries), old(cache.solvedFor), cache.entries, cache.solvedFor, SpecMap(constraints))
      ensures old(cache.objects) <= cache.objects
      ensures forall x :: x in cache.objects ==> x in old(cache.objects) || fresh(x)
      ensures Progress(old(History()), History(), old(cache.entries).Keys)
      ensures r.Ok? ==> && |listings| == |installRequirements| && |solvedAs| == |installRequirements|
                        && all == Flatten(listings)
                        && AllPinned(all)
                        && r.value == Deduplicated(all)
                        && Listed(cache.entries, installRequirements, listings)
      ensures r.Ok? ==>
                forall i :: 0 <= i < |installRequirements| && installRequirements[i].spec.req !in old(cache.entries) ==>
                  && solvedAs[i].req == installRequirements[i].spec.req
                  && var o := BuildDepsOutcome(repository, solvedAs[i], SpecMap(constraints));
                     o.Ok? && Covers(Elements(listings[i]), o.value) && Covers(r.value, o.value)
      ensures r.Ok? ==> forall x :: x in r.value ==> x in old(cache.objects) || fresh(x)
      ensures (forall i :: 0 <= i < |installRequirements| ==> installRequirements[i].spec.req in old(cache.entries)) ==>
                History() == old(History()) && cache.entries == old(cache.entries)
      ensures FirstReported(repository, old(cache.entries).Keys, installRequirements, r, solvedAs, SpecMap(constraints))
    {
      ghost var cached := cache.entries.Keys;
      var gathered;
      gathered, listings := Gather(installRequirements, constraints, cache, fuel);
      ghost var f := cache.solvedFor;
      solvedAs := SolvedAs(f, installRequirements);
      if gathered.Err? {
        r := Err(gathered.error);
        ReportsFirstCarried(repository, cached, installRequirements, gathered, f, SpecMap(constraints), solvedAs, r);
        return r, [], listings, solvedAs;
      }
      var allBuildDeps := gathered.value;
      all := allBuildDeps;
      r := DeduplicateInstallRequirements(allBuildDeps);
      ReportsFirstCarried(repository, cached, installRequirements, gathered, f, SpecMap(constraints), solvedAs, r);
      if r.Ok? {
        DeduplicatedCoversKeys(allBuildDeps);
        assert r.value <= cache.objects;
        ListingsCover(repository, cache.entries, cache.solvedFor, cached, SpecMap(constraints), installRequirements, listings, solvedAs);
      }
    }

    /**
     * `resolve`'s loop: each requirement contributes its cache entry,
     * solved first when the cache does not hold it; `all_build_deps` is the
     * concatenation of the contributions, listed in `listings`.
     */
    method Gather(installRequirements: seq<InstallRequirement>, constraints: map<string, InstallRequirement>,
                  cache: DependencyCache, fuel: nat)
      returns (r: Result<seq<InstallRequirement>, CompileError>, ghost listings: seq<seq<InstallRequirement>>)
      requires cache.Valid() && (installRequirements != [] ==> constraints != map[])
      modifies this, cache, cache.objects
      decreases fuel, 4
      ensures cache.Valid() && Extends(repository, old(cache.entries), old(cache.solvedFor), cache.entries, cache.solvedFor, SpecMap(constraints))
      ensures old(cache.objects) <= cache.objects
      ensures forall x :: x in cache.objects ==> x in old(cache.objects) || fresh(x)
      ensures Progress(old(History()), History(), old(cache.entries).Keys)
      ensures r.Ok? ==> && |listings| == |installRequirements|
                        && r.value == Flatten(listings)
                        && Listed(cache.entries, installRequirements, listings)
                        && Elements(r.value) <= cache.objects
      ensures (forall i :: 0 <= i < |installRequirements| ==> installRequirements[i].spec.req in old(cache.entries)) ==>
                r.Ok? && History() == old(History()) && cache.entries == old(cache.entries)
      ensures ReportsFirst(repository, old(cache.entries).Keys, installRequirements, r, cache.solvedFor, SpecMap(constraints))
    {
      ghost var start := History();
      ghost var first := FirstUncached(cache.entries.Keys, installRequirements);
      var allBuildDeps: seq<InstallRequirement> := [];
      listings := [];
      var i := 0;
      while i < |installRequirements|
        invariant 0 <= i <= |installRequirements|
        invariant cache.Valid() && Extends(repository, old(cache.entries), old(cache.solvedFor), cache.entries, cache.solvedFor, SpecMap(constraints))
        invariant old(cache.objects) <= cache.objects
        invariant forall x :: x in cache.objects ==> x in old(cache.objects) || fresh(x)
        invariant Progress(start, History(), old(cache.entries).Keys)
        invariant |listings| == i && allBuildDeps == Flatten(listings)
        invariant Listed(cache.entries, installRequirements, listings)
        invariant Elements(allBuildDeps) <= cache.objects
        invariant i <= first ==> History() == start && cache.entries == old(cache.entries)
        invariant first < i ==> SolvedFirst(repository, installRequirements, first, cache.solvedFor, SpecMap(constraints))
      {
        ghost var before, e0, f0 := History(), cache.entries, cache.solvedFor;
        var contributed := Contribute(installRequirements[i], constraints, cache, fuel);
        ProgressChain(start, before, History(), old(cache.entries).Keys, e0.Keys);
        ExtendsChain(repository, old(cache.entries), old(cache.solvedFor), e0, f0, cache.entries, cache.solvedFor, SpecMap(constraints));
        ListedGrows(e0, cache.entries, installRequirements, listings);
        if i < first {
          assert installRequirements[i].spec.req in e0;
        } else if i == first {
          assert installRequirements[i].spec.req !in e0;
          assert SolvedFirst(repository, installRequirements, first, cache.solvedFor, SpecMap(constraints)) || contributed.Err?;
        } else {
          SolvedFirstGrows(repository, installRequirements, first, f0, cache.solvedFor, SpecMap(constraints));
        }
        if contributed.Err? {
          return Err(contributed.error), listings;
        }
        var entry := contributed.value;
        var listed := Enumerate(entry);
        ElementsConcat(allBuildDeps, listed);
        FlattenSnoc(listings, listed);
        ListedSnoc(cache.entries, installRequirements, listings, listed);
        allBuildDeps := allBuildDeps + listed;
        listings := listings + [listed];
        i := i + 1;
      }
      return Ok(allBuildDeps), listings;
    }

    /** The body of `resolve`'s loop: the requirement's cache entry, solved first when the cache does not hold it. */
    method Contribute(ireq: InstallRequirement, constraints: map<string, InstallRequirement>, cache: DependencyCache, fuel: nat)
      returns (r: Result<set<InstallRequirement>, CompileError>)
      requires cache.Valid() && constraints != map[]
      modifies this, cache, cache.objects
      decreases fuel, 3
      ensures cache.Valid() && Extends(repository, old(cache.entries), old(cache.solvedFor), cache.entries, cache.solvedFor, SpecMap(constraints))
      ensures old(cache.objects) <= cache.objects
      ensures forall x :: x in cache.objects ==> x in old(cache.objects) || fresh(x)
      ensures Progress(old(History()), History(), old(cache.entries).Keys)
      ensures ireq.spec.req in old(cache.entries) ==>
                r == Ok(old(cache.entries)[ireq.spec.req]) && History() == old(History()) && cache.entries == old(cache.entries)
      ensures ireq.spec.req !in old(cache.entries) ==>
                var o := BuildDepsOutcome(repository, ireq.spec, SpecMap(constraints));
                && (o.Err? ==> r == Err(o.error))
                && (r.Ok? ==> o.Ok? && ireq.spec.req in cache.solvedFor && cache.solvedFor[ireq.spec.req] == ireq.spec)
      ensures r.Ok? ==> ireq.spec.req in cache.entries && cache.entries[ireq.spec.req] == r.value
    {
      if ireq.spec.req in cache.entries {
        return Ok(cache.entries[ireq.spec.req]);
      }
      var solved, _, _ := SolveRequirement(ireq, constraints, cache, fuel);
      r := solved;
    }

    /**
     * One round of the loop that closes a requirement's build dependencies:
     * `build_dependencies |= self.resolve(...)`, then deduplicated.
     */
    method Widen(buildDependencies: set<InstallRequirement>, constraints: map<string, InstallRequirement>,
                 cache: DependencyCache, fuel: nat, ghost pinned: set<RequirementSpec>)
      returns (r: Result<set<InstallRequirement>, CompileError>, ghost merged: seq<InstallRequirement>)
      requires cache.Valid() && Covers(buildDependencies, pinned) && constraints != map[]
      modifies this, cache, cache.objects, buildDependencies
      decreases fuel, 7
      ensures cache.Valid() && Extends(repository, old(cache.entries), old(cache.solvedFor), cache.entries, cache.solvedFor, SpecMap(constraints))
      ensures old(cache.objects) <= cache.objects
      ensures forall x :: x in cache.objects ==> x in old(cache.objects) || fresh(x)
      ensures Progress(old(History()), History(), old(cache.entries).Keys)
      ensures r.Ok? ==> && buildDependencies <= Elements(merged)
                        && AllPinned(merged)
                        && r.value == Deduplicated(merged)
                        && Covers(r.value, pinned)
      ensures r.Ok? ==> forall x :: x in r.value ==> x in old(cache.objects) || x in buildDependencies || fresh(x)
    {
      merged := [];
      var listed := Enumerate(buildDependencies);
      var more, _, _, _ := Resolve(listed, Some(constraints), cache, fuel);
      if more.Err? {
        return Err(more.error), merged;
      }
      var list := Enumerate(buildDependencies + more.value);
      forall x | x in list ensures x in buildDependencies || x in more.value {
        assert x in Elements(list);
      }
      merged := list;
      r := DeduplicateInstallRequirements(list);
      if r.Ok? {
        CoversAfterDedup(buildDependencies, list, pinned);
        DeduplicatedCoversKeys(list);
      }
    }

    /** The body of `resolve`'s loop, for a requirement the cache does not hold yet. */
    method SolveRequirement(ireq: InstallRequirement, constraints: map<string, InstallRequirement>, cache: DependencyCache, fuel: nat)
      returns (r: Result<set<InstallRequirement>, CompileError>, ghost lastInput: set<InstallRequirement>,
               ghost lastMerged: seq<InstallRequirement>)
      requires cache.Valid() && ireq.spec.req !in cache.entries && constraints != map[]
      modifies this, cache, cache.objects
      decreases fuel, 2
      ensures cache.Valid() && Extends(repository, old(cache.entries), old(cache.solvedFor), cache.entries, cache.solvedFor, SpecMap(constraints))
      ensures old(cache.objects) <= cache.objects
      ensures forall x :: x in cache.objects ==> x in old(cache.objects) || fresh(x)
      ensures Progress(old(History()), History(), old(cache.entries).Keys)
      ensures r.Ok? ==> && ireq.spec.req in cache.entries && cache.entries[ireq.spec.req] == r.value
                        && cache.solvedFor[ireq.spec.req] == ireq.spec
      ensures var o := BuildDepsOutcome(repository, ireq.spec, SpecMap(constraints));
              && (o.Err? ==> r == Err(o.error))
              && (r.Ok? ==> o.Ok? && Covers(r.value, o.value))
      ensures BuildRequirements(repository, ireq.spec) == Ok([]) ==> r == Ok({}) && resolver == old(resolver)
      ensures r.Ok? && r.value != {} ==>
                && |lastInput| == |r.value|
                && lastInput <= Elements(lastMerged)
                && AllPinned(lastMerged)
                && r.value == Deduplicated(lastMerged)
    {
      lastInput, lastMerged := {}, [];
      ghost var before := History();
      var resolved := ResolveBuildDepsForIreq(ireq, constraints);
      IreqProgress(before, History(), repository, ireq.spec, SpecMap(constraints), old(cache.entries).Keys);
      if resolved.Err? {
        return Err(resolved.error), lastInput, lastMerged;
      }
      var buildDependencies := resolved.value;
      SpecsOfEmpty(buildDependencies);
      ghost var pinned := SpecsOf(buildDependencies);
      ghost var middle := History();
      assert cache.objects == old(cache.objects);
      label Called:
      r, lastInput, lastMerged := Saturate(ireq.spec.req, buildDependencies, constraints, cache, fuel, pinned, ireq.spec);
      ProgressChain(before, middle, History(), old(cache.entries).Keys, old(cache.entries).Keys);
      forall x | x in cache.objects ensures x in old(cache.objects) || fresh(x) {
        if x !in old@Called(cache.objects) && x !in buildDependencies {
          assert fresh@Called(x);
        }
      }
    }

    /**
     * The end of `resolve`'s loop body: an empty set is cached as it is, any
     * other is closed first; `key` is the string of `spec`.
     */
    method Saturate(key: string, start: set<InstallRequirement>, constraints: map<string, InstallRequirement>, cache: DependencyCache,
                    fuel: nat, ghost pinned: set<RequirementSpec>, ghost spec: RequirementSpec)
      returns (r: Result<set<InstallRequirement>, CompileError>, ghost lastInput: set<InstallRequirement>,
               ghost lastMerged: seq<InstallRequirement>)
      requires cache.Valid() && Covers(start, pinned) && key !in cache.entries && constraints != map[]
      requires spec.req == key && BuildDepsOutcome(repository, spec, SpecMap(constraints)) == Ok(pinned)
      modifies this, cache, cache.objects, start
      decreases fuel, 1
      ensures cache.Valid() && Extends(repository, old(cache.entries), old(cache.solvedFor), cache.entries, cache.solvedFor, SpecMap(constraints))
      ensures old(cache.objects) <= cache.objects
      ensures forall x :: x in cache.objects ==> x in old(cache.objects) || x in start || fresh(x)
      ensures Progress(old(History()), History(), old(cache.entries).Keys)
      ensures r.Ok? ==> Covers(r.value, pinned)
      ensures r.Ok? ==> key in cache.entries && cache.entries[key] == r.value && cache.solvedFor[key] == spec
      ensures start == {} ==> r == Ok({}) && History() == old(History())
      ensures r.Ok? && r.value != {} ==>
                && |lastInput| == |r.value|
                && lastInput <= Elements(lastMerged)
                && AllPinned(lastMerged)
                && r.value == Deduplicated(lastMerged)
    {
      if start == {} {
        ExtendsStore(repository, cache.entries, cache.solvedFor, cache.entries, cache.solvedFor, SpecMap(constraints), key, {}, spec);
        cache.Store(key, {}, spec);
        return Ok({}), {}, [];
      }
      r, lastInput, lastMerged := Close(start, constraints, cache, fuel, pinned);
      if r.Ok? {
        ExtendsStore(repository, old(cache.entries), old(cache.solvedFor), cache.entries, cache.solvedFor, SpecMap(constraints), key, r.value, spec);
        cache.Store(key, r.value, spec);
      }
    }

    /**
     * The `while len(build_dependencies) != build_deps_qty` loop: widen the
     * set until a round adds nothing new; `fuel` bounds the rounds.
     */
    method Close(start: set<InstallRequirement>, constraints: map<string, InstallRequirement>, cache: DependencyCache,
                 fuel: nat, ghost pinned: set<RequirementSpec>)
      returns (r: Result<set<InstallRequirement>, CompileError>, ghost lastInput: set<InstallRequirement>,
               ghost lastMerged: seq<InstallRequirement>)
      requires cache.Valid() && Covers(start, pinned) && start != {} && constraints != map[]
      modifies this, cache, cache.objects, start
      decreases fuel, 0
      ensures cache.Valid() && Extends(repository, old(cache.entries), old(cache.solvedFor), cache.entries, cache.solvedFor, SpecMap(constraints))
      ensures old(cache.objects) <= cache.objects
      ensures forall x :: x in cache.objects ==> x in old(cache.objects) || fresh(x)
      ensures Progress(old(History()), History(), old(cache.entries).Keys)
      ensures r.Ok? ==> && Covers(r.value, pinned)
                        && (forall x :: x in r.value ==> x in old(cache.objects) || x in start || fresh(x))
                        && |lastInput| == |r.value|
                        && lastInput <= Elements(lastMerged)
                        && AllPinned(lastMerged)
                        && r.value == Deduplicated(lastMerged)
    {
      lastInput, lastMerged := {}, [];
      ghost var begin := History();
      var buildDependencies := start;
      var buildDepsQty := 0;
      var rounds: nat := fuel;
      while |buildDependencies| != buildDepsQty
        invariant rounds <= fuel
        invariant cache.Valid() && Extends(repository, old(cache.entries), old(cache.solvedFor), cache.entries, cache.solvedFor, SpecMap(constraints))
        invariant old(cache.objects) <= cache.objects
        invariant forall x :: x in cache.objects ==> x in old(cache.objects) || fresh(x)
        invariant Progress(begin, History(), old(cache.entries).Keys)
        invariant forall x :: x in buildDependencies ==> x in old(cache.objects) || x in start || fresh(x)
        invariant Covers(buildDependencies, pinned)
        invariant buildDependencies != {}
        invariant buildDepsQty != 0 ==>
                    && |lastInput| == buildDepsQty
                    && lastInput <= Elements(lastMerged)
                    && AllPinned(lastMerged)
                    && buildDependencies == Deduplicated(lastMerged)
        decreases rounds
      {
        if rounds == 0 {
          return Err(RecursionLimit), lastInput, lastMerged;
        }
        rounds := rounds - 1;
        buildDepsQty := |buildDependencies|;
        ghost var before, e0, f0 := History(), cache.entries, cache.solvedFor;
        var grown, merged := Widen(buildDependencies, constraints, cache, fuel - 1, pinned);
        ProgressChain(begin, before, History(), old(cache.entries).Keys, e0.Keys);
        ExtendsChain(repository, old(cache.entries), old(cache.solvedFor), e0, f0, cache.entries, cache.solvedFor, SpecMap(constraints));
        if grown.Err? {
          return Err(grown.error), lastInput, lastMerged;
        }
        NonEmptyDeduplicated(buildDependencies, merged);
        lastInput, lastMerged := buildDependencies, merged;
        buildDependencies := grown.value;
      }
      return Ok(buildDependencies), lastInput, lastMerged;
    }
  }

  /** Deduplicating a list that holds a requirement leaves something. */
  lemma NonEmptyDeduplicated(xs: set<InstallRequirement>, merged: seq<InstallRequirement>)
    requires xs != {} && xs <= Elements(merged) && AllPinned(merged)
    ensures Deduplicated(merged) != {}
  {
    var x :| x in xs;
    var i :| 0 <= i < |merged| && merged[i] == x;
    DeduplicatedCoversKeys(merged);
    assert KeyOf(merged[i]) in KeysOf(Deduplicated(merged));
  }

  lemma SpecsOfEmpty(xs: set<InstallRequirement>)
    ensures SpecsOf(xs) == {} <==> xs == {}
  {
    if xs != {} {
      var x :| x in xs;
      assert x.spec in SpecsOf(xs);
    }
  }

  lemma ElementsEmpty<T>(xs: seq<T>)
    ensures Elements(xs) == {} <==> xs == []
  {
    if xs != [] {
      assert xs[0] in Elements(xs);
    }
  }

  /** Once a string is rejected, parsing a longer list fails the same way. */
  lemma {:induction false} ParseErrorStands(parse: string -> Result<RequirementSpec, string>, texts: seq<string>, k: nat, origin: string)
    requires k <= |texts|
    requires ParseAll(parse, texts[..k], origin).Err?
    ensures ParseAll(parse, texts, origin) == ParseAll(parse, texts[..k], origin)
    decreases |texts| - k
  {
    if k < |texts| {
      assert texts[..k + 1][..k] == texts[..k];
      ParseErrorStands(parse, texts, k + 1, origin);
    } else {
      assert texts[..k] == texts;
    }
  }

  // ------------------------------------------------------------ properties of the build-requirement pipeline

  /**
   * Parsing succeeds exactly when every string parses; it then yields one
   * requirement per string, in order, each marked as coming from `origin`;
   * otherwise the first rejected string is reported.
   */
  lemma {:induction false} ParseAllMeaning(parse: string -> Result<RequirementSpec, string>, texts: seq<string>, origin: string)
    ensures ParseAll(parse, texts, origin).Ok? <==> forall i :: 0 <= i < |texts| ==> parse(texts[i]).Ok?
    ensures ParseAll(parse, texts, origin).Ok? ==>
              var specs := ParseAll(parse, texts, origin).value;
              && |specs| == |texts|
              && forall i :: 0 <= i < |texts| ==> specs[i] == parse(texts[i]).value.(comesFrom := Some(origin))
    ensures ParseAll(parse, texts, origin).Err? ==>
              exists k :: 0 <= k < |texts| && parse(texts[k]).Err?
                && (forall i :: 0 <= i < k ==> parse(texts[i]).Ok?)
                && ParseAll(parse, texts, origin).error == InvalidRequirement(texts[k])
    decreases |texts|
  {
    if texts != [] {
      var n := |texts| - 1;
      var prefix := texts[..n];
      ParseAllMeaning(parse, prefix, origin);
      assert forall i :: 0 <= i < n ==> prefix[i] == texts[i];
      if ParseAll(parse, prefix, origin).Err? {
        var k :| 0 <= k < n && parse(prefix[k]).Err? && (forall i :: 0 <= i < k ==> parse(prefix[i]).Ok?)
                 && ParseAll(parse, prefix, origin).error == InvalidRequirement(prefix[k]);
        assert parse(texts[k]).Err?;
      }
    }
  }

  /** Every build requirement found for a package names that package as where it comes from. */
  lemma BuildRequirementsComeFromPackage(repository: Repository, ireq: RequirementSpec)
    requires BuildRequirements(repository, ireq).Ok?
    ensures forall r :: r in BuildRequirements(repository, ireq).value ==> r.comesFrom == Some(ireq.name)
  {
    var found := Finder.Find(repository.libs, Finder.Package(ireq.name, ireq.version.value), false).result.value;
    ParseAllMeaning(repository.parseRequirement, found, ireq.name);
  }

  /** In the lenient mode the finder is run in, a rejected `setup.py` never surfaces as an error. */
  lemma LenientFinderNeverRaisesSetupPy(libs: Finder.Libraries, pkg: Finder.Package)
    ensures !Finder.Find(libs, pkg, false).result.Err? || !Finder.Find(libs, pkg, false).result.error.SetupPyParsing?
  {
    if libs.fetch(pkg).Ok? {
      Finder.GatherBuildFiles(libs, libs.fetch(pkg).value, pkg, false);
    }
  }

  /** So the compiler never fails with the finder's `SetupPyParsingError`. */
  lemma CompilerNeverRaisesSetupPy(repository: Repository, ireq: RequirementSpec, constraints: map<string, RequirementSpec>)
    ensures BuildDepsOutcome(repository, ireq, constraints).Err? ==>
              !BuildDepsOutcome(repository, ireq, constraints).error.FinderFailed?
              || !BuildDepsOutcome(repository, ireq, constraints).error.error.SetupPyParsing?
  {
    if ireq.version.Some? {
      var pkg := Finder.Package(ireq.name, ireq.version.value);
      LenientFinderNeverRaisesSetupPy(repository.libs, pkg);
      var found := Finder.Find(repository.libs, pkg, false).result;
      if found.Ok? {
        ParseAllMeaning(repository.parseRequirement, found.value, ireq.name);
      }
    }
  }

  /** The errors the build-requirement lookup can end in. */
  lemma BuildRequirementsErrors(repository: Repository, ireq: RequirementSpec)
    requires BuildRequirements(repository, ireq).Err?
    ensures var e := BuildRequirements(repository, ireq).error;
            e.NotPinned? || e.FinderFailed? || e.InvalidRequirement?
  {
    if ireq.version.Some? {
      var found := Finder.Find(repository.libs, Finder.Package(ireq.name, ireq.version.value), false).result;
      if found.Ok? {
        ParseAllMeaning(repository.parseRequirement, found.value, ireq.name);
      }
    }
  }

  /**
   * The retry policy: the second resolver run, without constraints, happens
   * exactly when the first one is unsolvable; no resolver run happens when
   * there is nothing to resolve.
   */
  lemma RetryOnlyWhenUnsolvable(repository: Repository, ireq: RequirementSpec, constraints: map<string, RequirementSpec>)
    requires BuildRequirements(repository, ireq).Ok?
    ensures var reqs := BuildRequirements(repository, ireq).value;
            var first := Attempt(repository, ireq.req, Elements(reqs), constraints);
            BuildDepsOutcome(repository, ireq, constraints) ==
              if reqs == [] then Ok({})
              else if first.Err? && first.error.Unsolvable? then Attempt(repository, ireq.req, Elements(reqs), map[])
              else first
  {
  }

  /** An unsolvable error names the requirement whose build dependencies were being resolved. */
  lemma UnsolvableNamesRequirement(repository: Repository, ireq: RequirementSpec, constraints: map<string, RequirementSpec>)
    requires BuildDepsOutcome(repository, ireq, constraints).Err?
    requires BuildDepsOutcome(repository, ireq, constraints).error.Unsolvable?
    ensures BuildDepsOutcome(repository, ireq, constraints).error.package == ireq.req
    ensures BuildRequirements(repository, ireq).Ok? && BuildRequirements(repository, ireq).value != []
  {
    if BuildRequirements(repository, ireq).Err? {
      BuildRequirementsErrors(repository, ireq);
    }
  }

  /** An unpinned requirement is refused before the finder is consulted. */
  lemma UnpinnedRefused(repository: Repository, ireq: RequirementSpec, constraints: map<string, RequirementSpec>)
    requires ireq.version.None?
    ensures BuildDepsOutcome(repository, ireq, constraints) == Err(NotPinned(ireq.req))
  {
  }

  /**
   * `test_unpinned_dependency`: `compiler.resolve([ireq])` on an unpinned
   * requirement, with neither constraints nor a cache given, raises the
   * error of `get_version`.
   */
  method ResolveUnpinned(compiler: BuildDependencyCompiler, ireq: InstallRequirement, fuel: nat)
    returns (r: Result<set<InstallRequirement>, CompileError>)
    requires ireq.spec.version.None?
    modifies compiler
    ensures r == Err(NotPinned(ireq.spec.req))
  {
    ghost var all, listings, solvedAs;
    r, all, listings, solvedAs := compiler.Resolve([ireq], None, null, fuel);
    UnpinnedRefused(compiler.repository, ireq.spec, SpecMap(ConstraintsOr(compiler.repository.keyOf, None, [ireq])));
  }

  /** After a successful run the resolver still carries the unsafe data collected before it. */
  lemma UnsafeDataAccumulates(before: Option<ResolverState>, run: ResolverRun, ireqs: set<RequirementSpec>, constraints: map<string, RequirementSpec>)
    requires run.outcome.Ok?
    ensures UnsafePackagesOf(before) + run.unsafePackages == ResolverAfter(before, run, ireqs, constraints).unsafePackages
    ensures UnsafeConstraintsOf(before) + run.unsafeConstraints == ResolverAfter(before, run, ireqs, constraints).unsafeConstraints
  {
  }

  /** `_resolve_build_deps_for_ireq` step by step, once the lookup has found something to resolve. */
  lemma ResolutionSteps(before: Option<ResolverState>, repository: Repository, ireq: RequirementSpec,
                        constraints: map<string, RequirementSpec>)
    requires BuildRequirements(repository, ireq).Ok? && BuildRequirements(repository, ireq).value != []
    ensures var wanted := Elements(BuildRequirements(repository, ireq).value);
            var first := repository.resolve(wanted, constraints);
            var second := repository.resolve(wanted, map[]);
            var afterFirst := ResolverAfter(before, first, wanted, constraints);
            && (IsUnsolvable(first) <==> Attempt(repository, ireq.req, wanted, constraints).Err?
                                         && Attempt(repository, ireq.req, wanted, constraints).error.Unsolvable?)
            && RunsFor(repository, ireq, constraints) == (if IsUnsolvable(first) then [first, second] else [first])
            && ResolverAfterIreq(before, repository, ireq, constraints)
                 == (if IsUnsolvable(first) then Some(ResolverAfter(Some(afterFirst), second, wanted, map[])) else Some(afterFirst))
            && BuildDepsOutcome(repository, ireq, constraints)
                 == (if IsUnsolvable(first) then Attempt(repository, ireq.req, wanted, map[]) else Attempt(repository, ireq.req, wanted, constraints))
  {
    var reqs := BuildRequirements(repository, ireq).value;
    assert BuildRequirements(repository, ireq) == Ok(reqs);
    var wanted := Elements(reqs);
    var first := repository.resolve(wanted, constraints);
    var a := Attempt(repository, ireq.req, wanted, constraints);
    assert IsUnsolvable(first) <==> a.Err? && a.error.Unsolvable?;
  }

  /** The first run decides whether there is a second: exactly an unsolvable first run is retried. */
  lemma RunsForShape(repository: Repository, ireq: RequirementSpec, constraints: map<string, RequirementSpec>)
    requires BuildRequirements(repository, ireq).Ok? && BuildRequirements(repository, ireq).value != []
    ensures var runs := RunsFor(repository, ireq, constraints);
            && 1 <= |runs| <= 2
            && runs[0] == repository.resolve(Elements(BuildRequirements(repository, ireq).value), constraints)
            && (|runs| == 2 <==> IsUnsolvable(runs[0]))
            && (|runs| == 2 ==> runs[1] == repository.resolve(Elements(BuildRequirements(repository, ireq).value), map[]))
  {
  }

  /** The outcome is the one of the last resolver run: its pinned set when it succeeds, its failure otherwise. */
  lemma OutcomeOfLastRun(repository: Repository, ireq: RequirementSpec, constraints: map<string, RequirementSpec>)
    requires RunsFor(repository, ireq, constraints) != []
    ensures var runs := RunsFor(repository, ireq, constraints);
            var last := runs[|runs| - 1];
            var o := BuildDepsOutcome(repository, ireq, constraints);
            && (o.Ok? <==> last.outcome.Ok?)
            && (o.Ok? ==> o.value == last.outcome.value)
            && (o.Err? ==> o.error == if IsUnsolvable(last) then Unsolvable(ireq.req, last.outcome.error.impossible.value)
                                      else NoDistribution)
  {
    var b := BuildRequirements(repository, ireq);
    assert b.Ok? && b.value != [];
    ResolutionSteps(None, repository, ireq, constraints);
    var wanted := Elements(b.value);
    var runs := RunsFor(repository, ireq, constraints);
    var last := runs[|runs| - 1];
    if IsUnsolvable(runs[0]) {
      assert last == repository.resolve(wanted, map[]);
      assert BuildDepsOutcome(repository, ireq, constraints) == Attempt(repository, ireq.req, wanted, map[]);
    } else {
      assert last == repository.resolve(wanted, constraints);
      assert BuildDepsOutcome(repository, ireq, constraints) == Attempt(repository, ireq.req, wanted, constraints);
    }
  }

  /** No resolver run happens, and the resolver is left alone, when the lookup fails or finds nothing. */
  lemma NoRunsKeepResolver(before: Option<ResolverState>, repository: Repository, ireq: RequirementSpec,
                           constraints: map<string, RequirementSpec>)
    requires RunsFor(repository, ireq, constraints) == []
    ensures ResolverAfterIreq(before, repository, ireq, constraints) == before
    ensures BuildDepsOutcome(repository, ireq, constraints).Ok? ==> BuildDepsOutcome(repository, ireq, constraints) == Ok({})
  {
  }

  /** When every run of a requirement succeeds, the resolver still holds the unsafe data it held before. */
  lemma SuccessfulRunsKeepUnsafeData(before: Option<ResolverState>, repository: Repository, ireq: RequirementSpec,
                                     constraints: map<string, RequirementSpec>)
    ensures AllSucceeded(RunsFor(repository, ireq, constraints)) ==>
              UnsafeKept(before, ResolverAfterIreq(before, repository, ireq, constraints))
  {
    var b := BuildRequirements(repository, ireq);
    if b.Ok? && b.value != [] && AllSucceeded(RunsFor(repository, ireq, constraints)) {
      var wanted := Elements(b.value);
      var first := repository.resolve(wanted, constraints);
      assert RunsFor(repository, ireq, constraints)[0] == first;
      assert first.outcome.Ok?;
      assert ResolverAfterIreq(before, repository, ireq, constraints) == Some(ResolverAfter(before, first, wanted, constraints));
    }
  }

  /**
   * A retry forgets the unsafe data held before the requirement: the failed
   * first run replaced the resolver, so the resolver ends as it would have
   * without any earlier resolver, holding the second run's unsafe data and,
   * when that run succeeds, the first run's.
   */
  lemma RetryDropsEarlierUnsafeData(before: Option<ResolverState>, repository: Repository, ireq: RequirementSpec,
                                    constraints: map<string, RequirementSpec>)
    requires |RunsFor(repository, ireq, constraints)| == 2
    ensures var runs := RunsFor(repository, ireq, constraints);
            var after := ResolverAfterIreq(before, repository, ireq, constraints);
            && after == ResolverAfterIreq(None, repository, ireq, constraints)
            && UnsafePackagesOf(after) == runs[1].unsafePackages + (if runs[1].outcome.Ok? then runs[0].unsafePackages else {})
            && UnsafeConstraintsOf(after) == runs[1].unsafeConstraints + (if runs[1].outcome.Ok? then runs[0].unsafeConstraints else {})
  {
  }

  /** An unsolvable outcome means both runs, with and without the constraints, were unsolvable. */
  lemma UnsolvableAfterBothRuns(repository: Repository, ireq: RequirementSpec, constraints: map<string, RequirementSpec>)
    requires BuildDepsOutcome(repository, ireq, constraints).Err? && BuildDepsOutcome(repository, ireq, constraints).error.Unsolvable?
    ensures var runs := RunsFor(repository, ireq, constraints);
            |runs| == 2 && IsUnsolvable(runs[0]) && IsUnsolvable(runs[1])
  {
    UnsolvableNamesRequirement(repository, ireq, constraints);
    var reqs := BuildRequirements(repository, ireq).value;
    assert BuildRequirements(repository, ireq) == Ok(reqs);
    var wanted := Elements(reqs);
    AttemptUnsolvable(repository, ireq.req, wanted, constraints);
    AttemptUnsolvable(repository, ireq.req, wanted, map[]);
  }

  /** An attempt reports `Unsolvable` exactly when its resolver run is unsolvable. */
  lemma AttemptUnsolvable(repository: Repository, package: string, ireqs: set<RequirementSpec>, constraints: map<string, RequirementSpec>)
    ensures var a := Attempt(repository, package, ireqs, constraints);
            a.Err? && a.error.Unsolvable? <==> IsUnsolvable(repository.resolve(ireqs, constraints))
  {
  }

  /**
   * The build dependencies depend on a requirement's name and version only:
   * two requirements that agree on both have the same pinned set, or both
   * fail.
   */
  lemma OutcomeByNameAndVersion(repository: Repository, s: RequirementSpec, t: RequirementSpec, constraints: map<string, RequirementSpec>)
    requires s.name == t.name && s.version == t.version
    ensures BuildDepsOutcome(repository, s, constraints).Ok? == BuildDepsOutcome(repository, t, constraints).Ok?
    ensures BuildDepsOutcome(repository, s, constraints).Ok? ==>
              BuildDepsOutcome(repository, s, constraints).value == BuildDepsOutcome(repository, t, constraints).value
  {
  }

  // ------------------------------------------------------------ properties of the constraints

  /** The constraints have one entry per key of the requirements. */
  lemma {:induction false} ConstraintsFromKeys(keyOf: RequirementSpec -> string, xs: seq<InstallRequirement>, k: string)
    ensures k in ConstraintsFrom(keyOf, xs) <==> exists i :: 0 <= i < |xs| && keyOf(xs[i].spec) == k
    decreases |xs|
  {
    if xs != [] {
      var n := |xs| - 1;
      ConstraintsFromKeys(keyOf, xs[..n], k);
      if k in ConstraintsFrom(keyOf, xs[..n]) {
        var i :| 0 <= i < n && keyOf(xs[..n][i].spec) == k;
        assert xs[i] == xs[..n][i];
      }
      if exists i :: 0 <= i < |xs| && keyOf(xs[i].spec) == k {
        var i :| 0 <= i < |xs| && keyOf(xs[i].spec) == k;
        if i < n {
          assert xs[..n][i] == xs[i];
        }
      }
    }
  }

  /** A later requirement with the same key replaces an earlier one: the entry is the last requirement with that key. */
  lemma {:induction false} ConstraintsFromLastWins(keyOf: RequirementSpec -> string, xs: seq<InstallRequirement>, i: int)
    requires 0 <= i < |xs|
    requires forall j :: i < j < |xs| ==> keyOf(xs[j].spec) != keyOf(xs[i].spec)
    ensures keyOf(xs[i].spec) in ConstraintsFrom(keyOf, xs)
    ensures ConstraintsFrom(keyOf, xs)[keyOf(xs[i].spec)] == xs[i]
    decreases |xs|
  {
    var n := |xs| - 1;
    if i < n {
      assert forall j :: i < j < n ==> xs[..n][j] == xs[j];
      ConstraintsFromLastWins(keyOf, xs[..n], i);
      assert xs[..n][i] == xs[i];
    }
  }

  /** Constraints passed in and not empty are used as they are. */
  lemma GivenConstraintsKept(keyOf: RequirementSpec -> string, given: map<string, InstallRequirement>, xs: seq<InstallRequirement>)
    requires given != map[]
    ensures ConstraintsOr(keyOf, Some(given), xs) == given
  {
  }

  /** Empty constraints count as absent, as `existing_constraints or ...` has it. */
  lemma EmptyConstraintsReplaced(keyOf: RequirementSpec -> string, xs: seq<InstallRequirement>)
    ensures ConstraintsOr(keyOf, Some(map[]), xs) == ConstraintsOr(keyOf, None, xs) == ConstraintsFrom(keyOf, xs)
  {
  }

  /** Requirements given, constraints found: the map `resolve` passes on is empty only when there is nothing to resolve. */
  lemma ConstraintsOrNonEmpty(keyOf: RequirementSpec -> string, given: Option<map<string, InstallRequirement>>, xs: seq<InstallRequirement>)
    requires xs != []
    ensures ConstraintsOr(keyOf, given, xs) != map[]
  {
    var n := |xs| - 1;
    assert keyOf(xs[n].spec) in ConstraintsFrom(keyOf, xs);
  }
}
