# pybuild-deps, modelled in Dafny

pybuild-deps finds the *build* dependencies of pinned Python packages: the
requirements a package needs to be built from source, as opposed to those it
needs at run time. It pins them to exact versions and closes the result
transitively. This project models the parts of the tool that carry its own
logic. It proves what each one computes.

- **`setup.py` evaluator** (`setup_py.dfy`, with `setup_py_props.dfy` and
  `setup_py_examples.dfy`). A Python syntax tree is a closed datatype. The
  evaluator finds the first top-level `setup(...)` or `setuptools.setup(...)`
  call. It then resolves the `setup_requires` keyword through literal lists
  and bare-name aliases, and every other shape raises `SetupPyParsingError`.
  Python's recursion limit becomes fuel, so an alias cycle ends in a
  `RecursionError`, as it does in Python.
- **Declarative parsers** (`parsers.dfy`, over the string functions of
  `text.dfy`). The `[build-system] requires` lookup of `pyproject.toml`, and
  the `[options] setup_requires` splitter of `setup.cfg`: strip the value,
  split it into lines, split each line at `;` and `,`, and strip each piece.
  TOML and INI documents are maps once parsed.
- **Finder** (`finder.dfy`) and its older revision (`legacy_finder.dfy`).
  Each walks `pyproject.toml`, `setup.cfg` and `setup.py` under the root
  directory of a package's source archive. Each concatenates the output of
  every file that is present. The newer one strips a byte-order mark and
  either raises or logs a rejected `setup.py`. Both are imperative loops,
  proved against a left fold.
- **Resolution engine** (`compile.dfy`). `BuildDependencyCompiler` is a
  class, and the `dependency_cache` is a class whose map it updates.
  - `deduplicate_install_requirements` keeps one requirement per name and
    version and merges their `_source_ireqs` in place.
  - The resolver retry runs once with the runtime constraints, then once
    without them only when the first run is unsolvable.
  - The recursive fixpoint widens the set until a round adds nothing, then
    caches the result.
  - The cache records, as ghost state, the requirement each entry was solved
    for. The compiler records the requirement strings it looked up and the
    resolver runs it made. The contracts say what every entry covers, which
    lookups a cached requirement saves, and when unsafe data survives.
- **Conflict message** (`exceptions.dfy`). `UnsolvableDependenciesError`
  selects the constraints whose name is a conflicting package under any
  `-`/`_` spelling.
- **Rust lock** (`rusted.dfy`). It covers:
  - `Cargo.lock` packages to download artifacts;
  - toolchain detection;
  - the `Cargo.lock` file-name filter;
  - deduplication by file name;
  - the `artifacts.lock` document.

Library calls are parameters of the model: the source download, UTF-8
decoding, the TOML, INI and Python parsers, requirement parsing,
`key_from_ireq` and the pip-tools resolver. They are function-typed fields of
`Finder.Libraries`, `Compile.Repository` and `Rusted.Environment`. The
resolver is an oracle that gives a pinned set or an unsolvable conflict.

Three facts about the code shape the model:
- The finder concatenates the outputs of all present files. It does not stop
  at the first file that declares something.
- A name is bound by the *first* top-level assignment to it, not the most
  recent one.
- `resolve` has no cycle guard: the cache is written only after a
  requirement's loop ends. A dependency cycle recurses until the interpreter's
  stack runs out, which the model renders as fuel running out.

## Model

| member | source | states |
|---|---|---|
| SetupPy.GetSetupExpr | src/pybuild_deps/parsers/setup_py.py:45-56 | a found expression is a call of bare `setup` or of `setuptools.setup` |
| SetupPy.SetupExprIsFirstSetupCall | src/pybuild_deps/parsers/setup_py.py:45-56 | no call is found iff no top-level statement is a setup call; otherwise it is the call of the first such statement |
| SetupPy.SetupRequiresIsFirstKeyword | src/pybuild_deps/parsers/setup_py.py:59-63 | no value iff no keyword is literally `setup_requires`; otherwise the value of the first such keyword |
| SetupPy.FindAssignmentIsFirstDecider | src/pybuild_deps/parsers/setup_py.py:66-74 | the scan is unbound iff no statement binds the name or is a tuple/multi-target assignment; otherwise the first such statement decides, raising iff it is unsupported and giving its right-hand side if it binds |
| SetupPy.ResolveName | src/pybuild_deps/parsers/setup_py.py:66-74 | a resolved value is never a bare name: name-to-name aliases are followed to the end |
| SetupPy.ValuesOf | src/pybuild_deps/parsers/setup_py.py:89-90 | the list comprehension gives one value per element |
| SetupPy.ParseSetupPy | src/pybuild_deps/parsers/setup_py.py:26-42 | a syntax error and every unsupported shape become `SetupPyParsingError`; a runaway alias chain stays a `RecursionError`; otherwise the evaluator's list |
| SetupPyProperties.NoSetupCallGivesEmpty | src/pybuild_deps/parsers/setup_py.py:34-37 | without a qualifying top-level call the result is `[]` |
| SetupPyProperties.OtherReceiverIsNotSetup | src/pybuild_deps/parsers/setup_py.py:50-56 | `x.setup(...)` with a receiver other than `setuptools` is not a setup call |
| SetupPyProperties.OnlyFirstCallInspected | src/pybuild_deps/parsers/setup_py.py:46-56 | the first qualifying call is taken, and statements after it never change the result |
| SetupPyProperties.NoSetupRequiresGivesEmpty | src/pybuild_deps/parsers/setup_py.py:59-63 | a setup call without a `setup_requires` keyword gives `[]` |
| SetupPyProperties.KwargsIgnored | src/pybuild_deps/parsers/setup_py.py:60-63 | a `**mapping` argument anywhere among the keywords changes nothing |
| SetupPyProperties.LiteralListYieldsConstants | src/pybuild_deps/parsers/setup_py.py:86-90 | a literal list of constants yields exactly those strings, in source order |
| SetupPyProperties.ConstantsInOrder | src/pybuild_deps/parsers/setup_py.py:77-79 | each constant element evaluates to its own literal, position by position |
| SetupPyProperties.UnboundKeywordNameGivesEmpty | src/pybuild_deps/parsers/setup_py.py:86-93 | a keyword value naming something never assigned at top level gives `[]` |
| SetupPyProperties.UnboundListElementRaises | src/pybuild_deps/parsers/setup_py.py:77-83 | the same unassigned name as a list element raises `NotImplementedError` |
| SetupPyProperties.UnsupportedElementRaises | src/pybuild_deps/parsers/setup_py.py:89-90 | in a list, the first element that fails to evaluate decides the failure |
| SetupPyProperties.OtherShapesRaise | src/pybuild_deps/parsers/setup_py.py:77-94 | any value that is neither a list nor a name raises, and so does any element that is neither a constant nor a name |
| SetupPyProperties.UnsupportedAssignRaises | src/pybuild_deps/parsers/setup_py.py:66-70 | a tuple-target or multi-target assignment met before the name is bound raises, even when unrelated |
| SetupPyProperties.ScanStopsAtUnsupported | src/pybuild_deps/parsers/setup_py.py:67-70 | the scan stops with an error at the first unsupported assignment before any binding |
| SetupPyProperties.ScanSkipsUnrelated | src/pybuild_deps/parsers/setup_py.py:67-74 | statements that neither raise nor bind the name are skipped |
| SetupPyProperties.AliasStep | src/pybuild_deps/parsers/setup_py.py:71-73 | `a = b` as the deciding assignment hands the lookup on to `b` with one level less |
| SetupPyProperties.AcyclicAliasesTerminate | src/pybuild_deps/parsers/setup_py.py:72-73 | when a rank drops along every alias step, the lookup never hits the recursion limit given rank + 1 levels |
| SetupPyProperties.MoreFuelSameResult | src/pybuild_deps/parsers/setup_py.py:72-73 | once a lookup ends, a higher limit gives the same result |
| SetupPyProperties.AliasCycleExhaustsFuel | src/pybuild_deps/parsers/setup_py.py:72-73 | a name inside a closed alias cycle hits the recursion limit whatever the limit |
| SetupPyProperties.TwoNameCycleIsRecursionError | src/pybuild_deps/parsers/setup_py.py:32-42 | `A = B; B = A; setup(setup_requires=A)` ends in `RecursionError`, not `SetupPyParsingError` |
| SetupPyProperties.EvaluatorOnlyReturnsLiterals | src/pybuild_deps/parsers/setup_py.py:77-94 | every requirement returned is a string constant written at the top level of the script |
| SetupPyExamples.NonSetuptoolsReceiver | tests/test_parsers/test_setup_py.py:20-28 | `s.setup()` then `whatever(foo="bar")` gives `[]` |
| SetupPyExamples.DirectList | tests/test_parsers/test_setup_py.py:36-46 | `setup("some arg", some_kw="kw", setup_requires=["foo"])` gives `["foo"]` |
| SetupPyExamples.DirectSetuptools | tests/test_parsers/test_setup_py.py:48-54 | `setuptools.setup(setup_requires=["foo"])` gives `["foo"]` |
| SetupPyExamples.TwoLevelAlias | tests/test_parsers/test_setup_py.py:85-91 | `BAZ = "baz"; DEP = BAZ; SETUP_REQUIRES = [DEP]` gives `["baz"]` |
| SetupPyExamples.ImportedName | tests/test_parsers/test_setup_py.py:93-97 | an imported name as the keyword value gives `[]` |
| SetupPyExamples.KwargsDictIsNotFollowed | tests/test_parsers/test_setup_py.py:99-104 | `setup(**kwargs)` with `kwargs = dict(setup_requires="foo")` gives `[]`, not the `["foo"]` the test expects to fail on |
| SetupPyExamples.TupleAssignmentRaises | tests/test_parsers/test_setup_py.py:112-121 | `SETUP_REQUIRES, OTHER_CONSTANT = ["foo"], "bar"` raises `SetupPyParsingError` |
| Parsers.ParsePyprojectToml | src/pybuild_deps/parsers/__init__.py:19-24 | a decoding error propagates; otherwise the `build-system.requires` value unchanged, or `[]` when the table or key is missing |
| Parsers.ParseSetupCfg | src/pybuild_deps/parsers/__init__.py:27-40 | a reading error propagates; otherwise the split `options.setup_requires` value, or `[]` when the section or option is missing |
| Parsers.LineItems | src/pybuild_deps/parsers/__init__.py:36-40 | a stripped line gives one item more than it has separators, every item stripped |
| Parsers.LineItemsCount | src/pybuild_deps/parsers/__init__.py:37-39 | stripping a line loses no separator, so the line itself gives one item more than it has separators |
| Parsers.LineItemsHaveNoSeparator | src/pybuild_deps/parsers/__init__.py:39 | no item of a line holds `;` or `,` |
| Parsers.ItemsAreClean | src/pybuild_deps/parsers/__init__.py:36-40 | every item is stripped and holds no `;` or `,` |
| Parsers.ItemsCount | src/pybuild_deps/parsers/__init__.py:38-39 | no piece is dropped: each line gives its separator count plus one items, empty ones included |
| Parsers.ItemsStayOnOneLine | src/pybuild_deps/parsers/__init__.py:36-40 | items hold no character their lines lack |
| Parsers.SplitRequirementsClean | src/pybuild_deps/parsers/__init__.py:36-40 | the items of a value are stripped, separator-free and hold no line break |
| Parsers.OnePerLineRoundTrip | src/pybuild_deps/parsers/__init__.py:36-40 | clean requirements written one per line split back into the same list |
| Parsers.LeadingBreakIgnored | src/pybuild_deps/parsers/__init__.py:36-40 | `setup_requires =` followed by one requirement per line gives those requirements |
| Parsers.TwoItemsOnOneLine | src/pybuild_deps/parsers/__init__.py:39 | two clean items around `;` or `,` split into the two items |
| Parsers.WholeValueIsOneLine | src/pybuild_deps/parsers/__init__.py:36-40 | a stripped single-line value gives the items of that line |
| Parsers.CommaInSpecifierSplits | src/pybuild_deps/parsers/__init__.py:39 | `foo>=1,<2` gives `["foo>=1", "<2"]`: a comma inside a specifier splits it |
| Parsers.PyprojectExamples | tests/test_parsers/test_pyproject_toml.py:7-28 | the `[build-system]` example gives `["foo", "bar"]`; the document without it gives `[]` |
| Parsers.SetupCfgExample | tests/test_parsers/test_setup_cfg.py:7-16 | the `[options]` example gives `["foo", "bar"]` |
| Parsers.SetupCfgWithoutSetupRequires | tests/test_parsers/test_setup_cfg.py:18-26 | an `[options]` section without `setup_requires` gives `[]` |
| Text.Strip | src/pybuild_deps/parsers/__init__.py:37 | `str.strip()`: the slice of the input left once the whitespace at both ends is removed; it neither starts nor ends with whitespace |
| Text.StripKeepsCount | src/pybuild_deps/parsers/__init__.py:37 | `str.strip()` keeps every non-whitespace character, so the count of such characters is unchanged |
| Text.SplitAt | src/pybuild_deps/parsers/__init__.py:39 | `re.split` at `;` and `,`: one piece more than there are separators, none holding a separator |
| Text.SplitAtJoin | src/pybuild_deps/parsers/__init__.py:39 | joining the pieces with one separator gives the input back, separators unified |
| Text.SplitLines | src/pybuild_deps/parsers/__init__.py:38 | `str.splitlines()`: no line for an empty string, and no line holds a line break |
| Text.SplitLinesJoin | src/pybuild_deps/parsers/__init__.py:38 | non-empty lines joined with `\n` split back into the same lines |
| Text.Replace | src/pybuild_deps/exceptions.py:17-18 | `str.replace` of one character: same length, exactly that character replaced |
| Text.Lower | src/pybuild_deps/scripts/rusted.py:97 | `str.lower()` character by character |
| Finder.FirstSegment | src/pybuild_deps/finder.py:33 | `split("/")[0]`: the longest prefix without `/` |
| Finder.DecodeSig | src/pybuild_deps/finder.py:51 | `utf-8-sig` succeeds iff UTF-8 does, and gives the UTF-8 text less one leading byte-order mark |
| Finder.ParseBuildFile | src/pybuild_deps/finder.py:23-27 | the declarative files fail only with reader errors, `setup.py` only with evaluator errors |
| Finder.FindBuildDependencies | src/pybuild_deps/finder.py:16-66 | the loop returns the result and error log of the fold over the three files |
| Finder.GatherConcatenates | src/pybuild_deps/finder.py:30-53 | without errors or log lines, the result is the concatenation of all outputs in order |
| Finder.AllPresentFilesConcatenated | src/pybuild_deps/finder.py:23-53 | the result is pyproject.toml's, then setup.cfg's, then setup.py's output: an earlier file does not end the search |
| Finder.PresentFileIsParsed | src/pybuild_deps/finder.py:33-53 | a present file is read at `<root>/<file>`, decoded, and handed to its parser less a leading byte-order mark when it has one, unchanged otherwise |
| Finder.AbsentFileContributesNothing | src/pybuild_deps/finder.py:34-40 | a missing file adds nothing and raises nothing |
| Finder.NoBuildFileGivesEmpty | src/pybuild_deps/finder.py:30-66 | an archive with none of the three files gives `[]` |
| Finder.EmptyArchiveRaises | src/pybuild_deps/finder.py:33 | an archive without members raises at `getnames()[0]` |
| Finder.StrictSetupPyFailureRaises | src/pybuild_deps/finder.py:54-64 | with the flag set, a rejected `setup.py` raises `SetupPyParsingError("Unable to parse setup.py for package N==V.")` |
| Finder.LenientSetupPyFailureIsLogged | src/pybuild_deps/finder.py:54-59 | without the flag, that message is logged and the other files' dependencies are returned |
| Finder.SetupPyPolicy | src/pybuild_deps/finder.py:52-64 | a rejected `setup.py` raises iff the flag is set, and is logged iff it is not |
| Finder.OtherFailuresPropagate | src/pybuild_deps/finder.py:52-54 | every other parser failure raises whatever the flag says |
| Finder.DeclarativeFilesLogNothing | src/pybuild_deps/finder.py:52-59 | only `setup.py` writes to the log |
| Finder.ErrorsLeaveNoLog | src/pybuild_deps/finder.py:23-64 | a walk that raises has logged nothing |
| LegacyFinder.FindBuildDependencies | src/pybuild_deps/find_build_dependencies.py:10-40 | the older loop returns the fold over the three files, stopping at the first error |
| LegacyFinder.LegacyAllPresentFilesConcatenated | src/pybuild_deps/find_build_dependencies.py:12-39 | the three files' outputs, concatenated in the map's order |
| LegacyFinder.LegacyAbsentFileSkipped | src/pybuild_deps/find_build_dependencies.py:23-32 | a missing file is skipped without an error |
| LegacyFinder.LegacyKeepsMark | src/pybuild_deps/find_build_dependencies.py:39 | plain UTF-8 decoding: a leading byte-order mark reaches the parser |
| LegacyFinder.LegacyFailuresPropagate | src/pybuild_deps/find_build_dependencies.py:39 | every parser failure propagates, a rejected `setup.py` included |
| LegacyFinder.SameFileSameOutput | src/pybuild_deps/find_build_dependencies.py:21-39 | without byte-order marks, one file succeeds in both revisions together, with the same output |
| LegacyFinder.AgreesWithStrictFinder | src/pybuild_deps/find_build_dependencies.py:10-40 | without byte-order marks, the older finder succeeds iff the newer one does with the flag set, with the same dependencies |
| Exceptions.ConflictNames | src/pybuild_deps/exceptions.py:16 | fails iff some conflict is empty; otherwise the set of names of each conflict's first requirement |
| Exceptions.UnsolvableDependenciesError.constructor | src/pybuild_deps/exceptions.py:11-13 | both arguments are kept unchanged |
| Exceptions.UnsolvableDependenciesError.Str | src/pybuild_deps/exceptions.py:15-27 | the append loop produces the prefix followed by the selected constraints joined by newlines |
| Exceptions.NameVariantsMembership | src/pybuild_deps/exceptions.py:16-18 | a name is selected iff it is a conflict name, its underscored or its dashed spelling |
| Exceptions.DashedUnderscored | src/pybuild_deps/exceptions.py:17-18 | dashing an underscored name equals dashing the name |
| Exceptions.SelectedConcat | src/pybuild_deps/exceptions.py:19-22 | selection keeps the constraints' relative order |
| Exceptions.SelectedCounts | src/pybuild_deps/exceptions.py:19-22 | each selected constraint is kept as often as it occurs; every other constraint is dropped |
| Exceptions.MessageShape | src/pybuild_deps/exceptions.py:23-27 | with non-empty conflicts the message starts with the fixed prefix |
| Exceptions.EmptyConflictRaises | src/pybuild_deps/exceptions.py:16 | an empty conflict entry makes `__str__` raise |
| Exceptions.ConflictingBoundsExample | tests/test_main.py:186-202 | two bounds on one conflicting package, with an unrelated constraint between them, are listed on their own lines |
| Compile.DeduplicateInstallRequirements | src/pybuild_deps/compile_build_dependencies.py:182-198 | succeeds iff every requirement is pinned, else raises for the first unpinned one; keeps the first requirement of each name and version; its sources become the union of all same-key sources; the others are untouched |
| Compile.Absorb | src/pybuild_deps/compile_build_dependencies.py:185-197 | one pass of the loop keeps the bookkeeping invariant: a new key is kept, a known key gains the entry's sources |
| Compile.MergedMembers | src/pybuild_deps/compile_build_dependencies.py:193-197 | the merged sources of a key are exactly the own sources of the entries with that key |
| Compile.DeduplicatedOnePerKey | src/pybuild_deps/compile_build_dependencies.py:186-194 | at most one kept requirement per name and version |
| Compile.DeduplicatedCoversKeys | src/pybuild_deps/compile_build_dependencies.py:182-198 | only input requirements are kept, and every input key is kept |
| Compile.DeduplicatedIdempotent | src/pybuild_deps/compile_build_dependencies.py:182-198 | deduplicating a deduplicated set again, in any order, gives the same set |
| Compile.CoversAfterDedup | src/pybuild_deps/compile_build_dependencies.py:71-78 | a widening round keeps every name and version the set already held |
| Compile.DependencyCache.constructor | src/pybuild_deps/compile_build_dependencies.py:48 | a fresh cache is empty |
| Compile.DependencyCache.Store | src/pybuild_deps/compile_build_dependencies.py:64-80 | `dependency_cache[key] = value` updates that entry only, and records the requirement it was solved for |
| Compile.BuildIreqs | src/pybuild_deps/compile_build_dependencies.py:169-179 | one fresh requirement per string, matching the parse, without sources; the first rejected string raises |
| Compile.ParseAllMeaning | src/pybuild_deps/compile_build_dependencies.py:169-179 | parsing succeeds iff every string parses, gives one requirement per string in order with `comes_from` set, and otherwise reports the first rejected string |
| Compile.BuildRequirementsComeFromPackage | src/pybuild_deps/compile_build_dependencies.py:179 | every build requirement names its package as `comes_from` |
| Compile.LenientFinderNeverRaisesSetupPy | src/pybuild_deps/compile_build_dependencies.py:169-174 | the finder in lenient mode never raises `SetupPyParsingError` |
| Compile.CompilerNeverRaisesSetupPy | src/pybuild_deps/compile_build_dependencies.py:163-179 | the engine never fails with the finder's `SetupPyParsingError` |
| Compile.BuildRequirementsErrors | src/pybuild_deps/compile_build_dependencies.py:163-179 | the lookup fails only as unpinned, a finder failure or an invalid requirement string |
| Compile.UnpinnedRefused | src/pybuild_deps/compile_build_dependencies.py:163-168 | an unpinned requirement is refused before the finder runs |
| Compile.ResolveUnpinned | tests/test_compile_build_dependencies.py:31-35 | `resolve([ireq])` on an unpinned requirement, with no constraints and no cache given, raises `NotPinned` for it |
| Compile.RetryOnlyWhenUnsolvable | src/pybuild_deps/compile_build_dependencies.py:92-132 | no build requirements gives `{}` with no run; otherwise one run with constraints, and one without them iff the first is unsolvable |
| Compile.UnsolvableNamesRequirement | src/pybuild_deps/compile_build_dependencies.py:153-155 | an unsolvable error names the requirement being resolved, which had build requirements |
| Compile.UnsafeDataAccumulates | src/pybuild_deps/compile_build_dependencies.py:142-160 | after a successful run the resolver carries the unsafe data of the one before |
| Compile.ConstraintsFromKeys | src/pybuild_deps/compile_build_dependencies.py:45-47 | the default constraints have one entry per key of the requirements |
| Compile.ConstraintsFromLastWins | src/pybuild_deps/compile_build_dependencies.py:45-47 | a key's entry is the last requirement with that key |
| Compile.GivenConstraintsKept | src/pybuild_deps/compile_build_dependencies.py:45-47 | non-empty constraints passed in are used as they are |
| Compile.EmptyConstraintsReplaced | src/pybuild_deps/compile_build_dependencies.py:45-47 | empty constraints count as absent |
| Compile.BuildDependencyCompiler.constructor | src/pybuild_deps/compile_build_dependencies.py:30-32 | keeps the repository, with no resolver yet and nothing looked up or run |
| Compile.BuildDependencyCompiler.ResolveWithPiptools | src/pybuild_deps/compile_build_dependencies.py:134-161 | replaces the resolver; gives the pinned set or `Unsolvable(package, …)`; carries the old unsafe data over only on success; one run is recorded |
| Compile.BuildDependencyCompiler.FindBuildIreqs | src/pybuild_deps/compile_build_dependencies.py:163-179 | one fresh requirement per string the lenient finder returns, or the lookup's error; the resolver is untouched; the finder is consulted, and the lookup recorded, only for a pinned requirement |
| Compile.BuildDependencyCompiler.ResolveBuildDepsForIreq | src/pybuild_deps/compile_build_dependencies.py:86-132 | gives exactly the outcome of the constrained run with its unconstrained retry, as fresh requirements; the runs made are `RunsFor` (none, one, or two when the first is unsolvable) and the resolver left behind is the one of the last run, `ResolverAfterIreq` |
| Compile.BuildDependencyCompiler.Resolve | src/pybuild_deps/compile_build_dependencies.py:34-84 | `all_build_deps` is the concatenation, in order, of one listing per requirement and the result its deduplication; every requirement the given cache did not hold was solved: its listing, and the result, cover the pinned build dependencies of a requirement written the same way under the constraints in force; the given cache keeps its entries and every entry it gains is solved; an empty cache is replaced, leaving the caller's empty; no requirement string the cache held is looked up, and when every resolver run succeeds the unsafe data is kept; a fully cached input changes nothing; the first requirement the cache did not hold is solved for itself, and when its build dependencies cannot be found or pinned, `resolve` raises that very error |
| Compile.BuildDependencyCompiler.Gather | src/pybuild_deps/compile_build_dependencies.py:50-82 | each requirement contributes its cache entry, listed once per element, solved first when missing; the result is the listings in order; entries already present keep their value and new ones are solved; cached requirements cost no lookup; the first requirement not cached is solved for itself, and its error is the result when it has one |
| Compile.BuildDependencyCompiler.SolveRequirement | src/pybuild_deps/compile_build_dependencies.py:59-80 | no build requirements caches `{}` and leaves the resolver alone; otherwise the saturated set is cached, recorded as solved for this requirement, and covers every pinned build dependency; errors pass through |
| Compile.BuildDependencyCompiler.Contribute | src/pybuild_deps/compile_build_dependencies.py:54-80 | a cached requirement string gives its entry with nothing run or changed; any other is solved for this requirement: the error of its build dependencies is the result, and on success the new entry is recorded as solved for it |
| Compile.BuildDependencyCompiler.Saturate | src/pybuild_deps/compile_build_dependencies.py:63-80 | an empty set is cached as it is with nothing run; any other is closed first; the result is cached under the requirement string, recorded as solved for it, and covers the start |
| Compile.BuildDependencyCompiler.Widen | src/pybuild_deps/compile_build_dependencies.py:71-78 | the set united with `resolve` of itself, then deduplicated: the old set is in the merged list, and every old name and version stays; the cache only gains solved entries |
| Compile.BuildDependencyCompiler.ResolveIn | src/pybuild_deps/compile_build_dependencies.py:41-84 | `resolve` once the cache and constraints are chosen: the listings, in order, deduplicated; every requirement the cache did not hold has a listing covering the pinned build dependencies it was solved for; the first of them was solved for itself, and its error is the result when it has one |
| Compile.BuildDependencyCompiler.Close | src/pybuild_deps/compile_build_dependencies.py:68-78 | the loop ends only after a round leaves the size unchanged; the result covers the start and is the deduplication of the last merged list |
| Compile.ListingsCover | src/pybuild_deps/compile_build_dependencies.py:55-84 | a listing solved since the cache was taken covers the pinned build dependencies of the requirement it was solved for, and so does the deduplicated concatenation |
| Compile.ResolutionSteps | src/pybuild_deps/compile_build_dependencies.py:92-132 | with something to resolve: one run under the constraints, a second without them exactly when the first is unsolvable; the outcome and the resolver left behind are those of the last run |
| Compile.RunsForShape | src/pybuild_deps/compile_build_dependencies.py:110-132 | one or two runs; the first under the constraints; a second, without them, iff the first is unsolvable |
| Compile.OutcomeOfLastRun | src/pybuild_deps/compile_build_dependencies.py:110-161 | when a run happens, the outcome is the last run's: its pinned set iff it succeeds, otherwise `Unsolvable` for a `ResolutionImpossible` cause and `NoDistribution` else |
| Compile.NoRunsKeepResolver | src/pybuild_deps/compile_build_dependencies.py:92-94 | no run leaves the resolver as it was, and a successful outcome is then `{}` |
| Compile.SuccessfulRunsKeepUnsafeData | src/pybuild_deps/compile_build_dependencies.py:140-160 | when every run of a requirement succeeds, the unsafe data held before is still held |
| Compile.RetryDropsEarlierUnsafeData | src/pybuild_deps/compile_build_dependencies.py:120-160 | after a retry the resolver is the same whatever came before: it holds the second run's unsafe data, plus the first run's when the second succeeds, and nothing older |
| Compile.UnsolvableAfterBothRuns | src/pybuild_deps/compile_build_dependencies.py:120-132 | an unsolvable outcome means two runs, with and without the constraints, both unsolvable |
| Compile.OutcomeByNameAndVersion | src/pybuild_deps/compile_build_dependencies.py:163-179 | the build dependencies depend only on the requirement's name and version |
| Compile.IreqProgress | src/pybuild_deps/compile_build_dependencies.py:55-62 | resolving a requirement the cache does not hold looks up only that string, and keeps the unsafe data when every run succeeds |
| Compile.ConstraintsOrNonEmpty | src/pybuild_deps/compile_build_dependencies.py:45-47 | requirements given, the constraints passed on are not empty |
| Rusted.ParseCargoLock | src/pybuild_deps/scripts/rusted.py:134-157 | the loop gives the fold over the lock's packages |
| Rusted.ArtifactsMeaning | src/pybuild_deps/scripts/rusted.py:138-157 | reading succeeds iff every package with a source is well formed, and then gives those packages' artifacts |
| Rusted.ArtifactsInLockOrder | src/pybuild_deps/scripts/rusted.py:138-155 | one artifact per package with a source, in the lock's order |
| Rusted.LocalPackagesSkipped | src/pybuild_deps/scripts/rusted.py:139-143 | a package without a source, or with an empty one, adds nothing |
| Rusted.OtherRegistryRaises | src/pybuild_deps/scripts/rusted.py:160-166 | any source other than the crates.io index raises |
| Rusted.OneArtifact | src/pybuild_deps/scripts/rusted.py:142-155 | a package with a source yields an artifact iff it is well formed |
| Rusted.ArtifactShape | src/pybuild_deps/scripts/rusted.py:144-155 | the URL is `https://crates.io/api/v1/crates/<name>/<version>/download`, the checksum `sha256:<checksum>`, the file name `<name>-<version>.crate` |
| Rusted.BuildDepNamesMeaning | src/pybuild_deps/scripts/rusted.py:96-99 | succeeds iff every string parses, and then holds exactly the lowercased names |
| Rusted.NeedsRustWhenToolchainNamed | src/pybuild_deps/scripts/rusted.py:96-102 | a package is looked at iff some build requirement is `maturin` or `setuptools-rust` in any letter case |
| Rusted.LockFileNames | src/pybuild_deps/scripts/rusted.py:121-125 | every member whose lowercased name ends in `cargo.lock` is a lock file |
| Rusted.CargoLocksAreMembers | src/pybuild_deps/scripts/rusted.py:121-125 | only archive members are lock files |
| Rusted.ReadLock | src/pybuild_deps/scripts/rusted.py:129-130 | one lock file read, decoded and parsed |
| Rusted.ReadLocks | src/pybuild_deps/scripts/rusted.py:128-130 | the loop over the lock files gives the fold in the order taken, which is all of them on success |
| Rusted.GetCargoDependencies | src/pybuild_deps/scripts/rusted.py:116-131 | a failed download raises; otherwise every lock file of the archive is read exactly once on success, in some order |
| Collections.Enumerate | src/pybuild_deps/scripts/rusted.py:128 | iterating a set meets every element exactly once |
| Rusted.DependencyStep | src/pybuild_deps/scripts/rusted.py:94-104 | one dependency adds its lock files' artifacts iff it needs Rust |
| Rusted.CollectCargoDependencies | src/pybuild_deps/scripts/rusted.py:93-104 | the loop gives the fold over the dependencies |
| Rusted.Lock | src/pybuild_deps/scripts/rusted.py:79-111 | the document is built from the collected artifacts, or the collection's error is raised |
| Rusted.ByFilenameKeys | src/pybuild_deps/scripts/rusted.py:107 | the dict's keys are distinct and each value carries its own key as file name |
| Rusted.ByFilenameLast | src/pybuild_deps/scripts/rusted.py:107 | each value is the last artifact with that file name |
| Rusted.ByFilenameCovers | src/pybuild_deps/scripts/rusted.py:107 | the keys are exactly the input's file names |
| Rusted.ByFilenameOrder | src/pybuild_deps/scripts/rusted.py:107 | keys keep the order of their first insertion |
| Rusted.DeduplicatedAt | src/pybuild_deps/scripts/rusted.py:107-108 | the list is the dict's values in key order |
| Rusted.DeduplicatedFilenamesUnique | src/pybuild_deps/scripts/rusted.py:107-108 | no two artifacts share a file name |
| Rusted.DeduplicatedFilenamesKept | src/pybuild_deps/scripts/rusted.py:107-108 | no file name is lost or added |
| Rusted.DeduplicatedKeepsLast | src/pybuild_deps/scripts/rusted.py:107-108 | the artifact kept for a file name is the last one carrying it |
| Rusted.DeduplicatedFirstAppearanceOrder | src/pybuild_deps/scripts/rusted.py:107-108 | file names appear in the order they first appeared |
| Rusted.DistinctFilenamesUnchanged | src/pybuild_deps/scripts/rusted.py:107-108 | a list with unique file names is left as it is |
| Rusted.ArtifactLockShape | src/pybuild_deps/scripts/rusted.py:111 | the document's metadata is `1.0`, and its artifact list is already deduplicated |

## Left out

- Python's `ast.parse`, `tomllib`/`tomli`, `configparser`, UTF-8 decoding, the source download (`get_package_source`), `install_req_from_req_string`, `key_from_ireq`, `is_pinned_requirement` and the pip-tools `BacktrackingResolver`: library calls, taken as parameters. The resolver is an oracle from requirements and constraints to a pinned set or a failure.
- The `Module` datatype keeps only the syntax-tree nodes the evaluator tells apart. Every other expression or statement is `OtherExpr` or `OtherStmt`.
- SetupPy.ResolveName: nested alias lookups are bounded by fuel, Python's default recursion limit of 1000. Only lookup nesting counts against it, not the interpreter frames below it.
- Compile.BuildDependencyCompiler.Resolve: the recursion is bounded by fuel, and running out is `RecursionLimit`. Python's actual stack depth is not modelled, nor whether a real input terminates.
- Compile.BuildDependencyCompiler.Close: the `while` loop of `resolve` (compile_build_dependencies.py:69-78) has no bound, but the model gives it at most `fuel` rounds, the same fuel that bounds the recursion. A set that is still growing after `fuel` rounds ends in `RecursionLimit`, where Python would go on looping. The contracts promise nothing about such a run beyond the cache invariants.
- Compile.BuildDependencyCompiler.Resolve: the contract does not state that a cached set is closed, that is, that it also covers the build dependencies of its own members. It proves coverage one level deep: each requirement's set covers that requirement's pinned build dependencies, and the nested `resolve` calls are proved to cover theirs. Closure would need an induction over the nesting, carried through the cache, that the model does not do.
- Compile.BuildDependencyCompiler.Resolve: a cache entry is shared by every requirement written the same way. The contract proves coverage for the requirement the entry was solved for, which has the same string. When the two also agree on name and version, `Compile.OutcomeByNameAndVersion` gives them the same build dependencies. The model does not derive the name and version from the string, since requirement parsing is a parameter.
- Compile.DeduplicateInstallRequirements: when an unpinned requirement raises, the contract says nothing about the `_source_ireqs` already written to earlier entries.
- Compile.Materialize: the requirements the resolver returns are built with `_source_ireqs` unset (`None`). pip-tools' resolver sets `_source_ireqs` on its results, and the model drops those values: when `resolve` deduplicates them, the merge starts from each requirement itself. Only the requirements the caller passes in can carry sources set beforehand.
- Set iteration order: Python's order of iterating `set`s (`cargo_locks`, the resolver's result, `build_dependencies`) is left open. The model proves every result for every order, and the Rusted methods return, next to their result, the order in which they read the lock files.
- Rusted.GetCargoDependencies: the order in which lock files are read, and thus the artifacts' order before deduplication, is not fixed.
- Logging other than the error-level line of the lenient finder, the `-v/-q` verbosity, `click` options, `yaml.dump`, `tarfile` and file writing: output plumbing.
- `lock`'s requirement-file reading (`parse_requirements`, `_handle_src_files`) and `get_version`'s specifier access: dependencies enter as a name and an optional pinned version.
- ParsePyprojectToml: a TOML document is modelled as tables of string arrays. A `build-system` that is not a table (`TypeError`, which the parser does not catch) and a `requires` that is a string or holds non-strings cannot be written. In the source a string `requires` is returned as it is, and the finder's `+=` then adds its characters one by one.
- SetupPyProperties.EvaluatorOnlyReturnsLiterals: `SetupPy.Expr.Constant` holds a string. The source's `_ast_value_getter` returns the `.value` of any constant, so `setup_requires=[1]` gives `[1]`. The model can write a number only as `OtherExpr`, which raises.
- Text.Lower: ASCII letters only. Python's full Unicode case mapping is not modelled.
- `finder.py` and `rusted.py` call `get_package_source(name, version)`, while `source.py` takes a requirement. The model takes a package name and version.
- `compile_build_dependencies.py` raises `UnsolvableDependenciesError(package, args)`, while `exceptions.py` expects the conflict list and the constraints. Each file is modelled on its own terms: `Compile.CompileError.Unsolvable` holds the package and causes, and `Exceptions` models the message from conflict records.
- `source.py`, `get_package_source.py`, `cache.py`, `logger.py`, `scripts/compile.py`, `__main__.py` and `parsers/requirements.py` are not part of this model.
