/**
 * The scripts of the `setup.py` parser's test suite, as syntax trees, and
 * what the evaluator gives for them, including the four cases the test
 * suite marks as expected failures: the code gives `[]` or raises there.
 */
module SetupPyExamples {
  import opened Wrappers
  import opened SetupPy
  import opened SetupPyProperties

  const Import := OtherStmt

  function SetupCall(keywords: seq<Keyword>): Stmt {
    ExprStmt(Call(Name("setup"), [], keywords))
  }

  function SetupRequires(value: Expr): Keyword {
    Keyword(Some("setup_requires"), value)
  }

  lemma FirstSetupCallAt(body: seq<Stmt>, k: nat)
    requires k < |body| && IsSetupCall(body[k])
    requires forall i :: 0 <= i < k ==> !IsSetupCall(body[i])
    ensures GetSetupExpr(body) == Some(body[k].value)
  {
    var prefix, call, rest := body[..k], body[k].value, body[k + 1..];
    assert body[k] == ExprStmt(call);
    assert body == prefix + [ExprStmt(call)] + rest;
    OnlyFirstCallInspected(prefix, call, rest, rest);
  }

  lemma SingleValue(e: Expr, tree: Module)
    requires ValueOf(e, tree, RECURSION_LIMIT).Ok?
    ensures ValuesOf([e], tree, RECURSION_LIMIT) == Ok([ValueOf(e, tree, RECURSION_LIMIT).value])
  {
    assert [e][0] == e && [e][1..] == [];
    var v := ValueOf(e, tree, RECURSION_LIMIT).value;
    assert ValuesOf([], tree, RECURSION_LIMIT) == Ok([]);
    assert [v] + [] == [v];
  }

  lemma SingleConstant(c: string, tree: Module)
    ensures ResolveDeps(Some(List([Constant(c)])), tree, RECURSION_LIMIT) == Ok([c])
  {
    var elts := [Constant(c)];
    LiteralListYieldsConstants(elts, tree, RECURSION_LIMIT);
    var r := ResolveDeps(Some(List(elts)), tree, RECURSION_LIMIT);
    assert elts[0].literal == c;
    assert r.value == [c];
  }

  /** `s.setup()` followed by `whatever(foo="bar")`: no setup call, so `[]`. */
  lemma NonSetuptoolsReceiver(parsePython: string -> Option<Module>, content: string)
    requires parsePython(content) == Some(Module([
               Import, OtherStmt,
               ExprStmt(Call(Attribute(Name("s"), "setup"), [], [])),
               ExprStmt(Call(Name("whatever"), [], [Keyword(Some("foo"), Constant("bar"))]))]))
    ensures ParseSetupPy(parsePython, content) == Ok([])
  {
    NoSetupCallGivesEmpty(parsePython(content).value, RECURSION_LIMIT);
  }

  /** `setup("some arg", some_kw="kw", setup_requires=["foo"])`. */
  lemma DirectList(parsePython: string -> Option<Module>, content: string)
    requires parsePython(content) == Some(Module([
               Import,
               ExprStmt(Call(Name("setup"), [Constant("some arg")],
                             [Keyword(Some("some_kw"), Constant("kw")), SetupRequires(List([Constant("foo")]))]))]))
    ensures ParseSetupPy(parsePython, content) == Ok(["foo"])
  {
    var tree := parsePython(content).value;
    var call := tree.body[1].value;
    FirstSetupCallAt(tree.body, 1);
    assert GetSetupRequires(call.keywords[1..]) == Some(List([Constant("foo")]));
    assert GetSetupRequires(call.keywords) == Some(List([Constant("foo")]));
    SingleConstant("foo", tree);
  }

  /** `import setuptools; setuptools.setup(setup_requires=["foo"])`. */
  lemma DirectSetuptools(parsePython: string -> Option<Module>, content: string)
    requires parsePython(content) == Some(Module([
               Import,
               ExprStmt(Call(Attribute(Name("setuptools"), "setup"), [], [SetupRequires(List([Constant("foo")]))]))]))
    ensures ParseSetupPy(parsePython, content) == Ok(["foo"])
  {
    var tree := parsePython(content).value;
    var call := tree.body[1].value;
    FirstSetupCallAt(tree.body, 1);
    assert GetSetupRequires(call.keywords) == Some(List([Constant("foo")]));
    SingleConstant("foo", tree);
  }

  function TwoLevelAliasTree(): Module {
    Module([
      Import,
      Assign([Name("BAZ")], Constant("baz")),
      Assign([Name("DEP")], Name("BAZ")),
      Assign([Name("SETUP_REQUIRES")], List([Name("DEP")])),
      SetupCall([SetupRequires(Name("SETUP_REQUIRES"))])])
  }

  lemma TwoLevelAliasBindings()
    ensures FindAssignment(TwoLevelAliasTree().body, "BAZ") == Bound(Constant("baz"))
    ensures FindAssignment(TwoLevelAliasTree().body, "DEP") == Bound(Name("BAZ"))
    ensures FindAssignment(TwoLevelAliasTree().body, "SETUP_REQUIRES") == Bound(List([Name("DEP")]))
  {
    var body := TwoLevelAliasTree().body;
    assert body[1..][1..][1..] == [body[3], body[4]];
    assert body[1..][1..] == [body[2], body[3], body[4]];
  }

  /** `BAZ = "baz"; DEP = BAZ; SETUP_REQUIRES = [DEP]; setup(setup_requires=SETUP_REQUIRES)`. */
  lemma TwoLevelAlias(parsePython: string -> Option<Module>, content: string)
    requires parsePython(content) == Some(TwoLevelAliasTree())
    ensures ParseSetupPy(parsePython, content) == Ok(["baz"])
  {
    var tree := TwoLevelAliasTree();
    TwoLevelAliasBindings();
    FirstSetupCallAt(tree.body, 4);
    AliasStep("DEP", "BAZ", tree, RECURSION_LIMIT);
    assert ResolveName("DEP", tree, RECURSION_LIMIT) == Ok(Some(Constant("baz")));
    assert ValueOf(Name("DEP"), tree, RECURSION_LIMIT) == Ok("baz");
    SingleValue(Name("DEP"), tree);
  }

  /** `from foo import bar; setup(setup_requires=bar)`: an imported name gives `[]`. */
  lemma ImportedName(parsePython: string -> Option<Module>, content: string)
    requires parsePython(content) == Some(Module([Import, Import, SetupCall([SetupRequires(Name("bar"))])]))
    ensures ParseSetupPy(parsePython, content) == Ok([])
  {
    var tree := parsePython(content).value;
    FirstSetupCallAt(tree.body, 2);
    ScanSkipsUnrelated(tree.body, [], "bar");
    assert tree.body + [] == tree.body;
  }

  /** `kwargs = dict(setup_requires="foo"); setup(**kwargs)`: expected `["foo"]`, the code gives `[]`. */
  lemma KwargsDictIsNotFollowed(parsePython: string -> Option<Module>, content: string)
    requires parsePython(content) == Some(Module([
               Import,
               Assign([Name("kwargs")], Call(Name("dict"), [], [SetupRequires(Constant("foo"))])),
               SetupCall([Keyword(None, Name("kwargs"))])]))
    ensures ParseSetupPy(parsePython, content) == Ok([])
  {
    var tree := parsePython(content).value;
    FirstSetupCallAt(tree.body, 2);
  }

  /** `SETUP_REQUIRES, OTHER_CONSTANT = ["foo"], "bar"`: expected `["foo"]`, the code raises. */
  lemma TupleAssignmentRaises(parsePython: string -> Option<Module>, content: string)
    requires parsePython(content) == Some(Module([
               Import,
               Assign([OtherExpr], OtherExpr),
               SetupCall([SetupRequires(Name("SETUP_REQUIRES"))])]))
    ensures ParseSetupPy(parsePython, content) == Err(SetupPyParsingError)
  {
    var tree := parsePython(content).value;
    FirstSetupCallAt(tree.body, 2);
    ScanStopsAtUnsupported([Import], tree.body[1], [tree.body[2]], "SETUP_REQUIRES");
    assert [Import] + [tree.body[1]] + [tree.body[2]] == tree.body;
  }
}
