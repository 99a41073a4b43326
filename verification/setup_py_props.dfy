/** Properties of the `setup.py` evaluator, stated over all syntax trees. */
module SetupPyProperties {
  import opened Wrappers
  import opened SetupPy

  // ------------------------------------------------------------ which call, which keyword

  /** Without a qualifying top-level call the result is `[]`, whatever else the module holds. */
  lemma NoSetupCallGivesEmpty(tree: Module, fuel: nat)
    requires forall i :: 0 <= i < |tree.body| ==> !IsSetupCall(tree.body[i])
    ensures EvaluateModule(tree, fuel) == Ok([])
  {
    SetupExprIsFirstSetupCall(tree.body);
  }

  /** A call on another receiver, such as `s.setup()`, is not a setup call. */
  lemma OtherReceiverIsNotSetup(receiver: string, keywords: seq<Keyword>)
    requires receiver != "setuptools"
    ensures !IsSetupCall(ExprStmt(Call(Attribute(Name(receiver), "setup"), [], keywords)))
  {
  }

  /** Only the first qualifying call counts: anything after it is never looked at. */
  lemma {:induction false} OnlyFirstCallInspected(prefix: seq<Stmt>, call: Expr, rest1: seq<Stmt>, rest2: seq<Stmt>)
    requires forall i :: 0 <= i < |prefix| ==> !IsSetupCall(prefix[i])
    requires IsSetupCall(ExprStmt(call))
    ensures GetSetupExpr(prefix + [ExprStmt(call)] + rest1) == Some(call)
    ensures GetSetupExpr(prefix + [ExprStmt(call)] + rest1) == GetSetupExpr(prefix + [ExprStmt(call)] + rest2)
  {
    if prefix != [] {
      assert (prefix + [ExprStmt(call)] + rest1)[1..] == prefix[1..] + [ExprStmt(call)] + rest1;
      assert (prefix + [ExprStmt(call)] + rest2)[1..] == prefix[1..] + [ExprStmt(call)] + rest2;
      OnlyFirstCallInspected(prefix[1..], call, rest1, rest2);
    }
  }

  /** A setup call without a `setup_requires` keyword gives `[]`. */
  lemma NoSetupRequiresGivesEmpty(tree: Module, fuel: nat)
    requires GetSetupExpr(tree.body).Some?
    requires forall k :: 0 <= k < |GetSetupExpr(tree.body).value.keywords| ==>
               GetSetupExpr(tree.body).value.keywords[k].arg != Some("setup_requires")
    ensures EvaluateModule(tree, fuel) == Ok([])
  {
    SetupRequiresIsFirstKeyword(GetSetupExpr(tree.body).value.keywords);
  }

  /** A `**mapping` argument, wherever it stands, changes nothing: it is never looked into. */
  lemma {:induction false} KwargsIgnored(before: seq<Keyword>, mapping: Expr, after: seq<Keyword>)
    ensures GetSetupRequires(before + [Keyword(None, mapping)] + after) == GetSetupRequires(before + after)
  {
    var withKwargs := before + [Keyword(None, mapping)] + after;
    var without := before + after;
    if before == [] {
      assert withKwargs[0].arg == None && withKwargs[1..] == without;
    } else {
      assert withKwargs[0] == without[0] == before[0];
      if before[0].arg != Some("setup_requires") {
        assert withKwargs[1..] == before[1..] + [Keyword(None, mapping)] + after;
        assert without[1..] == before[1..] + after;
        KwargsIgnored(before[1..], mapping, after);
      }
    }
  }

  // ------------------------------------------------------------ values

  /** A literal list of string constants yields those strings, in source order. */
  lemma LiteralListYieldsConstants(elts: seq<Expr>, tree: Module, fuel: nat)
    requires forall i :: 0 <= i < |elts| ==> elts[i].Constant?
    ensures var r := ResolveDeps(Some(List(elts)), tree, fuel);
            r.Ok? && |r.value| == |elts| && forall i :: 0 <= i < |elts| ==> r.value[i] == elts[i].literal
  {
    ConstantsInOrder(elts, tree, fuel);
  }

  lemma {:induction false} ConstantsInOrder(elts: seq<Expr>, tree: Module, fuel: nat)
    requires forall i :: 0 <= i < |elts| ==> elts[i].Constant?
    ensures var r := ValuesOf(elts, tree, fuel);
            r.Ok? && |r.value| == |elts| && forall i :: 0 <= i < |elts| ==> r.value[i] == elts[i].literal
  {
    if elts != [] {
      ConstantsInOrder(elts[1..], tree, fuel);
      assert ValueOf(elts[0], tree, fuel) == Ok(elts[0].literal);
    }
  }

  /** A keyword value naming something never assigned at top level (an import, say) gives `[]`. */
  lemma UnboundKeywordNameGivesEmpty(name: string, tree: Module, fuel: nat)
    requires fuel > 0
    requires FindAssignment(tree.body, name).Unbound?
    ensures ResolveDeps(Some(Name(name)), tree, fuel) == Ok([])
  {
  }

  /** The same unassigned name as a list element raises. */
  lemma UnboundListElementRaises(before: seq<Expr>, name: string, after: seq<Expr>, tree: Module, fuel: nat)
    requires fuel > 0
    requires forall i :: 0 <= i < |before| ==> before[i].Constant?
    requires FindAssignment(tree.body, name).Unbound?
    ensures ResolveDeps(Some(List(before + [Name(name)] + after)), tree, fuel) == Err(NotImplemented)
  {
    UnsupportedElementRaises(before, Name(name), after, tree, fuel);
  }

  /** In a list, the first element that does not evaluate decides the failure. */
  lemma {:induction false} UnsupportedElementRaises(before: seq<Expr>, bad: Expr, after: seq<Expr>, tree: Module, fuel: nat)
    requires forall i :: 0 <= i < |before| ==> before[i].Constant?
    requires ValueOf(bad, tree, fuel).Err?
    ensures ValuesOf(before + [bad] + after, tree, fuel) == Err(ValueOf(bad, tree, fuel).error)
  {
    if before == [] {
      assert before + [bad] + after == [bad] + after;
    } else {
      assert (before + [bad] + after)[1..] == before[1..] + [bad] + after;
      UnsupportedElementRaises(before[1..], bad, after, tree, fuel);
    }
  }

  /** Any value shape other than a list or a name raises, as does any list element that is neither a constant nor a name. */
  lemma OtherShapesRaise(value: Expr, tree: Module, fuel: nat)
    requires !value.List? && !value.Name?
    ensures ResolveDeps(Some(value), tree, fuel) == Err(NotImplemented)
    ensures !value.Constant? ==> ValueOf(value, tree, fuel) == Err(NotImplemented)
  {
  }

  /** A tuple-target or multi-target assignment met before the name is bound raises, related or not. */
  lemma UnsupportedAssignRaises(prefix: seq<Stmt>, bad: Stmt, rest: seq<Stmt>, name: string, fuel: nat)
    requires fuel > 0
    requires IsUnsupportedAssign(bad)
    requires forall i :: 0 <= i < |prefix| ==> !IsUnsupportedAssign(prefix[i]) && !Assigns(prefix[i], name)
    ensures ResolveName(name, Module(prefix + [bad] + rest), fuel) == Err(NotImplemented)
  {
    ScanStopsAtUnsupported(prefix, bad, rest, name);
  }

  lemma {:induction false} ScanStopsAtUnsupported(prefix: seq<Stmt>, bad: Stmt, rest: seq<Stmt>, name: string)
    requires IsUnsupportedAssign(bad)
    requires forall i :: 0 <= i < |prefix| ==> !IsUnsupportedAssign(prefix[i]) && !Assigns(prefix[i], name)
    ensures FindAssignment(prefix + [bad] + rest, name) == Unsupported
  {
    var body := prefix + [bad] + rest;
    if prefix == [] {
      assert body[0] == bad;
    } else {
      assert body[0] == prefix[0] && body[1..] == prefix[1..] + [bad] + rest;
      ScanStopsAtUnsupported(prefix[1..], bad, rest, name);
    }
  }

  /** Statements that neither raise nor bind `name` are skipped by the scan. */
  lemma {:induction false} ScanSkipsUnrelated(prefix: seq<Stmt>, rest: seq<Stmt>, name: string)
    requires forall i :: 0 <= i < |prefix| ==> !IsUnsupportedAssign(prefix[i]) && !Assigns(prefix[i], name)
    ensures FindAssignment(prefix + rest, name) == FindAssignment(rest, name)
  {
    if prefix != [] {
      assert (prefix + rest)[0] == prefix[0] && (prefix + rest)[1..] == prefix[1..] + rest;
      ScanSkipsUnrelated(prefix[1..], rest, name);
    } else {
      assert prefix + rest == rest;
    }
  }

  // ------------------------------------------------------------ alias chains and fuel

  /** One alias step: `a = b` as the deciding assignment of `a` hands the lookup on to `b`. */
  lemma AliasStep(a: string, b: string, tree: Module, fuel: nat)
    requires fuel > 0
    requires FindAssignment(tree.body, a) == Bound(Name(b))
    ensures ResolveName(a, tree, fuel) == ResolveName(b, tree, fuel - 1)
  {
  }

  /** The next name in an alias chain, if the deciding assignment of `a` is `a = other_name`. */
  function NextAlias(a: string, tree: Module): Option<string> {
    match FindAssignment(tree.body, a)
    case Bound(Name(b)) => Some(b)
    case _ => None
  }

  /** With a rank that strictly drops along every alias step, the lookup ends within rank + 1 steps. */
  lemma {:induction false} AcyclicAliasesTerminate(name: string, tree: Module, rank: string -> nat, fuel: nat)
    requires forall a :: NextAlias(a, tree).Some? ==> rank(NextAlias(a, tree).value) < rank(a)
    requires fuel > rank(name)
    ensures ResolveName(name, tree, fuel) != Err(RecursionLimit)
    decreases fuel
  {
    match FindAssignment(tree.body, name)
    case Bound(Name(b)) =>
      assert NextAlias(name, tree) == Some(b);
      AcyclicAliasesTerminate(b, tree, rank, fuel - 1);
    case _ =>
  }

  /** Once the lookup ends, more fuel changes nothing. */
  lemma {:induction false} MoreFuelSameResult(name: string, tree: Module, fuel: nat, more: nat)
    requires ResolveName(name, tree, fuel) != Err(RecursionLimit)
    requires fuel <= more
    ensures ResolveName(name, tree, more) == ResolveName(name, tree, fuel)
    decreases fuel
  {
    var found := FindAssignment(tree.body, name);
    if found.Bound? && found.value.Name? {
      MoreFuelSameResult(found.value.id, tree, fuel - 1, more - 1);
    }
  }

  /** Names whose alias chains stay among themselves: every one of them is `a = b` with `b` in the set. */
  ghost predicate ClosedAliasSet(names: set<string>, tree: Module) {
    forall a {:trigger NextAlias(a, tree)} :: a in names ==> NextAlias(a, tree).Some? && NextAlias(a, tree).value in names
  }

  /** An alias cycle never resolves: whatever the fuel, the lookup exhausts it. */
  lemma {:induction false} AliasCycleExhaustsFuel(name: string, names: set<string>, tree: Module, fuel: nat)
    requires ClosedAliasSet(names, tree)
    requires name in names
    ensures ResolveName(name, tree, fuel) == Err(RecursionLimit)
    decreases fuel
  {
    if fuel > 0 {
      var b := NextAlias(name, tree).value;
      assert FindAssignment(tree.body, name) == Bound(Name(b));
      AliasCycleExhaustsFuel(b, names, tree, fuel - 1);
    }
  }

  /** `A = B; B = A; setup(setup_requires=A)` is a `RecursionError`, not a `SetupPyParsingError`. */
  lemma TwoNameCycleIsRecursionError(parsePython: string -> Option<Module>, content: string)
    requires parsePython(content) == Some(Module([
               Assign([Name("A")], Name("B")),
               Assign([Name("B")], Name("A")),
               ExprStmt(Call(Name("setup"), [], [Keyword(Some("setup_requires"), Name("A"))]))]))
    ensures ParseSetupPy(parsePython, content) == Err(RecursionError)
  {
    var tree := parsePython(content).value;
    assert FindAssignment(tree.body, "A") == Bound(Name("B"));
    assert FindAssignment(tree.body[1..], "B") == Bound(Name("A"));
    assert FindAssignment(tree.body, "B") == Bound(Name("A"));
    assert NextAlias("A", tree) == Some("B") && NextAlias("B", tree) == Some("A");
    forall a | a in {"A", "B"} ensures NextAlias(a, tree).Some? && NextAlias(a, tree).value in {"A", "B"} { }
    AliasCycleExhaustsFuel("A", {"A", "B"}, tree, RECURSION_LIMIT);
    assert GetSetupExpr(tree.body) == Some(tree.body[2].value);
  }

  // ------------------------------------------------------------ nothing is invented

  /** Every string constant occurring anywhere in an expression. */
  function Literals(e: Expr): set<string> {
    match e
    case Call(func, args, keywords) =>
      Literals(func)
      + (set x, s | x in args && s in Literals(x) :: s)
      + (set k, s | k in keywords && s in Literals(k.value) :: s)
    case Attribute(value, _) => Literals(value)
    case Name(_) => {}
    case Constant(c) => {c}
    case List(elts) => set x, s | x in elts && s in Literals(x) :: s
    case OtherExpr => {}
  }

  /** Every string constant occurring in the module's top-level statements. */
  function ModuleLiterals(tree: Module): set<string> {
    set i, s | 0 <= i < |tree.body| && !tree.body[i].OtherStmt? && s in Literals(tree.body[i].value) :: s
  }

  lemma BoundValueInModule(tree: Module, name: string)
    requires FindAssignment(tree.body, name).Bound?
    ensures Literals(FindAssignment(tree.body, name).value) <= ModuleLiterals(tree)
  {
    FindAssignmentIsFirstDecider(tree.body, name);
    var i :| 0 <= i < |tree.body| && Assigns(tree.body[i], name)
             && FindAssignment(tree.body, name).value == tree.body[i].value;
  }

  lemma {:induction false} ResolvedInModule(name: string, tree: Module, fuel: nat)
    requires ResolveName(name, tree, fuel).Ok? && ResolveName(name, tree, fuel).value.Some?
    ensures Literals(ResolveName(name, tree, fuel).value.value) <= ModuleLiterals(tree)
    decreases fuel
  {
    BoundValueInModule(tree, name);
    match FindAssignment(tree.body, name)
    case Bound(Name(b)) => ResolvedInModule(b, tree, fuel - 1);
    case _ =>
  }

  lemma {:induction false} ValueInLiterals(e: Expr, tree: Module, fuel: nat)
    requires ValueOf(e, tree, fuel).Ok?
    ensures ValueOf(e, tree, fuel).value in Literals(e) + ModuleLiterals(tree)
    decreases if e.Name? then 1 else 0
  {
    if e.Name? {
      var t := ResolveName(e.id, tree, fuel).value.value;
      ResolvedInModule(e.id, tree, fuel);
      ValueInLiterals(t, tree, fuel);
    }
  }

  lemma {:induction false} ValuesInLiterals(elts: seq<Expr>, tree: Module, fuel: nat)
    requires ValuesOf(elts, tree, fuel).Ok?
    ensures forall d :: d in ValuesOf(elts, tree, fuel).value ==>
              d in ModuleLiterals(tree) || exists x :: x in elts && d in Literals(x)
  {
    if elts != [] {
      ValueInLiterals(elts[0], tree, fuel);
      ValuesInLiterals(elts[1..], tree, fuel);
      forall x | x in elts[1..] ensures x in elts { }
    }
  }

  lemma {:induction false} DepsInLiterals(value: Expr, tree: Module, fuel: nat)
    requires ResolveDeps(Some(value), tree, fuel).Ok?
    ensures forall d :: d in ResolveDeps(Some(value), tree, fuel).value ==> d in Literals(value) + ModuleLiterals(tree)
    decreases if value.Name? then 1 else 0
  {
    match value
    case List(elts) =>
      ValuesInLiterals(elts, tree, fuel);
    case Name(id) =>
      var r := ResolveName(id, tree, fuel).value;
      if r.Some? {
        ResolvedInModule(id, tree, fuel);
        DepsInLiterals(r.value, tree, fuel);
      }
    case _ =>
  }

  /**
   * The evaluator is conservative: every requirement it returns is a string
   * constant written somewhere at the top level of the script.
   */
  lemma EvaluatorOnlyReturnsLiterals(tree: Module, fuel: nat)
    requires EvaluateModule(tree, fuel).Ok?
    ensures forall d :: d in EvaluateModule(tree, fuel).value ==> d in ModuleLiterals(tree)
  {
    var call := GetSetupExpr(tree.body);
    SetupExprIsFirstSetupCall(tree.body);
    if call.Some? {
      SetupRequiresIsFirstKeyword(call.value.keywords);
      var i :| 0 <= i < |tree.body| && IsSetupCall(tree.body[i]) && call.value == tree.body[i].value;
      var kw := GetSetupRequires(call.value.keywords);
      if kw.Some? {
        var k :| 0 <= k < |call.value.keywords| && kw.value == call.value.keywords[k].value;
        DepsInLiterals(kw.value, tree, fuel);
        assert call.value.keywords[k] in call.value.keywords;
        assert Literals(kw.value) <= Literals(call.value);
      }
    }
  }
}
