/**
 * The conservative `setup.py` evaluator of `pybuild_deps/parsers/setup_py.py`.
 *
 * The script is never run: its syntax tree (produced by Python's `ast`
 * module, which is not modelled) is searched for a top-level `setup(...)` or
 * `setuptools.setup(...)` call, and the value of its `setup_requires`
 * keyword is resolved to a list of constants. Only literal lists and bare
 * names bound by top-level `name = ...` assignments are followed; every other
 * shape raises.
 */
module SetupPy {
  import opened Wrappers

  /** The expression nodes the evaluator tells apart; every other node is `OtherExpr`. */
  datatype Expr =
    | Call(func: Expr, args: seq<Expr>, keywords: seq<Keyword>)
    | Attribute(value: Expr, attr: string)
    | Name(id: string)
    | Constant(literal: string)
    | List(elts: seq<Expr>)
    | OtherExpr  // comprehension, tuple, dict, f-string, subscript, ...

  /** A keyword argument; `arg` is `None` for a `**mapping` argument. */
  datatype Keyword = Keyword(arg: Option<string>, value: Expr)

  /** Top-level statements: expression statements, plain `=` assignments, anything else. */
  datatype Stmt =
    | ExprStmt(value: Expr)
    | Assign(targets: seq<Expr>, value: Expr)
    | OtherStmt  // imports, definitions, `if`, augmented or annotated assignments, ...

  datatype Module = Module(body: seq<Stmt>)

  /** What the evaluator can raise internally. */
  datatype Failure =
    | NotImplemented  // `NotImplementedError`: an unsupported shape
    | RecursionLimit  // Python's `RecursionError`: the alias chain never ends

  /** What `parse_setup_py` raises. */
  datatype SetupPyError =
    | SetupPyParsingError  // syntax error, or an unsupported shape
    | RecursionError       // not caught by `parse_setup_py`: it passes through

  /** Python's default recursion limit, the bound on nested alias lookups. */
  const RECURSION_LIMIT: nat := 1000

  // ---------------------------------------------------------------- setup call

  /** The callee is the bare name `setup` or the attribute `setuptools.setup`. */
  predicate IsSetupFunc(func: Expr) {
    || (func.Name? && func.id == "setup")
    || (func.Attribute? && func.attr == "setup" && func.value.Name? && func.value.id == "setuptools")
  }

  /** A top-level expression statement whose expression calls the setup entry point. */
  predicate IsSetupCall(s: Stmt) {
    s.ExprStmt? && s.value.Call? && IsSetupFunc(s.value.func)
  }

  /** `_get_setup_expr`: the call of the first qualifying statement in module order. */
  function GetSetupExpr(body: seq<Stmt>): (r: Option<Expr>)
    ensures r.Some? ==> r.value.Call? && IsSetupFunc(r.value.func)
  {
    if body == [] then None
    else if IsSetupCall(body[0]) then Some(body[0].value)
    else GetSetupExpr(body[1..])
  }

  /** Which call `GetSetupExpr` finds: none when no statement qualifies, otherwise the first. */
  lemma {:induction false} SetupExprIsFirstSetupCall(body: seq<Stmt>)
    ensures GetSetupExpr(body).None? <==> forall i :: 0 <= i < |body| ==> !IsSetupCall(body[i])
    ensures GetSetupExpr(body).Some? ==>
              exists i :: 0 <= i < |body| && IsSetupCall(body[i]) && GetSetupExpr(body).value == body[i].value
                          && forall j :: 0 <= j < i ==> !IsSetupCall(body[j])
  {
    if body != [] && !IsSetupCall(body[0]) {
      SetupExprIsFirstSetupCall(body[1..]);
      assert forall i :: 0 < i < |body| ==> body[i] == body[1..][i - 1];
      if GetSetupExpr(body).Some? {
        var i :| 0 <= i < |body[1..]| && IsSetupCall(body[1..][i]) && GetSetupExpr(body).value == body[1..][i].value
                 && forall j :: 0 <= j < i ==> !IsSetupCall(body[1..][j]);
        assert IsSetupCall(body[i + 1]) && forall j :: 0 <= j < i + 1 ==> !IsSetupCall(body[j]);
      }
    }
  }

  /** `_get_setup_requires`: the value of the first keyword literally named `setup_requires`. */
  function GetSetupRequires(keywords: seq<Keyword>): Option<Expr> {
    if keywords == [] then None
    else if keywords[0].arg == Some("setup_requires") then Some(keywords[0].value)
    else GetSetupRequires(keywords[1..])
  }

  /** Which value `GetSetupRequires` finds: none without such a keyword, otherwise the first one's. */
  lemma {:induction false} SetupRequiresIsFirstKeyword(keywords: seq<Keyword>)
    ensures GetSetupRequires(keywords).None? <==> forall i :: 0 <= i < |keywords| ==> keywords[i].arg != Some("setup_requires")
    ensures GetSetupRequires(keywords).Some? ==>
              exists i :: 0 <= i < |keywords| && keywords[i].arg == Some("setup_requires")
                          && GetSetupRequires(keywords).value == keywords[i].value
                          && forall j :: 0 <= j < i ==> keywords[j].arg != Some("setup_requires")
  {
    if keywords != [] && keywords[0].arg != Some("setup_requires") {
      SetupRequiresIsFirstKeyword(keywords[1..]);
      assert forall i :: 0 < i < |keywords| ==> keywords[i] == keywords[1..][i - 1];
      if GetSetupRequires(keywords).Some? {
        var i :| 0 <= i < |keywords[1..]| && keywords[1..][i].arg == Some("setup_requires")
                 && GetSetupRequires(keywords).value == keywords[1..][i].value
                 && forall j :: 0 <= j < i ==> keywords[1..][j].arg != Some("setup_requires");
        assert keywords[i + 1].arg == Some("setup_requires");
      }
    }
  }

  // ---------------------------------------------------------------- name lookup

  /** The outcome of scanning the module body for an assignment to one name. */
  datatype Lookup =
    | Unsupported     // an `Assign` that is not `single_name = ...` was met first
    | Bound(value: Expr)
    | Unbound

  /** The scan must raise at statement `s`: an assignment with several or non-name targets. */
  predicate IsUnsupportedAssign(s: Stmt) {
    s.Assign? && !(|s.targets| == 1 && s.targets[0].Name?)
  }

  /** Statement `s` is `name = ...`. */
  predicate Assigns(s: Stmt, name: string) {
    s.Assign? && |s.targets| == 1 && s.targets[0].Name? && s.targets[0].id == name
  }

  /** The loop of `_resolve_name`: the first statement that either raises or binds `name` decides. */
  function FindAssignment(body: seq<Stmt>, name: string): Lookup {
    if body == [] then Unbound
    else if IsUnsupportedAssign(body[0]) then Unsupported
    else if Assigns(body[0], name) then Bound(body[0].value)
    else FindAssignment(body[1..], name)
  }

  /**
   * What the scan finds: `Unbound` exactly when no statement raises or binds
   * `name`; otherwise the first such statement decides, raising if it is a
   * tuple-target or multi-target assignment.
   */
  lemma FindAssignmentIsFirstDecider(body: seq<Stmt>, name: string)
    ensures FindAssignment(body, name).Unbound? <==>
              forall i :: 0 <= i < |body| ==> !IsUnsupportedAssign(body[i]) && !Assigns(body[i], name)
    ensures !FindAssignment(body, name).Unbound? ==>
              exists i :: 0 <= i < |body| && (IsUnsupportedAssign(body[i]) || Assigns(body[i], name))
                          && (forall j :: 0 <= j < i ==> !IsUnsupportedAssign(body[j]) && !Assigns(body[j], name))
                          && (FindAssignment(body, name).Unsupported? <==> IsUnsupportedAssign(body[i]))
                          && (FindAssignment(body, name).Bound? ==> FindAssignment(body, name).value == body[i].value)
  {
    FindAssignmentUnbound(body, name);
    FindAssignmentDecider(body, name);
  }

  lemma {:induction false} FindAssignmentUnbound(body: seq<Stmt>, name: string)
    ensures FindAssignment(body, name).Unbound? <==>
              forall i :: 0 <= i < |body| ==> !IsUnsupportedAssign(body[i]) && !Assigns(body[i], name)
  {
    if body != [] && !IsUnsupportedAssign(body[0]) && !Assigns(body[0], name) {
      FindAssignmentUnbound(body[1..], name);
      assert forall i :: 0 < i < |body| ==> body[i] == body[1..][i - 1];
    }
  }

  lemma {:induction false} FindAssignmentDecider(body: seq<Stmt>, name: string)
    ensures !FindAssignment(body, name).Unbound? ==>
              exists i :: 0 <= i < |body| && (IsUnsupportedAssign(body[i]) || Assigns(body[i], name))
                          && (forall j :: 0 <= j < i ==> !IsUnsupportedAssign(body[j]) && !Assigns(body[j], name))
                          && (FindAssignment(body, name).Unsupported? <==> IsUnsupportedAssign(body[i]))
                          && (FindAssignment(body, name).Bound? ==> FindAssignment(body, name).value == body[i].value)
  {
    if body != [] && !IsUnsupportedAssign(body[0]) && !Assigns(body[0], name) {
      var r := FindAssignment(body, name);
      FindAssignmentDecider(body[1..], name);
      if !r.Unbound? {
        var tail := body[1..];
        var i :| 0 <= i < |tail| && (IsUnsupportedAssign(tail[i]) || Assigns(tail[i], name))
                 && (forall j :: 0 <= j < i ==> !IsUnsupportedAssign(tail[j]) && !Assigns(tail[j], name))
                 && (r.Unsupported? <==> IsUnsupportedAssign(tail[i]))
                 && (r.Bound? ==> r.value == tail[i].value);
        assert body[i + 1] == tail[i];
        forall j | 0 <= j < i + 1 ensures !IsUnsupportedAssign(body[j]) && !Assigns(body[j], name) {
          if j > 0 {
            assert body[j] == tail[j - 1];
          }
        }
      }
    }
  }

  /**
   * `_resolve_name`: the right-hand side bound to `name`, following
   * name-to-name aliases; `None` when the name is never assigned. Each
   * nested lookup uses one unit of `fuel`.
   */
  function ResolveName(name: string, tree: Module, fuel: nat): (r: Result<Option<Expr>, Failure>)
    ensures r.Ok? && r.value.Some? ==> !r.value.value.Name?
    decreases fuel
  {
    if fuel == 0 then Err(RecursionLimit)
    else
      match FindAssignment(tree.body, name)
      case Unsupported => Err(NotImplemented)
      case Unbound => Ok(None)
      case Bound(v) => if v.Name? then ResolveName(v.id, tree, fuel - 1) else Ok(Some(v))
  }

  /** `_ast_value_getter`: a constant, or a name resolved to a constant. */
  function ValueOf(element: Expr, tree: Module, fuel: nat): (r: Result<string, Failure>)
    decreases if element.Name? then 1 else 0
  {
    match element
    case Constant(v) => Ok(v)
    case Name(id) =>
      (match ResolveName(id, tree, fuel)
       case Err(f) => Err(f)
       case Ok(None) => Err(NotImplemented)  // `None` is neither a constant nor a name
       case Ok(Some(target)) => ValueOf(target, tree, fuel))
    case _ => Err(NotImplemented)
  }

  /** The list comprehension of `_resolve_deps`: elements in order, the first failure raised. */
  function ValuesOf(elts: seq<Expr>, tree: Module, fuel: nat): (r: Result<seq<string>, Failure>)
    ensures r.Ok? ==> |r.value| == |elts|
  {
    if elts == [] then Ok([])
    else
      match ValueOf(elts[0], tree, fuel)
      case Err(f) => Err(f)
      case Ok(v) =>
        (match ValuesOf(elts[1..], tree, fuel)
         case Err(f) => Err(f)
         case Ok(vs) => Ok([v] + vs))
  }

  /** `_resolve_deps`: no value gives `[]`, a list its values, a name what it resolves to. */
  function ResolveDeps(deps: Option<Expr>, tree: Module, fuel: nat): (r: Result<seq<string>, Failure>)
    decreases if deps.Some? && deps.value.Name? then 1 else 0
  {
    match deps
    case None => Ok([])
    case Some(List(elts)) => ValuesOf(elts, tree, fuel)
    case Some(Name(id)) =>
      (match ResolveName(id, tree, fuel)
       case Err(f) => Err(f)
       case Ok(value) => ResolveDeps(value, tree, fuel))
    case Some(_) => Err(NotImplemented)
  }

  /** The evaluator on an already parsed module, before `parse_setup_py` maps its failures. */
  function EvaluateModule(tree: Module, fuel: nat): Result<seq<string>, Failure> {
    match GetSetupExpr(tree.body)
    case None => Ok([])
    case Some(call) => ResolveDeps(GetSetupRequires(call.keywords), tree, fuel)
  }

  /**
   * `parse_setup_py`: `parsePython` stands for `ast.parse` (`None` is a
   * `SyntaxError`). Syntax errors and unsupported shapes become
   * `SetupPyParsingError`; a runaway alias chain stays a `RecursionError`.
   */
  function ParseSetupPy(parsePython: string -> Option<Module>, content: string): (r: Result<seq<string>, SetupPyError>)
    ensures parsePython(content).None? ==> r == Err(SetupPyParsingError)
    ensures parsePython(content).Some? ==>
              match EvaluateModule(parsePython(content).value, RECURSION_LIMIT)
              case Ok(deps) => r == Ok(deps)
              case Err(NotImplemented) => r == Err(SetupPyParsingError)
              case Err(RecursionLimit) => r == Err(RecursionError)
  {
    match parsePython(content)
    case None => Err(SetupPyParsingError)
    case Some(tree) =>
      match EvaluateModule(tree, RECURSION_LIMIT)
      case Ok(deps) => Ok(deps)
      case Err(NotImplemented) => Err(SetupPyParsingError)
      case Err(RecursionLimit) => Err(RecursionError)
  }
}
