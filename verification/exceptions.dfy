/**
 * `UnsolvableDependenciesError` of `exceptions.py`: it keeps the conflicts
 * reported by the resolver and the constraints in force, and its message
 * lists the constraints that name a conflicting package, in any of the
 * spellings that differ only in `-` and `_`.
 */
module Exceptions {
  import opened Wrappers
  import opened Text

  /** The part of the resolver's `RequirementInformation` the message reads: `requirement.name`. */
  datatype RequirementInformation = RequirementInformation(requirementName: string)

  /** A constraint: its `name`, and `str()` of it. */
  datatype Constraint = Constraint(name: string, text: string)

  /** `req_list[0]` of an empty conflict entry. */
  datatype MessageError = IndexError

  const Prefix: string := "Impossible resolve dependencies. See the conflicting dependencies below:\n"

  /** `p.replace("-", "_")`. */
  function Underscored(p: string): string {
    Replace(p, '-', '_')
  }

  /** `p.replace("_", "-")`. */
  function Dashed(p: string): string {
    Replace(p, '_', '-')
  }

  /** The names of the first requirement of each conflict; an empty conflict raises. */
  function ConflictNames(unsolvableDeps: seq<seq<RequirementInformation>>): (r: Result<set<string>, MessageError>)
    ensures r.Ok? <==> forall i :: 0 <= i < |unsolvableDeps| ==> unsolvableDeps[i] != []
    ensures r.Ok? ==> forall n :: n in r.value <==> exists i :: 0 <= i < |unsolvableDeps| && unsolvableDeps[i][0].requirementName == n
  {
    if exists i :: 0 <= i < |unsolvableDeps| && unsolvableDeps[i] == [] then Err(IndexError)
    else Ok(set i | 0 <= i < |unsolvableDeps| :: unsolvableDeps[i][0].requirementName)
  }

  /** The two set updates of `__str__`: first the underscored, then the dashed spellings. */
  function NameVariants(names: set<string>): set<string> {
    var withUnderscores := names + set p | p in names :: Underscored(p);
    withUnderscores + set p | p in withUnderscores :: Dashed(p)
  }

  /** The constraints whose name is in `names`, in their order: the append loop. */
  function Selected(constraints: seq<Constraint>, names: set<string>): seq<Constraint>
    decreases |constraints|
  {
    if constraints == [] then []
    else
      var last := constraints[|constraints| - 1];
      Selected(constraints[..|constraints| - 1], names) + (if last.name in names then [last] else [])
  }

  function Texts(constraints: seq<Constraint>): (r: seq<string>)
    ensures |r| == |constraints|
    ensures forall i :: 0 <= i < |r| ==> r[i] == constraints[i].text
  {
    if constraints == [] then [] else [constraints[0].text] + Texts(constraints[1..])
  }

  /** `__str__` as a value. */
  function Message(unsolvableDeps: seq<seq<RequirementInformation>>, constraints: seq<Constraint>): Result<string, MessageError> {
    match ConflictNames(unsolvableDeps)
    case Err(e) => Err(e)
    case Ok(names) => Ok(Prefix + Join("\n", Texts(Selected(constraints, NameVariants(names)))))
  }

  class UnsolvableDependenciesError {
    var unsolvableDeps: seq<seq<RequirementInformation>>
    var constraints: seq<Constraint>

    /** `__init__` keeps both arguments as they are. */
    constructor (unsolvableDeps: seq<seq<RequirementInformation>>, constraints: seq<Constraint>)
      ensures this.unsolvableDeps == unsolvableDeps && this.constraints == constraints
    {
      this.unsolvableDeps := unsolvableDeps;
      this.constraints := constraints;
    }

    /** `__str__`. */
    method Str() returns (r: Result<string, MessageError>)
      ensures r == Message(unsolvableDeps, constraints)
    {
      var names := ConflictNames(unsolvableDeps);
      if names.Err? {
        return Err(names.error);
      }
      var packages := NameVariants(names.value);
      var selected: seq<Constraint> := [];
      var i := 0;
      while i < |constraints|
        invariant 0 <= i <= |constraints|
        invariant selected == Selected(constraints[..i], packages)
      {
        var constraint := constraints[i];
        assert constraints[..i + 1][..i] == constraints[..i];
        if constraint.name in packages {
          selected := selected + [constraint];
        }
        i := i + 1;
      }
      assert constraints[..i] == constraints;
      return Ok(Prefix + Join("\n", Texts(selected)));
    }
  }

  // ------------------------------------------------------------ properties

  /** Dashing after underscoring is just dashing. */
  lemma DashedUnderscored(p: string)
    ensures Dashed(Underscored(p)) == Dashed(p)
  {
    var a, b := Dashed(Underscored(p)), Dashed(p);
    assert |a| == |b|;
    forall i | 0 <= i < |a| ensures a[i] == b[i] {
      assert Underscored(p)[i] == (if p[i] == '-' then '_' else p[i]);
    }
  }

  /** A name is accepted exactly when it is a conflict name, its underscored or its dashed spelling. */
  lemma NameVariantsMembership(names: set<string>, x: string)
    ensures x in NameVariants(names) <==>
              exists n :: n in names && (x == n || x == Underscored(n) || x == Dashed(n))
  {
    if x in NameVariants(names) {
      var withUnderscores := names + set p | p in names :: Underscored(p);
      if x !in withUnderscores {
        var p :| p in withUnderscores && x == Dashed(p);
        if p !in names {
          var n :| n in names && p == Underscored(n);
          DashedUnderscored(n);
        }
      }
    }
  }

  /** Selection distributes over concatenation: constraints keep their relative order. */
  lemma {:induction false} SelectedConcat(xs: seq<Constraint>, ys: seq<Constraint>, names: set<string>)
    ensures Selected(xs + ys, names) == Selected(xs, names) + Selected(ys, names)
    decreases |ys|
  {
    if ys == [] {
      assert xs + ys == xs;
    } else {
      var n := |ys| - 1;
      assert (xs + ys)[..|xs + ys| - 1] == xs + ys[..n];
      SelectedConcat(xs, ys[..n], names);
    }
  }

  /** Every constraint with an accepted name is kept, as often as it occurs; every other one is dropped. */
  lemma {:induction false} SelectedCounts(constraints: seq<Constraint>, names: set<string>, c: Constraint)
    ensures multiset(Selected(constraints, names))[c] == if c.name in names then multiset(constraints)[c] else 0
    decreases |constraints|
  {
    if constraints != [] {
      var n := |constraints| - 1;
      SelectedCounts(constraints[..n], names, c);
      assert constraints == constraints[..n] + [constraints[n]];
    }
  }

  /** The message: the prefix, then one selected constraint per line. */
  lemma MessageShape(unsolvableDeps: seq<seq<RequirementInformation>>, constraints: seq<Constraint>)
    requires forall i :: 0 <= i < |unsolvableDeps| ==> unsolvableDeps[i] != []
    ensures Message(unsolvableDeps, constraints).Ok?
    ensures var m := Message(unsolvableDeps, constraints).value;
            |Prefix| <= |m| && m[..|Prefix|] == Prefix
  {
  }

  /** An empty conflict entry makes `__str__` raise. */
  lemma EmptyConflictRaises(unsolvableDeps: seq<seq<RequirementInformation>>, constraints: seq<Constraint>, k: nat)
    requires k < |unsolvableDeps| && unsolvableDeps[k] == []
    ensures Message(unsolvableDeps, constraints) == Err(IndexError)
  {
  }

  lemma SingleConflictNames(n: string)
    ensures ConflictNames([[RequirementInformation(n)]]) == Ok({n})
  {
    var deps: seq<seq<RequirementInformation>> := [[RequirementInformation(n)]];
    assert deps[0][0].requirementName == n;
    var r := ConflictNames(deps);
    assert forall x :: x in r.value <==> x == n;
    assert r.value == {n};
  }

  lemma SelectBounds(n: string, m: string, lower: string, upper: string, other: string)
    requires m != n && m != Underscored(n) && m != Dashed(n)
    ensures Selected([Constraint(n, lower), Constraint(m, other), Constraint(n, upper)], NameVariants({n}))
         == [Constraint(n, lower), Constraint(n, upper)]
  {
    var cs := [Constraint(n, lower), Constraint(m, other), Constraint(n, upper)];
    var packages := NameVariants({n});
    NameVariantsMembership({n}, n);
    NameVariantsMembership({n}, m);
    assert cs[..1][..0] == [] && cs[..2][..1] == cs[..1];
    assert Selected(cs[..1], packages) == [cs[0]];
    assert Selected(cs[..2], packages) == [cs[0]];
  }

  lemma TwoLines(a: Constraint, b: Constraint)
    ensures Join("\n", Texts([a, b])) == a.text + "\n" + b.text
  {
    var lines := [a.text, b.text];
    assert Texts([a, b]) == lines;
    assert Join("\n", lines[1..]) == lines[1];
  }

  /**
   * The shape of the command-line test: one conflict over `n`, two bounds
   * on `n` and a constraint on an unrelated `m` between them; the message
   * lists the two bounds on their own lines.
   */
  lemma ConflictingBoundsExample(n: string, m: string, lower: string, upper: string, other: string)
    requires m != n && m != Underscored(n) && m != Dashed(n)
    ensures Message([[RequirementInformation(n)]], [Constraint(n, lower), Constraint(m, other), Constraint(n, upper)])
         == Ok(Prefix + lower + "\n" + upper)
  {
    SingleConflictNames(n);
    SelectBounds(n, m, lower, upper, other);
    TwoLines(Constraint(n, lower), Constraint(n, upper));
    assert Prefix + (lower + "\n" + upper) == Prefix + lower + "\n" + upper;
  }
}
