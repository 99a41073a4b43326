/** Sequences read as sets, and the walk over a set in some order. */
module Collections {
  function Elements<T>(xs: seq<T>): set<T> {
    set x | x in xs
  }

  predicate Distinct<T(==)>(xs: seq<T>) {
    forall i, j :: 0 <= i < j < |xs| ==> xs[i] != xs[j]
  }

  lemma ElementsConcat<T>(xs: seq<T>, ys: seq<T>)
    ensures Elements(xs + ys) == Elements(xs) + Elements(ys)
  {
  }

  lemma DistinctSnoc<T>(xs: seq<T>, x: T)
    requires Distinct(xs) && x !in Elements(xs)
    ensures Distinct(xs + [x])
    ensures Elements(xs + [x]) == Elements(xs) + {x}
  {
    var ys := xs + [x];
    forall i, j | 0 <= i < j < |ys| ensures ys[i] != ys[j] {
      assert ys[i] == xs[i];
      if j < |xs| {
        assert ys[j] == xs[j];
      } else {
        assert xs[i] in Elements(xs);
      }
    }
  }

  /** The sequences one after the other. */
  function Flatten<T>(xss: seq<seq<T>>): seq<T> {
    if xss == [] then [] else Flatten(xss[..|xss| - 1]) + xss[|xss| - 1]
  }

  lemma FlattenSnoc<T>(xss: seq<seq<T>>, xs: seq<T>)
    ensures Flatten(xss + [xs]) == Flatten(xss) + xs
  {
    assert (xss + [xs])[..|xss|] == xss;
  }

  /** Every element of one of the sequences is in their concatenation. */
  lemma {:induction false} ElementsFlatten<T>(xss: seq<seq<T>>, i: int)
    requires 0 <= i < |xss|
    ensures Elements(xss[i]) <= Elements(Flatten(xss))
    decreases |xss|
  {
    var n := |xss| - 1;
    ElementsConcat(Flatten(xss[..n]), xss[n]);
    if i < n {
      ElementsFlatten(xss[..n], i);
      assert xss[..n][i] == xss[i];
    }
  }

  /** `for x in xs` over a Python set: every element once, in an order left open. */
  method Enumerate<T(==)>(xs: set<T>) returns (s: seq<T>)
    ensures Elements(s) == xs
    ensures Distinct(s)
  {
    s := [];
    var left := xs;
    while left != {}
      invariant Elements(s) + left == xs && Elements(s) !! left
      invariant Distinct(s)
      decreases |left|
    {
      var x :| x in left;
      DistinctSnoc(s, x);
      s := s + [x];
      left := left - {x};
    }
  }
}
