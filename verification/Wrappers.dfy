/** The failure-carrying types every other module uses, and texts that may be missing. */
module Wrappers {

  datatype Option<+T> = None | Some(value: T)

  /** The end of a database transaction: its value once committed, or rolled back. */
  datatype Tx<+T> = Committed(value: T) | Aborted

  /** Concatenation where either side may be missing. */
  function Both<T>(x: Option<seq<T>>, y: Option<seq<T>>): Option<seq<T>> {
    if x.None? || y.None? then None else Some(x.value + y.value)
  }

  function One<T>(x: Option<T>): Option<seq<T>> {
    if x.None? then None else Some([x.value])
  }

  /** `f` of every element, in order; None when one of them is None. */
  function Each<A, B>(f: A -> Option<B>, xs: seq<A>): (r: Option<seq<B>>)
    ensures r.Some? ==> |r.value| == |xs|
  {
    if xs == [] then Some([]) else Both(One(f(xs[0])), Each(f, xs[1..]))
  }

  lemma BothAssociates<T>(x: Option<seq<T>>, y: Option<seq<T>>, z: Option<seq<T>>)
    ensures Both(Both(x, y), z) == Both(x, Both(y, z))
  {
    if x.Some? && y.Some? && z.Some? {
      assert (x.value + y.value) + z.value == x.value + (y.value + z.value);
    }
  }

  lemma BothUnit<T>(x: Option<seq<T>>)
    ensures Both(Some([]), x) == x == Both(x, Some([]))
  {
    if x.Some? {
      assert [] + x.value == x.value == x.value + [];
    }
  }

  lemma {:induction false} EachConcat<A, B>(f: A -> Option<B>, a: seq<A>, b: seq<A>)
    ensures Each(f, a + b) == Both(Each(f, a), Each(f, b))
  {
    if a == [] {
      assert a + b == b;
      BothUnit(Each(f, b));
    } else {
      EachConcat(f, a[1..], b);
      assert (a + b)[1..] == a[1..] + b;
      BothAssociates(One(f(a[0])), Each(f, a[1..]), Each(f, b));
    }
  }

  lemma EachOne<A, B>(f: A -> Option<B>, a: A)
    ensures Each(f, [a]) == One(f(a))
  {
    assert [a][1..] == [];
    BothUnit(One(f(a)));
  }

  lemma {:induction false} EachAt<A, B>(f: A -> Option<B>, xs: seq<A>)
    ensures Each(f, xs).Some? <==> forall x | x in xs :: f(x).Some?
    ensures Each(f, xs).Some? ==> forall i | 0 <= i < |xs| :: f(xs[i]) == Some(Each(f, xs).value[i])
  {
    if xs != [] {
      EachAt(f, xs[1..]);
      assert forall x | x in xs :: x == xs[0] || x in xs[1..];
    }
  }
}
