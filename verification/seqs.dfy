/** Generic sequence operations shared by the parsers and the aggregator. */
module Seqs {
  import opened Wrappers

  /** Applies `f` to each element, in order. */
  function Map<A, B>(xs: seq<A>, f: A -> B): (ys: seq<B>)
    ensures |ys| == |xs|
    ensures forall k | 0 <= k < |xs| :: ys[k] == f(xs[k])
  {
    if |xs| == 0 then [] else [f(xs[0])] + Map(xs[1..], f)
  }

  /** The values of a map are exactly the images of the elements. */
  lemma MapMembers<A, B>(xs: seq<A>, f: A -> B, y: B)
    ensures y in Map(xs, f) <==> exists x | x in xs :: y == f(x)
  {
    var ys := Map(xs, f);
    if y in ys {
      var k :| 0 <= k < |ys| && ys[k] == y;
      assert xs[k] in xs;
    }
    if exists x | x in xs :: y == f(x) {
      var x :| x in xs && y == f(x);
      var k :| 0 <= k < |xs| && xs[k] == x;
      assert ys[k] == y;
    }
  }

  /** Applies `f` to each element in order and keeps the values it yields:
      the shape of `[g(x) for x in xs if cond(x)]`. */
  function FilterMap<A, B>(xs: seq<A>, f: A -> Option<B>): (ys: seq<B>)
    ensures |ys| <= |xs|
  {
    if |xs| == 0 then []
    else
      var rest := FilterMap(xs[1..], f);
      match f(xs[0])
      case Some(y) => [y] + rest
      case None => rest
  }

  /** Every value `f` yields is kept. */
  lemma {:induction false} FilterMapKeeps<A, B>(xs: seq<A>, f: A -> Option<B>)
    ensures forall k | 0 <= k < |xs| && f(xs[k]).Some? :: f(xs[k]).value in FilterMap(xs, f)
  {
    if |xs| > 0 {
      FilterMapKeeps(xs[1..], f);
      assert forall k | 1 <= k < |xs| :: xs[1..][k - 1] == xs[k];
    }
  }

  /** Every kept value was yielded by `f` for some element. */
  lemma {:induction false} FilterMapOrigin<A, B>(xs: seq<A>, f: A -> Option<B>)
    ensures forall y | y in FilterMap(xs, f) :: exists k | 0 <= k < |xs| :: f(xs[k]) == Some(y)
  {
    if |xs| > 0 {
      FilterMapOrigin(xs[1..], f);
      forall y | y in FilterMap(xs, f)
        ensures exists k | 0 <= k < |xs| :: f(xs[k]) == Some(y)
      {
        if f(xs[0]) != Some(y) {
          var k :| 0 <= k < |xs[1..]| && f(xs[1..][k]) == Some(y);
          assert f(xs[k + 1]) == Some(y);
        }
      }
    }
  }

  /** Filtering a concatenation filters each part, in order: values keep the
      order and multiplicity of the elements they come from. */
  lemma {:induction false} FilterMapConcat<A, B>(xs: seq<A>, zs: seq<A>, f: A -> Option<B>)
    ensures FilterMap(xs + zs, f) == FilterMap(xs, f) + FilterMap(zs, f)
  {
    if |xs| == 0 {
      assert xs + zs == zs;
    } else {
      assert (xs + zs)[0] == xs[0] && (xs + zs)[1..] == xs[1..] + zs;
      FilterMapConcat(xs[1..], zs, f);
    }
  }

  /** A one-element sequence keeps its value or nothing. */
  lemma FilterMapSingle<A, B>(x: A, f: A -> Option<B>)
    ensures FilterMap([x], f) == AsSeq(f(x))
  {
    assert [x][1..] == [];
  }

  /** The values an option holds: one or none. */
  function AsSeq<T>(o: Option<T>): (s: seq<T>)
    ensures o.None? <==> s == []
    ensures o.Some? ==> s == [o.value]
  {
    match o
    case Some(v) => [v]
    case None => []
  }

  /** Filtering is flattening the zero-or-one values each element yields. */
  lemma {:induction false} FilterMapIsFlatMap<A, B>(xs: seq<A>, f: A -> Option<B>, g: A -> seq<B>)
    requires forall k | 0 <= k < |xs| :: g(xs[k]) == AsSeq(f(xs[k]))
    ensures FilterMap(xs, f) == FlatMap(xs, g)
  {
    if |xs| > 0 {
      assert forall k | 0 <= k < |xs[1..]| :: xs[1..][k] == xs[k + 1];
      FilterMapIsFlatMap(xs[1..], f, g);
    }
  }

  /** Concatenates the sequences `f` gives for the elements, in order. */
  function FlatMap<A, B>(xs: seq<A>, f: A -> seq<B>): (ys: seq<B>)
    ensures xs == [] ==> ys == []
  {
    if |xs| == 0 then [] else f(xs[0]) + FlatMap(xs[1..], f)
  }

  /** Flattening distributes over concatenation. */
  lemma {:induction false} FlatMapConcat<A, B>(xs: seq<A>, zs: seq<A>, f: A -> seq<B>)
    ensures FlatMap(xs + zs, f) == FlatMap(xs, f) + FlatMap(zs, f)
  {
    if |xs| == 0 {
      assert xs + zs == zs;
    } else {
      assert (xs + zs)[0] == xs[0] && (xs + zs)[1..] == xs[1..] + zs;
      FlatMapConcat(xs[1..], zs, f);
    }
  }

  /** Every flattened value comes from the sequence of some element, and
      every such value is present. */
  lemma {:induction false} FlatMapMembers<A, B>(xs: seq<A>, f: A -> seq<B>, y: B)
    ensures y in FlatMap(xs, f) <==> exists k | 0 <= k < |xs| :: y in f(xs[k])
  {
    if |xs| > 0 {
      FlatMapMembers(xs[1..], f, y);
      assert forall k | 1 <= k < |xs| :: xs[1..][k - 1] == xs[k];
      if exists k | 0 <= k < |xs| :: y in f(xs[k]) {
        var k :| 0 <= k < |xs| && y in f(xs[k]);
        if k > 0 {
          assert y in f(xs[1..][k - 1]);
        }
      }
    }
  }

  /** Sum of the quantities `q` assigns to the elements. */
  function Sum<T>(xs: seq<T>, q: T -> int): int {
    if |xs| == 0 then 0 else q(xs[0]) + Sum(xs[1..], q)
  }

  lemma {:induction false} SumConcat<T>(xs: seq<T>, ys: seq<T>, q: T -> int)
    ensures Sum(xs + ys, q) == Sum(xs, q) + Sum(ys, q)
  {
    if |xs| > 0 {
      assert (xs + ys)[1..] == xs[1..] + ys;
      SumConcat(xs[1..], ys, q);
    } else {
      assert xs + ys == ys;
    }
  }
}
