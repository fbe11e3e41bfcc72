/**
 * The left join of pandas, `left.merge(right, how='left', left_on=..., right_on=...)`,
 * on sequences of records.
 *
 * A left row whose key matches k > 0 right rows yields k output rows, one per match,
 * in the order of `right`; a left row without a match yields one row whose right-hand
 * side is null (`None`). Blocks follow the order of `left`.
 */
module Merge {
  import opened Wrappers

  /** The rows of `right` whose key equals the key of `l`, in the order of `right`. */
  function Matches<L, R, K(==)>(l: L, right: seq<R>, lk: L -> K, rk: R -> K): (m: seq<R>)
    ensures |m| <= |right|
    ensures forall r :: r in m ==> r in right && rk(r) == lk(l)
    ensures forall r :: r in right && rk(r) == lk(l) ==> r in m
    ensures m == [] <==> forall r :: r in right ==> rk(r) != lk(l)
  {
    if right == [] then []
    else if rk(right[0]) == lk(l) then [right[0]] + Matches(l, right[1..], lk, rk)
    else Matches(l, right[1..], lk, rk)
  }

  /** A single right row is a match exactly when its key equals the key of `l`. */
  lemma MatchesSingle<L, R, K>(l: L, r: R, lk: L -> K, rk: R -> K)
    ensures Matches(l, [r], lk, rk) == if rk(r) == lk(l) then [r] else []
  {
    assert [r][1..] == [];
  }

  /**
   * Matching works piece by piece over `right`. With `MatchesSingle` this fixes `Matches` on every
   * input: each matching right row appears once per occurrence in `right`, in the order of `right`.
   */
  lemma {:induction false} MatchesAppend<L, R, K>(l: L, a: seq<R>, b: seq<R>, lk: L -> K, rk: R -> K)
    ensures Matches(l, a + b, lk, rk) == Matches(l, a, lk, rk) + Matches(l, b, lk, rk)
  {
    if a == [] {
      assert a + b == b;
    } else {
      assert (a + b)[0] == a[0];
      assert (a + b)[1..] == a[1..] + b;
      MatchesAppend(l, a[1..], b, lk, rk);
    }
  }

  /** The left row `l` paired with each of `matched`, in order. */
  function Paired<L, R>(l: L, matched: seq<R>): (p: seq<(L, Option<R>)>)
    ensures |p| == |matched|
    ensures forall i :: 0 <= i < |p| ==> p[i] == (l, Some(matched[i]))
  {
    if matched == [] then [] else [(l, Some(matched[0]))] + Paired(l, matched[1..])
  }

  /** One output row per match, or a single row with a null right side when there is none. */
  function Block<L, R>(l: L, matched: seq<R>): seq<(L, Option<R>)>
  {
    if matched == [] then [(l, None)] else Paired(l, matched)
  }

  function LeftJoin<L, R, K(==)>(left: seq<L>, right: seq<R>, lk: L -> K, rk: R -> K): seq<(L, Option<R>)>
  {
    if left == [] then []
    else Block(left[0], Matches(left[0], right, lk, rk)) + LeftJoin(left[1..], right, lk, rk)
  }

  /** How many output rows the left row `l` contributes: max(1, number of matching right rows). */
  function FanOut<L, R, K(==)>(l: L, right: seq<R>, lk: L -> K, rk: R -> K): (n: nat)
    ensures n >= 1
  {
    var k := |Matches(l, right, lk, rk)|;
    if k == 0 then 1 else k
  }

  function TotalFanOut<L, R, K(==)>(left: seq<L>, right: seq<R>, lk: L -> K, rk: R -> K): nat
  {
    if left == [] then 0 else FanOut(left[0], right, lk, rk) + TotalFanOut(left[1..], right, lk, rk)
  }

  /** The left join has one row per match of each left row, and one row for each unmatched left row. */
  lemma {:induction false} LeftJoinLength<L, R, K>(left: seq<L>, right: seq<R>, lk: L -> K, rk: R -> K)
    ensures |LeftJoin(left, right, lk, rk)| == TotalFanOut(left, right, lk, rk)
    ensures |LeftJoin(left, right, lk, rk)| >= |left|
  {
    if left != [] {
      LeftJoinLength(left[1..], right, lk, rk);
    }
  }

  /**
   * The join distributes over concatenation of the left side: the output is the
   * blocks of the left rows, in the order of the left rows.
   */
  lemma {:induction false} LeftJoinAppend<L, R, K>(a: seq<L>, b: seq<L>, right: seq<R>, lk: L -> K, rk: R -> K)
    ensures LeftJoin(a + b, right, lk, rk) == LeftJoin(a, right, lk, rk) + LeftJoin(b, right, lk, rk)
  {
    if a == [] {
      assert a + b == b;
    } else {
      assert (a + b)[0] == a[0];
      assert (a + b)[1..] == a[1..] + b;
      LeftJoinAppend(a[1..], b, right, lk, rk);
    }
  }

  /** The block of a single left row: all its rows carry that row, and there are max(1, k) of them. */
  lemma LeftJoinSingle<L, R, K>(l: L, right: seq<R>, lk: L -> K, rk: R -> K)
    ensures var out := LeftJoin([l], right, lk, rk);
      && |out| == FanOut(l, right, lk, rk)
      && (forall i :: 0 <= i < |out| ==> out[i].0 == l)
      && (Matches(l, right, lk, rk) == [] <==> out == [(l, None)])
  {
    var m := Matches(l, right, lk, rk);
    assert [l][1..] == [];
    assert LeftJoin([l], right, lk, rk) == Block(l, m) + LeftJoin([], right, lk, rk);
    if m != [] {
      assert Block(l, m)[0] == (l, Some(m[0]));
    }
  }

  /**
   * Soundness: every output row carries a left row; a non-null right side is a right row
   * with the same key; a null right side means no right row has that key.
   */
  lemma {:induction false} LeftJoinSound<L, R, K>(left: seq<L>, right: seq<R>, lk: L -> K, rk: R -> K)
    ensures forall row :: row in LeftJoin(left, right, lk, rk) ==>
      && row.0 in left
      && (row.1.Some? ==> row.1.value in right && rk(row.1.value) == lk(row.0))
      && (row.1.None? ==> forall r :: r in right ==> rk(r) != lk(row.0))
  {
    if left != [] {
      LeftJoinSound(left[1..], right, lk, rk);
      var m := Matches(left[0], right, lk, rk);
      var b := Block(left[0], m);
      forall row | row in b
        ensures row.1.Some? ==> row.1.value in right && rk(row.1.value) == lk(row.0)
        ensures row.1.None? ==> forall r :: r in right ==> rk(r) != lk(row.0)
      {
        var i :| 0 <= i < |b| && b[i] == row;
      }
    }
  }

  /**
   * Completeness: every pair of a left row and a right row with equal keys is in the output,
   * and every left row without a match is in the output with a null right side.
   */
  lemma {:induction false} LeftJoinComplete<L, R, K>(left: seq<L>, right: seq<R>, lk: L -> K, rk: R -> K)
    ensures forall l, r :: l in left && r in right && rk(r) == lk(l) ==> (l, Some(r)) in LeftJoin(left, right, lk, rk)
    ensures forall l :: l in left && (forall r :: r in right ==> rk(r) != lk(l)) ==> (l, None) in LeftJoin(left, right, lk, rk)
  {
    if left != [] {
      LeftJoinComplete(left[1..], right, lk, rk);
      var out := LeftJoin(left, right, lk, rk);
      var m := Matches(left[0], right, lk, rk);
      var b := Block(left[0], m);
      assert out == b + LeftJoin(left[1..], right, lk, rk);
      forall r | r in right && rk(r) == lk(left[0])
        ensures (left[0], Some(r)) in out
      {
        var i :| 0 <= i < |m| && m[i] == r;
        assert b[i] == (left[0], Some(r));
      }
      if forall r :: r in right ==> rk(r) != lk(left[0]) {
        assert b[0] == (left[0], None);
      }
    }
  }
}
