/**
 * The indicator grid built from the index vectors of an assignment
 * (`_numpy_non_monotone_align`), and the same grid restricted to the
 * valid `len x len` block (the final `alignments * mask`).
 */
module Assignments {
  import opened Grids

  /** Index vectors of an assignment: pair `k` matches row `rows[k]` with column `cols[k]`. */
  datatype Pairing = Pairing(rows: seq<int>, cols: seq<int>)

  /** The solver's signature `(n, n) -> (n), (n)` gives both vectors the same length. */
  type Assignment = p: Pairing | |p.rows| == |p.cols| witness Pairing([], [])

  /** Number of pairs among the first `upTo` that match row `a` with column `b`. */
  function Hits(p: Assignment, a: int, b: int, upTo: nat): nat
    requires upTo <= |p.rows|
  {
    if upTo == 0 then 0
    else Hits(p, a, b, upTo - 1) + (if p.rows[upTo - 1] == a && p.cols[upTo - 1] == b then 1 else 0)
  }

  /** The sum, over the first `upTo` pairs, of the outer product of their one-hot rows. */
  function OneHotUpTo(n: nat, p: Assignment, upTo: nat): (m: Grid<real>)
    requires upTo <= |p.rows|
    ensures IsGrid(m, n, n)
    ensures forall a, b :: 0 <= a < n && 0 <= b < n ==> m[a][b] == Hits(p, a, b, upTo) as real
  {
    seq(n, a => seq(n, b => Hits(p, a, b, upTo) as real))
  }

  /** The `n x n` grid summing, over all pairs, the outer product of their one-hot rows. */
  function OneHot(n: nat, p: Assignment): (m: Grid<real>)
    ensures IsGrid(m, n, n)
  {
    OneHotUpTo(n, p, |p.rows|)
  }

  /** Index `x` lies in the valid block: on the grid and below the length. */
  predicate InBlock(x: int, n: nat, len: int) {
    0 <= x < n && x < len
  }

  /** `m` multiplied cell by cell with the 0/1 mask of the valid `len x len` block. */
  function KeepBlock(m: Grid<real>, len: int): (r: Grid<real>)
    requires IsSquare(m)
    ensures IsGrid(r, |m|, |m|)
    ensures forall a, b :: 0 <= a < |m| && 0 <= b < |m| ==>
      r[a][b] == if a < len && b < len then m[a][b] else 0.0
  {
    seq(|m|, a requires 0 <= a < |m| =>
      seq(|m|, b requires 0 <= b < |m| => if a < len && b < len then m[a][b] else 0.0))
  }

  /** Number of pairs among the first `upTo` that match row `a` to a column, both inside the block. */
  function RowHits(p: Assignment, n: nat, len: int, a: int, upTo: nat): nat
    requires upTo <= |p.rows|
  {
    if upTo == 0 then 0
    else
      var hit := p.rows[upTo - 1] == a && InBlock(a, n, len) && InBlock(p.cols[upTo - 1], n, len);
      RowHits(p, n, len, a, upTo - 1) + (if hit then 1 else 0)
  }

  /** Number of pairs among the first `upTo` that match a row to column `b`, both inside the block. */
  function ColumnHits(p: Assignment, n: nat, len: int, b: int, upTo: nat): nat
    requires upTo <= |p.rows|
  {
    if upTo == 0 then 0
    else
      var hit := p.cols[upTo - 1] == b && InBlock(b, n, len) && InBlock(p.rows[upTo - 1], n, len);
      ColumnHits(p, n, len, b, upTo - 1) + (if hit then 1 else 0)
  }

  /** Sum of the potentials of the first `upTo` pairs whose row and column both lie in the block. */
  function BlockTotal(p: Assignment, n: nat, len: int, pot: Grid<real>, upTo: nat): real
    requires IsGrid(pot, n, n) && upTo <= |p.rows|
  {
    if upTo == 0 then 0.0
    else
      var a, b := p.rows[upTo - 1], p.cols[upTo - 1];
      BlockTotal(p, n, len, pot, upTo - 1) + (if InBlock(a, n, len) && InBlock(b, n, len) then pot[a][b] else 0.0)
  }

  /** Number of positions among the first `upTo` of `s` that hold `x`. */
  function CountOf(s: seq<int>, x: int, upTo: nat): nat
    requires upTo <= |s|
  {
    if upTo == 0 then 0 else CountOf(s, x, upTo - 1) + (if s[upTo - 1] == x then 1 else 0)
  }

  predicate Distinct(s: seq<int>) {
    forall k, l :: 0 <= k < l < |s| ==> s[k] != s[l]
  }

  /** `s` lists every index `0 .. n-1` exactly once. */
  predicate IsPermutation(s: seq<int>, n: nat) {
    && |s| == n
    && (forall k :: 0 <= k < n ==> 0 <= s[k] < n)
    && Distinct(s)
    && (forall x :: 0 <= x < n ==> x in s)
  }

  /** The pairs match the rows `0 .. n-1` one to one with the columns `0 .. n-1`. */
  predicate Bijection(p: Assignment, n: nat) {
    IsPermutation(p.rows, n) && IsPermutation(p.cols, n)
  }

  /** Every pair has its row in the block exactly when it has its column in the block. */
  predicate PairsRespectBlock(p: Assignment, n: nat, len: int) {
    forall k :: 0 <= k < |p.rows| ==> (InBlock(p.rows[k], n, len) <==> InBlock(p.cols[k], n, len))
  }

  /** Row `a` of the block-restricted indicator grid sums to the number of block pairs in that row. */
  lemma {:induction false} BlockRowSum(n: nat, len: int, p: Assignment, a: int, upTo: nat)
    requires upTo <= |p.rows| && 0 <= a < n
    ensures Sum(KeepBlock(OneHotUpTo(n, p, upTo), len)[a]) == RowHits(p, n, len, a, upTo) as real
  {
    var cur := KeepBlock(OneHotUpTo(n, p, upTo), len)[a];
    if upTo == 0 {
      SumIndicator(cur, -1);
    } else {
      var k := upTo - 1;
      var prev := KeepBlock(OneHotUpTo(n, p, k), len)[a];
      var x := if p.rows[k] == a && InBlock(a, n, len) && InBlock(p.cols[k], n, len) then p.cols[k] else -1;
      var unit := seq(n, b => if b == x then 1.0 else 0.0);
      forall b | 0 <= b < n
        ensures cur[b] == prev[b] + unit[b]
      {
        assert Hits(p, a, b, upTo) == Hits(p, a, b, k) + (if p.rows[k] == a && p.cols[k] == b then 1 else 0);
      }
      SumSplit(cur, prev, unit);
      SumIndicator(unit, x);
      BlockRowSum(n, len, p, a, k);
    }
  }

  /** Column `b` of the block-restricted indicator grid sums to the number of block pairs in that column. */
  lemma {:induction false} BlockColumnSum(n: nat, len: int, p: Assignment, b: int, upTo: nat)
    requires upTo <= |p.rows| && 0 <= b < n
    ensures Sum(Column(KeepBlock(OneHotUpTo(n, p, upTo), len), b)) == ColumnHits(p, n, len, b, upTo) as real
  {
    var cur := Column(KeepBlock(OneHotUpTo(n, p, upTo), len), b);
    if upTo == 0 {
      SumIndicator(cur, -1);
    } else {
      var k := upTo - 1;
      var prev := Column(KeepBlock(OneHotUpTo(n, p, k), len), b);
      var x := if p.cols[k] == b && InBlock(b, n, len) && InBlock(p.rows[k], n, len) then p.rows[k] else -1;
      var unit := seq(n, a => if a == x then 1.0 else 0.0);
      forall a | 0 <= a < n
        ensures cur[a] == prev[a] + unit[a]
      {
        assert Hits(p, a, b, upTo) == Hits(p, a, b, k) + (if p.rows[k] == a && p.cols[k] == b then 1 else 0);
      }
      SumSplit(cur, prev, unit);
      SumIndicator(unit, x);
      BlockColumnSum(n, len, p, b, k);
    }
  }

  /** Scoring the block-restricted indicator grid adds up the potentials of the block pairs. */
  lemma {:induction false} BlockScore(n: nat, len: int, p: Assignment, pot: Grid<real>, upTo: nat)
    requires IsGrid(pot, n, n) && upTo <= |p.rows|
    ensures SameShape(KeepBlock(OneHotUpTo(n, p, upTo), len), pot)
    ensures Score(KeepBlock(OneHotUpTo(n, p, upTo), len), pot) == BlockTotal(p, n, len, pot, upTo)
  {
    var cur := KeepBlock(OneHotUpTo(n, p, upTo), len);
    if upTo == 0 {
      ScoreUnit(cur, pot, -1, -1);
    } else {
      var k := upTo - 1;
      var prev := KeepBlock(OneHotUpTo(n, p, k), len);
      var inside := InBlock(p.rows[k], n, len) && InBlock(p.cols[k], n, len);
      var x, y := if inside then p.rows[k] else -1, if inside then p.cols[k] else -1;
      var unit := seq(n, i => seq(n, j => if i == x && j == y then 1.0 else 0.0));
      forall i, j | 0 <= i < n && 0 <= j < n
        ensures cur[i][j] == prev[i][j] + unit[i][j]
      {
        assert Hits(p, i, j, upTo) == Hits(p, i, j, k) + (if p.rows[k] == i && p.cols[k] == j then 1 else 0);
      }
      ScoreSplit(cur, prev, unit, pot);
      ScoreUnit(unit, pot, x, y);
      BlockScore(n, len, p, pot, k);
    }
  }

  /** With distinct rows, a cell counts 1 exactly when some pair names it, and 0 otherwise. */
  lemma {:induction false} HitsOfDistinctRows(p: Assignment, a: int, b: int, upTo: nat)
    requires upTo <= |p.rows| && Distinct(p.rows)
    ensures Hits(p, a, b, upTo) == if exists k :: 0 <= k < upTo && p.rows[k] == a && p.cols[k] == b then 1 else 0
  {
    if upTo > 0 {
      HitsOfDistinctRows(p, a, b, upTo - 1);
    }
  }

  /** In a sequence of distinct values, `x` occurs once if present and never otherwise. */
  lemma {:induction false} CountOfDistinct(s: seq<int>, x: int, upTo: nat)
    requires upTo <= |s| && Distinct(s)
    ensures CountOf(s, x, upTo) == if x in s[..upTo] then 1 else 0
  {
    if upTo > 0 {
      CountOfDistinct(s, x, upTo - 1);
      assert s[..upTo] == s[..upTo - 1] + [s[upTo - 1]];
    }
  }

  /** With pairs respecting the block, the block pairs of row `a` are all pairs naming row `a`. */
  lemma {:induction false} RowHitsCountRow(p: Assignment, n: nat, len: int, a: int, upTo: nat)
    requires upTo <= |p.rows| && PairsRespectBlock(p, n, len)
    ensures RowHits(p, n, len, a, upTo) == if InBlock(a, n, len) then CountOf(p.rows, a, upTo) else 0
  {
    if upTo > 0 {
      RowHitsCountRow(p, n, len, a, upTo - 1);
    }
  }

  /** With pairs respecting the block, the block pairs of column `b` are all pairs naming column `b`. */
  lemma {:induction false} ColumnHitsCountColumn(p: Assignment, n: nat, len: int, b: int, upTo: nat)
    requires upTo <= |p.rows| && PairsRespectBlock(p, n, len)
    ensures ColumnHits(p, n, len, b, upTo) == if InBlock(b, n, len) then CountOf(p.cols, b, upTo) else 0
  {
    if upTo > 0 {
      ColumnHitsCountColumn(p, n, len, b, upTo - 1);
    }
  }

  /**
   * A bijection whose pairs stay inside or outside the block together gives, once restricted to
   * the block, a 0/1 grid in which each valid row and each valid column holds exactly one 1 and
   * each padded row and padded column holds none.
   */
  lemma BlockPermutation(n: nat, len: int, p: Assignment)
    requires Bijection(p, n) && PairsRespectBlock(p, n, len)
    ensures forall a, b :: 0 <= a < n && 0 <= b < n ==>
      KeepBlock(OneHot(n, p), len)[a][b] == 0.0 || KeepBlock(OneHot(n, p), len)[a][b] == 1.0
    ensures forall a :: 0 <= a < n ==> Sum(KeepBlock(OneHot(n, p), len)[a]) == if a < len then 1.0 else 0.0
    ensures forall b :: 0 <= b < n ==> Sum(Column(KeepBlock(OneHot(n, p), len), b)) == if b < len then 1.0 else 0.0
  {
    var m := KeepBlock(OneHot(n, p), len);
    forall a, b | 0 <= a < n && 0 <= b < n
      ensures m[a][b] == 0.0 || m[a][b] == 1.0
    {
      HitsOfDistinctRows(p, a, b, n);
    }
    forall a | 0 <= a < n
      ensures Sum(m[a]) == if a < len then 1.0 else 0.0
    {
      BlockRowSum(n, len, p, a, n);
      RowHitsCountRow(p, n, len, a, n);
      CountOfDistinct(p.rows, a, n);
      assert p.rows[..n] == p.rows;
    }
    forall b | 0 <= b < n
      ensures Sum(Column(m, b)) == if b < len then 1.0 else 0.0
    {
      BlockColumnSum(n, len, p, b, n);
      ColumnHitsCountColumn(p, n, len, b, n);
      CountOfDistinct(p.cols, b, n);
      assert p.cols[..n] == p.cols;
    }
  }

  /** With distinct row indices, the indicator grid is 1 exactly at the cells some pair names. */
  lemma OneHotMarksPairs(n: nat, p: Assignment)
    requires Distinct(p.rows)
    ensures forall a, b :: 0 <= a < n && 0 <= b < n ==>
      OneHot(n, p)[a][b] == if exists k :: 0 <= k < |p.rows| && p.rows[k] == a && p.cols[k] == b then 1.0 else 0.0
  {
    forall a, b | 0 <= a < n && 0 <= b < n
      ensures OneHot(n, p)[a][b] == if exists k :: 0 <= k < |p.rows| && p.rows[k] == a && p.cols[k] == b then 1.0 else 0.0
    {
      HitsOfDistinctRows(p, a, b, |p.rows|);
    }
  }

  /** The indicator grid of a bijection is a permutation matrix: every row and column sums to 1. */
  lemma OneHotOfBijection(n: nat, p: Assignment)
    requires Bijection(p, n)
    ensures forall a, b :: 0 <= a < n && 0 <= b < n ==> OneHot(n, p)[a][b] == 0.0 || OneHot(n, p)[a][b] == 1.0
    ensures forall a :: 0 <= a < n ==> Sum(OneHot(n, p)[a]) == 1.0
    ensures forall b :: 0 <= b < n ==> Sum(Column(OneHot(n, p), b)) == 1.0
  {
    var m := OneHot(n, p);
    forall a | 0 <= a < n
      ensures KeepBlock(m, n)[a] == m[a]
    {
      assert forall b :: 0 <= b < n ==> KeepBlock(m, n)[a][b] == m[a][b];
    }
    assert KeepBlock(m, n) == m;
    BlockPermutation(n, n, p);
  }
}
