/** Dense two-dimensional grids of scores and the sums taken over them. */
module Grids {

  /** A dense matrix stored row by row. */
  type Grid<T> = seq<seq<T>>

  predicate IsGrid<T>(m: Grid<T>, rows: nat, cols: nat) {
    |m| == rows && forall i :: 0 <= i < rows ==> |m[i]| == cols
  }

  predicate IsSquare<T>(m: Grid<T>) {
    IsGrid(m, |m|, |m|)
  }

  predicate SameShape(e: Grid<real>, p: Grid<real>) {
    |e| == |p| && forall i :: 0 <= i < |e| ==> |e[i]| == |p[i]|
  }

  function Sum(s: seq<real>): real {
    if s == [] then 0.0 else s[0] + Sum(s[1..])
  }

  /** Column `b` of `m`, read top to bottom. */
  function Column(m: Grid<real>, b: int): (c: seq<real>)
    requires IsSquare(m) && 0 <= b < |m|
    ensures |c| == |m| && forall i :: 0 <= i < |m| ==> c[i] == m[i][b]
  {
    seq(|m|, i requires 0 <= i < |m| => m[i][b])
  }

  function Dot(e: seq<real>, p: seq<real>): real
    requires |e| == |p|
  {
    if e == [] then 0.0 else e[0] * p[0] + Dot(e[1..], p[1..])
  }

  /** Sum over every cell of the elementwise product of two equally shaped grids. */
  function Score(e: Grid<real>, p: Grid<real>): real
    requires SameShape(e, p)
  {
    if e == [] then 0.0 else Dot(e[0], p[0]) + Score(e[1..], p[1..])
  }

  /** A sum is additive in its terms. */
  lemma {:induction false} SumSplit(s: seq<real>, t: seq<real>, u: seq<real>)
    requires |s| == |t| == |u|
    requires forall k :: 0 <= k < |s| ==> s[k] == t[k] + u[k]
    ensures Sum(s) == Sum(t) + Sum(u)
  {
    if s != [] {
      SumSplit(s[1..], t[1..], u[1..]);
    }
  }

  /** A row that is 1 at position `x` and 0 elsewhere sums to 1, or to 0 when `x` is off the row. */
  lemma {:induction false} SumIndicator(s: seq<real>, x: int)
    requires forall k :: 0 <= k < |s| ==> s[k] == if k == x then 1.0 else 0.0
    ensures Sum(s) == if 0 <= x < |s| then 1.0 else 0.0
  {
    if s != [] {
      SumIndicator(s[1..], x - 1);
    }
  }

  lemma {:induction false} DotSplit(e: seq<real>, f: seq<real>, g: seq<real>, p: seq<real>)
    requires |e| == |f| == |g| == |p|
    requires forall k :: 0 <= k < |e| ==> e[k] == f[k] + g[k]
    ensures Dot(e, p) == Dot(f, p) + Dot(g, p)
  {
    if e != [] {
      DotSplit(e[1..], f[1..], g[1..], p[1..]);
      assert e[0] * p[0] == f[0] * p[0] + g[0] * p[0];
    }
  }

  lemma {:induction false} DotIndicator(e: seq<real>, p: seq<real>, x: int)
    requires |e| == |p|
    requires forall k :: 0 <= k < |e| ==> e[k] == if k == x then 1.0 else 0.0
    ensures Dot(e, p) == if 0 <= x < |e| then p[x] else 0.0
  {
    if e != [] {
      DotIndicator(e[1..], p[1..], x - 1);
    }
  }

  /** The score is additive in the event grid. */
  lemma {:induction false} ScoreSplit(e: Grid<real>, f: Grid<real>, g: Grid<real>, p: Grid<real>)
    requires SameShape(e, p) && SameShape(f, p) && SameShape(g, p)
    requires forall i, j :: 0 <= i < |e| && 0 <= j < |e[i]| ==> e[i][j] == f[i][j] + g[i][j]
    ensures Score(e, p) == Score(f, p) + Score(g, p)
  {
    if e != [] {
      DotSplit(e[0], f[0], g[0], p[0]);
      ScoreSplit(e[1..], f[1..], g[1..], p[1..]);
    }
  }

  /** Scoring the grid that marks the single cell `(x, y)` reads that cell's potential. */
  lemma {:induction false} ScoreUnit(e: Grid<real>, p: Grid<real>, x: int, y: int)
    requires SameShape(e, p)
    requires forall i, j :: 0 <= i < |e| && 0 <= j < |e[i]| ==> e[i][j] == if i == x && j == y then 1.0 else 0.0
    ensures Score(e, p) == if 0 <= x < |e| && 0 <= y < |e[x]| then p[x][y] else 0.0
  {
    if e != [] {
      DotIndicator(e[0], p[0], if x == 0 then y else -1);
      ScoreUnit(e[1..], p[1..], x - 1, y);
    }
  }
}
