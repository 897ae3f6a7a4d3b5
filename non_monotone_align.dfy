/**
 * The non-monotone one-to-one argmax (`_jax_non_monotone_align_callback`):
 * the potentials are masked by the length, handed to an assignment solver,
 * and the solver's assignment is turned into an indicator grid restricted
 * to the valid block. Its custom gradient is identically zero.
 */
module NonMonotoneAlign {
  import opened Grids
  import opened Assignments

  /** A potential extended with the two infinities the masking writes. */
  datatype Ext = NegInf | Finite(value: real) | PosInf

  /** Step one of the masking: cells outside the `len x len` block become `-INF`. */
  function MaskOutsideBlock(pot: Grid<real>, len: int): (m: Grid<Ext>)
    requires IsSquare(pot)
    ensures IsGrid(m, |pot|, |pot|)
    ensures forall a, b :: 0 <= a < |pot| && 0 <= b < |pot| ==>
      (m[a][b] == Finite(pot[a][b]) <==> a < len && b < len)
    ensures forall a, b :: 0 <= a < |pot| && 0 <= b < |pot| && !(a < len && b < len) ==> m[a][b] == NegInf
  {
    seq(|pot|, a requires 0 <= a < |pot| =>
      seq(|pot|, b requires 0 <= b < |pot| => if a < len && b < len then Finite(pot[a][b]) else NegInf))
  }

  /** Step two of the masking: each padded diagonal cell `(k, k)`, `k >= len`, becomes `+INF`. */
  function PinPaddedDiagonal(m: Grid<Ext>, len: int): (r: Grid<Ext>)
    requires IsSquare(m)
    ensures IsGrid(r, |m|, |m|)
    ensures forall k :: 0 <= k < |m| && k >= len ==> r[k][k] == PosInf
    ensures forall a, b :: 0 <= a < |m| && 0 <= b < |m| && !(a == b && b >= len) ==> r[a][b] == m[a][b]
  {
    seq(|m|, a requires 0 <= a < |m| =>
      seq(|m|, b requires 0 <= b < |m| => if a == b && b >= len then PosInf else m[a][b]))
  }

  /** The grid handed to the assignment solver. */
  function SolverInput(pot: Grid<real>, len: int): (m: Grid<Ext>)
    requires IsSquare(pot)
    ensures IsGrid(m, |pot|, |pot|)
  {
    PinPaddedDiagonal(MaskOutsideBlock(pot, len), len)
  }

  /** Every pair of `p` names a cell of the square grid `m` that is not `-INF`. */
  predicate AvoidsNegInf(p: Assignment, m: Grid<Ext>)
    requires IsSquare(m)
  {
    forall k :: 0 <= k < |p.rows| ==>
      0 <= p.rows[k] < |m| && 0 <= p.cols[k] < |m| && m[p.rows[k]][p.cols[k]] != NegInf
  }

  /** The assignment that matches every row with the column of the same index. */
  function Identity(n: nat): (p: Assignment)
    ensures |p.rows| == n
  {
    Pairing(seq(n, k => k), seq(n, k => k))
  }

  /**
   * The solver's grid keeps the valid block, is `+INF` on the padded diagonal and `-INF` elsewhere:
   * a padded row or column has exactly one usable cell, its own diagonal cell.
   */
  lemma SolverInputCells(pot: Grid<real>, len: int)
    requires IsSquare(pot)
    ensures forall a, b :: 0 <= a < |pot| && 0 <= b < |pot| ==>
      SolverInput(pot, len)[a][b] ==
        if a < len && b < len then Finite(pot[a][b])
        else if a == b then PosInf
        else NegInf
    ensures forall a, b :: 0 <= a < |pot| && 0 <= b < |pot| && (a >= len || b >= len) ==>
      (SolverInput(pot, len)[a][b] != NegInf <==> a == b)
  {
  }

  /**
   * An assignment that uses no `-INF` cell of the solver's grid matches every padded row with itself,
   * so its pairs lie inside the block or outside it together.
   */
  lemma {:induction false} FeasiblePairsRespectBlock(pot: Grid<real>, len: int, p: Assignment)
    requires IsSquare(pot) && AvoidsNegInf(p, SolverInput(pot, len))
    ensures forall k :: 0 <= k < |p.rows| && p.rows[k] >= len ==> p.cols[k] == p.rows[k]
    ensures PairsRespectBlock(p, |pot|, len)
  {
  }

  /** Whatever the length, the identity is a bijection that avoids every `-INF` cell. */
  lemma IdentityIsFeasible(pot: Grid<real>, len: int)
    requires IsSquare(pot)
    ensures Bijection(Identity(|pot|), |pot|)
    ensures AvoidsNegInf(Identity(|pot|), SolverInput(pot, len))
  {
    var n := |pot|;
    var s := seq(n, k => k);
    forall x | 0 <= x < n
      ensures x in s
    {
      assert s[x] == x;
    }
    SolverInputCells(pot, len);
  }

  /**
   * The argmax alignment of one instance. `solve` stands for the external assignment solver,
   * of which nothing is assumed beyond its signature.
   */
  function Argmax(pot: Grid<real>, len: int, solve: Grid<Ext> -> Assignment): (r: Grid<real>)
    requires IsSquare(pot)
    ensures IsGrid(r, |pot|, |pot|)
    ensures forall a, b :: 0 <= a < |pot| && 0 <= b < |pot| && !(a < len && b < len) ==> r[a][b] == 0.0
  {
    KeepBlock(OneHot(|pot|, solve(SolverInput(pot, len))), len)
  }

  /**
   * The score of the argmax alignment is the sum of the potentials of the solver's pairs that lie
   * inside the valid block; pairs touching padding contribute nothing.
   */
  lemma ArgmaxScore(pot: Grid<real>, len: int, solve: Grid<Ext> -> Assignment)
    requires IsSquare(pot)
    ensures SameShape(Argmax(pot, len, solve), pot)
    ensures var p := solve(SolverInput(pot, len));
      Score(Argmax(pot, len, solve), pot) == BlockTotal(p, |pot|, len, pot, |p.rows|)
  {
    var p := solve(SolverInput(pot, len));
    BlockScore(|pot|, len, p, pot, |p.rows|);
  }

  /**
   * When the solver returns a bijection that uses no `-INF` cell, the argmax is a permutation
   * matrix of the valid block: 0/1 cells, one 1 in each valid row and valid column, and no 1 in any
   * padded row or column.
   */
  lemma ArgmaxIsBlockPermutation(pot: Grid<real>, len: int, solve: Grid<Ext> -> Assignment)
    requires IsSquare(pot)
    requires Bijection(solve(SolverInput(pot, len)), |pot|)
    requires AvoidsNegInf(solve(SolverInput(pot, len)), SolverInput(pot, len))
    ensures forall a, b :: 0 <= a < |pot| && 0 <= b < |pot| ==>
      Argmax(pot, len, solve)[a][b] == 0.0 || Argmax(pot, len, solve)[a][b] == 1.0
    ensures forall a :: 0 <= a < |pot| ==> Sum(Argmax(pot, len, solve)[a]) == if a < len then 1.0 else 0.0
    ensures forall b :: 0 <= b < |pot| ==>
      Sum(Column(Argmax(pot, len, solve), b)) == if b < len then 1.0 else 0.0
  {
    var p := solve(SolverInput(pot, len));
    FeasiblePairsRespectBlock(pot, len, p);
    BlockPermutation(|pot|, len, p);
  }

  /**
   * The custom gradient of `Argmax` with respect to the potentials: zero for every potential.
   * The incoming `cotangent` is accepted and ignored. The lengths are integers and receive no
   * cotangent (`None`), so only the potentials' part of the gradient pair is returned here.
   */
  function ArgmaxGradient(pot: Grid<real>, cotangent: Grid<real>): (g: Grid<real>)
    requires IsSquare(pot)
    ensures IsGrid(g, |pot|, |pot|)
    ensures forall a, b :: 0 <= a < |pot| && 0 <= b < |pot| ==> g[a][b] == 0.0
  {
    seq(|pot|, a => seq(|pot|, b => 0.0))
  }
}
