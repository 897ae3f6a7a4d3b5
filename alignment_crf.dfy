/**
 * The `AlignmentCRF` distribution: construction-time validation of the
 * alignment type, lengths and potential shape, the shape accessors, and
 * the query methods. The monotone types hand every query to the general
 * monotone alignment distribution, which is recorded here only by the
 * arguments it is built from; the non-monotone one-to-one type answers
 * `argmax` and `unnormalized_log_prob` itself and refuses every other query.
 */
module AlignmentCrf {
  import opened Grids
  import opened Assignments
  import NonMonotoneAlign

  datatype Option<T> = None | Some(value: T)

  datatype Result<T, E> = Success(value: T) | Failure(error: E)

  /** Number of entries in an array of the given shape. */
  function Product(dims: seq<nat>): nat {
    if dims == [] then 1 else dims[0] * Product(dims[1..])
  }

  /** A float array of shape `batchShape + [rows, cols]`; its batch entries are listed in row-major order. */
  datatype Tensor = Tensor(batchShape: seq<nat>, rows: nat, cols: nat, entries: seq<Grid<real>>) {
    predicate Valid() {
      |entries| == Product(batchShape) && forall b :: 0 <= b < |entries| ==> IsGrid(entries[b], rows, cols)
    }

    function Shape(): seq<nat> {
      batchShape + [rows, cols]
    }
  }

  /** An integer array of the given shape, listed in row-major order. */
  datatype IntArray = IntArray(shape: seq<nat>, values: seq<int>) {
    predicate Valid() {
      |values| == Product(shape)
    }
  }

  datatype AlignmentType = MonotoneOneToMany | MonotoneManyToMany | NonMonotoneOneToOne

  /** The string literal that selects each alignment type. */
  function TypeName(t: AlignmentType): string {
    match t
    case MonotoneOneToMany => "monotone_one_to_many"
    case MonotoneManyToMany => "monotone_many_to_many"
    case NonMonotoneOneToOne => "non_monotone_one_to_one"
  }

  predicate IsTypeName(s: string) {
    s == TypeName(MonotoneOneToMany) || s == TypeName(MonotoneManyToMany) || s == TypeName(NonMonotoneOneToOne)
  }

  /** The arguments a monotone alignment type hands to the general monotone alignment distribution. */
  datatype MonotoneDelegate = GeneralMonotone(
    horizontal: (Tensor, Tensor),
    vertical: Option<Tensor>,
    lengthsRows: Option<IntArray>,
    lengthsCols: Option<IntArray>)

  /** The state of a constructed distribution; it is never changed after construction. */
  datatype AlignmentCRF = AlignmentCRF(
    logPotentials: Tensor,
    lengths: IntArray,
    dist: Option<MonotoneDelegate>,
    alignmentType: AlignmentType)
  {
    predicate Valid() {
      && logPotentials.Valid()
      && lengths.Valid()
      && lengths.shape == logPotentials.batchShape
      && (alignmentType == NonMonotoneOneToOne ==> dist.None? && logPotentials.rows == logPotentials.cols)
      && (alignmentType != NonMonotoneOneToOne ==>
            && dist.Some?
            && dist.value.horizontal == (logPotentials, logPotentials)
            && dist.value.vertical == (if alignmentType == MonotoneManyToMany then Some(logPotentials) else None))
    }
  }

  datatype ConstructionError =
    | LengthsShapeMismatch
    | UselessDistribution
    | NonMonotoneNeedsOnlyRowLengths
    | NonMonotoneNeedsSquare
    | UnknownAlignmentType(name: string)

  /** An absent length array, or one whose shape is the batch shape of the potentials. */
  predicate FitsBatch(lengths: Option<IntArray>, logPotentials: Tensor) {
    lengths.None? || lengths.value.shape == logPotentials.batchShape
  }

  /** An integer array of the given shape holding `v` everywhere. */
  function Full(shape: seq<nat>, v: int): (a: IntArray)
    ensures a.Valid() && a.shape == shape
    ensures forall b :: 0 <= b < |a.values| ==> a.values[b] == v
  {
    IntArray(shape, seq(Product(shape), _ => v))
  }

  /** The constructor `AlignmentCRF(log_potentials, lengths_rows=, lengths_cols=, alignment_type=)`. */
  function Create(
    logPotentials: Tensor,
    lengthsRows: Option<IntArray>,
    lengthsCols: Option<IntArray>,
    alignmentType: string): (r: Result<AlignmentCRF, ConstructionError>)
    requires logPotentials.Valid()
    requires lengthsRows.Some? ==> lengthsRows.value.Valid()
    requires lengthsCols.Some? ==> lengthsCols.value.Valid()
    ensures r == Failure(LengthsShapeMismatch) <==>
      !(FitsBatch(lengthsRows, logPotentials) && FitsBatch(lengthsCols, logPotentials))
    ensures r == Failure(UselessDistribution) <==>
      && FitsBatch(lengthsRows, logPotentials) && FitsBatch(lengthsCols, logPotentials)
      && alignmentType == TypeName(MonotoneOneToMany)
      && lengthsRows.None? && lengthsCols.None?
      && logPotentials.rows >= logPotentials.cols
    ensures r == Failure(NonMonotoneNeedsOnlyRowLengths) <==>
      && FitsBatch(lengthsRows, logPotentials) && FitsBatch(lengthsCols, logPotentials)
      && alignmentType == TypeName(NonMonotoneOneToOne)
      && lengthsCols.Some?
    ensures r == Failure(NonMonotoneNeedsSquare) <==>
      && FitsBatch(lengthsRows, logPotentials) && FitsBatch(lengthsCols, logPotentials)
      && alignmentType == TypeName(NonMonotoneOneToOne)
      && lengthsCols.None?
      && logPotentials.rows != logPotentials.cols
    ensures r == Failure(UnknownAlignmentType(alignmentType)) <==>
      FitsBatch(lengthsRows, logPotentials) && FitsBatch(lengthsCols, logPotentials) && !IsTypeName(alignmentType)
    ensures r.Success? <==>
      && FitsBatch(lengthsRows, logPotentials) && FitsBatch(lengthsCols, logPotentials)
      && IsTypeName(alignmentType)
      && !(alignmentType == TypeName(MonotoneOneToMany) && lengthsRows.None? && lengthsCols.None?
           && logPotentials.rows >= logPotentials.cols)
      && (alignmentType == TypeName(NonMonotoneOneToOne) ==>
            lengthsCols.None? && logPotentials.rows == logPotentials.cols)
    ensures r.Success? ==>
      && r.value.Valid()
      && r.value.logPotentials == logPotentials
      && TypeName(r.value.alignmentType) == alignmentType
      && r.value.lengths == (if lengthsRows.Some? then lengthsRows.value else Full(logPotentials.batchShape, logPotentials.cols))
    ensures r.Success? && lengthsRows.None? ==>
      && |r.value.lengths.values| == |logPotentials.entries|
      && forall b :: 0 <= b < |r.value.lengths.values| ==> r.value.lengths.values[b] == logPotentials.cols
    ensures r.Success? && r.value.dist.Some? ==>
      r.value.dist.value.lengthsRows == lengthsRows && r.value.dist.value.lengthsCols == lengthsCols
  {
    if !FitsBatch(lengthsRows, logPotentials) || !FitsBatch(lengthsCols, logPotentials) then
      Failure(LengthsShapeMismatch)
    else if lengthsCols.None? && lengthsRows.None? && alignmentType == TypeName(MonotoneOneToMany)
      && logPotentials.rows >= logPotentials.cols then
      Failure(UselessDistribution)
    else
      var lengths := if lengthsRows.Some? then lengthsRows.value
                     else Full(logPotentials.batchShape, logPotentials.cols);
      if alignmentType == TypeName(MonotoneOneToMany) then
        var dist := GeneralMonotone((logPotentials, logPotentials), None, lengthsRows, lengthsCols);
        Success(AlignmentCRF(logPotentials, lengths, Some(dist), MonotoneOneToMany))
      else if alignmentType == TypeName(MonotoneManyToMany) then
        var dist := GeneralMonotone((logPotentials, logPotentials), Some(logPotentials), lengthsRows, lengthsCols);
        Success(AlignmentCRF(logPotentials, lengths, Some(dist), MonotoneManyToMany))
      else if alignmentType == TypeName(NonMonotoneOneToOne) then
        if lengthsCols.Some? then Failure(NonMonotoneNeedsOnlyRowLengths)
        else if logPotentials.rows != logPotentials.cols then Failure(NonMonotoneNeedsSquare)
        else Success(AlignmentCRF(logPotentials, lengths, None, NonMonotoneOneToOne))
      else
        Failure(UnknownAlignmentType(alignmentType))
  }

  /** `event_shape`: the last two dimensions of the potentials. */
  function EventShape(d: AlignmentCRF): (s: seq<nat>)
    ensures s == [d.logPotentials.rows, d.logPotentials.cols]
    ensures d.logPotentials.Shape() == BatchShape(d) + s
  {
    var shape := d.logPotentials.Shape();
    shape[|shape| - 2..]
  }

  /** `batch_shape`: every dimension of the potentials but the last two. */
  function BatchShape(d: AlignmentCRF): (s: seq<nat>)
    ensures s == d.logPotentials.batchShape
    ensures |s| == |d.logPotentials.Shape()| - 2
  {
    var shape := d.logPotentials.Shape();
    shape[..|shape| - 2]
  }

  /** The query methods of the distribution; `UnnormalizedLogProb` carries its event. */
  datatype Query =
    | Sample
    | NormalizeLogProbs
    | LogProb
    | UnnormalizedLogProb(event: Tensor)
    | LogPartition
    | MarginalsForTemplateVariables
    | Marginals
    | Argmax
    | TopK
    | Entropy
    | CrossEntropy
    | KlDivergence

  /**
   * What a query yields: the error it raises, a hand-over to the monotone delegate (whose answer
   * is not modelled), a score per batch entry, a batch of alignments, or a shape error of the event.
   */
  datatype Answer =
    | NotImplemented(message: string)
    | Delegated(query: Query)
    | Scores(values: seq<real>)
    | Alignments(events: Tensor)
    | EventShapeMismatch

  /** The message of the error a non-monotone distribution raises for a query it cannot answer. */
  function UnsupportedMessage(q: Query): string
    requires !q.Argmax? && !q.UnnormalizedLogProb?
  {
    match q
    case Sample =>
      "Non-monotone distribution doesn't support sampling.\n"
      + "Instead, you can try perturb-and-map by injecting the noise."
    case NormalizeLogProbs => "Non-monotone distribution doesn't support normalization."
    case LogProb => "Non-monotone alignment doesn't support normalized log-probs."
    case LogPartition => "Non-monotone alignment doesn't support log-partition."
    case MarginalsForTemplateVariables => "Non-monotone alignment doesn't support marginals."
    case Marginals => "Non-monotone alignment doesn't support marginals."
    case TopK => "Non-monotone alignment doesn't support top-k."
    case Entropy => "Non-monotone alignment doesn't support entropy."
    case CrossEntropy => "Non-monotone alignment doesn't support cross-entropy."
    case KlDivergence => "Non-monotone alignment doesn't support KL divergence."
  }

  /** Two arrays with the same batch shape and the same last two dimensions. */
  predicate SameDims(t: Tensor, u: Tensor) {
    t.batchShape == u.batchShape && t.rows == u.rows && t.cols == u.cols
  }

  /** Two arrays have the same shape exactly when they agree on the batch shape and the last two dimensions. */
  lemma SameShapeIsSameDims(t: Tensor, u: Tensor)
    ensures t.Shape() == u.Shape() <==> SameDims(t, u)
  {
    if t.Shape() == u.Shape() {
      var k := |t.batchShape|;
      assert |u.batchShape| == k;
      assert t.batchShape == t.Shape()[..k] && u.batchShape == u.Shape()[..k];
      assert t.rows == t.Shape()[k] && u.rows == u.Shape()[k];
      assert t.cols == t.Shape()[k + 1] && u.cols == u.Shape()[k + 1];
    }
  }

  /** The non-monotone argmax of every batch entry, each with its own length. */
  function ArgmaxBatch(d: AlignmentCRF, solve: Grid<NonMonotoneAlign.Ext> -> Assignment): (a: Tensor)
    requires d.Valid() && d.alignmentType == NonMonotoneOneToOne
    ensures a.Valid() && SameDims(a, d.logPotentials)
    ensures forall b :: 0 <= b < |a.entries| ==>
      a.entries[b] == NonMonotoneAlign.Argmax(d.logPotentials.entries[b], d.lengths.values[b], solve)
  {
    var pot := d.logPotentials;
    Tensor(pot.batchShape, pot.rows, pot.cols,
      seq(|pot.entries|, b requires 0 <= b < |pot.entries| =>
        NonMonotoneAlign.Argmax(pot.entries[b], d.lengths.values[b], solve)))
  }

  /**
   * Answers query `q`. `solve` stands for the external assignment solver used by the non-monotone
   * argmax.
   */
  function Ask(d: AlignmentCRF, q: Query, solve: Grid<NonMonotoneAlign.Ext> -> Assignment): (r: Answer)
    requires d.Valid()
    requires q.UnnormalizedLogProb? ==> q.event.Valid()
    ensures d.alignmentType != NonMonotoneOneToOne ==> r == Delegated(q)
    ensures d.alignmentType == NonMonotoneOneToOne ==>
      (r.NotImplemented? <==> !q.Argmax? && !q.UnnormalizedLogProb?)
    ensures r.NotImplemented? ==>
      !q.Argmax? && !q.UnnormalizedLogProb? && r.message == UnsupportedMessage(q)
    ensures d.alignmentType == NonMonotoneOneToOne && q.Argmax? ==>
      && r == Alignments(ArgmaxBatch(d, solve))
      && r.events.Valid() && SameDims(r.events, d.logPotentials)
      && |r.events.entries| == |d.logPotentials.entries|
      && forall b, i, j ::
           0 <= b < |r.events.entries| && 0 <= i < d.logPotentials.rows && 0 <= j < d.logPotentials.cols
           && !(i < d.lengths.values[b] && j < d.lengths.values[b]) ==>
           r.events.entries[b][i][j] == 0.0
    ensures d.alignmentType == NonMonotoneOneToOne && q.UnnormalizedLogProb? ==>
      (r.EventShapeMismatch? <==> q.event.Shape() != d.logPotentials.Shape())
    ensures (d.alignmentType == NonMonotoneOneToOne && q.UnnormalizedLogProb?
             && SameDims(q.event, d.logPotentials)) ==>
      && r.Scores? && |r.values| == |d.logPotentials.entries|
      && forall b :: 0 <= b < |r.values| ==>
           && SameShape(q.event.entries[b], d.logPotentials.entries[b])
           && r.values[b] == Score(q.event.entries[b], d.logPotentials.entries[b])
  {
    if d.alignmentType != NonMonotoneOneToOne then
      Delegated(q)
    else
      match q
      case Argmax => Alignments(ArgmaxBatch(d, solve))
      case UnnormalizedLogProb(event) =>
        var pot := d.logPotentials;
        SameShapeIsSameDims(event, pot);
        if !SameDims(event, pot) then
          EventShapeMismatch
        else
          Scores(seq(|pot.entries|, b requires 0 <= b < |pot.entries| => Score(event.entries[b], pot.entries[b])))
      case _ => NotImplemented(UnsupportedMessage(q))
  }

  /**
   * Scoring the non-monotone argmax with `unnormalized_log_prob` gives, for each batch entry, the
   * sum of the potentials of the solver's pairs that lie inside that entry's valid block.
   */
  lemma ArgmaxScoredByUnnormalizedLogProb(d: AlignmentCRF, solve: Grid<NonMonotoneAlign.Ext> -> Assignment)
    requires d.Valid() && d.alignmentType == NonMonotoneOneToOne
    ensures var events := Ask(d, Argmax, solve).events;
      events.Valid() &&
      var r := Ask(d, UnnormalizedLogProb(events), solve);
      && r.Scores? && |r.values| == |d.logPotentials.entries|
      && forall b :: 0 <= b < |r.values| ==>
           var pot := d.logPotentials.entries[b];
           var p := solve(NonMonotoneAlign.SolverInput(pot, d.lengths.values[b]));
           IsSquare(pot) && r.values[b] == BlockTotal(p, |pot|, d.lengths.values[b], pot, |p.rows|)
  {
    var events := Ask(d, Argmax, solve).events;
    var r := Ask(d, UnnormalizedLogProb(events), solve);
    forall b | 0 <= b < |r.values|
      ensures var pot := d.logPotentials.entries[b];
        var p := solve(NonMonotoneAlign.SolverInput(pot, d.lengths.values[b]));
        IsSquare(pot) && r.values[b] == BlockTotal(p, |pot|, d.lengths.values[b], pot, |p.rows|)
    {
      NonMonotoneAlign.ArgmaxScore(d.logPotentials.entries[b], d.lengths.values[b], solve);
    }
  }

  /**
   * When the solver returns, for batch entry `b`, a bijection using no `-INF` cell, the argmax of
   * that entry is a permutation matrix of its valid block.
   */
  lemma ArgmaxEntryIsBlockPermutation(d: AlignmentCRF, solve: Grid<NonMonotoneAlign.Ext> -> Assignment, b: nat)
    requires d.Valid() && d.alignmentType == NonMonotoneOneToOne && b < |d.logPotentials.entries|
    requires var pot := d.logPotentials.entries[b];
      var m := NonMonotoneAlign.SolverInput(pot, d.lengths.values[b]);
      Bijection(solve(m), |pot|) && NonMonotoneAlign.AvoidsNegInf(solve(m), m)
    ensures var e := Ask(d, Argmax, solve).events.entries[b];
      var len := d.lengths.values[b];
      var n := d.logPotentials.rows;
      && IsGrid(e, n, n)
      && (forall i, j :: 0 <= i < n && 0 <= j < n ==> e[i][j] == 0.0 || e[i][j] == 1.0)
      && (forall i :: 0 <= i < n ==> Sum(e[i]) == if i < len then 1.0 else 0.0)
      && (forall j :: 0 <= j < n ==> Sum(Column(e, j)) == if j < len then 1.0 else 0.0)
  {
    NonMonotoneAlign.ArgmaxIsBlockPermutation(d.logPotentials.entries[b], d.lengths.values[b], solve);
  }
}
