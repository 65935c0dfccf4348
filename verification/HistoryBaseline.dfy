/** The per-socket baseline store: an incremental mean and squared-deviation accumulator, over the
    reals, against the batch statistics of all samples seen. */
module HistoryBaseline {

  datatype Record = Record(baseline: real, accumulator: real, count: nat)

  const EMPTY: Record := Record(0.0, 0.0, 0)

  function Variance(r: Record): (v: real) {
    if r.count <= 1 then 0.0 else r.accumulator / (r.count - 1) as real
  }

  function Product(x: real, y: real): (r: real) {
    x * y
  }

  /** One incremental update. */
  function Absorb(r: Record, x: real): (r': Record)
    ensures r'.count == r.count + 1
  {
    if r.count == 0 then Record(x, 0.0, 1)
    else
      var delta := x - r.baseline;
      var mean := r.baseline + delta / (r.count + 1) as real;
      Record(mean, r.accumulator + Product(delta, x - mean), r.count + 1)
  }

  function AbsorbAll(xs: seq<real>): (r: Record)
    ensures r.count == |xs|
  {
    if xs == [] then EMPTY else Absorb(AbsorbAll(xs[..|xs| - 1]), xs[|xs| - 1])
  }

  // ---------------------------------------------------------------- batch statistics

  function Sum(xs: seq<real>): (r: real) {
    if xs == [] then 0.0 else Sum(xs[..|xs| - 1]) + xs[|xs| - 1]
  }

  function SumSquares(xs: seq<real>): (r: real) {
    if xs == [] then 0.0 else SumSquares(xs[..|xs| - 1]) + Square(xs[|xs| - 1])
  }

  function Mean(xs: seq<real>): (r: real)
    requires xs != []
  {
    Sum(xs) / |xs| as real
  }

  /** The sum of squared deviations from m. */
  function Deviations(xs: seq<real>, m: real): (r: real) {
    if xs == [] then 0.0
    else Deviations(xs[..|xs| - 1], m) + Square(xs[|xs| - 1] - m)
  }

  function SampleVariance(xs: seq<real>): (r: real)
    requires |xs| >= 2
  {
    Deviations(xs, Mean(xs)) / (|xs| - 1) as real
  }

  // ---------------------------------------------------------------- refinement

  function Square(x: real): (r: real) {
    x * x
  }

  /** Squared deviations of n values with sum s and sum of squares q from m. */
  function Spread(q: real, s: real, n: real, m: real): (r: real) {
    q - 2.0 * m * s + n * Square(m)
  }

  lemma SpreadNext(q: real, s: real, n: real, m: real, x: real)
    ensures Spread(q + Square(x), s + x, n + 1.0, m) == Spread(q, s, n, m) + Square(x - m)
  {
  }

  /** Deviations from any centre, from the sum and the sum of squares. */
  lemma {:induction false} DeviationsExpand(xs: seq<real>, m: real)
    ensures Deviations(xs, m) == Spread(SumSquares(xs), Sum(xs), |xs| as real, m)
  {
    if xs != [] {
      var n := |xs| - 1;
      DeviationsExpand(xs[..n], m);
      SpreadNext(SumSquares(xs[..n]), Sum(xs[..n]), n as real, m, xs[n]);
      assert n as real + 1.0 == |xs| as real;
    }
  }

  /** The invariant of the incremental form: count times mean is the sum, and the accumulator is
      the spread about the mean. */
  predicate Tracks(r: Record, s: real, q: real) {
    r.count as real * r.baseline == s && r.accumulator == q - r.count as real * Square(r.baseline)
  }

  /** The algebra behind the accumulator, in terms of the shift e of the mean. */
  lemma ShiftIdentity(q: real, m: real, e: real, n: real)
    ensures (q - n * Square(m)) + ((n + 1.0) * e) * (n * e)
         == q + Square(m + (n + 1.0) * e) - (n + 1.0) * Square(m + e)
  {
  }

  lemma DivideBack(x: real, n: real)
    requires n > 0.0
    ensures n * (x / n) == x
  {
  }

  lemma AbsorbStep(r: Record, s: real, q: real, x: real)
    requires r.count > 0 && Tracks(r, s, q)
    ensures Tracks(Absorb(r, x), s + x, q + Square(x))
  {
    var n, m := r.count as real, r.baseline;
    var e := (x - m) / (n + 1.0);
    DivideBack(x - m, n + 1.0);
    assert x == m + (n + 1.0) * e;
    ShiftIdentity(q, m, e, n);
  }

  lemma {:induction false} AbsorbTracks(xs: seq<real>)
    requires xs != []
    ensures Tracks(AbsorbAll(xs), Sum(xs), SumSquares(xs))
  {
    var n := |xs| - 1;
    if n == 0 {
      assert xs[..0] == [];
    } else {
      AbsorbTracks(xs[..n]);
      AbsorbStep(AbsorbAll(xs[..n]), Sum(xs[..n]), SumSquares(xs[..n]), xs[n]);
    }
  }

  /** Main result: after any non-empty sequence of samples the baseline is their arithmetic mean
      and the accumulator the sum of squared deviations from it. */
  lemma WelfordRefinesBatch(xs: seq<real>)
    requires xs != []
    ensures AbsorbAll(xs).baseline == Mean(xs)
    ensures AbsorbAll(xs).accumulator == Deviations(xs, Mean(xs))
  {
    AbsorbTracks(xs);
    TracksMean(AbsorbAll(xs), Sum(xs), SumSquares(xs));
    DeviationsExpand(xs, Mean(xs));
  }

  lemma TracksMean(r: Record, s: real, q: real)
    requires r.count > 0 && Tracks(r, s, q)
    ensures r.baseline == s / r.count as real
    ensures r.accumulator == Spread(q, s, r.count as real, s / r.count as real)
  {
    var n, m := r.count as real, r.baseline;
    assert m == s / n;
    assert m * s == n * Square(m);
  }

  /** So variance() is the n - 1 sample variance from two samples on, and 0 before. */
  lemma VarianceIsSampleVariance(xs: seq<real>)
    ensures Variance(AbsorbAll(xs)) == if |xs| >= 2 then SampleVariance(xs) else 0.0
  {
    if |xs| >= 2 {
      WelfordRefinesBatch(xs);
    }
  }

  // ---------------------------------------------------------------- the store

  datatype Update = Update(socket: int, value: real)

  /** The samples of one socket, in order. */
  function SamplesOf(updates: seq<Update>, socket: int): (r: seq<real>) {
    if updates == [] then []
    else
      var before, last := SamplesOf(updates[..|updates| - 1], socket), updates[|updates| - 1];
      if last.socket == socket then before + [last.value] else before
  }

  /** The update in place of one record: the accumulator takes the product of the deviations
      before and after the mean moves. */
  method AbsorbSample(record: Record, value: real) returns (r: Record)
    ensures r == Absorb(record, value)
  {
    if record.count == 0 {
      return Record(value, 0.0, 1);
    }
    var count := record.count + 1;
    var delta := value - record.baseline;
    var baseline := record.baseline + delta / count as real;
    var delta2 := value - baseline;
    return Record(baseline, record.accumulator + Product(delta, delta2), count);
  }

  class Store {
    var records: map<int, Record>
    ghost var updates: seq<Update>

    /** Every record is the incremental statistic of exactly its socket's samples. */
    ghost predicate Valid()
      reads this
    {
      && (forall s :: s in records ==> records[s] == AbsorbAll(SamplesOf(updates, s)))
      && (forall s :: s !in records ==> SamplesOf(updates, s) == [])
    }

    constructor ()
      ensures Valid() && updates == []
    {
      records, updates := map[], [];
    }

    /** A missing record reads as the default one. */
    method Get(socket: int) returns (r: Record)
      requires Valid()
      ensures r == AbsorbAll(SamplesOf(updates, socket))
    {
      r := if socket in records then records[socket] else EMPTY;
    }

    method UpdateSocket(socket: int, value: real)
      requires Valid()
      modifies this
      ensures Valid() && updates == old(updates) + [Update(socket, value)]
      ensures forall s :: s != socket && s in old(records) ==> s in records && records[s] == old(records)[s]
    {
      var record := if socket in records then records[socket] else EMPTY;
      record := AbsorbSample(record, value);
      ghost var before := SamplesOf(updates, socket);
      assert (before + [value])[..|before|] == before;
      assert record == AbsorbAll(before + [value]);
      records := records[socket := record];
      updates := updates + [Update(socket, value)];
      assert updates[..|updates| - 1] == old(updates);
    }
  }
}
