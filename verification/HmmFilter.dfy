/**
 The causal HMM filter (ml-service/market_context/hmm_model.py:78-124), in linear space over exact
 reals: logsumexp is a sum, subtracting the normaliser is a division, and the total log likelihood is
 the logarithm of the product kept here.  The Gaussian density is a parameter; it is an exponential, so positive.
 */
module HmmFilter {
  import opened Prelude
  import opened HmmPaths

  datatype FilterError =
    | InferenceMatrixInvalid
    | TransitionShapeInvalid
    | FeatureShapeInvalid
    | ParameterValueInvalid
    | NormalizationInvalid

  // A two-dimensional array: all its rows have the same width.
  datatype Array = Array(width: nat, rows: seq<Row>)

  type Matrix = a: Array | forall i | 0 <= i < |a.rows| :: |a.rows[i]| == a.width
    witness Array(0, [])

  datatype Parameters = Parameters(start: Row, transition: Matrix, means: Matrix, covariances: Matrix)

  // The density of an observation under a mean and a diagonal covariance.
  type Density = (Row, Row, Row) -> real

  datatype Filtered = Filtered(rows: seq<Row>, states: seq<nat>, likelihood: real)

  // ---------------------------------------------------------------- the scaled loop

  function Scaled(row: Row, z: real): (r: Row)
    requires z != 0.0
    ensures |r| == |row| && forall i | 0 <= i < |row| :: r[i] == row[i] / z
  {
    seq(|row|, i requires 0 <= i < |row| => row[i] / z)
  }

  function FirstAlpha(m: Model, n: nat): (r: Row)
    ensures |r| == n && forall j | 0 <= j < n :: r[j] == Start(m, j) * Emission(m, 0, j)
  {
    seq(n, j requires 0 <= j < n => Start(m, j) * Emission(m, 0, j))
  }

  function NextAlpha(m: Model, n: nat, t: nat, previous: Row): (r: Row)
    requires |previous| == n
    ensures |r| == n && forall j: nat | j < n :: r[j] == Emission(m, t, j) * Dot(previous, Column(m, n, j))
  {
    seq(n, j requires 0 <= j < n => Emission(m, t, j) * Dot(previous, Column(m, n, j)))
  }

  predicate Positive(m: Model, n: nat) {
    && n > 0
    && (forall i | 0 <= i < n :: Start(m, i) > 0.0)
    && (forall i, j | 0 <= i < n && 0 <= j < n :: Transition(m, i, j) > 0.0)
    && (forall t, i | 0 <= t < |m.emissions| && 0 <= i < n :: Emission(m, t, i) > 0.0)
  }

  // row[j] * z is the path weight of state j at time t, for every j.
  ghost predicate Carries(m: Model, n: nat, t: nat, row: Row, z: real) {
    |row| == n && forall j: nat | j < n :: row[j] * z == Weight(m, n, t, j)
  }

  lemma FirstCarries(m: Model, n: nat)
    ensures Carries(m, n, 0, FirstAlpha(m, n), 1.0)
  {
    forall j | 0 <= j < n
      ensures FirstAlpha(m, n)[j] * 1.0 == Weight(m, n, 0, j)
    {
      WeightStart(m, n, j);
    }
  }

  lemma NextCarries(m: Model, n: nat, t: nat, previous: Row, z: real)
    requires Carries(m, n, t, previous, z)
    ensures Carries(m, n, t + 1, NextAlpha(m, n, t + 1, previous), z)
  {
    hide Weight, Transition, Emission, Dot;
    var u := t + 1;
    forall j: nat | j < n
      ensures NextAlpha(m, n, u, previous)[j] * z == Weight(m, n, u, j)
    {
      DotScale(previous, z, Weights(m, n, t, n), Column(m, n, j));
      ForwardRecursion(m, n, t, j);
      Rotate(Emission(m, t + 1, j), Dot(previous, Column(m, n, j)), z);
    }
  }

  lemma Rotate(e: real, d: real, z: real)
    ensures (e * d) * z == (d * z) * e
  {
  }

  lemma ScaledCarries(m: Model, n: nat, t: nat, alpha: Row, z: real, w: real, u: real)
    requires Carries(m, n, t, alpha, z) && w > 0.0 && u == w * z
    ensures Carries(m, n, t, Scaled(alpha, w), u)
  {
    hide Weight;
    var row := Scaled(alpha, w);
    forall j: nat | j < n
      ensures row[j] * u == Weight(m, n, t, j)
    {
      Cancel(alpha[j], w, z);
    }
  }

  /** Dividing a row by its sum w moves that sum into the running product. */
  lemma NormaliseCarries(m: Model, n: nat, t: nat, alpha: Row, z: real, w: real)
    requires Carries(m, n, t, alpha, z) && w == Sum(alpha) > 0.0
    ensures Carries(m, n, t, Scaled(alpha, w), w * z)
    ensures w * z == Total(m, n, t)
    ensures Sum(Scaled(alpha, w)) == 1.0
  {
    hide Weight;
    ScaledCarries(m, n, t, alpha, z, w, w * z);
    SumScale(alpha, z, Weights(m, n, t, n));
    TotalIsSum(m, n, t, n);
    SumToOne(alpha, w);
  }

  lemma SumToOne(alpha: Row, w: real)
    requires w == Sum(alpha) > 0.0
    ensures Sum(Scaled(alpha, w)) == 1.0
  {
    hide Sum;
    forall i | 0 <= i < |alpha|
      ensures Scaled(alpha, w)[i] == alpha[i] * (1.0 / w)
    {
      Inverse(alpha[i], w);
    }
    SumScale(alpha, 1.0 / w, Scaled(alpha, w));
  }

  lemma Cancel(a: real, w: real, z: real)
    requires w != 0.0
    ensures (a / w) * (w * z) == a * z
  {
    var q := a / w;
    assert q * w == a;
    assert q * (w * z) == (q * w) * z;
  }

  lemma Inverse(a: real, w: real)
    requires w != 0.0
    ensures a / w == a * (1.0 / w)
  {
  }

  lemma Quotient(x: real, z: real, w: real)
    requires z > 0.0 && x * z == w
    ensures x == w / z
  {
  }

  lemma FirstPositive(m: Model, n: nat)
    requires Positive(m, n) && |m.emissions| > 0
    ensures Sum(FirstAlpha(m, n)) > 0.0
    ensures forall i | 0 <= i < n :: Scaled(FirstAlpha(m, n), Sum(FirstAlpha(m, n)))[i] > 0.0
  {
    forall j | 0 <= j < n
      ensures FirstAlpha(m, n)[j] > 0.0
    {
      Product(Start(m, j), Emission(m, 0, j));
    }
    ScaledPositive(FirstAlpha(m, n));
  }

  lemma NextPositive(m: Model, n: nat, t: nat, previous: Row)
    requires Positive(m, n) && t < |m.emissions| && |previous| == n && forall i | 0 <= i < n :: previous[i] > 0.0
    ensures Sum(NextAlpha(m, n, t, previous)) > 0.0
    ensures forall i | 0 <= i < n :: Scaled(NextAlpha(m, n, t, previous), Sum(NextAlpha(m, n, t, previous)))[i] > 0.0
  {
    hide Sum, Dot, Transition, Emission;
    forall j: nat | j < n
      ensures NextAlpha(m, n, t, previous)[j] > 0.0
    {
      DotPositive(previous, Column(m, n, j));
      assert Emission(m, t, j) > 0.0;
      Product(Emission(m, t, j), Dot(previous, Column(m, n, j)));
    }
    ScaledPositive(NextAlpha(m, n, t, previous));
  }

  lemma ScaledPositive(xs: Row)
    requires xs != [] && forall i | 0 <= i < |xs| :: xs[i] > 0.0
    ensures Sum(xs) > 0.0
    ensures forall i | 0 <= i < |xs| :: Scaled(xs, Sum(xs))[i] > 0.0
  {
    SumPositive(xs);
  }

  // ---------------------------------------------------------------- validation, clipping and the loop

  function Clip(row: Row, floor: real): (r: Row)
    ensures |r| == |row| && forall i | 0 <= i < |row| :: r[i] == if row[i] < floor then floor else row[i]
  {
    seq(|row|, i requires 0 <= i < |row| => if row[i] < floor then floor else row[i])
  }

  function ClipRows(rows: seq<Row>, floor: real): (r: seq<Row>)
    ensures |r| == |rows| && forall i | 0 <= i < |r| :: r[i] == Clip(rows[i], floor)
  {
    seq(|rows|, i requires 0 <= i < |rows| => Clip(rows[i], floor))
  }

  /** The emission densities of every observation under every state. */
  function Densities(p: Parameters, values: Matrix, density: Density): (r: seq<Row>)
    requires |p.covariances.rows| == |p.means.rows|
    ensures |r| == |values.rows| && forall t | 0 <= t < |r| :: |r[t]| == |p.means.rows|
    ensures forall t, i | 0 <= t < |r| && 0 <= i < |p.means.rows| ::
              r[t][i] == density(p.means.rows[i], p.covariances.rows[i], values.rows[t])
  {
    seq(|values.rows|, t requires 0 <= t < |values.rows| => DensityRow(p, values.rows[t], density))
  }

  function DensityRow(p: Parameters, x: Row, density: Density): (r: Row)
    requires |p.covariances.rows| == |p.means.rows|
    ensures |r| == |p.means.rows|
    ensures forall i | 0 <= i < |r| :: r[i] == density(p.means.rows[i], p.covariances.rows[i], x)
  {
    seq(|p.means.rows|, i requires 0 <= i < |p.means.rows| => density(p.means.rows[i], p.covariances.rows[i], x))
  }

  /** What the loop works on: clipped start and transition probabilities and the densities. */
  function Linear(p: Parameters, values: Matrix, density: Density, floor: real): Model
    requires |p.covariances.rows| == |p.means.rows|
  {
    Model(Clip(p.start, floor), ClipRows(p.transition.rows, floor), Densities(p, values, density))
  }

  // np.isclose(x, 1.0) with its default tolerances.
  predicate CloseToOne(x: real) {
    -0.00001001 <= x - 1.0 <= 0.00001001
  }

  predicate Negative(row: Row) {
    exists i | 0 <= i < |row| :: row[i] < 0.0
  }

  predicate AllPositive(row: Row) {
    forall i | 0 <= i < |row| :: row[i] > 0.0
  }

  /** The checks, in the order in which they are made. */
  function Check(p: Parameters, values: Matrix): Option<FilterError> {
    var n := |p.means.rows|;
    if |values.rows| == 0 then Some(InferenceMatrixInvalid)
    else if |p.start| != n || |p.transition.rows| != n || p.transition.width != n then Some(TransitionShapeInvalid)
    else if |p.covariances.rows| != n || p.covariances.width != p.means.width || values.width != p.means.width then
      Some(FeatureShapeInvalid)
    else if Negative(p.start) || (exists i | 0 <= i < n :: Negative(p.transition.rows[i]))
            || (exists i | 0 <= i < n :: !AllPositive(p.covariances.rows[i])) then Some(ParameterValueInvalid)
    else if !CloseToOne(Sum(p.start)) || exists i | 0 <= i < n :: !CloseToOne(Sum(p.transition.rows[i])) then
      Some(NormalizationInvalid)
    else None
  }

  ghost predicate PositiveDensity(density: Density) {
    forall mean, covariance, x :: density(mean, covariance, x) > 0.0
  }

  lemma CheckedPositive(p: Parameters, values: Matrix, density: Density, floor: real)
    requires Check(p, values).None? && floor > 0.0 && PositiveDensity(density)
    ensures |p.covariances.rows| == |p.means.rows| > 0
    ensures Positive(Linear(p, values, density, floor), |p.means.rows|)
    ensures |Linear(p, values, density, floor).emissions| == |values.rows| > 0
  {
    var n, m := |p.means.rows|, Linear(p, values, density, floor);
    assert n == 0 ==> Sum(p.start) == 0.0;
    hide Sum;
    forall i, j | 0 <= i < n && 0 <= j < n
      ensures Transition(m, i, j) > 0.0
    {
      assert m.transition[i] == Clip(p.transition.rows[i], floor);
    }
  }

  /** First index of the largest entry, as numpy's argmax. */
  function ArgMax(row: Row): (k: nat)
    requires |row| > 0
    ensures k < |row|
    ensures forall i | 0 <= i < |row| :: row[i] <= row[k]
    ensures forall i | 0 <= i < k :: row[i] < row[k]
  {
    if |row| == 1 then 0
    else
      var k := ArgMax(row[..|row| - 1]);
      if row[k] < row[|row| - 1] then |row| - 1 else k
  }

  function ArgMaxes(rows: seq<Row>): (r: seq<nat>)
    requires forall t | 0 <= t < |rows| :: |rows[t]| > 0
    ensures |r| == |rows| && forall t | 0 <= t < |rows| :: r[t] == ArgMax(rows[t])
  {
    seq(|rows|, t requires 0 <= t < |rows| => ArgMax(rows[t]))
  }

  /**
   The filter: validation, then one scaled row per observation.  Each row is the posterior computed by
   brute force over every state path so far, and the likelihood is the total mass of all paths.
   */
  method CausalFilter(p: Parameters, values: Matrix, density: Density, floor: real)
    returns (r: Result<Filtered, FilterError>)
    requires floor > 0.0 && PositiveDensity(density)
    ensures r.Err? <==> Check(p, values).Some?
    ensures r.Err? ==> Check(p, values) == Some(r.error)
    ensures r.Ok? ==>
              && |p.covariances.rows| == |p.means.rows|
              && var m, n := Linear(p, values, density, floor), |p.means.rows|;
              && |r.value.rows| == |r.value.states| == |values.rows|
              && r.value.likelihood == Total(m, n, |values.rows| - 1)
              && forall t | 0 <= t < |values.rows| ::
                Posterior(m, n, t, r.value.rows[t]) && MostLikely(m, n, t, r.value.states[t])
  {
    hide Check, Positive, Linear, Total, Weight, Sum, ArgMax;
    var problem := Check(p, values);
    if problem.Some? {
      return Err(problem.value);
    }
    CheckedPositive(p, values, density, floor);
    var m, n := Linear(p, values, density, floor), |p.means.rows|;
    var count := |m.emissions|;
    var filtered := new Row[count](_ => []);
    var alpha := FirstAlpha(m, n);
    FirstCarries(m, n);
    FirstPositive(m, n);
    var normalizer := Sum(alpha);
    NormaliseCarries(m, n, 0, alpha, 1.0, normalizer);
    var likelihood := normalizer;
    alpha := Scaled(alpha, normalizer);
    filtered[0] := alpha;
    PosteriorRow(m, n, 0, alpha, likelihood);
    for t := 1 to count
      invariant likelihood > 0.0 && likelihood == Total(m, n, t - 1)
      invariant alpha == filtered[t - 1] && Carries(m, n, t - 1, alpha, likelihood)
      invariant forall i | 0 <= i < n :: alpha[i] > 0.0
      invariant forall k | 0 <= k < t :: Posterior(m, n, k, filtered[k])
    {
      NextCarries(m, n, t - 1, alpha, likelihood);
      NextPositive(m, n, t, alpha);
      alpha := NextAlpha(m, n, t, alpha);
      normalizer := Sum(alpha);
      NormaliseCarries(m, n, t, alpha, likelihood, normalizer);
      Product(normalizer, likelihood);
      likelihood := normalizer * likelihood;
      alpha := Scaled(alpha, normalizer);
      filtered[t] := alpha;
      PosteriorRow(m, n, t, alpha, likelihood);
    }
    var rows := filtered[..];
    assert forall t | 0 <= t < count :: Posterior(m, n, t, rows[t]);
    forall t | 0 <= t < count
      ensures MostLikely(m, n, t, ArgMax(rows[t]))
    {
      ArgMaxLikely(m, n, t, rows[t]);
    }
    return Ok(Filtered(rows, ArgMaxes(rows), likelihood));
  }

  /** k is the least of the states whose paths carry the most mass. */
  ghost predicate MostLikely(m: Model, n: nat, t: nat, k: nat) {
    && k < n
    && (forall s: nat | s < n :: Weight(m, n, t, s) <= Weight(m, n, t, k))
    && (forall s: nat | s < k :: Weight(m, n, t, s) < Weight(m, n, t, k))
  }

  /** The brute-force posterior of the state at time t, given observations 0..t. */
  ghost predicate Posterior(m: Model, n: nat, t: nat, row: Row) {
    && n > 0 && |row| == n && Total(m, n, t) > 0.0 && Sum(row) == 1.0
    && forall s | 0 <= s < n :: row[s] == Weight(m, n, t, s) / Total(m, n, t)
  }

  lemma PosteriorRow(m: Model, n: nat, t: nat, row: Row, z: real)
    requires n > 0 && Carries(m, n, t, row, z) && z > 0.0 && z == Total(m, n, t) && Sum(row) == 1.0
    ensures Posterior(m, n, t, row)
  {
    forall s | 0 <= s < n
      ensures row[s] == Weight(m, n, t, s) / Total(m, n, t)
    {
      Quotient(row[s], z, Weight(m, n, t, s));
    }
  }

  lemma ArgMaxLikely(m: Model, n: nat, t: nat, row: Row)
    requires Posterior(m, n, t, row)
    ensures MostLikely(m, n, t, ArgMax(row))
  {
    var z, k := Total(m, n, t), ArgMax(row);
    forall s | 0 <= s < n
      ensures row[s] <= row[k] ==> Weight(m, n, t, s) <= Weight(m, n, t, k)
      ensures row[s] < row[k] ==> Weight(m, n, t, s) < Weight(m, n, t, k)
    {
      QuotientOrder(Weight(m, n, t, s), Weight(m, n, t, k), z);
    }
  }

  lemma QuotientOrder(a: real, b: real, z: real)
    requires z > 0.0
    ensures a / z <= b / z ==> a <= b
    ensures a / z < b / z ==> a < b
  {
    var x, y := a / z, b / z;
    assert a == x * z && b == y * z;
    assert b - a == (y - x) * z;
  }

  // ---------------------------------------------------------------- causality

  lemma {:induction false} MassCausal(m: Model, k: Model, p: Path)
    requires m.start == k.start && m.transition == k.transition
    requires forall t, i :: 0 <= t < |p| ==> Emission(m, t, i) == Emission(k, t, i)
    ensures Mass(m, p) == Mass(k, p)
  {
    if |p| > 1 {
      MassCausal(m, k, p[..|p| - 1]);
    }
  }

  lemma {:induction false} MassSumCausal(m: Model, k: Model, t: nat, ps: seq<Path>)
    requires m.start == k.start && m.transition == k.transition
    requires forall u, i :: 0 <= u <= t ==> Emission(m, u, i) == Emission(k, u, i)
    requires forall p | p in ps :: |p| == t + 1
    ensures MassSum(m, ps) == MassSum(k, ps)
  {
    if ps != [] {
      assert ps[0] in ps;
      MassCausal(m, k, ps[0]);
      MassSumCausal(m, k, t, ps[1..]);
    }
  }

  lemma PosteriorCausal(m: Model, k: Model, n: nat, t: nat, row: Row, other: Row)
    requires m.start == k.start && m.transition == k.transition
    requires t < |m.emissions| && t < |k.emissions| && m.emissions[..t + 1] == k.emissions[..t + 1]
    requires Posterior(m, n, t, row) && Posterior(k, n, t, other)
    ensures row == other
  {
    forall u, i | 0 <= u <= t
      ensures Emission(m, u, i) == Emission(k, u, i)
    {
      assert m.emissions[u] == m.emissions[..t + 1][u] && k.emissions[u] == k.emissions[..t + 1][u];
    }
    PathsExact(n, t);
    MassSumCausal(m, k, t, Paths(n, t));
    forall s | 0 <= s < n
      ensures row[s] == other[s]
    {
      forall p | p in PathsEnding(n, t, s)
        ensures |p| == t + 1
      {
        EndingExact(n, t, s, p);
      }
      MassSumCausal(m, k, t, PathsEnding(n, t, s));
    }
  }

  /**
   No future observation matters: whatever is observed after t, and however much, the filtered row at t is the same.
   */
  lemma Causality(p: Parameters, values: Matrix, others: Matrix, density: Density, floor: real, t: nat, row: Row,
                  other: Row)
    requires |p.covariances.rows| == |p.means.rows| && t < |values.rows| && t < |others.rows|
    requires values.rows[..t + 1] == others.rows[..t + 1]
    requires Posterior(Linear(p, values, density, floor), |p.means.rows|, t, row)
    requires Posterior(Linear(p, others, density, floor), |p.means.rows|, t, other)
    ensures row == other
  {
    var m, k := Linear(p, values, density, floor), Linear(p, others, density, floor);
    forall u | 0 <= u <= t
      ensures m.emissions[u] == k.emissions[u]
    {
      assert values.rows[u] == values.rows[..t + 1][u] == others.rows[..t + 1][u] == others.rows[u];
    }
    assert m.emissions[..t + 1] == k.emissions[..t + 1];
    hide Posterior, Linear;
    PosteriorCausal(m, k, |p.means.rows|, t, row, other);
  }
}
