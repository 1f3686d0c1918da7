/**
 The causal filter told from its arguments alone (ml-service/market_context/hmm_model.py:85-124): what a path of states
 weighs, what the filtered rows then are, and which arguments are accepted.
 */
module HmmParameters {
  import opened Prelude
  import opened HmmPaths
  import opened HmmFilter

  // n start probabilities, an n by n transition matrix, and one covariance per mean.
  predicate Shaped(p: Parameters) {
    var n := |p.means.rows|;
    |p.start| == n && |p.transition.rows| == n && p.transition.width == n && |p.covariances.rows| == n
  }

  function AtLeast(x: real, floor: real): real {
    if x < floor then floor else x
  }

  /**
   The mass of a path of states: the probability of starting in its first state, of moving from each state to the next,
   that is row to column, and the density of each observation under the state it is in.
   */
  function PathMass(p: Parameters, values: Matrix, density: Density, floor: real, path: Path): real
    requires Shaped(p) && path != [] && |path| <= |values.rows|
    requires forall i | 0 <= i < |path| :: path[i] < |p.means.rows|
  {
    var k := |path| - 1;
    var seen := density(p.means.rows[path[k]], p.covariances.rows[path[k]], values.rows[k]);
    if k == 0 then AtLeast(p.start[path[0]], floor) * seen
    else
      PathMass(p, values, density, floor, path[..k]) * AtLeast(p.transition.rows[path[k - 1]][path[k]], floor) * seen
  }

  lemma LinearFactors(p: Parameters, values: Matrix, density: Density, floor: real, t: nat, i: nat, j: nat)
    requires Shaped(p) && t < |values.rows| && i < |p.means.rows| && j < |p.means.rows|
    ensures var m := Linear(p, values, density, floor);
            && Start(m, j) == AtLeast(p.start[j], floor)
            && Transition(m, i, j) == AtLeast(p.transition.rows[i][j], floor)
            && Emission(m, t, j) == density(p.means.rows[j], p.covariances.rows[j], values.rows[t])
  {
    var m := Linear(p, values, density, floor);
    assert m.transition[i] == Clip(p.transition.rows[i], floor);
    assert m.emissions[t] == Densities(p, values, density)[t];
  }

  lemma {:induction false} MassIsPathMass(p: Parameters, values: Matrix, density: Density, floor: real, path: Path)
    requires Shaped(p) && path != [] && |path| <= |values.rows|
    requires forall i | 0 <= i < |path| :: path[i] < |p.means.rows|
    ensures Mass(Linear(p, values, density, floor), path) == PathMass(p, values, density, floor, path)
  {
    hide Linear, Start, Transition, Emission, AtLeast;
    var k := |path| - 1;
    if k == 0 {
      LinearFactors(p, values, density, floor, 0, path[0], path[0]);
    } else {
      LinearFactors(p, values, density, floor, k, path[k - 1], path[k]);
      MassIsPathMass(p, values, density, floor, path[..k]);
    }
  }

  ghost predicate Walks(p: Parameters, values: Matrix, paths: seq<Path>) {
    forall q | q in paths :: q != [] && |q| <= |values.rows| && forall i | 0 <= i < |q| :: q[i] < |p.means.rows|
  }

  ghost function TotalMass(p: Parameters, values: Matrix, density: Density, floor: real, paths: seq<Path>): real
    requires Shaped(p) && Walks(p, values, paths)
  {
    if paths == [] then 0.0
    else
      assert paths[0] in paths;
      PathMass(p, values, density, floor, paths[0]) + TotalMass(p, values, density, floor, paths[1..])
  }

  lemma {:induction false} MassSumIsTotal(p: Parameters, values: Matrix, density: Density, floor: real,
                                          paths: seq<Path>)
    requires Shaped(p) && Walks(p, values, paths)
    ensures MassSum(Linear(p, values, density, floor), paths) == TotalMass(p, values, density, floor, paths)
  {
    hide Mass, PathMass, Linear;
    if paths != [] {
      assert paths[0] in paths;
      MassIsPathMass(p, values, density, floor, paths[0]);
      MassSumIsTotal(p, values, density, floor, paths[1..]);
    }
  }

  lemma PathsWalk(p: Parameters, values: Matrix, t: nat, s: nat)
    requires t < |values.rows| && s < |p.means.rows|
    ensures Walks(p, values, Paths(|p.means.rows|, t)) && Walks(p, values, PathsEnding(|p.means.rows|, t, s))
  {
    var n := |p.means.rows|;
    PathsExact(n, t);
    forall q | q in PathsEnding(n, t, s)
      ensures IsPath(n, t, q)
    {
      EndingExact(n, t, s, q);
    }
  }

  /**
   What the filter returns, told from its arguments alone: the entry for a state at a time is the mass of all paths that
   end there over the mass of all paths.
   */
  lemma FilteredIsBayes(p: Parameters, values: Matrix, density: Density, floor: real, t: nat, row: Row, s: nat)
    requires Shaped(p) && t < |values.rows| && s < |p.means.rows|
    requires Posterior(Linear(p, values, density, floor), |p.means.rows|, t, row)
    ensures Walks(p, values, Paths(|p.means.rows|, t)) && Walks(p, values, PathsEnding(|p.means.rows|, t, s))
    ensures var all := TotalMass(p, values, density, floor, Paths(|p.means.rows|, t));
            && all > 0.0
            && row[s] == TotalMass(p, values, density, floor, PathsEnding(|p.means.rows|, t, s)) / all
  {
    var n := |p.means.rows|;
    PathsWalk(p, values, t, s);
    MassSumIsTotal(p, values, density, floor, Paths(n, t));
    MassSumIsTotal(p, values, density, floor, PathsEnding(n, t, s));
    hide Linear, MassSum, TotalMass;
  }

  // A row of probabilities, with the tolerance of numpy's isclose.
  predicate Probabilities(row: Row) {
    (forall i | 0 <= i < |row| :: row[i] >= 0.0) && 0.99998999 <= Sum(row) <= 1.00001001
  }

  predicate Variances(row: Row) {
    forall i | 0 <= i < |row| :: row[i] > 0.0
  }

  ghost predicate FeaturesShaped(p: Parameters, values: Matrix) {
    |p.covariances.rows| == |p.means.rows| && p.covariances.width == p.means.width == values.width
  }

  ghost predicate ValuesFine(p: Parameters) {
    && (forall i | 0 <= i < |p.start| :: p.start[i] >= 0.0)
    && (forall row, i | row in p.transition.rows && 0 <= i < |row| :: row[i] >= 0.0)
    && (forall row | row in p.covariances.rows :: Variances(row))
  }

  ghost predicate Normalized(p: Parameters) {
    Probabilities(p.start) && forall row | row in p.transition.rows :: Probabilities(row)
  }

  lemma ValuesExactly(p: Parameters)
    requires Shaped(p)
    ensures ValuesFine(p)
            <==> !Negative(p.start) && (forall i | 0 <= i < |p.means.rows| :: !Negative(p.transition.rows[i]))
                 && (forall i | 0 <= i < |p.means.rows| :: AllPositive(p.covariances.rows[i]))
  {
    forall i | 0 <= i < |p.means.rows|
      ensures p.transition.rows[i] in p.transition.rows && p.covariances.rows[i] in p.covariances.rows
    {
    }
  }

  lemma NormalizedExactly(p: Parameters)
    requires Shaped(p) && ValuesFine(p)
    ensures Normalized(p)
            <==> CloseToOne(Sum(p.start)) && forall i | 0 <= i < |p.means.rows| :: CloseToOne(Sum(p.transition.rows[i]))
  {
    hide Sum;
    forall i | 0 <= i < |p.means.rows|
      ensures p.transition.rows[i] in p.transition.rows
    {
    }
  }

  /** Which arguments are accepted, and that each error is the first of the checks that fails. */
  lemma CheckExactly(p: Parameters, values: Matrix)
    ensures Check(p, values) ==
            if values.rows == [] then Some(InferenceMatrixInvalid)
            else if !(|p.start| == |p.means.rows| == |p.transition.rows| == p.transition.width) then
              Some(TransitionShapeInvalid)
            else if !FeaturesShaped(p, values) then Some(FeatureShapeInvalid)
            else if !ValuesFine(p) then Some(ParameterValueInvalid)
            else if !Normalized(p) then Some(NormalizationInvalid)
            else None
  {
    if Shaped(p) {
      ValuesExactly(p);
      if ValuesFine(p) {
        NormalizedExactly(p);
      }
    }
    hide Sum, ValuesFine, Normalized, Negative, AllPositive, CloseToOne;
  }
}
