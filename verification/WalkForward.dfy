/** Expanding walk-forward splits with an untouched holdout (ml-service/market_context/splits.py:33-74). */
module WalkForward {
  import opened Prelude

  datatype Fold = Fold(fold: int, trainStart: int, trainEnd: int, validationStart: int, validationEnd: int,
                       embargo: int)

  datatype Plan = Plan(folds: seq<Fold>, holdoutStart: int, holdoutEnd: int, purge: int)

  datatype SplitError = NotPositive | NegativePurge | InsufficientRows | PurgeRemovesTraining | NoFolds

  function FoldAt(k: int, minimumTrain: int, validation: int, purge: int): Fold {
    var start := minimumTrain + k * validation;
    Fold(k + 1, 0, start - purge, start, start + validation, purge)
  }

  lemma NextStart(k: nat, validation: int)
    ensures (k + 1) * validation == k * validation + validation
  {
  }

  lemma CountIs(n: nat, room: int, validation: int)
    requires validation > 0 && n * validation <= room < (n + 1) * validation
    ensures room / validation == n
  {
    var q := room / validation;
    NextStart(n, validation);
    if q < n {
      Monotone(q + 1, n, validation);
    } else if q > n {
      Monotone(n + 1, q, validation);
    }
  }

  lemma Monotone(a: int, b: int, validation: int)
    requires a <= b && validation >= 0
    ensures a * validation <= b * validation
  {
  }

  /**
   The folds are as many as fit between the minimum training window and the holdout; their validation
   windows follow each other without gap or overlap, and each trains on rows ending purge rows earlier.
   */
  method ExpandingPlan(rows: int, minimumTrain: int, validation: int, holdout: int, purge: int)
    returns (r: Result<Plan, SplitError>)
    ensures r == Err(NotPositive) <==> rows <= 0 || minimumTrain <= 0 || validation <= 0 || holdout <= 0
    ensures r != Err(NotPositive) ==> (r == Err(NegativePurge) <==> purge < 0)
    ensures r != Err(NotPositive) && r != Err(NegativePurge) ==>
              (r == Err(InsufficientRows) <==> rows < minimumTrain + validation + holdout)
    ensures r != Err(NotPositive) && r != Err(NegativePurge) && r != Err(InsufficientRows) ==>
              (r == Err(PurgeRemovesTraining) <==> purge >= minimumTrain)
    ensures r != Err(NoFolds)
    ensures r.Ok? ==>
              var p := r.value;
              && p.holdoutStart == rows - holdout && p.holdoutEnd == rows && p.purge == purge
              && |p.folds| == (p.holdoutStart - minimumTrain) / validation >= 1
              && (forall k | 0 <= k < |p.folds| :: p.folds[k] == FoldAt(k, minimumTrain, validation, purge))
              && (var end := p.folds[|p.folds| - 1].validationEnd; end <= p.holdoutStart < end + validation)
  {
    if Min(Min(rows, minimumTrain), Min(validation, holdout)) <= 0 {
      return Err(NotPositive);
    }
    if purge < 0 {
      return Err(NegativePurge);
    }
    var holdoutStart := rows - holdout;
    if holdoutStart < minimumTrain + validation {
      return Err(InsufficientRows);
    }
    var folds: seq<Fold> := [];
    var start := minimumTrain;
    while start + validation <= holdoutStart
      invariant start == minimumTrain + |folds| * validation <= holdoutStart
      invariant forall k | 0 <= k < |folds| :: folds[k] == FoldAt(k, minimumTrain, validation, purge)
      invariant |folds| > 0 ==> purge < minimumTrain && folds[|folds| - 1].validationEnd == start
      decreases holdoutStart - start
    {
      var trainEnd := start - purge;
      if trainEnd <= 0 {
        TrainNeedsPurge(|folds|, validation, minimumTrain);
        return Err(PurgeRemovesTraining);
      }
      NextStart(|folds|, validation);
      if |folds| == 0 {
        assert start == minimumTrain;
      }
      folds := folds + [Fold(|folds| + 1, 0, trainEnd, start, start + validation, purge)];
      start := start + validation;
    }
    if folds == [] {
      return Err(NoFolds);
    }
    NextStart(|folds|, validation);
    CountIs(|folds|, holdoutStart - minimumTrain, validation);
    return Ok(Plan(folds, holdoutStart, rows, purge));
  }

  lemma TrainNeedsPurge(k: nat, validation: int, minimumTrain: int)
    requires validation > 0
    ensures minimumTrain + k * validation >= minimumTrain
  {
  }

  /**
   Every row between the minimum training window and the last fold is validated exactly once, by a fold that trained
   only on earlier rows.
   */
  lemma ValidatedOnce(minimumTrain: int, validation: int, purge: int, folds: seq<Fold>, row: int)
    requires validation > 0 && purge >= 0
    requires forall k | 0 <= k < |folds| :: folds[k] == FoldAt(k, minimumTrain, validation, purge)
    requires minimumTrain <= row < minimumTrain + |folds| * validation
    ensures exists k | 0 <= k < |folds| ::
            folds[k].validationStart <= row < folds[k].validationEnd && folds[k].trainEnd + purge <= row
    ensures forall i, j | 0 <= i < j < |folds| :: folds[i].validationEnd <= folds[j].validationStart
  {
    var k := (row - minimumTrain) / validation;
    assert k * validation <= row - minimumTrain < k * validation + validation;
    Within(k, |folds|, validation, row - minimumTrain);
    assert folds[k].validationStart <= row < folds[k].validationEnd;
    forall i, j | 0 <= i < j < |folds|
      ensures folds[i].validationEnd <= folds[j].validationStart
    {
      Apart(i, j, validation);
    }
  }

  lemma Within(k: int, n: nat, validation: int, offset: int)
    requires validation > 0 && 0 <= offset < n * validation && k * validation <= offset < k * validation + validation
    ensures 0 <= k < n
  {
    if k >= n {
      Monotone(n, k, validation);
    } else if k < 0 {
      Monotone(k + 1, 0, validation);
    }
  }

  lemma Apart(i: nat, j: nat, validation: int)
    requires i < j && validation > 0
    ensures i * validation + validation <= j * validation
  {
    Monotone(i + 1, j, validation);
  }

  /** Training always starts at the first row and grows by one validation window from fold to fold. */
  lemma TrainingExpands(minimumTrain: int, validation: int, purge: int, folds: seq<Fold>, i: nat)
    requires validation > 0 && i < |folds|
    requires forall k | 0 <= k < |folds| :: folds[k] == FoldAt(k, minimumTrain, validation, purge)
    ensures folds[i].fold == i + 1 && folds[i].trainStart == 0 && folds[i].embargo == purge
    ensures folds[i].validationStart - folds[i].trainEnd == purge
    ensures folds[i].validationEnd - folds[i].validationStart == validation
    ensures folds[0].validationStart == minimumTrain
    ensures i + 1 < |folds| ==>
              && folds[i + 1].trainEnd == folds[i].trainEnd + validation
              && folds[i + 1].validationStart == folds[i].validationEnd
  {
    NextStart(i, validation);
  }
}
