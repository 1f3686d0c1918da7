/**
 Choosing the number of hidden states (ml-service/market_context/hmm_model.py:259-308): the qualification thresholds
 and the lexicographic preference among the candidates that meet them.  The aggregates over folds and seeds are given.
 */
module ModelSelection {
  import opened Prelude

  datatype Candidate = Candidate(stateCount: int, convergence: real, trainingOccupancy: real, agreement: real,
                                 switching: real, centroidDistance: real, likelihood: real)

  datatype Reason = ConvergenceInsufficient | StateCollapse | SeedInstability | ExcessiveSwitching

  function Reasons(c: Candidate): seq<Reason> {
    (if c.convergence < 1.0 then [ConvergenceInsufficient] else [])
    + (if c.trainingOccupancy < 0.01 then [StateCollapse] else [])
    + (if c.agreement < 0.70 then [SeedInstability] else [])
    + (if c.switching > 0.35 then [ExcessiveSwitching] else [])
  }

  /** Seed agreement first, then fold stability, then likelihood, then the simpler model. */
  predicate Preferred(a: Candidate, b: Candidate) {
    if a.agreement != b.agreement then a.agreement > b.agreement
    else if a.centroidDistance != b.centroidDistance then a.centroidDistance < b.centroidDistance
    else if a.likelihood != b.likelihood then a.likelihood > b.likelihood
    else a.stateCount < b.stateCount
  }

  /** The head of the qualified candidates after a stable sort by preference. */
  function Selected(candidates: seq<Candidate>): Option<Candidate> {
    if candidates == [] then None
    else
      var rest := Selected(candidates[1..]);
      if Reasons(candidates[0]) != [] then rest
      else if rest.Some? && Preferred(rest.value, candidates[0]) then rest
      else Some(candidates[0])
  }

  lemma PreferenceOrder(a: Candidate, b: Candidate, c: Candidate)
    ensures !(Preferred(a, b) && Preferred(b, a))
    ensures !Preferred(b, a) && !Preferred(c, b) ==> !Preferred(c, a)
    ensures !Preferred(a, b) && !Preferred(b, a) ==> a.stateCount == b.stateCount
  {
  }

  /** A candidate is selected exactly when one qualifies, and no qualified candidate is preferred to it. */
  lemma {:induction false} SelectedIsBest(candidates: seq<Candidate>)
    ensures Selected(candidates).None? <==> forall c | c in candidates :: Reasons(c) != []
    ensures var s := Selected(candidates);
            s.Some? ==> s.value in candidates && Reasons(s.value) == []
                        && forall c | c in candidates && Reasons(c) == [] :: !Preferred(c, s.value)
  {
    hide Reasons, Preferred;
    if candidates != [] {
      var first, rest := candidates[0], candidates[1..];
      SelectedIsBest(rest);
      assert forall c :: c in candidates <==> c == first || c in rest;
      if Selected(rest).Some? {
        var s := Selected(rest).value;
        forall c | c in rest && Reasons(c) == []
          ensures !Preferred(s, first) ==> !Preferred(c, first)
        {
          PreferenceOrder(first, s, c);
        }
        PreferenceOrder(s, first, first);
        PreferenceOrder(first, s, s);
      }
      PreferenceOrder(first, first, first);
    }
  }

  /**
   The selected state count depends only on which candidates there are: not on their order, and not on candidates that
   lose.  Whatever part of the field still holds the winner selects it again.
   */
  lemma SelectionStable(field: seq<Candidate>, part: seq<Candidate>)
    requires forall c | c in part :: c in field
    requires Selected(field).Some? && Selected(field).value in part
    ensures Selected(part).Some? && Selected(part).value.stateCount == Selected(field).value.stateCount
  {
    hide Reasons, Preferred;
    SelectedIsBest(field);
    SelectedIsBest(part);
    PreferenceOrder(Selected(field).value, Selected(part).value, Selected(part).value);
  }

  /** Among candidates that no criterion tells apart the first in the list is selected: the sort is stable. */
  lemma {:induction false} EarlierOfEquals(candidates: seq<Candidate>) returns (i: nat)
    requires Selected(candidates).Some?
    ensures i < |candidates| && Selected(candidates).value == candidates[i]
    ensures forall j | 0 <= j < i && Reasons(candidates[j]) == [] :: Preferred(candidates[i], candidates[j])
  {
    hide Reasons, Preferred;
    var first, rest := candidates[0], candidates[1..];
    if Selected(rest).Some? && Selected(candidates) == Selected(rest)
       && (Reasons(first) != [] || Preferred(Selected(rest).value, first)) {
      var k := EarlierOfEquals(rest);
      assert forall j | 1 <= j < |candidates| :: candidates[j] == rest[j - 1];
      i := k + 1;
    } else {
      i := 0;
    }
  }

  /**
   What is selected, in plain numbers: it converged in every run, keeps every state above one percent in training,
   agrees across seeds in at least 70 percent and switches in at most 35 percent; and of all such candidates it has the
   highest agreement, then the smallest centroid distance, then the highest likelihood, then the fewest states.
   */
  lemma SelectedInNumbers(candidates: seq<Candidate>, c: Candidate)
    requires Selected(candidates).Some? && c in candidates
    requires c.convergence >= 1.0 && c.trainingOccupancy >= 0.01 && c.agreement >= 0.7 && c.switching <= 0.35
    ensures var s := Selected(candidates).value;
            && s.convergence >= 1.0 && s.trainingOccupancy >= 0.01 && s.agreement >= 0.7 && s.switching <= 0.35
            && s.agreement >= c.agreement
            && (s.agreement == c.agreement ==>
                  && s.centroidDistance <= c.centroidDistance
                  && (s.centroidDistance == c.centroidDistance ==>
                        && s.likelihood >= c.likelihood
                        && (s.likelihood == c.likelihood ==> s.stateCount <= c.stateCount)))
  {
    SelectedIsBest(candidates);
  }

  /** Nothing is selected exactly when every candidate misses one of the four thresholds. */
  lemma NothingSelected(candidates: seq<Candidate>)
    ensures Selected(candidates).None? <==>
            forall c | c in candidates ::
              c.convergence < 1.0 || c.trainingOccupancy < 0.01 || c.agreement < 0.7 || c.switching > 0.35
  {
    SelectedIsBest(candidates);
  }
}
