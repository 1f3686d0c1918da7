/** Pareto selection among gated candidates (ml-service/agent_evolution/pareto.py:4-15). */
module ParetoFrontier {
  import opened Prelude

  // What float() makes of a stored score; it rejects None and anything that is no number.
  datatype Field = Number(value: real) | PlusInfinity | MinusInfinity | NaN | Rejected

  // id is object identity; get() of a key that is not there is None.
  datatype Candidate = Candidate(id: nat, gatePassed: bool, scores: map<string, Field>)

  datatype ScoreError = UnusableScore

  function Score(c: Candidate, objective: string): Field {
    if objective in c.scores then c.scores[objective] else Rejected
  }

  predicate Complete(c: Candidate, objectives: seq<string>) {
    forall i | 0 <= i < |objectives| :: !Score(c, objectives[i]).Rejected?
  }

  /** Comparison of floats: nothing compares with NaN. */
  predicate AsGood(a: Field, b: Field) {
    if a.NaN? || b.NaN? || a.Rejected? || b.Rejected? then false
    else if a.PlusInfinity? || b.MinusInfinity? then true
    else if b.PlusInfinity? || a.MinusInfinity? then false
    else a.value >= b.value
  }

  predicate Better(a: Field, b: Field) {
    AsGood(a, b) && !AsGood(b, a)
  }

  predicate AtLeast(a: Candidate, b: Candidate, objectives: seq<string>) {
    forall i | 0 <= i < |objectives| :: AsGood(Score(a, objectives[i]), Score(b, objectives[i]))
  }

  predicate SomewhereBetter(a: Candidate, b: Candidate, objectives: seq<string>) {
    exists i | 0 <= i < |objectives| :: Better(Score(a, objectives[i]), Score(b, objectives[i]))
  }

  /** The order itself, for candidates whose scores are usable. */
  predicate Beats(a: Candidate, b: Candidate, objectives: seq<string>) {
    a.gatePassed && b.gatePassed && AtLeast(a, b, objectives) && SomewhereBetter(a, b, objectives)
  }

  function Dominates(left: Candidate, right: Candidate, objectives: seq<string>): Result<bool, ScoreError> {
    if !left.gatePassed || !right.gatePassed then Ok(false)
    else if !Complete(left, objectives) || !Complete(right, objectives) then Err(UnusableScore)
    else Ok(AtLeast(left, right, objectives) && SomewhereBetter(left, right, objectives))
  }

  /** any(other is not candidate and dominates(other, candidate)), stopping at the first success or failure. */
  function AnyDominates(others: seq<Candidate>, c: Candidate, objectives: seq<string>): Result<bool, ScoreError> {
    if others == [] then Ok(false)
    else if others[0].id == c.id then AnyDominates(others[1..], c, objectives)
    else
      var d := Dominates(others[0], c, objectives);
      if d.Err? || d.value then d else AnyDominates(others[1..], c, objectives)
  }

  function Select(candidates: seq<Candidate>, pool: seq<Candidate>, objectives: seq<string>)
    : Result<seq<Candidate>, ScoreError>
  {
    if candidates == [] then Ok([])
    else
      var d := AnyDominates(pool, candidates[0], objectives);
      if d.Err? then Err(d.error)
      else
        var rest := Select(candidates[1..], pool, objectives);
        if rest.Err? then rest else Ok((if d.value then [] else [candidates[0]]) + rest.value)
  }

  function Frontier(candidates: seq<Candidate>, objectives: seq<string>): Result<seq<Candidate>, ScoreError> {
    Select(candidates, candidates, objectives)
  }

  // ---------------------------------------------------------------- when it fails

  // Two different gated candidates of which one has an unusable score.
  ghost predicate Incomparable(candidates: seq<Candidate>, objectives: seq<string>) {
    exists x, y | x in candidates && y in candidates ::
      x.id != y.id && x.gatePassed && y.gatePassed && !Complete(x, objectives)
  }

  lemma {:induction false} AnyFails(others: seq<Candidate>, c: Candidate, objectives: seq<string>)
    ensures AnyDominates(others, c, objectives).Err? ==>
              c.gatePassed && exists y | y in others ::
                y.id != c.id && y.gatePassed && (!Complete(y, objectives) || !Complete(c, objectives))
    ensures c.gatePassed && !Complete(c, objectives) && (exists y | y in others :: y.id != c.id && y.gatePassed) ==>
              AnyDominates(others, c, objectives).Err?
  {
    if others != [] {
      AnyFails(others[1..], c, objectives);
      assert others == [others[0]] + others[1..];
    }
  }

  lemma {:induction false} SelectFails(candidates: seq<Candidate>, pool: seq<Candidate>, objectives: seq<string>)
    ensures Select(candidates, pool, objectives).Err?
            <==> exists c | c in candidates :: AnyDominates(pool, c, objectives).Err?
  {
    if candidates != [] {
      SelectFails(candidates[1..], pool, objectives);
      if exists c :: c in candidates && AnyDominates(pool, c, objectives).Err? {
        var c :| c in candidates && AnyDominates(pool, c, objectives).Err?;
        assert c == candidates[0] || c in candidates[1..];
      }
      if AnyDominates(pool, candidates[0], objectives).Err? {
        assert candidates[0] in candidates;
      }
    }
  }

  /**
   The selection fails exactly when two different gated candidates meet and one of them has a score float() rejects.
   */
  lemma FrontierFailsExactly(candidates: seq<Candidate>, objectives: seq<string>)
    ensures Frontier(candidates, objectives).Err? <==> Incomparable(candidates, objectives)
  {
    SelectFails(candidates, candidates, objectives);
    if Frontier(candidates, objectives).Err? {
      var c :| c in candidates && AnyDominates(candidates, c, objectives).Err?;
      AnyFails(candidates, c, objectives);
      var y :| && y in candidates && y.id != c.id && y.gatePassed
               && (!Complete(y, objectives) || !Complete(c, objectives));
      if Complete(c, objectives) {
        assert y.id != c.id && !Complete(y, objectives);
      }
    }
    if Incomparable(candidates, objectives) {
      var x, y :| && x in candidates && y in candidates && x.id != y.id && x.gatePassed && y.gatePassed
                  && !Complete(x, objectives);
      AnyFails(candidates, x, objectives);
    }
  }

  // ---------------------------------------------------------------- a strict partial order

  /** The order on scores is that of floats: infinities at the ends, numbers by size, NaN with nothing. */
  lemma FloatOrder(a: Field, b: Field)
    ensures a.Number? && b.Number? ==> (AsGood(a, b) <==> a.value >= b.value) && (Better(a, b) <==> a.value > b.value)
    ensures a.PlusInfinity? && (b.Number? || b.MinusInfinity?) ==> Better(a, b) && !AsGood(b, a)
    ensures a.Number? && b.MinusInfinity? ==> Better(a, b) && !AsGood(b, a)
    ensures a == b && (a.PlusInfinity? || a.MinusInfinity?) ==> AsGood(a, b) && !Better(a, b)
    ensures a.NaN? || b.NaN? ==> !AsGood(a, b) && !Better(a, b)
  {
  }

  /**
   Among candidates with numbers for scores, one dominates another exactly when both passed their gate, it scores no
   lower on every objective, and higher on one.
   */
  lemma DominatesExactly(left: Candidate, right: Candidate, objectives: seq<string>)
    requires forall o | o in objectives ::
               o in left.scores && o in right.scores && left.scores[o].Number? && right.scores[o].Number?
    ensures Dominates(left, right, objectives)
            == Ok(&& left.gatePassed && right.gatePassed
                  && (forall o | o in objectives :: left.scores[o].value >= right.scores[o].value)
                  && (exists o | o in objectives :: left.scores[o].value > right.scores[o].value))
  {
    assert forall i | 0 <= i < |objectives| :: objectives[i] in objectives;
  }

  lemma StrictOrder(a: Candidate, b: Candidate, c: Candidate, objectives: seq<string>)
    ensures !Beats(a, a, objectives)
    ensures Beats(a, b, objectives) ==> !Beats(b, a, objectives)
    ensures Beats(a, b, objectives) && Beats(b, c, objectives) ==> Beats(a, c, objectives)
  {
    if Beats(a, b, objectives) && Beats(b, c, objectives) {
      forall i | 0 <= i < |objectives|
        ensures AsGood(Score(a, objectives[i]), Score(c, objectives[i]))
      {
        AsGoodTransitive(Score(a, objectives[i]), Score(b, objectives[i]), Score(c, objectives[i]));
      }
      var i :| 0 <= i < |objectives| && Better(Score(a, objectives[i]), Score(b, objectives[i]));
      AsGoodTransitive(Score(b, objectives[i]), Score(c, objectives[i]), Score(a, objectives[i]));
      assert Better(Score(a, objectives[i]), Score(c, objectives[i]));
    }
  }

  lemma AsGoodTransitive(x: Field, y: Field, z: Field)
    ensures AsGood(x, y) && AsGood(y, z) ==> AsGood(x, z)
  {
  }

  /** A candidate that failed its gate neither dominates nor is dominated: it is always kept. */
  lemma UngatedIsKept(candidates: seq<Candidate>, objectives: seq<string>, c: Candidate)
    requires Objects(candidates) && Frontier(candidates, objectives).Ok? && c in candidates && !c.gatePassed
    ensures c in Frontier(candidates, objectives).value
    ensures forall d :: !Beats(c, d, objectives) && !Beats(d, c, objectives)
  {
    FrontierIsUnbeaten(candidates, objectives);
    UnbeatenMembers(candidates, candidates, objectives, c);
  }

  /** One NaN among its scores and a candidate neither dominates nor is dominated: it is always kept. */
  lemma NaNIsKept(candidates: seq<Candidate>, objectives: seq<string>, c: Candidate, i: nat)
    requires Objects(candidates) && Frontier(candidates, objectives).Ok? && c in candidates
    requires i < |objectives| && Score(c, objectives[i]).NaN?
    ensures c in Frontier(candidates, objectives).value
    ensures forall d :: !Beats(c, d, objectives) && !Beats(d, c, objectives)
  {
    forall d
      ensures !Beats(c, d, objectives) && !Beats(d, c, objectives)
    {
      assert !AsGood(Score(c, objectives[i]), Score(d, objectives[i]));
      assert !AsGood(Score(d, objectives[i]), Score(c, objectives[i]));
    }
    FrontierIsUnbeaten(candidates, objectives);
    UnbeatenMembers(candidates, candidates, objectives, c);
  }

  ghost predicate Beaten(c: Candidate, pool: seq<Candidate>, objectives: seq<string>) {
    exists d | d in pool :: Beats(d, c, objectives)
  }

  ghost function Unbeaten(candidates: seq<Candidate>, pool: seq<Candidate>, objectives: seq<string>): seq<Candidate> {
    if candidates == [] then []
    else
      (if Beaten(candidates[0], pool, objectives) then [] else [candidates[0]])
      + Unbeaten(candidates[1..], pool, objectives)
  }

  // Objects are equal when they are the same object.
  ghost predicate Objects(candidates: seq<Candidate>) {
    forall x, y | x in candidates && y in candidates && x.id == y.id :: x == y
  }

  lemma {:induction false} AnyIsBeaten(others: seq<Candidate>, c: Candidate, objectives: seq<string>)
    requires AnyDominates(others, c, objectives).Ok? && forall y | y in others && y.id == c.id :: y == c
    ensures AnyDominates(others, c, objectives).value <==> Beaten(c, others, objectives)
  {
    if others != [] {
      var first, rest := others[0], others[1..];
      assert first in others && forall y :: y in others <==> y == first || y in rest;
      StrictOrder(c, c, c, objectives);
      if first.id != c.id && Beats(first, c, objectives) {
        assert AnyDominates(others, c, objectives) == Ok(true);
      } else {
        assert !Beats(first, c, objectives);
        assert AnyDominates(others, c, objectives) == AnyDominates(rest, c, objectives);
        AnyIsBeaten(rest, c, objectives);
        assert Beaten(c, others, objectives) <==> Beaten(c, rest, objectives);
      }
    }
  }

  lemma {:induction false} SelectIsUnbeaten(candidates: seq<Candidate>, pool: seq<Candidate>, objectives: seq<string>)
    requires Select(candidates, pool, objectives).Ok?
    requires forall c, y | c in candidates && y in pool && y.id == c.id :: y == c
    ensures Select(candidates, pool, objectives).value == Unbeaten(candidates, pool, objectives)
  {
    if candidates != [] {
      assert candidates[0] in candidates;
      AnyIsBeaten(pool, candidates[0], objectives);
      SelectIsUnbeaten(candidates[1..], pool, objectives);
    }
  }

  /** What is selected is, in the original order, exactly what nothing dominates. */
  lemma FrontierIsUnbeaten(candidates: seq<Candidate>, objectives: seq<string>)
    requires Objects(candidates) && Frontier(candidates, objectives).Ok?
    ensures Frontier(candidates, objectives).value == Unbeaten(candidates, candidates, objectives)
  {
    SelectIsUnbeaten(candidates, candidates, objectives);
  }

  // ---------------------------------------------------------------- domination by the kept

  ghost function BeatersOf(c: Candidate, pool: seq<Candidate>, objectives: seq<string>): set<Candidate> {
    set d | d in pool && Beats(d, c, objectives)
  }

  /** Climbing from a dominated candidate always ends at one that is kept. */
  lemma {:induction false} BeatenByKept(c: Candidate, pool: seq<Candidate>, objectives: seq<string>)
    requires Beaten(c, pool, objectives)
    ensures exists k | k in pool :: !Beaten(k, pool, objectives) && Beats(k, c, objectives)
    decreases |BeatersOf(c, pool, objectives)|
  {
    var d :| d in pool && Beats(d, c, objectives);
    if Beaten(d, pool, objectives) {
      var up, here := BeatersOf(d, pool, objectives), BeatersOf(c, pool, objectives);
      forall e | e in up
        ensures e in here
      {
        StrictOrder(e, d, c, objectives);
      }
      StrictOrder(d, d, d, objectives);
      assert d in here && d !in up;
      SubsetSize(up, here - {d});
      BeatenByKept(d, pool, objectives);
      var k :| k in pool && !Beaten(k, pool, objectives) && Beats(k, d, objectives);
      StrictOrder(k, d, c, objectives);
    }
  }

  lemma {:induction false} UnbeatenMembers(candidates: seq<Candidate>, pool: seq<Candidate>, objectives: seq<string>,
                                           c: Candidate)
    ensures c in Unbeaten(candidates, pool, objectives) <==> c in candidates && !Beaten(c, pool, objectives)
  {
    if candidates != [] {
      UnbeatenMembers(candidates[1..], pool, objectives, c);
      assert candidates == [candidates[0]] + candidates[1..];
    }
  }

  /** Every candidate left out is dominated by one that is kept; a non-empty list keeps something. */
  lemma FrontierCovers(candidates: seq<Candidate>, objectives: seq<string>)
    requires Objects(candidates) && Frontier(candidates, objectives).Ok?
    ensures var kept := Frontier(candidates, objectives).value;
            && (forall c | c in candidates && c !in kept :: Beaten(c, kept, objectives))
            && (candidates != [] ==> kept != [])
  {
    FrontierIsUnbeaten(candidates, objectives);
    var kept := Unbeaten(candidates, candidates, objectives);
    forall c | c in candidates && c !in kept
      ensures Beaten(c, kept, objectives)
    {
      UnbeatenMembers(candidates, candidates, objectives, c);
      BeatenByKept(c, candidates, objectives);
      var k :| k in candidates && !Beaten(k, candidates, objectives) && Beats(k, c, objectives);
      UnbeatenMembers(candidates, candidates, objectives, k);
    }
    if candidates != [] {
      var c := candidates[0];
      if c !in kept {
        assert Beaten(c, kept, objectives);
      }
    }
  }

  // ---------------------------------------------------------------- incremental selection

  lemma {:induction false} UnbeatenConcat(a: seq<Candidate>, b: seq<Candidate>, pool: seq<Candidate>,
                                          objectives: seq<string>)
    ensures Unbeaten(a + b, pool, objectives) == Unbeaten(a, pool, objectives) + Unbeaten(b, pool, objectives)
  {
    if a == [] {
      assert a + b == b;
    } else {
      assert (a + b)[1..] == a[1..] + b;
      UnbeatenConcat(a[1..], b, pool, objectives);
    }
  }

  lemma {:induction false} UnbeatenCong(candidates: seq<Candidate>, p: seq<Candidate>, q: seq<Candidate>,
                                        objectives: seq<string>)
    requires forall c | c in candidates :: Beaten(c, p, objectives) <==> Beaten(c, q, objectives)
    ensures Unbeaten(candidates, p, objectives) == Unbeaten(candidates, q, objectives)
  {
    if candidates != [] {
      assert candidates[0] in candidates;
      UnbeatenCong(candidates[1..], p, q, objectives);
    }
  }

  lemma {:induction false} UnbeatenTwice(candidates: seq<Candidate>, p: seq<Candidate>, q: seq<Candidate>,
                                         objectives: seq<string>)
    requires forall c | c in candidates && Beaten(c, p, objectives) :: Beaten(c, q, objectives)
    ensures Unbeaten(Unbeaten(candidates, p, objectives), q, objectives) == Unbeaten(candidates, q, objectives)
  {
    if candidates != [] {
      assert candidates[0] in candidates;
      UnbeatenTwice(candidates[1..], p, q, objectives);
      var rest := Unbeaten(candidates[1..], p, objectives);
      if !Beaten(candidates[0], p, objectives) {
        assert ([candidates[0]] + rest)[1..] == rest;
      } else {
        assert [] + rest == rest;
      }
    }
  }

  /** Dropping the dominated part of a pool does not change who is dominated. */
  lemma SamePool(a: seq<Candidate>, b: seq<Candidate>, objectives: seq<string>, c: Candidate)
    ensures Beaten(c, Unbeaten(a, a, objectives) + b, objectives) <==> Beaten(c, a + b, objectives)
  {
    var kept := Unbeaten(a, a, objectives);
    if Beaten(c, kept + b, objectives) {
      var d :| d in kept + b && Beats(d, c, objectives);
      UnbeatenMembers(a, a, objectives, d);
      assert d in a + b;
    }
    if Beaten(c, a + b, objectives) {
      var d :| d in a + b && Beats(d, c, objectives);
      if d in b {
        assert d in kept + b;
      } else {
        assert Beaten(c, a, objectives);
        BeatenByKept(c, a, objectives);
        var k :| k in a && !Beaten(k, a, objectives) && Beats(k, c, objectives);
        UnbeatenMembers(a, a, objectives, k);
        assert k in kept + b;
      }
    }
  }

  /** Selecting from an earlier frontier plus newcomers equals selecting from everything, in the same order. */
  lemma Incremental(a: seq<Candidate>, b: seq<Candidate>, objectives: seq<string>)
    requires Objects(a + b) && Frontier(a, objectives).Ok? && Frontier(a + b, objectives).Ok?
    ensures Frontier(Frontier(a, objectives).value + b, objectives) == Frontier(a + b, objectives)
  {
    var kept := Unbeaten(a, a, objectives);
    assert forall x | x in a :: x in a + b;
    FrontierIsUnbeaten(a, objectives);
    forall x | x in kept
      ensures x in a
    {
      UnbeatenMembers(a, a, objectives, x);
    }
    assert forall x | x in kept + b :: x in a + b;
    FrontierFailsExactly(kept + b, objectives);
    FrontierFailsExactly(a + b, objectives);
    FrontierIsUnbeaten(a + b, objectives);
    FrontierIsUnbeaten(kept + b, objectives);
    forall c
      ensures Beaten(c, kept + b, objectives) <==> Beaten(c, a + b, objectives)
    {
      SamePool(a, b, objectives, c);
    }
    UnbeatenCong(kept + b, kept + b, a + b, objectives);
    UnbeatenConcat(kept, b, a + b, objectives);
    UnbeatenConcat(a, b, a + b, objectives);
    UnbeatenTwice(a, a, a + b, objectives);
  }

  /** Selecting twice changes nothing. */
  lemma Idempotent(a: seq<Candidate>, objectives: seq<string>)
    requires Objects(a) && Frontier(a, objectives).Ok?
    ensures Frontier(Frontier(a, objectives).value, objectives) == Frontier(a, objectives)
  {
    assert a + [] == a && Frontier(a, objectives).value + [] == Frontier(a, objectives).value;
    Incremental(a, [], objectives);
  }
}
