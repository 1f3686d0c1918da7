/**
 Aligning the arbitrary state labels of two fitted models (ml-service/market_context/hmm_model.py:137-188):
 a brute-force search over all relabellings, relabelling itself, and the run-length statistics of a
 state sequence.
 */
module StateAlignment {
  import opened Prelude

  type Row = seq<real>
  type Distance = (Row, Row) -> real

  datatype AlignError = ShapeMismatch | PermutationUnavailable | StateOutOfRange

  // ---------------------------------------------------------------- itertools.permutations

  function Range(n: nat): (r: seq<nat>)
    ensures |r| == n && forall i | 0 <= i < n :: r[i] == i
  {
    seq(n, i => i)
  }

  function Drop(items: seq<nat>, i: nat): (r: seq<nat>)
    requires i < |items|
    ensures |r| == |items| - 1
  {
    items[..i] + items[i + 1..]
  }

  function Prefixed(x: nat, ps: seq<seq<nat>>): (r: seq<seq<nat>>)
    ensures |r| == |ps| && forall i | 0 <= i < |ps| :: r[i] == [x] + ps[i]
  {
    seq(|ps|, i requires 0 <= i < |ps| => [x] + ps[i])
  }

  /** The orderings of items whose first element is one of items[0..k), in the order Python yields them. */
  function StartingWith(items: seq<nat>, k: nat): seq<seq<nat>>
    requires k <= |items|
    decreases |items|, k
  {
    if k == 0 then []
    else StartingWith(items, k - 1) + Prefixed(items[k - 1], Permutations(Drop(items, k - 1)))
  }

  function Permutations(items: seq<nat>): seq<seq<nat>>
    decreases |items|, |items| + 1
  {
    if items == [] then [[]] else StartingWith(items, |items|)
  }

  predicate Rearranges(p: seq<nat>, items: seq<nat>) {
    multiset(p) == multiset(items)
  }

  lemma DropCounts(items: seq<nat>, i: nat)
    requires i < |items|
    ensures multiset(items) == multiset(Drop(items, i)) + multiset{items[i]}
  {
    assert items == items[..i] + [items[i]] + items[i + 1..];
  }

  lemma {:induction false} StartingWithExact(items: seq<nat>, k: nat, p: seq<nat>)
    requires k <= |items|
    ensures p in StartingWith(items, k) <==> Rearranges(p, items) && p != [] && p[0] in items[..k]
    decreases |items|, k
  {
    hide Rearranges, Permutations;
    if k > 0 {
      StartingWithExact(items, k - 1, p);
      BlockExact(items, k - 1, p);
      assert items[..k] == items[..k - 1] + [items[k - 1]];
    }
  }

  lemma BlockExact(items: seq<nat>, i: nat, p: seq<nat>)
    requires i < |items|
    ensures p in Prefixed(items[i], Permutations(Drop(items, i)))
            <==> Rearranges(p, items) && p != [] && p[0] == items[i]
    decreases |items|, i
  {
    hide Rearranges, Permutations;
    PrefixedMembers(items[i], Permutations(Drop(items, i)), p);
    if p != [] && p[0] == items[i] {
      PermutationsExact(Drop(items, i), p[1..]);
      HeadCounts(p, items, i);
    }
  }

  lemma PrefixedMembers(x: nat, ps: seq<seq<nat>>, p: seq<nat>)
    ensures p in Prefixed(x, ps) <==> p != [] && p[0] == x && p[1..] in ps
  {
    var r := Prefixed(x, ps);
    if p in r {
      var i :| 0 <= i < |r| && r[i] == p;
      assert p[1..] == ps[i];
    }
    if p != [] && p[0] == x && p[1..] in ps {
      var i :| 0 <= i < |ps| && ps[i] == p[1..];
      assert r[i] == p;
    }
  }

  lemma HeadCounts(p: seq<nat>, items: seq<nat>, i: nat)
    requires i < |items| && p != [] && p[0] == items[i]
    ensures Rearranges(p, items) <==> Rearranges(p[1..], Drop(items, i))
  {
    DropCounts(items, i);
    DropCounts(p, 0);
    assert Drop(p, 0) == p[1..];
    if Rearranges(p, items) {
      assert multiset(p[1..]) == multiset(p) - multiset{p[0]};
      assert multiset(Drop(items, i)) == multiset(items) - multiset{items[i]};
    }
  }

  /** The enumeration yields exactly the rearrangements of its items. */
  lemma {:induction false} PermutationsExact(items: seq<nat>, p: seq<nat>)
    ensures p in Permutations(items) <==> Rearranges(p, items)
    decreases |items|, |items| + 1
  {
    if items == [] {
      if Rearranges(p, items) {
        assert |p| == |multiset(p)| == 0;
      }
    } else {
      StartingWithExact(items, |items|, p);
      assert items[..|items|] == items;
      if Rearranges(p, items) {
        assert |p| == |multiset(p)| == |multiset(items)| == |items|;
        assert p[0] in multiset(p);
      }
    }
  }

  predicate LexLess(p: seq<nat>, q: seq<nat>) {
    if p == [] || q == [] then p == [] && q != []
    else p[0] < q[0] || (p[0] == q[0] && LexLess(p[1..], q[1..]))
  }

  ghost predicate LexSorted(ps: seq<seq<nat>>) {
    forall i, j | 0 <= i < j < |ps| :: LexLess(ps[i], ps[j])
  }

  ghost predicate Increasing(items: seq<nat>) {
    forall i, j | 0 <= i < j < |items| :: items[i] < items[j]
  }

  lemma {:induction false} StartingWithSorted(items: seq<nat>, k: nat)
    requires k <= |items| && Increasing(items)
    ensures LexSorted(StartingWith(items, k))
    decreases |items|, k
  {
    if k > 0 {
      StartingWithSorted(items, k - 1);
      var x, rest := items[k - 1], Permutations(Drop(items, k - 1));
      PermutationsSorted(Drop(items, k - 1));
      PrefixedSorted(x, rest);
      var front, back := StartingWith(items, k - 1), Prefixed(x, rest);
      forall i, j | 0 <= i < j < |front + back|
        ensures LexLess((front + back)[i], (front + back)[j])
      {
        if i < |front| <= j {
          assert front[i] in front;
          StartingWithExact(items, k - 1, front[i]);
        }
      }
    }
  }

  lemma PrefixedSorted(x: nat, ps: seq<seq<nat>>)
    requires LexSorted(ps)
    ensures LexSorted(Prefixed(x, ps))
  {
    var r := Prefixed(x, ps);
    forall i, j | 0 <= i < j < |r|
      ensures LexLess(r[i], r[j])
    {
      assert r[i][1..] == ps[i] && r[j][1..] == ps[j];
    }
  }

  lemma {:induction false} PermutationsSorted(items: seq<nat>)
    requires Increasing(items)
    ensures LexSorted(Permutations(items))
    decreases |items|, |items| + 1
  {
    if items != [] {
      StartingWithSorted(items, |items|);
    }
  }

  // ---------------------------------------------------------------- the optimal relabelling

  predicate Relabelling(p: seq<nat>, n: nat) {
    Rearranges(p, Range(n))
  }

  /** A rearrangement of 0..n-1 is a bijection on those labels. */
  lemma RelabellingBijective(p: seq<nat>, n: nat)
    requires Relabelling(p, n)
    ensures |p| == n
    ensures forall i | 0 <= i < n :: p[i] < n
    ensures forall i, j | 0 <= i < j < n :: p[i] != p[j]
    ensures forall v: nat | v < n :: v in p
  {
    assert |p| == |multiset(p)| == |multiset(Range(n))| == n;
    forall i | 0 <= i < n
      ensures p[i] < n
    {
      assert p[i] in multiset(p);
      assert p[i] in Range(n);
    }
    forall i, j | 0 <= i < j < n
      ensures p[i] != p[j]
    {
      if p[i] == p[j] {
        TwiceInSeq(p, i, j);
        OnceInRange(n, p[i]);
      }
    }
    forall v: nat | v < n
      ensures v in p
    {
      assert Range(n)[v] == v;
      assert v in multiset(Range(n));
    }
  }

  lemma TwiceInSeq(p: seq<nat>, i: nat, j: nat)
    requires i < j < |p| && p[i] == p[j]
    ensures multiset(p)[p[i]] >= 2
  {
    assert p == p[..i] + [p[i]] + p[i + 1..j] + [p[j]] + p[j + 1..];
  }

  lemma {:induction false} OnceInRange(n: nat, v: nat)
    ensures multiset(Range(n))[v] == if v < n then 1 else 0
  {
    if n > 0 {
      assert Range(n) == Range(n - 1) + [n - 1];
      OnceInRange(n - 1, v);
    }
  }

  function Cost(reference: seq<Row>, candidate: seq<Row>, norm: Distance, p: seq<nat>, k: nat): real
    requires k <= |p| && k <= |candidate| && forall i | 0 <= i < k :: p[i] < |reference|
  {
    if k == 0 then 0.0
    else Cost(reference, candidate, norm, p, k - 1) + norm(candidate[k - 1], reference[p[k - 1]])
  }

  function FullCost(reference: seq<Row>, candidate: seq<Row>, norm: Distance, p: seq<nat>): real
    requires |candidate| == |reference| && Relabelling(p, |reference|)
  {
    RelabellingBijective(p, |reference|);
    Cost(reference, candidate, norm, p, |p|)
  }

  /** Sending one candidate state elsewhere changes the cost by the difference of its two distances, and by no more. */
  lemma {:induction false} CostOfOneChange(reference: seq<Row>, candidate: seq<Row>, norm: Distance, p: seq<nat>,
                                           k: nat, i: nat, v: nat)
    requires k <= |p| && k <= |candidate| && v < |reference| && forall j | 0 <= j < k :: p[j] < |reference|
    requires i < |p|
    ensures Cost(reference, candidate, norm, p[i := v], k) - Cost(reference, candidate, norm, p, k)
            == if i < k then norm(candidate[i], reference[v]) - norm(candidate[i], reference[p[i]]) else 0.0
  {
    if k > 0 {
      CostOfOneChange(reference, candidate, norm, p, k - 1, i, v);
    }
  }

  /** With two states the search compares the two sums of distances. */
  lemma TwoStates(reference: seq<Row>, candidate: seq<Row>, norm: Distance)
    requires |reference| == |candidate| == 2
    ensures Relabelling([0, 1], 2) && Relabelling([1, 0], 2)
    ensures FullCost(reference, candidate, norm, [0, 1])
            == norm(candidate[0], reference[0]) + norm(candidate[1], reference[1])
    ensures FullCost(reference, candidate, norm, [1, 0])
            == norm(candidate[0], reference[1]) + norm(candidate[1], reference[0])
  {
    assert Range(2) == [0, 1];
    assert Cost(reference, candidate, norm, [0, 1], 1) == norm(candidate[0], reference[0]);
    assert Cost(reference, candidate, norm, [1, 0], 1) == norm(candidate[0], reference[1]);
  }

  predicate SameShape(a: seq<Row>, b: seq<Row>) {
    |a| == |b| && forall i | 0 <= i < |a| :: |a[i]| == |b[i]|
  }

  /** The cheapest relabelling, and the lexicographically first among the cheapest; never unavailable. */
  method StatePermutation(reference: seq<Row>, candidate: seq<Row>, norm: Distance)
    returns (r: Result<seq<nat>, AlignError>)
    ensures r.Ok? <==> |reference| == |candidate| && forall i | 0 <= i < |reference| :: |reference[i]| == |candidate[i]|
    ensures r.Err? ==> r.error == ShapeMismatch
    ensures r.Ok? ==> Relabelling(r.value, |reference|)
    ensures r.Ok? ==> forall q | Relabelling(q, |reference|) ::
                FullCost(reference, candidate, norm, r.value) <= FullCost(reference, candidate, norm, q)
    ensures r.Ok? ==> forall q | Relabelling(q, |reference|) && LexLess(q, r.value) ::
                FullCost(reference, candidate, norm, r.value) < FullCost(reference, candidate, norm, q)
  {
    if !SameShape(reference, candidate) {
      return Err(ShapeMismatch);
    }
    var n := |reference|;
    var permutations := Permutations(Range(n));
    forall p
      ensures p in permutations <==> Relabelling(p, n)
    {
      PermutationsExact(Range(n), p);
    }
    PermutationsSorted(Range(n));
    hide FullCost, Relabelling, LexLess, Permutations;
    var best: Option<seq<nat>> := None;
    var bestCost := 0.0;
    ghost var b := 0;
    for k := 0 to |permutations|
      invariant best.None? <==> k == 0
      invariant k > 0 ==> best.Some? && FirstBest(reference, candidate, norm, permutations, k, b, best.value, bestCost)
    {
      assert permutations[k] in permutations;
      var cost := FullCost(reference, candidate, norm, permutations[k]);
      if best.None? || cost < bestCost {
        best, bestCost, b := Some(permutations[k]), cost, k;
      }
    }
    assert Relabelling(Range(n), n) by { RangeRelabels(n); }
    assert Range(n) in permutations;
    if best.None? {
      return Err(PermutationUnavailable);
    }
    BestIsFirst(reference, candidate, norm, permutations, b, best.value, bestCost);
    return Ok(best.value);
  }

  lemma RangeRelabels(n: nat)
    ensures Relabelling(Range(n), n)
  {
  }

  // best is ps[b], strictly cheaper than everything before b and no dearer than the rest of ps[..k].
  ghost predicate FirstBest(reference: seq<Row>, candidate: seq<Row>, norm: Distance, ps: seq<seq<nat>>, k: nat,
                            b: nat, best: seq<nat>, cost: real)
    requires |candidate| == |reference| && k <= |ps|
  {
    && b < k && ps[b] == best
    && (forall i | 0 <= i < k :: Relabelling(ps[i], |reference|))
    && cost == FullCost(reference, candidate, norm, best)
    && (forall i | 0 <= i < b :: cost < FullCost(reference, candidate, norm, ps[i]))
    && (forall i | b <= i < k :: cost <= FullCost(reference, candidate, norm, ps[i]))
  }

  lemma BestIsFirst(reference: seq<Row>, candidate: seq<Row>, norm: Distance, ps: seq<seq<nat>>, b: nat,
                    best: seq<nat>, cost: real)
    requires |candidate| == |reference| && FirstBest(reference, candidate, norm, ps, |ps|, b, best, cost)
             && LexSorted(ps)
    requires forall q | q in ps :: Relabelling(q, |reference|)
    ensures forall q | q in ps :: cost <= FullCost(reference, candidate, norm, q)
    ensures forall q | q in ps && LexLess(q, best) :: cost < FullCost(reference, candidate, norm, q)
  {
    forall q | q in ps
      ensures cost <= FullCost(reference, candidate, norm, q)
      ensures LexLess(q, best) ==> cost < FullCost(reference, candidate, norm, q)
    {
      var i :| 0 <= i < |ps| && ps[i] == q;
      if i > b {
        LexAsymmetric(ps[b], ps[i]);
      } else if i == b {
        LexIrreflexive(q);
      }
    }
  }

  lemma {:induction false} LexIrreflexive(p: seq<nat>)
    ensures !LexLess(p, p)
  {
    if p != [] {
      LexIrreflexive(p[1..]);
    }
  }

  lemma {:induction false} LexAsymmetric(p: seq<nat>, q: seq<nat>)
    requires LexLess(p, q)
    ensures !LexLess(q, p)
  {
    if p != [] && q != [] && p[0] == q[0] {
      LexAsymmetric(p[1..], q[1..]);
    }
  }

  ghost predicate Metric(norm: Distance) {
    forall a, b :: norm(a, b) >= 0.0 && (norm(a, b) == 0.0 <==> a == b)
  }

  /**
   When the candidate's states are the reference's under other labels, the cheapest relabelling undoes exactly that.
   */
  lemma RecoversRelabelling(reference: seq<Row>, candidate: seq<Row>, norm: Distance, truth: seq<nat>, best: seq<nat>)
    requires Metric(norm) && |candidate| == |reference|
    requires Relabelling(truth, |reference|) && Relabelling(best, |reference|)
    requires forall i, j | 0 <= i < j < |reference| :: reference[i] != reference[j]
    requires forall i | 0 <= i < |candidate| && i < |truth| && truth[i] < |reference| ::
             candidate[i] == reference[truth[i]]
    requires FullCost(reference, candidate, norm, best) <= FullCost(reference, candidate, norm, truth)
    ensures best == truth
  {
    RelabellingBijective(truth, |reference|);
    RelabellingBijective(best, |reference|);
    ZeroCost(reference, candidate, norm, truth, |truth|);
    CostZero(reference, candidate, norm, best, |best|);
    forall i | 0 <= i < |best|
      ensures best[i] == truth[i]
    {
      assert reference[best[i]] == candidate[i] == reference[truth[i]];
    }
  }

  lemma {:induction false} ZeroCost(reference: seq<Row>, candidate: seq<Row>, norm: Distance, p: seq<nat>, k: nat)
    requires Metric(norm) && k <= |p| && k <= |candidate| && forall i | 0 <= i < k :: p[i] < |reference|
    requires forall i | 0 <= i < k :: candidate[i] == reference[p[i]]
    ensures Cost(reference, candidate, norm, p, k) == 0.0
  {
    if k > 0 {
      ZeroCost(reference, candidate, norm, p, k - 1);
    }
  }

  lemma {:induction false} CostZero(reference: seq<Row>, candidate: seq<Row>, norm: Distance, p: seq<nat>, k: nat)
    requires Metric(norm) && k <= |p| && k <= |candidate| && forall i | 0 <= i < k :: p[i] < |reference|
    ensures Cost(reference, candidate, norm, p, k) >= 0.0
    ensures Cost(reference, candidate, norm, p, k) == 0.0 ==> forall i | 0 <= i < k :: candidate[i] == reference[p[i]]
  {
    if k > 0 {
      CostZero(reference, candidate, norm, p, k - 1);
    }
  }

  // ---------------------------------------------------------------- relabelling a state sequence

  function AlignStates(states: seq<int>, p: seq<nat>): (r: Result<seq<int>, AlignError>)
    ensures r.Ok? <==> forall i | 0 <= i < |states| :: 0 <= states[i] < |p|
    ensures r.Ok? ==> |r.value| == |states| && forall i | 0 <= i < |states| :: r.value[i] == p[states[i]]
  {
    if exists i | 0 <= i < |states| :: !(0 <= states[i] < |p|) then Err(StateOutOfRange)
    else Ok(seq(|states|, i requires 0 <= i < |states| => p[states[i]]))
  }

  function Count(states: seq<int>, s: int): nat {
    if states == [] then 0 else Count(states[..|states| - 1], s) + if states[|states| - 1] == s then 1 else 0
  }

  function Switches(states: seq<int>): nat {
    if |states| < 2 then 0
    else
      Switches(states[..|states| - 1])
      + if states[|states| - 2] != states[|states| - 1] then 1 else 0
  }

  /** Relabelling by a bijection keeps every switch and carries each state's occupancy to its new label. */
  lemma {:induction false} RelabellingPreserves(states: seq<int>, p: seq<nat>, s: nat)
    requires Relabelling(p, |p|) && s < |p| && forall i | 0 <= i < |states| :: 0 <= states[i] < |p|
    ensures Switches(AlignStates(states, p).value) == Switches(states)
    ensures Count(AlignStates(states, p).value, p[s]) == Count(states, s)
  {
    RelabellingBijective(p, |p|);
    if states != [] {
      var k := |states| - 1;
      RelabellingPreserves(states[..k], p, s);
      var aligned := AlignStates(states, p).value;
      assert aligned[..k] == AlignStates(states[..k], p).value;
      assert aligned[k] == p[s] <==> states[k] == s;
      if k > 0 {
        assert aligned[k - 1] != aligned[k] <==> states[k - 1] != states[k];
      }
    }
  }

  // ---------------------------------------------------------------- run lengths

  function Total(xs: seq<nat>): nat {
    if xs == [] then 0 else Total(xs[..|xs| - 1]) + xs[|xs| - 1]
  }

  function Runs(durations: seq<seq<nat>>): nat {
    if durations == [] then 0 else Runs(durations[..|durations| - 1]) + |durations[|durations| - 1]|
  }

  lemma {:induction false} RunsAppend(durations: seq<seq<nat>>, s: nat, x: nat)
    requires s < |durations|
    ensures Runs(durations[s := durations[s] + [x]]) == Runs(durations) + 1
  {
    var k := |durations| - 1;
    var after := durations[s := durations[s] + [x]];
    if s == k {
      assert after[..k] == durations[..k];
    } else {
      RunsAppend(durations[..k], s, x);
      assert after[..k] == durations[..k][s := durations[..k][s] + [x]];
    }
  }

  lemma {:induction false} RunsEmpty(durations: seq<seq<nat>>)
    requires forall s | 0 <= s < |durations| :: durations[s] == []
    ensures Runs(durations) == 0
  {
    if durations != [] {
      RunsEmpty(durations[..|durations| - 1]);
    }
  }

  datatype Metrics = Metrics(occupancy: seq<real>, minimumOccupancy: real, switchingRate: real,
                             durations: seq<seq<nat>>, meanDurations: seq<real>)

  function Minimum(xs: seq<real>): (m: real)
    requires xs != []
    ensures m in xs && forall x | x in xs :: m <= x
  {
    if |xs| == 1 then xs[0]
    else
      var rest := Minimum(xs[1..]);
      assert forall x :: x in xs <==> x == xs[0] || x in xs[1..];
      if xs[0] < rest then xs[0] else rest
  }

  function Fraction(part: int, whole: int): real
    requires whole > 0
  {
    part as real / whole as real
  }

  function Occupancy(observed: seq<int>, stateCount: nat): (r: seq<real>)
    requires observed != []
    ensures |r| == stateCount && forall s | 0 <= s < stateCount :: r[s] == Fraction(Count(observed, s), |observed|)
  {
    seq(stateCount, s requires 0 <= s < stateCount => Fraction(Count(observed, s), |observed|))
  }

  function Mean(durations: seq<nat>): real {
    if durations == [] then 0.0 else Fraction(Total(durations), |durations|)
  }

  function Means(durations: seq<seq<nat>>): (r: seq<real>)
    ensures |r| == |durations| && forall s | 0 <= s < |r| :: r[s] == Mean(durations[s])
  {
    seq(|durations|, s requires 0 <= s < |durations| => Mean(durations[s]))
  }

  /** A mean duration times the number of runs is the occupancy count: the three statistics fit together. */
  lemma MeanFitsOccupancy(observed: seq<int>, stateCount: nat, durations: seq<seq<nat>>, s: nat)
    requires Accounts(observed, stateCount, durations) && s < stateCount
    ensures Mean(durations[s]) * |durations[s]| as real == Count(observed, s) as real
    ensures Mean(durations[s]) == 0.0 <==> Count(observed, s) == 0
  {
    hide Total, Count, Accounts, Mean;
    AccountsMeans(observed, stateCount, durations);
    MeanIs(durations[s]);
  }

  lemma MeanIs(xs: seq<nat>)
    ensures Mean(xs) * |xs| as real == Total(xs) as real
    ensures Mean(xs) == 0.0 <==> Total(xs) == 0
  {
    NoRunsNoTotal(xs);
    hide Total, Fraction;
    if xs != [] {
      Ratio(Total(xs), |xs|);
    }
  }

  lemma NoRunsNoTotal(xs: seq<nat>)
    ensures xs == [] ==> Total(xs) == 0
  {
  }

  lemma Ratio(t: nat, n: nat)
    requires n > 0
    ensures Fraction(t, n) * n as real == t as real
    ensures Fraction(t, n) == 0.0 <==> t == 0
  {
    var q := t as real / n as real;
    assert q * n as real == t as real;
  }

  ghost predicate Accounts(observed: seq<int>, stateCount: nat, durations: seq<seq<nat>>) {
    && |durations| == stateCount
    && (forall s | 0 <= s < stateCount :: Total(durations[s]) == Count(observed, s))
    && (forall s, i | 0 <= s < stateCount && 0 <= i < |durations[s]| :: durations[s][i] > 0)
    && Runs(durations) == Switches(observed) + 1
  }

  // State of the scan after seen: the last run, of runLength copies of runState, is not recorded yet.
  ghost predicate Scanned(seen: seq<int>, stateCount: nat, durations: seq<seq<nat>>, runState: int, runLength: nat) {
    && seen != [] && seen[|seen| - 1] == runState && runLength >= 1
    && |durations| == stateCount
    && (forall i | 0 <= i < |seen| :: 0 <= seen[i] < stateCount || seen[i] == runState)
    && (forall s | 0 <= s < stateCount ::
         Total(durations[s]) + (if s == runState then runLength else 0) == Count(seen, s))
    && (forall s, i | 0 <= s < stateCount && 0 <= i < |durations[s]| :: durations[s][i] > 0)
    && Runs(durations) == Switches(seen)
  }

  lemma TotalAppend(xs: seq<nat>, x: nat)
    ensures Total(xs + [x]) == Total(xs) + x
  {
    assert (xs + [x])[..|xs|] == xs;
  }

  lemma ScanFirst(state: int, stateCount: nat, durations: seq<seq<nat>>)
    requires |durations| == stateCount && forall s | 0 <= s < stateCount :: durations[s] == []
    ensures Scanned([state], stateCount, durations, state, 1)
  {
    RunsEmpty(durations);
    assert [state][..0] == [];
  }

  lemma ScanSame(seen: seq<int>, stateCount: nat, durations: seq<seq<nat>>, runState: int, runLength: nat)
    requires Scanned(seen, stateCount, durations, runState, runLength)
    ensures Scanned(seen + [runState], stateCount, durations, runState, runLength + 1)
  {
    assert (seen + [runState])[..|seen|] == seen;
  }

  lemma Recorded(seen: seq<int>, stateCount: nat, durations: seq<seq<nat>>, runState: int, runLength: nat)
    requires Scanned(seen, stateCount, durations, runState, runLength) && 0 <= runState < stateCount
    ensures Accounts(seen, stateCount, durations[runState := durations[runState] + [runLength]])
  {
    TotalAppend(durations[runState], runLength);
    RunsAppend(durations, runState, runLength);
  }

  lemma ScanSwitch(seen: seq<int>, stateCount: nat, durations: seq<seq<nat>>, state: int)
    requires seen != [] && Accounts(seen, stateCount, durations) && state != seen[|seen| - 1]
    requires forall i | 0 <= i < |seen| :: 0 <= seen[i] < stateCount
    ensures Scanned(seen + [state], stateCount, durations, state, 1)
  {
    var next := seen + [state];
    assert next[..|seen|] == seen;
    forall s | 0 <= s < stateCount
      ensures Total(durations[s]) + (if s == state then 1 else 0) == Count(next, s)
    {
    }
  }

  // ---------------------------------------------------------------- the runs themselves

  // A stretch of equal labels.
  datatype Stretch = Stretch(state: int, length: nat)

  ghost function Spread(runs: seq<Stretch>): seq<int> {
    if runs == [] then []
    else
      var last := runs[|runs| - 1];
      Spread(runs[..|runs| - 1]) + seq(last.length, _ => last.state)
  }

  lemma FirstStretch(state: int, durations: seq<seq<nat>>)
    requires forall s | 0 <= s < |durations| :: durations[s] == []
    ensures Stretches([state], [] + [Stretch(state, 1)]) && Lengths([], durations)
  {
    OpenStretch([], [], state);
    assert [] + [state] == [state];
  }

  // Written out they are the sequence; none is empty and no two neighbours have the same label, so each is maximal.
  ghost predicate Stretches(observed: seq<int>, runs: seq<Stretch>) {
    && Spread(runs) == observed
    && (forall i | 0 <= i < |runs| :: runs[i].length > 0)
    && (forall i | 0 < i < |runs| :: runs[i - 1].state != runs[i].state)
  }

  ghost function LengthsOf(runs: seq<Stretch>, s: int): seq<nat> {
    if runs == [] then []
    else
      var last := runs[|runs| - 1];
      LengthsOf(runs[..|runs| - 1], s) + if last.state == s then [last.length] else []
  }

  ghost predicate Lengths(runs: seq<Stretch>, durations: seq<seq<nat>>) {
    forall s | 0 <= s < |durations| :: durations[s] == LengthsOf(runs, s)
  }

  lemma OpenStretch(seen: seq<int>, runs: seq<Stretch>, state: int)
    requires Stretches(seen, runs) && (runs != [] ==> runs[|runs| - 1].state != state)
    ensures Stretches(seen + [state], runs + [Stretch(state, 1)])
  {
    assert (runs + [Stretch(state, 1)])[..|runs|] == runs;
    assert seq(1, _ => state) == [state];
  }

  lemma LongerStretch(seen: seq<int>, runs: seq<Stretch>, state: int, length: nat)
    requires Stretches(seen, runs + [Stretch(state, length)])
    ensures Stretches(seen + [state], runs + [Stretch(state, length + 1)])
  {
    var before, after := runs + [Stretch(state, length)], runs + [Stretch(state, length + 1)];
    assert before[..|runs|] == runs && after[..|runs|] == runs;
    assert forall i | 0 <= i < |runs| :: before[i] == runs[i] && after[i] == runs[i];
    assert seq(length + 1, _ => state) == seq(length, _ => state) + [state];
    assert Spread(after) == Spread(before) + [state];
    assert before[|runs|].state == after[|runs|].state;
  }

  lemma LengthsRecorded(runs: seq<Stretch>, durations: seq<seq<nat>>, state: nat, length: nat)
    requires Lengths(runs, durations) && state < |durations|
    ensures Lengths(runs + [Stretch(state, length)], durations[state := durations[state] + [length]])
  {
    assert (runs + [Stretch(state, length)])[..|runs|] == runs;
  }

  /** A sequence falls into stretches in one way only. */
  lemma {:induction false} StretchesUnique(observed: seq<int>, p: seq<Stretch>, q: seq<Stretch>)
    requires Stretches(observed, p) && Stretches(observed, q)
    ensures p == q
  {
    if p == [] || q == [] {
      assert observed == [] ==> p == [] && q == [];
    } else {
      var a, b := p[|p| - 1], q[|q| - 1];
      LastStretch(observed, p);
      LastStretch(observed, q);
      var n := |observed|;
      assert a.state == observed[n - 1] == b.state;
      NoLonger(observed, a, b);
      NoLonger(observed, b, a);
      assert p == p[..|p| - 1] + [a] && q == q[..|q| - 1] + [b];
      StretchesUnique(observed[..|observed| - a.length], p[..|p| - 1], q[..|q| - 1]);
    }
  }

  lemma NoLonger(observed: seq<int>, a: Stretch, b: Stretch)
    requires a.state == b.state && b.length <= |observed|
    requires a.length < |observed| ==> observed[|observed| - a.length - 1] != a.state
    requires forall i | |observed| - b.length <= i < |observed| :: observed[i] == b.state
    ensures b.length <= a.length
  {
  }

  // The last stretch is as long as the labels at the end agree.
  lemma LastStretch(observed: seq<int>, runs: seq<Stretch>)
    requires Stretches(observed, runs) && runs != []
    ensures var last, n := runs[|runs| - 1], |observed|;
            && last.length <= n && Stretches(observed[..n - last.length], runs[..|runs| - 1])
            && (forall i | n - last.length <= i < n :: observed[i] == last.state)
            && (n > last.length ==> observed[n - last.length - 1] != last.state)
  {
    var front, last := runs[..|runs| - 1], runs[|runs| - 1];
    assert Spread(runs) == Spread(front) + seq(last.length, _ => last.state);
    assert observed[..|observed| - last.length] == Spread(front);
    if front != [] {
      var earlier := front[|front| - 1];
      assert Spread(front) == Spread(front[..|front| - 1]) + seq(earlier.length, _ => earlier.state);
      assert earlier.state != last.state;
    }
  }

  /**
   The scan itself: it fails on an empty sequence or a label outside 0..stateCount-1, and otherwise lists, for each
   state, the lengths of its stretches in order, which accounts for all observations.
   */
  method RecordRuns(observed: seq<int>, stateCount: nat) returns (r: Result<seq<seq<nat>>, AlignError>)
    ensures r.Ok? <==> observed != [] && forall i | 0 <= i < |observed| :: 0 <= observed[i] < stateCount
    ensures r.Ok? ==> Accounts(observed, stateCount, r.value)
    ensures r.Ok? ==> exists runs :: Stretches(observed, runs) && Lengths(runs, r.value)
  {
    hide Accounts, Scanned, Stretches, LengthsOf;
    if observed == [] || exists i | 0 <= i < |observed| :: observed[i] < 0 {
      return Err(StateOutOfRange);
    }
    var durations: seq<seq<nat>> := seq(stateCount, _ => []);
    var runState, runLength := observed[0], 1;
    ScanFirst(observed[0], stateCount, durations);
    assert observed[..1] == [observed[0]];
    ghost var runs: seq<Stretch> := [];
    FirstStretch(observed[0], durations);
    hide Lengths;
    for k := 1 to |observed|
      invariant |durations| == stateCount && runState == observed[k - 1]
      invariant Scanned(observed[..k], stateCount, durations, runState, runLength)
      invariant forall i | 0 <= i < k :: observed[i] < stateCount || observed[i] == runState
      invariant Stretches(observed[..k], runs + [Stretch(runState, runLength)]) && Lengths(runs, durations)
    {
      var state := observed[k];
      assert observed[..k + 1] == observed[..k] + [state];
      if state == runState {
        ScanSame(observed[..k], stateCount, durations, runState, runLength);
        LongerStretch(observed[..k], runs, runState, runLength);
        runLength := runLength + 1;
      } else {
        if runState >= stateCount {
          return Err(StateOutOfRange);
        }
        Recorded(observed[..k], stateCount, durations, runState, runLength);
        LengthsRecorded(runs, durations, runState, runLength);
        runs := runs + [Stretch(runState, runLength)];
        OpenStretch(observed[..k], runs, state);
        durations := durations[runState := durations[runState] + [runLength]];
        ScanSwitch(observed[..k], stateCount, durations, state);
        runState, runLength := state, 1;
      }
    }
    assert observed[..|observed|] == observed;
    if runState >= stateCount {
      return Err(StateOutOfRange);
    }
    Recorded(observed, stateCount, durations, runState, runLength);
    LengthsRecorded(runs, durations, runState, runLength);
    return Ok(durations[runState := durations[runState] + [runLength]]);
  }

  /** The statistics of a state sequence: occupancies, switching rate and run lengths all describe the same runs. */
  method StateMetrics(observed: seq<int>, stateCount: nat) returns (r: Result<Metrics, AlignError>)
    ensures r.Ok? <==> observed != [] && forall i | 0 <= i < |observed| :: 0 <= observed[i] < stateCount
    ensures r.Ok? ==> Accounts(observed, stateCount, r.value.durations)
    ensures r.Ok? ==> exists runs :: Stretches(observed, runs) && Lengths(runs, r.value.durations)
    ensures r.Ok? ==> |r.value.occupancy| == stateCount
    ensures r.Ok? ==> forall s | 0 <= s < stateCount ::
            r.value.occupancy[s] == Fraction(Total(r.value.durations[s]), |observed|)
    ensures r.Ok? ==> r.value.minimumOccupancy in r.value.occupancy
    ensures r.Ok? ==> forall s | 0 <= s < stateCount :: r.value.minimumOccupancy <= r.value.occupancy[s]
    ensures r.Ok? ==> r.value.meanDurations == Means(r.value.durations)
    ensures r.Ok? ==>
              r.value.switchingRate == if |observed| == 1 then 0.0
                else Fraction(Runs(r.value.durations) - 1, |observed| - 1)
  {
    hide Accounts, Total, Runs, Count, Switches, Mean, Fraction, Stretches, Lengths;
    var runs := RecordRuns(observed, stateCount);
    if runs.Err? {
      return Err(runs.error);
    }
    var durations := runs.value;
    AccountsMeans(observed, stateCount, durations);
    var occupancy := Occupancy(observed, stateCount);
    assert 0 <= observed[0] < stateCount;
    assert forall s | 0 <= s < stateCount :: occupancy[s] in occupancy;
    var rate := if |observed| > 1 then Fraction(Switches(observed), |observed| - 1) else 0.0;
    return Ok(Metrics(occupancy, Minimum(occupancy), rate, durations, Means(durations)));
  }

  lemma AccountsMeans(observed: seq<int>, stateCount: nat, durations: seq<seq<nat>>)
    requires Accounts(observed, stateCount, durations)
    ensures |durations| == stateCount
    ensures forall s | 0 <= s < stateCount :: Total(durations[s]) == Count(observed, s)
    ensures Runs(durations) - 1 == Switches(observed)
  {
  }

  function AllDurations(durations: seq<seq<nat>>): nat {
    if durations == [] then 0 else AllDurations(durations[..|durations| - 1]) + Total(durations[|durations| - 1])
  }

  function CountBelow(states: seq<int>, n: nat): nat {
    if n == 0 then 0 else CountBelow(states, n - 1) + Count(states, n - 1)
  }

  lemma {:induction false} CountsCover(states: seq<int>, n: nat)
    requires forall i | 0 <= i < |states| :: 0 <= states[i] < n
    ensures CountBelow(states, n) == |states|
  {
    if states == [] {
      CountEmpty(n);
    } else {
      var k := |states| - 1;
      CountsCover(states[..k], n);
      CountAdd(states, n);
    }
  }

  lemma {:induction false} CountEmpty(n: nat)
    ensures CountBelow([], n) == 0
  {
    if n > 0 {
      CountEmpty(n - 1);
    }
  }

  lemma {:induction false} CountAdd(states: seq<int>, n: nat)
    requires states != []
    ensures CountBelow(states, n)
            == CountBelow(states[..|states| - 1], n) + if 0 <= states[|states| - 1] < n then 1 else 0
  {
    if n > 0 {
      CountAdd(states, n - 1);
    }
  }

  /** The durations of the first n states together count every observation of one of them. */
  lemma {:induction false} DurationsCover(observed: seq<int>, durations: seq<seq<nat>>, n: nat)
    requires n <= |durations| && forall s | 0 <= s < n :: Total(durations[s]) == Count(observed, s)
    ensures AllDurations(durations[..n]) == CountBelow(observed, n)
  {
    if n > 0 {
      DurationsCover(observed, durations, n - 1);
      assert durations[..n][..n - 1] == durations[..n - 1];
    }
  }

  /** All recorded durations together are exactly the sequence. */
  lemma AllAccounted(observed: seq<int>, stateCount: nat, durations: seq<seq<nat>>)
    requires Accounts(observed, stateCount, durations)
    requires forall i | 0 <= i < |observed| :: 0 <= observed[i] < stateCount
    ensures AllDurations(durations) == |observed|
  {
    AccountsMeans(observed, stateCount, durations);
    DurationsCover(observed, durations, stateCount);
    CountsCover(observed, stateCount);
    assert durations[..stateCount] == durations;
  }
}
