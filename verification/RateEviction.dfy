/**
 When the limiter forgets a key (ml-service/rag/router.py:66-72), told from the calls alone, and what its buckets hold
 as long as it does not.
 */
module RateEviction {
  import opened Prelude
  import opened RateLimiter
  import opened RateSafety

  // A touched key that is not there any more was last touched before all the keys of a full store.
  ghost predicate Forgotten(s: Store, touched: seq<Key>) {
    forall k | LastTouch(touched, k) >= 0 && k !in s.buckets ::
      |s.order| == MAX_BUCKETS && forall x | x in s.order :: LastTouch(touched, k) < LastTouch(touched, x)
  }

  ghost predicate Exact(s: Store, touched: seq<Key>) {
    Lru(s, touched) && Forgotten(s, touched)
  }

  lemma {:induction false} LastTouchBound(touched: seq<Key>, k: Key)
    ensures LastTouch(touched, k) < |touched|
    ensures k in touched <==> LastTouch(touched, k) >= 0
  {
    if touched != [] {
      LastTouchBound(touched[..|touched| - 1], k);
      assert touched == touched[..|touched| - 1] + [touched[|touched| - 1]];
    }
  }

  lemma ForgottenTouch(s: Store, touched: seq<Key>, key: Key, now: real)
    requires Exact(s, touched)
    ensures Forgotten(Touch(s, key, now), touched + [key])
  {
    hide LastTouch, Ascending;
    var t, after := AfterEviction(s, key), Touch(s, key, now);
    LruEvict(s, touched, key);
    WithoutAscending(t.order, touched, key);
    forall k | LastTouch(touched + [key], k) >= 0 && k !in after.buckets
      ensures |after.order| == MAX_BUCKETS
      ensures forall x | x in after.order :: LastTouch(touched + [key], k) < LastTouch(touched + [key], x)
    {
      LastTouchAppend(touched, key, k);
      LastTouchBound(touched, k);
      forall x | x in after.order
        ensures LastTouch(touched + [key], k) < LastTouch(touched + [key], x)
      {
        LastTouchAppend(touched, key, x);
        if x != key && Evicted(s, key) == Some(k) {
          assert x in s.order;
          EvictsLeastRecent(s, touched, key, x);
        }
      }
    }
  }

  lemma ExactTouch(s: Store, touched: seq<Key>, key: Key, now: real)
    requires Exact(s, touched)
    ensures Exact(Touch(s, key, now), touched + [key])
  {
    LruTouch(s, touched, key, now);
    ForgottenTouch(s, touched, key, now);
  }

  lemma ExactCharge(s: Store, touched: seq<Key>, key: Key, now: real)
    requires Exact(s, touched) && key in s.buckets
    ensures Exact(Charge(s, key, now), touched)
  {
    hide LastTouch, Ascending;
    LruCharge(s, touched, key, now);
  }

  lemma ExactStep(s: State, call: Call, limb: Limb, touched: seq<Key>)
    requires Exact(StoreOf(s, limb), touched)
    ensures Exact(StoreOf(Step(s, call).0, limb), touched + TouchedNow(call, limb))
  {
    hide Exact, LastTouch;
    assert touched + [] == touched;
    if Touches(call, limb).Some? {
      var key := Touches(call, limb).value;
      ExactTouch(StoreOf(s, limb), touched, key, call.now);
      ExactCharge(Touch(StoreOf(s, limb), key, call.now), touched + [key], key, call.now);
    }
  }

  // ---------------------------------------------------------------- which keys are there

  /** The keys touched since key last was. */
  ghost function TouchedSince(touched: seq<Key>, key: Key): set<Key> {
    set x | x in touched && LastTouch(touched, key) < LastTouch(touched, x)
  }

  ghost function KeySet(order: seq<Key>): set<Key> {
    set x | x in order
  }

  lemma {:induction false} OrderSize(order: seq<Key>, touched: seq<Key>)
    requires Ascending(order, touched)
    ensures |KeySet(order)| == |order|
  {
    hide LastTouch;
    if order != [] {
      OrderSize(order[1..], touched);
      assert KeySet(order) == KeySet(order[1..]) + {order[0]};
      assert order[0] !in order[1..];
    }
  }

  /** A touched key is still there exactly when fewer than 4096 keys were touched after it. */
  lemma PresentExactly(s: Store, touched: seq<Key>, key: Key)
    requires Exact(s, touched) && key in touched
    ensures key in s.buckets <==> |TouchedSince(touched, key)| < MAX_BUCKETS
  {
    hide LastTouch, Ascending;
    var kept, since := KeySet(s.order), TouchedSince(touched, key);
    OrderSize(s.order, touched);
    LastTouchBound(touched, key);
    if key in s.buckets {
      forall x | x in since
        ensures x in kept && x != key
      {
        LastTouchBound(touched, x);
        assert key in s.order;
      }
      SubsetSize(since, kept - {key});
    } else {
      forall x | x in kept
        ensures x in since
      {
        LastTouchBound(touched, x);
      }
      SubsetSize(kept, since);
    }
  }

  lemma {:induction false} ExactRun(s: State, calls: seq<Call>, limb: Limb, touched: seq<Key>)
    requires Exact(StoreOf(s, limb), touched)
    ensures Exact(StoreOf(After(s, calls), limb), touched + TouchedBy(calls, limb))
    decreases |calls|
  {
    hide Exact, Step;
    if calls == [] {
      assert touched + [] == touched;
    } else {
      var head := TouchedNow(calls[0], limb);
      ExactStep(s, calls[0], limb, touched);
      ExactRun(Step(s, calls[0]).0, calls[1..], limb, touched + head);
      assert touched + head + TouchedBy(calls[1..], limb) == touched + (head + TouchedBy(calls[1..], limb));
    }
  }

  lemma NothingTouched(limb: Limb)
    ensures Exact(StoreOf(CLEAR, limb), [])
  {
  }

  /** Over every trace: each store holds exactly the touched keys after which fewer than 4096 others were touched. */
  lemma KeptExactly(calls: seq<Call>, limb: Limb, key: Key)
    requires key in TouchedBy(calls, limb)
    ensures key in StoreOf(After(CLEAR, calls), limb).buckets
            <==> |TouchedSince(TouchedBy(calls, limb), key)| < 4096
  {
    hide Step, After, LastTouch, TouchedSince, Exact;
    NothingTouched(limb);
    ExactRun(CLEAR, calls, limb, []);
    assert [] + TouchedBy(calls, limb) == TouchedBy(calls, limb);
    PresentExactly(StoreOf(After(CLEAR, calls), limb), TouchedBy(calls, limb), key);
  }

  lemma PresentStep(s: State, call: Call, limb: Limb, key: Key)
    ensures key in StoreOf(Step(s, call).0, limb).buckets
            <==> Touches(call, limb) == Some(key) || (key in StoreOf(s, limb).buckets && !Evicts(s, call, limb, key))
  {
    hide Recent, Without;
  }

  ghost predicate Remembered(touched: seq<Key>, key: Key) {
    key in touched ==> |TouchedSince(touched, key)| < MAX_BUCKETS
  }

  /** After every call, fewer than 4096 other keys have been touched since key last was, if it ever was. */
  ghost predicate AlwaysRemembered(touched: seq<Key>, calls: seq<Call>, limb: Limb, key: Key)
    decreases |calls|
  {
    calls == []
    || (Remembered(touched + TouchedNow(calls[0], limb), key)
        && AlwaysRemembered(touched + TouchedNow(calls[0], limb), calls[1..], limb, key))
  }

  lemma EvictedIsForgotten(s: State, call: Call, limb: Limb, touched: seq<Key>, key: Key)
    requires Exact(StoreOf(s, limb), touched) && Remembered(touched, key)
    ensures Evicts(s, call, limb, key) <==> !Remembered(touched + TouchedNow(call, limb), key)
  {
    hide Step, LastTouch, Ascending, TouchedSince, Forgotten;
    var next := touched + TouchedNow(call, limb);
    ExactStep(s, call, limb, touched);
    PresentStep(s, call, limb, key);
    LastTouchBound(touched, key);
    if key in touched {
      PresentExactly(StoreOf(s, limb), touched, key);
    }
    if key in next {
      PresentExactly(StoreOf(Step(s, call).0, limb), next, key);
    }
  }

  lemma {:induction false} NeverEvictsFrom(s: State, calls: seq<Call>, limb: Limb, touched: seq<Key>, key: Key)
    requires Exact(StoreOf(s, limb), touched) && Remembered(touched, key)
    ensures NeverEvicts(s, calls, limb, key) <==> AlwaysRemembered(touched, calls, limb, key)
    decreases |calls|
  {
    hide Exact, Remembered, Step, Evicts;
    if calls != [] {
      EvictedIsForgotten(s, calls[0], limb, touched, key);
      if !Evicts(s, calls[0], limb, key) {
        ExactStep(s, calls[0], limb, touched);
        NeverEvictsFrom(Step(s, calls[0]).0, calls[1..], limb, touched + TouchedNow(calls[0], limb), key);
      }
    }
  }

  /** Over every trace, in any clock order, a key is never evicted exactly when it is always remembered. */
  lemma NeverEvictsExactly(calls: seq<Call>, limb: Limb, key: Key)
    ensures NeverEvicts(CLEAR, calls, limb, key) <==> AlwaysRemembered([], calls, limb, key)
  {
    NothingTouched(limb);
    NeverEvictsFrom(CLEAR, calls, limb, [], key);
  }

  /**
   For a key that is always among the 4096 touched last: at any later instant what its bucket still counts is exactly
   the calls accepted for it in the last 60 seconds, and no window of 60 - lag seconds ever exceeded its limit.
   */
  lemma BucketExact(calls: seq<Call>, lag: real, limb: Limb, key: Key, now: real)
    requires Trailing(calls, lag) && 0.0 <= lag && AlwaysRemembered([], calls, limb, key)
    requires TopReading(First(calls), calls) <= now
    ensures var history := HistoryOf(LogAfter(CLEAR, NOTHING, calls), limb, key);
            && Recent(Bucket(StoreOf(After(CLEAR, calls), limb), key), now) == Recent(history, now)
            && EveryWindow(history, WINDOW - lag, LimitOf(limb))
  {
    hide Recent, CountIn, Trailing, NeverEvicts, AlwaysRemembered, After, LogAfter, TopReading, Behind;
    NeverEvictsExactly(calls, limb, key);
    ClearKeyOk(First(calls), lag, limb, key);
    TrailingBehindFirst(calls, lag);
    KeyRun(CLEAR, NOTHING, First(calls), lag, calls, limb, key);
    var s, log, top := After(CLEAR, calls), LogAfter(CLEAR, NOTHING, calls), TopReading(First(calls), calls);
    PruneKeepsTracks(Bucket(StoreOf(s, limb), key), HistoryOf(log, limb, key), top, now);
  }

  // ---------------------------------------------------------------- the verdict, told from what was accepted before

  /** How many of these instants lie less than 60 seconds back. */
  function InLastMinute(history: Times, now: real): nat {
    if history == [] then 0
    else InLastMinute(history[..|history| - 1], now) + if now - history[|history| - 1] < 60.0 then 1 else 0
  }

  lemma {:induction false} RecentIsLastMinute(history: Times, now: real)
    ensures |Recent(history, now)| == InLastMinute(history, now)
  {
    if history != [] {
      RecentIsLastMinute(history[..|history| - 1], now);
    }
  }

  // No reading so far is later than now.
  ghost predicate NoneLater(calls: seq<Call>, now: real) {
    forall i | 0 <= i < |calls| :: calls[i].now <= now
  }

  lemma {:induction false} TopNotLater(top: real, calls: seq<Call>, now: real)
    requires NoneLater(calls, now) && top <= now
    ensures TopReading(top, calls) <= now
    decreases |calls|
  {
    if calls != [] {
      assert calls[0].now <= now;
      TopNotLater(Later(top, calls[0].now), calls[1..], now);
    }
  }

  // Some lag covers any trace.
  lemma {:induction false} SomeLag(calls: seq<Call>, now: real) returns (lag: real)
    requires NoneLater(calls, now)
    ensures 0.0 <= lag && Trailing(calls, lag) && forall i | 0 <= i < |calls| :: now - lag <= calls[i].now
    decreases |calls|
  {
    if calls == [] {
      lag := 0.0;
    } else {
      var k := |calls| - 1;
      var before := SomeLag(calls[..k], now);
      lag := Later(before, now - calls[k].now);
      forall i | 0 <= i < |calls|
        ensures now - lag <= calls[i].now
      {
        if i < k {
          assert calls[..k][i] == calls[i];
        }
      }
    }
  }

  ghost predicate CountsExactly(list: Times, history: Times, now: real) {
    |Recent(list, now)| == InLastMinute(history, now)
  }

  lemma TrackedCounts(list: Times, history: Times, top: real, now: real)
    requires Tracks(list, history, top) && top <= now
    ensures CountsExactly(list, history, now)
  {
    PruneKeepsTracks(list, history, top, now);
    RecentIsLastMinute(history, now);
  }

  lemma SharedCounts(calls: seq<Call>, now: real)
    requires NoneLater(calls, now)
    ensures var s, log := After(CLEAR, calls), LogAfter(CLEAR, NOTHING, calls);
            CountsExactly(s.global, log.global, now) && CountsExactly(s.globalIndex, log.globalIndex, now)
  {
    hide After, LogAfter, Recent, CountIn, Behind, TopReading, Step;
    var lag := SomeLag(calls, now);
    var s, log := After(CLEAR, calls), LogAfter(CLEAR, NOTHING, calls);
    var first := if calls == [] then now else First(calls);
    if calls == [] {
      EmptyRun(now);
    } else {
      TrailingBehindFirst(calls, lag);
    }
    ClearOk(first, lag);
    GlobalsRun(CLEAR, NOTHING, first, lag, calls);
    TopNotLater(first, calls, now);
    TrackedCounts(s.global, log.global, TopReading(first, calls), now);
    TrackedCounts(s.globalIndex, log.globalIndex, TopReading(first, calls), now);
  }

  lemma EmptyRun(top: real)
    ensures Behind(top, 0.0, []) && forall lag :: Behind(top, lag, [])
  {
  }

  lemma KeyCounts(calls: seq<Call>, now: real, limb: Limb, key: Key)
    requires NoneLater(calls, now) && AlwaysRemembered([], calls, limb, key)
    ensures CountsExactly(Bucket(StoreOf(After(CLEAR, calls), limb), key),
                          HistoryOf(LogAfter(CLEAR, NOTHING, calls), limb, key), now)
  {
    hide After, LogAfter, Recent, CountIn, Behind, TopReading, Step, NeverEvicts, AlwaysRemembered;
    var lag := SomeLag(calls, now);
    var s, log := After(CLEAR, calls), LogAfter(CLEAR, NOTHING, calls);
    var first := if calls == [] then now else First(calls);
    if calls == [] {
      EmptyRun(now);
    } else {
      TrailingBehindFirst(calls, lag);
    }
    NeverEvictsExactly(calls, limb, key);
    ClearKeyOk(first, lag, limb, key);
    KeyRun(CLEAR, NOTHING, first, lag, calls, limb, key);
    TopNotLater(first, calls, now);
    TrackedCounts(Bucket(StoreOf(s, limb), key), HistoryOf(log, limb, key), TopReading(first, calls), now);
  }

  // What the verdict looks at is each list pruned at this call's reading.
  lemma VerdictReads(s: State, call: Call)
    ensures Step(s, call).1 <==>
            match call
            case Check(ip, principal, index, now) =>
              && |Recent(Bucket(s.ips, ip), now)| < MAX_REQUESTS
              && |Recent(Bucket(s.principals, principal), now)| < MAX_REQUESTS
              && |Recent(s.global, now)| < MAX_GLOBAL
              && (index ==> |Recent(Bucket(s.indexes, principal), now)| < MAX_INDEX)
              && (index ==> |Recent(s.globalIndex, now)| < MAX_GLOBAL_INDEX)
            case Prevalidate(ip, index, now) =>
              |Recent(Bucket(s.ips, ip), now)| < if index then Min(MAX_REQUESTS, MAX_INDEX) else MAX_REQUESTS
  {
    hide Recent, Without;
  }

  /**
   Over every trace, for keys that are always remembered: a call whose reading is not behind an earlier one is accepted
   exactly when, in the last 60 seconds, fewer than 60 calls were accepted for its address, fewer than 60 for its
   principal and fewer than 600 in all, and for an index call fewer than 10 for the principal and 100 in all.
   */
  lemma CheckVerdict(calls: seq<Call>, ip: Key, principal: Key, index: bool, now: real)
    requires NoneLater(calls, now)
    requires AlwaysRemembered([], calls, Ips, ip) && AlwaysRemembered([], calls, Principals, principal)
    requires index ==> AlwaysRemembered([], calls, Indexes, principal)
    ensures var log := LogAfter(CLEAR, NOTHING, calls);
            Step(After(CLEAR, calls), Check(ip, principal, index, now)).1
            <==> && InLastMinute(HistoryOf(log, Ips, ip), now) < 60
                 && InLastMinute(HistoryOf(log, Principals, principal), now) < 60
                 && InLastMinute(log.global, now) < 600
                 && (index ==> InLastMinute(HistoryOf(log, Indexes, principal), now) < 10)
                 && (index ==> InLastMinute(log.globalIndex, now) < 100)
  {
    hide After, LogAfter, Recent, Step, AlwaysRemembered;
    SharedCounts(calls, now);
    KeyCounts(calls, now, Ips, ip);
    KeyCounts(calls, now, Principals, principal);
    if index {
      KeyCounts(calls, now, Indexes, principal);
    }
    VerdictReads(After(CLEAR, calls), Check(ip, principal, index, now));
  }

  /** Before validation only the address counts: fewer than 60 calls in the last 60 seconds, or 10 for an index call. */
  lemma PrevalidateVerdict(calls: seq<Call>, ip: Key, index: bool, now: real)
    requires NoneLater(calls, now) && AlwaysRemembered([], calls, Ips, ip)
    ensures Step(After(CLEAR, calls), Prevalidate(ip, index, now)).1
            <==> InLastMinute(HistoryOf(LogAfter(CLEAR, NOTHING, calls), Ips, ip), now) < if index then 10 else 60
  {
    hide After, LogAfter, Recent, Step, AlwaysRemembered;
    KeyCounts(calls, now, Ips, ip);
    VerdictReads(After(CLEAR, calls), Prevalidate(ip, index, now));
  }
}
