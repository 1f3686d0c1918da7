/** What the limiter guarantees over whole traces of calls, and what it does not when clock readings go stale. */
module RateSafety {
  import opened Prelude
  import opened RateLimiter

  // ---------------------------------------------------------------- windows

  /** How many instants lie in the half-open window of the given length that starts at a. */
  function CountIn(times: Times, a: real, length: real): nat {
    if times == [] then 0
    else CountIn(times[..|times| - 1], a, length) + if a <= times[|times| - 1] < a + length then 1 else 0
  }

  ghost predicate EveryWindow(times: Times, length: real, limit: nat) {
    forall a :: CountIn(times, a, length) <= limit
  }

  function Later(a: real, b: real): real {
    if a >= b then a else b
  }

  /** list holds what still matters of history once the clock has shown top. */
  ghost predicate Tracks(list: Times, history: Times, top: real) {
    Recent(list, top) == Recent(history, top)
  }

  lemma RecentAppend(times: Times, t: real, now: real)
    ensures Recent(times + [t], now) == Recent(times, now) + if now - t < WINDOW then [t] else []
  {
    assert (times + [t])[..|times|] == times;
  }

  lemma {:induction false} RecentLater(times: Times, now: real, later: real)
    requires now <= later
    ensures Recent(Recent(times, now), later) == Recent(times, later)
  {
    if times != [] {
      var k := |times| - 1;
      RecentLater(times[..k], now, later);
      if now - times[k] < WINDOW {
        RecentAppend(Recent(times[..k], now), times[k], later);
      } else {
        assert Recent(times, now) == Recent(times[..k], now);
        assert Recent(times, later) == Recent(times[..k], later);
      }
    }
  }

  lemma {:induction false} WindowWithinRecent(times: Times, a: real, length: real, top: real)
    requires top - WINDOW < a
    ensures CountIn(times, a, length) <= |Recent(times, top)|
  {
    if times != [] {
      WindowWithinRecent(times[..|times| - 1], a, length, top);
    }
  }

  lemma CountInAppend(times: Times, t: real, a: real, length: real)
    ensures CountIn(times + [t], a, length) == CountIn(times, a, length) + if a <= t < a + length then 1 else 0
  {
    assert (times + [t])[..|times|] == times;
  }

  // Pruning at any reading, early or late, keeps what matters at the top reading.
  lemma PruneKeepsTracks(list: Times, history: Times, top: real, now: real)
    requires Tracks(list, history, top)
    ensures Recent(list, Later(top, now)) == Recent(history, Later(top, now))
    ensures Tracks(list, history, Later(top, now)) && Tracks(Recent(list, now), history, Later(top, now))
  {
    var m := Later(top, now);
    RecentLater(list, top, m);
    RecentLater(history, top, m);
    RecentLater(list, now, m);
  }

  lemma RecentShrinks(list: Times, now: real, later: real)
    requires now <= later
    ensures |Recent(list, later)| <= |Recent(list, now)|
  {
    RecentLater(list, now, later);
  }

  /**
   A call that passes the limit check with a reading at most lag behind the top keeps every window of length
   60 - lag within the limit, and the list keeps tracking.
   */
  lemma ChargeKeepsWindows(list: Times, history: Times, top: real, lag: real, now: real, limit: nat)
    requires Tracks(list, history, top) && top - lag <= now && 0.0 <= lag
    requires EveryWindow(history, WINDOW - lag, limit) && |Recent(list, now)| < limit
    ensures EveryWindow(history + [now], WINDOW - lag, limit)
    ensures Tracks(Recent(list, now) + [now], history + [now], Later(top, now))
  {
    hide Recent, CountIn;
    var m, length := Later(top, now), WINDOW - lag;
    PruneKeepsTracks(list, history, top, now);
    RecentShrinks(list, now, m);
    forall a
      ensures CountIn(history + [now], a, length) <= limit
    {
      CountInAppend(history, now, a, length);
      if a <= now < a + length {
        WindowWithinRecent(history, a, length, m);
      }
    }
    RecentAppend(Recent(list, now), now, m);
    RecentAppend(history, now, m);
  }

  // ---------------------------------------------------------------- traces

  // The instants at which calls were accepted, per limit they count against.
  datatype Log = Log(global: Times, globalIndex: Times, ips: map<Key, Times>, principals: map<Key, Times>,
                     indexes: map<Key, Times>)

  const NOTHING := Log([], [], map[], map[], map[])

  function History(m: map<Key, Times>, key: Key): Times {
    if key in m then m[key] else []
  }

  function Add(m: map<Key, Times>, key: Key, now: real): map<Key, Times> {
    m[key := History(m, key) + [now]]
  }

  function Logged(log: Log, call: Call, accepted: bool): Log {
    if !accepted then log else
    match call
    case Check(ip, principal, index, now) =>
      Log(log.global + [now], if index then log.globalIndex + [now] else log.globalIndex,
          Add(log.ips, ip, now), Add(log.principals, principal, now),
          if index then Add(log.indexes, principal, now) else log.indexes)
    case Prevalidate(ip, _, now) => log.(ips := Add(log.ips, ip, now))
  }

  function After(s: State, calls: seq<Call>): State
    decreases |calls|
  {
    if calls == [] then s else After(Step(s, calls[0]).0, calls[1..])
  }

  function LogAfter(s: State, log: Log, calls: seq<Call>): Log
    decreases |calls|
  {
    if calls == [] then log else LogAfter(Step(s, calls[0]).0, Logged(log, calls[0], Step(s, calls[0]).1), calls[1..])
  }

  /** Every reading is at most lag behind every earlier one; with no lag, readings are in lock order. */
  ghost predicate Trailing(calls: seq<Call>, lag: real) {
    forall i, j | 0 <= i < j < |calls| :: calls[i].now - lag <= calls[j].now
  }

  // The same against a running top reading.
  predicate Behind(top: real, lag: real, calls: seq<Call>)
    decreases |calls|
  {
    calls == [] || (top - lag <= calls[0].now && Behind(Later(top, calls[0].now), lag, calls[1..]))
  }

  function TopReading(top: real, calls: seq<Call>): real
    decreases |calls|
  {
    if calls == [] then top else TopReading(Later(top, calls[0].now), calls[1..])
  }

  lemma {:induction false} TrailingIsBehind(top: real, lag: real, calls: seq<Call>)
    requires Trailing(calls, lag) && forall j | 0 <= j < |calls| :: top - lag <= calls[j].now
    ensures Behind(top, lag, calls)
    decreases |calls|
  {
    if calls != [] {
      TrailingIsBehind(Later(top, calls[0].now), lag, calls[1..]);
    }
  }

  // A first reading has nothing to trail.
  lemma TrailingBehindFirst(calls: seq<Call>, lag: real)
    requires Trailing(calls, lag) && 0.0 <= lag
    ensures Behind(First(calls), lag, calls)
  {
    TrailingIsBehind(First(calls), lag, calls);
  }

  function First(calls: seq<Call>): real {
    if calls == [] then 0.0 else calls[0].now
  }

  ghost predicate ListOk(list: Times, history: Times, top: real, lag: real, limit: nat) {
    Tracks(list, history, top) && EveryWindow(history, WINDOW - lag, limit)
  }

  ghost predicate GlobalsOk(s: State, log: Log, top: real, lag: real) {
    && ListOk(s.global, log.global, top, lag, MAX_GLOBAL)
    && ListOk(s.globalIndex, log.globalIndex, top, lag, MAX_GLOBAL_INDEX)
  }

  lemma ListIdle(list: Times, history: Times, top: real, lag: real, now: real, limit: nat)
    requires ListOk(list, history, top, lag, limit)
    ensures ListOk(list, history, Later(top, now), lag, limit)
            && ListOk(Recent(list, now), history, Later(top, now), lag, limit)
  {
    PruneKeepsTracks(list, history, top, now);
  }

  lemma ListCharge(list: Times, history: Times, top: real, lag: real, now: real, limit: nat)
    requires ListOk(list, history, top, lag, limit) && top - lag <= now && 0.0 <= lag && |Recent(list, now)| < limit
    ensures ListOk(Recent(list, now) + [now], history + [now], Later(top, now), lag, limit)
  {
    ChargeKeepsWindows(list, history, top, lag, now, limit);
  }

  lemma GlobalsStep(s: State, log: Log, top: real, lag: real, call: Call)
    requires GlobalsOk(s, log, top, lag) && top - lag <= call.now && 0.0 <= lag
    ensures GlobalsOk(Step(s, call).0, Logged(log, call, Step(s, call).1), Later(top, call.now), lag)
  {
    hide ListOk, Touch, Charge, Later;
    var now, accepted := call.now, Step(s, call).1;
    ListIdle(s.global, log.global, top, lag, now, MAX_GLOBAL);
    ListIdle(s.globalIndex, log.globalIndex, top, lag, now, MAX_GLOBAL_INDEX);
    if call.Check? && accepted {
      ListCharge(s.global, log.global, top, lag, now, MAX_GLOBAL);
      if call.index {
        ListCharge(s.globalIndex, log.globalIndex, top, lag, now, MAX_GLOBAL_INDEX);
      }
    }
  }

  lemma {:induction false} GlobalsRun(s: State, log: Log, top: real, lag: real, calls: seq<Call>)
    requires GlobalsOk(s, log, top, lag) && Behind(top, lag, calls) && 0.0 <= lag
    ensures GlobalsOk(After(s, calls), LogAfter(s, log, calls), TopReading(top, calls), lag)
    decreases |calls|
  {
    hide GlobalsOk, Step, Logged;
    if calls != [] {
      GlobalsStep(s, log, top, lag, calls[0]);
      GlobalsRun(Step(s, calls[0]).0, Logged(log, calls[0], Step(s, calls[0]).1), Later(top, calls[0].now), lag,
                 calls[1..]);
    }
  }

  lemma ClearOk(top: real, lag: real)
    ensures GlobalsOk(CLEAR, NOTHING, top, lag)
  {
  }

  /**
   With readings at most lag late, every window of 60 - lag seconds holds at most 600 accepted calls and 100 accepted
   index calls: the full 60 seconds when readings come in lock order.
   */
  lemma WindowsBounded(calls: seq<Call>, lag: real, a: real)
    requires Trailing(calls, lag) && 0.0 <= lag
    ensures CountIn(LogAfter(CLEAR, NOTHING, calls).global, a, WINDOW - lag) <= MAX_GLOBAL
    ensures CountIn(LogAfter(CLEAR, NOTHING, calls).globalIndex, a, WINDOW - lag) <= MAX_GLOBAL_INDEX
  {
    TrailingBehindFirst(calls, lag);
    ClearOk(First(calls), lag);
    GlobalsRun(CLEAR, NOTHING, First(calls), lag, calls);
  }

  // ---------------------------------------------------------------- one key

  datatype Limb = Ips | Principals | Indexes

  function StoreOf(s: State, limb: Limb): Store {
    match limb
    case Ips => s.ips
    case Principals => s.principals
    case Indexes => s.indexes
  }

  function HistoryOf(log: Log, limb: Limb, key: Key): Times {
    match limb
    case Ips => History(log.ips, key)
    case Principals => History(log.principals, key)
    case Indexes => History(log.indexes, key)
  }

  function LimitOf(limb: Limb): nat {
    if limb == Indexes then MAX_INDEX else MAX_REQUESTS
  }

  /** The key a call touches in one of the keyed stores. */
  function Touches(call: Call, limb: Limb): Option<Key> {
    match limb
    case Ips => Some(call.ip)
    case Principals => if call.Check? then Some(call.principal) else None
    case Indexes => if call.Check? && call.index then Some(call.principal) else None
  }

  predicate Evicts(s: State, call: Call, limb: Limb, key: Key) {
    Touches(call, limb).Some? && Evicted(StoreOf(s, limb), Touches(call, limb).value) == Some(key)
  }

  predicate NeverEvicts(s: State, calls: seq<Call>, limb: Limb, key: Key)
    decreases |calls|
  {
    calls == [] || (!Evicts(s, calls[0], limb, key) && NeverEvicts(Step(s, calls[0]).0, calls[1..], limb, key))
  }

  /** What one call does to one key of one store. */
  lemma BucketStep(s: State, call: Call, limb: Limb, key: Key)
    requires !Evicts(s, call, limb, key)
    ensures var (s', ok) := Step(s, call);
            Bucket(StoreOf(s', limb), key) ==
              if Touches(call, limb) != Some(key) then Bucket(StoreOf(s, limb), key)
              else if ok then Recent(Bucket(StoreOf(s, limb), key), call.now) + [call.now]
              else Recent(Bucket(StoreOf(s, limb), key), call.now)
    ensures Step(s, call).1 && Touches(call, limb) == Some(key)
            ==> |Recent(Bucket(StoreOf(s, limb), key), call.now)| < LimitOf(limb)
  {
    hide Recent, Without;
    var p := Pruned(s, call);
    var touched := Touches(call, limb);
    if touched.Some? {
      assert StoreOf(p, limb) == Touch(StoreOf(s, limb), touched.value, call.now);
    } else {
      assert StoreOf(p, limb) == StoreOf(s, limb);
    }
  }

  lemma HistoryStep(log: Log, call: Call, accepted: bool, limb: Limb, key: Key)
    ensures HistoryOf(Logged(log, call, accepted), limb, key)
            == HistoryOf(log, limb, key) + if accepted && Touches(call, limb) == Some(key) then [call.now] else []
  {
  }

  ghost predicate KeyOk(s: State, log: Log, top: real, lag: real, limb: Limb, key: Key) {
    ListOk(Bucket(StoreOf(s, limb), key), HistoryOf(log, limb, key), top, lag, LimitOf(limb))
  }

  lemma KeyStep(s: State, log: Log, top: real, lag: real, call: Call, limb: Limb, key: Key)
    requires KeyOk(s, log, top, lag, limb, key) && top - lag <= call.now && 0.0 <= lag && !Evicts(s, call, limb, key)
    ensures KeyOk(Step(s, call).0, Logged(log, call, Step(s, call).1), Later(top, call.now), lag, limb, key)
  {
    hide ListOk, Step, Logged, Later;
    BucketStep(s, call, limb, key);
    HistoryStep(log, call, Step(s, call).1, limb, key);
    var list, history := Bucket(StoreOf(s, limb), key), HistoryOf(log, limb, key);
    ListIdle(list, history, top, lag, call.now, LimitOf(limb));
    assert history + [] == history;
    if Touches(call, limb) == Some(key) && Step(s, call).1 {
      ListCharge(list, history, top, lag, call.now, LimitOf(limb));
    }
  }

  lemma {:induction false} KeyRun(s: State, log: Log, top: real, lag: real, calls: seq<Call>, limb: Limb, key: Key)
    requires KeyOk(s, log, top, lag, limb, key) && Behind(top, lag, calls) && 0.0 <= lag
             && NeverEvicts(s, calls, limb, key)
    ensures KeyOk(After(s, calls), LogAfter(s, log, calls), TopReading(top, calls), lag, limb, key)
    decreases |calls|
  {
    hide KeyOk, Step, Logged, Evicts;
    if calls != [] {
      KeyStep(s, log, top, lag, calls[0], limb, key);
      KeyRun(Step(s, calls[0]).0, Logged(log, calls[0], Step(s, calls[0]).1), Later(top, calls[0].now), lag,
             calls[1..], limb, key);
    }
  }

  lemma ClearKeyOk(top: real, lag: real, limb: Limb, key: Key)
    ensures KeyOk(CLEAR, NOTHING, top, lag, limb, key)
  {
  }

  // ---------------------------------------------------------------- least recently used

  /** Index of the last touch of key, or -1. */
  function LastTouch(touched: seq<Key>, key: Key): int {
    if touched == [] then -1
    else if touched[|touched| - 1] == key then |touched| - 1
    else LastTouch(touched[..|touched| - 1], key)
  }

  // Each key was last touched before all the keys after it.
  ghost predicate Ascending(order: seq<Key>, touched: seq<Key>) {
    order == []
    || ((forall k | k in order[1..] :: LastTouch(touched, order[0]) < LastTouch(touched, k))
        && Ascending(order[1..], touched))
  }

  // The dictionary holds at most 4096 keys, in the order of their last touches.
  ghost predicate Lru(s: Store, touched: seq<Key>) {
    && |s.order| <= MAX_BUCKETS
    && (forall k :: k in s.order <==> k in s.buckets)
    && (forall k | k in s.order :: 0 <= LastTouch(touched, k) < |touched|)
    && Ascending(s.order, touched)
  }

  lemma {:induction false} WithoutAscending(order: seq<Key>, touched: seq<Key>, key: Key)
    requires Ascending(order, touched)
    ensures Ascending(Without(order, key), touched)
    ensures forall k :: k in Without(order, key) <==> k in order && k != key
    ensures |Without(order, key)| == |order| - if key in order then 1 else 0
  {
    hide LastTouch;
    if order != [] {
      WithoutAscending(order[1..], touched, key);
      if order[0] != key {
        var rest := Without(order[1..], key);
        assert Without(order, key) == [order[0]] + rest && ([order[0]] + rest)[1..] == rest;
      }
    }
  }

  lemma {:induction false} AscendingAppend(order: seq<Key>, touched: seq<Key>, key: Key)
    requires Ascending(order, touched) && forall k | k in order :: k != key && LastTouch(touched, k) < |touched|
    ensures Ascending(order + [key], touched + [key])
  {
    if order == [] {
      assert [key][1..] == [];
    } else {
      AscendingAppend(order[1..], touched, key);
      assert (order + [key])[1..] == order[1..] + [key];
      LastTouchAppend(touched, key, order[0]);
      forall k | k in order[1..] + [key]
        ensures LastTouch(touched + [key], order[0]) < LastTouch(touched + [key], k)
      {
        LastTouchAppend(touched, key, k);
      }
    }
  }

  lemma LastTouchAppend(touched: seq<Key>, key: Key, k: Key)
    ensures LastTouch(touched + [key], k) == if k == key then |touched| else LastTouch(touched, k)
  {
    assert (touched + [key])[..|touched|] == touched;
  }

  lemma LruEvict(s: Store, touched: seq<Key>, key: Key)
    requires Lru(s, touched)
    ensures Lru(AfterEviction(s, key), touched)
    ensures key !in s.buckets ==> |AfterEviction(s, key).order| < MAX_BUCKETS && key !in AfterEviction(s, key).order
    ensures key in s.buckets ==> AfterEviction(s, key) == s
  {
    hide LastTouch;
    if Evicted(s, key).Some? {
      assert s.order[0] in s.order && s.order[0] !in s.order[1..];
      assert forall k :: k in s.order <==> k == s.order[0] || k in s.order[1..];
    }
  }

  lemma LruTouch(s: Store, touched: seq<Key>, key: Key, now: real)
    requires Lru(s, touched)
    ensures Lru(Touch(s, key, now), touched + [key])
  {
    hide LastTouch, Ascending;
    var t := AfterEviction(s, key);
    LruEvict(s, touched, key);
    WithoutAscending(t.order, touched, key);
    AscendingAppend(Without(t.order, key), touched, key);
    forall k | k in Without(t.order, key) + [key]
      ensures 0 <= LastTouch(touched + [key], k) < |touched| + 1
    {
      LastTouchAppend(touched, key, k);
    }
  }

  /** Whenever a bucket is evicted, its key is the one touched longest ago. */
  lemma EvictsLeastRecent(s: Store, touched: seq<Key>, key: Key, k: Key)
    requires Lru(s, touched) && Evicted(s, key).Some? && k in s.buckets && k != Evicted(s, key).value
    ensures LastTouch(touched, Evicted(s, key).value) < LastTouch(touched, k)
  {
    assert s.order == [s.order[0]] + s.order[1..];
  }

  // The keys one call touches in a store: one or none.
  function TouchedNow(call: Call, limb: Limb): seq<Key> {
    match Touches(call, limb)
    case Some(key) => [key]
    case None => []
  }

  function TouchedBy(calls: seq<Call>, limb: Limb): seq<Key>
    decreases |calls|
  {
    if calls == [] then []
    else TouchedNow(calls[0], limb) + TouchedBy(calls[1..], limb)
  }

  lemma LruCharge(s: Store, touched: seq<Key>, key: Key, now: real)
    requires Lru(s, touched) && key in s.buckets
    ensures Lru(Charge(s, key, now), touched)
  {
  }

  lemma LruStep(s: State, call: Call, limb: Limb, touched: seq<Key>)
    requires Lru(StoreOf(s, limb), touched)
    ensures Lru(StoreOf(Step(s, call).0, limb), touched + TouchedNow(call, limb))
  {
    hide Lru, LastTouch;
    assert touched + [] == touched;
    if Touches(call, limb).Some? {
      var key := Touches(call, limb).value;
      LruTouch(StoreOf(s, limb), touched, key, call.now);
      LruCharge(Touch(StoreOf(s, limb), key, call.now), touched + [key], key, call.now);
    }
  }

  /** Over every trace, in any clock order, each keyed store is bounded and ordered by last touch. */
  lemma {:induction false} LruRun(s: State, calls: seq<Call>, limb: Limb, touched: seq<Key>)
    requires Lru(StoreOf(s, limb), touched)
    ensures Lru(StoreOf(After(s, calls), limb), touched + TouchedBy(calls, limb))
    decreases |calls|
  {
    hide Lru, Step;
    if calls == [] {
      assert touched + [] == touched;
    } else {
      var head := TouchedNow(calls[0], limb);
      LruStep(s, calls[0], limb, touched);
      LruRun(Step(s, calls[0]).0, calls[1..], limb, touched + head);
      assert touched + head + TouchedBy(calls[1..], limb) == touched + (head + TouchedBy(calls[1..], limb));
    }
  }

  // ---------------------------------------------------------------- nesting of the stores

  function Copies(times: Times, t: real): nat {
    if times == [] then 0 else Copies(times[..|times| - 1], t) + if times[|times| - 1] == t then 1 else 0
  }

  function HeldIn(order: seq<Key>, buckets: map<Key, Times>, t: real): nat {
    if order == [] then 0
    else (if order[0] in buckets then Copies(buckets[order[0]], t) else 0) + HeldIn(order[1..], buckets, t)
  }

  /** How often instant t occurs across all buckets of a store. */
  function Held(s: Store, t: real): nat {
    HeldIn(s.order, s.buckets, t)
  }

  lemma {:induction false} CopiesRecent(times: Times, now: real, t: real)
    ensures Copies(Recent(times, now), t) == if now - t < WINDOW then Copies(times, t) else 0
  {
    if times != [] {
      var k := |times| - 1;
      CopiesRecent(times[..k], now, t);
      if now - times[k] < WINDOW {
        assert Recent(times, now)[..|Recent(times, now)| - 1] == Recent(times[..k], now);
      } else {
        assert Recent(times, now) == Recent(times[..k], now);
      }
    }
  }

  lemma CopiesAppend(times: Times, now: real, t: real)
    ensures Copies(times + [now], t) == Copies(times, t) + if t == now then 1 else 0
  {
    assert (times + [now])[..|times|] == times;
  }

  lemma {:induction false} HeldConcat(a: seq<Key>, b: seq<Key>, buckets: map<Key, Times>, t: real)
    ensures HeldIn(a + b, buckets, t) == HeldIn(a, buckets, t) + HeldIn(b, buckets, t)
  {
    if a == [] {
      assert a + b == b;
    } else {
      assert (a + b)[1..] == a[1..] + b;
      HeldConcat(a[1..], b, buckets, t);
    }
  }

  lemma {:induction false} HeldFrame(order: seq<Key>, a: map<Key, Times>, b: map<Key, Times>, t: real)
    requires forall k | k in order :: (k in a <==> k in b) && (k in a ==> a[k] == b[k])
    ensures HeldIn(order, a, t) == HeldIn(order, b, t)
  {
    if order != [] {
      HeldFrame(order[1..], a, b, t);
    }
  }

  lemma {:induction false} HeldWithout(order: seq<Key>, touched: seq<Key>, buckets: map<Key, Times>, key: Key, t: real)
    requires Ascending(order, touched)
    ensures HeldIn(order, buckets, t)
            == HeldIn(Without(order, key), buckets, t)
               + if key in order && key in buckets then Copies(buckets[key], t) else 0
  {
    hide LastTouch, Copies;
    if order != [] {
      HeldWithout(order[1..], touched, buckets, key, t);
      if order[0] == key {
        assert key !in order[1..];
      } else {
        var rest := Without(order[1..], key);
        assert Without(order, key) == [order[0]] + rest && ([order[0]] + rest)[1..] == rest;
      }
    }
  }

  lemma HeldEvict(s: Store, touched: seq<Key>, key: Key, t: real)
    requires Lru(s, touched)
    ensures Held(AfterEviction(s, key), t) <= Held(s, t)
    ensures Bucket(AfterEviction(s, key), key) == Bucket(s, key)
  {
    hide LastTouch, Copies;
    if Evicted(s, key).Some? {
      assert s.order[0] !in s.order[1..];
      HeldFrame(s.order[1..], s.buckets, s.buckets - {s.order[0]}, t);
    }
  }

  lemma HeldTouch(s: Store, touched: seq<Key>, key: Key, now: real, t: real)
    requires Lru(s, touched) && now - t < WINDOW
    ensures Held(Touch(s, key, now), t) <= Held(s, t)
  {
    hide LastTouch, Copies, Ascending;
    var e := AfterEviction(s, key);
    LruEvict(s, touched, key);
    HeldEvict(s, touched, key, t);
    var rest, buckets := Without(e.order, key), e.buckets[key := Recent(Bucket(s, key), now)];
    WithoutAscending(e.order, touched, key);
    HeldWithout(e.order, touched, e.buckets, key, t);
    HeldFrame(rest, e.buckets, buckets, t);
    HeldConcat(rest, [key], buckets, t);
    CopiesRecent(Bucket(s, key), now, t);
    HeldOne(key, buckets, t);
    CopiesEmpty(t);
  }

  lemma HeldOne(key: Key, buckets: map<Key, Times>, t: real)
    requires key in buckets
    ensures HeldIn([key], buckets, t) == Copies(buckets[key], t)
  {
    assert [key][1..] == [];
  }

  lemma CopiesEmpty(t: real)
    ensures Copies([], t) == 0
  {
  }

  lemma HeldCharge(s: Store, touched: seq<Key>, key: Key, now: real, t: real)
    requires Lru(s, touched) && key in s.buckets
    ensures Held(Charge(s, key, now), t) == Held(s, t) + if t == now then 1 else 0
  {
    hide LastTouch, Copies, Ascending;
    var buckets := s.buckets[key := Bucket(s, key) + [now]];
    WithoutAscending(s.order, touched, key);
    HeldWithout(s.order, touched, s.buckets, key, t);
    HeldWithout(s.order, touched, buckets, key, t);
    HeldFrame(Without(s.order, key), s.buckets, buckets, t);
    CopiesAppend(Bucket(s, key), now, t);
  }

  // Whatever is still inside the window nests: index buckets in the index list, that list and the principal buckets
  // in the global list.
  ghost predicate Nested(s: State, top: real) {
    forall t | top - t < WINDOW ::
      && Held(s.indexes, t) <= Copies(s.globalIndex, t) <= Copies(s.global, t)
      && Held(s.principals, t) <= Copies(s.global, t)
  }

  ghost predicate KeyedOk(s: State, principals: seq<Key>, indexes: seq<Key>) {
    Lru(s.principals, principals) && Lru(s.indexes, indexes)
  }

  lemma NestedStep(s: State, top: real, call: Call, principals: seq<Key>, indexes: seq<Key>)
    requires Nested(s, top) && KeyedOk(s, principals, indexes)
    ensures Nested(Step(s, call).0, Later(top, call.now))
  {
    var s' := Step(s, call).0;
    forall t | Later(top, call.now) - t < WINDOW
      ensures && Held(s'.indexes, t) <= Copies(s'.globalIndex, t) <= Copies(s'.global, t)
              && Held(s'.principals, t) <= Copies(s'.global, t)
    {
      if call.Check? {
        NestedAt(s, call, principals, indexes, t);
      }
    }
  }

  lemma NestedAt(s: State, call: Call, principals: seq<Key>, indexes: seq<Key>, t: real)
    requires KeyedOk(s, principals, indexes) && call.Check? && call.now - t < WINDOW
    requires Held(s.indexes, t) <= Copies(s.globalIndex, t) <= Copies(s.global, t)
             && Held(s.principals, t) <= Copies(s.global, t)
    ensures var s' := Step(s, call).0;
            && Held(s'.indexes, t) <= Copies(s'.globalIndex, t) <= Copies(s'.global, t)
            && Held(s'.principals, t) <= Copies(s'.global, t)
  {
    hide Held, Copies, Lru, Touch;
    var now, key := call.now, call.principal;
    var p := Pruned(s, call);
    CopiesRecent(s.global, now, t);
    CopiesRecent(s.globalIndex, now, t);
    HeldTouch(s.principals, principals, key, now, t);
    LruTouch(s.principals, principals, key, now);
    HeldTouch(s.indexes, indexes, key, now, t);
    LruTouch(s.indexes, indexes, key, now);
    TouchHolds(s.principals, key, now);
    TouchHolds(s.indexes, key, now);
    HeldCharge(p.principals, principals + [key], key, now, t);
    CopiesAppend(p.global, now, t);
    CopiesAppend(p.globalIndex, now, t);
    if call.index {
      HeldCharge(p.indexes, indexes + [key], key, now, t);
    }
  }

  lemma TouchHolds(s: Store, key: Key, now: real)
    ensures key in Touch(s, key, now).buckets
  {
  }

  lemma {:induction false} NestedRun(s: State, top: real, calls: seq<Call>, principals: seq<Key>, indexes: seq<Key>)
    requires Nested(s, top) && KeyedOk(s, principals, indexes)
    ensures Nested(After(s, calls), TopReading(top, calls))
    decreases |calls|
  {
    hide Nested, Lru, Step, Later;
    if calls != [] {
      NestedStep(s, top, calls[0], principals, indexes);
      LruStep(s, calls[0], Principals, principals);
      LruStep(s, calls[0], Indexes, indexes);
      NestedRun(Step(s, calls[0]).0, Later(top, calls[0].now), calls[1..],
                principals + TouchedNow(calls[0], Principals), indexes + TouchedNow(calls[0], Indexes));
    }
  }

  /** Over every trace, in any clock order, the live charges nest, so no principal's quota escapes the global one. */
  lemma StoresNest(calls: seq<Call>)
    ensures Nested(After(CLEAR, calls), TopReading(First(calls), calls))
  {
    NestedRun(CLEAR, First(calls), calls, [], []);
  }

  /** A refused call charges no store: nothing that was recent is added, only pruned, evicted or re-ordered. */
  lemma RefusalChargesNothing(s: State, call: Call, limb: Limb, key: Key, t: real)
    requires !Step(s, call).1 && !Evicts(s, call, limb, key) && call.now - t < WINDOW
    ensures Copies(Step(s, call).0.global, t) == Copies(s.global, t)
    ensures Copies(Step(s, call).0.globalIndex, t) == Copies(s.globalIndex, t)
    ensures Copies(Bucket(StoreOf(Step(s, call).0, limb), key), t) == Copies(Bucket(StoreOf(s, limb), key), t)
  {
    BucketStep(s, call, limb, key);
    CopiesRecent(s.global, call.now, t);
    CopiesRecent(s.globalIndex, call.now, t);
    CopiesRecent(Bucket(StoreOf(s, limb), key), call.now, t);
  }

  // ---------------------------------------------------------------- stale clock readings

  function Name(i: nat): (k: Key)
    ensures |k| == i
  {
    seq(i, _ => 'x')
  }

  function Visit(i: nat, index: bool, now: real): Call {
    Check(Name(i), Name(i), index, now)
  }

  /** k callers who all read the clock at 0. */
  function Burst(k: nat, index: bool): (calls: seq<Call>)
    ensures |calls| == k && forall i | 0 <= i < k :: calls[i].now == 0.0
  {
    if k == 0 then [] else Burst(k - 1, index) + [Visit(k - 1, index, 0.0)]
  }

  function Zeros(k: nat): (times: Times)
    ensures |times| == k
  {
    if k == 0 then [] else Zeros(k - 1) + [0.0]
  }

  lemma {:induction false} AfterAppend(s: State, log: Log, calls: seq<Call>, call: Call)
    ensures After(s, calls + [call]) == Step(After(s, calls), call).0
    ensures LogAfter(s, log, calls + [call]) == Logged(LogAfter(s, log, calls), call, Step(After(s, calls), call).1)
    decreases |calls|
  {
    hide Step, Logged;
    if calls == [] {
      assert [call][1..] == [];
      assert After(Step(s, call).0, []) == Step(s, call).0;
      assert LogAfter(Step(s, call).0, Logged(log, call, Step(s, call).1), []) == Logged(log, call, Step(s, call).1);
      assert calls + [call] == [call];
    } else {
      assert (calls + [call])[1..] == calls[1..] + [call];
      AfterAppend(Step(s, calls[0]).0, Logged(log, calls[0], Step(s, calls[0]).1), calls[1..], call);
    }
  }

  // Nobody with a name of length k or more has called yet.
  ghost predicate Unknown(s: State, k: nat) {
    && |s.ips.order| <= k && |s.principals.order| <= k && |s.indexes.order| <= k
    && forall i | i >= k ::
         Name(i) !in s.ips.buckets && Name(i) !in s.principals.buckets && Name(i) !in s.indexes.buckets
  }

  lemma {:induction false} WithoutShorter(order: seq<Key>, key: Key)
    ensures |Without(order, key)| <= |order|
  {
    if order != [] {
      WithoutShorter(order[1..], key);
    }
  }

  lemma NewKey(s: Store, k: nat, now: real)
    requires |s.order| <= k < MAX_BUCKETS && forall i | i >= k :: Name(i) !in s.buckets
    ensures var t := Touch(s, Name(k), now);
            && Bucket(t, Name(k)) == [] && |t.order| <= k + 1
            && forall i | i >= k + 1 :: Name(i) !in t.buckets
  {
    WithoutShorter(s.order, Name(k));
    forall i | i >= k + 1
      ensures Name(i) != Name(k)
    {
      assert |Name(i)| == i;
    }
  }

  // The list a call with this flag is measured against: the global one, or the index one.
  function Shared(s: State, index: bool): Times {
    if index then s.globalIndex else s.global
  }

  function SharedLog(log: Log, index: bool): Times {
    if index then log.globalIndex else log.global
  }

  function SharedLimit(index: bool): nat {
    if index then MAX_GLOBAL_INDEX else MAX_GLOBAL
  }

  lemma NewVisit(s: State, k: nat, index: bool, now: real)
    requires Unknown(s, k) && k < MAX_BUCKETS
    requires |Recent(s.global, now)| < MAX_GLOBAL && |Recent(Shared(s, index), now)| < SharedLimit(index)
    ensures var (s', ok) := Step(s, Visit(k, index, now));
            && ok && Unknown(s', k + 1)
            && s'.global == Recent(s.global, now) + [now]
            && Shared(s', index) == Recent(Shared(s, index), now) + [now]
  {
    hide Touch, Recent;
    NewKey(s.ips, k, now);
    NewKey(s.principals, k, now);
    NewKey(s.indexes, k, now);
  }

  lemma {:induction false} RecentZeros(k: nat, now: real)
    ensures Recent(Zeros(k), now) == if now < WINDOW then Zeros(k) else []
  {
    if k > 0 {
      RecentZeros(k - 1, now);
      assert Zeros(k)[..k - 1] == Zeros(k - 1);
    }
  }

  lemma {:induction false} CountZeros(k: nat, length: real)
    requires length > 0.0
    ensures CountIn(Zeros(k), 0.0, length) == k
  {
    if k > 0 {
      CountZeros(k - 1, length);
      assert Zeros(k)[..k - 1] == Zeros(k - 1);
    }
  }

  lemma {:induction false} BurstAccepted(k: nat, index: bool)
    requires k <= SharedLimit(index)
    ensures var s := After(CLEAR, Burst(k, index));
            && s.global == Shared(s, index) == SharedLog(LogAfter(CLEAR, NOTHING, Burst(k, index)), index) == Zeros(k)
            && Unknown(s, k)
  {
    hide Step, Unknown, Recent, After, LogAfter;
    if k == 0 {
      NobodyYet();
    } else {
      var before, x := Burst(k - 1, index), Visit(k - 1, index, 0.0);
      BurstAccepted(k - 1, index);
      RecentZeros(k - 1, 0.0);
      NewVisit(After(CLEAR, before), k - 1, index, 0.0);
      AfterAppend(CLEAR, NOTHING, before, x);
      LoggedVisit(LogAfter(CLEAR, NOTHING, before), k - 1, index, 0.0);
    }
  }

  lemma NobodyYet()
    ensures After(CLEAR, []) == CLEAR && LogAfter(CLEAR, NOTHING, []) == NOTHING && Unknown(CLEAR, 0)
  {
  }

  lemma LoggedVisit(log: Log, i: nat, index: bool, now: real)
    ensures SharedLog(Logged(log, Visit(i, index, now), true), index) == SharedLog(log, index) + [now]
  {
  }

  /** A full burst at 0, one call at 60, and one that read its clock lag earlier but took the lock later. */
  function StaleTrace(lag: real, index: bool): seq<Call> {
    var k := SharedLimit(index);
    Burst(k, index) + [Visit(k, index, 60.0)] + [Visit(k + 1, index, 60.0 - lag)]
  }

  lemma StaleTraceLog(lag: real, index: bool)
    requires 0.0 <= lag <= 60.0
    ensures SharedLog(LogAfter(CLEAR, NOTHING, StaleTrace(lag, index)), index)
            == Zeros(SharedLimit(index)) + [60.0] + [60.0 - lag]
  {
    hide Step, Logged, Unknown, Burst, Zeros, Recent, After, LogAfter;
    var k := SharedLimit(index);
    var burst, x, y := Burst(k, index), Visit(k, index, 60.0), Visit(k + 1, index, 60.0 - lag);
    var s0 := After(CLEAR, burst);
    BurstAccepted(k, index);
    RecentZeros(k, 60.0);
    NewVisit(s0, k, index, 60.0);
    AfterAppend(CLEAR, NOTHING, burst, x);
    var s1 := After(CLEAR, burst + [x]);
    assert s1.global == [] + [60.0] == [60.0];
    RecentOne(60.0, 60.0 - lag);
    NewVisit(s1, k + 1, index, 60.0 - lag);
    AfterAppend(CLEAR, NOTHING, burst + [x], y);
    LoggedVisit(LogAfter(CLEAR, NOTHING, burst), k, index, 60.0);
    LoggedVisit(LogAfter(CLEAR, NOTHING, burst + [x]), k + 1, index, 60.0 - lag);
  }

  lemma RecentOne(t: real, now: real)
    ensures |Recent([t], now)| <= 1
  {
  }

  lemma StaleTraceTrails(lag: real, index: bool)
    requires 0.0 <= lag <= 60.0
    ensures Trailing(StaleTrace(lag, index), lag)
  {
    hide Burst;
    var calls := StaleTrace(lag, index);
    assert forall i | 0 <= i < |calls| ::
      calls[i].now == if i < |calls| - 2 then 0.0 else if i == |calls| - 2 then 60.0 else 60.0 - lag;
  }

  /** A longer window than 60 - lag can be overfilled, on either list, by one reading that is lag late. */
  lemma StaleReadingBreaksWindow(lag: real, length: real, index: bool)
    requires 0.0 <= lag <= 60.0 && length > WINDOW - lag
    ensures Trailing(StaleTrace(lag, index), lag)
    ensures CountIn(SharedLog(LogAfter(CLEAR, NOTHING, StaleTrace(lag, index)), index), 0.0,
                    length) > SharedLimit(index)
  {
    hide CountIn, Zeros, Trailing, LogAfter;
    var k := SharedLimit(index);
    StaleTraceLog(lag, index);
    StaleTraceTrails(lag, index);
    CountZeros(k, length);
    CountInAppend(Zeros(k), 60.0, 0.0, length);
    CountInAppend(Zeros(k) + [60.0], 60.0 - lag, 0.0, length);
  }

  /** No window of the given length ever holds more than 600 accepted calls, or 100 accepted index calls. */
  ghost predicate AlwaysWithin(lag: real, length: real, index: bool) {
    forall calls, a | Trailing(calls, lag) ::
      CountIn(SharedLog(LogAfter(CLEAR, NOTHING, calls), index), a, length) <= if index then 100 else 600
  }

  lemma {:induction false} ShorterWindow(times: Times, a: real, length: real, longer: real)
    requires length <= longer
    ensures CountIn(times, a, length) <= CountIn(times, a, longer)
  {
    if times != [] {
      ShorterWindow(times[..|times| - 1], a, length, longer);
    }
  }

  lemma TrailingMore(calls: seq<Call>, lag: real, more: real)
    requires Trailing(calls, lag) && lag <= more
    ensures Trailing(calls, more)
  {
  }

  /**
   Exactly what the limiter guarantees when clock readings can be late.  The clock is read before the lock is taken, so
   a reading may trail one that was used before it; if none trails by more than lag, the limits of 600 calls and 100
   index calls hold in every window of a given length exactly when the window is no longer than 60 - lag seconds.
   */
  lemma LateWindowsExactly(lag: real, length: real, index: bool)
    requires 0.0 <= lag && 0.0 < length
    ensures AlwaysWithin(lag, length, index) <==> length <= 60.0 - lag
  {
    hide CountIn, Trailing, LogAfter;
    if length <= WINDOW - lag {
      forall calls, a | Trailing(calls, lag)
        ensures CountIn(SharedLog(LogAfter(CLEAR, NOTHING, calls), index), a, length) <= if index then 100 else 600
      {
        WindowsBounded(calls, lag, a);
        ShorterWindow(SharedLog(LogAfter(CLEAR, NOTHING, calls), index), a, length, WINDOW - lag);
      }
    } else {
      var late := if lag <= 60.0 then lag else 60.0;
      StaleReadingBreaksWindow(late, length, index);
      TrailingMore(StaleTrace(late, index), late, lag);
    }
  }
}
