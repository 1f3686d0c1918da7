/**
 The sliding-window limiter of the RAG router (ml-service/rag/router.py:50-143): five stores charged
 together under one lock, with least-recently-used eviction in the keyed ones.

 The clock reading is an input of each call: the source takes it before it takes the lock.
 */
module RateLimiter {
  import opened Prelude

  type Key = string
  type Times = seq<real>

  const WINDOW := 60.0
  const MAX_REQUESTS: nat := 60
  const MAX_GLOBAL: nat := 600
  const MAX_BUCKETS: nat := 4096
  const MAX_INDEX: nat := 10
  const MAX_GLOBAL_INDEX: nat := 100

  // An ordered dictionary: order lists the keys from least to most recently touched.
  datatype Store = Store(order: seq<Key>, buckets: map<Key, Times>)

  datatype State = State(ips: Store, principals: Store, global: Times, indexes: Store, globalIndex: Times)

  datatype Call =
    | Check(ip: Key, principal: Key, index: bool, now: real)
    | Prevalidate(ip: Key, index: bool, now: real)

  datatype Verdict = Accepted | LimitExceeded | UnsupportedKind

  const EMPTY := Store([], map[])
  const CLEAR := State(EMPTY, EMPTY, [], EMPTY, [])

  function Recent(times: Times, now: real): (r: Times)
    ensures |r| <= |times|
  {
    if times == [] then []
    else Recent(times[..|times| - 1], now) + if now - times[|times| - 1] < WINDOW then [times[|times| - 1]] else []
  }

  function Bucket(s: Store, key: Key): Times {
    if key in s.buckets then s.buckets[key] else []
  }

  function Without(order: seq<Key>, key: Key): seq<Key> {
    if order == [] then []
    else if order[0] == key then Without(order[1..], key)
    else [order[0]] + Without(order[1..], key)
  }

  /** The key popitem(last=False) drops to make room for a new one. */
  function Evicted(s: Store, key: Key): Option<Key> {
    if key !in s.buckets && |s.order| >= MAX_BUCKETS then Some(s.order[0]) else None
  }

  function AfterEviction(s: Store, key: Key): Store {
    match Evicted(s, key)
    case None => s
    case Some(victim) => Store(s.order[1..], s.buckets - {victim})
  }

  /** _recent_bucket: prune the key's bucket, evict if needed, and make the key the most recently touched. */
  function Touch(s: Store, key: Key, now: real): Store {
    var t := AfterEviction(s, key);
    Store(Without(t.order, key) + [key], t.buckets[key := Recent(Bucket(s, key), now)])
  }

  function Charge(s: Store, key: Key, now: real): Store {
    s.(buckets := s.buckets[key := Bucket(s, key) + [now]])
  }

  /** The stores after the pruning that every call does before its verdict. */
  function Pruned(s: State, call: Call): State {
    match call
    case Check(ip, principal, index, now) =>
      State(Touch(s.ips, ip, now), Touch(s.principals, principal, now), Recent(s.global, now),
            if index then Touch(s.indexes, principal, now) else s.indexes,
            if index then Recent(s.globalIndex, now) else s.globalIndex)
    case Prevalidate(ip, _, now) => s.(ips := Touch(s.ips, ip, now))
  }

  predicate Admits(p: State, call: Call) {
    match call
    case Check(ip, principal, index, now) =>
      && |Bucket(p.ips, ip)| < MAX_REQUESTS
      && |Bucket(p.principals, principal)| < MAX_REQUESTS
      && |p.global| < MAX_GLOBAL
      && (index ==> |Bucket(p.indexes, principal)| < MAX_INDEX && |p.globalIndex| < MAX_GLOBAL_INDEX)
    case Prevalidate(ip, index, now) =>
      |Bucket(p.ips, ip)| < if index then Min(MAX_REQUESTS, MAX_INDEX) else MAX_REQUESTS
  }

  function Charged(p: State, call: Call): State {
    match call
    case Check(ip, principal, index, now) =>
      State(Charge(p.ips, ip, now), Charge(p.principals, principal, now), p.global + [now],
            if index then Charge(p.indexes, principal, now) else p.indexes,
            if index then p.globalIndex + [now] else p.globalIndex)
    case Prevalidate(ip, _, now) => p.(ips := Charge(p.ips, ip, now))
  }

  function Step(s: State, call: Call): (State, bool) {
    var p := Pruned(s, call);
    if Admits(p, call) then (Charged(p, call), true) else (p, false)
  }

  class Limiter {
    var ips: Store
    var principals: Store
    var global: Times
    var indexes: Store
    var globalIndex: Times

    constructor ()
      ensures View() == CLEAR
    {
      ips, principals, global, indexes, globalIndex := EMPTY, EMPTY, [], EMPTY, [];
    }

    function View(): State
      reads this
    {
      State(ips, principals, global, indexes, globalIndex)
    }

    method Clear()
      modifies this
      ensures View() == CLEAR
    {
      ips, principals, global, indexes, globalIndex := EMPTY, EMPTY, [], EMPTY, [];
    }

    static method RecentBucket(store: Store, key: Key, now: real) returns (after: Store)
      ensures after == Touch(store, key, now)
    {
      var timestamps := Recent(Bucket(store, key), now);
      after := store;
      if key !in after.buckets && |after.order| >= MAX_BUCKETS {
        after := Store(after.order[1..], after.buckets - {after.order[0]});
      }
      after := after.(buckets := after.buckets[key := timestamps]);
      after := after.(order := Without(after.order, key) + [key]);
    }

    method CheckRateLimit(ip: Key, principal: Key, kind: string, now: real) returns (v: Verdict)
      modifies this
      ensures v == UnsupportedKind <==> kind !in {"query", "index"}
      ensures v == UnsupportedKind ==> View() == old(View())
      ensures v != UnsupportedKind
              ==> (View(), v == Accepted) == Step(old(View()), Check(ip, principal, kind == "index", now))
    {
      if kind !in {"query", "index"} {
        return UnsupportedKind;
      }
      global := Recent(global, now);
      ips := RecentBucket(ips, ip, now);
      principals := RecentBucket(principals, principal, now);
      if kind == "index" {
        globalIndex := Recent(globalIndex, now);
        indexes := RecentBucket(indexes, principal, now);
      }
      if |Bucket(ips, ip)| >= MAX_REQUESTS || |Bucket(principals, principal)| >= MAX_REQUESTS || |global| >= MAX_GLOBAL
         || (kind == "index" && |Bucket(indexes, principal)| >= MAX_INDEX)
         || (kind == "index" && |globalIndex| >= MAX_GLOBAL_INDEX) {
        return LimitExceeded;
      }
      ips := Charge(ips, ip, now);
      principals := Charge(principals, principal, now);
      global := global + [now];
      if kind == "index" {
        indexes := Charge(indexes, principal, now);
        globalIndex := globalIndex + [now];
      }
      return Accepted;
    }

    method CheckPrevalidation(ip: Key, kind: string, now: real) returns (v: Verdict)
      modifies this`ips
      ensures v == UnsupportedKind <==> kind !in {"query", "index"}
      ensures v == UnsupportedKind ==> View() == old(View())
      ensures v != UnsupportedKind
              ==> (View(), v == Accepted) == Step(old(View()), Prevalidate(ip, kind == "index", now))
    {
      if kind !in {"query", "index"} {
        return UnsupportedKind;
      }
      ips := RecentBucket(ips, ip, now);
      var limit := if kind == "index" then Min(MAX_REQUESTS, MAX_INDEX) else MAX_REQUESTS;
      if |Bucket(ips, ip)| >= limit {
        return LimitExceeded;
      }
      ips := Charge(ips, ip, now);
      return Accepted;
    }
  }
}
