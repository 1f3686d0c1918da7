/**
 Fixed-window request budgets and the in-process fallback (server/mcp/mcpCapacity.js:5-14, 94-130, 227-242).
 Two stores keep the counters: Redis, whose keys expire, and a bounded local map, which is pruned.
 */
module RateWindow {
  import opened Prelude

  type Key = string

  // One answered request: when it came and whether it was within the budget.
  datatype Entry = Entry(key: Key, now: int, allowed: bool)

  datatype Name = Name(key: Key, bucket: int)

  function BucketOf(now: int, window: int): int
    requires window > 0
  {
    now / window
  }

  lemma BucketBounds(now: int, window: int)
    requires window > 0
    ensures BucketOf(now, window) * window <= now < BucketOf(now, window) * window + window
  {
  }

  lemma Scale(i: int, j: int, window: int)
    requires window > 0 && i <= j
    ensures i * window <= j * window
  {
  }

  lemma SameBucket(now: int, bucket: int, window: int)
    requires window > 0 && bucket * window <= now < bucket * window + window
    ensures BucketOf(now, window) == bucket
  {
    BucketBounds(now, window);
    var b := BucketOf(now, window);
    if b < bucket {
      Scale(b + 1, bucket, window);
    } else if b > bucket {
      Scale(bucket + 1, b, window);
    }
  }

  /** Requests answered for a key in a bucket, and those of them that were allowed. */
  function InBucket(log: seq<Entry>, window: int, name: Name): nat
    requires window > 0
  {
    if log == [] then 0
    else InBucket(log[..|log| - 1], window, name)
         + if Name(log[|log| - 1].key, BucketOf(log[|log| - 1].now, window)) == name then 1 else 0
  }

  function AllowedInBucket(log: seq<Entry>, window: int, name: Name): nat
    requires window > 0
  {
    if log == [] then 0
    else AllowedInBucket(log[..|log| - 1], window, name)
         + if log[|log| - 1].allowed
           && Name(log[|log| - 1].key, BucketOf(log[|log| - 1].now, window)) == name then 1 else 0
  }

  function AllowedBetween(log: seq<Entry>, key: Key, from: int, to: int): nat {
    if log == [] then 0
    else AllowedBetween(log[..|log| - 1], key, from, to)
         + if log[|log| - 1].allowed && log[|log| - 1].key == key && from <= log[|log| - 1].now < to then 1 else 0
  }

  // Every answer counted exactly the requests answered before it in its own bucket.
  ghost predicate Counted(log: seq<Entry>, window: int, limits: Key -> nat)
    requires window > 0
  {
    forall i | 0 <= i < |log| ::
      log[i].allowed
      <==> InBucket(log[..i], window, Name(log[i].key, BucketOf(log[i].now, window))) < limits(log[i].key)
  }

  lemma CountedAppend(log: seq<Entry>, window: int, limits: Key -> nat, e: Entry)
    requires window > 0 && Counted(log, window, limits)
    requires e.allowed <==> InBucket(log, window, Name(e.key, BucketOf(e.now, window))) < limits(e.key)
    ensures Counted(log + [e], window, limits)
  {
    var all := log + [e];
    forall i | 0 <= i < |all|
      ensures all[i].allowed
              <==> InBucket(all[..i], window, Name(all[i].key, BucketOf(all[i].now, window))) < limits(all[i].key)
    {
      assert all[..i] == log[..i];
      assert log[..|log|] == log;
    }
  }

  lemma CountAppend(log: seq<Entry>, window: int, name: Name, e: Entry)
    requires window > 0
    ensures InBucket(log + [e], window, name)
            == InBucket(log, window, name) + if Name(e.key, BucketOf(e.now, window)) == name then 1 else 0
  {
    assert (log + [e])[..|log|] == log;
  }

  /** Each bucket admits its first limit requests, no more and no fewer. */
  lemma {:induction false} BucketExact(log: seq<Entry>, window: int, limits: Key -> nat, name: Name)
    requires window > 0 && Counted(log, window, limits)
    ensures AllowedInBucket(log, window, name) == Min(limits(name.key), InBucket(log, window, name))
  {
    if log != [] {
      var k := |log| - 1;
      forall i | 0 <= i < k
        ensures log[..k][..i] == log[..i]
      {
      }
      BucketExact(log[..k], window, limits, name);
    }
  }

  lemma {:induction false} BetweenTwoBuckets(log: seq<Entry>, window: int, key: Key, from: int)
    requires window > 0
    ensures var b := BucketOf(from, window);
            AllowedBetween(log, key, from, from + window)
            <= AllowedInBucket(log, window, Name(key, b)) + AllowedInBucket(log, window, Name(key, b + 1))
  {
    if log != [] {
      var k := |log| - 1;
      BetweenTwoBuckets(log[..k], window, key, from);
      var now, b := log[k].now, BucketOf(from, window);
      if from <= now < from + window {
        BucketBounds(from, window);
        if now < b * window + window {
          SameBucket(now, b, window);
        } else {
          assert (b + 1) * window == b * window + window;
          SameBucket(now, b + 1, window);
        }
      }
    }
  }

  /** No interval of one window's length admits more than twice the limit. */
  lemma AtMostTwice(log: seq<Entry>, window: int, limits: Key -> nat, key: Key, from: int)
    requires window > 0 && Counted(log, window, limits)
    ensures AllowedBetween(log, key, from, from + window) <= 2 * limits(key)
  {
    var b := BucketOf(from, window);
    BetweenTwoBuckets(log, window, key, from);
    BucketExact(log, window, limits, Name(key, b));
    BucketExact(log, window, limits, Name(key, b + 1));
  }

  function Repeat(key: Key, now: int, n: nat): (r: seq<Entry>)
    ensures |r| == n && forall i | 0 <= i < n :: r[i] == Entry(key, now, true)
  {
    seq(n, _ => Entry(key, now, true))
  }

  lemma {:induction false} RepeatCounts(log: seq<Entry>, window: int, key: Key, now: int, n: nat, name: Name,
                                        from: int, to: int)
    requires window > 0
    ensures InBucket(log + Repeat(key, now, n), window, name)
            == InBucket(log, window, name) + if Name(key, BucketOf(now, window)) == name then n else 0
    ensures AllowedBetween(log + Repeat(key, now, n), key, from, to)
            == AllowedBetween(log, key, from, to) + if from <= now < to then n else 0
  {
    if n == 0 {
      assert log + Repeat(key, now, 0) == log;
    } else {
      var before := log + Repeat(key, now, n - 1);
      assert log + Repeat(key, now, n) == before + [Entry(key, now, true)];
      assert (before + [Entry(key, now, true)])[..|before|] == before;
      RepeatCounts(log, window, key, now, n - 1, name, from, to);
    }
  }

  lemma {:induction false} RepeatCounted(log: seq<Entry>, window: int, limits: Key -> nat, key: Key, now: int, n: nat)
    requires window > 0 && Counted(log, window, limits)
    requires InBucket(log, window, Name(key, BucketOf(now, window))) + n <= limits(key)
    ensures Counted(log + Repeat(key, now, n), window, limits)
  {
    hide InBucket, Counted, AllowedBetween;
    if n == 0 {
      assert log + Repeat(key, now, 0) == log;
    } else {
      var before := log + Repeat(key, now, n - 1);
      RepeatCounted(log, window, limits, key, now, n - 1);
      RepeatCounts(log, window, key, now, n - 1, Name(key, BucketOf(now, window)), 0, 0);
      CountedAppend(before, window, limits, Entry(key, now, true));
      assert log + Repeat(key, now, n) == before + [Entry(key, now, true)];
    }
  }

  /** The bound is met: a burst at the end of one bucket and another at the start of the next, one millisecond apart. */
  lemma TwiceIsReached(window: int, limits: Key -> nat, key: Key)
    requires window > 1
    ensures var log := Repeat(key, window - 1, limits(key)) + Repeat(key, window, limits(key));
            Counted(log, window, limits) && AllowedBetween(log, key, window - 1, window + 1) == 2 * limits(key)
  {
    var n := limits(key);
    SameBucket(window - 1, 0, window);
    SameBucket(window, 1, window);
    var first := Repeat(key, window - 1, n);
    assert [] + first == first;
    RepeatCounted([], window, limits, key, window - 1, n);
    RepeatCounts([], window, key, window - 1, n, Name(key, 1), window - 1, window + 1);
    RepeatCounted(first, window, limits, key, window, n);
    RepeatCounts(first, window, key, window, n, Name(key, 1), window - 1, window + 1);
  }

  /** When a bucket closes. */
  function End(bucket: int, window: int): int {
    (bucket + 1) * window
  }

  lemma EndIsNear(now: int, window: int)
    requires window > 0
    ensures now < End(BucketOf(now, window), window) <= now + window
  {
    BucketBounds(now, window);
  }

  // ---------------------------------------------------------------- the Redis counters

  datatype Counter = Counter(hits: nat, expiry: int)

  // A counter whose bucket is still open is there and exact; one window after its bucket closed it is gone.
  ghost predicate RedisExact(counters: map<Name, Counter>, log: seq<Entry>, window: int, last: int)
    requires window > 0
  {
    && (forall name | name in counters ::
          && counters[name].hits == InBucket(log, window, name)
          && End(name.bucket, window) <= counters[name].expiry <= End(name.bucket, window) + window
          && last <= counters[name].expiry)
    && (forall name | name !in counters && last < End(name.bucket, window) :: InBucket(log, window, name) == 0)
  }

  /** The counters Redis still has: those whose deadline has not passed. */
  function Unexpired(counters: map<Name, Counter>, now: int): map<Name, Counter> {
    map n | n in counters && now <= counters[n].expiry :: counters[n]
  }

  lemma ExpiryExact(counters: map<Name, Counter>, log: seq<Entry>, window: int, last: int, now: int)
    requires window > 0 && RedisExact(counters, log, window, last) && last <= now
    ensures RedisExact(Unexpired(counters, now), log, window, now)
  {
    hide InBucket, End;
  }

  lemma RedisCounts(counters: map<Name, Counter>, log: seq<Entry>, window: int, last: int, e: Entry, expiry: int)
    requires window > 0 && RedisExact(counters, log, window, last)
    requires End(BucketOf(e.now, window), window) <= expiry <= End(BucketOf(e.now, window), window) + window
    requires last <= expiry
    ensures var name := Name(e.key, BucketOf(e.now, window));
            RedisExact(counters[name := Counter(InBucket(log, window, name) + 1, expiry)], log + [e], window, last)
  {
    hide InBucket, End, BucketOf;
    forall n
      ensures InBucket(log + [e], window, n)
              == InBucket(log, window, n) + if Name(e.key, BucketOf(e.now, window)) == n then 1 else 0
    {
      CountAppend(log, window, n, e);
    }
  }

  class RedisCounters {
    const window: int
    const limits: Key -> nat
    var counters: map<Name, Counter>
    ghost var log: seq<Entry>
    ghost var last: int

    ghost predicate Valid()
      reads this
    {
      window > 0 && Counted(log, window, limits) && RedisExact(counters, log, window, last)
    }

    constructor (window: int, limits: Key -> nat, now: int)
      requires window > 0
      ensures Valid() && log == [] && this.window == window && this.limits == limits && last == now
    {
      this.window, this.limits := window, limits;
      counters, log, last := map[], [], now;
    }

    /**
     RATE: INCR, and PEXPIRE on the first hit.  An expired counter starts again from nothing, but no counter
     expires before its bucket closes, so every answer counts the whole bucket.
     */
    method Consume(key: Key, now: int) returns (allowed: bool)
      requires Valid() && last <= now
      modifies this
      ensures Valid() && last == now
      ensures log == old(log) + [Entry(key, now, allowed)]
      ensures allowed <==> InBucket(old(log), window, Name(key, BucketOf(now, window))) < limits(key)
    {
      hide InBucket, BucketOf, End, Counted;
      ExpiryExact(counters, log, window, last, now);
      counters, last := Unexpired(counters, now), now;
      var name := Name(key, BucketOf(now, window));
      EndIsNear(now, window);
      var hits := (if name in counters then counters[name].hits else 0) + 1;
      var expiry := if hits == 1 then now + window else counters[name].expiry;
      assert hits == InBucket(log, window, name) + 1;
      allowed := hits <= limits(key);
      ghost var e := Entry(key, now, allowed);
      CountedAppend(log, window, limits, e);
      RedisCounts(counters, log, window, now, e, expiry);
      counters := counters[name := Counter(hits, expiry)];
      log := log + [e];
    }
  }

  // ---------------------------------------------------------------- the local counters

  const MAX_LOCAL_IDENTITIES := 10000

  datatype LocalEntry = LocalEntry(count: nat, expiresAt: int)

  // Exactly the buckets still open that were counted at all are there, with their counts.
  ghost predicate LocalExact(windows: map<Name, LocalEntry>, log: seq<Entry>, window: int, last: int)
    requires window > 0
  {
    && (forall name | name in windows ::
          && windows[name].count == InBucket(log, window, name)
          && windows[name].expiresAt == End(name.bucket, window) > last)
    && (forall name | name !in windows && last < End(name.bucket, window) :: InBucket(log, window, name) == 0)
  }

  lemma LocalCounts(windows: map<Name, LocalEntry>, log: seq<Entry>, window: int, last: int, e: Entry)
    requires window > 0 && LocalExact(windows, log, window, last) && last < End(BucketOf(e.now, window), window)
    ensures var name := Name(e.key, BucketOf(e.now, window));
            LocalExact(windows[name := LocalEntry(InBucket(log, window, name) + 1, End(name.bucket, window))],
                       log + [e], window, last)
  {
    hide InBucket, End, BucketOf;
    forall n
      ensures InBucket(log + [e], window, n)
              == InBucket(log, window, n) + if Name(e.key, BucketOf(e.now, window)) == n then 1 else 0
    {
      CountAppend(log, window, n, e);
    }
  }

  function Pruned(windows: map<Name, LocalEntry>, now: int): map<Name, LocalEntry> {
    map n | n in windows && now < windows[n].expiresAt :: windows[n]
  }

  /** Visits every stored window once and deletes those whose bucket has closed. */
  method PruneWindows(windows: map<Name, LocalEntry>, now: int) returns (left: map<Name, LocalEntry>)
    ensures left == Pruned(windows, now)
  {
    left := windows;
    var pending := windows.Keys;
    while pending != {}
      invariant pending <= windows.Keys
      invariant forall n :: n in left <==> n in windows && (n in pending || now < windows[n].expiresAt)
      invariant forall n | n in left :: left[n] == windows[n]
      decreases |pending|
    {
      var n :| n in pending;
      if windows[n].expiresAt <= now {
        left := left - {n};
      }
      pending := pending - {n};
    }
  }

  lemma PrunedExact(windows: map<Name, LocalEntry>, log: seq<Entry>, window: int, last: int, now: int)
    requires window > 0 && LocalExact(windows, log, window, last) && last <= now
    ensures LocalExact(Pruned(windows, now), log, window, now)
    ensures |Pruned(windows, now)| <= |windows|
  {
    hide InBucket, End, BucketOf;
    SubmapSize(Pruned(windows, now), windows);
  }

  class LocalCounters {
    const window: int
    const limits: Key -> nat
    var windows: map<Name, LocalEntry>
    ghost var log: seq<Entry>
    ghost var last: int

    ghost predicate Valid()
      reads this
    {
      && window > 0 && |windows| <= MAX_LOCAL_IDENTITIES
      && Counted(log, window, limits) && LocalExact(windows, log, window, last)
    }

    constructor (window: int, limits: Key -> nat, now: int)
      requires window > 0
      ensures Valid() && log == [] && this.window == window && this.limits == limits && last == now
    {
      this.window, this.limits := window, limits;
      windows, log, last := map[], [], now;
    }

    /** Refuses exactly a new identity that finds the pruned map full; otherwise counts the request. */
    method Consume(key: Key, now: int) returns (r: Option<bool>)
      requires Valid() && last <= now
      modifies this
      ensures Valid() && last == now
      ensures r.None? <==> Name(key, BucketOf(now, window)) !in Pruned(old(windows), now)
                           && |Pruned(old(windows), now)| >= 10000
      ensures |windows| <= 10000
      ensures r.Some? ==>
                var name := Name(key, BucketOf(now, window));
                var entry := LocalEntry(InBucket(log, window, name), End(name.bucket, window));
                windows == Pruned(old(windows), now)[name := entry]
      ensures r.None? ==> log == old(log) && windows == Pruned(old(windows), now)
      ensures r.Some? ==> log == old(log) + [Entry(key, now, r.value)]
      ensures r.Some? ==> (r.value <==> InBucket(old(log), window, Name(key, BucketOf(now, window))) < limits(key))
    {
      hide InBucket, BucketOf, End, Counted;
      PrunedExact(windows, log, window, last, now);
      windows := PruneWindows(windows, now);
      last := now;
      var name := Name(key, BucketOf(now, window));
      if name !in windows && |windows| >= MAX_LOCAL_IDENTITIES {
        return None;
      }
      EndIsNear(now, window);
      var count := (if name in windows then windows[name].count else 0) + 1;
      assert count == InBucket(log, window, name) + 1;
      ghost var before := windows;
      windows := windows[name := LocalEntry(count, End(name.bucket, window))];
      var allowed := count <= limits(key);
      ghost var e := Entry(key, now, allowed);
      CountedAppend(log, window, limits, e);
      LocalCounts(before, log, window, now, e);
      log := log + [e];
      return Some(allowed);
    }
  }

  // ---------------------------------------------------------------- local permits

  type User = string

  function OpenOf(open: map<nat, User>, user: User): set<nat> {
    set h | h in open && open[h] == user
  }

  // The per-user counters are exactly the permits handed out and not yet released.
  ghost predicate Tallied(perUser: map<User, int>, open: map<nat, User>, maxPerUser: nat) {
    && (forall u | u in perUser :: perUser[u] == |OpenOf(open, u)| && 0 < perUser[u] <= maxPerUser)
    && (forall u | u !in perUser :: OpenOf(open, u) == {})
  }

  lemma UserCount(perUser: map<User, int>, open: map<nat, User>, maxPerUser: nat, user: User)
    requires Tallied(perUser, open, maxPerUser)
    ensures (if user in perUser then perUser[user] else 0) == |OpenOf(open, user)|
  {
  }

  lemma OpenAdd(open: map<nat, User>, handle: nat, user: User, u: User)
    requires handle !in open
    ensures OpenOf(open[handle := user], u) == OpenOf(open, u) + (if u == user then {handle} else {})
    ensures handle !in OpenOf(open, u)
  {
    var more := open[handle := user];
    forall h
      ensures h in OpenOf(more, u) <==> h in OpenOf(open, u) || (u == user && h == handle)
    {
    }
  }

  lemma OpenRemove(open: map<nat, User>, handle: nat, u: User)
    requires handle in open
    ensures OpenOf(open - {handle}, u) == OpenOf(open, u) - {handle}
    ensures handle in OpenOf(open, u) <==> u == open[handle]
  {
    var less := open - {handle};
    forall h
      ensures h in OpenOf(less, u) <==> h in OpenOf(open, u) && h != handle
    {
    }
  }

  lemma TallyAdd(perUser: map<User, int>, open: map<nat, User>, maxPerUser: nat, user: User, handle: nat, count: int)
    requires Tallied(perUser, open, maxPerUser) && handle !in open && count == |OpenOf(open, user)| < maxPerUser
    ensures Tallied(perUser[user := count + 1], open[handle := user], maxPerUser)
  {
    hide OpenOf;
    var after, more := perUser[user := count + 1], open[handle := user];
    forall u
      ensures u in after ==> after[u] == |OpenOf(more, u)| && 0 < after[u] <= maxPerUser
      ensures u !in after ==> OpenOf(more, u) == {}
    {
      OpenAdd(open, handle, user, u);
    }
  }

  lemma TallyRemove(perUser: map<User, int>, open: map<nat, User>, maxPerUser: nat, user: User, handle: nat, count: int)
    requires Tallied(perUser, open, maxPerUser) && handle in open && open[handle] == user
             && count == |OpenOf(open, user)|
    ensures Tallied(if count <= 1 then perUser - {user} else perUser[user := count - 1], open - {handle}, maxPerUser)
  {
    hide OpenOf;
    var after, less := if count <= 1 then perUser - {user} else perUser[user := count - 1], open - {handle};
    forall u
      ensures u in after ==> after[u] == |OpenOf(less, u)| && 0 < after[u] <= maxPerUser
      ensures u !in after ==> OpenOf(less, u) == {}
    {
      OpenRemove(open, handle, u);
      if u == user && count <= 1 {
        assert |OpenOf(less, user)| == 0;
      }
    }
  }

  // What the counters, the once-only flags and the permits in use say about each other.
  ghost predicate Accounted(global: int, perUser: map<User, int>, released: map<nat, bool>, open: map<nat, User>,
                            minted: map<nat, User>, maxPerUser: nat, maxGlobal: nat)
  {
    global == |open| <= maxGlobal && Tallied(perUser, open, maxPerUser) && Flagged(released, open, minted)
  }

  ghost predicate Flagged(released: map<nat, bool>, open: map<nat, User>, minted: map<nat, User>) {
    && (forall h :: h in released <==> h in minted)
    && (forall h :: h in open <==> h in minted && !released[h])
    && (forall h | h in open :: open[h] == minted[h])
  }

  lemma FlagAdd(released: map<nat, bool>, open: map<nat, User>, minted: map<nat, User>, handle: nat, user: User)
    requires Flagged(released, open, minted) && handle !in minted
    ensures Flagged(released[handle := false], open[handle := user], minted[handle := user])
  {
  }

  lemma FlagRemove(released: map<nat, bool>, open: map<nat, User>, minted: map<nat, User>, handle: nat)
    requires Flagged(released, open, minted) && handle in open
    ensures Flagged(released[handle := true], open - {handle}, minted)
  {
  }

  lemma Grows(open: map<nat, User>, handle: nat, user: User)
    requires handle !in open
    ensures |open[handle := user]| == |open| + 1
  {
  }

  lemma Shrinks(open: map<nat, User>, handle: nat)
    requires handle in open
    ensures |open - {handle}| == |open| - 1
  {
    assert (open - {handle}).Keys == open.Keys - {handle};
    assert |open| == |open.Keys| && |open - {handle}| == |(open - {handle}).Keys|;
  }

  lemma Untouched(open: map<nat, User>, handle: nat)
    requires handle !in open
    ensures open - {handle} == open
  {
  }

  /** The fallback permits of one process: a global counter, a counter per user and once-only releases. */
  class LocalPermits {
    const maxPerUser: nat
    const maxGlobal: nat
    var global: int
    var perUser: map<User, int>
    var released: map<nat, bool>
    ghost var open: map<nat, User>
    ghost var minted: map<nat, User>

    ghost predicate Valid()
      reads this
    {
      Accounted(global, perUser, released, open, minted, maxPerUser, maxGlobal)
    }

    constructor (maxPerUser: nat, maxGlobal: nat)
      ensures Valid() && |open| == |minted| == 0
      ensures this.maxPerUser == maxPerUser && this.maxGlobal == maxGlobal
    {
      this.maxPerUser, this.maxGlobal := maxPerUser, maxGlobal;
      global, perUser, released, open, minted := 0, map[], map[], map[], map[];
    }

    /** Granted exactly when the permits in use leave room under both limits. */
    method Acquire(user: User, handle: nat) returns (granted: bool)
      requires Valid() && handle !in minted
      modifies this
      ensures Valid()
      ensures granted <==> |old(open)| < maxGlobal && |OpenOf(old(open), user)| < maxPerUser
      ensures open == if granted then old(open)[handle := user] else old(open)
      ensures minted == if granted then old(minted)[handle := user] else old(minted)
    {
      hide Tallied, OpenOf;
      if global >= maxGlobal {
        return false;
      }
      var userCount := if user in perUser then perUser[user] else 0;
      UserCount(perUser, open, maxPerUser, user);
      if userCount >= maxPerUser {
        return false;
      }
      assert handle !in open;
      FlagAdd(released, open, minted, handle, user);
      hide Flagged;
      TallyAdd(perUser, open, maxPerUser, user, handle, userCount);
      Grows(open, handle, user);
      global := global + 1;
      perUser := perUser[user := userCount + 1];
      released := released[handle := false];
      open, minted := open[handle := user], minted[handle := user];
      return true;
    }

    /** Only the first release of a handle counts, and the clamp at zero never acts. */
    method Release(handle: nat, user: User) returns (first: bool)
      requires Valid() && handle in minted && minted[handle] == user
      modifies this
      ensures Valid()
      ensures first <==> handle in old(open)
      ensures open == old(open) - {handle} && minted == old(minted)
    {
      hide Tallied, OpenOf;
      if released[handle] {
        Untouched(open, handle);
        return false;
      }
      assert handle in open && open[handle] == user;
      FlagRemove(released, open, minted, handle);
      hide Flagged;
      var current := if user in perUser then perUser[user] else 0;
      UserCount(perUser, open, maxPerUser, user);
      TallyRemove(perUser, open, maxPerUser, user, handle, current);
      Shrinks(open, handle);
      released := released[handle := true];
      global := Max(0, global - 1);
      if current <= 1 {
        perUser := perUser - {user};
      } else {
        perUser := perUser[user := current - 1];
      }
      open := open - {handle};
      return true;
    }
  }
}
