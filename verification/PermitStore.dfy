/**
 The Redis side of the tool-permit controller (server/mcp/mcpCapacity.js:16-50).

 A permit is a random token held in two sorted sets, one per user and one global; its score is the
 instant at which the lease ends.  ACQUIRE, RENEW and RELEASE run atomically.  Redis hides a key
 whose PEXPIRE deadline has passed, and drops a sorted set, deadline included, when it becomes empty.
 */
module PermitStore {
  import opened Prelude

  type User = string
  type Token = string
  type Scores = map<Token, int>

  datatype KeyName = UserKey(user: User) | GlobalKey

  datatype SortedSet = SortedSet(scores: Scores, expiry: Option<int>)

  // A missing key and an empty sorted set are the same thing.
  const MISSING := SortedSet(map[], None)

  // keyTtl == false describes a store whose keys never expire: PEXPIRE leaves them persistent there.
  datatype Config = Config(perUser: nat, global: nat, ttl: int, keyTtl: bool)

  datatype State = State(users: map<User, SortedSet>, global: SortedSet, now: int)

  datatype Op =
    | Acquire(user: User, token: Token)
    | Renew(user: User, token: Token)
    | Release(user: User, token: Token)
    | Pass(ms: nat)

  function Get(s: State, k: KeyName): SortedSet {
    match k
    case UserKey(u) => if u in s.users then s.users[u] else MISSING
    case GlobalKey => s.global
  }

  function Put(s: State, k: KeyName, z: SortedSet): State {
    match k
    case UserKey(u) => s.(users := s.users[u := z])
    case GlobalKey => s.(global := z)
  }

  function Stored(scores: Scores, expiry: Option<int>): SortedSet {
    if |scores| == 0 then MISSING else SortedSet(scores, expiry)
  }

  predicate Expired(z: SortedSet, now: int) {
    z.expiry.Some? && z.expiry.value < now
  }

  /** What a command sees of a key. */
  function Seen(s: State, k: KeyName): SortedSet {
    if Expired(Get(s, k), s.now) then MISSING else Get(s, k)
  }

  function Members(s: State, k: KeyName): Scores {
    Seen(s, k).scores
  }

  function Above(scores: Scores, limit: int): Scores {
    map t | t in scores && limit < scores[t] :: scores[t]
  }

  /** The permits in force: those whose lease ends strictly later than now. */
  function Live(s: State, k: KeyName): Scores {
    Above(Members(s, k), s.now)
  }

  function Deadline(c: Config, now: int): Option<int> {
    if c.keyTtl then Some(now + c.ttl) else None
  }

  /** ZREMRANGEBYSCORE -inf now on both keys. */
  function Pruned(s: State, k: KeyName): State {
    Put(Put(s, k, Stored(Live(s, k), Seen(s, k).expiry)),
        GlobalKey, Stored(Live(s, GlobalKey), Seen(s, GlobalKey).expiry))
  }

  /** What ACQUIRE does, in terms of the permits in force. */
  function AcquireStep(c: Config, s: State, user: User, token: Token): (State, bool) {
    var u, g := Live(s, UserKey(user)), Live(s, GlobalKey);
    if |u| < c.perUser && |g| < c.global then
      (Put(Put(s, UserKey(user), SortedSet(u[token := s.now + c.ttl], Deadline(c, s.now))),
           GlobalKey, SortedSet(g[token := s.now + c.ttl], Deadline(c, s.now))), true)
    else
      (Pruned(s, UserKey(user)), false)
  }

  function RenewStep(c: Config, s: State, user: User, token: Token): (State, bool) {
    var u, g := Members(s, UserKey(user)), Members(s, GlobalKey);
    if token in u && token in g && u[token] == g[token] && s.now < u[token] then
      (Put(Put(s, UserKey(user), SortedSet(u[token := s.now + c.ttl], Deadline(c, s.now))),
           GlobalKey, SortedSet(g[token := s.now + c.ttl], Deadline(c, s.now))), true)
    else
      (s, false)
  }

  function ReleaseStep(s: State, user: User, token: Token): (State, bool) {
    var u, g := Seen(s, UserKey(user)), Seen(s, GlobalKey);
    (Put(Put(s, UserKey(user), Stored(u.scores - {token}, u.expiry)), GlobalKey, Stored(g.scores - {token}, g.expiry)),
     token in u.scores)
  }

  function Step(c: Config, s: State, op: Op): (State, bool) {
    match op
    case Acquire(user, token) => AcquireStep(c, s, user, token)
    case Renew(user, token) => RenewStep(c, s, user, token)
    case Release(user, token) => ReleaseStep(s, user, token)
    case Pass(ms) => (s.(now := s.now + ms), true)
  }

  lemma SeenPut(s: State, k: KeyName, z: SortedSet, q: KeyName)
    requires !Expired(z, s.now)
    ensures Seen(Put(s, k, z), q) == if q == k then z else Seen(s, q)
    ensures Put(s, k, z).now == s.now && !Expired(Seen(s, q), s.now)
  {
  }

  lemma ExpiryKept(s: State, k: KeyName, z: SortedSet)
    requires z.expiry == Seen(s, k).expiry
    ensures !Expired(z, s.now)
  {
  }

  lemma PutGlobal(s: State, k: KeyName, z: SortedSet)
    requires k.UserKey?
    ensures Seen(Put(s, k, z), GlobalKey) == Seen(s, GlobalKey)
  {
  }

  lemma LastPutWins(s: State, user: User, a: SortedSet, b: SortedSet, c: SortedSet, d: SortedSet)
    ensures Put(Put(Put(Put(s, UserKey(user), a), GlobalKey, b), UserKey(user), c), GlobalKey, d)
            == Put(Put(s, UserKey(user), c), GlobalKey, d)
  {
  }

  /** The server: each method is one command or one atomic script. */
  class Redis {
    const cfg: Config
    var users: map<User, SortedSet>
    var global: SortedSet
    var clock: int

    constructor (cfg: Config, clock: int)
      ensures this.cfg == cfg && View() == State(map[], MISSING, clock)
    {
      this.cfg := cfg;
      this.users := map[];
      this.global := MISSING;
      this.clock := clock;
    }

    function View(): State
      reads this
    {
      State(users, global, clock)
    }

    method Write(k: KeyName, z: SortedSet)
      modifies this`users, this`global
      ensures View() == Put(old(View()), k, z)
    {
      match k
      case UserKey(u) => users := users[u := z];
      case GlobalKey => global := z;
    }

    method ZRemRangeByScore(k: KeyName, max: int)
      modifies this`users, this`global
      ensures View() == Put(old(View()), k, Stored(Above(Members(old(View()), k), max), Seen(old(View()), k).expiry))
    {
      Write(k, Stored(Above(Members(View(), k), max), Seen(View(), k).expiry));
    }

    method ZAdd(k: KeyName, score: int, token: Token)
      modifies this`users, this`global
      ensures View() == Put(old(View()), k,
                            SortedSet(Members(old(View()), k)[token := score], Seen(old(View()), k).expiry))
    {
      Write(k, SortedSet(Members(View(), k)[token := score], Seen(View(), k).expiry));
    }

    method PExpire(k: KeyName, ttl: int)
      modifies this`users, this`global
      ensures View() == if |Members(old(View()), k)| == 0 then old(View())
                        else Put(old(View()), k,
                                 SortedSet(Members(old(View()), k), if cfg.keyTtl then Some(clock + ttl) else None))
    {
      if |Members(View(), k)| != 0 {
        Write(k, SortedSet(Members(View(), k), if cfg.keyTtl then Some(clock + ttl) else None));
      }
    }

    method ZRem(k: KeyName, token: Token) returns (removed: bool)
      modifies this`users, this`global
      ensures removed == (token in Members(old(View()), k))
      ensures View() == Put(old(View()), k, Stored(Members(old(View()), k) - {token}, Seen(old(View()), k).expiry))
    {
      removed := token in Members(View(), k);
      Write(k, Stored(Members(View(), k) - {token}, Seen(View(), k).expiry));
    }

    method AcquireScript(user: User, token: Token) returns (granted: bool)
      modifies this`users, this`global
      ensures (View(), granted) == AcquireStep(cfg, old(View()), user, token)
    {
      var now, uk := clock, UserKey(user);
      ghost var u, g := Live(View(), uk), Live(View(), GlobalKey);
      ZRemRangeByScore(uk, now);
      ZRemRangeByScore(GlobalKey, now);
      assert Members(View(), uk) == u && Members(View(), GlobalKey) == g;
      if |Members(View(), uk)| >= cfg.perUser || |Members(View(), GlobalKey)| >= cfg.global {
        return false;
      }
      AddBoth(user, now + cfg.ttl, token);
      assert users == old(users)[user := users[user]];
      return true;
    }

    /** The four closing commands shared by ACQUIRE and RENEW; XX is redundant once both scores were read. */
    method AddBoth(user: User, expiresAt: int, token: Token)
      requires expiresAt == clock + cfg.ttl
      modifies this`users, this`global
      ensures var u, g := Members(old(View()), UserKey(user)), Members(old(View()), GlobalKey);
              View() == Put(Put(old(View()), UserKey(user), SortedSet(u[token := expiresAt], Deadline(cfg, clock))),
                            GlobalKey, SortedSet(g[token := expiresAt], Deadline(cfg, clock)))
    {
      hide Above, Seen, Put, Get, Expired;
      var uk := UserKey(user);
      ghost var s, deadline := View(), Deadline(cfg, clock);
      ghost var u := SortedSet(Members(s, uk)[token := expiresAt], Seen(s, uk).expiry);
      ghost var g := SortedSet(Members(s, GlobalKey)[token := expiresAt], Seen(s, GlobalKey).expiry);
      ExpiryKept(s, uk, u);
      ExpiryKept(s, GlobalKey, g);
      assert token in u.scores && token in g.scores;
      ZAdd(uk, expiresAt, token);
      SeenPut(s, uk, u, GlobalKey);
      SeenPut(s, uk, u, uk);
      ZAdd(GlobalKey, expiresAt, token);
      ghost var t := Put(s, uk, u);
      SeenPut(t, GlobalKey, g, uk);
      SeenPut(t, GlobalKey, g, GlobalKey);
      PExpire(uk, cfg.ttl);
      ghost var v := Put(t, GlobalKey, g);
      ghost var w := u.(expiry := deadline);
      PutGlobal(v, uk, w);
      PExpire(GlobalKey, cfg.ttl);
      LastPutWins(s, user, u, g, w, g.(expiry := deadline));
    }

    method RenewScript(user: User, token: Token) returns (renewed: bool)
      modifies this`users, this`global
      ensures (View(), renewed) == RenewStep(cfg, old(View()), user, token)
    {
      var now := clock;
      var u, g := Members(View(), UserKey(user)), Members(View(), GlobalKey);
      if token !in u || token !in g || u[token] != g[token] || u[token] <= now {
        return false;
      }
      AddBoth(user, now + cfg.ttl, token);
      return true;
    }

    method ReleaseScript(user: User, token: Token) returns (removed: bool)
      modifies this`users, this`global
      ensures (View(), removed) == ReleaseStep(old(View()), user, token)
    {
      removed := ZRem(UserKey(user), token);
      var _ := ZRem(GlobalKey, token);
    }
  }
}
