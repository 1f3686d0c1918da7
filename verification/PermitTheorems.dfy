/** The promises of the permit protocol, over whole runs. */
module PermitTheorems {
  import opened Prelude
  import opened PermitStore
  import opened PermitSafety

  // ---------------------------------------------------------------- refinement of the lease table

  lemma HeldIsLive(s: State, owner: Owners, u: User)
    requires Matched(s, owner)
    ensures HeldBy(Table(s, owner), u) == Live(s, UserKey(u)).Keys
    ensures |HeldBy(Table(s, owner), u)| == |Live(s, UserKey(u))|
  {
    forall t
      ensures t in HeldBy(Table(s, owner), u) <==> t in Live(s, UserKey(u))
    {
      HeldOne(s, owner, u, t);
    }
    assert HeldBy(Table(s, owner), u) == Live(s, UserKey(u)).Keys;
  }

  lemma HeldOne(s: State, owner: Owners, u: User, t: Token)
    requires Matched(s, owner)
    ensures t in HeldBy(Table(s, owner), u) <==> t in Live(s, UserKey(u))
  {
    hide Live;
    assert t in Table(s, owner) <==> t in Live(s, GlobalKey);
  }

  /** ACQUIRE grants, and RENEW succeeds, exactly when the lease table says so. */
  lemma RepliesRefine(c: Config, s: State, owner: Owners, op: Op)
    requires Sound(c, s, owner) && LegalOp(owner, op)
    ensures op.Acquire? || op.Renew? || op.Pass? ==> Step(c, s, op).1 == TableStep(c, Table(s, owner), s.now, op).1
    ensures op.Release? ==> TableStep(c, Table(s, owner), s.now, op).1 ==> Step(c, s, op).1
  {
    var l := Table(s, owner);
    assert l.Keys == Live(s, GlobalKey).Keys;
    if op.Acquire? {
      HeldIsLive(s, owner, op.user);
      assert |l| == |l.Keys| == |Live(s, GlobalKey)|;
    } else if op.Renew? {
      HeldIsLive(s, owner, op.user);
      assert op.token in Live(s, UserKey(op.user)) <==> op.token in HeldBy(l, op.user);
      RenewNeedsLive(s, owner, op.user, op.token);
    } else if op.Release? {
      HeldIsLive(s, owner, op.user);
    }
  }

  lemma RenewNeedsLive(s: State, owner: Owners, user: User, token: Token)
    requires Matched(s, owner)
    ensures (var u, g := Members(s, UserKey(user)), Members(s, GlobalKey);
             token in u && token in g && u[token] == g[token] && s.now < u[token])
            <==> token in Live(s, UserKey(user))
  {
    if token in Live(s, UserKey(user)) {
      assert token in Live(s, GlobalKey) && owner[token] == user;
    }
  }

  /** One script changes the permits in force exactly as the lease table does. */
  lemma StepRefines(c: Config, s: State, owner: Owners, op: Op)
    requires Sound(c, s, owner) && LegalOp(owner, op)
    ensures Sound(c, Step(c, s, op).0, Minted(owner, op))
    ensures Table(Step(c, s, op).0, Minted(owner, op)) == TableStep(c, Table(s, owner), s.now, op).0
  {
    StepKeepsSound(c, s, owner, op);
    RepliesRefine(c, s, owner, op);
    KeysStep(c, s, op);
    assert Advanced(c, s, op, GlobalKey);
    var (s', ok) := Step(c, s, op);
    TableAfter(c, s, owner, op, ok, Table(s', Minted(owner, op)));
  }

  lemma TableAfter(c: Config, s: State, owner: Owners, op: Op, ok: bool, l': Leases)
    requires Live(s, GlobalKey).Keys <= owner.Keys && LegalOp(owner, op)
    requires !op.Release? ==> ok == TableStep(c, Table(s, owner), s.now, op).1
    requires forall t :: t in l' <==> t in LiveAfter(c, s, op, ok, GlobalKey)
    requires forall t | t in l' ::
             t in Minted(owner, op) && l'[t] == Lease(Minted(owner, op)[t], LiveAfter(c, s, op, ok, GlobalKey)[t])
    ensures l' == TableStep(c, Table(s, owner), s.now, op).0
  {
    hide LiveAfter, TableStep, Table, Live;
    var r := TableStep(c, Table(s, owner), s.now, op).0;
    forall t
      ensures t in l' <==> t in r
      ensures t in r ==> l'[t] == r[t]
    {
      TableAfterAt(c, s, owner, op, ok, t);
    }
  }

  lemma TableAfterAt(c: Config, s: State, owner: Owners, op: Op, ok: bool, t: Token)
    requires Live(s, GlobalKey).Keys <= owner.Keys && LegalOp(owner, op)
    requires !op.Release? ==> ok == TableStep(c, Table(s, owner), s.now, op).1
    ensures var (g, r) := (LiveAfter(c, s, op, ok, GlobalKey), TableStep(c, Table(s, owner), s.now, op).0);
            (t in g <==> t in r) && (t in g ==> t in Minted(owner, op) && r[t] == Lease(Minted(owner, op)[t], g[t]))
  {
    hide Live;
    var l := Table(s, owner);
    assert t in l <==> t in Live(s, GlobalKey);
    if op.Renew? && op.token in l {
      assert l[op.token].user == owner[op.token];
    }
  }

  function TableAfterRun(c: Config, l: Leases, now: int, ops: seq<Op>): Leases
    decreases |ops|
  {
    if ops == [] then l
    else TableAfterRun(c, TableStep(c, l, now, ops[0]).0, if ops[0].Pass? then now + ops[0].ms else now, ops[1..])
  }

  function TableReplies(c: Config, l: Leases, now: int, ops: seq<Op>): (r: seq<bool>)
    ensures |r| == |ops|
    decreases |ops|
  {
    if ops == [] then []
    else
      [TableStep(c, l, now, ops[0]).1]
      + TableReplies(c, TableStep(c, l, now, ops[0]).0, if ops[0].Pass? then now + ops[0].ms else now, ops[1..])
  }

  // RELEASE of a lapsed permit may still report a removal; every other reply is the table's.
  ghost predicate Agree(ops: seq<Op>, r: seq<bool>, q: seq<bool>) {
    && |r| == |q| == |ops|
    && forall i | 0 <= i < |ops| :: if ops[i].Release? then q[i] ==> r[i] else r[i] == q[i]
  }

  lemma AgreeCons(ops: seq<Op>, r: seq<bool>, q: seq<bool>, x: bool, y: bool)
    requires ops != [] && Agree(ops[1..], r, q)
    requires if ops[0].Release? then y ==> x else x == y
    ensures Agree(ops, [x] + r, [y] + q)
  {
    forall i | 0 <= i < |ops|
      ensures if ops[i].Release? then ([y] + q)[i] ==> ([x] + r)[i] else ([x] + r)[i] == ([y] + q)[i]
    {
      if i > 0 {
        assert ops[i] == ops[1..][i - 1];
      }
    }
  }

  /** Whole runs: the two pruned, expiring sorted sets are indistinguishable from the lease table. */
  lemma {:induction false} RunRefines(c: Config, s: State, owner: Owners, ops: seq<Op>)
    requires Sound(c, s, owner) && Legal(owner, ops)
    ensures Sound(c, After(c, s, ops), MintedBy(owner, ops))
    ensures Table(After(c, s, ops), MintedBy(owner, ops)) == TableAfterRun(c, Table(s, owner), s.now, ops)
    ensures Agree(ops, Replies(c, s, ops), TableReplies(c, Table(s, owner), s.now, ops))
    decreases |ops|
  {
    hide Sound, Step, Table, TableStep, LegalOp;
    if ops != [] {
      var (s', x) := Step(c, s, ops[0]);
      var (l', y) := TableStep(c, Table(s, owner), s.now, ops[0]);
      StepRefines(c, s, owner, ops[0]);
      RepliesRefine(c, s, owner, ops[0]);
      RunRefines(c, s', Minted(owner, ops[0]), ops[1..]);
      ClockStep(c, s, ops[0]);
      AgreeCons(ops, Replies(c, s', ops[1..]), TableReplies(c, l', s'.now, ops[1..]), x, y);
    }
  }

  lemma ClockStep(c: Config, s: State, op: Op)
    ensures Step(c, s, op).0.now == if op.Pass? then s.now + op.ms else s.now
  {
  }

  // ---------------------------------------------------------------- limits and conservation

  /** At every instant of every run: per-user and global concurrency limits hold. */
  lemma LimitsHold(c: Config, now: int, ops: seq<Op>, u: User)
    requires c.ttl > 0 && Legal(map[], ops)
    ensures |Live(After(c, State(map[], MISSING, now), ops), UserKey(u))| <= c.perUser
    ensures |Live(After(c, State(map[], MISSING, now), ops), GlobalKey)| <= c.global
  {
    var s := State(map[], MISSING, now);
    assert forall k :: Get(s, k) == MISSING;
    RunKeepsSound(c, s, map[], ops);
  }

  function SumLive(s: State, users: seq<User>): nat {
    if users == [] then 0 else |Live(s, UserKey(users[0]))| + SumLive(s, users[1..])
  }

  ghost function TokensOf(s: State, owner: Owners, users: seq<User>): set<Token> {
    set t | t in Live(s, GlobalKey) && t in owner && owner[t] in users
  }

  lemma {:induction false} SumCounts(s: State, owner: Owners, users: seq<User>)
    requires Matched(s, owner) && Distinct(users)
    ensures SumLive(s, users) == |TokensOf(s, owner, users)|
  {
    if users == [] {
      assert TokensOf(s, owner, users) == {};
    } else {
      SumCounts(s, owner, users[1..]);
      TokensSplit(s, owner, users);
    }
  }

  lemma TokensSplit(s: State, owner: Owners, users: seq<User>)
    requires Matched(s, owner) && Distinct(users) && users != []
    ensures |TokensOf(s, owner, users)| == |Live(s, UserKey(users[0]))| + |TokensOf(s, owner, users[1..])|
  {
    hide Live;
    var mine, rest := Live(s, UserKey(users[0])).Keys, TokensOf(s, owner, users[1..]);
    assert |mine| == |Live(s, UserKey(users[0]))|;
    forall t
      ensures t in TokensOf(s, owner, users) <==> t in mine || t in rest
    {
      MineOrRest(s, owner, users, t);
    }
    assert TokensOf(s, owner, users) == mine + rest;
    assert users[0] !in users[1..];
    forall t | t in mine
      ensures t !in rest
    {
      assert owner[t] == users[0];
    }
  }

  lemma MineOrRest(s: State, owner: Owners, users: seq<User>, t: Token)
    requires Matched(s, owner) && users != []
    ensures t in TokensOf(s, owner, users) <==> t in Live(s, UserKey(users[0])) || t in TokensOf(s, owner, users[1..])
  {
    assert forall u :: u in users <==> u == users[0] || u in users[1..];
    if t in Live(s, GlobalKey) {
      assert t in Live(s, UserKey(owner[t]));
    }
  }

  /** Each user's set is pruned on its own, yet the live permits of all users add up to the global count. */
  lemma LivePermitsConserved(c: Config, s: State, owner: Owners, users: seq<User>)
    requires Sound(c, s, owner) && Distinct(users)
    requires forall t | t in owner :: owner[t] in users
    ensures SumLive(s, users) == |Live(s, GlobalKey)|
  {
    hide Live, KeySound;
    SumCounts(s, owner, users);
    assert TokensOf(s, owner, users) == Live(s, GlobalKey).Keys;
  }

  // ---------------------------------------------------------------- dead permits stay dead

  lemma DeadStep(c: Config, s: State, owner: Owners, op: Op, t: Token)
    requires Sound(c, s, owner) && LegalOp(owner, op)
    requires t in owner && t !in Live(s, GlobalKey)
    ensures t !in Live(Step(c, s, op).0, GlobalKey)
    ensures op.Renew? && op.token == t ==> !Step(c, s, op).1
  {
    StepRefines(c, s, owner, op);
    RepliesRefine(c, s, owner, op);
    assert t !in Table(s, owner);
    assert t !in Table(Step(c, s, op).0, Minted(owner, op));
  }

  /** Once released or lapsed, a permit never comes back, and every later RENEW of it fails. */
  lemma {:induction false} DeadStaysDead(c: Config, s: State, owner: Owners, ops: seq<Op>, t: Token)
    requires Sound(c, s, owner) && Legal(owner, ops)
    requires t in owner && t !in Live(s, GlobalKey)
    ensures t !in Live(After(c, s, ops), GlobalKey)
    ensures forall i | 0 <= i < |ops| && ops[i].Renew? && ops[i].token == t :: !Replies(c, s, ops)[i]
    decreases |ops|
  {
    if ops != [] {
      DeadStep(c, s, owner, ops[0], t);
      StepKeepsSound(c, s, owner, ops[0]);
      DeadStaysDead(c, Step(c, s, ops[0]).0, Minted(owner, ops[0]), ops[1..], t);
    }
  }

  // ---------------------------------------------------------------- live permits stay live

  /** Time to the next renewal of t never reaches the remaining lease, and nobody releases t. */
  predicate KeptUp(c: Config, ops: seq<Op>, t: Token, left: int)
    decreases |ops|
  {
    left > 0 && (ops == [] ||
    match ops[0]
    case Pass(ms) => KeptUp(c, ops[1..], t, left - ms)
    case Renew(_, token) => KeptUp(c, ops[1..], t, if token == t then c.ttl else left)
    case Release(_, token) => token != t && KeptUp(c, ops[1..], t, left)
    case Acquire(_, _) => KeptUp(c, ops[1..], t, left))
  }

  /** A permit renewed before each lapse is never lost, whatever the other tokens and the key deadlines do. */
  lemma {:induction false} HeartbeatKeepsPermit(c: Config, s: State, owner: Owners, ops: seq<Op>, t: Token)
    requires Sound(c, s, owner) && Legal(owner, ops)
    requires t in Live(s, GlobalKey) && KeptUp(c, ops, t, Live(s, GlobalKey)[t] - s.now)
    requires forall i | 0 <= i < |ops| && ops[i].Renew? && ops[i].token == t :: ops[i].user == owner[t]
    ensures t in Live(After(c, s, ops), GlobalKey)
    ensures forall i | 0 <= i < |ops| && ops[i].Renew? && ops[i].token == t :: Replies(c, s, ops)[i]
    decreases |ops|
  {
    hide Sound, Step, Live, LegalOp;
    if ops != [] {
      var s' := Step(c, s, ops[0]).0;
      var owner' := Minted(owner, ops[0]);
      BeatStep(c, s, owner, ops, t);
      forall i | 0 <= i < |ops[1..]| && ops[1..][i].Renew? && ops[1..][i].token == t
        ensures ops[1..][i].user == owner'[t]
      {
        assert ops[1..][i] == ops[i + 1];
      }
      HeartbeatKeepsPermit(c, s', owner', ops[1..], t);
    }
  }

  /** When the lease of a live permit ends after one step; None when it is no longer live. */
  function EndAfter(c: Config, op: Op, t: Token, now: int, end: int): Option<int> {
    match op
    case Pass(ms) => if now + ms < end then Some(end) else None
    case Renew(_, token) => Some(if token == t then now + c.ttl else end)
    case Release(_, token) => if token == t then None else Some(end)
    case Acquire(_, _) => Some(end)
  }

  lemma EndStep(c: Config, s: State, owner: Owners, op: Op, t: Token)
    requires Sound(c, s, owner) && LegalOp(owner, op) && t in Live(s, GlobalKey)
    requires op.Renew? && op.token == t ==> op.user == owner[t]
    ensures t in Minted(owner, op) && Minted(owner, op)[t] == owner[t]
    ensures op.Renew? && op.token == t ==> Step(c, s, op).1
    ensures var g' := Live(Step(c, s, op).0, GlobalKey);
            match EndAfter(c, op, t, s.now, Live(s, GlobalKey)[t])
            case None => t !in g'
            case Some(end) => t in g' && g'[t] == end
  {
    LiveStep(c, s, op, GlobalKey);
    EndFrom(c, s, owner, op, t);
    if op.Renew? && op.token == t {
      RenewOwn(c, s, owner, op);
    }
  }

  lemma RenewOwn(c: Config, s: State, owner: Owners, op: Op)
    requires Matched(s, owner) && op.Renew? && op.token in Live(s, GlobalKey) && op.user == owner[op.token]
    ensures Step(c, s, op).1
  {
    RenewNeedsLive(s, owner, op.user, op.token);
  }

  lemma EndFrom(c: Config, s: State, owner: Owners, op: Op, t: Token)
    requires t in owner && LegalOp(owner, op) && t in Live(s, GlobalKey) && Advanced(c, s, op, GlobalKey)
    ensures t in Minted(owner, op) && Minted(owner, op)[t] == owner[t]
    ensures var g' := Live(Step(c, s, op).0, GlobalKey);
            !(op.Renew? && op.token == t && !Step(c, s, op).1) ==>
            match EndAfter(c, op, t, s.now, Live(s, GlobalKey)[t])
            case None => t !in g'
            case Some(end) => t in g' && g'[t] == end
  {
    hide Step, Live;
  }

  lemma BeatStep(c: Config, s: State, owner: Owners, ops: seq<Op>, t: Token)
    requires Sound(c, s, owner) && ops != [] && LegalOp(owner, ops[0])
    requires t in Live(s, GlobalKey) && KeptUp(c, ops, t, Live(s, GlobalKey)[t] - s.now)
    requires ops[0].Renew? && ops[0].token == t ==> ops[0].user == owner[t]
    ensures var s' := Step(c, s, ops[0]).0;
            && Sound(c, s', Minted(owner, ops[0]))
            && t in Minted(owner, ops[0]) && Minted(owner, ops[0])[t] == owner[t]
            && t in Live(s', GlobalKey)
            && KeptUp(c, ops[1..], t, Live(s', GlobalKey)[t] - s'.now)
    ensures ops[0].Renew? && ops[0].token == t ==> Step(c, s, ops[0]).1
  {
    hide Sound, Step, Live;
    StepKeepsSound(c, s, owner, ops[0]);
    ClockStep(c, s, ops[0]);
    EndStep(c, s, owner, ops[0], t);
    LiveEnds(s, t);
    KeptUpIsEnd(c, ops, t, s.now, Live(s, GlobalKey)[t]);
  }

  lemma KeptUpIsEnd(c: Config, ops: seq<Op>, t: Token, now: int, end: int)
    requires ops != [] && end > now
    ensures var e := EndAfter(c, ops[0], t, now, end);
            KeptUp(c, ops, t, end - now)
            <==> e.Some? && KeptUp(c, ops[1..], t, e.value - (if ops[0].Pass? then now + ops[0].ms else now))
  {
    if ops[0].Pass? {
      assert end - (now + ops[0].ms) == end - now - ops[0].ms;
    }
  }

  lemma LiveEnds(s: State, t: Token)
    requires t in Live(s, GlobalKey)
    ensures Live(s, GlobalKey)[t] > s.now
  {
  }

  /**
   And only then: over every run in which t is renewed by its owner alone, it is in force at the end exactly when no
   gap between renewals reached the lease that was left and nobody released it.
   */
  lemma {:induction false} PermitLivesExactly(c: Config, s: State, owner: Owners, ops: seq<Op>, t: Token)
    requires Sound(c, s, owner) && Legal(owner, ops) && t in Live(s, GlobalKey)
    requires forall i | 0 <= i < |ops| && ops[i].Renew? && ops[i].token == t :: ops[i].user == owner[t]
    ensures t in Live(After(c, s, ops), GlobalKey) <==> KeptUp(c, ops, t, Live(s, GlobalKey)[t] - s.now)
    decreases |ops|
  {
    hide Sound, Step, Live, LegalOp, KeptUp, EndAfter;
    LiveEnds(s, t);
    if ops == [] {
      KeptUpEmpty(c, t, Live(s, GlobalKey)[t] - s.now);
    } else {
      var s', owner' := Step(c, s, ops[0]).0, Minted(owner, ops[0]);
      assert Legal(owner', ops[1..]);
      StepKeepsSound(c, s, owner, ops[0]);
      ClockStep(c, s, ops[0]);
      EndStep(c, s, owner, ops[0], t);
      KeptUpIsEnd(c, ops, t, s.now, Live(s, GlobalKey)[t]);
      if t in Live(s', GlobalKey) {
        forall i | 0 <= i < |ops[1..]| && ops[1..][i].Renew? && ops[1..][i].token == t
          ensures ops[1..][i].user == owner'[t]
        {
          assert ops[1..][i] == ops[i + 1];
        }
        PermitLivesExactly(c, s', owner', ops[1..], t);
      } else {
        DeadStaysDead(c, s', owner', ops[1..], t);
      }
    }
  }

  lemma KeptUpEmpty(c: Config, t: Token, left: int)
    ensures KeptUp(c, [], t, left) <==> left > 0
  {
  }

  /** The heartbeat interval of the permit holder, in milliseconds. */
  function RenewalEveryMs(ttl: nat): nat {
    Max(10, ttl / 3)
  }

  /** n beats on schedule: wait one interval, renew. */
  function Beats(user: User, t: Token, every: nat, n: nat): seq<Op> {
    if n == 0 then [] else [Pass(every), Renew(user, t)] + Beats(user, t, every, n - 1)
  }

  lemma {:induction false} BeatsKeepUp(c: Config, user: User, t: Token, n: nat)
    requires c.ttl > 0
    ensures KeptUp(c, Beats(user, t, RenewalEveryMs(c.ttl), n), t, c.ttl) <==> n == 0 || c.ttl > 10
  {
    if n > 0 {
      var every := RenewalEveryMs(c.ttl);
      var rest := Beats(user, t, every, n - 1);
      BeatsKeepUp(c, user, t, n - 1);
      var ops := [Pass(every), Renew(user, t)] + rest;
      assert ops[1..] == [Renew(user, t)] + rest && ops[1..][1..] == rest;
      assert KeptUp(c, ops[1..], t, c.ttl - every) <==> c.ttl - every > 0 && KeptUp(c, rest, t, c.ttl);
      assert every < c.ttl <==> c.ttl > 10;
    }
  }

  lemma {:induction false} BeatsLegal(owner: Owners, user: User, t: Token, every: nat, n: nat)
    ensures Legal(owner, Beats(user, t, every, n))
    ensures forall i | 0 <= i < |Beats(user, t, every, n)| && Beats(user, t, every, n)[i].Renew? ::
              Beats(user, t, every, n)[i].user == user
  {
    if n > 0 {
      var rest := Beats(user, t, every, n - 1);
      BeatsLegal(owner, user, t, every, n - 1);
      var ops := [Pass(every), Renew(user, t)] + rest;
      assert ops[1..] == [Renew(user, t)] + rest && ops[1..][1..] == rest;
      assert Legal(owner, ops[1..]);
    }
  }

  /**
   A fresh permit that is renewed on schedule is in force after any number of beats exactly when the lease is longer
   than the ten-millisecond floor of the renewal interval; otherwise the first beat already comes too late.
   */
  lemma HeartbeatOnTime(c: Config, s: State, owner: Owners, user: User, t: Token, n: nat)
    requires Sound(c, s, owner) && t in Live(s, GlobalKey) && t in owner && owner[t] == user
    requires Live(s, GlobalKey)[t] == s.now + c.ttl
    ensures t in Live(After(c, s, Beats(user, t, RenewalEveryMs(c.ttl), n)), GlobalKey) <==> n == 0 || c.ttl > 10
  {
    hide KeptUp, Beats, Live, Owned, Matched, Within;
    BeatsLegal(owner, user, t, RenewalEveryMs(c.ttl), n);
    BeatsKeepUp(c, user, t, n);
    PermitLivesExactly(c, s, owner, Beats(user, t, RenewalEveryMs(c.ttl), n), t);
  }

  /** A fresh permit whose first m beats fail is saved by the next exactly when that one comes before the lease ends. */
  lemma MissedBeats(c: Config, s: State, owner: Owners, user: User, t: Token, m: nat)
    requires Sound(c, s, owner) && t in Live(s, GlobalKey) && t in owner && owner[t] == user
    requires Live(s, GlobalKey)[t] == s.now + c.ttl
    ensures t in Live(After(c, s, [Pass((m + 1) * RenewalEveryMs(c.ttl)), Renew(user, t)]), GlobalKey)
            <==> (m + 1) * RenewalEveryMs(c.ttl) < c.ttl
  {
    hide Live, Owned, Matched, Within;
    var wait := (m + 1) * RenewalEveryMs(c.ttl);
    var ops := [Pass(wait), Renew(user, t)];
    assert ops[1..] == [Renew(user, t)] && ops[1..][1..] == [];
    assert Legal(owner, ops[1..]);
    assert KeptUp(c, ops[1..], t, c.ttl - wait) <==> c.ttl - wait > 0 && KeptUp(c, [], t, c.ttl);
    PermitLivesExactly(c, s, owner, ops, t);
  }

  /** One missed beat is survived by leases over 20 ms, two by leases over 30 ms that three does not divide. */
  lemma BeatsToSpare(ttl: nat)
    ensures 2 * RenewalEveryMs(ttl) < ttl <==> ttl > 20
    ensures 3 * RenewalEveryMs(ttl) < ttl <==> ttl > 30 && ttl % 3 != 0
  {
  }

  // ---------------------------------------------------------------- key expiry is invisible, except to RELEASE

  /**
   s runs with key expiry, p without.  While a key of s exists, both stores hold the same members; once
   it is gone, p may still hold members, all of them lapsed.
   */
  ghost predicate Shadow(s: State, p: State) {
    s.now == p.now && forall k :: ShadowKey(s, p, k)
  }

  ghost predicate ShadowKey(s: State, p: State, k: KeyName) {
    Live(s, k) == Live(p, k) && (KeyExists(s, k) ==> Members(s, k) == Members(p, k))
  }

  predicate KeyExists(s: State, k: KeyName) {
    |Members(s, k)| != 0
  }

  function WithoutKeyTtl(c: Config): Config {
    c.(keyTtl := false)
  }

  lemma MembersPass(s: State, ms: nat, k: KeyName)
    ensures var s' := s.(now := s.now + ms);
            |Members(s', k)| != 0 ==> Members(s', k) == Members(s, k)
    ensures Get(s, k).expiry.None? ==> Members(s.(now := s.now + ms), k) == Members(s, k)
  {
  }

  lemma MembersTouched(c: Config, s: State, op: Op, k: KeyName)
    requires KeysSound(c, s) && Touches(op, k)
    ensures var (s', ok) := Step(c, s, op);
            Members(s', k) == match op
                              case Acquire(_, t) => if ok then Live(s, k)[t := s.now + c.ttl] else Live(s, k)
                              case Renew(_, t) => if ok then Members(s, k)[t := s.now + c.ttl] else Members(s, k)
                              case Release(_, t) => Members(s, k) - {t}
  {
    Touched(c, s, op, k);
    SeenSound(c, s, k);
    SubmapSize(Members(s, k) - {op.token}, Members(s, k));
  }

  /** Replies that cannot tell the two stores apart. */
  lemma ShadowReply(c: Config, s: State, p: State, owner: Owners, op: Op)
    requires c.keyTtl && Sound(c, s, owner) && Sound(WithoutKeyTtl(c), p, owner) && Shadow(s, p)
    requires LegalOp(owner, op) && !op.Release?
    ensures Step(c, s, op).1 == Step(WithoutKeyTtl(c), p, op).1
  {
    if !op.Pass? {
      assert ShadowKey(s, p, UserKey(op.user)) && ShadowKey(s, p, GlobalKey);
      if op.Renew? {
        RenewNeedsLive(s, owner, op.user, op.token);
        RenewNeedsLive(p, owner, op.user, op.token);
      }
    }
  }

  lemma ShadowStepKey(c: Config, s: State, p: State, op: Op, k: KeyName)
    requires c.keyTtl && KeysSound(c, s) && KeysSound(WithoutKeyTtl(c), p) && s.now == p.now && ShadowKey(s, p, k)
    requires !op.Release? ==> Step(c, s, op).1 == Step(WithoutKeyTtl(c), p, op).1
    ensures ShadowKey(Step(c, s, op).0, Step(WithoutKeyTtl(c), p, op).0, k)
  {
    hide Step, Live, KeySound;
    var d := WithoutKeyTtl(c);
    LiveStep(c, s, op, k);
    LiveStep(d, p, op, k);
    ShadowMembers(c, s, p, op, k);
  }

  lemma ShadowMembers(c: Config, s: State, p: State, op: Op, k: KeyName)
    requires c.keyTtl && KeysSound(c, s) && KeysSound(WithoutKeyTtl(c), p) && s.now == p.now && ShadowKey(s, p, k)
    requires !op.Release? ==> Step(c, s, op).1 == Step(WithoutKeyTtl(c), p, op).1
    ensures KeyExists(Step(c, s, op).0, k)
            ==> Members(Step(c, s, op).0, k) == Members(Step(WithoutKeyTtl(c), p, op).0, k)
  {
    hide Step, Live, KeySound;
    var d := WithoutKeyTtl(c);
    if op.Pass? {
      ShadowPass(c, s, p, op, k);
    } else if Touches(op, k) {
      MembersTouched(c, s, op, k);
      MembersTouched(d, p, op, k);
      if op.Renew? && Step(c, s, op).1 {
        RenewedKeyExists(c, s, op, k);
      } else if op.Release? && !KeyExists(s, k) {
        assert Members(s, k) - {op.token} == map[];
      }
    } else {
      GetUntouched(c, s, op, k);
      GetUntouched(d, p, op, k);
    }
  }

  lemma ShadowPass(c: Config, s: State, p: State, op: Op, k: KeyName)
    requires op.Pass? && KeySound(WithoutKeyTtl(c), Get(p, k), p.now) && s.now == p.now && ShadowKey(s, p, k)
    ensures KeyExists(Step(c, s, op).0, k)
            ==> Members(Step(c, s, op).0, k) == Members(Step(WithoutKeyTtl(c), p, op).0, k)
  {
    MembersPass(s, op.ms, k);
    MembersPass(p, op.ms, k);
  }

  lemma RenewedKeyExists(c: Config, s: State, op: Op, k: KeyName)
    requires op.Renew? && Step(c, s, op).1 && Touches(op, k)
    ensures KeyExists(s, k)
  {
    assert op.token in Members(s, k);
  }

  lemma GetUntouched(c: Config, s: State, op: Op, k: KeyName)
    requires !op.Pass? && !Touches(op, k)
    ensures Members(Step(c, s, op).0, k) == Members(s, k)
  {
    hide Step, Get;
    Untouched(c, s, op, k);
  }

  lemma ShadowStep(c: Config, s: State, p: State, owner: Owners, op: Op)
    requires c.keyTtl && Sound(c, s, owner) && Sound(WithoutKeyTtl(c), p, owner) && Shadow(s, p) && LegalOp(owner, op)
    ensures Shadow(Step(c, s, op).0, Step(WithoutKeyTtl(c), p, op).0)
  {
    if !op.Release? {
      ShadowReply(c, s, p, owner, op);
    }
    ClockStep(c, s, op);
    ClockStep(WithoutKeyTtl(c), p, op);
    forall k
      ensures ShadowKey(Step(c, s, op).0, Step(WithoutKeyTtl(c), p, op).0, k)
    {
      assert ShadowKey(s, p, k);
      ShadowStepKey(c, s, p, op, k);
    }
  }

  /**
   Over whole runs the PEXPIRE deadlines are invisible: the same permits are in force after every prefix,
   and every ACQUIRE and RENEW gets the same reply as from a store whose keys never expire.
   */
  lemma {:induction false} KeyExpiryInvisible(c: Config, s: State, p: State, owner: Owners, ops: seq<Op>)
    requires c.keyTtl && Sound(c, s, owner) && Sound(WithoutKeyTtl(c), p, owner) && Shadow(s, p) && Legal(owner, ops)
    ensures Shadow(After(c, s, ops), After(WithoutKeyTtl(c), p, ops))
    ensures forall i | 0 <= i < |ops| && !ops[i].Release? ::
            Replies(c, s, ops)[i] == Replies(WithoutKeyTtl(c), p, ops)[i]
    decreases |ops|
  {
    hide Sound, Shadow, Step, LegalOp;
    if ops != [] {
      var d := WithoutKeyTtl(c);
      var s', p' := Step(c, s, ops[0]).0, Step(d, p, ops[0]).0;
      StepKeepsSound(c, s, owner, ops[0]);
      StepKeepsSound(d, p, owner, ops[0]);
      ShadowStep(c, s, p, owner, ops[0]);
      if !ops[0].Release? {
        ShadowReply(c, s, p, owner, ops[0]);
      }
      KeyExpiryInvisible(c, s', p', Minted(owner, ops[0]), ops[1..]);
      var r, q := Replies(c, s', ops[1..]), Replies(d, p', ops[1..]);
      forall i | 0 <= i < |ops| && !ops[i].Release?
        ensures ([Step(c, s, ops[0]).1] + r)[i] == ([Step(d, p, ops[0]).1] + q)[i]
      {
        if i > 0 {
          assert ops[i] == ops[1..][i - 1];
        }
      }
    }
  }
}
