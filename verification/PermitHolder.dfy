/**
 The permit holder (server/mcp/mcpCapacity.js:141-225): a heartbeat that renews the lease, and a
 release that must not race with it.  Scripts take effect between the moment a command is sent and
 the moment its reply is handled, so every step of one holder interleaves with every step of others.
 */
module PermitHolder {
  import opened Prelude
  import opened PermitStore
  import opened PermitSafety
  import PermitTheorems

  datatype Reply = Pending | Renewed | Lost

  // sent: a renewal is under way (activeRenewal); reply: its script has run, with this reply.
  // strays: renewals given up on that Redis may still receive.
  // gone: the RELEASE script has run; end: when the last granted lease ends.
  datatype Holder = Holder(user: User, released: bool, sent: bool, reply: Reply, strays: nat, gone: bool, end: int)

  // asked: requests past the health check whose ACQUIRE has not run.
  // lapsed and ioFailed record why renewals failed; healthy is capacityHealthy.
  datatype System = System(store: State, owner: Owners, asked: map<Token, User>, holders: map<Token, Holder>,
                           healthy: bool, lapsed: bool, ioFailed: bool)

  datatype Event =
    | Ask(user: User, token: Token)
    | AcquireRuns(token: Token, heard: bool)      // heard: the reply reaches the process
    | Beat(token: Token)
    | RenewRuns(token: Token)
    | RenewSettles(token: Token, heard: bool)
    | StrayRuns(token: Token)                     // a RENEW its sender gave up on reaches Redis after all
    | Close(token: Token)
    | ReleaseRuns(token: Token)
    | Probe(ok: bool)
    | Elapse(ms: nat)

  // An event that is not enabled leaves the system alone, as the guards in the closures do.
  predicate Enabled(y: System, e: Event) {
    match e
    case Ask(_, t) => y.healthy && t !in y.owner && t !in y.asked
    case AcquireRuns(t, _) => t in y.asked
    case Beat(t) => t in y.holders && !y.holders[t].released && !y.holders[t].sent
    case RenewRuns(t) => t in y.holders && y.holders[t].sent && y.holders[t].reply.Pending?
    case RenewSettles(t, _) => t in y.holders && y.holders[t].sent
    case Close(t) => t in y.holders && !y.holders[t].released
    case ReleaseRuns(t) => t in y.holders && y.holders[t].released && !y.holders[t].sent && !y.holders[t].gone
    case StrayRuns(t) => t in y.holders && y.holders[t].strays > 0
    case Probe(_) => true
    case Elapse(_) => true
  }

  /** The script an event executes on the server, if any. */
  function Script(y: System, e: Event): Option<Op> {
    if !Enabled(y, e) then None else
    match e
    case AcquireRuns(t, _) => Some(Acquire(y.asked[t], t))
    case RenewRuns(t) => Some(Renew(y.holders[t].user, t))
    case StrayRuns(t) => Some(Renew(y.holders[t].user, t))
    case ReleaseRuns(t) => Some(Release(y.holders[t].user, t))
    case Elapse(ms) => Some(Pass(ms))
    case _ => None
  }

  function Fire(c: Config, y: System, e: Event): System {
    var op := Script(y, e);
    var (store, ok) := if op.Some? then Step(c, y.store, op.value) else (y.store, true);
    var z := y.(store := store, owner := if op.Some? then Minted(y.owner, op.value) else y.owner);
    if !Enabled(y, e) then y else
    match e
    case Ask(user, t) => z.(asked := y.asked[t := user])
    case AcquireRuns(t, heard) =>
      var h := Holder(y.asked[t], false, false, Pending, 0, false, y.store.now + c.ttl);
      z.(asked := y.asked - {t}, holders := if ok && heard then y.holders[t := h] else y.holders)
    case Beat(t) => z.(holders := y.holders[t := y.holders[t].(sent := true, reply := Pending)])
    case RenewRuns(t) =>
      var h := y.holders[t];
      var (reply, end) := if ok then (Renewed, y.store.now + c.ttl) else (Lost, h.end);
      z.(holders := y.holders[t := h.(reply := reply, end := end)],
         lapsed := y.lapsed || h.end <= y.store.now)
    case RenewSettles(t, heard) =>
      var h := y.holders[t];
      z.(holders := y.holders[t := h.(sent := false, strays := h.strays + if h.reply.Pending? then 1 else 0)],
         healthy := y.healthy && heard && h.reply.Renewed?,
         ioFailed := y.ioFailed || !heard || h.reply.Pending?)
    case StrayRuns(t) =>
      var h := y.holders[t];
      z.(holders := y.holders[t := h.(strays := h.strays - 1, end := if ok then y.store.now + c.ttl else h.end)])
    case Probe(healthy) => z.(healthy := healthy, ioFailed := y.ioFailed || !healthy)
    case Close(t) => z.(holders := y.holders[t := y.holders[t].(released := true)])
    case ReleaseRuns(t) => z.(holders := y.holders[t := y.holders[t].(gone := true)])
    case Elapse(_) => z
  }

  function Run(c: Config, y: System, es: seq<Event>): System
    decreases |es|
  {
    if es == [] then y else Run(c, Fire(c, y, es[0]), es[1..])
  }

  function Start(now: int): System {
    System(State(map[], MISSING, now), map[], map[], map[], true, false, false)
  }

  // While its RELEASE has not run, a holder's lease is in force exactly until the end it recorded.
  ghost predicate HolderOk(y: System, t: Token)
    requires t in y.holders
  {
    var h, g := y.holders[t], Live(y.store, GlobalKey);
    && t in y.owner && y.owner[t] == h.user
    && (h.gone ==> h.released && !h.sent && t !in g)
    && (!h.gone ==> if y.store.now < h.end then t in g && g[t] == h.end else t !in g)
    && (h.sent && h.reply.Lost? ==> y.lapsed)
  }

  ghost predicate Inv(c: Config, y: System) {
    && Sound(c, y.store, y.owner)
    && (forall t | t in y.holders :: HolderOk(y, t))
    && (forall t | t in y.asked :: t !in y.owner)
    && (!y.healthy ==> y.lapsed || y.ioFailed)
  }

  lemma ScriptLegal(c: Config, y: System, e: Event)
    requires Inv(c, y) && Script(y, e).Some?
    ensures LegalOp(y.owner, Script(y, e).value)
  {
    if e.ReleaseRuns? {
      assert HolderOk(y, e.token);
    }
  }

  /**
   Whenever it runs, RENEW is refused exactly when the lease had run out or the permit was given back; a renewal that is
   waited for is never in the second case.
   */
  lemma RenewReplyMeansLapse(c: Config, y: System, t: Token)
    requires Inv(c, y) && t in y.holders
    ensures Step(c, y.store, Renew(y.holders[t].user, t)).1 <==> !y.holders[t].gone && y.store.now < y.holders[t].end
    ensures Enabled(y, RenewRuns(t)) ==> !y.holders[t].gone
  {
    assert HolderOk(y, t);
    PermitTheorems.RenewNeedsLive(y.store, y.owner, y.holders[t].user, t);
    if t in Live(y.store, GlobalKey) {
      PermitTheorems.RenewOwn(c, y.store, y.owner, Renew(y.holders[t].user, t));
    }
  }

  lemma HolderFrame(c: Config, y: System, e: Event, t: Token)
    requires Inv(c, y) && t in y.holders && Script(y, e).Some?
    requires var op := Script(y, e).value; op.Pass? || op.token != t
    ensures t in Fire(c, y, e).holders && HolderOk(Fire(c, y, e), t)
  {
    hide Sound, Step, Live;
    ScriptLegal(c, y, e);
    var op, h := Script(y, e).value, y.holders[t];
    assert HolderOk(y, t);
    if t in Live(y.store, GlobalKey) {
      PermitTheorems.EndStep(c, y.store, y.owner, op, t);
    } else {
      PermitTheorems.DeadStep(c, y.store, y.owner, op, t);
    }
    PermitTheorems.ClockStep(c, y.store, op);
  }

  lemma HolderOwn(c: Config, y: System, e: Event)
    requires Inv(c, y) && Enabled(y, e) && (e.AcquireRuns? || e.RenewRuns? || e.StrayRuns? || e.ReleaseRuns?)
    ensures e.token in Fire(c, y, e).holders ==> HolderOk(Fire(c, y, e), e.token)
  {
    hide Sound, Step, Live;
    ScriptLegal(c, y, e);
    var op, t := Script(y, e).value, e.token;
    PermitTheorems.ClockStep(c, y.store, op);
    if t in y.holders {
      assert HolderOk(y, t);
    }
    OwnLease(c, y, op);
    match e
    case AcquireRuns(_, _) =>
    case RenewRuns(_) => RenewReplyMeansLapse(c, y, t);
    case StrayRuns(_) => RenewReplyMeansLapse(c, y, t);
    case ReleaseRuns(_) =>
  }

  lemma OwnLease(c: Config, y: System, op: Op)
    requires Sound(c, y.store, y.owner) && LegalOp(y.owner, op) && !op.Pass?
    ensures var (s', ok) := Step(c, y.store, op);
            var g, g' := Live(y.store, GlobalKey), Live(s', GlobalKey);
            && ((op.Acquire? || op.Renew?) && ok ==> op.token in g' && g'[op.token] == y.store.now + c.ttl)
            && ((op.Acquire? || op.Renew?) && !ok ==> (op.token in g' <==> op.token in g))
            && (op.Release? ==> op.token !in g')
            && c.ttl > 0
  {
    LiveStep(c, y.store, op, GlobalKey);
  }

  lemma FireStore(c: Config, y: System, e: Event)
    requires Inv(c, y)
    ensures Sound(c, Fire(c, y, e).store, Fire(c, y, e).owner)
  {
    hide Sound, Step;
    if Script(y, e).Some? {
      ScriptLegal(c, y, e);
      StepKeepsSound(c, y.store, y.owner, Script(y, e).value);
    }
  }

  lemma HolderNow(c: Config, y: System, t: Token)
    requires Inv(c, y)
    ensures t in y.holders ==> HolderOk(y, t)
  {
  }

  lemma FireHolder(c: Config, y: System, e: Event, t: Token)
    requires Inv(c, y) && t in Fire(c, y, e).holders
    ensures HolderOk(Fire(c, y, e), t)
  {
    hide Sound, Step, Live, Inv;
    HolderNow(c, y, t);
    var op := Script(y, e);
    if op.Some? && !op.value.Pass? && op.value.token == t {
      HolderOwn(c, y, e);
    } else if op.Some? {
      HolderFrame(c, y, e, t);
    }
  }

  lemma FireKeepsInv(c: Config, y: System, e: Event)
    requires Inv(c, y)
    ensures Inv(c, Fire(c, y, e))
  {
    hide Sound, Step, Live;
    FireStore(c, y, e);
    forall t | t in Fire(c, y, e).holders
      ensures HolderOk(Fire(c, y, e), t)
    {
      FireHolder(c, y, e, t);
    }
    HealthStep(c, y, e);
    AskedStep(c, y, e);
  }

  lemma AskedStep(c: Config, y: System, e: Event)
    requires Inv(c, y)
    ensures forall t | t in Fire(c, y, e).asked :: t !in Fire(c, y, e).owner
    ensures Fire(c, y, e).owner.Keys + Fire(c, y, e).asked.Keys
            <= y.owner.Keys + y.asked.Keys + if e.Ask? && y.healthy then {e.token} else {}
  {
    hide Sound, Step, Live, HolderOk;
  }

  lemma HealthStep(c: Config, y: System, e: Event)
    requires Inv(c, y)
    ensures var z := Fire(c, y, e); !z.healthy ==> z.lapsed || z.ioFailed
  {
    hide Sound, Step, Live;
    if e.RenewSettles? && Enabled(y, e) {
      assert HolderOk(y, e.token);
    }
  }

  /** Every interleaving of any number of holders keeps the invariant. */
  lemma {:induction false} RunKeepsInv(c: Config, y: System, es: seq<Event>)
    requires Inv(c, y)
    ensures Inv(c, Run(c, y, es))
    decreases |es|
  {
    if es != [] {
      FireKeepsInv(c, y, es[0]);
      RunKeepsInv(c, Fire(c, y, es[0]), es[1..]);
    }
  }

  lemma StartInv(c: Config, now: int)
    requires c.ttl > 0
    ensures Inv(c, Start(now))
  {
    var s := Start(now).store;
    assert forall k :: Get(s, k) == MISSING;
    assert Live(s, GlobalKey) == map[];
  }

  /**
   Capacity is declared unhealthy only after a lease really ran out or Redis failed; closing permits never does it.
   */
  lemma UnhealthyHasCause(c: Config, now: int, es: seq<Event>)
    requires c.ttl > 0
    ensures var y := Run(c, Start(now), es); !y.healthy ==> y.lapsed || y.ioFailed
  {
    StartInv(c, now);
    RunKeepsInv(c, Start(now), es);
  }

  /**
   Once capacity is unhealthy and until a probe succeeds, only requests that were already past the health check can
   still be granted a permit: no run adds a token that had not asked before.
   */
  lemma {:induction false} UnhealthyAdmitsNothing(c: Config, y: System, es: seq<Event>)
    requires Inv(c, y) && !y.healthy && Probe(true) !in es
    ensures !Run(c, y, es).healthy
    ensures Run(c, y, es).owner.Keys <= y.owner.Keys + y.asked.Keys
    decreases |es|
  {
    hide Inv, Step;
    if es != [] {
      FireKeepsInv(c, y, es[0]);
      AskedStep(c, y, es[0]);
      StaysUnhealthy(c, y, es[0]);
      UnhealthyAdmitsNothing(c, Fire(c, y, es[0]), es[1..]);
    }
  }

  lemma StaysUnhealthy(c: Config, y: System, e: Event)
    requires !y.healthy && e != Probe(true)
    ensures !Fire(c, y, e).healthy
  {
    hide Step;
  }

  /** Once its RELEASE has run, a permit is never in force again, no renewal is sent, and a stray one is refused. */
  lemma {:induction false} ReleaseIsFinal(c: Config, y: System, es: seq<Event>, t: Token)
    requires Inv(c, y) && t in y.holders && y.holders[t].gone
    ensures var z := Run(c, y, es);
            && t in z.holders && z.holders[t].gone
            && !Enabled(z, RenewRuns(t))
            && !Step(c, z.store, Renew(z.holders[t].user, t)).1
            && t !in Live(z.store, GlobalKey)
    decreases |es|
  {
    hide Sound, Step, Live;
    assert HolderOk(y, t);
    RenewReplyMeansLapse(c, y, t);
    if es != [] {
      FireKeepsInv(c, y, es[0]);
      GoneStep(c, y, es[0], t);
      ReleaseIsFinal(c, Fire(c, y, es[0]), es[1..], t);
    }
  }

  lemma GoneStep(c: Config, y: System, e: Event, t: Token)
    requires Inv(c, y) && t in y.holders && y.holders[t].gone
    ensures t in Fire(c, y, e).holders && Fire(c, y, e).holders[t].gone
  {
    hide Sound, Step, Live;
    assert HolderOk(y, t);
  }

  // ---------------------------------------------------------------- when capacity is healthy

  // When a renewal under way ran, measured against the end of the lease it was to extend.
  datatype Outcome = InTime | TooLate

  // What an observer of the events and of the clock remembers.
  datatype Watch = Watch(ran: map<Token, Outcome>, down: bool)

  /** A settlement brings capacity down unless its reply is heard and its script ran before the lease had ended. */
  function Observed(y: System, w: Watch, e: Event): Watch {
    if !Enabled(y, e) then w else
    match e
    case Beat(t) => w.(ran := w.ran - {t})
    case RenewRuns(t) => w.(ran := w.ran[t := if y.store.now < y.holders[t].end then InTime else TooLate])
    case RenewSettles(t, heard) => w.(down := w.down || !heard || t !in w.ran || w.ran[t].TooLate?)
    case Probe(ok) => w.(down := !ok)
    case _ => w
  }

  function ObservedAll(c: Config, y: System, w: Watch, es: seq<Event>): Watch
    decreases |es|
  {
    if es == [] then w else ObservedAll(c, Fire(c, y, es[0]), Observed(y, w, es[0]), es[1..])
  }

  ghost predicate Witnessed(y: System, w: Watch) {
    && (y.healthy <==> !w.down)
    && forall t | t in y.holders && y.holders[t].sent ::
         match y.holders[t].reply
         case Pending => t !in w.ran
         case Renewed => t in w.ran && w.ran[t].InTime?
         case Lost => t in w.ran && w.ran[t].TooLate?
  }

  lemma WitnessedStep(c: Config, y: System, w: Watch, e: Event)
    requires Inv(c, y) && Witnessed(y, w)
    ensures Witnessed(Fire(c, y, e), Observed(y, w, e))
  {
    hide Step, Sound, Live;
    if e.RenewRuns? && Enabled(y, e) {
      RenewReplyMeansLapse(c, y, e.token);
    }
    hide HolderOk;
  }

  lemma {:induction false} WitnessedRun(c: Config, y: System, w: Watch, es: seq<Event>)
    requires Inv(c, y) && Witnessed(y, w)
    ensures Witnessed(Run(c, y, es), ObservedAll(c, y, w, es))
    decreases |es|
  {
    hide Inv, Witnessed, Fire, Observed;
    if es != [] {
      FireKeepsInv(c, y, es[0]);
      WitnessedStep(c, y, w, es[0]);
      WitnessedRun(c, Fire(c, y, es[0]), Observed(y, w, es[0]), es[1..]);
    }
  }

  /**
   Over every run, capacity is healthy exactly when, since the last probe that succeeded, no probe failed and every
   renewal that settled was heard and had run before its lease ended.
   */
  lemma HealthExactly(c: Config, now: int, es: seq<Event>)
    requires c.ttl > 0
    ensures Run(c, Start(now), es).healthy <==> !ObservedAll(c, Start(now), Watch(map[], false), es).down
  {
    StartInv(c, now);
    WitnessedRun(c, Start(now), Watch(map[], false), es);
  }

  // The permit a process comes to hold: one the lease table has room for and whose reply arrives.
  ghost function HeardGrant(c: Config, y: System, e: Event): set<Token> {
    if !e.AcquireRuns? || e.token !in y.asked || !e.heard then {}
    else
      var l := Table(y.store, y.owner);
      if |HeldBy(l, y.asked[e.token])| < c.perUser && |l| < c.global then {e.token} else {}
  }

  ghost function HeardGrants(c: Config, y: System, es: seq<Event>): set<Token>
    decreases |es|
  {
    if es == [] then {} else HeardGrant(c, y, es[0]) + HeardGrants(c, Fire(c, y, es[0]), es[1..])
  }

  lemma NewHolder(c: Config, y: System, e: Event)
    ensures Fire(c, y, e).holders.Keys
            == y.holders.Keys + if e.AcquireRuns? && e.token in y.asked && e.heard
                                   && Step(c, y.store, Acquire(y.asked[e.token], e.token)).1
                                then {e.token} else {}
  {
    hide Step;
  }

  lemma HoldersStep(c: Config, y: System, e: Event)
    requires Inv(c, y)
    ensures Fire(c, y, e).holders.Keys == y.holders.Keys + HeardGrant(c, y, e)
  {
    NewHolder(c, y, e);
    if e.AcquireRuns? && e.token in y.asked {
      PermitTheorems.RepliesRefine(c, y.store, y.owner, Acquire(y.asked[e.token], e.token));
    }
    hide Step, Fire, HolderOk, Table, HeldBy;
  }

  /** Over every run the holders are exactly the permits granted whose grant was heard; nothing else makes one. */
  lemma {:induction false} HoldersAreGrants(c: Config, y: System, es: seq<Event>)
    requires Inv(c, y)
    ensures Run(c, y, es).holders.Keys == y.holders.Keys + HeardGrants(c, y, es)
    decreases |es|
  {
    hide Inv, Fire, HeardGrant;
    if es != [] {
      FireKeepsInv(c, y, es[0]);
      HoldersStep(c, y, es[0]);
      HoldersAreGrants(c, Fire(c, y, es[0]), es[1..]);
    }
  }

  /** A second renewal is never sent while one is under way: until it settles, the heartbeat does nothing. */
  lemma {:induction false} OneRenewalAtATime(c: Config, y: System, es: seq<Event>, t: Token)
    requires t in y.holders && y.holders[t].sent && t !in y.asked && t in y.owner
    requires forall e | e in es :: !(e.RenewSettles? && e.token == t)
    ensures var z := Run(c, y, es); t in z.holders && z.holders[t].sent && Fire(c, z, Beat(t)) == z
    decreases |es|
  {
    hide Step;
    if es != [] {
      assert es == [es[0]] + es[1..];
      SentStep(c, y, es[0], t);
      OneRenewalAtATime(c, Fire(c, y, es[0]), es[1..], t);
    }
  }

  lemma SentStep(c: Config, y: System, e: Event, t: Token)
    requires t in y.holders && y.holders[t].sent && t !in y.asked && t in y.owner
    requires !(e.RenewSettles? && e.token == t)
    ensures var z := Fire(c, y, e); t in z.holders && z.holders[t].sent && t !in z.asked && t in z.owner
  {
    hide Step;
  }

  // ---------------------------------------------------------------- what always goes through

  lemma RunOne(c: Config, y: System, e: Event)
    ensures Run(c, y, [e]) == Fire(c, y, e)
  {
    hide Fire;
    assert [e][1..] == [];
  }

  lemma RunTwo(c: Config, y: System, e: Event, f: Event)
    ensures Run(c, y, [e, f]) == Fire(c, Fire(c, y, e), f)
  {
    hide Fire;
    assert [e, f][1..] == [f];
    RunOne(c, Fire(c, y, e), f);
  }

  lemma RunThree(c: Config, y: System, e: Event, f: Event, g: Event)
    ensures Run(c, y, [e, f, g]) == Fire(c, Fire(c, Fire(c, y, e), f), g)
  {
    hide Fire;
    assert [e, f, g][1..] == [f, g];
    RunTwo(c, Fire(c, y, e), f, g);
  }

  // A permit its process is using: its lease is in force and no renewal is under way.
  ghost predicate InUse(y: System, t: Token) {
    t in y.holders && !y.holders[t].released && !y.holders[t].sent && y.store.now < y.holders[t].end
  }

  // The lease is in force, it ends at this time, and the holder knows.
  ghost predicate LeasedUntil(y: System, t: Token, end: int) {
    && t in y.holders && y.holders[t].end == end
    && t in Live(y.store, GlobalKey) && Live(y.store, GlobalKey)[t] == end
  }

  lemma LeaseKnown(c: Config, y: System, t: Token)
    requires Inv(c, y) && t in y.holders && !y.holders[t].gone && y.store.now < y.holders[t].end
    ensures LeasedUntil(y, t, y.holders[t].end)
  {
    hide Sound, Live;
    assert HolderOk(y, t);
  }

  lemma NotGone(c: Config, y: System, t: Token)
    requires Inv(c, y) && t in y.holders && !y.holders[t].released
    ensures !y.holders[t].gone
  {
    hide Sound, Live;
    assert HolderOk(y, t);
  }

  // While the lease lasts, a RENEW that runs extends it by a full term and otherwise changes only its own record.
  lemma RenewalRuns(c: Config, y: System, e: Event, t: Token)
    requires Inv(c, y) && Enabled(y, e) && (e == RenewRuns(t) || e == StrayRuns(t)) && c.ttl > 0
    requires !y.holders[t].gone && y.store.now < y.holders[t].end
    ensures var z, h := Fire(c, y, e), y.holders[t];
            && LeasedUntil(z, t, y.store.now + c.ttl)
            && z.store.now == y.store.now && z.healthy == y.healthy
            && z.holders[t] == if e.RenewRuns? then h.(reply := Renewed, end := y.store.now + c.ttl)
                               else h.(strays := h.strays - 1, end := y.store.now + c.ttl)
  {
    hide Inv, Step, Live;
    FireKeepsInv(c, y, e);
    RenewReplyMeansLapse(c, y, t);
    PermitTheorems.ClockStep(c, y.store, Script(y, e).value);
    RenewalRecord(c, y, e, t);
    hide Fire;
    LeaseKnown(c, Fire(c, y, e), t);
  }

  lemma RenewalRecord(c: Config, y: System, e: Event, t: Token)
    requires Enabled(y, e) && (e == RenewRuns(t) || e == StrayRuns(t))
    requires Step(c, y.store, Renew(y.holders[t].user, t)).1
    ensures var z, h := Fire(c, y, e), y.holders[t];
            && z.store == Step(c, y.store, Renew(h.user, t)).0 && z.healthy == y.healthy && t in z.holders
            && z.holders[t] == if e.RenewRuns? then h.(reply := Renewed, end := y.store.now + c.ttl)
                               else h.(strays := h.strays - 1, end := y.store.now + c.ttl)
  {
    hide Step;
  }

  lemma OwnRecord(c: Config, y: System, e: Event, t: Token)
    requires Enabled(y, e) && (e == Beat(t) || e == Close(t) || (e.RenewSettles? && e.token == t))
    ensures var z, h := Fire(c, y, e), y.holders[t];
            && z.store == y.store && t in z.holders
            && z.healthy == (y.healthy && (e.RenewSettles? ==> e.heard && h.reply.Renewed?))
            && z.holders[t] == if e.Beat? then h.(sent := true, reply := Pending)
                               else if e.Close? then h.(released := true)
                               else h.(sent := false, strays := h.strays + if h.reply.Pending? then 1 else 0)
  {
    hide Step;
  }

  /** Left alone for a while, a permit not given back is in force exactly if its recorded end is still ahead. */
  lemma LeftAlone(c: Config, y: System, t: Token, ms: nat)
    requires Inv(c, y) && t in y.holders && !y.holders[t].gone
    ensures var z := Run(c, y, [Elapse(ms)]);
            t in Live(z.store, GlobalKey) <==> y.store.now + ms < y.holders[t].end
  {
    hide Inv, Live, Fire;
    RunOne(c, y, Elapse(ms));
    FireKeepsInv(c, y, Elapse(ms));
    ElapseRecord(c, y, ms);
    LiveUntilEnd(c, Fire(c, y, Elapse(ms)), t);
  }

  lemma ElapseRecord(c: Config, y: System, ms: nat)
    ensures var z := Fire(c, y, Elapse(ms)); z.holders == y.holders && z.store.now == y.store.now + ms
  {
    PermitTheorems.ClockStep(c, y.store, Pass(ms));
    hide Step;
  }

  lemma LiveUntilEnd(c: Config, y: System, t: Token)
    requires Inv(c, y) && t in y.holders && !y.holders[t].gone
    ensures t in Live(y.store, GlobalKey) <==> y.store.now < y.holders[t].end
  {
    hide Sound, Live;
    assert HolderOk(y, t);
  }

  /**
   A beat extends the lease of a permit in use by a full term from when RENEW runs, whether capacity is healthy or not,
   and changes that in neither case; the permit is then in use again.
   */
  lemma BeatExtends(c: Config, y: System, t: Token)
    requires Inv(c, y) && InUse(y, t) && c.ttl > 0
    ensures var z := Run(c, y, [Beat(t), RenewRuns(t), RenewSettles(t, true)]);
            && InUse(z, t) && LeasedUntil(z, t, y.store.now + c.ttl)
            && z.healthy == y.healthy && z.holders[t].strays == y.holders[t].strays
  {
    hide Inv, Live, Fire;
    RunThree(c, y, Beat(t), RenewRuns(t), RenewSettles(t, true));
    NotGone(c, y, t);
    FireKeepsInv(c, y, Beat(t));
    OwnRecord(c, y, Beat(t), t);
    var sent := Fire(c, y, Beat(t));
    RenewalRuns(c, sent, RenewRuns(t), t);
    OwnRecord(c, Fire(c, sent, RenewRuns(t)), RenewSettles(t, true), t);
  }

  /** A renewal given up on brings capacity down, yet one that Redis receives later still extends the lease. */
  lemma StrayExtends(c: Config, y: System, t: Token, heard: bool)
    requires Inv(c, y) && InUse(y, t) && c.ttl > 0
    ensures var z := Run(c, y, [Beat(t), RenewSettles(t, heard), StrayRuns(t)]);
            && InUse(z, t) && LeasedUntil(z, t, y.store.now + c.ttl)
            && !z.healthy && z.holders[t].strays == y.holders[t].strays
  {
    hide Inv, Live, Fire;
    RunThree(c, y, Beat(t), RenewSettles(t, heard), StrayRuns(t));
    NotGone(c, y, t);
    FireKeepsInv(c, y, Beat(t));
    OwnRecord(c, y, Beat(t), t);
    var sent := Fire(c, y, Beat(t));
    FireKeepsInv(c, sent, RenewSettles(t, heard));
    OwnRecord(c, sent, RenewSettles(t, heard), t);
    RenewalRuns(c, Fire(c, sent, RenewSettles(t, heard)), StrayRuns(t), t);
  }

  lemma ReleaseRecord(c: Config, y: System, t: Token)
    requires Inv(c, y) && t in y.holders && y.holders[t].released && !y.holders[t].sent
    ensures var z := Run(c, y, [ReleaseRuns(t)]); t in z.holders && z.holders[t].gone && t !in Live(z.store, GlobalKey)
  {
    hide Inv, Live;
    RunOne(c, y, ReleaseRuns(t));
    GoneRecord(c, y, t);
    hide Fire;
    FireKeepsInv(c, y, ReleaseRuns(t));
    GoneIsDead(c, Fire(c, y, ReleaseRuns(t)), t);
  }

  lemma GoneRecord(c: Config, y: System, t: Token)
    requires t in y.holders && y.holders[t].released && !y.holders[t].sent
    ensures var z := Fire(c, y, ReleaseRuns(t)); t in z.holders && z.holders[t].gone
  {
    hide Step;
  }

  lemma GoneIsDead(c: Config, y: System, t: Token)
    requires Inv(c, y) && t in y.holders && y.holders[t].gone
    ensures t !in Live(y.store, GlobalKey)
  {
    hide Sound, Live;
    assert HolderOk(y, t);
  }

  /**
   Closing gives a permit back whatever its lease has come to: at once when no renewal is under way, and otherwise as
   soon as that one settles, heard or not.
   */
  lemma CloseGivesBack(c: Config, y: System, t: Token, heard: bool)
    requires Inv(c, y) && t in y.holders && !y.holders[t].released
    ensures var settled := if y.holders[t].sent then [RenewSettles(t, heard)] else [];
            var z := Run(c, y, [Close(t)] + settled + [ReleaseRuns(t)]);
            t in z.holders && z.holders[t].gone && t !in Live(z.store, GlobalKey)
  {
    hide Inv, Live, Fire, Run;
    var closed := Fire(c, y, Close(t));
    FireKeepsInv(c, y, Close(t));
    OwnRecord(c, y, Close(t), t);
    if y.holders[t].sent {
      var settled := Fire(c, closed, RenewSettles(t, heard));
      FireKeepsInv(c, closed, RenewSettles(t, heard));
      OwnRecord(c, closed, RenewSettles(t, heard), t);
        ReleaseRecord(c, settled, t);
      RunOne(c, settled, ReleaseRuns(t));
      RunThree(c, y, Close(t), RenewSettles(t, heard), ReleaseRuns(t));
      assert [Close(t)] + [RenewSettles(t, heard)] + [ReleaseRuns(t)]
             == [Close(t), RenewSettles(t, heard), ReleaseRuns(t)];
    } else {
        ReleaseRecord(c, closed, t);
      RunOne(c, closed, ReleaseRuns(t));
      RunTwo(c, y, Close(t), ReleaseRuns(t));
      assert [Close(t)] + [] + [ReleaseRuns(t)] == [Close(t), ReleaseRuns(t)];
    }
  }

  /** While capacity is healthy a fresh request is granted exactly when there is room, and its permit is in use. */
  lemma RequestServed(c: Config, y: System, user: User, t: Token)
    requires Inv(c, y) && y.healthy && t !in y.owner && t !in y.asked && c.ttl > 0
    ensures var z, l := Run(c, y, [Ask(user, t), AcquireRuns(t, true)]), Table(y.store, y.owner);
            t in z.holders <==> |HeldBy(l, user)| < c.perUser && |l| < c.global
    ensures var z := Run(c, y, [Ask(user, t), AcquireRuns(t, true)]);
            t in z.holders ==> InUse(z, t) && z.holders[t].user == user && LeasedUntil(z, t, y.store.now + c.ttl)
  {
    hide Inv, Live, Table, HeldBy, Fire, Run;
    RunTwo(c, y, Ask(user, t), AcquireRuns(t, true));
    var asked := Fire(c, y, Ask(user, t));
    FireKeepsInv(c, y, Ask(user, t));
    AskRecord(c, y, user, t);
    NotHeldYet(c, y, t);
    GrantInUse(c, asked, t);
  }

  lemma GrantInUse(c: Config, y: System, t: Token)
    requires Inv(c, y) && t in y.asked && t !in y.holders && c.ttl > 0
    ensures var z, l := Fire(c, y, AcquireRuns(t, true)), Table(y.store, y.owner);
            && (t in z.holders <==> |HeldBy(l, y.asked[t])| < c.perUser && |l| < c.global)
            && (t in z.holders ==>
                  InUse(z, t) && z.holders[t].user == y.asked[t] && LeasedUntil(z, t, y.store.now + c.ttl))
  {
    var e := AcquireRuns(t, true);
    hide Inv, Live, Table, HeldBy, Fire, Step;
    FireKeepsInv(c, y, e);
    HoldersStep(c, y, e);
    PermitTheorems.ClockStep(c, y.store, Acquire(y.asked[t], t));
    GrantRecord(c, y, t);
    if t in Fire(c, y, e).holders {
      LeaseKnown(c, Fire(c, y, e), t);
    }
  }

  lemma AskRecord(c: Config, y: System, user: User, t: Token)
    requires y.healthy && t !in y.owner && t !in y.asked
    ensures var z := Fire(c, y, Ask(user, t));
            z.store == y.store && z.owner == y.owner && z.holders == y.holders && z.asked == y.asked[t := user]
  {
  }

  lemma NotHeldYet(c: Config, y: System, t: Token)
    requires Inv(c, y) && t !in y.owner
    ensures t !in y.holders
  {
    hide Sound, Live;
    assert t in y.holders ==> HolderOk(y, t);
  }

  lemma GrantRecord(c: Config, y: System, t: Token)
    requires t in y.asked && t !in y.holders
    ensures var z := Fire(c, y, AcquireRuns(t, true));
            && z.store == Step(c, y.store, Acquire(y.asked[t], t)).0
            && (t in z.holders ==>
                  z.holders[t] == Holder(y.asked[t], false, false, Pending, 0, false, y.store.now + c.ttl))
  {
    hide Step;
  }

  // ---------------------------------------------------------------- the closures

  /**
   One process: its health flag, the requests under way, and per permit the variables that renew and release share.
   */
  class Controller {
    const redis: Redis
    var asked: map<Token, User>
    var holders: map<Token, Holder>
    var healthy: bool
    ghost var owner: Owners
    ghost var lapsed: bool
    ghost var ioFailed: bool

    constructor (redis: Redis)
      requires redis.users == map[] && redis.global == MISSING
      ensures this.redis == redis && View() == Start(redis.clock)
    {
      this.redis := redis;
      asked, holders, healthy, owner, lapsed, ioFailed := map[], map[], true, map[], false, false;
    }

    ghost function View(): System
      reads this, redis
    {
      System(redis.View(), owner, asked, holders, healthy, lapsed, ioFailed)
    }

    /** The flag is read when a request starts, before anything is awaited. */
    method AskPermit(user: User, token: Token) returns (asking: bool)
      requires token !in owner && token !in asked
      modifies this
      ensures asking <==> old(healthy)
      ensures View() == Fire(redis.cfg, old(View()), Ask(user, token))
    {
      hide Step;
      if !healthy {
        return false;
      }
      asked := asked[token := user];
      return true;
    }

    /** ACQUIRE runs, whatever the flag says by then; without its reply the process never uses the permit. */
    method RunAcquire(t: Token, heard: bool) returns (granted: bool)
      requires t in asked
      modifies this, redis
      ensures View() == Fire(redis.cfg, old(View()), AcquireRuns(t, heard))
      ensures granted ==> heard && t in holders
    {
      hide AcquireStep, RenewStep, ReleaseStep;
      var user, now := asked[t], redis.clock;
      var ok := redis.AcquireScript(user, t);
      owner := owner[t := user];
      asked := asked - {t};
      granted := ok && heard;
      if granted {
        holders := holders[t := Holder(user, false, false, Pending, 0, false, now + redis.cfg.ttl)];
      }
    }

    /** The heartbeat; it does nothing once the permit is released or while a renewal is under way. */
    method StartRenewal(t: Token)
      requires t in holders
      modifies this
      ensures View() == Fire(redis.cfg, old(View()), Beat(t))
    {
      hide Step;
      if holders[t].released || holders[t].sent {
        return;
      }
      holders := holders[t := holders[t].(sent := true, reply := Pending)];
    }

    method RunRenewal(t: Token)
      requires Enabled(View(), RenewRuns(t))
      modifies this, redis
      ensures View() == Fire(redis.cfg, old(View()), RenewRuns(t))
    {
      hide AcquireStep, RenewStep, ReleaseStep;
      var h, now := holders[t], redis.clock;
      var ok := redis.RenewScript(h.user, t);
      lapsed := lapsed || h.end <= now;
      if ok {
        holders := holders[t := h.(reply := Renewed, end := now + redis.cfg.ttl)];
      } else {
        holders := holders[t := h.(reply := Lost)];
      }
    }

    /** Any answer but 1, and any failure to hear one, turns capacity unhealthy, also when the script had run. */
    method SettleRenewal(t: Token, heard: bool)
      requires Enabled(View(), RenewSettles(t, heard))
      modifies this
      ensures View() == Fire(redis.cfg, old(View()), RenewSettles(t, heard))
    {
      hide Step;
      var h := holders[t];
      if !heard || !h.reply.Renewed? {
        healthy := false;
      }
      ioFailed := ioFailed || !heard || h.reply.Pending?;
      holders := holders[t := h.(sent := false, strays := h.strays + if h.reply.Pending? then 1 else 0)];
    }

    /** A renewal given up on runs after all; nobody hears its reply. */
    method RunStray(t: Token)
      requires Enabled(View(), StrayRuns(t))
      modifies this, redis
      ensures View() == Fire(redis.cfg, old(View()), StrayRuns(t))
    {
      hide AcquireStep, RenewStep, ReleaseStep;
      var h, now := holders[t], redis.clock;
      var ok := redis.RenewScript(h.user, t);
      holders := holders[t := h.(strays := h.strays - 1, end := if ok then now + redis.cfg.ttl else h.end)];
    }

    /** The readiness probe, which works on keys of its own, sets the flag either way. */
    method SettleProbe(ok: bool)
      modifies this
      ensures View() == Fire(redis.cfg, old(View()), Probe(ok))
    {
      hide Step;
      healthy := ok;
      ioFailed := ioFailed || !ok;
    }

    /** The first call of release wins; it stops the heartbeat before it waits for a renewal under way. */
    method BeginRelease(t: Token) returns (first: bool)
      requires t in holders
      modifies this
      ensures first <==> !old(holders)[t].released
      ensures View() == Fire(redis.cfg, old(View()), Close(t))
    {
      hide Step;
      if holders[t].released {
        return false;
      }
      holders := holders[t := holders[t].(released := true)];
      return true;
    }

    method RunRelease(t: Token) returns (removed: bool)
      requires Enabled(View(), ReleaseRuns(t))
      modifies this, redis
      ensures View() == Fire(redis.cfg, old(View()), ReleaseRuns(t))
    {
      hide AcquireStep, RenewStep, ReleaseStep;
      removed := redis.ReleaseScript(holders[t].user, t);
      holders := holders[t := holders[t].(gone := true)];
    }
  }
}
