/**
 The lifecycle of the MCP runtime (server/mcp/mcpRuntime.js:9-134): admission, accounting of active work,
 abort races and a drain with two deadlines.  Each step is what runs between two awaits.
 */
module McpRuntime {
  type Id = nat

  datatype Phase = Starting | Ready | Draining | Stopped

  datatype Work = Work(tool: bool, aborted: bool)

  // Waiting: the first race is open.  Won and Lost: idleness, or the grace deadline, settled it.
  // Forcing: work was aborted and the second race is open.  Leaving: the second race is settled.
  datatype Stage = Waiting | Won | Lost | Forcing | Leaving | Finished(drained: bool, remaining: nat)

  datatype Waiter = Waiter(drain: Id, second: bool)

  datatype State = State(phase: Phase, active: map<Id, Work>, waiters: seq<Waiter>, drains: map<Id, Stage>)

  datatype Event =
    | MarkReady
    | Admit(id: Id, tool: bool)
    | Settle(id: Id)                // a request is released, or a tool's real work settles
    | Abort(id: Id)                 // timeout, client cancellation or an explicit abort
    | CallDrain(drain: Id)
    | GraceEnds(drain: Id)
    | ForceEnds(drain: Id)
    | Continue(drain: Id)

  const INITIAL := State(Starting, map[], [], map[])

  function Woken(stage: Stage, w: Waiter): Stage {
    if stage.Waiting? && !w.second then Won else if stage.Forcing? && w.second then Leaving else stage
  }

  /** Resolve waiters in order; resolving one whose race is already settled has no effect. */
  function Resolve(drains: map<Id, Stage>, waiters: seq<Waiter>): (r: map<Id, Stage>)
    ensures r.Keys == drains.Keys
  {
    if waiters == [] then drains
    else
      var w := waiters[0];
      Resolve(if w.drain in drains then drains[w.drain := Woken(drains[w.drain], w)] else drains, waiters[1..])
  }

  function Notified(s: State): State {
    if s.active.Keys != {} then s else s.(waiters := [], drains := Resolve(s.drains, s.waiters))
  }

  /** Enter a race against idleness: settled at once when nothing is active. */
  function Awaited(s: State, d: Id, second: bool): State {
    if s.active.Keys == {} then s.(drains := s.drains[d := if second then Leaving else Won])
    else s.(waiters := s.waiters + [Waiter(d, second)], drains := s.drains[d := if second then Forcing else Waiting])
  }

  function AbortAll(active: map<Id, Work>): map<Id, Work> {
    map id | id in active :: active[id].(aborted := true)
  }

  function Finish(s: State, d: Id): State {
    s.(phase := Stopped, drains := s.drains[d := Finished(s.active.Keys == {}, |s.active|)])
  }

  // Ids of work and of drains are fresh; an event that does not apply changes nothing.
  predicate Applies(s: State, e: Event) {
    match e
    case MarkReady => s.phase == Starting
    case Admit(id, _) => s.phase == Ready && id !in s.active
    case Settle(id) => id in s.active
    case Abort(id) => id in s.active
    case CallDrain(d) => d !in s.drains
    case GraceEnds(d) => d in s.drains && s.drains[d].Waiting?
    case ForceEnds(d) => d in s.drains && s.drains[d].Forcing?
    case Continue(d) => d in s.drains && s.drains[d] in {Won, Lost, Leaving}
  }

  function Step(s: State, e: Event): State {
    if !Applies(s, e) then s else
    match e
    case MarkReady => s.(phase := Ready)
    case Admit(id, tool) => s.(active := s.active[id := Work(tool, false)])
    case Settle(id) => Notified(s.(active := s.active - {id}))
    case Abort(id) => s.(active := s.active[id := s.active[id].(aborted := true)])
    case CallDrain(d) => if s.phase == Stopped then Finish(s, d) else Awaited(s.(phase := Draining), d, false)
    case GraceEnds(d) => s.(drains := s.drains[d := Lost])
    case ForceEnds(d) => s.(drains := s.drains[d := Leaving])
    case Continue(d) => if s.drains[d].Lost? then Awaited(s.(active := AbortAll(s.active)), d, true) else Finish(s, d)
  }

  function After(s: State, es: seq<Event>): State
    decreases |es|
  {
    if es == [] then s else After(Step(s, es[0]), es[1..])
  }

  /** The runtime object; its closures share and mutate these variables. */
  class Runtime {
    var phase: Phase
    var active: map<Id, Work>
    var idleWaiters: seq<Waiter>
    var drains: map<Id, Stage>

    constructor ()
      ensures View() == INITIAL
    {
      phase, active, idleWaiters, drains := Starting, map[], [], map[];
    }

    function View(): State
      reads this
    {
      State(phase, active, idleWaiters, drains)
    }

    method MarkReady()
      modifies this
      ensures View() == Step(old(View()), Event.MarkReady)
    {
      if phase == Starting {
        phase := Ready;
      }
    }

    method NotifyIdle()
      modifies this
      ensures View() == Notified(old(View()))
    {
      if |active| != 0 {
        return;
      }
      assert active.Keys == {};
      ghost var before := View();
      var waiters, k := idleWaiters, 0;
      idleWaiters := [];
      while k < |waiters|
        invariant k <= |waiters| && phase == before.phase && active == before.active && idleWaiters == []
        invariant Resolve(before.drains, waiters) == Resolve(drains, waiters[k..])
      {
        var w := waiters[k];
        assert waiters[k..][1..] == waiters[k + 1..];
        if w.drain in drains {
          drains := drains[w.drain := Woken(drains[w.drain], w)];
        }
        k := k + 1;
      }
    }

    method WaitForIdle(d: Id, second: bool)
      modifies this
      ensures View() == Awaited(old(View()), d, second)
    {
      if |active| == 0 {
        assert active.Keys == {};
        drains := drains[d := if second then Leaving else Won];
        return;
      }
      assert active.Keys != {};
      idleWaiters := idleWaiters + [Waiter(d, second)];
      drains := drains[d := if second then Forcing else Waiting];
    }

    /** acquireRequest and startTool: refused unless the phase is READY. */
    method Start(id: Id, tool: bool) returns (accepted: bool)
      requires id !in active
      modifies this
      ensures accepted == (old(phase) == Ready)
      ensures View() == Step(old(View()), Admit(id, tool))
    {
      if phase != Ready {
        return false;
      }
      active := active[id := Work(tool, false)];
      return true;
    }

    /** The release closure of a request, or the finally of a tool's real work; a second call changes nothing. */
    method Complete(id: Id) returns (first: bool)
      modifies this
      ensures first == (id in old(active))
      ensures View() == Step(old(View()), Settle(id))
    {
      if id !in active {
        return false;
      }
      active := active - {id};
      NotifyIdle();
      return true;
    }

    method CallDrain(d: Id)
      requires d !in drains
      modifies this
      ensures View() == Step(old(View()), Event.CallDrain(d))
    {
      if phase == Stopped {
        drains := drains[d := Finished(active.Keys == {}, |active|)];
        return;
      }
      phase := Draining;
      WaitForIdle(d, false);
    }

    /** What drain does after its first race, and after its second. */
    method Resume(d: Id)
      requires Applies(View(), Continue(d))
      modifies this
      ensures View() == Step(old(View()), Continue(d))
    {
      if drains[d].Lost? {
        active := AbortAll(active);
        WaitForIdle(d, true);
        return;
      }
      phase := Stopped;
      drains := drains[d := Finished(active.Keys == {}, |active|)];
    }
  }

  // ---------------------------------------------------------------- the invariant

  ghost predicate Inv(s: State) {
    && (s.active.Keys == {} ==> s.waiters == [])
    && (forall d | d in s.drains && s.drains[d].Waiting? :: Waiter(d, false) in s.waiters)
    && (forall d | d in s.drains && s.drains[d].Forcing? :: Waiter(d, true) in s.waiters)
    && (s.phase in {Starting, Ready} ==> s.drains.Keys == {})
    && (forall d | d in s.drains && (s.drains[d].Won? || (s.drains[d].Finished? && s.drains[d].drained)) ::
         s.active.Keys == {})
    && (forall d | d in s.drains && s.drains[d].Finished? :: s.phase == Stopped)
  }

  lemma {:induction false} ResolveAt(drains: map<Id, Stage>, waiters: seq<Waiter>, d: Id)
    requires d in drains
    ensures var r := Resolve(drains, waiters);
            && (r[d] == drains[d] || (drains[d].Waiting? && r[d].Won?) || (drains[d].Forcing? && r[d].Leaving?))
            && (drains[d].Waiting? && Waiter(d, false) in waiters ==> r[d].Won?)
            && (drains[d].Forcing? && Waiter(d, true) in waiters ==> r[d].Leaving?)
  {
    if waiters != [] {
      var w := waiters[0];
      ResolveAt(if w.drain in drains then drains[w.drain := Woken(drains[w.drain], w)] else drains, waiters[1..], d);
    }
  }

  lemma SettleKeepsInv(s: State, id: Id)
    requires Inv(s) && id in s.active
    ensures Inv(Step(s, Settle(id)))
  {
    var z := Step(s, Settle(id));
    forall d | d in z.drains
      ensures z.active.Keys == {} ==> !z.drains[d].Waiting? && !z.drains[d].Forcing?
      ensures z.active.Keys == {} || z.drains[d] == s.drains[d]
      ensures z.drains[d].Finished? ==> z.drains[d] == s.drains[d]
    {
      ResolveAt(s.drains, s.waiters, d);
    }
    assert s.active.Keys == {} ==> z.active.Keys == {};
  }

  lemma AwaitedKeepsInv(s: State, d: Id, second: bool)
    requires Inv(s) && s.phase in {Draining, Stopped} && (d in s.drains ==> s.drains[d].Lost?)
    ensures Inv(Awaited(s, d, second))
  {
  }

  lemma DrainingNow(s: State, d: Id)
    requires Inv(s) && d in s.drains
    ensures s.phase in {Draining, Stopped}
  {
    assert s.drains.Keys != {};
    assert s.phase.Starting? || s.phase.Ready? || s.phase.Draining? || s.phase.Stopped?;
  }

  lemma AbortKeepsInv(s: State)
    requires Inv(s)
    ensures Inv(s.(active := AbortAll(s.active)))
  {
    assert AbortAll(s.active).Keys == s.active.Keys;
  }

  lemma FinishKeepsInv(s: State, d: Id)
    requires Inv(s) && s.phase in {Draining, Stopped} && (d in s.drains ==> s.drains[d] in {Won, Leaving})
    ensures Inv(Finish(s, d))
  {
  }

  lemma StepKeepsInv(s: State, e: Event)
    requires Inv(s)
    ensures Inv(Step(s, e))
  {
    if Applies(s, e) {
      match e
      case Settle(id) => SettleKeepsInv(s, id);
      case CallDrain(d) =>
        if s.phase == Stopped { FinishKeepsInv(s, d); } else { AwaitedKeepsInv(s.(phase := Draining), d, false); }
      case Continue(d) =>
        DrainingNow(s, d);
        if s.drains[d].Lost? {
          AbortKeepsInv(s);
          AwaitedKeepsInv(s.(active := AbortAll(s.active)), d, true);
        } else {
          FinishKeepsInv(s, d);
        }
      case _ => OtherKeepsInv(s, e);
    }
  }

  lemma OtherKeepsInv(s: State, e: Event)
    requires Inv(s) && Applies(s, e) && (e.MarkReady? || e.Admit? || e.Abort? || e.GraceEnds? || e.ForceEnds?)
    ensures Inv(Step(s, e))
  {
  }

  lemma {:induction false} RunKeepsInv(s: State, es: seq<Event>)
    requires Inv(s)
    ensures Inv(After(s, es))
    decreases |es|
  {
    hide Inv, Step;
    if es != [] {
      StepKeepsInv(s, es[0]);
      RunKeepsInv(Step(s, es[0]), es[1..]);
    }
  }

  /** In every reachable state, nothing active means nobody is still waiting for idleness. */
  lemma IdleHasNoWaiters(es: seq<Event>)
    ensures var s := After(INITIAL, es);
            s.active.Keys == {} ==>
              && s.waiters == []
              && forall d | d in s.drains :: !s.drains[d].Waiting? && !s.drains[d].Forcing?
  {
    RunKeepsInv(INITIAL, es);
  }

  // ---------------------------------------------------------------- phases and admission

  function Rank(p: Phase): nat {
    match p
    case Starting => 0
    case Ready => 1
    case Draining => 2
    case Stopped => 3
  }

  lemma PhaseFrame(s: State, e: Event)
    ensures Rank(s.phase) <= Rank(Step(s, e).phase)
  {
    hide Resolve, AbortAll, Inv;
  }

  lemma WorkFrame(s: State, e: Event, id: Id)
    ensures id in Step(s, e).active && id !in s.active ==> s.phase == Ready && e.Admit? && e.id == id
    ensures id in s.active && id !in Step(s, e).active ==> e == Settle(id)
    ensures e == Settle(id) ==> id !in Step(s, e).active
    ensures id in s.active && id in Step(s, e).active ==> s.active[id].aborted ==> Step(s, e).active[id].aborted
  {
    hide Resolve, Rank, Inv;
  }

  lemma StepFrame(s: State, e: Event)
    ensures Rank(s.phase) <= Rank(Step(s, e).phase)
    ensures forall id | id in Step(s, e).active && id !in s.active :: s.phase == Ready && e.Admit? && e.id == id
    ensures forall id | id in s.active && id !in Step(s, e).active :: e == Settle(id)
    ensures e.Settle? ==> e.id !in Step(s, e).active
    ensures forall id | id in s.active && id in Step(s, e).active && s.active[id].aborted ::
              Step(s, e).active[id].aborted
  {
    hide Step, Rank, Inv;
    PhaseFrame(s, e);
    forall id
      ensures id in Step(s, e).active && id !in s.active ==> s.phase == Ready && e.Admit? && e.id == id
      ensures id in s.active && id !in Step(s, e).active ==> e == Settle(id)
      ensures e == Settle(id) ==> id !in Step(s, e).active
      ensures id in s.active && id in Step(s, e).active ==> s.active[id].aborted ==> Step(s, e).active[id].aborted
    {
      WorkFrame(s, e, id);
    }
    if e.Settle? {
      WorkFrame(s, e, e.id);
    }
  }

  /** The phase only moves forward, and once draining the active work only shrinks. */
  lemma {:induction false} PhaseForward(s: State, es: seq<Event>)
    requires Inv(s)
    ensures Rank(s.phase) <= Rank(After(s, es).phase)
    ensures s.phase in {Draining, Stopped} ==> After(s, es).active.Keys <= s.active.Keys
    decreases |es|
  {
    if es != [] {
      hide Inv, Step;
      StepFrame(s, es[0]);
      StepKeepsInv(s, es[0]);
      PhaseForward(Step(s, es[0]), es[1..]);
    }
  }

  /** Work admitted and not yet settled, read off the trace alone. */
  function Outstanding(open: set<Id>, s: State, es: seq<Event>): set<Id>
    decreases |es|
  {
    if es == [] then open
    else
      var e := es[0];
      var next := match e
        case Admit(id, _) => if s.phase == Ready then open + {id} else open
        case Settle(id) => open - {id}
        case _ => open;
      Outstanding(next, Step(s, e), es[1..])
  }

  /** The active map is exactly the admitted work that has not settled: aborts and timeouts free nothing. */
  lemma {:induction false} ActiveIsOutstanding(s: State, es: seq<Event>)
    requires Inv(s)
    ensures After(s, es).active.Keys == Outstanding(s.active.Keys, s, es)
    decreases |es|
  {
    if es != [] {
      var e := es[0];
      StepKeepsInv(s, e);
      StepKeys(s, e);
      ActiveIsOutstanding(Step(s, e), es[1..]);
    }
  }

  lemma StepKeys(s: State, e: Event)
    ensures Step(s, e).active.Keys == match e
            case Admit(id, _) => if s.phase == Ready then s.active.Keys + {id} else s.active.Keys
            case Settle(id) => s.active.Keys - {id}
            case _ => s.active.Keys
  {
  }

  // ---------------------------------------------------------------- drains end

  ghost predicate Settles(es: seq<Event>, id: Id) {
    Settle(id) in es
  }

  lemma {:induction false} SettledLeaves(s: State, es: seq<Event>, id: Id)
    requires Inv(s) && s.phase in {Draining, Stopped} && Settles(es, id)
    ensures id !in After(s, es).active
    decreases |es|
  {
    hide Inv, Step;
    StepFrame(s, es[0]);
    StepKeepsInv(s, es[0]);
    assert es == [es[0]] + es[1..];
    if es[0] == Settle(id) {
      PhaseForward(Step(s, es[0]), es[1..]);
    } else {
      SettledLeaves(Step(s, es[0]), es[1..], id);
    }
  }

  /** Once draining, when all outstanding work has settled no drain is left waiting, however many run at once. */
  lemma DrainsWake(s: State, es: seq<Event>)
    requires Inv(s) && s.phase in {Draining, Stopped} && forall id | id in s.active :: Settles(es, id)
    ensures var z := After(s, es);
            && z.active.Keys == {} && z.waiters == []
            && forall d | d in z.drains :: !z.drains[d].Waiting? && !z.drains[d].Forcing?
  {
    PhaseForward(s, es);
    forall id | id in After(s, es).active
      ensures false
    {
      SettledLeaves(s, es, id);
    }
    RunKeepsInv(s, es);
  }

  function Progress(stage: Stage): nat {
    match stage
    case Waiting => 0
    case Lost => 1
    case Forcing => 2
    case Won => 3
    case Leaving => 3
    case Finished(_, _) => 4
  }

  // The drain has come at least this far.
  predicate Reached(s: State, d: Id, n: nat) {
    d in s.drains && Progress(s.drains[d]) >= n
  }

  lemma ReachedStep(s: State, e: Event, d: Id, n: nat)
    requires Reached(s, d, n)
    ensures Reached(Step(s, e), d, n)
    ensures e == GraceEnds(d) ==> Reached(Step(s, e), d, 1)
    ensures e == Continue(d) && n == 1 ==> Reached(Step(s, e), d, 2)
    ensures e == ForceEnds(d) && n == 2 ==> Reached(Step(s, e), d, 3)
    ensures e == Continue(d) && n == 3 ==> Reached(Step(s, e), d, 4)
  {
    if e.Settle? && Applies(s, e) {
      ResolveAt(s.drains, s.waiters, d);
    }
  }

  lemma {:induction false} ReachedRun(s: State, es: seq<Event>, d: Id, n: nat)
    requires Reached(s, d, n)
    ensures Reached(After(s, es), d, n)
    decreases |es|
  {
    if es != [] {
      ReachedStep(s, es[0], d, n);
      ReachedRun(Step(s, es[0]), es[1..], d, n);
    }
  }

  lemma {:induction false} AfterConcat(s: State, a: seq<Event>, b: seq<Event>)
    ensures After(s, a + b) == After(After(s, a), b)
    decreases |a|
  {
    hide Step;
    if a == [] {
      assert a + b == b;
    } else {
      assert (a + b)[1..] == a[1..] + b;
      AfterConcat(Step(s, a[0]), a[1..], b);
    }
  }

  lemma ReachedNext(s: State, before: seq<Event>, e: Event, d: Id, n: nat)
    requires Reached(s, d, n)
    requires (e == GraceEnds(d) && n == 0) || (e == Continue(d) && n in {1, 3}) || (e == ForceEnds(d) && n == 2)
    ensures Reached(After(s, before + [e]), d, n + 1)
  {
    ReachedRun(s, before, d, n);
    AfterConcat(s, before, [e]);
    ReachedStep(After(s, before), e, d, n);
    assert [e][1..] == [];
    assert After(After(s, before), [e]) == Step(After(s, before), e);
  }

  /** A drain is bounded by its two timers: whatever else happens in between, it then finishes. */
  lemma DrainBounded(s: State, d: Id, a: seq<Event>, b: seq<Event>, c: seq<Event>, e: seq<Event>)
    requires Inv(s) && d in s.drains
    ensures var y := After(After(s, a + [GraceEnds(d)]), b + [Continue(d)]);
            var z := After(After(y, c + [ForceEnds(d)]), e + [Continue(d)]);
            d in z.drains && z.drains[d].Finished? && z.phase == Stopped
  {
    hide Inv, Step, After;
    var s1 := After(s, a + [GraceEnds(d)]);
    var s2 := After(s1, b + [Continue(d)]);
    var s3 := After(s2, c + [ForceEnds(d)]);
    ReachedNext(s, a, GraceEnds(d), d, 0);
    ReachedNext(s1, b, Continue(d), d, 1);
    ReachedNext(s2, c, ForceEnds(d), d, 2);
    ReachedNext(s3, e, Continue(d), d, 3);
    RunKeepsInv(s, a + [GraceEnds(d)]);
    RunKeepsInv(s1, b + [Continue(d)]);
    RunKeepsInv(s2, c + [ForceEnds(d)]);
    RunKeepsInv(s3, e + [Continue(d)]);
    FinishedStopped(After(s3, e + [Continue(d)]), d);
  }

  lemma FinishedStopped(s: State, d: Id)
    requires Inv(s) && Reached(s, d, 4)
    ensures s.drains[d].Finished? && s.phase == Stopped
  {
  }

  /** Once draining, what is still active is what was active and has not settled since. */
  lemma {:induction false} ActiveIsUnsettled(s: State, es: seq<Event>, id: Id)
    requires Inv(s) && s.phase in {Draining, Stopped}
    ensures id in After(s, es).active <==> id in s.active && !Settles(es, id)
    decreases |es|
  {
    hide Inv, Step;
    if es != [] {
      StepFrame(s, es[0]);
      StepKeepsInv(s, es[0]);
      ActiveIsUnsettled(Step(s, es[0]), es[1..], id);
      assert es == [es[0]] + es[1..];
    }
  }

  ghost function Unsettled(s: State, es: seq<Event>): set<Id> {
    set id | id in s.active && !Settles(es, id)
  }

  /**
   The verdict of a drain, over every run up to its end: it reports success exactly when everything that was active when
   it was called has settled by then, and otherwise how many pieces of work have not.
   */
  lemma DrainVerdict(s: State, d: Id, es: seq<Event>)
    requires Inv(s) && d in s.drains
    requires After(s, es).drains.Keys >= {d} && After(s, es).drains[d] in {Won, Leaving}
    ensures var verdict := Step(After(s, es), Continue(d)).drains[d];
            && verdict == Finished(Unsettled(s, es) == {}, |Unsettled(s, es)|)
            && (verdict.drained <==> forall id | id in s.active :: Settles(es, id))
  {
    hide Inv, Settles;
    var z := After(s, es);
    DrainingNow(s, d);
    forall id
      ensures id in z.active <==> id in Unsettled(s, es)
    {
      ActiveIsUnsettled(s, es, id);
    }
    assert z.active.Keys == Unsettled(s, es);
    assert |z.active| == |z.active.Keys|;
    assert Unsettled(s, es) == {} <==> forall id | id in s.active :: id !in Unsettled(s, es);
  }

  // ---------------------------------------------------------------- what is aborted

  /** The step with which a drain gives up on its grace period. */
  predicate GivesUp(s: State, e: Event) {
    e.Continue? && e.drain in s.drains && s.drains[e.drain].Lost?
  }

  /** Only an abort of this very work, or a drain that gives up, touches its flag; nothing touches its kind. */
  lemma FlagStep(s: State, e: Event, id: Id)
    requires id in s.active && id in Step(s, e).active
    ensures var w, w' := s.active[id], Step(s, e).active[id];
            && w'.tool == w.tool
            && (w'.aborted <==> w.aborted || e == Abort(id) || GivesUp(s, e))
  {
    hide Resolve, Inv;
  }

  /** Work starts unaborted and of the kind it was admitted as. */
  lemma AdmittedAs(s: State, id: Id, tool: bool)
    requires s.phase == Ready && id !in s.active
    ensures id in Step(s, Admit(id, tool)).active && Step(s, Admit(id, tool)).active[id] == Work(tool, false)
  {
  }

  ghost predicate SomeDrainGivesUp(s: State, es: seq<Event>)
    decreases |es|
  {
    es != [] && (GivesUp(s, es[0]) || SomeDrainGivesUp(Step(s, es[0]), es[1..]))
  }

  /**
   Over every run, work that has not settled keeps its kind, and it is aborted exactly when it was before, or was
   itself aborted, or some drain gave up: then all of it is, requests and tools alike.
   */
  lemma {:induction false} AbortedExactly(s: State, es: seq<Event>, id: Id)
    requires Inv(s) && id in s.active && !Settles(es, id)
    ensures id in After(s, es).active && After(s, es).active[id].tool == s.active[id].tool
    ensures After(s, es).active[id].aborted <==> s.active[id].aborted || Abort(id) in es || SomeDrainGivesUp(s, es)
    decreases |es|
  {
    hide Inv, Step, GivesUp;
    if es != [] {
      assert es == [es[0]] + es[1..];
      StepFrame(s, es[0]);
      FlagStep(s, es[0], id);
      StepKeepsInv(s, es[0]);
      AbortedExactly(Step(s, es[0]), es[1..], id);
    }
  }

  // A drain past its first race is one that gave up, so all that is still active has been aborted.
  ghost predicate GaveUpMeansAborted(s: State) {
    forall d, id | d in s.drains && s.drains[d] in {Forcing, Leaving} && id in s.active :: s.active[id].aborted
  }

  lemma GaveUpStep(s: State, e: Event)
    requires Inv(s) && GaveUpMeansAborted(s)
    ensures GaveUpMeansAborted(Step(s, e))
  {
    var z := Step(s, e);
    forall d, id | d in z.drains && z.drains[d] in {Forcing, Leaving} && id in z.active
      ensures z.active[id].aborted
    {
      GaveUpAt(s, e, d, id);
    }
  }

  lemma GaveUpAt(s: State, e: Event, d: Id, id: Id)
    requires Inv(s) && GaveUpMeansAborted(s)
    requires d in Step(s, e).drains && Step(s, e).drains[d] in {Forcing, Leaving} && id in Step(s, e).active
    ensures Step(s, e).active[id].aborted
  {
    StepFrame(s, e);
    if d in s.drains {
      DrainingNow(s, d);
    }
    if id in s.active {
      FlagStep(s, e, id);
      StageStep(s, e, d);
    }
    hide Inv, Step;
  }

  lemma StageStep(s: State, e: Event, d: Id)
    requires d in Step(s, e).drains && Step(s, e).drains[d] in {Forcing, Leaving}
    ensures (d in s.drains && s.drains[d] in {Forcing, Leaving}) || GivesUp(s, e)
  {
    hide Inv;
    if e.Settle? && d in s.drains {
      ResolveAt(s.drains, s.waiters, d);
    }
  }

  lemma {:induction false} GaveUpRun(s: State, es: seq<Event>)
    requires Inv(s) && GaveUpMeansAborted(s)
    ensures GaveUpMeansAborted(After(s, es))
    decreases |es|
  {
    hide Inv, Step, GaveUpMeansAborted;
    if es != [] {
      StepKeepsInv(s, es[0]);
      GaveUpStep(s, es[0]);
      GaveUpRun(Step(s, es[0]), es[1..]);
    }
  }

  /** In every reachable state, once a drain waits for aborted work or has stopped waiting, no work runs unaborted. */
  lemma ForcedWorkIsAborted(es: seq<Event>, d: Id, id: Id)
    requires var s := After(INITIAL, es); d in s.drains && s.drains[d] in {Forcing, Leaving} && id in s.active
    ensures After(INITIAL, es).active[id].aborted
  {
    GaveUpRun(INITIAL, es);
  }

  /** A drain of a stopped runtime answers at once with what is left. */
  lemma StoppedVerdict(s: State, d: Id)
    requires s.phase == Stopped && d !in s.drains
    ensures Step(s, CallDrain(d)).drains[d] == Finished(|s.active| == 0, |s.active|)
    ensures Step(s, CallDrain(d)).phase == Stopped && Step(s, CallDrain(d)).active == s.active
  {
    assert |s.active| == |s.active.Keys|;
  }

  /** A drain that reports success left nothing behind, and nothing is ever admitted again. */
  lemma DrainedIsFinal(s: State, d: Id, es: seq<Event>)
    requires Inv(s) && d in s.drains && s.drains[d].Finished? && s.drains[d].drained
    ensures After(s, es).active.Keys == {} && After(s, es).phase == Stopped
  {
    PhaseForward(s, es);
  }

  /** A drain whose grace period was never cut short by the deadline always reports success. */
  lemma IdleDrainSucceeds(s: State, d: Id)
    requires Inv(s) && d in s.drains && s.drains[d].Won?
    ensures Step(s, Continue(d)).drains[d] == Finished(true, 0)
  {
    assert s.active.Keys == {};
    assert |s.active| == |s.active.Keys|;
  }

  function LonelyTool(phase: Phase, id: Id, aborted: bool, waiters: seq<Waiter>, d: Id, stage: Stage): State {
    State(phase, map[id := Work(true, aborted)], waiters, map[d := stage])
  }

  lemma LonelySteps(id: Id, d: Id)
    ensures var w := [Waiter(d, false)];
            && Step(LonelyTool(Draining, id, false, w, d, Waiting), GraceEnds(d))
               == LonelyTool(Draining, id, false, w, d, Lost)
            && Step(LonelyTool(Draining, id, false, w, d, Lost), Continue(d))
               == LonelyTool(Draining, id, true, w + [Waiter(d, true)], d, Forcing)
  {
    var s := LonelyTool(Draining, id, false, [Waiter(d, false)], d, Lost);
    assert AbortAll(s.active) == map[id := Work(true, true)];
    assert id in AbortAll(s.active);
  }

  lemma LonelyEnd(id: Id, d: Id, w: seq<Waiter>)
    ensures Step(LonelyTool(Draining, id, true, w, d, Forcing), ForceEnds(d))
            == LonelyTool(Draining, id, true, w, d, Leaving)
    ensures Step(LonelyTool(Draining, id, true, w, d, Leaving), Continue(d))
            == LonelyTool(Stopped, id, true, w, d, Finished(false, 1))
  {
    var s := LonelyTool(Draining, id, true, w, d, Leaving);
    assert id in s.active && |s.active| == 1;
  }

  lemma LonelyStart(id: Id, d: Id)
    ensures After(INITIAL, [MarkReady, Admit(id, true), CallDrain(d)])
            == LonelyTool(Draining, id, false, [Waiter(d, false)], d, Waiting)
  {
    var s2 := State(Ready, map[id := Work(true, false)], [], map[]);
    assert id in s2.active;
    assert Step(Step(INITIAL, MarkReady), Admit(id, true)) == s2;
    Unroll(INITIAL, MarkReady, [Admit(id, true), CallDrain(d)]);
    Unroll(Step(INITIAL, MarkReady), Admit(id, true), [CallDrain(d)]);
    Unroll(s2, CallDrain(d), []);
  }

  /** Success is not guaranteed: work that ignores its abort is abandoned when the force timer fires. */
  lemma StoppedMayAbandonWork(id: Id, d: Id)
    ensures After(After(INITIAL, [MarkReady, Admit(id, true), CallDrain(d)]),
                  [GraceEnds(d), Continue(d), ForceEnds(d), Continue(d)])
            == LonelyTool(Stopped, id, true, [Waiter(d, false), Waiter(d, true)], d, Finished(false, 1))
  {
    hide Step;
    var w := [Waiter(d, false)];
    var w2 := w + [Waiter(d, true)];
    LonelyStart(id, d);
    LonelySteps(id, d);
    LonelyEnd(id, d, w2);
    Unroll(LonelyTool(Draining, id, false, w, d, Waiting), GraceEnds(d), [Continue(d), ForceEnds(d), Continue(d)]);
    Unroll(LonelyTool(Draining, id, false, w, d, Lost), Continue(d), [ForceEnds(d), Continue(d)]);
    Unroll(LonelyTool(Draining, id, true, w2, d, Forcing), ForceEnds(d), [Continue(d)]);
    Unroll(LonelyTool(Draining, id, true, w2, d, Leaving), Continue(d), []);
  }

  lemma Unroll(s: State, e: Event, es: seq<Event>)
    ensures After(s, [e] + es) == After(Step(s, e), es)
  {
    assert ([e] + es)[1..] == es;
  }
}
