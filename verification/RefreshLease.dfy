/**
 The lease that keeps replicas from refreshing the same market data at once
 (server/config/redis.js:126-153, server/jobs/marketDataRefresh.js:38-66): SET NX EX to acquire, compare-and-delete
 to release, and an expiry that frees a lease whose holder never came back.
 */
module RefreshLease {
  import opened Prelude

  type Job = string
  type Token = string

  datatype Lease = Lease(token: Token, deadline: int)

  // A command may fail before Redis ran it, or run and lose its reply; the caller sees a failure both times.
  datatype Link = Unreached | ReplyLost | Replied

  // Granted: Redis stored the lease and its reply is under way.
  datatype Phase = Granted | Executing | Settled(at: int) | Closed(at: int)

  // A refresh whose lease was granted: it starts when the reply arrives, settles, and then tries to give its lease
  // back.
  datatype Run = Run(job: Job, token: Token, acquired: int, deadline: int, phase: Phase)

  datatype State = State(leases: map<Job, Lease>, now: int, runs: seq<Run>, used: set<Token>)

  datatype Event =
    | Pass(ms: nat)
    | Begin(job: Job, token: Token, ttl: nat, link: Link)
    | Start(run: nat)
    | Settle(run: nat)
    | Finish(run: nat, link: Link)

  function Init(now: int): State {
    State(map[], now, [], {})
  }

  /** Redis still has the lease until its deadline has passed. */
  predicate Held(leases: map<Job, Lease>, job: Job, now: int) {
    job in leases && now <= leases[job].deadline
  }

  predicate HeldBy(leases: map<Job, Lease>, job: Job, now: int, token: Token) {
    Held(leases, job, now) && leases[job].token == token
  }

  // SET NX EX takes effect: it reached Redis, the expiry is one Redis accepts, and nobody holds the key.
  predicate Stores(s: State, job: Job, ttl: nat, link: Link) {
    !link.Unreached? && ttl > 0 && !Held(s.leases, job, s.now)
  }

  // Tokens are fresh; a run starts once, then settles once, then gives its lease back once.
  ghost predicate Enabled(s: State, e: Event) {
    match e
    case Pass(_) => true
    case Begin(_, token, _, _) => token !in s.used
    case Start(i) => i < |s.runs| && s.runs[i].phase.Granted?
    case Settle(i) => i < |s.runs| && s.runs[i].phase.Executing?
    case Finish(i, _) => i < |s.runs| && s.runs[i].phase.Settled?
  }

  function Step(s: State, e: Event): State
    requires Enabled(s, e)
  {
    match e
    case Pass(ms) => s.(now := s.now + ms)
    case Begin(job, token, ttl, link) =>
      if !Stores(s, job, ttl, link) then s.(used := s.used + {token})
      else
        var deadline := s.now + 1000 * ttl;
        State(s.leases[job := Lease(token, deadline)], s.now,
              if link.Replied? then s.runs + [Run(job, token, s.now, deadline, Granted)] else s.runs,
              s.used + {token})
    case Start(i) => s.(runs := s.runs[i := s.runs[i].(phase := Executing)])
    case Settle(i) => s.(runs := s.runs[i := s.runs[i].(phase := Settled(s.now))])
    case Finish(i, link) =>
      var run := s.runs[i];
      var found := !link.Unreached? && HeldBy(s.leases, run.job, s.now, run.token);
      s.(leases := if found then s.leases - {run.job} else s.leases,
         runs := s.runs[i := run.(phase := Closed(run.phase.at))])
  }

  ghost predicate Feasible(s: State, events: seq<Event>)
    decreases |events|
  {
    events == [] || (Enabled(s, events[0]) && Feasible(Step(s, events[0]), events[1..]))
  }

  ghost function After(s: State, events: seq<Event>): State
    requires Feasible(s, events)
    decreases |events|
  {
    if events == [] then s else After(Step(s, events[0]), events[1..])
  }

  // ---------------------------------------------------------------- the invariant

  predicate Over(phase: Phase) {
    phase.Settled? || phase.Closed?
  }

  /** By time t the run had settled, or its lease had already lapsed. */
  predicate OverBy(run: Run, t: int) {
    run.deadline < t || (Over(run.phase) && run.phase.at <= t)
  }

  ghost predicate Exclusive(runs: seq<Run>) {
    forall i, j | 0 <= i < j < |runs| && runs[i].job == runs[j].job :: OverBy(runs[i], runs[j].acquired)
  }

  // A run that has not closed still has its lease in Redis, or the lease has lapsed.
  ghost predicate Backed(s: State) {
    forall i | 0 <= i < |s.runs| && !s.runs[i].phase.Closed? ::
      || s.runs[i].deadline < s.now
      || (s.runs[i].job in s.leases && s.leases[s.runs[i].job] == Lease(s.runs[i].token, s.runs[i].deadline))
  }

  ghost predicate Named(s: State) {
    && (forall i | 0 <= i < |s.runs| :: s.runs[i].token in s.used && s.runs[i].acquired <= s.now)
    && (forall i | 0 <= i < |s.runs| && Over(s.runs[i].phase) :: s.runs[i].phase.at <= s.now)
    && (forall job | job in s.leases :: s.leases[job].token in s.used)
    && (forall i, j | 0 <= i < j < |s.runs| :: s.runs[i].token != s.runs[j].token)
  }

  // A lease and a run under one token are the same acquisition.
  ghost predicate Owned(s: State) {
    forall i, job | 0 <= i < |s.runs| && job in s.leases && s.leases[job].token == s.runs[i].token ::
      job == s.runs[i].job && s.leases[job].deadline == s.runs[i].deadline
  }

  ghost predicate Inv(s: State) {
    Exclusive(s.runs) && Backed(s) && Named(s) && Owned(s)
  }

  lemma BeginKeepsExclusive(s: State, job: Job, token: Token, ttl: nat, link: Link)
    requires Inv(s) && Stores(s, job, ttl, link)
    ensures Exclusive(s.runs + [Run(job, token, s.now, s.now + 1000 * ttl, Granted)])
  {
    var all := s.runs + [Run(job, token, s.now, s.now + 1000 * ttl, Granted)];
    forall i, j | 0 <= i < j < |all| && all[i].job == all[j].job
      ensures OverBy(all[i], all[j].acquired)
    {
      if j < |s.runs| {
        assert OverBy(s.runs[i], s.runs[j].acquired);
      } else if !Over(s.runs[i].phase) {
        assert s.runs[i].deadline < s.now;
      }
    }
  }

  lemma BeginKeepsInv(s: State, job: Job, token: Token, ttl: nat, link: Link)
    requires Inv(s) && token !in s.used
    ensures Inv(Step(s, Begin(job, token, ttl, link)))
  {
    if Stores(s, job, ttl, link) {
      BeginKeepsExclusive(s, job, token, ttl, link);
      hide Exclusive;
    }
  }

  lemma PhaseKeepsInv(s: State, i: nat, phase: Phase)
    requires Inv(s) && i < |s.runs| && (Over(phase) ==> phase.at <= s.now)
    requires !Over(s.runs[i].phase) || (s.runs[i].phase.Settled? && phase == Closed(s.runs[i].phase.at))
    ensures Inv(s.(runs := s.runs[i := s.runs[i].(phase := phase)]))
  {
    var runs := s.runs[i := s.runs[i].(phase := phase)];
    forall a, b | 0 <= a < b < |runs| && runs[a].job == runs[b].job
      ensures OverBy(runs[a], runs[b].acquired)
    {
      assert OverBy(s.runs[a], s.runs[b].acquired);
    }
  }

  // Taking away a lease that belongs to a closed run, or to no run at all, leaves every open run backed.
  lemma DropKeepsInv(s: State, i: nat)
    requires Inv(s) && i < |s.runs| && s.runs[i].phase.Closed?
    requires HeldBy(s.leases, s.runs[i].job, s.now, s.runs[i].token)
    ensures Inv(s.(leases := s.leases - {s.runs[i].job}))
  {
    hide Exclusive;
    var after := s.(leases := s.leases - {s.runs[i].job});
    forall k | 0 <= k < |s.runs| && !s.runs[k].phase.Closed?
      ensures s.runs[k].deadline < s.now
              || (s.runs[k].job in after.leases
                  && after.leases[s.runs[k].job] == Lease(s.runs[k].token, s.runs[k].deadline))
    {
      assert s.runs[k].token != s.runs[i].token;
    }
  }

  lemma StepKeepsInv(s: State, e: Event)
    requires Inv(s) && Enabled(s, e)
    ensures Inv(Step(s, e))
  {
    match e
    case Pass(ms) =>
      hide Exclusive;
    case Begin(job, token, ttl, link) =>
      hide Inv;
      BeginKeepsInv(s, job, token, ttl, link);
    case Start(i) =>
      PhaseKeepsInv(s, i, Executing);
    case Settle(i) =>
      PhaseKeepsInv(s, i, Settled(s.now));
    case Finish(i, link) =>
      var run := s.runs[i];
      PhaseKeepsInv(s, i, Closed(run.phase.at));
      hide Inv;
      var closed := s.(runs := s.runs[i := run.(phase := Closed(run.phase.at))]);
      if !link.Unreached? && HeldBy(s.leases, run.job, s.now, run.token) {
        DropKeepsInv(closed, i);
      }
  }

  lemma {:induction false} RunKeepsInv(s: State, events: seq<Event>)
    requires Inv(s) && Feasible(s, events)
    ensures Inv(After(s, events))
    decreases |events|
  {
    if events != [] {
      StepKeepsInv(s, events[0]);
      RunKeepsInv(Step(s, events[0]), events[1..]);
    }
  }

  // ---------------------------------------------------------------- what it gives

  /**
   Mutual exclusion over every history: of two refreshes of one job the later acquired its lease only after the
   earlier had settled, or after the earlier's lease had run out its whole term.
   */
  lemma OverlapNeedsLapse(now: int, events: seq<Event>, i: nat, j: nat)
    requires Feasible(Init(now), events)
    requires var runs := After(Init(now), events).runs; i < j < |runs| && runs[i].job == runs[j].job
    ensures OverBy(After(Init(now), events).runs[i], After(Init(now), events).runs[j].acquired)
  {
    RunKeepsInv(Init(now), events);
  }

  /** A refresh that outlives its lease, and the next one. */
  function Overrun(job: Job, first: Token, second: Token, ttl: nat): (es: seq<Event>)
    ensures |es| == 5
  {
    [Begin(job, first, ttl, Replied), Start(0), Pass(1000 * ttl + 1), Begin(job, second, ttl, Replied), Start(1)]
  }

  // ---------------------------------------------------------------- when a job never overlaps itself

  predicate Unfinished(run: Run) {
    !Over(run.phase)
  }

  // The job always asks for the same term.
  ghost predicate FixedTerm(events: seq<Event>, job: Job, ttl: nat) {
    forall k | 0 <= k < |events| && events[k].Begin? && events[k].job == job :: events[k].ttl == ttl
  }

  // No unfinished refresh of the job got its lease more than the given time ago.
  ghost predicate Timely(s: State, job: Job, most: int) {
    forall i | 0 <= i < |s.runs| && s.runs[i].job == job && Unfinished(s.runs[i]) :: s.now <= s.runs[i].acquired + most
  }

  ghost predicate AlwaysTimely(s: State, events: seq<Event>, job: Job, most: int)
    requires Feasible(s, events)
    decreases |events|
  {
    Timely(s, job, most) && (events == [] || AlwaysTimely(Step(s, events[0]), events[1..], job, most))
  }

  /** At most one refresh of the job is unfinished. */
  ghost predicate Alone(s: State, job: Job) {
    forall i, j | 0 <= i < j < |s.runs| && s.runs[i].job == s.runs[j].job == job ::
      !Unfinished(s.runs[i]) || !Unfinished(s.runs[j])
  }

  ghost predicate TermsKept(s: State, job: Job, ttl: nat) {
    forall i | 0 <= i < |s.runs| && s.runs[i].job == job :: s.runs[i].deadline == s.runs[i].acquired + 1000 * ttl
  }

  lemma {:induction false} RunKeepsTerms(s: State, events: seq<Event>, job: Job, ttl: nat)
    requires TermsKept(s, job, ttl) && Feasible(s, events) && FixedTerm(events, job, ttl)
    ensures TermsKept(After(s, events), job, ttl)
    decreases |events|
  {
    if events != [] {
      assert FixedTerm(events[1..], job, ttl);
      assert events[0].Begin? && events[0].job == job ==> events[0].ttl == ttl;
      assert TermsKept(Step(s, events[0]), job, ttl);
      RunKeepsTerms(Step(s, events[0]), events[1..], job, ttl);
    }
  }

  lemma {:induction false} TimelyAtTheEnd(s: State, events: seq<Event>, job: Job, most: int)
    requires Feasible(s, events) && AlwaysTimely(s, events, job, most)
    ensures Timely(After(s, events), job, most)
    decreases |events|
  {
    if events != [] {
      TimelyAtTheEnd(Step(s, events[0]), events[1..], job, most);
    }
  }

  /** A job whose refreshes finish within their term, whatever other jobs do, never overlaps itself. */
  lemma TimelyIsAlone(now: int, events: seq<Event>, job: Job, ttl: nat, most: int)
    requires Feasible(Init(now), events) && FixedTerm(events, job, ttl)
    requires AlwaysTimely(Init(now), events, job, most) && most <= 1000 * ttl
    ensures Alone(After(Init(now), events), job)
  {
    var s := After(Init(now), events);
    RunKeepsInv(Init(now), events);
    RunKeepsTerms(Init(now), events, job, ttl);
    TimelyAtTheEnd(Init(now), events, job, most);
    hide Backed, Named, Owned, Step, Feasible, After, AlwaysTimely, FixedTerm;
    forall i, j | 0 <= i < j < |s.runs| && s.runs[i].job == s.runs[j].job == job
      ensures !Unfinished(s.runs[i])
    {
      assert OverBy(s.runs[i], s.runs[j].acquired);
      AcquiredBefore(s, j);
    }
  }

  lemma AcquiredBefore(s: State, j: nat)
    requires Inv(s) && j < |s.runs|
    ensures s.runs[j].acquired <= s.now
  {
  }

  // The states the overrunning history passes through.
  function Passing(now: int, job: Job, first: Token, second: Token, ttl: nat): (r: seq<State>)
    ensures |r| == 6
  {
    var d, t := now + 1000 * ttl, now + 1000 * ttl + 1;
    var lease, other := map[job := Lease(first, d)], map[job := Lease(second, t + 1000 * ttl)];
    var a, b := Run(job, first, now, d, Granted), Run(job, second, t, t + 1000 * ttl, Granted);
    var a' := a.(phase := Executing);
    [Init(now),
     State(lease, now, [a], {first}),
     State(lease, now, [a'], {first}),
     State(lease, t, [a'], {first}),
     State(other, t, [a', b], {first, second}),
     State(other, t, [a', b.(phase := Executing)], {first, second})]
  }

  lemma PassingSteps(now: int, job: Job, first: Token, second: Token, ttl: nat, k: nat)
    requires first != second && ttl > 0 && k < 5
    ensures var p, es := Passing(now, job, first, second, ttl), Overrun(job, first, second, ttl);
            Enabled(p[k], es[k]) && Step(p[k], es[k]) == p[k + 1]
  {
    var p := Passing(now, job, first, second, ttl);
    assert Stores(p[0], job, ttl, Replied) && Stores(p[3], job, ttl, Replied);
    assert p[3].leases[job := Lease(second, p[3].now + 1000 * ttl)] == p[4].leases;
  }

  lemma PassingTimely(now: int, job: Job, first: Token, second: Token, ttl: nat, most: int, k: nat)
    requires most > 1000 * ttl && k < 6
    ensures Timely(Passing(now, job, first, second, ttl)[k], job, most)
  {
  }

  /** The run in which a refresh outlives its lease keeps any bound that is longer than the term. */
  lemma {:induction false} OverrunTimely(now: int, job: Job, first: Token, second: Token, ttl: nat, most: int, k: nat)
    requires first != second && ttl > 0 && most > 1000 * ttl && k <= 5
    ensures var p, es := Passing(now, job, first, second, ttl), Overrun(job, first, second, ttl);
            Feasible(p[k], es[k..]) && AlwaysTimely(p[k], es[k..], job, most) && After(p[k], es[k..]) == p[5]
    decreases 5 - k
  {
    hide Timely, Step, Enabled, Passing, Overrun;
    var p, es := Passing(now, job, first, second, ttl), Overrun(job, first, second, ttl);
    PassingTimely(now, job, first, second, ttl, most, k);
    if k == 5 {
      assert es[k..] == [];
    } else {
      PassingSteps(now, job, first, second, ttl, k);
      OverrunTimely(now, job, first, second, ttl, most, k + 1);
      assert es[k..][0] == es[k] && es[k..][1..] == es[k + 1..];
    }
  }

  /** The condition is met: a refresh that outlives its lease does run beside the next one. */
  lemma OverrunOverlaps(now: int, job: Job, first: Token, second: Token, ttl: nat)
    requires first != second && ttl > 0
    ensures Feasible(Init(now), Overrun(job, first, second, ttl))
    ensures After(Init(now), Overrun(job, first, second, ttl)).runs
            == [Run(job, first, now, now + 1000 * ttl, Executing),
                Run(job, second, now + 1000 * ttl + 1, now + 2000 * ttl + 1, Executing)]
  {
    var p, es := Passing(now, job, first, second, ttl), Overrun(job, first, second, ttl);
    OverrunTimely(now, job, first, second, ttl, 1000 * ttl + 1, 0);
    assert es[0..] == es && p[0] == Init(now);
  }

  lemma FixedOverrun(job: Job, first: Token, second: Token, ttl: nat)
    ensures FixedTerm(Overrun(job, first, second, ttl), job, ttl)
  {
  }

  ghost predicate Allowed(now: int, events: seq<Event>, job: Job, ttl: nat, most: int) {
    Feasible(Init(now), events) && FixedTerm(events, job, ttl) && AlwaysTimely(Init(now), events, job, most)
  }

  /** Over every history of any replicas and jobs in which this job asks for one term and keeps the bound. */
  ghost predicate NeverOverlaps(job: Job, ttl: nat, most: int) {
    forall now, events | Allowed(now, events, job, ttl, most) :: Alone(After(Init(now), events), job)
  }

  /**
   Exactly when a job never overlaps itself: over all histories in which its refreshes finish at most so many
   milliseconds after their lease was stored, no two of them are ever unfinished at once if and only if that bound is
   no longer than the term.
   */
  lemma OverlapExactly(job: Job, ttl: nat, most: int)
    requires ttl > 0
    ensures NeverOverlaps(job, ttl, most) <==> most <= 1000 * ttl
  {
    hide Feasible, After, FixedTerm, AlwaysTimely, Overrun;
    if most <= 1000 * ttl {
      forall now, events | Allowed(now, events, job, ttl, most)
        ensures Alone(After(Init(now), events), job)
      {
        TimelyIsAlone(now, events, job, ttl, most);
      }
    } else {
      OverrunOverlaps(0, job, "a", "b", ttl);
      OverrunTimely(0, job, "a", "b", ttl, most, 0);
      assert Overrun(job, "a", "b", ttl)[0..] == Overrun(job, "a", "b", ttl);
      FixedOverrun(job, "a", "b", ttl);
      var runs := After(Init(0), Overrun(job, "a", "b", ttl)).runs;
      assert Unfinished(runs[0]) && Unfinished(runs[1]) && runs[0].job == runs[1].job == job;
      assert Allowed(0, Overrun(job, "a", "b", ttl), job, ttl, most);
      assert !Alone(After(Init(0), Overrun(job, "a", "b", ttl)), job);
    }
  }

  // ---------------------------------------------------------------- releases and lapses

  /** Giving a lease back never touches one held under another token, whoever the former owner was. */
  lemma ReleaseSparesOthers(s: State, i: nat, link: Link, job: Job)
    requires Inv(s) && Enabled(s, Finish(i, link)) && job in s.leases && s.leases[job].token != s.runs[i].token
    ensures var after := Step(s, Finish(i, link)).leases; job in after && after[job] == s.leases[job]
  {
  }

  /** A lease whose reply was lost starts nothing, and keeps the job from every replica until its term has passed. */
  lemma LostReplyBlocks(s: State, job: Job, token: Token, ttl: nat, wait: nat)
    requires Enabled(s, Begin(job, token, ttl, ReplyLost)) && !Held(s.leases, job, s.now) && ttl > 0
    ensures var z := Step(Step(s, Begin(job, token, ttl, ReplyLost)), Pass(wait));
            z.runs == s.runs && (Stores(z, job, ttl, Replied) <==> wait > 1000 * ttl)
  {
  }

  /** A refresh that is over within its term and whose release reaches Redis frees the job at once. */
  lemma TimelyReleaseFrees(s: State, i: nat, link: Link, ttl: nat)
    requires Inv(s) && Enabled(s, Finish(i, link)) && !link.Unreached? && s.now <= s.runs[i].deadline && ttl > 0
    ensures s.runs[i].job !in Step(s, Finish(i, link)).leases
    ensures Stores(Step(s, Finish(i, link)), s.runs[i].job, ttl, Replied)
  {
    hide Exclusive;
  }

  /**
   The release reports success exactly when the lease had not lapsed; failure therefore tells a lapse from a clean
   end.
   */
  lemma ReleaseReportsLapse(s: State, i: nat)
    requires Inv(s) && Enabled(s, Finish(i, Replied))
    ensures HeldBy(s.leases, s.runs[i].job, s.now, s.runs[i].token) <==> s.now <= s.runs[i].deadline
  {
    hide Exclusive;
  }

  ghost predicate TermsWithin(events: seq<Event>, most: nat) {
    forall k | 0 <= k < |events| && events[k].Begin? :: events[k].ttl <= most
  }

  ghost predicate DeadlinesWithin(s: State, most: nat) {
    forall job | job in s.leases :: s.leases[job].deadline <= s.now + 1000 * most
  }

  lemma {:induction false} RunKeepsDeadlines(s: State, events: seq<Event>, most: nat)
    requires DeadlinesWithin(s, most) && Feasible(s, events) && TermsWithin(events, most)
    ensures DeadlinesWithin(After(s, events), most)
    decreases |events|
  {
    if events != [] {
      assert TermsWithin(events[1..], most);
      assert DeadlinesWithin(Step(s, events[0]), most);
      RunKeepsDeadlines(Step(s, events[0]), events[1..], most);
    }
  }

  /** No crash, lost reply or unreachable release blocks a job for longer than the longest term. */
  lemma BlockedForOneTerm(now: int, events: seq<Event>, most: nat, job: Job, ttl: nat, wait: nat)
    requires Feasible(Init(now), events) && TermsWithin(events, most) && ttl > 0 && wait > 1000 * most
    ensures Stores(Step(After(Init(now), events), Pass(wait)), job, ttl, Replied)
  {
    RunKeepsDeadlines(Init(now), events, most);
  }

  // ---------------------------------------------------------------- the replicas and their Redis

  class Replicas {
    var leases: map<Job, Lease>
    var now: int
    var runs: seq<Run>
    ghost var used: set<Token>

    ghost function View(): State
      reads this
    {
      State(leases, now, runs, used)
    }

    ghost predicate Valid()
      reads this
    {
      Inv(View())
    }

    constructor (now: int)
      ensures Valid() && View() == Init(now)
    {
      this.now, leases, runs, used := now, map[], [], {};
    }

    method Wait(ms: nat)
      requires Valid()
      modifies this
      ensures Valid() && View() == Step(old(View()), Pass(ms))
    {
      StepKeepsInv(View(), Pass(ms));
      hide Inv;
      now := now + ms;
    }

    /** SET NX EX as the caller sees it: a lost reply reads as a refusal although the key is taken. */
    method SetCacheNX(job: Job, token: Token, ttl: nat, link: Link) returns (acquired: bool)
      modifies `leases
      ensures acquired <==> link.Replied? && Stores(old(View()), job, ttl, link)
      ensures leases == if Stores(old(View()), job, ttl, link)
                        then old(leases)[job := Lease(token, now + 1000 * ttl)]
                        else old(leases)
    {
      acquired := false;
      if !link.Unreached? && ttl > 0 && !Held(leases, job, now) {
        leases := leases[job := Lease(token, now + 1000 * ttl)];
        acquired := link.Replied?;
      }
    }

    /** Compare and delete in one step. */
    method ReleaseCacheNX(job: Job, token: Token, link: Link) returns (released: bool)
      modifies `leases
      ensures released <==> link.Replied? && HeldBy(old(leases), job, now, token)
      ensures leases == if !link.Unreached? && HeldBy(old(leases), job, now, token)
                        then old(leases) - {job}
                        else old(leases)
    {
      released := false;
      if !link.Unreached? && HeldBy(leases, job, now, token) {
        leases := leases - {job};
        released := link.Replied?;
      }
    }

    /** Ask for the lease; without one, or without an answer, this replica skips its turn. */
    method BeginRefresh(job: Job, token: Token, ttl: nat, link: Link) returns (run: Option<nat>)
      requires Valid() && token !in used
      modifies this
      ensures Valid() && View() == Step(old(View()), Begin(job, token, ttl, link))
      ensures run == if link.Replied? && Stores(old(View()), job, ttl, link) then Some(|old(runs)|) else None
    {
      ghost var next := Step(View(), Begin(job, token, ttl, link));
      StepKeepsInv(View(), Begin(job, token, ttl, link));
      hide Inv, Held, Stores;
      var acquired := SetCacheNX(job, token, ttl, link);
      used := used + {token};
      if !acquired {
        assert View() == next;
        return None;
      }
      runs := runs + [Run(job, token, now, now + 1000 * ttl, Granted)];
      assert View() == next;
      return Some(|runs| - 1);
    }

    /** The reply arrives, however much later, and the refresh starts. */
    method StartRefresh(run: nat)
      requires Valid() && Enabled(View(), Start(run))
      modifies this
      ensures Valid() && View() == Step(old(View()), Start(run))
    {
      StepKeepsInv(View(), Start(run));
      hide Inv;
      runs := runs[run := runs[run].(phase := Executing)];
    }

    method SettleRefresh(run: nat)
      requires Valid() && Enabled(View(), Settle(run))
      modifies this
      ensures Valid() && View() == Step(old(View()), Settle(run))
    {
      StepKeepsInv(View(), Settle(run));
      hide Inv;
      runs := runs[run := runs[run].(phase := Settled(now))];
    }

    /** Whether the refresh succeeded or threw, the lease is offered back once. */
    method FinishRefresh(run: nat, link: Link) returns (released: bool)
      requires Valid() && Enabled(View(), Finish(run, link))
      modifies this
      ensures Valid() && View() == Step(old(View()), Finish(run, link))
      ensures released <==> link.Replied? && old(now) <= old(runs[run].deadline)
    {
      if link.Replied? {
        ReleaseReportsLapse(View(), run);
      }
      StepKeepsInv(View(), Finish(run, link));
      hide Inv, HeldBy;
      released := ReleaseCacheNX(runs[run].job, runs[run].token, link);
      runs := runs[run := runs[run].(phase := Closed(runs[run].phase.at))];
    }
  }
}
