/**
 When the market-data jobs run (server/jobs/marketDataRefresh.js:219-302): the calendar arithmetic that finds the next
 occurrence of a schedule, and the self-arming timer of the adaptive job.  Instants are milliseconds since the epoch.
 */
module Schedule {
  import opened Prelude

  const MINUTE := 60000
  const HOUR := 3600000
  const DAY := 86400000

  function UtcMinute(t: int): int { t / MINUTE % 60 }

  function UtcHour(t: int): int { t / HOUR % 24 }

  // The UTC setters keep the larger calendar fields; a value past the end of its range rolls into the next field.
  function SetSeconds(t: int, seconds: int, ms: int): int { t - t % MINUTE + 1000 * seconds + ms }

  function SetMinutes(t: int, minute: int): int { t - t % HOUR + minute * MINUTE + t % MINUTE }

  function SetHours(t: int, hour: int): int { t - t % DAY + hour * HOUR + t % HOUR }

  /**
   The expressions the jobs use: a minute, and an hour that is either every second one or fixed. None is not an
   integer.
   */
  datatype HourPart = EverySecond | Fixed(hour: Option<int>)

  datatype Cron = Cron(minute: Option<int>, hour: HourPart)

  datatype Timing = Timing(initialDelay: int, interval: int)

  const FALLBACK := Timing(6 * HOUR, 6 * HOUR)

  predicate Usable(cron: Cron) {
    && cron.minute.Some? && 0 <= cron.minute.value <= 59
    && (cron.hour.EverySecond? || (cron.hour.hour.Some? && 0 <= cron.hour.hour.value <= 23))
  }

  /** What the expression means: the calendar fields an instant must show. */
  predicate Matches(cron: Cron, t: int)
    requires Usable(cron)
  {
    && t % MINUTE == 0 && UtcMinute(t) == cron.minute.value
    && (if cron.hour.EverySecond? then UtcHour(t) % 2 == 0 else UtcHour(t) == cron.hour.hour.value)
  }

  function Period(cron: Cron): int {
    if cron.hour.EverySecond? then 2 * HOUR else DAY
  }

  // Where in its period a matching instant falls.
  function Offset(cron: Cron): int
    requires Usable(cron)
  {
    cron.minute.value * MINUTE + if cron.hour.EverySecond? then 0 else cron.hour.hour.value * HOUR
  }

  lemma MultipleBound(q: int, period: int)
    requires period > 0
    ensures q >= 1 ==> q * period >= period
    ensures q <= 0 ==> q * period <= 0
  {
  }

  lemma QuotientAndRemainder(t: int, q: int, r: int, period: int)
    requires period > 0 && t == q * period + r && 0 <= r < period
    ensures t / period == q && t % period == r
  {
    var d := t / period - q;
    assert d * period == r - t % period;
    MultipleBound(d, period);
    MultipleBound(-d, period);
    assert -d * period == -(d * period);
  }

  lemma Fields(t: int, day: int, hour: int, minute: int, rest: int)
    requires t == day * DAY + hour * HOUR + minute * MINUTE + rest
    requires 0 <= hour < 24 && 0 <= minute < 60 && 0 <= rest < MINUTE
    ensures UtcHour(t) == hour && UtcMinute(t) == minute && t % MINUTE == rest && t % HOUR == minute * MINUTE + rest
    ensures t % DAY == hour * HOUR + minute * MINUTE + rest
  {
    QuotientAndRemainder(t, day, hour * HOUR + minute * MINUTE + rest, DAY);
    QuotientAndRemainder(t, day * 24 + hour, minute * MINUTE + rest, HOUR);
    QuotientAndRemainder(t, (day * 24 + hour) * 60 + minute, rest, MINUTE);
    QuotientAndRemainder(day * 24 + hour, day, hour, 24);
    QuotientAndRemainder((day * 24 + hour) * 60 + minute, day * 24 + hour, minute, 60);
  }

  lemma Split(t: int) returns (day: int, hour: int, minute: int, rest: int)
    ensures t == day * DAY + hour * HOUR + minute * MINUTE + rest
    ensures 0 <= hour < 24 && 0 <= minute < 60 && 0 <= rest < MINUTE
    ensures UtcHour(t) == hour && UtcMinute(t) == minute && t % MINUTE == rest && t % HOUR == minute * MINUTE + rest
    ensures t % DAY == hour * HOUR + minute * MINUTE + rest
  {
    day, hour, minute, rest := t / DAY, t % DAY / HOUR, t % HOUR / MINUTE, t % MINUTE;
    SplitSum(t);
    Fields(t, day, hour, minute, rest);
  }

  lemma SplitSum(t: int)
    ensures t == t / DAY * DAY + t % DAY / HOUR * HOUR + t % HOUR / MINUTE * MINUTE + t % MINUTE
    ensures 0 <= t % DAY / HOUR < 24 && 0 <= t % HOUR / MINUTE < 60
  {
    var day, part := t / DAY, t % DAY;
    var hour, minutes := part / HOUR, part % HOUR;
    assert 0 <= hour < 24;
    assert t == (day * 24 + hour) * HOUR + minutes;
    QuotientAndRemainder(t, day * 24 + hour, minutes, HOUR);
    var minute, rest := minutes / MINUTE, minutes % MINUTE;
    assert 0 <= minute < 60;
    assert t == ((day * 24 + hour) * 60 + minute) * MINUTE + rest;
    QuotientAndRemainder(t, (day * 24 + hour) * 60 + minute, rest, MINUTE);
  }

  /** Matching the calendar fields is the same as sitting at one offset of the period. */
  lemma MatchesAtOffset(cron: Cron, t: int)
    requires Usable(cron)
    ensures Matches(cron, t) <==> t % Period(cron) == Offset(cron)
  {
    var day, hour, minute, rest := Split(t);
    hide UtcHour, UtcMinute;
    if cron.hour.EverySecond? {
      EvenHours(t, day, hour, minute, rest);
      SameOffset(hour % 2, minute, rest, 0, cron.minute.value);
    } else {
      SameOffset(hour, minute, rest, cron.hour.hour.value, cron.minute.value);
    }
  }

  lemma SameOffset(hour: int, minute: int, rest: int, wantedHour: int, wantedMinute: int)
    requires 0 <= minute < 60 && 0 <= rest < MINUTE && 0 <= wantedMinute < 60
    ensures rest == 0 && minute == wantedMinute && hour == wantedHour
            <==> hour * HOUR + minute * MINUTE + rest == wantedMinute * MINUTE + wantedHour * HOUR
  {
  }

  lemma EvenHours(t: int, day: int, hour: int, minute: int, rest: int)
    requires t == day * DAY + hour * HOUR + minute * MINUTE + rest
    requires 0 <= hour < 24 && 0 <= minute < 60 && 0 <= rest < MINUTE
    ensures t % (2 * HOUR) == hour % 2 * HOUR + minute * MINUTE + rest
  {
    QuotientAndRemainder(t, 12 * day + hour / 2, hour % 2 * HOUR + minute * MINUTE + rest, 2 * HOUR);
  }

  /** In milliseconds: the minute after an even hour of the day, or the minute after the hour of the day. */
  lemma MatchesExactly(cron: Cron, t: int)
    requires Usable(cron)
    ensures cron.hour.EverySecond? ==> (Matches(cron, t) <==> t % 7200000 == cron.minute.value * 60000)
    ensures cron.hour.Fixed? ==>
              (Matches(cron, t) <==> t % 86400000 == cron.hour.hour.value * 3600000 + cron.minute.value * 60000)
  {
    MatchesAtOffset(cron, t);
    hide Matches;
  }

  /** Usable are a minute of 0 to 59 and, unless every second hour is meant, an hour of 0 to 23. */
  lemma UsableExactly(cron: Cron)
    ensures Usable(cron)
            <==> && (exists m :: 0 <= m <= 59 && cron.minute == Some(m))
                 && (cron.hour == EverySecond || exists h :: 0 <= h <= 23 && cron.hour == Fixed(Some(h)))
  {
  }

  // ---------------------------------------------------------------- the next occurrence

  /** The first instant after now that the expression matches. */
  ghost predicate IsNext(cron: Cron, now: int, next: int)
    requires Usable(cron)
  {
    now < next && Matches(cron, next) && forall t | now < t < next :: !Matches(cron, t)
  }

  lemma OffsetIsNext(cron: Cron, now: int, next: int)
    requires Usable(cron) && now < next <= now + Period(cron) && next % Period(cron) == Offset(cron)
    ensures IsNext(cron, now, next)
  {
    MatchesAtOffset(cron, next);
    forall t | now < t < next
      ensures !Matches(cron, t)
    {
      MatchesAtOffset(cron, t);
      if cron.hour.EverySecond? {
        OnePerPeriod(t, next, 2 * HOUR);
      } else {
        OnePerPeriod(t, next, DAY);
      }
    }
  }

  lemma Difference(a: int, b: int, period: int)
    requires period > 0 && a % period == b % period
    ensures b == a + (b / period - a / period) * period
  {
    assert a == a / period * period + a % period;
    assert b == b / period * period + b % period;
  }

  lemma OnePerPeriod(t: int, next: int, period: int)
    requires period > 0 && t < next < t + period
    ensures t % period != next % period
  {
    if t % period == next % period {
      Difference(t, next, period);
      MultipleBound(next / period - t / period, period);
    }
  }

  lemma DailyStart(now: int, hour: int, minute: int)
    requires 0 <= hour < 24 && 0 <= minute < 60
    ensures SetMinutes(SetHours(SetSeconds(now, 0, 0), hour), minute) == now - now % DAY + hour * HOUR + minute * MINUTE
    ensures (now - now % DAY + hour * HOUR + minute * MINUTE) % DAY == hour * HOUR + minute * MINUTE
    ensures now - DAY < now - now % DAY + hour * HOUR + minute * MINUTE <= now + DAY
  {
    var d, h, m, rest := Split(now);
    var t1 := SetSeconds(now, 0, 0);
    Fields(t1, d, h, m, 0);
    var t2 := SetHours(t1, hour);
    Fields(t2, d, hour, m, 0);
    Fields(now - now % DAY + hour * HOUR + minute * MINUTE, d, hour, minute, 0);
  }

  lemma EvenStart(now: int, minute: int)
    requires 0 <= minute < 60
    ensures var even := if UtcHour(now) % 2 == 0 then UtcHour(now) else UtcHour(now) + 1;
            var next := SetHours(SetMinutes(SetSeconds(now, 0, 0), minute), even);
            next % (2 * HOUR) == minute * MINUTE && now - 2 * HOUR < next <= now + 2 * HOUR
  {
    var d, h, m, rest := Split(now);
    var even := if h % 2 == 0 then h else h + 1;
    var t1 := SetSeconds(now, 0, 0);
    Fields(t1, d, h, m, 0);
    var t2 := SetMinutes(t1, minute);
    Fields(t2, d, h, minute, 0);
    var t3 := SetHours(t2, even);
    if even == 24 {
      EvenHours(t3, d + 1, 0, minute, 0);
    } else {
      EvenHours(t3, d, even, minute, 0);
    }
  }

  // Two hours later by the clock is two hours later, also when the hour rolls into the next day.
  lemma TwoHoursOn(t: int)
    ensures SetHours(t, UtcHour(t) + 2) == t + 2 * HOUR
  {
    var d, h, m, rest := Split(t);
  }

  lemma PeriodOn(t: int)
    ensures (t + 2 * HOUR) % (2 * HOUR) == t % (2 * HOUR)
    ensures (t + DAY) % DAY == t % DAY
  {
  }

  /**
   getScheduleTiming: the first delay lands on the earliest matching instant strictly after now, never further away than
   one period; an expression it cannot use falls back to six hours.
   */
  method ScheduleTiming(cron: Cron, now: int) returns (timing: Timing)
    ensures !Usable(cron) ==> timing == Timing(21600000, 21600000)
    ensures Usable(cron) ==> IsNext(cron, now, now + timing.initialDelay)
    ensures Usable(cron) ==> 0 < timing.initialDelay <= timing.interval == Period(cron)
    ensures Usable(cron) ==> timing.interval == if cron.hour.EverySecond? then 7200000 else 86400000
  {
    hide SetHours, SetMinutes, SetSeconds, UtcHour, IsNext;
    if cron.minute.None? || cron.minute.value < 0 || cron.minute.value > 59 {
      return FALLBACK;
    }
    var minute := cron.minute.value;
    if cron.hour.EverySecond? {
      EvenStart(now, minute);
      var next := SetSeconds(now, 0, 0);
      next := SetMinutes(next, minute);
      var currentHour := UtcHour(now);
      var nextEvenHour := if currentHour % 2 == 0 then currentHour else currentHour + 1;
      next := SetHours(next, nextEvenHour);
      if next <= now {
        TwoHoursOn(next);
        PeriodOn(next);
        next := SetHours(next, UtcHour(next) + 2);
      }
      OffsetIsNext(cron, now, next);
      return Timing(next - now, 2 * HOUR);
    }
    if cron.hour.hour.Some? && 0 <= cron.hour.hour.value <= 23 {
      DailyStart(now, cron.hour.hour.value, minute);
      var next := SetSeconds(now, 0, 0);
      next := SetHours(next, cron.hour.hour.value);
      next := SetMinutes(next, minute);
      if next <= now {
        PeriodOn(next);
        next := next + DAY;
      }
      OffsetIsNext(cron, now, next);
      return Timing(next - now, DAY);
    }
    return FALLBACK;
  }

  /** From its first instant on, the fixed interval visits every matching instant and no other. */
  lemma IntervalVisitsAll(cron: Cron, now: int, next: int, t: int)
    requires Usable(cron) && IsNext(cron, now, next) && now < t
    ensures Matches(cron, t) <==> (exists k: nat :: t == next + k * Period(cron))
  {
    MatchesAtOffset(cron, next);
    MatchesAtOffset(cron, t);
    var period := Period(cron);
    if Matches(cron, t) {
      var k := t / period - next / period;
      Difference(next, t, period);
      MultipleBound(k, period);
      assert t == next + k * period;
    }
    forall k: nat | t == next + k * period
      ensures Matches(cron, t)
    {
      Advance(next, k, period);
    }
  }

  lemma {:induction false} Advance(t: int, k: nat, period: int)
    requires period > 0
    ensures (t + k * period) % period == t % period
  {
    if k > 0 {
      Advance(t, k - 1, period);
      assert t + k * period == t + (k - 1) * period + period;
      AddPeriod(t + (k - 1) * period, period);
    }
  }

  lemma AddPeriod(t: int, period: int)
    requires period > 0
    ensures (t + period) % period == t % period
  {
    var q := t / period;
    assert t + period == (q + 1) * period + t % period;
    QuotientAndRemainder(t + period, q + 1, t % period, period);
  }

  // ---------------------------------------------------------------- the adaptive job

  datatype Session = Open | Holiday | Other

  /** How long to wait after a refresh, by the session it reported; a failed refresh waits like a closed session. */
  function RefreshDelay(result: Option<Session>): int {
    match result
    case Some(Open) => 8 * MINUTE
    case Some(Holiday) => 2 * HOUR
    case _ => 30 * MINUTE
  }

  // The armed timer's due time, if any, and the flags of scheduleAdaptiveJob.
  datatype Job = Job(timer: Option<int>, stopped: bool, running: bool)

  datatype Happening = Fire(now: int) | Finished(now: int, result: Option<Session>) | Stop

  predicate CanHappen(job: Job, h: Happening) {
    match h
    case Fire(now) => job.timer.Some? && job.timer.value <= now
    case Finished(_, _) => job.running
    case Stop => true
  }

  function Next(job: Job, h: Happening): Job
    requires CanHappen(job, h)
  {
    match h
    case Fire(_) => if job.stopped || job.running then job.(timer := None) else Job(None, job.stopped, true)
    case Finished(now, result) =>
      Job(if job.stopped then job.timer else Some(now + RefreshDelay(result)), job.stopped, false)
    case Stop => Job(None, true, job.running)
  }

  ghost predicate Alive(job: Job, history: seq<Happening>)
    decreases |history|
  {
    history == [] || (CanHappen(job, history[0]) && Alive(Next(job, history[0]), history[1..]))
  }

  ghost function Later(job: Job, history: seq<Happening>): Job
    requires Alive(job, history)
    decreases |history|
  {
    if history == [] then job else Later(Next(job, history[0]), history[1..])
  }

  function Started(now: int): Job { Job(Some(now + 5000), false, false) }

  // Until it is stopped a job is either refreshing or waiting for exactly one timer; stopped, it waits for none.
  predicate OneThing(job: Job) {
    if job.stopped then job.timer.None? else job.running != job.timer.Some?
  }

  /** The guard against a second refresh and the guard against a refresh after stop never have to act. */
  lemma {:induction false} GuardsNeverAct(job: Job, history: seq<Happening>, h: Happening)
    requires OneThing(job) && Alive(job, history) && CanHappen(Later(job, history), h)
    ensures OneThing(Later(job, history))
    ensures h.Fire? ==> !Later(job, history).stopped && !Later(job, history).running
    decreases |history|
  {
    if history != [] {
      GuardsNeverAct(Next(job, history[0]), history[1..], h);
    }
  }

  /** The first refresh comes after five seconds, the next after 8, 30 or 120 minutes, by the session reported. */
  lemma DelaysInNumbers(now: int, job: Job, result: Option<Session>)
    requires job.running && !job.stopped
    ensures Started(now) == Job(Some(now + 5000), false, false)
    ensures Next(job, Finished(now, result)).timer
            == Some(now + if result == Some(Open) then 480000 else if result == Some(Holiday) then 7200000 else 1800000)
  {
  }

  /** A stopped job starts nothing more; the refresh in flight, if any, is the last. */
  lemma {:induction false} StopIsFinal(job: Job, history: seq<Happening>)
    requires OneThing(job) && job.stopped && Alive(job, history)
    ensures Later(job, history).stopped && Later(job, history).timer.None?
    ensures Later(job, history).running ==> job.running
    ensures forall i | 0 <= i < |history| :: !history[i].Fire?
    decreases |history|
  {
    if history != [] {
      StopIsFinal(Next(job, history[0]), history[1..]);
    }
  }

  /** Stopping lets the refresh in flight finish: its end is still handled, and arms nothing. */
  lemma StopLetsFinish(job: Job, now: int, result: Option<Session>)
    ensures var stopped := Next(job, Stop);
            && (CanHappen(stopped, Finished(now, result)) <==> job.running)
            && (job.running ==> Next(stopped, Finished(now, result)) == Job(None, true, false))
  {
  }

  class AdaptiveJob {
    var timer: Option<int>
    var stopped: bool
    var running: bool

    function State(): Job
      reads this
    {
      Job(timer, stopped, running)
    }

    constructor (now: int)
      ensures State() == Started(now)
    {
      timer, stopped, running := Some(now + 5000), false, false;
    }

    /** The timer comes due; the refresh begins unless a guard holds it back. */
    method Run(now: int)
      requires CanHappen(State(), Fire(now))
      modifies this
      ensures State() == Next(old(State()), Fire(now))
    {
      timer := None;
      if stopped || running {
        return;
      }
      running := true;
    }

    method FinishRun(now: int, result: Option<Session>)
      requires CanHappen(State(), Finished(now, result))
      modifies this
      ensures State() == Next(old(State()), Finished(now, result))
    {
      running := false;
      if !stopped {
        timer := Some(now + RefreshDelay(result));
      }
    }

    method Cancel()
      modifies this
      ensures State() == Next(old(State()), Stop)
    {
      stopped := true;
      timer := None;
    }
  }
}
