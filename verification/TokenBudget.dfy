/**
 The aggregate token budget shared by concurrent model calls (ml-service/agent_evolution/runner.py:38-147).
 Every call reserves a worst case under the lock, runs, and settles what the provider reports.
 */
module TokenBudget {
  import opened Prelude

  const PROMPT_OVERHEAD := 2048
  const DEFAULT_OUTPUT := 512

  datatype Role = Task | Reflection

  datatype Limits = Limits(maxTotal: int, maxTask: int, maxReflection: int)

  // open lists the reservations not yet settled; overrun is what providers used beyond their reservations.
  datatype Budget = Budget(used: int, reserved: int, taskCalls: int, reflectionCalls: int, open: seq<int>, overrun: int)

  datatype BudgetError = CallsExceeded | BudgetExceeded | UsageUnavailable

  datatype Grant = Grant(reservation: int, outputLimit: int)

  datatype Event = Reserve(role: Role, promptBytes: nat) | Settle(index: nat, actual: Option<nat>)

  const NEW := Budget(0, 0, 0, 0, [], 0)

  function Sum(xs: seq<int>): int {
    if xs == [] then 0 else xs[0] + Sum(xs[1..])
  }

  function ReserveStep(l: Limits, b: Budget, role: Role, promptBytes: nat): (Budget, Result<Grant, BudgetError>) {
    var calls := if role == Task then b.taskCalls else b.reflectionCalls;
    var limit := if role == Task then l.maxTask else l.maxReflection;
    var bound := promptBytes + PROMPT_OVERHEAD;
    var output := Min(DEFAULT_OUTPUT, l.maxTotal - b.used - b.reserved - bound);
    if calls >= limit then (b, Err(CallsExceeded))
    else if output < 1 then (b, Err(BudgetExceeded))
    else
      (b.(reserved := b.reserved + bound + output, open := b.open + [bound + output],
          taskCalls := b.taskCalls + (if role == Task then 1 else 0),
          reflectionCalls := b.reflectionCalls + (if role == Task then 0 else 1)),
       Ok(Grant(bound + output, output)))
  }

  function SettleStep(l: Limits, b: Budget, index: nat, actual: Option<nat>): (Budget, Option<BudgetError>)
    requires index < |b.open|
  {
    var r := b.open[index];
    var charge := if actual.None? then r else actual.value;
    var z := b.(reserved := b.reserved - r, used := b.used + charge, open := b.open[..index] + b.open[index + 1..],
                overrun := b.overrun + Max(0, charge - r));
    (z, if actual.None? then Some(UsageUnavailable)
        else if actual.value > r || z.used > l.maxTotal then Some(BudgetExceeded)
        else None)
  }

  function Step(l: Limits, b: Budget, e: Event): Budget {
    match e
    case Reserve(role, promptBytes) => ReserveStep(l, b, role, promptBytes).0
    case Settle(index, actual) => if index < |b.open| then SettleStep(l, b, index, actual).0 else b
  }

  function After(l: Limits, b: Budget, es: seq<Event>): Budget
    decreases |es|
  {
    if es == [] then b else After(l, Step(l, b, es[0]), es[1..])
  }

  // ---------------------------------------------------------------- conservation over every interleaving

  ghost predicate Conserved(l: Limits, b: Budget) {
    && b.reserved == Sum(b.open)
    && (forall i | 0 <= i < |b.open| :: b.open[i] > PROMPT_OVERHEAD)
    && b.used >= 0 && b.overrun >= 0
    && b.used + b.reserved <= Max(0, l.maxTotal) + b.overrun
    && 0 <= b.taskCalls <= Max(0, l.maxTask) && 0 <= b.reflectionCalls <= Max(0, l.maxReflection)
  }

  lemma {:induction false} SumConcat(a: seq<int>, b: seq<int>)
    ensures Sum(a + b) == Sum(a) + Sum(b)
  {
    if a == [] {
      assert a + b == b;
    } else {
      assert (a + b)[1..] == a[1..] + b;
      SumConcat(a[1..], b);
    }
  }

  lemma {:induction false} SumRemove(xs: seq<int>, i: nat)
    requires i < |xs|
    ensures Sum(xs[..i] + xs[i + 1..]) == Sum(xs) - xs[i]
  {
    var rest := xs[..i] + xs[i + 1..];
    if i == 0 {
      assert rest == xs[1..];
    } else {
      assert rest[0] == xs[0];
      assert rest[1..] == xs[1..][..i - 1] + xs[1..][i..];
      SumRemove(xs[1..], i - 1);
    }
  }

  lemma ReserveConserves(l: Limits, b: Budget, role: Role, promptBytes: nat)
    requires Conserved(l, b)
    ensures Conserved(l, ReserveStep(l, b, role, promptBytes).0)
  {
    var (z, r) := ReserveStep(l, b, role, promptBytes);
    if r.Ok? {
      SumConcat(b.open, [r.value.reservation]);
      assert Sum([r.value.reservation]) == r.value.reservation;
    }
  }

  lemma SettleConserves(l: Limits, b: Budget, index: nat, actual: Option<nat>)
    requires Conserved(l, b) && index < |b.open|
    ensures Conserved(l, SettleStep(l, b, index, actual).0)
  {
    SumRemove(b.open, index);
    hide Sum;
  }

  lemma StepConserves(l: Limits, b: Budget, e: Event)
    requires Conserved(l, b)
    ensures Conserved(l, Step(l, b, e))
  {
    hide Conserved, ReserveStep, SettleStep;
    match e
    case Reserve(role, promptBytes) =>
      ReserveConserves(l, b, role, promptBytes);
    case Settle(index, actual) =>
      if index < |b.open| {
        SettleConserves(l, b, index, actual);
      }
  }

  /** The budget never leaks or double counts, whatever the interleaving of reservations and settlements. */
  lemma {:induction false} RunConserves(l: Limits, b: Budget, es: seq<Event>)
    requires Conserved(l, b)
    ensures Conserved(l, After(l, b, es))
    decreases |es|
  {
    hide Conserved, Step;
    if es != [] {
      StepConserves(l, b, es[0]);
      RunConserves(l, Step(l, b, es[0]), es[1..]);
    }
  }

  lemma {:induction false} OpenAreLarge(xs: seq<int>)
    requires forall i | 0 <= i < |xs| :: xs[i] > PROMPT_OVERHEAD
    ensures Sum(xs) >= |xs| * (PROMPT_OVERHEAD + 1)
  {
    if xs != [] {
      OpenAreLarge(xs[1..]);
    }
  }

  lemma AtMostQuotient(n: nat, total: int)
    requires n * (PROMPT_OVERHEAD + 1) <= total
    ensures n <= total / (PROMPT_OVERHEAD + 1)
  {
  }

  /**
   Without provider overruns the spend stays within the budget and at most maxTotal / 2049 calls can be
   in flight; with overruns it exceeds the budget by no more than they amount to.
   */
  lemma SpendBounded(l: Limits, es: seq<Event>)
    requires l.maxTotal >= 0
    ensures var b := After(l, NEW, es);
            && b.used <= l.maxTotal + b.overrun
            && (b.overrun == 0 ==> b.used <= l.maxTotal && |b.open| <= l.maxTotal / (PROMPT_OVERHEAD + 1))
            && b.taskCalls <= Max(0, l.maxTask) && b.reflectionCalls <= Max(0, l.maxReflection)
  {
    var b := After(l, NEW, es);
    RunConserves(l, NEW, es);
    OpenAreLarge(b.open);
    hide After, Sum;
    if b.overrun == 0 {
      AtMostQuotient(|b.open|, l.maxTotal);
    }
  }

  /**
   A settlement is accepted exactly when usage was reported, lies within the reservation, and leaves what has been used
   within the budget.
   */
  lemma SettleVerdict(l: Limits, b: Budget, index: nat, actual: Option<nat>)
    requires index < |b.open|
    ensures SettleStep(l, b, index, actual).1.None?
            <==> actual.Some? && actual.value <= b.open[index] && b.used + actual.value <= l.maxTotal
  {
  }

  /** With nothing overrun so far, a settlement is accepted exactly when it reports no more than was reserved. */
  lemma HonestSettleAccepted(l: Limits, b: Budget, index: nat, actual: Option<nat>)
    requires Conserved(l, b) && b.overrun == 0 && index < |b.open|
    ensures SettleStep(l, b, index, actual).1.None? <==> actual.Some? && actual.value <= b.open[index]
    ensures SettleStep(l, b, index, actual).1 == Some(UsageUnavailable) <==> actual.None?
  {
    SumRemove(b.open, index);
    OpenAreLarge(b.open[..index] + b.open[index + 1..]);
    OpenAreLarge(b.open);
  }

  // ---------------------------------------------------------------- the books

  // What a call that asks for so many output tokens takes from the budget at most.
  function Worst(promptBytes: nat, output: int): int {
    promptBytes + 2048 + output
  }

  /**
   A call is refused for its role's limit first, and otherwise exactly when not even one token of output fits; granted,
   it may use the most output that fits, up to 512 tokens, and exactly that is reserved.
   */
  lemma ReserveExactly(l: Limits, b: Budget, role: Role, promptBytes: nat)
    ensures var r := ReserveStep(l, b, role, promptBytes).1;
            var left := l.maxTotal - b.used - b.reserved;
            && (r == Err(CallsExceeded) <==> match role case Task => b.taskCalls >= l.maxTask
                                                       case Reflection => b.reflectionCalls >= l.maxReflection)
            && (r == Err(BudgetExceeded) <==> r != Err(CallsExceeded) && Worst(promptBytes, 1) > left)
            && (r.Ok? ==>
                  && 1 <= r.value.outputLimit <= 512
                  && r.value.reservation == Worst(promptBytes, r.value.outputLimit) <= left
                  && forall more | r.value.outputLimit < more <= 512 :: Worst(promptBytes, more) > left)
  {
  }

  // The books of a run: calls granted by role, tokens charged, and tokens charged beyond reservations.
  datatype Books = Books(task: nat, reflection: nat, charged: int, beyond: int)

  function Booked(l: Limits, b: Budget, k: Books, e: Event): Books {
    match e
    case Reserve(role, promptBytes) =>
      if ReserveStep(l, b, role, promptBytes).1.Err? then k
      else if role == Task then k.(task := k.task + 1)
      else k.(reflection := k.reflection + 1)
    case Settle(index, actual) =>
      if index >= |b.open| then k
      else
        var charge := if actual.Some? then actual.value else b.open[index];
        var over := if charge > b.open[index] then charge - b.open[index] else 0;
        k.(charged := k.charged + charge, beyond := k.beyond + over)
  }

  function BooksAfter(l: Limits, b: Budget, k: Books, es: seq<Event>): Books
    decreases |es|
  {
    if es == [] then k else BooksAfter(l, Step(l, b, es[0]), Booked(l, b, k, es[0]), es[1..])
  }

  ghost predicate Balanced(b: Budget, k: Books) {
    b.taskCalls == k.task && b.reflectionCalls == k.reflection && b.used == k.charged && b.overrun == k.beyond
  }

  lemma {:induction false} BooksBalance(l: Limits, b: Budget, k: Books, es: seq<Event>)
    requires Balanced(b, k)
    ensures Balanced(After(l, b, es), BooksAfter(l, b, k, es))
    decreases |es|
  {
    if es != [] {
      BooksBalance(l, Step(l, b, es[0]), Booked(l, b, k, es[0]), es[1..]);
    }
  }

  /**
   Over every interleaving the counters are the books: calls granted by role, reported usage or, where none was
   reported, the reservation, and what providers used beyond their reservations.
   */
  lemma {:induction false} CountersAreTheBooks(l: Limits, es: seq<Event>)
    ensures Balanced(After(l, NEW, es), BooksAfter(l, NEW, Books(0, 0, 0, 0), es))
  {
    BooksBalance(l, NEW, Books(0, 0, 0, 0), es);
  }

  // ---------------------------------------------------------------- the provider's usage report

  datatype Field = Missing | NotAnInteger | Integer(n: int)

  // Unreadable: the usage is an object whose attributes raise when they are read.
  datatype Entry = NoUsage | Unreadable | Usage(total: Field, prompt: Field, completion: Field)

  // Failed: reading the usage raised instead of returning.
  datatype Reading = Known(total: nat) | Unknown | Failed

  function Counted(e: Entry): Option<nat> {
    match e
    case Usage(total, prompt, completion) =>
      var parts := if prompt.Integer? && completion.Integer? then Integer(prompt.n + completion.n) else Missing;
      var count := if total.Missing? then parts else total;
      if count.Integer? && count.n >= 0 then Some(count.n) else None
    case _ => None
  }

  /** The reported total, or, where there is none, the sum of both parts; never a negative count. */
  lemma CountedExactly(e: Entry, n: nat)
    ensures Counted(e) == Some(n)
            <==> e.Usage? && (e.total == Integer(n)
                              || (e.total == Missing && e.prompt.Integer? && e.completion.Integer?
                                  && e.prompt.n + e.completion.n == n))
  {
  }

  function Counts(history: seq<Entry>): seq<int>
    requires forall i | 0 <= i < |history| :: Counted(history[i]).Some?
  {
    seq(|history|, i requires 0 <= i < |history| => Counted(history[i]).value)
  }

  /** The first entry that reports no count is one that cannot be read. */
  ghost predicate FailsReading(history: seq<Entry>) {
    exists k | 0 <= k < |history| :: history[k].Unreadable? && forall i | 0 <= i < k :: Counted(history[i]).Some?
  }

  /**
   Usage is known only when every entry reports it, and there is at least one; it stops at the first that does not.
   */
  method UsageTokenCount(history: seq<Entry>) returns (r: Reading)
    ensures r.Known? <==> history != [] && forall i | 0 <= i < |history| :: Counted(history[i]).Some?
    ensures r.Known? ==> r.total == Sum(Counts(history))
    ensures r.Failed? <==> FailsReading(history)
  {
    var total: nat := 0;
    for k := 0 to |history|
      invariant forall i | 0 <= i < k :: Counted(history[i]).Some?
      invariant total == Sum(Counts(history[..k]))
    {
      if history[k].Unreadable? {
        return Failed;
      }
      var count := Counted(history[k]);
      if count.None? {
        return Unknown;
      }
      assert Counts(history[..k + 1]) == Counts(history[..k]) + [count.value];
      SumConcat(Counts(history[..k]), [count.value]);
      total := total + count.value;
    }
    assert history[..|history|] == history;
    return if history != [] then Known(total) else Unknown;
  }

  // ---------------------------------------------------------------- the shared object and a budgeted call

  // The max_tokens argument of a call: absent (or zero), a number, or something int() rejects.
  datatype MaxTokens = Unset | Tokens(n: int) | Unconvertible

  // Raises: an Exception.  Exits: anything else that unwinds the call, such as an interrupt or a cancellation.
  datatype Provider = Raises | Exits | Returns(usage: seq<Entry>)

  datatype CallResult =
    | Refused(error: BudgetError)
    | BadArgument
    | HistoryFailed
    | Interrupted
    | UsageFailed
    | ProviderFailed
    | Stopped(reason: BudgetError)
    | Answered

  /** Control leaves the call between its reservation and its settlement. */
  ghost predicate Strands(maxTokens: MaxTokens, historyReads: bool, provider: Provider) {
    || maxTokens.Unconvertible?
    || !historyReads
    || provider.Exits?
    || (provider.Returns? && FailsReading(provider.usage))
  }

  class SharedBudget {
    const limits: Limits
    var usedTokens: int
    var reservedTokens: int
    var taskCalls: int
    var reflectionCalls: int
    ghost var open: seq<int>
    ghost var overrun: int

    constructor (limits: Limits)
      ensures this.limits == limits && View() == NEW
    {
      this.limits := limits;
      usedTokens, reservedTokens, taskCalls, reflectionCalls, open, overrun := 0, 0, 0, 0, [], 0;
    }

    ghost function View(): Budget
      reads this
    {
      Budget(usedTokens, reservedTokens, taskCalls, reflectionCalls, open, overrun)
    }

    method Reserve(role: Role, promptBytes: nat) returns (r: Result<Grant, BudgetError>)
      modifies this
      ensures (View(), r) == ReserveStep(limits, old(View()), role, promptBytes)
    {
      var currentCalls := if role == Task then taskCalls else reflectionCalls;
      var callLimit := if role == Task then limits.maxTask else limits.maxReflection;
      if currentCalls >= callLimit {
        return Err(CallsExceeded);
      }
      var available := limits.maxTotal - usedTokens - reservedTokens;
      var promptBound := promptBytes + PROMPT_OVERHEAD;
      var outputLimit := Min(DEFAULT_OUTPUT, available - promptBound);
      if outputLimit < 1 {
        return Err(BudgetExceeded);
      }
      var reservation := promptBound + outputLimit;
      reservedTokens := reservedTokens + reservation;
      open := open + [reservation];
      if role == Task {
        taskCalls := taskCalls + 1;
      } else {
        reflectionCalls := reflectionCalls + 1;
      }
      return Ok(Grant(reservation, outputLimit));
    }

    method Settle(reservation: int, actual: Option<nat>, ghost index: nat) returns (error: Option<BudgetError>)
      requires index < |open| && open[index] == reservation
      modifies this
      ensures (View(), error) == SettleStep(limits, old(View()), index, actual)
    {
      reservedTokens := reservedTokens - reservation;
      var charge := if actual.None? then reservation else actual.value;
      usedTokens := usedTokens + charge;
      open := open[..index] + open[index + 1..];
      overrun := overrun + Max(0, charge - reservation);
      if actual.None? {
        return Some(UsageUnavailable);
      }
      if actual.value > reservation || usedTokens > limits.maxTotal {
        return Some(BudgetExceeded);
      }
      return None;
    }

    /**
     One proxied call with no other in between.  Its reservation stays behind exactly when max_tokens cannot be
     converted, reading the history fails, the provider call ends outside Exception, or reading the usage fails: each of
     these falls between the reservation and the only two settlements.
     */
    method Call(role: Role, promptBytes: nat, maxTokens: MaxTokens, historyReads: bool, provider: Provider)
      returns (r: CallResult, sent: int)
      requires Conserved(limits, View())
      modifies this
      ensures Conserved(limits, View())
      ensures r.Refused? ==> View() == old(View())
      ensures r.Refused? <==> ReserveStep(limits, old(View()), role, promptBytes).1.Err?
      ensures !r.Refused? ==> (old(open) < open <==> Strands(maxTokens, historyReads, provider))
      ensures !r.Refused? && !Strands(maxTokens, historyReads, provider) ==>
                open == old(open) && reservedTokens == old(reservedTokens)
      ensures !r.Refused? && Strands(maxTokens, historyReads, provider) ==> usedTokens == old(usedTokens)
      ensures r.ProviderFailed? || r.Stopped? || r.Answered? ==> sent <= 512
      ensures !r.Refused? && !r.BadArgument? ==>
                var limit := ReserveStep(limits, old(View()), role, promptBytes).1.value.outputLimit;
                sent == if maxTokens.Tokens? && maxTokens.n != 0 && maxTokens.n < limit then maxTokens.n else limit
      ensures r.Answered? ==> usedTokens <= limits.maxTotal
    {
      sent := 0;
      ghost var before := View();
      StepConserves(limits, before, Event.Reserve(role, promptBytes));
      hide Conserved, FailsReading, Counted, Sum;
      var grant := Reserve(role, promptBytes);
      assert View() == Step(limits, before, Event.Reserve(role, promptBytes));
      if grant.Err? {
        return Refused(grant.error), 0;
      }
      ghost var index := |open| - 1;
      if maxTokens.Unconvertible? {
        return BadArgument, 0;
      }
      var asked := if maxTokens.Tokens? && maxTokens.n != 0 then maxTokens.n else grant.value.outputLimit;
      sent := Min(asked, grant.value.outputLimit);
      if !historyReads {
        return HistoryFailed, sent;
      }
      var actual := Some(grant.value.reservation);
      match provider {
        case Exits =>
          return Interrupted, sent;
        case Raises =>
        case Returns(usage) =>
          var reading := UsageTokenCount(usage);
          if reading.Failed? {
            return UsageFailed, sent;
          }
          actual := if reading.Known? then Some(reading.total) else None;
      }
      ghost var reserved := View();
      StepConserves(limits, reserved, Event.Settle(index, actual));
      var error := Settle(grant.value.reservation, actual, index);
      assert View() == Step(limits, reserved, Event.Settle(index, actual));
      assert open == before.open;
      if error.Some? {
        return Stopped(error.value), sent;
      }
      return if provider.Raises? then ProviderFailed else Answered, sent;
    }
  }

  // ---------------------------------------------------------------- what stranding costs

  ghost predicate NeverSettled(es: seq<Event>, index: nat)
    decreases |es|
  {
    es == []
    || match es[0]
       case Reserve(_, _) => NeverSettled(es[1..], index)
       case Settle(i, _) => i != index && NeverSettled(es[1..], PlaceAfter(es[0], index))
  }

  // Where the reservation at index is found once an event has passed that did not settle it.
  function PlaceAfter(e: Event, index: nat): nat {
    if e.Settle? && e.index < index then index - 1 else index
  }

  lemma KeepsPlace(l: Limits, b: Budget, e: Event, index: nat)
    requires index < |b.open| && (e.Settle? ==> e.index != index)
    ensures PlaceAfter(e, index) < |Step(l, b, e).open| && Step(l, b, e).open[PlaceAfter(e, index)] == b.open[index]
  {
  }

  lemma RestIsLarge(l: Limits, b: Budget, index: nat)
    requires Conserved(l, b) && index < |b.open|
    ensures b.used + b.open[index] <= Max(0, l.maxTotal) + b.overrun
  {
    var rest := b.open[..index] + b.open[index + 1..];
    SumRemove(b.open, index);
    OpenAreLarge(rest);
    hide Sum;
    assert |rest| * (PROMPT_OVERHEAD + 1) >= 0;
  }

  /** A stranded reservation is held for good: whatever else happens, the budget stays that much smaller. */
  lemma {:induction false} StrandedForGood(l: Limits, b: Budget, es: seq<Event>, index: nat)
    requires Conserved(l, b) && index < |b.open| && NeverSettled(es, index)
    ensures After(l, b, es).used + b.open[index] <= Max(0, l.maxTotal) + After(l, b, es).overrun
    decreases |es|
  {
    if es == [] {
      RestIsLarge(l, b, index);
    } else {
      hide Conserved, Step;
      StepConserves(l, b, es[0]);
      KeepsPlace(l, b, es[0], index);
      StrandedForGood(l, Step(l, b, es[0]), es[1..], PlaceAfter(es[0], index));
    }
  }
}
