/**
 The fail-closed gate over the JUnit report of the pinned test kit (scripts/validate_a2a_tck_policy.py:156-483).

 The report is an XML tree whose texts are already matched: the requirement ids found in a failure, its
 normalised body, and what a skip body says.  The declarative reading of the gate is Acceptable.
 */
module TckGate {
  import opened Prelude
  import opened TckPolicy

  datatype Tag = TestSuites | TestSuite | TestCase | Failure | Error | Skipped | SystemOut | SystemErr | OtherTag

  datatype Count = Absent | NotAnInteger | Reported(n: int)

  // kind is the type attribute; extra tells whether any further attribute is present.
  datatype Attributes = Attributes(classname: string, name: string, message: Option<string>, kind: Option<string>,
                                   extra: bool, tests: Count, failures: Count, errors: Count, skipped: Count)

  // Located: one line naming an existing source location inside the checkout, then the reason.
  datatype SkipBody = EmptyBody | Located(reason: string) | Unrecognised

  datatype Text = Text(requirements: set<string>, body: string, skip: SkipBody)

  datatype Element = Element(tag: Tag, attributes: Attributes, text: Text, children: seq<Element>)

  datatype Status = PassedStatus | FailedStatus | ErrorStatus | SkippedStatus | InvalidStatus

  datatype Violation =
    | PriorViolation
    | WrongRoot
    | WrongTotal(found: nat)
    | Unidentified
    | DuplicateIdentity(id: Identity)
    | OutsideInventory(id: Identity)
    | UnexpectedChildren(id: Identity)
    | ConflictingMarkers(id: Identity)
    | KnownSkipped(nodeId: string)
    | SkipNotPinned(id: Identity)
    | SkipReasonDiffers(id: Identity)
    | SkipInexact(id: Identity)
    | Errored(id: Identity)
    | UnapprovedReason(nodeId: string)
    | KnownMissing(ids: set<Identity>)
    | InventoryMissing(ids: set<Identity>)
    | TooManySkips(found: nat)
    | NoSuite
    | SuiteCountWrong
    | RootCountWrong
    | ExitCodeWrong(raw: int)

  datatype Outcome = Outcome(passed: nat, failed: nat, skipped: nat, errors: nat, total: nat,
                             acceptedKnown: seq<string>, unknown: seq<Identity>, violations: seq<Violation>)
  {
    predicate Accepted() {
      violations == [] && unknown == []
    }
  }

  // The loaded policy; problems tells whether anything before the report was already a violation.
  datatype Policy = Policy(known: Exceptions, inventory: Inventory, problems: bool)

  // ---------------------------------------------------------------- reading the tree

  function Iter(e: Element, tag: Tag): seq<Element>
    decreases e, 1
  {
    (if e.tag == tag then [e] else []) + IterAll(e.children, tag)
  }

  function IterAll(es: seq<Element>, tag: Tag): seq<Element>
    decreases es, 0
  {
    if es == [] then [] else Iter(es[0], tag) + IterAll(es[1..], tag)
  }

  function FindAll(es: seq<Element>, tag: Tag): seq<Element> {
    if es == [] then [] else (if es[0].tag == tag then [es[0]] else []) + FindAll(es[1..], tag)
  }

  function Markers(c: Element, tag: Tag): seq<Element> {
    FindAll(c.children, tag)
  }

  function StatusOf(c: Element): Status {
    var failures, errors, skipped := |Markers(c, Failure)|, |Markers(c, Error)|, |Markers(c, Skipped)|;
    if failures + errors + skipped > 1 then InvalidStatus
    else if failures > 0 then FailedStatus
    else if errors > 0 then ErrorStatus
    else if skipped > 0 then SkippedStatus
    else PassedStatus
  }

  function IdOf(c: Element): Identity {
    Identity(c.attributes.classname, c.attributes.name)
  }

  predicate Named(c: Element) {
    c.attributes.classname != "" && c.attributes.name != ""
  }

  predicate ChildrenExpected(c: Element) {
    forall i | 0 <= i < |c.children| ::
      c.children[i].tag in {Failure, Error, Skipped, SystemOut, SystemErr} && c.children[i].children == []
  }

  predicate SkipExact(skip: Element, reason: string) {
    && skip.attributes.message == Some(reason)
    && !skip.attributes.extra
    && (skip.attributes.kind.Some? ==> skip.attributes.kind.value == "pytest.skip")
    && match skip.text.skip
       case EmptyBody => true
       case Located(actual) => actual == reason
       case Unrecognised => false
  }

  predicate FailureApproved(failure: Element, known: Known) {
    && failure.attributes.kind.None? && !failure.attributes.extra
    && failure.attributes.message == Some(known.signature)
    && failure.text.requirements == {known.requirement}
    && failure.text.body == known.body
  }

  // ---------------------------------------------------------------- the declarative reading

  /** A testcase the gate has nothing against, taken on its own. */
  predicate CaseFine(policy: Policy, c: Element) {
    && Named(c) && IdOf(c) in policy.inventory && ChildrenExpected(c)
    && match StatusOf(c)
       case PassedStatus => true
       case SkippedStatus =>
         && IdOf(c) !in policy.known
         && policy.inventory[IdOf(c)].Some?
         && SkipExact(Markers(c, Skipped)[0], policy.inventory[IdOf(c)].value)
       case FailedStatus => IdOf(c) in policy.known && FailureApproved(Markers(c, Failure)[0], policy.known[IdOf(c)])
       case ErrorStatus => false
       case InvalidStatus => false
  }

  function Ids(cases: seq<Element>): (r: seq<Identity>)
    ensures |r| == |cases| && forall i | 0 <= i < |cases| :: r[i] == IdOf(cases[i])
  {
    seq(|cases|, i requires 0 <= i < |cases| => IdOf(cases[i]))
  }

  function WithStatus(cases: seq<Element>, status: Status): nat {
    if cases == [] then 0
    else
      WithStatus(cases[..|cases| - 1], status)
      + if StatusOf(cases[|cases| - 1]) == status then 1 else 0
  }

  function MarkerTotal(cases: seq<Element>, tag: Tag): nat {
    if cases == [] then 0 else |Markers(cases[0], tag)| + MarkerTotal(cases[1..], tag)
  }

  predicate SuiteFine(suite: Element) {
    var cases, a := Iter(suite, TestCase), suite.attributes;
    && a.tests == Reported(|cases|)
    && a.failures == Reported(MarkerTotal(cases, Failure))
    && a.errors == Reported(MarkerTotal(cases, Error))
    && a.skipped == Reported(MarkerTotal(cases, Skipped))
  }

  predicate Agrees(count: Count, actual: int) {
    count == Absent || count == Reported(actual)
  }

  /** What an accepted run is: the whole pinned inventory, once each, with only reviewed deviations. */
  ghost predicate Acceptable(policy: Policy, root: Element, exitCode: int) {
    var cases, suites := Iter(root, TestCase), Iter(root, TestSuite);
    && !policy.problems
    && root.tag in {TestSuite, TestSuites}
    && |cases| == PINNED_TEST_CASES
    && (forall i | 0 <= i < |cases| :: CaseFine(policy, cases[i]))
    && Distinct(Ids(cases))
    && (forall id | id in policy.inventory :: id in Ids(cases))
    && (forall id | id in policy.known :: id in Ids(cases))
    && suites != []
    && (forall i | 0 <= i < |suites| :: SuiteFine(suites[i]))
    && Agrees(root.attributes.tests, |cases|)
    && Agrees(root.attributes.failures, WithStatus(cases, FailedStatus))
    && Agrees(root.attributes.errors, 0)
    && Agrees(root.attributes.skipped, WithStatus(cases, SkippedStatus))
    && exitCode == if WithStatus(cases, FailedStatus) > 0 then 1 else 0
  }

  // ---------------------------------------------------------------- the testcase pass

  datatype Tally = Tally(passed: nat, failed: nat, skipped: nat, errors: nat, acceptedKnown: seq<string>,
                         unknown: seq<Identity>, violations: seq<Violation>,
                         seen: set<Identity>, knownSeen: set<Identity>, inventorySeen: set<Identity>)
  {
    predicate Clean() {
      violations == [] && unknown == []
    }
  }

  function NodeIds(policy: Policy, cases: seq<Element>): seq<string> {
    if cases == [] then []
    else
      var c := cases[|cases| - 1];
      NodeIds(policy, cases[..|cases| - 1])
      + if StatusOf(c) == FailedStatus && IdOf(c) in policy.known then [policy.known[IdOf(c)].nodeId] else []
  }

  // What one testcase adds to the accepted known failures.
  function Excused(policy: Policy, c: Element): seq<string> {
    if StatusOf(c) == FailedStatus && IdOf(c) in policy.known then [policy.known[IdOf(c)].nodeId] else []
  }

  // As long as nothing was objected to, the sets and counters describe exactly the cases passed over.
  ghost predicate Exact(policy: Policy, cases: seq<Element>, t: Tally) {
    && t.seen == (set id | id in Ids(cases))
    && t.inventorySeen == t.seen
    && t.knownSeen == (set id | id in t.seen && id in policy.known)
    && t.passed == WithStatus(cases, PassedStatus)
    && t.failed == WithStatus(cases, FailedStatus)
    && t.skipped == WithStatus(cases, SkippedStatus)
    && t.errors == 0
    && t.acceptedKnown == NodeIds(policy, cases)
  }

  ghost predicate AllFine(policy: Policy, cases: seq<Element>) {
    (forall i | 0 <= i < |cases| :: CaseFine(policy, cases[i])) && Distinct(Ids(cases))
  }

  /** The body of the testcase loop. */
  method CheckCase(policy: Policy, c: Element, before: Tally) returns (t: Tally)
    ensures t.Clean() <==> before.Clean() && CaseFine(policy, c) && IdOf(c) !in before.seen
    ensures t.Clean() ==> var s := StatusOf(c);
                          && t.seen == before.seen + {IdOf(c)}
                          && t.inventorySeen == before.inventorySeen + {IdOf(c)}
                          && t.knownSeen == before.knownSeen + (if IdOf(c) in policy.known then {IdOf(c)} else {})
                          && t.passed == before.passed + (if s == PassedStatus then 1 else 0)
                          && t.failed == before.failed + (if s == FailedStatus then 1 else 0)
                          && t.skipped == before.skipped + (if s == SkippedStatus then 1 else 0)
                          && t.errors == before.errors
                          && t.acceptedKnown == before.acceptedKnown + Excused(policy, c)
  {
    t := before;
    var id := IdOf(c);
    if !Named(c) {
      t := t.(violations := t.violations + [Unidentified]);
      return;
    }
    if id in t.seen {
      t := t.(violations := t.violations + [DuplicateIdentity(id)]);
      return;
    }
    t := t.(seen := t.seen + {id});
    if id !in policy.inventory {
      t := t.(violations := t.violations + [OutsideInventory(id)]);
    } else {
      t := t.(inventorySeen := t.inventorySeen + {id});
    }
    if !ChildrenExpected(c) {
      t := t.(violations := t.violations + [UnexpectedChildren(id)]);
    }
    if id in policy.known {
      t := t.(knownSeen := t.knownSeen + {id});
    }
    match StatusOf(c)
    case InvalidStatus =>
      t := t.(violations := t.violations + [ConflictingMarkers(id)]);
    case PassedStatus =>
      t := t.(passed := t.passed + 1);
    case SkippedStatus =>
      t := t.(skipped := t.skipped + 1);
      if id in policy.known {
        t := t.(violations := t.violations + [KnownSkipped(policy.known[id].nodeId)]);
      }
      var expected := if id in policy.inventory then policy.inventory[id] else None;
      var skip := Markers(c, Skipped)[0];
      var actual := if skip.attributes.message.Some? then skip.attributes.message.value else "";
      if expected.None? {
        t := t.(violations := t.violations + [SkipNotPinned(id)]);
      } else if actual != expected.value {
        t := t.(violations := t.violations + [SkipReasonDiffers(id)]);
      } else if !SkipExact(skip, expected.value) {
        t := t.(violations := t.violations + [SkipInexact(id)]);
      }
    case ErrorStatus =>
      t := t.(errors := t.errors + 1, violations := t.violations + [Errored(id)]);
    case FailedStatus =>
      t := t.(failed := t.failed + 1);
      if id !in policy.known {
        t := t.(unknown := t.unknown + [id]);
        return;
      }
      if !FailureApproved(Markers(c, Failure)[0], policy.known[id]) {
        t := t.(unknown := t.unknown + [id], violations := t.violations + [UnapprovedReason(policy.known[id].nodeId)]);
        return;
      }
      t := t.(acceptedKnown := t.acceptedKnown + [policy.known[id].nodeId]);
  }

  lemma IdsConcat(cases: seq<Element>, c: Element)
    ensures Ids(cases + [c]) == Ids(cases) + [IdOf(c)]
  {
  }

  lemma ExactStep(policy: Policy, cases: seq<Element>, c: Element, before: Tally, t: Tally)
    requires Exact(policy, cases, before)
    requires var s := StatusOf(c);
             && t.seen == before.seen + {IdOf(c)}
             && t.inventorySeen == before.inventorySeen + {IdOf(c)}
             && t.knownSeen == before.knownSeen + (if IdOf(c) in policy.known then {IdOf(c)} else {})
             && t.passed == before.passed + (if s == PassedStatus then 1 else 0)
             && t.failed == before.failed + (if s == FailedStatus then 1 else 0)
             && t.skipped == before.skipped + (if s == SkippedStatus then 1 else 0)
             && t.errors == before.errors
             && t.acceptedKnown == before.acceptedKnown + Excused(policy, c)
    ensures Exact(policy, cases + [c], t)
  {
    hide StatusOf, Excused, WithStatus, NodeIds, Ids;
    IdsStep(cases, c);
    CountStep(cases, c, PassedStatus);
    CountStep(cases, c, FailedStatus);
    CountStep(cases, c, SkippedStatus);
    NodeIdsStep(policy, cases, c);
  }

  lemma IdsStep(cases: seq<Element>, c: Element)
    ensures forall id :: id in Ids(cases + [c]) <==> id in Ids(cases) || id == IdOf(c)
  {
    IdsConcat(cases, c);
    var ids := Ids(cases);
    assert (ids + [IdOf(c)])[|ids|] == IdOf(c);
    forall id | id in ids
      ensures id in ids + [IdOf(c)]
    {
    }
  }

  lemma CountStep(cases: seq<Element>, c: Element, status: Status)
    ensures WithStatus(cases + [c], status) == WithStatus(cases, status) + if StatusOf(c) == status then 1 else 0
  {
    hide StatusOf;
    assert (cases + [c])[..|cases|] == cases;
  }

  lemma NodeIdsStep(policy: Policy, cases: seq<Element>, c: Element)
    ensures NodeIds(policy, cases + [c]) == NodeIds(policy, cases) + Excused(policy, c)
  {
    hide StatusOf;
    assert (cases + [c])[..|cases|] == cases;
  }

  lemma AllFineStep(policy: Policy, cases: seq<Element>, c: Element)
    ensures AllFine(policy, cases + [c]) <==> AllFine(policy, cases) && CaseFine(policy, c) && IdOf(c) !in Ids(cases)
  {
    hide CaseFine;
    IdsConcat(cases, c);
    var all, ids := cases + [c], Ids(cases);
    assert all[|cases|] == c;
    assert forall i | 0 <= i < |cases| :: all[i] == cases[i];
    assert forall i | 0 <= i < |cases| :: (ids + [IdOf(c)])[i] == ids[i];
    assert (ids + [IdOf(c)])[|ids|] == IdOf(c);
    if AllFine(policy, all) {
      assert forall i, j | 0 <= i < j < |ids| :: (ids + [IdOf(c)])[i] != (ids + [IdOf(c)])[j];
    }
  }

  /** One pass over all testcases: nothing is objected to exactly when every case is fine and no identity repeats. */
  method CheckCases(policy: Policy, cases: seq<Element>, prior: seq<Violation>) returns (t: Tally)
    ensures t.Clean() <==> prior == [] && AllFine(policy, cases)
    ensures t.Clean() ==> Exact(policy, cases, t)
  {
    t := Tally(0, 0, 0, 0, [], [], prior, {}, {}, {});
    assert AllFine(policy, cases[..0]) && Exact(policy, cases[..0], t);
    hide AllFine, Exact, CaseFine;
    for k := 0 to |cases|
      invariant t.Clean() <==> prior == [] && AllFine(policy, cases[..k])
      invariant t.Clean() ==> Exact(policy, cases[..k], t)
    {
      assert cases[..k + 1] == cases[..k] + [cases[k]];
      var before := t;
      t := CheckCase(policy, cases[k], before);
      AllFineStep(policy, cases[..k], cases[k]);
      if before.Clean() {
        ExactSeen(policy, cases[..k], before);
      }
      if t.Clean() {
        ExactStep(policy, cases[..k], cases[k], before, t);
      }
    }
    assert cases[..|cases|] == cases;
  }

  lemma ExactSeen(policy: Policy, cases: seq<Element>, t: Tally)
    requires Exact(policy, cases, t)
    ensures forall id :: id in t.seen <==> id in Ids(cases)
  {
  }

  // ---------------------------------------------------------------- suites and totals

  method CheckSuites(suites: seq<Element>, prior: seq<Violation>) returns (violations: seq<Violation>)
    ensures violations == [] <==> prior == [] && suites != [] && forall i | 0 <= i < |suites| :: SuiteFine(suites[i])
  {
    violations := if suites == [] then prior + [NoSuite] else prior;
    for k := 0 to |suites|
      invariant violations == [] <==> prior == [] && suites != [] && forall i | 0 <= i < k :: SuiteFine(suites[i])
    {
      var cases, a := Iter(suites[k], TestCase), suites[k].attributes;
      if a.tests != Reported(|cases|) {
        violations := violations + [SuiteCountWrong];
      }
      if a.failures != Reported(MarkerTotal(cases, Failure)) {
        violations := violations + [SuiteCountWrong];
      }
      if a.errors != Reported(MarkerTotal(cases, Error)) {
        violations := violations + [SuiteCountWrong];
      }
      if a.skipped != Reported(MarkerTotal(cases, Skipped)) {
        violations := violations + [SuiteCountWrong];
      }
    }
  }

  // ---------------------------------------------------------------- the whole gate

  // What loading the policy guarantees when it reports no problem.
  ghost predicate PolicyLoaded(policy: Policy) {
    !policy.problems ==> |policy.inventory| == PINNED_TEST_CASES && |SkipSet(policy.inventory)| == PINNED_SKIPPED
  }

  /** Each accepted skip uses up one expected skip, so their number needs no separate test. */
  lemma {:induction false} SkipsWithinSet(policy: Policy, cases: seq<Element>)
    requires AllFine(policy, cases)
    ensures WithStatus(cases, SkippedStatus) <= |SkipSet(policy.inventory)|
  {
    SkippedIdsCount(policy, cases);
    SubsetSize(SkippedIds(cases), SkipSet(policy.inventory));
  }

  function SkippedIds(cases: seq<Element>): set<Identity> {
    set i | 0 <= i < |cases| && StatusOf(cases[i]) == SkippedStatus :: IdOf(cases[i])
  }

  lemma {:induction false} SkippedIdsCount(policy: Policy, cases: seq<Element>)
    requires AllFine(policy, cases)
    ensures |SkippedIds(cases)| == WithStatus(cases, SkippedStatus)
    ensures SkippedIds(cases) <= SkipSet(policy.inventory)
  {
    if cases == [] {
      assert SkippedIds(cases) == {};
    } else {
      var k := |cases| - 1;
      var c := cases[k];
      assert cases == cases[..k] + [c];
      AllFineStep(policy, cases[..k], c);
      SkippedIdsCount(policy, cases[..k]);
      SkippedIdsStep(cases[..k], c);
    }
  }

  lemma SkippedIdsStep(cases: seq<Element>, c: Element)
    requires IdOf(c) !in Ids(cases)
    ensures IdOf(c) !in SkippedIds(cases)
    ensures SkippedIds(cases + [c]) == SkippedIds(cases) + if StatusOf(c) == SkippedStatus then {IdOf(c)} else {}
  {
    hide StatusOf;
    var all := cases + [c];
    assert all[|cases|] == c;
    assert forall i | 0 <= i < |cases| :: all[i] == cases[i];
    forall i | 0 <= i < |cases|
      ensures IdOf(cases[i]) != IdOf(c)
    {
      assert Ids(cases)[i] == IdOf(cases[i]);
    }
  }

  method EvaluateReport(policy: Policy, root: Element, exitCode: int) returns (o: Outcome)
    requires PolicyLoaded(policy)
    ensures o.Accepted() <==> Acceptable(policy, root, exitCode)
    ensures o.Accepted() ==> var cases := Iter(root, TestCase);
                             && o.total == PINNED_TEST_CASES
                             && o.passed == WithStatus(cases, PassedStatus)
                             && o.failed == WithStatus(cases, FailedStatus)
                             && o.skipped == WithStatus(cases, SkippedStatus)
                             && o.errors == 0
                             && o.acceptedKnown == NodeIds(policy, cases)
  {
    hide CaseFine, SuiteFine, StatusOf, Iter;
    var violations := if policy.problems then [PriorViolation] else [];
    if root.tag !in {TestSuite, TestSuites} {
      violations := violations + [WrongRoot];
    }
    var cases := Iter(root, TestCase);
    var total := |cases|;
    if total != PINNED_TEST_CASES {
      violations := violations + [WrongTotal(total)];
    }
    ghost var headFine := violations == [];
    var t := CheckCases(policy, cases, violations);
    violations := t.violations;
    violations := CheckMissing(policy, cases, t, headFine);
    var suites := Iter(root, TestSuite);
    violations := CheckSuites(suites, violations);
    violations := CheckTotals(root.attributes, total, t, violations);
    var expectedExit := if t.failed > 0 || t.errors > 0 then 1 else 0;
    if exitCode != expectedExit {
      violations := violations + [ExitCodeWrong(exitCode)];
    }
    o := Outcome(t.passed, t.failed, t.skipped, t.errors, total, t.acceptedKnown, t.unknown, violations);
  }

  method CheckMissing(policy: Policy, cases: seq<Element>, t: Tally, ghost headFine: bool)
    returns (violations: seq<Violation>)
    requires headFine ==> !policy.problems && PolicyLoaded(policy)
    requires t.Clean() <==> headFine && AllFine(policy, cases)
    requires t.Clean() ==> Exact(policy, cases, t)
    ensures violations == [] && t.unknown == [] <==>
              && headFine && AllFine(policy, cases)
              && (forall id | id in policy.inventory :: id in Ids(cases))
              && (forall id | id in policy.known :: id in Ids(cases))
  {
    violations := t.violations;
    hide AllFine;
    if t.Clean() {
      SkipsWithinSet(policy, cases);
      ExactSeen(policy, cases, t);
    }
    var missingKnown := policy.known.Keys - t.knownSeen;
    NothingMissing(policy.known.Keys, t.knownSeen);
    if missingKnown != {} {
      violations := violations + [KnownMissing(missingKnown)];
    }
    var missingInventory := policy.inventory.Keys - t.inventorySeen;
    NothingMissing(policy.inventory.Keys, t.inventorySeen);
    if missingInventory != {} {
      violations := violations + [InventoryMissing(missingInventory)];
    }
    if t.skipped > PINNED_SKIPPED {
      violations := violations + [TooManySkips(t.skipped)];
    }
  }

  method CheckTotals(a: Attributes, total: nat, t: Tally, prior: seq<Violation>) returns (violations: seq<Violation>)
    ensures violations == [] <==>
              && prior == []
              && Agrees(a.tests, total) && Agrees(a.failures, t.failed)
              && Agrees(a.errors, t.errors) && Agrees(a.skipped, t.skipped)
  {
    violations := prior;
    if !Agrees(a.tests, total) {
      violations := violations + [RootCountWrong];
    }
    if !Agrees(a.failures, t.failed) {
      violations := violations + [RootCountWrong];
    }
    if !Agrees(a.errors, t.errors) {
      violations := violations + [RootCountWrong];
    }
    if !Agrees(a.skipped, t.skipped) {
      violations := violations + [RootCountWrong];
    }
  }

  /**
   Policy and report together.  header stands for the flat checks before the inventories and for the state of the
   checkout; an accepted run is read against exactly the reviewed exceptions and exactly the pinned inventory.
   */
  method ValidateRun(header: bool, issues: map<string, string>, rawKnown: seq<RawKnown>, rawCases: seq<RawCase>,
                     digest: Inventory -> string, declared: Declared, root: Element, exitCode: int)
    returns (o: Outcome, policy: Policy)
    ensures o.Accepted() <==>
              && header
              && |rawKnown| == REVIEWED_EXCEPTIONS && ExceptionsFine(rawKnown, issues)
              && |rawCases| == PINNED_TEST_CASES && CasesFine(rawCases)
              && digest(policy.inventory) == PINNED_DIGEST && declared.digest == Some(PINNED_DIGEST)
              && |SkipSet(policy.inventory)| == PINNED_SKIPPED == declared.skips && declared.evidence
              && Acceptable(policy, root, exitCode)
    ensures o.Accepted() ==> Indexes(policy.known, rawKnown) && Listed(policy.inventory, rawCases)
  {
    hide ExceptionsFine, CasesFine, Indexes, Listed;
    var known, knownProblems := PolicyCases(rawKnown, issues);
    var inventory, caseProblems := PolicyTestCases(rawCases, digest, declared);
    policy := Policy(known, inventory, !header || knownProblems != [] || caseProblems != []);
    o := EvaluateReport(policy, root, exitCode);
    OnlyWithoutProblems(policy, root, exitCode);
  }

  lemma OnlyWithoutProblems(policy: Policy, root: Element, exitCode: int)
    ensures Acceptable(policy, root, exitCode) ==> !policy.problems
  {
  }

  // ---------------------------------------------------------------- what acceptance implies

  lemma {:induction false} StatusesPartition(policy: Policy, cases: seq<Element>)
    requires forall i | 0 <= i < |cases| :: CaseFine(policy, cases[i])
    ensures WithStatus(cases, PassedStatus) + WithStatus(cases, FailedStatus) + WithStatus(cases, SkippedStatus)
            == |cases|
    ensures |NodeIds(policy, cases)| == WithStatus(cases, FailedStatus)
  {
    hide StatusOf;
    if cases != [] {
      StatusesPartition(policy, cases[..|cases| - 1]);
      assert CaseFine(policy, cases[|cases| - 1]);
    }
  }

  /**
   An accepted run executed each pinned testcase exactly once: the identities are the inventory's, the
   three counters add up to the pinned total, every failure is one reviewed exception, and no reviewed
   exception was skipped.
   */
  lemma AcceptedMeans(policy: Policy, root: Element, exitCode: int)
    requires PolicyLoaded(policy) && Acceptable(policy, root, exitCode)
    ensures var cases := Iter(root, TestCase);
            && (set id | id in Ids(cases)) == policy.inventory.Keys
            && policy.known.Keys <= policy.inventory.Keys
            && WithStatus(cases, PassedStatus) + WithStatus(cases, FailedStatus) + WithStatus(cases, SkippedStatus)
               == PINNED_TEST_CASES
            && |NodeIds(policy, cases)| == WithStatus(cases, FailedStatus)
            && WithStatus(cases, SkippedStatus) <= PINNED_SKIPPED
            && (forall i | 0 <= i < |cases| && IdOf(cases[i]) in policy.known ::
                 StatusOf(cases[i]) in {PassedStatus, FailedStatus})
  {
    hide CaseFine, StatusOf, Iter, SuiteFine;
    var cases := Iter(root, TestCase);
    StatusesPartition(policy, cases);
    SkipsWithinSet(policy, cases);
    IdsAreInventory(policy, cases);
    forall i | 0 <= i < |cases| && IdOf(cases[i]) in policy.known
      ensures StatusOf(cases[i]) in {PassedStatus, FailedStatus}
    {
      assert CaseFine(policy, cases[i]);
      KnownRan(policy, cases[i]);
    }
  }

  lemma KnownRan(policy: Policy, c: Element)
    requires CaseFine(policy, c) && IdOf(c) in policy.known
    ensures StatusOf(c) in {PassedStatus, FailedStatus}
  {
  }

  lemma IdsAreInventory(policy: Policy, cases: seq<Element>)
    requires forall i | 0 <= i < |cases| :: CaseFine(policy, cases[i])
    requires forall id | id in policy.inventory :: id in Ids(cases)
    ensures (set id | id in Ids(cases)) == policy.inventory.Keys
  {
    forall id | id in Ids(cases)
      ensures id in policy.inventory
    {
      var i :| 0 <= i < |cases| && Ids(cases)[i] == id;
      assert CaseFine(policy, cases[i]);
    }
  }

  /** On an accepted report the element counts of any suite are counts of testcases. */
  lemma {:induction false} MarkersAreStatuses(policy: Policy, cases: seq<Element>)
    requires forall i | 0 <= i < |cases| :: CaseFine(policy, cases[i])
    ensures MarkerTotal(cases, Failure) == WithStatus(cases, FailedStatus)
    ensures MarkerTotal(cases, Skipped) == WithStatus(cases, SkippedStatus)
    ensures MarkerTotal(cases, Error) == 0
  {
    if cases != [] {
      var k := |cases| - 1;
      MarkersAreStatuses(policy, cases[..k]);
      assert CaseFine(policy, cases[k]);
      MarkerLast(cases, Failure);
      MarkerLast(cases, Skipped);
      MarkerLast(cases, Error);
    }
  }

  lemma {:induction false} MarkerLast(cases: seq<Element>, tag: Tag)
    requires cases != []
    ensures MarkerTotal(cases, tag) == MarkerTotal(cases[..|cases| - 1], tag) + |Markers(cases[|cases| - 1], tag)|
  {
    if |cases| > 1 {
      MarkerLast(cases[1..], tag);
      assert cases[1..][..|cases| - 2] == cases[..|cases| - 1][1..];
    }
  }
}
