/**
 What the gate finds in a report tree (scripts/validate_a2a_tck_policy.py:348, 436-445), told by places: the child
 indexes on the way from the root to an element.
 */
module TckTree {
  import opened Prelude
  import opened TckGate
  import opened TckPolicy

  type Place = seq<nat>

  /** The element at a place, if there is one. */
  function ElementAt(e: Element, p: Place): Option<Element>
    decreases |p|
  {
    if p == [] then Some(e)
    else if p[0] < |e.children| then ElementAt(e.children[p[0]], p[1..])
    else None
  }

  // The same below a list of siblings.
  function Below(es: seq<Element>, p: Place): Option<Element> {
    if p == [] || p[0] >= |es| then None else ElementAt(es[p[0]], p[1..])
  }

  /** Document order: an element comes before what it contains, and before its later siblings. */
  predicate Before(p: Place, q: Place) {
    if p == [] then q != []
    else q != [] && (p[0] < q[0] || (p[0] == q[0] && Before(p[1..], q[1..])))
  }

  predicate Tagged(found: Option<Element>, tag: Tag) {
    found.Some? && found.value.tag == tag
  }

  ghost predicate InOrder(places: seq<Place>) {
    forall i, j | 0 <= i < j < |places| :: Before(places[i], places[j])
  }

  // listed holds, place by place, the elements with the tag in and below e, each once, in document order.
  ghost predicate Lists(e: Element, tag: Tag, places: seq<Place>, listed: seq<Element>) {
    && |places| == |listed| && InOrder(places)
    && (forall i | 0 <= i < |places| :: ElementAt(e, places[i]) == Some(listed[i]) && listed[i].tag == tag)
    && (forall p | Tagged(ElementAt(e, p), tag) :: p in places)
  }

  ghost predicate ListsBelow(es: seq<Element>, tag: Tag, places: seq<Place>, listed: seq<Element>) {
    && |places| == |listed| && InOrder(places)
    && (forall i | 0 <= i < |places| :: Below(es, places[i]) == Some(listed[i]) && listed[i].tag == tag)
    && (forall p | Tagged(Below(es, p), tag) :: p in places)
  }

  // Places under the first sibling, and places among the later ones.
  function InFirst(places: seq<Place>): (r: seq<Place>)
    ensures |r| == |places| && forall i | 0 <= i < |r| :: r[i] == [0] + places[i]
  {
    seq(|places|, i requires 0 <= i < |places| => [0] + places[i])
  }

  function InLater(places: seq<Place>): (r: seq<Place>)
    requires forall i | 0 <= i < |places| :: places[i] != []
    ensures |r| == |places| && forall i | 0 <= i < |r| :: r[i] == [places[i][0] + 1] + places[i][1..]
  {
    seq(|places|, i requires 0 <= i < |places| => [places[i][0] + 1] + places[i][1..])
  }

  lemma BelowFirst(es: seq<Element>, p: Place)
    requires es != []
    ensures Below(es, [0] + p) == ElementAt(es[0], p)
  {
    assert ([0] + p)[1..] == p;
  }

  lemma BelowLater(es: seq<Element>, p: Place)
    requires es != [] && p != []
    ensures Below(es, [p[0] + 1] + p[1..]) == Below(es[1..], p)
  {
    assert ([p[0] + 1] + p[1..])[1..] == p[1..];
  }

  lemma NonEmptyPlaces(es: seq<Element>, tag: Tag, places: seq<Place>, listed: seq<Element>)
    requires ListsBelow(es, tag, places, listed)
    ensures forall i | 0 <= i < |places| :: places[i] != []
  {
    forall i | 0 <= i < |places|
      ensures places[i] != []
    {
      assert Below(es, places[i]) == Some(listed[i]);
    }
  }

  lemma FirstInOrder(places: seq<Place>)
    requires InOrder(places)
    ensures InOrder(InFirst(places))
  {
    var r := InFirst(places);
    forall i, j | 0 <= i < j < |r|
      ensures Before(r[i], r[j])
    {
      assert r[i][1..] == places[i] && r[j][1..] == places[j];
    }
  }

  lemma LaterInOrder(places: seq<Place>)
    requires InOrder(places) && forall i | 0 <= i < |places| :: places[i] != []
    ensures InOrder(InLater(places))
  {
    var r := InLater(places);
    forall i, j | 0 <= i < j < |r|
      ensures Before(r[i], r[j])
    {
      assert Before(places[i], places[j]);
      assert r[i][1..] == places[i][1..] && r[j][1..] == places[j][1..];
    }
  }

  lemma SiblingsInOrder(first: seq<Place>, later: seq<Place>)
    requires InOrder(first) && InOrder(later) && forall i | 0 <= i < |later| :: later[i] != []
    ensures InOrder(InFirst(first) + InLater(later))
  {
    FirstInOrder(first);
    LaterInOrder(later);
    var a, b := InFirst(first), InLater(later);
    forall i, j | 0 <= i < j < |a + b|
      ensures Before((a + b)[i], (a + b)[j])
    {
      if i < |a| <= j {
        assert (a + b)[i] == a[i] && (a + b)[j] == b[j - |a|];
      }
    }
  }

  lemma SiblingListed(es: seq<Element>, tag: Tag, first: seq<Place>, a: seq<Element>, later: seq<Place>,
                      b: seq<Element>, i: nat)
    requires es != [] && Lists(es[0], tag, first, a) && ListsBelow(es[1..], tag, later, b)
    requires (forall j | 0 <= j < |later| :: later[j] != []) && i < |first| + |later|
    ensures Below(es, (InFirst(first) + InLater(later))[i]) == Some((a + b)[i]) && (a + b)[i].tag == tag
  {
    hide InOrder, Below, ElementAt;
    if i < |first| {
      BelowFirst(es, first[i]);
    } else {
      BelowLater(es, later[i - |first|]);
    }
  }

  lemma Siblings(es: seq<Element>, tag: Tag, first: seq<Place>, a: seq<Element>, later: seq<Place>, b: seq<Element>)
    requires es != [] && Lists(es[0], tag, first, a) && ListsBelow(es[1..], tag, later, b)
    requires forall i | 0 <= i < |later| :: later[i] != []
    ensures ListsBelow(es, tag, InFirst(first) + InLater(later), a + b)
  {
    var places, listed := InFirst(first) + InLater(later), a + b;
    SiblingsInOrder(first, later);
    hide InOrder, Below, ElementAt;
    forall i | 0 <= i < |places|
      ensures Below(es, places[i]) == Some(listed[i]) && listed[i].tag == tag
    {
      SiblingListed(es, tag, first, a, later, b, i);
    }
    forall p | Tagged(Below(es, p), tag)
      ensures p in places
    {
      SiblingFound(es, tag, first, a, later, b, p);
    }
  }

  lemma SiblingFound(es: seq<Element>, tag: Tag, first: seq<Place>, a: seq<Element>, later: seq<Place>, b: seq<Element>,
                     p: Place)
    requires es != [] && Lists(es[0], tag, first, a) && ListsBelow(es[1..], tag, later, b)
    requires forall i | 0 <= i < |later| :: later[i] != []
    requires Tagged(Below(es, p), tag)
    ensures p in InFirst(first) + InLater(later)
  {
    hide InOrder, ElementAt;
    if p[0] == 0 {
      assert p == [0] + p[1..];
      BelowFirst(es, p[1..]);
      var i :| 0 <= i < |first| && first[i] == p[1..];
      assert InFirst(first)[i] == p;
    } else {
      var q := [p[0] - 1] + p[1..];
      assert q[0] == p[0] - 1 && q[1..] == p[1..] && p == [q[0] + 1] + q[1..];
      BelowLater(es, q);
      var i :| 0 <= i < |later| && later[i] == q;
      assert InLater(later)[i] == p;
    }
  }

  lemma AtOrBelow(e: Element, p: Place)
    ensures ElementAt(e, p) == if p == [] then Some(e) else Below(e.children, p)
  {
  }

  lemma WholeOrder(below: seq<Place>)
    requires InOrder(below) && forall i | 0 <= i < |below| :: below[i] != []
    ensures InOrder([[]] + below)
  {
  }

  lemma UntaggedRoot(e: Element, tag: Tag, below: seq<Place>, listed: seq<Element>)
    requires ListsBelow(e.children, tag, below, listed) && e.tag != tag
    requires forall i | 0 <= i < |below| :: below[i] != []
    ensures Lists(e, tag, below, listed)
  {
    hide InOrder, Below, ElementAt;
    forall p: Place
      ensures ElementAt(e, p) == if p == [] then Some(e) else Below(e.children, p)
    {
      AtOrBelow(e, p);
    }
  }

  lemma TaggedRoot(e: Element, tag: Tag, below: seq<Place>, listed: seq<Element>)
    requires ListsBelow(e.children, tag, below, listed) && e.tag == tag
    requires forall i | 0 <= i < |below| :: below[i] != []
    ensures Lists(e, tag, [[]] + below, [e] + listed)
  {
    var places, all := [[]] + below, [e] + listed;
    WholeOrder(below);
    hide InOrder, Below, ElementAt;
    forall i | 0 <= i < |places|
      ensures ElementAt(e, places[i]) == Some(all[i]) && all[i].tag == tag
    {
      AtOrBelow(e, places[i]);
    }
    forall p | Tagged(ElementAt(e, p), tag)
      ensures p in places
    {
      AtOrBelow(e, p);
      assert places[0] == [];
      assert p != [] ==> p in below;
    }
  }

  /** root.iter(tag): every element with the tag, however deep, once for each place it has, in document order. */
  lemma {:induction false} IterLists(e: Element, tag: Tag) returns (places: seq<Place>)
    ensures Lists(e, tag, places, Iter(e, tag))
    decreases e, 1
  {
    hide Lists;
    var below := IterAllLists(e.children, tag);
    NonEmptyPlaces(e.children, tag, below, IterAll(e.children, tag));
    if e.tag == tag {
      TaggedRoot(e, tag, below, IterAll(e.children, tag));
      places := [[]] + below;
    } else {
      UntaggedRoot(e, tag, below, IterAll(e.children, tag));
      assert [] + IterAll(e.children, tag) == IterAll(e.children, tag);
      places := below;
    }
  }

  lemma {:induction false} IterAllLists(es: seq<Element>, tag: Tag) returns (places: seq<Place>)
    ensures ListsBelow(es, tag, places, IterAll(es, tag))
    decreases es, 0
  {
    if es == [] {
      places := [];
    } else {
      var first := IterLists(es[0], tag);
      var later := IterAllLists(es[1..], tag);
      NonEmptyPlaces(es[1..], tag, later, IterAll(es[1..], tag));
      hide Lists, ListsBelow;
      Siblings(es, tag, first, Iter(es[0], tag), later, IterAll(es[1..], tag));
      places := InFirst(first) + InLater(later);
    }
  }

  // ---------------------------------------------------------------- reports of the ordinary shape

  // A testcase as the test runner writes it: no testcase inside.
  predicate Leaf(c: Element) {
    && c.tag == TestCase
    && forall i | 0 <= i < |c.children| :: c.children[i].tag != TestCase && c.children[i].children == []
  }

  predicate FlatSuite(s: Element) {
    s.tag == TestSuite && forall i | 0 <= i < |s.children| :: Leaf(s.children[i])
  }

  function AllCases(suites: seq<Element>): seq<Element> {
    if suites == [] then [] else suites[0].children + AllCases(suites[1..])
  }

  lemma {:induction false} NoneBelow(es: seq<Element>, tag: Tag)
    requires forall i | 0 <= i < |es| :: es[i].tag != tag && es[i].children == []
    ensures IterAll(es, tag) == []
  {
    if es != [] {
      NoneBelow(es[1..], tag);
    }
  }

  lemma {:induction false} LeavesListed(es: seq<Element>)
    requires forall i | 0 <= i < |es| :: Leaf(es[i])
    ensures IterAll(es, TestCase) == es
  {
    if es != [] {
      LeavesListed(es[1..]);
      NoneBelow(es[0].children, TestCase);
      assert es == [es[0]] + es[1..];
    }
  }

  lemma {:induction false} SuitesListed(suites: seq<Element>)
    requires forall i | 0 <= i < |suites| :: FlatSuite(suites[i])
    ensures IterAll(suites, TestCase) == AllCases(suites)
  {
    if suites != [] {
      SuitesListed(suites[1..]);
      LeavesListed(suites[0].children);
      assert [] + suites[0].children == suites[0].children;
    }
  }

  /** In a report of suites of testcases the gate finds the testcases of all suites, one suite after the other. */
  lemma OrdinaryReport(root: Element)
    requires root.tag == TestSuites && forall i | 0 <= i < |root.children| :: FlatSuite(root.children[i])
    ensures Iter(root, TestCase) == AllCases(root.children)
  {
    SuitesListed(root.children);
    assert [] + AllCases(root.children) == AllCases(root.children);
  }

  // ---------------------------------------------------------------- one testcase, read off its children

  predicate Marks(e: Element) {
    e.tag == Failure || e.tag == Error || e.tag == Skipped
  }

  ghost predicate Unmarked(c: Element) {
    forall j | 0 <= j < |c.children| :: !Marks(c.children[j])
  }

  ghost predicate OnlyMark(c: Element, k: nat, tag: Tag) {
    && k < |c.children| && c.children[k].tag == tag
    && forall j | 0 <= j < |c.children| && j != k :: !Marks(c.children[j])
  }

  // A skip that shows the pinned reason in its message, is of no other type and repeats no other reason in its body.
  predicate PinnedSkip(skip: Element, reason: string) {
    && skip.attributes.message == Some(reason)
    && (skip.attributes.kind == None || skip.attributes.kind == Some("pytest.skip"))
    && !skip.attributes.extra
    && (skip.text.skip == EmptyBody || skip.text.skip == Located(reason))
  }

  // A failure that carries the recorded signature as its only attribute, names the one requirement, and has the body.
  predicate RecordedFailure(failure: Element, known: Known) {
    && failure.attributes.message == Some(known.signature)
    && failure.attributes.kind == None && !failure.attributes.extra
    && failure.text.body == known.body
    && failure.text.requirements == {known.requirement}
  }

  ghost predicate SkippedAsPinned(policy: Policy, c: Element, k: nat) {
    && OnlyMark(c, k, Skipped)
    && IdOf(c) !in policy.known
    && IdOf(c) in policy.inventory && policy.inventory[IdOf(c)].Some?
    && PinnedSkip(c.children[k], policy.inventory[IdOf(c)].value)
  }

  ghost predicate FailedAsRecorded(policy: Policy, c: Element, k: nat) {
    && OnlyMark(c, k, Failure)
    && IdOf(c) in policy.known
    && RecordedFailure(c.children[k], policy.known[IdOf(c)])
  }

  // What every testcase must be, whatever its result.
  ghost predicate WellPlaced(policy: Policy, c: Element) {
    && c.attributes.classname != "" && c.attributes.name != ""
    && Identity(c.attributes.classname, c.attributes.name) in policy.inventory
    && forall j | 0 <= j < |c.children| ::
         && c.children[j].children == []
         && (Marks(c.children[j]) || c.children[j].tag == SystemOut || c.children[j].tag == SystemErr)
  }

  lemma {:induction false} NoneFound(es: seq<Element>, tag: Tag)
    ensures |FindAll(es, tag)| == 0 <==> forall j | 0 <= j < |es| :: es[j].tag != tag
  {
    if es != [] {
      NoneFound(es[1..], tag);
      assert forall j | 0 <= j < |es| :: es[j] == if j == 0 then es[0] else es[1..][j - 1];
    }
  }

  lemma {:induction false} OneFound(es: seq<Element>, k: nat, tag: Tag)
    requires k < |es| && es[k].tag == tag && forall j | 0 <= j < |es| && j != k :: es[j].tag != tag
    ensures FindAll(es, tag) == [es[k]]
  {
    if k == 0 {
      NoneFound(es[1..], tag);
    } else {
      OneFound(es[1..], k - 1, tag);
    }
  }

  lemma {:induction false} FoundOne(es: seq<Element>, tag: Tag) returns (k: nat)
    requires |FindAll(es, tag)| == 1
    ensures k < |es| && es[k].tag == tag && forall j | 0 <= j < |es| && j != k :: es[j].tag != tag
  {
    if es[0].tag == tag {
      k := 0;
      NoneFound(es[1..], tag);
      assert forall j | 1 <= j < |es| :: es[j] == es[1..][j - 1];
    } else {
      k := FoundOne(es[1..], tag);
      assert forall j | 1 <= j < |es| :: es[j] == es[1..][j - 1];
      k := k + 1;
    }
  }

  lemma OnlyMarkStatus(c: Element, k: nat, tag: Tag)
    requires OnlyMark(c, k, tag) && (tag == Failure || tag == Error || tag == Skipped)
    ensures StatusOf(c) == if tag == Failure then FailedStatus else if tag == Error then ErrorStatus else SkippedStatus
    ensures Markers(c, tag) == [c.children[k]]
  {
    OneFound(c.children, k, tag);
    NoneFound(c.children, Failure);
    NoneFound(c.children, Error);
    NoneFound(c.children, Skipped);
    hide FindAll;
  }

  lemma UnmarkedStatus(c: Element)
    ensures StatusOf(c) == PassedStatus <==> Unmarked(c)
  {
    NoneFound(c.children, Failure);
    NoneFound(c.children, Error);
    NoneFound(c.children, Skipped);
    hide FindAll;
  }

  lemma StatusMark(c: Element, tag: Tag) returns (k: nat)
    requires (StatusOf(c) == FailedStatus && tag == Failure) || (StatusOf(c) == SkippedStatus && tag == Skipped)
    ensures OnlyMark(c, k, tag)
  {
    k := FoundOne(c.children, tag);
    NoneFound(c.children, Failure);
    NoneFound(c.children, Error);
    NoneFound(c.children, Skipped);
    hide FindAll;
  }

  lemma CommonPart(policy: Policy, c: Element)
    ensures WellPlaced(policy, c) <==> Named(c) && IdOf(c) in policy.inventory && ChildrenExpected(c)
  {
  }

  lemma SkippedPart(policy: Policy, c: Element)
    requires IdOf(c) in policy.inventory
    ensures StatusOf(c) == SkippedStatus
            ==> (CaseSkipped(policy, c) <==> exists k :: SkippedAsPinned(policy, c, k))
    ensures (exists k :: SkippedAsPinned(policy, c, k)) ==> StatusOf(c) == SkippedStatus
  {
    hide StatusOf, Markers;
    if StatusOf(c) == SkippedStatus {
      var k := StatusMark(c, Skipped);
      OnlyMarkStatus(c, k, Skipped);
      SameSkip(c.children[k], if policy.inventory[IdOf(c)].Some? then policy.inventory[IdOf(c)].value else "");
      hide SkipExact, PinnedSkip;
      forall j | OnlyMark(c, j, Skipped)
        ensures j == k
      {
      }
      assert CaseSkipped(policy, c) ==> SkippedAsPinned(policy, c, k);
    } else if exists k :: SkippedAsPinned(policy, c, k) {
      var k :| SkippedAsPinned(policy, c, k);
      OnlyMarkStatus(c, k, Skipped);
    }
  }

  lemma FailedPart(policy: Policy, c: Element)
    ensures StatusOf(c) == FailedStatus
            ==> (CaseFailed(policy, c) <==> exists k :: FailedAsRecorded(policy, c, k))
    ensures (exists k :: FailedAsRecorded(policy, c, k)) ==> StatusOf(c) == FailedStatus
  {
    hide StatusOf, Markers;
    if StatusOf(c) == FailedStatus {
      var k := StatusMark(c, Failure);
      OnlyMarkStatus(c, k, Failure);
      if IdOf(c) in policy.known {
        SameFailure(c.children[k], policy.known[IdOf(c)]);
      }
      hide FailureApproved, RecordedFailure;
      forall j | OnlyMark(c, j, Failure)
        ensures j == k
      {
      }
      assert CaseFailed(policy, c) ==> FailedAsRecorded(policy, c, k);
    } else if exists k :: FailedAsRecorded(policy, c, k) {
      var k :| FailedAsRecorded(policy, c, k);
      OnlyMarkStatus(c, k, Failure);
    }
  }

  // The two branches of the gate that look at a marker, which is there.
  ghost predicate CaseSkipped(policy: Policy, c: Element)
    requires IdOf(c) in policy.inventory && StatusOf(c) == SkippedStatus
  {
    && IdOf(c) !in policy.known
    && policy.inventory[IdOf(c)].Some?
    && SkipExact(Markers(c, Skipped)[0], policy.inventory[IdOf(c)].value)
  }

  ghost predicate CaseFailed(policy: Policy, c: Element)
    requires StatusOf(c) == FailedStatus
  {
    IdOf(c) in policy.known && FailureApproved(Markers(c, Failure)[0], policy.known[IdOf(c)])
  }

  lemma SameSkip(skip: Element, reason: string)
    ensures SkipExact(skip, reason) <==> PinnedSkip(skip, reason)
  {
  }

  lemma SameFailure(failure: Element, known: Known)
    ensures FailureApproved(failure, known) <==> RecordedFailure(failure, known)
  {
  }

  /**
   The gate has nothing against a testcase exactly when it is a named testcase of the inventory with only flat result
   and output children, and it passed without a mark, or was skipped as pinned, or failed as recorded.
   */
  lemma CaseFineExactly(policy: Policy, c: Element)
    ensures CaseFine(policy, c)
            <==> WellPlaced(policy, c)
                 && (|| Unmarked(c)
                     || (exists k :: SkippedAsPinned(policy, c, k))
                     || (exists k :: FailedAsRecorded(policy, c, k)))
  {
    hide StatusOf, Markers, SkippedAsPinned, FailedAsRecorded, Unmarked, SkipExact, FailureApproved;
    CommonPart(policy, c);
    hide WellPlaced, Named, ChildrenExpected;
    UnmarkedStatus(c);
    if IdOf(c) in policy.inventory {
      SkippedPart(policy, c);
    }
    FailedPart(policy, c);
  }

  // ---------------------------------------------------------------- what the totals of an accepted report say

  lemma {:induction false} ElementBelow(e: Element, p: Place, q: Place)
    requires ElementAt(e, p).Some?
    ensures ElementAt(e, p + q) == ElementAt(ElementAt(e, p).value, q)
    decreases |p|
  {
    if p == [] {
      assert p + q == q;
    } else {
      assert (p + q)[1..] == p[1..] + q;
      ElementBelow(e.children[p[0]], p[1..], q);
    }
  }

  /** Being listed is having the tag at some place. */
  lemma ListedExactly(e: Element, tag: Tag, found: Element)
    ensures found in Iter(e, tag) <==> exists p :: ElementAt(e, p) == Some(found) && found.tag == tag
  {
    var places := IterLists(e, tag);
    var listed := Iter(e, tag);
    hide Iter, ElementAt, Before;
    if found in listed {
      var i :| 0 <= i < |listed| && listed[i] == found;
      assert ElementAt(e, places[i]) == Some(found);
    }
    if p :| ElementAt(e, p) == Some(found) && found.tag == tag {
      assert Tagged(ElementAt(e, p), tag);
      var i :| 0 <= i < |places| && places[i] == p;
      assert listed[i] == found;
    }
  }

  /** What is found below something found is found. */
  lemma FoundWithin(root: Element, suite: Element, outer: Tag, inner: Tag)
    requires suite in Iter(root, outer)
    ensures forall c | c in Iter(suite, inner) :: c in Iter(root, inner)
  {
    hide Iter, ElementAt;
    ListedExactly(root, outer, suite);
    var p :| ElementAt(root, p) == Some(suite);
    forall c | c in Iter(suite, inner)
      ensures c in Iter(root, inner)
    {
      ListedExactly(suite, inner, c);
      var q :| ElementAt(suite, q) == Some(c) && c.tag == inner;
      ElementBelow(root, p, q);
      ListedExactly(root, inner, c);
    }
  }

  /**
   On an accepted report every suite, however nested, reports how many testcases lie in it and how many of those failed
   and were skipped, with no error; the root may leave its totals out but not misstate them; and the exit code says
   whether a reviewed failure occurred.
   */
  lemma TotalsMean(policy: Policy, root: Element, exitCode: int, suite: Element)
    requires Acceptable(policy, root, exitCode) && suite in Iter(root, TestSuite)
    ensures var cases, a := Iter(suite, TestCase), suite.attributes;
            && a.tests == Reported(|cases|) && a.errors == Reported(0)
            && a.failures == Reported(WithStatus(cases, FailedStatus))
            && a.skipped == Reported(WithStatus(cases, SkippedStatus))
    ensures var cases, a := Iter(root, TestCase), root.attributes;
            && |cases| == 235
            && a.tests in {Absent, Reported(235)} && a.errors in {Absent, Reported(0)}
            && a.failures in {Absent, Reported(WithStatus(cases, FailedStatus))}
            && a.skipped in {Absent, Reported(WithStatus(cases, SkippedStatus))}
            && exitCode == (if WithStatus(cases, FailedStatus) == 0 then 0 else 1)
  {
    hide CaseFine, Iter, WithStatus, MarkerTotal;
    var all, cases := Iter(root, TestCase), Iter(suite, TestCase);
    FoundWithin(root, suite, TestSuite, TestCase);
    forall i | 0 <= i < |cases|
      ensures CaseFine(policy, cases[i])
    {
      assert cases[i] in all;
    }
    MarkersAreStatuses(policy, cases);
    assert SuiteFine(suite);
  }

  predicate Marked(c: Element, tag: Tag) {
    exists k :: 0 <= k < |c.children| && c.children[k].tag == tag
  }

  // Which of the testcases carry a mark.
  ghost function MarkedBy(cases: seq<Element>, tag: Tag): set<int> {
    set i | 0 <= i < |cases| && Marked(cases[i], tag)
  }

  lemma {:induction false} HowManyMarked(policy: Policy, cases: seq<Element>, tag: Tag)
    requires tag == Failure || tag == Skipped
    requires forall i | 0 <= i < |cases| :: CaseFine(policy, cases[i])
    ensures |MarkedBy(cases, tag)| == WithStatus(cases, if tag == Failure then FailedStatus else SkippedStatus)
  {
    hide CaseFine, StatusOf, MarkedBy;
    if cases == [] {
      NoneMarked(tag);
    } else {
      var k := |cases| - 1;
      HowManyMarked(policy, cases[..k], tag);
      FineMark(policy, cases[k], tag);
      MarkedLast(cases, tag);
    }
  }

  lemma NoneMarked(tag: Tag)
    ensures MarkedBy([], tag) == {}
  {
  }

  lemma MarkedLast(cases: seq<Element>, tag: Tag)
    requires cases != []
    ensures var k := |cases| - 1;
            |MarkedBy(cases, tag)| == |MarkedBy(cases[..k], tag)| + if Marked(cases[k], tag) then 1 else 0
  {
    hide Marked;
    var k := |cases| - 1;
    var earlier := MarkedBy(cases[..k], tag);
    assert MarkedBy(cases, tag) == earlier + if Marked(cases[k], tag) then {k} else {};
  }

  lemma FineMark(policy: Policy, c: Element, tag: Tag)
    requires CaseFine(policy, c) && (tag == Failure || tag == Skipped)
    ensures Marked(c, tag) <==> StatusOf(c) == if tag == Failure then FailedStatus else SkippedStatus
  {
    NoneFound(c.children, tag);
    hide FindAll;
  }

  // A suite that reports what lies in it.
  ghost predicate Recounted(suite: Element) {
    var cases, a := Iter(suite, TestCase), suite.attributes;
    && a.tests == Reported(|cases|) && a.errors == Reported(0)
    && a.failures == Reported(|MarkedBy(cases, Failure)|)
    && a.skipped == Reported(|MarkedBy(cases, Skipped)|)
  }

  lemma RecountedExactly(policy: Policy, suite: Element)
    requires forall c | c in Iter(suite, TestCase) :: CaseFine(policy, c)
    ensures SuiteFine(suite) <==> Recounted(suite)
  {
    hide Iter, CaseFine, MarkedBy, WithStatus, MarkerTotal;
    var cases := Iter(suite, TestCase);
    MarkersAreStatuses(policy, cases);
    HowManyMarked(policy, cases, Failure);
    HowManyMarked(policy, cases, Skipped);
  }

  /** What the totals may say: nothing, or the truth. */
  ghost predicate RootRecounted(root: Element) {
    var cases, a := Iter(root, TestCase), root.attributes;
    && (a.tests == Absent || a.tests == Reported(235))
    && (a.failures == Absent || a.failures == Reported(|MarkedBy(cases, Failure)|))
    && (a.errors == Absent || a.errors == Reported(0))
    && (a.skipped == Absent || a.skipped == Reported(|MarkedBy(cases, Skipped)|))
  }

  /**
   A run is accepted exactly when its policy has no problem, its root is a suite or a list of suites, it holds 235
   testcases of different identity, every one fine, the pinned inventory and the recorded failures all among them, at
   least one suite, each suite recounts its testcases, the root misstates none of its totals, and the exit code is 1 if
   a testcase failed and 0 if none did.
   */
  lemma AcceptedExactly(policy: Policy, root: Element, exitCode: int)
    ensures Acceptable(policy, root, exitCode)
            <==> var cases, suites := Iter(root, TestCase), Iter(root, TestSuite);
                 && !policy.problems && (root.tag == TestSuite || root.tag == TestSuites) && |cases| == 235
                 && (forall c | c in cases :: CaseFine(policy, c))
                 && (forall i, j | 0 <= i < j < 235 :: IdOf(cases[i]) != IdOf(cases[j]))
                 && (forall id | id in policy.inventory || id in policy.known ::
                      exists c :: c in cases && IdOf(c) == id)
                 && suites != [] && (forall s | s in suites :: Recounted(s)) && RootRecounted(root)
                 && exitCode == if MarkedBy(cases, Failure) == {} then 0 else 1
  {
    hide Iter, CaseFine, SuiteFine, Recounted, MarkedBy, WithStatus, IdOf;
    var cases, suites := Iter(root, TestCase), Iter(root, TestSuite);
    forall id
      ensures id in Ids(cases) <==> exists c :: c in cases && IdOf(c) == id
    {
      if c :| c in cases && IdOf(c) == id {
        var i :| 0 <= i < |cases| && cases[i] == c;
        assert Ids(cases)[i] == id;
      }
    }
    assert |cases| == 235 ==> (Distinct(Ids(cases)) <==>
             forall i, j | 0 <= i < j < 235 :: IdOf(cases[i]) != IdOf(cases[j]));
    if forall c | c in cases :: CaseFine(policy, c) {
      HowManyMarked(policy, cases, Failure);
      HowManyMarked(policy, cases, Skipped);
      forall s | s in suites
        ensures SuiteFine(s) <==> Recounted(s)
      {
        FoundWithin(root, s, TestSuite, TestCase);
        RecountedExactly(policy, s);
      }
    }
  }

  /** The root may leave all its totals out: an acceptable report stays acceptable without them. */
  lemma TotalsOptional(policy: Policy, root: Element, exitCode: int)
    requires Acceptable(policy, root, exitCode) && root.tag == TestSuites
    ensures var a := root.attributes.(tests := Absent, failures := Absent, errors := Absent, skipped := Absent);
            Acceptable(policy, root.(attributes := a), exitCode)
  {
    var a := root.attributes.(tests := Absent, failures := Absent, errors := Absent, skipped := Absent);
    assert Iter(root.(attributes := a), TestCase) == Iter(root, TestCase);
    assert Iter(root.(attributes := a), TestSuite) == Iter(root, TestSuite);
    hide Iter, CaseFine, SuiteFine, WithStatus;
  }
}
