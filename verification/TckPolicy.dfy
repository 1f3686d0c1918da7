/**
 Loading the acceptance policy of the pinned test kit run (scripts/validate_a2a_tck_policy.py:57-154):
 the reviewed known failures and the exact testcase inventory.
 */
module TckPolicy {
  import opened Prelude

  const PINNED_TEST_CASES := 235
  const PINNED_SKIPPED := 178
  const REVIEWED_EXCEPTIONS := 6
  const PINNED_DIGEST := "62cedc3216bb27545d2ede0bb8cf6588ef893e2f827b1de2ac4104a215122028"

  datatype Identity = Identity(classname: string, name: string)

  datatype Known = Known(nodeId: string, id: Identity, requirement: string, signature: string, body: string,
                         issue: string, classification: string)

  // Malformed covers a wrong type, a missing key and an empty required string.
  datatype RawKnown = MalformedKnown | RawKnown(known: Known)
  datatype RawCase = MalformedCase | RawCase(id: Identity, skipReason: Option<string>)

  type Inventory = map<Identity, Option<string>>
  type Exceptions = map<Identity, Known>

  datatype PolicyProblem =
    | WrongExceptionCount
    | MalformedException
    | UnreviewedIssue(nodeId: string)
    | DuplicateException
    | NodeIdMismatch(nodeId: string)
    | WrongInventorySize
    | MalformedTestCase
    | DuplicateTestCase(id: Identity)
    | InventoryDiffers
    | WrongSkipSet
    | SkipCountDiffers
    | ProvenanceDiffers

  function Slashes(s: string): string {
    if s == "" then "" else [if s[0] == '.' then '/' else s[0]] + Slashes(s[1..])
  }

  /** Position of the last dot of s, or |s| when there is none. */
  function LastDot(s: string): (k: nat)
    ensures k <= |s|
    ensures k < |s| ==> s[k] == '.'
    ensures forall i | 0 <= i < |s| && s[i] == '.' :: k < |s| && i <= k
  {
    if s == "" then 0
    else if s[|s| - 1] == '.' then |s| - 1
    else var k := LastDot(s[..|s| - 1]); if k == |s| - 1 then |s| else k
  }

  /** The pytest node id of a JUnit identity: module::name, or module::Class::name. */
  predicate NodeIdMatches(known: Known) {
    var c := known.id.classname;
    var dot := LastDot(c);
    || known.nodeId == Slashes(c) + ".py::" + known.id.name
    || (dot < |c| && known.nodeId == Slashes(c[..dot]) + ".py::" + c[dot + 1..] + "::" + known.id.name)
  }

  predicate Reviewed(issues: map<string, string>, known: Known) {
    known.issue in issues && issues[known.issue] == known.classification
  }

  /** What the reviewed exceptions must look like, entry by entry. */
  ghost predicate ExceptionsFine(raw: seq<RawKnown>, issues: map<string, string>) {
    && (forall i | 0 <= i < |raw| :: raw[i].RawKnown? && Reviewed(issues, raw[i].known) && NodeIdMatches(raw[i].known))
    && (forall i, j | 0 <= i < j < |raw| && raw[i].RawKnown? && raw[j].RawKnown? ::
          raw[i].known.id != raw[j].known.id && raw[i].known.nodeId != raw[j].known.nodeId)
  }

  /** The index holds exactly the entries of raw. */
  ghost predicate Indexes(index: Exceptions, raw: seq<RawKnown>) {
    && (forall i | 0 <= i < |raw| && raw[i].RawKnown? ::
          raw[i].known.id in index && index[raw[i].known.id] == raw[i].known)
    && (forall id | id in index :: index[id].id == id && RawKnown(index[id]) in raw)
  }

  lemma ExceptionsStep(raw: seq<RawKnown>, issues: map<string, string>, x: RawKnown, index: Exceptions,
                       nodeIds: set<string>)
    requires ExceptionsFine(raw, issues) ==> Indexes(index, raw) && NodeIdsOf(raw) == nodeIds
    ensures ExceptionsFine(raw + [x], issues) <==>
              && ExceptionsFine(raw, issues)
              && x.RawKnown? && Reviewed(issues, x.known) && NodeIdMatches(x.known)
              && x.known.id !in index && x.known.nodeId !in nodeIds
  {
    hide Reviewed, NodeIdMatches;
    var all := raw + [x];
    if ExceptionsFine(all, issues) {
      assert all[|raw|] == x;
      assert forall i | 0 <= i < |raw| :: all[i] == raw[i];
      assert ExceptionsFine(raw, issues);
    }
  }

  function NodeIdsOf(raw: seq<RawKnown>): set<string> {
    set i | 0 <= i < |raw| && raw[i].RawKnown? :: raw[i].known.nodeId
  }

  lemma IndexesStep(index: Exceptions, raw: seq<RawKnown>, known: Known)
    requires Indexes(index, raw) && known.id !in index
    ensures Indexes(index[known.id := known], raw + [RawKnown(known)])
    ensures NodeIdsOf(raw + [RawKnown(known)]) == NodeIdsOf(raw) + {known.nodeId}
  {
    var all := raw + [RawKnown(known)];
    assert all[|raw|] == RawKnown(known);
    assert forall i | 0 <= i < |raw| :: all[i] == raw[i];
    forall n
      ensures n in NodeIdsOf(all) <==> n in NodeIdsOf(raw) || n == known.nodeId
    {
    }
  }

  method PolicyCases(raw: seq<RawKnown>, issues: map<string, string>)
    returns (index: Exceptions, problems: seq<PolicyProblem>)
    ensures problems == [] <==> |raw| == 6 && ExceptionsFine(raw, issues)
    ensures problems == [] ==> Indexes(index, raw) && |index| == 6
  {
    index, problems := map[], [];
    if |raw| != REVIEWED_EXCEPTIONS {
      return index, [WrongExceptionCount];
    }
    var nodeIds: set<string> := {};
    assert ExceptionsFine(raw[..0], issues) && Indexes(index, raw[..0]) && NodeIdsOf(raw[..0]) == {};
    hide ExceptionsFine, Indexes, NodeIdsOf, Reviewed, NodeIdMatches;
    for k := 0 to |raw|
      invariant problems == [] <==> ExceptionsFine(raw[..k], issues)
      invariant problems == [] ==> Indexes(index, raw[..k]) && NodeIdsOf(raw[..k]) == nodeIds && |index| == k
    {
      assert raw[..k + 1] == raw[..k] + [raw[k]];
      ExceptionsStep(raw[..k], issues, raw[k], index, nodeIds);
      if raw[k].MalformedKnown? {
        problems := problems + [MalformedException];
        continue;
      }
      var known := raw[k].known;
      if !Reviewed(issues, known) {
        problems := problems + [UnreviewedIssue(known.nodeId)];
        continue;
      }
      if known.id in index || known.nodeId in nodeIds {
        problems := problems + [DuplicateException];
        continue;
      }
      if !NodeIdMatches(known) {
        problems := problems + [NodeIdMismatch(known.nodeId)];
        continue;
      }
      if problems == [] {
        IndexesStep(index, raw[..k], known);
      }
      index := index[known.id := known];
      nodeIds := nodeIds + {known.nodeId};
    }
    assert raw[..|raw|] == raw;
  }

  function SkipSet(inventory: Inventory): set<Identity> {
    set id | id in inventory && inventory[id].Some?
  }

  predicate WellFormed(case_: RawCase) {
    && case_.RawCase?
    && case_.id.classname != "" && case_.id.name != ""
    && (case_.skipReason.Some? ==> case_.skipReason.value != "")
  }

  ghost predicate Listed(inventory: Inventory, raw: seq<RawCase>) {
    && (forall i | 0 <= i < |raw| && WellFormed(raw[i]) :: raw[i].id in inventory)
    && (forall id | id in inventory :: RawCase(id, inventory[id]) in raw && WellFormed(RawCase(id, inventory[id])))
  }

  ghost predicate CasesFine(raw: seq<RawCase>) {
    && (forall i | 0 <= i < |raw| :: WellFormed(raw[i]))
    && (forall i, j | 0 <= i < j < |raw| && raw[i].RawCase? && raw[j].RawCase? :: raw[i].id != raw[j].id)
  }

  lemma CasesStep(inventory: Inventory, raw: seq<RawCase>, x: RawCase)
    requires Listed(inventory, raw)
    ensures CasesFine(raw + [x]) <==> CasesFine(raw) && WellFormed(x) && x.id !in inventory
    ensures !WellFormed(x) || x.id in inventory ==> Listed(inventory, raw + [x])
    ensures WellFormed(x) && x.id !in inventory ==> Listed(inventory[x.id := x.skipReason], raw + [x])
  {
    hide WellFormed;
    var all := raw + [x];
    assert all[|raw|] == x;
    assert forall i | 0 <= i < |raw| :: all[i] == raw[i];
    if CasesFine(all) {
      assert CasesFine(raw);
      WellFormedRaw(x);
    }
    WellFormedRaw(x);
  }

  lemma ReasonsPresent(inventory: Inventory, raw: seq<RawCase>)
    requires Listed(inventory, raw)
    ensures forall id | id in inventory && inventory[id].Some? :: inventory[id].value != ""
  {
  }

  lemma WellFormedRaw(x: RawCase)
    ensures WellFormed(x) ==> x.RawCase?
  {
  }

  // The fields a policy declares about its own inventory; evidence tells whether the provenance is the pinned one.
  datatype Declared = Declared(digest: Option<string>, skips: int, evidence: bool)

  /** digest is the SHA-256 of the canonical text of an inventory. */
  method PolicyTestCases(raw: seq<RawCase>, digest: Inventory -> string, declared: Declared)
    returns (inventory: Inventory, problems: seq<PolicyProblem>)
    ensures problems == [] ==>
              && CasesFine(raw) && Listed(inventory, raw)
              && |inventory| == 235 && |SkipSet(inventory)| == 178
    ensures problems == [] <==>
              && |raw| == 235 && CasesFine(raw)
              && digest(inventory) == PINNED_DIGEST && declared.digest == Some(PINNED_DIGEST)
              && |SkipSet(inventory)| == 178 == declared.skips && declared.evidence
    ensures forall id | id in inventory && inventory[id].Some? :: inventory[id].value != ""
  {
    inventory, problems := map[], [];
    if |raw| != PINNED_TEST_CASES {
      return inventory, [WrongInventorySize];
    }
    assert CasesFine(raw[..0]) && Listed(inventory, raw[..0]);
    hide CasesFine, Listed, WellFormed;
    for k := 0 to |raw|
      invariant problems == [] <==> CasesFine(raw[..k])
      invariant Listed(inventory, raw[..k])
      invariant |inventory| <= k && (problems == [] ==> |inventory| == k)
    {
      assert raw[..k + 1] == raw[..k] + [raw[k]];
      CasesStep(inventory, raw[..k], raw[k]);
      WellFormedRaw(raw[k]);
      if !WellFormed(raw[k]) {
        problems := problems + [MalformedTestCase];
        continue;
      }
      if raw[k].id in inventory {
        problems := problems + [DuplicateTestCase(raw[k].id)];
        continue;
      }
      inventory := inventory[raw[k].id := raw[k].skipReason];
    }
    assert raw[..|raw|] == raw;
    ReasonsPresent(inventory, raw);
    if |inventory| != PINNED_TEST_CASES || digest(inventory) != PINNED_DIGEST
      || declared.digest != Some(PINNED_DIGEST) {
      problems := problems + [InventoryDiffers];
    }
    if |SkipSet(inventory)| != PINNED_SKIPPED {
      problems := problems + [WrongSkipSet];
    }
    if declared.skips != |SkipSet(inventory)| {
      problems := problems + [SkipCountDiffers];
    }
    if !declared.evidence {
      problems := problems + [ProvenanceDiffers];
    }
  }

  // ---------------------------------------------------------------- what an entry must look like

  // A dotted module name as a path.
  function PathOf(c: string): string {
    seq(|c|, i requires 0 <= i < |c| => if c[i] == '.' then '/' else c[i])
  }

  lemma {:induction false} SlashesArePath(c: string)
    ensures Slashes(c) == PathOf(c)
  {
    if c != "" {
      SlashesArePath(c[1..]);
      assert c == [c[0]] + c[1..];
    }
  }

  ghost predicate LastPart(c: string, module_: string, class_: string) {
    c == module_ + "." + class_ && '.' !in class_
  }

  lemma LastPartIs(c: string, module_: string, class_: string)
    requires LastPart(c, module_, class_)
    ensures LastDot(c) == |module_| < |c| && c[..|module_|] == module_ && c[|module_| + 1..] == class_
  {
    assert c[|module_|] == '.';
    forall i | |module_| < i < |c|
      ensures c[i] != '.'
    {
      assert c[i] == class_[i - |module_| - 1];
    }
  }

  /** A node id is the path of the module and the test, with the class in between if the last part names one. */
  lemma NodeIdExactly(known: Known)
    ensures NodeIdMatches(known)
            <==> || known.nodeId == PathOf(known.id.classname) + ".py::" + known.id.name
                 || exists module_, class_ :: LastPart(known.id.classname, module_, class_)
                      && known.nodeId == PathOf(module_) + ".py::" + class_ + "::" + known.id.name
  {
    var c := known.id.classname;
    var dot := LastDot(c);
    SlashesArePath(c);
    SlashesArePath(c[..dot]);
    if dot < |c| {
      assert c == c[..dot] + "." + c[dot + 1..];
      var rest := c[dot + 1..];
      forall i | 0 <= i < |rest|
        ensures rest[i] != '.'
      {
        assert rest[i] == c[dot + 1 + i];
      }
      assert LastPart(c, c[..dot], rest);
    }
    forall module_, class_ | LastPart(c, module_, class_)
      ensures dot < |c| && c[..dot] == module_ && c[dot + 1..] == class_
    {
      LastPartIs(c, module_, class_);
    }
  }

  /** The exceptions are fine exactly when each is whole, cites a reviewed issue as classified, and none repeats. */
  lemma ExceptionsExactly(raw: seq<RawKnown>, issues: map<string, string>)
    ensures ExceptionsFine(raw, issues)
            <==> && (forall x | x in raw ::
                       x.RawKnown? && NodeIdMatches(x.known)
                       && x.known.issue in issues && issues[x.known.issue] == x.known.classification)
                 && (forall i, j | 0 <= i < |raw| && 0 <= j < |raw| && i != j && raw[i].RawKnown? && raw[j].RawKnown? ::
                       raw[i].known.id != raw[j].known.id && raw[i].known.nodeId != raw[j].known.nodeId)
  {
    hide NodeIdMatches;
    assert forall i | 0 <= i < |raw| :: raw[i] in raw;
  }

  /** The inventory is fine exactly when each entry is named, no given skip reason is empty, and no identity repeats. */
  lemma CasesExactly(raw: seq<RawCase>)
    ensures CasesFine(raw)
            <==> && (forall x | x in raw ::
                       x.RawCase? && x.id.classname != "" && x.id.name != "" && x.skipReason != Some(""))
                 && (forall i, j | 0 <= i < |raw| && 0 <= j < |raw| && i != j && raw[i].RawCase? && raw[j].RawCase? ::
                       raw[i].id != raw[j].id)
  {
    assert forall i | 0 <= i < |raw| :: raw[i] in raw;
  }

  /** The expected skips are the entries with a reason. */
  lemma SkipSetExactly(inventory: Inventory, id: Identity)
    ensures id in SkipSet(inventory) <==> id in inventory && inventory[id] != None
  {
  }
}
