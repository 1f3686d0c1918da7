/**
 What RELEASE reports (server/mcp/mcpCapacity.js:32-36), told from what its callers sent and were answered before.

 Key expiry is invisible to every other script.  RELEASE sees it, and this module says exactly when.
 */
module PermitRelease {
  import opened Prelude
  import opened PermitStore
  import opened PermitSafety
  import opened PermitTheorems

  /**
   The story of one permit as its callers could keep it, from requests and replies alone: the clock, whether the permit
   was granted and not yet released, when the user's last grant or successful renewal was, when the permit's own lease
   ends, and whether an ACQUIRE of the same user came at or after that end.
   */
  datatype Story = Story(now: int, held: bool, extended: int, end: int, swept: bool)

  function Told(c: Config, user: User, t: Token, h: Story, op: Op, ok: bool): Story {
    match op
    case Pass(ms) => h.(now := h.now + ms)
    case Acquire(u, token) =>
      if u != user then h
      else if ok && token == t then Story(h.now, true, h.now, h.now + c.ttl, false)
      else h.(swept := h.swept || h.end <= h.now, extended := if ok then h.now else h.extended)
    case Renew(u, token) =>
      if u != user || !ok then h
      else h.(extended := h.now, end := if token == t then h.now + c.ttl else h.end)
    case Release(u, token) => if u == user && token == t then h.(held := false) else h
  }

  function StoryOf(c: Config, user: User, t: Token, h: Story, ops: seq<Op>, replies: seq<bool>): Story
    requires |ops| == |replies|
    decreases |ops|
  {
    if ops == [] then h else StoryOf(c, user, t, Told(c, user, t, h, ops[0], replies[0]), ops[1..], replies[1..])
  }

  // s runs with key expiry, p without; the story says which of their sets for the user show the permit.
  ghost predicate Follows(c: Config, s: State, p: State, user: User, t: Token, h: Story) {
    var k := UserKey(user);
    && h.now == s.now == p.now
    && (t in Members(p, k) <==> h.held && !h.swept)
    && (t in Members(p, k) ==> Members(p, k)[t] == h.end)
    && (t in Members(s, k) <==> h.held && !h.swept && h.now <= h.extended + c.ttl)
    && (|Get(s, k).scores| != 0 ==> Get(s, k).expiry == Some(h.extended + c.ttl))
  }

  ghost predicate Pair(c: Config, s: State, p: State, owner: Owners) {
    c.keyTtl && Sound(c, s, owner) && Sound(WithoutKeyTtl(c), p, owner) && Shadow(s, p)
  }

  lemma LiveIsMember(s: State, k: KeyName, t: Token)
    ensures t in Live(s, k) <==> t in Members(s, k) && s.now < Members(s, k)[t]
    ensures t in Live(s, k) ==> Live(s, k)[t] == Members(s, k)[t]
  {
  }

  lemma PassFollows(c: Config, s: State, p: State, user: User, t: Token, h: Story, ms: nat)
    requires c.keyTtl && KeysSound(c, s) && KeysSound(WithoutKeyTtl(c), p) && Follows(c, s, p, user, t, h)
    ensures Follows(c, s.(now := s.now + ms), p.(now := p.now + ms), user, t, Told(c, user, t, h, Pass(ms), true))
  {
    var k := UserKey(user);
    assert KeySound(WithoutKeyTtl(c), Get(p, k), p.now);
    MembersPass(p, ms, k);
    assert Get(s.(now := s.now + ms), k) == Get(s, k);
  }

  lemma FrameFollows(c: Config, s: State, p: State, user: User, t: Token, h: Story, op: Op, ok: bool)
    requires Follows(c, s, p, user, t, h) && !op.Pass? && op.user != user
    ensures Follows(c, Step(c, s, op).0, Step(WithoutKeyTtl(c), p, op).0, user, t, Told(c, user, t, h, op, ok))
  {
    hide Step;
    var k := UserKey(user);
    Untouched(c, s, op, k);
    Untouched(WithoutKeyTtl(c), p, op, k);
  }

  /** The user's stored set after one of the user's own operations keeps or renews its deadline. */
  lemma DeadlineStep(c: Config, s: State, op: Op, h: Story, t: Token)
    requires c.keyTtl && KeysSound(c, s) && !op.Pass?
    requires |Get(s, UserKey(op.user)).scores| != 0 ==> Get(s, UserKey(op.user)).expiry == Some(h.extended + c.ttl)
    requires h.now == s.now
    ensures var (s', ok) := Step(c, s, op);
            var z, h' := Get(s', UserKey(op.user)), Told(c, op.user, t, h, op, ok);
            |z.scores| != 0 ==> z.expiry == Some(h'.extended + c.ttl)
    ensures op.Renew? && Step(c, s, op).1 ==> h.now <= h.extended + c.ttl
  {
    hide Step, Live, Members, Seen, Get, KeySound, Expired;
    var k := UserKey(op.user);
    Touched(c, s, op, k);
    if op.Renew? && Step(c, s, op).1 {
      RenewNeedsMember(c, s, op);
      MembersUnexpired(s, k);
    } else {
      NothingFromNothing(s, k, op);
    }
  }

  lemma MembersUnexpired(s: State, k: KeyName)
    requires |Members(s, k)| != 0
    ensures |Get(s, k).scores| != 0 && (Get(s, k).expiry.Some? ==> s.now <= Get(s, k).expiry.value)
  {
  }

  lemma NothingFromNothing(s: State, k: KeyName, op: Op)
    ensures |Live(s, k)| != 0 ==> |Members(s, k)| != 0
    ensures op.Release? && |Members(s, k) - {op.token}| != 0 ==> |Members(s, k)| != 0
    ensures |Members(s, k)| != 0 ==> Seen(s, k) == Get(s, k) && |Get(s, k).scores| != 0
  {
    SubmapSize(Live(s, k), Members(s, k));
    if op.Release? {
      SubmapSize(Members(s, k) - {op.token}, Members(s, k));
    }
  }

  lemma AcquireFollows(c: Config, s: State, p: State, owner: Owners, t: Token, h: Story, op: Op)
    requires Pair(c, s, p, owner) && op.Acquire? && Follows(c, s, p, op.user, t, h)
    requires Step(c, s, op).1 == Step(WithoutKeyTtl(c), p, op).1
    ensures Follows(c, Step(c, s, op).0, Step(WithoutKeyTtl(c), p, op).0, op.user, t,
                    Told(c, op.user, t, h, op, Step(c, s, op).1))
  {
    hide Step, Live, Members, KeySound, Owned, Matched, Within;
    var d, k := WithoutKeyTtl(c), UserKey(op.user);
    MembersTouched(c, s, op, k);
    MembersTouched(d, p, op, k);
    DeadlineStep(c, s, op, h, t);
    ClockStep(c, s, op);
    ClockStep(d, p, op);
    assert ShadowKey(s, p, k);
    LiveIsMember(s, k, t);
    LiveIsMember(p, k, t);
  }

  lemma RenewNeedsMember(c: Config, s: State, op: Op)
    requires op.Renew? && Step(c, s, op).1
    ensures op.token in Members(s, UserKey(op.user))
  {
  }

  lemma RenewFollows(c: Config, s: State, p: State, owner: Owners, t: Token, h: Story, op: Op)
    requires Pair(c, s, p, owner) && op.Renew? && Follows(c, s, p, op.user, t, h)
    requires Step(c, s, op).1 == Step(WithoutKeyTtl(c), p, op).1
    ensures Follows(c, Step(c, s, op).0, Step(WithoutKeyTtl(c), p, op).0, op.user, t,
                    Told(c, op.user, t, h, op, Step(c, s, op).1))
  {
    hide Step, Live, Members, KeySound, Owned, Matched, Within;
    var d, k := WithoutKeyTtl(c), UserKey(op.user);
    if Step(c, s, op).1 {
      RenewNeedsMember(c, s, op);
      RenewNeedsMember(d, p, op);
    }
    MembersTouched(c, s, op, k);
    MembersTouched(d, p, op, k);
    DeadlineStep(c, s, op, h, t);
    ClockStep(c, s, op);
    ClockStep(d, p, op);
  }

  lemma ReleaseFollows(c: Config, s: State, p: State, owner: Owners, t: Token, h: Story, op: Op)
    requires Pair(c, s, p, owner) && op.Release? && Follows(c, s, p, op.user, t, h)
    ensures Follows(c, Step(c, s, op).0, Step(WithoutKeyTtl(c), p, op).0, op.user, t,
                    Told(c, op.user, t, h, op, Step(c, s, op).1))
  {
    hide Step, Live, Members, KeySound, Owned, Matched, Within, Shadow;
    var d, k := WithoutKeyTtl(c), UserKey(op.user);
    MembersTouched(c, s, op, k);
    MembersTouched(d, p, op, k);
    DeadlineStep(c, s, op, h, t);
    ClockStep(c, s, op);
    ClockStep(d, p, op);
  }

  lemma PairStep(c: Config, s: State, p: State, owner: Owners, op: Op)
    requires Pair(c, s, p, owner) && LegalOp(owner, op)
    ensures Pair(c, Step(c, s, op).0, Step(WithoutKeyTtl(c), p, op).0, Minted(owner, op))
    ensures !op.Release? ==> Step(c, s, op).1 == Step(WithoutKeyTtl(c), p, op).1
  {
    hide Step, LegalOp, Sound, Shadow;
    if !op.Release? {
      ShadowReply(c, s, p, owner, op);
    }
    StepKeepsSound(c, s, owner, op);
    StepKeepsSound(WithoutKeyTtl(c), p, owner, op);
    ShadowStep(c, s, p, owner, op);
  }

  lemma PairKeys(c: Config, s: State, p: State, owner: Owners)
    requires Pair(c, s, p, owner)
    ensures c.keyTtl && KeysSound(c, s) && KeysSound(WithoutKeyTtl(c), p)
  {
  }

  lemma StepFollows(c: Config, s: State, p: State, owner: Owners, user: User, t: Token, h: Story, op: Op)
    requires Pair(c, s, p, owner) && Follows(c, s, p, user, t, h)
    requires !op.Release? ==> Step(c, s, op).1 == Step(WithoutKeyTtl(c), p, op).1
    ensures Follows(c, Step(c, s, op).0, Step(WithoutKeyTtl(c), p, op).0, user, t,
                    Told(c, user, t, h, op, Step(c, s, op).1))
  {
    hide Step, Follows, Pair, Told;
    if op.Pass? {
      PassIs(c, s, op, UserKey(user));
      PassIs(WithoutKeyTtl(c), p, op, UserKey(user));
      PairKeys(c, s, p, owner);
      hide KeysSound;
      PassFollows(c, s, p, user, t, h, op.ms);
    } else if op.user != user {
      FrameFollows(c, s, p, user, t, h, op, Step(c, s, op).1);
    } else if op.Acquire? {
      AcquireFollows(c, s, p, owner, t, h, op);
    } else if op.Renew? {
      RenewFollows(c, s, p, owner, t, h, op);
    } else {
      ReleaseFollows(c, s, p, owner, t, h, op);
    }
  }

  lemma {:induction false} RunFollows(c: Config, s: State, p: State, owner: Owners, user: User, t: Token, h: Story,
                                      ops: seq<Op>)
    requires Pair(c, s, p, owner) && Legal(owner, ops) && Follows(c, s, p, user, t, h)
    ensures Follows(c, After(c, s, ops), After(WithoutKeyTtl(c), p, ops), user, t,
                    StoryOf(c, user, t, h, ops, Replies(c, s, ops)))
    decreases |ops|
  {
    hide Pair, Follows, Step, LegalOp;
    if ops != [] {
      PairStep(c, s, p, owner, ops[0]);
      StepFollows(c, s, p, owner, user, t, h, ops[0]);
      var (s', ok) := Step(c, s, ops[0]);
      var p' := Step(WithoutKeyTtl(c), p, ops[0]).0;
      RunFollows(c, s', p', Minted(owner, ops[0]), user, t, Told(c, user, t, h, ops[0], ok), ops[1..]);
      assert Replies(c, s, ops)[1..] == Replies(c, s', ops[1..]);
    }
  }

  lemma EmptyPair(c: Config, now: int, user: User, t: Token)
    requires c.keyTtl && c.ttl > 0
    ensures Pair(c, State(map[], MISSING, now), State(map[], MISSING, now), map[])
    ensures Follows(c, State(map[], MISSING, now), State(map[], MISSING, now), user, t,
                    Story(now, false, now, now, false))
  {
    var s := State(map[], MISSING, now);
    assert forall k :: Get(s, k) == MISSING;
  }

  /**
   After any history, a store whose keys never expire reports a removal exactly when the permit was granted, not yet
   released and not swept by a later ACQUIRE; Redis reports it exactly when, besides, no more than one lease has passed
   since the user's last grant or renewal.  So the replies differ exactly when the user has been idle for longer than a
   lease and nothing swept the permit.
   */
  lemma ReleaseSeesKeyExpiry(c: Config, now: int, ops: seq<Op>, user: User, t: Token)
    requires c.keyTtl && c.ttl > 0 && Legal(map[], ops)
    ensures var empty := State(map[], MISSING, now);
            var h := StoryOf(c, user, t, Story(now, false, now, now, false), ops, Replies(c, empty, ops));
            var s, p := After(c, empty, ops), After(WithoutKeyTtl(c), empty, ops);
            && (ReleaseStep(p, user, t).1 <==> h.held && !h.swept)
            && (ReleaseStep(s, user, t).1 <==> h.held && !h.swept && h.now <= h.extended + c.ttl)
            && (ReleaseStep(s, user, t).1 != ReleaseStep(p, user, t).1
                <==> h.held && !h.swept && h.now > h.extended + c.ttl)
  {
    var empty := State(map[], MISSING, now);
    EmptyPair(c, now, user, t);
    RunFollows(c, empty, empty, map[], user, t, Story(now, false, now, now, false), ops);
  }

  /** The difference is real: a permit released after its lease, with nobody else acquiring in between. */
  lemma LateReleaseDiffers(c: Config, user: User, token: Token, late: nat)
    requires c.keyTtl && c.ttl > 0 && c.perUser > 0 && c.global > 0 && late > c.ttl
    ensures var ops := [Acquire(user, token), Pass(late), Release(user, token)];
            var s := State(map[], MISSING, 0);
            && Replies(c, s, ops) == [true, true, false]
            && Replies(WithoutKeyTtl(c), s, ops) == [true, true, true]
  {
    LateRelease(c, user, token, late);
    LateRelease(WithoutKeyTtl(c), user, token, late);
  }

  lemma LateRelease(c: Config, user: User, token: Token, late: nat)
    requires c.ttl > 0 && c.perUser > 0 && c.global > 0 && late > c.ttl
    ensures Replies(c, State(map[], MISSING, 0), [Acquire(user, token), Pass(late), Release(user, token)])
            == [true, true, !c.keyTtl]
  {
    var s0 := State(map[], MISSING, 0);
    var ops := [Acquire(user, token), Pass(late), Release(user, token)];
    assert Live(s0, UserKey(user)) == map[] && Live(s0, GlobalKey) == map[];
    var (s1, r1) := Step(c, s0, ops[0]);
    assert r1 && Get(s1, UserKey(user)) == SortedSet(map[token := c.ttl], Deadline(c, 0));
    var (s2, r2) := Step(c, s1, Pass(late));
    assert s2.now == late && Get(s2, UserKey(user)) == Get(s1, UserKey(user));
    var (s3, r3) := Step(c, s2, Release(user, token));
    assert r3 == !c.keyTtl;
    assert ops[1..] == [Pass(late), Release(user, token)] && ops[1..][1..] == [Release(user, token)]
      && ops[1..][1..][1..] == [];
    assert Replies(c, s2, ops[1..][1..]) == [r3] + Replies(c, s3, []);
    assert Replies(c, s1, ops[1..]) == [r2] + Replies(c, s2, ops[1..][1..]);
  }
}
