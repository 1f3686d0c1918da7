/**
 What the permit scripts guarantee over every interleaving of any number of users and tokens.

 The reference model is a lease table with no key expiry, no pruning and no second copy: a permit is
 a row that disappears when it is released or when its time is up.
 */
module PermitSafety {
  import opened Prelude
  import opened PermitStore

  // Who minted each token; a token is a fresh random UUID, so it is minted once.
  type Owners = map<Token, User>

  datatype Lease = Lease(user: User, end: int)
  type Leases = map<Token, Lease>

  function HeldBy(l: Leases, user: User): set<Token> {
    set t | t in l && l[t].user == user
  }

  /** The reference model. */
  function TableStep(c: Config, l: Leases, now: int, op: Op): (Leases, bool) {
    match op
    case Acquire(user, token) =>
      var ok := |HeldBy(l, user)| < c.perUser && |l| < c.global;
      (if ok then l[token := Lease(user, now + c.ttl)] else l, ok)
    case Renew(user, token) =>
      var ok := token in l && l[token].user == user;
      (if ok then l[token := Lease(user, now + c.ttl)] else l, ok)
    case Release(user, token) => (l - {token}, token in l)
    case Pass(ms) => (map t | t in l && now + ms < l[t].end :: l[t], true)
  }

  /** The permits in force, read from the global set. */
  ghost function Table(s: State, owner: Owners): Leases {
    map t | t in Live(s, GlobalKey) && t in owner :: Lease(owner[t], Live(s, GlobalKey)[t])
  }

  // A key outlives every member it holds.
  ghost predicate KeySound(c: Config, z: SortedSet, now: int) {
    && (z.expiry.Some? <==> c.keyTtl && |z.scores| != 0)
    && (forall t | t in z.scores :: z.scores[t] <= now + c.ttl)
    && (z.expiry.Some? ==> z.expiry.value <= now + c.ttl && forall t | t in z.scores :: z.scores[t] <= z.expiry.value)
  }

  ghost predicate KeysSound(c: Config, s: State) {
    c.ttl > 0 && forall k :: KeySound(c, Get(s, k), s.now)
  }

  // Every stored token was minted, by the user whose set holds it.
  ghost predicate Owned(s: State, owner: Owners) {
    forall k, t | t in Get(s, k).scores :: t in owner && (k.UserKey? ==> owner[t] == k.user)
  }

  // The permits in force match one to one between the users' sets and the global set, with equal scores.
  ghost predicate Matched(s: State, owner: Owners) {
    && (forall t | t in Live(s, GlobalKey) ::
         t in owner && t in Live(s, UserKey(owner[t])) && Live(s, UserKey(owner[t]))[t] == Live(s, GlobalKey)[t])
    && (forall u, t | t in Live(s, UserKey(u)) :: t in owner && owner[t] == u && t in Live(s, GlobalKey))
  }

  ghost predicate Within(c: Config, s: State) {
    |Live(s, GlobalKey)| <= c.global && forall u :: |Live(s, UserKey(u))| <= c.perUser
  }

  ghost predicate Sound(c: Config, s: State, owner: Owners) {
    KeysSound(c, s) && Owned(s, owner) && Matched(s, owner) && Within(c, s)
  }

  // Tokens are minted once, and a permit is released on behalf of the user who acquired it.
  predicate LegalOp(owner: Owners, op: Op) {
    match op
    case Acquire(_, token) => token !in owner
    case Release(user, token) => token in owner && owner[token] == user
    case _ => true
  }

  function Minted(owner: Owners, op: Op): Owners {
    if op.Acquire? then owner[op.token := op.user] else owner
  }

  predicate Legal(owner: Owners, ops: seq<Op>)
    decreases |ops|
  {
    ops == [] || (LegalOp(owner, ops[0]) && Legal(Minted(owner, ops[0]), ops[1..]))
  }

  function MintedBy(owner: Owners, ops: seq<Op>): Owners
    decreases |ops|
  {
    if ops == [] then owner else MintedBy(Minted(owner, ops[0]), ops[1..])
  }

  function After(c: Config, s: State, ops: seq<Op>): State
    decreases |ops|
  {
    if ops == [] then s else After(c, Step(c, s, ops[0]).0, ops[1..])
  }

  function Replies(c: Config, s: State, ops: seq<Op>): (r: seq<bool>)
    ensures |r| == |ops|
    decreases |ops|
  {
    if ops == [] then [] else [Step(c, s, ops[0]).1] + Replies(c, Step(c, s, ops[0]).0, ops[1..])
  }

  /** The permits a key shows after one step: only the two keys of the operation change. */
  function LiveAfter(c: Config, s: State, op: Op, ok: bool, k: KeyName): Scores {
    if op.Pass? then Above(Live(s, k), s.now + op.ms)
    else if k != GlobalKey && k != UserKey(op.user) then Live(s, k)
    else if op.Release? then Live(s, k) - {op.token}
    else if ok then Live(s, k)[op.token := s.now + c.ttl]
    else Live(s, k)
  }

  ghost predicate Advanced(c: Config, s: State, op: Op, k: KeyName) {
    var (s', ok) := Step(c, s, op);
    && Live(s', k) == LiveAfter(c, s, op, ok, k)
    && KeySound(c, Get(s', k), s'.now)
  }

  lemma AboveTwice(scores: Scores, a: int, b: int)
    requires a <= b
    ensures Above(Above(scores, a), b) == Above(scores, b)
  {
  }

  lemma AboveSize(scores: Scores, limit: int)
    ensures Above(scores, limit).Keys <= scores.Keys
  {
  }

  /** Redis's own view of a key is sound, and hiding an expired key hides no permit in force. */
  lemma SeenSound(c: Config, s: State, k: KeyName)
    requires c.ttl > 0 && KeySound(c, Get(s, k), s.now)
    ensures KeySound(c, Seen(s, k), s.now)
    ensures Live(s, k) == Above(Get(s, k).scores, s.now)
  {
  }

  lemma StoredSound(c: Config, z: SortedSet, scores: Scores, now: int)
    requires c.ttl > 0 && KeySound(c, z, now)
    requires forall t | t in scores :: t in z.scores && scores[t] == z.scores[t]
    ensures KeySound(c, Stored(scores, z.expiry), now)
    ensures Stored(scores, z.expiry).scores == scores
  {
    SubmapSize(scores, z.scores);
  }

  lemma AddedSound(c: Config, scores: Scores, token: Token, now: int)
    requires c.ttl > 0 && forall t | t in scores :: scores[t] <= now + c.ttl
    ensures KeySound(c, SortedSet(scores[token := now + c.ttl], Deadline(c, now)), now)
    ensures Above(scores[token := now + c.ttl], now) == Above(scores, now)[token := now + c.ttl]
  {
    assert token in scores[token := now + c.ttl];
  }

  lemma LivePass(c: Config, s: State, op: Op, k: KeyName)
    requires c.ttl > 0 && KeySound(c, Get(s, k), s.now) && op.Pass?
    ensures Advanced(c, s, op, k)
  {
    hide Step, Live, Above, KeySound;
    var s' := s.(now := s.now + op.ms);
    PassIs(c, s, op, k);
    SeenSound(c, s, k);
    KeySoundLater(c, Get(s, k), s.now, s'.now);
    SeenSound(c, s', k);
    AboveTwice(Get(s, k).scores, s.now, s'.now);
  }

  lemma PassIs(c: Config, s: State, op: Op, k: KeyName)
    requires op.Pass?
    ensures Step(c, s, op) == (s.(now := s.now + op.ms), true)
    ensures Get(s.(now := s.now + op.ms), k) == Get(s, k)
  {
  }

  lemma KeySoundLater(c: Config, z: SortedSet, now: int, later: int)
    requires KeySound(c, z, now) && now <= later
    ensures KeySound(c, z, later)
  {
  }

  predicate Touches(op: Op, k: KeyName) {
    !op.Pass? && (k == GlobalKey || k == UserKey(op.user))
  }

  lemma Untouched(c: Config, s: State, op: Op, k: KeyName)
    requires !op.Pass? && !Touches(op, k)
    ensures Get(Step(c, s, op).0, k) == Get(s, k) && Step(c, s, op).0.now == s.now
  {
    hide Above, Members;
  }

  lemma LiveUntouched(c: Config, s: State, op: Op, k: KeyName)
    requires KeySound(c, Get(s, k), s.now) && !op.Pass? && !Touches(op, k)
    ensures Advanced(c, s, op, k)
  {
    hide Step, Above, KeySound;
    Untouched(c, s, op, k);
  }

  /** The sorted set an operation leaves behind in a key that it touches. */
  lemma Touched(c: Config, s: State, op: Op, k: KeyName)
    requires Touches(op, k)
    ensures var s' := Step(c, s, op).0; s'.now == s.now
    ensures var (s', ok) := Step(c, s, op);
            Get(s', k) == match op
                          case Acquire(_, t) =>
                            if ok then SortedSet(Live(s, k)[t := s.now + c.ttl], Deadline(c, s.now))
                            else Stored(Live(s, k), Seen(s, k).expiry)
                          case Renew(_, t) =>
                            if ok then SortedSet(Members(s, k)[t := s.now + c.ttl], Deadline(c, s.now))
                            else Get(s, k)
                          case Release(_, t) => Stored(Members(s, k) - {t}, Seen(s, k).expiry)
  {
  }

  lemma LiveBounded(c: Config, s: State, k: KeyName)
    requires KeySound(c, Seen(s, k), s.now)
    ensures forall t | t in Live(s, k) ::
            t in Seen(s, k).scores && Live(s, k)[t] == Seen(s, k).scores[t] <= s.now + c.ttl
    ensures forall t | t in Members(s, k) :: Members(s, k)[t] <= s.now + c.ttl
    ensures Above(Live(s, k), s.now) == Live(s, k) == Above(Members(s, k), s.now)
  {
    AboveTwice(Members(s, k), s.now, s.now);
  }

  lemma LiveAcquire(c: Config, s: State, op: Op, k: KeyName)
    requires c.ttl > 0 && KeySound(c, Get(s, k), s.now) && op.Acquire? && Touches(op, k)
    ensures Advanced(c, s, op, k)
  {
    hide Step, Live, Members, Seen, Get, Above, KeySound, Stored, Deadline;
    var (s', ok) := Step(c, s, op);
    Touched(c, s, op, k);
    SeenSound(c, s, k);
    LiveBounded(c, s, k);
    if ok {
      AddedSound(c, Live(s, k), op.token, s.now);
    } else {
      StoredSound(c, Seen(s, k), Live(s, k), s.now);
    }
    SeenSound(c, s', k);
  }

  lemma LiveRenew(c: Config, s: State, op: Op, k: KeyName)
    requires c.ttl > 0 && KeySound(c, Get(s, k), s.now) && op.Renew? && Touches(op, k)
    ensures Advanced(c, s, op, k)
  {
    hide Live, Members, Seen, Get, Above, KeySound, Deadline;
    var (s', ok) := Step(c, s, op);
    if ok {
      hide Step;
      Touched(c, s, op, k);
      SeenSound(c, s, k);
      LiveBounded(c, s, k);
      AddedSound(c, Members(s, k), op.token, s.now);
      SeenSound(c, s', k);
    }
  }

  lemma LiveRelease(c: Config, s: State, op: Op, k: KeyName)
    requires c.ttl > 0 && KeySound(c, Get(s, k), s.now) && op.Release? && Touches(op, k)
    ensures Advanced(c, s, op, k)
  {
    hide Step;
    var (s', ok) := Step(c, s, op);
    Touched(c, s, op, k);
    SeenSound(c, s, k);
    StoredSound(c, Seen(s, k), Members(s, k) - {op.token}, s.now);
    SeenSound(c, s', k);
    assert Above(Members(s, k) - {op.token}, s.now) == Above(Members(s, k), s.now) - {op.token};
  }

  lemma LiveStep(c: Config, s: State, op: Op, k: KeyName)
    requires c.ttl > 0 && KeySound(c, Get(s, k), s.now)
    ensures Advanced(c, s, op, k)
  {
    match op
    case Pass(_) => LivePass(c, s, op, k);
    case Acquire(_, _) => if Touches(op, k) { LiveAcquire(c, s, op, k); } else { LiveUntouched(c, s, op, k); }
    case Renew(_, _) => if Touches(op, k) { LiveRenew(c, s, op, k); } else { LiveUntouched(c, s, op, k); }
    case Release(_, _) => if Touches(op, k) { LiveRelease(c, s, op, k); } else { LiveUntouched(c, s, op, k); }
  }

  lemma KeysStep(c: Config, s: State, op: Op)
    requires KeysSound(c, s)
    ensures KeysSound(c, Step(c, s, op).0)
    ensures forall k :: Advanced(c, s, op, k)
  {
    forall k
      ensures Advanced(c, s, op, k) && KeySound(c, Get(Step(c, s, op).0, k), Step(c, s, op).0.now)
    {
      LiveStep(c, s, op, k);
    }
  }

  /** Where the tokens of a key come from. */
  ghost predicate Sourced(s: State, s': State, op: Op, k: KeyName) {
    forall t | t in Get(s', k).scores && t !in Get(s, k).scores ::
      && Touches(op, k)
      && t == op.token
      && (op.Acquire? || (op.Renew? && t in Get(s, UserKey(op.user)).scores))
  }

  lemma SourcedStep(c: Config, s: State, op: Op, k: KeyName)
    ensures Sourced(s, Step(c, s, op).0, op, k)
  {
    hide Step, Live, Members, Seen, Get;
    if op.Pass? {
      PassIs(c, s, op, k);
    } else if Touches(op, k) {
      Touched(c, s, op, k);
      MembersStored(s, k);
      if op.Renew? && Step(c, s, op).1 {
        RenewedStored(c, s, op);
      }
    } else {
      Untouched(c, s, op, k);
    }
  }

  lemma MembersStored(s: State, k: KeyName)
    ensures Live(s, k).Keys <= Members(s, k).Keys <= Get(s, k).scores.Keys
    ensures Members(s, k) == Seen(s, k).scores
  {
  }

  lemma RenewedStored(c: Config, s: State, op: Op)
    requires op.Renew? && Step(c, s, op).1
    ensures op.token in Get(s, UserKey(op.user)).scores
  {
  }

  lemma OwnedStep(c: Config, s: State, owner: Owners, op: Op)
    requires Owned(s, owner) && LegalOp(owner, op)
    ensures Owned(Step(c, s, op).0, Minted(owner, op))
  {
    var s' := Step(c, s, op).0;
    forall k
      ensures Sourced(s, s', op, k)
    {
      SourcedStep(c, s, op, k);
    }
    OwnedFrom(s, s', owner, op);
  }

  lemma OwnedFrom(s: State, s': State, owner: Owners, op: Op)
    requires Owned(s, owner) && LegalOp(owner, op)
    requires forall k :: Sourced(s, s', op, k)
    ensures Owned(s', Minted(owner, op))
  {
    var owner' := Minted(owner, op);
    forall k, t | t in Get(s', k).scores
      ensures t in owner' && (k.UserKey? ==> owner'[t] == k.user)
    {
      assert Sourced(s, s', op, k);
      if t !in Get(s, k).scores && op.Renew? {
        assert t in Get(s, UserKey(op.user)).scores;
      }
    }
  }

  lemma LiveStored(s: State, k: KeyName, t: Token)
    requires t in Live(s, k)
    ensures t in Get(s, k).scores
  {
  }

  lemma MatchedStep(c: Config, s: State, owner: Owners, op: Op)
    requires KeysSound(c, s) && Owned(s, owner) && Matched(s, owner) && LegalOp(owner, op)
    ensures Matched(Step(c, s, op).0, Minted(owner, op))
  {
    hide Step, Live, KeySound, Advanced, Owned;
    var (s', ok) := Step(c, s, op);
    var owner' := Minted(owner, op);
    KeysStep(c, s, op);
    OwnedStep(c, s, owner, op);
    forall t | t in Live(s', GlobalKey)
      ensures t in owner' && t in Live(s', UserKey(owner'[t]))
              && Live(s', UserKey(owner'[t]))[t] == Live(s', GlobalKey)[t]
    {
      GlobalHasUser(c, s, owner, op, t);
    }
    forall u, t | t in Live(s', UserKey(u))
      ensures t in owner' && owner'[t] == u && t in Live(s', GlobalKey)
    {
      LiveStored(s', UserKey(u), t);
      UserHasGlobal(c, s, owner, op, u, t);
    }
  }

  lemma GrantedBelow(c: Config, s: State, op: Op, k: KeyName)
    requires op.Acquire? && Step(c, s, op).1 && Touches(op, k)
    ensures |Live(s, k)| < if k == GlobalKey then c.global else c.perUser
  {
    hide Live;
  }

  lemma RenewedLive(c: Config, s: State, op: Op, k: KeyName)
    requires op.Renew? && Step(c, s, op).1 && Touches(op, k)
    ensures op.token in Live(s, k)
  {
  }

  lemma RenewedOwner(c: Config, s: State, owner: Owners, op: Op)
    requires Owned(s, owner) && op.Renew? && Step(c, s, op).1
    ensures op.token in owner && owner[op.token] == op.user
    ensures op.token in Live(s, UserKey(op.user)) && op.token in Live(s, GlobalKey)
  {
    assert op.token in Get(s, UserKey(op.user)).scores;
  }

  lemma GlobalHasUser(c: Config, s: State, owner: Owners, op: Op, t: Token)
    requires Owned(s, owner) && Matched(s, owner) && LegalOp(owner, op)
    requires forall k :: Advanced(c, s, op, k)
    requires t in Live(Step(c, s, op).0, GlobalKey)
    ensures var (s', owner') := (Step(c, s, op).0, Minted(owner, op));
            t in owner' && t in Live(s', UserKey(owner'[t]))
              && Live(s', UserKey(owner'[t]))[t] == Live(s', GlobalKey)[t]
  {
    var ok := Step(c, s, op).1;
    assert Advanced(c, s, op, GlobalKey);
    if op.Renew? && ok {
      RenewedOwner(c, s, owner, op);
    }
    GlobalHasUserAfter(c, s, owner, op, ok, t);
    assert Advanced(c, s, op, UserKey(Minted(owner, op)[t]));
  }

  lemma GlobalHasUserAfter(c: Config, s: State, owner: Owners, op: Op, ok: bool, t: Token)
    requires Matched(s, owner) && LegalOp(owner, op)
    requires op.Renew? && ok ==> op.token in owner && owner[op.token] == op.user
    requires t in LiveAfter(c, s, op, ok, GlobalKey)
    ensures var owner' := Minted(owner, op);
            && t in owner'
            && t in LiveAfter(c, s, op, ok, UserKey(owner'[t]))
            && LiveAfter(c, s, op, ok, UserKey(owner'[t]))[t] == LiveAfter(c, s, op, ok, GlobalKey)[t]
  {
    var g := Live(s, GlobalKey);
    assert t in g || (ok && (op.Acquire? || op.Renew?) && t == op.token);
    if t in g {
      var u := Live(s, UserKey(owner[t]));
      assert t in u && u[t] == g[t];
    }
  }

  lemma UserHasGlobal(c: Config, s: State, owner: Owners, op: Op, u: User, t: Token)
    requires Owned(s, owner) && Matched(s, owner) && LegalOp(owner, op)
    requires forall k :: Advanced(c, s, op, k)
    requires t in Live(Step(c, s, op).0, UserKey(u))
    ensures t in Minted(owner, op) && Minted(owner, op)[t] == u && t in Live(Step(c, s, op).0, GlobalKey)
  {
    hide Step, Live, KeySound;
    assert Advanced(c, s, op, UserKey(u)) && Advanced(c, s, op, GlobalKey);
    if op.Renew? && Step(c, s, op).1 {
      RenewedOwner(c, s, owner, op);
    }
    UserHasGlobalAfter(c, s, owner, op, Step(c, s, op).1, u, t);
  }

  lemma UserHasGlobalAfter(c: Config, s: State, owner: Owners, op: Op, ok: bool, u: User, t: Token)
    requires Matched(s, owner) && LegalOp(owner, op)
    requires op.Renew? && ok ==> op.token in owner && owner[op.token] == op.user
    requires t in LiveAfter(c, s, op, ok, UserKey(u))
    ensures t in Minted(owner, op) && Minted(owner, op)[t] == u && t in LiveAfter(c, s, op, ok, GlobalKey)
  {
    hide Live;
    var live := Live(s, UserKey(u));
    if t in live {
      assert owner[t] == u && t in Live(s, GlobalKey);
      assert Live(s, UserKey(u))[t] == Live(s, GlobalKey)[t];
    }
  }

  lemma WithinStep(c: Config, s: State, op: Op)
    requires KeysSound(c, s) && Within(c, s)
    ensures Within(c, Step(c, s, op).0)
  {
    hide Step, Live, KeySound;
    var s' := Step(c, s, op).0;
    KeysStep(c, s, op);
    forall k
      ensures |Live(s', k)| <= if k == GlobalKey then c.global else c.perUser
    {
      assert Advanced(c, s, op, k);
      if op.Acquire? && Touches(op, k) && Step(c, s, op).1 {
        GrantedBelow(c, s, op, k);
        assert |Live(s', k)| <= |Live(s, k)| + 1;
      } else {
        if op.Renew? && Step(c, s, op).1 && Touches(op, k) {
          RenewedLive(c, s, op, k);
        }
        AboveSize(Live(s, k), s.now + (if op.Pass? then op.ms else 0));
        SubmapSize(Live(s', k), Live(s, k));
      }
    }
  }

  /** One script, or time passing, keeps the whole invariant. */
  lemma StepKeepsSound(c: Config, s: State, owner: Owners, op: Op)
    requires Sound(c, s, owner) && LegalOp(owner, op)
    ensures Sound(c, Step(c, s, op).0, Minted(owner, op))
  {
    KeysStep(c, s, op);
    OwnedStep(c, s, owner, op);
    MatchedStep(c, s, owner, op);
    WithinStep(c, s, op);
  }

  /** Over every interleaving, from an empty store or any sound one. */
  lemma {:induction false} RunKeepsSound(c: Config, s: State, owner: Owners, ops: seq<Op>)
    requires Sound(c, s, owner) && Legal(owner, ops)
    ensures Sound(c, After(c, s, ops), MintedBy(owner, ops))
    decreases |ops|
  {
    if ops != [] {
      StepKeepsSound(c, s, owner, ops[0]);
      RunKeepsSound(c, Step(c, s, ops[0]).0, Minted(owner, ops[0]), ops[1..]);
    }
  }
}
