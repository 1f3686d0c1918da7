/**
 The identity of a corpus generation (ml-service/rag/corpus_generation.py:30-69): members canonicalised from their
 chunks, sorted, stripped of storage fields and hashed.  Hash functions are parameters; where a theorem needs it they
 are taken to be injective.
 */
module CorpusGeneration {
  import opened Prelude
  import opened StableSort

  datatype Value = Text(text: string) | Number(number: int)

  function Digits(n: nat): string {
    (if n < 10 then [] else Digits(n / 10)) + [['0', '1', '2', '3', '4', '5', '6', '7', '8', '9'][n % 10]]
  }

  // str() of a field.
  function Show(v: Value): string {
    match v
    case Text(text) => text
    case Number(n) => if n < 0 then "-" + Digits(-n) else Digits(n)
  }

  // A floating-point entry of an embedding, by its bit pattern.
  type Double = x: nat | x < 0x1_0000_0000_0000_0000

  // A chunk id that is missing or no string still has a text to sort by.
  datatype ChunkId = Known(id: string) | Unknown(shown: string)

  datatype Chunk = Chunk(id: ChunkId, content: Option<string>, embedding: Option<seq<Double>>)

  datatype Row = Row(chunkId: string, contentHash: string, embeddingHash: string)

  // What int() makes of the version field.
  datatype Version = Absent | NotNumeric | Numeric(number: int)

  datatype Revision = Revision(revisionId: Option<Value>, documentId: Option<Value>, version: Version,
                               scope: Option<Value>, tenant: Option<Value>)

  type Member = map<string, Value>

  datatype Error = Incomplete | NoContent | NoEmbedding | MissingField(name: string) | NotANumber

  datatype Hashes = Hashes(text: string -> string, embedding: seq<Double> -> string, rows: seq<Row> -> string,
                           members: seq<Member> -> string)

  ghost predicate Injective(h: Hashes) {
    && (forall x, y | h.text(x) == h.text(y) :: x == y)
    && (forall x, y | h.embedding(x) == h.embedding(y) :: x == y)
    && (forall x, y | h.rows(x) == h.rows(y) :: x == y)
    && (forall x, y | h.members(x) == h.members(y) :: x == y)
  }

  function ChunkKey(c: Chunk): string {
    match c.id
    case Known(id) => id
    case Unknown(shown) => shown
  }

  predicate Identified(chunks: seq<Chunk>) {
    chunks != [] && forall c | c in chunks :: c.id.Known?
  }

  function RowOf(c: Chunk, h: Hashes): Result<Row, Error> {
    if c.content.None? then Err(NoContent)
    else if c.embedding.None? then Err(NoEmbedding)
    else Ok(Row(ChunkKey(c), h.text(c.content.value), h.embedding(c.embedding.value)))
  }

  /** The rows of the chunks in order, or the error of the first chunk that has none. */
  function RowsOf(chunks: seq<Chunk>, h: Hashes): Result<seq<Row>, Error> {
    if chunks == [] then Ok([])
    else match RowsOf(chunks[..|chunks| - 1], h)
      case Err(e) => Err(e)
      case Ok(rows) =>
        match RowOf(chunks[|chunks| - 1], h)
        case Err(e) => Err(e)
        case Ok(row) => Ok(rows + [row])
  }

  function Assemble(r: Revision, rows: seq<Row>, h: Hashes): Result<Member, Error> {
    if r.revisionId.None? then Err(MissingField("document_revision_id"))
    else if r.documentId.None? then Err(MissingField("document_id"))
    else if r.version.Absent? then Err(MissingField("version_number"))
    else if r.version.NotNumeric? then Err(NotANumber)
    else Ok(map[
      "document_revision_id" := r.revisionId.value,
      "document_id" := r.documentId.value,
      "version_number" := Number(r.version.number),
      "scope" := Or(r.scope, "global"),
      "tenant_id" := Or(r.tenant, "default"),
      "chunk_count" := Number(|rows|),
      "chunk_set_sha256" := Text(h.rows(rows))])
  }

  function Or(v: Option<Value>, default: string): Value {
    if v.Some? then v.value else Text(default)
  }

  function Canonical(r: Revision, chunks: seq<Chunk>, h: Hashes): Result<Member, Error> {
    if !Identified(Sort(chunks, ChunkKey)) then Err(Incomplete)
    else match RowsOf(Sort(chunks, ChunkKey), h)
      case Err(e) => Err(e)
      case Ok(rows) => Assemble(r, rows, h)
  }

  lemma {:induction false} ErrorSticks(chunks: seq<Chunk>, i: nat, h: Hashes)
    requires i <= |chunks| && RowsOf(chunks[..i], h).Err?
    ensures RowsOf(chunks, h) == RowsOf(chunks[..i], h)
    decreases |chunks|
  {
    if i == |chunks| {
      assert chunks[..i] == chunks;
    } else {
      var k := |chunks| - 1;
      assert chunks[..k][..i] == chunks[..i];
      ErrorSticks(chunks[..k], i, h);
    }
  }

  /** canonical_member: one row per chunk in key order, refused at the first chunk that is not whole. */
  method CanonicalMember(r: Revision, chunks: seq<Chunk>, h: Hashes) returns (member: Result<Member, Error>)
    ensures member == Canonical(r, chunks, h)
  {
    hide Sort, Assemble;
    var ordered := Sort(chunks, ChunkKey);
    if !Identified(ordered) {
      return Err(Incomplete);
    }
    var rows: seq<Row> := [];
    for i := 0 to |ordered|
      invariant RowsOf(ordered[..i], h) == Ok(rows)
    {
      assert ordered[..i + 1][..i] == ordered[..i];
      match RowOf(ordered[i], h) {
        case Err(e) =>
          assert RowsOf(ordered[..i + 1], h) == Err(e);
          ErrorSticks(ordered, i + 1, h);
          return Err(e);
        case Ok(row) =>
          rows := rows + [row];
      }
    }
    assert ordered[..|ordered|] == ordered;
    return Assemble(r, rows, h);
  }

  // ---------------------------------------------------------------- one member

  // Everything a member is meant to stand for: its identifying fields, defaults filled in, and its chunks in no order.
  datatype Content = Content(revisionId: Option<Value>, documentId: Option<Value>, version: Version, scope: Value,
                             tenant: Value, chunks: multiset<Chunk>)

  ghost function ContentOf(r: Revision, chunks: seq<Chunk>): Content {
    Content(r.revisionId, r.documentId, r.version, Or(r.scope, "global"), Or(r.tenant, "default"), multiset(chunks))
  }

  lemma {:induction false} RowsFaithful(a: seq<Chunk>, b: seq<Chunk>, h: Hashes)
    requires Injective(h) && RowsOf(a, h).Ok? && RowsOf(a, h) == RowsOf(b, h)
    requires (forall c | c in a :: c.id.Known?) && (forall c | c in b :: c.id.Known?)
    ensures a == b
    decreases |a|
  {
    RowCount(a, h);
    RowCount(b, h);
    if a != [] {
      var k := |a| - 1;
      LastRow(a, h);
      LastRow(b, h);
      RowsFaithful(a[..k], b[..k], h);
      assert a[k].id.Known? && b[k].id.Known?;
      RowFaithful(a[k], b[k], h);
      assert a == a[..k] + [a[k]] && b == b[..k] + [b[k]];
    }
  }

  lemma RowFaithful(a: Chunk, b: Chunk, h: Hashes)
    requires Injective(h) && RowOf(a, h).Ok? && RowOf(a, h) == RowOf(b, h) && a.id.Known? && b.id.Known?
    ensures a == b
  {
  }

  lemma LastRow(chunks: seq<Chunk>, h: Hashes)
    requires RowsOf(chunks, h).Ok? && chunks != []
    ensures var k, rows := |chunks| - 1, RowsOf(chunks, h).value;
            && |rows| > 0
            && RowsOf(chunks[..k], h) == Ok(rows[..|rows| - 1])
            && RowOf(chunks[k], h) == Ok(rows[|rows| - 1])
  {
  }

  lemma {:induction false} RowCount(chunks: seq<Chunk>, h: Hashes)
    requires RowsOf(chunks, h).Ok?
    ensures |RowsOf(chunks, h).value| == |chunks|
    decreases |chunks|
  {
    if chunks != [] {
      RowCount(chunks[..|chunks| - 1], h);
    }
  }

  lemma AssembleFaithful(r: Revision, q: Revision, a: seq<Row>, b: seq<Row>, h: Hashes)
    requires Injective(h) && Assemble(r, a, h).Ok? && Assemble(r, a, h) == Assemble(q, b, h)
    ensures a == b && r.revisionId == q.revisionId && r.documentId == q.documentId && r.version == q.version
    ensures Or(r.scope, "global") == Or(q.scope, "global") && Or(r.tenant, "default") == Or(q.tenant, "default")
  {
    var m, n := Assemble(r, a, h).value, Assemble(q, b, h).value;
    assert m["document_revision_id"] == n["document_revision_id"] && m["document_id"] == n["document_id"];
    assert m["version_number"] == n["version_number"];
    assert m["scope"] == n["scope"] && m["tenant_id"] == n["tenant_id"];
    assert m["chunk_set_sha256"] == n["chunk_set_sha256"];
  }

  /** Equal members stand for equal contents: nothing is lost by hashing. */
  lemma MemberFaithful(r: Revision, a: seq<Chunk>, q: Revision, b: seq<Chunk>, h: Hashes)
    requires Injective(h) && Canonical(r, a, h).Ok? && Canonical(r, a, h) == Canonical(q, b, h)
    ensures ContentOf(r, a) == ContentOf(q, b)
  {
    hide Assemble, Injective, RowsOf, Sort;
    var x, y := Sort(a, ChunkKey), Sort(b, ChunkKey);
    AssembleFaithful(r, q, RowsOf(x, h).value, RowsOf(y, h).value, h);
    RowsFaithful(x, y, h);
    SortPermutes(a, ChunkKey);
    SortPermutes(b, ChunkKey);
  }

  /**
   Equal contents give equal members, in whatever order the chunks were read, when ties among chunk ids are harmless.
   */
  lemma MemberOrderFree(r: Revision, a: seq<Chunk>, q: Revision, b: seq<Chunk>, h: Hashes)
    requires ContentOf(r, a) == ContentOf(q, b) && Unambiguous(a, ChunkKey)
    ensures Canonical(r, a, h) == Canonical(q, b, h)
  {
    SortIgnoresOrder(a, b, ChunkKey);
  }

  /** For a member that is accepted, that condition is exact. */
  lemma MemberOrderFreeExactly(r: Revision, chunks: seq<Chunk>, h: Hashes)
    requires Injective(h) && Canonical(r, chunks, h).Ok?
    ensures (forall p: seq<Chunk> | multiset(p) == multiset(chunks) :: Canonical(r, p, h) == Canonical(r, chunks, h))
            <==> Unambiguous(chunks, ChunkKey)
  {
    hide Canonical, Sort, Injective, Unambiguous;
    if Unambiguous(chunks, ChunkKey) {
      forall p: seq<Chunk> | multiset(p) == multiset(chunks)
        ensures Canonical(r, p, h) == Canonical(r, chunks, h)
      {
        MemberOrderFree(r, chunks, r, p, h);
      }
    } else {
      OrderFreeExactly(chunks, ChunkKey);
      var p: seq<Chunk> :| multiset(p) == multiset(chunks) && Sort(p, ChunkKey) != Sort(chunks, ChunkKey);
      if Canonical(r, p, h) == Canonical(r, chunks, h) {
        SameMemberSameOrder(r, chunks, p, h);
      }
    }
  }

  lemma SameMemberSameOrder(r: Revision, a: seq<Chunk>, b: seq<Chunk>, h: Hashes)
    requires Injective(h) && Canonical(r, a, h).Ok? && Canonical(r, a, h) == Canonical(r, b, h)
    ensures Sort(a, ChunkKey) == Sort(b, ChunkKey)
  {
    hide Assemble, Injective, RowsOf, Sort;
    var x, y := Sort(a, ChunkKey), Sort(b, ChunkKey);
    AssembleFaithful(r, r, RowsOf(x, h).value, RowsOf(y, h).value, h);
    RowsFaithful(x, y, h);
  }

  // ---------------------------------------------------------------- a generation

  const ENVELOPE := {"_id", "generation_id"}

  function Strip(m: Member): Member {
    m - ENVELOPE
  }

  function Stripped(members: seq<Member>): (r: seq<Member>)
    ensures |r| == |members| && forall i | 0 <= i < |r| :: r[i] == Strip(members[i])
  {
    seq(|members|, i requires 0 <= i < |members| => Strip(members[i]))
  }

  function MemberKey(m: Member): string {
    if "document_revision_id" in m then Show(m["document_revision_id"]) else ""
  }

  function Digest(members: seq<Member>, h: Hashes): Result<string, Error> {
    if exists m | m in members :: "document_revision_id" !in m then Err(MissingField("document_revision_id"))
    else Ok(h.members(Sort(Stripped(members), MemberKey)))
  }

  // Where one list is computed entry by entry from another, equal sources give equal results in some order.
  ghost predicate Paired<A, B>(a: seq<A>, b: seq<A>, x: seq<B>, y: seq<B>) {
    && |a| == |x| && |b| == |y|
    && forall i, j | 0 <= i < |a| && 0 <= j < |b| && a[i] == b[j] :: x[i] == y[j]
  }

  ghost function Drop<T>(s: seq<T>, i: nat): (r: seq<T>)
    requires i < |s|
    ensures |r| == |s| - 1 && multiset(s) == multiset(r) + multiset{s[i]}
    ensures forall k | 0 <= k < |r| :: r[k] == s[if k < i then k else k + 1]
  {
    assert s == s[..i] + ([s[i]] + s[i + 1..]);
    s[..i] + s[i + 1..]
  }

  lemma DropKeepsPaired<A, B>(a: seq<A>, b: seq<A>, x: seq<B>, y: seq<B>, i: nat, j: nat)
    requires Paired(a, b, x, y) && i < |a| && j < |b|
    ensures Paired(Drop(a, i), Drop(b, j), Drop(x, i), Drop(y, j))
  {
    hide Drop;
  }

  lemma {:induction false} PairedMultisets<A, B>(a: seq<A>, b: seq<A>, x: seq<B>, y: seq<B>)
    requires multiset(a) == multiset(b) && Paired(a, b, x, y)
    ensures multiset(x) == multiset(y)
    decreases |a|
  {
    hide Drop;
    assert |multiset(a)| == |a| && |multiset(b)| == |b|;
    if a != [] {
      var j := Found(a[0], a, b);
      assert x[0] == y[j];
      DropKeepsPaired(a, b, x, y, 0, j);
      hide Paired;
      assert multiset(Drop(a, 0)) == multiset(a) - multiset{a[0]};
      assert multiset(Drop(b, j)) == multiset(b) - multiset{a[0]};
      PairedMultisets(Drop(a, 0), Drop(b, j), Drop(x, 0), Drop(y, j));
    }
  }

  lemma Found<T>(e: T, a: seq<T>, b: seq<T>) returns (j: nat)
    requires e in a && multiset(a) == multiset(b)
    ensures j < |b| && b[j] == e
  {
    assert e in multiset(b);
    j :| 0 <= j < |b| && b[j] == e;
  }

  lemma StrippedReorders(a: seq<Member>, b: seq<Member>)
    requires multiset(a) == multiset(b)
    ensures multiset(Stripped(a)) == multiset(Stripped(b))
  {
    PairedMultisets(a, b, Stripped(a), Stripped(b));
  }

  lemma SameMembersNamed(a: seq<Member>, b: seq<Member>)
    requires multiset(Stripped(a)) == multiset(Stripped(b))
    ensures (forall m | m in a :: "document_revision_id" in m) ==> (forall m | m in b :: "document_revision_id" in m)
  {
    if forall m | m in a :: "document_revision_id" in m {
      forall j | 0 <= j < |b|
        ensures "document_revision_id" in b[j]
      {
        assert Stripped(b)[j] in multiset(Stripped(b));
        assert Stripped(b)[j] in Stripped(a);
        var i :| 0 <= i < |a| && Stripped(a)[i] == Stripped(b)[j];
        assert a[i] in a && "document_revision_id" in Strip(a[i]);
      }
    }
  }

  /** Storage fields never count: members that differ only in those have one digest. */
  lemma EnvelopeIgnored(a: seq<Member>, b: seq<Member>, h: Hashes)
    requires |a| == |b| && forall i | 0 <= i < |a| :: Strip(a[i]) == Strip(b[i])
    ensures Digest(a, h) == Digest(b, h)
  {
    assert Stripped(a) == Stripped(b);
    SameMembersNamed(a, b);
    SameMembersNamed(b, a);
  }

  /** Equal digests mean equal members, storage fields and order aside. */
  lemma DigestFaithful(a: seq<Member>, b: seq<Member>, h: Hashes)
    requires Injective(h) && Digest(a, h).Ok? && Digest(a, h) == Digest(b, h)
    ensures multiset(Stripped(a)) == multiset(Stripped(b))
  {
    SortPermutes(Stripped(a), MemberKey);
    SortPermutes(Stripped(b), MemberKey);
  }

  /** And the same members in any order give one digest, when ties among revision ids are harmless. */
  lemma DigestOrderFree(a: seq<Member>, b: seq<Member>, h: Hashes)
    requires multiset(Stripped(a)) == multiset(Stripped(b)) && Unambiguous(Stripped(a), MemberKey)
    ensures Digest(a, h) == Digest(b, h)
  {
    SameMembersNamed(a, b);
    SameMembersNamed(b, a);
    SortIgnoresOrder(Stripped(a), Stripped(b), MemberKey);
  }

  /** That condition is exact: two different members under one revision id make the digest depend on reading order. */
  lemma DigestOrderFreeExactly(members: seq<Member>, h: Hashes)
    requires Injective(h) && Digest(members, h).Ok?
    ensures (forall p: seq<Member> | multiset(p) == multiset(members) :: Digest(p, h) == Digest(members, h))
            <==> Unambiguous(Stripped(members), MemberKey)
  {
    hide Digest, Sort, Unambiguous, Injective, Strip, MemberKey;
    if Unambiguous(Stripped(members), MemberKey) {
      forall p: seq<Member> | multiset(p) == multiset(members)
        ensures Digest(p, h) == Digest(members, h)
      {
        StrippedReorders(members, p);
        DigestOrderFree(members, p, h);
      }
    } else {
      var i, j := Tie(members);
      var p, q := Front(members, i), Front(members, j);
      FirstOfTieShows(Stripped(p), Stripped(q), MemberKey);
      DifferentOrders(members, p, q, h);
      assert multiset(p) == multiset(members) && multiset(q) == multiset(members);
    }
  }

  lemma Tie(members: seq<Member>) returns (i: nat, j: nat)
    requires !Unambiguous(Stripped(members), MemberKey)
    ensures i < |members| && j < |members| && Strip(members[i]) != Strip(members[j])
    ensures MemberKey(Strip(members[i])) == MemberKey(Strip(members[j]))
  {
    hide MemberKey, Strip;
    var s := Stripped(members);
    i, j :| 0 <= i < |s| && 0 <= j < |s| && MemberKey(s[i]) == MemberKey(s[j]) && s[i] != s[j];
  }

  lemma DifferentOrders(members: seq<Member>, p: seq<Member>, q: seq<Member>, h: Hashes)
    requires Injective(h) && Digest(members, h).Ok?
    requires multiset(p) == multiset(q) == multiset(members)
    requires Sort(Stripped(p), MemberKey) != Sort(Stripped(q), MemberKey)
    ensures Digest(p, h) != Digest(members, h) || Digest(q, h) != Digest(members, h)
  {
    hide Sort, Strip, MemberKey;
    SameNames(members, p);
    SameNames(members, q);
  }

  lemma SameNames(a: seq<Member>, b: seq<Member>)
    requires multiset(a) == multiset(b)
    ensures forall m :: m in b ==> m in a
  {
    assert forall m :: m in b ==> m in multiset(b);
  }

  // ---------------------------------------------------------------- from chunks to the digest

  datatype Entry = Entry(revision: Revision, chunks: seq<Chunk>)

  ghost predicate Accepted(entries: seq<Entry>, h: Hashes) {
    forall i | 0 <= i < |entries| :: Canonical(entries[i].revision, entries[i].chunks, h).Ok?
  }

  ghost function MembersOf(entries: seq<Entry>, h: Hashes): (r: seq<Member>)
    requires Accepted(entries, h)
    ensures |r| == |entries|
    ensures forall i | 0 <= i < |r| :: Canonical(entries[i].revision, entries[i].chunks, h) == Ok(r[i])
  {
    seq(|entries|, i requires 0 <= i < |entries| => Canonical(entries[i].revision, entries[i].chunks, h).value)
  }

  ghost function ContentsOf(entries: seq<Entry>): (r: seq<Content>)
    ensures |r| == |entries| && forall i | 0 <= i < |r| :: r[i] == ContentOf(entries[i].revision, entries[i].chunks)
  {
    seq(|entries|, i requires 0 <= i < |entries| => ContentOf(entries[i].revision, entries[i].chunks))
  }

  lemma Assembled(r: Revision, chunks: seq<Chunk>, h: Hashes)
    requires Canonical(r, chunks, h).Ok?
    ensures var m := Canonical(r, chunks, h).value; "document_revision_id" in m && Strip(m) == m
  {
    hide Sort, RowsOf;
  }

  lemma MembersPlain(entries: seq<Entry>, h: Hashes)
    requires Accepted(entries, h)
    ensures Stripped(MembersOf(entries, h)) == MembersOf(entries, h) && Digest(MembersOf(entries, h), h).Ok?
  {
    hide Canonical, Strip, Sort;
    var ms := MembersOf(entries, h);
    forall i | 0 <= i < |ms|
      ensures "document_revision_id" in ms[i] && Strip(ms[i]) == ms[i]
    {
      Assembled(entries[i].revision, entries[i].chunks, h);
    }
    assert Stripped(ms) == ms;
  }

  // Chunk ids tell chunks apart in every entry, and revision ids tell entries apart.
  ghost predicate WellNamed(entries: seq<Entry>, h: Hashes)
    requires Accepted(entries, h)
  {
    && (forall i | 0 <= i < |entries| :: Unambiguous(entries[i].chunks, ChunkKey))
    && Unambiguous(MembersOf(entries, h), MemberKey)
  }

  /** The digest is the identity of the corpus: equal exactly when the contents are equal, whatever the orders. */
  lemma DigestIsIdentity(a: seq<Entry>, b: seq<Entry>, h: Hashes)
    requires Injective(h) && Accepted(a, h) && Accepted(b, h) && WellNamed(a, h)
    ensures Digest(MembersOf(a, h), h) == Digest(MembersOf(b, h), h)
            <==> multiset(ContentsOf(a)) == multiset(ContentsOf(b))
  {
    hide Injective, Canonical, ContentOf, Digest, Unambiguous;
    var ma, mb := MembersOf(a, h), MembersOf(b, h);
    MembersPlain(a, h);
    MembersPlain(b, h);
    if Digest(ma, h) == Digest(mb, h) {
      DigestFaithful(ma, mb, h);
      forall i, j | 0 <= i < |ma| && 0 <= j < |mb| && ma[i] == mb[j]
        ensures ContentsOf(a)[i] == ContentsOf(b)[j]
      {
        MemberFaithful(a[i].revision, a[i].chunks, b[j].revision, b[j].chunks, h);
      }
      PairedMultisets(ma, mb, ContentsOf(a), ContentsOf(b));
    }
    if multiset(ContentsOf(a)) == multiset(ContentsOf(b)) {
      forall i, j | 0 <= i < |ma| && 0 <= j < |mb| && ContentsOf(a)[i] == ContentsOf(b)[j]
        ensures ma[i] == mb[j]
      {
        MemberOrderFree(a[i].revision, a[i].chunks, b[j].revision, b[j].chunks, h);
      }
      PairedMultisets(ContentsOf(a), ContentsOf(b), ma, mb);
      DigestOrderFree(ma, mb, h);
    }
  }

  // ---------------------------------------------------------------- the fields of a member

  function DigitValue(c: char): int {
    c as int - '0' as int
  }

  function Read(s: string): int {
    if s == [] then 0 else 10 * Read(s[..|s| - 1]) + DigitValue(s[|s| - 1])
  }

  /** str() of a number is its decimal form: it reads back as the number. */
  lemma {:induction false} DigitsExact(n: nat)
    ensures Read(Digits(n)) == n
  {
    var last := ['0', '1', '2', '3', '4', '5', '6', '7', '8', '9'][n % 10];
    assert DigitValue(last) == n % 10;
    if n >= 10 {
      DigitsExact(n / 10);
      assert Digits(n)[..|Digits(n)| - 1] == Digits(n / 10);
    } else {
      assert Digits(n)[..|Digits(n)| - 1] == [];
    }
  }

  /** It consists of digits, at least one, and starts with a zero for zero alone. */
  lemma {:induction false} DigitsForm(n: nat)
    ensures Digits(n) != [] && (n > 0 ==> Digits(n)[0] != '0')
    ensures forall i | 0 <= i < |Digits(n)| :: '0' <= Digits(n)[i] <= '9'
  {
    if n >= 10 {
      DigitsForm(n / 10);
    }
  }

  function ReadSigned(s: string): int {
    if s != [] && s[0] == '-' then -Read(s[1..]) else Read(s)
  }

  /** str() of a field loses nothing a reader could not recover: signed numbers read back, texts are themselves. */
  lemma ShowReadsBack(n: int, text: string)
    ensures ReadSigned(Show(Number(n))) == n && Show(Text(text)) == text
  {
    hide Digits, Read;
    DigitsExact(if n < 0 then -n else n);
    DigitsForm(if n < 0 then -n else n);
    if n < 0 {
      assert Show(Number(n))[1..] == Digits(-n);
    }
  }

  // The row a chunk contributes: its id and the digests of its content and of its embedding.
  ghost predicate RowFor(row: Row, c: Chunk, h: Hashes) {
    && c.id == Known(row.chunkId)
    && c.content.Some? && row.contentHash == h.text(c.content.value)
    && c.embedding.Some? && row.embeddingHash == h.embedding(c.embedding.value)
  }

  lemma {:induction false} RowsExactly(chunks: seq<Chunk>, h: Hashes)
    requires forall c | c in chunks :: c.id.Known?
    ensures RowsOf(chunks, h).Ok? <==> forall c | c in chunks :: c.content.Some? && c.embedding.Some?
    ensures RowsOf(chunks, h).Ok? ==>
              && |RowsOf(chunks, h).value| == |chunks|
              && forall i | 0 <= i < |chunks| :: RowFor(RowsOf(chunks, h).value[i], chunks[i], h)
    decreases |chunks|
  {
    if chunks != [] {
      var k := |chunks| - 1;
      RowsExactly(chunks[..k], h);
      assert chunks == chunks[..k] + [chunks[k]];
      assert chunks[k] in chunks;
    }
  }

  /** Chunks that are not whole are refused for the first of them, its content before its embedding. */
  lemma {:induction false} FirstFault(chunks: seq<Chunk>, h: Hashes) returns (k: nat)
    requires RowsOf(chunks, h).Err?
    ensures k < |chunks| && forall i | 0 <= i < k :: chunks[i].content.Some? && chunks[i].embedding.Some?
    ensures chunks[k].content.None? || chunks[k].embedding.None?
    ensures RowsOf(chunks, h) == Err(if chunks[k].content.None? then NoContent else NoEmbedding)
    decreases |chunks|
  {
    var last := |chunks| - 1;
    if RowsOf(chunks[..last], h).Err? {
      k := FirstFault(chunks[..last], h);
    } else {
      k := last;
      WholeSoFar(chunks[..last], h);
    }
  }

  lemma {:induction false} WholeSoFar(chunks: seq<Chunk>, h: Hashes)
    requires RowsOf(chunks, h).Ok?
    ensures forall i | 0 <= i < |chunks| :: chunks[i].content.Some? && chunks[i].embedding.Some?
    decreases |chunks|
  {
    if chunks != [] {
      WholeSoFar(chunks[..|chunks| - 1], h);
    }
  }

  /** Otherwise the revision is refused for the first field it lacks. */
  lemma FieldRefusal(r: Revision, rows: seq<Row>, h: Hashes)
    ensures Assemble(r, rows, h) == Err(MissingField("document_revision_id")) <==> r.revisionId.None?
    ensures Assemble(r, rows, h) == Err(MissingField("document_id")) <==> r.revisionId.Some? && r.documentId.None?
    ensures Assemble(r, rows, h) == Err(MissingField("version_number"))
            <==> r.revisionId.Some? && r.documentId.Some? && r.version.Absent?
    ensures Assemble(r, rows, h) == Err(NotANumber)
            <==> r.revisionId.Some? && r.documentId.Some? && r.version.NotNumeric?
  {
    assert "document_revision_id"[9] != "document_id"[9];
    assert "version_number"[0] != 'd';
  }

  /** A member is accepted exactly when it has chunks, all of them whole, and the revision has its three fields. */
  lemma AcceptedExactly(r: Revision, chunks: seq<Chunk>, h: Hashes)
    ensures Canonical(r, chunks, h) == Err(Incomplete) <==> chunks == [] || exists c | c in chunks :: c.id.Unknown?
    ensures Canonical(r, chunks, h).Ok?
            <==> && chunks != []
                 && (forall c | c in chunks :: c.id.Known? && c.content.Some? && c.embedding.Some?)
                 && r.revisionId.Some? && r.documentId.Some? && r.version.Numeric?
  {
    var ordered := Sort(chunks, ChunkKey);
    SortPermutes(chunks, ChunkKey);
    assert forall c :: c in ordered <==> c in multiset(ordered);
    assert forall c :: c in chunks <==> c in multiset(chunks);
    if forall c | c in ordered :: c.id.Known? {
      RowsExactly(ordered, h);
      if RowsOf(ordered, h).Err? {
        var k := FirstFault(ordered, h);
      }
    }
    hide Sort, RowsOf;
  }

  /** The seven fields of a member, each from its own source; scope and tenant have defaults. */
  lemma MemberFields(r: Revision, chunks: seq<Chunk>, h: Hashes) returns (rows: seq<Row>)
    requires Canonical(r, chunks, h).Ok?
    ensures |rows| == |chunks| == |Sort(chunks, ChunkKey)|
    ensures forall i | 0 <= i < |rows| :: RowFor(rows[i], Sort(chunks, ChunkKey)[i], h)
    ensures var m := Canonical(r, chunks, h).value;
            && m.Keys == {"document_revision_id", "document_id", "version_number", "scope", "tenant_id", "chunk_count",
                          "chunk_set_sha256"}
            && Some(m["document_revision_id"]) == r.revisionId
            && Some(m["document_id"]) == r.documentId
            && r.version.Numeric? && m["version_number"] == Number(r.version.number)
            && m["scope"] == (if r.scope.Some? then r.scope.value else Text("global"))
            && m["tenant_id"] == (if r.tenant.Some? then r.tenant.value else Text("default"))
            && m["chunk_count"] == Number(|chunks|)
            && m["chunk_set_sha256"] == Text(h.rows(rows))
  {
    var ordered := Sort(chunks, ChunkKey);
    SortPermutes(chunks, ChunkKey);
    RowsExactly(ordered, h);
    hide Sort, RowsOf;
    rows := RowsOf(ordered, h).value;
  }

  /** Setting the two storage fields of any member, to anything, changes no digest. */
  lemma StorageFieldsIgnored(members: seq<Member>, i: nat, id: Value, generation: Value, h: Hashes)
    requires i < |members|
    ensures Digest(members[i := members[i]["_id" := id]["generation_id" := generation]], h) == Digest(members, h)
  {
    var stored := members[i]["_id" := id]["generation_id" := generation];
    assert Strip(stored) == Strip(members[i]);
    EnvelopeIgnored(members[i := stored], members, h);
  }

  /** Digests are refused exactly for a member without its revision id. */
  lemma DigestRefusedExactly(members: seq<Member>, h: Hashes)
    ensures Digest(members, h).Err? <==> exists i | 0 <= i < |members| :: "document_revision_id" !in members[i]
  {
    assert forall i | 0 <= i < |members| :: members[i] in members;
  }
}
