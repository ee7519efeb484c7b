/** AEP records as JSON objects, their digests, and what a hash collision between two records is. */
module Records {
  // SHA-256 is a parameter: nothing is assumed of it. Where the source relies on collision resistance, a
  // theorem concludes "or these two records collide".

  import opened JsonValue
  import opened NormalForm
  import opened RoundTrip
  import opened Utf8

  /** `createHash("sha256").update(bytes).digest("hex")`. */
  type HashFn = Bytes -> Text

  const SIGNATURE := Lit("signature")
  const DSSE_ENVELOPE := Lit("dsse_envelope")
  const TIMESTAMP_PROOF := Lit("timestamp_proof")
  const PREV_RECORD_HASH := Lit("prev_record_hash")
  const SCHEMA_VERSION := Lit("schema_version")
  const RUN_ID := Lit("run_id")
  const CREATED_AT_MS := Lit("created_at_ms")
  const ACTIONS := Lit("actions")
  const CAPABILITY_DECISIONS := Lit("capability_decisions")

  /** A record is an object; which other fields it has does not matter to the chain. */
  predicate IsRecord(r: Value) { r.Obj? && WellFormed(r) }

  type Record = r: Value | IsRecord(r) witness Obj([])

  function Strip(r: Record, ks: set<Text>): Record {
    WithoutWellFormed(r.members, ks);
    WithoutDistinct(r.members, ks);
    Obj(Without(r.members, ks))
  }

  lemma StripGet(r: Record, ks: set<Text>)
    ensures forall k :: Get(Strip(r, ks), k) == if k in ks then Undefined else Get(r, k)
  {
    forall k ensures Get(Strip(r, ks), k) == if k in ks then Undefined else Get(r, k) {
      WithoutFind(r.members, ks, k);
    }
  }

  /** What a record digest covers: everything but the signature and the envelope. */
  function Unsigned(r: Record): Record {
    Strip(r, {SIGNATURE, DSSE_ENVELOPE})
  }

  function HashedBytes(r: Record): Bytes {
    CanonicalBytes(Unsigned(r))
  }

  function Digest(h: HashFn, r: Record): Text {
    h(HashedBytes(r))
  }

  predicate Collide(h: HashFn, x: Bytes, y: Bytes) { x != y && h(x) == h(y) }

  predicate RecordsCollide(h: HashFn, a: Record, b: Record) { Collide(h, HashedBytes(a), HashedBytes(b)) }

  /** Some record of the first list collides with some record of the second. */
  ghost predicate CollisionBetween(h: HashFn, rs: seq<Record>, ss: seq<Record>) {
    exists x: Record, y: Record :: x in rs && y in ss && RecordsCollide(h, x, y)
  }

  predicate SameUnsigned(a: Record, b: Record) { SameContent(Unsigned(a), Unsigned(b)) }

  predicate SameHistory(a: seq<Record>, b: seq<Record>) {
    |a| == |b| && forall i :: 0 <= i < |a| ==> SameUnsigned(a[i], b[i])
  }

  /** Equal digests mean equal content, or the two records collide. */
  lemma DigestFixesContent(h: HashFn, a: Record, b: Record)
    ensures SameUnsigned(a, b) ==> Digest(h, a) == Digest(h, b)
    ensures Digest(h, a) == Digest(h, b) ==> SameUnsigned(a, b) || RecordsCollide(h, a, b)
  {
    StripGet(a, {SIGNATURE, DSSE_ENVELOPE});
    StripGet(b, {SIGNATURE, DSSE_ENVELOPE});
    BytesDecideContent(Unsigned(a), Unsigned(b));
  }

  /** Values of equal content agree on every property, undefined ones included. */
  lemma SameContentGet(a: Record, b: Record, k: Text)
    requires SameContent(a, b)
    ensures Get(a, k).Undefined? <==> Get(b, k).Undefined?
    ensures SameContent(Get(a, k), Get(b, k))
  {
    GetWellFormed(a, k);
    GetWellFormed(b, k);
    if !Get(a, k).Undefined? {
      var i :| 0 <= i < |a.members| && a.members[i] == Entry(k, Get(a, k));
    }
    if !Get(b, k).Undefined? {
      var j :| 0 <= j < |b.members| && b.members[j] == Entry(k, Get(b, k));
    }
  }

  lemma SameUnsignedGet(a: Record, b: Record, k: Text)
    requires SameUnsigned(a, b) && k != SIGNATURE && k != DSSE_ENVELOPE
    ensures Get(a, k).Undefined? <==> Get(b, k).Undefined?
    ensures SameContent(Get(a, k), Get(b, k))
  {
    StripGet(a, {SIGNATURE, DSSE_ENVELOPE});
    StripGet(b, {SIGNATURE, DSSE_ENVELOPE});
    SameContentGet(Unsigned(a), Unsigned(b), k);
  }
}
