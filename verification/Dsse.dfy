/** DSSE envelopes (packages/aep/src/dsse.ts) and how a record binds to its envelope (verify.ts). */
module Dsse {
  // The pre-authentication encoding is injective, and an envelope fixes the content of every record it
  // verifies.

  import opened JsonValue
  import opened Canonical
  import opened JsonParser
  import opened Utf8
  import opened RoundTrip
  import opened Records

  /** Library primitives. Nothing is assumed of the hash; the signature scheme and base64 satisfy
      the laws stated by `Base64Laws` and by the emitter's key. */
  datatype Crypto = Crypto(
    sha256: HashFn,
    encode64: Bytes -> Text,
    decode64: Text -> Bytes,
    verify: (Bytes, Bytes, Bytes) -> bool)

  const SPACE: Unit := 0x20
  const PAYLOAD_TYPE := Lit("payloadType")
  const PAYLOAD := Lit("payload")
  const SIGNATURES := Lit("signatures")
  const KEYID := Lit("keyid")
  const SIG := Lit("sig")
  const TYPE := Lit("_type")
  const SUBJECT := Lit("subject")
  const NAME := Lit("name")
  const DIGEST := Lit("digest")
  const SHA256 := Lit("sha256")
  const PREDICATE_TYPE := Lit("predicateType")
  const PREDICATE := Lit("predicate")
  const AEP_PREDICATE_TYPE := Lit("https://wasmagent.dev/attestations/aep/v0.4")
  const IN_TOTO_PAYLOAD_TYPE := Lit("application/vnd.in-toto+json")
  const STATEMENT_TYPE := Lit("https://in-toto.io/Statement/v1")
  const RUN_URN := Lit("urn:wasmagent:run:")
  const V0_3 := Lit("aep/v0.3")
  const V0_4 := Lit("aep/v0.4")

  // ----- pre-authentication encoding

  function PaeHeader(typeLength: nat): Text {
    Lit("DSSEv1 ") + (Digits(typeLength) + [SPACE])
  }

  function PaeMiddle(bodyLength: nat): Text {
    [SPACE] + (Digits(bodyLength) + [SPACE])
  }

  /** PAE(type, body) of DSSE 1.0.2, section 2. */
  function Pae(typeBytes: Bytes, body: Bytes): Bytes {
    Encode(PaeHeader(|typeBytes|)) + (typeBytes + (Encode(PaeMiddle(|body|)) + body))
  }

  /** `target.set(source, offset)`, after `written` has filled the part before. */
  method SetAt(target: array<Byte>, source: Bytes, offset: nat, ghost written: Bytes)
    requires offset + |source| <= target.Length && target[..offset] == written
    modifies target
    ensures target[..offset + |source|] == written + source
    ensures target[offset + |source|..] == old(target[offset + |source|..])
  {
    for i := 0 to |source|
      invariant target[..offset + i] == written + source[..i]
      invariant target[offset + |source|..] == old(target[offset + |source|..])
    {
      target[offset + i] := source[i];
      assert target[..offset + i + 1] == target[..offset + i] + [source[i]];
    }
    assert source[..|source|] == source;
  }

  /** `paeEncode`: four copies at computed offsets fill the buffer with exactly the encoding. */
  method PaeEncode(payloadType: Text, payload: Bytes) returns (result: array<Byte>)
    ensures fresh(result)
    ensures result[..] == Pae(Encode(payloadType), payload)
  {
    var typeBytes := Encode(payloadType);
    var header := Encode(PaeHeader(|typeBytes|));
    var mid := Encode(PaeMiddle(|payload|));
    FourParts(header, typeBytes, mid, payload);
    hide Encode, Digits, Lit, PaeHeader, PaeMiddle;
    result := new Byte[|header| + |typeBytes| + |mid| + |payload|];
    SetAt(result, header, 0, []);
    assert [] + header == header;
    SetAt(result, typeBytes, |header|, header);
    SetAt(result, mid, |header| + |typeBytes|, header + typeBytes);
    SetAt(result, payload, |header| + |typeBytes| + |mid|, header + typeBytes + mid);
    assert result[..] == result[..result.Length];
  }

  lemma FourParts(a: Bytes, b: Bytes, c: Bytes, d: Bytes)
    ensures a + b + c + d == a + (b + (c + d))
  {
  }

  lemma NumberAscii(n: nat, prefix: Text)
    requires Ascii(prefix)
    ensures Encode(prefix + (Digits(n) + [SPACE])) == prefix + (Digits(n) + [SPACE])
  {
    var t := prefix + (Digits(n) + [SPACE]);
    assert Ascii(t) by {
      forall i | 0 <= i < |t| ensures t[i] < 0x80 {
        if |prefix| <= i < |prefix| + |Digits(n)| { assert t[i] == Digits(n)[i - |prefix|]; }
      }
    }
    AsciiPaired(t);
  }

  /** A length, a space and the rest determine the length and the rest. */
  lemma LengthThenRest(m: nat, n: nat, x: Text, y: Text)
    requires (Digits(m) + [SPACE]) + x == (Digits(n) + [SPACE]) + y
    ensures m == n && x == y
  {
    ReadNatBack(m, [SPACE] + x);
    ReadNatBack(n, [SPACE] + y);
    Assoc(Digits(m), [SPACE], x);
    Assoc(Digits(n), [SPACE], y);
    FirstUnit(SPACE, x);
    FirstUnit(SPACE, y);
  }

  lemma SplitAt(a: Text, b: Text, x: Text, y: Text)
    requires a + x == b + y && |a| == |b|
    ensures a == b && x == y
  {
    assert a == (a + x)[..|a|] && x == (a + x)[|a|..] && b == (b + y)[..|b|] && y == (b + y)[|b|..];
  }

  /** The pre-authentication encoding fixes both the type and the body. */
  lemma PaeInjective(t1: Bytes, b1: Bytes, t2: Bytes, b2: Bytes)
    requires Pae(t1, b1) == Pae(t2, b2)
    ensures t1 == t2 && b1 == b2
  {
    var p := Lit("DSSEv1 ");
    assert Ascii(p) && Ascii([SPACE]);
    NumberAscii(|t1|, p);
    NumberAscii(|t2|, p);
    NumberAscii(|b1|, [SPACE]);
    NumberAscii(|b2|, [SPACE]);
    hide Encode, Digits, Lit;
    var m1, m2 := PaeMiddle(|b1|) + b1, PaeMiddle(|b2|) + b2;
    Assoc(p, Digits(|t1|) + [SPACE], t1 + m1);
    Assoc(p, Digits(|t2|) + [SPACE], t2 + m2);
    SplitAt(p, p, (Digits(|t1|) + [SPACE]) + (t1 + m1), (Digits(|t2|) + [SPACE]) + (t2 + m2));
    LengthThenRest(|t1|, |t2|, t1 + m1, t2 + m2);
    SplitAt(t1, t2, m1, m2);
    Assoc([SPACE], Digits(|b1|) + [SPACE], b1);
    Assoc([SPACE], Digits(|b2|) + [SPACE], b2);
    SplitAt([SPACE], [SPACE], (Digits(|b1|) + [SPACE]) + b1, (Digits(|b2|) + [SPACE]) + b2);
    LengthThenRest(|b1|, |b2|, b1, b2);
  }

  // ----- envelopes

  /** Both base64 alphabets are accepted by mapping the URL-safe one onto the standard one. */
  function StandardAlphabet(t: Text): (r: Text)
    ensures |r| == |t|
  {
    seq(|t|, i requires 0 <= i < |t| => if t[i] == 0x2D then 0x2B else if t[i] == 0x5F then 0x2F else t[i])
  }

  function DecodeBase64Either(c: Crypto, t: Text): Bytes {
    c.decode64(StandardAlphabet(t))
  }

  /** Standard base64 decodes back and contains neither '-' nor '_'. */
  ghost predicate Base64Laws(c: Crypto) {
    forall b: Bytes :: c.decode64(c.encode64(b)) == b
                    && forall i :: 0 <= i < |c.encode64(b)| ==> c.encode64(b)[i] != 0x2D && c.encode64(b)[i] != 0x5F
  }

  lemma DecodeEncoded(c: Crypto, b: Bytes)
    requires Base64Laws(c)
    ensures DecodeBase64Either(c, c.encode64(b)) == b
  {
    assert c.decode64(c.encode64(b)) == b;
    assert StandardAlphabet(c.encode64(b)) == c.encode64(b);
  }

  /** `verifyDSSEEnvelope`: exactly one signature, the in-toto payload type, and a signature over
      the encoding of the decoded payload. Values of other types make the source throw inside its
      `try`, which is a refusal. */
  predicate VerifyEnvelope(c: Crypto, envelope: Value, publicKey: Bytes) {
    var sigs, ptype, payload := Get(envelope, SIGNATURES), Get(envelope, PAYLOAD_TYPE), Get(envelope, PAYLOAD);
    && sigs.Arr? && |sigs.elems| == 1
    && ptype == Str(IN_TOTO_PAYLOAD_TYPE)
    && payload.Str?
    && var sig := Get(sigs.elems[0], SIG);
       sig.Str? && sig.s != []
       && c.verify(DecodeBase64Either(c, sig.s), Pae(Encode(ptype.s), DecodeBase64Either(c, payload.s)), publicKey)
  }

  // ----- binding

  datatype BindingMode = Exact | LegacyNormalized | NotApplicable | Invalid

  datatype Authenticity = DsseValid | Unsigned_ | InvalidAuthenticity

  datatype Detailed = Detailed(valid: bool, authenticity: Authenticity, binding: BindingMode)

  lemma {:induction false} AssignWellFormed(ms: seq<Entry<Value>>, k: Text, x: Value)
    requires (forall i :: 0 <= i < |ms| ==> WellFormed(ms[i].val)) && WellFormed(x)
    ensures forall i :: 0 <= i < |Assign(ms, k, x)| ==> WellFormed(Assign(ms, k, x)[i].val)
  {
    if ms != [] { AssignWellFormed(ms[1..], k, x); }
  }

  function Put(r: Record, k: Text, x: Value): Record
    requires WellFormed(x)
  {
    AssignDistinct(r.members, k, x);
    AssignWellFormed(r.members, k, x);
    Obj(Assign(r.members, k, x))
  }

  lemma PutGet(r: Record, k: Text, x: Value, q: Text)
    requires WellFormed(x)
    ensures Get(Put(r, k, x), q) == if q == k then x else Get(r, q)
  {
    AssignFind(r.members, k, x, q);
  }

  /** `{ ...v }`. Spreading anything but an object yields no `schema_version`, so the comparison
      with a record fails; the empty object stands for those cases. */
  function Spread(v: Value): Record {
    if v.Obj? && WellFormed(v) then v else Obj([])
  }

  /** The fields of a record an envelope is meant to cover. */
  function Covered(r: Record): Record {
    Strip(r, {SIGNATURE, DSSE_ENVELOPE, TIMESTAMP_PROOF})
  }

  /** The in-toto statement inside an envelope, as the verifier reads it. */
  function Statement(c: Crypto, envelope: Value): Option<Value> {
    var payload := Get(envelope, PAYLOAD);
    if payload.Str? then Parse(Decode(DecodeBase64Either(c, payload.s))) else None
  }

  /** `===` between values of different origin: two objects, or two arrays, are never identical. */
  predicate Identical(v: Value, w: Value) { v == w && !v.Obj? && !v.Arr? }

  predicate InLegacyWindow(signed: Value, outer: Value) { signed == Str(V0_3) && outer == Str(V0_4) }

  /** The signed predicate as it is compared with the record: inside the legacy window its version
      is replaced by the record's. */
  function BoundPredicate(statement: Value, r: Record): Record {
    var p := Spread(Get(statement, PREDICATE));
    var outer := Get(Covered(r), SCHEMA_VERSION);
    if !Identical(Get(p, SCHEMA_VERSION), outer) && InLegacyWindow(Get(p, SCHEMA_VERSION), outer) then
      Put(p, SCHEMA_VERSION, Str(V0_4))
    else
      p
  }

  /** `dsseEnvelopeBinding`. */
  function Binding(c: Crypto, r: Record): BindingMode {
    match Statement(c, Get(r, DSSE_ENVELOPE))
    case None => Invalid
    case Some(st) =>
      var subject := Get(st, SUBJECT);
      if Get(st, PREDICATE).Undefined? || !subject.Arr? then Invalid
      else if Get(st, PREDICATE_TYPE) != Str(AEP_PREDICATE_TYPE) then Invalid
      else if Get(st, TYPE) != Str(STATEMENT_TYPE) then Invalid
      else if |subject.elems| != 1 then Invalid
      else
        var unsigned := Covered(r);
        var signed, outer := Get(Spread(Get(st, PREDICATE)), SCHEMA_VERSION), Get(unsigned, SCHEMA_VERSION);
        if !Identical(signed, outer) && !InLegacyWindow(signed, outer) then Invalid
        else
          var expected := c.sha256(CanonicalBytes(BoundPredicate(st, r)));
          if expected != c.sha256(CanonicalBytes(unsigned)) then Invalid
          else if Get(Get(subject.elems[0], DIGEST), SHA256) != Str(expected) then Invalid
          else
            var runId := Get(unsigned, RUN_ID);
            if !runId.Str? || runId.s == [] then Invalid
            else if Get(subject.elems[0], NAME) != Str(RUN_URN + runId.s) then Invalid
            else if Identical(signed, outer) then Exact else LegacyNormalized
  }

  /** `verifyAEPRecordDetailed`. */
  function VerifyDetailed(c: Crypto, r: Record, publicKey: Bytes): Detailed {
    if Truthy(Get(r, DSSE_ENVELOPE)) then
      if !VerifyEnvelope(c, Get(r, DSSE_ENVELOPE), publicKey) then Detailed(false, InvalidAuthenticity, NotApplicable)
      else
        var binding := Binding(c, r);
        Detailed(binding != Invalid, if binding == Invalid then InvalidAuthenticity else DsseValid, binding)
    else if !Truthy(Get(r, SIGNATURE)) then Detailed(false, Unsigned_, NotApplicable)
    else Detailed(false, InvalidAuthenticity, NotApplicable)
  }

  /** The predicate a record is compared with, through its own envelope. */
  function ComparedPredicate(c: Crypto, r: Record): Record {
    match Statement(c, Get(r, DSSE_ENVELOPE))
    case Some(st) => BoundPredicate(st, r)
    case None => Obj([])
  }

  /** One of the hashes the two verifications compared is a collision. */
  predicate BindingCollision(c: Crypto, a: Record, b: Record) {
    var p, q := CanonicalBytes(ComparedPredicate(c, a)), CanonicalBytes(ComparedPredicate(c, b));
    Collide(c.sha256, p, CanonicalBytes(Covered(a)))
    || Collide(c.sha256, q, CanonicalBytes(Covered(b)))
    || Collide(c.sha256, p, q)
  }

  lemma BindingDigests(c: Crypto, r: Record)
    requires Binding(c, r) != Invalid
    ensures var digest := c.sha256(CanonicalBytes(ComparedPredicate(c, r)));
            var st := Statement(c, Get(r, DSSE_ENVELOPE));
            && digest == c.sha256(CanonicalBytes(Covered(r)))
            && st.Some? && Get(st.value, SUBJECT).Arr? && |Get(st.value, SUBJECT).elems| == 1
            && Get(Get(Get(st.value, SUBJECT).elems[0], DIGEST), SHA256) == Str(digest)
  {
    hide CanonicalBytes, Find, Covered, Spread, BoundPredicate, Parse, Lit;
  }

  lemma ValidMeansBound(c: Crypto, r: Record, key: Bytes)
    requires VerifyDetailed(c, r, key).valid
    ensures Binding(c, r) != Invalid
  {
    hide Binding, VerifyEnvelope, Get;
  }

  lemma SamePayloadSameStatement(c: Crypto, e: Value, f: Value)
    requires Get(e, PAYLOAD) == Get(f, PAYLOAD)
    ensures Statement(c, e) == Statement(c, f)
  {
    hide Get, Parse;
  }

  /** Two records that verify with the same envelope payload have the same content, schema version
      included and even across the legacy window, or a collision is exhibited. */
  lemma EnvelopeFixesRecord(c: Crypto, a: Record, b: Record, keyA: Bytes, keyB: Bytes)
    requires VerifyDetailed(c, a, keyA).valid && VerifyDetailed(c, b, keyB).valid
    requires Get(Get(a, DSSE_ENVELOPE), PAYLOAD) == Get(Get(b, DSSE_ENVELOPE), PAYLOAD)
    ensures SameContent(Covered(a), Covered(b)) || BindingCollision(c, a, b)
  {
    hide CanonicalBytes, SameContent, Covered, ComparedPredicate, WellFormed, Get, Parse, Normal, VerifyEnvelope,
         Binding, Truthy, Lit;
    ValidMeansBound(c, a, keyA);
    ValidMeansBound(c, b, keyB);
    SamePayloadSameStatement(c, Get(a, DSSE_ENVELOPE), Get(b, DSSE_ENVELOPE));
    BindingDigests(c, a);
    BindingDigests(c, b);
    BytesDecideContent(Covered(a), Covered(b));
  }

  /** What the verifier calls exact really is: the signed predicate has the record's content. */
  lemma ExactMeansSameContent(c: Crypto, r: Record, key: Bytes)
    requires VerifyDetailed(c, r, key) == Detailed(true, DsseValid, Exact)
    ensures Statement(c, Get(r, DSSE_ENVELOPE)).Some?
    ensures var st := Statement(c, Get(r, DSSE_ENVELOPE)).value;
            SameContent(Spread(Get(st, PREDICATE)), Covered(r)) || BindingCollision(c, r, r)
  {
    BindingDigests(c, r);
    var st := Statement(c, Get(r, DSSE_ENVELOPE)).value;
    assert BoundPredicate(st, r) == Spread(Get(st, PREDICATE));
    BytesDecideContent(Spread(Get(st, PREDICATE)), Covered(r));
  }
}
