/** From the emitter to the bundle and back: what an emitter finished, bundled, serialised and parsed. */
module EmitterBundle {
  // It verifies with the public key. The emitter's theorem gives records that verify and link; a bundle's
  // records have the same content because what `emit` finishes is a fixed point of the schema, its
  // timestamp proof included; and verification looks at content only.

  import opened JsonValue
  import opened Utf8
  import opened Records
  import opened Dsse
  import opened Schema
  import opened AepSchema
  import opened Emitter
  import opened EmitterProofs
  import opened Bundles
  import opened BundleProofs

  /** A timestamper returns a proof the schema takes as it is. */
  ghost predicate ProofFits(s: RecordSchema, call: Call) {
    call.Emit? && call.proof.Some? && !call.proof.value.Undefined? ==>
      s.field(TIMESTAMP_PROOF, call.proof.value) == Some(call.proof.value)
  }

  ghost predicate ProofsFit(s: RecordSchema, calls: seq<Call>) { forall i :: 0 <= i < |calls| ==> ProofFits(s, calls[i]) }

  lemma AttachValidated(s: RecordSchema, r: Record, proof: Value)
    requires Lawful(s) && Validated(s, r) && WellFormed(proof)
    requires !proof.Undefined? ==> s.field(TIMESTAMP_PROOF, proof) == Some(proof)
    ensures Validated(s, Attach(r, proof))
  {
    assert TIMESTAMP_PROOF in s.keys;
    var q := Attach(r, proof);
    hide Lawful, WellFormed, Find, Lit;
    forall k ensures Get(q, k) == if k == TIMESTAMP_PROOF && !proof.Undefined? then proof else Get(r, k) {
      if !proof.Undefined? { PutGet(r, TIMESTAMP_PROOF, proof, k); }
    }
    hide Attach;
  }

  /** A finished record is a fixed point of the schema. */
  lemma EmittedValidated(c: Crypto, schema: RecordSchema, cfg: Config, s: State, call: Call)
    requires Lawful(schema) && call.Emit? && ProofFits(schema, call) && EmitRecord(c, schema, cfg, s, call).Some?
    ensures var r := EmitRecord(c, schema, cfg, s, call).value; IsRecord(r) && Validated(schema, r)
  {
    var u := SignedPredicate(schema, cfg, s, call.createdAtMs).value;
    hide SignedPredicate, Lawful, WellFormed, Validated, ParseRecord, Attach, Put, StatementBytes, EnvelopeBlock, SignatureBlock, Pae, Encode;
    SignedValidated(c, schema, cfg.keyId, u, call.signer.value);
    var r := Sign(c, schema, cfg.keyId, u, call.signer.value).value;
    hide Sign;
    AttachValidated(schema, r, call.proof.value);
  }

  lemma SignedValidated(c: Crypto, schema: RecordSchema, keyId: Text, u: Record, sign: Bytes -> Text)
    requires Lawful(schema) && Sign(c, schema, keyId, u, sign).Some?
    ensures var r := Sign(c, schema, keyId, u, sign).value; IsRecord(r) && Validated(schema, r)
  {
    var body := StatementBytes(c, u);
    var sig := sign(Pae(Encode(IN_TOTO_PAYLOAD_TYPE), body));
    BlocksWellFormed(c.encode64(body), keyId, sig);
    hide Lawful, WellFormed, Validated, ParseRecord, Put, StatementBytes, EnvelopeBlock, SignatureBlock, Pae, Encode;
    ParsedIsValidated(schema, Put(Put(u, DSSE_ENVELOPE, EnvelopeBlock(c.encode64(body), keyId, sig)), SIGNATURE, SignatureBlock(keyId, sig)));
  }

  /** Every record of a run is a fixed point of the schema. */
  lemma {:induction false} RunValidated(c: Crypto, schema: RecordSchema, cfg: Config, s: State, calls: seq<Call>)
    requires Lawful(schema) && WellTyped(cfg) && ProofsFit(schema, calls)
    ensures var rs := Run(c, schema, cfg, s, calls).1; AreRecords(rs) && AllValidated(schema, rs)
  {
    hide Lawful, WellTyped, ProofFits, WellFormed, Validated, EmitRecord, Add;
    if calls != [] {
      var front, last := calls[..|calls| - 1], calls[|calls| - 1];
      assert ProofsFit(schema, front) && ProofFits(schema, last);
      RunValidated(c, schema, cfg, s, front);
      var t := Run(c, schema, cfg, s, front).0;
      if last.Emit? && EmitRecord(c, schema, cfg, t, last).Some? { EmittedValidated(c, schema, cfg, t, last); }
    }
  }

  lemma RunAcceptable(c: Crypto, schema: RecordSchema, s: State, rs: seq<Record>, key: Bytes)
    requires RunInvariant(c, schema, s, rs, key)
    ensures ChainAcceptable(c.sha256, rs) && AllVerify(c, rs, key)
  {
    hide VerifyDetailed, WellFormed, Digest, Get, Recorded, Extends, ValidState, Lit;
  }

  /** A bundle of validated records that verify and link. */
  lemma VerifiedBundle(c: Crypto, schema: RecordSchema, rs: seq<Record>, key: Bytes, b: Bundle)
    requires Lawful(schema) && JsonStable(schema) && AllValidated(schema, rs) && Built(c.sha256, schema, rs, b)
    requires ChainAcceptable(c.sha256, rs) && AllVerify(c, rs, key)
    ensures var p := ParseBundle(schema, Serialize(b)); p.Some? && Verifies(c, p.value, Some(key))
  {
    hide Lawful, JsonStable, WellFormed, Built, Verifies, ParseBundle, Serialize, VerifyDetailed, SameRecords, ChainAcceptable, AllValidated;
    BuiltKeepsValidated(c.sha256, schema, rs, b);
    BuiltBundleVerifiesIff(c, schema, rs, b, Some(key));
    SameVerdicts(c, b.records, rs, key);
    SameRecordsSymmetric(b.records, rs);
    SameChain(c.sha256, rs, b.records);
  }

  /** Bundling these records cannot fail, and the bundle, serialised and parsed back, verifies with the
      public key, every signature included. */
  ghost predicate BundleVerifies(c: Crypto, schema: RecordSchema, rs: seq<Value>, key: Bytes) {
    AreRecords(rs) && ParseRecords(schema, rs).Some?
    && forall b :: Built(c.sha256, schema, rs, b) ==>
         var p := ParseBundle(schema, Serialize(b)); p.Some? && Verifies(c, p.value, Some(key))
  }

  lemma VerifiedRecords(c: Crypto, schema: RecordSchema, s: State, rs: seq<Record>, key: Bytes)
    requires Lawful(schema) && JsonStable(schema) && AllValidated(schema, rs) && RunInvariant(c, schema, s, rs, key)
    ensures BundleVerifies(c, schema, rs, key)
  {
    hide Lawful, JsonStable, WellFormed, RunInvariant, Built, Verifies, ParseBundle, Serialize, ParseRecords, AllValidated,
         AllVerify, ChainAcceptable;
    RunAcceptable(c, schema, s, rs, key);
    ValidatedAllParse(schema, rs);
    forall b | Built(c.sha256, schema, rs, b)
      ensures var p := ParseBundle(schema, Serialize(b)); p.Some? && Verifies(c, p.value, Some(key))
    {
      VerifiedBundle(c, schema, rs, key, b);
    }
  }

  /** The theorem about an emitter's evidence: in every run, what it finished can be bundled, and the
      bundle comes back from JSON and verifies with the public key. */
  lemma EmittedBundleVerifies(c: Crypto, schema: RecordSchema, cfg: Config, s: State, calls: seq<Call>, key: Bytes)
    requires Base64Laws(c) && Lawful(schema) && JsonStable(schema) && WellTyped(cfg)
    requires HonestCalls(c, calls, key) && ProofsFit(schema, calls) && ValidState(s) && s.prevRecordHash == Null
    ensures BundleVerifies(c, schema, Run(c, schema, cfg, s, calls).1, key)
  {
    hide Base64Laws, Lawful, JsonStable, WellTyped, HonestCalls, ProofsFit, RunInvariant, Run, AllValidated, ValidState, BundleVerifies;
    RunValidated(c, schema, cfg, s, calls);
    EveryRun(c, schema, cfg, s, calls, key);
    VerifiedRecords(c, schema, Run(c, schema, cfg, s, calls).0, Run(c, schema, cfg, s, calls).1, key);
  }

  /** No timestamper, one that throws, or one that returns a timestamp proof. */
  ghost predicate Timestamped(call: Call) {
    call.Emit? && call.proof.Some? && !call.proof.value.Undefined? ==>
      exists t, a, p, i :: call.proof.value == ProofOf(t, a, p, i)
  }

  lemma TimestampsFit(calls: seq<Call>)
    requires forall i :: 0 <= i < |calls| ==> Timestamped(calls[i])
    ensures ProofsFit(AepRecordSchema(), calls)
  {
    hide AepRecordSchema, ProofOf;
    forall i | 0 <= i < |calls| ensures ProofFits(AepRecordSchema(), calls[i]) {
      var call := calls[i];
      assert Timestamped(call);
      if call.Emit? && call.proof.Some? && !call.proof.value.Undefined? {
        var t, a, p, n :| call.proof.value == ProofOf(t, a, p, n);
        TimestampParsed(t, a, p, n);
      }
    }
  }

  /** The same for the record schema as it is declared, with nothing assumed of it. */
  lemma AepEvidenceVerifies(c: Crypto, cfg: Config, s: State, calls: seq<Call>, key: Bytes)
    requires Base64Laws(c) && WellTyped(cfg) && HonestCalls(c, calls, key) && ValidState(s) && s.prevRecordHash == Null
    requires forall i :: 0 <= i < |calls| ==> Timestamped(calls[i])
    ensures BundleVerifies(c, AepRecordSchema(), Run(c, AepRecordSchema(), cfg, s, calls).1, key)
  {
    hide AepRecordSchema, Lawful, JsonStable, ProofsFit, Timestamped, WellTyped, Base64Laws, HonestCalls, ValidState, Run, BundleVerifies;
    AepLawful();
    TimestampsFit(calls);
    EmittedBundleVerifies(c, AepRecordSchema(), cfg, s, calls, key);
  }
}
