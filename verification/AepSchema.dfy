/** `AEPRecordSchema` itself (packages/aep/src/types.ts:44-329), written with the validators of `Zod`, and
    the laws the emitter and the bundle rely on, proved of it.

    - The general laws hold because every schema made of these validators has them (`Zod.SchemaKeeps`).
    - The others are about seven fields: the signature, the envelope, the timestamp proof, the link, the
      version, the run id and the actions, and about the capability decisions. They have to be found among the record's fields first
      (`RecordDeclares`): a field is decided by the last part of the declaration that has its key, and the
      keys of the other parts differ from these in length or first letter (`Aside`).
    - The blocks the emitter writes, and the proofs a timestamper returns, pass unchanged (`SignatureFits`,
      `EnvelopeFits`, `ProofFitsShape`). */
module AepSchema {
  import opened JsonValue
  import opened Records
  import opened Dsse
  import opened Schema
  import opened Zod

  // ----- notation

  function Options(names: seq<string>): seq<Text> { seq(|names|, i requires 0 <= i < |names| => Lit(names[i])) }

  function Must(k: string, shape: Shape): Entry<Field> { Entry(Lit(k), Required(shape)) }

  function May(k: string, shape: Shape): Entry<Field> { Entry(Lit(k), Optional(shape)) }

  function MayBeNull(k: string, shape: Shape): Entry<Field> { Entry(Lit(k), Nullish(shape)) }

  function Many(k: string, elem: Shape): Entry<Field> { Entry(Lit(k), Default(List(elem, 0), Arr([]))) }

  function OneOfOr(k: string, names: seq<string>, otherwise: string): Entry<Field> {
    Entry(Lit(k), Default(OneOf(Options(names)), Str(Lit(otherwise))))
  }

  const TEXTS := List(AnyText, 0)
  const NUMBER := Number(None)
  const COUNT := Number(Some(0))

  const SIDE_EFFECTS := ["read", "mutate-local", "mutate-external", "network-egress", "unknown"]
  const APPROVALS := ["one-shot-payload", "bounded-lease", "policy-allow-with-receipt", "policy-deny-with-evidence",
                      "re-approval-on-drift", "none"]
  const DENIALS := ["tool-identity", "argument", "tainted-input", "resource-scope", "missing-delegation", "policy-rule", "other"]
  const STATE_KINDS := ["git-tree", "sandbox-fs", "db-rowset", "browser-dom", "kv-snapshot", "memory-bag", "other"]
  const BACKINGS := ["operator_asserted", "principal_key_signed", "qualified_signature", "unknown"]
  const VERSIONS := ["aep/v0.1", "aep/v0.2", "aep/v0.3", "aep/v0.4", "aep/v0.5"]

  // ----- the parts of a record

  function Struct(fields: seq<Entry<Field>>): Shape { Object(fields, false) }

  function PermissionGate(): Shape {
    Struct([Must("decision", OneOf(Options(["approved", "denied", "auto_approved"]))), Must("gate", AnyText), May("reason", AnyText)])
  }

  function ArgumentDrift(): Shape {
    Struct([Must("detected", Flag), Must("approved_args_digest", AnyText), Must("observed_args_digest", AnyText),
            Must("resolution", OneOf(Options(["matched", "denied"])))])
  }

  function ApprovalExtension(): Shape {
    Struct([Must("namespace", AnyText), Must("mode", AnyText), Must("evidence_digest", AnyText)])
  }

  const DECISION := Lit("decision")
  const ALLOW := Lit("allow")
  const DENY := Lit("deny")
  const ASK_USER := Lit("ask_user")
  const DRY_RUN := Lit("dry_run")
  const KIND := Required(OneOf([ALLOW, DENY, ASK_USER, DRY_RUN]))

  function DecisionFields(): seq<Entry<Field>> {
    [Must("capability", AnyText), Must("subject", AnyText), Must("resource", AnyText),
     Entry(DECISION, KIND), May("reason_code", AnyText),
     OneOfOr("approval_mode", APPROVALS, "none"), May("approval_extension", ApprovalExtension()),
     May("deny_reason_class", OneOf(Options(DENIALS)))]
  }

  function CapabilityDecision(): Shape { Struct(DecisionFields()) }

  function ActionEvidence(): Shape {
    Struct([Must("action_id", AnyText), Must("tool_name", AnyText), Must("state_changing", Flag),
            May("precondition_digest", AnyText), May("result_digest", AnyText),
            May("outcome", AnyText), May("exit_code", NUMBER), May("arguments_digest", AnyText),
            Many("evidence_refs", AnyText), May("capability_decision", CapabilityDecision()), Must("timestamp_ms", NUMBER),
            May("parent_action_id", AnyText), May("causal_chain_id", AnyText),
            May("tool_descriptor_digest", AnyText), May("server_card_digest", AnyText),
            May("scope_lease_id", AnyText), May("approval_context_hash", AnyText),
            May("input_taint_labels", TEXTS), May("output_taint_labels", TEXTS),
            May("memory_read_refs", TEXTS), May("memory_write_refs", TEXTS),
            May("pre_state_digest", AnyText), May("post_state_digest", AnyText), May("permission_gate", PermissionGate()),
            OneOfOr("recording_mode", ["validation", "delta", "full"], "validation"), May("delta_ref", AnyText),
            OneOfOr("side_effect_class", SIDE_EFFECTS, "unknown"),
            May("state_digest_kind", OneOf(Options(STATE_KINDS))), May("state_digest_coverage", Dictionary),
            May("argument_drift", ArgumentDrift())])
  }

  function InputRef(): Shape { Struct([Must("uri", AnyText), May("digest", AnyText), Many("taint_labels", AnyText)]) }

  function OutputRef(): Shape { Struct([Must("uri", AnyText), May("digest", AnyText), May("redaction_profile", AnyText)]) }

  function VerifierResult(): Shape {
    Struct([Must("verifier_id", AnyText), Must("passed", Flag), May("score", NUMBER), Many("claim_ids", AnyText)])
  }

  function BudgetEntry(): Shape { Struct([May("limit", NUMBER), Must("spent", NUMBER)]) }

  function BudgetLedger(): Shape {
    Struct([May("token_budget", BudgetEntry()),
            May("latency_budget", Struct([May("limit_ms", NUMBER), Must("actual_ms", NUMBER)])),
            May("tool_budget", BudgetEntry()), May("risk_budget", BudgetEntry()), May("retry_budget", BudgetEntry()),
            May("human_approval_budget", BudgetEntry())])
  }

  function RunContext(): Shape {
    Struct([May("agent_id", AnyText), May("agent_version", AnyText), May("subagent_id", AnyText),
            Many("delegation_chain", AnyText), May("environment_digest", AnyText), May("dependency_lock_digest", AnyText),
            May("session_id", AnyText), May("turn_index", COUNT)])
  }

  function RunDrift(): Shape {
    Object([May("tool_name", AnyText), May("declared_digest", AnyText), May("actual_digest", AnyText),
            May("diff_summary", AnyText), May("drifted_args", TEXTS)], true)
  }

  function TimestampProof(): Shape {
    Struct([Must("timestamp", AnyText), Must("authority", AnyText), Must("proof", AnyText), May("logIndex", NUMBER)])
  }

  function EnvelopeShape(): Shape {
    Struct([Entry(PAYLOAD_TYPE, Required(AnyText)), Entry(PAYLOAD, Required(AnyText)),
            Entry(SIGNATURES, Required(List(Struct([Entry(KEYID, Required(AnyText)), Entry(SIG, Required(AnyText))]), 1)))])
  }

  function SignatureShape(): Shape {
    Struct([Must("alg", OneOf(Options(["ed25519"]))), Must("key_id", AnyText), Entry(SIG, Required(AnyText))])
  }

  // ----- the record, in the order of its declaration

  function Identity(): seq<Entry<Field>> {
    [Entry(SCHEMA_VERSION, Required(OneOf(Options(VERSIONS)))), Entry(RUN_ID, Required(AnyText))]
  }

  function Attribution(): seq<Entry<Field>> {
    [May("user_id", AnyText), May("subject_id", AnyText), May("authorized_by", AnyText),
     May("authority_origin", OneOf(Options(["subject_consented", "administrator_assigned", "organization_wide", "unknown"]))),
     May("identity_source", OneOf(Options(["self_asserted", "organization_attested", "notified_eid", "qualified_certificate",
                                           "unknown"]))),
     May("attribution_backing", OneOf(Options(BACKINGS))), May("run_attribution_backing_floor", OneOf(Options(BACKINGS))),
     May("run_attribution_backing_observed", SetOf(Options(BACKINGS))), May("authorization_evidence_count", COUNT)]
  }

  function Provenance(): seq<Entry<Field>> {
    [May("trace_id", AnyText), MayBeNull("parent_trace_id", AnyText), May("repo_commit", AnyText), May("runtime_version", AnyText),
     May("model_provider", AnyText), May("model_id", AnyText), May("policy_bundle_digest", AnyText),
     May("tool_manifest_digest", AnyText), MayBeNull("mcp_server_card_digest", AnyText)]
  }

  function References(): seq<Entry<Field>> {
    [Many("input_refs", InputRef()), Many("output_refs", OutputRef())]
  }

  const DECISIONS_FIELD := Entry(CAPABILITY_DECISIONS, Default(List(CapabilityDecision(), 0), Arr([])))

  const ACTIONS_FIELD := Entry(ACTIONS, Default(List(ActionEvidence(), 0), Arr([])))

  function Outcomes(): seq<Entry<Field>> {
    [Many("verifier_results", VerifierResult()), May("budget_ledger", BudgetLedger()), Must("created_at_ms", NUMBER)]
  }

  const LINK_FIELD := Entry(PREV_RECORD_HASH, Nullish(AnyText))

  function RunLevel(): seq<Entry<Field>> {
    [May("run_context", RunContext()), May("run_side_effect_class_max", OneOf(Options(SIDE_EFFECTS))),
     May("recording_mode", OneOf(Options(["full", "delta", "validation"]))),
     May("side_effect_class", OneOf(Options(SIDE_EFFECTS))), May("argument_drift", RunDrift())]
  }

  function Proofs(): seq<Entry<Field>> {
    [Entry(TIMESTAMP_PROOF, Optional(TimestampProof())), Entry(DSSE_ENVELOPE, Optional(EnvelopeShape())),
     Entry(SIGNATURE, Optional(SignatureShape()))]
  }

  function AfterLink(): seq<Entry<Field>> { RunLevel() + Proofs() }

  function AfterActions(): seq<Entry<Field>> { Outcomes() + ([LINK_FIELD] + AfterLink()) }

  function AfterReferences(): seq<Entry<Field>> { [DECISIONS_FIELD] + ([ACTIONS_FIELD] + AfterActions()) }

  function AfterIdentity(): seq<Entry<Field>> { Attribution() + (Provenance() + (References() + AfterReferences())) }

  function RecordFields(): seq<Entry<Field>> { Identity() + AfterIdentity() }

  function AepRecordSchema(): RecordSchema { SchemaOf(RecordFields(), ActionEvidence()) }

  // ----- finding the fields the emitter relies on

  /** `k` is a key of these fields, and `f` says what its property must be. */
  predicate Declares(fields: seq<Entry<Field>>, k: Text, f: Field) { k in Keys(fields) && FieldAt(fields, k) == f }

  /** The last part that declares a key decides. */
  lemma {:induction false} DeclaredBefore(a: seq<Entry<Field>>, b: seq<Entry<Field>>, k: Text, f: Field)
    ensures Declares(b, k, f) ==> Declares(a + b, k, f)
    ensures Declares(a, k, f) && k !in Keys(b) ==> Declares(a + b, k, f)
    ensures k !in Keys(a) && k !in Keys(b) ==> k !in Keys(a + b)
  {
    if a == [] {
      assert a + b == b;
    } else {
      assert (a + b)[1..] == a[1..] + b;
      KeysTail(a);
      KeysTail(a + b);
      DeclaredBefore(a[1..], b, k, f);
    }
  }

  lemma DeclaredFirst(e: Entry<Field>, tail: seq<Entry<Field>>)
    requires e.key !in Keys(tail)
    ensures Declares([e] + tail, e.key, e.val)
  {
    assert ([e] + tail)[1..] == tail && ([e] + tail)[0] == e;
    KeysTail([e] + tail);
  }

  lemma DeclaredAt(fields: seq<Entry<Field>>, i: nat)
    requires i < |fields| && fields[i].key !in Keys(fields[i + 1..])
    ensures Declares(fields, fields[i].key, fields[i].val)
  {
    hide Declares, FieldAt;
    var front, e, tail := fields[..i], fields[i], fields[i + 1..];
    DeclaredFirst(e, tail);
    DeclaredBefore(front, [e] + tail, e.key, e.val);
    assert front + ([e] + tail) == fields;
  }

  /** The lengths and first letters that tell the schema version, the run id, the decisions, the actions and
      the link from the other keys. */
  predicate Listed(k: Text) {
    |k| == 6 || (|k| == 7 && k[0] == 97) || (|k| == 14 && k[0] == 115) || (|k| == 16 && k[0] == 112) || (|k| == 20 && k[0] == 99)
  }

  predicate Aside(fields: seq<Entry<Field>>) { forall i :: 0 <= i < |fields| ==> !Listed(fields[i].key) }

  lemma ListedNames()
    ensures Listed(SCHEMA_VERSION) && Listed(RUN_ID) && Listed(CAPABILITY_DECISIONS) && Listed(ACTIONS) && Listed(PREV_RECORD_HASH)
    ensures |SCHEMA_VERSION| == 14 && |RUN_ID| == 6 && |CAPABILITY_DECISIONS| == 20 && |ACTIONS| == 7 && |PREV_RECORD_HASH| == 16
  {
  }

  lemma AsideKeys(fields: seq<Entry<Field>>, k: Text)
    requires Aside(fields) && Listed(k)
    ensures k !in Keys(fields)
  {
  }

  lemma AttributionAside()
    ensures Aside(Attribution())
  {
  }

  lemma ProvenanceAside()
    ensures Aside(Provenance())
  {
  }

  lemma ReferencesAside()
    ensures Aside(References())
  {
    hide InputRef, OutputRef;
  }

  lemma OutcomesAside()
    ensures Aside(Outcomes())
  {
    hide VerifierResult, BudgetLedger;
  }

  lemma RunLevelAside()
    ensures Aside(RunLevel())
  {
    hide RunContext, RunDrift;
  }

  lemma ProofsAside()
    ensures Aside(Proofs())
  {
    hide TimestampProof, EnvelopeShape, SignatureShape;
    assert |TIMESTAMP_PROOF| == 15 && |DSSE_ENVELOPE| == 13 && |SIGNATURE| == 9;
  }

  lemma IdentityDeclares()
    ensures Declares(Identity(), SCHEMA_VERSION, Required(OneOf(Options(VERSIONS)))) && Declares(Identity(), RUN_ID, Required(AnyText))
  {
    ListedNames();
    var fields := Identity();
    assert Keys(fields[1..]) == [RUN_ID];
    hide Lit, Options, Declares;
    DeclaredAt(fields, 0);
    DeclaredAt(fields, 1);
  }

  lemma ProofsDeclare()
    ensures Declares(Proofs(), TIMESTAMP_PROOF, Optional(TimestampProof())) && Declares(Proofs(), DSSE_ENVELOPE, Optional(EnvelopeShape()))
    ensures Declares(Proofs(), SIGNATURE, Optional(SignatureShape()))
  {
    hide TimestampProof, EnvelopeShape, SignatureShape, Declares;
    assert |TIMESTAMP_PROOF| == 15 && |DSSE_ENVELOPE| == 13 && |SIGNATURE| == 9;
    var fields := Proofs();
    assert Keys(fields[1..]) == [DSSE_ENVELOPE, SIGNATURE] && Keys(fields[2..]) == [SIGNATURE];
    DeclaredAt(fields, 0);
    DeclaredAt(fields, 1);
    DeclaredAt(fields, 2);
  }

  /** What a later part declares, the record declares. */
  lemma LaterDeclares(k: Text, f: Field)
    ensures Declares(Proofs(), k, f) ==> Declares(AfterLink(), k, f)
    ensures Declares([LINK_FIELD] + AfterLink(), k, f) ==> Declares(AfterActions(), k, f)
    ensures Declares(AfterLink(), k, f) ==> Declares(AfterActions(), k, f)
    ensures Declares(AfterActions(), k, f) || Declares([ACTIONS_FIELD] + AfterActions(), k, f) ==> Declares(RecordFields(), k, f)
    ensures Declares(AfterReferences(), k, f) ==> Declares(RecordFields(), k, f)
  {
    hide Declares, Proofs, RunLevel, Outcomes, References, Provenance, Attribution, Identity;
    DeclaredBefore(RunLevel(), Proofs(), k, f);
    DeclaredBefore([LINK_FIELD], AfterLink(), k, f);
    DeclaredBefore(Outcomes(), [LINK_FIELD] + AfterLink(), k, f);
    assert Declares(Proofs(), k, f) ==> Declares(AfterLink(), k, f);
    assert Declares([LINK_FIELD] + AfterLink(), k, f) || Declares(AfterLink(), k, f) ==> Declares(AfterActions(), k, f);
    hide AfterActions, AfterLink;
    DeclaredBefore([ACTIONS_FIELD], AfterActions(), k, f);
    DeclaredBefore([DECISIONS_FIELD], [ACTIONS_FIELD] + AfterActions(), k, f);
    DeclaredBefore(References(), AfterReferences(), k, f);
    DeclaredBefore(Provenance(), References() + AfterReferences(), k, f);
    DeclaredBefore(Attribution(), Provenance() + (References() + AfterReferences()), k, f);
    DeclaredBefore(Identity(), AfterIdentity(), k, f);
  }

  /** Which parts do not declare a listed key. */
  lemma ListedOnce(k: Text)
    requires Listed(k)
    ensures k !in Keys(AfterLink())
    ensures |k| != 16 ==> k !in Keys(AfterActions())
    ensures |k| != 16 && |k| != 7 ==> k !in Keys([ACTIONS_FIELD] + AfterActions())
    ensures |k| != 16 && |k| != 7 && |k| != 20 ==> k !in Keys(AfterIdentity())
  {
    AttributionAside();
    ProvenanceAside();
    ReferencesAside();
    OutcomesAside();
    RunLevelAside();
    ProofsAside();
    ListedNames();
    hide Declares, Proofs, RunLevel, Outcomes, References, Provenance, Attribution, Listed, Aside, FieldAt;
    AsideKeys(Attribution(), k);
    AsideKeys(Provenance(), k);
    AsideKeys(References(), k);
    AsideKeys(Outcomes(), k);
    AsideKeys(RunLevel(), k);
    AsideKeys(Proofs(), k);
    var f := Optional(AnyText);
    DeclaredBefore(RunLevel(), Proofs(), k, f);
    DeclaredBefore([LINK_FIELD], AfterLink(), k, f);
    DeclaredBefore(Outcomes(), [LINK_FIELD] + AfterLink(), k, f);
    DeclaredBefore([ACTIONS_FIELD], AfterActions(), k, f);
    DeclaredBefore([DECISIONS_FIELD], [ACTIONS_FIELD] + AfterActions(), k, f);
    DeclaredBefore(References(), AfterReferences(), k, f);
    DeclaredBefore(Provenance(), References() + AfterReferences(), k, f);
    DeclaredBefore(Attribution(), Provenance() + (References() + AfterReferences()), k, f);
  }

  lemma RecordDeclares()
    ensures var r := RecordFields();
            && Declares(r, SCHEMA_VERSION, Required(OneOf(Options(VERSIONS)))) && Declares(r, RUN_ID, Required(AnyText))
            && Declares(r, ACTIONS, ACTIONS_FIELD.val) && Declares(r, PREV_RECORD_HASH, LINK_FIELD.val)
            && Declares(r, TIMESTAMP_PROOF, Optional(TimestampProof())) && Declares(r, DSSE_ENVELOPE, Optional(EnvelopeShape()))
            && Declares(r, SIGNATURE, Optional(SignatureShape()))
  {
    ListedNames();
    IdentityDeclares();
    ProofsDeclare();
    ListedOnce(SCHEMA_VERSION);
    ListedOnce(RUN_ID);
    ListedOnce(ACTIONS);
    ListedOnce(PREV_RECORD_HASH);
    hide Lit, Options, Declares, Listed, Proofs, Identity, AfterLink, AfterActions, AfterIdentity, TimestampProof, EnvelopeShape,
         SignatureShape, ActionEvidence;
    DeclaredBefore(Identity(), AfterIdentity(), SCHEMA_VERSION, Required(OneOf(Options(VERSIONS))));
    DeclaredBefore(Identity(), AfterIdentity(), RUN_ID, Required(AnyText));
    DeclaredFirst(ACTIONS_FIELD, AfterActions());
    DeclaredFirst(LINK_FIELD, AfterLink());
    LaterDeclares(ACTIONS, ACTIONS_FIELD.val);
    LaterDeclares(PREV_RECORD_HASH, LINK_FIELD.val);
    LaterDeclares(TIMESTAMP_PROOF, Optional(TimestampProof()));
    LaterDeclares(DSSE_ENVELOPE, Optional(EnvelopeShape()));
    LaterDeclares(SIGNATURE, Optional(SignatureShape()));
  }

  lemma DecisionsDeclared()
    ensures Declares(RecordFields(), CAPABILITY_DECISIONS, DECISIONS_FIELD.val)
  {
    ListedNames();
    ListedOnce(CAPABILITY_DECISIONS);
    hide Lit, Declares, Listed, AfterActions, CapabilityDecision, ActionEvidence, RecordFields;
    DeclaredFirst(DECISIONS_FIELD, [ACTIONS_FIELD] + AfterActions());
    LaterDeclares(CAPABILITY_DECISIONS, DECISIONS_FIELD.val);
  }

  // ----- the blocks the emitter writes

  /** One property of an object that is as its schema wants it. */
  lemma FieldsCons(e: Entry<Field>, tail: seq<Entry<Field>>, v: Value, ms: seq<Entry<Value>>)
    requires e.key !in Keys(tail) && CheckFields(tail, v) == Some(ms)
    requires CheckField(e.val, Get(v, e.key)) == Some(Get(v, e.key)) && !Get(v, e.key).Undefined?
    ensures CheckFields([e] + tail, v) == Some([Entry(e.key, Get(v, e.key))] + ms)
  {
    assert ([e] + tail)[1..] == tail;
    hide CheckField, Get;
  }

  lemma {:induction false} AllAbsent(fields: seq<Entry<Field>>, v: Value)
    requires forall i :: 0 <= i < |fields| ==> fields[i].val.Optional? && Get(v, fields[i].key).Undefined?
    ensures CheckFields(fields, v) == Some([])
  {
    if fields != [] {
      AllAbsent(fields[1..], v);
      hide Get;
    }
  }

  /** An object whose members are in the schema's order and each as its field wants it; optional fields
      after them may be absent. */
  lemma {:induction false} FieldsFit(fields: seq<Entry<Field>>, absent: seq<Entry<Field>>, ms: seq<Entry<Value>>, v: Value)
    requires Keys(fields) == Keys(ms) && Distinct(Keys(fields)) && CheckFields(absent, v) == Some([])
    requires forall k :: k in Keys(fields) ==> k !in Keys(absent)
    requires forall i :: 0 <= i < |fields| ==>
               CheckField(fields[i].val, ms[i].val) == Some(ms[i].val) && !ms[i].val.Undefined? && Get(v, ms[i].key) == ms[i].val
    ensures CheckFields(fields + absent, v) == Some(ms)
  {
    hide Get, CheckField, Distinct, CheckFields;
    if fields == [] {
      assert fields + absent == absent;
    } else {
      KeysTail(fields);
      KeysTail(ms);
      var tail := fields[1..] + absent;
      assert fields + absent == [fields[0]] + tail && ms == [ms[0]] + ms[1..] && fields[0].key == Keys(fields)[0] == ms[0].key;
      assert Keys(tail) == Keys(fields[1..]) + Keys(absent);
      FieldsFit(fields[1..], absent, ms[1..], v);
      FieldsCons(fields[0], tail, v, ms[1..]);
    }
  }

  lemma ObjectFits(fields: seq<Entry<Field>>, absent: seq<Entry<Field>>, ms: seq<Entry<Value>>)
    requires Keys(fields) == Keys(ms) && Distinct(Keys(fields)) && forall k :: k in Keys(fields) ==> k !in Keys(absent)
    requires forall i :: 0 <= i < |fields| ==> CheckField(fields[i].val, ms[i].val) == Some(ms[i].val) && !ms[i].val.Undefined?
    requires forall i :: 0 <= i < |absent| ==> absent[i].val.Optional?
    ensures Check(Struct(fields + absent), Obj(ms)) == Some(Obj(ms))
  {
    hide CheckField, CheckFields;
    forall i | 0 <= i < |ms| ensures Get(Obj(ms), ms[i].key) == ms[i].val { FindAt(ms, i); }
    forall i | 0 <= i < |absent| ensures Get(Obj(ms), absent[i].key).Undefined? { assert Keys(absent)[i] !in Keys(ms); }
    AllAbsent(absent, Obj(ms));
    FieldsFit(fields, absent, ms, Obj(ms));
    assert ms + [] == ms;
  }

  lemma SignatureFits(keyId: Text, sig: Text)
    ensures Check(SignatureShape(), SignatureBlock(keyId, sig)) == Some(SignatureBlock(keyId, sig))
  {
    var fields := [Must("alg", OneOf(Options(["ed25519"]))), Must("key_id", AnyText), Entry(SIG, Required(AnyText))];
    var ms := SignatureBlock(keyId, sig).members;
    assert Options(["ed25519"])[0] == Lit("ed25519");
    assert |ms| == 3 && Keys(ms) == [Lit("alg"), Lit("key_id"), SIG] == Keys(fields);
    assert Lit("alg")[0] != SIG[0] && |Lit("alg")| == 3 && |Lit("key_id")| == 6;
    hide Lit, Options;
    ObjectFits(fields, [], ms);
    assert fields + [] == fields;
  }

  lemma EnvelopeFits(payload: Text, keyId: Text, sig: Text)
    ensures Check(EnvelopeShape(), EnvelopeBlock(payload, keyId, sig)) == Some(EnvelopeBlock(payload, keyId, sig))
  {
    assert |KEYID| == 5 && |SIG| == 3 && |PAYLOAD| == 7 && |PAYLOAD_TYPE| == 11 && |SIGNATURES| == 10;
    hide Lit;
    var inner := [Entry(KEYID, Required(AnyText)), Entry(SIG, Required(AnyText))];
    var entry := [Entry(KEYID, Str(keyId)), Entry(SIG, Str(sig))];
    assert Keys(entry) == [KEYID, SIG] == Keys(inner);
    ObjectFits(inner, [], entry);
    assert inner + [] == inner;
    OneElem(Struct(inner), Obj(entry));
    assert CheckField(Required(List(Struct(inner), 1)), Arr([Obj(entry)])) == Some(Arr([Obj(entry)]));
    hide Check, CheckElems;
    var fields := [Entry(PAYLOAD_TYPE, Required(AnyText)), Entry(PAYLOAD, Required(AnyText)),
                   Entry(SIGNATURES, Required(List(Struct(inner), 1)))];
    var ms := EnvelopeBlock(payload, keyId, sig).members;
    assert Keys(ms) == [PAYLOAD_TYPE, PAYLOAD, SIGNATURES] == Keys(fields);
    ObjectFits(fields, [], ms);
    assert fields + [] == fields;
  }

  lemma OneElem(elem: Shape, v: Value)
    requires Check(elem, v) == Some(v)
    ensures CheckElems(elem, [v]) == Some([v])
  {
    assert [v][..0] == [] && [] + [v] == [v];
    assert CheckElems(elem, []) == Some([]);
  }

  /** What the timestamper interface returns, its log index left out or not. */
  function ProofOf(timestamp: Text, authority: Text, proof: Text, logIndex: Option<int>): Value {
    Obj([Entry(Lit("timestamp"), Str(timestamp)), Entry(Lit("authority"), Str(authority)), Entry(Lit("proof"), Str(proof))]
        + match logIndex case Some(n) => [Entry(Lit("logIndex"), Num(n))] case None => [])
  }

  lemma ProofNames()
    ensures Distinct([Lit("timestamp"), Lit("authority"), Lit("proof"), Lit("logIndex")])
  {
    assert |Lit("timestamp")| == 9 && |Lit("authority")| == 9 && |Lit("proof")| == 5 && |Lit("logIndex")| == 8;
    assert Lit("timestamp")[0] != Lit("authority")[0];
  }

  lemma ProofFitsShape(timestamp: Text, authority: Text, proof: Text, logIndex: Option<int>)
    ensures Check(TimestampProof(), ProofOf(timestamp, authority, proof, logIndex)) == Some(ProofOf(timestamp, authority, proof, logIndex))
  {
    ProofNames();
    hide Lit;
    var must, may := [Must("timestamp", AnyText), Must("authority", AnyText), Must("proof", AnyText)], [May("logIndex", NUMBER)];
    var names := [Lit("timestamp"), Lit("authority"), Lit("proof"), Lit("logIndex")];
    var ms := ProofOf(timestamp, authority, proof, logIndex).members;
    assert TimestampProof() == Struct(must + may);
    assert Keys(must) == names[..3] && Keys(must + may) == names && Keys(may) == names[3..];
    if logIndex.None? {
      assert Keys(ms) == names[..3] && names[3] !in names[..3];
      ObjectFits(must, may, ms);
    } else {
      assert Keys(ms) == names;
      ObjectFits(must + may, [], ms);
      assert must + may + [] == must + may;
    }
  }

  // ----- the laws

  lemma PropertyIs(k: Text, f: Field, v: Value)
    requires Declares(RecordFields(), k, f)
    ensures AepRecordSchema().field(k, v) == CheckField(f, v) && k in AepRecordSchema().keys
  {
    OwnKeysDistinct(RecordFields());
    hide RecordFields, CheckField, ActionEvidence;
  }

  lemma {:induction false} ElemsAreParsed(s: RecordSchema, elem: Shape, xs: seq<Value>)
    requires forall v :: s.action(v) == Check(elem, v)
    ensures ParseAll(s.action, xs) == CheckElems(elem, xs)
  {
    hide Check;
    if xs != [] { ElemsAreParsed(s, elem, xs[..|xs| - 1]); }
  }

  lemma VersionFits(v: Text)
    requires IsVersion(v)
    ensures CheckField(Required(OneOf(Options(VERSIONS))), Str(v)) == Some(Str(v))
  {
    var o := Options(VERSIONS);
    assert o[0] == Lit("aep/v0.1") && o[1] == Lit("aep/v0.2") && o[2] == Lit("aep/v0.3") && o[3] == Lit("aep/v0.4") && o[4] == Lit("aep/v0.5");
    hide Lit, Options;
  }

  lemma ActionsParsed(xs: seq<Value>)
    ensures var w := AepRecordSchema().field(ACTIONS, Arr(xs));
            w.Some? ==> w.value.Arr? && ParseAll(AepRecordSchema().action, xs) == Some(w.value.elems)
  {
    RecordDeclares();
    hide RecordFields, Declares, Lit, ActionEvidence;
    PropertyIs(ACTIONS, ACTIONS_FIELD.val, Arr(xs));
    ElemsAreParsed(AepRecordSchema(), ActionEvidence(), xs);
  }

  lemma ActionsLaw()
    ensures var s := AepRecordSchema();
            forall xs, w :: s.field(ACTIONS, Arr(xs)) == Some(w) ==> w.Arr? && ParseAll(s.action, xs) == Some(w.elems)
  {
    hide AepRecordSchema, Lit, ParseAll;
    var s := AepRecordSchema();
    forall xs, w | s.field(ACTIONS, Arr(xs)) == Some(w) ensures w.Arr? && ParseAll(s.action, xs) == Some(w.elems) { ActionsParsed(xs); }
  }

  lemma LinkLaw()
    ensures var s := AepRecordSchema();
            s.field(PREV_RECORD_HASH, Null) == Some(Null) && forall t :: s.field(PREV_RECORD_HASH, Str(t)) == Some(Str(t))
  {
    RecordDeclares();
    hide RecordFields, Declares, Lit, AepRecordSchema;
    forall v: Value | v.Null? || v.Str? ensures AepRecordSchema().field(PREV_RECORD_HASH, v) == Some(v) {
      PropertyIs(PREV_RECORD_HASH, LINK_FIELD.val, v);
    }
  }

  lemma IdentityLaw()
    ensures var s := AepRecordSchema();
            && (forall v :: IsVersion(v) ==> s.field(SCHEMA_VERSION, Str(v)) == Some(Str(v)))
            && forall v, w :: s.field(RUN_ID, v) == Some(w) ==> v == w
  {
    RecordDeclares();
    hide RecordFields, Declares, Lit, IsVersion, Options, AepRecordSchema;
    var s := AepRecordSchema();
    forall v | IsVersion(v) ensures s.field(SCHEMA_VERSION, Str(v)) == Some(Str(v)) {
      PropertyIs(SCHEMA_VERSION, Required(OneOf(Options(VERSIONS))), Str(v));
      VersionFits(v);
    }
    forall v, w | s.field(RUN_ID, v) == Some(w) ensures v == w { PropertyIs(RUN_ID, Required(AnyText), v); }
  }

  lemma ProofsLaw()
    ensures var s := AepRecordSchema();
            && (forall k :: k in {SIGNATURE, DSSE_ENVELOPE, TIMESTAMP_PROOF} ==> s.field(k, Undefined) == Some(Undefined))
            && (forall k, t :: s.field(SIGNATURE, SignatureBlock(k, t)) == Some(SignatureBlock(k, t)))
            && forall p, k, t :: s.field(DSSE_ENVELOPE, EnvelopeBlock(p, k, t)) == Some(EnvelopeBlock(p, k, t))
  {
    RecordDeclares();
    hide RecordFields, Declares, Lit, SignatureShape, EnvelopeShape, TimestampProof, AepRecordSchema, Check, SignatureBlock, EnvelopeBlock;
    var s := AepRecordSchema();
    PropertyIs(SIGNATURE, Optional(SignatureShape()), Undefined);
    PropertyIs(DSSE_ENVELOPE, Optional(EnvelopeShape()), Undefined);
    PropertyIs(TIMESTAMP_PROOF, Optional(TimestampProof()), Undefined);
    forall k, t ensures s.field(SIGNATURE, SignatureBlock(k, t)) == Some(SignatureBlock(k, t)) {
      SignatureFits(k, t);
      PropertyIs(SIGNATURE, Optional(SignatureShape()), SignatureBlock(k, t));
    }
    forall p, k, t ensures s.field(DSSE_ENVELOPE, EnvelopeBlock(p, k, t)) == Some(EnvelopeBlock(p, k, t)) {
      EnvelopeFits(p, k, t);
      PropertyIs(DSSE_ENVELOPE, Optional(EnvelopeShape()), EnvelopeBlock(p, k, t));
    }
  }

  lemma KeysLaw()
    ensures var ks := AepRecordSchema().keys;
            Distinct(ks) && forall k :: k in {SIGNATURE, DSSE_ENVELOPE, TIMESTAMP_PROOF, PREV_RECORD_HASH, SCHEMA_VERSION, RUN_ID, ACTIONS} ==> k in ks
  {
    RecordDeclares();
    OwnKeysDistinct(RecordFields());
    hide RecordFields, Lit, ActionEvidence, Distinct, FieldAt;
  }

  lemma KeepsLaw()
    ensures var s := AepRecordSchema();
            && JsonStable(s)
            && forall k, v, w {:trigger s.field(k, v), Some(w)} :: WellFormed(v) && s.field(k, v) == Some(w) ==>
                 WellFormed(w) && s.field(k, w) == Some(w)
  {
    SchemaKeeps(RecordFields(), ActionEvidence());
    hide JsonStable, WellFormed, RecordFields, ActionEvidence, SchemaOf;
  }

  /** The laws hold of the schema as it is declared. */
  lemma AepLawful()
    ensures Lawful(AepRecordSchema()) && JsonStable(AepRecordSchema())
  {
    hide AepRecordSchema, Lit, SignatureBlock, EnvelopeBlock, IsVersion, Distinct, ParseAll, JsonStable, WellFormed;
    KeysLaw();
    KeepsLaw();
    ProofsLaw();
    LinkLaw();
    IdentityLaw();
    ActionsLaw();
  }

  /** What a timestamper returns is attached to a record without breaking it. */
  lemma TimestampParsed(timestamp: Text, authority: Text, proof: Text, logIndex: Option<int>)
    ensures var v := ProofOf(timestamp, authority, proof, logIndex); AepRecordSchema().field(TIMESTAMP_PROOF, v) == Some(v)
  {
    RecordDeclares();
    ProofFitsShape(timestamp, authority, proof, logIndex);
    hide RecordFields, Declares, Lit, TimestampProof, AepRecordSchema, ProofOf, Check;
    PropertyIs(TIMESTAMP_PROOF, Optional(TimestampProof()), ProofOf(timestamp, authority, proof, logIndex));
  }

  // ----- the decisions of a validated record

  /** The kinds of decision there are. */
  predicate KnownDecision(v: Value) { Get(v, DECISION) in {Str(ALLOW), Str(DENY), Str(ASK_USER), Str(DRY_RUN)} }

  lemma KindDeclared()
    ensures Declares(DecisionFields(), DECISION, KIND)
  {
    var fields := DecisionFields();
    var tail := fields[4..];
    assert tail == [May("reason_code", AnyText), OneOfOr("approval_mode", APPROVALS, "none"),
                    May("approval_extension", ApprovalExtension()), May("deny_reason_class", OneOf(Options(DENIALS)))];
    hide ApprovalExtension, Options, DecisionFields, Declares;
    assert |DECISION| == 8 && forall i :: 0 <= i < |tail| ==> |tail[i].key| > 8;
    assert DECISION !in Keys(tail);
    hide Lit;
    DeclaredAt(fields, 3);
  }

  lemma DecisionKnown(v: Value)
    requires Check(CapabilityDecision(), v).Some?
    ensures KnownDecision(v)
  {
    KindDeclared();
    hide Lit, DecisionFields, Get, FieldAt, CheckFields;
    FieldPasses(DecisionFields(), v, DECISION);
  }

  /** Validation leaves an array of decisions, each of which passes again. */
  lemma DecisionsPass(sent: Record)
    requires ParseRecord(AepRecordSchema(), sent).Some?
    ensures var ds := Get(ParseRecord(AepRecordSchema(), sent).value, CAPABILITY_DECISIONS);
            ds.Arr? && CheckElems(CapabilityDecision(), ds.elems).Some?
  {
    var s := AepRecordSchema();
    AepLawful();
    DecisionsDeclared();
    hide RecordFields, Declares, Lit, CapabilityDecision, AepRecordSchema, Lawful, JsonStable, CheckElems, ParseRecord, Get;
    PropertyIs(CAPABILITY_DECISIONS, DECISIONS_FIELD.val, Get(sent, CAPABILITY_DECISIONS));
    ParseRecordIdempotent(s, sent, CAPABILITY_DECISIONS);
    PropertyIs(CAPABILITY_DECISIONS, DECISIONS_FIELD.val, Get(ParseRecord(s, sent).value, CAPABILITY_DECISIONS));
  }

  /** Every decision of a validated record is of a known kind. */
  lemma DecisionsKnown(sent: Record)
    requires ParseRecord(AepRecordSchema(), sent).Some?
    ensures var ds := Get(ParseRecord(AepRecordSchema(), sent).value, CAPABILITY_DECISIONS);
            ds.Arr? && forall i :: 0 <= i < |ds.elems| ==> KnownDecision(ds.elems[i])
  {
    DecisionsPass(sent);
    hide Lit, CapabilityDecision, AepRecordSchema, KnownDecision, Get, CheckElems, ParseRecord, Check;
    var ds := Get(ParseRecord(AepRecordSchema(), sent).value, CAPABILITY_DECISIONS).elems;
    forall i | 0 <= i < |ds| ensures KnownDecision(ds[i]) {
      ElemPasses(CapabilityDecision(), ds, i);
      DecisionKnown(ds[i]);
    }
  }
}
