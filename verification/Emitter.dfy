/** `AEPEmitter` (packages/aep/src/emitter.ts): the state it keeps between calls, one transition per
    public call, and the class itself. */
module Emitter {
  import opened JsonValue
  import opened Canonical
  import opened NormalForm
  import opened Utf8
  import opened RoundTrip
  import opened Records
  import opened Dsse
  import opened Schema

  const INPUT_REFS := Lit("input_refs")
  const OUTPUT_REFS := Lit("output_refs")
  const VERIFIER_RESULTS := Lit("verifier_results")
  const BUDGET_LEDGER := Lit("budget_ledger")
  const RUN_CONTEXT := Lit("run_context")
  const RUN_SIDE_EFFECT_MAX := Lit("run_side_effect_class_max")
  const FLOOR := Lit("run_attribution_backing_floor")
  const OBSERVED := Lit("run_attribution_backing_observed")
  const USER_ID := Lit("user_id")
  const SUBJECT_ID := Lit("subject_id")
  const ACTION_ID := Lit("action_id")
  const TIMESTAMP_MS := Lit("timestamp_ms")
  const RECORDING_MODE := Lit("recording_mode")
  const SIDE_EFFECT_CLASS := Lit("side_effect_class")
  const CAPABILITY_DECISION := Lit("capability_decision")
  const CAPABILITY := Lit("capability")
  const RESOURCE := Lit("resource")
  const UNKNOWN := Lit("unknown")
  const CURRENT_VERSION := Lit("aep/v0.5")

  // ----- side-effect maximum

  /** Position in the severity order; anything else ranks above "unknown". */
  function Severity(cls: Value): nat {
    if cls == Str(Lit("read")) then 0
    else if cls == Str(Lit("mutate-local")) then 1
    else if cls == Str(Lit("mutate-external")) then 2
    else if cls == Str(Lit("network-egress")) then 3
    else if cls == Str(UNKNOWN) then 4
    else 5
  }

  predicate Nullish(v: Value) { v.Undefined? || v.Null? }

  function OrElse(v: Value, default: Value): Value { if Nullish(v) then default else v }

  function ClassOf(action: Value): Value { OrElse(Get(action, SIDE_EFFECT_CLASS), Str(UNKNOWN)) }

  function SideEffectMax(actions: seq<Value>): Value {
    if actions == [] then Undefined
    else
      var front := SideEffectMax(actions[..|actions| - 1]);
      var last := ClassOf(actions[|actions| - 1]);
      if front.Undefined? || Severity(last) > Severity(front) then last else front
  }

  /** `#computeRunSideEffectClassMax`. */
  method ComputeSideEffectMax(actions: seq<Value>) returns (r: Value)
    ensures r == SideEffectMax(actions)
  {
    if |actions| == 0 { return Undefined; }
    var maxOrdinal: int, maxClass := -1, Str(Lit("read"));
    for i := 0 to |actions|
      invariant if i == 0 then maxOrdinal == -1
                else maxClass == SideEffectMax(actions[..i]) && maxOrdinal == Severity(maxClass) && !maxClass.Undefined?
    {
      var cls := ClassOf(actions[i]);
      assert actions[..i + 1][..i] == actions[..i];
      if Severity(cls) > maxOrdinal { maxOrdinal, maxClass := Severity(cls), cls; }
    }
    assert actions[..|actions|] == actions;
    return maxClass;
  }

  /** The run-level class is the class of some action and no action is more severe. */
  lemma {:induction false} SideEffectMaxIsMax(actions: seq<Value>)
    requires actions != []
    ensures exists i :: 0 <= i < |actions| && ClassOf(actions[i]) == SideEffectMax(actions)
    ensures forall i :: 0 <= i < |actions| ==> Severity(ClassOf(actions[i])) <= Severity(SideEffectMax(actions))
  {
    hide Severity, ClassOf;
    var n := |actions| - 1;
    if n == 0 {
      assert ClassOf(actions[0]) == SideEffectMax(actions);
    } else {
      var front := actions[..n];
      SideEffectMaxIsMax(front);
      var j :| 0 <= j < n && ClassOf(front[j]) == SideEffectMax(front);
      ClassDefined(actions[j]);
      var m := SideEffectMax(actions);
      assert m == ClassOf(actions[n]) || m == ClassOf(actions[j]);
      assert Severity(SideEffectMax(front)) <= Severity(m) && Severity(ClassOf(actions[n])) <= Severity(m);
      forall i | 0 <= i < |actions| ensures Severity(ClassOf(actions[i])) <= Severity(m) {
        if i < n { assert front[i] == actions[i]; }
      }
    }
  }

  lemma ClassDefined(action: Value)
    ensures !ClassOf(action).Undefined?
  {
  }

  // ----- attribution floor

  /** Rank in the backing order, weakest first; `None` outside the vocabulary. */
  function BackingRank(g: Text): Option<nat> {
    if g == UNKNOWN then Some(0)
    else if g == Lit("operator_asserted") then Some(1)
    else if g == Lit("principal_key_signed") then Some(2)
    else if g == Lit("qualified_signature") then Some(3)
    else None
  }

  function Weakest(observed: seq<Text>): (w: Text)
    requires observed != []
    ensures w in observed
  {
    if |observed| == 1 then observed[0]
    else
      var acc := Weakest(observed[..|observed| - 1]);
      var g := observed[|observed| - 1];
      if BackingRank(g).Some? && (BackingRank(acc).None? || BackingRank(g).value < BackingRank(acc).value) then g else acc
  }

  /** The floor a record carries: `None` is one of the errors the source throws. */
  function ResolveFloor(floor: Option<Text>, observed: Option<seq<Text>>): Option<Option<Text>> {
    if floor.Some? && (observed.None? || observed.value == []) then None
    else if observed.Some? && exists g :: g in observed.value && BackingRank(g).None? then None
    else if floor.Some? && BackingRank(floor.value).None? then None
    else if observed.Some? && observed.value == [] then None
    else if observed.Some? then
      var weakest := Weakest(observed.value);
      if floor.Some? && floor.value != weakest then None else Some(Some(weakest))
    else Some(None)
  }

  /** The floor never rounds up: when a record carries one, it is an observed grade and no observed
      grade ranks below it; and a claimed floor is accepted only if it is that grade. */
  lemma FloorIsWeakest(floor: Option<Text>, observed: Option<seq<Text>>, f: Text)
    requires ResolveFloor(floor, observed) == Some(Some(f))
    ensures observed.Some? && f in observed.value && BackingRank(f).Some?
    ensures forall g :: g in observed.value ==> BackingRank(g).Some? && BackingRank(f).value <= BackingRank(g).value
    ensures floor.Some? ==> floor.value == f
  {
    WeakestIsLeast(observed.value);
  }

  lemma {:induction false} WeakestIsLeast(observed: seq<Text>)
    requires observed != [] && forall g :: g in observed ==> BackingRank(g).Some?
    ensures forall g :: g in observed ==> BackingRank(Weakest(observed)).value <= BackingRank(g).value
  {
    hide BackingRank;
    var n := |observed| - 1;
    if n > 0 {
      var front := observed[..n];
      assert forall g :: g in front ==> g in observed;
      WeakestIsLeast(front);
      assert observed == front + [observed[n]];
    }
  }

  // ----- configuration and state

  /** The options that reach a record. `opts` are the remaining options, spread as they are;
      `attribution` the defined ones among the four conditional attribution fields. */
  datatype Config = Config(
    opts: seq<Entry<Value>>,
    schemaVersion: Option<Text>,
    attribution: seq<Entry<Value>>,
    floor: Option<Text>,
    observed: Option<seq<Text>>,
    runContext: Value,
    recordingMode: Value,
    sideEffectClass: Value,
    allowEmptyActions: bool,
    keyId: Text)

  predicate IsRunId(v: Value) { v.Str? && v.s != [] }

  /** A run id that is a non-empty string, a known version, and no option under a name the emitter
      itself writes after signing. */
  predicate WellTyped(cfg: Config) {
    && (exists i :: 0 <= i < |cfg.opts| && cfg.opts[i].key == RUN_ID)
    && (forall i :: 0 <= i < |cfg.opts| ==> cfg.opts[i].key != TIMESTAMP_PROOF && WellFormed(cfg.opts[i].val))
    && (forall i :: 0 <= i < |cfg.opts| && cfg.opts[i].key == RUN_ID ==> IsRunId(cfg.opts[i].val))
    && (forall i :: 0 <= i < |cfg.attribution| ==> cfg.attribution[i].key !in {TIMESTAMP_PROOF, RUN_ID})
    && (forall i :: 0 <= i < |cfg.attribution| ==> WellFormed(cfg.attribution[i].val))
    && (cfg.schemaVersion.Some? ==> IsVersion(cfg.schemaVersion.value))
    && WellFormed(cfg.runContext) && WellFormed(cfg.recordingMode) && WellFormed(cfg.sideEffectClass)
  }

  /** The private fields of the emitter. */
  datatype State = State(
    actions: seq<Value>,
    capabilityDecisions: seq<Value>,
    inputRefs: seq<Value>,
    outputRefs: seq<Value>,
    verifierResults: seq<Value>,
    budgetLedger: Value,
    userId: Value,
    subjectId: Value,
    prevRecordHash: Value)

  predicate AllWellFormed(vs: seq<Value>) { forall i :: 0 <= i < |vs| ==> WellFormed(vs[i]) }

  predicate ValidState(s: State) {
    && AllWellFormed(s.actions) && AllWellFormed(s.capabilityDecisions) && AllWellFormed(s.inputRefs)
    && AllWellFormed(s.outputRefs) && AllWellFormed(s.verifierResults)
    && WellFormed(s.budgetLedger) && WellFormed(s.userId) && WellFormed(s.subjectId)
    && (s.prevRecordHash.Null? || s.prevRecordHash.Str?)
  }

  function InitialState(userId: Value, subjectId: Value): State {
    State([], [], [], [], [], Undefined, userId, subjectId, Null)
  }

  // ----- adding evidence

  /** `#pushCapabilityDecision`: one decision per (capability, subject, resource). */
  function PushDecision(ds: seq<Value>, d: Value): seq<Value> {
    if exists i :: 0 <= i < |ds| && Get(ds[i], CAPABILITY) == Get(d, CAPABILITY)
                && Get(ds[i], SUBJECT) == Get(d, SUBJECT) && Get(ds[i], RESOURCE) == Get(d, RESOURCE)
    then ds else ds + [d]
  }

  /** The stored action: id, timestamp, recording mode and side-effect class take their defaults
      after the spread, so an explicit undefined cannot clobber them. */
  function CompletedAction(cfg: Config, count: nat, action: Record, now: int): Record
    requires WellFormed(cfg.recordingMode) && WellFormed(cfg.sideEffectClass)
  {
    GetWellFormed(action, ACTION_ID);
    GetWellFormed(action, TIMESTAMP_MS);
    GetWellFormed(action, RECORDING_MODE);
    GetWellFormed(action, SIDE_EFFECT_CLASS);
    var a := Put(action, ACTION_ID, OrElse(Get(action, ACTION_ID), Str(Lit("action-") + Digits(count))));
    var b := Put(a, TIMESTAMP_MS, OrElse(Get(action, TIMESTAMP_MS), Num(now)));
    var c := Put(b, RECORDING_MODE,
                 OrElse(OrElse(Get(action, RECORDING_MODE), cfg.recordingMode), Str(Lit("validation"))));
    Put(c, SIDE_EFFECT_CLASS, OrElse(OrElse(Get(action, SIDE_EFFECT_CLASS), cfg.sideEffectClass), Str(UNKNOWN)))
  }

  /** One call on the emitter. A signer or timestamper that throws is `None`; a timestamper that is
      not configured is `Some(Undefined)`. `stored` is false when the evidence store throws. */
  datatype Call =
    | AddAction(action: Record, now: int)
    | AddCapabilityDecision(decision: Record)
    | AddInputRef(ref: Record)
    | AddOutputRef(ref: Record)
    | AddVerifierResult(result: Record)
    | SetBudgetLedger(ledger: Record)
    | SetUserId(id: Text)
    | SetSubjectId(id: Text)
    | Emit(createdAtMs: int, signer: Option<Bytes -> Text>, proof: Option<Value>, stored: bool)

  function Add(cfg: Config, s: State, call: Call): State
    requires WellTyped(cfg)
  {
    match call
    case AddAction(action, now) =>
      var t := s.(actions := s.actions + [CompletedAction(cfg, |s.actions|, action, now)]);
      var d := Get(action, CAPABILITY_DECISION);
      if Truthy(d) then t.(capabilityDecisions := PushDecision(s.capabilityDecisions, d)) else t
    case AddCapabilityDecision(d) => s.(capabilityDecisions := PushDecision(s.capabilityDecisions, d))
    case AddInputRef(r) => s.(inputRefs := s.inputRefs + [r])
    case AddOutputRef(r) => s.(outputRefs := s.outputRefs + [r])
    case AddVerifierResult(r) => s.(verifierResults := s.verifierResults + [r])
    case SetBudgetLedger(l) => s.(budgetLedger := l)
    case SetUserId(id) => s.(userId := Str(id))
    case SetSubjectId(id) => s.(subjectId := Str(id))
    case Emit(_, _, _, _) => s
  }

  // ----- building a record

  /** `{ ...ms, ...extra }`. */
  function AssignAll(ms: seq<Entry<Value>>, extra: seq<Entry<Value>>): seq<Entry<Value>>
    decreases |extra|
  {
    if extra == [] then ms else AssignAll(Assign(ms, extra[0].key, extra[0].val), extra[1..])
  }

  function Defined(k: Text, v: Value): seq<Entry<Value>> {
    if v.Undefined? then [] else [Entry(k, v)]
  }

  function TextOrUndefined(t: Option<Text>): Value { if t.Some? then Str(t.value) else Undefined }

  function Observed(cfg: Config): Value {
    if cfg.observed.Some? then Arr(TextValues(cfg.observed.value))
    else Undefined
  }

  /** The spread list of `#buildUnsigned` up to `run_id`'s last writer, and everything after it. */
  function HeadFields(cfg: Config, s: State, floor: Option<Text>): seq<Entry<Value>> {
    Defined(USER_ID, s.userId) + Defined(SUBJECT_ID, s.subjectId) + cfg.attribution
    + Defined(FLOOR, TextOrUndefined(floor)) + Defined(OBSERVED, Observed(cfg))
    + [Entry(INPUT_REFS, Arr(s.inputRefs)), Entry(OUTPUT_REFS, Arr(s.outputRefs)),
       Entry(CAPABILITY_DECISIONS, Arr(s.capabilityDecisions))]
  }

  function TailFields(cfg: Config, s: State, createdAtMs: int): seq<Entry<Value>> {
    [Entry(ACTIONS, Arr(s.actions)), Entry(VERIFIER_RESULTS, Arr(s.verifierResults)),
     Entry(BUDGET_LEDGER, s.budgetLedger), Entry(CREATED_AT_MS, Num(createdAtMs)),
     Entry(PREV_RECORD_HASH, s.prevRecordHash)]
    + Defined(RUN_CONTEXT, cfg.runContext) + Defined(RUN_SIDE_EFFECT_MAX, SideEffectMax(s.actions))
  }

  function Version(cfg: Config): Text {
    match cfg.schemaVersion
    case Some(v) => v
    case None => CURRENT_VERSION
  }

  /** `#buildUnsigned`. */
  function BuildUnsigned(cfg: Config, s: State, createdAtMs: int): Option<Value> {
    match ResolveFloor(cfg.floor, cfg.observed)
    case None => None
    case Some(floor) =>
      Some(Obj(AssignAll([Entry(SCHEMA_VERSION, Str(Version(cfg)))],
                         cfg.opts + (HeadFields(cfg, s, floor) + TailFields(cfg, s, createdAtMs)))))
  }

  /** `wrapInTotoStatement`. */
  function WrapStatement(predicate_: Value, runId: Text, digest: Text): Value {
    Obj([Entry(TYPE, Str(STATEMENT_TYPE)),
         Entry(SUBJECT, Arr([Obj([Entry(NAME, Str(RUN_URN + runId)),
                                  Entry(DIGEST, Obj([Entry(SHA256, Str(digest))]))])])),
         Entry(PREDICATE_TYPE, Str(AEP_PREDICATE_TYPE)),
         Entry(PREDICATE, predicate_)])
  }

  /** The signed payload: `JSON.stringify(statement)` as bytes. */
  function StatementBytes(c: Crypto, u: Record): Bytes {
    Encode(Print(Clean(WrapStatement(u, TextOf(Get(u, RUN_ID)), c.sha256(CanonicalBytes(u))))))
  }

  /** The record after both normalisations, with its final schema version: what gets signed. */
  function Stamp(schema: RecordSchema, cfg: Config, unsigned: Record): Option<Value> {
    match ParseRecord(schema, unsigned)
    case None => None
    case Some(n) =>
      if !IsRecord(n) || !WellFormed(Str(Version(cfg))) then None
      else ParseRecord(schema, Put(Strip(n, {SIGNATURE, DSSE_ENVELOPE}), SCHEMA_VERSION, Str(Version(cfg))))
  }

  /** The signed record before a timestamp proof is attached. */
  function Sign(c: Crypto, schema: RecordSchema, keyId: Text, u: Record, sign: Bytes -> Text): Option<Value> {
    var body := StatementBytes(c, u);
    var sig := sign(Pae(Encode(IN_TOTO_PAYLOAD_TYPE), body));
    BlocksWellFormed(c.encode64(body), keyId, sig);
    ParseRecord(schema, Put(Put(u, DSSE_ENVELOPE, EnvelopeBlock(c.encode64(body), keyId, sig)),
                            SIGNATURE, SignatureBlock(keyId, sig)))
  }

  /** The part of `emit` before signing. */
  function SignedPredicate(schema: RecordSchema, cfg: Config, s: State, createdAtMs: int): Option<Value> {
    match BuildUnsigned(cfg, s, createdAtMs)
    case Some(unsigned) => if IsRecord(unsigned) then Stamp(schema, cfg, unsigned) else None
    case None => None
  }

  /** `record.timestamp_proof = proof`, when a timestamper is configured. */
  function Attach(r: Record, proof: Value): Record
    requires WellFormed(proof)
  {
    if proof.Undefined? then r else Put(r, TIMESTAMP_PROOF, proof)
  }

  /** The part of `emit` from signing on. */
  function Finish(c: Crypto, schema: RecordSchema, keyId: Text, u: Record, call: Call): Option<Value>
    requires call.Emit?
  {
    if call.signer.None? then None
    else match Sign(c, schema, keyId, u, call.signer.value)
      case None => None
      case Some(r) =>
        if !IsRecord(r) || call.proof.None? || !WellFormed(call.proof.value) then None
        else Some(Attach(r, call.proof.value))
  }

  /** `emit` up to the evidence store: the finished record, or `None` for any of the ways it throws. */
  function EmitRecord(c: Crypto, schema: RecordSchema, cfg: Config, s: State, call: Call): Option<Value>
    requires call.Emit?
  {
    if s.actions == [] && !cfg.allowEmptyActions then None
    else match SignedPredicate(schema, cfg, s, call.createdAtMs)
      case Some(u) => if IsRecord(u) then Finish(c, schema, cfg.keyId, u, call) else None
      case None => None
  }

  /** One transition, with the record it finishes. Only a finished record moves the chain head, to its
      digest; it has moved when the evidence store throws. */
  function Step(c: Crypto, schema: RecordSchema, cfg: Config, s: State, call: Call): (State, seq<Value>)
    requires WellTyped(cfg)
  {
    if call.Emit? then
      match EmitRecord(c, schema, cfg, s, call)
      case Some(r) => if IsRecord(r) then (s.(prevRecordHash := Str(Digest(c.sha256, r))), [r]) else (s, [])
      case None => (s, [])
    else (Add(cfg, s, call), [])
  }

  // ----- the class

  /** The emitter object. Each public method performs one transition of its private state. */
  class AEPEmitter {
    const crypto: Crypto
    const schema: RecordSchema
    const cfg: Config
    var actions: seq<Value>
    var capabilityDecisions: seq<Value>
    var inputRefs: seq<Value>
    var outputRefs: seq<Value>
    var verifierResults: seq<Value>
    var budgetLedger: Value
    var userId: Value
    var subjectId: Value
    var prevRecordHash: Value

    ghost function View(): State
      reads this
    {
      State(actions, capabilityDecisions, inputRefs, outputRefs, verifierResults, budgetLedger, userId, subjectId, prevRecordHash)
    }

    constructor (crypto: Crypto, schema: RecordSchema, cfg: Config, userId: Value, subjectId: Value)
      ensures this.crypto == crypto && this.schema == schema && this.cfg == cfg
      ensures View() == InitialState(userId, subjectId)
    {
      this.crypto, this.schema, this.cfg := crypto, schema, cfg;
      actions, capabilityDecisions, inputRefs, outputRefs, verifierResults := [], [], [], [], [];
      budgetLedger, prevRecordHash := Undefined, Null;
      this.userId, this.subjectId := userId, subjectId;
    }

    method AddAction(action: Record, now: int)
      requires WellTyped(cfg)
      modifies this
      ensures View() == Add(cfg, old(View()), Call.AddAction(action, now))
    {
      hide CompletedAction, Get, PushDecision;
      actions := actions + [CompletedAction(cfg, |actions|, action, now)];
      if Truthy(Get(action, CAPABILITY_DECISION)) {
        PushCapabilityDecision(Get(action, CAPABILITY_DECISION));
      }
    }

    method AddCapabilityDecision(decision: Record)
      requires WellTyped(cfg)
      modifies this`capabilityDecisions
      ensures View() == Add(cfg, old(View()), Call.AddCapabilityDecision(decision))
    {
      PushCapabilityDecision(decision);
    }

    method PushCapabilityDecision(decision: Value)
      modifies this`capabilityDecisions
      ensures capabilityDecisions == PushDecision(old(capabilityDecisions), decision)
    {
      var i := 0;
      while i < |capabilityDecisions|
        invariant 0 <= i <= |capabilityDecisions| && capabilityDecisions == old(capabilityDecisions)
        invariant forall j :: 0 <= j < i ==>
                    !(Get(capabilityDecisions[j], CAPABILITY) == Get(decision, CAPABILITY)
                      && Get(capabilityDecisions[j], SUBJECT) == Get(decision, SUBJECT)
                      && Get(capabilityDecisions[j], RESOURCE) == Get(decision, RESOURCE))
      {
        var d := capabilityDecisions[i];
        if Get(d, CAPABILITY) == Get(decision, CAPABILITY) && Get(d, SUBJECT) == Get(decision, SUBJECT)
           && Get(d, RESOURCE) == Get(decision, RESOURCE) {
          return;
        }
        i := i + 1;
      }
      capabilityDecisions := capabilityDecisions + [decision];
    }

    /** `emit`: a record is returned when it is finished and stored. Any throw before the store leaves
        the private state as it was. */
    method Emit(createdAtMs: int, signer: Option<Bytes -> Text>, proof: Option<Value>, stored: bool) returns (record: Option<Value>)
      requires WellTyped(cfg)
      modifies this`prevRecordHash
      ensures var (t, finished) := Step(crypto, schema, cfg, old(View()), Call.Emit(createdAtMs, signer, proof, stored));
              t == View() && record == if finished != [] && stored then Some(finished[0]) else None
    {
      hide CompletedAction, WellTyped, Digest, SignedPredicate, Sign, Attach;
      ghost var before, call := View(), Call.Emit(createdAtMs, signer, proof, stored);
      if actions == [] && !cfg.allowEmptyActions { return None; }
      var s := State(actions, capabilityDecisions, inputRefs, outputRefs, verifierResults, budgetLedger, userId, subjectId, prevRecordHash);
      var u := SignedPredicate(schema, cfg, s, createdAtMs);
      if u.None? || !IsRecord(u.value) || signer.None? { return None; }
      var signed := Sign(crypto, schema, cfg.keyId, u.value, signer.value);
      if signed.None? || !IsRecord(signed.value) || proof.None? || !WellFormed(proof.value) { return None; }
      var r := Attach(signed.value, proof.value);
      assert EmitRecord(crypto, schema, cfg, before, call) == Some(r);
      prevRecordHash := Str(Digest(crypto.sha256, r));
      return if stored then Some(r) else None;
    }
  }
}
