/** Every run of an emitter: each returned record verifies as `dsse-valid` with an exact binding, the
    returned records form an intact chain, and each record's actions extend the previous ones.

    The proof follows one emission from the inside out.

    - Lookups: what the record built from the option spread holds under the names that matter, because
      a key written last keeps its value (`AssignAllLast`, `BuildUnsignedBuilt`).
    - Stamping and signing: which properties survive the two validations and the version stamp
      (`StampGet`, `Stamped`), and that signing adds two fields and cannot fail (`SignKeeps`).
    - Verification: the statement read back from the envelope is the one that was signed
      (`StatementComesBack`), so every check of the binding passes (`EmittedBindsExactly`).
    - Runs: an invariant over the returned records and the emitter's state (`RunInvariant`), kept by
      adding evidence (`AddStep`) and by every outcome of an emission (`OneEmit`). */
module EmitterProofs {
  import opened JsonValue
  import opened Canonical
  import opened NormalForm
  import opened Utf8
  import opened RoundTrip
  import opened Records
  import opened Chain
  import opened Dsse
  import opened Schema
  import opened Emitter

  // ----- lookups in the built record

  lemma {:induction false} AssignAllAppend(ms: seq<Entry<Value>>, a: seq<Entry<Value>>, b: seq<Entry<Value>>)
    ensures AssignAll(ms, a + b) == AssignAll(AssignAll(ms, a), b)
    decreases |a|
  {
    if a == [] {
      assert a + b == b;
    } else {
      assert (a + b)[0] == a[0] && (a + b)[1..] == a[1..] + b;
      AssignAllAppend(Assign(ms, a[0].key, a[0].val), a[1..], b);
    }
  }

  lemma {:induction false} AssignAllSkips(ms: seq<Entry<Value>>, extra: seq<Entry<Value>>, k: Text)
    requires forall i :: 0 <= i < |extra| ==> extra[i].key != k
    ensures Find(AssignAll(ms, extra), k) == Find(ms, k)
    decreases |extra|
  {
    if extra != [] {
      AssignFind(ms, extra[0].key, extra[0].val, k);
      AssignAllSkips(Assign(ms, extra[0].key, extra[0].val), extra[1..], k);
    }
  }

  lemma {:induction false} AssignAllRecord(ms: seq<Entry<Value>>, extra: seq<Entry<Value>>)
    requires IsRecord(Obj(ms)) && forall i :: 0 <= i < |extra| ==> WellFormed(extra[i].val)
    ensures IsRecord(Obj(AssignAll(ms, extra)))
    decreases |extra|
  {
    if extra != [] {
      AssignDistinct(ms, extra[0].key, extra[0].val);
      AssignWellFormed(ms, extra[0].key, extra[0].val);
      AssignAllRecord(Assign(ms, extra[0].key, extra[0].val), extra[1..]);
    }
  }

  /** A key written in the middle and not afterwards keeps that value. */
  lemma AssignAllLast(ms: seq<Entry<Value>>, front: seq<Entry<Value>>, k: Text, x: Value, back: seq<Entry<Value>>)
    requires forall i :: 0 <= i < |back| ==> back[i].key != k
    ensures Find(AssignAll(ms, front + ([Entry(k, x)] + back)), k) == Some(x)
  {
    AssignAllAppend(ms, front, [Entry(k, x)] + back);
    var m := AssignAll(ms, front);
    assert ([Entry(k, x)] + back)[1..] == back;
    AssignFind(m, k, x, k);
    AssignAllSkips(Assign(m, k, x), back, k);
  }

  lemma {:induction false} AssignAllRunId(ms: seq<Entry<Value>>, extra: seq<Entry<Value>>)
    requires (exists i :: 0 <= i < |extra| && extra[i].key == RUN_ID)
          || (Find(ms, RUN_ID).Some? && IsRunId(Find(ms, RUN_ID).value))
    requires forall i :: 0 <= i < |extra| && extra[i].key == RUN_ID ==> IsRunId(extra[i].val)
    ensures Find(AssignAll(ms, extra), RUN_ID).Some? && IsRunId(Find(AssignAll(ms, extra), RUN_ID).value)
    decreases |extra|
  {
    hide IsRunId;
    if extra != [] {
      AssignFind(ms, extra[0].key, extra[0].val, RUN_ID);
      var rest := extra[1..];
      assert forall i :: 0 <= i < |rest| ==> rest[i] == extra[i + 1];
      if extra[0].key != RUN_ID && exists i :: 0 <= i < |extra| && extra[i].key == RUN_ID {
        var i :| 0 <= i < |extra| && extra[i].key == RUN_ID;
        assert rest[i - 1].key == RUN_ID;
      }
      AssignAllRunId(Assign(ms, extra[0].key, extra[0].val), rest);
    }
  }

  lemma HeadKeys(cfg: Config, s: State, floor: Option<Text>, i: nat)
    requires WellTyped(cfg) && ValidState(s) && i < |HeadFields(cfg, s, floor)|
    ensures var e := HeadFields(cfg, s, floor)[i]; e.key != RUN_ID && e.key != TIMESTAMP_PROOF && WellFormed(e.val)
  {
    var a, b := Defined(USER_ID, s.userId), Defined(SUBJECT_ID, s.subjectId);
    var d, e := Defined(FLOOR, TextOrUndefined(floor)), Defined(OBSERVED, Observed(cfg));
    var f := [Entry(INPUT_REFS, Arr(s.inputRefs)), Entry(OUTPUT_REFS, Arr(s.outputRefs)),
              Entry(CAPABILITY_DECISIONS, Arr(s.capabilityDecisions))];
    assert |f| == 3;
    var x := HeadFields(cfg, s, floor)[i];
    assert x in a || x in b || x in cfg.attribution || x in d || x in e || x in f;
    assert WellFormed(Observed(cfg));
  }

  lemma TailKeys(cfg: Config, s: State, createdAtMs: int, i: nat)
    requires WellTyped(cfg) && ValidState(s) && i < |TailFields(cfg, s, createdAtMs)|
    ensures var t := TailFields(cfg, s, createdAtMs);
            t[i].key != RUN_ID && t[i].key != TIMESTAMP_PROOF && WellFormed(t[i].val)
            && (i >= 1 ==> t[i].key != ACTIONS) && (i >= 5 ==> t[i].key != PREV_RECORD_HASH)
  {
    var x, y := Defined(RUN_CONTEXT, cfg.runContext), Defined(RUN_SIDE_EFFECT_MAX, SideEffectMax(s.actions));
    MaxWellFormed(s.actions);
    if i >= 5 { assert TailFields(cfg, s, createdAtMs)[i] in x + y; }
    assert VERIFIER_RESULTS[0] != PREV_RECORD_HASH[0];
  }

  lemma {:induction false} MaxWellFormed(actions: seq<Value>)
    requires AllWellFormed(actions)
    ensures WellFormed(SideEffectMax(actions))
  {
    if actions != [] {
      MaxWellFormed(actions[..|actions| - 1]);
      GetWellFormed(actions[|actions| - 1], SIDE_EFFECT_CLASS);
    }
  }

  /** What the unsigned record holds under the names the proofs need. */
  predicate BuiltFrom(s: State, u: Value) {
    IsRecord(u) && Get(u, PREV_RECORD_HASH) == s.prevRecordHash && Get(u, ACTIONS) == Arr(s.actions)
    && IsRunId(Get(u, RUN_ID)) && Get(u, TIMESTAMP_PROOF) == Undefined
  }

  /** Element `i` of the tail, written last under its key, is what the record holds. */
  lemma AssignAllAt(ms: seq<Entry<Value>>, front: seq<Entry<Value>>, tail: seq<Entry<Value>>, i: nat)
    requires i < |tail| && forall j :: i < j < |tail| ==> tail[j].key != tail[i].key
    ensures Find(AssignAll(ms, front + tail), tail[i].key) == Some(tail[i].val)
  {
    hide Find, AssignAll;
    var e := tail[i];
    assert front + tail == (front + tail[..i]) + ([Entry(e.key, e.val)] + tail[i + 1..]);
    AssignAllLast(ms, front + tail[..i], e.key, e.val, tail[i + 1..]);
  }

  lemma BuiltFields(ms: seq<Entry<Value>>, opts: seq<Entry<Value>>, head: seq<Entry<Value>>, tail: seq<Entry<Value>>)
    requires Find(ms, TIMESTAMP_PROOF) == None
    requires forall i :: 0 <= i < |opts| ==> opts[i].key != TIMESTAMP_PROOF
    requires forall i :: 0 <= i < |opts| && opts[i].key == RUN_ID ==> IsRunId(opts[i].val)
    requires exists i :: 0 <= i < |opts| && opts[i].key == RUN_ID
    requires forall i :: 0 <= i < |head| ==> head[i].key != RUN_ID && head[i].key != TIMESTAMP_PROOF
    requires forall i :: 0 <= i < |tail| ==> tail[i].key != RUN_ID && tail[i].key != TIMESTAMP_PROOF
    ensures var built := AssignAll(ms, opts + (head + tail));
            && Find(built, TIMESTAMP_PROOF) == None
            && Find(built, RUN_ID).Some? && IsRunId(Find(built, RUN_ID).value)
  {
    hide Find, AssignAll, IsRunId, Keys;
    var rest := head + tail;
    AssignAllAppend(ms, opts, rest);
    AssignAllRunId(ms, opts);
    AssignAllSkips(AssignAll(ms, opts), rest, RUN_ID);
    AssignAllSkips(ms, opts, TIMESTAMP_PROOF);
    AssignAllSkips(AssignAll(ms, opts), rest, TIMESTAMP_PROOF);
  }

  lemma BuildUnsignedBuilt(cfg: Config, s: State, createdAtMs: int)
    requires WellTyped(cfg) && ValidState(s) && BuildUnsigned(cfg, s, createdAtMs).Some?
    ensures BuiltFrom(s, BuildUnsigned(cfg, s, createdAtMs).value)
  {
    var floor := ResolveFloor(cfg.floor, cfg.observed).value;
    var base := [Entry(SCHEMA_VERSION, Str(Version(cfg)))];
    var head, tail := HeadFields(cfg, s, floor), TailFields(cfg, s, createdAtMs);
    assert tail[0] == Entry(ACTIONS, Arr(s.actions)) && tail[4] == Entry(PREV_RECORD_HASH, s.prevRecordHash);
    BaseRecord(cfg);
    hide Lit, Find, HeadFields, TailFields, Assign, AssignAll, WellFormed, IsRunId, Version, Distinct, Keys;
    forall i | 0 <= i < |head| ensures head[i].key != RUN_ID && head[i].key != TIMESTAMP_PROOF && WellFormed(head[i].val) {
      HeadKeys(cfg, s, floor, i);
    }
    forall i | 0 <= i < |tail|
      ensures tail[i].key != RUN_ID && tail[i].key != TIMESTAMP_PROOF && WellFormed(tail[i].val)
      ensures (i >= 1 ==> tail[i].key != ACTIONS) && (i >= 5 ==> tail[i].key != PREV_RECORD_HASH)
    {
      TailKeys(cfg, s, createdAtMs, i);
    }
    AllBuilt(base, cfg.opts, head, tail);
    BuiltFields(base, cfg.opts, head, tail);
    Assoc2(cfg.opts, head, tail);
    AssignAllAt(base, cfg.opts + head, tail, 0);
    AssignAllAt(base, cfg.opts + head, tail, 4);
    BuiltFromLists(s, AssignAll(base, cfg.opts + (head + tail)));
  }

  /** The evidence an unsigned record carries, each list under its own name. */
  predicate Carries(s: State, createdAtMs: int, u: Value) {
    && Get(u, INPUT_REFS) == Arr(s.inputRefs) && Get(u, OUTPUT_REFS) == Arr(s.outputRefs)
    && Get(u, CAPABILITY_DECISIONS) == Arr(s.capabilityDecisions) && Get(u, ACTIONS) == Arr(s.actions)
    && Get(u, VERIFIER_RESULTS) == Arr(s.verifierResults) && Get(u, BUDGET_LEDGER) == s.budgetLedger
    && Get(u, CREATED_AT_MS) == Num(createdAtMs) && Get(u, PREV_RECORD_HASH) == s.prevRecordHash
  }

  /** The last eight fixed fields of the spread and what follows them. */
  function Fixed(s: State, createdAtMs: int): seq<Entry<Value>> {
    [Entry(INPUT_REFS, Arr(s.inputRefs)), Entry(OUTPUT_REFS, Arr(s.outputRefs)),
     Entry(CAPABILITY_DECISIONS, Arr(s.capabilityDecisions)), Entry(ACTIONS, Arr(s.actions)),
     Entry(VERIFIER_RESULTS, Arr(s.verifierResults)), Entry(BUDGET_LEDGER, s.budgetLedger),
     Entry(CREATED_AT_MS, Num(createdAtMs)), Entry(PREV_RECORD_HASH, s.prevRecordHash)]
  }

  function Trailing(cfg: Config, s: State): seq<Entry<Value>> {
    Defined(RUN_CONTEXT, cfg.runContext) + Defined(RUN_SIDE_EFFECT_MAX, SideEffectMax(s.actions))
  }

  lemma EvidenceNames()
    ensures Distinct([INPUT_REFS, OUTPUT_REFS, CAPABILITY_DECISIONS, ACTIONS, VERIFIER_RESULTS, BUDGET_LEDGER,
                      CREATED_AT_MS, PREV_RECORD_HASH, RUN_CONTEXT, RUN_SIDE_EFFECT_MAX])
  {
    assert |INPUT_REFS| == 10 && |OUTPUT_REFS| == 11 && |CAPABILITY_DECISIONS| == 20 && |ACTIONS| == 7
        && |VERIFIER_RESULTS| == 16 && |BUDGET_LEDGER| == 13 && |CREATED_AT_MS| == 13 && |PREV_RECORD_HASH| == 16
        && |RUN_CONTEXT| == 11;
    assert VERIFIER_RESULTS[0] != PREV_RECORD_HASH[0] && BUDGET_LEDGER[0] != CREATED_AT_MS[0] && OUTPUT_REFS[0] != RUN_CONTEXT[0];
    assert |RUN_SIDE_EFFECT_MAX| > 20;
  }

  /** Element `i` of the fixed fields is not overwritten by anything after it. */
  lemma FixedStays(cfg: Config, s: State, createdAtMs: int, front: seq<Entry<Value>>, ms: seq<Entry<Value>>, i: nat)
    requires i < 8
    ensures var e := Fixed(s, createdAtMs)[i];
            Find(AssignAll(ms, front + (Fixed(s, createdAtMs) + Trailing(cfg, s))), e.key) == Some(e.val)
  {
    EvidenceNames();
    hide Lit, Find, AssignAll, SideEffectMax;
    var names := [INPUT_REFS, OUTPUT_REFS, CAPABILITY_DECISIONS, ACTIONS, VERIFIER_RESULTS, BUDGET_LEDGER,
                  CREATED_AT_MS, PREV_RECORD_HASH, RUN_CONTEXT, RUN_SIDE_EFFECT_MAX];
    var fixed, trailing := Fixed(s, createdAtMs), Trailing(cfg, s);
    assert forall j :: 0 <= j < 8 ==> fixed[j].key == names[j];
    forall j | 0 <= j < |trailing| ensures trailing[j].key == names[8] || trailing[j].key == names[9] { }
    var tail := fixed + trailing;
    forall j | i < j < |tail| ensures tail[j].key != tail[i].key {
      if j >= 8 { assert tail[j] == trailing[j - 8]; }
    }
    AssignAllAt(ms, front, tail, i);
  }

  /** The optional fields before the fixed ones. */
  function Early(cfg: Config, s: State, floor: Option<Text>): seq<Entry<Value>> {
    Defined(USER_ID, s.userId) + Defined(SUBJECT_ID, s.subjectId) + cfg.attribution
    + Defined(FLOOR, TextOrUndefined(floor)) + Defined(OBSERVED, Observed(cfg))
  }

  lemma SpreadSplits(cfg: Config, s: State, floor: Option<Text>, createdAtMs: int)
    ensures HeadFields(cfg, s, floor) + TailFields(cfg, s, createdAtMs)
         == Early(cfg, s, floor) + (Fixed(s, createdAtMs) + Trailing(cfg, s))
  {
    hide Lit, Defined, TextOrUndefined, Observed, SideEffectMax;
    var a, b, t := Fixed(s, createdAtMs)[..3], Fixed(s, createdAtMs)[3..], Trailing(cfg, s);
    var x, y := Defined(RUN_CONTEXT, cfg.runContext), Defined(RUN_SIDE_EFFECT_MAX, SideEffectMax(s.actions));
    assert HeadFields(cfg, s, floor) == Early(cfg, s, floor) + a;
    Assoc2(b, x, y);
    assert TailFields(cfg, s, createdAtMs) == b + t;
    assert Fixed(s, createdAtMs) == a + b;
    hide Early, HeadFields, TailFields, Fixed, Trailing;
    Assoc2(Early(cfg, s, floor), a, b + t);
    Assoc2(a, b, t);
  }

  /** Whatever the options spread before them, the emitter's lists reach the record under their own
      names. */
  lemma UnsignedCarriesEvidence(cfg: Config, s: State, createdAtMs: int)
    requires BuildUnsigned(cfg, s, createdAtMs).Some?
    ensures Carries(s, createdAtMs, BuildUnsigned(cfg, s, createdAtMs).value)
  {
    hide Lit, Find, AssignAll, ResolveFloor, Version, Early, HeadFields, TailFields, Trailing;
    var floor := ResolveFloor(cfg.floor, cfg.observed).value;
    var base := [Entry(SCHEMA_VERSION, Str(Version(cfg)))];
    var early, rest := Early(cfg, s, floor), Fixed(s, createdAtMs) + Trailing(cfg, s);
    SpreadSplits(cfg, s, floor, createdAtMs);
    Assoc2(cfg.opts, early, rest);
    FixedStays(cfg, s, createdAtMs, cfg.opts + early, base, 0);
    FixedStays(cfg, s, createdAtMs, cfg.opts + early, base, 1);
    FixedStays(cfg, s, createdAtMs, cfg.opts + early, base, 2);
    FixedStays(cfg, s, createdAtMs, cfg.opts + early, base, 3);
    FixedStays(cfg, s, createdAtMs, cfg.opts + early, base, 4);
    FixedStays(cfg, s, createdAtMs, cfg.opts + early, base, 5);
    FixedStays(cfg, s, createdAtMs, cfg.opts + early, base, 6);
    FixedStays(cfg, s, createdAtMs, cfg.opts + early, base, 7);
    CarriesAll(s, createdAtMs, AssignAll(base, (cfg.opts + early) + rest));
  }

  lemma CarriesAll(s: State, createdAtMs: int, ms: seq<Entry<Value>>)
    requires forall i :: 0 <= i < 8 ==> Find(ms, Fixed(s, createdAtMs)[i].key) == Some(Fixed(s, createdAtMs)[i].val)
    ensures Carries(s, createdAtMs, Obj(ms))
  {
    hide Lit, Find;
    var f := Fixed(s, createdAtMs);
    assert f[0].key == INPUT_REFS && f[1].key == OUTPUT_REFS && f[2].key == CAPABILITY_DECISIONS && f[3].key == ACTIONS
        && f[4].key == VERIFIER_RESULTS && f[5].key == BUDGET_LEDGER && f[6].key == CREATED_AT_MS && f[7].key == PREV_RECORD_HASH;
  }

  lemma Assoc2(a: seq<Entry<Value>>, b: seq<Entry<Value>>, c: seq<Entry<Value>>)
    ensures (a + b) + c == a + (b + c)
  {
  }

  lemma AllBuilt(ms: seq<Entry<Value>>, opts: seq<Entry<Value>>, head: seq<Entry<Value>>, tail: seq<Entry<Value>>)
    requires IsRecord(Obj(ms))
    requires forall i :: 0 <= i < |opts| ==> WellFormed(opts[i].val)
    requires forall i :: 0 <= i < |head| ==> WellFormed(head[i].val)
    requires forall i :: 0 <= i < |tail| ==> WellFormed(tail[i].val)
    ensures IsRecord(Obj(AssignAll(ms, opts + (head + tail))))
  {
    hide WellFormed, AssignAll, IsRecord;
    var extra := opts + (head + tail);
    AssignAllRecord(ms, extra);
  }

  lemma BuiltFromLists(s: State, ms: seq<Entry<Value>>)
    requires IsRecord(Obj(ms)) && Find(ms, PREV_RECORD_HASH) == Some(s.prevRecordHash)
    requires Find(ms, ACTIONS) == Some(Arr(s.actions)) && Find(ms, TIMESTAMP_PROOF) == None
    requires Find(ms, RUN_ID).Some? && IsRunId(Find(ms, RUN_ID).value)
    ensures BuiltFrom(s, Obj(ms))
  {
    hide Find, Lit, WellFormed;
  }

  lemma BaseRecord(cfg: Config)
    ensures var base := [Entry(SCHEMA_VERSION, Str(Version(cfg)))];
            IsRecord(Obj(base)) && Find(base, TIMESTAMP_PROOF) == None
  {
    assert SCHEMA_VERSION != TIMESTAMP_PROOF;
  }

  // ----- the stamped and the signed record

  /** The signed predicate: a parsed record that keeps what the unsigned one held. */
  ghost predicate Stamped(schema: RecordSchema, cfg: Config, s: State, u: Value) {
    && IsRecord(u)
    && Get(u, PREV_RECORD_HASH) == s.prevRecordHash
    && Get(u, ACTIONS).Arr? && ParseAll(schema.action, s.actions) == Some(Get(u, ACTIONS).elems)
    && IsRunId(Get(u, RUN_ID)) && Get(u, SCHEMA_VERSION).Str?
    && (forall k :: k in {SIGNATURE, DSSE_ENVELOPE, TIMESTAMP_PROOF} ==> Get(u, k) == Undefined)
    && (forall k :: k in schema.keys ==> schema.field(k, Get(u, k)) == Some(Get(u, k)))
    && (forall k :: k !in schema.keys ==> Get(u, k) == Undefined)
  }

  lemma RecordNamesApart()
    ensures SIGNATURE != DSSE_ENVELOPE && SCHEMA_VERSION != PREV_RECORD_HASH && SCHEMA_VERSION != ACTIONS && SCHEMA_VERSION != RUN_ID
    ensures PREV_RECORD_HASH !in {SIGNATURE, DSSE_ENVELOPE, TIMESTAMP_PROOF} && SCHEMA_VERSION !in {SIGNATURE, DSSE_ENVELOPE, TIMESTAMP_PROOF}
    ensures RUN_ID !in {SIGNATURE, DSSE_ENVELOPE, TIMESTAMP_PROOF} && ACTIONS !in {SIGNATURE, DSSE_ENVELOPE, TIMESTAMP_PROOF}
    ensures TIMESTAMP_PROOF !in {SIGNATURE, DSSE_ENVELOPE, SCHEMA_VERSION}
  {
    assert |SIGNATURE| == 9 && |DSSE_ENVELOPE| == 13 && |TIMESTAMP_PROOF| == 15 && |PREV_RECORD_HASH| == 16
        && |SCHEMA_VERSION| == 14 && |RUN_ID| == 6 && |ACTIONS| == 7;
  }

  /** One property through both normalisations. */
  lemma StampGet(schema: RecordSchema, cfg: Config, unsigned: Record, k: Text)
    requires Lawful(schema) && Stamp(schema, cfg, unsigned).Some?
    ensures var u := Stamp(schema, cfg, unsigned).value;
            && IsRecord(u)
            && (k in schema.keys ==> schema.field(k, Get(u, k)) == Some(Get(u, k)))
            && (k !in schema.keys ==> Get(u, k) == Undefined)
            && (k in {SIGNATURE, DSSE_ENVELOPE} ==> Get(u, k) == Undefined)
            && (k == SCHEMA_VERSION && IsVersion(Version(cfg)) ==> Get(u, k) == Str(Version(cfg)))
            && (k in schema.keys && k !in {SIGNATURE, DSSE_ENVELOPE, SCHEMA_VERSION} ==>
                  schema.field(k, Get(unsigned, k)) == Some(Get(u, k)))
  {
    RecordNamesApart();
    hide Lit, ParseRecord, IsVersion, Version, ParseAll, Find, Distinct, SignatureBlock, EnvelopeBlock;
    var n := ParseRecord(schema, unsigned).value;
    var stripped := Strip(n, {SIGNATURE, DSSE_ENVELOPE});
    var m := Put(stripped, SCHEMA_VERSION, Str(Version(cfg)));
    StripGet(n, {SIGNATURE, DSSE_ENVELOPE});
    PutGet(stripped, SCHEMA_VERSION, Str(Version(cfg)), k);
    ParseRecordGet(schema, unsigned, k);
    ParseRecordGet(schema, m, k);
    if k in schema.keys {
      ParseRecordIdempotent(schema, m, k);
      ParseRecordIdempotent(schema, unsigned, k);
    }
  }

  /** The laws, at the values an emitter passes through the schema. */
  lemma LawsAt(schema: RecordSchema, prev: Value, xs: seq<Value>)
    requires Lawful(schema) && (prev.Null? || prev.Str?)
    ensures PREV_RECORD_HASH in schema.keys && SCHEMA_VERSION in schema.keys && RUN_ID in schema.keys && ACTIONS in schema.keys
    ensures schema.field(PREV_RECORD_HASH, prev) == Some(prev)
    ensures forall v, w :: schema.field(RUN_ID, v) == Some(w) ==> v == w
    ensures forall w :: schema.field(ACTIONS, Arr(xs)) == Some(w) ==> w.Arr? && ParseAll(schema.action, xs) == Some(w.elems)
    ensures schema.field(TIMESTAMP_PROOF, Undefined) == Some(Undefined)
  {
    hide Lit, ParseAll, SignatureBlock, EnvelopeBlock, Distinct, IsVersion;
  }

  lemma StampStamped(schema: RecordSchema, cfg: Config, s: State, unsigned: Record)
    requires Lawful(schema) && WellTyped(cfg) && BuiltFrom(s, unsigned)
    requires s.prevRecordHash.Null? || s.prevRecordHash.Str?
    requires Stamp(schema, cfg, unsigned).Some?
    ensures Stamped(schema, cfg, s, Stamp(schema, cfg, unsigned).value)
  {
    RecordNamesApart();
    LawsAt(schema, s.prevRecordHash, s.actions);
    VersionKnown(cfg);
    hide Lit, Stamp, IsVersion, Version, ParseAll, Get, Lawful, IsRunId, WellTyped, IsRecord;
    var u := Stamp(schema, cfg, unsigned).value;
    forall k
      ensures k in schema.keys ==> schema.field(k, Get(u, k)) == Some(Get(u, k))
      ensures k !in schema.keys ==> Get(u, k) == Undefined
      ensures k in {SIGNATURE, DSSE_ENVELOPE} ==> Get(u, k) == Undefined
    {
      StampGet(schema, cfg, unsigned, k);
    }
    StampGet(schema, cfg, unsigned, PREV_RECORD_HASH);
    StampGet(schema, cfg, unsigned, SCHEMA_VERSION);
    StampGet(schema, cfg, unsigned, RUN_ID);
    StampGet(schema, cfg, unsigned, ACTIONS);
    StampGet(schema, cfg, unsigned, TIMESTAMP_PROOF);
  }

  lemma VersionKnown(cfg: Config)
    requires WellTyped(cfg)
    ensures IsVersion(Version(cfg))
  {
  }

  /** Equal outside the three fields that are written after the payload is signed. */
  ghost predicate KeepsPayload(u: Record, r: Value) {
    forall k :: k !in {SIGNATURE, DSSE_ENVELOPE, TIMESTAMP_PROOF} ==> Get(r, k) == Get(u, k)
  }

  /** Signing cannot fail validation, and changes nothing but the two signature fields. */
  lemma SignKeeps(c: Crypto, schema: RecordSchema, cfg: Config, s: State, u: Record, sign: Bytes -> Text)
    requires Lawful(schema) && Stamped(schema, cfg, s, u)
    ensures Sign(c, schema, cfg.keyId, u, sign).Some?
    ensures var r := Sign(c, schema, cfg.keyId, u, sign).value;
            var body := StatementBytes(c, u);
            && IsRecord(r)
            && KeepsPayload(u, r)
            && Get(r, DSSE_ENVELOPE) == EnvelopeBlock(c.encode64(body), cfg.keyId, sign(Pae(Encode(IN_TOTO_PAYLOAD_TYPE), body)))
  {
    RecordNamesApart();
    var body := StatementBytes(c, u);
    var sig := sign(Pae(Encode(IN_TOTO_PAYLOAD_TYPE), body));
    var env, block := EnvelopeBlock(c.encode64(body), cfg.keyId, sig), SignatureBlock(cfg.keyId, sig);
    BlocksWellFormed(c.encode64(body), cfg.keyId, sig);
    hide Lit, StatementBytes, Pae, Encode, EnvelopeBlock, SignatureBlock, Get, Distinct, ParseAll, ParseFields, WellFormed, Put;
    var m := Put(Put(u, DSSE_ENVELOPE, env), SIGNATURE, block);
    forall k ensures Get(m, k) == if k == SIGNATURE then block else if k == DSSE_ENVELOPE then env else Get(u, k) {
      PutGet(u, DSSE_ENVELOPE, env, k);
      PutGet(Put(u, DSSE_ENVELOPE, env), SIGNATURE, block, k);
    }
    forall k | k in schema.keys ensures schema.field(k, Get(m, k)) == Some(Get(m, k)) {
    }
    ParseFieldsSucceeds(schema, schema.keys, m);
    forall k ensures Get(ParseRecord(schema, m).value, k) == Get(m, k) || (k !in schema.keys && Get(ParseRecord(schema, m).value, k) == Undefined) {
      ParseRecordGet(schema, m, k);
    }
    ParseRecordGet(schema, m, []);
    assert m == Put(Put(u, DSSE_ENVELOPE, env), SIGNATURE, block);
  }

  // ----- the statement comes back out of the envelope

  lemma FourthOf(a: Entry<Value>, b: Entry<Value>, x: Entry<Value>, y: Entry<Value>)
    requires Distinct([a.key, b.key, x.key, y.key])
    ensures var o := Obj([a, b, x, y]);
            Get(o, a.key) == a.val && Get(o, b.key) == b.val && Get(o, x.key) == x.val && Get(o, y.key) == y.val
    ensures Distinct(Keys([a, b, x, y]))
  {
    var es := [a, b, x, y];
    assert Keys(es) == [a.key, b.key, x.key, y.key];
    FindAt(es, 0);
    FindAt(es, 1);
    FindAt(es, 2);
    FindAt(es, 3);
  }

  /** The parts of the statement the verifier reads. */
  lemma StatementParts(u: Record, runId: Text, digest: Text)
    ensures var st := WrapStatement(u, runId, digest);
            && WellFormed(st)
            && Get(Clean(st), TYPE) == Str(STATEMENT_TYPE)
            && Get(Clean(st), PREDICATE_TYPE) == Str(AEP_PREDICATE_TYPE)
            && Get(Clean(st), PREDICATE) == Clean(u)
            && Get(Clean(st), SUBJECT).Arr? && |Get(Clean(st), SUBJECT).elems| == 1
            && Get(Get(Clean(st), SUBJECT).elems[0], NAME) == Str(RUN_URN + runId)
            && Get(Get(Get(Clean(st), SUBJECT).elems[0], DIGEST), SHA256) == Str(digest)
  {
    var inner := Obj([Entry(SHA256, Str(digest))]);
    var subject := Obj([Entry(NAME, Str(RUN_URN + runId)), Entry(DIGEST, inner)]);
    var ms := [Entry(TYPE, Str(STATEMENT_TYPE)), Entry(SUBJECT, Arr([subject])),
               Entry(PREDICATE_TYPE, Str(AEP_PREDICATE_TYPE)), Entry(PREDICATE, u)];
    assert WrapStatement(u, runId, digest) == Obj(ms);
    SubjectParts(runId, digest);
    StatementNames();
    hide Lit, Find, Get, Clean, WellFormed, Distinct;
    FourthOf(ms[0], ms[1], ms[2], ms[3]);
    StatementWellFormed(ms, subject, u);
    GetClean(Obj(ms), TYPE);
    GetClean(Obj(ms), SUBJECT);
    GetClean(Obj(ms), PREDICATE_TYPE);
    GetClean(Obj(ms), PREDICATE);
    CleanText(STATEMENT_TYPE);
    CleanText(AEP_PREDICATE_TYPE);
    CleanSingle(subject);
    CleanDefined(u);
  }

  lemma StatementNames()
    ensures Distinct([TYPE, SUBJECT, PREDICATE_TYPE, PREDICATE])
  {
    assert |TYPE| == 5 && |SUBJECT| == 7 && |PREDICATE_TYPE| == 13 && |PREDICATE| == 9;
  }

  lemma StatementWellFormed(ms: seq<Entry<Value>>, subject: Value, u: Record)
    requires |ms| == 4 && Distinct(Keys(ms)) && WellFormed(subject)
    requires ms[0].val.Str? && ms[1].val == Arr([subject]) && ms[2].val.Str? && ms[3].val == u
    ensures WellFormed(Obj(ms))
  {
    assert WellFormed(Arr([subject]));
  }

  lemma CleanSingle(v: Value)
    ensures Clean(Arr([v])) == Arr([Clean(v)])
  {
    assert CleanElems([v]) == [Clean(v)];
  }

  lemma CleanDefined(u: Record)
    ensures !u.Undefined?
  {
  }

  lemma SubjectParts(runId: Text, digest: Text)
    ensures var inner := Obj([Entry(SHA256, Str(digest))]);
            var subject := Obj([Entry(NAME, Str(RUN_URN + runId)), Entry(DIGEST, inner)]);
            && WellFormed(subject)
            && Get(Clean(subject), NAME) == Str(RUN_URN + runId)
            && Get(Get(Clean(subject), DIGEST), SHA256) == Str(digest)
  {
    var inner := Obj([Entry(SHA256, Str(digest))]);
    var members := [Entry(NAME, Str(RUN_URN + runId)), Entry(DIGEST, inner)];
    assert |NAME| == 4 && |DIGEST| == 6;
    assert Distinct(Keys(members));
    assert WellFormed(inner);
    FindAt(members, 0);
    FindAt(members, 1);
    FindAt(inner.members, 0);
    hide Lit, Find;
    GetClean(Obj(members), NAME);
    GetClean(Obj(members), DIGEST);
    GetClean(inner, SHA256);
  }

  lemma EnvelopeParts(payload: Text, keyId: Text, sig: Text)
    ensures var env := EnvelopeBlock(payload, keyId, sig);
            && Get(env, PAYLOAD) == Str(payload) && Get(env, PAYLOAD_TYPE) == Str(IN_TOTO_PAYLOAD_TYPE)
            && Get(env, SIGNATURES).Arr? && |Get(env, SIGNATURES).elems| == 1
            && Get(Get(env, SIGNATURES).elems[0], SIG) == Str(sig)
  {
    var entry := [Entry(KEYID, Str(keyId)), Entry(SIG, Str(sig))];
    assert |KEYID| == 5 && |SIG| == 3 && |PAYLOAD| == 7 && |PAYLOAD_TYPE| == 11 && |SIGNATURES| == 10;
    FindAt(entry, 1);
    var env := EnvelopeBlock(payload, keyId, sig);
    assert Distinct(Keys(env.members));
    FindAt(env.members, 0);
    FindAt(env.members, 1);
    FindAt(env.members, 2);
  }

  lemma StatementComesBack(c: Crypto, u: Record, keyId: Text, sig: Text)
    requires Base64Laws(c)
    ensures var st := WrapStatement(u, TextOf(Get(u, RUN_ID)), c.sha256(CanonicalBytes(u)));
            Statement(c, EnvelopeBlock(c.encode64(StatementBytes(c, u)), keyId, sig)) == Some(Clean(st))
  {
    var st := WrapStatement(u, TextOf(Get(u, RUN_ID)), c.sha256(CanonicalBytes(u)));
    StatementParts(u, TextOf(Get(u, RUN_ID)), c.sha256(CanonicalBytes(u)));
    EnvelopeParts(c.encode64(StatementBytes(c, u)), keyId, sig);
    DecodeEncoded(c, StatementBytes(c, u));
    PrintPaired(Clean(st));
    DecodeEncode(Print(Clean(st)));
    ParseStringify(st);
  }

  // ----- an emitted record verifies

  /** `verify(pk(sk), m, sign(sk, m))` for the emitter's signer. */
  ghost predicate HonestSigner(c: Crypto, sign: Bytes -> Text, key: Bytes) {
    forall m :: sign(m) != [] && c.verify(DecodeBase64Either(c, sign(m)), m, key)
  }

  lemma CleanRecord(u: Record)
    ensures IsRecord(Clean(u)) && CanonicalBytes(Clean(u)) == CanonicalBytes(u)
  {
    CleanIsClean(u);
    CleanWellFormed(Clean(u));
    NormalOfClean(u);
  }

  lemma CoveredIsSigned(schema: RecordSchema, cfg: Config, s: State, u: Record, r: Record)
    requires Stamped(schema, cfg, s, u)
    requires KeepsPayload(u, r)
    ensures CanonicalBytes(Covered(r)) == CanonicalBytes(u)
  {
    hide Lit, Find, ParseAll;
    StripGet(r, {SIGNATURE, DSSE_ENVELOPE, TIMESTAMP_PROOF});
    forall k ensures SameProperty(Get(Covered(r), k), Get(u, k)) {
      GetWellFormed(u, k);
      SameContentReflexive(Get(u, k));
    }
    SameGetsSameContent(Covered(r), u);
    BytesDecideContent(Covered(r), u);
  }

  /** The checks of the binding, on a statement that passes them. */
  lemma BindingIsExact(c: Crypto, r: Record, st: Value, subject: Value, runId: Text, digest: Text)
    requires Statement(c, Get(r, DSSE_ENVELOPE)) == Some(st)
    requires !Get(st, PREDICATE).Undefined? && Get(st, SUBJECT) == Arr([subject])
    requires Get(st, PREDICATE_TYPE) == Str(AEP_PREDICATE_TYPE) && Get(st, TYPE) == Str(STATEMENT_TYPE)
    requires Get(Spread(Get(st, PREDICATE)), SCHEMA_VERSION) == Get(Covered(r), SCHEMA_VERSION) && Get(Covered(r), SCHEMA_VERSION).Str?
    requires c.sha256(CanonicalBytes(BoundPredicate(st, r))) == digest && c.sha256(CanonicalBytes(Covered(r))) == digest
    requires Get(Get(subject, DIGEST), SHA256) == Str(digest)
    requires Get(Covered(r), RUN_ID) == Str(runId) && runId != [] && Get(subject, NAME) == Str(RUN_URN + runId)
    ensures Binding(c, r) == Exact
  {
    hide Lit, Get, CanonicalBytes, Statement, BoundPredicate, Covered, Spread, WellFormed;
  }

  lemma EmittedBindsExactly(c: Crypto, schema: RecordSchema, cfg: Config, s: State, u: Record, r: Record, sig: Text)
    requires Base64Laws(c) && Stamped(schema, cfg, s, u)
    requires KeepsPayload(u, r)
    requires Get(r, DSSE_ENVELOPE) == EnvelopeBlock(c.encode64(StatementBytes(c, u)), cfg.keyId, sig)
    ensures Binding(c, r) == Exact
  {
    hide Lit, Get, ParseAll, CanonicalBytes, WrapStatement, StatementBytes, EnvelopeBlock, Statement, Covered, WellFormed,
         Clean, Base64Laws, BoundPredicate, Spread, KeepsPayload, Binding, Find, Lawful;
    var runId, digest := TextOf(Get(u, RUN_ID)), c.sha256(CanonicalBytes(u));
    RecordNamesApart();
    CoveredGets(u, r);
    StatementComesBack(c, u, cfg.keyId, sig);
    StatementParts(u, runId, digest);
    CleanRecord(u);
    CoveredIsSigned(schema, cfg, s, u, r);
    GetClean(u, SCHEMA_VERSION);
    var st := Clean(WrapStatement(u, runId, digest));
    CleanText(Get(u, SCHEMA_VERSION).s);
    BoundIsSigned(st, u, r);
    var subject := Get(st, SUBJECT).elems[0];
    assert Get(st, SUBJECT) == Arr([subject]);
    BindingIsExact(c, r, st, subject, runId, digest);
  }

  lemma CleanText(t: Text)
    ensures Clean(Str(t)) == Str(t)
  {
  }

  lemma CoveredGets(u: Record, r: Record)
    requires KeepsPayload(u, r)
    ensures Get(Covered(r), SCHEMA_VERSION) == Get(u, SCHEMA_VERSION) && Get(Covered(r), RUN_ID) == Get(u, RUN_ID)
  {
    RecordNamesApart();
    hide Lit, Find;
    StripGet(r, {SIGNATURE, DSSE_ENVELOPE, TIMESTAMP_PROOF});
  }

  lemma BoundIsSigned(st: Value, u: Record, r: Record)
    requires Get(st, PREDICATE) == Clean(u) && IsRecord(Clean(u))
    requires Get(Clean(u), SCHEMA_VERSION) == Get(Covered(r), SCHEMA_VERSION)
    ensures BoundPredicate(st, r) == Clean(u) && Spread(Get(st, PREDICATE)) == Clean(u)
  {
    hide Find, Lit, Clean, Covered;
  }

  // ----- one emission

  /** What every returned record is. */
  ghost predicate GoodRecord(c: Crypto, schema: RecordSchema, s: State, r: Record, key: Bytes) {
    && VerifyDetailed(c, r, key) == Detailed(true, DsseValid, Exact)
    && PrevHash(r) == s.prevRecordHash
    && Get(r, ACTIONS).Arr? && ParseAll(schema.action, s.actions) == Some(Get(r, ACTIONS).elems)
  }

  lemma EnvelopeVerifies(c: Crypto, body: Bytes, keyId: Text, sign: Bytes -> Text, key: Bytes)
    requires Base64Laws(c) && HonestSigner(c, sign, key)
    ensures VerifyEnvelope(c, EnvelopeBlock(c.encode64(body), keyId, sign(Pae(Encode(IN_TOTO_PAYLOAD_TYPE), body))), key)
  {
    var m := Pae(Encode(IN_TOTO_PAYLOAD_TYPE), body);
    EnvelopeParts(c.encode64(body), keyId, sign(m));
    DecodeEncoded(c, body);
    hide Lit, Get, EnvelopeBlock, Pae, Encode;
    assert sign(m) != [] && c.verify(DecodeBase64Either(c, sign(m)), m, key);
  }

  lemma VerifiesExactly(c: Crypto, r: Record, key: Bytes)
    requires Get(r, DSSE_ENVELOPE).Obj? && VerifyEnvelope(c, Get(r, DSSE_ENVELOPE), key) && Binding(c, r) == Exact
    ensures VerifyDetailed(c, r, key) == Detailed(true, DsseValid, Exact)
  {
    hide Lit, Get, VerifyEnvelope, Binding;
  }

  lemma SignedIsGood(c: Crypto, schema: RecordSchema, cfg: Config, s: State, u: Record, sign: Bytes -> Text, r: Record, key: Bytes)
    requires Base64Laws(c) && Lawful(schema) && Stamped(schema, cfg, s, u) && HonestSigner(c, sign, key)
    requires KeepsPayload(u, r)
    requires Get(r, DSSE_ENVELOPE) ==
             EnvelopeBlock(c.encode64(StatementBytes(c, u)), cfg.keyId, sign(Pae(Encode(IN_TOTO_PAYLOAD_TYPE), StatementBytes(c, u))))
    ensures GoodRecord(c, schema, s, r, key)
  {
    RecordNamesApart();
    EmittedBindsExactly(c, schema, cfg, s, u, r, sign(Pae(Encode(IN_TOTO_PAYLOAD_TYPE), StatementBytes(c, u))));
    EnvelopeVerifies(c, StatementBytes(c, u), cfg.keyId, sign, key);
    hide Lit, Get, StatementBytes, Pae, Encode, Binding, VerifyEnvelope, ParseAll;
    VerifiesExactly(c, r, key);
  }

  lemma PredicateStamped(schema: RecordSchema, cfg: Config, s: State, createdAtMs: int)
    requires Lawful(schema) && WellTyped(cfg) && ValidState(s)
    ensures var p := SignedPredicate(schema, cfg, s, createdAtMs); p.Some? ==> Stamped(schema, cfg, s, p.value)
    ensures SignedPredicate(schema, cfg, s, createdAtMs).Some? ==> ResolveFloor(cfg.floor, cfg.observed).Some?
  {
    var built := BuildUnsigned(cfg, s, createdAtMs);
    if built.Some? {
      BuildUnsignedBuilt(cfg, s, createdAtMs);
      if Stamp(schema, cfg, built.value).Some? { StampStamped(schema, cfg, s, built.value); }
    }
    hide Stamp, BuildUnsigned, Stamped, Lawful, WellTyped, WellFormed, Find;
  }

  lemma AttachKeeps(u: Record, r: Record, proof: Value)
    requires WellFormed(proof) && KeepsPayload(u, r)
    ensures KeepsPayload(u, Attach(r, proof)) && Get(Attach(r, proof), DSSE_ENVELOPE) == Get(r, DSSE_ENVELOPE)
  {
    RecordNamesApart();
    forall k | k != TIMESTAMP_PROOF ensures Get(Attach(r, proof), k) == Get(r, k) {
      if !proof.Undefined? { PutGet(r, TIMESTAMP_PROOF, proof, k); }
    }
  }

  /** Signing and the last validation never fail, and leave what was signed in place. */
  lemma FinishKeeps(c: Crypto, schema: RecordSchema, cfg: Config, s: State, u: Record, call: Call)
    requires Lawful(schema) && Stamped(schema, cfg, s, u) && call.Emit?
    requires call.proof.Some? ==> WellFormed(call.proof.value)
    ensures Finish(c, schema, cfg.keyId, u, call).Some? <==> call.signer.Some? && call.proof.Some?
    ensures Finish(c, schema, cfg.keyId, u, call).Some? ==> Finished(c, cfg, u, call, Finish(c, schema, cfg.keyId, u, call).value)
  {
    hide Sign, Stamped, Lawful, Get, StatementBytes, EnvelopeBlock, Pae, Encode, Lit, WellFormed, Attach, KeepsPayload, Put;
    if call.signer.Some? {
      SignKeeps(c, schema, cfg, s, u, call.signer.value);
      var signed := Sign(c, schema, cfg.keyId, u, call.signer.value).value;
      if call.proof.Some? { AttachKeeps(u, signed, call.proof.value); }
    }
  }

  /** A record that still holds everything that was signed, and the envelope over it. */
  ghost predicate Finished(c: Crypto, cfg: Config, u: Record, call: Call, r: Value)
    requires call.Emit? && call.signer.Some?
  {
    var body := StatementBytes(c, u);
    && IsRecord(r)
    && KeepsPayload(u, r)
    && Get(r, DSSE_ENVELOPE) == EnvelopeBlock(c.encode64(body), cfg.keyId, call.signer.value(Pae(Encode(IN_TOTO_PAYLOAD_TYPE), body)))
  }

  /** A successful emission returns a good record. */
  lemma EmittedIsGood(c: Crypto, schema: RecordSchema, cfg: Config, s: State, call: Call, key: Bytes)
    requires Base64Laws(c) && Lawful(schema) && WellTyped(cfg) && ValidState(s)
    requires call.Emit? && call.signer.Some? && HonestSigner(c, call.signer.value, key)
    requires call.proof.Some? ==> WellFormed(call.proof.value)
    requires EmitRecord(c, schema, cfg, s, call).Some?
    ensures var r := EmitRecord(c, schema, cfg, s, call).value; IsRecord(r) && GoodRecord(c, schema, s, r, key)
  {
    PredicateStamped(schema, cfg, s, call.createdAtMs);
    var u := SignedPredicate(schema, cfg, s, call.createdAtMs).value;
    hide SignedPredicate, Stamped, GoodRecord, HonestSigner, Lawful, WellFormed, WellTyped, Base64Laws, Get,
         StatementBytes, EnvelopeBlock, Pae, Encode;
    FinishKeeps(c, schema, cfg, s, u, call);
    SignedIsGood(c, schema, cfg, s, u, call.signer.value, Finish(c, schema, cfg.keyId, u, call).value, key);
    hide Finish;
  }

  /** `emit` returns exactly when there is something to emit, the floor rule and the schema accept
      it, and neither the signer nor the timestamper throws: once a record is stamped, signing and
      the last validation cannot fail. */
  lemma EmitReturnsExactlyWhen(c: Crypto, schema: RecordSchema, cfg: Config, s: State, call: Call)
    requires Lawful(schema) && WellTyped(cfg) && ValidState(s) && call.Emit?
    requires call.proof.Some? ==> WellFormed(call.proof.value)
    ensures EmitRecord(c, schema, cfg, s, call).Some? <==>
            && (s.actions != [] || cfg.allowEmptyActions)
            && SignedPredicate(schema, cfg, s, call.createdAtMs).Some?
            && call.signer.Some? && call.proof.Some?
  {
    hide SignedPredicate, Lawful, WellFormed, WellTyped, ResolveFloor, ValidState, Stamped, Finish;
    PredicateStamped(schema, cfg, s, call.createdAtMs);
    var p := SignedPredicate(schema, cfg, s, call.createdAtMs);
    if p.Some? { FinishReturns(c, schema, cfg, s, p.value, call); }
  }

  lemma FinishReturns(c: Crypto, schema: RecordSchema, cfg: Config, s: State, u: Value, call: Call)
    requires Lawful(schema) && Stamped(schema, cfg, s, u) && call.Emit?
    requires call.proof.Some? ==> WellFormed(call.proof.value)
    ensures IsRecord(u) && (Finish(c, schema, cfg.keyId, u, call).Some? <==> call.signer.Some? && call.proof.Some?)
  {
    assert IsRecord(u);
    hide Lawful, WellFormed, Stamped, Finish, Finished;
    FinishKeeps(c, schema, cfg, s, u, call);
  }

  // ----- whole runs

  function Run(c: Crypto, schema: RecordSchema, cfg: Config, s: State, calls: seq<Call>): (State, seq<Value>)
    requires WellTyped(cfg)
  {
    if calls == [] then (s, [])
    else
      var (t, rs) := Run(c, schema, cfg, s, calls[..|calls| - 1]);
      var (t', r) := Step(c, schema, cfg, t, calls[|calls| - 1]);
      (t', rs + r)
  }

  /** Signers that do not throw sign honestly; proofs are JSON values. */
  ghost predicate HonestCalls(c: Crypto, calls: seq<Call>, key: Bytes) {
    forall i :: 0 <= i < |calls| ==> HonestCall(c, calls[i], key)
  }

  ghost predicate HonestCall(c: Crypto, call: Call, key: Bytes) {
    call.Emit? ==>
      (call.signer.Some? ==> HonestSigner(c, call.signer.value, key)) && (call.proof.Some? ==> WellFormed(call.proof.value))
  }

  /** The record's actions are the validated form of a prefix of the emitter's actions. */
  ghost predicate Recorded(schema: RecordSchema, actions: seq<Value>, r: Value) {
    Get(r, ACTIONS).Arr?
    && exists n :: 0 <= n <= |actions| && ParseAll(schema.action, actions[..n]) == Some(Get(r, ACTIONS).elems)
  }

  predicate Extends(r: Value, q: Value) {
    Get(r, ACTIONS).Arr? && Get(q, ACTIONS).Arr? && Get(r, ACTIONS).elems <= Get(q, ACTIONS).elems
  }

  predicate Linked(c: Crypto, rs: seq<Record>) {
    (rs != [] ==> LinkAbsent(rs[0])) && AllMatch(c.sha256, rs)
  }

  /** The chain head the emitter keeps: null before the first record, then the last digest. */
  predicate HeadIs(c: Crypto, s: State, rs: seq<Record>) {
    s.prevRecordHash == if rs == [] then Null else Str(Digest(c.sha256, rs[|rs| - 1]))
  }

  ghost predicate AllVerify(c: Crypto, rs: seq<Record>, key: Bytes) {
    forall i :: 0 <= i < |rs| ==> VerifyDetailed(c, rs[i], key) == Detailed(true, DsseValid, Exact)
  }

  ghost predicate ActionsGrow(schema: RecordSchema, s: State, rs: seq<Record>) {
    (forall i :: 0 <= i < |rs| ==> Recorded(schema, s.actions, rs[i]))
    && forall i, j :: 0 <= i < j < |rs| ==> Extends(rs[i], rs[j])
  }

  predicate AreRecords(rs: seq<Value>) { forall i :: 0 <= i < |rs| ==> IsRecord(rs[i]) }

  /** What every reachable state and the records returned so far satisfy. */
  ghost predicate RunInvariant(c: Crypto, schema: RecordSchema, s: State, rs: seq<Value>, key: Bytes) {
    ValidState(s) && AreRecords(rs)
    && AllVerify(c, rs, key) && Linked(c, rs) && HeadIs(c, s, rs) && ActionsGrow(schema, s, rs)
  }

  lemma AddValid(cfg: Config, s: State, call: Call)
    requires WellTyped(cfg) && ValidState(s) && !call.Emit?
    ensures ValidState(Add(cfg, s, call)) && Add(cfg, s, call).prevRecordHash == s.prevRecordHash
    ensures s.actions <= Add(cfg, s, call).actions
  {
    hide WellFormed, Lit, Put, Get, CompletedAction, Truthy, AllWellFormed, PushDecision;
    match call
    case AddAction(action, now) =>
      GetWellFormed(action, CAPABILITY_DECISION);
      AppendWellFormed(s.actions, CompletedAction(cfg, |s.actions|, action, now));
      PushWellFormed(s.capabilityDecisions, Get(action, CAPABILITY_DECISION));
    case AddCapabilityDecision(d) => PushWellFormed(s.capabilityDecisions, d);
    case AddInputRef(r) => AppendWellFormed(s.inputRefs, r);
    case AddOutputRef(r) => AppendWellFormed(s.outputRefs, r);
    case AddVerifierResult(r) => AppendWellFormed(s.verifierResults, r);
    case _ => TextsWellFormed();
  }

  lemma TextsWellFormed()
    ensures forall t :: WellFormed(Str(t))
  {
  }

  lemma AppendWellFormed(vs: seq<Value>, v: Value)
    requires AllWellFormed(vs) && WellFormed(v)
    ensures AllWellFormed(vs + [v])
  {
    hide WellFormed;
  }

  lemma PushWellFormed(ds: seq<Value>, d: Value)
    requires AllWellFormed(ds) && WellFormed(d)
    ensures AllWellFormed(PushDecision(ds, d))
  {
    hide WellFormed, AllWellFormed;
    AppendWellFormed(ds, d);
  }

  lemma RecordedGrows(schema: RecordSchema, a: seq<Value>, b: seq<Value>, r: Value)
    requires Recorded(schema, a, r) && a <= b
    ensures Recorded(schema, b, r)
  {
    hide Get, ParseAll;
    var n :| 0 <= n <= |a| && ParseAll(schema.action, a[..n]) == Some(Get(r, ACTIONS).elems);
    assert b[..n] == a[..n];
  }

  lemma ExtendsRecorded(schema: RecordSchema, actions: seq<Value>, r: Value, q: Value)
    requires Recorded(schema, actions, r)
    requires Get(q, ACTIONS).Arr? && ParseAll(schema.action, actions) == Some(Get(q, ACTIONS).elems)
    ensures Extends(r, q) && Recorded(schema, actions, q)
  {
    hide Get, ParseAll;
    var n :| 0 <= n <= |actions| && ParseAll(schema.action, actions[..n]) == Some(Get(r, ACTIONS).elems);
    assert actions == actions[..n] + actions[n..];
    ParseAllPrefix(schema.action, actions[..n], actions[n..]);
    assert actions[..|actions|] == actions;
  }

  /** A returned record extends the run. */
  lemma EmitStep(c: Crypto, schema: RecordSchema, s: State, rs: seq<Record>, r: Record, key: Bytes)
    requires RunInvariant(c, schema, s, rs, key) && GoodRecord(c, schema, s, r, key)
    ensures RunInvariant(c, schema, s.(prevRecordHash := Str(Digest(c.sha256, r))), rs + [r], key)
  {
    hide WellFormed, Get, VerifyDetailed, ParseAll, Recorded, Extends, Digest, Lit;
    var qs: seq<Record> := rs + [r];
    forall i | 1 <= i < |qs| ensures MatchAt(c.sha256, qs, i) {
      if i < |rs| { assert MatchAt(c.sha256, rs, i); }
    }
    forall i | 0 <= i < |rs| ensures Extends(rs[i], r) { ExtendsRecorded(schema, s.actions, rs[i], r); }
    assert s.actions[..|s.actions|] == s.actions;
    assert Recorded(schema, s.actions, r) by { RecordedAll(schema, s.actions, r); }
  }

  lemma RecordedAll(schema: RecordSchema, actions: seq<Value>, r: Value)
    requires Get(r, ACTIONS).Arr? && ParseAll(schema.action, actions) == Some(Get(r, ACTIONS).elems)
    ensures Recorded(schema, actions, r)
  {
    hide Get, ParseAll;
    assert actions[..|actions|] == actions;
  }

  lemma GrowKept(schema: RecordSchema, s: State, t: State, rs: seq<Record>)
    requires ActionsGrow(schema, s, rs) && s.actions <= t.actions
    ensures ActionsGrow(schema, t, rs)
  {
    hide Recorded, Extends, WellFormed;
    forall i | 0 <= i < |rs| ensures Recorded(schema, t.actions, rs[i]) {
      RecordedGrows(schema, s.actions, t.actions, rs[i]);
    }
  }

  /** Adding evidence keeps the run. */
  lemma AddStep(c: Crypto, schema: RecordSchema, cfg: Config, s: State, rs: seq<Record>, call: Call, key: Bytes)
    requires WellTyped(cfg) && !call.Emit? && RunInvariant(c, schema, s, rs, key)
    ensures RunInvariant(c, schema, Add(cfg, s, call), rs, key)
  {
    hide WellFormed, AllVerify, Linked, ActionsGrow, Add, WellTyped, ValidState, Digest;
    AddValid(cfg, s, call);
    GrowKept(schema, s, Add(cfg, s, call), rs);
  }

  /** Every run keeps the invariant, whatever calls succeed, fail or throw. */
  lemma {:induction false} EveryRun(c: Crypto, schema: RecordSchema, cfg: Config, s: State, calls: seq<Call>, key: Bytes)
    requires Base64Laws(c) && Lawful(schema) && WellTyped(cfg) && HonestCalls(c, calls, key)
    requires ValidState(s) && s.prevRecordHash == Null
    ensures var (t, rs) := Run(c, schema, cfg, s, calls); RunInvariant(c, schema, t, rs, key)
  {
    hide Base64Laws, Lawful, WellTyped, HonestCall, RunInvariant, GoodRecord, EmitRecord, Add, WellFormed, ValidState;
    if calls == [] {
      EmptyRun(c, schema, s, key);
    } else {
      var last := calls[|calls| - 1];
      assert HonestCall(c, last, key);
      EveryRun(c, schema, cfg, s, calls[..|calls| - 1], key);
      var (t, rs) := Run(c, schema, cfg, s, calls[..|calls| - 1]);
      InvariantRecords(c, schema, t, rs, key);
      if last.Emit? {
        OneEmit(c, schema, cfg, t, rs, last, key);
      } else {
        AddStep(c, schema, cfg, t, rs, last, key);
        assert rs + [] == rs;
      }
    }
  }

  lemma EmptyRun(c: Crypto, schema: RecordSchema, s: State, key: Bytes)
    requires ValidState(s) && s.prevRecordHash == Null
    ensures RunInvariant(c, schema, s, [], key)
  {
  }

  lemma InvariantRecords(c: Crypto, schema: RecordSchema, s: State, rs: seq<Value>, key: Bytes)
    requires RunInvariant(c, schema, s, rs, key)
    ensures ValidState(s) && forall i :: 0 <= i < |rs| ==> IsRecord(rs[i])
  {
  }

  lemma OneEmit(c: Crypto, schema: RecordSchema, cfg: Config, s: State, rs: seq<Record>, call: Call, key: Bytes)
    requires Base64Laws(c) && Lawful(schema) && WellTyped(cfg) && HonestCall(c, call, key) && call.Emit?
    requires RunInvariant(c, schema, s, rs, key)
    ensures var (t, r) := Step(c, schema, cfg, s, call); RunInvariant(c, schema, t, rs + r, key)
  {
    InvariantRecords(c, schema, s, rs, key);
    hide Base64Laws, Lawful, WellTyped, RunInvariant, GoodRecord, EmitRecord, WellFormed, ValidState, HonestSigner, Digest;
    var out := EmitRecord(c, schema, cfg, s, call);
    if out.Some? {
      EmitHasSigner(c, schema, cfg, s, call);
      EmittedIsGood(c, schema, cfg, s, call, key);
      EmitStep(c, schema, s, rs, out.value, key);
    } else {
      assert rs + [] == rs;
    }
  }

  lemma EmitHasSigner(c: Crypto, schema: RecordSchema, cfg: Config, s: State, call: Call)
    requires call.Emit? && EmitRecord(c, schema, cfg, s, call).Some?
    ensures call.signer.Some?
  {
    hide SignedPredicate, Sign, WellFormed, Attach;
  }

  /** The theorem about emitters: after any run from a fresh emitter, every finished record verifies
      as `dsse-valid` with an exact binding, two or more of them are an intact chain, and the actions
      of each are a prefix of the next one's. */
  lemma EmittedChainIsIntact(c: Crypto, schema: RecordSchema, cfg: Config, userId: Value, subjectId: Value,
                             calls: seq<Call>, key: Bytes)
    requires Base64Laws(c) && Lawful(schema) && WellTyped(cfg) && HonestCalls(c, calls, key)
    requires WellFormed(userId) && WellFormed(subjectId)
    ensures var rs := Run(c, schema, cfg, InitialState(userId, subjectId), calls).1;
            && AreRecords(rs)
            && (forall i :: 0 <= i < |rs| ==> VerifyDetailed(c, rs[i], key) == Detailed(true, DsseValid, Exact))
            && (|rs| >= 2 ==> IsIntact(c.sha256, rs))
            && (forall i, j :: 0 <= i < j < |rs| ==> Extends(rs[i], rs[j]))
  {
    EveryRun(c, schema, cfg, InitialState(userId, subjectId), calls, key);
    hide WellFormed, Get, VerifyDetailed, Recorded, Extends, Digest, Run, Lawful, WellTyped, Lit;
  }

  // ----- records lost to the evidence store

  /** Which of the records a run finished it also returned: those the evidence store took. */
  function Returned(c: Crypto, schema: RecordSchema, cfg: Config, s: State, calls: seq<Call>): seq<nat>
    requires WellTyped(cfg)
  {
    if calls == [] then []
    else
      var front, last := calls[..|calls| - 1], calls[|calls| - 1];
      var (t, rs) := Run(c, schema, cfg, s, front);
      Returned(c, schema, cfg, s, front)
      + if last.Emit? && last.stored && Step(c, schema, cfg, t, last).1 != [] then [|rs|] else []
  }

  lemma {:induction false} ReturnedIncreases(c: Crypto, schema: RecordSchema, cfg: Config, s: State, calls: seq<Call>)
    requires WellTyped(cfg)
    ensures var keep := Returned(c, schema, cfg, s, calls);
            Increasing(keep) && forall k :: 0 <= k < |keep| ==> keep[k] < |Run(c, schema, cfg, s, calls).1|
  {
    hide WellTyped, Step;
    if calls != [] { ReturnedIncreases(c, schema, cfg, s, calls[..|calls| - 1]); }
  }

  /** Two or more of the records are an intact chain exactly when they are the first ones, or two collide. */
  ghost predicate IntactIffFirst(c: Crypto, rs: seq<Record>, keep: seq<nat>)
    requires forall k :: 0 <= k < |keep| ==> keep[k] < |rs|
  {
    |keep| >= 2 ==>
      CollisionBetween(c.sha256, rs, rs)
      || (IsIntact(c.sha256, Kept(rs, keep)) <==> forall k :: 0 <= k < |keep| ==> keep[k] == k)
  }

  lemma ChainKept(c: Crypto, schema: RecordSchema, s: State, rs: seq<Record>, keep: seq<nat>, key: Bytes)
    requires RunInvariant(c, schema, s, rs, key) && Increasing(keep) && forall k :: 0 <= k < |keep| ==> keep[k] < |rs|
    ensures IntactIffFirst(c, rs, keep)
  {
    hide VerifyDetailed, WellFormed, Digest, Get, Recorded, Extends, ValidState, Lit, CollisionBetween, IsIntact, Increasing;
    if |keep| >= 2 {
      assert keep[0] < |rs|;
      KeptIsIntactIff(c.sha256, rs, keep);
    }
  }

  /** A store that throws after the head has moved loses a record to the caller. Two or more returned
      records are an intact chain exactly when no lost record was finished before a returned one, unless
      two records collide. */
  lemma ReturnedIntactIff(c: Crypto, schema: RecordSchema, cfg: Config, s: State, calls: seq<Call>, key: Bytes)
    requires Base64Laws(c) && Lawful(schema) && WellTyped(cfg) && HonestCalls(c, calls, key)
    requires ValidState(s) && s.prevRecordHash == Null
    ensures var rs, keep := Run(c, schema, cfg, s, calls).1, Returned(c, schema, cfg, s, calls);
            AreRecords(rs) && (forall k :: 0 <= k < |keep| ==> keep[k] < |rs|) && IntactIffFirst(c, rs, keep)
  {
    EveryRun(c, schema, cfg, s, calls, key);
    ReturnedIncreases(c, schema, cfg, s, calls);
    var (t, rs) := Run(c, schema, cfg, s, calls);
    InvariantRecords(c, schema, t, rs, key);
    hide Base64Laws, Lawful, WellTyped, HonestCalls, WellFormed, RunInvariant, Run, Returned, Increasing, ValidState, IntactIffFirst;
    ChainKept(c, schema, t, rs, Returned(c, schema, cfg, s, calls), key);
  }

  /** With a store that never throws every finished record is returned. */
  lemma {:induction false} NothingLost(c: Crypto, schema: RecordSchema, cfg: Config, s: State, calls: seq<Call>)
    requires WellTyped(cfg) && forall i :: 0 <= i < |calls| ==> calls[i].Emit? ==> calls[i].stored
    ensures var keep := Returned(c, schema, cfg, s, calls);
            |keep| == |Run(c, schema, cfg, s, calls).1| && forall k :: 0 <= k < |keep| ==> keep[k] == k
  {
    hide WellTyped, Step;
    if calls != [] {
      var front, last := calls[..|calls| - 1], calls[|calls| - 1];
      assert forall i :: 0 <= i < |front| ==> front[i] == calls[i];
      NothingLost(c, schema, cfg, s, front);
      StepFinishesOne(c, schema, cfg, Run(c, schema, cfg, s, front).0, last);
    }
  }

  lemma StepFinishesOne(c: Crypto, schema: RecordSchema, cfg: Config, s: State, call: Call)
    requires WellTyped(cfg)
    ensures |Step(c, schema, cfg, s, call).1| <= 1 && (!call.Emit? ==> Step(c, schema, cfg, s, call).1 == [])
  {
    hide WellTyped, EmitRecord, Add, Digest;
  }
}
