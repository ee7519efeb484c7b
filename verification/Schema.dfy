/** `AEPRecordSchema.parse` (packages/aep/src/types.ts:218-329), for any field validators. */
module Schema {
  // A field-by-field normalisation that drops unknown keys. What the emitter relies on is `Lawful`, what
  // the bundle relies on is `JsonStable`; `AepSchema` proves both of the schema as it is declared.

  import opened JsonValue
  import opened Canonical
  import opened NormalForm
  import opened Records
  import opened Dsse

  /** `field(k, v)` is what the schema makes of property `k`: `None` is a validation error and
      `Some(Undefined)` an omitted property. `action` is the validator of one array element. */
  datatype RecordSchema = RecordSchema(
    keys: seq<Text>,
    field: (Text, Value) -> Option<Value>,
    action: Value -> Option<Value>)

  function ParseFields(s: RecordSchema, keys: seq<Text>, r: Value): Option<seq<Entry<Value>>> {
    if keys == [] then Some([])
    else match (s.field(keys[0], Get(r, keys[0])), ParseFields(s, keys[1..], r))
      case (Some(x), Some(rest)) => Some(if x.Undefined? then rest else [Entry(keys[0], x)] + rest)
      case _ => None
  }

  /** Every element of the array validated in order, or an error. */
  function ParseAll(action: Value -> Option<Value>, xs: seq<Value>): Option<seq<Value>> {
    if xs == [] then Some([])
    else match (ParseAll(action, xs[..|xs| - 1]), action(xs[|xs| - 1]))
      case (Some(front), Some(x)) => Some(front + [x])
      case _ => None
  }

  function SignatureBlock(keyId: Text, sig: Text): Value {
    Obj([Entry(Lit("alg"), Str(Lit("ed25519"))), Entry(Lit("key_id"), Str(keyId)), Entry(SIG, Str(sig))])
  }

  function EnvelopeBlock(payload: Text, keyId: Text, sig: Text): Value {
    Obj([Entry(PAYLOAD_TYPE, Str(IN_TOTO_PAYLOAD_TYPE)), Entry(PAYLOAD, Str(payload)),
         Entry(SIGNATURES, Arr([Obj([Entry(KEYID, Str(keyId)), Entry(SIG, Str(sig))])]))])
  }

  predicate IsVersion(v: Text) {
    v in {Lit("aep/v0.1"), Lit("aep/v0.2"), Lit("aep/v0.3"), Lit("aep/v0.4"), Lit("aep/v0.5")}
  }

  /** The facts about the record schema the emitter relies on. */
  ghost predicate Lawful(s: RecordSchema) {
    && Distinct(s.keys)
    && (forall k :: k in {SIGNATURE, DSSE_ENVELOPE, TIMESTAMP_PROOF, PREV_RECORD_HASH, SCHEMA_VERSION, RUN_ID, ACTIONS} ==> k in s.keys)
    && (forall k, v, w {:trigger s.field(k, v), Some(w)} :: WellFormed(v) && s.field(k, v) == Some(w) ==>
          WellFormed(w) && s.field(k, w) == Some(w))
    && (forall v :: IsVersion(v) ==> s.field(SCHEMA_VERSION, Str(v)) == Some(Str(v)))
    && (forall v, w :: s.field(RUN_ID, v) == Some(w) ==> v == w)
    && (forall k :: k in {SIGNATURE, DSSE_ENVELOPE, TIMESTAMP_PROOF} ==> s.field(k, Undefined) == Some(Undefined))
    && s.field(PREV_RECORD_HASH, Null) == Some(Null)
    && (forall t :: s.field(PREV_RECORD_HASH, Str(t)) == Some(Str(t)))
    && (forall xs, w :: s.field(ACTIONS, Arr(xs)) == Some(w) ==>
          w.Arr? && ParseAll(s.action, xs) == Some(w.elems))
    && (forall k, t :: s.field(SIGNATURE, SignatureBlock(k, t)) == Some(SignatureBlock(k, t)))
    && (forall p, k, t :: s.field(DSSE_ENVELOPE, EnvelopeBlock(p, k, t)) == Some(EnvelopeBlock(p, k, t)))
  }

  /** A validated property survives normal form: what the schema makes of it has the same content. */
  ghost predicate JsonStable(s: RecordSchema) {
    forall k, w :: WellFormed(w) && !w.Undefined? && s.field(k, w) == Some(w) ==> SurvivesAs(s, k, w)
  }

  predicate SurvivesAs(s: RecordSchema, k: Text, w: Value) {
    s.field(k, Normal(w)).Some? && !s.field(k, Normal(w)).value.Undefined? && SameContent(s.field(k, Normal(w)).value, w)
  }

  lemma {:induction false} ParseFieldsGet(s: RecordSchema, keys: seq<Text>, r: Record, k: Text)
    requires Lawful(s) && Distinct(keys) && ParseFields(s, keys, r).Some?
    ensures var ms := ParseFields(s, keys, r).value;
            && (k in Keys(ms) ==> k in keys)
            && Find(ms, k) == if k in keys && s.field(k, Get(r, k)) != Some(Undefined) then s.field(k, Get(r, k)) else None
  {
    if keys != [] {
      assert keys == [keys[0]] + keys[1..];
      DistinctCons(keys[0], keys[1..]);
      ParseFieldsGet(s, keys[1..], r, k);
      hide Lawful, Get, Distinct;
      var ms, rest := ParseFields(s, keys, r).value, ParseFields(s, keys[1..], r).value;
      if |ms| == |rest| + 1 { assert ms[1..] == rest; }
    }
  }

  lemma {:induction false} ParseFieldsWellFormed(s: RecordSchema, keys: seq<Text>, r: Record)
    requires Lawful(s) && Distinct(keys) && ParseFields(s, keys, r).Some?
    ensures IsRecord(Obj(ParseFields(s, keys, r).value))
  {
    if keys != [] {
      assert keys == [keys[0]] + keys[1..];
      DistinctCons(keys[0], keys[1..]);
      ParseFieldsWellFormed(s, keys[1..], r);
      GetWellFormed(r, keys[0]);
      var ms, rest := ParseFields(s, keys, r).value, ParseFields(s, keys[1..], r).value;
      ParseFieldsGet(s, keys[1..], r, keys[0]);
      if ms != rest {
        assert ms[1..] == rest;
        KeysTail(ms);
      }
    }
  }

  /** `AEPRecordSchema.parse(r)`, with the validation error as `None`. */
  function ParseRecord(s: RecordSchema, r: Record): Option<Value> {
    match ParseFields(s, s.keys, r)
    case Some(ms) => Some(Obj(ms))
    case None => None
  }

  lemma ParseRecordGet(s: RecordSchema, r: Record, k: Text)
    requires Lawful(s) && ParseRecord(s, r).Some?
    ensures IsRecord(ParseRecord(s, r).value)
    ensures Get(ParseRecord(s, r).value, k) ==
            if k in s.keys && s.field(k, Get(r, k)).Some? then s.field(k, Get(r, k)).value else Undefined
    ensures k in s.keys ==> s.field(k, Get(r, k)).Some?
  {
    ParseFieldsGet(s, s.keys, r, k);
    ParseFieldsWellFormed(s, s.keys, r);
    if k in s.keys { ParseFieldsDefined(s, s.keys, r, k); }
  }

  lemma {:induction false} ParseFieldsDefined(s: RecordSchema, keys: seq<Text>, r: Record, k: Text)
    requires ParseFields(s, keys, r).Some? && k in keys
    ensures s.field(k, Get(r, k)).Some?
  {
    if keys[0] != k { ParseFieldsDefined(s, keys[1..], r, k); }
  }

  lemma {:induction false} ParseFieldsSucceeds(s: RecordSchema, keys: seq<Text>, r: Record)
    requires forall k :: k in keys ==> s.field(k, Get(r, k)).Some?
    ensures ParseFields(s, keys, r).Some?
  {
    if keys != [] { ParseFieldsSucceeds(s, keys[1..], r); }
  }

  /** Parsing a parsed record again changes no property. */
  lemma ParseRecordIdempotent(s: RecordSchema, r: Record, k: Text)
    requires Lawful(s) && ParseRecord(s, r).Some? && k in s.keys
    ensures s.field(k, Get(ParseRecord(s, r).value, k)) == Some(Get(ParseRecord(s, r).value, k))
  {
    ParseRecordGet(s, r, k);
    GetWellFormed(r, k);
  }

  lemma {:induction false} ParseAllPrefix(action: Value -> Option<Value>, xs: seq<Value>, ys: seq<Value>)
    requires ParseAll(action, xs + ys).Some?
    ensures ParseAll(action, xs).Some? && ParseAll(action, xs).value <= ParseAll(action, xs + ys).value
  {
    if ys == [] {
      assert xs + ys == xs;
    } else {
      assert (xs + ys)[..|xs + ys| - 1] == xs + ys[..|ys| - 1];
      ParseAllPrefix(action, xs, ys[..|ys| - 1]);
    }
  }

  /** Records whose properties agree in content, undefined ones included, have the same content. */
  lemma SameGetsSameContent(a: Record, b: Record)
    requires forall k :: SameProperty(Get(a, k), Get(b, k))
    ensures SameContent(a, b)
  {
    forall i | 0 <= i < |a.members| && !a.members[i].val.Undefined?
      ensures !Get(b, a.members[i].key).Undefined? && SameContent(a.members[i].val, Get(b, a.members[i].key))
    {
      GetMember(a, i);
      assert SameProperty(Get(a, a.members[i].key), Get(b, a.members[i].key));
    }
    forall j | 0 <= j < |b.members| && !b.members[j].val.Undefined?
      ensures !Get(a, b.members[j].key).Undefined?
    {
      GetMember(b, j);
      assert SameProperty(Get(a, b.members[j].key), Get(b, b.members[j].key));
    }
  }

  predicate SameProperty(v: Value, w: Value) {
    (v.Undefined? <==> w.Undefined?) && SameContent(v, w)
  }

  lemma SameContentReflexive(v: Value)
    requires WellFormed(v)
    ensures SameContent(v, v)
  {
    NormalIffSameContent(v, v);
  }

  lemma BlocksWellFormed(payload: Text, keyId: Text, sig: Text)
    ensures WellFormed(SignatureBlock(keyId, sig)) && WellFormed(EnvelopeBlock(payload, keyId, sig))
  {
    assert Lit("alg")[0] != SIG[0];
    var entry := Obj([Entry(KEYID, Str(keyId)), Entry(SIG, Str(sig))]);
    assert WellFormed(entry);
    assert WellFormed(Arr([entry]));
  }
}
