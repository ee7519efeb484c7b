/** The validators the record schema is built from (zod, as packages/aep/src/types.ts uses it). */
module Zod {
  // For every schema they can form: a validated value is a fixed point of its schema, and validation
  // looks at JSON content only.

  import opened JsonValue
  import opened Canonical
  import opened NormalForm
  import opened RoundTrip
  import opened Records
  import opened Schema

  /** What a value must be. An object schema drops unknown keys unless it passes them through. */
  datatype Shape =
    | AnyText
    | Flag
    | Number(least: Option<int>)
    | OneOf(options: seq<Text>)
    | SetOf(options: seq<Text>)
    | List(elem: Shape, shortest: nat)
    | Object(fields: seq<Entry<Field>>, passthrough: bool)
    | Dictionary

  /** What a property must be, and what its absence means. */
  datatype Field =
    | Required(shape: Shape)
    | Optional(shape: Shape)
    | Nullish(shape: Shape)
    | Default(shape: Shape, value: Js)

  /** The text of each element, if every one is among the options. */
  predicate AllAmong(vs: seq<Value>, options: seq<Text>) {
    forall i :: 0 <= i < |vs| ==> vs[i].Str? && vs[i].s in options
  }

  /** `safeParse`: the normalised value, or `None`. */
  function Check(sh: Shape, v: Value): Option<Value>
    decreases sh, 0
  {
    match sh
    case AnyText => if v.Str? then Some(v) else None
    case Flag => if v.Bool? then Some(v) else None
    case Number(least) => if v.Num? && (least.None? || least.value <= v.n) then Some(v) else None
    case OneOf(options) => if v.Str? && v.s in options then Some(v) else None
    case SetOf(options) => if v.Arr? && AllAmong(v.elems, options) && Distinct(v.elems) then Some(v) else None
    case Dictionary => if v.Obj? then Some(v) else None
    case List(elem, shortest) =>
      if !v.Arr? || |v.elems| < shortest then None
      else (match CheckElems(elem, v.elems) case Some(xs) => Some(Arr(xs)) case None => None)
    case Object(fields, passthrough) =>
      if !v.Obj? then None
      else match CheckFields(fields, v)
        case Some(ms) => Some(Obj(ms + Rest(fields, passthrough, v.members)))
        case None => None
  }

  function CheckElems(elem: Shape, xs: seq<Value>): (r: Option<seq<Value>>)
    ensures r.Some? ==> |r.value| == |xs|
    decreases elem, 1, |xs|
  {
    if xs == [] then Some([])
    else match (CheckElems(elem, xs[..|xs| - 1]), Check(elem, xs[|xs| - 1]))
      case (Some(front), Some(x)) => Some(front + [x])
      case _ => None
  }

  function Known(fields: seq<Entry<Field>>): set<Text> { set k | k in Keys(fields) }

  /** The unknown members that are kept. */
  function Rest(fields: seq<Entry<Field>>, passthrough: bool, ms: seq<Entry<Value>>): seq<Entry<Value>> {
    if passthrough then Without(ms, Known(fields)) else []
  }

  /** An undefined property is left out. */
  function Before(k: Text, x: Value, ms: seq<Entry<Value>>): seq<Entry<Value>> {
    if x.Undefined? then ms else [Entry(k, x)] + ms
  }

  /** The members of an object, in the schema's order. A key written twice counts where it is last. */
  function CheckFields(fields: seq<Entry<Field>>, v: Value): Option<seq<Entry<Value>>>
    decreases fields, 0
  {
    if fields == [] then Some([])
    else if fields[0].key in Keys(fields[1..]) then CheckFields(fields[1..], v)
    else match (CheckField(fields[0].val, Get(v, fields[0].key)), CheckFields(fields[1..], v))
      case (Some(x), Some(ms)) => Some(Before(fields[0].key, x, ms))
      case _ => None
  }

  function CheckField(f: Field, v: Value): Option<Value>
    decreases f, 1
  {
    match f
    case Required(shape) => Check(shape, v)
    case Optional(shape) => if v.Undefined? then Some(v) else Check(shape, v)
    case Nullish(shape) => if v.Undefined? || v.Null? then Some(v) else Check(shape, v)
    case Default(shape, value) => Check(shape, if v.Undefined? then value else v)
  }

  // ----- validated values are fixed points

  predicate Defined(v: Value) { !v.Undefined? && !v.Null? }

  /** Only a value that is there passes a shape, and one comes out. */
  lemma CheckDefined(sh: Shape, v: Value)
    ensures Check(sh, v).Some? ==> Defined(v) && Defined(Check(sh, v).value)
  {
  }

  lemma {:induction false} CheckFixed(sh: Shape, v: Value)
    requires WellFormed(v) && Check(sh, v).Some?
    ensures WellFormed(Check(sh, v).value) && Check(sh, Check(sh, v).value) == Check(sh, v)
    decreases sh, 0
  {
    hide WellFormed, Get, CheckFields, Without;
    match sh
    case List(elem, _) =>
      ArrWellFormed(v);
      ElemsFixed(elem, v.elems);
      ArrWellFormed(Check(sh, v).value);
    case Object(fields, passthrough) => ObjectFixed(fields, passthrough, v);
    case _ =>
  }

  lemma ArrWellFormed(v: Value)
    requires v.Arr?
    ensures WellFormed(v) <==> forall i :: 0 <= i < |v.elems| ==> WellFormed(v.elems[i])
  {
  }

  lemma {:induction false} ElemsFixed(elem: Shape, xs: seq<Value>)
    requires (forall i :: 0 <= i < |xs| ==> WellFormed(xs[i])) && CheckElems(elem, xs).Some?
    ensures var ys := CheckElems(elem, xs).value;
            (forall i :: 0 <= i < |ys| ==> WellFormed(ys[i])) && CheckElems(elem, ys) == Some(ys)
    decreases elem, 1, |xs|
  {
    hide WellFormed, Check;
    if xs != [] {
      ElemsFixed(elem, xs[..|xs| - 1]);
      CheckFixed(elem, xs[|xs| - 1]);
      var ys := CheckElems(elem, xs).value;
      assert ys[..|ys| - 1] == CheckElems(elem, xs[..|xs| - 1]).value;
    }
  }

  lemma {:induction false} FieldFixed(f: Field, v: Value)
    requires WellFormed(v) && CheckField(f, v).Some?
    ensures WellFormed(CheckField(f, v).value) && CheckField(f, CheckField(f, v).value) == CheckField(f, v)
    decreases f, 1
  {
    hide WellFormed, Check;
    match f
    case Default(shape, value) =>
      CheckFixed(shape, if v.Undefined? then value else v);
      CheckDefined(shape, if v.Undefined? then value else v);
    case _ =>
      if Check(f.shape, v).Some? {
        CheckFixed(f.shape, v);
        CheckDefined(f.shape, v);
      }
  }

  /** The members that come out are distinct, known and well formed. */
  lemma {:induction false} FieldsWellFormed(fields: seq<Entry<Field>>, v: Value)
    requires WellFormed(v) && CheckFields(fields, v).Some?
    ensures var ms := CheckFields(fields, v).value;
            && Distinct(Keys(ms)) && (forall i :: 0 <= i < |ms| ==> WellFormed(ms[i].val) && !ms[i].val.Undefined?)
            && forall k :: k in Keys(ms) ==> k in Keys(fields)
    decreases fields, 0
  {
    hide WellFormed, CheckField, Get, Distinct;
    if fields == [] {
      NoKeys();
    } else {
      KeysTail(fields);
      FieldsWellFormed(fields[1..], v);
      if fields[0].key !in Keys(fields[1..]) {
        GetWellFormed(v, fields[0].key);
        FieldFixed(fields[0].val, Get(v, fields[0].key));
        var ms, rest := CheckFields(fields, v).value, CheckFields(fields[1..], v).value;
        if ms != rest {
          assert ms[1..] == rest;
          KeysTail(ms);
        }
      }
    }
  }

  lemma NoKeys()
    ensures Distinct(Keys<Entry<Value>>([]))
    ensures Distinct(Keys<Value>([]))
  {
  }

  lemma BeforeGet(key: Text, x: Value, ms: seq<Entry<Value>>, k: Text)
    ensures Get(Obj(Before(key, x, ms)), k) == if k == key && !x.Undefined? then x else Get(Obj(ms), k)
  {
    assert ([Entry(key, x)] + ms)[1..] == ms;
  }

  /** A value whose known properties are the members that came out gives the same members. */
  lemma {:induction false} FieldsFixed(fields: seq<Entry<Field>>, v: Value, u: Value)
    requires WellFormed(v) && CheckFields(fields, v).Some?
    requires forall k :: k in Keys(fields) ==> Get(u, k) == Get(Obj(CheckFields(fields, v).value), k)
    ensures CheckFields(fields, u) == CheckFields(fields, v)
    decreases fields, 0
  {
    hide WellFormed, CheckField, Distinct, Get, Before;
    if fields != [] {
      KeysTail(fields);
      var key := fields[0].key;
      if key !in Keys(fields[1..]) {
        var tail, x := CheckFields(fields[1..], v).value, CheckField(fields[0].val, Get(v, key)).value;
        FieldsWellFormed(fields[1..], v);
        GetWellFormed(v, key);
        FieldFixed(fields[0].val, Get(v, key));
        forall k | k in Keys(fields[1..]) ensures Get(u, k) == Get(Obj(tail), k) { BeforeGet(key, x, tail, k); }
        BeforeGet(key, x, tail, key);
        NotThere(tail, key);
      }
      FieldsFixed(fields[1..], v, u);
    }
  }

  lemma NotThere(ms: seq<Entry<Value>>, k: Text)
    ensures k !in Keys(ms) ==> Get(Obj(ms), k) == Undefined
  {
  }

  lemma {:induction false} WithoutAppend(a: seq<Entry<Value>>, b: seq<Entry<Value>>, ks: set<Text>)
    ensures Without(a + b, ks) == Without(a, ks) + Without(b, ks)
  {
    if a == [] {
      assert a + b == b;
    } else {
      assert (a + b)[1..] == a[1..] + b;
      WithoutAppend(a[1..], b, ks);
    }
  }

  lemma {:induction false} WithoutAll(ms: seq<Entry<Value>>, ks: set<Text>)
    requires forall k :: k in Keys(ms) ==> k in ks
    ensures Without(ms, ks) == []
  {
    if ms != [] {
      KeysTail(ms);
      WithoutAll(ms[1..], ks);
    }
  }

  lemma {:induction false} WithoutTwice(ms: seq<Entry<Value>>, ks: set<Text>)
    ensures Without(Without(ms, ks), ks) == Without(ms, ks)
  {
    if ms != [] {
      WithoutTwice(ms[1..], ks);
      if ms[0].key !in ks { assert Without(ms, ks)[1..] == Without(ms[1..], ks); }
    }
  }

  lemma {:induction false} FindAppend<T>(a: seq<Entry<T>>, b: seq<Entry<T>>, k: Text)
    ensures Find(a + b, k) == if k in Keys(a) then Find(a, k) else Find(b, k)
  {
    if a == [] {
      assert a + b == b;
    } else {
      assert (a + b)[1..] == a[1..] + b;
      KeysTail(a);
      FindAppend(a[1..], b, k);
    }
  }

  lemma KeysAppend(a: seq<Entry<Value>>, b: seq<Entry<Value>>)
    ensures Keys(a + b) == Keys(a) + Keys(b)
  {
  }

  lemma {:induction false} DistinctAppend(a: seq<Entry<Value>>, b: seq<Entry<Value>>)
    requires Distinct(Keys(a)) && Distinct(Keys(b)) && forall k :: k in Keys(a) ==> k !in Keys(b)
    ensures Distinct(Keys(a + b))
  {
    hide Distinct;
    if a == [] {
      assert a + b == b;
    } else {
      KeysTail(a);
      KeysTail(a + b);
      assert (a + b)[1..] == a[1..] + b && (a + b)[0] == a[0];
      KeysAppend(a[1..], b);
      DistinctAppend(a[1..], b);
    }
  }

  lemma RestParts(fields: seq<Entry<Field>>, passthrough: bool, v: Record)
    ensures var rest := Rest(fields, passthrough, v.members);
            && IsRecord(Obj(rest)) && Without(rest, Known(fields)) == rest
            && forall k :: Find(rest, k) == if passthrough && k !in Keys(fields) then Find(v.members, k) else None
  {
    WithoutDistinct(v.members, Known(fields));
    WithoutWellFormed(v.members, Known(fields));
    WithoutTwice(v.members, Known(fields));
    NoKeys();
    hide Without, Distinct;
    forall k ensures Find(Without(v.members, Known(fields)), k) == if k in Keys(fields) then None else Find(v.members, k) {
      WithoutFind(v.members, Known(fields), k);
    }
  }

  lemma AppendRecords(a: seq<Entry<Value>>, b: seq<Entry<Value>>)
    requires IsRecord(Obj(a)) && IsRecord(Obj(b)) && forall k :: k in Keys(a) ==> k !in Keys(b)
    ensures IsRecord(Obj(a + b))
  {
    DistinctAppend(a, b);
    hide Distinct;
  }

  /** What an object schema makes of an object: its known members, then the rest if it passes them through. */
  lemma ObjectParts(fields: seq<Entry<Field>>, passthrough: bool, v: Record)
    requires CheckFields(fields, v).Some?
    ensures var ms, rest := CheckFields(fields, v).value, Rest(fields, passthrough, v.members);
            && IsRecord(Obj(ms + rest)) && Rest(fields, passthrough, ms + rest) == rest
            && forall k :: Get(Obj(ms + rest), k) ==
                           if k in Keys(fields) then Get(Obj(ms), k) else if passthrough then Get(v, k) else Undefined
    decreases fields, 1
  {
    var ms, rest := CheckFields(fields, v).value, Rest(fields, passthrough, v.members);
    FieldsWellFormed(fields, v);
    RestParts(fields, passthrough, v);
    WithoutAppend(ms, rest, Known(fields));
    WithoutAll(ms, Known(fields));
    assert [] + rest == rest;
    hide Distinct, Without, CheckFields;
    assert IsRecord(Obj(ms));
    AppendRecords(ms, rest);
    forall k ensures Find(ms + rest, k) == if k in Keys(ms) then Find(ms, k) else Find(rest, k) { FindAppend(ms, rest, k); }
    hide WellFormed;
  }

  lemma {:induction false} ObjectFixed(fields: seq<Entry<Field>>, passthrough: bool, v: Value)
    requires WellFormed(v) && Check(Object(fields, passthrough), v).Some?
    ensures var w := Check(Object(fields, passthrough), v);
            WellFormed(w.value) && Check(Object(fields, passthrough), w.value) == w
    decreases fields, 2
  {
    ObjectParts(fields, passthrough, v);
    hide WellFormed, Get, CheckFields, Rest;
    FieldsFixed(fields, v, Check(Object(fields, passthrough), v).value);
  }

  // ----- validation sees content only

  /** Two outcomes of validation that agree. */
  predicate SameOutcome(a: Option<Value>, b: Option<Value>) {
    (a.Some? <==> b.Some?) && (a.Some? ==> SameProperty(a.value, b.value))
  }

  lemma {:induction false} CheckSame(sh: Shape, v: Value, w: Value)
    requires WellFormed(v) && WellFormed(w) && SameContent(v, w)
    ensures SameOutcome(Check(sh, v), Check(sh, w))
    decreases sh, 0
  {
    hide WellFormed, Get, CheckFields, Without, Distinct;
    match sh
    case List(elem, _) =>
      if v.Arr? && w.Arr? {
        ArrWellFormed(v);
        ArrWellFormed(w);
        ElemsSame(elem, v.elems, w.elems);
      }
    case SetOf(_) => TextsSame(v, w);
    case Object(fields, passthrough) =>
      if v.Obj? && w.Obj? { ObjectSame(fields, passthrough, v, w); }
    case _ =>
  }

  lemma TextsSame(v: Value, w: Value)
    requires SameContent(v, w)
    ensures v.Arr? && (forall i :: 0 <= i < |v.elems| ==> v.elems[i].Str?) ==> v == w
    ensures w.Arr? && (forall i :: 0 <= i < |w.elems| ==> w.elems[i].Str?) ==> v == w
  {
    if v.Arr? && w.Arr? { assert forall i :: 0 <= i < |v.elems| ==> SameContent(v.elems[i], w.elems[i]); }
  }

  lemma {:induction false} ElemsSame(elem: Shape, xs: seq<Value>, ys: seq<Value>)
    requires |xs| == |ys| && forall i :: 0 <= i < |xs| ==> WellFormed(xs[i]) && WellFormed(ys[i]) && SameContent(xs[i], ys[i])
    ensures var a, b := CheckElems(elem, xs), CheckElems(elem, ys);
            (a.Some? <==> b.Some?) && (a.Some? ==> forall i :: 0 <= i < |xs| ==> SameContent(a.value[i], b.value[i]))
    decreases elem, 1, |xs|
  {
    hide WellFormed, Check, SameContent;
    if xs != [] {
      ElemsSame(elem, xs[..|xs| - 1], ys[..|ys| - 1]);
      CheckSame(elem, xs[|xs| - 1], ys[|ys| - 1]);
    }
  }

  lemma {:induction false} FieldSame(f: Field, v: Value, w: Value)
    requires WellFormed(v) && WellFormed(w) && SameProperty(v, w)
    ensures SameOutcome(CheckField(f, v), CheckField(f, w))
    decreases f, 1
  {
    hide Check;
    CheckSame(f.shape, v, w);
    if f.Default? { CheckSame(f.shape, f.value, f.value) by { SameContentReflexive(f.value); } }
  }

  lemma NothingThere()
    ensures WellFormed(Undefined) && forall k :: Get(Obj([]), k) == Undefined
  {
  }

  lemma BeforeSame(key: Text, x: Value, y: Value, a: seq<Entry<Value>>, b: seq<Entry<Value>>)
    requires SameProperty(x, y) && forall k :: SameProperty(Get(Obj(a), k), Get(Obj(b), k))
    ensures forall k :: SameProperty(Get(Obj(Before(key, x, a)), k), Get(Obj(Before(key, y, b)), k))
  {
    forall k ensures SameProperty(Get(Obj(Before(key, x, a)), k), Get(Obj(Before(key, y, b)), k)) {
      BeforeGet(key, x, a, k);
      BeforeGet(key, y, b, k);
      assert SameProperty(Get(Obj(a), k), Get(Obj(b), k));
      hide SameContent, Get, Before;
    }
  }

  lemma {:induction false} FieldsSame(fields: seq<Entry<Field>>, v: Record, w: Record)
    requires SameContent(v, w)
    ensures CheckFields(fields, v).Some? <==> CheckFields(fields, w).Some?
    ensures CheckFields(fields, v).Some? ==>
              forall k :: SameProperty(Get(Obj(CheckFields(fields, v).value), k), Get(Obj(CheckFields(fields, w).value), k))
    decreases fields, 0
  {
    hide WellFormed, CheckField, SameContent, Get, Before;
    if fields == [] {
      SameContentReflexive(Undefined);
      NothingThere();
    } else {
      var key := fields[0].key;
      FieldsSame(fields[1..], v, w);
      if key !in Keys(fields[1..]) {
        SameContentGet(v, w, key);
        GetWellFormed(v, key);
        GetWellFormed(w, key);
        FieldSame(fields[0].val, Get(v, key), Get(w, key));
        if CheckFields(fields, v).Some? {
          BeforeSame(key, CheckField(fields[0].val, Get(v, key)).value, CheckField(fields[0].val, Get(w, key)).value,
                     CheckFields(fields[1..], v).value, CheckFields(fields[1..], w).value);
        }
      }
    }
  }

  lemma {:induction false} ObjectSame(fields: seq<Entry<Field>>, passthrough: bool, v: Record, w: Record)
    requires SameContent(v, w)
    ensures SameOutcome(Check(Object(fields, passthrough), v), Check(Object(fields, passthrough), w))
    decreases fields, 2
  {
    FieldsSame(fields, v, w);
    hide WellFormed, CheckFields, Rest, SameContent, Get;
    var a, b := Check(Object(fields, passthrough), v), Check(Object(fields, passthrough), w);
    if a.Some? {
      ObjectParts(fields, passthrough, v);
      ObjectParts(fields, passthrough, w);
      forall k ensures SameProperty(Get(a.value, k), Get(b.value, k)) { SameContentGet(v, w, k); }
      SameGetsSameContent(a.value, b.value);
    }
  }

  // ----- a record schema made of these

  /** The keys of an object schema. */
  function OwnKeys(fields: seq<Entry<Field>>): seq<Text> {
    if fields == [] then []
    else if fields[0].key in Keys(fields[1..]) then OwnKeys(fields[1..])
    else [fields[0].key] + OwnKeys(fields[1..])
  }

  function FieldAt(fields: seq<Entry<Field>>, k: Text): Field
    requires k in Keys(fields)
  {
    if k in Keys(fields[1..]) then FieldAt(fields[1..], k) else fields[0].val
  }

  function CheckProperty(fields: seq<Entry<Field>>, k: Text, v: Value): Option<Value> {
    if k in Keys(fields) then CheckField(FieldAt(fields, k), v) else None
  }

  function SchemaOf(fields: seq<Entry<Field>>, action: Shape): RecordSchema {
    RecordSchema(OwnKeys(fields), (k, v) => CheckProperty(fields, k, v), v => Check(action, v))
  }

  lemma {:induction false} OwnKeysDistinct(fields: seq<Entry<Field>>)
    ensures Distinct(OwnKeys(fields)) && forall k :: k in OwnKeys(fields) <==> k in Keys(fields)
  {
    if fields != [] {
      KeysTail(fields);
      OwnKeysDistinct(fields[1..]);
      if fields[0].key !in Keys(fields[1..]) { DistinctCons(fields[0].key, OwnKeys(fields[1..])); }
    }
  }

  /** Every element of a validated array passes. */
  lemma {:induction false} ElemPasses(elem: Shape, xs: seq<Value>, i: nat)
    requires i < |xs| && CheckElems(elem, xs).Some?
    ensures Check(elem, xs[i]).Some?
  {
    hide Check;
    if i < |xs| - 1 { ElemPasses(elem, xs[..|xs| - 1], i); }
  }

  /** Every property of a validated object passes. */
  lemma {:induction false} FieldPasses(fields: seq<Entry<Field>>, v: Value, k: Text)
    requires k in Keys(fields) && CheckFields(fields, v).Some?
    ensures CheckField(FieldAt(fields, k), Get(v, k)).Some?
  {
    hide CheckField, Get;
    KeysTail(fields);
    if k in Keys(fields[1..]) { FieldPasses(fields[1..], v, k); }
  }

  /** What a record schema makes of a record is what the object schema of its fields makes of it. */
  lemma RecordIsObject(fields: seq<Entry<Field>>, action: Shape, r: Record)
    ensures ParseRecord(SchemaOf(fields, action), r) == Check(Object(fields, false), r)
  {
    FieldsAgree(SchemaOf(fields, action), fields, r);
    hide CheckFields, ParseFields;
    match CheckFields(fields, r)
    case Some(ms) => assert ms + [] == ms;
    case None =>
  }

  lemma NoFields(s: RecordSchema, r: Record)
    ensures ParseFields(s, [], r) == Some([])
  {
  }

  lemma ParseFieldsCons(s: RecordSchema, key: Text, keys: seq<Text>, r: Record)
    ensures ParseFields(s, [key] + keys, r) ==
            match (s.field(key, Get(r, key)), ParseFields(s, keys, r))
            case (Some(x), Some(ms)) => Some(Before(key, x, ms))
            case _ => None
  {
    assert ([key] + keys)[1..] == keys;
    hide Get;
  }

  /** The last field of a name is the one that counts. */
  lemma LaterField(fields: seq<Entry<Field>>, k: Text, v: Value)
    requires fields != []
    ensures k in Keys(fields[1..]) ==> CheckProperty(fields, k, v) == CheckProperty(fields[1..], k, v)
    ensures fields[0].key !in Keys(fields[1..]) ==> CheckProperty(fields, fields[0].key, v) == CheckField(fields[0].val, v)
  {
    KeysTail(fields);
    hide CheckField;
  }

  lemma {:induction false} FieldsAgree(s: RecordSchema, fields: seq<Entry<Field>>, r: Record)
    requires forall k, v :: k in Keys(fields) ==> s.field(k, v) == CheckProperty(fields, k, v)
    ensures ParseFields(s, OwnKeys(fields), r) == CheckFields(fields, r)
  {
    hide CheckField, Get, ParseFields, Before, FieldAt;
    if fields == [] {
      NoFields(s, r);
    } else {
      KeysTail(fields);
      var tail, key := fields[1..], fields[0].key;
      forall k, v | k in Keys(tail) ensures s.field(k, v) == CheckProperty(tail, k, v) {
        assert s.field(k, v) == CheckProperty(fields, k, v);
        LaterField(fields, k, v);
      }
      FieldsAgree(s, tail, r);
      if key !in Keys(tail) {
        assert s.field(key, Get(r, key)) == CheckProperty(fields, key, Get(r, key));
        LaterField(fields, key, Get(r, key));
        ParseFieldsCons(s, key, OwnKeys(tail), r);
      }
    }
  }

  /** Every schema of this kind keeps validated properties, and keeps their content through normal form. */
  lemma SchemaKeeps(fields: seq<Entry<Field>>, action: Shape)
    ensures var s := SchemaOf(fields, action);
            && JsonStable(s)
            && forall k, v, w {:trigger s.field(k, v), Some(w)} :: WellFormed(v) && s.field(k, v) == Some(w) ==>
                 WellFormed(w) && s.field(k, w) == Some(w)
  {
    var s := SchemaOf(fields, action);
    hide WellFormed, SameContent, CheckField, FieldAt, Normal;
    forall k, v, w | WellFormed(v) && s.field(k, v) == Some(w) ensures WellFormed(w) && s.field(k, w) == Some(w) {
      FieldFixed(FieldAt(fields, k), v);
    }
    forall k, w | WellFormed(w) && !w.Undefined? && s.field(k, w) == Some(w) ensures SurvivesAs(s, k, w) {
      NormalKeepsContent(w);
      FieldSame(FieldAt(fields, k), Normal(w), w);
    }
  }

  lemma NormalKeepsContent(w: Value)
    requires WellFormed(w) && !w.Undefined?
    ensures WellFormed(Normal(w)) && SameProperty(Normal(w), w)
  {
    NormalIsClean(w);
    CleanWellFormed(Normal(w));
    NormalIdempotent(w);
    NormalIffSameContent(Normal(w), w);
  }
}
