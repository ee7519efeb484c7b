/** A built bundle survives the trip through its own serialisation and then verifies exactly when its
    chain is acceptable; and a bundle digest fixes the manifest and the records.

    - Fields: what a manifest and a bundle hold as JSON objects (`ManifestValueHolds`,
      `BundleValueGets`).
    - Digest: equal manifest content means equal manifests (`ManifestFixed`), and each entry's digest
      fixes its record (`DigestFixesBundle`).
    - Trip: manifest and records are read back from their normal forms (`ManifestSurvives`,
      `RecordSurvives`), and verification looks at nothing but content (`SameDigestAndLink`). */
module BundleProofs {
  import opened JsonValue
  import opened KeyOrder
  import opened Canonical
  import opened NormalForm
  import opened JsonParser
  import opened Utf8
  import opened RoundTrip
  import opened Records
  import opened Chain
  import opened Dsse
  import opened Schema
  import opened Bundles

  // ----- manifest fields

  lemma BundleNamesApart()
    ensures Distinct([SCHEMA_VERSION, PRODUCER, CREATED_AT, RECORD_COUNT, RUN_IDS, STARTED, ENDED, RECORDS, BUNDLE_DIGEST])
    ensures Distinct([INDEX, DIGEST, RUN_ID]) && Distinct([SCHEMA_VERSION, MANIFEST, RECORDS])
  {
    assert |SCHEMA_VERSION| == 14 && |PRODUCER| == 8 && |CREATED_AT| == 10 && |RECORD_COUNT| == 12 && |RUN_IDS| == 7
        && |STARTED| == 13 && |ENDED| == 11 && |RECORDS| == 7 && |BUNDLE_DIGEST| == 13 && |MANIFEST| == 8
        && |INDEX| == 5 && |DIGEST| == 6 && |RUN_ID| == 6;
    assert RUN_IDS[1] != RECORDS[1] && STARTED[0] != BUNDLE_DIGEST[0] && DIGEST[0] != RUN_ID[0];
  }

  lemma ObjectGets(ms: seq<Entry<Value>>)
    requires Distinct(Keys(ms)) && forall i :: 0 <= i < |ms| ==> WellFormed(ms[i].val)
    ensures IsRecord(Obj(ms))
    ensures forall i :: 0 <= i < |ms| ==> Get(Obj(ms), ms[i].key) == ms[i].val
  {
    forall i | 0 <= i < |ms| ensures Get(Obj(ms), ms[i].key) == ms[i].val { FindAt(ms, i); }
  }

  lemma EntryValueGets(e: RecordEntry)
    ensures IsRecord(EntryValue(e))
    ensures Get(EntryValue(e), INDEX) == Num(e.index) && Get(EntryValue(e), DIGEST) == Str(e.digest)
    ensures Get(EntryValue(e), RUN_ID) == Str(e.runId)
  {
    BundleNamesApart();
    var ms := EntryValue(e).members;
    assert Keys(ms) == [INDEX, DIGEST, RUN_ID];
    hide Lit, Get;
    ObjectGets(ms);
    assert ms[0].key == INDEX && ms[1].key == DIGEST && ms[2].key == RUN_ID;
  }

  lemma EntryValuesWellFormed(es: seq<RecordEntry>)
    ensures WellFormed(Arr(EntryValues(es)))
  {
    hide EntryValue;
    forall i | 0 <= i < |es| ensures WellFormed(EntryValues(es)[i]) { EntryValueGets(es[i]); }
  }

  /** The members of a manifest value, with or without its digest. */
  predicate HoldsManifest(v: Value, m: Manifest) {
    && Get(v, SCHEMA_VERSION) == Str(m.schemaVersion) && Get(v, PRODUCER) == Str(m.producer)
    && Get(v, CREATED_AT) == Str(m.createdAt) && Get(v, RECORD_COUNT) == Num(m.recordCount)
    && Get(v, RUN_IDS) == Arr(TextValues(m.runIds)) && Get(v, STARTED) == Num(m.startedAtMs)
    && Get(v, ENDED) == Num(m.endedAtMs) && Get(v, RECORDS) == Arr(EntryValues(m.entries))
  }

  lemma TextValuesWellFormed(ts: seq<Text>)
    ensures WellFormed(Arr(TextValues(ts)))
  {
  }

  lemma ManifestFieldsWellFormed(m: Manifest)
    ensures forall i :: 0 <= i < 8 ==> WellFormed(ManifestFields(m)[i].val)
    ensures |ManifestFields(m)| == 8
  {
    EntryValuesWellFormed(m.entries);
    TextValuesWellFormed(m.runIds);
    var a, b := Arr(TextValues(m.runIds)), Arr(EntryValues(m.entries));
    hide Lit, EntryValues, TextValues;
    var ms := ManifestFields(m);
    forall i | 0 <= i < 8 ensures WellFormed(ms[i].val) {
      assert ms[i].val == a || ms[i].val == b || ms[i].val.Str? || ms[i].val.Num?;
    }
  }

  lemma FieldKeys(m: Manifest)
    ensures Keys(ManifestFields(m)) == [SCHEMA_VERSION, PRODUCER, CREATED_AT, RECORD_COUNT, RUN_IDS, STARTED, ENDED, RECORDS]
  {
    hide Lit, EntryValues, TextValues;
  }

  lemma DistinctPrefix(ks: seq<Text>, n: nat)
    requires Distinct(ks) && n <= |ks|
    ensures Distinct(ks[..n])
  {
  }

  /** Members that start with the manifest's fields hold the manifest. */
  lemma FieldsHold(m: Manifest, ms: seq<Entry<Value>>)
    requires |ms| >= 8 && ms[..8] == ManifestFields(m)
    requires forall i :: 0 <= i < |ms| ==> Get(Obj(ms), ms[i].key) == ms[i].val
    ensures HoldsManifest(Obj(ms), m)
  {
    hide Lit, Get, EntryValues, TextValues;
    var f := ManifestFields(m);
    assert ms[0] == f[0] && ms[1] == f[1] && ms[2] == f[2] && ms[3] == f[3];
    assert ms[4] == f[4] && ms[5] == f[5] && ms[6] == f[6] && ms[7] == f[7];
  }

  lemma ManifestBaseHolds(m: Manifest)
    ensures IsRecord(ManifestBase(m)) && HoldsManifest(ManifestBase(m), m)
  {
    BundleNamesApart();
    var ms := ManifestFields(m);
    var names := [SCHEMA_VERSION, PRODUCER, CREATED_AT, RECORD_COUNT, RUN_IDS, STARTED, ENDED, RECORDS, BUNDLE_DIGEST];
    FieldKeys(m);
    ManifestFieldsWellFormed(m);
    DistinctPrefix(names, 8);
    assert names[..8] == [SCHEMA_VERSION, PRODUCER, CREATED_AT, RECORD_COUNT, RUN_IDS, STARTED, ENDED, RECORDS];
    hide Lit, Get, WellFormed, ManifestFields, HoldsManifest, Distinct;
    ObjectGets(ms);
    assert ms[..8] == ms;
    FieldsHold(m, ms);
  }

  lemma ManifestValueHolds(m: Manifest)
    ensures IsRecord(ManifestValue(m)) && HoldsManifest(ManifestValue(m), m)
    ensures Get(ManifestValue(m), BUNDLE_DIGEST) == Str(m.bundleDigest)
  {
    BundleNamesApart();
    var last := Entry(BUNDLE_DIGEST, Str(m.bundleDigest));
    var ms := ManifestFields(m) + [last];
    var names := [SCHEMA_VERSION, PRODUCER, CREATED_AT, RECORD_COUNT, RUN_IDS, STARTED, ENDED, RECORDS, BUNDLE_DIGEST];
    FieldKeys(m);
    ManifestFieldsWellFormed(m);
    assert WellFormed(last.val);
    hide Lit, Get, WellFormed, ManifestFields, HoldsManifest, Distinct;
    assert Keys(ms) == Keys(ManifestFields(m)) + [BUNDLE_DIGEST];
    assert Keys(ms) == names;
    ObjectGets(ms);
    assert ms[..8] == ManifestFields(m) && ms[8] == last;
    FieldsHold(m, ms);
  }

  // ----- a bundle digest fixes the manifest and the records

  lemma EntryFixed(a: RecordEntry, b: RecordEntry)
    requires SameContent(EntryValue(a), EntryValue(b))
    ensures a == b
  {
    EntryValueGets(a);
    EntryValueGets(b);
    hide EntryValue, Lit, Find;
    SameContentGet(EntryValue(a), EntryValue(b), INDEX);
    SameContentGet(EntryValue(a), EntryValue(b), DIGEST);
    SameContentGet(EntryValue(a), EntryValue(b), RUN_ID);
  }

  lemma EntriesFixed(a: seq<RecordEntry>, b: seq<RecordEntry>)
    requires SameContent(Arr(EntryValues(a)), Arr(EntryValues(b)))
    ensures a == b
  {
    hide EntryValue;
    forall i | 0 <= i < |a| ensures a[i] == b[i] {
      assert SameContent(EntryValues(a)[i], EntryValues(b)[i]);
      EntryFixed(a[i], b[i]);
    }
  }

  lemma TextsFixed(a: seq<Text>, b: seq<Text>)
    requires SameContent(Arr(TextValues(a)), Arr(TextValues(b)))
    ensures a == b
  {
    forall i | 0 <= i < |a| ensures a[i] == b[i] {
      assert SameContent(TextValues(a)[i], TextValues(b)[i]);
    }
  }

  /** Equal manifest content means equal manifests, the digest field aside. */
  lemma ManifestFixed(a: Manifest, b: Manifest)
    requires SameContent(ManifestBase(a), ManifestBase(b))
    ensures a == b.(bundleDigest := a.bundleDigest)
  {
    var x, y := ManifestBase(a), ManifestBase(b);
    ManifestBaseHolds(a);
    ManifestBaseHolds(b);
    hide ManifestBase, Get, Lit, EntryValues, TextValues;
    SameContentGet(x, y, SCHEMA_VERSION);
    SameContentGet(x, y, PRODUCER);
    SameContentGet(x, y, CREATED_AT);
    SameContentGet(x, y, RECORD_COUNT);
    SameContentGet(x, y, RUN_IDS);
    SameContentGet(x, y, STARTED);
    SameContentGet(x, y, ENDED);
    SameContentGet(x, y, RECORDS);
    TextsFixed(a.runIds, b.runIds);
    EntriesFixed(a.entries, b.entries);
  }

  /** Two verifying bundles with equal bundle digests have equal manifests and the same unsigned
      records, or the manifests collide, or two records do. */
  lemma DigestFixesBundle(c: Crypto, a: Bundle, b: Bundle, keyA: Option<Bytes>, keyB: Option<Bytes>)
    requires Verifies(c, a, keyA) && Verifies(c, b, keyB) && a.manifest.bundleDigest == b.manifest.bundleDigest
    ensures (a.manifest == b.manifest && SameHistory(a.records, b.records))
         || Collide(c.sha256, CanonicalBytes(ManifestBase(a.manifest)), CanonicalBytes(ManifestBase(b.manifest)))
         || CollisionBetween(c.sha256, a.records, b.records)
  {
    ManifestBaseHolds(a.manifest);
    ManifestBaseHolds(b.manifest);
    BytesDecideContent(ManifestBase(a.manifest), ManifestBase(b.manifest));
    hide CanonicalBytes, Digest, VerifyDetailed, SameUnsigned, RecordsCollide, ManifestBase, IsIntact, IsNotPresent, HoldsManifest, WellFormed, Normal;
    if CanonicalBytes(ManifestBase(a.manifest)) == CanonicalBytes(ManifestBase(b.manifest)) {
      ManifestFixed(a.manifest, b.manifest);
      hide SameContent;
      forall i | 0 <= i < |a.records| ensures SameUnsigned(a.records[i], b.records[i]) || RecordsCollide(c.sha256, a.records[i], b.records[i]) {
        assert DigestAt(c.sha256, a, i) && DigestAt(c.sha256, b, i);
        DigestFixesContent(c.sha256, a.records[i], b.records[i]);
      }
      if !SameHistory(a.records, b.records) {
        var i :| 0 <= i < |a.records| && !SameUnsigned(a.records[i], b.records[i]);
        assert a.records[i] in a.records && b.records[i] in b.records;
      }
    }
  }

  // ----- through JSON and back

  /** A record that is a fixed point of the schema. */
  ghost predicate Validated(s: RecordSchema, r: Record) {
    (forall k :: k in s.keys ==> s.field(k, Get(r, k)) == Some(Get(r, k)))
    && (forall k :: k !in s.keys ==> Get(r, k) == Undefined)
  }

  lemma ParsedIsValidated(s: RecordSchema, r: Record)
    requires Lawful(s) && ParseRecord(s, r).Some?
    ensures IsRecord(ParseRecord(s, r).value) && Validated(s, ParseRecord(s, r).value)
  {
    ParseRecordGet(s, r, []);
    var n: Record := ParseRecord(s, r).value;
    forall k
      ensures k in s.keys ==> s.field(k, Get(n, k)) == Some(Get(n, k))
      ensures k !in s.keys ==> Get(n, k) == Undefined
    {
      ParseRecordGet(s, r, k);
      if k in s.keys { ParseRecordIdempotent(s, r, k); }
    }
  }

  lemma NormalProperty(s: RecordSchema, r: Record, k: Text)
    requires Lawful(s) && JsonStable(s) && Validated(s, r) && k in s.keys
    ensures s.field(k, Get(Normal(r), k)).Some? && SameProperty(s.field(k, Get(Normal(r), k)).value, Get(r, k))
  {
    GetNormal(r, k);
    GetWellFormed(r, k);
    hide Lawful, Find, Normal, Get;
    if !Get(r, k).Undefined? { assert SurvivesAs(s, k, Get(r, k)); }
  }

  /** A validated record, printed canonically, parsed and validated again, has the same content. */
  lemma RecordSurvives(s: RecordSchema, r: Record)
    requires Lawful(s) && JsonStable(s) && Validated(s, r)
    ensures IsRecord(Normal(r))
    ensures var p := ParseRecord(s, Normal(r)); p.Some? && IsRecord(p.value) && SameContent(p.value, r)
  {
    NormalIsClean(r);
    CleanWellFormed(Normal(r));
    forall k | k in s.keys
      ensures s.field(k, Get(Normal(r), k)).Some? && SameProperty(s.field(k, Get(Normal(r), k)).value, Get(r, k))
    {
      NormalProperty(s, r, k);
    }
    hide JsonStable, Normal, SameProperty, WellFormed, Get;
    ParseFieldsSucceeds(s, s.keys, Normal(r));
    ParseRecordGet(s, Normal(r), []);
    var p: Record := ParseRecord(s, Normal(r)).value;
    forall k ensures SameProperty(Get(p, k), Get(r, k)) {
      ParseRecordGet(s, Normal(r), k);
      if k !in s.keys { BothUndefined(Get(p, k), Get(r, k)); }
    }
    SameGetsSameContent(p, r);
  }

  lemma BothUndefined(v: Value, w: Value)
    requires v.Undefined? && w.Undefined?
    ensures SameProperty(v, w)
  {
  }

  ghost predicate AllValidated(s: RecordSchema, rs: seq<Record>) { forall i :: 0 <= i < |rs| ==> Validated(s, rs[i]) }

  /** Pointwise equal content, signatures included. */
  predicate SameRecords(a: seq<Record>, b: seq<Record>) {
    |a| == |b| && forall i :: 0 <= i < |a| ==> SameContent(a[i], b[i])
  }

  lemma {:induction false} RecordsSurvive(s: RecordSchema, rs: seq<Record>)
    requires Lawful(s) && JsonStable(s) && AllValidated(s, rs)
    ensures var p := ParseRecords(s, NormalElems(rs)); p.Some? && SameRecords(p.value, rs)
  {
    hide Lawful, JsonStable, Validated, WellFormed, SameContent, ParseRecord, Normal;
    if rs != [] {
      RecordSurvives(s, rs[0]);
      RecordsSurvive(s, rs[1..]);
      var vs := NormalElems(rs);
      assert vs[1..] == NormalElems(rs[1..]);
    }
  }

  lemma {:induction false} TextsSurvive(ts: seq<Text>)
    ensures NormalElems(TextValues(ts)) == TextValues(ts) && ReadTexts(TextValues(ts)) == Some(ts)
  {
    hide Normal, TextValues;
    if ts != [] {
      TextsSurvive(ts[1..]);
      TextsTail(ts);
      NormalScalars(ts[0], 0, []);
    }
  }

  lemma TextsTail(ts: seq<Text>)
    requires ts != []
    ensures TextValues(ts)[1..] == TextValues(ts[1..]) && [Str(ts[0])] + TextValues(ts[1..]) == TextValues(ts)
    ensures [ts[0]] + ts[1..] == ts
  {
  }

  lemma EntrySurvives(e: RecordEntry)
    requires e.index >= 0
    ensures ReadEntry(Normal(EntryValue(e))) == Some(e)
  {
    EntryValueGets(e);
    hide EntryValue, Lit, Find;
    GetNormal(EntryValue(e), INDEX);
    GetNormal(EntryValue(e), DIGEST);
    GetNormal(EntryValue(e), RUN_ID);
  }

  lemma {:induction false} EntriesSurvive(es: seq<RecordEntry>)
    requires forall i :: 0 <= i < |es| ==> es[i].index >= 0
    ensures ReadEntries(NormalElems(EntryValues(es))) == Some(es)
  {
    hide EntryValue, ReadEntry, Normal;
    if es != [] {
      EntrySurvives(es[0]);
      EntriesSurvive(es[1..]);
      EntriesTail(es);
      ConsEntries(es);
    }
  }

  lemma EntriesTail(es: seq<RecordEntry>)
    requires es != []
    ensures NormalElems(EntryValues(es)) == [Normal(EntryValue(es[0]))] + NormalElems(EntryValues(es[1..]))
  {
    hide EntryValue, Normal;
    assert EntryValues(es)[1..] == EntryValues(es[1..]);
  }

  lemma ConsEntries(es: seq<RecordEntry>)
    requires es != []
    ensures [es[0]] + es[1..] == es
  {
  }

  lemma NormalScalars(t: Text, n: int, vs: seq<Value>)
    ensures Normal(Str(t)) == Str(t) && Normal(Num(n)) == Num(n) && Normal(Arr(vs)) == Arr(NormalElems(vs))
  {
  }

  lemma ReadManifestBack(v: Value, m: Manifest, ids: seq<Value>, entries: seq<Value>)
    requires m.schemaVersion == BUNDLE_VERSION && m.recordCount >= 0
    requires ReadTexts(ids) == Some(m.runIds) && ReadEntries(entries) == Some(m.entries)
    requires Get(v, SCHEMA_VERSION) == Str(m.schemaVersion) && Get(v, PRODUCER) == Str(m.producer)
    requires Get(v, CREATED_AT) == Str(m.createdAt) && Get(v, RECORD_COUNT) == Num(m.recordCount)
    requires Get(v, RUN_IDS) == Arr(ids) && Get(v, STARTED) == Num(m.startedAtMs) && Get(v, ENDED) == Num(m.endedAtMs)
    requires Get(v, RECORDS) == Arr(entries) && Get(v, BUNDLE_DIGEST) == Str(m.bundleDigest)
    ensures ReadManifest(v) == Some(m)
  {
    hide Lit, Get, ReadTexts, ReadEntries;
  }

  /** A manifest of a built bundle reads back from its normal form. */
  lemma ManifestSurvives(m: Manifest)
    requires m.schemaVersion == BUNDLE_VERSION && m.recordCount >= 0
    requires forall i :: 0 <= i < |m.entries| ==> m.entries[i].index >= 0
    ensures ReadManifest(Normal(ManifestValue(m))) == Some(m)
  {
    var v := ManifestValue(m);
    ManifestValueHolds(m);
    TextsSurvive(m.runIds);
    EntriesSurvive(m.entries);
    ManifestDefined(m);
    hide ManifestValue, Lit, Find, EntryValues, TextValues, Normal, NormalElems, Get, ReadTexts, ReadEntries, WellFormed, ReadManifest;
    GetNormal(v, SCHEMA_VERSION);
    GetNormal(v, PRODUCER);
    GetNormal(v, CREATED_AT);
    GetNormal(v, RECORD_COUNT);
    GetNormal(v, RUN_IDS);
    GetNormal(v, STARTED);
    GetNormal(v, ENDED);
    GetNormal(v, RECORDS);
    GetNormal(v, BUNDLE_DIGEST);
    NormalScalars(m.schemaVersion, m.recordCount, TextValues(m.runIds));
    NormalScalars(m.producer, m.startedAtMs, EntryValues(m.entries));
    NormalScalars(m.createdAt, m.endedAtMs, []);
    NormalScalars(m.bundleDigest, 0, []);
    ReadManifestBack(Normal(v), m, TextValues(m.runIds), NormalElems(EntryValues(m.entries)));
  }

  lemma {:induction false} ParsedAllValidated(s: RecordSchema, vs: seq<Value>)
    requires Lawful(s) && ParseRecords(s, vs).Some?
    ensures AllValidated(s, ParseRecords(s, vs).value)
  {
    hide Validated, WellFormed, ParseRecord, Lawful;
    if vs != [] {
      ParsedIsValidated(s, vs[0]);
      ParsedAllValidated(s, vs[1..]);
    }
  }

  lemma BundleValueGets(b: Bundle)
    ensures IsRecord(BundleValue(b))
    ensures Get(BundleValue(b), SCHEMA_VERSION) == Str(b.schemaVersion) && Get(BundleValue(b), MANIFEST) == ManifestValue(b.manifest)
    ensures Get(BundleValue(b), RECORDS) == Arr(b.records)
  {
    BundleNamesApart();
    ManifestValueHolds(b.manifest);
    RecordsWellFormed(b.records);
    hide Lit, ManifestValue, HoldsManifest, Get, Distinct;
    assert [SCHEMA_VERSION, MANIFEST, RECORDS][0] == SCHEMA_VERSION;
    ThreeMembers(SCHEMA_VERSION, Str(b.schemaVersion), MANIFEST, ManifestValue(b.manifest), RECORDS, Arr(b.records));
  }

  lemma RecordsWellFormed(rs: seq<Record>)
    ensures WellFormed(Arr(rs))
  {
  }

  /** What the parser sees of a serialised bundle. */
  lemma SerializedParts(b: Bundle)
    ensures Parse(Serialize(b)).Some?
    ensures var v := Parse(Serialize(b)).value;
            && Get(v, SCHEMA_VERSION) == Str(b.schemaVersion) && Get(v, MANIFEST) == Normal(ManifestValue(b.manifest))
            && Get(v, RECORDS) == Arr(NormalElems(b.records))
  {
    var v := BundleValue(b);
    BundleValueGets(b);
    SerializedText(b);
    hide Lit, BundleValue, Find, Get, Normal, NormalElems, Parse, ManifestValue, WellFormed, Serialize;
    GetNormal(v, SCHEMA_VERSION);
    GetNormal(v, MANIFEST);
    GetNormal(v, RECORDS);
    NormalScalars(b.schemaVersion, 0, b.records);
    ManifestDefined(b.manifest);
  }

  lemma ManifestDefined(m: Manifest)
    ensures !ManifestValue(m).Undefined?
  {
  }

  lemma SerializedText(b: Bundle)
    ensures IsRecord(BundleValue(b))
    ensures Parse(Serialize(b)) == Some(Normal(BundleValue(b)))
  {
    var v := BundleValue(b);
    BundleValueGets(b);
    PrintPaired(Normal(v));
    DecodeEncode(CanonicalText(v));
    ParseCanonical(v);
  }

  /** Serialising and parsing a built bundle gives back its manifest and records of equal content. */
  lemma BundleRoundTrip(h: HashFn, s: RecordSchema, records: seq<Record>, b: Bundle)
    requires Lawful(s) && JsonStable(s) && Built(h, s, records, b)
    ensures var p := ParseBundle(s, Serialize(b));
            p.Some? && p.value.manifest == b.manifest && SameRecords(p.value.records, b.records)
  {
    SerializedParts(b);
    hide Lit, Get, Normal, NormalElems, ReadManifest, Parse, Lawful, JsonStable, ManifestValue, WellFormed, SameContent, Serialize,
         ComputeBundleDigest, ParseRecords;
    ParsedAllValidated(s, ParseRecords(s, records).value);
    RecordsSurvive(s, b.records);
    ManifestSurvives(b.manifest);
  }

  // ----- equal content is all verification looks at

  lemma SameContentUnsigned(a: Record, b: Record)
    requires SameContent(a, b)
    ensures SameUnsigned(a, b)
  {
    forall k ensures SameProperty(Get(Unsigned(a), k), Get(Unsigned(b), k)) {
      StripGet(a, {SIGNATURE, DSSE_ENVELOPE});
      StripGet(b, {SIGNATURE, DSSE_ENVELOPE});
      SameContentGet(a, b, k);
    }
    SameGetsSameContent(Unsigned(a), Unsigned(b));
  }

  lemma SameDigestAndLink(h: HashFn, a: Record, b: Record)
    requires SameContent(a, b)
    ensures Digest(h, a) == Digest(h, b)
    ensures LinkAbsent(a) <==> LinkAbsent(b)
    ensures PrevHash(a).Str? || PrevHash(b).Str? ==> PrevHash(a) == PrevHash(b)
  {
    SameContentUnsigned(a, b);
    DigestFixesContent(h, a, b);
    SameContentGet(a, b, PREV_RECORD_HASH);
  }

  lemma SameCovered(a: Record, b: Record)
    requires SameContent(a, b)
    ensures SameContent(Covered(a), Covered(b))
  {
    forall k ensures SameProperty(Get(Covered(a), k), Get(Covered(b), k)) {
      StripGet(a, {SIGNATURE, DSSE_ENVELOPE, TIMESTAMP_PROOF});
      StripGet(b, {SIGNATURE, DSSE_ENVELOPE, TIMESTAMP_PROOF});
      SameContentGet(a, b, k);
    }
    SameGetsSameContent(Covered(a), Covered(b));
  }

  /** Values of equal content agree as conditions, as texts and, where they are scalars, altogether. */
  lemma SameScalars(v: Value, w: Value)
    requires SameProperty(v, w)
    ensures Truthy(v) <==> Truthy(w)
    ensures v.Str? || w.Str? ==> v == w
    ensures forall x :: Identical(x, v) <==> Identical(x, w)
  {
  }

  lemma SamePropertyGet(v: Value, w: Value, k: Text)
    requires WellFormed(v) && WellFormed(w) && SameContent(v, w)
    ensures SameProperty(Get(v, k), Get(w, k)) && WellFormed(Get(v, k)) && WellFormed(Get(w, k))
  {
    if v.Obj? && w.Obj? {
      SameContentGet(v, w, k);
      GetWellFormed(v, k);
      GetWellFormed(w, k);
    }
  }

  lemma SameFirst(v: Value, w: Value)
    requires WellFormed(v) && WellFormed(w) && SameContent(v, w)
    ensures v.Arr? <==> w.Arr?
    ensures v.Arr? ==> |v.elems| == |w.elems|
    ensures v.Arr? && |v.elems| == 1 ==> SameContent(v.elems[0], w.elems[0]) && WellFormed(v.elems[0]) && WellFormed(w.elems[0])
  {
  }

  /** Two values that are the same text, or neither a text. */
  predicate SameText(v: Value, w: Value) { v.Str? || w.Str? ==> v == w }

  lemma SameTextGet(v: Value, w: Value, k: Text)
    requires WellFormed(v) && WellFormed(w) && SameContent(v, w)
    ensures SameText(Get(v, k), Get(w, k))
  {
    SamePropertyGet(v, w, k);
    SameScalars(Get(v, k), Get(w, k));
  }

  lemma SameEnvelope(c: Crypto, e: Value, f: Value, key: Bytes)
    requires WellFormed(e) && WellFormed(f) && SameContent(e, f)
    ensures VerifyEnvelope(c, e, key) <==> VerifyEnvelope(c, f, key)
    ensures Statement(c, e) == Statement(c, f)
  {
    hide WellFormed, SameContent, Get, Lit, Encode, Pae, Parse, Decode, DecodeBase64Either;
    SamePropertyGet(e, f, SIGNATURES);
    SameTextGet(e, f, PAYLOAD_TYPE);
    SameTextGet(e, f, PAYLOAD);
    var v, w := Get(e, SIGNATURES), Get(f, SIGNATURES);
    SameFirst(v, w);
    if v.Arr? && |v.elems| == 1 {
      SameTextGet(v.elems[0], w.elems[0], SIG);
    }
  }

  /** Reading a property of the signed predicate against the record sees only its content. */
  lemma SameComparisons(st: Value, a: Record, b: Record)
    requires SameContent(a, b)
    ensures var signed, x, y := Get(Spread(Get(st, PREDICATE)), SCHEMA_VERSION), Get(Covered(a), SCHEMA_VERSION), Get(Covered(b), SCHEMA_VERSION);
            (Identical(signed, x) <==> Identical(signed, y)) && (InLegacyWindow(signed, x) <==> InLegacyWindow(signed, y))
    ensures var x, y := Get(Covered(a), RUN_ID), Get(Covered(b), RUN_ID); x.Str? || y.Str? ==> x == y
    ensures CanonicalBytes(Covered(a)) == CanonicalBytes(Covered(b))
    ensures BoundPredicate(st, a) == BoundPredicate(st, b)
  {
    SameCovered(a, b);
    BytesDecideContent(Covered(a), Covered(b));
    hide WellFormed, SameContent, Get, Lit, Covered, CanonicalBytes, Spread, Truthy, Identical;
    SamePropertyGet(Covered(a), Covered(b), SCHEMA_VERSION);
    SamePropertyGet(Covered(a), Covered(b), RUN_ID);
    SameScalars(Get(Covered(a), SCHEMA_VERSION), Get(Covered(b), SCHEMA_VERSION));
    SameScalars(Get(Covered(a), RUN_ID), Get(Covered(b), RUN_ID));
  }

  lemma SameBinding(c: Crypto, a: Record, b: Record)
    requires SameContent(a, b) && Statement(c, Get(a, DSSE_ENVELOPE)) == Statement(c, Get(b, DSSE_ENVELOPE))
    ensures Binding(c, a) == Binding(c, b)
  {
    hide WellFormed, SameContent, Get, Lit, Statement, Covered, CanonicalBytes, Spread, Identical, InLegacyWindow, BoundPredicate, SameProperty;
    if Statement(c, Get(a, DSSE_ENVELOPE)).Some? {
      SameComparisons(Statement(c, Get(a, DSSE_ENVELOPE)).value, a, b);
    }
  }

  /** Records of equal content get the same verdict, whatever the order of their members. */
  lemma SameVerdict(c: Crypto, a: Record, b: Record, key: Bytes)
    requires SameContent(a, b)
    ensures VerifyDetailed(c, a, key) == VerifyDetailed(c, b, key)
  {
    hide WellFormed, SameContent, Get, Binding, VerifyEnvelope, Truthy, Lit, Statement;
    SamePropertyGet(a, b, DSSE_ENVELOPE);
    SamePropertyGet(a, b, SIGNATURE);
    SameScalars(Get(a, DSSE_ENVELOPE), Get(b, DSSE_ENVELOPE));
    SameScalars(Get(a, SIGNATURE), Get(b, SIGNATURE));
    SameEnvelope(c, Get(a, DSSE_ENVELOPE), Get(b, DSSE_ENVELOPE), key);
    SameBinding(c, a, b);
  }

  lemma SameChain(h: HashFn, a: seq<Record>, b: seq<Record>)
    requires SameRecords(a, b) && ChainAcceptable(h, a)
    ensures ChainAcceptable(h, b)
  {
    forall i | 0 <= i < |a|
      ensures Digest(h, a[i]) == Digest(h, b[i]) && (LinkAbsent(a[i]) <==> LinkAbsent(b[i]))
      ensures PrevHash(a[i]).Str? || PrevHash(b[i]).Str? ==> PrevHash(a[i]) == PrevHash(b[i])
    {
      SameDigestAndLink(h, a[i], b[i]);
    }
    hide Digest, PrevHash, SameContent;
    if IsIntact(h, a) {
      forall i | 1 <= i < |b| ensures MatchAt(h, b, i) { assert MatchAt(h, a, i); }
    }
  }

  lemma SameRecordsSymmetric(a: seq<Record>, b: seq<Record>)
    requires SameRecords(a, b)
    ensures SameRecords(b, a)
  {
    hide WellFormed;
    forall i | 0 <= i < |b| ensures SameContent(b[i], a[i]) { SameContentSymmetric(a[i], b[i]); }
  }

  lemma SameContentSymmetric(a: Record, b: Record)
    requires SameContent(a, b)
    ensures SameContent(b, a)
  {
    NormalIffSameContent(a, b);
    NormalIffSameContent(b, a);
  }

  lemma SameContentTransitive(a: Record, b: Record, c: Record)
    requires SameContent(a, b) && SameContent(b, c)
    ensures SameContent(a, c)
  {
    NormalIffSameContent(a, b);
    NormalIffSameContent(b, c);
    NormalIffSameContent(a, c);
  }

  /** A built bundle, serialised and parsed back, verifies exactly when its records are an intact chain,
      or at most one record without a link, and, with a key given, every one of them verifies. */
  lemma BuiltBundleVerifiesIff(c: Crypto, s: RecordSchema, records: seq<Record>, b: Bundle, key: Option<Bytes>)
    requires Lawful(s) && JsonStable(s) && Built(c.sha256, s, records, b)
    ensures var p := ParseBundle(s, Serialize(b));
            p.Some? && (Verifies(c, p.value, key) <==> ChainAcceptable(c.sha256, b.records) && SignaturesAgree(c, b, key))
  {
    hide Lawful, JsonStable, ParseBundle, Serialize, ParseRecords, SameContent, Digest, WellFormed, ComputeBundleDigest,
         ChainAcceptable, Get, Ascending, VerifyDetailed;
    BundleRoundTrip(c.sha256, s, records, b);
    var q := ParseBundle(s, Serialize(b)).value;
    ReparseSucceeds(s, records);
    var rs := ParseRecords(s, records).value;
    forall i | 0 <= i < |rs| ensures DigestAt(c.sha256, q, i) {
      SameContentTransitive(q.records[i], b.records[i], rs[i]);
      SameDigestAndLink(c.sha256, q.records[i], rs[i]);
    }
    if ChainAcceptable(c.sha256, b.records) {
      SameRecordsSymmetric(q.records, b.records);
      SameChain(c.sha256, b.records, q.records);
    }
    if ChainAcceptable(c.sha256, q.records) { SameChain(c.sha256, q.records, b.records); }
    if key.Some? { SameVerdicts(c, q.records, b.records, key.value); }
  }

  lemma SameVerdicts(c: Crypto, a: seq<Record>, b: seq<Record>, key: Bytes)
    requires SameRecords(a, b)
    ensures |a| == |b| && forall i :: 0 <= i < |a| ==> VerifyDetailed(c, a[i], key) == VerifyDetailed(c, b[i], key)
  {
    hide VerifyDetailed, SameContent, WellFormed;
    forall i | 0 <= i < |a| ensures VerifyDetailed(c, a[i], key) == VerifyDetailed(c, b[i], key) { SameVerdict(c, a[i], b[i], key); }
  }

  // ----- validated records

  /** Validating a validated record succeeds and keeps its content. */
  lemma ValidatedParses(s: RecordSchema, r: Record)
    requires Lawful(s) && Validated(s, r)
    ensures var p := ParseRecord(s, r); p.Some? && IsRecord(p.value) && SameContent(p.value, r)
  {
    ParseFieldsSucceeds(s, s.keys, r);
    ParseRecordGet(s, r, []);
    var p: Record := ParseRecord(s, r).value;
    hide Lawful, ParseRecord, WellFormed, SameContent, Find;
    forall k ensures SameProperty(Get(p, k), Get(r, k)) {
      ParseRecordGet(s, r, k);
      GetWellFormed(r, k);
      SameContentReflexive(Get(r, k));
    }
    SameGetsSameContent(p, r);
  }

  lemma {:induction false} ValidatedAllParse(s: RecordSchema, rs: seq<Record>)
    requires Lawful(s) && AllValidated(s, rs)
    ensures var p := ParseRecords(s, rs); p.Some? && SameRecords(p.value, rs)
  {
    hide Lawful, Validated, WellFormed, SameContent, ParseRecord;
    if rs != [] {
      ValidatedParses(s, rs[0]);
      ValidatedAllParse(s, rs[1..]);
    }
  }

  lemma SameRecordsTransitive(a: seq<Record>, b: seq<Record>, c: seq<Record>)
    requires SameRecords(a, b) && SameRecords(b, c)
    ensures SameRecords(a, c)
  {
    hide WellFormed, SameContent;
    forall i | 0 <= i < |a| ensures SameContent(a[i], c[i]) { SameContentTransitive(a[i], b[i], c[i]); }
  }

  /** A bundle of validated records holds records of the same content. */
  lemma BuiltKeepsValidated(h: HashFn, s: RecordSchema, records: seq<Record>, b: Bundle)
    requires Lawful(s) && AllValidated(s, records) && Built(h, s, records, b)
    ensures SameRecords(b.records, records)
  {
    hide Lawful, AllValidated, ParseRecords, SameContent, WellFormed, Describes;
    ValidatedAllParse(s, records);
    ReparseSucceeds(s, records);
    SameRecordsTransitive(b.records, ParseRecords(s, records).value, records);
  }
}
