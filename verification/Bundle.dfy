/** Evidence bundles (packages/aep/src/exportAdapter.ts): building, verifying, and the trip through
    canonical JSON and back. */
module Bundles {
  import opened JsonValue
  import opened KeyOrder
  import opened NormalForm
  import opened JsonParser
  import opened Utf8
  import opened RoundTrip
  import opened Records
  import opened Chain
  import opened Dsse
  import opened Schema
  import opened Ledgers

  const BUNDLE_VERSION := Lit("aep-bundle/v0.1")
  const PRODUCER := Lit("producer")
  const CREATED_AT := Lit("created_at")
  const RECORD_COUNT := Lit("record_count")
  const RUN_IDS := Lit("run_ids")
  const STARTED := Lit("started_at_ms")
  const ENDED := Lit("ended_at_ms")
  const RECORDS := Lit("records")
  const BUNDLE_DIGEST := Lit("bundle_digest")
  const MANIFEST := Lit("manifest")
  const INDEX := Lit("index")

  datatype RecordEntry = RecordEntry(index: int, digest: Text, runId: Text)

  datatype Manifest = Manifest(
    schemaVersion: Text, producer: Text, createdAt: Text, recordCount: int, runIds: seq<Text>,
    startedAtMs: int, endedAtMs: int, entries: seq<RecordEntry>, bundleDigest: Text)

  datatype Bundle = Bundle(schemaVersion: Text, manifest: Manifest, records: seq<Record>)

  // ----- as JSON

  function EntryValue(e: RecordEntry): Value {
    Obj([Entry(INDEX, Num(e.index)), Entry(DIGEST, Str(e.digest)), Entry(RUN_ID, Str(e.runId))])
  }

  function EntryValues(es: seq<RecordEntry>): (r: seq<Value>)
    ensures |r| == |es| && forall i :: 0 <= i < |es| ==> r[i] == EntryValue(es[i])
  {
    seq(|es|, i requires 0 <= i < |es| => EntryValue(es[i]))
  }

  function ManifestFields(m: Manifest): seq<Entry<Value>> {
    [Entry(SCHEMA_VERSION, Str(m.schemaVersion)), Entry(PRODUCER, Str(m.producer)), Entry(CREATED_AT, Str(m.createdAt)),
     Entry(RECORD_COUNT, Num(m.recordCount)), Entry(RUN_IDS, Arr(TextValues(m.runIds))), Entry(STARTED, Num(m.startedAtMs)),
     Entry(ENDED, Num(m.endedAtMs)), Entry(RECORDS, Arr(EntryValues(m.entries)))]
  }

  /** The manifest with `bundle_digest` taken out, and with it. */
  function ManifestBase(m: Manifest): Value { Obj(ManifestFields(m)) }

  function ManifestValue(m: Manifest): Value { Obj(ManifestFields(m) + [Entry(BUNDLE_DIGEST, Str(m.bundleDigest))]) }

  function BundleValue(b: Bundle): Value {
    Obj([Entry(SCHEMA_VERSION, Str(b.schemaVersion)), Entry(MANIFEST, ManifestValue(b.manifest)),
         Entry(RECORDS, Arr(b.records))])
  }

  /** `serializeEvidenceBundle`. */
  function Serialize(b: Bundle): Text { Decode(CanonicalBytes(BundleValue(b))) }

  // ----- reading back

  function ReadEntry(v: Value): Option<RecordEntry> {
    var i, d, r := Get(v, INDEX), Get(v, DIGEST), Get(v, RUN_ID);
    if i.Num? && i.n >= 0 && d.Str? && r.Str? then Some(RecordEntry(i.n, d.s, r.s)) else None
  }

  function ReadEntries(vs: seq<Value>): Option<seq<RecordEntry>> {
    if vs == [] then Some([])
    else match (ReadEntry(vs[0]), ReadEntries(vs[1..]))
      case (Some(e), Some(es)) => Some([e] + es)
      case _ => None
  }

  function ReadTexts(vs: seq<Value>): Option<seq<Text>> {
    if vs == [] then Some([])
    else match (vs[0], ReadTexts(vs[1..]))
      case (Str(t), Some(ts)) => Some([t] + ts)
      case _ => None
  }

  /** `EvidenceBundleManifestSchema.parse`. */
  function ReadManifest(v: Value): Option<Manifest> {
    var version, producer, createdAt, count := Get(v, SCHEMA_VERSION), Get(v, PRODUCER), Get(v, CREATED_AT), Get(v, RECORD_COUNT);
    var ids, started, ended, records, digest := Get(v, RUN_IDS), Get(v, STARTED), Get(v, ENDED), Get(v, RECORDS), Get(v, BUNDLE_DIGEST);
    if version == Str(BUNDLE_VERSION) && producer.Str? && createdAt.Str? && count.Num? && count.n >= 0
       && ids.Arr? && started.Num? && ended.Num? && records.Arr? && digest.Str? then
      match (ReadTexts(ids.elems), ReadEntries(records.elems))
      case (Some(ts), Some(es)) =>
        Some(Manifest(version.s, producer.s, createdAt.s, count.n, ts, started.n, ended.n, es, digest.s))
      case _ => None
    else None
  }

  /** Each record through `AEPRecordSchema.parse`, or an error. */
  function ParseRecords(s: RecordSchema, vs: seq<Value>): Option<seq<Record>> {
    if vs == [] then Some([])
    else if !IsRecord(vs[0]) then None
    else match (ParseRecord(s, vs[0]), ParseRecords(s, vs[1..]))
      case (Some(r), Some(rs)) => if IsRecord(r) then Some([r] + rs) else None
      case _ => None
  }

  /** `parseEvidenceBundle`. */
  function ParseBundle(s: RecordSchema, json: Text): Option<Bundle> {
    match Parse(json)
    case None => None
    case Some(v) =>
      var records := Get(v, RECORDS);
      if Get(v, SCHEMA_VERSION) != Str(BUNDLE_VERSION) || !records.Arr? then None
      else match (ReadManifest(Get(v, MANIFEST)), ParseRecords(s, records.elems))
        case (Some(m), Some(rs)) => Some(Bundle(BUNDLE_VERSION, m, rs))
        case _ => None
  }

  // ----- building

  function ComputeBundleDigest(h: HashFn, m: Manifest): Text { h(CanonicalBytes(ManifestBase(m))) }

  function EntriesFor(h: HashFn, rs: seq<Record>): (es: seq<RecordEntry>)
    ensures |es| == |rs|
    ensures forall i :: 0 <= i < |rs| ==> es[i] == RecordEntry(i, Digest(h, rs[i]), TextOf(Get(rs[i], RUN_ID)))
  {
    seq(|rs|, i requires 0 <= i < |rs| => RecordEntry(i, Digest(h, rs[i]), TextOf(Get(rs[i], RUN_ID))))
  }

  /** Exactly the run ids that occur, each once, in order. */
  ghost predicate NamesRuns(rs: seq<Record>, ids: seq<Text>) {
    Ascending(ids) && forall t :: t in ids <==> exists i :: 0 <= i < |rs| && TextOf(Get(rs[i], RUN_ID)) == t
  }

  /** What a manifest says about the records it was built from. */
  ghost predicate Describes(h: HashFn, m: Manifest, rs: seq<Record>) {
    && m.schemaVersion == BUNDLE_VERSION && m.recordCount == |rs| && m.entries == EntriesFor(h, rs)
    && m.bundleDigest == ComputeBundleDigest(h, m)
    && NamesRuns(rs, m.runIds) && TimesSpan(rs, m.startedAtMs, m.endedAtMs)
  }

  method TimesOf(rs: seq<Record>) returns (lo: int, hi: int)
    ensures TimesSpan(rs, lo, hi)
  {
    hide Get, IntOf;
    lo, hi := 0, 0;
    if rs != [] { lo, hi := TimeRange(rs); }
  }

  method RunsOf(rs: seq<Record>) returns (ids: seq<Text>)
    ensures NamesRuns(rs, ids)
  {
    hide Get, TextOf, SortKeys, Less;
    var found := DistinctRunIds(rs);
    ids := SortKeys(found);
    SortAscending(found);
    SameMembers(ids, found);
  }

  /** The manifest of normalised records. */
  method DescribeRecords(h: HashFn, rs: seq<Record>, producer: Text, createdAt: Text) returns (m: Manifest)
    ensures Describes(h, m, rs) && m.producer == producer && m.createdAt == createdAt
  {
    hide TimesSpan, NamesRuns, EntriesFor, ComputeBundleDigest;
    var started, ended := TimesOf(rs);
    var ids := RunsOf(rs);
    m := Manifest(BUNDLE_VERSION, producer, createdAt, |rs|, ids, started, ended, EntriesFor(h, rs), []);
    BaseIgnoresDigest(h, m.(bundleDigest := ComputeBundleDigest(h, m)));
    m := m.(bundleDigest := ComputeBundleDigest(h, m));
  }

  /** `buildEvidenceBundle`: records are normalised, described, and normalised again by the final
      validation. It fails exactly when a record does not validate. */
  method BuildEvidenceBundle(h: HashFn, s: RecordSchema, records: seq<Record>, producer: Text, createdAt: Text)
    returns (b: Option<Bundle>)
    requires Lawful(s)
    ensures b.Some? <==> ParseRecords(s, records).Some?
    ensures b.Some? ==> Built(h, s, records, b.value) && b.value.manifest.producer == producer && b.value.manifest.createdAt == createdAt
  {
    hide Describes, ParseRecord, Lawful, WellFormed;
    var normalised := ParseRecords(s, records);
    if normalised.None? { return None; }
    var m := DescribeRecords(h, normalised.value, producer, createdAt);
    ReparseSucceeds(s, records);
    return Some(Bundle(BUNDLE_VERSION, m, ParseRecords(s, normalised.value).value));
  }

  lemma BaseIgnoresDigest(h: HashFn, m: Manifest)
    ensures ComputeBundleDigest(h, m.(bundleDigest := [])) == ComputeBundleDigest(h, m)
  {
    assert ManifestFields(m.(bundleDigest := [])) == ManifestFields(m);
  }

  /** A bundle `buildEvidenceBundle` can return for these records. */
  ghost predicate Built(h: HashFn, s: RecordSchema, records: seq<Record>, b: Bundle) {
    var parsed := ParseRecords(s, records);
    && parsed.Some? && b.schemaVersion == BUNDLE_VERSION
    && Describes(h, b.manifest, parsed.value)
    && ParseRecords(s, parsed.value) == Some(b.records)
  }

  // ----- normalising again

  lemma ParsedAgain(s: RecordSchema, r: Record)
    requires Lawful(s) && ParseRecord(s, r).Some?
    ensures IsRecord(ParseRecord(s, r).value)
    ensures var n := ParseRecord(s, r).value;
            var again := ParseRecord(s, n);
            again.Some? && IsRecord(again.value) && SameContent(again.value, n)
  {
    ParseRecordGet(s, r, []);
    var n: Record := ParseRecord(s, r).value;
    forall k | k in s.keys ensures s.field(k, Get(n, k)) == Some(Get(n, k)) { ParseRecordIdempotent(s, r, k); }
    ParseFieldsSucceeds(s, s.keys, n);
    ParseRecordGet(s, n, []);
    var again: Record := ParseRecord(s, n).value;
    forall k ensures SameProperty(Get(again, k), Get(n, k)) {
      ParseRecordGet(s, n, k);
      ParseRecordGet(s, r, k);
      GetWellFormed(n, k);
      SameContentReflexive(Get(n, k));
      hide Lawful, ParseRecord, WellFormed, SameContent, Find;
    }
    SameGetsSameContent(again, n);
  }

  lemma {:induction false} ReparseSucceeds(s: RecordSchema, vs: seq<Value>)
    requires Lawful(s) && ParseRecords(s, vs).Some?
    ensures var rs := ParseRecords(s, vs).value;
            var again := ParseRecords(s, rs);
            |rs| == |vs| && again.Some? && |again.value| == |rs|
            && forall i :: 0 <= i < |rs| ==> SameContent(again.value[i], rs[i])
  {
    if vs != [] {
      ParsedAgain(s, vs[0]);
      ReparseSucceeds(s, vs[1..]);
      var rs := ParseRecords(s, vs).value;
      assert rs[1..] == ParseRecords(s, vs[1..]).value;
      hide Lawful, ParseRecord, WellFormed, SameContent;
    }
  }

  // ----- verifying

  datatype BundleResult = BundleResult(
    valid: bool, bundleDigestValid: bool, recordDigestsValid: bool, recordCountValid: bool,
    chainValid: bool, chainStatus: ChainStatus, brokenRecordAt: Option<nat>, brokenChainAt: Option<nat>)

  predicate CountsAgree(b: Bundle) { b.manifest.recordCount == |b.records| && |b.manifest.entries| == |b.records| }

  predicate DigestAt(h: HashFn, b: Bundle, i: nat) {
    i < |b.records| && i < |b.manifest.entries| && b.manifest.entries[i].digest == Digest(h, b.records[i])
  }

  predicate DigestsAgree(h: HashFn, b: Bundle) { forall i :: 0 <= i < |b.records| ==> DigestAt(h, b, i) }

  predicate ManifestAgrees(h: HashFn, b: Bundle) { ComputeBundleDigest(h, b.manifest) == b.manifest.bundleDigest }

  /** An intact chain, or at most one record and no link. */
  predicate ChainAcceptable(h: HashFn, rs: seq<Record>) {
    IsIntact(h, rs) || (|rs| <= 1 && IsNotPresent(rs))
  }

  predicate SignaturesAgree(c: Crypto, b: Bundle, key: Option<Bytes>) {
    key.Some? ==> forall i :: 0 <= i < |b.records| ==> VerifyDetailed(c, b.records[i], key.value).valid
  }

  /** Everything a verifying bundle satisfies. */
  predicate Verifies(c: Crypto, b: Bundle, key: Option<Bytes>) {
    CountsAgree(b) && DigestsAgree(c.sha256, b) && ManifestAgrees(c.sha256, b) && ChainAcceptable(c.sha256, b.records)
    && SignaturesAgree(c, b, key)
  }

  /** `verifyEvidenceBundle`: each flag exactly, and the first bad digest and link. */
  method VerifyEvidenceBundle(c: Crypto, b: Bundle, key: Option<Bytes>) returns (r: BundleResult)
    ensures r.valid <==> Verifies(c, b, key)
    ensures r.recordCountValid <==> CountsAgree(b)
    ensures r.recordDigestsValid <==> DigestsAgree(c.sha256, b)
    ensures r.bundleDigestValid <==> ManifestAgrees(c.sha256, b)
    ensures r.chainValid <==> ChainAcceptable(c.sha256, b.records)
    ensures r.brokenRecordAt.Some? <==> !r.recordDigestsValid
    ensures r.brokenRecordAt.Some? ==>
              var k := r.brokenRecordAt.value;
              k < |b.records| && !DigestAt(c.sha256, b, k) && forall i :: 0 <= i < k ==> DigestAt(c.sha256, b, i)
    ensures Classifies(c.sha256, b.records, ChainResult(r.chainStatus != Broken, r.chainStatus, r.brokenChainAt))
  {
    hide Digest, ComputeBundleDigest, VerifyDetailed, BadLink, MatchAt, LinkAbsent;
    var digestsValid, brokenRecordAt := true, None;
    var i := 0;
    while i < |b.records|
      invariant 0 <= i <= |b.records|
      invariant digestsValid && brokenRecordAt == None
      invariant forall j :: 0 <= j < i ==> DigestAt(c.sha256, b, j)
    {
      if i >= |b.manifest.entries| || b.manifest.entries[i].digest != Digest(c.sha256, b.records[i]) {
        assert !DigestAt(c.sha256, b, i);
        digestsValid, brokenRecordAt := false, Some(i);
        break;
      }
      i := i + 1;
    }
    var chain := VerifyAEPChain(c.sha256, b.records);
    var chainValid := chain.status == Intact || (chain.status == NotPresent && |b.records| <= 1);
    var sigsOk := true;
    if key.Some? {
      for k := 0 to |b.records|
        invariant sigsOk <==> forall j :: 0 <= j < k ==> VerifyDetailed(c, b.records[j], key.value).valid
      {
        if !VerifyDetailed(c, b.records[k], key.value).valid { sigsOk := false; }
      }
    }
    var countValid, manifestValid := CountsAgree(b), ManifestAgrees(c.sha256, b);
    return BundleResult(countValid && digestsValid && manifestValid && chainValid && sigsOk,
                        manifestValid, digestsValid, countValid, chainValid, chain.status, brokenRecordAt, chain.brokenAt);
  }
}
