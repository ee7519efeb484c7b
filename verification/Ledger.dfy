/** The hash-chained ledger (packages/aep/src/ledger.ts): sequence numbers and links, compaction
    proofs, and what an accepted proof or an equal head says about the records. */
module Ledgers {
  import opened JsonValue
  import opened RoundTrip
  import opened Utf8
  import opened Records
  import opened Hashes
  import opened Rollups

  datatype LedgerRecord = LedgerRecord(seqNo: nat, prevHash: Text, record: Record, hash: Text)

  const SEQ := Lit("seq")
  const PREV_HASH := Lit("prevHash")
  const RECORD := Lit("record")

  /** The record with `hash` taken out. */
  function LedgerValue(seqNo: nat, prevHash: Text, record: Record): Value {
    Obj([Entry(SEQ, Num(seqNo)), Entry(PREV_HASH, Str(prevHash)), Entry(RECORD, record)])
  }

  function LedgerBytes(lr: LedgerRecord): Bytes {
    CanonicalBytes(LedgerValue(lr.seqNo, lr.prevHash, lr.record))
  }

  /** `hashLedgerRecord`. */
  function HashLedgerRecord(h: HashFn, lr: LedgerRecord): Text { h(LedgerBytes(lr)) }

  function PrevHashAt(rs: seq<LedgerRecord>, i: nat): Text
    requires i <= |rs|
  {
    if i == 0 then [] else rs[i - 1].hash
  }

  /** Sequence numbers are positions, links point back, and hashes are true. */
  predicate Valid(h: HashFn, rs: seq<LedgerRecord>) {
    forall i :: 0 <= i < |rs| ==> ValidAt(h, rs, i)
  }

  predicate ValidAt(h: HashFn, rs: seq<LedgerRecord>, i: nat)
    requires i < |rs|
  {
    rs[i].seqNo == i && rs[i].prevHash == PrevHashAt(rs, i) && rs[i].hash == HashLedgerRecord(h, rs[i])
  }

  // ----- content of ledger records

  lemma LedgerValueGets(n: nat, p: Text, r: Record)
    ensures IsRecord(LedgerValue(n, p, r))
    ensures Get(LedgerValue(n, p, r), SEQ) == Num(n) && Get(LedgerValue(n, p, r), PREV_HASH) == Str(p)
    ensures Get(LedgerValue(n, p, r), RECORD) == r
  {
    assert |SEQ| == 3 && |PREV_HASH| == 8 && |RECORD| == 6;
    var ms := LedgerValue(n, p, r).members;
    assert Distinct(Keys(ms));
    FindAt(ms, 0);
    FindAt(ms, 1);
    FindAt(ms, 2);
  }

  predicate LedgerCollide(h: HashFn, a: LedgerRecord, b: LedgerRecord) { Collide(h, LedgerBytes(a), LedgerBytes(b)) }

  predicate SameLedgerRecord(a: LedgerRecord, b: LedgerRecord) {
    a.seqNo == b.seqNo && a.prevHash == b.prevHash && SameContent(a.record, b.record)
  }

  /** Equal ledger hashes mean equal sequence number, link and record content, or a collision. */
  lemma LedgerHashFixes(h: HashFn, a: LedgerRecord, b: LedgerRecord)
    requires HashLedgerRecord(h, a) == HashLedgerRecord(h, b)
    ensures SameLedgerRecord(a, b) || LedgerCollide(h, a, b)
  {
    if !LedgerCollide(h, a, b) {
      var x, y := LedgerValue(a.seqNo, a.prevHash, a.record), LedgerValue(b.seqNo, b.prevHash, b.record);
      LedgerValueGets(a.seqNo, a.prevHash, a.record);
      LedgerValueGets(b.seqNo, b.prevHash, b.record);
      BytesDecideContent(x, y);
      hide LedgerValue, CanonicalBytes, Find, Lit;
      SameContentGet(x, y, SEQ);
      SameContentGet(x, y, PREV_HASH);
      SameContentGet(x, y, RECORD);
    }
  }

  // ----- the head fixes the whole ledger

  ghost predicate LedgerCollision(h: HashFn, a: seq<LedgerRecord>, b: seq<LedgerRecord>) {
    exists x, y :: x in a && y in b && LedgerCollide(h, x, y)
  }

  predicate SameLedger(a: seq<LedgerRecord>, b: seq<LedgerRecord>) {
    |a| == |b| && forall i :: 0 <= i < |a| ==> SameLedgerRecord(a[i], b[i])
  }

  lemma PrefixValid(h: HashFn, rs: seq<LedgerRecord>, n: nat)
    requires Valid(h, rs) && n <= |rs|
    ensures Valid(h, rs[..n])
  {
    hide HashLedgerRecord;
    forall i | 0 <= i < n ensures ValidAt(h, rs[..n], i) { assert ValidAt(h, rs, i); }
  }

  /** Two valid ledgers with equal last hashes are the same ledger, or two records collide. */
  lemma {:induction false} HeadFixesLedger(h: HashFn, a: seq<LedgerRecord>, b: seq<LedgerRecord>)
    requires Valid(h, a) && Valid(h, b) && a != [] && b != []
    requires a[|a| - 1].hash == b[|b| - 1].hash
    ensures SameLedger(a, b) || LedgerCollision(h, a, b)
  {
    hide HashLedgerRecord, LedgerCollide, SameContent;
    var x, y := a[|a| - 1], b[|b| - 1];
    assert ValidAt(h, a, |a| - 1) && ValidAt(h, b, |b| - 1);
    LedgerHashFixes(h, x, y);
    if !LedgerCollide(h, x, y) && |a| > 1 {
      PrefixValid(h, a, |a| - 1);
      PrefixValid(h, b, |b| - 1);
      HeadFixesLedger(h, a[..|a| - 1], b[..|b| - 1]);
    }
  }

  // ----- the class

  function NextRecord(h: HashFn, rs: seq<LedgerRecord>, record: Record): LedgerRecord {
    var prev := PrevHashAt(rs, |rs|);
    LedgerRecord(|rs|, prev, record, HashLedgerRecord(h, LedgerRecord(|rs|, prev, record, [])))
  }

  lemma AppendValid(h: HashFn, rs: seq<LedgerRecord>, record: Record)
    requires Valid(h, rs)
    ensures Valid(h, rs + [NextRecord(h, rs, record)])
  {
    var next := NextRecord(h, rs, record);
    assert HashLedgerRecord(h, LedgerRecord(|rs|, next.prevHash, record, [])) == HashLedgerRecord(h, next);
    hide HashLedgerRecord;
    var qs := rs + [next];
    forall i | 0 <= i < |qs| ensures ValidAt(h, qs, i) {
      if i < |rs| { assert ValidAt(h, rs, i); }
    }
  }

  datatype CompactionResult = CompactionResult(
    fromSeq: int, toSeq: int, recordCount: nat, proofHash: Text,
    firstRecordHash: Text, firstRecordPrevHash: Text, lastRecordHash: Text,
    toolRollups: seq<ToolCallRollup>, startedAtMs: int, endedAtMs: int, runIds: seq<Text>)

  /** `records.filter((lr) => lr.seq >= lo && lr.seq <= hi)`. */
  function InRange(rs: seq<LedgerRecord>, lo: int, hi: int): seq<LedgerRecord> {
    if rs == [] then []
    else
      var front, last := InRange(rs[..|rs| - 1], lo, hi), rs[|rs| - 1];
      if lo <= last.seqNo <= hi then front + [last] else front
  }

  function HashList(rs: seq<LedgerRecord>): (r: seq<seq<int>>)
    ensures |r| == |rs| && forall i :: 0 <= i < |rs| ==> r[i] == rs[i].hash
  {
    seq(|rs|, i requires 0 <= i < |rs| => rs[i].hash)
  }

  function Ascii7(t: seq<int>): Bytes {
    seq(|t|, i requires 0 <= i < |t| => if 0 <= t[i] < 0x80 then t[i] else 0)
  }

  /** The bytes `computeProofHash` hashes: the hex digests one after the other. */
  function ProofBytes(rs: seq<LedgerRecord>): Bytes { Ascii7(Join(HashList(rs))) }

  /** `computeProofHash`. */
  function ComputeProofHash(h: HashFn, rs: seq<LedgerRecord>): Text { h(ProofBytes(rs)) }

  /** `verifyCompaction`. */
  predicate VerifyCompaction(h: HashFn, rs: seq<LedgerRecord>, c: CompactionResult) {
    var range := InRange(rs, c.fromSeq, c.toSeq);
    && |range| == c.recordCount
    && ComputeProofHash(h, range) == c.proofHash
    && range != []
    && range[0].hash == c.firstRecordHash
    && range[0].prevHash == c.firstRecordPrevHash
    && range[|range| - 1].hash == c.lastRecordHash
  }

  datatype CompactionError = NothingToCompact | TooFewRecords | EmptyRange

  datatype Compaction = Compacted(result: CompactionResult) | Rejected(error: CompactionError)

  /** In a valid ledger the records up to a sequence number are a prefix. */
  lemma {:induction false} RangeIsPrefix(h: HashFn, rs: seq<LedgerRecord>, hi: int)
    requires Valid(h, rs)
    ensures hi < 0 ==> InRange(rs, 0, hi) == []
    ensures hi >= 0 ==> InRange(rs, 0, hi) == rs[..if hi + 1 < |rs| then hi + 1 else |rs|]
  {
    hide HashLedgerRecord;
    if rs != [] {
      PrefixValid(h, rs, |rs| - 1);
      RangeIsPrefix(h, rs[..|rs| - 1], hi);
      assert ValidAt(h, rs, |rs| - 1);
      hide Valid;
      if hi >= 0 && hi + 1 < |rs| {
        assert rs[..|rs| - 1][..hi + 1] == rs[..hi + 1];
      } else if hi >= 0 {
        assert rs[..|rs| - 1] + [rs[|rs| - 1]] == rs && rs[..|rs|] == rs;
        assert rs[..|rs| - 1][..|rs| - 1] == rs[..|rs| - 1];
      }
    }
  }

  class Ledger {
    const h: HashFn
    var records: seq<LedgerRecord>

    constructor (h: HashFn)
      ensures this.h == h && records == [] && Valid(h, records)
    {
      this.h := h;
      records := [];
    }

    /** `append`: a record without a signature is refused and nothing changes. */
    method Append(record: Record) returns (r: Option<LedgerRecord>)
      requires Valid(h, records)
      modifies this
      ensures Valid(h, records)
      ensures Truthy(Get(record, SIGNATURE)) ==>
                r == Some(NextRecord(h, old(records), record)) && records == old(records) + [r.value]
      ensures !Truthy(Get(record, SIGNATURE)) ==> r == None && records == old(records)
    {
      if !Truthy(Get(record, SIGNATURE)) { return None; }
      var seqNo := |records|;
      var prevHash := if seqNo == 0 then [] else records[seqNo - 1].hash;
      var ledgerRecord := LedgerRecord(seqNo, prevHash, record, []);
      ledgerRecord := ledgerRecord.(hash := HashLedgerRecord(h, ledgerRecord));
      AppendValid(h, records, record);
      records := records + [ledgerRecord];
      return Some(ledgerRecord);
    }

    /** `compact`: read-only. Which requests are refused, and what an accepted one returns. */
    method Compact(upToSeq: Option<int>, minRecords: Option<int>) returns (c: Compaction)
      requires Valid(h, records)
      ensures var hi := if upToSeq.Some? then upToSeq.value else |records| - 1;
              var n := if hi + 1 < |records| then hi + 1 else |records|;
              && (c == Rejected(NothingToCompact) <==> hi < 0)
              && (hi >= 0 && n < (if minRecords.Some? then minRecords.value else 2) ==> c == Rejected(TooFewRecords))
              && (hi >= 0 && n == 0 && n >= (if minRecords.Some? then minRecords.value else 2) ==> c == Rejected(EmptyRange))
              && (c.Compacted? ==> CompactedPrefix(h, records, n, c.result) && DescribesRange(c.result, RecordsOf(records[..n])))
              && (c.Compacted? <==> hi >= 0 && n >= 1 && n >= (if minRecords.Some? then minRecords.value else 2))
    {
      hide HashLedgerRecord, InRange, ComputeProofHash, DescribesRange;
      var hi := if upToSeq.Some? then upToSeq.value else |records| - 1;
      var min := if minRecords.Some? then minRecords.value else 2;
      if hi < 0 { return Rejected(NothingToCompact); }
      var compacted := InRange(records, 0, hi);
      RangeIsPrefix(h, records, hi);
      if |compacted| < min { return Rejected(TooFewRecords); }
      if compacted == [] { return Rejected(EmptyRange); }
      assert ValidAt(h, records, 0) && ValidAt(h, records, |compacted| - 1);
      var result := Summarise(h, compacted);
      return Compacted(result);
    }
  }

  function RecordsOf(range: seq<LedgerRecord>): (rs: seq<Record>)
    ensures |rs| == |range| && forall i :: 0 <= i < |range| ==> rs[i] == range[i].record
  {
    seq(|range|, i requires 0 <= i < |range| => range[i].record)
  }

  /** The least and greatest creation times, or zeros for no records. */
  ghost predicate TimesSpan(rs: seq<Record>, lo: int, hi: int) {
    && (rs == [] ==> lo == 0 && hi == 0)
    && (forall i :: 0 <= i < |rs| ==> lo <= IntOf(Get(rs[i], CREATED_AT_MS)) <= hi)
    && (rs != [] ==> exists i :: 0 <= i < |rs| && IntOf(Get(rs[i], CREATED_AT_MS)) == lo)
    && (rs != [] ==> exists i :: 0 <= i < |rs| && IntOf(Get(rs[i], CREATED_AT_MS)) == hi)
  }

  /** Each run id once, in order of first appearance. */
  function RunIds(rs: seq<Record>): seq<Text> {
    if rs == [] then [] else AddKey(RunIds(rs[..|rs| - 1]), TextOf(Get(rs[|rs| - 1], RUN_ID)))
  }

  /** The descriptive part of a compaction. */
  ghost predicate DescribesRange(c: CompactionResult, rs: seq<Record>) {
    AreRollups(c.toolRollups, rs) && TimesSpan(rs, c.startedAtMs, c.endedAtMs) && c.runIds == RunIds(rs)
  }

  /** The summary of a non-empty range: proof, end points, rollups, time range and run ids. */
  method Summarise(h: HashFn, range: seq<LedgerRecord>) returns (c: CompactionResult)
    requires range != []
    ensures c.fromSeq == range[0].seqNo && c.toSeq == range[|range| - 1].seqNo && c.recordCount == |range|
    ensures c.proofHash == ComputeProofHash(h, range)
    ensures c.firstRecordHash == range[0].hash && c.firstRecordPrevHash == range[0].prevHash
    ensures c.lastRecordHash == range[|range| - 1].hash
    ensures DescribesRange(c, RecordsOf(range))
  {
    hide ComputeProofHash, AreRollups, TimesSpan, RunIds;
    var rs := RecordsOf(range);
    var rollups := BuildToolRollups(rs);
    var started, ended := TimeRange(rs);
    var runIds := DistinctRunIds(rs);
    var first, last := range[0], range[|range| - 1];
    return CompactionResult(first.seqNo, last.seqNo, |range|, ComputeProofHash(h, range),
                            first.hash, first.prevHash, last.hash, rollups, started, ended, runIds);
  }

  /** The verifiable part of a compaction of the first `n` records. */
  predicate CompactedPrefix(h: HashFn, rs: seq<LedgerRecord>, n: int, c: CompactionResult) {
    1 <= n <= |rs|
    && c.fromSeq == 0 && c.toSeq == n - 1 && c.recordCount == n
    && c.proofHash == ComputeProofHash(h, rs[..n])
    && c.firstRecordHash == rs[0].hash && c.firstRecordPrevHash == rs[0].prevHash && c.lastRecordHash == rs[n - 1].hash
  }

  /** `Math.min` and `Math.max` over the timestamps. */
  method TimeRange(rs: seq<Record>) returns (lo: int, hi: int)
    requires rs != []
    ensures TimesSpan(rs, lo, hi)
  {
    hide Get, IntOf;
    var first := IntOf(Get(rs[0], CREATED_AT_MS));
    lo, hi := first, first;
    for k := 1 to |rs|
      invariant forall i :: 0 <= i < k ==> lo <= IntOf(Get(rs[i], CREATED_AT_MS)) <= hi
      invariant exists i :: 0 <= i < k && IntOf(Get(rs[i], CREATED_AT_MS)) == lo
      invariant exists i :: 0 <= i < k && IntOf(Get(rs[i], CREATED_AT_MS)) == hi
    {
      var t := IntOf(Get(rs[k], CREATED_AT_MS));
      if t < lo { lo := t; }
      if t > hi { hi := t; }
    }
  }

  /** `[...new Set(runIds)]`: each run id once, in order of first appearance. */
  method DistinctRunIds(rs: seq<Record>) returns (ids: seq<Text>)
    ensures ids == RunIds(rs) && Distinct(ids)
    ensures forall t :: t in ids <==> exists i :: 0 <= i < |rs| && TextOf(Get(rs[i], RUN_ID)) == t
  {
    hide Get, TextOf, Lit;
    ids := [];
    assert rs[..|rs|] == rs;
    for k := 0 to |rs|
      invariant ids == RunIds(rs[..k]) && Distinct(ids)
      invariant forall t :: t in ids <==> exists i :: 0 <= i < k && TextOf(Get(rs[i], RUN_ID)) == t
    {
      assert rs[..k + 1][..k] == rs[..k];
      var t := TextOf(Get(rs[k], RUN_ID));
      if t !in ids { ids := ids + [t]; }
    }
  }

  // ----- compaction proofs

  /** A compaction passes verification at once and after any later appends. */
  lemma CompactionStaysValid(h: HashFn, rs: seq<LedgerRecord>, more: seq<LedgerRecord>, n: nat, c: CompactionResult)
    requires Valid(h, rs + more) && CompactedPrefix(h, rs, n, c)
    ensures VerifyCompaction(h, rs + more, c)
  {
    RangeIsPrefix(h, rs + more, c.toSeq);
    assert (rs + more)[..n] == rs[..n];
    hide ComputeProofHash, InRange;
  }

  lemma {:induction false} JoinAscii(parts: seq<seq<int>>)
    requires forall i :: 0 <= i < |parts| ==> forall j :: 0 <= j < |parts[i]| ==> 0 <= parts[i][j] < 0x80
    ensures Ascii7(Join(parts)) == Join(parts)
  {
    if parts != [] {
      JoinAscii(parts[1..]);
      var t, rest := Join(parts), Join(parts[1..]);
      forall i | 0 <= i < |t| ensures 0 <= t[i] < 0x80 {
        if i >= |parts[0]| { assert t[i] == rest[i - |parts[0]|] && Ascii7(rest)[i - |parts[0]|] == rest[i - |parts[0]|]; }
      }
    }
  }

  lemma {:induction false} RangeValid(h: HashFn, rs: seq<LedgerRecord>, lo: int, hi: int)
    requires Valid(h, rs)
    ensures forall x :: x in InRange(rs, lo, hi) ==> x in rs && x.hash == HashLedgerRecord(h, x)
  {
    hide HashLedgerRecord;
    if rs != [] {
      PrefixValid(h, rs, |rs| - 1);
      RangeValid(h, rs[..|rs| - 1], lo, hi);
      assert ValidAt(h, rs, |rs| - 1);
    }
  }

  /** Two ledgers that accept the same compaction hold the same records in that range, or two ledger
      records collide, or the two proofs' inputs collide. */
  lemma AcceptedCompactionFixesRange(h: HashFn, a: seq<LedgerRecord>, b: seq<LedgerRecord>, c: CompactionResult)
    requires HexHash(h) && Valid(h, a) && Valid(h, b)
    requires VerifyCompaction(h, a, c) && VerifyCompaction(h, b, c)
    ensures var x, y := InRange(a, c.fromSeq, c.toSeq), InRange(b, c.fromSeq, c.toSeq);
            SameLedger(x, y) || LedgerCollision(h, x, y) || Collide(h, ProofBytes(x), ProofBytes(y))
  {
    hide HashLedgerRecord, LedgerCollide, SameLedgerRecord, InRange, HexHash, ProofBytes, Valid;
    var x, y := InRange(a, c.fromSeq, c.toSeq), InRange(b, c.fromSeq, c.toSeq);
    RangeValid(h, a, c.fromSeq, c.toSeq);
    RangeValid(h, b, c.fromSeq, c.toSeq);
    if ProofBytes(x) == ProofBytes(y) {
      ProofFixesHashes(h, x, y);
      forall i | 0 <= i < |x| ensures SameLedgerRecord(x[i], y[i]) || LedgerCollide(h, x[i], y[i]) {
        assert x[i] in x && y[i] in y;
        LedgerHashFixes(h, x[i], y[i]);
      }
    }
  }

  lemma ProofText(h: HashFn, x: seq<LedgerRecord>)
    requires HexHash(h) && forall r :: r in x ==> r.hash == HashLedgerRecord(h, r)
    ensures ProofBytes(x) == Join(HashList(x)) && |h([])| > 0
    ensures forall i :: 0 <= i < |x| ==> |HashList(x)[i]| == |h([])|
  {
    hide LedgerBytes, Join;
    forall i | 0 <= i < |x| ensures |x[i].hash| == |h([])| && IsHex(x[i].hash) {
      assert x[i] in x && IsHex(h(LedgerBytes(x[i]))) && |h(LedgerBytes(x[i]))| == |h([])|;
    }
    assert IsHex(h([])) && |h([])| == |h([])|;
    JoinAscii(HashList(x));
  }

  lemma ProofFixesHashes(h: HashFn, x: seq<LedgerRecord>, y: seq<LedgerRecord>)
    requires HexHash(h) && ProofBytes(x) == ProofBytes(y)
    requires (forall r :: r in x ==> r.hash == HashLedgerRecord(h, r)) && (forall r :: r in y ==> r.hash == HashLedgerRecord(h, r))
    ensures |x| == |y| && forall i :: 0 <= i < |x| ==> x[i].hash == y[i].hash
  {
    var n := |h([])|;
    ProofText(h, x);
    ProofText(h, y);
    hide HashLedgerRecord, Join, ProofBytes, HexHash;
    JoinInjective(HashList(x), HashList(y), n);
    forall i | 0 <= i < |x| ensures x[i].hash == y[i].hash { assert HashList(x)[i] == HashList(y)[i]; }
  }
}
