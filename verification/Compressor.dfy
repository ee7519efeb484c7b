/** The evidence compressor (packages/aep/src/evidenceCompressor.ts). */
module Compressor {
  // Chain fingerprints, the integrity part of a summary, decision and budget totals, and splicing
  // compressed chains.

  import opened JsonValue
  import opened Utf8
  import opened Records
  import opened Schema
  import opened AepSchema
  import opened Chain
  import opened Hashes
  import opened Rollups
  import opened Ledgers

  const BUDGET := Lit("budget_ledger")
  const SPENT := Lit("spent")

  function DigestBytes(h: HashFn, rs: seq<Record>): (r: seq<seq<int>>)
    ensures |r| == |rs| && forall i :: 0 <= i < |rs| ==> r[i] == FromHex(Digest(h, rs[i]))
  {
    seq(|rs|, i requires 0 <= i < |rs| => FromHex(Digest(h, rs[i])))
  }

  function AsBytes(t: seq<int>): Bytes {
    seq(|t|, i requires 0 <= i < |t| => if 0 <= t[i] < 256 then t[i] else 0)
  }

  function FingerprintBytes(h: HashFn, rs: seq<Record>): Bytes { AsBytes(Join(DigestBytes(h, rs))) }

  /** `buildChainFingerprint` over the record hashes. */
  function Fingerprint(h: HashFn, rs: seq<Record>): Text { h(FingerprintBytes(h, rs)) }

  /** `verifyChainFingerprint`. */
  predicate VerifyChainFingerprint(h: HashFn, rs: seq<Record>, expected: Text) {
    rs != [] && Fingerprint(h, rs) == expected
  }

  /** `prev_record_hash ?? null` of the first record. */
  function ChainPrevHash(r: Record): Value { if LinkAbsent(r) then Null else PrevHash(r) }

  datatype Decisions = Decisions(total: nat, allowed: nat, denied: nat, askedUser: nat, dryRun: nat)

  datatype Summary = Summary(
    chainFingerprint: Text, firstRecordHash: Text, lastRecordHash: Text, chainPrevHash: Value,
    recordCount: nat, startedAtMs: int, endedAtMs: int, runIds: seq<Text>,
    toolStats: seq<ToolStats>, decisions: Decisions, budget: Budget, totalActions: nat)

  /** Totals per budget dimension, each present only when some record reports it. */
  datatype Budget = Budget(
    tokens: Option<int>, toolCalls: Option<int>, risk: Option<int>, retries: Option<int>, humanApprovals: Option<int>)

  const TOKEN_BUDGET := Lit("token_budget")
  const TOOL_BUDGET := Lit("tool_budget")
  const RISK_BUDGET := Lit("risk_budget")
  const RETRY_BUDGET := Lit("retry_budget")
  const HUMAN_APPROVAL_BUDGET := Lit("human_approval_budget")

  // ----- totals

  function DecisionsOf(r: Record): seq<Value> {
    if Get(r, CAPABILITY_DECISIONS).Arr? then Get(r, CAPABILITY_DECISIONS).elems else []
  }

  function AllDecisions(rs: seq<Record>): seq<Value> {
    if rs == [] then [] else AllDecisions(rs[..|rs| - 1]) + DecisionsOf(rs[|rs| - 1])
  }

  function CountDecision(ds: seq<Value>, kind: Text): nat {
    if ds == [] then 0
    else CountDecision(ds[..|ds| - 1], kind) + (if Get(ds[|ds| - 1], DECISION) == Str(kind) then 1 else 0)
  }

  predicate AllKnown(ds: seq<Value>) { forall i :: 0 <= i < |ds| ==> KnownDecision(ds[i]) }

  lemma CountSnoc(ds: seq<Value>, k: nat)
    requires k < |ds|
    ensures forall kind :: CountDecision(ds[..k + 1], kind) ==
                           CountDecision(ds[..k], kind) + (if Get(ds[k], DECISION) == Str(kind) then 1 else 0)
    ensures AllKnown(ds[..k + 1]) <==> AllKnown(ds[..k]) && KnownDecision(ds[k])
  {
    hide Get, Lit, KnownDecision;
    assert ds[..k + 1][..k] == ds[..k] && ds[..k + 1][k] == ds[k];
    assert forall i :: 0 <= i < k ==> ds[..k + 1][i] == ds[..k][i];
  }

  /** The decision loop: each decision falls in at most one bucket, and in one if it is of a known kind. */
  method CountDecisions(rs: seq<Record>) returns (d: Decisions)
    ensures Counted(d, rs)
  {
    DecisionKindsApart();
    hide Get, DecisionsOf, Lit;
    var ds := [];
    for k := 0 to |rs|
      invariant ds == AllDecisions(rs[..k])
    {
      assert rs[..k + 1][..k] == rs[..k];
      ds := ds + DecisionsOf(rs[k]);
    }
    assert rs[..|rs|] == rs;
    var a, b, c, e := 0, 0, 0, 0;
    for k := 0 to |ds|
      invariant a == CountDecision(ds[..k], ALLOW) && b == CountDecision(ds[..k], DENY)
      invariant c == CountDecision(ds[..k], ASK_USER) && e == CountDecision(ds[..k], DRY_RUN)
      invariant a + b + c + e <= k && (a + b + c + e == k <==> AllKnown(ds[..k]))
    {
      hide CountDecision, AllKnown;
      CountSnoc(ds, k);
      var kind := Get(ds[k], DECISION);
      if kind == Str(ALLOW) { a := a + 1; }
      else if kind == Str(DENY) { b := b + 1; }
      else if kind == Str(ASK_USER) { c := c + 1; }
      else if kind == Str(DRY_RUN) { e := e + 1; }
    }
    assert ds[..|ds|] == ds;
    d := Decisions(a + b + c + e, a, b, c, e);
  }

  lemma DecisionKindsApart()
    ensures ALLOW != DENY && ALLOW != ASK_USER && ALLOW != DRY_RUN && DENY != ASK_USER && DENY != DRY_RUN && ASK_USER != DRY_RUN
  {
    assert |ALLOW| == 5 && |DENY| == 4 && |ASK_USER| == 8 && |DRY_RUN| == 7;
  }

  /** A record that `AEPRecordSchema.parse` returned. */
  ghost predicate ReturnedByParse(r: Record) { exists sent: Record :: ParseRecord(AepRecordSchema(), sent) == Some(r) }

  lemma ValidatedKnown(r: Record)
    requires ReturnedByParse(r)
    ensures AllKnown(DecisionsOf(r))
  {
    hide KnownDecision, Get, AepRecordSchema, ParseRecord;
    var sent: Record :| ParseRecord(AepRecordSchema(), sent) == Some(r);
    DecisionsKnown(sent);
  }

  lemma {:induction false} AllDecisionsKnown(rs: seq<Record>)
    requires forall i :: 0 <= i < |rs| ==> ReturnedByParse(rs[i])
    ensures AllKnown(AllDecisions(rs))
  {
    hide KnownDecision, DecisionsOf, ReturnedByParse;
    if rs != [] {
      AllDecisionsKnown(rs[..|rs| - 1]);
      ValidatedKnown(rs[|rs| - 1]);
    }
  }

  /** Of validated records every decision is counted. */
  lemma ValidatedAllCounted(d: Decisions, rs: seq<Record>)
    requires Counted(d, rs) && forall i :: 0 <= i < |rs| ==> ReturnedByParse(rs[i])
    ensures d.total == |AllDecisions(rs)|
  {
    hide ReturnedByParse, AllKnown, AllDecisions;
    AllDecisionsKnown(rs);
  }

  /** What one record spends in a budget dimension, when it reports one. */
  function Spent(r: Record, dimension: Text): Option<int> {
    var entry := Get(Get(r, BUDGET), dimension);
    if entry.Obj? then Some(IntOf(Get(entry, SPENT))) else None
  }

  /** Sum over the records that report the dimension; `None` when none does. */
  function TotalSpent(rs: seq<Record>, dimension: Text): Option<int> {
    if rs == [] then None
    else
      var front, last := TotalSpent(rs[..|rs| - 1], dimension), Spent(rs[|rs| - 1], dimension);
      if last.None? then front else Some((if front.Some? then front.value else 0) + last.value)
  }

  /** The budget loop for one dimension. */
  method SumBudget(rs: seq<Record>, dimension: Text) returns (total: Option<int>)
    ensures total == TotalSpent(rs, dimension)
  {
    hide Spent;
    total := None;
    for k := 0 to |rs|
      invariant total == TotalSpent(rs[..k], dimension)
    {
      assert rs[..k + 1][..k] == rs[..k];
      var spent := Spent(rs[k], dimension);
      if spent.Some? { total := Some((if total.Some? then total.value else 0) + spent.value); }
    }
    assert rs[..|rs|] == rs;
  }

  predicate Counted(d: Decisions, rs: seq<Record>) {
    var ds := AllDecisions(rs);
    && d.allowed == CountDecision(ds, ALLOW) && d.denied == CountDecision(ds, DENY)
    && d.askedUser == CountDecision(ds, ASK_USER) && d.dryRun == CountDecision(ds, DRY_RUN)
    && d.total == d.allowed + d.denied + d.askedUser + d.dryRun <= |ds| && (d.total == |ds| <==> AllKnown(ds))
  }

  predicate Spends(b: Budget, rs: seq<Record>) {
    && b.tokens == TotalSpent(rs, TOKEN_BUDGET) && b.toolCalls == TotalSpent(rs, TOOL_BUDGET)
    && b.risk == TotalSpent(rs, RISK_BUDGET) && b.retries == TotalSpent(rs, RETRY_BUDGET)
    && b.humanApprovals == TotalSpent(rs, HUMAN_APPROVAL_BUDGET)
  }

  /** The descriptive part of a summary. */
  ghost predicate Summarises(s: Summary, rs: seq<Record>) {
    && AreStats(s.toolStats, rs) && s.totalActions == |AllActions(rs)|
    && TimesSpan(rs, s.startedAtMs, s.endedAtMs) && s.runIds == RunIds(rs)
    && Counted(s.decisions, rs) && Spends(s.budget, rs)
  }

  method SumBudgets(rs: seq<Record>) returns (b: Budget)
    ensures Spends(b, rs)
  {
    hide TotalSpent, Lit;
    var tokens := SumBudget(rs, TOKEN_BUDGET);
    var toolCalls := SumBudget(rs, TOOL_BUDGET);
    var risk := SumBudget(rs, RISK_BUDGET);
    var retries := SumBudget(rs, RETRY_BUDGET);
    var humanApprovals := SumBudget(rs, HUMAN_APPROVAL_BUDGET);
    return Budget(tokens, toolCalls, risk, retries, humanApprovals);
  }

  /** `compress`; an empty chain is refused. */
  method Compress(h: HashFn, records: seq<Record>) returns (s: Option<Summary>)
    ensures s.None? <==> records == []
    ensures s.Some? ==> Integrity(h, records, s.value) && Summarises(s.value, records)
  {
    if |records| == 0 { return None; }
    hide Get, Digest, Fingerprint, AllActions, AreStats, TimesSpan, RunIds, Counted, Spends;
    var started, ended := TimeRange(records);
    var runIds := DistinctRunIds(records);
    var stats, total := CompressToolStats(records);
    var decisions := CountDecisions(records);
    var budget := SumBudgets(records);
    var summary := Summary(Fingerprint(h, records), Digest(h, records[0]), Digest(h, records[|records| - 1]),
                           ChainPrevHash(records[0]), |records|, started, ended, runIds, stats, decisions, budget, total);
    assert Integrity(h, records, summary) by { hide Summarises; }
    hide Integrity;
    return Some(summary);
  }

  /** The integrity part of a summary. */
  predicate Integrity(h: HashFn, rs: seq<Record>, s: Summary) {
    rs != []
    && s.chainFingerprint == Fingerprint(h, rs)
    && s.firstRecordHash == Digest(h, rs[0])
    && s.lastRecordHash == Digest(h, rs[|rs| - 1])
    && s.chainPrevHash == ChainPrevHash(rs[0])
    && s.recordCount == |rs|
  }

  // ----- fingerprints

  lemma {:induction false} JoinBytes(parts: seq<seq<int>>)
    requires forall i, j :: 0 <= i < |parts| && 0 <= j < |parts[i]| ==> 0 <= parts[i][j] < 256
    ensures AsBytes(Join(parts)) == Join(parts)
  {
    if parts != [] {
      assert forall i, j :: 0 <= i < |parts[1..]| && 0 <= j < |parts[1..][i]| ==> parts[1..][i][j] == parts[i + 1][j];
      JoinBytes(parts[1..]);
      var t, rest := Join(parts), Join(parts[1..]);
      forall i | 0 <= i < |t| ensures 0 <= t[i] < 256 {
        if i >= |parts[0]| { assert t[i] == rest[i - |parts[0]|] && AsBytes(rest)[i - |parts[0]|] == rest[i - |parts[0]|]; }
      }
    }
  }

  lemma DigestBytesLength(h: HashFn, rs: seq<Record>, i: nat)
    requires HexHash(h) && i < |rs|
    ensures |DigestBytes(h, rs)[i]| == |h([])| / 2 > 0
    ensures forall j :: 0 <= j < |DigestBytes(h, rs)[i]| ==> 0 <= DigestBytes(h, rs)[i][j] < 256
  {
    hide HashedBytes;
    var d := Digest(h, rs[i]);
    assert IsHex(h(HashedBytes(rs[i]))) && |h(HashedBytes(rs[i]))| == |h([])|;
    FromHexLength(d);
  }

  /** A fingerprint fixes the records, their order and their number, or two records collide, or the
      two fingerprint inputs do. */
  lemma FingerprintFixesRecords(h: HashFn, a: seq<Record>, b: seq<Record>, expected: Text)
    requires HexHash(h) && VerifyChainFingerprint(h, a, expected) && VerifyChainFingerprint(h, b, expected)
    ensures SameHistory(a, b) || CollisionBetween(h, a, b) || Collide(h, FingerprintBytes(h, a), FingerprintBytes(h, b))
  {
    if FingerprintBytes(h, a) == FingerprintBytes(h, b) {
      FingerprintFixesDigests(h, a, b);
      hide SameUnsigned, RecordsCollide, FingerprintBytes, HexHash, Digest;
      forall i | 0 <= i < |a| ensures SameUnsigned(a[i], b[i]) || RecordsCollide(h, a[i], b[i]) {
        DigestFixesContent(h, a[i], b[i]);
      }
      if !SameHistory(a, b) {
        var i :| 0 <= i < |a| && !SameUnsigned(a[i], b[i]);
        assert a[i] in a && b[i] in b;
      }
    }
  }

  lemma FingerprintFixesDigests(h: HashFn, a: seq<Record>, b: seq<Record>)
    requires HexHash(h) && FingerprintBytes(h, a) == FingerprintBytes(h, b)
    ensures |a| == |b| && forall i :: 0 <= i < |a| ==> Digest(h, a[i]) == Digest(h, b[i])
  {
    forall i | 0 <= i < |a| { DigestBytesLength(h, a, i); }
    forall i | 0 <= i < |b| { DigestBytesLength(h, b, i); }
    JoinBytes(DigestBytes(h, a));
    JoinBytes(DigestBytes(h, b));
    if a == [] && b == [] { return; }
    assert IsHex(h([])) && |h([])| == |h([])|;
    hide HashedBytes, Join, FromHex;
    JoinInjective(DigestBytes(h, a), DigestBytes(h, b), |h([])| / 2);
    forall i | 0 <= i < |a| ensures Digest(h, a[i]) == Digest(h, b[i]) {
      assert DigestBytes(h, a)[i] == DigestBytes(h, b)[i];
      var x, y := HashedBytes(a[i]), HashedBytes(b[i]);
      assert IsHex(h(x)) && IsHex(h(y)) && |h(x)| == |h(y)|;
      FromHexInjective(h(x), h(y));
    }
  }

  /** The fingerprint in a summary always verifies against the records it was computed from. */
  lemma SummaryVerifies(h: HashFn, rs: seq<Record>, s: Summary)
    requires Integrity(h, rs, s)
    ensures VerifyChainFingerprint(h, rs, s.chainFingerprint)
  {
    hide Fingerprint, Digest;
  }

  // ----- splicing

  /** A chain can be resumed or joined at a summary: `a` followed by `b` is intact exactly when `a`
      is intact, `b` is orphaned, and `b` starts from the hash `a` ends with. */
  lemma SpliceIffLinked(h: HashFn, a: seq<Record>, b: seq<Record>, s: Summary, t: Summary)
    requires |a| >= 2 && |b| >= 1 && Integrity(h, a, s) && Integrity(h, b, t)
    ensures IsIntact(h, a + b) <==> IsIntact(h, a) && IsOrphaned(h, b) && t.chainPrevHash == Str(s.lastRecordHash)
  {
    hide Digest, PrevHash, Fingerprint;
    var ab := a + b;
    assert MatchAt(h, ab, |a|) <==> LinkMatches(h, a[|a| - 1], b[0]);
    if IsIntact(h, ab) {
      forall i | 1 <= i < |a| ensures MatchAt(h, a, i) { assert MatchAt(h, ab, i); }
      forall i | 1 <= i < |b| ensures MatchAt(h, b, i) { assert MatchAt(h, ab, |a| + i); }
    }
    if IsIntact(h, a) && IsOrphaned(h, b) && t.chainPrevHash == Str(s.lastRecordHash) {
      forall i | 1 <= i < |ab| ensures MatchAt(h, ab, i) {
        if i < |a| { assert MatchAt(h, a, i); }
        else if i > |a| { assert MatchAt(h, b, i - |a|); }
      }
    }
  }
}
