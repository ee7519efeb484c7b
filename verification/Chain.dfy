/** `verifyAEPChain` (packages/aep/src/verify.ts): an exact classification, and the theorem that the
    last digest of an intact chain fixes the whole history. */
module Chain {
  import opened JsonValue
  import opened Records

  datatype ChainStatus = Intact | NotPresent | Partial | Orphaned | Broken

  datatype ChainResult = ChainResult(valid: bool, status: ChainStatus, brokenAt: Option<nat>)

  function PrevHash(r: Record): Value { Get(r, PREV_RECORD_HASH) }

  /** `record.prev_record_hash == null`. */
  predicate LinkAbsent(r: Record) { PrevHash(r).Undefined? || PrevHash(r).Null? }

  predicate LinkMatches(h: HashFn, prev: Record, cur: Record) { PrevHash(cur) == Str(Digest(h, prev)) }

  predicate MatchAt(h: HashFn, rs: seq<Record>, i: int)
    requires 1 <= i < |rs|
  {
    LinkMatches(h, rs[i - 1], rs[i])
  }

  // ----- the statuses, each by its own definition

  predicate AllMatch(h: HashFn, rs: seq<Record>) {
    forall i :: 1 <= i < |rs| ==> MatchAt(h, rs, i)
  }

  predicate BadLink(h: HashFn, rs: seq<Record>, i: int) {
    1 <= i < |rs| && !LinkAbsent(rs[i]) && !MatchAt(h, rs, i)
  }

  predicate NoBadLink(h: HashFn, rs: seq<Record>) {
    forall i :: 1 <= i < |rs| ==> !BadLink(h, rs, i)
  }

  predicate SomeLink(rs: seq<Record>) { exists i :: 1 <= i < |rs| && !LinkAbsent(rs[i]) }

  predicate IsIntact(h: HashFn, rs: seq<Record>) {
    |rs| >= 2 && LinkAbsent(rs[0]) && AllMatch(h, rs)
  }

  predicate IsOrphaned(h: HashFn, rs: seq<Record>) {
    |rs| >= 1 && !LinkAbsent(rs[0]) && AllMatch(h, rs)
  }

  predicate IsNotPresent(rs: seq<Record>) {
    !SomeLink(rs) && (|rs| == 1 ==> LinkAbsent(rs[0]))
  }

  predicate IsPartial(h: HashFn, rs: seq<Record>) {
    NoBadLink(h, rs) && SomeLink(rs) && exists i :: 1 <= i < |rs| && LinkAbsent(rs[i])
  }

  /** The result says exactly which status holds, and a broken chain names its least bad index. */
  predicate Classifies(h: HashFn, rs: seq<Record>, r: ChainResult) {
    && (r.status == Intact <==> IsIntact(h, rs))
    && (r.status == Orphaned <==> IsOrphaned(h, rs))
    && (r.status == NotPresent <==> IsNotPresent(rs))
    && (r.status == Partial <==> IsPartial(h, rs))
    && (r.status == Broken <==> !NoBadLink(h, rs))
    && (r.valid <==> r.status != Broken)
    && (r.brokenAt.Some? <==> r.status == Broken)
    && (r.brokenAt.Some? ==>
          BadLink(h, rs, r.brokenAt.value) && forall j :: 1 <= j < r.brokenAt.value ==> !BadLink(h, rs, j))
  }

  lemma MatchIsPresent(h: HashFn, prev: Record, cur: Record)
    ensures LinkMatches(h, prev, cur) ==> !LinkAbsent(cur)
  {
  }

  method VerifyAEPChain(h: HashFn, records: seq<Record>) returns (r: ChainResult)
    ensures Classifies(h, records, r)
  {
    hide WellFormed, Get, Digest, SameUnsigned, RecordsCollide;
    if |records| == 0 {
      return ChainResult(true, NotPresent, None);
    }
    if |records| == 1 {
      return ChainResult(true, if LinkAbsent(records[0]) then NotPresent else Orphaned, None);
    }
    var linked, missing := 0, 0;
    for i := 1 to |records|
      invariant forall j :: 1 <= j < i ==> !BadLink(h, records, j)
      invariant linked >= 0 && missing >= 0 && linked + missing == i - 1
      invariant linked == 0 <==> forall j :: 1 <= j < i ==> LinkAbsent(records[j])
      invariant missing == 0 <==> forall j :: 1 <= j < i ==> !LinkAbsent(records[j])
    {
      var current, prev := records[i], records[i - 1];
      if LinkAbsent(current) {
        missing := missing + 1;
      } else {
        var expectedHash := Digest(h, prev);
        if PrevHash(current) != Str(expectedHash) {
          assert BadLink(h, records, i);
          return ChainResult(false, Broken, Some(i));
        }
        linked := linked + 1;
      }
    }
    forall j | 1 <= j < |records| ensures MatchAt(h, records, j) <==> !LinkAbsent(records[j]) {
      assert !BadLink(h, records, j);
    }
    if linked == 0 { return ChainResult(true, NotPresent, None); }
    if missing > 0 { return ChainResult(true, Partial, None); }
    if !LinkAbsent(records[0]) { return ChainResult(true, Orphaned, None); }
    return ChainResult(true, Intact, None);
  }

  /** The classification leaves no choice: a chain has one result. */
  lemma ClassificationUnique(h: HashFn, rs: seq<Record>, r: ChainResult, q: ChainResult)
    requires Classifies(h, rs, r) && Classifies(h, rs, q)
    ensures r == q
  {
    if r.status == Broken {
      var i, j := r.brokenAt.value, q.brokenAt.value;
      assert BadLink(h, rs, i) && BadLink(h, rs, j);
      assert i == j;
    }
  }

  // ----- the last digest fixes the history

  /** A whole chain from its first record, of any positive length. */
  predicate FromGenesis(h: HashFn, rs: seq<Record>) {
    |rs| >= 1 && LinkAbsent(rs[0]) && AllMatch(h, rs)
  }

  /** One step back: equal digests give equal content and equal links, or a collision. */
  lemma StepBack(h: HashFn, x: Record, y: Record)
    requires Digest(h, x) == Digest(h, y)
    ensures RecordsCollide(h, x, y)
         || (SameUnsigned(x, y) && (LinkAbsent(x) <==> LinkAbsent(y)) && (PrevHash(x).Str? ==> PrevHash(y) == PrevHash(x)))
  {
    DigestFixesContent(h, x, y);
    if SameUnsigned(x, y) {
      assert PREV_RECORD_HASH != SIGNATURE && PREV_RECORD_HASH != DSSE_ENVELOPE;
      SameUnsignedGet(x, y, PREV_RECORD_HASH);
    }
  }

  lemma PrefixFromGenesis(h: HashFn, a: seq<Record>, i: nat)
    requires FromGenesis(h, a) && 1 <= i <= |a|
    ensures FromGenesis(h, a[..i])
  {
    forall j | 1 <= j < i ensures MatchAt(h, a[..i], j) {
      assert MatchAt(h, a, j);
    }
  }

  lemma {:induction false} GenesisFixesHistory(h: HashFn, a: seq<Record>, b: seq<Record>)
    requires FromGenesis(h, a) && FromGenesis(h, b)
    requires Digest(h, a[|a| - 1]) == Digest(h, b[|b| - 1])
    ensures SameHistory(a, b) || CollisionBetween(h, a, b)
  {
    hide WellFormed, Get, Digest, SameUnsigned, RecordsCollide;
    var m, n := |a| - 1, |b| - 1;
    var x, y := a[m], b[n];
    StepBack(h, x, y);
    if !RecordsCollide(h, x, y) {
      if m > 0 { assert MatchAt(h, a, m); }
      if n > 0 { assert MatchAt(h, b, n); }
      if m > 0 && n > 0 {
        PrefixFromGenesis(h, a, m);
        PrefixFromGenesis(h, b, n);
        GenesisFixesHistory(h, a[..m], b[..n]);
      }
    }
  }

  /** Two intact chains with equal last digests hold the same records throughout, or some pair of
      their records collides. */
  lemma LastDigestFixesHistory(h: HashFn, a: seq<Record>, b: seq<Record>)
    requires IsIntact(h, a) && IsIntact(h, b)
    requires Digest(h, a[|a| - 1]) == Digest(h, b[|b| - 1])
    ensures SameHistory(a, b) || CollisionBetween(h, a, b)
  {
    GenesisFixesHistory(h, a, b);
  }

  /** No digest repeats inside a chain, unless two of its records collide. */
  lemma DigestsDistinct(h: HashFn, a: seq<Record>, i: nat, j: nat)
    requires FromGenesis(h, a) && i < j < |a|
    ensures Digest(h, a[i]) != Digest(h, a[j]) || CollisionBetween(h, a, a)
  {
    hide WellFormed, Get, Digest, SameUnsigned, RecordsCollide;
    if Digest(h, a[i]) == Digest(h, a[j]) {
      PrefixFromGenesis(h, a, i + 1);
      PrefixFromGenesis(h, a, j + 1);
      GenesisFixesHistory(h, a[..i + 1], a[..j + 1]);
      var x: Record, y: Record :| x in a[..i + 1] && y in a[..j + 1] && RecordsCollide(h, x, y);
      assert x in a && y in a;
    }
  }

  /** Another intact ordering of an intact chain's records has the same history. */
  lemma ReorderedHistory(h: HashFn, a: seq<Record>, b: seq<Record>)
    requires IsIntact(h, a) && IsIntact(h, b) && multiset(a) == multiset(b)
    ensures SameHistory(a, b) || CollisionBetween(h, a, a)
  {
    hide WellFormed, Get, Digest, SameUnsigned, RecordsCollide;
    var last := a[|a| - 1];
    SameMembers(a, b);
    assert last in b;
    var j :| 0 <= j < |b| && b[j] == last;
    if j + 1 < |b| {
      var next := b[j + 1];
      assert next in a;
      var i :| 0 <= i < |a| && a[i] == next;
      assert MatchAt(h, b, j + 1);
      MatchIsPresent(h, last, next);
      assert MatchAt(h, a, i);
      DigestsDistinct(h, a, i - 1, |a| - 1);
    } else {
      LastDigestFixesHistory(h, a, b);
      if CollisionBetween(h, a, b) {
        var x: Record, y: Record :| x in a && y in b && RecordsCollide(h, x, y);
        assert y in a;
      }
    }
  }

  /** No other ordering of the records of an intact chain is intact. */
  lemma OrderIsFixed(h: HashFn, a: seq<Record>, b: seq<Record>)
    requires IsIntact(h, a) && IsIntact(h, b) && multiset(a) == multiset(b)
    ensures a == b || CollisionBetween(h, a, a)
  {
    hide WellFormed, Get, Digest, SameUnsigned, CollisionBetween, AllMatch, RecordsCollide;
    ReorderedHistory(h, a, b);
    SameMembers(a, b);
    if !CollisionBetween(h, a, a) {
      forall i | 0 <= i < |a| ensures a[i] == b[i] {
        assert b[i] in a;
        var j :| 0 <= j < |a| && a[j] == b[i];
        SamePlace(h, a, i, j);
      }
    }
  }

  lemma SamePlace(h: HashFn, a: seq<Record>, i: nat, j: nat)
    requires FromGenesis(h, a) && i < |a| && j < |a| && SameUnsigned(a[i], a[j])
    ensures i == j || CollisionBetween(h, a, a)
  {
    hide WellFormed, Get, Digest, SameUnsigned, CollisionBetween, AllMatch, RecordsCollide;
    DigestFixesContent(h, a[i], a[j]);
    if i < j { DigestsDistinct(h, a, i, j); }
    if j < i { DigestsDistinct(h, a, j, i); }
  }

  // ----- editing an intact chain

  /** Removing an interior record breaks the chain exactly there. */
  lemma DeletionBreaks(h: HashFn, a: seq<Record>, i: nat, r: ChainResult)
    requires IsIntact(h, a) && 1 <= i < |a| - 1
    requires Classifies(h, a[..i] + a[i + 1..], r)
    ensures r == ChainResult(false, Broken, Some(i)) || CollisionBetween(h, a, a)
  {
    hide WellFormed, Get, Digest, SameUnsigned, RecordsCollide;
    var b := a[..i] + a[i + 1..];
    assert b[i] == a[i + 1] && b[i - 1] == a[i - 1];
    assert MatchAt(h, a, i + 1);
    DigestsDistinct(h, a, i - 1, i);
    forall j | 1 <= j < i ensures !BadLink(h, b, j) {
      assert b[j] == a[j] && b[j - 1] == a[j - 1] && MatchAt(h, a, j);
    }
    if !CollisionBetween(h, a, a) {
      assert BadLink(h, b, i);
      var k := r.brokenAt.value;
      assert BadLink(h, b, k);
    }
  }

  /** The records at the given positions. */
  function Kept(a: seq<Record>, keep: seq<nat>): (b: seq<Record>)
    requires forall k :: 0 <= k < |keep| ==> keep[k] < |a|
    ensures |b| == |keep| && forall k :: 0 <= k < |b| ==> b[k] == a[keep[k]]
  {
    seq(|keep|, k requires 0 <= k < |keep| => a[keep[k]])
  }

  predicate Increasing(keep: seq<nat>) { forall i, j :: 0 <= i < j < |keep| ==> keep[i] < keep[j] }

  /** Two or more of a chain's records, in its order, are an intact chain exactly when none is missing
      before the last one kept, unless two records collide. */
  lemma KeptIsIntactIff(h: HashFn, a: seq<Record>, keep: seq<nat>)
    requires FromGenesis(h, a) && Increasing(keep) && |keep| >= 2
    requires forall k :: 0 <= k < |keep| ==> keep[k] < |a|
    ensures CollisionBetween(h, a, a) || (IsIntact(h, Kept(a, keep)) <==> forall k :: 0 <= k < |keep| ==> keep[k] == k)
  {
    hide IsIntact, FromGenesis, CollisionBetween, Increasing;
    if !CollisionBetween(h, a, a) && IsIntact(h, Kept(a, keep)) { KeptFromStart(h, a, keep, |keep|); }
    if forall k :: 0 <= k < |keep| ==> keep[k] == k { KeptPrefixIntact(h, a, keep); }
  }

  lemma KeptPrefixIntact(h: HashFn, a: seq<Record>, keep: seq<nat>)
    requires FromGenesis(h, a) && 2 <= |keep| && forall k :: 0 <= k < |keep| ==> keep[k] < |a| && keep[k] == k
    ensures IsIntact(h, Kept(a, keep))
  {
    hide WellFormed, Get, Digest;
    var b := Kept(a, keep);
    forall i | 1 <= i < |b| ensures MatchAt(h, b, i) { assert keep[i] == i && keep[i - 1] == i - 1 && MatchAt(h, a, i); }
  }

  lemma {:induction false} KeptFromStart(h: HashFn, a: seq<Record>, keep: seq<nat>, n: nat)
    requires FromGenesis(h, a) && Increasing(keep) && n <= |keep| && |keep| >= 2
    requires forall k :: 0 <= k < |keep| ==> keep[k] < |a|
    requires IsIntact(h, Kept(a, keep)) && !CollisionBetween(h, a, a)
    ensures forall k :: 0 <= k < n ==> keep[k] == k
  {
    hide WellFormed, Get, Digest, CollisionBetween;
    var b := Kept(a, keep);
    if n == 1 {
      if keep[0] > 0 {
        assert MatchAt(h, a, keep[0]);
        MatchIsPresent(h, a[keep[0] - 1], a[keep[0]]);
      }
    } else if n > 1 {
      KeptFromStart(h, a, keep, n - 1);
      var i, j := keep[n - 2], keep[n - 1];
      assert MatchAt(h, b, n - 1) && MatchAt(h, a, j);
      if i < j - 1 { DigestsDistinct(h, a, i, j - 1); }
    }
  }

  /** Losing a proper prefix leaves an orphaned chain. */
  lemma LostPrefixOrphans(h: HashFn, a: seq<Record>, i: nat)
    requires IsIntact(h, a) && 0 < i < |a|
    ensures IsOrphaned(h, a[i..])
  {
    assert MatchAt(h, a, i);
    forall j | 1 <= j < |a[i..]| ensures MatchAt(h, a[i..], j) {
      assert MatchAt(h, a, i + j);
    }
  }

  /** Losing a suffix is not noticed as long as two records remain. */
  lemma LostSuffixStaysIntact(h: HashFn, a: seq<Record>, i: nat)
    requires IsIntact(h, a) && 2 <= i <= |a|
    ensures IsIntact(h, a[..i])
  {
    forall j | 1 <= j < i ensures MatchAt(h, a[..i], j) {
      assert MatchAt(h, a, j);
    }
  }
}
