/** Two-way reconciliation of a local log with a remote store (packages/aep/src/evidenceMirror.ts). */
module Mirror {
  // Records, the key function, the fingerprint over the full record and the conflict resolver are
  // parameters: the reconciliation does not look inside a record. The remote is a JavaScript `Map`, that
  // is, entries with distinct keys in insertion order.

  import opened JsonValue

  /** What a resolver does: it names a winner, or throws. */
  datatype Winner = LocalWins | RemoteWins | Aborts

  datatype Policy<!R> = Policy(keyOf: R -> Text, fingerprint: R -> Text, resolve: (Text, R, R) -> Winner)

  datatype Phase = PushPhase | PullPhase

  datatype Resolution = Resolution(key: Text, winner: Winner, phase: Phase)

  datatype SyncResult = SyncResult(pushed: nat, pulled: nat, conflicts: nat, skipped: nat, resolutions: seq<Resolution>)

  const NOTHING := SyncResult(0, 0, 0, 0, [])

  predicate Equal<R>(p: Policy<R>, a: R, b: R) { p.fingerprint(a) == p.fingerprint(b) }

  /** The local records under one key, oldest first. */
  function Bucket<R>(p: Policy<R>, rs: seq<R>, k: Text): (b: seq<R>)
    ensures b == [] <==> forall i :: 0 <= i < |rs| ==> p.keyOf(rs[i]) != k
    ensures forall i :: 0 <= i < |b| ==> b[i] in rs && p.keyOf(b[i]) == k
  {
    if rs == [] then []
    else
      var last := rs[|rs| - 1];
      Bucket(p, rs[..|rs| - 1], k) + if p.keyOf(last) == k then [last] else []
  }

  /** The record that stands for its key when pushing. */
  function Representative<R>(p: Policy<R>, rs: seq<R>, k: Text): Option<R> {
    var b := Bucket(p, rs, k);
    if b == [] then None else Some(b[0])
  }

  predicate HasEqual<R>(p: Policy<R>, bucket: seq<R>, r: R) {
    exists i :: 0 <= i < |bucket| && Equal(p, bucket[i], r)
  }

  // ----- the two passes, record by record

  datatype Pushing<R> = Pushing(remote: seq<Entry<R>>, result: SyncResult, aborted: bool)

  datatype Pulling<R> = Pulling(local: seq<R>, result: SyncResult, aborted: bool)

  function PushOne<R>(p: Policy<R>, r: R, s: Pushing<R>): Pushing<R> {
    var k := p.keyOf(r);
    match Find(s.remote, k)
    case None => Pushing(Assign(s.remote, k, r), s.result.(pushed := s.result.pushed + 1), false)
    case Some(q) =>
      if Equal(p, r, q) then s.(result := s.result.(skipped := s.result.skipped + 1))
      else
        var w := p.resolve(k, r, q);
        var met := s.result.(conflicts := s.result.conflicts + 1);
        if w == Aborts then s.(result := met, aborted := true)
        else
          var noted := met.(resolutions := met.resolutions + [Resolution(k, w, PushPhase)]);
          if w == LocalWins then Pushing(Assign(s.remote, k, r), noted.(pushed := noted.pushed + 1), false)
          else s.(result := noted.(skipped := noted.skipped + 1))
  }

  /** Pushing the first `n` local records: later records of a key are passed over. */
  function PushTo<R>(p: Policy<R>, local: seq<R>, n: nat, remote: seq<Entry<R>>): Pushing<R>
    requires n <= |local|
  {
    if n == 0 then Pushing(remote, NOTHING, false)
    else
      var s := PushTo(p, local, n - 1, remote);
      var r := local[n - 1];
      if s.aborted || Bucket(p, local[..n - 1], p.keyOf(r)) != [] then s else PushOne(p, r, s)
  }

  function PullOne<R>(p: Policy<R>, bucket: seq<R>, e: Entry<R>, s: Pulling<R>): Pulling<R> {
    if bucket == [] then Pulling(s.local + [e.val], s.result.(pulled := s.result.pulled + 1), false)
    else if HasEqual(p, bucket, e.val) then s.(result := s.result.(skipped := s.result.skipped + 1))
    else
      var w := p.resolve(e.key, bucket[0], e.val);
      var met := s.result.(conflicts := s.result.conflicts + 1);
      if w == Aborts then s.(result := met, aborted := true)
      else
        var noted := met.(resolutions := met.resolutions + [Resolution(e.key, w, PullPhase)]);
        if w == RemoteWins then Pulling(s.local + [e.val], noted.(pulled := noted.pulled + 1), false)
        else s.(result := noted.(skipped := noted.skipped + 1))
  }

  function PullTo<R>(p: Policy<R>, local: seq<R>, n: nat, remote: seq<Entry<R>>): Pulling<R>
    requires n <= |remote|
  {
    if n == 0 then Pulling(local, NOTHING, false)
    else
      var s := PullTo(p, local, n - 1, remote);
      if s.aborted then s else PullOne(p, Bucket(p, local, remote[n - 1].key), remote[n - 1], s)
  }

  function PushAll<R>(p: Policy<R>, local: seq<R>, remote: seq<Entry<R>>): Pushing<R> { PushTo(p, local, |local|, remote) }

  function PullAll<R>(p: Policy<R>, local: seq<R>, remote: seq<Entry<R>>): Pulling<R> { PullTo(p, local, |remote|, remote) }

  /** Both results of a completed sync. */
  function Merge(a: SyncResult, b: SyncResult): SyncResult {
    SyncResult(a.pushed, b.pulled, a.conflicts + b.conflicts, a.skipped + b.skipped, a.resolutions + b.resolutions)
  }

  datatype Synced<R> = Synced(local: seq<R>, remote: seq<Entry<R>>, result: Option<SyncResult>)

  /** `sync`: push, then pull. What an aborted pass already wrote stays written. */
  function SyncAll<R>(p: Policy<R>, local: seq<R>, remote: seq<Entry<R>>): Synced<R> {
    var a := PushAll(p, local, remote);
    if a.aborted then Synced(local, a.remote, None)
    else
      var b := PullAll(p, local, a.remote);
      Synced(b.local, a.remote, if b.aborted then None else Some(Merge(a.result, b.result)))
  }

  // ----- the class

  lemma {:induction false} PushAborted<R>(p: Policy<R>, local: seq<R>, n: nat, m: nat, remote: seq<Entry<R>>)
    requires n <= m <= |local| && PushTo(p, local, n, remote).aborted
    ensures PushTo(p, local, m, remote) == PushTo(p, local, n, remote)
    decreases m
  {
    hide PushOne, Bucket;
    if n < m { PushAborted(p, local, n, m - 1, remote); }
  }

  lemma {:induction false} PullAborted<R>(p: Policy<R>, local: seq<R>, n: nat, m: nat, remote: seq<Entry<R>>)
    requires n <= m <= |remote| && PullTo(p, local, n, remote).aborted
    ensures PullTo(p, local, m, remote) == PullTo(p, local, n, remote)
    decreases m
  {
    hide PullOne, Bucket;
    if n < m { PullAborted(p, local, n, m - 1, remote); }
  }

  lemma PushToStart<R>(p: Policy<R>, local: seq<R>, remote: seq<Entry<R>>)
    ensures PushTo(p, local, 0, remote) == Pushing(remote, NOTHING, false)
  {
  }

  lemma PushToNext<R>(p: Policy<R>, local: seq<R>, n: nat, remote: seq<Entry<R>>)
    requires n < |local| && !PushTo(p, local, n, remote).aborted
    ensures PushTo(p, local, n + 1, remote) ==
            if Bucket(p, local[..n], p.keyOf(local[n])) != [] then PushTo(p, local, n, remote)
            else PushOne(p, local[n], PushTo(p, local, n, remote))
  {
    hide PushOne, Bucket;
  }

  /** A key the remote lacks, and one it holds with equal content. */
  lemma PushPlain<R>(p: Policy<R>, r: R, remote: seq<Entry<R>>, result: SyncResult)
    ensures var k, s := p.keyOf(r), Pushing(remote, result, false);
            && (Find(remote, k).None? ==>
                  PushOne(p, r, s) == Pushing(Assign(remote, k, r), result.(pushed := result.pushed + 1), false))
            && (Find(remote, k).Some? && Equal(p, r, Find(remote, k).value) ==>
                  PushOne(p, r, s) == Pushing(remote, result.(skipped := result.skipped + 1), false))
  {
    hide Find, Assign;
  }

  /** A conflict, by who wins it. */
  lemma PushConflict<R>(p: Policy<R>, r: R, remote: seq<Entry<R>>, result: SyncResult, w: Winner)
    requires var k := p.keyOf(r);
             Find(remote, k).Some? && !Equal(p, r, Find(remote, k).value) && p.resolve(k, r, Find(remote, k).value) == w
    ensures var k, s := p.keyOf(r), Pushing(remote, result, false);
            var met := result.(conflicts := result.conflicts + 1);
            var noted := met.(resolutions := met.resolutions + [Resolution(k, w, PushPhase)]);
            PushOne(p, r, s) ==
              match w
              case Aborts => Pushing(remote, met, true)
              case LocalWins => Pushing(Assign(remote, k, r), noted.(pushed := noted.pushed + 1), false)
              case RemoteWins => Pushing(remote, noted.(skipped := noted.skipped + 1), false)
  {
    hide Find, Assign;
  }

  /** The keys seen among the first `n` records. */
  ghost predicate SeenTo<R>(p: Policy<R>, seen: set<Text>, local: seq<R>, n: nat)
    requires n <= |local|
  {
    forall k :: k in seen <==> Bucket(p, local[..n], k) != []
  }

  lemma SeenStart<R>(p: Policy<R>, local: seq<R>)
    ensures SeenTo(p, {}, local, 0)
  {
    EmptyBuckets(p);
    assert local[..0] == [];
  }

  lemma SeenNext<R>(p: Policy<R>, seen: set<Text>, local: seq<R>, n: nat)
    requires n < |local| && SeenTo(p, seen, local, n)
    ensures p.keyOf(local[n]) in seen <==> Bucket(p, local[..n], p.keyOf(local[n])) != []
    ensures SeenTo(p, seen + {p.keyOf(local[n])}, local, n + 1)
    ensures p.keyOf(local[n]) in seen ==> SeenTo(p, seen, local, n + 1)
  {
    BucketSnoc(p, local, n);
    hide Bucket;
    if p.keyOf(local[n]) in seen { assert seen + {p.keyOf(local[n])} == seen; }
  }

  lemma PullToStart<R>(p: Policy<R>, local: seq<R>, remote: seq<Entry<R>>)
    ensures PullTo(p, local, 0, remote) == Pulling(local, NOTHING, false)
  {
  }

  lemma PullToNext<R>(p: Policy<R>, local: seq<R>, n: nat, remote: seq<Entry<R>>)
    requires n < |remote| && !PullTo(p, local, n, remote).aborted
    ensures PullTo(p, local, n + 1, remote) == PullOne(p, Bucket(p, local, remote[n].key), remote[n], PullTo(p, local, n, remote))
  {
    hide PullOne, Bucket;
  }

  /** A key the log lacks, and one it holds with equal content. */
  lemma PullPlain<R>(p: Policy<R>, bucket: seq<R>, e: Entry<R>, local: seq<R>, result: SyncResult)
    ensures var s := Pulling(local, result, false);
            && (bucket == [] ==>
                  PullOne(p, bucket, e, s) == Pulling(local + [e.val], result.(pulled := result.pulled + 1), false))
            && (bucket != [] && HasEqual(p, bucket, e.val) ==>
                  PullOne(p, bucket, e, s) == Pulling(local, result.(skipped := result.skipped + 1), false))
  {
    hide HasEqual;
  }

  lemma PullConflict<R>(p: Policy<R>, bucket: seq<R>, e: Entry<R>, local: seq<R>, result: SyncResult, w: Winner)
    requires bucket != [] && !HasEqual(p, bucket, e.val) && p.resolve(e.key, bucket[0], e.val) == w
    ensures var met := result.(conflicts := result.conflicts + 1);
            var noted := met.(resolutions := met.resolutions + [Resolution(e.key, w, PullPhase)]);
            PullOne(p, bucket, e, Pulling(local, result, false)) ==
              match w
              case Aborts => Pulling(local, met, true)
              case RemoteWins => Pulling(local + [e.val], noted.(pulled := noted.pulled + 1), false)
              case LocalWins => Pulling(local, noted.(skipped := noted.skipped + 1), false)
  {
    hide HasEqual;
  }

  /** The grouping still agrees with the log as it was, for the remote keys from `i` on. */
  ghost predicate GroupsRest<R>(p: Policy<R>, byKey: map<Text, seq<R>>, local: seq<R>, remote: seq<Entry<R>>, i: nat) {
    forall j :: i <= j < |remote| ==>
      var k := remote[j].key;
      (k in byKey <==> Bucket(p, local, k) != []) && (k in byKey ==> byKey[k] == Bucket(p, local, k))
  }

  lemma GroupsStart<R>(p: Policy<R>, byKey: map<Text, seq<R>>, local: seq<R>, remote: seq<Entry<R>>)
    requires forall k :: (k in byKey <==> Bucket(p, local, k) != []) && (k in byKey ==> byKey[k] == Bucket(p, local, k))
    ensures GroupsRest(p, byKey, local, remote, 0)
  {
    hide Bucket;
  }

  lemma GroupsAt<R>(p: Policy<R>, byKey: map<Text, seq<R>>, local: seq<R>, remote: seq<Entry<R>>, i: nat)
    requires i < |remote| && GroupsRest(p, byKey, local, remote, i)
    ensures var k := remote[i].key;
            && (k in byKey <==> Bucket(p, local, k) != []) && (k in byKey ==> byKey[k] == Bucket(p, local, k))
            && GroupsRest(p, byKey, local, remote, i + 1)
  {
    hide Bucket;
  }

  /** Handling a key once cannot disturb the keys still to come. */
  lemma GroupsSet<R>(p: Policy<R>, byKey: map<Text, seq<R>>, local: seq<R>, remote: seq<Entry<R>>, i: nat, b: seq<R>)
    requires i < |remote| && Distinct(Keys(remote)) && GroupsRest(p, byKey, local, remote, i + 1)
    ensures GroupsRest(p, byKey[remote[i].key := b], local, remote, i + 1)
  {
    hide Bucket;
    assert forall j :: i < j < |remote| ==> Keys(remote)[j] != Keys(remote)[i];
  }

  class EvidenceMirror<R> {
    const policy: Policy<R>
    var local: seq<R>
    var remote: seq<Entry<R>>

    constructor (policy: Policy<R>, local: seq<R>, remote: seq<Entry<R>>)
      ensures this.policy == policy && this.local == local && this.remote == remote
    {
      this.policy, this.local, this.remote := policy, local, remote;
    }

    /** `push`; `None` when the resolver threw. */
    method Push() returns (r: Option<SyncResult>)
      modifies this`remote
      ensures var s := PushAll(policy, local, old(remote));
              remote == s.remote && r == if s.aborted then None else Some(s.result)
    {
      hide Bucket, Find, Assign, SeenTo, PushTo, PushOne;
      var result := NOTHING;
      var seenKeys: set<Text> := {};
      var i := 0;
      SeenStart(policy, local);
      PushToStart(policy, local, remote);
      while i < |local|
        invariant 0 <= i <= |local|
        invariant PushTo(policy, local, i, old(remote)) == Pushing(remote, result, false)
        invariant SeenTo(policy, seenKeys, local, i)
      {
        var localRecord := local[i];
        var key := policy.keyOf(localRecord);
        SeenNext(policy, seenKeys, local, i);
        PushToNext(policy, local, i, old(remote));
        i := i + 1;
        if key in seenKeys { continue; }
        seenKeys := seenKeys + {key};
        var remoteRecord := Find(remote, key);
        PushPlain(policy, localRecord, remote, result);
        if remoteRecord.None? {
          remote := Assign(remote, key, localRecord);
          result := result.(pushed := result.pushed + 1);
          continue;
        }
        if Equal(policy, localRecord, remoteRecord.value) {
          result := result.(skipped := result.skipped + 1);
          continue;
        }
        var winner := policy.resolve(key, localRecord, remoteRecord.value);
        PushConflict(policy, localRecord, remote, result, winner);
        result := result.(conflicts := result.conflicts + 1);
        if winner == Aborts {
          PushAborted(policy, local, i, |local|, old(remote));
          return None;
        }
        result := result.(resolutions := result.resolutions + [Resolution(key, winner, PushPhase)]);
        if winner == LocalWins {
          remote := Assign(remote, key, localRecord);
          result := result.(pushed := result.pushed + 1);
        } else {
          result := result.(skipped := result.skipped + 1);
        }
      }
      return Some(result);
    }

    /** The local records grouped by key. */
    method GroupByKey() returns (byKey: map<Text, seq<R>>)
      ensures forall k :: (k in byKey <==> Bucket(policy, local, k) != []) && (k in byKey ==> byKey[k] == Bucket(policy, local, k))
    {
      hide Bucket;
      byKey := map[];
      EmptyBuckets(policy);
      for i := 0 to |local|
        invariant forall k :: (k in byKey <==> Bucket(policy, local[..i], k) != [])
                           && (k in byKey ==> byKey[k] == Bucket(policy, local[..i], k))
      {
        BucketSnoc(policy, local, i);
        var key := policy.keyOf(local[i]);
        byKey := byKey[key := (if key in byKey then byKey[key] else []) + [local[i]]];
      }
      assert local[..|local|] == local;
    }

    /** `pull`; `None` when the resolver threw. */
    method Pull() returns (r: Option<SyncResult>)
      requires Distinct(Keys(remote))
      modifies this`local
      ensures var s := PullAll(policy, old(local), remote);
              local == s.local && r == if s.aborted then None else Some(s.result)
    {
      hide Bucket, HasEqual, GroupsRest, Distinct, PullTo, PullOne;
      var result := NOTHING;
      PullToStart(policy, local, remote);
      var localByKey := GroupByKey();
      GroupsStart(policy, localByKey, local, remote);
      var i := 0;
      while i < |remote|
        invariant 0 <= i <= |remote|
        invariant PullTo(policy, old(local), i, remote) == Pulling(local, result, false)
        invariant GroupsRest(policy, localByKey, old(local), remote, i)
      {
        var key, remoteRecord := remote[i].key, remote[i].val;
        GroupsAt(policy, localByKey, old(local), remote, i);
        PullToNext(policy, old(local), i, remote);
        PullPlain(policy, Bucket(policy, old(local), key), remote[i], local, result);
        i := i + 1;
        if key !in localByKey {
          local := local + [remoteRecord];
          GroupsSet(policy, localByKey, old(local), remote, i - 1, [remoteRecord]);
          localByKey := localByKey[key := [remoteRecord]];
          result := result.(pulled := result.pulled + 1);
          continue;
        }
        var localBucket := localByKey[key];
        if HasEqual(policy, localBucket, remoteRecord) {
          result := result.(skipped := result.skipped + 1);
          continue;
        }
        var winner := policy.resolve(key, localBucket[0], remoteRecord);
        PullConflict(policy, localBucket, remote[i - 1], local, result, winner);
        result := result.(conflicts := result.conflicts + 1);
        if winner == Aborts {
          PullAborted(policy, old(local), i, |remote|, remote);
          return None;
        }
        result := result.(resolutions := result.resolutions + [Resolution(key, winner, PullPhase)]);
        if winner == RemoteWins {
          local := local + [remoteRecord];
          GroupsSet(policy, localByKey, old(local), remote, i - 1, localBucket + [remoteRecord]);
          localByKey := localByKey[key := localBucket + [remoteRecord]];
          result := result.(pulled := result.pulled + 1);
        } else {
          result := result.(skipped := result.skipped + 1);
        }
      }
      return Some(result);
    }

    method Sync() returns (r: Option<SyncResult>)
      requires Distinct(Keys(remote))
      modifies this`local, this`remote
      ensures SyncAll(policy, old(local), old(remote)) == Synced(local, remote, r)
    {
      PushDistinct(policy, local, |local|, remote);
      hide Distinct, PushTo, PullTo;
      var a := Push();
      if a.None? { return None; }
      var b := Pull();
      if b.None? { return None; }
      return Some(Merge(a.value, b.value));
    }
  }

  // ----- buckets

  lemma EmptyBuckets<R>(p: Policy<R>)
    ensures forall k :: Bucket(p, [], k) == []
  {
  }

  lemma BucketSnoc<R>(p: Policy<R>, rs: seq<R>, n: nat)
    requires n < |rs|
    ensures forall k :: Bucket(p, rs[..n + 1], k) == Bucket(p, rs[..n], k) + if p.keyOf(rs[n]) == k then [rs[n]] else []
  {
    assert rs[..n + 1][..n] == rs[..n];
  }

  lemma {:induction false} BucketAppend<R>(p: Policy<R>, a: seq<R>, b: seq<R>, k: Text)
    ensures Bucket(p, a + b, k) == Bucket(p, a, k) + Bucket(p, b, k)
  {
    if b == [] {
      assert a + b == a;
    } else {
      assert (a + b)[..|a + b| - 1] == a + b[..|b| - 1];
      BucketAppend(p, a, b[..|b| - 1], k);
    }
  }

  lemma RepresentativeExtends<R>(p: Policy<R>, a: seq<R>, b: seq<R>, k: Text)
    ensures Representative(p, a + b, k) == if Representative(p, a, k).Some? then Representative(p, a, k) else Representative(p, b, k)
  {
    BucketAppend(p, a, b, k);
  }

  // ----- what one push leaves under each key

  /** The remote side's record under `k` after pushing `rs`, said key by key. */
  function Pushed<R>(p: Policy<R>, rs: seq<R>, remote: seq<Entry<R>>, k: Text): Option<R> {
    match (Representative(p, rs, k), Find(remote, k))
    case (None, q) => q
    case (Some(r), None) => Some(r)
    case (Some(r), Some(q)) => if Equal(p, r, q) || p.resolve(k, r, q) != LocalWins then Some(q) else Some(r)
  }

  /** The resolver throws on the conflict under `k`. */
  predicate AbortsOn<R>(p: Policy<R>, rs: seq<R>, remote: seq<Entry<R>>, k: Text) {
    match (Representative(p, rs, k), Find(remote, k))
    case (Some(r), Some(q)) => !Equal(p, r, q) && p.resolve(k, r, q) == Aborts
    case _ => false
  }

  lemma {:induction false} PushDistinct<R>(p: Policy<R>, local: seq<R>, n: nat, remote: seq<Entry<R>>)
    requires n <= |local| && Distinct(Keys(remote))
    ensures Distinct(Keys(PushTo(p, local, n, remote).remote))
  {
    hide Distinct, Bucket, Find, Assign;
    if n > 0 {
      PushDistinct(p, local, n - 1, remote);
      AssignDistinct(PushTo(p, local, n - 1, remote).remote, p.keyOf(local[n - 1]), local[n - 1]);
    }
  }

  lemma {:induction false} PushFinds<R>(p: Policy<R>, local: seq<R>, n: nat, remote: seq<Entry<R>>, k: Text)
    requires n <= |local| && !PushTo(p, local, n, remote).aborted
    ensures Find(PushTo(p, local, n, remote).remote, k) == Pushed(p, local[..n], remote, k)
  {
    hide Bucket, Find, Assign;
    if n == 0 {
      EmptyBuckets(p);
    } else {
      var r := local[n - 1];
      PushFinds(p, local, n - 1, remote, k);
      PushFinds(p, local, n - 1, remote, p.keyOf(r));
      BucketSnoc(p, local, n - 1);
      AssignFind(PushTo(p, local, n - 1, remote).remote, p.keyOf(r), r, k);
    }
  }

  /** A push throws exactly when the resolver throws on some key's representative. */
  lemma {:induction false} PushAbortsIff<R>(p: Policy<R>, local: seq<R>, n: nat, remote: seq<Entry<R>>)
    requires n <= |local|
    ensures PushTo(p, local, n, remote).aborted <==> exists k :: AbortsOn(p, local[..n], remote, k)
  {
    hide Bucket, Find, Assign, AbortsOn;
    if n == 0 {
      NobodyAborts(p, local, remote);
    } else {
      PushAbortsIff(p, local, n - 1, remote);
      var s, k := PushTo(p, local, n - 1, remote), p.keyOf(local[n - 1]);
      forall q ensures AbortsOn(p, local[..n], remote, q) <==>
                       AbortsOn(p, local[..n - 1], remote, q)
                       || (q == k && Bucket(p, local[..n - 1], k) == [] && AbortsOn(p, [local[n - 1]], remote, k))
      {
        AbortsSnoc(p, local, n - 1, remote, q);
      }
      if !s.aborted && Bucket(p, local[..n - 1], k) == [] {
        PushFinds(p, local, n - 1, remote, k);
        AloneAborts(p, local[n - 1], remote);
        assert Pushed(p, local[..n - 1], remote, k) == Find(remote, k);
        assert AbortsOn(p, local[..n], remote, k) <==> AbortsOn(p, [local[n - 1]], remote, k);
      }
      if s.aborted {
        var q :| AbortsOn(p, local[..n - 1], remote, q);
        assert AbortsOn(p, local[..n], remote, q);
      }
    }
  }

  lemma NobodyAborts<R>(p: Policy<R>, local: seq<R>, remote: seq<Entry<R>>)
    ensures forall k :: !AbortsOn(p, local[..0], remote, k)
  {
    EmptyBuckets(p);
    assert local[..0] == [];
  }

  lemma AbortsSnoc<R>(p: Policy<R>, local: seq<R>, n: nat, remote: seq<Entry<R>>, q: Text)
    requires n < |local|
    ensures var k := p.keyOf(local[n]);
            AbortsOn(p, local[..n + 1], remote, q) <==>
            AbortsOn(p, local[..n], remote, q) || (q == k && Bucket(p, local[..n], k) == [] && AbortsOn(p, [local[n]], remote, k))
  {
    BucketSnoc(p, local, n);
    OneBucket(p, Entry(p.keyOf(local[n]), local[n]));
    hide Find, Bucket;
  }

  lemma AloneAborts<R>(p: Policy<R>, r: R, remote: seq<Entry<R>>)
    ensures AbortsOn(p, [r], remote, p.keyOf(r)) <==>
            var q := Find(remote, p.keyOf(r)); q.Some? && !Equal(p, r, q.value) && p.resolve(p.keyOf(r), r, q.value) == Aborts
  {
    OneRepresents(p, r);
    hide Find, Representative;
  }

  lemma OneRepresents<R>(p: Policy<R>, r: R)
    ensures Representative(p, [r], p.keyOf(r)) == Some(r)
  {
    OneBucket(p, Entry(p.keyOf(r), r));
    hide Bucket;
  }

  // ----- convergence

  /** Every remote record sits under its own key. */
  predicate KeysMatch<R>(p: Policy<R>, remote: seq<Entry<R>>) {
    forall i :: 0 <= i < |remote| ==> p.keyOf(remote[i].val) == remote[i].key
  }

  predicate Coherent<R>(p: Policy<R>, remote: seq<Entry<R>>) { Distinct(Keys(remote)) && KeysMatch(p, remote) }

  /** Both sides know the same keys. */
  ghost predicate SameKeys<R>(p: Policy<R>, local: seq<R>, remote: seq<Entry<R>>) {
    forall k :: k in Keys(remote) <==> Representative(p, local, k).Some?
  }

  /** Every remote record is in the local log, under its key and with equal content. */
  predicate AllPresent<R>(p: Policy<R>, local: seq<R>, remote: seq<Entry<R>>) {
    forall i :: 0 <= i < |remote| ==> HasEqual(p, Bucket(p, local, remote[i].key), remote[i].val)
  }

  /** No key is left that a push would write. */
  ghost predicate Settled<R>(p: Policy<R>, local: seq<R>, remote: seq<Entry<R>>) {
    forall k :: Pushed(p, local, remote, k) == Find(remote, k)
  }

  lemma {:induction false} AssignCoherent<R>(p: Policy<R>, remote: seq<Entry<R>>, r: R)
    requires KeysMatch(p, remote)
    ensures KeysMatch(p, Assign(remote, p.keyOf(r), r))
  {
    hide Find;
    if remote != [] {
      var k, tail := p.keyOf(r), remote[1..];
      assert forall i :: 0 <= i < |tail| ==> tail[i] == remote[i + 1];
      assert KeysMatch(p, tail);
      if remote[0].key == k {
        MatchCons(p, Entry(k, r), tail);
      } else {
        AssignCoherent(p, tail, r);
        MatchCons(p, remote[0], Assign(tail, k, r));
      }
    }
  }

  lemma MatchCons<R>(p: Policy<R>, e: Entry<R>, es: seq<Entry<R>>)
    requires p.keyOf(e.val) == e.key && KeysMatch(p, es)
    ensures KeysMatch(p, [e] + es)
  {
  }

  lemma {:induction false} PushCoherent<R>(p: Policy<R>, local: seq<R>, n: nat, remote: seq<Entry<R>>)
    requires n <= |local| && KeysMatch(p, remote)
    ensures KeysMatch(p, PushTo(p, local, n, remote).remote)
  {
    hide KeysMatch, Bucket, Find, Assign;
    if n > 0 {
      PushCoherent(p, local, n - 1, remote);
      AssignCoherent(p, PushTo(p, local, n - 1, remote).remote, local[n - 1]);
    }
  }

  /** The pulled records, told apart from the ones that were there: each is a remote record. */
  ghost predicate PulledFrom<R>(local: seq<R>, after: seq<R>, remote: seq<Entry<R>>) {
    local <= after && forall j :: |local| <= j < |after| ==> exists i :: 0 <= i < |remote| && after[j] == remote[i].val
  }

  lemma PullOneAppends<R>(p: Policy<R>, bucket: seq<R>, e: Entry<R>, s: Pulling<R>)
    ensures var t := PullOne(p, bucket, e, s); t.local == s.local || t.local == s.local + [e.val]
  {
    hide HasEqual;
  }

  lemma PulledMore<R>(local: seq<R>, before: seq<R>, remote: seq<Entry<R>>, i: nat)
    requires PulledFrom(local, before, remote) && i < |remote|
    ensures PulledFrom(local, before + [remote[i].val], remote)
  {
    var after := before + [remote[i].val];
    forall j | |local| <= j < |after| ensures exists m :: 0 <= m < |remote| && after[j] == remote[m].val {
      if j < |before| { assert after[j] == before[j]; }
    }
  }

  lemma {:induction false} PullAppends<R>(p: Policy<R>, local: seq<R>, n: nat, remote: seq<Entry<R>>)
    requires n <= |remote|
    ensures PulledFrom(local, PullTo(p, local, n, remote).local, remote)
  {
    hide Bucket, PullOne, PulledFrom;
    if n == 0 {
      NothingPulled(local, remote);
    } else {
      PullAppends(p, local, n - 1, remote);
      var s := PullTo(p, local, n - 1, remote);
      PullOneAppends(p, Bucket(p, local, remote[n - 1].key), remote[n - 1], s);
      PulledMore(local, s.local, remote, n - 1);
    }
  }

  lemma NothingPulled<R>(local: seq<R>, remote: seq<Entry<R>>)
    ensures PulledFrom(local, local, remote)
  {
  }

  /** After a push a conflict met by the pull is one the remote side wins. */
  predicate RemoteWinsRest<R>(p: Policy<R>, local: seq<R>, remote: seq<Entry<R>>) {
    forall i :: 0 <= i < |remote| ==> RemoteWinsOn(p, Bucket(p, local, remote[i].key), remote[i])
  }

  predicate RemoteWinsOn<R>(p: Policy<R>, bucket: seq<R>, e: Entry<R>) {
    bucket == [] || Equal(p, bucket[0], e.val) || p.resolve(e.key, bucket[0], e.val) == RemoteWins
  }

  predicate OnlyWinner(w: Winner, rs: seq<Resolution>) { forall i :: 0 <= i < |rs| ==> rs[i].winner == w }

  lemma PullOneWins<R>(p: Policy<R>, bucket: seq<R>, e: Entry<R>, s: Pulling<R>)
    requires RemoteWinsOn(p, bucket, e)
    requires !s.aborted && OnlyWinner(RemoteWins, s.result.resolutions)
    ensures var t := PullOne(p, bucket, e, s);
            && !t.aborted && OnlyWinner(RemoteWins, t.result.resolutions)
            && t.local == if HasEqual(p, bucket, e.val) then s.local else s.local + [e.val]
  {
  }

  predicate PresentTo<R>(p: Policy<R>, local: seq<R>, remote: seq<Entry<R>>, n: nat) {
    forall i :: 0 <= i < n && i < |remote| ==> HasEqual(p, Bucket(p, local, remote[i].key), remote[i].val)
  }

  lemma PresentStep<R>(p: Policy<R>, local: seq<R>, before: seq<R>, after: seq<R>, remote: seq<Entry<R>>, n: nat)
    requires n < |remote| && PresentTo(p, before, remote, n) && local <= before && p.keyOf(remote[n].val) == remote[n].key
    requires if HasEqual(p, Bucket(p, local, remote[n].key), remote[n].val) then after == before else after == before + [remote[n].val]
    ensures PresentTo(p, after, remote, n + 1)
  {
    hide Bucket, HasEqual;
    if after == before { StillPresent(p, local, before, remote[n]); } else { AppendedPresent(p, before, remote[n]); }
    forall i | 0 <= i < n ensures HasEqual(p, Bucket(p, after, remote[i].key), remote[i].val) {
      StillPresent(p, before, after, remote[i]);
    }
  }

  lemma {:induction false} PullPresents<R>(p: Policy<R>, local: seq<R>, n: nat, remote: seq<Entry<R>>)
    requires n <= |remote| && KeysMatch(p, remote) && RemoteWinsRest(p, local, remote)
    ensures var s := PullTo(p, local, n, remote);
            !s.aborted && OnlyWinner(RemoteWins, s.result.resolutions) && PresentTo(p, s.local, remote, n)
  {
    hide Bucket, HasEqual, PullOne, PresentTo, OnlyWinner;
    if n == 0 {
      NonePresent(p, local, remote);
    } else {
      PullPresents(p, local, n - 1, remote);
      PullAppends(p, local, n - 1, remote);
      var s, e := PullTo(p, local, n - 1, remote), remote[n - 1];
      assert RemoteWinsOn(p, Bucket(p, local, e.key), e) && p.keyOf(e.val) == e.key && local <= s.local;
      hide KeysMatch, RemoteWinsRest, RemoteWinsOn, PulledFrom;
      PullOneWins(p, Bucket(p, local, e.key), e, s);
      PresentStep(p, local, s.local, PullTo(p, local, n, remote).local, remote, n - 1);
    }
  }

  lemma NonePresent<R>(p: Policy<R>, local: seq<R>, remote: seq<Entry<R>>)
    ensures PresentTo(p, local, remote, 0) && OnlyWinner(RemoteWins, [])
  {
  }

  lemma AppendedPresent<R>(p: Policy<R>, before: seq<R>, e: Entry<R>)
    requires p.keyOf(e.val) == e.key
    ensures HasEqual(p, Bucket(p, before + [e.val], e.key), e.val)
  {
    BucketAppend(p, before, [e.val], e.key);
    OneBucket(p, e);
    LastEqual(p, Bucket(p, before, e.key), e.val);
  }

  lemma OneBucket<R>(p: Policy<R>, e: Entry<R>)
    requires p.keyOf(e.val) == e.key
    ensures Bucket(p, [e.val], e.key) == [e.val]
  {
    EmptyBuckets(p);
    assert [e.val][..0] == [];
  }

  lemma LastEqual<R>(p: Policy<R>, b: seq<R>, r: R)
    ensures HasEqual(p, b + [r], r)
  {
    assert Equal(p, (b + [r])[|b|], r);
  }

  lemma PrefixHasEqual<R>(p: Policy<R>, a: seq<R>, b: seq<R>, r: R)
    requires a <= b && HasEqual(p, a, r)
    ensures HasEqual(p, b, r)
  {
    var i :| 0 <= i < |a| && Equal(p, a[i], r);
    assert Equal(p, b[i], r);
  }

  /** The log only grows, so what it holds it keeps. */
  lemma StillPresent<R>(p: Policy<R>, local: seq<R>, before: seq<R>, e: Entry<R>)
    requires local <= before && HasEqual(p, Bucket(p, local, e.key), e.val)
    ensures HasEqual(p, Bucket(p, before, e.key), e.val)
  {
    assert before == local + before[|local|..];
    BucketAppend(p, local, before[|local|..], e.key);
    PrefixHasEqual(p, Bucket(p, local, e.key), Bucket(p, before, e.key), e.val);
  }

  lemma PushSettles<R>(p: Policy<R>, local: seq<R>, remote: seq<Entry<R>>)
    requires Coherent(p, remote) && forall k :: !AbortsOn(p, local, remote, k)
    ensures !PushAll(p, local, remote).aborted
    ensures var after := PushAll(p, local, remote).remote;
            Coherent(p, after) && RemoteWinsRest(p, local, after) && Settled(p, local, after)
            && forall k :: Find(after, k) == Pushed(p, local, remote, k)
  {
    var after := PushAll(p, local, remote).remote;
    PushCoherent(p, local, |local|, remote);
    PushDistinct(p, local, |local|, remote);
    hide Bucket, Find, PushTo, Distinct, KeysMatch;
    assert local[..|local|] == local;
    PushAbortsIff(p, local, |local|, remote);
    forall k ensures Find(after, k) == Pushed(p, local, remote, k) { PushFinds(p, local, |local|, remote, k); }
    forall i | 0 <= i < |after| ensures RemoteWinsOn(p, Bucket(p, local, after[i].key), after[i]) {
      FindAt(after, i);
      assert !AbortsOn(p, local, remote, after[i].key);
    }
  }

  /** A sync throws exactly when the resolver throws on a local representative and a remote record
      that differ; the local log is then untouched. */
  lemma SyncThrowsIff<R>(p: Policy<R>, local: seq<R>, remote: seq<Entry<R>>)
    requires Coherent(p, remote)
    ensures var s := SyncAll(p, local, remote);
            && (s.result.None? <==> exists k :: AbortsOn(p, local, remote, k))
            && (s.result.None? ==> s.local == local)
  {
    hide Coherent, Bucket, Find, PushTo, PullTo, AbortsOn;
    assert local[..|local|] == local;
    PushAbortsIff(p, local, |local|, remote);
    if !exists k :: AbortsOn(p, local, remote, k) { SyncConverges(p, local, remote); }
  }

  /** What `sync` promises: from any log and any coherent remote, if the resolver does not throw,
      both sides end with the same keys, every remote record is in the log, the log only grows, no
      remote key is lost, the remote keeps the decided record under each key, and no conflict the
      pull still meets goes to the local side. */
  lemma SyncConverges<R>(p: Policy<R>, local: seq<R>, remote: seq<Entry<R>>)
    requires Coherent(p, remote) && forall k :: !AbortsOn(p, local, remote, k)
    ensures var s := SyncAll(p, local, remote);
            && s.result.Some? && Coherent(p, s.remote)
            && SameKeys(p, s.local, s.remote) && AllPresent(p, s.local, s.remote)
            && PulledFrom(local, s.local, s.remote)
            && (forall k :: k in Keys(remote) ==> k in Keys(s.remote))
            && (forall k :: Find(s.remote, k) == Pushed(p, local, remote, k))
            && Settled(p, s.local, s.remote)
            && OnlyWinner(RemoteWins, PullAll(p, local, s.remote).result.resolutions)
  {
    hide Distinct, Bucket, HasEqual, PushTo, PullTo, Representative;
    var after := PushAll(p, local, remote).remote;
    PushSettles(p, local, remote);
    PullPresents(p, local, |after|, after);
    PullAppends(p, local, |after|, after);
    var s := SyncAll(p, local, remote);
    forall k
      ensures k in Keys(remote) ==> k in Keys(s.remote)
      ensures Representative(p, local, k).Some? ==> k in Keys(s.remote)
    {
      assert Find(s.remote, k) == Pushed(p, local, remote, k);
    }
    forall k ensures k in Keys(s.remote) <==> Representative(p, s.local, k).Some? {
      KeysAgree(p, local, s.local, s.remote, k);
    }
    forall k ensures Pushed(p, s.local, s.remote, k) == Find(s.remote, k) {
      StaysSettled(p, local, s.local, s.remote, k);
    }
  }

  lemma KeysAgree<R>(p: Policy<R>, local: seq<R>, after: seq<R>, remote: seq<Entry<R>>, k: Text)
    requires Coherent(p, remote) && AllPresent(p, after, remote) && PulledFrom(local, after, remote)
    requires Representative(p, local, k).Some? ==> k in Keys(remote)
    ensures k in Keys(remote) <==> Representative(p, after, k).Some?
  {
    hide Distinct, Representative, AllPresent, PulledFrom, KeysMatch;
    if k in Keys(remote) { RemoteKeyPresent(p, after, remote, k); }
    if Representative(p, after, k).Some? && Representative(p, local, k).None? { PulledKeyKnown(p, local, after, remote, k); }
  }

  lemma RemoteKeyPresent<R>(p: Policy<R>, after: seq<R>, remote: seq<Entry<R>>, k: Text)
    requires AllPresent(p, after, remote) && k in Keys(remote)
    ensures Representative(p, after, k).Some?
  {
    hide Bucket;
    var i :| 0 <= i < |remote| && Keys(remote)[i] == k;
    assert HasEqual(p, Bucket(p, after, remote[i].key), remote[i].val);
  }

  lemma PulledKeyKnown<R>(p: Policy<R>, local: seq<R>, after: seq<R>, remote: seq<Entry<R>>, k: Text)
    requires KeysMatch(p, remote) && PulledFrom(local, after, remote)
    requires Representative(p, after, k).Some? && Representative(p, local, k).None?
    ensures k in Keys(remote)
  {
    assert forall i :: 0 <= i < |local| ==> local[i] == after[i];
    var j :| 0 <= j < |after| && p.keyOf(after[j]) == k;
    hide Bucket;
    var i :| 0 <= i < |remote| && after[j] == remote[i].val;
    assert Keys(remote)[i] == k;
  }

  /** Records the pull added represent only keys the log did not have, and stand for themselves. */
  lemma StaysSettled<R>(p: Policy<R>, local: seq<R>, after: seq<R>, remote: seq<Entry<R>>, k: Text)
    requires Coherent(p, remote) && PulledFrom(local, after, remote) && Pushed(p, local, remote, k) == Find(remote, k)
    ensures Pushed(p, after, remote, k) == Find(remote, k)
    ensures Representative(p, local, k).Some? ==> Representative(p, after, k) == Representative(p, local, k)
    ensures Representative(p, local, k).None? && Representative(p, after, k).Some? ==> Find(remote, k) == Representative(p, after, k)
  {
    var tail := after[|local|..];
    assert after == local + tail;
    RepresentativeExtends(p, local, tail, k);
    hide Distinct;
    if Representative(p, local, k).None? && Representative(p, tail, k).Some? {
      var r := Representative(p, tail, k).value;
      assert r in tail && p.keyOf(r) == k;
      var j :| 0 <= j < |tail| && tail[j] == r;
      assert tail[j] == after[|local| + j];
      var i :| 0 <= i < |remote| && r == remote[i].val;
      FindAt(remote, i);
    }
  }

  // ----- when a sync meets no conflict

  /** The local representative of `k` and the remote record under `k` both exist and differ. */
  predicate DiffersOn<R>(p: Policy<R>, rs: seq<R>, remote: seq<Entry<R>>, k: Text) {
    match (Representative(p, rs, k), Find(remote, k))
    case (Some(r), Some(q)) => !Equal(p, r, q)
    case _ => false
  }

  lemma NobodyDiffers<R>(p: Policy<R>, local: seq<R>, remote: seq<Entry<R>>)
    ensures forall k :: !DiffersOn(p, local[..0], remote, k)
  {
    EmptyBuckets(p);
    assert local[..0] == [];
  }

  /** A further record makes a difference only under its own key, and only as the first of that key. */
  lemma DiffersSnoc<R>(p: Policy<R>, local: seq<R>, n: nat, remote: seq<Entry<R>>, q: Text)
    requires n < |local|
    ensures var k := p.keyOf(local[n]);
            DiffersOn(p, local[..n + 1], remote, q) <==>
            DiffersOn(p, local[..n], remote, q)
            || (q == k && Bucket(p, local[..n], k) == [] && Find(remote, k).Some? && !Equal(p, local[n], Find(remote, k).value))
  {
    BucketSnoc(p, local, n);
    hide Find, Bucket;
  }

  lemma PushOneConflicts<R>(p: Policy<R>, r: R, s: Pushing<R>)
    ensures var q := Find(s.remote, p.keyOf(r));
            PushOne(p, r, s).result.conflicts == s.result.conflicts + if q.Some? && !Equal(p, r, q.value) then 1 else 0
  {
    hide Find, Assign;
  }

  lemma {:induction false} PushQuietIff<R>(p: Policy<R>, local: seq<R>, n: nat, remote: seq<Entry<R>>)
    requires n <= |local| && !PushTo(p, local, n, remote).aborted
    ensures PushTo(p, local, n, remote).result.conflicts == 0 <==> forall k :: !DiffersOn(p, local[..n], remote, k)
  {
    hide Bucket, Find, DiffersOn, PushOne, Representative;
    if n == 0 {
      NobodyDiffers(p, local, remote);
    } else {
      PushQuietIff(p, local, n - 1, remote);
      var s, r := PushTo(p, local, n - 1, remote), local[n - 1];
      var k := p.keyOf(r);
      forall q
        ensures DiffersOn(p, local[..n], remote, q) <==>
                DiffersOn(p, local[..n - 1], remote, q)
                || (q == k && Bucket(p, local[..n - 1], k) == [] && Find(remote, k).Some? && !Equal(p, r, Find(remote, k).value))
      {
        DiffersSnoc(p, local, n - 1, remote, q);
      }
      if Bucket(p, local[..n - 1], k) == [] {
        PushFinds(p, local, n - 1, remote, k);
        NotYetFound(p, local[..n - 1], remote, k);
        PushOneConflicts(p, r, s);
        if Find(remote, k).Some? && !Equal(p, r, Find(remote, k).value) { assert DiffersOn(p, local[..n], remote, k); }
      }
      if s.result.conflicts != 0 {
        var q :| DiffersOn(p, local[..n - 1], remote, q);
        assert DiffersOn(p, local[..n], remote, q);
      }
    }
  }

  lemma NotYetFound<R>(p: Policy<R>, rs: seq<R>, remote: seq<Entry<R>>, k: Text)
    requires Bucket(p, rs, k) == []
    ensures Pushed(p, rs, remote, k) == Find(remote, k)
  {
    hide Find, Bucket;
  }

  /** The pull meets no conflict where each bucket's first record equals the remote one. */
  lemma {:induction false} PullQuiet<R>(p: Policy<R>, local: seq<R>, n: nat, remote: seq<Entry<R>>)
    requires n <= |remote|
    requires forall i :: 0 <= i < |remote| ==> QuietOn(p, Bucket(p, local, remote[i].key), remote[i])
    ensures PullTo(p, local, n, remote).result.conflicts == 0
  {
    hide Bucket, PullOne, QuietOn;
    if n > 0 {
      PullQuiet(p, local, n - 1, remote);
      PullOneQuiet(p, Bucket(p, local, remote[n - 1].key), remote[n - 1], PullTo(p, local, n - 1, remote));
    }
  }

  predicate QuietOn<R>(p: Policy<R>, bucket: seq<R>, e: Entry<R>) { bucket == [] || Equal(p, bucket[0], e.val) }

  lemma PullOneQuiet<R>(p: Policy<R>, bucket: seq<R>, e: Entry<R>, s: Pulling<R>)
    requires QuietOn(p, bucket, e)
    ensures PullOne(p, bucket, e, s).result.conflicts == s.result.conflicts
  {
  }

  /** A sync completes without a conflict exactly when no key has a local representative and a remote
      record that differ. */
  lemma SyncQuietIff<R>(p: Policy<R>, local: seq<R>, remote: seq<Entry<R>>)
    requires Coherent(p, remote)
    ensures var r := SyncAll(p, local, remote).result;
            r.Some? && r.value.conflicts == 0 <==> forall k :: !DiffersOn(p, local, remote, k)
  {
    hide Coherent, Bucket, Find, PushTo, PullTo, AbortsOn, DiffersOn, Pushed, Representative;
    assert local[..|local|] == local;
    SyncThrowsIff(p, local, remote);
    forall k ensures AbortsOn(p, local, remote, k) ==> DiffersOn(p, local, remote, k) { AbortsDiffers(p, local, remote, k); }
    if !exists k :: AbortsOn(p, local, remote, k) {
      PushSettles(p, local, remote);
      PushQuietIff(p, local, |local|, remote);
      var after := PushAll(p, local, remote).remote;
      if forall k :: !DiffersOn(p, local, remote, k) {
        forall i | 0 <= i < |after| ensures QuietOn(p, Bucket(p, local, after[i].key), after[i]) {
          AgreedIsQuiet(p, local, remote, after, i);
        }
        PullQuiet(p, local, |after|, after);
      }
    }
  }

  lemma AbortsDiffers<R>(p: Policy<R>, local: seq<R>, remote: seq<Entry<R>>, k: Text)
    ensures AbortsOn(p, local, remote, k) ==> DiffersOn(p, local, remote, k)
  {
  }

  lemma AgreedIsQuiet<R>(p: Policy<R>, local: seq<R>, remote: seq<Entry<R>>, after: seq<Entry<R>>, i: nat)
    requires Coherent(p, after) && i < |after|
    requires var k := after[i].key; Find(after, k) == Pushed(p, local, remote, k) && !DiffersOn(p, local, remote, k)
    ensures QuietOn(p, Bucket(p, local, after[i].key), after[i])
  {
    FindAt(after, i);
    hide Find, Bucket;
  }

  // ----- when both sides end with the same records

  /** The remote holds a record equal to `r` under the key of `r`. */
  predicate Holds<R>(p: Policy<R>, remote: seq<Entry<R>>, r: R) {
    var q := Find(remote, p.keyOf(r));
    q.Some? && Equal(p, r, q.value)
  }

  /** Every record of the log is held by the remote. */
  predicate AllHeld<R>(p: Policy<R>, local: seq<R>, remote: seq<Entry<R>>) {
    forall j :: 0 <= j < |local| ==> Holds(p, remote, local[j])
  }

  predicate LocalPrevails<R>(p: Policy<R>, local: seq<R>, remote: seq<Entry<R>>, k: Text) {
    match (Representative(p, local, k), Find(remote, k))
    case (Some(r), Some(q)) => Equal(p, r, q) || p.resolve(k, r, q) == LocalWins
    case _ => true
  }

  predicate EqualsFirst<R>(p: Policy<R>, local: seq<R>, r: R) {
    var first := Representative(p, local, p.keyOf(r));
    first.Some? && Equal(p, r, first.value)
  }

  /** The first record of its key is some record of the log, with that key. */
  lemma FirstOfKey<R>(p: Policy<R>, local: seq<R>, i: nat)
    requires i < |local|
    ensures var first := Representative(p, local, p.keyOf(local[i]));
            first.Some? && first.value in local && p.keyOf(first.value) == p.keyOf(local[i])
  {
  }

  /** The pushed record equals a local record and the first one of its key exactly when these two are equal
      and the local side prevails. */
  lemma HeldIff<R>(p: Policy<R>, local: seq<R>, remote: seq<Entry<R>>, r: R)
    requires Representative(p, local, p.keyOf(r)).Some?
    ensures var k := p.keyOf(r);
            var first, q := Representative(p, local, k).value, Pushed(p, local, remote, k);
            && q.Some?
            && (Equal(p, r, q.value) && Equal(p, first, q.value) <==> EqualsFirst(p, local, r) && LocalPrevails(p, local, remote, k))
  {
    hide Find, Representative;
  }

  /** After a sync every remote record is in the log (`SyncConverges`). The other half of "both sides hold
      the same set of records" (lines 345-348): the remote holds every record of the log exactly when the
      records the log had under one key are equal and the first of them does not lose to a different remote
      one. */
  lemma SidesAgreeIff<R>(p: Policy<R>, local: seq<R>, remote: seq<Entry<R>>)
    requires Coherent(p, remote) && forall k :: !AbortsOn(p, local, remote, k)
    ensures var s := SyncAll(p, local, remote);
            AllHeld(p, s.local, s.remote) <==>
            forall i :: 0 <= i < |local| ==> EqualsFirst(p, local, local[i]) && LocalPrevails(p, local, remote, p.keyOf(local[i]))
  {
    SyncConverges(p, local, remote);
    var s := SyncAll(p, local, remote);
    hide Find, SyncAll, Distinct, LocalPrevails, EqualsFirst, Pushed, Representative, SameKeys, Settled, AllPresent, AbortsOn;
    forall i | 0 <= i < |local|
      ensures AllHeld(p, s.local, s.remote) ==> EqualsFirst(p, local, local[i]) && LocalPrevails(p, local, remote, p.keyOf(local[i]))
      ensures EqualsFirst(p, local, local[i]) && LocalPrevails(p, local, remote, p.keyOf(local[i])) ==> Holds(p, s.remote, s.local[i])
    {
      FirstOfKey(p, local, i);
      HeldIff(p, local, remote, local[i]);
      var first := Representative(p, local, p.keyOf(local[i])).value;
      var m :| 0 <= m < |local| && local[m] == first;
      assert s.local[m] == first && s.local[i] == local[i];
    }
    forall j | |local| <= j < |s.local| ensures Holds(p, s.remote, s.local[j]) { PulledHeld(p, local, s.local, s.remote, j); }
  }

  lemma PulledHeld<R>(p: Policy<R>, local: seq<R>, after: seq<R>, remote: seq<Entry<R>>, j: nat)
    requires Coherent(p, remote) && PulledFrom(local, after, remote) && |local| <= j < |after|
    ensures Holds(p, remote, after[j])
  {
    var i :| 0 <= i < |remote| && after[j] == remote[i].val;
    FindAt(remote, i);
    hide Find, Distinct;
  }

  function Values<R>(es: seq<Entry<R>>): (rs: seq<R>)
    ensures |rs| == |es| && forall i :: 0 <= i < |es| ==> rs[i] == es[i].val
  {
    seq(|es|, i requires 0 <= i < |es| => es[i].val)
  }

  /** A remote record is lost exactly when the local side prevails over it. */
  lemma KeptIff<R>(p: Policy<R>, local: seq<R>, remote: seq<Entry<R>>, after: seq<Entry<R>>)
    requires Coherent(p, remote) && forall k :: Find(after, k) == Pushed(p, local, remote, k)
    ensures AllHeld(p, Values(remote), after) <==> forall k :: DiffersOn(p, local, remote, k) ==> !LocalPrevails(p, local, remote, k)
  {
    hide Find, Distinct, Representative;
    forall i | 0 <= i < |remote|
      ensures Holds(p, after, remote[i].val) <==>
              (DiffersOn(p, local, remote, remote[i].key) ==> !LocalPrevails(p, local, remote, remote[i].key))
    {
      FindAt(remote, i);
      assert p.keyOf(remote[i].val) == remote[i].key;
    }
    forall k | DiffersOn(p, local, remote, k) ensures exists i :: 0 <= i < |remote| && remote[i].key == k {
      var i := FindWitness(remote, k);
      assert remote[i].key == k;
    }
  }

  lemma DiffersOrPrevails<R>(p: Policy<R>, local: seq<R>, remote: seq<Entry<R>>, k: Text)
    ensures DiffersOn(p, local, remote, k) || LocalPrevails(p, local, remote, k)
  {
  }

  /** Records of one key are equal. */
  predicate Alike<R>(p: Policy<R>, rs: seq<R>) {
    forall i, j :: 0 <= i < |rs| && 0 <= j < |rs| && p.keyOf(rs[i]) == p.keyOf(rs[j]) ==> Equal(p, rs[i], rs[j])
  }

  /** Where no key differs, every record equals the one the two sides share under its key. */
  lemma EqualsShared<R>(p: Policy<R>, local: seq<R>, remote: seq<Entry<R>>, i: nat)
    requires Coherent(p, remote) && (forall k :: !DiffersOn(p, local, remote, k))
    requires forall m :: 0 <= m < |local| ==> EqualsFirst(p, local, local[m])
    requires i < |local + Values(remote)|
    ensures var r := (local + Values(remote))[i];
            var first, q := Representative(p, local, p.keyOf(r)), Find(remote, p.keyOf(r));
            if first.Some? then Equal(p, r, first.value) else q.Some? && Equal(p, r, q.value)
  {
    hide Distinct, Representative, Find;
    if i >= |local| {
      FindAt(remote, i - |local|);
      assert p.keyOf(remote[i - |local|].val) == remote[i - |local|].key;
      assert !DiffersOn(p, local, remote, remote[i - |local|].key);
    }
  }

  /** A key that differs has a record of each side. */
  lemma DiffersAmong<R>(p: Policy<R>, local: seq<R>, remote: seq<Entry<R>>, k: Text) returns (i: nat, m: nat)
    requires Coherent(p, remote) && DiffersOn(p, local, remote, k)
    ensures i < |local| && m < |remote| && p.keyOf(local[i]) == k == p.keyOf(remote[m].val)
    ensures !Equal(p, local[i], remote[m].val)
  {
    hide Find, Distinct;
    var r := Representative(p, local, k).value;
    i :| 0 <= i < |local| && local[i] == r;
    m := FindWitness(remote, k);
    assert p.keyOf(remote[m].val) == remote[m].key;
  }

  lemma NotAlike<R>(p: Policy<R>, local: seq<R>, remote: seq<Entry<R>>, k: Text)
    requires Coherent(p, remote) && DiffersOn(p, local, remote, k)
    ensures !Alike(p, local + Values(remote))
  {
    hide Distinct, KeysMatch, DiffersOn;
    var i, m := DiffersAmong(p, local, remote, k);
    var all := local + Values(remote);
    assert all[i] == local[i] && all[|local| + m] == remote[m].val;
  }

  lemma AlikeIff<R>(p: Policy<R>, local: seq<R>, remote: seq<Entry<R>>)
    requires Coherent(p, remote)
    ensures Alike(p, local + Values(remote)) <==>
            (forall k :: !DiffersOn(p, local, remote, k)) && forall i :: 0 <= i < |local| ==> EqualsFirst(p, local, local[i])
  {
    var all := local + Values(remote);
    if (forall k :: !DiffersOn(p, local, remote, k)) && forall i :: 0 <= i < |local| ==> EqualsFirst(p, local, local[i]) {
      forall i | 0 <= i < |all|
        ensures var first, q := Representative(p, local, p.keyOf(all[i])), Find(remote, p.keyOf(all[i]));
                if first.Some? then Equal(p, all[i], first.value) else q.Some? && Equal(p, all[i], q.value)
      {
        EqualsShared(p, local, remote, i);
      }
    }
    if Alike(p, all) { AlikeMeans(p, local, remote); }
  }

  lemma AlikeMeans<R>(p: Policy<R>, local: seq<R>, remote: seq<Entry<R>>)
    requires Coherent(p, remote) && Alike(p, local + Values(remote))
    ensures (forall k :: !DiffersOn(p, local, remote, k)) && forall i :: 0 <= i < |local| ==> EqualsFirst(p, local, local[i])
  {
    var all := local + Values(remote);
    hide Representative, Distinct, KeysMatch, Find;
    forall i | 0 <= i < |local| ensures EqualsFirst(p, local, local[i]) {
      FirstOfKey(p, local, i);
      var first := Representative(p, local, p.keyOf(local[i])).value;
      var m :| 0 <= m < |local| && local[m] == first;
      assert all[i] == local[i] && all[m] == first;
    }
    hide DiffersOn;
    forall k ensures !DiffersOn(p, local, remote, k) {
      if DiffersOn(p, local, remote, k) { NotAlike(p, local, remote, k); }
    }
  }

  lemma HeldIffAlike<R>(p: Policy<R>, local: seq<R>, remote: seq<Entry<R>>)
    requires Coherent(p, remote)
    ensures var s := SyncAll(p, local, remote);
            s.result.Some? && AllHeld(p, s.local, s.remote) && AllHeld(p, Values(remote), s.remote) <==>
            (forall k :: !DiffersOn(p, local, remote, k)) && forall i :: 0 <= i < |local| ==> EqualsFirst(p, local, local[i])
  {
    SyncThrowsIff(p, local, remote);
    hide Find, SyncAll, Distinct, Pushed, Representative, AllHeld, EqualsFirst;
    forall k
      ensures DiffersOn(p, local, remote, k) ==> exists i :: 0 <= i < |local| && p.keyOf(local[i]) == k
      ensures AbortsOn(p, local, remote, k) ==> DiffersOn(p, local, remote, k)
      ensures DiffersOn(p, local, remote, k) || LocalPrevails(p, local, remote, k)
    {
      AbortsDiffers(p, local, remote, k);
      DiffersOrPrevails(p, local, remote, k);
      if DiffersOn(p, local, remote, k) { var i, m := DiffersAmong(p, local, remote, k); }
    }
    hide DiffersOn, LocalPrevails, AbortsOn;
    if forall k :: !AbortsOn(p, local, remote, k) {
      SyncConverges(p, local, remote);
      SidesAgreeIff(p, local, remote);
      KeptIff(p, local, remote, SyncAll(p, local, remote).remote);
    }
  }

  /** Both sides hold the same records, and these are all the records there were. */
  predicate IsUnion<R>(p: Policy<R>, local: seq<R>, remote: seq<Entry<R>>, s: Synced<R>) {
    && s.result.Some? && AllPresent(p, s.local, s.remote) && AllHeld(p, s.local, s.remote)
    && AllHeld(p, local + Values(remote), s.remote)
  }

  lemma HeldAppend<R>(p: Policy<R>, a: seq<R>, b: seq<R>, remote: seq<Entry<R>>)
    ensures AllHeld(p, a + b, remote) <==> AllHeld(p, a, remote) && AllHeld(p, b, remote)
  {
    hide Holds;
    if AllHeld(p, a + b, remote) {
      assert forall i :: 0 <= i < |a| ==> (a + b)[i] == a[i];
      assert forall i :: 0 <= i < |b| ==> (a + b)[|a| + i] == b[i];
    }
  }

  /** The header's "pure set-union" (lines 26-29): a sync completes and leaves every record of either side on
      both exactly when the records of the two sides that share a key are equal. */
  lemma UnionIff<R>(p: Policy<R>, local: seq<R>, remote: seq<Entry<R>>)
    requires Coherent(p, remote)
    ensures IsUnion(p, local, remote, SyncAll(p, local, remote)) <==> Alike(p, local + Values(remote))
  {
    hide SyncAll, Distinct, AllHeld, Alike, AllPresent, KeysMatch, DiffersOn, EqualsFirst, AbortsOn;
    SyncThrowsIff(p, local, remote);
    AlikeIff(p, local, remote);
    HeldIffAlike(p, local, remote);
    var s := SyncAll(p, local, remote);
    if s.result.Some? {
      SyncConverges(p, local, remote);
      HeldAppend(p, local, Values(remote), s.remote);
      assert s.local == local + s.local[|local|..];
      HeldAppend(p, local, s.local[|local|..], s.remote);
    }
  }

  // ----- repeating a sync

  /** The conflicts that went to the remote side: the local record keeps differing from them. */
  function Lost(rs: seq<Resolution>): seq<Resolution> {
    if rs == [] then []
    else
      var last := rs[|rs| - 1];
      Lost(rs[..|rs| - 1]) + if last.winner == RemoteWins then [last] else []
  }

  lemma LostSnoc(rs: seq<Resolution>, r: Resolution)
    ensures Lost(rs + [r]) == Lost(rs) + if r.winner == RemoteWins then [r] else []
  {
    assert (rs + [r])[..|rs|] == rs;
  }

  lemma {:induction false} LostIsEmpty(rs: seq<Resolution>)
    ensures Lost(rs) == [] <==> forall i :: 0 <= i < |rs| ==> rs[i].winner != RemoteWins
  {
    if rs != [] {
      LostIsEmpty(rs[..|rs| - 1]);
      assert forall i :: 0 <= i < |rs| - 1 ==> rs[..|rs| - 1][i] == rs[i];
    }
  }

  /** Pushing again over a settled remote writes nothing and meets the lost conflicts again. */
  lemma {:induction false} PushAgain<R>(p: Policy<R>, local: seq<R>, n: nat, remote: seq<Entry<R>>, after: seq<Entry<R>>)
    requires n <= |local| && !PushTo(p, local, n, remote).aborted && forall k :: Find(after, k) == Pushed(p, local, remote, k)
    ensures var s, t := PushTo(p, local, n, remote), PushTo(p, local, n, after);
            && t.remote == after && !t.aborted && t.result.pushed == 0 && t.result.conflicts == |t.result.resolutions|
            && t.result.resolutions == Lost(s.result.resolutions)
  {
    hide Bucket, Find, Assign, Pushed;
    if n > 0 {
      PushAgain(p, local, n - 1, remote, after);
      var s, r := PushTo(p, local, n - 1, remote), local[n - 1];
      var k := p.keyOf(r);
      if Bucket(p, local[..n - 1], k) == [] {
        PushFinds(p, local, n - 1, remote, k);
        NotYetPushed(p, local, n - 1, remote);
        PushOneAgain(p, r, s, PushTo(p, local, n - 1, after), Pushed(p, local, remote, k));
      } else {
        PushFinds(p, local, n - 1, remote, k);
      }
    }
  }

  lemma NotYetPushed<R>(p: Policy<R>, local: seq<R>, n: nat, remote: seq<Entry<R>>)
    requires n < |local| && Bucket(p, local[..n], p.keyOf(local[n])) == []
    ensures Pushed(p, local[..n], remote, p.keyOf(local[n])) == Find(remote, p.keyOf(local[n]))
    ensures Representative(p, local, p.keyOf(local[n])) == Some(local[n])
    ensures Pushed(p, local, remote, p.keyOf(local[n])) == Decided(p, local[n], Find(remote, p.keyOf(local[n])))
  {
    assert local == local[..n] + [local[n]] + local[n + 1..];
    BucketAppend(p, local[..n] + [local[n]], local[n + 1..], p.keyOf(local[n]));
    BucketAppend(p, local[..n], [local[n]], p.keyOf(local[n]));
    OneBucket(p, Entry(p.keyOf(local[n]), local[n]));
  }

  /** What a push leaves where `r` is the representative and the remote held `q`. */
  function Decided<R>(p: Policy<R>, r: R, q: Option<R>): Option<R> {
    match q
    case None => Some(r)
    case Some(x) => if Equal(p, r, x) || p.resolve(p.keyOf(r), r, x) != LocalWins then q else Some(r)
  }

  lemma PushOneAgain<R>(p: Policy<R>, r: R, s: Pushing<R>, t: Pushing<R>, kept: Option<R>)
    requires !PushOne(p, r, s).aborted && !s.aborted && !t.aborted
    requires kept == Decided(p, r, Find(s.remote, p.keyOf(r))) && Find(t.remote, p.keyOf(r)) == kept
    ensures var s', t' := PushOne(p, r, s), PushOne(p, r, t);
            && t'.remote == t.remote && !t'.aborted && t'.result.pushed == t.result.pushed
            && t'.result.conflicts - t.result.conflicts == |t'.result.resolutions| - |t.result.resolutions|
            && (t.result.resolutions == Lost(s.result.resolutions) ==> t'.result.resolutions == Lost(s'.result.resolutions))
  {
    hide Find, Assign;
    var k := p.keyOf(r);
    LostSnoc(s.result.resolutions, Resolution(k, LocalWins, PushPhase));
    LostSnoc(s.result.resolutions, Resolution(k, RemoteWins, PushPhase));
  }

  lemma PushSelf<R>(p: Policy<R>, r: R, s: Pushing<R>, i: nat)
    requires i < |s.remote| && Coherent(p, s.remote) && r == s.remote[i].val
    ensures PushOne(p, r, s) == s.(result := s.result.(skipped := s.result.skipped + 1))
  {
    FindAt(s.remote, i);
    hide Find, Distinct;
  }

  /** Records that came from the remote side cause no writes and no conflicts. */
  lemma {:induction false} PushPulled<R>(p: Policy<R>, local: seq<R>, after: seq<R>, n: nat, remote: seq<Entry<R>>)
    requires |local| <= n <= |after| && Coherent(p, remote) && PulledFrom(local, after, remote)
    requires PushTo(p, local, |local|, remote).remote == remote && !PushTo(p, local, |local|, remote).aborted
    ensures var s, t := PushTo(p, local, |local|, remote), PushTo(p, after, n, remote);
            && t.remote == remote && !t.aborted && t.result.pushed == s.result.pushed
            && t.result.conflicts == s.result.conflicts && t.result.resolutions == s.result.resolutions
    decreases n
  {
    hide PushOne, Bucket, Coherent;
    if n == |local| {
      SamePrefix(p, local, after, n, remote);
    } else {
      PushPulled(p, local, after, n - 1, remote);
      var i :| 0 <= i < |remote| && after[n - 1] == remote[i].val;
      PushSelf(p, after[n - 1], PushTo(p, after, n - 1, remote), i);
    }
  }

  lemma {:induction false} SamePrefix<R>(p: Policy<R>, a: seq<R>, b: seq<R>, n: nat, remote: seq<Entry<R>>)
    requires n <= |a| && a <= b
    ensures PushTo(p, a, n, remote) == PushTo(p, b, n, remote)
  {
    hide Bucket;
    if n > 0 {
      assert a[..n - 1] == b[..n - 1] && a[n - 1] == b[n - 1];
      SamePrefix(p, a, b, n - 1, remote);
    }
  }

  lemma {:induction false} PullAgain<R>(p: Policy<R>, local: seq<R>, n: nat, remote: seq<Entry<R>>)
    requires n <= |remote| && AllPresent(p, local, remote)
    ensures var s := PullTo(p, local, n, remote);
            s.local == local && !s.aborted && s.result == SyncResult(0, 0, 0, n, [])
  {
    hide Bucket;
    if n > 0 { PullAgain(p, local, n - 1, remote); }
  }

  /** A second sync changes neither store. It moves no record, and reports exactly the conflicts the
      first push gave to the remote side. */
  lemma SyncIsIdempotent<R>(p: Policy<R>, local: seq<R>, remote: seq<Entry<R>>)
    requires Coherent(p, remote) && forall k :: !AbortsOn(p, local, remote, k)
    ensures var s := SyncAll(p, local, remote);
            var again := SyncAll(p, s.local, s.remote);
            && again.local == s.local && again.remote == s.remote && again.result.Some?
            && again.result.value.pushed == 0 && again.result.value.pulled == 0
            && again.result.value.resolutions == Lost(PushAll(p, local, remote).result.resolutions)
            && again.result.value.conflicts == |again.result.value.resolutions|
  {
    hide Distinct, Bucket, PushTo, PullTo, SameKeys, Settled, Pushed, AbortsOn;
    SyncConverges(p, local, remote);
    var s := SyncAll(p, local, remote);
    PushAgain(p, local, |local|, remote, s.remote);
    PushPulled(p, local, s.local, |s.local|, s.remote);
    PullAgain(p, s.local, |s.remote|, s.remote);
  }

  /** The header's "zero conflicts on repeat" (lines 39-40) holds exactly when the first push gave no
      conflict to the remote side. */
  lemma RepeatIsSilentIff<R>(p: Policy<R>, local: seq<R>, remote: seq<Entry<R>>)
    requires Coherent(p, remote) && forall k :: !AbortsOn(p, local, remote, k)
    ensures var s := SyncAll(p, local, remote);
            var again := SyncAll(p, s.local, s.remote).result;
            var first := PushAll(p, local, remote).result.resolutions;
            again.Some? && (again.value.conflicts == 0 <==> forall i :: 0 <= i < |first| ==> first[i].winner != RemoteWins)
  {
    hide Coherent, PushAll, SyncAll, AbortsOn;
    SyncIsIdempotent(p, local, remote);
    LostIsEmpty(PushAll(p, local, remote).result.resolutions);
  }
}
