/** The built-in conflict strategies of the mirror, and its default keying by content digest
    (packages/aep/src/evidenceMirror.ts:88-97,163-191). */
module MirrorPolicies {
  import opened JsonValue
  import opened RoundTrip
  import opened Records
  import opened Dsse
  import opened Schema
  import opened Mirror

  datatype Strategy = LastWriterWins | PreferLocal | PreferRemote | FailOnConflict

  /** `asResolverFn` on a built-in strategy. Ties go to the local side. */
  function ResolverOf<R>(s: Strategy, createdAt: R -> int): (Text, R, R) -> Winner {
    (k, local, remote) =>
      match s
      case PreferLocal => LocalWins
      case PreferRemote => RemoteWins
      case FailOnConflict => Aborts
      case LastWriterWins => if createdAt(local) >= createdAt(remote) then LocalWins else RemoteWins
  }

  function BuiltIn<R>(keyOf: R -> Text, fingerprint: R -> Text, s: Strategy, createdAt: R -> int): Policy<R> {
    Policy(keyOf, fingerprint, ResolverOf(s, createdAt))
  }

  /** Under last-writer-wins the remote ends with the later of two differing records; a tie goes to
      the local one. */
  lemma LastWriterIsKept<R>(keyOf: R -> Text, fingerprint: R -> Text, createdAt: R -> int,
                            local: seq<R>, remote: seq<Entry<R>>, k: Text)
    requires var p := BuiltIn(keyOf, fingerprint, LastWriterWins, createdAt);
             && Coherent(p, remote)
             && Representative(p, local, k).Some? && Find(remote, k).Some?
             && !Equal(p, Representative(p, local, k).value, Find(remote, k).value)
    ensures var p := BuiltIn(keyOf, fingerprint, LastWriterWins, createdAt);
            var s := SyncAll(p, local, remote);
            var r, q := Representative(p, local, k).value, Find(remote, k).value;
            && s.result.Some? && Find(s.remote, k) == Some(if createdAt(q) > createdAt(r) then q else r)
  {
    var p := BuiltIn(keyOf, fingerprint, LastWriterWins, createdAt);
    hide Coherent, Representative, Find, SyncAll;
    SyncConverges(p, local, remote);
  }

  /** `prefer-remote` never overwrites the remote, and `prefer-local` always repeats in silence. */
  lemma PreferencesHold<R>(keyOf: R -> Text, fingerprint: R -> Text, createdAt: R -> int,
                           local: seq<R>, remote: seq<Entry<R>>, k: Text)
    requires Coherent(BuiltIn(keyOf, fingerprint, PreferRemote, createdAt), remote)
    ensures var s := SyncAll(BuiltIn(keyOf, fingerprint, PreferRemote, createdAt), local, remote);
            Find(remote, k).Some? ==> Find(s.remote, k) == Find(remote, k)
    ensures var p := BuiltIn(keyOf, fingerprint, PreferLocal, createdAt);
            var s := SyncAll(p, local, remote);
            var again := SyncAll(p, s.local, s.remote).result;
            again.Some? && again.value.conflicts == 0
  {
    SyncConverges(BuiltIn(keyOf, fingerprint, PreferRemote, createdAt), local, remote);
    var p := BuiltIn(keyOf, fingerprint, PreferLocal, createdAt);
    LocalAlwaysWins(p, local, |local|, remote);
    hide Representative, Find, SyncAll, PushTo;
    RepeatIsSilentIff(p, local, remote);
  }

  lemma {:induction false} LocalAlwaysWins<R>(p: Policy<R>, local: seq<R>, n: nat, remote: seq<Entry<R>>)
    requires n <= |local| && forall k, a, b :: p.resolve(k, a, b) == LocalWins
    ensures OnlyWinner(LocalWins, PushTo(p, local, n, remote).result.resolutions)
  {
    hide Bucket, Find, Assign;
    if n > 0 { LocalAlwaysWins(p, local, n - 1, remote); }
  }

  /** `fail` throws exactly when some key has differing records on the two sides. */
  lemma FailReportsDifferences<R>(keyOf: R -> Text, fingerprint: R -> Text, createdAt: R -> int,
                                  local: seq<R>, remote: seq<Entry<R>>)
    requires Coherent(BuiltIn(keyOf, fingerprint, FailOnConflict, createdAt), remote)
    ensures var p := BuiltIn(keyOf, fingerprint, FailOnConflict, createdAt);
            SyncAll(p, local, remote).result.None? <==>
            exists k :: Representative(p, local, k).Some? && Find(remote, k).Some?
                        && !Equal(p, Representative(p, local, k).value, Find(remote, k).value)
  {
    var p := BuiltIn(keyOf, fingerprint, FailOnConflict, createdAt);
    hide Coherent, Representative, Find, SyncAll;
    SyncThrowsIff(p, local, remote);
    forall k
      ensures AbortsOn(p, local, remote, k) <==>
              Representative(p, local, k).Some? && Find(remote, k).Some?
              && !Equal(p, Representative(p, local, k).value, Find(remote, k).value)
    {
    }
  }

  /** Repeating a sync is not always silent: where the remote side won, the local representative is
      compared again. Here one local record, one different remote record, and `prefer-remote`. */
  lemma RepeatCanConflict()
    ensures var p := BuiltIn((r: Unit) => [], (r: Unit) => [r], PreferRemote, (r: Unit) => 0);
            var s := SyncAll(p, [1], [Entry([], 2)]);
            var again := SyncAll(p, s.local, s.remote).result;
            Coherent(p, [Entry([], 2)]) && again.Some? && again.value.conflicts != 0
  {
    var p := BuiltIn((r: Unit) => [], (r: Unit) => [r], PreferRemote, (r: Unit) => 0);
    var local: seq<Unit>, remote: seq<Entry<Unit>> := [1], [Entry([], 2)];
    EmptyBuckets(p);
    assert local[..0] == [];
    var first := PushAll(p, local, remote).result.resolutions;
    assert Find(remote, []) == Some(2) && !Equal(p, 1, 2);
    assert PushTo(p, local, 1, remote).result.resolutions == [Resolution([], RemoteWins, PushPhase)];
    hide SyncAll, PushTo, Find;
    RepeatIsSilentIff(p, local, remote);
    assert first[0].winner == RemoteWins;
  }

  // ----- the default key: the record digest

  /** `contentDigestKeyOf` and `recordFingerprint`. */
  function DefaultPolicy(h: HashFn, resolve: (Text, Record, Record) -> Winner): Policy<Record> {
    Policy((r: Record) => Digest(h, r), (r: Record) => h(CanonicalBytes(r)), resolve)
  }

  /** Equal fingerprints mean equal records, or a collision. */
  lemma FingerprintFixesRecord(h: HashFn, a: Record, b: Record)
    ensures h(CanonicalBytes(a)) == h(CanonicalBytes(b)) ==> SameContent(a, b) || Collide(h, CanonicalBytes(a), CanonicalBytes(b))
    ensures SameContent(a, b) ==> h(CanonicalBytes(a)) == h(CanonicalBytes(b))
  {
    BytesDecideContent(a, b);
  }

  /** After a sync under the default key every remote record is in the local log with equal content,
      or it collides with the local record found in its place. */
  lemma DefaultSyncCopiesRecords(h: HashFn, resolve: (Text, Record, Record) -> Winner,
                                 local: seq<Record>, remote: seq<Entry<Record>>, i: nat) returns (r: Record)
    requires var p := DefaultPolicy(h, resolve);
             Coherent(p, remote) && (forall k :: !AbortsOn(p, local, remote, k)) && i < |SyncAll(p, local, remote).remote|
    ensures var s := SyncAll(DefaultPolicy(h, resolve), local, remote);
            && r in s.local && Digest(h, r) == s.remote[i].key
            && (SameContent(r, s.remote[i].val) || Collide(h, CanonicalBytes(r), CanonicalBytes(s.remote[i].val)))
  {
    hide Digest, CanonicalBytes, SameContent, WellFormed, SyncAll, Coherent, AbortsOn, Pushed;
    var p := DefaultPolicy(h, resolve);
    SyncConverges(p, local, remote);
    var s := SyncAll(p, local, remote);
    var bucket := Bucket(p, s.local, s.remote[i].key);
    assert HasEqual(p, bucket, s.remote[i].val);
    var j :| 0 <= j < |bucket| && Equal(p, bucket[j], s.remote[i].val);
    r := bucket[j];
    FingerprintFixesRecord(h, r, s.remote[i].val);
  }

  /** Two records with one digest and two fingerprints carry the same unsigned content and different
      signatures, or collide; and the other way round. */
  lemma DifferenceIsResigning(h: HashFn, a: Record, b: Record)
    requires Digest(h, a) == Digest(h, b)
    ensures h(CanonicalBytes(a)) != h(CanonicalBytes(b)) ==> Resigned(a, b) || RecordsCollide(h, a, b)
    ensures Resigned(a, b) ==> h(CanonicalBytes(a)) != h(CanonicalBytes(b)) || Collide(h, CanonicalBytes(a), CanonicalBytes(b))
  {
    hide CanonicalBytes, SameContent, WellFormed, Digest, SameUnsigned;
    DigestFixesContent(h, a, b);
    FingerprintFixesRecord(h, a, b);
  }

  /** The same record signed differently. */
  predicate Resigned(a: Record, b: Record) { SameUnsigned(a, b) && !SameContent(a, b) }

  /** Under `k` the remote holds the local representative signed differently. */
  predicate ResignedOn(p: Policy<Record>, local: seq<Record>, remote: seq<Entry<Record>>, k: Text) {
    match (Representative(p, local, k), Find(remote, k))
    case (Some(a), Some(b)) => Resigned(a, b)
    case _ => false
  }

  predicate CollidesOn(h: HashFn, p: Policy<Record>, local: seq<Record>, remote: seq<Entry<Record>>, k: Text) {
    match (Representative(p, local, k), Find(remote, k))
    case (Some(a), Some(b)) => RecordsCollide(h, a, b) || Collide(h, CanonicalBytes(a), CanonicalBytes(b))
    case _ => false
  }

  lemma DiffersIsResigned(h: HashFn, resolve: (Text, Record, Record) -> Winner, local: seq<Record>, remote: seq<Entry<Record>>, k: Text)
    requires Coherent(DefaultPolicy(h, resolve), remote)
    ensures var p := DefaultPolicy(h, resolve);
            CollidesOn(h, p, local, remote, k) || (DiffersOn(p, local, remote, k) <==> ResignedOn(p, local, remote, k))
  {
    var p := DefaultPolicy(h, resolve);
    hide CanonicalBytes, SameContent, WellFormed, Digest, Resigned, RecordsCollide, Collide, Find, Distinct;
    match (Representative(p, local, k), Find(remote, k)) {
      case (Some(a), Some(b)) =>
        var i := FindWitness(remote, k);
        assert p.keyOf(a) == k && p.keyOf(b) == k;
        DifferenceIsResigning(h, a, b);
      case _ =>
    }
  }

  /** The header says the default key never conflicts (lines 26-29). The key leaves the signature out
      and the fingerprint does not, so a sync is free of conflicts exactly when the remote holds no
      local representative signed differently; anything else needs a hash collision. */
  lemma DefaultQuietIff(h: HashFn, resolve: (Text, Record, Record) -> Winner, local: seq<Record>, remote: seq<Entry<Record>>)
    requires Coherent(DefaultPolicy(h, resolve), remote)
    ensures var p := DefaultPolicy(h, resolve);
            var r := SyncAll(p, local, remote).result;
            || (exists k :: CollidesOn(h, p, local, remote, k))
            || (r.Some? && r.value.conflicts == 0 <==> forall k :: !ResignedOn(p, local, remote, k))
  {
    var p := DefaultPolicy(h, resolve);
    hide Coherent, SyncAll, DiffersOn, ResignedOn, CollidesOn;
    SyncQuietIff(p, local, remote);
    forall k ensures CollidesOn(h, p, local, remote, k) || (DiffersOn(p, local, remote, k) <==> ResignedOn(p, local, remote, k)) {
      DiffersIsResigned(h, resolve, local, remote, k);
    }
  }

  /** A record carrying a signature block. */
  function SignedWith(u: Record, keyId: Text, sig: Text): Record {
    BlocksWellFormed([], keyId, sig);
    Put(u, SIGNATURE, SignatureBlock(keyId, sig))
  }

  lemma {:induction false} WithoutAssign<T>(es: seq<Entry<T>>, k: Text, x: T, ks: set<Text>)
    requires k in ks
    ensures Without(Assign(es, k, x), ks) == Without(es, ks)
  {
    if es == [] {
      assert [Entry(k, x)][1..] == [];
    } else {
      WithoutAssign(es[1..], k, x, ks);
      assert Assign(es, k, x)[1..] == (if es[0].key == k then es[1..] else Assign(es[1..], k, x));
    }
  }

  lemma SignaturesDiffer(u: Record, keyId: Text, sig: Text, other: Text)
    requires sig != other
    ensures Resigned(SignedWith(u, keyId, sig), SignedWith(u, keyId, other))
  {
    var a, b := SignedWith(u, keyId, sig), SignedWith(u, keyId, other);
    BlocksWellFormed([], keyId, sig);
    BlocksWellFormed([], keyId, other);
    var x: Record, y: Record := SignatureBlock(keyId, sig), SignatureBlock(keyId, other);
    WithoutAssign(u.members, SIGNATURE, x, {SIGNATURE, DSSE_ENVELOPE});
    WithoutAssign(u.members, SIGNATURE, y, {SIGNATURE, DSSE_ENVELOPE});
    SameContentReflexive(Unsigned(u));
    assert Unsigned(a) == Unsigned(u) == Unsigned(b);
    BlockSig(keyId, sig);
    BlockSig(keyId, other);
    hide SignatureBlock, Lit, Get, WellFormed, Without, Put;
    if SameContent(a, b) {
      PutGet(u, SIGNATURE, x, SIGNATURE);
      PutGet(u, SIGNATURE, y, SIGNATURE);
      SameContentGet(a, b, SIGNATURE);
      SameContentGet(x, y, SIG);
    }
  }

  lemma BlockSig(keyId: Text, sig: Text)
    ensures Get(SignatureBlock(keyId, sig), SIG) == Str(sig)
  {
    BlocksWellFormed([], keyId, sig);
    hide Lit, WellFormed;
    FindAt(SignatureBlock(keyId, sig).members, 2);
  }

  /** One record under two signatures: a default sync of the one with the other reports a conflict. */
  lemma ResigningConflicts(h: HashFn, createdAt: Record -> int, u: Record, keyId: Text, sig: Text, other: Text)
    requires sig != other
    ensures var p := DefaultPolicy(h, ResolverOf<Record>(LastWriterWins, createdAt));
            var a, b := SignedWith(u, keyId, sig), SignedWith(u, keyId, other);
            var remote := [Entry(Digest(h, b), b)];
            var r := SyncAll(p, [a], remote).result;
            Coherent(p, remote) && r.Some? && (r.value.conflicts != 0 || Collide(h, CanonicalBytes(a), CanonicalBytes(b)))
  {
    var p := DefaultPolicy(h, ResolverOf<Record>(LastWriterWins, createdAt));
    var a, b := SignedWith(u, keyId, sig), SignedWith(u, keyId, other);
    var remote := [Entry(Digest(h, b), b)];
    SignaturesDiffer(u, keyId, sig, other);
    hide SignedWith, CanonicalBytes, Digest, SameContent, SameUnsigned, WellFormed, SyncAll, Representative;
    DigestFixesContent(h, a, b);
    DifferenceIsResigning(h, a, b);
    OneRepresents(p, a);
    assert Find(remote, Digest(h, a)) == Some(b);
    SyncThrowsIff(p, [a], remote);
    SyncQuietIff(p, [a], remote);
    assert DiffersOn(p, [a], remote, Digest(h, a)) || Collide(h, CanonicalBytes(a), CanonicalBytes(b));
  }

  // ----- the default key and "pure set-union"

  /** Some two of the records have one digest or one fingerprint without the content it stands for. */
  ghost predicate AnyCollide(h: HashFn, rs: seq<Record>) {
    exists i, j :: 0 <= i < |rs| && 0 <= j < |rs|
                   && (RecordsCollide(h, rs[i], rs[j]) || Collide(h, CanonicalBytes(rs[i]), CanonicalBytes(rs[j])))
  }

  /** The header promises a pure set-union under the default key (lines 26-29). A sync completes and leaves
      both sides with every record of either exactly when no two of those records are one record signed
      differently; anything else needs a hash collision. */
  lemma DefaultUnionIff(h: HashFn, resolve: (Text, Record, Record) -> Winner, local: seq<Record>, remote: seq<Entry<Record>>)
    requires Coherent(DefaultPolicy(h, resolve), remote)
    ensures var p, all := DefaultPolicy(h, resolve), local + Values(remote);
            || AnyCollide(h, all)
            || (IsUnion(p, local, remote, SyncAll(p, local, remote)) <==>
                forall i, j :: 0 <= i < |all| && 0 <= j < |all| ==> !Resigned(all[i], all[j]))
  {
    var p, all := DefaultPolicy(h, resolve), local + Values(remote);
    UnionIff(p, local, remote);
    hide Coherent, SyncAll, IsUnion, Digest, CanonicalBytes, SameContent, WellFormed, SameUnsigned, RecordsCollide, Collide, Resigned;
    if !AnyCollide(h, all) {
      forall i, j | 0 <= i < |all| && 0 <= j < |all|
        ensures Resigned(all[i], all[j]) <==> p.keyOf(all[i]) == p.keyOf(all[j]) && !Equal(p, all[i], all[j])
      {
        ResignedIff(h, all[i], all[j]);
      }
    }
  }

  lemma ResignedIff(h: HashFn, a: Record, b: Record)
    ensures || RecordsCollide(h, a, b) || Collide(h, CanonicalBytes(a), CanonicalBytes(b))
            || (Resigned(a, b) <==> Digest(h, a) == Digest(h, b) && h(CanonicalBytes(a)) != h(CanonicalBytes(b)))
  {
    hide CanonicalBytes, SameContent, WellFormed, Digest, SameUnsigned, RecordsCollide, Collide;
    DigestFixesContent(h, a, b);
    if Digest(h, a) == Digest(h, b) {
      hide Resigned;
      DifferenceIsResigning(h, a, b);
    }
  }

  lemma PairEqualsFirst(p: Policy<Record>, a: Record, b: Record)
    requires p.keyOf(a) == p.keyOf(b)
    ensures EqualsFirst(p, [a, b], b) <==> Equal(p, b, a)
  {
    OneRepresents(p, a);
    RepresentativeExtends(p, [a], [b], p.keyOf(a));
    assert [a] + [b] == [a, b];
    hide Representative;
  }

  /** A log that holds one record under two signatures: after a sync with an empty remote the log has a record
      that the remote does not hold. */
  lemma SecondSignatureStaysLocal(h: HashFn, createdAt: Record -> int, u: Record, keyId: Text, sig: Text, other: Text)
    requires sig != other
    ensures var p := DefaultPolicy(h, ResolverOf<Record>(LastWriterWins, createdAt));
            var a, b := SignedWith(u, keyId, sig), SignedWith(u, keyId, other);
            var s := SyncAll(p, [a, b], []);
            s.result.Some? && (!AllHeld(p, s.local, s.remote) || Collide(h, CanonicalBytes(a), CanonicalBytes(b)))
  {
    var p := DefaultPolicy(h, ResolverOf<Record>(LastWriterWins, createdAt));
    var a, b := SignedWith(u, keyId, sig), SignedWith(u, keyId, other);
    SignaturesDiffer(u, keyId, sig, other);
    hide SignedWith, CanonicalBytes, Digest, SameContent, SameUnsigned, WellFormed, SyncAll, Collide;
    DigestFixesContent(h, a, b);
    DifferenceIsResigning(h, a, b);
    PairEqualsFirst(p, a, b);
    hide EqualsFirst, Representative;
    SyncThrowsIff(p, [a, b], []);
    SidesAgreeIff(p, [a, b], []);
    assert EqualsFirst(p, [a, b], [a, b][1]) <==> Equal(p, b, a);
  }
}
