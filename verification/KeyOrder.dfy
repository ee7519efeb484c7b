/** Ordering of object keys by UTF-16 code unit (section 3.2.3 of RFC 8785), and the uniqueness of
    the order it produces. */
module KeyOrder {
  import opened JsonValue

  /** Lexicographic order by code unit: the reference for `CompareUtf16`. */
  predicate Less(a: Text, b: Text) {
    b != [] && (a == [] || a[0] < b[0] || (a[0] == b[0] && Less(a[1..], b[1..])))
  }

  lemma {:induction false} LessIrreflexive(a: Text)
    ensures !Less(a, a)
  {
    if a != [] { LessIrreflexive(a[1..]); }
  }

  lemma {:induction false} LessTransitive(a: Text, b: Text, c: Text)
    requires Less(a, b) && Less(b, c)
    ensures Less(a, c)
  {
    if a != [] && a[0] == b[0] && b[0] == c[0] { LessTransitive(a[1..], b[1..], c[1..]); }
  }

  lemma {:induction false} LessTotal(a: Text, b: Text)
    ensures Less(a, b) || a == b || Less(b, a)
  {
    if a != [] && b != [] && a[0] == b[0] {
      LessTotal(a[1..], b[1..]);
      assert a == [a[0]] + a[1..] && b == [b[0]] + b[1..];
    }
  }

  lemma {:induction false} LessAfterCommonPrefix(p: Text, a: Text, b: Text)
    ensures Less(p + a, p + b) <==> Less(a, b)
  {
    if p == [] {
      assert p + a == a && p + b == b;
    } else {
      assert (p + a)[1..] == p[1..] + a && (p + b)[1..] == p[1..] + b;
      LessAfterCommonPrefix(p[1..], a, b);
    }
  }

  /** The comparator handed to `Array.prototype.sort`: its sign is the lexicographic order. */
  method CompareUtf16(a: Text, b: Text) returns (r: int)
    ensures r < 0 <==> Less(a, b)
    ensures r == 0 <==> a == b
    ensures r > 0 <==> Less(b, a)
  {
    var len := if |a| < |b| then |a| else |b|;
    for i := 0 to len
      invariant a[..i] == b[..i]
    {
      var diff := (a[i] as int) - (b[i] as int);
      if diff != 0 {
        assert a == a[..i] + a[i..] && b == a[..i] + b[i..];
        LessAfterCommonPrefix(a[..i], a[i..], b[i..]);
        LessAfterCommonPrefix(a[..i], b[i..], a[i..]);
        return diff;
      }
    }
    assert a == a[..len] + a[len..] && b == a[..len] + b[len..];
    LessAfterCommonPrefix(a[..len], a[len..], b[len..]);
    LessAfterCommonPrefix(a[..len], b[len..], a[len..]);
    return |a| - |b|;
  }

  // ----- sorted key lists

  predicate Ascending(ks: seq<Text>) {
    forall i, j :: 0 <= i < j < |ks| ==> Less(ks[i], ks[j])
  }

  function Insert(k: Text, ks: seq<Text>): seq<Text> {
    if ks == [] || !Less(ks[0], k) then [k] + ks else [ks[0]] + Insert(k, ks[1..])
  }

  lemma {:induction false} InsertPermutes(k: Text, ks: seq<Text>)
    ensures multiset(Insert(k, ks)) == multiset(ks) + multiset{k}
  {
    if ks != [] && Less(ks[0], k) {
      InsertPermutes(k, ks[1..]);
      assert ks == [ks[0]] + ks[1..];
    }
  }

  /** What `keys.sort(compareUtf16)` leaves behind. */
  function SortKeys(ks: seq<Text>): (r: seq<Text>)
    ensures multiset(r) == multiset(ks)
  {
    if ks == [] then
      []
    else
      InsertPermutes(ks[0], SortKeys(ks[1..]));
      assert ks == [ks[0]] + ks[1..];
      Insert(ks[0], SortKeys(ks[1..]))
  }

  lemma {:induction false} InsertAscending(k: Text, ks: seq<Text>)
    requires Ascending(ks) && k !in ks
    ensures Ascending(Insert(k, ks))
  {
    if ks == [] || !Less(ks[0], k) {
      forall j | 0 <= j < |ks| ensures Less(k, ks[j]) {
        LessTotal(k, ks[0]);
        if j > 0 { LessTransitive(k, ks[0], ks[j]); }
      }
    } else {
      var r := Insert(k, ks[1..]);
      InsertAscending(k, ks[1..]);
      InsertPermutes(k, ks[1..]);
      forall j | 0 <= j < |r| ensures Less(ks[0], r[j]) {
        assert r[j] in multiset(r);
        assert r[j] == k || r[j] in ks[1..];
      }
    }
  }

  lemma {:induction false} SortAscending(ks: seq<Text>)
    requires Distinct(ks)
    ensures Ascending(SortKeys(ks))
  {
    if ks != [] {
      SortAscending(ks[1..]);
      SameMembers(SortKeys(ks[1..]), ks[1..]);
      InsertAscending(ks[0], SortKeys(ks[1..]));
    }
  }

  /** Any two ascending lists of the same keys are equal: the sorting algorithm does not matter. */
  lemma {:induction false} AscendingUnique(a: seq<Text>, b: seq<Text>)
    requires Ascending(a) && Ascending(b)
    requires forall k :: k in a <==> k in b
    ensures a == b
  {
    assert a == [] || a[0] in b;
    assert b == [] || b[0] in a;
    if a != [] {
      var i :| 0 <= i < |b| && b[i] == a[0];
      var j :| 0 <= j < |a| && a[j] == b[0];
      if i > 0 && j > 0 {
        LessTransitive(a[0], b[0], a[0]);
        LessIrreflexive(a[0]);
        assert false;
      }
      assert a[0] == b[0];
      forall k ensures k in a[1..] <==> k in b[1..] {
        AscendingTail(a, k);
        AscendingTail(b, k);
      }
      AscendingUnique(a[1..], b[1..]);
      assert a == [a[0]] + a[1..] && b == [b[0]] + b[1..];
    }
  }

  lemma AscendingTail(a: seq<Text>, k: Text)
    requires a != [] && Ascending(a)
    ensures k in a[1..] <==> k in a && k != a[0]
  {
    LessIrreflexive(a[0]);
    assert a == [a[0]] + a[1..];
    if k in a[1..] {
      var i :| 0 <= i < |a[1..]| && a[1..][i] == k;
      assert Less(a[0], a[i + 1]);
    }
  }

  lemma AscendingDistinct(a: seq<Text>)
    requires Ascending(a)
    ensures Distinct(a)
  {
    forall i, j | 0 <= i < j < |a| ensures a[i] != a[j] {
      LessIrreflexive(a[i]);
    }
  }
}
