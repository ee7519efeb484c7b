/** `serializeValue` in the source's own form: a comparator sort of the keys, a loop that collects
    the printed members, and a join. It computes the canonical text. */
module Serializer {
  import opened JsonValue
  import opened KeyOrder
  import opened Canonical
  import opened NormalForm
  import opened Utf8
  import opened RoundTrip

  /** `parts.join(",")`. */
  function Join(parts: seq<Text>): Text {
    if parts == [] then []
    else if |parts| == 1 then parts[0]
    else parts[0] + [COMMA] + Join(parts[1..])
  }

  lemma {:induction false} JoinElems(es: seq<Value>, parts: seq<Text>)
    requires |parts| == |es| && forall i :: 0 <= i < |es| ==> parts[i] == Print(es[i])
    ensures Join(parts) == PrintElems(es)
  {
    if |es| > 1 { JoinElems(es[1..], parts[1..]); }
  }

  lemma {:induction false} JoinMembers(ms: seq<Entry<Value>>, parts: seq<Text>)
    requires |parts| == |ms| && forall i :: 0 <= i < |ms| ==> parts[i] == PrintMember(ms[i])
    ensures Join(parts) == PrintMembers(ms)
  {
    if |ms| > 1 { JoinMembers(ms[1..], parts[1..]); }
  }

  /** The printed members under the given keys, skipping undefined ones. */
  function PairTexts(v: Value, ks: seq<Text>): seq<Text> {
    if ks == [] then []
    else if Get(v, ks[0]).Undefined? then PairTexts(v, ks[1..])
    else [Quote(ks[0]) + [COLON] + CanonicalText(Get(v, ks[0]))] + PairTexts(v, ks[1..])
  }

  function DefinedKeys(v: Value, ks: seq<Text>): seq<Text> {
    if ks == [] then []
    else if Get(v, ks[0]).Undefined? then DefinedKeys(v, ks[1..])
    else [ks[0]] + DefinedKeys(v, ks[1..])
  }

  lemma {:induction false} DefinedKeysAscending(v: Value, ks: seq<Text>)
    requires Ascending(ks)
    ensures Ascending(DefinedKeys(v, ks))
    ensures forall k :: k in DefinedKeys(v, ks) <==> k in ks && !Get(v, k).Undefined?
  {
    if ks != [] {
      DefinedKeysAscending(v, ks[1..]);
      forall k | k in ks[1..] ensures Less(ks[0], k) {
        var i :| 0 <= i < |ks[1..]| && ks[1..][i] == k;
        assert ks[i + 1] == k;
      }
      assert ks == [ks[0]] + ks[1..];
    }
  }

  lemma {:induction false} PairTextsAre(v: Value, ks: seq<Text>)
    ensures |PairTexts(v, ks)| == |DefinedKeys(v, ks)|
    ensures forall i :: 0 <= i < |PairTexts(v, ks)| ==>
              var k := DefinedKeys(v, ks)[i];
              PairTexts(v, ks)[i] == PrintMember(Entry(k, Normal(Get(v, k))))
  {
    hide Get, Quote;
    if ks != [] { PairTextsAre(v, ks[1..]); }
  }

  /** Sorting the keys and then skipping undefined members prints the normal form. */
  lemma PairTextsPrint(v: Value)
    requires WellFormed(v) && v.Obj?
    ensures Join(PairTexts(v, SortKeys(Keys(v.members)))) == PrintMembers(Sort(NormalMembers(v.members)))
  {
    var ms := NormalMembers(v.members);
    var ks := SortKeys(Keys(v.members));
    var ns := SortKeys(Keys(ms));
    SameMembers(ks, Keys(v.members));
    NormalMembersKeys(v.members);
    SameMembers(ns, Keys(ms));
    SortAscending(Keys(v.members));
    SortAscending(Keys(ms));
    DefinedKeysAscending(v, ks);
    forall k ensures k in ns <==> k in DefinedKeys(v, ks) {
      FindNormal(v.members, k);
    }
    AscendingUnique(ns, DefinedKeys(v, ks));
    forall k | k in DefinedKeys(v, ks) ensures Find(ms, k) == Some(Normal(Get(v, k))) {
      FindNormal(v.members, k);
    }
    PairTextsAre(v, ks);
    var picked := Pick(ms, ns);
    forall i | 0 <= i < |picked| ensures PairTexts(v, ks)[i] == PrintMember(picked[i]) {
      assert picked[i] == Entry(ns[i], Normal(Get(v, ns[i])));
    }
    JoinMembers(picked, PairTexts(v, ks));
  }

  /** `keys.sort(compareUtf16)`, by insertion. */
  method SortWithComparator(keys: seq<Text>) returns (r: seq<Text>)
    requires Distinct(keys)
    ensures r == SortKeys(keys)
  {
    r := [];
    var i := |keys|;
    while i > 0
      invariant 0 <= i <= |keys| && r == SortKeys(keys[i..])
    {
      i := i - 1;
      assert keys[i..][1..] == keys[i + 1..];
      r := InsertWithComparator(keys[i], r);
    }
    assert keys[0..] == keys;
  }

  lemma {:induction false} InsertAfter(k: Text, p: seq<Text>, q: seq<Text>)
    requires (forall i :: 0 <= i < |p| ==> Less(p[i], k)) && (q == [] || !Less(q[0], k))
    ensures Insert(k, p + q) == p + ([k] + q)
  {
    hide Less;
    if p == [] {
      assert p + q == q && p + ([k] + q) == [k] + q;
    } else {
      assert (p + q)[0] == p[0] && (p + q)[1..] == p[1..] + q;
      InsertAfter(k, p[1..], q);
      assert p + ([k] + q) == [p[0]] + (p[1..] + ([k] + q));
    }
  }

  method InsertWithComparator(k: Text, ks: seq<Text>) returns (r: seq<Text>)
    ensures r == Insert(k, ks)
  {
    var j := 0;
    while j < |ks|
      invariant 0 <= j <= |ks|
      invariant forall i :: 0 <= i < j ==> Less(ks[i], k)
    {
      var c := CompareUtf16(ks[j], k);
      if c >= 0 { break; }
      j := j + 1;
    }
    InsertAfter(k, ks[..j], ks[j..]);
    assert ks[..j] + ks[j..] == ks;
    r := ks[..j] + ([k] + ks[j..]);
  }

  /** `serializeValue`: undefined has no text, everything else has its canonical text. */
  method SerializeValue(v: Value) returns (r: Option<Text>)
    requires WellFormed(v)
    ensures r == if v.Undefined? then None else Some(CanonicalText(v))
    decreases v, 2
  {
    match v {
      case Undefined => return None;
      case Arr(es) =>
        var parts := SerializeElems(es);
        JoinElems(NormalElems(es), parts);
        return Some([LBRACKET] + Join(parts) + [RBRACKET]);
      case Obj(ms) =>
        var pairs := SerializePairs(v);
        PairTextsPrint(v);
        return Some([LBRACE] + Join(pairs) + [RBRACE]);
      case _ => return Some(Print(v));
    }
  }

  /** The array branch: `map((v) => serializeValue(v) ?? "null")`. */
  method SerializeElems(es: seq<Value>) returns (parts: seq<Text>)
    requires forall i :: 0 <= i < |es| ==> WellFormed(es[i])
    ensures |parts| == |es| && forall i :: 0 <= i < |es| ==> parts[i] == CanonicalText(es[i])
    decreases es, 0
  {
    parts := [];
    for i := 0 to |es|
      invariant |parts| == i
      invariant forall j :: 0 <= j < i ==> parts[j] == CanonicalText(es[j])
    {
      var text := SerializeValue(es[i]);
      parts := parts + [match text case Some(t) => t case None => NULL_TEXT];
    }
  }

  /** One property of an object, looked up and printed. */
  method SerializeProperty(v: Value, k: Text) returns (text: Option<Text>)
    requires WellFormed(v) && v.Obj? && k in Keys(v.members)
    ensures text == if Get(v, k).Undefined? then None else Some(CanonicalText(Get(v, k)))
    decreases v, 0
  {
    ghost var j := FindWitness(v.members, k);
    assert v.members[j].val == Get(v, k);
    text := SerializeValue(Get(v, k));
  }

  /** The object branch: sort the keys, look each one up, push the printed pair. */
  method SerializePairs(v: Value) returns (pairs: seq<Text>)
    requires WellFormed(v) && v.Obj?
    ensures pairs == PairTexts(v, SortKeys(Keys(v.members)))
    decreases v, 1
  {
    var keys := SortWithComparator(Keys(v.members));
    SameMembers(keys, Keys(v.members));
    hide WellFormed, Distinct, SortKeys, Get, CanonicalText, Quote;
    pairs := [];
    for i := 0 to |keys|
      invariant pairs + PairTexts(v, keys[i..]) == PairTexts(v, keys)
    {
      var k := keys[i];
      assert k in keys && keys[i..][1..] == keys[i + 1..];
      var text := SerializeProperty(v, k);
      if text.Some? {
        pairs := pairs + [Quote(k) + [COLON] + text.value];
      }
    }
  }

  /** `canonicalBytes`. */
  method SerializeBytes(v: Value) returns (r: Bytes)
    requires WellFormed(v)
    ensures r == CanonicalBytes(v)
  {
    var text := SerializeValue(v);
    r := Encode(match text case Some(t) => t case None => NULL_TEXT);
  }
}
