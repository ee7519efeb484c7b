/** Hex digests and hashes of concatenated digests, as the ledger and the compressor use them. */
module Hashes {
  import opened JsonValue
  import opened Canonical
  import opened JsonParser
  import opened Utf8
  import opened Records

  predicate IsHexDigit(u: Unit) { ZERO <= u <= ZERO + 9 || 0x61 <= u <= 0x66 }

  /** A hex digest: a positive even number of lower-case hex digits. */
  predicate IsHex(t: Text) {
    |t| > 0 && |t| % 2 == 0 && forall i :: 0 <= i < |t| ==> IsHexDigit(t[i])
  }

  /** All digests are hex and equally long (64 characters for SHA-256). */
  ghost predicate HexHash(h: HashFn) {
    forall x, y :: IsHex(h(x)) && |h(x)| == |h(y)|
  }

  function Join(parts: seq<seq<int>>): seq<int> {
    if parts == [] then [] else parts[0] + Join(parts[1..])
  }

  /** Equally long parts are fixed by their concatenation, and so is how many there are. */
  lemma {:induction false} JoinInjective(a: seq<seq<int>>, b: seq<seq<int>>, n: nat)
    requires n > 0 && (forall i :: 0 <= i < |a| ==> |a[i]| == n) && (forall i :: 0 <= i < |b| ==> |b[i]| == n)
    requires Join(a) == Join(b)
    ensures a == b
  {
    assert a == [] || |Join(a)| >= |a[0]|;
    assert b == [] || |Join(b)| >= |b[0]|;
    if a != [] && b != [] {
      assert a[0] == Join(a)[..n] && Join(a[1..]) == Join(a)[n..];
      assert b[0] == Join(b)[..n] && Join(b[1..]) == Join(b)[n..];
      JoinInjective(a[1..], b[1..], n);
      assert a == [a[0]] + a[1..] && b == [b[0]] + b[1..];
    }
  }

  /** `Buffer.from(t, "hex")`: stops at the first pair that is not hex. */
  function FromHex(t: Text): Bytes {
    if |t| < 2 then []
    else match (HexValue(t[0]), HexValue(t[1]))
      case (Some(a), Some(b)) => if a < 16 && b < 16 then [a * 16 + b] + FromHex(t[2..]) else []
      case _ => []
  }

  lemma {:induction false} FromHexInjective(a: Text, b: Text)
    requires |a| == |b| && |a| % 2 == 0
    requires (forall i :: 0 <= i < |a| ==> IsHexDigit(a[i])) && (forall i :: 0 <= i < |b| ==> IsHexDigit(b[i]))
    requires FromHex(a) == FromHex(b)
    ensures a == b
  {
    if a != [] {
      HexPair(a[0], a[1], b[0], b[1]);
      var x, y := FromHex(a), FromHex(b);
      assert x[0] == y[0] && x[1..] == FromHex(a[2..]) && y[1..] == FromHex(b[2..]);
      FromHexInjective(a[2..], b[2..]);
      assert a == [a[0], a[1]] + a[2..] && b == [b[0], b[1]] + b[2..];
    }
  }

  lemma HexPair(a: Unit, b: Unit, c: Unit, d: Unit)
    requires IsHexDigit(a) && IsHexDigit(b) && IsHexDigit(c) && IsHexDigit(d)
    ensures HexValue(a).Some? && HexValue(b).Some? && HexValue(a).value < 16 && HexValue(b).value < 16
    ensures HexValue(c).Some? && HexValue(d).Some? && HexValue(c).value < 16 && HexValue(d).value < 16
    ensures HexValue(a).value * 16 + HexValue(b).value == HexValue(c).value * 16 + HexValue(d).value ==> a == c && b == d
  {
  }

  lemma {:induction false} FromHexLength(t: Text)
    requires |t| % 2 == 0 && forall i :: 0 <= i < |t| ==> IsHexDigit(t[i])
    ensures |FromHex(t)| == |t| / 2
  {
    if t != [] {
      HexPair(t[0], t[1], t[0], t[1]);
      FromHexLength(t[2..]);
    }
  }
}
