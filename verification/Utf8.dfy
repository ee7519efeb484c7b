/** UTF-8 encoding of UTF-16 text (`TextEncoder`, `TextDecoder`), and when it loses nothing. */
module Utf8 {
  import opened JsonValue
  import opened Canonical

  type Byte = b: int | 0 <= b < 256

  type Bytes = seq<Byte>

  /** The scalar value of a surrogate pair. */
  function Scalar(hi: Unit, lo: Unit): int {
    0x10000 + (hi - 0xD800) * 0x400 + (lo - 0xDC00)
  }

  function Assemble(b0: int, b1: int, b2: int, b3: int): int {
    (b0 - 0xF0) * 0x40000 + (b1 - 0x80) * 4096 + (b2 - 0x80) * 64 + (b3 - 0x80)
  }

  function EncodeUnit(u: Unit): Bytes {
    if u < 0x80 then [u]
    else if u < 0x800 then [0xC0 + u / 64, 0x80 + u % 64]
    else [0xE0 + u / 64 / 64, 0x80 + u / 64 % 64, 0x80 + u % 64]
  }

  function EncodePair(hi: Unit, lo: Unit): Bytes
    requires IsHigh(hi) && IsLow(lo)
  {
    var c := Scalar(hi, lo);
    [0xF0 + c / 64 / 64 / 64, 0x80 + c / 64 / 64 % 64, 0x80 + c / 64 % 64, 0x80 + c % 64]
  }

  /** `new TextEncoder().encode(t)`: a lone surrogate becomes U+FFFD. */
  function Encode(t: Text): Bytes {
    if t == [] then []
    else if |t| >= 2 && IsHigh(t[0]) && IsLow(t[1]) then EncodePair(t[0], t[1]) + Encode(t[2..])
    else if IsHigh(t[0]) || IsLow(t[0]) then EncodeUnit(0xFFFD) + Encode(t[1..])
    else EncodeUnit(t[0]) + Encode(t[1..])
  }

  predicate IsTail(b: Byte) { 0x80 <= b < 0xC0 }

  /** `new TextDecoder().decode(b)`; each byte that starts no sequence becomes U+FFFD. */
  function Decode(b: Bytes): Text {
    if b == [] then []
    else if b[0] < 0x80 then [b[0]] + Decode(b[1..])
    else if 0xC0 <= b[0] < 0xE0 && |b| >= 2 && IsTail(b[1]) then
      [(b[0] - 0xC0) * 64 + (b[1] - 0x80)] + Decode(b[2..])
    else if 0xE0 <= b[0] < 0xF0 && |b| >= 3 && IsTail(b[1]) && IsTail(b[2]) then
      [(b[0] - 0xE0) * 4096 + (b[1] - 0x80) * 64 + (b[2] - 0x80)] + Decode(b[3..])
    else if 0xF0 <= b[0] <= 0xF4 && |b| >= 4 && IsTail(b[1]) && IsTail(b[2]) && IsTail(b[3]) then
      var c := Assemble(b[0], b[1], b[2], b[3]);
      if 0x10000 <= c < 0x110000 then
        [0xD800 + (c - 0x10000) / 0x400, 0xDC00 + (c - 0x10000) % 0x400] + Decode(b[4..])
      else
        [0xFFFD] + Decode(b[1..])
    else [0xFFFD] + Decode(b[1..])
  }

  /** Every surrogate belongs to a pair. */
  predicate Paired(t: Text) {
    if t == [] then true
    else if |t| >= 2 && IsHigh(t[0]) && IsLow(t[1]) then Paired(t[2..])
    else !IsHigh(t[0]) && !IsLow(t[0]) && Paired(t[1..])
  }

  lemma DecodeUnit(u: Unit, more: Bytes)
    requires !IsHigh(u) && !IsLow(u)
    ensures Decode(EncodeUnit(u) + more) == [u] + Decode(more)
  {
    var e := EncodeUnit(u);
    var b := e + more;
    assert b[|e|..] == more;
    if |e| == 2 {
      assert b[0] == e[0] && b[1] == e[1];
      assert u == u / 64 * 64 + u % 64;
    } else if |e| == 3 {
      assert b[0] == e[0] && b[1] == e[1] && b[2] == e[2];
      var p: int := u / 64;
      assert u == 64 * p + u % 64 && p == 64 * (p / 64) + p % 64;
    }
  }

  lemma AssembleSplit(c: int)
    requires 0x10000 <= c < 0x110000
    ensures Assemble(0xF0 + c / 64 / 64 / 64, 0x80 + c / 64 / 64 % 64, 0x80 + c / 64 % 64, 0x80 + c % 64) == c
    ensures 0xF0 <= 0xF0 + c / 64 / 64 / 64 <= 0xF4
  {
    var p := c / 64;
    var q := p / 64;
    var r := q / 64;
    assert c == 64 * p + c % 64 && p == 64 * q + p % 64 && q == 64 * r + q % 64;
  }

  lemma ScalarSplit(hi: Unit, lo: Unit)
    requires IsHigh(hi) && IsLow(lo)
    ensures var c := Scalar(hi, lo);
            0x10000 <= c < 0x110000 && 0xD800 + (c - 0x10000) / 0x400 == hi && 0xDC00 + (c - 0x10000) % 0x400 == lo
  {
  }

  lemma DecodePair(hi: Unit, lo: Unit, more: Bytes)
    requires IsHigh(hi) && IsLow(lo)
    ensures Decode(EncodePair(hi, lo) + more) == [hi, lo] + Decode(more)
  {
    var e := EncodePair(hi, lo);
    var b := e + more;
    assert b[4..] == more && b[0] == e[0] && b[1] == e[1] && b[2] == e[2] && b[3] == e[3];
    ScalarSplit(hi, lo);
    AssembleSplit(Scalar(hi, lo));
    assert Assemble(b[0], b[1], b[2], b[3]) == Scalar(hi, lo);
  }

  /** Decoding undoes encoding on text without lone surrogates. */
  lemma {:induction false} DecodeEncode(t: Text)
    requires Paired(t)
    ensures Decode(Encode(t)) == t
  {
    if t == [] {
    } else if |t| >= 2 && IsHigh(t[0]) && IsLow(t[1]) {
      DecodePair(t[0], t[1], Encode(t[2..]));
      DecodeEncode(t[2..]);
      assert t == [t[0], t[1]] + t[2..];
    } else {
      DecodeUnit(t[0], Encode(t[1..]));
      DecodeEncode(t[1..]);
      assert t == [t[0]] + t[1..];
    }
  }

  /** The text with every lone surrogate replaced by U+FFFD. */
  function ToWellFormed(t: Text): Text {
    if t == [] then []
    else if |t| >= 2 && IsHigh(t[0]) && IsLow(t[1]) then [t[0], t[1]] + ToWellFormed(t[2..])
    else if IsHigh(t[0]) || IsLow(t[0]) then [0xFFFD] + ToWellFormed(t[1..])
    else [t[0]] + ToWellFormed(t[1..])
  }

  /** What the encoder keeps of any text: everything but which lone surrogate stood where. */
  lemma {:induction false} DecodeAny(t: Text)
    ensures Decode(Encode(t)) == ToWellFormed(t)
  {
    hide Decode, EncodeUnit, EncodePair;
    if t == [] {
      DecodeEncode([]);
    } else if |t| >= 2 && IsHigh(t[0]) && IsLow(t[1]) {
      DecodePair(t[0], t[1], Encode(t[2..]));
      DecodeAny(t[2..]);
    } else {
      DecodeUnit(if IsHigh(t[0]) || IsLow(t[0]) then 0xFFFD else t[0], Encode(t[1..]));
      DecodeAny(t[1..]);
    }
  }

  lemma {:induction false} EncodeWellFormed(t: Text)
    ensures Encode(ToWellFormed(t)) == Encode(t)
  {
    hide EncodeUnit, EncodePair;
    if t == [] {
    } else if |t| >= 2 && IsHigh(t[0]) && IsLow(t[1]) {
      EncodeWellFormed(t[2..]);
      assert ToWellFormed(t)[2..] == ToWellFormed(t[2..]);
    } else {
      EncodeWellFormed(t[1..]);
      assert ToWellFormed(t)[1..] == ToWellFormed(t[1..]);
    }
  }

  /** Exactly when two texts encode alike: they agree once lone surrogates are replaced. */
  lemma EncodesAlikeIff(a: Text, b: Text)
    ensures Encode(a) == Encode(b) <==> ToWellFormed(a) == ToWellFormed(b)
  {
    hide Encode, Decode, ToWellFormed;
    DecodeAny(a);
    DecodeAny(b);
    EncodeWellFormed(a);
    EncodeWellFormed(b);
  }

  /** Replacing changes exactly the texts with a lone surrogate. */
  lemma {:induction false} WellFormedIffPaired(t: Text)
    ensures ToWellFormed(t) == t <==> Paired(t)
  {
    if t == [] {
    } else if |t| >= 2 && IsHigh(t[0]) && IsLow(t[1]) {
      WellFormedIffPaired(t[2..]);
      assert t == [t[0], t[1]] + t[2..] && ToWellFormed(t)[2..] == ToWellFormed(t[2..]);
    } else {
      WellFormedIffPaired(t[1..]);
      assert t == [t[0]] + t[1..] && ToWellFormed(t)[1..] == ToWellFormed(t[1..]);
    }
  }

  /** So on text without lone surrogates the encoding is injective. */
  lemma EncodeInjective(a: Text, b: Text)
    requires Paired(a) && Paired(b) && Encode(a) == Encode(b)
    ensures a == b
  {
    hide Encode, ToWellFormed, Paired;
    EncodesAlikeIff(a, b);
    WellFormedIffPaired(a);
    WellFormedIffPaired(b);
  }

  /** And all lone surrogates look alike. */
  lemma LoneSurrogatesCollide(u: Unit, v: Unit)
    requires (IsHigh(u) || IsLow(u)) && (IsHigh(v) || IsLow(v))
    ensures Encode([u]) == Encode([v])
  {
    assert [u][1..] == [] && [v][1..] == [];
  }

  lemma {:induction false} PairedConcat(a: Text, b: Text)
    requires Paired(a) && Paired(b)
    ensures Paired(a + b)
  {
    if a == [] {
      assert a + b == b;
    } else if |a| >= 2 && IsHigh(a[0]) && IsLow(a[1]) {
      assert (a + b)[2..] == a[2..] + b;
      PairedConcat(a[2..], b);
    } else {
      assert (a + b)[1..] == a[1..] + b;
      PairedConcat(a[1..], b);
    }
  }

  predicate Ascii(t: Text) {
    forall i :: 0 <= i < |t| ==> t[i] < 0x80
  }

  lemma {:induction false} AsciiPaired(t: Text)
    requires Ascii(t)
    ensures Paired(t)
    ensures Encode(t) == t
  {
    if t != [] {
      AsciiPaired(t[1..]);
      assert t == [t[0]] + t[1..];
    }
  }
}
