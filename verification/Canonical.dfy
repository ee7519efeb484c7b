/** The RFC 8785 printer of packages/aep/src/canonical.ts: normal forms, printing, and the
    recursive serialiser in the source's own imperative form. */
module Canonical {
  import opened JsonValue
  import opened KeyOrder

  const QUOTE: Unit := 0x22
  const COMMA: Unit := 0x2C
  const MINUS: Unit := 0x2D
  const COLON: Unit := 0x3A
  const LBRACKET: Unit := 0x5B
  const BACKSLASH: Unit := 0x5C
  const RBRACKET: Unit := 0x5D
  const LBRACE: Unit := 0x7B
  const RBRACE: Unit := 0x7D
  const ZERO: Unit := 0x30
  const NULL_TEXT: Text := [0x6E, 0x75, 0x6C, 0x6C]
  const TRUE_TEXT: Text := [0x74, 0x72, 0x75, 0x65]
  const FALSE_TEXT: Text := [0x66, 0x61, 0x6C, 0x73, 0x65]

  // ----- scalars

  function Digits(n: nat): (t: Text)
    ensures t != []
    ensures forall i :: 0 <= i < |t| ==> ZERO <= t[i] <= ZERO + 9
  {
    if n < 10 then [ZERO + n] else Digits(n / 10) + [ZERO + n % 10]
  }

  function PrintInt(n: int): Text {
    if n < 0 then [MINUS] + Digits(-n) else Digits(n)
  }

  predicate IsHigh(u: Unit) { 0xD800 <= u < 0xDC00 }

  predicate IsLow(u: Unit) { 0xDC00 <= u < 0xE000 }

  function HexDigit(d: nat): Unit
    requires d < 16
  {
    if d < 10 then ZERO + d else 0x61 + d - 10
  }

  function Escape4(u: Unit): Text {
    [BACKSLASH, 0x75, HexDigit(u / 16 / 16 / 16), HexDigit(u / 16 / 16 % 16), HexDigit(u / 16 % 16), HexDigit(u % 16)]
  }

  /** One code unit that is not part of a surrogate pair, as `JSON.stringify` escapes it
      (section 3.2.2.2 of RFC 8785). */
  function QuoteUnit(u: Unit): Text {
    if u == QUOTE then [BACKSLASH, QUOTE]
    else if u == BACKSLASH then [BACKSLASH, BACKSLASH]
    else if u == 8 then [BACKSLASH, 0x62]
    else if u == 9 then [BACKSLASH, 0x74]
    else if u == 10 then [BACKSLASH, 0x6E]
    else if u == 12 then [BACKSLASH, 0x66]
    else if u == 13 then [BACKSLASH, 0x72]
    else if u < 0x20 || IsHigh(u) || IsLow(u) then Escape4(u)
    else [u]
  }

  /** The inside of a quoted string; a surrogate pair is copied, a lone surrogate escaped. */
  function QuoteBody(s: Text): Text {
    if s == [] then []
    else if |s| >= 2 && IsHigh(s[0]) && IsLow(s[1]) then [s[0], s[1]] + QuoteBody(s[2..])
    else QuoteUnit(s[0]) + QuoteBody(s[1..])
  }

  function Quote(s: Text): Text {
    [QUOTE] + QuoteBody(s) + [QUOTE]
  }

  // ----- printing in member order: JSON.stringify of a value without undefined parts

  function Print(w: Value): Text {
    match w
    case Undefined => NULL_TEXT
    case Null => NULL_TEXT
    case Bool(b) => if b then TRUE_TEXT else FALSE_TEXT
    case Num(n) => PrintInt(n)
    case Str(s) => Quote(s)
    case Arr(es) => [LBRACKET] + PrintElems(es) + [RBRACKET]
    case Obj(ms) => [LBRACE] + PrintMembers(ms) + [RBRACE]
  }

  function PrintElems(es: seq<Value>): Text {
    if es == [] then []
    else if |es| == 1 then Print(es[0])
    else Print(es[0]) + [COMMA] + PrintElems(es[1..])
  }

  function PrintMember(m: Entry<Value>): Text {
    Quote(m.key) + [COLON] + Print(m.val)
  }

  function PrintMembers(ms: seq<Entry<Value>>): Text {
    if ms == [] then []
    else if |ms| == 1 then PrintMember(ms[0])
    else PrintMember(ms[0]) + [COMMA] + PrintMembers(ms[1..])
  }

  // ----- what JSON keeps of a value

  /** What `JSON.stringify` keeps: undefined members dropped, undefined slots null, order kept. */
  function Clean(v: Value): Value {
    match v
    case Undefined => Null
    case Arr(es) => Arr(CleanElems(es))
    case Obj(ms) => Obj(CleanMembers(ms))
    case _ => v
  }

  function CleanElems(es: seq<Value>): (r: seq<Value>)
    ensures |r| == |es| && forall i :: 0 <= i < |es| ==> r[i] == Clean(es[i])
  {
    if es == [] then [] else [Clean(es[0])] + CleanElems(es[1..])
  }

  function CleanMembers(ms: seq<Entry<Value>>): seq<Entry<Value>> {
    if ms == [] then []
    else if ms[0].val.Undefined? then CleanMembers(ms[1..])
    else [Entry(ms[0].key, Clean(ms[0].val))] + CleanMembers(ms[1..])
  }

  /** No undefined part, and distinct keys, at every depth. */
  predicate IsClean(w: Value) {
    match w
    case Undefined => false
    case Arr(es) => forall i :: 0 <= i < |es| ==> IsClean(es[i])
    case Obj(ms) => Distinct(Keys(ms)) && forall i :: 0 <= i < |ms| ==> IsClean(ms[i].val)
    case _ => true
  }

  /** The normal form: cleaned, with the members of every object in ascending key order. */
  function Normal(v: Value): Value {
    match v
    case Undefined => Null
    case Arr(es) => Arr(NormalElems(es))
    case Obj(ms) => Obj(Sort(NormalMembers(ms)))
    case _ => v
  }

  function NormalElems(es: seq<Value>): (r: seq<Value>)
    ensures |r| == |es| && forall i :: 0 <= i < |es| ==> r[i] == Normal(es[i])
  {
    if es == [] then [] else [Normal(es[0])] + NormalElems(es[1..])
  }

  function NormalMembers(ms: seq<Entry<Value>>): seq<Entry<Value>> {
    if ms == [] then []
    else if ms[0].val.Undefined? then NormalMembers(ms[1..])
    else [Entry(ms[0].key, Normal(ms[0].val))] + NormalMembers(ms[1..])
  }

  /** The members under the given keys, in that order. */
  function Pick<T>(es: seq<Entry<T>>, ks: seq<Text>): (r: seq<Entry<T>>)
    requires forall k :: k in ks ==> k in Keys(es)
    ensures Keys(r) == ks
    ensures forall i :: 0 <= i < |r| ==> Find(es, ks[i]) == Some(r[i].val)
  {
    if ks == [] then []
    else
      assert ks[0] in ks;
      [Entry(ks[0], Find(es, ks[0]).value)] + Pick(es, ks[1..])
  }

  function Sort<T>(es: seq<Entry<T>>): seq<Entry<T>> {
    SameMembers(SortKeys(Keys(es)), Keys(es));
    Pick(es, SortKeys(Keys(es)))
  }

  /** The canonical text; a top-level undefined prints as null. */
  function CanonicalText(v: Value): Text {
    Print(Normal(v))
  }
}
