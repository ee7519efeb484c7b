/** A JSON parser (RFC 8259, integers only), the inverse of the printer: it is what `JSON.parse`
    does to the texts the AEP package prints, and the partner of the canonical form. */
module JsonParser {
  import opened JsonValue
  import opened Canonical

  datatype Parsed<+T> = Fail | Ok(value: T, rest: Text)

  predicate IsSpace(u: Unit) { u == 0x20 || u == 9 || u == 10 || u == 13 }

  function SkipSpace(t: Text): (r: Text)
    ensures |r| <= |t|
  {
    if t != [] && IsSpace(t[0]) then SkipSpace(t[1..]) else t
  }

  function ReadDigits(t: Text, acc: nat): (r: (nat, Text))
    ensures |r.1| <= |t|
  {
    if t != [] && IsDigit(t[0]) then ReadDigits(t[1..], acc * 10 + (t[0] - ZERO)) else (acc, t)
  }

  function ReadNat(t: Text): (r: Parsed<nat>)
    ensures r.Ok? ==> |r.rest| < |t|
  {
    if t == [] || !IsDigit(t[0]) then Fail
    else if t[0] == ZERO then Ok(0, t[1..])
    else var (n, rest) := ReadDigits(t[1..], t[0] - ZERO); Ok(n, rest)
  }

  function ReadInt(t: Text): (r: Parsed<int>)
    ensures r.Ok? ==> |r.rest| < |t|
  {
    if t != [] && t[0] == MINUS then
      match ReadNat(t[1..])
      case Ok(n, rest) => Ok(-(n as int), rest)
      case Fail => Fail
    else
      match ReadNat(t)
      case Ok(n, rest) => Ok(n, rest)
      case Fail => Fail
  }

  function HexValue(u: Unit): Option<nat> {
    if IsDigit(u) then Some(u - ZERO)
    else if 0x61 <= u <= 0x66 then Some(u - 0x61 + 10)
    else if 0x41 <= u <= 0x46 then Some(u - 0x41 + 10)
    else None
  }

  function ReadHex4(t: Text): Option<nat> {
    if |t| < 4 then None
    else match (HexValue(t[0]), HexValue(t[1]), HexValue(t[2]), HexValue(t[3]))
      case (Some(a), Some(b), Some(c), Some(d)) => Some(a * 4096 + b * 256 + c * 16 + d)
      case _ => None
  }

  function SimpleEscape(u: Unit): Option<Unit> {
    if u == QUOTE || u == BACKSLASH || u == 0x2F then Some(u)
    else if u == 0x62 then Some(8)
    else if u == 0x74 then Some(9)
    else if u == 0x6E then Some(10)
    else if u == 0x66 then Some(12)
    else if u == 0x72 then Some(13)
    else None
  }

  /** The inside of a string, up to and including the closing quote. */
  function ReadString(t: Text): (r: Parsed<Text>)
    ensures r.Ok? ==> |r.rest| < |t|
  {
    if t == [] || t[0] < 0x20 then Fail
    else if t[0] == QUOTE then Ok([], t[1..])
    else if t[0] != BACKSLASH then Cons(t[0], ReadString(t[1..]))
    else if |t| == 1 then Fail
    else if t[1] == 0x75 then
      match ReadHex4(t[2..])
      case Some(u) => if u < 0x10000 then Cons(u, ReadString(t[6..])) else Fail
      case None => Fail
    else
      match SimpleEscape(t[1])
      case Some(u) => Cons(u, ReadString(t[2..]))
      case None => Fail
  }

  function Cons(u: Unit, r: Parsed<Text>): Parsed<Text> {
    match r
    case Ok(s, rest) => Ok([u] + s, rest)
    case Fail => Fail
  }

  /** Assigning a member in front of later ones: a repeated key keeps its first position and takes
      its last value. */
  function Prepend(k: Text, v: Value, ms: seq<Entry<Value>>): seq<Entry<Value>> {
    match Find(ms, k)
    case None => [Entry(k, v)] + ms
    case Some(w) => [Entry(k, w)] + Without(ms, {k})
  }

  function ReadValue(text: Text): (r: Parsed<Value>)
    ensures r.Ok? ==> |r.rest| < |text|
    decreases |text|, 1
  {
    var t := SkipSpace(text);
    if t == [] then Fail
    else if t[0] == QUOTE then
      match ReadString(t[1..])
      case Ok(s, rest) => Ok(Str(s), rest)
      case Fail => Fail
    else if t[0] == LBRACKET then
      var u := SkipSpace(t[1..]);
      if u != [] && u[0] == RBRACKET then Ok(Arr([]), u[1..])
      else match ReadElems(t[1..])
        case Ok(es, rest) => Ok(Arr(es), rest)
        case Fail => Fail
    else if t[0] == LBRACE then
      var u := SkipSpace(t[1..]);
      if u != [] && u[0] == RBRACE then Ok(Obj([]), u[1..])
      else match ReadMembers(t[1..])
        case Ok(ms, rest) => Ok(Obj(ms), rest)
        case Fail => Fail
    else if NULL_TEXT <= t then Ok(Null, t[4..])
    else if TRUE_TEXT <= t then Ok(Bool(true), t[4..])
    else if FALSE_TEXT <= t then Ok(Bool(false), t[5..])
    else match ReadInt(t)
      case Ok(n, rest) => Ok(Num(n), rest)
      case Fail => Fail
  }

  function ReadElems(t: Text): (r: Parsed<seq<Value>>)
    ensures r.Ok? ==> |r.rest| < |t|
    decreases |t|, 2
  {
    match ReadValue(t)
    case Fail => Fail
    case Ok(v, rest) =>
      var u := SkipSpace(rest);
      if u == [] then Fail
      else if u[0] == RBRACKET then Ok([v], u[1..])
      else if u[0] == COMMA then
        match ReadElems(u[1..])
        case Ok(es, more) => Ok([v] + es, more)
        case Fail => Fail
      else Fail
  }

  function ReadMember(text: Text): (r: Parsed<Entry<Value>>)
    ensures r.Ok? ==> |r.rest| < |text|
    decreases |text|, 2
  {
    var t := SkipSpace(text);
    if t == [] || t[0] != QUOTE then Fail
    else match ReadString(t[1..])
      case Fail => Fail
      case Ok(k, rest) =>
        var u := SkipSpace(rest);
        if u == [] || u[0] != COLON then Fail
        else match ReadValue(u[1..])
          case Ok(v, more) => Ok(Entry(k, v), more)
          case Fail => Fail
  }

  function ReadMembers(t: Text): (r: Parsed<seq<Entry<Value>>>)
    ensures r.Ok? ==> |r.rest| < |t|
    decreases |t|, 3
  {
    match ReadMember(t)
    case Fail => Fail
    case Ok(m, rest) =>
      var u := SkipSpace(rest);
      if u == [] then Fail
      else if u[0] == RBRACE then Ok([m], u[1..])
      else if u[0] == COMMA then
        match ReadMembers(u[1..])
        case Ok(ms, more) => Ok(Prepend(m.key, m.val, ms), more)
        case Fail => Fail
      else Fail
  }

  /** `JSON.parse`, with the syntax error as `None`. */
  function Parse(t: Text): Option<Value> {
    match ReadValue(t)
    case Ok(v, rest) => if SkipSpace(rest) == [] then Some(v) else None
    case Fail => None
  }

  // ----- parsed objects have distinct keys

  lemma PrependWellFormed(k: Text, v: Value, ms: seq<Entry<Value>>)
    requires WellFormed(v) && WellFormed(Obj(ms))
    ensures WellFormed(Obj(Prepend(k, v, ms)))
  {
    var r := Prepend(k, v, ms);
    if Find(ms, k).Some? {
      var i := FindWitness(ms, k);
      WithoutWellFormed(ms, {k});
      WithoutDistinct(ms, {k});
      WithoutFind(ms, {k}, k);
      assert r[1..] == Without(ms, {k});
    } else {
      assert r[1..] == ms;
    }
    KeysTail(r);
  }

  /** Whatever text is parsed, the value is one JavaScript could hold. */
  lemma {:induction false} ReadValueWellFormed(t: Text)
    requires ReadValue(t).Ok?
    ensures WellFormed(ReadValue(t).value)
    decreases |t|, 1
  {
    var u := SkipSpace(t);
    if u[0] == LBRACKET && ReadElems(u[1..]).Ok? { ReadElemsWellFormed(u[1..]); }
    if u[0] == LBRACE && ReadMembers(u[1..]).Ok? { ReadMembersWellFormed(u[1..]); }
  }

  lemma {:induction false} ReadElemsWellFormed(t: Text)
    requires ReadElems(t).Ok?
    ensures WellFormed(Arr(ReadElems(t).value))
    decreases |t|, 2
  {
    ReadValueWellFormed(t);
    var u := SkipSpace(ReadValue(t).rest);
    if u[0] == COMMA { ReadElemsWellFormed(u[1..]); }
  }

  lemma {:induction false} ReadMembersWellFormed(t: Text)
    requires ReadMembers(t).Ok?
    ensures WellFormed(Obj(ReadMembers(t).value))
    decreases |t|, 3
  {
    var m := ReadMember(t);
    ReadMemberWellFormed(t);
    var u := SkipSpace(m.rest);
    if u[0] == COMMA {
      ReadMembersWellFormed(u[1..]);
      PrependWellFormed(m.value.key, m.value.val, ReadMembers(u[1..]).value);
    }
  }

  lemma {:induction false} ReadMemberWellFormed(t: Text)
    requires ReadMember(t).Ok?
    ensures WellFormed(ReadMember(t).value.val)
    decreases |t|, 2
  {
    var u := SkipSpace(ReadString(SkipSpace(t)[1..]).rest);
    ReadValueWellFormed(u[1..]);
  }

  // ----- reading back what was printed

  predicate NoDigitFirst(t: Text) { t == [] || !IsDigit(t[0]) }

  lemma {:induction false} ReadDigitsBack(n: nat, rest: Text)
    ensures ReadDigits(Digits(n) + rest, 0) == ReadDigits(rest, n)
  {
    if n < 10 {
      assert (Digits(n) + rest)[1..] == rest;
    } else {
      var d: Unit := ZERO + n % 10;
      assert Digits(n) + rest == Digits(n / 10) + ([d] + rest);
      ReadDigitsBack(n / 10, [d] + rest);
      assert ([d] + rest)[1..] == rest;
    }
  }

  lemma {:induction false} LeadingDigit(n: nat)
    ensures Digits(n)[0] == ZERO <==> n == 0
  {
    if n >= 10 { LeadingDigit(n / 10); }
  }

  lemma ReadNatBack(n: nat, rest: Text)
    requires NoDigitFirst(rest)
    ensures ReadNat(Digits(n) + rest) == Ok(n, rest)
  {
    LeadingDigit(n);
    ReadDigitsBack(n, rest);
    var t := Digits(n) + rest;
    if n == 0 { assert t[1..] == rest; }
  }

  lemma ReadIntBack(n: int, rest: Text)
    requires NoDigitFirst(rest)
    ensures ReadInt(PrintInt(n) + rest) == Ok(n, rest)
  {
    hide ReadNat, Digits;
    if n < 0 {
      assert ([MINUS] + Digits(-n)) + rest == [MINUS] + (Digits(-n) + rest);
      assert ([MINUS] + (Digits(-n) + rest))[1..] == Digits(-n) + rest;
      ReadNatBack(-n, rest);
    } else {
      assert (Digits(n) + rest)[0] == Digits(n)[0] != MINUS;
      ReadNatBack(n, rest);
    }
  }

  lemma ReadHexBack(a: nat, b: nat, c: nat, d: nat, t: Text)
    requires a < 16 && b < 16 && c < 16 && d < 16 && |t| >= 4
    requires t[0] == HexDigit(a) && t[1] == HexDigit(b) && t[2] == HexDigit(c) && t[3] == HexDigit(d)
    ensures ReadHex4(t) == Some(a * 4096 + b * 256 + c * 16 + d)
  {
    HexBack(a);
    HexBack(b);
    HexBack(c);
    HexBack(d);
  }

  lemma HexSplit(u: Unit)
    ensures u == u / 16 / 16 / 16 * 4096 + u / 16 / 16 % 16 * 256 + u / 16 % 16 * 16 + u % 16
    ensures u / 16 / 16 / 16 < 16
  {
    var a: int := u / 16;
    var b := a / 16;
    var c := b / 16;
    assert u == 16 * a + u % 16;
    assert a == 16 * b + a % 16;
    assert b == 16 * c + b % 16;
  }

  lemma ReadEscapeStep(t: Text, u: Unit, more: Text)
    requires |t| >= 6 && t[0] == BACKSLASH && t[1] == 0x75 && ReadHex4(t[2..]) == Some(u as nat) && t[6..] == more
    ensures ReadString(t) == Cons(u, ReadString(more))
  {
  }

  lemma ReadEscapeBack(u: Unit, more: Text)
    ensures ReadString(Escape4(u) + more) == Cons(u, ReadString(more))
  {
    var t := Escape4(u) + more;
    HexSplit(u);
    ReadHexBack(u / 16 / 16 / 16, u / 16 / 16 % 16, u / 16 % 16, u % 16, t[2..]);
    ReadEscapeStep(t, u, more);
  }

  lemma ReadUnitBack(u: Unit, more: Text)
    ensures ReadString(QuoteUnit(u) + more) == Cons(u, ReadString(more))
  {
    var q := QuoteUnit(u);
    if |q| == 6 {
      ReadEscapeBack(u, more);
    } else if |q| == 2 {
      var t := q + more;
      assert t[0] == BACKSLASH && t[1] == q[1] && t[2..] == more;
      assert SimpleEscape(q[1]) == Some(u) && q[1] != 0x75;
    } else {
      var t := q + more;
      assert t[0] == u && t[1..] == more;
    }
  }

  lemma HexBack(d: nat)
    requires d < 16
    ensures HexValue(HexDigit(d)) == Some(d)
  {
  }

  lemma Assoc(a: Text, b: Text, c: Text)
    ensures (a + b) + c == a + (b + c)
  {
  }

  lemma First(s: Text)
    requires s != []
    ensures [s[0]] + s[1..] == s
  {
  }

  lemma FirstTwo(s: Text)
    requires |s| >= 2
    ensures [s[0]] + ([s[1]] + s[2..]) == s
  {
  }

  lemma ReadPairBack(hi: Unit, lo: Unit, more: Text)
    requires IsHigh(hi) && IsLow(lo)
    ensures ReadString([hi, lo] + more) == Cons(hi, Cons(lo, ReadString(more)))
  {
    var t := [hi, lo] + more;
    assert t[1..] == [lo] + more && t[1..][1..] == more;
  }

  /** Reading a quoted body, given what comes from its closing quote on. */
  lemma {:induction false} ReadStringBack(s: Text, rest: Text)
    ensures ReadString(QuoteBody(s) + ([QUOTE] + rest)) == Ok(s, rest)
  {
    var close := [QUOTE] + rest;
    if s == [] {
      assert QuoteBody(s) + close == close && close[1..] == rest;
    } else if |s| >= 2 && IsHigh(s[0]) && IsLow(s[1]) {
      Assoc([s[0], s[1]], QuoteBody(s[2..]), close);
      ReadPairBack(s[0], s[1], QuoteBody(s[2..]) + close);
      ReadStringBack(s[2..], rest);
      FirstTwo(s);
    } else {
      Assoc(QuoteUnit(s[0]), QuoteBody(s[1..]), close);
      ReadUnitBack(s[0], QuoteBody(s[1..]) + close);
      ReadStringBack(s[1..], rest);
      First(s);
    }
  }

  lemma QuoteText(s: Text, rest: Text)
    ensures Quote(s) + rest == [QUOTE] + (QuoteBody(s) + ([QUOTE] + rest))
  {
    Assoc([QUOTE], QuoteBody(s), [QUOTE]);
    Assoc([QUOTE], QuoteBody(s) + [QUOTE], rest);
    Assoc(QuoteBody(s), [QUOTE], rest);
  }

  lemma PrintHead(w: Value)
    requires IsClean(w)
    ensures Print(w) != [] && !IsSpace(Print(w)[0]) && Print(w)[0] != RBRACKET && Print(w)[0] != RBRACE
    ensures Print(w)[0] == QUOTE <==> w.Str?
    ensures Print(w)[0] == LBRACKET <==> w.Arr?
    ensures Print(w)[0] == LBRACE <==> w.Obj?
  {
  }

  /** Parsing the print of a clean value gives the value back, whatever follows it. */
  lemma {:induction false} ReadValueBack(w: Value, rest: Text)
    requires IsClean(w) && NoDigitFirst(rest)
    ensures ReadValue(Print(w) + rest) == Ok(w, rest)
    decreases w, 1
  {
    var t := Print(w) + rest;
    PrintHead(w);
    assert SkipSpace(t) == t;
    match w {
      case Null => assert t[4..] == rest;
      case Bool(b) =>
        assert t[|Print(w)|..] == rest;
        assert !(NULL_TEXT <= t) by { assert t[0] != NULL_TEXT[0]; }
        if !b { assert !(TRUE_TEXT <= t) by { assert t[0] != TRUE_TEXT[0]; } }
      case Num(n) =>
        ReadIntBack(n, rest);
        assert t[0] == MINUS || IsDigit(t[0]);
        assert !(NULL_TEXT <= t) && !(TRUE_TEXT <= t) && !(FALSE_TEXT <= t) by {
          assert t[0] != NULL_TEXT[0] && t[0] != TRUE_TEXT[0] && t[0] != FALSE_TEXT[0];
        }
      case Str(s) =>
        QuoteText(s, rest);
        assert t[1..] == QuoteBody(s) + ([QUOTE] + rest);
        ReadStringBack(s, rest);
      case Arr(es) => ReadArrayBack(es, rest);
      case Obj(ms) => ReadObjectBack(ms, rest);
    }
  }

  lemma BracketText(open: Unit, body: Text, close: Unit, rest: Text)
    ensures ([open] + body + [close]) + rest == [open] + (body + ([close] + rest))
  {
    Assoc([open], body, [close]);
    Assoc([open], body + [close], rest);
    Assoc(body, [close], rest);
  }

  lemma ListText(head: Text, tail: Text, end: Text)
    ensures (head + [COMMA] + tail) + end == head + ([COMMA] + (tail + end))
  {
    Assoc(head, [COMMA], tail);
    Assoc(head, [COMMA] + tail, end);
    Assoc([COMMA], tail, end);
  }

  lemma FirstUnit(u: Unit, more: Text)
    ensures ([u] + more)[0] == u && ([u] + more)[1..] == more
  {
  }

  lemma {:induction false} ReadArrayBack(es: seq<Value>, rest: Text)
    requires IsClean(Arr(es))
    ensures ReadValue(Print(Arr(es)) + rest) == Ok(Arr(es), rest)
    decreases es, 2
  {
    var t := Print(Arr(es)) + rest;
    BracketText(LBRACKET, PrintElems(es), RBRACKET, rest);
    FirstUnit(LBRACKET, PrintElems(es) + ([RBRACKET] + rest));
    FirstUnit(RBRACKET, rest);
    if es == [] {
      assert t[1..] == [RBRACKET] + rest;
    } else {
      PrintHead(es[0]);
      var u := t[1..];
      assert u[0] == Print(es[0])[0];
      ReadElemsBack(es, rest);
    }
  }

  lemma ReadLastElem(t: Text, v: Value, rest: Text)
    requires ReadValue(t) == Ok(v, [RBRACKET] + rest)
    ensures ReadElems(t) == Ok([v], rest)
  {
    FirstUnit(RBRACKET, rest);
  }

  lemma ReadMoreElems(t: Text, v: Value, more: Text, es: seq<Value>, rest: Text)
    requires ReadValue(t) == Ok(v, [COMMA] + more) && ReadElems(more) == Ok(es, rest)
    ensures ReadElems(t) == Ok([v] + es, rest)
  {
    FirstUnit(COMMA, more);
  }

  lemma {:induction false} ReadElemsBack(es: seq<Value>, rest: Text)
    requires es != [] && IsClean(Arr(es))
    ensures ReadElems(PrintElems(es) + ([RBRACKET] + rest)) == Ok(es, rest)
    decreases es, 1
  {
    hide ReadMembers, ReadMember, ReadValue, ReadElems, ReadString, Print;
    var t := PrintElems(es) + ([RBRACKET] + rest);
    if |es| == 1 {
      ReadValueBack(es[0], [RBRACKET] + rest);
      ReadLastElem(t, es[0], rest);
      assert es == [es[0]];
    } else {
      var more := PrintElems(es[1..]) + ([RBRACKET] + rest);
      ListText(Print(es[0]), PrintElems(es[1..]), [RBRACKET] + rest);
      ReadValueBack(es[0], [COMMA] + more);
      ReadElemsBack(es[1..], rest);
      ReadMoreElems(t, es[0], more, es[1..], rest);
      assert es == [es[0]] + es[1..];
    }
  }

  lemma {:induction false} ReadObjectBack(ms: seq<Entry<Value>>, rest: Text)
    requires IsClean(Obj(ms))
    ensures ReadValue(Print(Obj(ms)) + rest) == Ok(Obj(ms), rest)
    decreases ms, 3
  {
    hide ReadMembers, ReadMember, ReadElems, ReadString, ReadInt, QuoteBody;
    var t := Print(Obj(ms)) + rest;
    BracketText(LBRACE, PrintMembers(ms), RBRACE, rest);
    FirstUnit(LBRACE, PrintMembers(ms) + ([RBRACE] + rest));
    FirstUnit(RBRACE, rest);
    if ms == [] {
      assert t[1..] == [RBRACE] + rest;
    } else {
      var u := t[1..];
      assert PrintMembers(ms) != [];
      assert u[0] == PrintMembers(ms)[0] == QUOTE;
      ReadMembersBack(ms, rest);
    }
  }

  lemma MemberText(m: Entry<Value>, rest: Text)
    ensures PrintMember(m) + rest == [QUOTE] + (QuoteBody(m.key) + ([QUOTE] + ([COLON] + (Print(m.val) + rest))))
  {
    var more := [COLON] + (Print(m.val) + rest);
    Assoc(Quote(m.key), [COLON], Print(m.val));
    Assoc(Quote(m.key), [COLON] + Print(m.val), rest);
    Assoc([COLON], Print(m.val), rest);
    QuoteText(m.key, more);
  }

  lemma ReadMemberStep(t: Text, body: Text, k: Text, more: Text, v: Value, rest: Text)
    requires t == [QUOTE] + body && ReadString(body) == Ok(k, [COLON] + more) && ReadValue(more) == Ok(v, rest)
    ensures ReadMember(t) == Ok(Entry(k, v), rest)
  {
    FirstUnit(QUOTE, body);
    FirstUnit(COLON, more);
  }

  lemma {:induction false} ReadMemberBack(m: Entry<Value>, rest: Text)
    requires IsClean(m.val) && NoDigitFirst(rest)
    ensures ReadMember(PrintMember(m) + rest) == Ok(m, rest)
    decreases m, 1
  {
    var more := Print(m.val) + rest;
    MemberText(m, rest);
    ReadStringBack(m.key, [COLON] + more);
    ReadValueBack(m.val, rest);
    ReadMemberStep(PrintMember(m) + rest, QuoteBody(m.key) + ([QUOTE] + ([COLON] + more)), m.key, more, m.val, rest);
  }

  lemma ReadLastMember(t: Text, m: Entry<Value>, rest: Text)
    requires ReadMember(t) == Ok(m, [RBRACE] + rest)
    ensures ReadMembers(t) == Ok([m], rest)
  {
    FirstUnit(RBRACE, rest);
  }

  lemma ReadMoreMembers(t: Text, m: Entry<Value>, more: Text, ms: seq<Entry<Value>>, rest: Text)
    requires ReadMember(t) == Ok(m, [COMMA] + more) && ReadMembers(more) == Ok(ms, rest)
    requires m.key !in Keys(ms)
    ensures ReadMembers(t) == Ok([m] + ms, rest)
  {
    hide ReadMember, ReadValue, ReadElems, ReadString;
    FirstUnit(COMMA, more);
    assert Prepend(m.key, m.val, ms) == [m] + ms;
  }

  lemma {:induction false} ReadMembersBack(ms: seq<Entry<Value>>, rest: Text)
    requires ms != [] && IsClean(Obj(ms))
    ensures ReadMembers(PrintMembers(ms) + ([RBRACE] + rest)) == Ok(ms, rest)
    decreases ms, 2
  {
    hide ReadMembers, ReadMember, ReadValue, ReadElems, ReadString, Print, QuoteBody;
    var t := PrintMembers(ms) + ([RBRACE] + rest);
    if |ms| == 1 {
      ReadMemberBack(ms[0], [RBRACE] + rest);
      ReadLastMember(t, ms[0], rest);
      assert ms == [ms[0]];
    } else {
      var more := PrintMembers(ms[1..]) + ([RBRACE] + rest);
      ListText(PrintMember(ms[0]), PrintMembers(ms[1..]), [RBRACE] + rest);
      ReadMemberBack(ms[0], [COMMA] + more);
      KeysTail(ms);
      ReadMembersBack(ms[1..], rest);
      ReadMoreMembers(t, ms[0], more, ms[1..], rest);
      assert ms == [ms[0]] + ms[1..];
    }
  }

  /** `JSON.parse(JSON.stringify(w))` is the identity on clean values. */
  lemma ParsePrint(w: Value)
    requires IsClean(w)
    ensures Parse(Print(w)) == Some(w)
  {
    ReadValueBack(w, []);
    assert Print(w) + [] == Print(w);
  }
}
