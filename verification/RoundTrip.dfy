/** The laws of the canonical form: it parses back to the normal form, it never contains a lone
    surrogate, and its bytes decide the content of the value. */
module RoundTrip {
  import opened JsonValue
  import opened Canonical
  import opened NormalForm
  import opened JsonParser
  import opened Utf8

  // ----- cleaned and normal values are clean

  lemma {:induction false} CleanMembersKeys(ms: seq<Entry<Value>>)
    requires Distinct(Keys(ms))
    ensures Distinct(Keys(CleanMembers(ms)))
    ensures forall k :: k in Keys(CleanMembers(ms)) ==> k in Keys(ms)
  {
    if ms != [] {
      KeysTail(ms);
      CleanMembersKeys(ms[1..]);
      if !ms[0].val.Undefined? {
        var r := CleanMembers(ms);
        assert r[1..] == CleanMembers(ms[1..]);
        KeysTail(r);
      }
    }
  }

  lemma {:induction false} CleanIsClean(v: Value)
    requires WellFormed(v)
    ensures IsClean(Clean(v))
    decreases v, 0
  {
    match v {
      case Arr(es) => forall i | 0 <= i < |es| { CleanIsClean(es[i]); }
      case Obj(ms) =>
        CleanMembersKeys(ms);
        CleanMembersClean(ms);
      case _ =>
    }
  }

  lemma {:induction false} CleanMembersClean(ms: seq<Entry<Value>>)
    requires forall i :: 0 <= i < |ms| ==> WellFormed(ms[i].val)
    ensures forall i :: 0 <= i < |CleanMembers(ms)| ==> IsClean(CleanMembers(ms)[i].val)
    decreases ms, 0
  {
    if ms != [] {
      CleanIsClean(ms[0].val);
      CleanMembersClean(ms[1..]);
    }
  }

  lemma {:induction false} NormalIsClean(v: Value)
    requires WellFormed(v)
    ensures IsClean(Normal(v))
    decreases v, 1
  {
    match v {
      case Arr(es) => forall i | 0 <= i < |es| { NormalIsClean(es[i]); }
      case Obj(ms) =>
        NormalMembersKeys(ms);
        SortFind(NormalMembers(ms));
        NormalMembersClean(ms);
        var s := Sort(NormalMembers(ms));
        forall i | 0 <= i < |s| ensures IsClean(s[i].val) {
          FindAt(s, i);
          var j := FindWitness(NormalMembers(ms), s[i].key);
          assert NormalMembers(ms)[j].val == s[i].val;
        }
      case _ =>
    }
  }

  lemma {:induction false} NormalMembersClean(ms: seq<Entry<Value>>)
    requires forall i :: 0 <= i < |ms| ==> WellFormed(ms[i].val)
    ensures forall i :: 0 <= i < |NormalMembers(ms)| ==> IsClean(NormalMembers(ms)[i].val)
    decreases ms, 0
  {
    if ms != [] {
      NormalIsClean(ms[0].val);
      NormalMembersClean(ms[1..]);
    }
  }

  lemma {:induction false} CleanWellFormed(w: Value)
    requires IsClean(w)
    ensures WellFormed(w)
  {
    match w {
      case Arr(es) => forall i | 0 <= i < |es| { CleanWellFormed(es[i]); }
      case Obj(ms) => forall i | 0 <= i < |ms| { CleanWellFormed(ms[i].val); }
      case _ =>
    }
  }

  // ----- a clean or normal value has the content it came from

  lemma {:induction false} FindClean(ms: seq<Entry<Value>>, k: Text)
    requires Distinct(Keys(ms))
    ensures Find(CleanMembers(ms), k) ==
            match Find(ms, k)
            case None => None
            case Some(x) => if x.Undefined? then None else Some(Clean(x))
  {
    if ms != [] {
      KeysTail(ms);
      FindClean(ms[1..], k);
    }
  }

  lemma GetClean(v: Value, k: Text)
    requires WellFormed(v) && v.Obj?
    ensures Get(Clean(v), k) == if Get(v, k).Undefined? then Undefined else Clean(Get(v, k))
  {
    FindClean(v.members, k);
  }

  lemma {:induction false} NormalOfClean(v: Value)
    requires WellFormed(v)
    ensures Normal(Clean(v)) == Normal(v)
  {
    match v {
      case Arr(es) =>
        forall i | 0 <= i < |es| ensures Normal(CleanElems(es)[i]) == Normal(es[i]) { NormalOfClean(es[i]); }
        assert NormalElems(CleanElems(es)) == NormalElems(es);
      case Obj(ms) =>
        var cs := CleanMembers(ms);
        CleanMembersKeys(ms);
        forall k ensures Find(NormalMembers(cs), k) == Find(NormalMembers(ms), k) {
          FindNormal(ms, k);
          FindNormal(cs, k);
          FindClean(ms, k);
          if Find(ms, k).Some? {
            var i := FindWitness(ms, k);
            NormalOfClean(ms[i].val);
          }
        }
        NormalMembersKeys(ms);
        NormalMembersKeys(cs);
        SortSame(NormalMembers(cs), NormalMembers(ms));
      case _ =>
    }
  }

  lemma {:induction false} NormalIdempotent(v: Value)
    requires WellFormed(v)
    ensures Normal(Normal(v)) == Normal(v)
  {
    match v {
      case Arr(es) =>
        forall i | 0 <= i < |es| ensures Normal(NormalElems(es)[i]) == Normal(es[i]) { NormalIdempotent(es[i]); }
        assert NormalElems(NormalElems(es)) == NormalElems(es);
      case Obj(ms) =>
        var n := NormalMembers(ms);
        var s := Sort(n);
        NormalMembersKeys(ms);
        SortFind(n);
        forall k ensures Find(NormalMembers(s), k) == Find(n, k) {
          FindNormal(s, k);
          FindNormal(ms, k);
          if Find(ms, k).Some? {
            var i := FindWitness(ms, k);
            NormalIdempotent(ms[i].val);
          }
        }
        NormalMembersKeys(s);
        SortSame(NormalMembers(s), n);
      case _ =>
    }
  }

  // ----- the printed text parses back

  /** `JSON.parse(JSON.stringify(v))` keeps exactly the cleaned value. */
  lemma ParseStringify(v: Value)
    requires WellFormed(v)
    ensures Parse(Print(Clean(v))) == Some(Clean(v))
  {
    CleanIsClean(v);
    ParsePrint(Clean(v));
  }

  /** The canonical text parses back to the normal form. */
  lemma ParseCanonical(v: Value)
    requires WellFormed(v)
    ensures Parse(CanonicalText(v)) == Some(Normal(v))
  {
    NormalIsClean(v);
    ParsePrint(Normal(v));
  }

  /** Two values print the same canonical text exactly when they have the same content. */
  lemma CanonicalDecidesContent(a: Value, b: Value)
    requires WellFormed(a) && WellFormed(b)
    ensures CanonicalText(a) == CanonicalText(b) <==> SameContent(a, b)
  {
    ParseCanonical(a);
    ParseCanonical(b);
    NormalIffSameContent(a, b);
  }

  // ----- printed text has no lone surrogate

  lemma {:induction false} QuoteBodyPaired(s: Text)
    ensures Paired(QuoteBody(s))
  {
    if s == [] {
    } else if |s| >= 2 && IsHigh(s[0]) && IsLow(s[1]) {
      QuoteBodyPaired(s[2..]);
      var t := QuoteBody(s);
      assert t[0] == s[0] && t[1] == s[1] && t[2..] == QuoteBody(s[2..]);
    } else {
      QuoteBodyPaired(s[1..]);
      if |QuoteUnit(s[0])| == 1 && s[0] >= 0x80 {
        assert QuoteUnit(s[0])[1..] == [];
      } else {
        AsciiPaired(QuoteUnit(s[0]));
      }
      PairedConcat(QuoteUnit(s[0]), QuoteBody(s[1..]));
    }
  }

  lemma QuotePaired(s: Text)
    ensures Paired(Quote(s))
  {
    QuoteBodyPaired(s);
    AsciiPaired([QUOTE]);
    PairedConcat([QUOTE], QuoteBody(s));
    PairedConcat([QUOTE] + QuoteBody(s), [QUOTE]);
  }

  lemma {:induction false} PrintPaired(w: Value)
    ensures Paired(Print(w))
    decreases w, 0
  {
    match w {
      case Str(s) => QuotePaired(s);
      case Arr(es) => PrintElemsPaired(es); Bracketed(LBRACKET, PrintElems(es), RBRACKET);
      case Obj(ms) => PrintMembersPaired(ms); Bracketed(LBRACE, PrintMembers(ms), RBRACE);
      case _ => AsciiPaired(Print(w));
    }
  }

  lemma Bracketed(open: Unit, t: Text, close: Unit)
    requires Paired(t) && open < 0x80 && close < 0x80
    ensures Paired([open] + t + [close])
  {
    AsciiPaired([open]);
    AsciiPaired([close]);
    PairedConcat([open], t);
    PairedConcat([open] + t, [close]);
  }

  lemma Separated(a: Text, sep: Unit, b: Text)
    requires Paired(a) && Paired(b) && sep < 0x80
    ensures Paired(a + [sep] + b)
  {
    AsciiPaired([sep]);
    PairedConcat(a, [sep]);
    PairedConcat(a + [sep], b);
  }

  lemma {:induction false} PrintElemsPaired(es: seq<Value>)
    ensures Paired(PrintElems(es))
    decreases es, 0
  {
    if es != [] {
      PrintPaired(es[0]);
      PrintElemsPaired(es[1..]);
      Separated(Print(es[0]), COMMA, PrintElems(es[1..]));
    }
  }

  lemma {:induction false} PrintMembersPaired(ms: seq<Entry<Value>>)
    ensures Paired(PrintMembers(ms))
    decreases ms, 0
  {
    if ms != [] {
      QuotePaired(ms[0].key);
      PrintPaired(ms[0].val);
      Separated(Quote(ms[0].key), COLON, Print(ms[0].val));
      PrintMembersPaired(ms[1..]);
      Separated(PrintMember(ms[0]), COMMA, PrintMembers(ms[1..]));
    }
  }

  // ----- canonical bytes

  /** `canonicalBytes(v)`. */
  function CanonicalBytes(v: Value): Bytes {
    Encode(CanonicalText(v))
  }

  /** Canonical bytes are equal exactly when the contents are: no injectivity is assumed of the
      text encoder, because the printer escapes every lone surrogate. */
  lemma BytesDecideContent(a: Value, b: Value)
    requires WellFormed(a) && WellFormed(b)
    ensures CanonicalBytes(a) == CanonicalBytes(b) <==> SameContent(a, b)
    ensures CanonicalBytes(a) == CanonicalBytes(b) <==> Normal(a) == Normal(b)
  {
    PrintPaired(Normal(a));
    PrintPaired(Normal(b));
    CanonicalDecidesContent(a, b);
    NormalIffSameContent(a, b);
    if CanonicalBytes(a) == CanonicalBytes(b) { EncodeInjective(CanonicalText(a), CanonicalText(b)); }
  }
}
