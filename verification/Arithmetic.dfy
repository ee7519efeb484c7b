/** The recursive-descent arithmetic evaluator (examples/basic-agent/index.js:15-77).

    Numbers are a parameter with their operations: the parser's promise is about structure, not about
    rounding. The parser is specified as building derivation trees; the evaluator computes their
    values on the way. */
module Arithmetic {
  import opened JsonValue

  const PLUS: Unit := 43
  const MINUS: Unit := 45
  const STAR: Unit := 42
  const SLASH: Unit := 47
  const PERCENT: Unit := 37
  const CARET: Unit := 94
  const OPEN: Unit := 40
  const CLOSE: Unit := 41
  const DOT: Unit := 46

  /** `\s` */
  predicate IsSpace(u: Unit) {
    9 <= u <= 13 || u == 32 || u == 0xa0 || u == 0x1680 || 0x2000 <= u <= 0x200a || u == 0x2028 || u == 0x2029
    || u == 0x202f || u == 0x205f || u == 0x3000 || u == 0xfeff
  }

  /** `[0-9+\-*\/%^().]` */
  predicate IsAllowed(u: Unit) {
    IsDigit(u) || u == PLUS || u == MINUS || u == STAR || u == SLASH || u == PERCENT || u == CARET || u == OPEN || u == CLOSE || u == DOT
  }

  /** JavaScript numbers, as far as the evaluator uses them. */
  datatype Ops<!N> = Ops(
    num: (Text, Text) -> N, add: (N, N) -> N, sub: (N, N) -> N, mul: (N, N) -> N, div: (N, N) -> N, mod: (N, N) -> N,
    pow: (N, N) -> N, neg: N -> N, finite: N -> bool)

  // ----- the grammar

  /** Sums and products associate to the left, powers to the right; a sign binds looser than a power. */
  datatype Expr = Sum(term: Term) | Add(left: Expr, right: Term) | Sub(left: Expr, right: Term)
  datatype Term = Product(factor: Factor) | Mul(left: Term, right: Factor) | Div(left: Term, right: Factor) | Mod(left: Term, right: Factor)
  datatype Factor = Plain(atom: Atom) | Pow(base: Atom, exp: Factor) | Pos(of: Factor) | Neg(of: Factor)
  datatype Atom = Literal(whole: Text, fraction: Text) | Paren(inner: Expr)

  function ExprText(e: Expr): Text {
    match e
    case Sum(t) => TermText(t)
    case Add(l, r) => ExprText(l) + ([PLUS] + TermText(r))
    case Sub(l, r) => ExprText(l) + ([MINUS] + TermText(r))
  }

  function TermText(t: Term): Text {
    match t
    case Product(f) => FactorText(f)
    case Mul(l, r) => TermText(l) + ([STAR] + FactorText(r))
    case Div(l, r) => TermText(l) + ([SLASH] + FactorText(r))
    case Mod(l, r) => TermText(l) + ([PERCENT] + FactorText(r))
  }

  function FactorText(f: Factor): Text {
    match f
    case Plain(a) => AtomText(a)
    case Pow(a, g) => AtomText(a) + ([CARET] + FactorText(g))
    case Pos(g) => [PLUS] + FactorText(g)
    case Neg(g) => [MINUS] + FactorText(g)
  }

  function AtomText(a: Atom): Text {
    match a
    case Literal(w, f) => LiteralText(w, f)
    case Paren(e) => [OPEN] + (ExprText(e) + [CLOSE])
  }

  function LiteralText(whole: Text, fraction: Text): Text {
    if fraction == [] then whole else whole + ([DOT] + fraction)
  }

  predicate AllDigits(t: Text) { forall i :: 0 <= i < |t| ==> IsDigit(t[i]) }

  predicate ExprOk(e: Expr) {
    match e
    case Sum(t) => TermOk(t)
    case Add(l, r) => ExprOk(l) && TermOk(r)
    case Sub(l, r) => ExprOk(l) && TermOk(r)
  }

  predicate TermOk(t: Term) {
    match t
    case Product(f) => FactorOk(f)
    case Mul(l, r) => TermOk(l) && FactorOk(r)
    case Div(l, r) => TermOk(l) && FactorOk(r)
    case Mod(l, r) => TermOk(l) && FactorOk(r)
  }

  predicate FactorOk(f: Factor) {
    match f
    case Plain(a) => AtomOk(a)
    case Pow(a, g) => AtomOk(a) && FactorOk(g)
    case Pos(g) => FactorOk(g)
    case Neg(g) => FactorOk(g)
  }

  predicate AtomOk(a: Atom) {
    match a
    case Literal(w, f) => w != [] && AllDigits(w) && AllDigits(f)
    case Paren(e) => ExprOk(e)
  }

  function ExprValue<N>(o: Ops<N>, e: Expr): N {
    match e
    case Sum(t) => TermValue(o, t)
    case Add(l, r) => o.add(ExprValue(o, l), TermValue(o, r))
    case Sub(l, r) => o.sub(ExprValue(o, l), TermValue(o, r))
  }

  function TermValue<N>(o: Ops<N>, t: Term): N {
    match t
    case Product(f) => FactorValue(o, f)
    case Mul(l, r) => o.mul(TermValue(o, l), FactorValue(o, r))
    case Div(l, r) => o.div(TermValue(o, l), FactorValue(o, r))
    case Mod(l, r) => o.mod(TermValue(o, l), FactorValue(o, r))
  }

  function FactorValue<N>(o: Ops<N>, f: Factor): N {
    match f
    case Plain(a) => AtomValue(o, a)
    case Pow(a, g) => o.pow(AtomValue(o, a), FactorValue(o, g))
    case Pos(g) => FactorValue(o, g)
    case Neg(g) => o.neg(FactorValue(o, g))
  }

  function AtomValue<N>(o: Ops<N>, a: Atom): N {
    match a
    case Literal(w, f) => o.num(w, f)
    case Paren(e) => ExprValue(o, e)
  }

  // ----- the parser, as a function of the text still to read

  /** An error at the point where `left` characters are still unread. */
  datatype Failure = Unbalanced | Unexpected(left: nat)

  datatype Parsed<+T> = Ok(tree: T, rest: Text) | Fail(failure: Failure)

  predicate Starts(t: Text, u: Unit) { t != [] && t[0] == u }

  function ParseExpr(t: Text): (r: Parsed<Expr>)
    ensures r.Ok? ==> |r.rest| < |t|
    decreases |t|, 4
  {
    match ParseTerm(t)
    case Ok(x, rest) => ExprLoop(Sum(x), rest)
    case Fail(f) => Fail(f)
  }

  function ExprLoop(acc: Expr, t: Text): (r: Parsed<Expr>)
    ensures r.Ok? ==> |r.rest| <= |t|
    decreases |t|, 4
  {
    if Starts(t, PLUS) || Starts(t, MINUS) then
      match ParseTerm(t[1..])
      case Ok(y, rest) => ExprLoop(if t[0] == PLUS then Add(acc, y) else Sub(acc, y), rest)
      case Fail(f) => Fail(f)
    else Ok(acc, t)
  }

  function ParseTerm(t: Text): (r: Parsed<Term>)
    ensures r.Ok? ==> |r.rest| < |t|
    decreases |t|, 3
  {
    match ParseFactor(t)
    case Ok(x, rest) => TermLoop(Product(x), rest)
    case Fail(f) => Fail(f)
  }

  function TermLoop(acc: Term, t: Text): (r: Parsed<Term>)
    ensures r.Ok? ==> |r.rest| <= |t|
    decreases |t|, 3
  {
    if Starts(t, STAR) || Starts(t, SLASH) || Starts(t, PERCENT) then
      match ParseFactor(t[1..])
      case Ok(y, rest) =>
        TermLoop(if t[0] == STAR then Mul(acc, y) else if t[0] == SLASH then Div(acc, y) else Mod(acc, y), rest)
      case Fail(f) => Fail(f)
    else Ok(acc, t)
  }

  function ParseFactor(t: Text): (r: Parsed<Factor>)
    ensures r.Ok? ==> |r.rest| < |t|
    decreases |t|, 2
  {
    if Starts(t, PLUS) then
      match ParseFactor(t[1..]) case Ok(x, rest) => Ok(Pos(x), rest) case Fail(f) => Fail(f)
    else if Starts(t, MINUS) then
      match ParseFactor(t[1..]) case Ok(x, rest) => Ok(Neg(x), rest) case Fail(f) => Fail(f)
    else
      match ParseAtom(t)
      case Fail(f) => Fail(f)
      case Ok(a, rest) =>
        if Starts(rest, CARET) then
          match ParseFactor(rest[1..]) case Ok(x, rest') => Ok(Pow(a, x), rest') case Fail(f) => Fail(f)
        else Ok(Plain(a), rest)
  }

  function ParseAtom(t: Text): (r: Parsed<Atom>)
    ensures r.Ok? ==> |r.rest| < |t|
    decreases |t|, 1
  {
    if Starts(t, OPEN) then
      match ParseExpr(t[1..])
      case Fail(f) => Fail(f)
      case Ok(e, rest) => if Starts(rest, CLOSE) then Ok(Paren(e), rest[1..]) else Fail(Unbalanced)
    else ParseLiteral(t)
  }

  /** `\d+(\.\d+)?` at the start. */
  function ParseLiteral(t: Text): (r: Parsed<Atom>)
    ensures r.Ok? ==> |r.rest| < |t|
  {
    var n := DigitRun(t);
    if n == 0 then Fail(Unexpected(|t|))
    else
      var m := FractionRun(t[n..]);
      if m == 0 then Ok(Literal(t[..n], []), t[n..])
      else Ok(Literal(t[..n], t[n + 1..n + 1 + m]), t[n + 1 + m..])
  }

  /** The length of `\d+` at the start, or zero. */
  function DigitRun(t: Text): (n: nat)
    ensures n <= |t| && AllDigits(t[..n]) && (n < |t| ==> !IsDigit(t[n]))
  {
    if t == [] || !IsDigit(t[0]) then 0
    else
      var n := 1 + DigitRun(t[1..]);
      assert forall i :: 1 <= i < n ==> t[i] == t[1..][..n - 1][i - 1];
      n
  }

  /** The digits of `\.\d+` at the start, or zero. */
  function FractionRun(t: Text): (m: nat)
    ensures m > 0 ==> m + 1 <= |t|
  {
    if Starts(t, DOT) then DigitRun(t[1..]) else 0
  }

  // ----- the evaluator as a whole

  datatype Error = Unsupported | Parentheses | Token(position: int) | NotFinite

  datatype Result<+N> = Number(value: N) | Error(error: Error)

  function Strip(input: Text): Text {
    if input == [] then [] else if IsSpace(input[0]) then Strip(input[1..]) else [input[0]] + Strip(input[1..])
  }

  predicate AllAllowed(t: Text) { forall i :: 0 <= i < |t| ==> IsAllowed(t[i]) }

  function ErrorAt(length: nat, f: Failure): Error {
    match f
    case Unbalanced => Parentheses
    case Unexpected(left) => Token(length - left)
  }

  function Evaluate<N>(o: Ops<N>, input: Text): Result<N> {
    var s := Strip(input);
    if !AllAllowed(s) then Error(Unsupported)
    else match ParseExpr(s)
      case Fail(f) => Error(ErrorAt(|s|, f))
      case Ok(e, rest) =>
        if rest != [] then Error(Token(|s| - |rest|))
        else if !o.finite(ExprValue(o, e)) then Error(NotFinite)
        else Number(ExprValue(o, e))
  }

  lemma ExprSteps(acc: Expr, t: Text)
    ensures ParseTerm(t).Ok? ==> ParseExpr(t) == ExprLoop(Sum(ParseTerm(t).tree), ParseTerm(t).rest)
    ensures ParseTerm(t).Fail? ==> ParseExpr(t) == Fail(ParseTerm(t).failure)
    ensures !Starts(t, PLUS) && !Starts(t, MINUS) ==> ExprLoop(acc, t) == Ok(acc, t)
    ensures Starts(t, PLUS) || Starts(t, MINUS) ==>
              match ParseTerm(t[1..])
              case Ok(y, rest) => ExprLoop(acc, t) == ExprLoop(if t[0] == PLUS then Add(acc, y) else Sub(acc, y), rest)
              case Fail(f) => ExprLoop(acc, t) == Fail(f)
  {
    hide ParseTerm;
  }

  lemma TermSteps(acc: Term, t: Text)
    ensures ParseFactor(t).Ok? ==> ParseTerm(t) == TermLoop(Product(ParseFactor(t).tree), ParseFactor(t).rest)
    ensures ParseFactor(t).Fail? ==> ParseTerm(t) == Fail(ParseFactor(t).failure)
    ensures !Starts(t, STAR) && !Starts(t, SLASH) && !Starts(t, PERCENT) ==> TermLoop(acc, t) == Ok(acc, t)
    ensures Starts(t, STAR) || Starts(t, SLASH) || Starts(t, PERCENT) ==>
              match ParseFactor(t[1..])
              case Ok(y, rest) =>
                TermLoop(acc, t) == TermLoop(if t[0] == STAR then Mul(acc, y) else if t[0] == SLASH then Div(acc, y) else Mod(acc, y), rest)
              case Fail(f) => TermLoop(acc, t) == Fail(f)
  {
    hide ParseFactor;
  }

  lemma SignSteps(t: Text)
    requires Starts(t, PLUS) || Starts(t, MINUS)
    ensures match ParseFactor(t[1..])
            case Ok(x, rest) => ParseFactor(t) == Ok(if t[0] == PLUS then Pos(x) else Neg(x), rest)
            case Fail(f) => ParseFactor(t) == Fail(f)
  {
    hide ParseAtom;
  }

  lemma PowerSteps(t: Text)
    requires !Starts(t, PLUS) && !Starts(t, MINUS)
    ensures ParseAtom(t).Fail? ==> ParseFactor(t) == Fail(ParseAtom(t).failure)
    ensures ParseAtom(t).Ok? && !Starts(ParseAtom(t).rest, CARET) ==> ParseFactor(t) == Ok(Plain(ParseAtom(t).tree), ParseAtom(t).rest)
    ensures ParseAtom(t).Ok? && Starts(ParseAtom(t).rest, CARET) ==>
              match ParseFactor(ParseAtom(t).rest[1..])
              case Ok(x, rest) => ParseFactor(t) == Ok(Pow(ParseAtom(t).tree, x), rest)
              case Fail(f) => ParseFactor(t) == Fail(f)
  {
    hide ParseAtom;
  }

  lemma ParenSteps(t: Text)
    ensures Starts(t, OPEN) ==>
              match ParseExpr(t[1..])
              case Ok(e, rest) => ParseAtom(t) == if Starts(rest, CLOSE) then Ok(Paren(e), rest[1..]) else Fail(Unbalanced)
              case Fail(f) => ParseAtom(t) == Fail(f)
    ensures !Starts(t, OPEN) ==> ParseAtom(t) == ParseLiteral(t)
  {
    hide ParseExpr, ParseLiteral;
  }

  lemma AtomValues<N>(o: Ops<N>, w: Text, f: Text, e: Expr)
    ensures AtomValue(o, Literal(w, f)) == o.num(w, f) && AtomValue(o, Paren(e)) == ExprValue(o, e)
  {
  }

  lemma FactorValues<N>(o: Ops<N>, a: Atom, f: Factor)
    ensures FactorValue(o, Plain(a)) == AtomValue(o, a) && FactorValue(o, Pow(a, f)) == o.pow(AtomValue(o, a), FactorValue(o, f))
    ensures FactorValue(o, Pos(f)) == FactorValue(o, f) && FactorValue(o, Neg(f)) == o.neg(FactorValue(o, f))
  {
  }

  lemma TermValues<N>(o: Ops<N>, t: Term, f: Factor)
    ensures TermValue(o, Product(f)) == FactorValue(o, f)
    ensures TermValue(o, Mul(t, f)) == o.mul(TermValue(o, t), FactorValue(o, f))
    ensures TermValue(o, Div(t, f)) == o.div(TermValue(o, t), FactorValue(o, f))
    ensures TermValue(o, Mod(t, f)) == o.mod(TermValue(o, t), FactorValue(o, f))
  {
  }

  lemma ExprValues<N>(o: Ops<N>, e: Expr, t: Term)
    ensures ExprValue(o, Sum(t)) == TermValue(o, t)
    ensures ExprValue(o, Add(e, t)) == o.add(ExprValue(o, e), TermValue(o, t))
    ensures ExprValue(o, Sub(e, t)) == o.sub(ExprValue(o, e), TermValue(o, t))
  {
  }

  function NextTerm(op: Unit, l: Term, r: Factor): Term { if op == STAR then Mul(l, r) else if op == SLASH then Div(l, r) else Mod(l, r) }

  function NextExpr(op: Unit, l: Expr, r: Term): Expr { if op == PLUS then Add(l, r) else Sub(l, r) }

  lemma DropDrop(t: Text, p: nat, n: nat)
    requires p + n <= |t|
    ensures t[p..][n..] == t[p + n..]
  {
  }

  // ----- the evaluator as it is written: one shared cursor

  class Evaluator<N> {
    const o: Ops<N>
    const s: Text
    var pos: nat

    constructor (o: Ops<N>, s: Text)
      ensures this.o == o && this.s == s && pos == 0
    {
      this.o, this.s, pos := o, s, 0;
    }

    predicate At(u: Unit)
      reads this
    {
      pos < |s| && s[pos] == u
    }

    // What reading from position `from` to position `to` gave: the value of the tree read, or its error.

    ghost predicate ExprRead(p: Parsed<Expr>, from: nat, r: Result<N>, to: nat) {
      match p
      case Ok(e, rest) => r == Number(ExprValue(o, e)) && from < to <= |s| && s[to..] == rest
      case Fail(f) => r == Error(ErrorAt(|s|, f))
    }

    ghost predicate TermRead(p: Parsed<Term>, from: nat, r: Result<N>, to: nat) {
      match p
      case Ok(t, rest) => r == Number(TermValue(o, t)) && from < to <= |s| && s[to..] == rest
      case Fail(f) => r == Error(ErrorAt(|s|, f))
    }

    ghost predicate FactorRead(p: Parsed<Factor>, from: nat, r: Result<N>, to: nat) {
      match p
      case Ok(x, rest) => r == Number(FactorValue(o, x)) && from < to <= |s| && s[to..] == rest
      case Fail(f) => r == Error(ErrorAt(|s|, f))
    }

    ghost predicate AtomRead(p: Parsed<Atom>, from: nat, r: Result<N>, to: nat) {
      match p
      case Ok(a, rest) => r == Number(AtomValue(o, a)) && from < to <= |s| && s[to..] == rest
      case Fail(f) => r == Error(ErrorAt(|s|, f))
    }

    /** Inside the sum loop: what is left to read continues the tree read so far. */
    ghost predicate ExprSoFar(from: nat, tree: Expr, v: N, at: nat) {
      from < at <= |s| && ParseExpr(s[from..]) == ExprLoop(tree, s[at..]) && v == ExprValue(o, tree)
    }

    ghost predicate TermSoFar(from: nat, tree: Term, v: N, at: nat) {
      from < at <= |s| && ParseTerm(s[from..]) == TermLoop(tree, s[at..]) && v == TermValue(o, tree)
    }

    lemma ExprFirst(from: nat, r: Result<N>, to: nat)
      requires from <= |s| && TermRead(ParseTerm(s[from..]), from, r, to)
      ensures r.Number? ==> ParseTerm(s[from..]).Ok? && ExprSoFar(from, Sum(ParseTerm(s[from..]).tree), r.value, to)
      ensures r.Error? ==> ExprRead(ParseExpr(s[from..]), from, r, to)
    {
      var p := ParseTerm(s[from..]);
      var x := if p.Ok? then p.tree else Product(Plain(Literal([], [])));
      ExprSteps(Sum(x), s[from..]);
      ExprValues(o, Sum(x), x);
      hide ParseTerm, ParseExpr, ExprLoop, ExprValue, TermValue;
    }

    lemma ExprNext(from: nat, tree: Expr, v: N, at: nat, r: Result<N>, to: nat)
      requires ExprSoFar(from, tree, v, at) && at < |s| && s[at] in {PLUS, MINUS} && TermRead(ParseTerm(s[at + 1..]), at + 1, r, to)
      ensures r.Number? ==>
                && at < to && ParseTerm(s[at + 1..]).Ok?
                && ExprSoFar(from, NextExpr(s[at], tree, ParseTerm(s[at + 1..]).tree),
                             if s[at] == PLUS then o.add(v, r.value) else o.sub(v, r.value), to)
      ensures r.Error? ==> ExprRead(ParseExpr(s[from..]), from, r, to)
    {
      var p := ParseTerm(s[at + 1..]);
      DropDrop(s, at, 1);
      ExprSteps(tree, s[at..]);
      ExprValues(o, tree, if p.Ok? then p.tree else Product(Plain(Literal([], []))));
      hide ParseTerm, ParseExpr, ExprLoop, ExprValue, TermValue;
      assert s[at..][0] == s[at] && s[at..][1..] == s[at + 1..];
      hide Starts;
    }

    lemma ExprLast(from: nat, tree: Expr, v: N, to: nat)
      requires ExprSoFar(from, tree, v, to) && (to == |s| || s[to] !in {PLUS, MINUS})
      ensures ExprRead(ParseExpr(s[from..]), from, Number(v), to)
    {
      ExprSteps(tree, s[to..]);
      hide ParseTerm, ParseExpr, ExprLoop, ExprValue;
    }

    method EvalExpr() returns (r: Result<N>)
      requires pos <= |s|
      modifies this`pos
      decreases |s| - pos, 4
      ensures pos <= |s|
      ensures ExprRead(ParseExpr(s[old(pos)..]), old(pos), r, pos)
    {
      hide ParseTerm, ParseExpr, ExprRead, TermRead, NextExpr;
      r := EvalTerm();
      ExprFirst(old(pos), r, pos);
      if r.Error? { return; }
      var v := r.value;
      ghost var tree := Sum(ParseTerm(s[old(pos)..]).tree);
      while At(PLUS) || At(MINUS)
        invariant ExprSoFar(old(pos), tree, v, pos)
        decreases |s| - pos
      {
        ghost var at := pos;
        var op := s[pos];
        pos := pos + 1;
        r := EvalTerm();
        ExprNext(old(pos), tree, v, at, r, pos);
        if r.Error? { return; }
        v := if op == PLUS then o.add(v, r.value) else o.sub(v, r.value);
        tree := NextExpr(op, tree, ParseTerm(s[at + 1..]).tree);
      }
      ExprLast(old(pos), tree, v, pos);
      return Number(v);
    }

    lemma TermFirst(from: nat, r: Result<N>, to: nat)
      requires from <= |s| && FactorRead(ParseFactor(s[from..]), from, r, to)
      ensures r.Number? ==> ParseFactor(s[from..]).Ok? && TermSoFar(from, Product(ParseFactor(s[from..]).tree), r.value, to)
      ensures r.Error? ==> TermRead(ParseTerm(s[from..]), from, r, to)
    {
      var p := ParseFactor(s[from..]);
      var x := if p.Ok? then p.tree else Plain(Literal([], []));
      TermSteps(Product(x), s[from..]);
      TermValues(o, Product(x), x);
      hide ParseFactor, ParseTerm, TermLoop, TermValue, FactorValue;
    }

    lemma TermNext(from: nat, tree: Term, v: N, at: nat, r: Result<N>, to: nat)
      requires TermSoFar(from, tree, v, at) && at < |s| && s[at] in {STAR, SLASH, PERCENT}
      requires FactorRead(ParseFactor(s[at + 1..]), at + 1, r, to)
      ensures r.Number? ==>
                && at < to && ParseFactor(s[at + 1..]).Ok?
                && TermSoFar(from, NextTerm(s[at], tree, ParseFactor(s[at + 1..]).tree),
                             if s[at] == STAR then o.mul(v, r.value) else if s[at] == SLASH then o.div(v, r.value)
                             else o.mod(v, r.value), to)
      ensures r.Error? ==> TermRead(ParseTerm(s[from..]), from, r, to)
    {
      var p := ParseFactor(s[at + 1..]);
      DropDrop(s, at, 1);
      TermSteps(tree, s[at..]);
      TermValues(o, tree, if p.Ok? then p.tree else Plain(Literal([], [])));
      hide ParseFactor, ParseTerm, TermLoop, TermValue, FactorValue;
      assert s[at..][0] == s[at] && s[at..][1..] == s[at + 1..];
      hide Starts;
    }

    lemma TermLast(from: nat, tree: Term, v: N, to: nat)
      requires TermSoFar(from, tree, v, to) && (to == |s| || s[to] !in {STAR, SLASH, PERCENT})
      ensures TermRead(ParseTerm(s[from..]), from, Number(v), to)
    {
      TermSteps(tree, s[to..]);
      hide ParseFactor, ParseTerm, TermLoop, TermValue;
    }

    method EvalTerm() returns (r: Result<N>)
      requires pos <= |s|
      modifies this`pos
      decreases |s| - pos, 3
      ensures pos <= |s|
      ensures TermRead(ParseTerm(s[old(pos)..]), old(pos), r, pos)
    {
      hide ParseFactor, ParseTerm, FactorRead, TermRead, NextTerm;
      r := EvalFactor();
      TermFirst(old(pos), r, pos);
      if r.Error? { return; }
      var v := r.value;
      ghost var tree := Product(ParseFactor(s[old(pos)..]).tree);
      while At(STAR) || At(SLASH) || At(PERCENT)
        invariant TermSoFar(old(pos), tree, v, pos)
        decreases |s| - pos
      {
        ghost var at := pos;
        var op := s[pos];
        pos := pos + 1;
        r := EvalFactor();
        TermNext(old(pos), tree, v, at, r, pos);
        if r.Error? { return; }
        v := if op == STAR then o.mul(v, r.value) else if op == SLASH then o.div(v, r.value) else o.mod(v, r.value);
        tree := NextTerm(op, tree, ParseFactor(s[at + 1..]).tree);
      }
      TermLast(old(pos), tree, v, pos);
      return Number(v);
    }

    lemma SignRead(from: nat, r: Result<N>, to: nat)
      requires from < |s| && s[from] in {PLUS, MINUS} && FactorRead(ParseFactor(s[from + 1..]), from + 1, r, to)
      ensures FactorRead(ParseFactor(s[from..]), from, if r.Number? && s[from] == MINUS then Number(o.neg(r.value)) else r, to)
    {
      var p := ParseFactor(s[from + 1..]);
      DropDrop(s, from, 1);
      SignSteps(s[from..]);
      if p.Ok? { FactorValues(o, Literal([], []), p.tree); }
      hide ParseFactor, FactorValue;
    }

    lemma PlainRead(from: nat, r: Result<N>, to: nat)
      requires from <= |s| && (from < |s| ==> s[from] !in {PLUS, MINUS}) && AtomRead(ParseAtom(s[from..]), from, r, to)
      requires r.Number? ==> to == |s| || s[to] != CARET
      ensures FactorRead(ParseFactor(s[from..]), from, r, to)
    {
      var p := ParseAtom(s[from..]);
      PowerSteps(s[from..]);
      if p.Ok? { FactorValues(o, p.tree, Plain(p.tree)); }
      hide ParseFactor, ParseAtom, AtomValue, FactorValue;
    }

    lemma PowerRead(from: nat, base: Result<N>, at: nat, r: Result<N>, to: nat)
      requires from <= |s| && (from < |s| ==> s[from] !in {PLUS, MINUS})
      requires AtomRead(ParseAtom(s[from..]), from, base, at) && base.Number? && at < |s| && s[at] == CARET
      requires FactorRead(ParseFactor(s[at + 1..]), at + 1, r, to)
      ensures FactorRead(ParseFactor(s[from..]), from, if r.Number? then Number(o.pow(base.value, r.value)) else r, to)
    {
      var a, p := ParseAtom(s[from..]), ParseFactor(s[at + 1..]);
      PowerSteps(s[from..]);
      DropDrop(s, at, 1);
      hide ParseFactor, ParseAtom, AtomValue, FactorValue;
      assert a.Ok? && Starts(a.rest, CARET) && a.rest[1..] == s[at + 1..];
      if p.Ok? { FactorValues(o, a.tree, p.tree); }
    }

    method EvalFactor() returns (r: Result<N>)
      requires pos <= |s|
      modifies this`pos
      decreases |s| - pos, 2
      ensures pos <= |s|
      ensures FactorRead(ParseFactor(s[old(pos)..]), old(pos), r, pos)
    {
      hide ParseAtom, ParseFactor, FactorRead;
      if At(PLUS) || At(MINUS) {
        var negative := At(MINUS);
        pos := pos + 1;
        r := EvalFactor();
        SignRead(old(pos), r, pos);
        if r.Number? && negative { r := Number(o.neg(r.value)); }
        return;
      }
      r := EvalAtom();
      if r.Error? || !At(CARET) {
        PlainRead(old(pos), r, pos);
        return;
      }
      var base := r.value;
      ghost var at := pos;
      pos := pos + 1;
      r := EvalFactor();
      PowerRead(old(pos), Number(base), at, r, pos);
      if r.Number? { r := Number(o.pow(base, r.value)); }
    }

    method EvalAtom() returns (r: Result<N>)
      requires pos <= |s|
      modifies this`pos
      decreases |s| - pos, 1
      ensures pos <= |s|
      ensures AtomRead(ParseAtom(s[old(pos)..]), old(pos), r, pos)
    {
      hide ParseExpr, ParseAtom, DigitRun, FractionRun, ExprValue, AtomValue, AllDigits, IsDigit;
      ParenSteps(s[pos..]);
      if At(OPEN) {
        DropDrop(s, pos, 1);
        ghost var e := ParseExpr(s[pos + 1..]);
        if e.Ok? { AtomValues(o, [], [], e.tree); }
        pos := pos + 1;
        r := EvalExpr();
        if r.Error? { return; }
        if !At(CLOSE) { return Error(Parentheses); }
        DropDrop(s, pos, 1);
        pos := pos + 1;
        return;
      }
      var rest := s[pos..];
      var n := DigitRun(rest);
      if n == 0 { return Error(Token(pos)); }
      var m := FractionRun(rest[n..]);
      if m == 0 {
        AtomValues(o, rest[..n], [], Sum(Product(Plain(Literal([], [])))));
        DropDrop(s, pos, n);
        pos := pos + n;
        return Number(o.num(rest[..n], []));
      }
      AtomValues(o, rest[..n], rest[n + 1..n + 1 + m], Sum(Product(Plain(Literal([], [])))));
      DropDrop(s, pos, n + 1 + m);
      pos := pos + (n + 1 + m);
      return Number(o.num(rest[..n], rest[n + 1..n + 1 + m]));
    }
  }

  /** `evaluateArithmetic`. */
  method EvaluateArithmetic<N>(o: Ops<N>, input: Text) returns (r: Result<N>)
    ensures r == Evaluate(o, input)
  {
    hide ParseExpr;
    var s := Strip(input);
    if !AllAllowed(s) { return Error(Unsupported); }
    var e := new Evaluator(o, s);
    assert s[0..] == s;
    r := e.EvalExpr();
    if r.Error? { return; }
    if e.pos != |s| { return Error(Token(e.pos)); }
    if !o.finite(r.value) { return Error(NotFinite); }
  }
}
