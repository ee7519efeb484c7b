/** The evaluator accepts exactly the texts of the grammar and gives each the value of its one
    derivation; and the shortest print of an expression evaluates to its meaning. */
module ArithmeticProofs {
  import opened JsonValue
  import opened Arithmetic

  // ----- every accepted text is derivable

  lemma {:induction false} ParseExprSound(t: Text)
    ensures match ParseExpr(t) case Ok(e, rest) => ExprOk(e) && t == ExprText(e) + rest case Fail(_) => true
    decreases |t|, 4
  {
    hide ExprText, TermText, TermOk, ParseTerm, ExprLoop;
    ParseTermSound(t);
    match ParseTerm(t)
    case Ok(x, rest) => SumText(x); ExprLoopSound(Sum(x), rest);
    case Fail(_) =>
  }

  lemma SumText(x: Term)
    ensures ExprText(Sum(x)) == TermText(x)
  {
  }

  lemma {:induction false} ExprLoopSound(acc: Expr, t: Text)
    requires ExprOk(acc)
    ensures match ExprLoop(acc, t) case Ok(e, rest) => ExprOk(e) && ExprText(acc) + t == ExprText(e) + rest case Fail(_) => true
    decreases |t|, 4
  {
    hide TermText, ParseTerm, TermOk;
    if Starts(t, PLUS) || Starts(t, MINUS) {
      ParseTermSound(t[1..]);
      match ParseTerm(t[1..])
      case Ok(y, rest) =>
        var next := if t[0] == PLUS then Add(acc, y) else Sub(acc, y);
        Shift(ExprText(acc), t[0], TermText(y), rest, t);
        ExprLoopSound(next, rest);
      case Fail(_) =>
    }
  }

  /** Moving one operator and operand across. */
  lemma Shift(a: Text, op: Unit, b: Text, rest: Text, t: Text)
    requires t != [] && t[0] == op && t[1..] == b + rest
    ensures a + t == (a + ([op] + b)) + rest
  {
    assert t == [op] + (b + rest);
  }

  lemma {:induction false} ParseTermSound(t: Text)
    ensures match ParseTerm(t) case Ok(x, rest) => TermOk(x) && t == TermText(x) + rest case Fail(_) => true
    decreases |t|, 3
  {
    hide TermText, FactorText, FactorOk, ParseFactor, TermLoop;
    ParseFactorSound(t);
    match ParseFactor(t)
    case Ok(x, rest) => ProductText(x); TermLoopSound(Product(x), rest);
    case Fail(_) =>
  }

  lemma ProductText(x: Factor)
    ensures TermText(Product(x)) == FactorText(x)
  {
  }

  lemma {:induction false} TermLoopSound(acc: Term, t: Text)
    requires TermOk(acc)
    ensures match TermLoop(acc, t) case Ok(x, rest) => TermOk(x) && TermText(acc) + t == TermText(x) + rest case Fail(_) => true
    decreases |t|, 3
  {
    hide FactorText, ParseFactor, FactorOk;
    if Starts(t, STAR) || Starts(t, SLASH) || Starts(t, PERCENT) {
      ParseFactorSound(t[1..]);
      match ParseFactor(t[1..])
      case Ok(y, rest) =>
        var next := if t[0] == STAR then Mul(acc, y) else if t[0] == SLASH then Div(acc, y) else Mod(acc, y);
        Shift(TermText(acc), t[0], FactorText(y), rest, t);
        TermLoopSound(next, rest);
      case Fail(_) =>
    }
  }

  lemma {:induction false} ParseFactorSound(t: Text)
    ensures match ParseFactor(t) case Ok(x, rest) => FactorOk(x) && t == FactorText(x) + rest case Fail(_) => true
    decreases |t|, 2
  {
    hide AtomText, ParseAtom, AtomOk;
    if Starts(t, PLUS) || Starts(t, MINUS) {
      ParseFactorSound(t[1..]);
      match ParseFactor(t[1..])
      case Ok(x, rest) => Shift([], t[0], FactorText(x), rest, t);
      case Fail(_) =>
    } else {
      ParseAtomSound(t);
      match ParseAtom(t)
      case Ok(a, rest) =>
        if Starts(rest, CARET) {
          ParseFactorSound(rest[1..]);
          match ParseFactor(rest[1..])
          case Ok(x, rest') => Shift(AtomText(a), CARET, FactorText(x), rest', rest);
          case Fail(_) =>
        }
      case Fail(_) =>
    }
  }

  lemma {:induction false} ParseAtomSound(t: Text)
    ensures match ParseAtom(t) case Ok(a, rest) => AtomOk(a) && t == AtomText(a) + rest case Fail(_) => true
    decreases |t|, 1
  {
    hide ExprText, ParseExpr, ExprOk, DigitRun, FractionRun, LiteralText;
    if Starts(t, OPEN) {
      ParseExprSound(t[1..]);
      match ParseExpr(t[1..])
      case Ok(e, rest) =>
        if Starts(rest, CLOSE) { Enclosed(ExprText(e), rest, t); }
      case Fail(_) =>
    } else {
      var n := DigitRun(t);
      if n > 0 { LiteralSound(t, n, FractionRun(t[n..])); }
    }
  }

  lemma Enclosed(inner: Text, rest: Text, t: Text)
    requires t != [] && t[0] == OPEN && t[1..] == inner + rest && Starts(rest, CLOSE)
    ensures t == ([OPEN] + (inner + [CLOSE])) + rest[1..]
  {
    assert rest == [CLOSE] + rest[1..];
  }

  /** A text cut around one character. */
  lemma Cut(t: Text, n: nat, m: nat)
    requires n + 1 + m <= |t|
    ensures t == (t[..n] + ([t[n]] + t[n + 1..n + 1 + m])) + t[n + 1 + m..]
  {
  }

  lemma LiteralSound(t: Text, n: nat, m: nat)
    requires n == DigitRun(t) && n > 0 && m == FractionRun(t[n..])
    ensures m == 0 ==> t == LiteralText(t[..n], []) + t[n..]
    ensures m > 0 ==> AllDigits(t[n + 1..n + 1 + m]) && t == LiteralText(t[..n], t[n + 1..n + 1 + m]) + t[n + 1 + m..]
  {
    hide DigitRun;
    if m > 0 {
      assert t[n..][1..][..m] == t[n + 1..n + 1 + m];
      Cut(t, n, m);
    }
  }

  // ----- every derivable text is accepted

  /** What may follow a factor, a term and an expression without being drawn into it. */
  predicate FollowsFactor(r: Text) { r == [] || !(IsDigit(r[0]) || r[0] == DOT || r[0] == CARET) }

  predicate FollowsTerm(r: Text) { FollowsFactor(r) && !Starts(r, STAR) && !Starts(r, SLASH) && !Starts(r, PERCENT) }

  predicate FollowsExpr(r: Text) { FollowsTerm(r) && !Starts(r, PLUS) && !Starts(r, MINUS) }

  lemma {:induction false} ParseExprComplete(e: Expr, r: Text)
    requires ExprOk(e) && FollowsExpr(r)
    ensures ParseExpr(ExprText(e) + r) == Ok(e, r)
    decreases e, 5
  {
    hide ParseExpr, ExprText, ExprOk;
    ExprUnrolls(e, r);
  }

  /** Reading a whole left-nested sum leaves the loop with that sum accumulated. */
  lemma {:induction false} ExprUnrolls(e: Expr, r: Text)
    requires ExprOk(e) && FollowsTerm(r)
    ensures ParseExpr(ExprText(e) + r) == ExprLoop(e, r)
    decreases e, 4
  {
    hide TermText, TermOk, ParseTerm;
    match e
    case Sum(t) => ParseTermComplete(t, r);
    case Add(l, y) => ParsesNextTerm(e, l, PLUS, y, r);
    case Sub(l, y) => ParsesNextTerm(e, l, MINUS, y, r);
  }

  lemma {:induction false} ParsesNextTerm(e: Expr, l: Expr, op: Unit, y: Term, r: Text)
    requires ExprOk(l) && TermOk(y) && FollowsTerm(r)
    requires (op == PLUS && e == Add(l, y)) || (op == MINUS && e == Sub(l, y))
    ensures ParseExpr((ExprText(l) + ([op] + TermText(y))) + r) == ExprLoop(e, r)
    decreases e, 3
  {
    hide TermText, TermOk, ParseTerm, ExprText, ExprOk, ParseExpr;
    var t := [op] + (TermText(y) + r);
    Shift(ExprText(l), op, TermText(y), r, t);
    ExprUnrolls(l, t);
    assert t[1..] == TermText(y) + r;
    ParseTermComplete(y, r);
  }

  lemma {:induction false} ParseTermComplete(t: Term, r: Text)
    requires TermOk(t) && FollowsTerm(r)
    ensures ParseTerm(TermText(t) + r) == Ok(t, r)
    decreases t, 5
  {
    hide ParseTerm, TermText, TermOk;
    TermUnrolls(t, r);
  }

  lemma {:induction false} TermUnrolls(t: Term, r: Text)
    requires TermOk(t) && FollowsFactor(r)
    ensures ParseTerm(TermText(t) + r) == TermLoop(t, r)
    decreases t, 4
  {
    hide FactorText, FactorOk, ParseFactor;
    match t
    case Product(f) => ParseFactorComplete(f, r);
    case Mul(l, y) => ParsesNextFactor(t, l, STAR, y, r);
    case Div(l, y) => ParsesNextFactor(t, l, SLASH, y, r);
    case Mod(l, y) => ParsesNextFactor(t, l, PERCENT, y, r);
  }

  lemma {:induction false} ParsesNextFactor(x: Term, l: Term, op: Unit, y: Factor, r: Text)
    requires TermOk(l) && FactorOk(y) && FollowsFactor(r)
    requires (op == STAR && x == Mul(l, y)) || (op == SLASH && x == Div(l, y)) || (op == PERCENT && x == Mod(l, y))
    ensures ParseTerm((TermText(l) + ([op] + FactorText(y))) + r) == TermLoop(x, r)
    decreases x, 3
  {
    hide FactorText, FactorOk, ParseFactor, TermText, TermOk, ParseTerm;
    var t := [op] + (FactorText(y) + r);
    Shift(TermText(l), op, FactorText(y), r, t);
    TermUnrolls(l, t);
    assert t[1..] == FactorText(y) + r;
    ParseFactorComplete(y, r);
  }

  lemma {:induction false} ParseFactorComplete(f: Factor, r: Text)
    requires FactorOk(f) && FollowsFactor(r)
    ensures ParseFactor(FactorText(f) + r) == Ok(f, r)
    decreases f, 4
  {
    hide AtomText, AtomOk, ParseAtom;
    var t := FactorText(f) + r;
    match f
    case Plain(a) => AtomFirst(a, r); ParseAtomComplete(a, r);
    case Pow(a, g) =>
      var rest := [CARET] + (FactorText(g) + r);
      Shift(AtomText(a), CARET, FactorText(g), r, rest);
      AtomFirst(a, rest);
      ParseAtomComplete(a, rest);
      assert rest[1..] == FactorText(g) + r;
      ParseFactorComplete(g, r);
    case Pos(g) => assert t[1..] == FactorText(g) + r; ParseFactorComplete(g, r);
    case Neg(g) => assert t[1..] == FactorText(g) + r; ParseFactorComplete(g, r);
  }

  lemma AtomFirst(a: Atom, r: Text)
    requires AtomOk(a)
    ensures var t := AtomText(a) + r; t != [] && !Starts(t, PLUS) && !Starts(t, MINUS) && (Starts(t, OPEN) <==> a.Paren?)
  {
  }

  /** An atom is read whole before anything that is not a digit or a dot. */
  lemma {:induction false} ParseAtomComplete(a: Atom, r: Text)
    requires AtomOk(a) && (r == [] || !(IsDigit(r[0]) || r[0] == DOT))
    ensures ParseAtom(AtomText(a) + r) == Ok(a, r)
    decreases a, 4
  {
    hide ExprText, ExprOk, ParseExpr, ParseLiteral;
    var t := AtomText(a) + r;
    match a
    case Paren(e) =>
      assert t[1..] == ExprText(e) + ([CLOSE] + r);
      ParseExprComplete(e, [CLOSE] + r);
    case Literal(w, f) => LiteralComplete(w, f, r);
  }

  lemma {:induction false} DigitRunAll(d: Text, r: Text)
    requires AllDigits(d) && (r == [] || !IsDigit(r[0]))
    ensures DigitRun(d + r) == |d|
  {
    if d == [] {
      assert d + r == r;
    } else {
      assert (d + r)[1..] == d[1..] + r;
      DigitRunAll(d[1..], r);
    }
  }

  /** A text put together around one character comes apart again. */
  lemma Pieces(w: Text, d: Unit, f: Text, r: Text)
    ensures var t := (w + ([d] + f)) + r;
            && t[..|w|] == w && t[|w|..] == [d] + (f + r)
            && t[|w| + 1..|w| + 1 + |f|] == f && t[|w| + 1 + |f|..] == r && t == w + ([d] + (f + r))
  {
  }

  /** Reading a literal, given where its digits end. */
  lemma LiteralAt(t: Text, n: nat, m: nat)
    requires n == DigitRun(t) && n > 0 && m == FractionRun(t[n..])
    ensures m == 0 ==> ParseLiteral(t) == Ok(Literal(t[..n], []), t[n..])
    ensures m > 0 ==> ParseLiteral(t) == Ok(Literal(t[..n], t[n + 1..n + 1 + m]), t[n + 1 + m..])
  {
    hide DigitRun, FractionRun, AllDigits;
  }

  lemma WholeComplete(w: Text, r: Text)
    requires w != [] && AllDigits(w) && (r == [] || !(IsDigit(r[0]) || r[0] == DOT))
    ensures ParseLiteral(w + r) == Ok(Literal(w, []), r)
  {
    hide DigitRun, ParseLiteral;
    DigitRunAll(w, r);
    assert (w + r)[..|w|] == w && (w + r)[|w|..] == r;
    LiteralAt(w + r, |w|, 0);
  }

  lemma FractionComplete(w: Text, f: Text, r: Text)
    requires w != [] && AllDigits(w) && f != [] && AllDigits(f) && (r == [] || !IsDigit(r[0]))
    ensures ParseLiteral((w + ([DOT] + f)) + r) == Ok(Literal(w, f), r)
  {
    hide DigitRun, ParseLiteral;
    Pieces(w, DOT, f, r);
    var tail := [DOT] + (f + r);
    DigitRunAll(w, tail);
    assert tail[1..] == f + r;
    DigitRunAll(f, r);
    LiteralAt((w + ([DOT] + f)) + r, |w|, |f|);
  }

  lemma LiteralComplete(w: Text, f: Text, r: Text)
    requires w != [] && AllDigits(w) && AllDigits(f) && (r == [] || !(IsDigit(r[0]) || r[0] == DOT))
    ensures ParseLiteral(LiteralText(w, f) + r) == Ok(Literal(w, f), r)
  {
    hide ParseLiteral;
    if f == [] { WholeComplete(w, r); } else { FractionComplete(w, f, r); }
  }

  // ----- the language

  /** `e` is the derivation of the whole text. */
  predicate Derives(e: Expr, s: Text) { ExprOk(e) && ExprText(e) == s }

  /** No text has two derivations. */
  lemma DerivationUnique(a: Expr, b: Expr)
    requires ExprOk(a) && ExprOk(b) && ExprText(a) == ExprText(b)
    ensures a == b
  {
    hide ExprOk, ExprText, ParseExpr;
    ParseExprComplete(a, []);
    ParseExprComplete(b, []);
  }

  /** `ParseExpr` consumes a whole text exactly when it is derivable. */
  lemma ParsesIffDerivable(s: Text, e: Expr)
    ensures ParseExpr(s) == Ok(e, []) <==> Derives(e, s)
  {
    hide ExprOk, ExprText, ParseExpr;
    ParseExprSound(s);
    if Derives(e, s) {
      ParseExprComplete(e, []);
      assert ExprText(e) + [] == s;
    }
    if ParseExpr(s) == Ok(e, []) { assert ExprText(e) + [] == ExprText(e); }
  }

  lemma {:induction false} ExprTextAllowed(e: Expr)
    requires ExprOk(e)
    ensures AllAllowed(ExprText(e))
  {
    match e
    case Sum(t) => TermTextAllowed(t);
    case Add(l, r) => ExprTextAllowed(l); TermTextAllowed(r);
    case Sub(l, r) => ExprTextAllowed(l); TermTextAllowed(r);
  }

  lemma {:induction false} TermTextAllowed(t: Term)
    requires TermOk(t)
    ensures AllAllowed(TermText(t))
  {
    match t
    case Product(f) => FactorTextAllowed(f);
    case Mul(l, r) => TermTextAllowed(l); FactorTextAllowed(r);
    case Div(l, r) => TermTextAllowed(l); FactorTextAllowed(r);
    case Mod(l, r) => TermTextAllowed(l); FactorTextAllowed(r);
  }

  lemma {:induction false} FactorTextAllowed(f: Factor)
    requires FactorOk(f)
    ensures AllAllowed(FactorText(f))
  {
    match f
    case Plain(a) => AtomTextAllowed(a);
    case Pow(a, g) => AtomTextAllowed(a); FactorTextAllowed(g);
    case Pos(g) => FactorTextAllowed(g);
    case Neg(g) => FactorTextAllowed(g);
  }

  lemma {:induction false} AtomTextAllowed(a: Atom)
    requires AtomOk(a)
    ensures AllAllowed(AtomText(a))
  {
    match a
    case Literal(w, f) =>
    case Paren(e) => ExprTextAllowed(e);
  }

  /** An input is given the number `v` exactly when, without its white space, it is the text of some
      derivation whose value is `v` and finite. */
  lemma EvaluatesIffDerivable<N>(o: Ops<N>, input: Text, v: N)
    ensures Evaluate(o, input) == Number(v) <==> exists e :: Derives(e, Strip(input)) && ExprValue(o, e) == v && o.finite(v)
  {
    hide ParseExpr, Strip, ExprValue, Derives;
    var s := Strip(input);
    if Evaluate(o, input) == Number(v) {
      var e := ParseExpr(s).tree;
      assert ParseExpr(s) == Ok(e, []);
      ParsesIffDerivable(s, e);
      assert Derives(e, s);
      assert ExprValue(o, e) == v;
      assert o.finite(v);
    }
    if exists e :: Derives(e, s) && ExprValue(o, e) == v && o.finite(v) {
      var e :| Derives(e, s) && ExprValue(o, e) == v && o.finite(v);
      ParsesIffDerivable(s, e);
      DerivedAllowed(e, s);
    }
  }

  lemma DerivedAllowed(e: Expr, s: Text)
    requires Derives(e, s)
    ensures AllAllowed(s)
  {
    ExprTextAllowed(e);
  }

  // ----- printing expressions with the fewest parentheses

  /** Expressions as trees, without the grammar's levels. */
  datatype Ast =
    | Num(whole: Text, fraction: Text)
    | Binary(op: Op, left: Ast, right: Ast)
    | Minus(of: Ast)

  datatype Op = OpAdd | OpSub | OpMul | OpDiv | OpMod | OpPow

  predicate AstOk(a: Ast) {
    match a
    case Num(w, f) => w != [] && AllDigits(w) && AllDigits(f)
    case Binary(_, l, r) => AstOk(l) && AstOk(r)
    case Minus(b) => AstOk(b)
  }

  function Meaning<N>(o: Ops<N>, a: Ast): N {
    match a
    case Num(w, f) => o.num(w, f)
    case Minus(b) => o.neg(Meaning(o, b))
    case Binary(op, l, r) =>
      var x, y := Meaning(o, l), Meaning(o, r);
      match op
      case OpAdd => o.add(x, y)
      case OpSub => o.sub(x, y)
      case OpMul => o.mul(x, y)
      case OpDiv => o.div(x, y)
      case OpMod => o.mod(x, y)
      case OpPow => o.pow(x, y)
  }

  /** The grammar level a tree's root belongs to. */
  function Level(a: Ast): nat {
    match a
    case Num(_, _) => 3
    case Minus(_) => 2
    case Binary(op, _, _) => if op == OpAdd || op == OpSub then 0 else if op == OpPow then 2 else 1
  }

  /** How many levels are passed through before the root itself is written. */
  function Distance(a: Ast, level: nat): nat
    requires level <= 3
  {
    if level <= Level(a) then Level(a) - level else 4 - level + Level(a)
  }

  function ToExpr(a: Ast): Expr
    decreases a, Distance(a, 0)
  {
    match a
    case Binary(OpAdd, l, r) => Add(ToExpr(l), ToTerm(r))
    case Binary(OpSub, l, r) => Sub(ToExpr(l), ToTerm(r))
    case _ => Sum(ToTerm(a))
  }

  function ToTerm(a: Ast): Term
    decreases a, Distance(a, 1)
  {
    match a
    case Binary(OpMul, l, r) => Mul(ToTerm(l), ToFactor(r))
    case Binary(OpDiv, l, r) => Div(ToTerm(l), ToFactor(r))
    case Binary(OpMod, l, r) => Mod(ToTerm(l), ToFactor(r))
    case _ => Product(ToFactor(a))
  }

  function ToFactor(a: Ast): Factor
    decreases a, Distance(a, 2)
  {
    match a
    case Minus(b) => Neg(ToFactor(b))
    case Binary(OpPow, l, r) => Pow(ToAtom(l), ToFactor(r))
    case _ => Plain(ToAtom(a))
  }

  function ToAtom(a: Ast): Atom
    decreases a, Distance(a, 3)
  {
    match a
    case Num(w, f) => Literal(w, f)
    case _ => Paren(ToExpr(a))
  }

  /** What a derivation stands for: parentheses and plus signs leave no trace. */
  function ExprAst(e: Expr): Ast {
    match e
    case Sum(t) => TermAst(t)
    case Add(l, r) => Binary(OpAdd, ExprAst(l), TermAst(r))
    case Sub(l, r) => Binary(OpSub, ExprAst(l), TermAst(r))
  }

  function TermAst(t: Term): Ast {
    match t
    case Product(f) => FactorAst(f)
    case Mul(l, r) => Binary(OpMul, TermAst(l), FactorAst(r))
    case Div(l, r) => Binary(OpDiv, TermAst(l), FactorAst(r))
    case Mod(l, r) => Binary(OpMod, TermAst(l), FactorAst(r))
  }

  function FactorAst(f: Factor): Ast {
    match f
    case Plain(a) => AtomAst(a)
    case Pow(a, g) => Binary(OpPow, AtomAst(a), FactorAst(g))
    case Pos(g) => FactorAst(g)
    case Neg(g) => Minus(FactorAst(g))
  }

  function AtomAst(a: Atom): Ast {
    match a
    case Literal(w, f) => Ast.Num(w, f)
    case Paren(e) => ExprAst(e)
  }

  /** Away from its own level a tree is passed on unchanged, and wrapped once. */
  lemma Shapes(a: Ast)
    ensures Level(a) != 0 ==> ToExpr(a) == Sum(ToTerm(a))
    ensures Level(a) != 1 ==> ToTerm(a) == Product(ToFactor(a))
    ensures Level(a) != 2 ==> ToFactor(a) == Plain(ToAtom(a))
    ensures Level(a) != 3 ==> ToAtom(a) == Paren(ToExpr(a))
  {
  }

  /** The level changes add nothing but a pair of parentheses. */
  lemma Wrappers<N>(o: Ops<N>, e: Expr, t: Term, f: Factor, a: Atom)
    ensures ExprValue(o, Sum(t)) == TermValue(o, t) && (ExprOk(Sum(t)) <==> TermOk(t)) && ExprText(Sum(t)) == TermText(t)
    ensures TermValue(o, Product(f)) == FactorValue(o, f) && (TermOk(Product(f)) <==> FactorOk(f)) && TermText(Product(f)) == FactorText(f)
    ensures FactorValue(o, Plain(a)) == AtomValue(o, a) && (FactorOk(Plain(a)) <==> AtomOk(a)) && FactorText(Plain(a)) == AtomText(a)
    ensures AtomValue(o, Paren(e)) == ExprValue(o, e) && (AtomOk(Paren(e)) <==> ExprOk(e)) && |AtomText(Paren(e))| == |ExprText(e)| + 2
    ensures ExprAst(Sum(t)) == TermAst(t) && TermAst(Product(f)) == FactorAst(f)
    ensures FactorAst(Plain(a)) == AtomAst(a) && AtomAst(Paren(e)) == ExprAst(e)
  {
  }

  /** What a root needs at its own level. */
  ghost predicate RootKeeps<N>(o: Ops<N>, a: Ast) {
    && (Level(a) == 0 ==> ExprOk(ToExpr(a)) && ExprValue(o, ToExpr(a)) == Meaning(o, a))
    && (Level(a) == 1 ==> TermOk(ToTerm(a)) && TermValue(o, ToTerm(a)) == Meaning(o, a))
    && (Level(a) == 2 ==> FactorOk(ToFactor(a)) && FactorValue(o, ToFactor(a)) == Meaning(o, a))
    && (Level(a) == 3 ==> AtomOk(ToAtom(a)) && AtomValue(o, ToAtom(a)) == Meaning(o, a))
  }

  ghost predicate KeepsMeaning<N>(o: Ops<N>, a: Ast) {
    && ExprOk(ToExpr(a)) && ExprValue(o, ToExpr(a)) == Meaning(o, a)
    && TermOk(ToTerm(a)) && TermValue(o, ToTerm(a)) == Meaning(o, a)
    && FactorOk(ToFactor(a)) && FactorValue(o, ToFactor(a)) == Meaning(o, a)
    && AtomOk(ToAtom(a)) && AtomValue(o, ToAtom(a)) == Meaning(o, a)
  }

  lemma RootSpreads<N>(o: Ops<N>, a: Ast)
    requires RootKeeps(o, a)
    ensures KeepsMeaning(o, a)
  {
    hide ToExpr, ToTerm, ToFactor, ToAtom, ExprOk, TermOk, FactorOk, AtomOk, ExprValue, TermValue, FactorValue, AtomValue, Meaning;
    Shapes(a);
    Wrappers(o, ToExpr(a), ToTerm(a), ToFactor(a), ToAtom(a));
    assert Level(a) <= 3;
  }

  /** The print keeps the meaning, at every level. */
  lemma {:induction false} PrintKeepsMeaning<N>(o: Ops<N>, a: Ast)
    requires AstOk(a)
    ensures KeepsMeaning(o, a)
  {
    match a
    case Num(w, f) => RootSpreads(o, a);
    case Minus(b) => PrintKeepsMeaning(o, b); RootSpreads(o, a);
    case Binary(op, l, r) =>
      PrintKeepsMeaning(o, l);
      PrintKeepsMeaning(o, r);
      RootSpreads(o, a);
  }

  function PrintAst(a: Ast): Text { ExprText(ToExpr(a)) }

  lemma {:induction false} StripKeepsPlain(t: Text)
    requires AllAllowed(t)
    ensures Strip(t) == t
  {
    if t != [] { StripKeepsPlain(t[1..]); }
  }

  /** Evaluating the print of an expression tree reads all of it and gives the tree's meaning. */
  lemma PrintEvaluates<N>(o: Ops<N>, a: Ast)
    requires AstOk(a)
    ensures Evaluate(o, PrintAst(a)) == if o.finite(Meaning(o, a)) then Number(Meaning(o, a)) else Error(NotFinite)
  {
    PrintKeepsMeaning(o, a);
    var e := ToExpr(a);
    ExprTextAllowed(e);
    StripKeepsPlain(PrintAst(a));
    hide ToExpr, ExprOk, ExprText, ParseExpr, Strip, Meaning, ExprValue;
    ParsesIffDerivable(PrintAst(a), e);
  }

  // ----- the print is the shortest text with its tree

  /** A looser position never needs the longer text, and a tighter one at most two parentheses. */
  lemma LevelsAreOrdered(a: Ast)
    ensures |ExprText(ToExpr(a))| <= |TermText(ToTerm(a))| <= |FactorText(ToFactor(a))| <= |AtomText(ToAtom(a))|
    ensures |AtomText(ToAtom(a))| <= |ExprText(ToExpr(a))| + 2
  {
    Shapes(a);
    Wrappers(Plainest(), ToExpr(a), ToTerm(a), ToFactor(a), ToAtom(a));
    hide ToExpr, ToTerm, ToFactor, ToAtom, ExprText, TermText, FactorText, AtomText;
    assert Level(a) <= 3;
  }

  /** Some operations, where only the shape of a derivation matters. */
  function Plainest(): Ops<bool> {
    Ops((w, f) => true, (x, y) => true, (x, y) => true, (x, y) => true, (x, y) => true, (x, y) => true, (x, y) => true,
        x => true, x => true)
  }

  /** No derivation of the same tree is shorter than the print. */
  lemma {:induction false} ExprNoShorter(e: Expr)
    ensures |PrintAst(ExprAst(e))| <= |ExprText(e)|
  {
    LevelsAreOrdered(ExprAst(e));
    match e
    case Sum(t) => TermNoShorter(t);
    case Add(l, r) => ExprNoShorter(l); TermNoShorter(r);
    case Sub(l, r) => ExprNoShorter(l); TermNoShorter(r);
  }

  lemma {:induction false} TermNoShorter(t: Term)
    ensures |TermText(ToTerm(TermAst(t)))| <= |TermText(t)|
  {
    LevelsAreOrdered(TermAst(t));
    match t
    case Product(f) => FactorNoShorter(f);
    case Mul(l, r) => TermNoShorter(l); FactorNoShorter(r);
    case Div(l, r) => TermNoShorter(l); FactorNoShorter(r);
    case Mod(l, r) => TermNoShorter(l); FactorNoShorter(r);
  }

  lemma {:induction false} FactorNoShorter(f: Factor)
    ensures |FactorText(ToFactor(FactorAst(f)))| <= |FactorText(f)|
  {
    LevelsAreOrdered(FactorAst(f));
    match f
    case Plain(a) => AtomNoShorter(a);
    case Pow(a, g) => AtomNoShorter(a); FactorNoShorter(g);
    case Pos(g) => FactorNoShorter(g);
    case Neg(g) => FactorNoShorter(g);
  }

  lemma {:induction false} AtomNoShorter(a: Atom)
    ensures |AtomText(ToAtom(AtomAst(a)))| <= |AtomText(a)|
  {
    LevelsAreOrdered(AtomAst(a));
    match a
    case Literal(w, f) =>
    case Paren(e) => ExprNoShorter(e);
  }

  predicate PrintsBack(a: Ast) {
    ExprAst(ToExpr(a)) == a && TermAst(ToTerm(a)) == a && FactorAst(ToFactor(a)) == a && AtomAst(ToAtom(a)) == a
  }

  lemma {:induction false} AstOfPrint(a: Ast)
    ensures PrintsBack(a)
  {
    match a {
      case Num(w, f) =>
      case Minus(b) => AstOfPrint(b);
      case Binary(op, l, r) =>
        AstOfPrint(l);
        AstOfPrint(r);
    }
    RootPrintsBack(a);
  }

  lemma RootPrintsBack(a: Ast)
    requires Level(a) == 0 ==> ExprAst(ToExpr(a)) == a
    requires Level(a) == 1 ==> TermAst(ToTerm(a)) == a
    requires Level(a) == 2 ==> FactorAst(ToFactor(a)) == a
    requires Level(a) == 3 ==> AtomAst(ToAtom(a)) == a
    ensures PrintsBack(a)
  {
    hide ToExpr, ToTerm, ToFactor, ToAtom, ExprAst, TermAst, FactorAst, AtomAst;
    Shapes(a);
    Wrappers(Plainest(), ToExpr(a), ToTerm(a), ToFactor(a), ToAtom(a));
    assert Level(a) <= 3;
  }

  /** Of all accepted texts that stand for a tree, its print is a shortest one. */
  lemma PrintIsShortest(a: Ast, e: Expr)
    requires ExprAst(e) == a
    ensures ExprAst(ToExpr(a)) == a && |PrintAst(a)| <= |ExprText(e)|
  {
    AstOfPrint(a);
    ExprNoShorter(e);
  }
}
