/** JavaScript values as the AEP package serialises them, and what it means for two of them to
    carry the same JSON content.

    Strings are sequences of UTF-16 code units, because that is what the source compares and
    escapes. Objects are sequences of members in insertion order with distinct keys. Numbers are
    integers: the source limits itself to them (packages/aep/src/canonical.ts:10-16). */
module JsonValue {

  datatype Option<+T> = None | Some(value: T)

  type Unit = u: int | 0 <= u < 0x10000

  type Text = seq<Unit>

  datatype Entry<+T> = Entry(key: Text, val: T)

  datatype Value =
    | Undefined
    | Null
    | Bool(b: bool)
    | Num(n: int)
    | Str(s: Text)
    | Arr(elems: seq<Value>)
    | Obj(members: seq<Entry<Value>>)

  /** The code units of "0" to "9". */
  predicate IsDigit(u: Unit) { 48 <= u <= 57 }

  /** The UTF-16 text of a literal from the basic multilingual plane. */
  function Lit(s: string): (t: Text)
    ensures |t| == |s|
  {
    seq(|s|, i requires 0 <= i < |s| => if s[i] as int < 0x10000 then s[i] as int else 0)
  }

  // ----- association lists

  function Keys<T>(es: seq<Entry<T>>): (ks: seq<Text>)
    ensures |ks| == |es|
    ensures forall i :: 0 <= i < |es| ==> ks[i] == es[i].key
  {
    seq(|es|, i requires 0 <= i < |es| => es[i].key)
  }

  predicate Distinct<T(==)>(xs: seq<T>) {
    forall i, j :: 0 <= i < j < |xs| ==> xs[i] != xs[j]
  }

  lemma DistinctCons<T>(x: T, xs: seq<T>)
    ensures Distinct([x] + xs) <==> Distinct(xs) && x !in xs
  {
    var ys := [x] + xs;
    assert forall i :: 0 <= i < |xs| ==> ys[i + 1] == xs[i];
    if Distinct(ys) {
      forall i | 0 <= i < |xs| ensures xs[i] != x { assert ys[0] != ys[i + 1]; }
      forall i, j | 0 <= i < j < |xs| ensures xs[i] != xs[j] { assert ys[i + 1] != ys[j + 1]; }
    }
  }

  lemma SameMembers<T>(a: seq<T>, b: seq<T>)
    requires multiset(a) == multiset(b)
    ensures |a| == |b| && forall x :: x in a <==> x in b
  {
    forall x ensures x in a <==> x in b {
      assert x in a <==> x in multiset(a);
      assert x in b <==> x in multiset(b);
    }
    assert |multiset(a)| == |a| && |multiset(b)| == |b|;
  }

  function Find<T>(es: seq<Entry<T>>, k: Text): (r: Option<T>)
    ensures r.Some? <==> k in Keys(es)
  {
    if es == [] then
      None
    else
      assert Keys(es) == [es[0].key] + Keys(es[1..]);
      if es[0].key == k then Some(es[0].val) else Find(es[1..], k)
  }

  lemma {:induction false} FindWitness<T>(es: seq<Entry<T>>, k: Text) returns (i: nat)
    requires Find(es, k).Some?
    ensures i < |es| && es[i] == Entry(k, Find(es, k).value)
  {
    if es[0].key == k {
      i := 0;
    } else {
      i := FindWitness(es[1..], k);
      i := i + 1;
    }
  }

  lemma KeysTail<T>(es: seq<Entry<T>>)
    requires es != []
    ensures Keys(es) == [es[0].key] + Keys(es[1..])
    ensures Distinct(Keys(es)) <==> Distinct(Keys(es[1..])) && es[0].key !in Keys(es[1..])
  {
    assert Keys(es) == [es[0].key] + Keys(es[1..]);
    DistinctCons(es[0].key, Keys(es[1..]));
  }

  lemma {:induction false} FindAt<T>(es: seq<Entry<T>>, i: nat)
    requires Distinct(Keys(es)) && i < |es|
    ensures Find(es, es[i].key) == Some(es[i].val)
  {
    if i > 0 {
      KeysTail(es);
      assert Keys(es)[0] != Keys(es)[i];
      FindAt(es[1..], i - 1);
    }
  }

  /** The property `v[k]` of a JavaScript value. */
  function Get(v: Value, k: Text): Value {
    if v.Obj? then
      match Find(v.members, k)
      case Some(x) => x
      case None => Undefined
    else
      Undefined
  }

  function TextValues(ts: seq<Text>): (r: seq<Value>)
    ensures |r| == |ts| && forall i :: 0 <= i < |ts| ==> r[i] == Str(ts[i])
  {
    seq(|ts|, i requires 0 <= i < |ts| => Str(ts[i]))
  }

  function TextOf(v: Value): Text { if v.Str? then v.s else [] }

  function IntOf(v: Value): int { if v.Num? then v.n else 0 }

  predicate Truthy(v: Value) {
    match v
    case Undefined => false
    case Null => false
    case Bool(b) => b
    case Num(n) => n != 0
    case Str(s) => s != []
    case _ => true
  }

  /** The members whose key is not in `ks`. */
  function Without<T>(es: seq<Entry<T>>, ks: set<Text>): seq<Entry<T>> {
    if es == [] then []
    else if es[0].key in ks then Without(es[1..], ks)
    else [es[0]] + Without(es[1..], ks)
  }

  lemma {:induction false} WithoutFind<T>(es: seq<Entry<T>>, ks: set<Text>, k: Text)
    ensures Find(Without(es, ks), k) == if k in ks then None else Find(es, k)
  {
    if es != [] { WithoutFind(es[1..], ks, k); }
  }

  lemma {:induction false} WithoutDistinct<T>(es: seq<Entry<T>>, ks: set<Text>)
    requires Distinct(Keys(es))
    ensures Distinct(Keys(Without(es, ks)))
  {
    if es != [] {
      KeysTail(es);
      WithoutDistinct(es[1..], ks);
      if es[0].key !in ks {
        WithoutFind(es[1..], ks, es[0].key);
        assert Without(es, ks)[1..] == Without(es[1..], ks);
        KeysTail(Without(es, ks));
      }
    }
  }

  /** Assigning one property: an existing member keeps its place. */
  function Assign<T>(ms: seq<Entry<T>>, k: Text, x: T): seq<Entry<T>> {
    if ms == [] then [Entry(k, x)]
    else if ms[0].key == k then [Entry(k, x)] + ms[1..]
    else [ms[0]] + Assign(ms[1..], k, x)
  }

  lemma {:induction false} AssignFind<T>(ms: seq<Entry<T>>, k: Text, x: T, q: Text)
    ensures Find(Assign(ms, k, x), q) == if q == k then Some(x) else Find(ms, q)
  {
    if ms != [] {
      AssignFind(ms[1..], k, x, q);
      if ms[0].key == k { assert Assign(ms, k, x)[1..] == ms[1..]; }
    }
  }

  lemma {:induction false} AssignDistinct<T>(ms: seq<Entry<T>>, k: Text, x: T)
    requires Distinct(Keys(ms))
    ensures Distinct(Keys(Assign(ms, k, x)))
  {
    if ms != [] {
      KeysTail(ms);
      var r := Assign(ms, k, x);
      if ms[0].key == k {
        assert r[1..] == ms[1..];
      } else {
        AssignDistinct(ms[1..], k, x);
        AssignFind(ms[1..], k, x, ms[0].key);
        assert r[1..] == Assign(ms[1..], k, x);
      }
      KeysTail(r);
    }
  }

  // ----- well-formedness and content

  /** Objects have distinct keys, at every depth. */
  predicate WellFormed(v: Value) {
    match v
    case Arr(es) => forall i :: 0 <= i < |es| ==> WellFormed(es[i])
    case Obj(ms) => Distinct(Keys(ms)) && forall i :: 0 <= i < |ms| ==> WellFormed(ms[i].val)
    case _ => true
  }

  lemma ThreeMembers(a: Text, v: Value, b: Text, w: Value, c: Text, z: Value)
    requires a != b && a != c && b != c && WellFormed(v) && WellFormed(w) && WellFormed(z)
    ensures var o := Obj([Entry(a, v), Entry(b, w), Entry(c, z)]);
            WellFormed(o) && Get(o, a) == v && Get(o, b) == w && Get(o, c) == z
  {
    var ms := [Entry(a, v), Entry(b, w), Entry(c, z)];
    assert Keys(ms) == [a, b, c];
    FindAt(ms, 0);
    FindAt(ms, 1);
    FindAt(ms, 2);
    hide Find;
  }

  /** A value a program can hold. */
  type Js = v: Value | WellFormed(v) witness Undefined

  lemma {:induction false} WithoutWellFormed(ms: seq<Entry<Value>>, ks: set<Text>)
    requires forall i :: 0 <= i < |ms| ==> WellFormed(ms[i].val)
    ensures forall i :: 0 <= i < |Without(ms, ks)| ==> WellFormed(Without(ms, ks)[i].val)
  {
    if ms != [] { WithoutWellFormed(ms[1..], ks); }
  }

  /** Equal JSON content, said without sorting or printing: members are compared by key whatever
      their order, an undefined member counts as absent, and an undefined slot counts as null. */
  predicate SameContent(a: Value, b: Value) {
    match a
    case Undefined => b.Undefined? || b.Null?
    case Null => b.Undefined? || b.Null?
    case Arr(es) => b.Arr? && |es| == |b.elems| && forall i :: 0 <= i < |es| ==> SameContent(es[i], b.elems[i])
    case Obj(ms) =>
      b.Obj?
      && (forall i :: 0 <= i < |ms| && !ms[i].val.Undefined? ==>
            var w := Get(b, ms[i].key); !w.Undefined? && SameContent(ms[i].val, w))
      && (forall j :: 0 <= j < |b.members| && !b.members[j].val.Undefined? ==>
            !Get(a, b.members[j].key).Undefined?)
    case _ => a == b
  }
}
