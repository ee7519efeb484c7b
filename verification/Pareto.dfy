/** The evaluation report's Pareto fronts and percentiles
    (packages/evals-runner/src/runner.ts:548-601), over real numbers. */
module Pareto {
  import opened JsonValue

  datatype SuiteAggregate = SuiteAggregate(suiteName: Text, modelId: Text, meanAcc: real, totalCostUsd: real, p95WallMs: real)

  /** At least as good on every axis, and better on one. */
  predicate Dominates(a: SuiteAggregate, b: SuiteAggregate) {
    && a.meanAcc >= b.meanAcc && a.totalCostUsd <= b.totalCostUsd && a.p95WallMs <= b.p95WallMs
    && (a.meanAcc > b.meanAcc || a.totalCostUsd < b.totalCostUsd || a.p95WallMs < b.p95WallMs)
  }

  /** Position `i` is beaten by no other position. */
  predicate Unbeaten(rs: seq<SuiteAggregate>, i: nat)
    requires i < |rs|
  {
    forall j :: 0 <= j < |rs| && j != i ==> !Dominates(rs[j], rs[i])
  }

  /** The unbeaten ones among the first `n`, in order. */
  function FrontTo(rs: seq<SuiteAggregate>, n: nat): (f: seq<SuiteAggregate>)
    requires n <= |rs|
    ensures forall a :: a in f <==> exists i :: 0 <= i < n && rs[i] == a && Unbeaten(rs, i)
  {
    if n == 0 then [] else FrontTo(rs, n - 1) + if Unbeaten(rs, n - 1) then [rs[n - 1]] else []
  }

  function Front(rs: seq<SuiteAggregate>): seq<SuiteAggregate> { FrontTo(rs, |rs|) }

  function InSuiteTo(aggregates: seq<SuiteAggregate>, name: Text, n: nat): seq<SuiteAggregate>
    requires n <= |aggregates|
  {
    if n == 0 then [] else InSuiteTo(aggregates, name, n - 1) + if aggregates[n - 1].suiteName == name then [aggregates[n - 1]] else []
  }

  function InSuite(aggregates: seq<SuiteAggregate>, name: Text): seq<SuiteAggregate> { InSuiteTo(aggregates, name, |aggregates|) }

  datatype SuiteFront = SuiteFront(suiteName: Text, front: seq<SuiteAggregate>)

  /** `buildParetoFront`. */
  method BuildParetoFront(suites: seq<Text>, aggregates: seq<SuiteAggregate>) returns (out: seq<SuiteFront>)
    ensures |out| == |suites|
    ensures forall k :: 0 <= k < |suites| ==> out[k] == SuiteFront(suites[k], Front(InSuite(aggregates, suites[k])))
  {
    out := [];
    for k := 0 to |suites|
      invariant |out| == k
      invariant forall j :: 0 <= j < k ==> out[j] == SuiteFront(suites[j], Front(InSuite(aggregates, suites[j])))
    {
      var inSuite := [];
      for n := 0 to |aggregates|
        invariant inSuite == InSuiteTo(aggregates, suites[k], n)
      {
        if aggregates[n].suiteName == suites[k] { inSuite := inSuite + [aggregates[n]]; }
      }
      var front := [];
      for i := 0 to |inSuite|
        invariant front == FrontTo(inSuite, i)
      {
        var dominated := false;
        for j := 0 to |inSuite|
          invariant dominated <==> exists m :: 0 <= m < j && m != i && Dominates(inSuite[m], inSuite[i])
        {
          if j != i && Dominates(inSuite[j], inSuite[i]) { dominated := true; }
        }
        if !dominated { front := front + [inSuite[i]]; }
      }
      out := out + [SuiteFront(suites[k], front)];
    }
  }

  /** The positions that dominate position `i`. */
  ghost function Above(rs: seq<SuiteAggregate>, i: nat): set<nat>
    requires i < |rs|
  {
    set j: nat | j < |rs| && Dominates(rs[j], rs[i])
  }

  /** Climbing through dominating positions ends at an unbeaten one. */
  lemma {:induction false} SomeoneUnbeaten(rs: seq<SuiteAggregate>, i: nat) returns (j: nat)
    requires i < |rs|
    ensures j < |rs| && Unbeaten(rs, j) && (j == i || Dominates(rs[j], rs[i]))
    decreases Above(rs, i)
  {
    if Unbeaten(rs, i) {
      j := i;
    } else {
      var k: nat :| k < |rs| && k != i && Dominates(rs[k], rs[i]);
      assert k in Above(rs, i) && k !in Above(rs, k);
      j := SomeoneUnbeaten(rs, k);
    }
  }

  /** The front is an antichain, is empty only for an empty suite, and every model of the suite is in
      it or dominated by a model in it. */
  lemma FrontIsParetoFront(rs: seq<SuiteAggregate>)
    ensures forall a, b :: a in Front(rs) && b in Front(rs) ==> !Dominates(a, b)
    ensures Front(rs) == [] <==> rs == []
    ensures forall c :: c in rs ==> c in Front(rs) || exists a :: a in Front(rs) && Dominates(a, c)
    ensures forall a :: a in Front(rs) ==> a in rs && forall c :: c in rs ==> !Dominates(c, a)
  {
    forall c | c in rs ensures c in Front(rs) || exists a :: a in Front(rs) && Dominates(a, c) {
      var i :| 0 <= i < |rs| && rs[i] == c;
      var j := SomeoneUnbeaten(rs, i);
      assert rs[j] in Front(rs);
    }
    if rs != [] {
      var j := SomeoneUnbeaten(rs, 0);
      assert rs[j] in Front(rs);
    }
    forall a, c | a in Front(rs) && c in rs ensures !Dominates(c, a) {
      var i :| 0 <= i < |rs| && rs[i] == a && Unbeaten(rs, i);
      var k :| 0 <= k < |rs| && rs[k] == c;
    }
  }

  /** The front does not depend on the order in which the models were run. */
  lemma FrontIgnoresOrder(a: seq<SuiteAggregate>, b: seq<SuiteAggregate>)
    requires forall c :: c in a <==> c in b
    ensures forall c :: c in Front(a) <==> c in Front(b)
  {
    FrontIsParetoFront(a);
    FrontIsParetoFront(b);
    forall c | c in Front(a) ensures c in Front(b) { }
    forall c | c in Front(b) ensures c in Front(a) { }
  }

  // ----- percentiles

  predicate Ascending(xs: seq<real>) { forall i, j :: 0 <= i < j < |xs| ==> xs[i] <= xs[j] }

  /** The value at a fractional position, by linear interpolation. */
  function AtRank(xs: seq<real>, rank: real): real
    requires xs != [] && 0.0 <= rank <= (|xs| - 1) as real
  {
    var lower := rank.Floor;
    if rank == lower as real then xs[lower]
    else xs[lower] * (1.0 - (rank - lower as real)) + xs[lower + 1] * (rank - lower as real)
  }

  function RankOf(n: nat, p: real): real
    requires n >= 1
  {
    p / 100.0 * (n - 1) as real
  }

  lemma RankInRange(n: nat, p: real)
    requires n >= 1 && 0.0 <= p <= 100.0
    ensures 0.0 <= RankOf(n, p) <= (n - 1) as real
  {
    var q, m := p / 100.0, (n - 1) as real;
    ScaleBound(q, m);
    assert RankOf(n, p) == q * m;
  }

  lemma ScaleBound(q: real, m: real)
    requires 0.0 <= q <= 1.0 && m >= 0.0
    ensures 0.0 <= q * m <= m
  {
    assert m - q * m == (1.0 - q) * m;
  }

  /** `percentile`, for `p` between 0 and 100. */
  function Percentile(xs: seq<real>, p: real): real
    requires 0.0 <= p <= 100.0
  {
    if |xs| == 0 then 0.0 else if |xs| == 1 then xs[0]
    else
      RankInRange(|xs|, p);
      AtRank(xs, RankOf(|xs|, p))
  }

  /** An interpolated value lies between its neighbours. */
  lemma Between(a: real, b: real, f: real)
    requires a <= b && 0.0 <= f <= 1.0
    ensures a <= a * (1.0 - f) + b * f <= b
  {
    var d, g := b - a, 1.0 - f;
    ScaleBound(f, d);
    ScaleBound(g, d);
    assert a * g + b * f == a + f * d;
    assert a * g + b * f == b - g * d;
  }

  lemma RankBetween(xs: seq<real>, rank: real)
    requires Ascending(xs) && xs != [] && 0.0 <= rank <= (|xs| - 1) as real
    ensures xs[rank.Floor] <= AtRank(xs, rank)
    ensures rank.Floor + 1 < |xs| ==> AtRank(xs, rank) <= xs[rank.Floor + 1]
    ensures rank.Floor + 1 == |xs| ==> AtRank(xs, rank) == xs[rank.Floor]
  {
    var lower := rank.Floor;
    if rank != lower as real { Between(xs[lower], xs[lower + 1], rank - lower as real); }
  }

  lemma {:induction false} RankMonotone(xs: seq<real>, r: real, s: real)
    requires Ascending(xs) && xs != [] && 0.0 <= r <= s <= (|xs| - 1) as real
    ensures AtRank(xs, r) <= AtRank(xs, s)
  {
    RankBetween(xs, r);
    RankBetween(xs, s);
    var l, m := r.Floor, s.Floor;
    assert l <= m;
    if l < m {
      assert xs[l + 1] <= xs[m];
    } else if s != l as real {
      SameSegment(xs[l], xs[l + 1], r - l as real, s - l as real);
    }
  }

  lemma SameSegment(a: real, b: real, f: real, g: real)
    requires a <= b && 0.0 <= f <= g <= 1.0
    ensures a * (1.0 - f) + b * f <= a * (1.0 - g) + b * g
    ensures f == 0.0 ==> a * (1.0 - f) + b * f == a
  {
    var d, e := b - a, g - f;
    assert a * (1.0 - f) + b * f == a + f * d;
    assert a * (1.0 - g) + b * g == a + f * d + e * d;
    assert e * d >= 0.0;
  }

  /** On sorted input a higher percentile is never smaller, and percentiles stay within the data. */
  lemma PercentileMonotone(xs: seq<real>, p: real, q: real)
    requires Ascending(xs) && 0.0 <= p <= q <= 100.0
    ensures Percentile(xs, p) <= Percentile(xs, q)
    ensures xs != [] ==> xs[0] <= Percentile(xs, p) && Percentile(xs, q) <= xs[|xs| - 1]
    ensures xs != [] ==> Percentile(xs, 0.0) == xs[0] && Percentile(xs, 100.0) == xs[|xs| - 1]
  {
    if |xs| >= 2 {
      var n := |xs|;
      RankInRange(n, p);
      RankInRange(n, q);
      var m := (n - 1) as real;
      assert RankOf(n, p) <= RankOf(n, q) by {
        var d := q / 100.0 - p / 100.0;
        assert d * m >= 0.0;
        assert q / 100.0 * m - p / 100.0 * m == d * m;
      }
      assert RankOf(n, 0.0) == 0.0 && RankOf(n, 100.0) == m;
      RankMonotone(xs, RankOf(n, p), RankOf(n, q));
      RankMonotone(xs, 0.0, RankOf(n, p));
      RankMonotone(xs, RankOf(n, q), m);
    }
  }
}
