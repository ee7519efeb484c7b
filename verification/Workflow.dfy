/** The workflow compiler's depth-first topological sort with cycle detection
    (packages/cloudflare-worker/src/CloudflareWorkflowEngine.ts:249-268). */
module Workflow {
  import opened JsonValue

  /** A step as the sort and the runner see it; an absent `dependsOn` is the empty list. */
  datatype Step = Step(id: Text, toolName: Text, args: Value, dependsOn: seq<Text>)

  /** `byId`: of steps with one id the last declared counts. */
  type Graph = map<Text, Step>

  function ById(steps: seq<Step>): (g: Graph)
    ensures forall k :: k in g <==> exists i :: 0 <= i < |steps| && steps[i].id == k
    ensures forall k :: k in g ==> g[k].id == k && g[k] in steps
  {
    if steps == [] then map[] else var last := steps[|steps| - 1]; ById(steps[..|steps| - 1])[last.id := last]
  }

  function Ids(steps: seq<Step>): (r: seq<Text>)
    ensures |r| == |steps| && forall i :: 0 <= i < |steps| ==> r[i] == steps[i].id
  {
    seq(|steps|, i requires 0 <= i < |steps| => steps[i].id)
  }

  /** The sort's ways to end: an order, or one of the two errors it throws. */
  datatype Walk = Done(order: seq<Text>) | CycleError(path: seq<Text>) | UnknownError(id: Text)

  ghost function Unvisited(g: Graph, path: seq<Text>): set<Text> { g.Keys - (set i | 0 <= i < |path| :: path[i]) }

  lemma PathGrows(g: Graph, path: seq<Text>, id: Text)
    requires id in g && id !in path
    ensures Unvisited(g, path + [id]) < Unvisited(g, path)
  {
    assert id in Unvisited(g, path);
    assert (path + [id])[|path|] == id;
    forall k | k in Unvisited(g, path + [id]) ensures k in Unvisited(g, path) {
      assert forall i :: 0 <= i < |path| ==> (path + [id])[i] == path[i];
    }
  }

  /** `visit`, on the order built so far and the path of ids being visited. */
  function Visit(g: Graph, id: Text, path: seq<Text>, order: seq<Text>): Walk
    decreases Unvisited(g, path), 0
  {
    if id in order then Done(order)
    else if id in path then CycleError(path + [id])
    else if id !in g then UnknownError(id)
    else
      PathGrows(g, path, id);
      match VisitAll(g, g[id].dependsOn, path + [id], order)
      case Done(o) => Done(o + [id])
      case error => error
  }

  function VisitAll(g: Graph, ids: seq<Text>, path: seq<Text>, order: seq<Text>): Walk
    decreases Unvisited(g, path), |ids|
  {
    if ids == [] then Done(order)
    else match Visit(g, ids[0], path, order)
      case Done(o) => VisitAll(g, ids[1..], path, o)
      case error => error
  }

  function TopoSort(steps: seq<Step>): Walk { VisitAll(ById(steps), Ids(steps), [], []) }

  // ----- the sort as it is written

  function StepsOf(g: Graph, order: seq<Text>): (r: seq<Step>)
    requires forall i :: 0 <= i < |order| ==> order[i] in g
    ensures |r| == |order| && forall i :: 0 <= i < |order| ==> r[i] == g[order[i]]
  {
    seq(|order|, i requires 0 <= i < |order| => g[order[i]])
  }

  /** The closure's variables: `path` is a JavaScript `Set`, which keeps insertion order. */
  class Sorter {
    const byId: Graph
    var visited: set<Text>
    var path: seq<Text>
    var out: seq<Step>

    constructor (byId: Graph)
      ensures this.byId == byId && visited == {} && path == [] && out == []
    {
      this.byId, visited, path, out := byId, {}, [], [];
    }

    ghost predicate Valid()
      reads this
    {
      && (forall k :: k in byId ==> byId[k].id == k)
      && (forall k :: k in visited <==> k in Ids(out))
      && AreDeclared(byId, out)
    }

    method VisitStep(id: Text) returns (error: Option<Walk>)
      requires Valid()
      modifies this
      decreases Unvisited(byId, path), 0
      ensures Valid()
      ensures var w := Visit(byId, id, old(path), Ids(old(out)));
              match error
              case None => w == Done(Ids(out)) && path == old(path)
              case Some(e) => w == e && !e.Done?
    {
      if id in visited { return None; }
      if id in path { return Some(CycleError(path + [id])); }
      ghost var before := path;
      ghost var rest := Unvisited(byId, path);
      path := path + [id];
      if id !in byId { return Some(UnknownError(id)); }
      PathGrows(byId, before, id);
      var s := byId[id];
      var i := 0;
      ghost var start := Ids(out);
      while i < |s.dependsOn|
        invariant 0 <= i <= |s.dependsOn| && Valid() && path == before + [id]
        invariant VisitAll(byId, s.dependsOn, path, start) == VisitAll(byId, s.dependsOn[i..], path, Ids(out))
      {
        assert s.dependsOn[i..][0] == s.dependsOn[i] && s.dependsOn[i..][1..] == s.dependsOn[i + 1..];
        error := VisitStep(s.dependsOn[i]);
        if error.Some? { return; }
        i := i + 1;
      }
      path := path[..|path| - 1];
      visited := visited + {id};
      assert Ids(out + [s]) == Ids(out) + [id];
      out := out + [s];
      return None;
    }
  }

  /** Each step is the one declared under its id. */
  predicate AreDeclared(g: Graph, steps: seq<Step>) {
    forall i :: 0 <= i < |steps| ==> steps[i].id in g && steps[i] == g[steps[i].id]
  }

  /** `topoSort`: the sorted steps, or the error it throws. */
  method Sort(steps: seq<Step>) returns (sorted: seq<Step>, error: Option<Walk>)
    ensures match error
            case None => TopoSort(steps) == Done(Ids(sorted)) && AreDeclared(ById(steps), sorted)
            case Some(e) => TopoSort(steps) == e && !e.Done?
  {
    var sorter := new Sorter(ById(steps));
    assert Ids(steps)[0..] == Ids(steps) && Ids(sorter.out) == [];
    var i := 0;
    while i < |steps|
      invariant 0 <= i <= |steps| && sorter.Valid() && sorter.path == [] && sorter.byId == ById(steps)
      invariant TopoSort(steps) == VisitAll(ById(steps), Ids(steps)[i..], [], Ids(sorter.out))
    {
      assert Ids(steps)[i..][0] == steps[i].id && Ids(steps)[i..][1..] == Ids(steps)[i + 1..];
      error := sorter.VisitStep(steps[i].id);
      if error.Some? { return [], error; }
      i := i + 1;
    }
    return sorter.out, None;
  }

  // ----- what the graph must be like

  predicate Edge(g: Graph, a: Text, b: Text) { a in g && b in g[a].dependsOn }

  /** Each id depends on the next. */
  predicate IsWalk(g: Graph, w: seq<Text>) { forall i :: 0 <= i < |w| - 1 ==> Edge(g, w[i], w[i + 1]) }

  predicate IsCycle(g: Graph, w: seq<Text>) { |w| >= 2 && IsWalk(g, w) && w[0] == w[|w| - 1] }

  ghost predicate Acyclic(g: Graph) { forall w :: !IsCycle(g, w) }

  /** Every dependency is declared. */
  ghost predicate Closed(g: Graph) { forall a, b :: Edge(g, a, b) ==> b in g }

  /** Declared ids, each once, every dependency strictly before its dependent. */
  ghost predicate Ordered(g: Graph, order: seq<Text>) {
    Distinct(order) && forall i :: 0 <= i < |order| ==> order[i] in g && DepsBefore(g, order, i)
  }

  ghost predicate DepsBefore(g: Graph, order: seq<Text>, i: nat)
    requires i < |order| && order[i] in g
  {
    forall d :: d in g[order[i]].dependsOn ==> d in order[..i]
  }

  // ----- success

  lemma OrderedSnoc(g: Graph, order: seq<Text>, id: Text)
    requires Ordered(g, order) && id in g && id !in order && forall d :: d in g[id].dependsOn ==> d in order
    ensures Ordered(g, order + [id])
  {
    var o := order + [id];
    forall i | 0 <= i < |o| ensures DepsBefore(g, o, i) {
      if i < |order| {
        assert o[..i] == order[..i];
        assert DepsBefore(g, order, i);
      } else {
        assert o[..i] == order;
      }
    }
  }

  /** A successful visit extends the order, adds the id, and adds nothing that is on the path. */
  lemma {:induction false} VisitExtends(g: Graph, id: Text, path: seq<Text>, order: seq<Text>)
    requires Ordered(g, order) && Visit(g, id, path, order).Done?
    ensures var o := Visit(g, id, path, order).order;
            Ordered(g, o) && order <= o && id in o && forall p :: p in path && p in o ==> p in order
    decreases Unvisited(g, path), 0
  {
    hide Ordered;
    if id !in order {
      PathGrows(g, path, id);
      VisitAllExtends(g, g[id].dependsOn, path + [id], order);
      var o := VisitAll(g, g[id].dependsOn, path + [id], order).order;
      assert id in path + [id];
      OrderedSnoc(g, o, id);
      assert forall p :: p in path ==> p in path + [id];
    }
  }

  lemma {:induction false} VisitAllExtends(g: Graph, ids: seq<Text>, path: seq<Text>, order: seq<Text>)
    requires Ordered(g, order) && VisitAll(g, ids, path, order).Done?
    ensures var o := VisitAll(g, ids, path, order).order;
            Ordered(g, o) && order <= o && (forall d :: d in ids ==> d in o) && forall p :: p in path && p in o ==> p in order
    decreases Unvisited(g, path), |ids|
  {
    hide Ordered;
    if ids != [] {
      VisitExtends(g, ids[0], path, order);
      VisitAllExtends(g, ids[1..], path, Visit(g, ids[0], path, order).order);
    }
  }

  /** Walks go backwards in an order. */
  lemma {:induction false} WalkDescends(g: Graph, order: seq<Text>, w: seq<Text>, i: nat) returns (j: nat)
    requires Ordered(g, order) && IsWalk(g, w) && |w| >= 1 && i < |order| && order[i] == w[0]
    ensures j < |order| && order[j] == w[|w| - 1] && (|w| >= 2 ==> j < i)
    decreases |w|
  {
    if |w| == 1 {
      j := i;
    } else {
      assert Edge(g, w[0], w[1]) && DepsBefore(g, order, i);
      var k :| 0 <= k < i && order[k] == w[1];
      var tail := w[1..];
      forall n | 0 <= n < |tail| - 1 ensures Edge(g, tail[n], tail[n + 1]) { assert Edge(g, w[n + 1], w[n + 2]); }
      j := WalkDescends(g, order, tail, k);
    }
  }

  /** An order over the whole graph is possible only when it is closed and acyclic. */
  lemma OrderedMeansAcyclic(g: Graph, order: seq<Text>)
    requires Ordered(g, order) && forall k :: k in g ==> k in order
    ensures Closed(g) && Acyclic(g)
  {
    forall a, b | Edge(g, a, b) ensures b in g {
      var i :| 0 <= i < |order| && order[i] == a;
      assert DepsBefore(g, order, i);
      var j :| 0 <= j < i && order[j] == b;
    }
    forall w ensures !IsCycle(g, w) {
      if IsCycle(g, w) {
        assert Edge(g, w[0], w[1]);
        var i :| 0 <= i < |order| && order[i] == w[0];
        var j := WalkDescends(g, order, w, i);
        assert false;
      }
    }
  }

  // ----- failure

  /** A path the sort can be on: declared ids, each depending on the next, none twice. */
  ghost predicate OnPath(g: Graph, path: seq<Text>) {
    IsWalk(g, path) && Distinct(path) && forall i :: 0 <= i < |path| ==> path[i] in g
  }

  /** The reported path is a dependency walk that ends where its tail began: from there on it is a
      cycle without repetition. */
  ghost predicate EndsInCycle(g: Graph, w: seq<Text>) {
    |w| >= 2 && IsWalk(g, w) && Distinct(w[..|w| - 1]) && exists j :: 0 <= j < |w| - 1 && IsCycle(g, w[j..])
  }

  /** The unknown id is a declared step's dependency. */
  ghost predicate IsDangling(g: Graph, id: Text) { id !in g && exists a :: Edge(g, a, id) }

  ghost predicate Justified(g: Graph, w: Walk) {
    match w
    case Done(_) => true
    case CycleError(path) => EndsInCycle(g, path)
    case UnknownError(id) => IsDangling(g, id)
  }

  lemma PathClosesCycle(g: Graph, path: seq<Text>, id: Text)
    requires OnPath(g, path) && id in path && Edge(g, path[|path| - 1], id)
    ensures EndsInCycle(g, path + [id])
  {
    var w := path + [id];
    var j :| 0 <= j < |path| && path[j] == id;
    assert w[..|w| - 1] == path;
    forall i | 0 <= i < |w| - 1 ensures Edge(g, w[i], w[i + 1]) {
      if i < |path| - 1 { assert Edge(g, path[i], path[i + 1]); }
    }
    var c := w[j..];
    forall i | 0 <= i < |c| - 1 ensures Edge(g, c[i], c[i + 1]) { assert Edge(g, w[j + i], w[j + i + 1]); }
    assert IsCycle(g, c);
  }

  lemma PathExtends(g: Graph, path: seq<Text>, id: Text)
    requires OnPath(g, path) && id in g && id !in path && (path != [] ==> Edge(g, path[|path| - 1], id))
    ensures OnPath(g, path + [id])
  {
    var w := path + [id];
    forall i | 0 <= i < |w| - 1 ensures Edge(g, w[i], w[i + 1]) {
      if i < |path| - 1 { assert Edge(g, path[i], path[i + 1]); }
    }
  }

  lemma {:induction false} VisitJustified(g: Graph, id: Text, path: seq<Text>, order: seq<Text>)
    requires OnPath(g, path) && if path == [] then id in g else Edge(g, path[|path| - 1], id)
    ensures Justified(g, Visit(g, id, path, order))
    decreases Unvisited(g, path), 0
  {
    hide OnPath, EndsInCycle, IsDangling;
    if id !in order {
      if id in path {
        PathClosesCycle(g, path, id);
      } else if id in g {
        PathGrows(g, path, id);
        PathExtends(g, path, id);
        VisitAllJustified(g, g[id].dependsOn, path + [id], order);
      } else {
        Dangles(g, path[|path| - 1], id);
      }
    }
  }

  lemma Dangles(g: Graph, a: Text, id: Text)
    requires id !in g && Edge(g, a, id)
    ensures IsDangling(g, id)
  {
  }

  lemma {:induction false} VisitAllJustified(g: Graph, ids: seq<Text>, path: seq<Text>, order: seq<Text>)
    requires OnPath(g, path)
    requires forall i :: 0 <= i < |ids| ==> if path == [] then ids[i] in g else Edge(g, path[|path| - 1], ids[i])
    ensures Justified(g, VisitAll(g, ids, path, order))
    decreases Unvisited(g, path), |ids|
  {
    hide OnPath, Edge, Justified;
    if ids == [] {
      DoneJustified(g, order);
    } else {
      VisitJustified(g, ids[0], path, order);
      match Visit(g, ids[0], path, order)
      case Done(o) =>
        assert forall i :: 0 <= i < |ids| - 1 ==> ids[1..][i] == ids[i + 1];
        VisitAllJustified(g, ids[1..], path, o);
      case _ =>
    }
  }

  lemma DoneJustified(g: Graph, order: seq<Text>)
    ensures Justified(g, Done(order))
  {
  }

  // ----- the theorem

  /** `topoSort` succeeds exactly when every dependency is declared and the graph has no cycle. The
      order then holds every declared id once, with every dependency strictly before its dependent.
      A cycle error's path ends in a real cycle; an unknown id is really somebody's dependency. */
  lemma TopoSortExactly(steps: seq<Step>)
    ensures var g, w := ById(steps), TopoSort(steps);
            && (w.Done? <==> Closed(g) && Acyclic(g))
            && (w.Done? ==> Ordered(g, w.order) && forall k :: k in w.order <==> k in g)
            && Justified(g, w)
  {
    var g, w := ById(steps), TopoSort(steps);
    assert OnPath(g, []) && Ordered(g, []);
    hide OnPath;
    VisitAllJustified(g, Ids(steps), [], []);
    match w
    case Done(order) =>
      VisitAllExtends(g, Ids(steps), [], []);
      forall k | k in g ensures k in order {
        var i :| 0 <= i < |steps| && steps[i].id == k;
        assert Ids(steps)[i] == k;
      }
      OrderedMeansAcyclic(g, order);
    case CycleError(path) =>
      var j :| 0 <= j < |path| - 1 && IsCycle(g, path[j..]);
    case UnknownError(id) =>
      var a :| Edge(g, a, id);
  }

  /** With unique ids the sorted steps are a permutation of the declared ones. */
  lemma SortedIsPermutation(steps: seq<Step>)
    requires Distinct(Ids(steps)) && TopoSort(steps).Done?
    ensures var order := TopoSort(steps).order;
            (forall i :: 0 <= i < |order| ==> order[i] in ById(steps))
            && multiset(StepsOf(ById(steps), order)) == multiset(steps)
  {
    TopoSortExactly(steps);
    var g, order := ById(steps), TopoSort(steps).order;
    var sorted := StepsOf(g, order);
    DistinctSteps(steps);
    forall i, j | 0 <= i < j < |sorted| ensures sorted[i] != sorted[j] { assert order[i] != order[j]; }
    forall s ensures s in sorted <==> s in steps {
      if s in steps {
        var i :| 0 <= i < |steps| && steps[i] == s;
        UniqueStep(steps, i);
        var j :| 0 <= j < |order| && order[j] == s.id;
        assert sorted[j] == s;
      }
    }
    hide TopoSort, ById, Ordered;
    SameSetSameMultiset(sorted, steps);
  }

  lemma DistinctSteps(steps: seq<Step>)
    requires Distinct(Ids(steps))
    ensures Distinct(steps)
  {
    forall i, j | 0 <= i < j < |steps| ensures steps[i] != steps[j] { assert Ids(steps)[i] != Ids(steps)[j]; }
  }

  /** With unique ids the lookup finds the declared step. */
  lemma {:induction false} UniqueStep(steps: seq<Step>, i: nat)
    requires Distinct(Ids(steps)) && i < |steps|
    ensures ById(steps)[steps[i].id] == steps[i]
  {
    var n := |steps| - 1;
    if i < n {
      assert Ids(steps)[i] != Ids(steps)[n];
      assert forall k :: 0 <= k < n ==> Ids(steps[..n])[k] == Ids(steps)[k];
      UniqueStep(steps[..n], i);
    }
  }

  lemma {:induction false} SameSetSameMultiset<T>(a: seq<T>, b: seq<T>)
    requires Distinct(a) && Distinct(b) && forall x :: x in a <==> x in b
    ensures multiset(a) == multiset(b)
  {
    forall x ensures multiset(a)[x] == multiset(b)[x] {
      OnceEach(a, x);
      OnceEach(b, x);
    }
  }

  lemma {:induction false} OnceEach<T>(a: seq<T>, x: T)
    requires Distinct(a)
    ensures multiset(a)[x] == if x in a then 1 else 0
  {
    if a != [] {
      assert a == [a[0]] + a[1..];
      DistinctCons(a[0], a[1..]);
      OnceEach(a[1..], x);
    }
  }
}
