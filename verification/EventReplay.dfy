/** Replaying an event log: step boundaries, prefixes, and causal selection by breadth-first search
    (packages/devtools/src/EventLogReplay.ts:82-294). */
module EventReplay {
  import opened JsonValue

  datatype Edge = Edge(source: Text, target: Text)

  /** An event with its provenance edges; an absent list is the empty one. */
  datatype LoggedEvent = LoggedEvent(eventId: Text, isStepStart: bool, provEdges: seq<Edge>)

  // ----- steps

  /** Step `k` covers `fromIndex` to `toIndex`, both included. */
  datatype ReplayStep = ReplayStep(step: nat, startEventId: Text, fromIndex: nat, toIndex: int)

  /** Step `k` starts at a step start, holds no other, and ends before the next step or at the end. */
  ghost predicate StepAt(events: seq<LoggedEvent>, steps: seq<ReplayStep>, k: nat)
    requires k < |steps|
  {
    var s := steps[k];
    && s.step == k + 1 && s.fromIndex <= s.toIndex < |events|
    && s.startEventId == events[s.fromIndex].eventId && events[s.fromIndex].isStepStart
    && (forall i :: s.fromIndex < i <= s.toIndex ==> !events[i].isStepStart)
    && s.toIndex == (if k + 1 < |steps| then steps[k + 1].fromIndex else |events|) - 1
  }

  /** The steps tile the log from the first step start on; nothing before it is a step start. */
  ghost predicate Tiles(events: seq<LoggedEvent>, steps: seq<ReplayStep>) {
    && (forall k :: 0 <= k < |steps| ==> StepAt(events, steps, k))
    && (forall i :: 0 <= i < (if steps == [] then |events| else steps[0].fromIndex) && i < |events| ==> !events[i].isStepStart)
  }

  /** `#computeSteps`. */
  method ComputeSteps(events: seq<LoggedEvent>) returns (steps: seq<ReplayStep>)
    ensures Tiles(events, steps)
  {
    steps := [];
    var n := |events|;
    for i := 0 to n
      invariant Tiles(events[..i], Closed(steps, i))
      invariant |steps| > 0 ==> steps[|steps| - 1].fromIndex < i
    {
      ghost var before := steps;
      if events[i].isStepStart {
        if steps != [] { steps := Closed(steps, i); }
        steps := steps + [ReplayStep(|steps| + 1, events[i].eventId, i, i)];
        OpensStep(events, before, steps, i);
      } else {
        StepGrows(events, steps, i);
      }
    }
    assert events[..n] == events;
    if steps != [] { steps := Closed(steps, n); }
  }

  /** The steps with the last one closed before position `i`. */
  function Closed(steps: seq<ReplayStep>, i: nat): seq<ReplayStep> {
    if steps == [] then []
    else var last := |steps| - 1; steps[last := steps[last].(toIndex := i - 1)]
  }

  lemma StepGrows(events: seq<LoggedEvent>, steps: seq<ReplayStep>, i: nat)
    requires i < |events| && !events[i].isStepStart && Tiles(events[..i], Closed(steps, i))
    ensures Tiles(events[..i + 1], Closed(steps, i + 1))
  {
    var before, now := events[..i], events[..i + 1];
    var closed, grown := Closed(steps, i), Closed(steps, i + 1);
    assert forall j :: 0 <= j < i ==> now[j] == before[j];
    forall k | 0 <= k < |grown| ensures StepAt(now, grown, k) { assert StepAt(before, closed, k); }
  }

  lemma OpensStep(events: seq<LoggedEvent>, steps: seq<ReplayStep>, grown: seq<ReplayStep>, i: nat)
    requires i < |events| && events[i].isStepStart && Tiles(events[..i], Closed(steps, i))
    requires grown == Closed(steps, i) + [ReplayStep(|steps| + 1, events[i].eventId, i, i)]
    ensures Tiles(events[..i + 1], Closed(grown, i + 1))
  {
    var before, now, closed := events[..i], events[..i + 1], Closed(steps, i);
    assert Closed(grown, i + 1) == grown;
    assert forall j :: 0 <= j < i ==> now[j] == before[j];
    forall k | 0 <= k < |grown| ensures StepAt(now, grown, k) {
      if k < |closed| {
        assert StepAt(before, closed, k);
        assert grown[k] == closed[k];
      }
    }
    if closed != [] { assert StepAt(before, closed, 0); }
    var first := if closed == [] then i else closed[0].fromIndex;
    assert grown != [] && grown[0].fromIndex == first;
    forall j | 0 <= j < first ensures !now[j].isStepStart { assert !before[j].isStepStart; }
  }

  /** The events of step `k`. */
  function StepEvents(events: seq<LoggedEvent>, s: ReplayStep): seq<LoggedEvent>
    requires s.fromIndex <= s.toIndex + 1 <= |events|
  {
    events[s.fromIndex..s.toIndex + 1]
  }

  function Clamp(steps: nat, step: int): nat { if step < 0 then 0 else if step > steps then steps else step }

  /** `select(step).prefixEvents`. */
  function Select(events: seq<LoggedEvent>, steps: seq<ReplayStep>, step: int): seq<LoggedEvent>
    requires Tiles(events, steps)
  {
    var k := Clamp(|steps|, step);
    if k == 0 then
      if steps == [] then events else assert StepAt(events, steps, 0); events[..steps[0].fromIndex]
    else
      assert StepAt(events, steps, k - 1); events[..steps[k - 1].toIndex + 1]
  }

  /** Each step adds exactly its own events. */
  lemma SelectGrows(events: seq<LoggedEvent>, steps: seq<ReplayStep>, k: nat)
    requires Tiles(events, steps) && k < |steps|
    ensures StepAt(events, steps, k)
    ensures Select(events, steps, k + 1) == Select(events, steps, k) + StepEvents(events, steps[k])
  {
    assert StepAt(events, steps, k);
    var s := steps[k];
    if k > 0 {
      assert StepAt(events, steps, k - 1);
      hide Tiles;
      assert steps[k - 1].toIndex + 1 == s.fromIndex;
    }
    assert events[..s.toIndex + 1] == events[..s.fromIndex] + events[s.fromIndex..s.toIndex + 1];
  }

  /** The first prefix holds no step start and the last one is the whole log. */
  lemma SelectEnds(events: seq<LoggedEvent>, steps: seq<ReplayStep>)
    requires Tiles(events, steps)
    ensures Select(events, steps, |steps|) == events
    ensures forall e :: e in Select(events, steps, 0) ==> !e.isStepStart
  {
    if steps != [] { assert StepAt(events, steps, |steps| - 1) && StepAt(events, steps, 0); }
  }

  /** Step `k` starts at one place in every tiling of a log. */
  lemma {:induction false} StartsAgree(events: seq<LoggedEvent>, a: seq<ReplayStep>, b: seq<ReplayStep>, k: nat)
    requires Tiles(events, a) && Tiles(events, b) && k < |a|
    ensures k < |b| && a[k].fromIndex == b[k].fromIndex
  {
    assert StepAt(events, a, k);
    var at := a[k].fromIndex;
    if k == 0 {
      if b != [] { assert StepAt(events, b, 0); }
    } else {
      assert StepAt(events, a, k - 1);
      StartsAgree(events, a, b, k - 1);
      assert StepAt(events, b, k - 1);
      if k < |b| { assert StepAt(events, b, k); }
    }
  }

  /** A log has only one tiling: numbers, ids and both ends of every step are fixed by the step starts. */
  lemma TilesUnique(events: seq<LoggedEvent>, a: seq<ReplayStep>, b: seq<ReplayStep>)
    requires Tiles(events, a) && Tiles(events, b)
    ensures a == b
  {
    if a != [] { StartsAgree(events, a, b, |a| - 1); }
    if b != [] { StartsAgree(events, b, a, |b| - 1); }
    forall k | 0 <= k < |a| ensures a[k].fromIndex == b[k].fromIndex { StartsAgree(events, a, b, k); }
    forall k | 0 <= k < |a| ensures a[k] == b[k] {
      assert StepAt(events, a, k) && StepAt(events, b, k);
    }
  }

  // ----- causal selection

  /** `a` depends on `b`: some event in the log carries that edge. */
  predicate DependsOn(events: seq<LoggedEvent>, a: Text, b: Text) {
    exists i :: 0 <= i < |events| && Edge(a, b) in events[i].provEdges
  }

  predicate IsPath(events: seq<LoggedEvent>, p: seq<Text>) {
    |p| >= 1 && forall i :: 0 <= i < |p| - 1 ==> DependsOn(events, p[i], p[i + 1])
  }

  /** `id` is the target or one of its causal ancestors. */
  ghost predicate Reachable(events: seq<LoggedEvent>, target: Text, id: Text) {
    exists p :: IsPath(events, p) && p[0] == target && p[|p| - 1] == id
  }

  lemma ReachableStep(events: seq<LoggedEvent>, target: Text, a: Text, b: Text)
    requires Reachable(events, target, a) && DependsOn(events, a, b)
    ensures Reachable(events, target, b)
  {
    var p :| IsPath(events, p) && p[0] == target && p[|p| - 1] == a;
    var q := p + [b];
    forall i | 0 <= i < |q| - 1 ensures DependsOn(events, q[i], q[i + 1]) {
      if i < |p| - 1 { assert DependsOn(events, p[i], p[i + 1]); }
    }
    assert IsPath(events, q);
  }

  lemma ReachableSelf(events: seq<LoggedEvent>, target: Text)
    ensures Reachable(events, target, target)
  {
    assert IsPath(events, [target]);
  }

  /** A set that holds the target and everything its members depend on holds all ancestors. */
  lemma {:induction false} ClosedHoldsPath(events: seq<LoggedEvent>, ids: set<Text>, p: seq<Text>)
    requires IsPath(events, p) && p[0] in ids && forall a, b :: a in ids && DependsOn(events, a, b) ==> b in ids
    ensures p[|p| - 1] in ids
    decreases |p|
  {
    if |p| > 1 {
      assert DependsOn(events, p[0], p[1]);
      forall i | 0 <= i < |p| - 2 ensures DependsOn(events, p[1..][i], p[1..][i + 1]) { assert DependsOn(events, p[i + 1], p[i + 2]); }
      ClosedHoldsPath(events, ids, p[1..]);
    }
  }

  /** `edgesFrom`: each id's dependencies, in log order. */
  method BuildEdges(events: seq<LoggedEvent>) returns (edgesFrom: map<Text, seq<Text>>)
    ensures forall a, b :: DependsOn(events, a, b) <==> a in edgesFrom && b in edgesFrom[a]
  {
    edgesFrom := map[];
    for i := 0 to |events|
      invariant forall a, b :: DependsOn(events[..i], a, b) <==> a in edgesFrom && b in edgesFrom[a]
    {
      ghost var before := edgesFrom;
      var edges := events[i].provEdges;
      for j := 0 to |edges|
        invariant forall a, b :: (a in edgesFrom && b in edgesFrom[a]) <==> (a in before && b in before[a]) || Edge(a, b) in edges[..j]
      {
        var e := edges[j];
        var existing := if e.source in edgesFrom then edgesFrom[e.source] else [];
        edgesFrom := edgesFrom[e.source := existing + [e.target]];
        assert edges[..j + 1] == edges[..j] + [e];
      }
      assert edges[..|edges|] == edges;
      DependsSnoc(events, i);
    }
    assert events[..|events|] == events;
  }

  lemma DependsSnoc(events: seq<LoggedEvent>, i: nat)
    requires i < |events|
    ensures forall a, b :: DependsOn(events[..i + 1], a, b) <==> DependsOn(events[..i], a, b) || Edge(a, b) in events[i].provEdges
  {
    forall a, b ensures DependsOn(events[..i + 1], a, b) <==> DependsOn(events[..i], a, b) || Edge(a, b) in events[i].provEdges {
      assert forall k :: 0 <= k < i ==> events[..i + 1][k] == events[..i][k];
      if DependsOn(events[..i], a, b) {
        var k :| 0 <= k < i && Edge(a, b) in events[..i][k].provEdges;
        assert Edge(a, b) in events[..i + 1][k].provEdges;
      }
      if Edge(a, b) in events[i].provEdges { assert Edge(a, b) in events[..i + 1][i].provEdges; }
    }
  }

  /** All ids a search can meet. */
  ghost function Universe(edgesFrom: map<Text, seq<Text>>, target: Text): set<Text> {
    {target} + set a, b | a in edgesFrom && b in edgesFrom[a] :: b
  }

  /** Mark and enqueue the dependencies not seen before. */
  method Enqueue(deps: seq<Text>, seen: set<Text>, waiting: seq<Text>) returns (visited: set<Text>, queue: seq<Text>)
    ensures visited == seen + (set d | d in deps)
    ensures waiting <= queue && (visited == seen ==> queue == waiting)
    ensures forall q :: q in queue <==> q in waiting || (q in visited && q !in seen)
  {
    visited, queue := seen, waiting;
    for j := 0 to |deps|
      invariant visited == seen + (set d | d in deps[..j])
      invariant waiting <= queue && (visited == seen ==> queue == waiting)
      invariant forall q :: q in queue <==> q in waiting || (q in visited && q !in seen)
    {
      var dep := deps[j];
      assert deps[..j + 1] == deps[..j] + [dep];
      if dep !in visited {
        visited := visited + {dep};
        queue := queue + [dep];
      }
    }
    assert deps[..|deps|] == deps;
  }

  ghost predicate AllReachable(events: seq<LoggedEvent>, target: Text, ids: set<Text>) {
    forall id :: id in ids ==> Reachable(events, target, id)
  }

  lemma DepsReachable(events: seq<LoggedEvent>, target: Text, ids: set<Text>, current: Text, deps: seq<Text>)
    requires AllReachable(events, target, ids) && current in ids && forall d :: d in deps ==> DependsOn(events, current, d)
    ensures AllReachable(events, target, ids + (set d | d in deps))
  {
    hide DependsOn, Reachable;
    forall d | d in deps ensures Reachable(events, target, d) { ReachableStep(events, target, current, d); }
  }

  /** Everything a finished id depends on has been seen. */
  ghost predicate Explored(events: seq<LoggedEvent>, ids: set<Text>, queue: seq<Text>) {
    forall a, b :: a in ids && a !in queue && DependsOn(events, a, b) ==> b in ids
  }

  /** The search finds exactly the target and its causal ancestors. */
  method Ancestors(events: seq<LoggedEvent>, target: Text) returns (visited: set<Text>)
    ensures forall id :: id in visited <==> Reachable(events, target, id)
  {
    hide DependsOn, Reachable;
    var edgesFrom := BuildEdges(events);
    var queue := [target];
    visited := {target};
    ghost var all := Universe(edgesFrom, target);
    ReachableSelf(events, target);
    while queue != []
      invariant target in visited && visited <= all && forall q :: q in queue ==> q in visited
      invariant AllReachable(events, target, visited) && Explored(events, visited, queue)
      decreases all - visited, |queue|
    {
      var current := queue[0];
      ghost var seen, before := visited, queue;
      assert forall q :: q in before <==> q == current || q in before[1..];
      queue := queue[1..];
      if current in edgesFrom {
        var deps := edgesFrom[current];
        DepsReachable(events, target, visited, current, deps);
        visited, queue := Enqueue(deps, visited, queue);
      }
      StillExplored(events, seen, before, visited, queue, current);
    }
    AllFound(events, target, visited);
  }

  lemma StillExplored(events: seq<LoggedEvent>, seen: set<Text>, before: seq<Text>, ids: set<Text>, queue: seq<Text>, current: Text)
    requires Explored(events, seen, before) && seen <= ids
    requires forall q :: q in before ==> q == current || q in queue
    requires forall id :: id in ids && id !in seen ==> id in queue
    requires forall d :: DependsOn(events, current, d) ==> d in ids
    ensures Explored(events, ids, queue)
  {
    hide DependsOn;
  }

  lemma AllFound(events: seq<LoggedEvent>, target: Text, ids: set<Text>)
    requires target in ids && forall a, b :: a in ids && DependsOn(events, a, b) ==> b in ids
    ensures forall id :: Reachable(events, target, id) ==> id in ids
  {
    forall id | Reachable(events, target, id) ensures id in ids {
      var p :| IsPath(events, p) && p[0] == target && p[|p| - 1] == id;
      ClosedHoldsPath(events, ids, p);
    }
  }

  /** The events with these ids, in log order. */
  function Keep(events: seq<LoggedEvent>, ids: set<Text>): (r: seq<LoggedEvent>)
    ensures forall e :: e in r <==> e in events && e.eventId in ids
  {
    if events == [] then []
    else
      var last := events[|events| - 1];
      assert forall e :: e in events <==> e in events[..|events| - 1] || e == last;
      Keep(events[..|events| - 1], ids) + if last.eventId in ids then [last] else []
  }

  predicate HasEdges(events: seq<LoggedEvent>) { exists i :: 0 <= i < |events| && events[i].provEdges != [] }

  /** The linear prefix up to and including the first event with the id. */
  ghost predicate IsPrefixTo(events: seq<LoggedEvent>, id: Text, r: seq<LoggedEvent>) {
    r <= events && r != [] && r[|r| - 1].eventId == id && forall i :: 0 <= i < |r| - 1 ==> r[i].eventId != id
  }

  /** `selectByDependency(target).prefixEvents`: with an edge anywhere in the log, exactly the target's
      causal ancestors and itself, in log order; without edges, the linear prefix, or the pre-step
      prefix when the target is not in the log. */
  method SelectByDependency(events: seq<LoggedEvent>, steps: seq<ReplayStep>, target: Text) returns (r: seq<LoggedEvent>)
    requires Tiles(events, steps)
    ensures HasEdges(events) ==>
              exists ids :: r == Keep(events, ids) && forall id :: id in ids <==> Reachable(events, target, id)
    ensures !HasEdges(events) && (forall i :: 0 <= i < |events| ==> events[i].eventId != target) ==> r == Select(events, steps, 0)
    ensures !HasEdges(events) && (exists i :: 0 <= i < |events| && events[i].eventId == target) ==> IsPrefixTo(events, target, r)
  {
    hide Reachable, Keep, Tiles, Select;
    if !HasEdges(events) {
      var i := 0;
      while i < |events| && events[i].eventId != target
        invariant 0 <= i <= |events| && forall j :: 0 <= j < i ==> events[j].eventId != target
      {
        i := i + 1;
      }
      if i == |events| { return Select(events, steps, 0); }
      return events[..i + 1];
    }
    var ids := Ancestors(events, target);
    r := Keep(events, ids);
  }
}
