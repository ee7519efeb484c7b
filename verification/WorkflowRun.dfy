/** Running a sorted workflow: reference substitution, step results and the output map
    (packages/cloudflare-worker/src/CloudflareWorkflowEngine.ts:50-65,160-247,270-281). */
module WorkflowRun {
  import opened JsonValue
  import opened Workflow

  const DOLLAR: Unit := 36

  predicate IsLineTerminator(u: Unit) { u == 10 || u == 13 || u == 0x2028 || u == 0x2029 }

  /** The name in `^\$(.+)$`; a dot does not match a line terminator. */
  function RefName(t: Text): Option<Text> {
    if |t| >= 2 && t[0] == DOLLAR && forall i :: 1 <= i < |t| ==> !IsLineTerminator(t[i]) then Some(t[1..]) else None
  }

  /** `resolveRefs`. A substituted value is not searched again. */
  function ResolveRefs(v: Value, completed: map<Text, Value>): Value {
    match v
    case Str(s) =>
      var name := RefName(s);
      if name.Some? && name.value in completed then completed[name.value] else v
    case Arr(es) => Arr(ResolveElems(es, completed))
    case Obj(ms) => Obj(ResolveMembers(ms, completed))
    case _ => v
  }

  function ResolveElems(es: seq<Value>, completed: map<Text, Value>): seq<Value> {
    if es == [] then [] else [ResolveRefs(es[0], completed)] + ResolveElems(es[1..], completed)
  }

  function ResolveMembers(ms: seq<Entry<Value>>, completed: map<Text, Value>): seq<Entry<Value>> {
    if ms == [] then []
    else [Entry(ms[0].key, ResolveRefs(ms[0].val, completed))] + ResolveMembers(ms[1..], completed)
  }

  /** `$name` occurs somewhere in the value. */
  predicate Mentions(v: Value, name: Text) {
    match v
    case Str(s) => RefName(s) == Some(name)
    case Arr(es) => exists i :: 0 <= i < |es| && Mentions(es[i], name)
    case Obj(ms) => exists i :: 0 <= i < |ms| && Mentions(ms[i].val, name)
    case _ => false
  }

  /** Two maps hold the same under the names a value mentions. */
  ghost predicate AgreeOn(v: Value, a: map<Text, Value>, b: map<Text, Value>) {
    forall n :: Mentions(v, n) ==> (n in a <==> n in b) && (n in a ==> a[n] == b[n])
  }

  lemma {:induction false} ResolveAgrees(v: Value, a: map<Text, Value>, b: map<Text, Value>)
    requires AgreeOn(v, a, b)
    ensures ResolveRefs(v, a) == ResolveRefs(v, b)
    decreases v, 0
  {
    match v
    case Str(s) => assert RefName(s).Some? ==> Mentions(v, RefName(s).value);
    case Arr(es) =>
      forall i | 0 <= i < |es| ensures AgreeOn(es[i], a, b) {
        assert forall n :: Mentions(es[i], n) ==> Mentions(v, n);
      }
      ElemsAgree(es, a, b);
    case Obj(ms) =>
      forall i | 0 <= i < |ms| ensures AgreeOn(ms[i].val, a, b) {
        assert forall n :: Mentions(ms[i].val, n) ==> Mentions(v, n);
      }
      MembersAgree(ms, a, b);
    case _ =>
  }

  lemma {:induction false} ElemsAgree(es: seq<Value>, a: map<Text, Value>, b: map<Text, Value>)
    requires forall i :: 0 <= i < |es| ==> AgreeOn(es[i], a, b)
    ensures ResolveElems(es, a) == ResolveElems(es, b)
  {
    hide AgreeOn;
    if es != [] {
      ResolveAgrees(es[0], a, b);
      ElemsAgree(es[1..], a, b);
    }
  }

  lemma {:induction false} MembersAgree(ms: seq<Entry<Value>>, a: map<Text, Value>, b: map<Text, Value>)
    requires forall i :: 0 <= i < |ms| ==> AgreeOn(ms[i].val, a, b)
    ensures ResolveMembers(ms, a) == ResolveMembers(ms, b)
  {
    hide AgreeOn;
    if ms != [] {
      ResolveAgrees(ms[0].val, a, b);
      MembersAgree(ms[1..], a, b);
    }
  }

  // ----- running

  /** The tool resolver, a function of the step and its resolved arguments, and the events waited
      for; `None` where the source's promise rejects. */
  datatype Env = Env(resolve: (Step, Value) -> Option<Value>, event: Step -> Option<Value>)

  const SLEEP := Lit("$sleep")
  const WAIT := Lit("$waitForEvent")

  function StepResult(env: Env, s: Step, completed: map<Text, Value>): Option<Value> {
    if s.toolName == SLEEP then Some(Null)
    else if s.toolName == WAIT then env.event(s)
    else env.resolve(s, ResolveRefs(s.args, completed))
  }

  /** `completed` after the first `k` steps of an order, unless one of them failed. */
  function RunTo(env: Env, g: Graph, order: seq<Text>, k: nat): Option<map<Text, Value>>
    requires k <= |order| && forall i :: 0 <= i < |order| ==> order[i] in g
  {
    if k == 0 then Some(map[])
    else match RunTo(env, g, order, k - 1)
      case None => None
      case Some(c) =>
        match StepResult(env, g[order[k - 1]], c)
        case None => None
        case Some(r) => Some(c[order[k - 1] := r])
  }

  predicate IsReferenced(steps: seq<Step>, id: Text) { exists i :: 0 <= i < |steps| && id in steps[i].dependsOn }

  /** `out` of `collectOutput` after the first `n` steps. */
  function OutputTo(steps: seq<Step>, n: nat, completed: map<Text, Value>): seq<Entry<Value>>
    requires n <= |steps|
  {
    if n == 0 then []
    else
      var out, s := OutputTo(steps, n - 1, completed), steps[n - 1];
      if IsReferenced(steps, s.id) then out
      else Assign(out, s.id, if s.id in completed then completed[s.id] else Undefined)
  }

  /** The results of all steps, when the workflow can be sorted and no step fails. */
  function Results(env: Env, steps: seq<Step>): Option<map<Text, Value>> {
    match TopoSort(steps)
    case Done(order) =>
      TopoSortExactly(steps);
      RunTo(env, ById(steps), order, |order|)
    case _ => None
  }

  datatype WorkflowResult = Output(members: seq<Entry<Value>>) | Invalid(error: Walk) | StepFailed

  /** `runWorkflowEntrypoint`. */
  function RunWorkflow(env: Env, steps: seq<Step>): WorkflowResult {
    match TopoSort(steps)
    case Done(order) =>
      TopoSortExactly(steps);
      (match RunTo(env, ById(steps), order, |order|)
       case None => StepFailed
       case Some(completed) => Output(OutputTo(steps, |steps|, completed)))
    case error => Invalid(error)
  }

  method CollectOutput(steps: seq<Step>, completed: map<Text, Value>) returns (out: seq<Entry<Value>>)
    ensures out == OutputTo(steps, |steps|, completed)
  {
    hide Assign;
    var referenced: set<Text> := {};
    for i := 0 to |steps|
      invariant forall d :: d in referenced <==> exists j :: 0 <= j < i && d in steps[j].dependsOn
    {
      referenced := referenced + set d | d in steps[i].dependsOn;
    }
    out := [];
    for i := 0 to |steps|
      invariant out == OutputTo(steps, i, completed)
    {
      var id := steps[i].id;
      if id !in referenced { out := Assign(out, id, if id in completed then completed[id] else Undefined); }
    }
  }

  method RunWorkflowEntrypoint(env: Env, steps: seq<Step>) returns (r: WorkflowResult)
    ensures r == RunWorkflow(env, steps)
  {
    hide ResolveRefs, OutputTo, Justified, Acyclic, Closed, Ordered, TopoSort, ById, StepResult;
    var sorted, error := Sort(steps);
    if error.Some? { return Invalid(error.value); }
    TopoSortExactly(steps);
    ghost var g, order := ById(steps), Ids(sorted);
    var completed: map<Text, Value> := map[];
    for i := 0 to |sorted|
      invariant RunTo(env, g, order, i) == Some(completed)
    {
      var s := sorted[i];
      assert s == g[order[i]];
      var result := StepResult(env, s, completed);
      if result.None? {
        RunStaysFailed(env, g, order, i + 1, |order|);
        return StepFailed;
      }
      completed := completed[s.id := result.value];
    }
    var out := CollectOutput(steps, completed);
    return Output(out);
  }

  lemma {:induction false} RunStaysFailed(env: Env, g: Graph, order: seq<Text>, j: nat, k: nat)
    requires j <= k <= |order| && (forall i :: 0 <= i < |order| ==> order[i] in g) && RunTo(env, g, order, j).None?
    ensures RunTo(env, g, order, k).None?
    decreases k
  {
    hide StepResult;
    if j < k { RunStaysFailed(env, g, order, j, k - 1); }
  }

  // ----- confluence

  /** `b` is a dependency of `a`, directly or through others. */
  ghost predicate Reaches(g: Graph, a: Text, b: Text) { exists w :: |w| >= 2 && IsWalk(g, w) && w[0] == a && w[|w| - 1] == b }

  /** Its arguments are resolved; those of the two built-in steps are not. */
  predicate IsTool(s: Step) { s.toolName != SLEEP && s.toolName != WAIT }

  /** Where a tool step's `$n` names a step, every order agrees which of the two comes first: `n` is the
      step itself, one it depends on, or one that depends on it. */
  ghost predicate RefsSettled(g: Graph) {
    forall id, n :: id in g && n in g && IsTool(g[id]) && Mentions(g[id].args, n) ==> n == id || Reaches(g, id, n) || Reaches(g, n, id)
  }

  /** The results a step finds in every order: those of the steps it depends on. */
  ghost function Known(g: Graph, id: Text, m: map<Text, Value>): map<Text, Value> { map k | k in m && Reaches(g, id, k) :: m[k] }

  /** The per-step results as the solution of one equation per step, with no order in sight. */
  ghost predicate Solves(env: Env, g: Graph, m: map<Text, Value>) {
    m.Keys == g.Keys && forall id :: id in g ==> StepResult(env, g[id], Known(g, id, m)) == Some(m[id])
  }

  function Restrict(m: map<Text, Value>, ks: seq<Text>): map<Text, Value> { map k | k in m && k in ks :: m[k] }

  ghost predicate Covers(g: Graph, order: seq<Text>) { Ordered(g, order) && forall k :: k in g ==> k in order }

  /** In an order, what a step depends on comes before it. */
  lemma ReachedBefore(g: Graph, order: seq<Text>, k: nat, n: Text)
    requires Ordered(g, order) && k < |order| && Reaches(g, order[k], n)
    ensures n in order[..k]
  {
    var w :| |w| >= 2 && IsWalk(g, w) && w[0] == order[k] && w[|w| - 1] == n;
    var j := WalkDescends(g, order, w, k);
    assert order[..k][j] == n;
  }

  /** A step placed before another neither is it nor depends on it. */
  lemma BeforeIsOther(g: Graph, order: seq<Text>, k: nat, n: Text)
    requires Ordered(g, order) && k < |order| && n in order[..k]
    ensures n != order[k] && !Reaches(g, n, order[k])
  {
    var j :| 0 <= j < k && order[j] == n;
    assert order[k] !in order[..j];
    if Reaches(g, n, order[k]) { ReachedBefore(g, order, j, order[k]); }
  }

  /** A step sees the same arguments whether resolved against the steps before it or against those it
      depends on. */
  lemma ResultIsLocal(env: Env, g: Graph, order: seq<Text>, k: nat, m: map<Text, Value>)
    requires Covers(g, order) && RefsSettled(g) && k < |order| && m.Keys <= g.Keys
    requires forall i :: 0 <= i < k ==> order[i] in m
    ensures StepResult(env, g[order[k]], Restrict(m, order[..k])) == StepResult(env, g[order[k]], Known(g, order[k], m))
  {
    var id := order[k];
    var s, c, known := g[id], Restrict(m, order[..k]), Known(g, id, m);
    if IsTool(s) {
      forall n | Mentions(s.args, n) ensures (n in c <==> n in known) && (n in c ==> c[n] == known[n]) {
        hide Mentions, Ordered, Reaches;
        if n in known { ReachedBefore(g, order, k, n); }
        if n in c { BeforeIsOther(g, order, k, n); }
      }
      hide Mentions, Ordered, Restrict, Known;
      ResolveAgrees(s.args, c, known);
    }
  }

  lemma RestrictSnoc(m: map<Text, Value>, order: seq<Text>, k: nat)
    requires k < |order| && order[k] in m
    ensures Restrict(m, order[..k + 1]) == Restrict(m, order[..k])[order[k] := m[order[k]]]
  {
    assert order[..k + 1] == order[..k] + [order[k]];
  }

  /** Any solution is what every order computes. */
  lemma {:induction false} SolutionIsRun(env: Env, g: Graph, order: seq<Text>, k: nat, m: map<Text, Value>)
    requires Covers(g, order) && RefsSettled(g) && Solves(env, g, m) && k <= |order|
    ensures RunTo(env, g, order, k) == Some(Restrict(m, order[..k]))
  {
    hide StepResult, RefsSettled, Known;
    if k > 0 {
      SolutionIsRun(env, g, order, k - 1, m);
      ResultIsLocal(env, g, order, k - 1, m);
      RestrictSnoc(m, order, k - 1);
    }
  }

  lemma {:induction false} RunKeys(env: Env, g: Graph, order: seq<Text>, j: nat, k: nat)
    requires j <= k <= |order| && Ordered(g, order) && RunTo(env, g, order, k).Some?
    ensures RunTo(env, g, order, j).Some?
    ensures var c, m := RunTo(env, g, order, j).value, RunTo(env, g, order, k).value;
            c == Restrict(m, order[..j]) && forall q :: q in m <==> q in order[..k]
    decreases k
  {
    hide StepResult;
    if k > 0 {
      RunKeys(env, g, order, if j < k then j else k - 1, k - 1);
      var c, m := RunTo(env, g, order, k - 1).value, RunTo(env, g, order, k).value;
      assert order[..k] == order[..k - 1] + [order[k - 1]];
      assert order[k - 1] !in order[..k - 1];
      if j < k { assert Restrict(m, order[..j]) == Restrict(c, order[..j]); }
    }
  }

  /** The result of one step solves its equation. */
  lemma StepSolves(env: Env, g: Graph, order: seq<Text>, k: nat)
    requires Covers(g, order) && RefsSettled(g) && RunTo(env, g, order, |order|).Some? && k < |order|
    ensures var m := RunTo(env, g, order, |order|).value;
            order[k] in m && order[k] in g && StepResult(env, g[order[k]], Known(g, order[k], m)) == Some(m[order[k]])
  {
    hide StepResult, RefsSettled, Known;
    var n := |order|;
    var m := RunTo(env, g, order, n).value;
    RunKeys(env, g, order, n, n);
    RunKeys(env, g, order, k, n);
    RunKeys(env, g, order, k + 1, n);
    assert order[..n] == order && order[k] in order;
    ResultIsLocal(env, g, order, k, m);
    RestrictSnoc(m, order, k);
    var c, r := RunTo(env, g, order, k).value, StepResult(env, g[order[k]], Known(g, order[k], m));
    assert StepResult(env, g[order[k]], c) == r;
    hide Covers, Restrict;
    assert RunTo(env, g, order, k + 1) == Some(c[order[k] := r.value]);
    assert c[order[k] := r.value][order[k]] == c[order[k] := m[order[k]]][order[k]];
  }

  /** What an order computes is a solution. */
  lemma RunIsSolution(env: Env, g: Graph, order: seq<Text>)
    requires Covers(g, order) && RefsSettled(g) && RunTo(env, g, order, |order|).Some?
    ensures Solves(env, g, RunTo(env, g, order, |order|).value)
  {
    hide StepResult, RefsSettled, RunTo, Known;
    var n := |order|;
    var m := RunTo(env, g, order, n).value;
    RunKeys(env, g, order, n, n);
    assert order[..n] == order;
    forall id | id in g ensures id in m && StepResult(env, g[id], Known(g, id, m)) == Some(m[id]) {
      var k :| 0 <= k < n && order[k] == id;
      StepSolves(env, g, order, k);
    }
  }

  /** Where each reference is to a dependency, a solution may as well be resolved against all results. */
  lemma SolvesAgainstAll(env: Env, g: Graph, m: map<Text, Value>, id: Text)
    requires Solves(env, g, m) && id in g && forall n :: n in g && Mentions(g[id].args, n) ==> Reaches(g, id, n)
    ensures StepResult(env, g[id], m) == Some(m[id])
  {
    hide Reaches, Mentions;
    ResolveAgrees(g[id].args, Known(g, id, m), m);
  }

  /** Every order of the same steps computes the same results, or none succeeds. */
  lemma OrdersAgree(env: Env, g: Graph, a: seq<Text>, b: seq<Text>)
    requires Covers(g, a) && Covers(g, b) && RefsSettled(g)
    ensures RunTo(env, g, a, |a|) == RunTo(env, g, b, |b|)
  {
    hide RefsSettled, StepResult, Known;
    assert a[..|a|] == a && b[..|b|] == b;
    if RunTo(env, g, a, |a|).Some? {
      RunIsSolution(env, g, a);
      SolutionAlone(env, g, a, b, RunTo(env, g, a, |a|).value);
    } else if RunTo(env, g, b, |b|).Some? {
      RunIsSolution(env, g, b);
      SolutionAlone(env, g, b, a, RunTo(env, g, b, |b|).value);
    }
  }

  lemma SolutionAlone(env: Env, g: Graph, a: seq<Text>, b: seq<Text>, m: map<Text, Value>)
    requires Covers(g, a) && Covers(g, b) && RefsSettled(g) && Solves(env, g, m)
    ensures RunTo(env, g, b, |b|) == Some(m)
  {
    hide RefsSettled, StepResult, RunTo, Known;
    SolutionIsRun(env, g, b, |b|, m);
    assert b[..|b|] == b && Restrict(m, b) == m;
  }

  // ----- whole workflows

  lemma SubGraph(a: seq<Step>, b: seq<Step>, k: Text)
    requires Distinct(Ids(b)) && (forall s :: s in a ==> s in b) && k in ById(a)
    ensures k in ById(b) && ById(b)[k] == ById(a)[k]
  {
    var s := ById(a)[k];
    assert s in a && s.id == k;
    hide ById, Distinct, Ids;
    var i :| 0 <= i < |b| && b[i] == s;
    UniqueStep(b, i);
  }

  lemma Twice<T>(xs: seq<T>, i: nat, j: nat)
    requires i < j < |xs| && xs[i] == xs[j]
    ensures multiset(xs)[xs[i]] >= 2
  {
    assert xs == xs[..i] + [xs[i]] + xs[i + 1..j] + [xs[j]] + xs[j + 1..];
  }

  lemma PermutedDistinct<T>(a: seq<T>, b: seq<T>)
    requires Distinct(a) && multiset(a) == multiset(b)
    ensures Distinct(b)
  {
    forall i, j | 0 <= i < j < |b| ensures b[i] != b[j] {
      OnceEach(a, b[i]);
      if b[i] == b[j] { Twice(b, i, j); }
    }
  }

  lemma PermutedIds(a: seq<Step>, b: seq<Step>)
    requires Distinct(Ids(a)) && multiset(a) == multiset(b)
    ensures Distinct(Ids(b))
  {
    SameMembers(a, b);
    DistinctSteps(a);
    PermutedDistinct(a, b);
    forall i, j | 0 <= i < j < |b| ensures b[i].id != b[j].id {
      assert b[i] in a && b[j] in a;
      var m :| 0 <= m < |a| && a[m] == b[i];
      var n :| 0 <= n < |a| && a[n] == b[j];
      assert b[i] != b[j] && Ids(a)[m] == b[i].id && Ids(a)[n] == b[j].id;
    }
  }

  lemma PermutedGraph(a: seq<Step>, b: seq<Step>)
    requires Distinct(Ids(a)) && multiset(a) == multiset(b)
    ensures ById(a) == ById(b) && forall s :: s in a <==> s in b
  {
    PermutedIds(a, b);
    SameMembers(a, b);
    hide Distinct, ById, Ids;
    SubGraphs(a, b);
    SubGraphs(b, a);
    SameMaps(ById(a), ById(b));
  }

  lemma SubGraphs(a: seq<Step>, b: seq<Step>)
    requires Distinct(Ids(b)) && forall s :: s in a ==> s in b
    ensures forall k :: k in ById(a) ==> k in ById(b) && ById(b)[k] == ById(a)[k]
  {
    hide Distinct, ById, Ids;
    forall k | k in ById(a) ensures k in ById(b) && ById(b)[k] == ById(a)[k] { SubGraph(a, b, k); }
  }

  lemma SameMaps(g: Graph, h: Graph)
    requires (forall k :: k in g ==> k in h && h[k] == g[k]) && forall k :: k in h ==> k in g
    ensures g == h
  {
    assert g.Keys == h.Keys;
  }

  lemma NoOutput(steps: seq<Step>, k: Text)
    ensures k !in Ids(steps[..0]) && Find<Value>([], k) == None
  {
  }

  lemma IdsSnoc(steps: seq<Step>, n: nat)
    requires 0 < n <= |steps|
    ensures Ids(steps[..n]) == Ids(steps[..n - 1]) + [steps[n - 1].id]
  {
  }

  /** The output holds exactly the results of the steps nobody depends on. */
  lemma {:induction false} OutputIsSinks(steps: seq<Step>, n: nat, completed: map<Text, Value>, k: Text)
    requires n <= |steps|
    ensures Find(OutputTo(steps, n, completed), k) ==
            if !IsReferenced(steps, k) && k in Ids(steps[..n]) then Some(if k in completed then completed[k] else Undefined) else None
  {
    hide Find, Assign, IsReferenced, Ids;
    if n == 0 {
      NoOutput(steps, k);
    } else {
      OutputIsSinks(steps, n - 1, completed, k);
      IdsSnoc(steps, n);
      AssignFind(OutputTo(steps, n - 1, completed), steps[n - 1].id,
                 if steps[n - 1].id in completed then completed[steps[n - 1].id] else Undefined, k);
    }
  }

  /** The same outcome: both invalid, both failed, or outputs with the same value under every key. */
  ghost predicate SameOutcome(r: WorkflowResult, s: WorkflowResult) {
    (r.Output? <==> s.Output?) && (r.Invalid? <==> s.Invalid?)
    && (r.Output? ==> forall k :: Find(r.members, k) == Find(s.members, k))
  }

  /** If the workflow can be sorted at all, its references do not depend on how. */
  ghost predicate OrderIsSettled(steps: seq<Step>) { TopoSort(steps).Done? ==> RefsSettled(ById(steps)) }

  /** Workflow confluence: declaring the same steps in another order gives the same result for every
      step, and the same outcome. */
  lemma DeclarationOrderDoesNotMatter(env: Env, a: seq<Step>, b: seq<Step>)
    requires Distinct(Ids(a)) && multiset(a) == multiset(b) && OrderIsSettled(a)
    ensures Results(env, a) == Results(env, b)
    ensures SameOutcome(RunWorkflow(env, a), RunWorkflow(env, b))
  {
    ResultsAgree(env, a, b);
    PermutedGraph(a, b);
    OutcomeIs(env, a);
    OutcomeIs(env, b);
    hide OrderIsSettled, TopoSort, ById, OutputTo, Find, Distinct, RunWorkflow, Results;
    if Results(env, a).Some? {
      var m := Results(env, a).value;
      forall k ensures Find(OutputTo(a, |a|, m), k) == Find(OutputTo(b, |b|, m), k) { OutputsAgree(a, b, m, k); }
    }
  }

  /** The outcome in terms of the results. */
  lemma OutcomeIs(env: Env, steps: seq<Step>)
    ensures RunWorkflow(env, steps).Invalid? <==> !TopoSort(steps).Done?
    ensures RunWorkflow(env, steps).Output? <==> Results(env, steps).Some?
    ensures Results(env, steps).Some? ==> RunWorkflow(env, steps) == Output(OutputTo(steps, |steps|, Results(env, steps).value))
  {
    hide TopoSort, RunTo, OutputTo;
  }

  lemma ResultsAgree(env: Env, a: seq<Step>, b: seq<Step>)
    requires Distinct(Ids(a)) && multiset(a) == multiset(b) && OrderIsSettled(a)
    ensures Results(env, a) == Results(env, b) && (TopoSort(a).Done? <==> TopoSort(b).Done?)
  {
    PermutedGraph(a, b);
    TopoSortExactly(a);
    TopoSortExactly(b);
    hide RefsSettled, Ordered, Closed, Acyclic, Justified, TopoSort, RunTo, ById, Distinct;
    if TopoSort(a).Done? { OrdersAgree(env, ById(a), TopoSort(a).order, TopoSort(b).order); }
  }

  lemma OutputsAgree(a: seq<Step>, b: seq<Step>, m: map<Text, Value>, k: Text)
    requires forall s :: s in a <==> s in b
    ensures Find(OutputTo(a, |a|, m), k) == Find(OutputTo(b, |b|, m), k)
  {
    hide Find, OutputTo;
    OutputIsSinks(a, |a|, m, k);
    OutputIsSinks(b, |b|, m, k);
    assert a[..|a|] == a && b[..|b|] == b;
    SameDeclared(a, b, k);
    SameDeclared(b, a, k);
  }

  lemma SameDeclared(a: seq<Step>, b: seq<Step>, k: Text)
    requires forall s :: s in a ==> s in b
    ensures IsReferenced(a, k) ==> IsReferenced(b, k)
    ensures k in Ids(a) ==> k in Ids(b)
  {
    if IsReferenced(a, k) {
      var i :| 0 <= i < |a| && k in a[i].dependsOn;
      assert a[i] in a;
      var j :| 0 <= j < |b| && b[j] == a[i];
    }
    if k in Ids(a) {
      var i :| 0 <= i < |a| && Ids(a)[i] == k;
      assert a[i] in a;
      var j :| 0 <= j < |b| && b[j] == a[i];
      assert Ids(b)[j] == k;
    }
  }

  /** A successful workflow's output, in one statement: some assignment of results solves every
      step's equation, and the output is that assignment on the steps nobody depends on. */
  lemma OutputIsSolution(env: Env, steps: seq<Step>) returns (m: map<Text, Value>)
    requires RefsSettled(ById(steps)) && RunWorkflow(env, steps).Output?
    ensures Solves(env, ById(steps), m)
    ensures forall k :: Find(RunWorkflow(env, steps).members, k) ==
              if k in ById(steps) && !IsReferenced(steps, k) then Some(m[k]) else None
  {
    TopoSortExactly(steps);
    hide RefsSettled, Ordered, Closed, Acyclic, Justified, TopoSort, RunTo, OutputTo, Find, StepResult, IsReferenced;
    var order := TopoSort(steps).order;
    m := RunTo(env, ById(steps), order, |order|).value;
    RunIsSolution(env, ById(steps), order);
    assert steps[..|steps|] == steps;
    forall k ensures k in Ids(steps) <==> k in ById(steps) {
      if k in ById(steps) {
        var i :| 0 <= i < |steps| && steps[i].id == k;
        assert Ids(steps)[i] == k;
      }
    }
    forall k ensures Find(OutputTo(steps, |steps|, m), k) == if k in ById(steps) && !IsReferenced(steps, k) then Some(m[k]) else None {
      OutputIsSinks(steps, |steps|, m, k);
    }
  }

  // ----- the condition is exact

  /** A visit adds only the step and what it depends on. */
  lemma {:induction false} VisitReaches(g: Graph, id: Text, path: seq<Text>, order: seq<Text>, p: Text)
    requires Visit(g, id, path, order).Done? && p in Visit(g, id, path, order).order && p !in order
    ensures p == id || Reaches(g, id, p)
    decreases Unvisited(g, path), 0
  {
    hide Reaches;
    if id !in order {
      PathGrows(g, path, id);
      if p != id {
        var d := VisitAllReaches(g, g[id].dependsOn, path + [id], order, p);
        ReachesThrough(g, id, d, p);
      }
    }
  }

  lemma {:induction false} VisitAllReaches(g: Graph, ids: seq<Text>, path: seq<Text>, order: seq<Text>, p: Text) returns (d: Text)
    requires VisitAll(g, ids, path, order).Done? && p in VisitAll(g, ids, path, order).order && p !in order
    ensures d in ids && (p == d || Reaches(g, d, p))
    decreases Unvisited(g, path), |ids|
  {
    hide Reaches;
    var o := Visit(g, ids[0], path, order).order;
    if p in o {
      d := ids[0];
      VisitReaches(g, d, path, order, p);
    } else {
      d := VisitAllReaches(g, ids[1..], path, o, p);
    }
  }

  lemma ReachesThrough(g: Graph, a: Text, d: Text, p: Text)
    requires Edge(g, a, d) && (p == d || Reaches(g, d, p))
    ensures Reaches(g, a, p)
  {
    if p == d {
      assert IsWalk(g, [a, d]);
    } else {
      var w :| |w| >= 2 && IsWalk(g, w) && w[0] == d && w[|w| - 1] == p;
      var v := [a] + w;
      forall i | 0 <= i < |v| - 1 ensures Edge(g, v[i], v[i + 1]) {
        if i > 0 { assert Edge(g, w[i - 1], w[i]); }
      }
      assert IsWalk(g, v) && v[|v| - 1] == p;
    }
  }

  /** The step declared first comes before every step it does not depend on. */
  lemma FirstPrecedes(steps: seq<Step>, order: seq<Text>, k: nat)
    requires steps != [] && TopoSort(steps) == Done(order) && k < |order|
    requires order[k] != steps[0].id && !Reaches(ById(steps), steps[0].id, order[k])
    ensures steps[0].id in order[..k]
  {
    hide Reaches, ById;
    var g, first, ids := ById(steps), steps[0].id, Ids(steps);
    assert Ordered(g, []);
    VisitExtends(g, first, [], []);
    var o := Visit(g, first, [], []).order;
    VisitAllExtends(g, ids[1..], [], o);
    if k < |o| {
      assert order[k] in o;
      VisitReaches(g, first, [], [], order[k]);
    }
    var j :| 0 <= j < |o| && o[j] == first;
    assert order[..k][j] == first;
  }

  function MoveFirst(steps: seq<Step>, i: nat): (r: seq<Step>)
    requires i < |steps|
    ensures r != [] && r[0] == steps[i] && multiset(r) == multiset(steps)
  {
    assert steps == steps[..i] + [steps[i]] + steps[i + 1..];
    [steps[i]] + (steps[..i] + steps[i + 1..])
  }

  /** An environment in which every step gives null, but one fails on one argument. */
  function Probe(id: Text, bad: Value): Env {
    Env((s: Step, v: Value) => if s.id == id && v == bad then None else Some(Null), (s: Step) => Some(Null))
  }

  /** Declared ids, each once, each the id of its step. */
  predicate Named(g: Graph, order: seq<Text>) {
    Distinct(order) && forall i :: 0 <= i < |order| ==> order[i] in g && g[order[i]].id == order[i]
  }

  function Nulls(ks: seq<Text>): map<Text, Value> { map k | k in ks :: Null }

  lemma NullsSnoc(order: seq<Text>, k: nat)
    requires k < |order|
    ensures Nulls(order[..k + 1]) == Nulls(order[..k])[order[k] := Null]
  {
    assert order[..k + 1] == order[..k] + [order[k]];
  }

  /** While the failing argument does not come up, all results are null. */
  lemma {:induction false} ProbeRuns(g: Graph, order: seq<Text>, k: nat, id: Text, bad: Value)
    requires Named(g, order) && k <= |order|
    requires forall i :: 0 <= i < k && order[i] == id ==> ResolveRefs(g[id].args, Nulls(order[..i])) != bad
    ensures RunTo(Probe(id, bad), g, order, k) == Some(Nulls(order[..k]))
  {
    hide ResolveRefs;
    if k > 0 {
      ProbeRuns(g, order, k - 1, id, bad);
      NullsSnoc(order, k - 1);
    }
  }

  /** A reference that one map of nulls resolves and another does not gives different arguments. */
  lemma {:induction false} ResolvesApart(v: Value, n: Text, a: seq<Text>, b: seq<Text>)
    requires Mentions(v, n) && n in a && n !in b
    ensures ResolveRefs(v, Nulls(a)) != ResolveRefs(v, Nulls(b))
  {
    match v
    case Str(s) =>
    case Arr(es) =>
      var i :| 0 <= i < |es| && Mentions(es[i], n);
      ResolvesApart(es[i], n, a, b);
      ElemResolved(es, i, Nulls(a));
      ElemResolved(es, i, Nulls(b));
    case Obj(ms) =>
      var i :| 0 <= i < |ms| && Mentions(ms[i].val, n);
      ResolvesApart(ms[i].val, n, a, b);
      MemberResolved(ms, i, Nulls(a));
      MemberResolved(ms, i, Nulls(b));
  }

  lemma {:induction false} ElemResolved(es: seq<Value>, i: nat, c: map<Text, Value>)
    requires i < |es|
    ensures |ResolveElems(es, c)| == |es| && ResolveElems(es, c)[i] == ResolveRefs(es[i], c)
  {
    hide ResolveRefs;
    if |es| > 1 { ElemResolved(es[1..], if i > 0 then i - 1 else 0, c); }
  }

  lemma {:induction false} MemberResolved(ms: seq<Entry<Value>>, i: nat, c: map<Text, Value>)
    requires i < |ms|
    ensures |ResolveMembers(ms, c)| == |ms| && ResolveMembers(ms, c)[i].val == ResolveRefs(ms[i].val, c)
  {
    hide ResolveRefs;
    if |ms| > 1 { MemberResolved(ms[1..], if i > 0 then i - 1 else 0, c); }
  }

  /** Declaring one step first puts it before another it does not depend on. */
  lemma PlacedAfter(steps: seq<Step>, n: Text, id: Text) returns (a: seq<Step>, order: seq<Text>, k: nat)
    requires Distinct(Ids(steps)) && TopoSort(steps).Done? && n in ById(steps) && id in ById(steps)
    requires id != n && !Reaches(ById(steps), n, id)
    ensures multiset(a) == multiset(steps) && ById(a) == ById(steps) && TopoSort(a) == Done(order)
    ensures Named(ById(steps), order) && k < |order| && order[k] == id && n in order[..k]
  {
    var i :| 0 <= i < |steps| && steps[i].id == n;
    a := MoveFirst(steps, i);
    PermutedGraph(steps, a);
    hide ById, Named, Reaches, TopoSort, MoveFirst, Ids, Distinct;
    SortSurvives(steps, a);
    SortIsNamed(a);
    order := TopoSort(a).order;
    k :| 0 <= k < |order| && order[k] == id;
    FirstPrecedes(a, order, k);
  }

  lemma SortIsNamed(steps: seq<Step>)
    requires TopoSort(steps).Done?
    ensures Named(ById(steps), TopoSort(steps).order) && forall k :: k in ById(steps) ==> k in TopoSort(steps).order
  {
    TopoSortExactly(steps);
    hide TopoSort, ById, Justified, Closed, Acyclic, DepsBefore;
  }

  lemma SortSurvives(a: seq<Step>, b: seq<Step>)
    requires ById(a) == ById(b)
    ensures TopoSort(a).Done? <==> TopoSort(b).Done?
  {
    TopoSortExactly(a);
    TopoSortExactly(b);
    hide TopoSort, ById, Justified, Closed, Acyclic, Ordered;
  }

  /** A reference whose place is not settled: some environment lets one declaration order fail and
      another succeed. */
  lemma UnsettledMatters(steps: seq<Step>, id: Text, n: Text) returns (env: Env, a: seq<Step>, b: seq<Step>)
    requires Distinct(Ids(steps)) && TopoSort(steps).Done? && id in ById(steps) && n in ById(steps)
    requires var g := ById(steps);
             IsTool(g[id]) && Mentions(g[id].args, n) && n != id && !Reaches(g, id, n) && !Reaches(g, n, id)
    ensures multiset(a) == multiset(steps) == multiset(b)
    ensures RunWorkflow(env, a) == StepFailed && RunWorkflow(env, b).Output?
    ensures Results(env, a).None? && Results(env, b).Some?
  {
    hide Reaches, Mentions, Distinct, TopoSort, ById, Ids, ResolveRefs, RunTo, Probe, Nulls;
    var p, k, q, j;
    a, p, k := PlacedAfter(steps, n, id);
    b, q, j := PlacedAfter(steps, id, n);
    env := Probe(id, ResolveRefs(ById(steps)[id].args, Nulls(p[..k])));
    ProbeTells(ById(steps), p, k, q, j, n);
    OutcomeIs(env, a);
    OutcomeIs(env, b);
    hide RunWorkflow;
  }

  /** With the step after `n` in one order and before it in the other, one run fails and one does not. */
  lemma ProbeTells(g: Graph, p: seq<Text>, k: nat, q: seq<Text>, j: nat, n: Text)
    requires Named(g, p) && Named(g, q)
    requires k < |p| && n in p[..k] && j < |q| && q[j] == n && p[k] in q[..j] && IsTool(g[p[k]]) && Mentions(g[p[k]].args, n)
    ensures var env := Probe(p[k], ResolveRefs(g[p[k]].args, Nulls(p[..k])));
            RunTo(env, g, p, |p|).None? && RunTo(env, g, q, |q|).Some?
  {
    hide Mentions, ResolveRefs;
    var id := p[k];
    var bad := ResolveRefs(g[id].args, Nulls(p[..k]));
    FailsAt(g, p, k, bad);
    hide RunTo, Nulls, Probe;
    forall i | 0 <= i < |q| && q[i] == id ensures ResolveRefs(g[id].args, Nulls(q[..i])) != bad {
      IdBeforeN(q, i, j, n);
      ResolvesApart(g[id].args, n, p[..k], q[..i]);
    }
    ProbeRuns(g, q, |q|, id, bad);
  }

  /** The failing argument comes up at position `k`. */
  lemma FailsAt(g: Graph, order: seq<Text>, k: nat, bad: Value)
    requires Named(g, order) && k < |order|
    requires IsTool(g[order[k]]) && bad == ResolveRefs(g[order[k]].args, Nulls(order[..k]))
    ensures RunTo(Probe(order[k], bad), g, order, |order|) == None
  {
    ProbeRuns(g, order, k, order[k], bad);
    RunStaysFailed(Probe(order[k], bad), g, order, k + 1, |order|);
  }

  lemma IdBeforeN(order: seq<Text>, i: nat, j: nat, n: Text)
    requires Distinct(order) && i < |order| && j < |order| && order[j] == n && order[i] in order[..j]
    ensures n !in order[..i]
  {
  }

  /** Declaration order does not matter, whatever the tools and events do, exactly when the workflow cannot
      be sorted or every reference of a tool step to a step is settled. */
  lemma OrderMattersIff(steps: seq<Step>)
    requires Distinct(Ids(steps))
    ensures OrderIsSettled(steps) <==> forall env, b :: multiset(b) == multiset(steps) ==> Results(env, steps) == Results(env, b)
    ensures OrderIsSettled(steps) <==>
              forall env, b :: multiset(b) == multiset(steps) ==> SameOutcome(RunWorkflow(env, steps), RunWorkflow(env, b))
  {
    hide Results, RunWorkflow, Find, TopoSort, ById, Distinct, Ids, Mentions, Reaches;
    if OrderIsSettled(steps) {
      forall env, b | multiset(b) == multiset(steps)
        ensures Results(env, steps) == Results(env, b)
        ensures SameOutcome(RunWorkflow(env, steps), RunWorkflow(env, b))
      {
        DeclarationOrderDoesNotMatter(env, steps, b);
      }
    } else {
      var g := ById(steps);
      var id, n :| id in g && n in g && IsTool(g[id]) && Mentions(g[id].args, n) && n != id && !Reaches(g, id, n) && !Reaches(g, n, id);
      var env, a, b := UnsettledMatters(steps, id, n);
    }
  }
}
