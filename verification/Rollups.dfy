/** Per-tool statistics, computed separately by packages/aep/src/ledger.ts and evidenceCompressor.ts. */
module Rollups {
  // Each loop updates its own accumulator and is proved against the same description, which groups the
  // actions first and counts afterwards.

  import opened JsonValue
  import opened Records

  datatype Action = Action(toolName: Text, stateChanging: bool, sideEffectClass: Option<Text>, outcome: Option<Text>)

  /** One property of an object used as a counter. Such an object starts as `{}`, so the first reading
      of a label such as "constructor" finds what every object inherits; adding one to that makes text. */
  datatype Cell = Number(n: nat) | Spoilt

  type Counts = seq<Entry<Cell>>

  datatype ToolCallRollup = ToolCallRollup(
    toolName: Text, count: nat, stateChangingCount: nat, sideEffectClasses: Counts,
    errorCount: nat, errorRate: real, outcomeDistribution: Counts)

  datatype ToolStats = ToolStats(
    toolName: Text, totalCalls: nat, stateChangingCalls: nat,
    sideEffectDistribution: Counts, outcomeDistribution: Counts)

  const UNKNOWN_CLASS := Lit("unknown")
  const ERROR := Lit("error")
  const FAILED := Lit("failed")
  const FAILURE := Lit("failure")
  const PROTO := Lit("__proto__")

  predicate IsErrorOutcome(outcome: Text) { outcome == ERROR || outcome == FAILED || outcome == FAILURE }

  /** The properties of `Object.prototype`. */
  predicate Inherited(k: Text) {
    k in {Lit("constructor"), Lit("hasOwnProperty"), Lit("isPrototypeOf"), Lit("propertyIsEnumerable"), Lit("toLocaleString"),
          Lit("toString"), Lit("valueOf"), Lit("__defineGetter__"), Lit("__defineSetter__"), Lit("__lookupGetter__"),
          Lit("__lookupSetter__"), PROTO}
  }

  // ----- reading the actions of a record

  function TextField(v: Value, k: Text): Option<Text> {
    if Get(v, k).Str? then Some(Get(v, k).s) else None
  }

  function ReadAction(v: Value): Action {
    Action(match TextField(v, Lit("tool_name")) case Some(t) => t case None => [],
           Truthy(Get(v, Lit("state_changing"))),
           TextField(v, Lit("side_effect_class")),
           TextField(v, Lit("outcome")))
  }

  function ActionsOf(r: Value): (as_: seq<Action>)
    ensures Get(r, ACTIONS).Arr? ==> |as_| == |Get(r, ACTIONS).elems|
  {
    var v := Get(r, ACTIONS);
    if v.Arr? then seq(|v.elems|, i requires 0 <= i < |v.elems| => ReadAction(v.elems[i])) else []
  }

  function AllActions(rs: seq<Record>): seq<Action> {
    if rs == [] then [] else AllActions(rs[..|rs| - 1]) + ActionsOf(rs[|rs| - 1])
  }

  // ----- the description: group by tool, then count

  function AddKey(ks: seq<Text>, k: Text): seq<Text> { if k in ks then ks else ks + [k] }

  /** The texts of `ts` in order of first appearance. */
  function FirstSeen(ts: seq<Text>): seq<Text> {
    if ts == [] then [] else AddKey(FirstSeen(ts[..|ts| - 1]), ts[|ts| - 1])
  }

  function Select<T>(xs: seq<T>, p: T -> bool): (r: seq<T>)
    ensures |r| <= |xs|
  {
    if xs == [] then [] else Select(xs[..|xs| - 1], p) + if p(xs[|xs| - 1]) then [xs[|xs| - 1]] else []
  }

  function CountIf<T>(xs: seq<T>, p: T -> bool): nat { |Select(xs, p)| }

  function Tools(as_: seq<Action>): seq<Text> {
    seq(|as_|, i requires 0 <= i < |as_| => as_[i].toolName)
  }

  function CallsOf(tool: Text, as_: seq<Action>): seq<Action> { Select(as_, (a: Action) => a.toolName == tool) }

  function Classes(calls: seq<Action>): seq<Text> {
    seq(|calls|, i requires 0 <= i < |calls| => match calls[i].sideEffectClass case Some(c) => c case None => UNKNOWN_CLASS)
  }

  /** The outcomes reported; a call need not report one. */
  function Outcomes(calls: seq<Action>): (os: seq<Text>)
    ensures |os| <= |calls|
  {
    if calls == [] then []
    else Outcomes(calls[..|calls| - 1]) + match calls[|calls| - 1].outcome case Some(o) => [o] case None => []
  }

  predicate ChangesState(a: Action) { a.stateChanging }

  predicate Failed(a: Action) { a.outcome.Some? && IsErrorOutcome(a.outcome.value) }

  predicate Plain(l: Text) { !Inherited(l) }

  predicate NotProto(l: Text) { l != PROTO }

  /** What a counting object holds under `k` once `labels` were counted. */
  function Occurrences(labels: seq<Text>, k: Text): Cell { if Inherited(k) then Spoilt else Number(multiset(labels)[k]) }

  /** One entry per label, in order of first appearance; "__proto__" cannot be assigned. */
  function Histogram(labels: seq<Text>): Counts {
    var ks := FirstSeen(Select(labels, NotProto));
    seq(|ks|, i requires 0 <= i < |ks| => Entry(ks[i], Occurrences(labels, ks[i])))
  }

  function Rate(errors: nat, calls: nat): real {
    if calls == 0 then 0.0 else errors as real / calls as real
  }

  /** The rollup of one tool before its error rate is set. */
  function Unrated(tool: Text, as_: seq<Action>): ToolCallRollup {
    var calls := CallsOf(tool, as_);
    ToolCallRollup(tool, |calls|, CountIf(calls, ChangesState), Histogram(Classes(calls)),
                   CountIf(calls, Failed), 0.0, Histogram(Outcomes(calls)))
  }

  function RollupFor(tool: Text, as_: seq<Action>): ToolCallRollup {
    Unrated(tool, as_).(errorRate := Rate(CountIf(CallsOf(tool, as_), Failed), |CallsOf(tool, as_)|))
  }

  function StatsFor(tool: Text, as_: seq<Action>): ToolStats {
    var calls := CallsOf(tool, as_);
    ToolStats(tool, |calls|, CountIf(calls, ChangesState), Histogram(Classes(calls)), Histogram(Outcomes(calls)))
  }

  /** The tools in order of first use. */
  function FirstUses(as_: seq<Action>): seq<Text> { FirstSeen(Tools(as_)) }

  /** One rollup per tool of the records' actions, in order of first use. */
  predicate AreRollups(rollups: seq<ToolCallRollup>, records: seq<Record>) {
    var as_ := AllActions(records);
    |rollups| == |FirstUses(as_)| && forall i :: 0 <= i < |rollups| ==> rollups[i] == RollupFor(FirstUses(as_)[i], as_)
  }

  predicate AreStats(stats: seq<ToolStats>, records: seq<Record>) {
    var as_ := AllActions(records);
    |stats| == |FirstUses(as_)| && forall i :: 0 <= i < |stats| ==> stats[i] == StatsFor(FirstUses(as_)[i], as_)
  }

  // ----- the counting step

  /** Reading `counts[k] ?? 0`. */
  function Read(counts: Counts, k: Text): Cell {
    match Find(counts, k)
    case Some(c) => c
    case None => if Inherited(k) then Spoilt else Number(0)
  }

  function PlusOne(c: Cell): Cell { if c.Number? then Number(c.n + 1) else Spoilt }

  /** `counts[k] = (counts[k] ?? 0) + 1`: a new label goes to the end, text put in `__proto__` is dropped. */
  function Bump(counts: Counts, k: Text): Counts {
    if k == PROTO then counts else Assign(counts, k, PlusOne(Read(counts, k)))
  }

  lemma AddKeyCons(x: Text, ks: seq<Text>, k: Text)
    ensures AddKey([x] + ks, k) == if x == k then [x] + ks else [x] + AddKey(ks, k)
  {
    assert ([x] + ks) + [k] == [x] + (ks + [k]);
    assert x == k ==> ([x] + ks)[0] == k;
  }

  lemma AddKeyEmpty(k: Text)
    ensures AddKey([], k) == [k]
  {
  }

  lemma {:induction false} AssignKeys<T>(m: seq<Entry<T>>, k: Text, x: T)
    ensures Keys(Assign(m, k, x)) == AddKey(Keys(m), k)
  {
    hide AddKey;
    if m == [] {
      assert Keys(Assign(m, k, x)) == [k] && AddKey([], k) == [k] by { AddKeyEmpty(k); }
    } else {
      KeysTail(m);
      KeysTail(Assign(m, k, x));
      AddKeyCons(m[0].key, Keys(m[1..]), k);
      if m[0].key == k {
        assert Assign(m, k, x)[1..] == m[1..];
      } else {
        AssignKeys(m[1..], k, x);
        assert Assign(m, k, x)[1..] == Assign(m[1..], k, x);
      }
    }
  }

  lemma {:induction false} FirstSeenDistinct(ts: seq<Text>)
    ensures Distinct(FirstSeen(ts)) && forall t :: t in FirstSeen(ts) <==> t in ts
  {
    if ts != [] {
      FirstSeenDistinct(ts[..|ts| - 1]);
      assert ts == ts[..|ts| - 1] + [ts[|ts| - 1]];
    }
  }

  lemma FirstSeenSnoc(ts: seq<Text>, t: Text)
    ensures FirstSeen(ts + [t]) == AddKey(FirstSeen(ts), t)
  {
    assert (ts + [t])[..|ts|] == ts;
  }

  lemma {:induction false} SelectKeeps(ts: seq<Text>, p: Text -> bool, t: Text)
    ensures t in Select(ts, p) <==> t in ts && p(t)
  {
    if ts != [] {
      SelectKeeps(ts[..|ts| - 1], p, t);
      assert ts == ts[..|ts| - 1] + [ts[|ts| - 1]];
    }
  }

  lemma SelectSnoc<T>(xs: seq<T>, p: T -> bool, x: T)
    ensures Select(xs + [x], p) == Select(xs, p) + if p(x) then [x] else []
  {
    assert (xs + [x])[..|xs|] == xs;
  }

  lemma HistogramKeys(labels: seq<Text>)
    ensures Keys(Histogram(labels)) == FirstSeen(Select(labels, NotProto)) && Distinct(Keys(Histogram(labels)))
    ensures forall k :: k in Keys(Histogram(labels)) <==> k in labels && k != PROTO
  {
    FirstSeenDistinct(Select(labels, NotProto));
    forall k ensures k in Select(labels, NotProto) <==> k in labels && k != PROTO { SelectKeeps(labels, NotProto, k); }
    assert Keys(Histogram(labels)) == FirstSeen(Select(labels, NotProto));
  }

  lemma HistogramFind(labels: seq<Text>, k: Text)
    ensures Find(Histogram(labels), k) == if k in labels && k != PROTO then Some(Occurrences(labels, k)) else None
  {
    HistogramKeys(labels);
    var h := Histogram(labels);
    if k in Keys(h) {
      var i :| 0 <= i < |h| && Keys(h)[i] == k;
      FindAt(h, i);
    }
  }

  lemma ProtoInherited()
    ensures Inherited(PROTO)
  {
  }

  lemma HistogramRead(labels: seq<Text>, k: Text)
    ensures Read(Histogram(labels), k) == Occurrences(labels, k)
  {
    HistogramFind(labels, k);
    ProtoInherited();
    hide Inherited, Histogram, Find;
  }

  /** Lists of entries with the same keys in the same order and the same value under each. */
  lemma SameEntries<T>(a: seq<Entry<T>>, b: seq<Entry<T>>)
    requires Keys(a) == Keys(b) && Distinct(Keys(a)) && forall k :: k in Keys(a) ==> Find(a, k) == Find(b, k)
    ensures a == b
  {
    forall i | 0 <= i < |a| ensures a[i] == b[i] {
      FindAt(a, i);
      FindAt(b, i);
      assert Keys(a)[i] == a[i].key && Keys(b)[i] == b[i].key;
    }
  }

  lemma HistogramSnocKeys(labels: seq<Text>, l: Text)
    ensures Keys(Histogram(labels + [l])) == Keys(Bump(Histogram(labels), l))
  {
    hide Inherited, Histogram, Find, Assign, Lit, Select, FirstSeen, AddKey, Distinct;
    HistogramKeys(labels);
    HistogramKeys(labels + [l]);
    SelectSnoc(labels, NotProto, l);
    if l == PROTO {
      assert Select(labels, NotProto) + [] == Select(labels, NotProto);
    } else {
      FirstSeenSnoc(Select(labels, NotProto), l);
      AssignKeys(Histogram(labels), l, PlusOne(Read(Histogram(labels), l)));
    }
  }

  lemma HistogramSnocFind(labels: seq<Text>, l: Text, k: Text)
    ensures Find(Histogram(labels + [l]), k) == Find(Bump(Histogram(labels), l), k)
  {
    hide Inherited, Histogram, Find, Assign, Lit, Read;
    HistogramRead(labels, l);
    HistogramFind(labels, k);
    HistogramFind(labels + [l], k);
    AssignFind(Histogram(labels), l, PlusOne(Read(Histogram(labels), l)), k);
  }

  /** Counting one more label. */
  lemma HistogramSnoc(labels: seq<Text>, l: Text)
    ensures Histogram(labels + [l]) == Bump(Histogram(labels), l)
  {
    var a, b := Histogram(labels + [l]), Bump(Histogram(labels), l);
    HistogramKeys(labels + [l]);
    HistogramSnocKeys(labels, l);
    hide Histogram, Bump, Find, Distinct;
    forall k | k in Keys(a) ensures Find(a, k) == Find(b, k) { HistogramSnocFind(labels, l, k); }
    SameEntries(a, b);
  }

  /** One more call of a tool, said on the calls. */
  lemma CallSnoc(calls: seq<Action>, a: Action)
    ensures CountIf(calls + [a], ChangesState) == CountIf(calls, ChangesState) + (if a.stateChanging then 1 else 0)
    ensures CountIf(calls + [a], Failed) == CountIf(calls, Failed) + (if Failed(a) then 1 else 0)
    ensures Classes(calls + [a]) == Classes(calls) + [match a.sideEffectClass case Some(c) => c case None => UNKNOWN_CLASS]
    ensures Outcomes(calls + [a]) == Outcomes(calls) + match a.outcome case Some(o) => [o] case None => []
  {
    SelectSnoc(calls, ChangesState, a);
    SelectSnoc(calls, Failed, a);
    assert (calls + [a])[..|calls|] == calls;
  }

  lemma CallsSnoc(tool: Text, as_: seq<Action>, a: Action)
    ensures CallsOf(tool, as_ + [a]) == CallsOf(tool, as_) + if a.toolName == tool then [a] else []
  {
    SelectSnoc(as_, (a: Action) => a.toolName == tool, a);
  }

  lemma FirstUsesSnoc(as_: seq<Action>, a: Action)
    ensures FirstUses(as_ + [a]) == AddKey(FirstUses(as_), a.toolName)
  {
    FirstSeenSnoc(Tools(as_), a.toolName);
    assert Tools(as_ + [a]) == Tools(as_) + [a.toolName];
  }

  lemma {:induction false} UnusedHasNoCalls(tool: Text, as_: seq<Action>)
    ensures tool in FirstUses(as_) <==> CallsOf(tool, as_) != []
  {
    if as_ == [] {
      assert Tools(as_) == [];
    } else {
      var front, a := as_[..|as_| - 1], as_[|as_| - 1];
      UnusedHasNoCalls(tool, front);
      FirstUsesSnoc(front, a);
      CallsSnoc(tool, front, a);
      assert as_ == front + [a];
    }
  }

  /** What a tool's rollup and statistics are before its first call. */
  lemma UnusedIsFresh(tool: Text, as_: seq<Action>)
    requires tool !in FirstUses(as_)
    ensures Unrated(tool, as_) == ToolCallRollup(tool, 0, 0, [], 0, 0.0, [])
    ensures StatsFor(tool, as_) == ToolStats(tool, 0, 0, [], [])
  {
    UnusedHasNoCalls(tool, as_);
    hide CallsOf, FirstUses;
    assert Classes([]) == [];
    assert Histogram([]) == [];
  }

  /** One more action leaves the other tools alone. */
  lemma OtherTool(tool: Text, as_: seq<Action>, a: Action)
    requires a.toolName != tool
    ensures Unrated(tool, as_ + [a]) == Unrated(tool, as_) && StatsFor(tool, as_ + [a]) == StatsFor(tool, as_)
  {
    CallsSnoc(tool, as_, a);
    assert CallsOf(tool, as_) + [] == CallsOf(tool, as_);
    hide CallsOf, Histogram, CountIf;
  }

  // ----- the ledger's loop

  /** The map the loop keeps holds the rollups of the actions so far, their rates not yet set. */
  ghost predicate Rolls(m: seq<Entry<ToolCallRollup>>, as_: seq<Action>) {
    Keys(m) == FirstUses(as_) && forall t :: t in Keys(m) ==> Find(m, t) == Some(Unrated(t, as_))
  }

  lemma NoRolls()
    ensures Rolls([], [])
  {
    assert Tools([]) == [];
  }

  lemma RollsSet(m: seq<Entry<ToolCallRollup>>, as_: seq<Action>, a: Action,
                 made: seq<Entry<ToolCallRollup>>, first: ToolCallRollup, entry: ToolCallRollup)
    requires Rolls(m, as_) && entry == Unrated(a.toolName, as_ + [a])
    requires made == m || made == Assign(m, a.toolName, first)
    ensures Rolls(Assign(made, a.toolName, entry), as_ + [a])
  {
    hide Unrated, FirstUses, Assign, Find;
    FirstUsesSnoc(as_, a);
    AssignKeys(made, a.toolName, entry);
    AssignKeys(m, a.toolName, first);
    var r := Assign(made, a.toolName, entry);
    forall t | t in Keys(r) ensures Find(r, t) == Some(Unrated(t, as_ + [a])) {
      AssignFind(made, a.toolName, entry, t);
      AssignFind(m, a.toolName, first, t);
      if t != a.toolName { OtherTool(t, as_, a); }
    }
  }

  /** The body of the ledger's inner loop: the entry is made on first sight, then updated field by field. */
  method RollupAction(m: seq<Entry<ToolCallRollup>>, action: Action, ghost as_: seq<Action>) returns (r: seq<Entry<ToolCallRollup>>)
    requires Rolls(m, as_)
    ensures Rolls(r, as_ + [action])
  {
    hide FirstUses, Histogram, CountIf, CallsOf, Bump, IsErrorOutcome, Lit, Assign, Find, Classes, Outcomes;
    r := m;
    var found := Find(m, action.toolName);
    if found.None? {
      found := Some(ToolCallRollup(action.toolName, 0, 0, [], 0, 0.0, []));
      r := Assign(m, action.toolName, found.value);
      UnusedIsFresh(action.toolName, as_);
    }
    var entry := found.value;
    ghost var calls := CallsOf(action.toolName, as_);
    assert entry == Unrated(action.toolName, as_);
    CallsSnoc(action.toolName, as_, action);
    CallSnoc(calls, action);
    entry := entry.(count := entry.count + 1);
    if action.stateChanging { entry := entry.(stateChangingCount := entry.stateChangingCount + 1); }
    var sec := match action.sideEffectClass case Some(c) => c case None => UNKNOWN_CLASS;
    HistogramSnoc(Classes(calls), sec);
    entry := entry.(sideEffectClasses := Bump(entry.sideEffectClasses, sec));
    if action.outcome.Some? {
      HistogramSnoc(Outcomes(calls), action.outcome.value);
      entry := entry.(outcomeDistribution := Bump(entry.outcomeDistribution, action.outcome.value));
      if IsErrorOutcome(action.outcome.value) { entry := entry.(errorCount := entry.errorCount + 1); }
    } else {
      assert Outcomes(calls) + [] == Outcomes(calls);
    }
    RollsSet(m, as_, action, r, found.value, entry);
    r := Assign(r, action.toolName, entry);
  }

  /** `buildToolRollups`. */
  method BuildToolRollups(records: seq<Record>) returns (rollups: seq<ToolCallRollup>)
    ensures AreRollups(rollups, records)
  {
    hide ActionsOf, Rolls, RollupFor, Unrated, FirstUses, CallsOf, CountIf, Find;
    var m: seq<Entry<ToolCallRollup>> := [];
    NoRolls();
    for i := 0 to |records|
      invariant Rolls(m, AllActions(records[..i]))
    {
      var actions := ActionsOf(records[i]);
      ghost var before := AllActions(records[..i]);
      assert before + actions[..0] == before;
      for j := 0 to |actions|
        invariant Rolls(m, before + actions[..j])
      {
        m := RollupAction(m, actions[j], before + actions[..j]);
        assert before + actions[..j] + [actions[j]] == before + actions[..j + 1];
      }
      assert actions[..|actions|] == actions && records[..i + 1][..i] == records[..i];
    }
    ghost var as_ := AllActions(records);
    assert records[..|records|] == records;
    rollups := [];
    for i := 0 to |m|
      invariant |rollups| == i && forall j :: 0 <= j < i ==> rollups[j] == RollupFor(m[j].key, as_)
    {
      var entry := m[i].val;
      RollsAt(m, as_, i);
      rollups := rollups + [entry.(errorRate := Rate(entry.errorCount, entry.count))];
    }
    RollsKeys(m, as_);
  }

  lemma RollsAt(m: seq<Entry<ToolCallRollup>>, as_: seq<Action>, i: nat)
    requires Rolls(m, as_) && i < |m|
    ensures m[i].val.(errorRate := Rate(m[i].val.errorCount, m[i].val.count)) == RollupFor(m[i].key, as_)
  {
    FirstSeenDistinct(Tools(as_));
    FindAt(m, i);
    assert Keys(m)[i] == m[i].key;
    hide Histogram, CallsOf, CountIf, FirstSeen;
  }

  lemma RollsKeys(m: seq<Entry<ToolCallRollup>>, as_: seq<Action>)
    requires Rolls(m, as_)
    ensures |m| == |FirstUses(as_)| && forall i :: 0 <= i < |m| ==> m[i].key == FirstUses(as_)[i]
  {
  }

  // ----- the compressor's loop

  /** What the compressor keeps per tool. */
  datatype ToolCounters = ToolCounters(
    totalCalls: nat, stateChangingCalls: nat, sideEffectDistribution: Counts, outcomeDistribution: Counts)

  function ToStats(tool: Text, c: ToolCounters): ToolStats {
    ToolStats(tool, c.totalCalls, c.stateChangingCalls, c.sideEffectDistribution, c.outcomeDistribution)
  }

  ghost predicate Tallies(m: seq<Entry<ToolCounters>>, as_: seq<Action>) {
    Keys(m) == FirstUses(as_) && forall t :: t in Keys(m) ==> Find(m, t).Some? && ToStats(t, Find(m, t).value) == StatsFor(t, as_)
  }

  lemma NoTallies()
    ensures Tallies([], [])
  {
    assert Tools([]) == [];
  }

  lemma TalliesSet(m: seq<Entry<ToolCounters>>, as_: seq<Action>, a: Action,
                   made: seq<Entry<ToolCounters>>, first: ToolCounters, entry: ToolCounters)
    requires Tallies(m, as_) && ToStats(a.toolName, entry) == StatsFor(a.toolName, as_ + [a])
    requires made == m || made == Assign(m, a.toolName, first)
    ensures Tallies(Assign(made, a.toolName, entry), as_ + [a])
  {
    hide StatsFor, ToStats, FirstUses, Assign, Find;
    FirstUsesSnoc(as_, a);
    AssignKeys(made, a.toolName, entry);
    AssignKeys(m, a.toolName, first);
    var r := Assign(made, a.toolName, entry);
    forall t | t in Keys(r) ensures Find(r, t).Some? && ToStats(t, Find(r, t).value) == StatsFor(t, as_ + [a]) {
      AssignFind(made, a.toolName, entry, t);
      AssignFind(m, a.toolName, first, t);
      if t != a.toolName { OtherTool(t, as_, a); }
    }
  }

  /** The body of the compressor's inner loop; it has no error counter. */
  method StatsAction(m: seq<Entry<ToolCounters>>, action: Action, ghost as_: seq<Action>) returns (r: seq<Entry<ToolCounters>>)
    requires Tallies(m, as_)
    ensures Tallies(r, as_ + [action])
  {
    hide FirstUses, Histogram, CountIf, CallsOf, Bump, IsErrorOutcome, Lit, Assign, Find, Classes, Outcomes;
    r := m;
    var found := Find(m, action.toolName);
    if found.None? {
      found := Some(ToolCounters(0, 0, [], []));
      r := Assign(m, action.toolName, found.value);
      UnusedIsFresh(action.toolName, as_);
    }
    var entry := found.value;
    ghost var calls := CallsOf(action.toolName, as_);
    assert ToStats(action.toolName, entry) == StatsFor(action.toolName, as_);
    CallsSnoc(action.toolName, as_, action);
    CallSnoc(calls, action);
    entry := entry.(totalCalls := entry.totalCalls + 1);
    if action.stateChanging { entry := entry.(stateChangingCalls := entry.stateChangingCalls + 1); }
    var sec := match action.sideEffectClass case Some(c) => c case None => UNKNOWN_CLASS;
    HistogramSnoc(Classes(calls), sec);
    entry := entry.(sideEffectDistribution := Bump(entry.sideEffectDistribution, sec));
    if action.outcome.Some? {
      HistogramSnoc(Outcomes(calls), action.outcome.value);
      entry := entry.(outcomeDistribution := Bump(entry.outcomeDistribution, action.outcome.value));
    } else {
      assert Outcomes(calls) + [] == Outcomes(calls);
    }
    TalliesSet(m, as_, action, r, found.value, entry);
    r := Assign(r, action.toolName, entry);
  }

  /** The statistics part of `compress`. */
  method CompressToolStats(records: seq<Record>) returns (stats: seq<ToolStats>, totalActions: nat)
    ensures AreStats(stats, records) && totalActions == |AllActions(records)|
  {
    hide ActionsOf, Tallies, StatsFor, FirstUses, CallsOf, CountIf, Find;
    var m: seq<Entry<ToolCounters>> := [];
    totalActions := 0;
    NoTallies();
    for i := 0 to |records|
      invariant Tallies(m, AllActions(records[..i])) && totalActions == |AllActions(records[..i])|
    {
      var actions := ActionsOf(records[i]);
      totalActions := totalActions + |actions|;
      ghost var before := AllActions(records[..i]);
      assert before + actions[..0] == before;
      for j := 0 to |actions|
        invariant Tallies(m, before + actions[..j])
      {
        m := StatsAction(m, actions[j], before + actions[..j]);
        assert before + actions[..j] + [actions[j]] == before + actions[..j + 1];
      }
      assert actions[..|actions|] == actions && records[..i + 1][..i] == records[..i];
    }
    ghost var as_ := AllActions(records);
    assert records[..|records|] == records;
    TalliesAre(m, as_);
    stats := seq(|m|, i requires 0 <= i < |m| => ToStats(m[i].key, m[i].val));
  }

  lemma TalliesAre(m: seq<Entry<ToolCounters>>, as_: seq<Action>)
    requires Tallies(m, as_)
    ensures |m| == |FirstUses(as_)|
    ensures forall i :: 0 <= i < |m| ==> m[i].key == FirstUses(as_)[i] && ToStats(m[i].key, m[i].val) == StatsFor(m[i].key, as_)
  {
    FirstSeenDistinct(Tools(as_));
    hide StatsFor, ToStats, FirstSeen;
    forall i | 0 <= i < |m| ensures ToStats(m[i].key, m[i].val) == StatsFor(m[i].key, as_) {
      FindAt(m, i);
      assert Keys(m)[i] == m[i].key;
    }
  }

  // ----- which labels are counted

  /** A label that was used is counted exactly, unless every object inherits a property of that name. */
  lemma LabelCountedIff(labels: seq<Text>, l: Text)
    requires l in labels
    ensures Find(Histogram(labels), l) == Some(Number(multiset(labels)[l])) <==> !Inherited(l)
  {
    HistogramFind(labels, l);
    ProtoInherited();
    hide Inherited, Histogram, Find;
  }

  /** Two calls that report the outcome "constructor". */
  lemma InheritedLabelSpoils()
    ensures var o := Lit("constructor");
            var a := Action(Lit("t"), false, None, Some(o));
            RollupFor(Lit("t"), [a, a]).outcomeDistribution == [Entry(o, Spoilt)]
  {
    var o, tool := Lit("constructor"), Lit("t");
    var a := Action(tool, false, None, Some(o));
    assert [] + [a] + [a] == [a, a] && [] + [o] + [o] == [o, o];
    CallsSnoc(tool, [], a);
    CallsSnoc(tool, [] + [a], a);
    CallSnoc([], a);
    CallSnoc([] + [a], a);
    assert Inherited(o) && o != PROTO by { assert |o| == 11 && |PROTO| == 9; }
    hide Lit, Inherited, Outcomes, CallsOf, Bump;
    HistogramSnoc([], o);
    HistogramSnoc([] + [o], o);
    assert Histogram([]) == [];
    FreshSpoils(o);
  }

  lemma FreshSpoils(o: Text)
    requires Inherited(o) && o != PROTO
    ensures Bump(Bump([], o), o) == [Entry(o, Spoilt)]
  {
    hide Inherited, Lit;
    assert Bump([], o) == [Entry(o, Spoilt)];
  }

  // ----- conservation

  function NumberOf(c: Cell): nat { if c.Number? then c.n else 0 }

  /** The numbers in a counting object, added up. */
  function Total(counts: Counts): nat {
    if counts == [] then 0 else NumberOf(counts[0].val) + Total(counts[1..])
  }

  lemma {:induction false} AssignTotal(counts: Counts, k: Text, c: Cell)
    ensures Total(Assign(counts, k, c)) ==
            Total(counts) - (match Find(counts, k) case Some(x) => NumberOf(x) case None => 0) + NumberOf(c)
  {
    if counts != [] {
      AssignTotal(counts[1..], k, c);
      assert Assign(counts, k, c)[1..] == (if counts[0].key == k then counts[1..] else Assign(counts[1..], k, c));
    } else {
      assert Assign(counts, k, c)[1..] == [];
    }
  }

  lemma BumpTotal(counts: Counts, k: Text)
    requires k == PROTO ==> Read(counts, k).Spoilt?
    ensures Total(Bump(counts, k)) == Total(counts) + (if Read(counts, k).Number? then 1 else 0)
  {
    AssignTotal(counts, k, PlusOne(Read(counts, k)));
    hide Assign, Find, Inherited;
  }

  /** The entries add up to the labels that are not inherited property names. */
  lemma {:induction false} HistogramTotal(labels: seq<Text>)
    ensures Total(Histogram(labels)) == CountIf(labels, Plain)
  {
    if labels != [] {
      var front, l := labels[..|labels| - 1], labels[|labels| - 1];
      assert labels == front + [l];
      HistogramTotal(front);
      HistogramSnoc(front, l);
      HistogramRead(front, l);
      ProtoInherited();
      hide Inherited, Histogram, Bump, Total, Find;
      BumpTotal(Histogram(front), l);
    }
  }

  lemma {:induction false} CountIfAll<T>(xs: seq<T>, p: T -> bool)
    ensures CountIf(xs, p) == |xs| <==> forall i :: 0 <= i < |xs| ==> p(xs[i])
  {
    if xs != [] {
      CountIfAll(xs[..|xs| - 1], p);
      assert forall i :: 0 <= i < |xs| - 1 ==> xs[..|xs| - 1][i] == xs[i];
    }
  }

  lemma ErrorLabelsApart()
    ensures ERROR != FAILED && FAILED != FAILURE && ERROR != FAILURE
  {
    assert |ERROR| == 5 && |FAILED| == 6 && |FAILURE| == 7;
  }

  lemma ErrorLabelsPlain()
    ensures Plain(ERROR) && Plain(FAILED) && Plain(FAILURE)
  {
    assert |ERROR| == 5 && |FAILED| == 6 && |FAILURE| == 7 && |Lit("valueOf")| == 7;
    assert FAILURE[0] == 'f' as int && Lit("valueOf")[0] == 'v' as int;
  }

  /** The errors are the calls under the three failure labels. */
  lemma {:induction false} FailuresAreLabels(calls: seq<Action>)
    ensures var os := multiset(Outcomes(calls)); CountIf(calls, Failed) == os[ERROR] + os[FAILED] + os[FAILURE]
  {
    if calls != [] {
      var front, a := calls[..|calls| - 1], calls[|calls| - 1];
      assert calls == front + [a];
      FailuresAreLabels(front);
      CallSnoc(front, a);
      ErrorLabelsApart();
      hide Lit, CountIf, Outcomes;
    }
  }

  function SumCalls(tools: seq<Text>, as_: seq<Action>): nat {
    if tools == [] then 0 else SumCalls(tools[..|tools| - 1], as_) + |CallsOf(tools[|tools| - 1], as_)|
  }

  lemma {:induction false} SumCallsSnoc(tools: seq<Text>, as_: seq<Action>, a: Action)
    requires Distinct(tools)
    ensures SumCalls(tools, as_ + [a]) == SumCalls(tools, as_) + (if a.toolName in tools then 1 else 0)
  {
    if tools != [] {
      var front, t := tools[..|tools| - 1], tools[|tools| - 1];
      assert tools == front + [t] && t !in front;
      SumCallsSnoc(front, as_, a);
      CallsSnoc(t, as_, a);
      hide CallsOf;
    }
  }

  /** Nothing is lost and nothing counted twice: the calls over all tools add up to the actions. */
  lemma {:induction false} CallsConserve(as_: seq<Action>)
    ensures SumCalls(FirstUses(as_), as_) == |as_|
  {
    if as_ == [] {
      assert Tools(as_) == [];
    } else {
      var front, a := as_[..|as_| - 1], as_[|as_| - 1];
      assert as_ == front + [a];
      CallsConserve(front);
      FirstUsesSnoc(front, a);
      FirstSeenDistinct(Tools(as_));
      UnusedHasNoCalls(a.toolName, front);
      hide CallsOf, FirstSeen;
      SumCallsSnoc(FirstUses(as_), front, a);
      if a.toolName !in FirstUses(front) {
        assert FirstUses(as_)[..|FirstUses(front)|] == FirstUses(front);
      }
    }
  }

  // ----- the two summaries together

  /** The two summaries agree tool by tool, in the same order. */
  predicate Agree(rollups: seq<ToolCallRollup>, stats: seq<ToolStats>) {
    |rollups| == |stats| && forall i :: 0 <= i < |rollups| ==>
      && rollups[i].toolName == stats[i].toolName
      && rollups[i].count == stats[i].totalCalls
      && rollups[i].stateChangingCount == stats[i].stateChangingCalls
      && rollups[i].sideEffectClasses == stats[i].sideEffectDistribution
      && rollups[i].outcomeDistribution == stats[i].outcomeDistribution
  }

  function SumRollups(rollups: seq<ToolCallRollup>): nat {
    if rollups == [] then 0 else SumRollups(rollups[..|rollups| - 1]) + rollups[|rollups| - 1].count
  }

  lemma {:induction false} SumRollupsIs(rollups: seq<ToolCallRollup>, tools: seq<Text>, as_: seq<Action>)
    requires |rollups| == |tools| && forall i :: 0 <= i < |tools| ==> rollups[i] == RollupFor(tools[i], as_)
    ensures SumRollups(rollups) == SumCalls(tools, as_)
  {
    hide CallsOf, Histogram, CountIf;
    if tools != [] { SumRollupsIs(rollups[..|rollups| - 1], tools[..|tools| - 1], as_); }
  }

  /** What holds inside one rollup: the classes add up to the calls exactly when no class is an
      inherited property name, the errors are the three failure labels, and the rate is their share. */
  ghost predicate Balanced(r: ToolCallRollup, calls: seq<Action>) {
    && r.count == |calls|
    && r.stateChangingCount <= r.count && r.errorCount <= r.count
    && Total(r.sideEffectClasses) <= r.count
    && (Total(r.sideEffectClasses) == r.count <==> forall i :: 0 <= i < |calls| ==> Plain(Classes(calls)[i]))
    && r.errorCount == NumberOf(Read(r.outcomeDistribution, ERROR)) + NumberOf(Read(r.outcomeDistribution, FAILED))
                       + NumberOf(Read(r.outcomeDistribution, FAILURE))
    && r.errorRate * r.count as real == r.errorCount as real
  }

  lemma RollupBalances(tool: Text, as_: seq<Action>)
    ensures Balanced(RollupFor(tool, as_), CallsOf(tool, as_))
  {
    var calls := CallsOf(tool, as_);
    HistogramTotal(Classes(calls));
    CountIfAll(Classes(calls), Plain);
    FailuresAreLabels(calls);
    ErrorLabelsPlain();
    hide CallsOf, Histogram, Select, Total, Inherited, Lit, Read, Outcomes;
    HistogramRead(Outcomes(calls), ERROR);
    HistogramRead(Outcomes(calls), FAILED);
    HistogramRead(Outcomes(calls), FAILURE);
  }

  /** Ledger rollups and compressor statistics over the same records: same tools in order of first
      use, equal counts and distributions, and every action counted exactly once. */
  method BothSummaries(records: seq<Record>) returns (rollups: seq<ToolCallRollup>, stats: seq<ToolStats>, total: nat)
    ensures Agree(rollups, stats)
    ensures |rollups| == |FirstUses(AllActions(records))|
    ensures forall i :: 0 <= i < |rollups| ==> rollups[i].toolName == FirstUses(AllActions(records))[i]
    ensures SumRollups(rollups) == total == |AllActions(records)|
    ensures forall i :: 0 <= i < |rollups| ==> Balanced(rollups[i], CallsOf(rollups[i].toolName, AllActions(records)))
  {
    rollups := BuildToolRollups(records);
    stats, total := CompressToolStats(records);
    hide AllActions, FirstUses, CallsOf, Histogram, CountIf, Balanced, Classes, Outcomes, Lit;
    ghost var as_ := AllActions(records);
    CallsConserve(as_);
    SumRollupsIs(rollups, FirstUses(as_), as_);
    forall i | 0 <= i < |rollups| ensures Balanced(rollups[i], CallsOf(rollups[i].toolName, as_)) {
      RollupBalances(FirstUses(as_)[i], as_);
    }
  }
}
