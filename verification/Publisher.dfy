/** The publisher's store-watching loop (packages/aep/src/evidencePublisher.ts:160-314). */
module Publisher {
  // The segments of `#poll` between its awaits, interleaved with appends, ticks and direct publishes. The
  // store only grows. A query answers with the store as it was at some moment between the call and the
  // answer, or fails. Only one `start()` is made.

  /** Where a poll is suspended: not polling, waiting for the query (asked when the store held
      `since` records), or waiting for the stream to take `records[i]`. */
  datatype Phase<R> = Idle | Querying(since: nat) | Delivering(records: seq<R>, i: nat)

  /** The store, the publisher's fields, and what has been handed to the stream by the watcher
      (`offered`) and how deliveries went. */
  datatype State<R> = State(
    store: seq<R>, phase: Phase<R>, running: bool, lastSeenIndex: nat,
    published: nat, filtered: nat, errors: nat, storePolled: nat,
    offered: seq<R>, failed: nat, direct: nat)

  datatype Step<R> =
    | Append(record: R)
    | Tick
    | QueryAnswered(length: nat)
    | QueryFailed
    | Delivered(targetErrors: nat)
    | DeliveryFailed
    | PublishDelivered(targetErrors: nat)
    | PublishFailed
    | Stop

  /** `start()`: the tail is marked and the immediate poll begins. */
  function Start<R>(store: seq<R>): State<R> {
    State(store, Querying(|store|), true, |store|, 0, 0, 0, 0, [], 0, 0)
  }

  /** The loop of `#poll` from position `i` to its next await, or to its end. */
  function Advance<R>(matches: R -> bool, s: State<R>, records: seq<R>, i: nat): State<R>
    decreases |records| - i
  {
    if i >= |records| then s.(phase := Idle, lastSeenIndex := |records|)
    else if !matches(records[i]) then Advance(matches, s.(filtered := s.filtered + 1), records, i + 1)
    else s.(phase := Delivering(records, i), offered := s.offered + [records[i]])
  }

  /** Which steps can happen. */
  predicate Enabled<R>(s: State<R>, step: Step<R>) {
    match step
    case Tick => s.running
    case QueryAnswered(length) => s.phase.Querying? && s.phase.since <= length <= |s.store|
    case QueryFailed => s.phase.Querying?
    case Delivered(_) => s.phase.Delivering? && s.phase.i < |s.phase.records|
    case DeliveryFailed => s.phase.Delivering? && s.phase.i < |s.phase.records|
    case _ => true
  }

  function Next<R>(matches: R -> bool, s: State<R>, step: Step<R>): State<R>
    requires Enabled(s, step)
  {
    match step
    case Append(r) => s.(store := s.store + [r])
    case Tick => if s.phase.Idle? then s.(phase := Querying(|s.store|)) else s
    case QueryAnswered(length) =>
      Advance(matches, s.(storePolled := s.storePolled + 1), s.store[..length], s.lastSeenIndex)
    case QueryFailed => s.(phase := Idle, errors := s.errors + 1)
    case Delivered(n) =>
      Advance(matches, s.(published := s.published + 1, errors := s.errors + n), s.phase.records, s.phase.i + 1)
    case DeliveryFailed =>
      Advance(matches, s.(errors := s.errors + 1, failed := s.failed + 1), s.phase.records, s.phase.i + 1)
    case PublishDelivered(n) => s.(published := s.published + 1, errors := s.errors + n, direct := s.direct + 1)
    case PublishFailed => s.(errors := s.errors + 1)
    case Stop => s.(running := false)
  }

  // ----- the watcher as it is written

  /** The publisher's fields, with the suspended poll's local variables. */
  class Watcher<R> {
    const matches: R -> bool
    ghost var model: State<R>
    var polling: bool
    var lastSeenIndex: nat
    var published: nat
    var filtered: nat
    var errors: nat
    var storePolled: nat
    var records: seq<R>
    var i: nat

    ghost predicate Valid()
      reads this
    {
      && lastSeenIndex == model.lastSeenIndex && published == model.published && filtered == model.filtered
      && errors == model.errors && storePolled == model.storePolled && (polling <==> !model.phase.Idle?)
      && (model.phase.Delivering? ==> model.phase == Delivering(records, i) && i < |records|)
    }

    constructor (matches: R -> bool, store: seq<R>)
      ensures this.matches == matches && Valid() && model == Start(store)
    {
      this.matches := matches;
      model := Start(store);
      polling, lastSeenIndex := true, |store|;
      published, filtered, errors, storePolled := 0, 0, 0, 0;
      records, i := [], 0;
    }

    /** The interval's callback: a tick during a poll is a no-op. */
    method Tick()
      requires Valid() && Enabled(model, Step.Tick)
      modifies this
      ensures Valid() && model == Next(matches, old(model), Step.Tick)
    {
      model := Next(matches, model, Step.Tick);
      if polling { return; }
      polling := true;
    }

    method QueryAnswered(answer: seq<R>)
      requires Valid() && Enabled(model, Step.QueryAnswered(|answer|)) && answer == model.store[..|answer|]
      modifies this
      ensures Valid() && model == Next(matches, old(model), Step.QueryAnswered(|answer|))
    {
      storePolled := storePolled + 1;
      records, i := answer, lastSeenIndex;
      RunLoop(model.(storePolled := model.storePolled + 1));
    }

    method QueryFailed()
      requires Valid() && Enabled(model, Step.QueryFailed)
      modifies this
      ensures Valid() && model == Next(matches, old(model), Step.QueryFailed)
    {
      errors := errors + 1;
      polling := false;
      model := Next(matches, model, Step.QueryFailed);
    }

    method Delivered(targetErrors: nat)
      requires Valid() && Enabled(model, Step.Delivered(targetErrors))
      modifies this
      ensures Valid() && model == Next(matches, old(model), Step.Delivered(targetErrors))
    {
      published := published + 1;
      errors := errors + targetErrors;
      i := i + 1;
      RunLoop(model.(published := model.published + 1, errors := model.errors + targetErrors));
    }

    method DeliveryFailed()
      requires Valid() && Enabled(model, Step.DeliveryFailed)
      modifies this
      ensures Valid() && model == Next(matches, old(model), Step.DeliveryFailed)
    {
      errors := errors + 1;
      i := i + 1;
      RunLoop(model.(errors := model.errors + 1, failed := model.failed + 1));
    }

    /** The loop up to its next await. `s` is what the counters stand at. */
    method RunLoop(ghost s: State<R>)
      requires !s.phase.Idle? && polling && lastSeenIndex == s.lastSeenIndex && published == s.published
      requires filtered == s.filtered && errors == s.errors && storePolled == s.storePolled
      modifies this
      ensures Valid() && model == Advance(matches, s, old(records), old(i))
    {
      ghost var t := s;
      while i < |records| && !matches(records[i])
        invariant records == old(records) && polling
        invariant Advance(matches, t, records, i) == Advance(matches, s, records, old(i))
        invariant !t.phase.Idle? && lastSeenIndex == t.lastSeenIndex && published == t.published
        invariant filtered == t.filtered && errors == t.errors && storePolled == t.storePolled
        decreases |records| - i
      {
        filtered := filtered + 1;
        t := t.(filtered := t.filtered + 1);
        i := i + 1;
      }
      if i >= |records| {
        lastSeenIndex := |records|;
        polling := false;
      }
      model := Advance(matches, t, records, i);
    }
  }

  // ----- every interleaving

  /** The records of a stretch of the store that pass the filter. */
  function Matching<R>(matches: R -> bool, rs: seq<R>): (m: seq<R>)
    ensures |m| <= |rs|
  {
    if rs == [] then []
    else
      var last := rs[|rs| - 1];
      Matching(matches, rs[..|rs| - 1]) + if matches(last) then [last] else []
  }

  /** How far the watcher has handled the store: everything before it is settled. */
  function Settled<R>(s: State<R>): nat { if s.phase.Delivering? then s.phase.i else s.lastSeenIndex }

  /** How far it has offered records to the stream: one more while a delivery is in flight. */
  function Offered<R>(s: State<R>): nat { if s.phase.Delivering? then s.phase.i + 1 else s.lastSeenIndex }

  /** Every state reachable from a start at position `start`. */
  ghost predicate Inv<R>(matches: R -> bool, start: nat, s: State<R>) {
    && start <= s.lastSeenIndex <= Settled(s) && Offered(s) <= |s.store|
    && (s.phase.Querying? ==> s.lastSeenIndex <= s.phase.since <= |s.store|)
    && (s.phase.Delivering? ==> s.phase.i < |s.phase.records| && s.phase.records <= s.store && matches(s.phase.records[s.phase.i]))
    && s.offered == Matching(matches, s.store[start..Offered(s)])
    && Counted(matches, start, s, Settled(s))
  }

  /** Up to position `n` every record was counted once: published or failed if it passes the filter,
      filtered if not. */
  predicate Counted<R>(matches: R -> bool, start: nat, s: State<R>, n: nat) {
    && start <= n <= |s.store| && s.direct <= s.published
    && s.published - s.direct + s.failed == |Matching(matches, s.store[start..n])|
    && s.filtered == n - start - |Matching(matches, s.store[start..n])|
  }

  lemma MatchingSnoc<R>(matches: R -> bool, rs: seq<R>, a: nat, b: nat)
    requires a <= b < |rs|
    ensures Matching(matches, rs[a..b + 1]) == Matching(matches, rs[a..b]) + if matches(rs[b]) then [rs[b]] else []
  {
    assert rs[a..b + 1][..b - a] == rs[a..b];
  }

  /** The loop keeps the invariant wherever it stops. */
  lemma {:induction false} AdvanceKeeps<R>(matches: R -> bool, start: nat, s: State<R>, records: seq<R>, i: nat)
    requires start <= s.lastSeenIndex <= i <= |records| && records <= s.store
    requires s.offered == Matching(matches, s.store[start..i]) && Counted(matches, start, s, i)
    ensures var t := Advance(matches, s, records, i);
            Inv(matches, start, t) && t.store == s.store && (t.phase.Idle? ==> t.lastSeenIndex == |records|)
    decreases |records| - i
  {
    hide Matching;
    if i < |records| {
      assert records[i] == s.store[i];
      MatchingSnoc(matches, s.store, start, i);
      if !matches(records[i]) {
        AdvanceKeeps(matches, start, s.(filtered := s.filtered + 1), records, i + 1);
      }
    }
  }

  lemma AppendKeeps<R>(matches: R -> bool, start: nat, s: State<R>, r: R)
    requires Inv(matches, start, s)
    ensures Inv(matches, start, s.(store := s.store + [r]))
  {
    hide Matching;
    var t := s.store + [r];
    assert t[start..Offered(s)] == s.store[start..Offered(s)] && t[start..Settled(s)] == s.store[start..Settled(s)];
  }

  /** One more settled record, delivered or not. */
  lemma SettleKeeps<R>(matches: R -> bool, start: nat, s: State<R>, t: State<R>)
    requires Inv(matches, start, s) && s.phase.Delivering?
    requires t.store == s.store && t.lastSeenIndex == s.lastSeenIndex && t.offered == s.offered && t.filtered == s.filtered
    requires t.direct == s.direct && t.direct <= t.published && t.published + t.failed == s.published + s.failed + 1
    ensures var t' := Advance(matches, t, s.phase.records, s.phase.i + 1); Inv(matches, start, t')
  {
    hide Matching;
    var i := s.phase.i;
    assert s.phase.records[i] == s.store[i];
    MatchingSnoc(matches, s.store, start, i);
    AdvanceKeeps(matches, start, t, s.phase.records, i + 1);
  }

  lemma StepKeeps<R>(matches: R -> bool, start: nat, s: State<R>, step: Step<R>)
    requires Inv(matches, start, s) && Enabled(s, step)
    ensures Inv(matches, start, Next(matches, s, step))
  {
    hide Matching, Advance;
    match step
    case Append(r) => AppendKeeps(matches, start, s, r);
    case QueryAnswered(length) =>
      AdvanceKeeps(matches, start, s.(storePolled := s.storePolled + 1), s.store[..length], s.lastSeenIndex);
    case Delivered(n) => SettleKeeps(matches, start, s, s.(published := s.published + 1, errors := s.errors + n));
    case DeliveryFailed => SettleKeeps(matches, start, s, s.(errors := s.errors + 1, failed := s.failed + 1));
    case _ =>
  }

  /** A run: each step is possible where it happens. */
  ghost predicate IsRun<R>(matches: R -> bool, states: seq<State<R>>, steps: seq<Step<R>>) {
    |states| == |steps| + 1
    && forall k :: 0 <= k < |steps| ==> Enabled(states[k], steps[k]) && states[k + 1] == Next(matches, states[k], steps[k])
  }

  lemma {:induction false} RunKeeps<R>(matches: R -> bool, states: seq<State<R>>, steps: seq<Step<R>>, n: nat)
    requires IsRun(matches, states, steps) && n < |states| && states[0] == Start(states[0].store)
    ensures Inv(matches, |states[0].store|, states[n])
    ensures states[0].store <= states[n].store
  {
    hide Matching, Enabled, Next, Inv;
    if n == 0 {
      StartsWell(matches, states[0].store);
    } else {
      RunKeeps(matches, states, steps, n - 1);
      StepKeeps(matches, |states[0].store|, states[n - 1], steps[n - 1]);
      StoreGrows(matches, states[n - 1], steps[n - 1]);
    }
  }

  lemma StartsWell<R>(matches: R -> bool, store: seq<R>)
    ensures Inv(matches, |store|, Start(store))
  {
    assert store[|store|..|store|] == [];
  }

  lemma {:induction false} AdvanceStore<R>(matches: R -> bool, s: State<R>, records: seq<R>, i: nat)
    ensures Advance(matches, s, records, i).store == s.store
    decreases |records| - i
  {
    if i < |records| && !matches(records[i]) { AdvanceStore(matches, s.(filtered := s.filtered + 1), records, i + 1); }
  }

  lemma StoreGrows<R>(matches: R -> bool, s: State<R>, step: Step<R>)
    requires Enabled(s, step)
    ensures s.store <= Next(matches, s, step).store
  {
    match step
    case QueryAnswered(length) => AdvanceStore(matches, s.(storePolled := s.storePolled + 1), s.store[..length], s.lastSeenIndex);
    case Delivered(n) =>
      AdvanceStore(matches, s.(published := s.published + 1, errors := s.errors + n), s.phase.records, s.phase.i + 1);
    case DeliveryFailed =>
      AdvanceStore(matches, s.(errors := s.errors + 1, failed := s.failed + 1), s.phase.records, s.phase.i + 1);
    case _ =>
  }

  /** What every interleaving delivers: the watcher offers the stream exactly the matching records
      appended after the start, in order and once each; and when no poll is in flight each position
      up to `lastSeenIndex` was counted once, as published, filtered or failed. */
  lemma WatcherDelivers<R>(matches: R -> bool, states: seq<State<R>>, steps: seq<Step<R>>, n: nat)
    requires IsRun(matches, states, steps) && n < |states| && states[0] == Start(states[0].store)
    ensures var start, s := |states[0].store|, states[n];
            && start <= Offered(s) <= |s.store|
            && s.offered == Matching(matches, s.store[start..Offered(s)])
            && (s.phase.Idle? ==>
                  && start <= s.lastSeenIndex && Offered(s) == s.lastSeenIndex
                  && s.published - s.direct + s.filtered + s.failed == s.lastSeenIndex - start
                  && s.published - s.direct + s.failed == |Matching(matches, s.store[start..s.lastSeenIndex])|)
  {
    hide Matching, Next, IsRun;
    RunKeeps(matches, states, steps, n);
  }

  /** Nothing is missed: when a poll ends without a failed query, everything that was in the store at
      its tick has been handled. */
  lemma PollCatchesUp<R>(matches: R -> bool, start: nat, s: State<R>, step: Step<R>)
    requires Inv(matches, start, s) && Enabled(s, step) && !s.phase.Idle? && step != QueryFailed
    requires Next(matches, s, step).phase.Idle?
    ensures Next(matches, s, step).lastSeenIndex >= if s.phase.Querying? then s.phase.since else |s.phase.records|
  {
    hide Matching;
    match step
    case QueryAnswered(length) =>
      AdvanceKeeps(matches, start, s.(storePolled := s.storePolled + 1), s.store[..length], s.lastSeenIndex);
    case Delivered(n) => AdvanceEnds(matches, s.(published := s.published + 1, errors := s.errors + n), s.phase.records, s.phase.i + 1);
    case DeliveryFailed => AdvanceEnds(matches, s.(errors := s.errors + 1, failed := s.failed + 1), s.phase.records, s.phase.i + 1);
    case _ =>
  }

  lemma {:induction false} AdvanceEnds<R>(matches: R -> bool, s: State<R>, records: seq<R>, i: nat)
    requires Advance(matches, s, records, i).phase.Idle? && i <= |records|
    requires !s.phase.Idle?
    ensures Advance(matches, s, records, i).lastSeenIndex == |records|
    decreases |records| - i
  {
    if i < |records| && !matches(records[i]) { AdvanceEnds(matches, s.(filtered := s.filtered + 1), records, i + 1); }
  }
}
