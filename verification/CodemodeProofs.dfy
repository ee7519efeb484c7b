/** Replaying equals direct execution: the executor's answer, its tool calls and its logs, for every
    script, against an interpreter that runs the script once from start to end. */
module CodemodeProofs {
  import opened JsonValue
  import opened Canonical
  import opened RoundTrip
  import opened Codemode

  // ----- direct execution

  datatype Direct = Direct(replies: seq<Reply>, history: seq<Invocation>)

  /** The script, given these replies, calls a tool that exists. */
  predicate KnownCall(x: Setup, replies: seq<Reply>) {
    var next := x.script(replies).next; next.Call? && x.tools.positional(next.name).Some?
  }

  /** What the tool is called with: the recorded arguments as JSON keeps them. */
  function ToolArgs(x: Setup, replies: seq<Reply>): seq<Value>
    requires KnownCall(x, replies)
  {
    var next := x.script(replies).next;
    CallArgs(x.tools.positional(next.name).value, CleanElems(next.args))
  }

  function OutcomeOf(x: Setup, d: Direct): Outcome
    requires KnownCall(x, d.replies)
  {
    x.tools.call(d.history, x.script(d.replies).next.name, ToolArgs(x, d.replies))
  }

  /** Running the script directly through its first `k` calls: each call goes to its tool at once and
      the script goes on with the reply. */
  function DirectTo(x: Setup, reply: Outcome -> Reply, k: nat): Direct {
    if k == 0 then Direct([], [])
    else
      var d := DirectTo(x, reply, k - 1);
      if !KnownCall(x, d.replies) then d
      else Direct(d.replies + [reply(OutcomeOf(x, d))],
                  d.history + [Invocation(x.script(d.replies).next.name, ToolArgs(x, d.replies))])
  }

  /** The reply as it comes through inject and parse. */
  function Channel(j: Json): Outcome -> Reply { o => DecodeReply(j, EncodeOutcome(j, o)) }

  function At(x: Setup, k: nat): Direct { DirectTo(x, Channel(x.json), k) }

  function NextAt(x: Setup, k: nat): Next { x.script(At(x, k).replies).next }

  /** The script makes at least `n` calls. */
  ghost predicate MakesCalls(x: Setup, n: nat) { forall k :: 0 <= k < n ==> KnownCall(x, At(x, k).replies) }

  /** The script makes exactly `n` calls and then returns, throws or names an unknown tool. */
  ghost predicate EndsAfter(x: Setup, n: nat) { MakesCalls(x, n) && !KnownCall(x, At(x, n).replies) }

  /** What `execute` reports at the end of a script. */
  function Judge(x: Setup, n: nat): Verdict {
    match NextAt(x, n)
    case Return(v) => Verdict(if v.Undefined? then Null else Clean(v), None)
    case Call(name, _) => Verdict(Undefined, Some(UnknownTool(name)))
    case Throw(e) =>
      var msg := ScriptMessage(e);
      if !(MARKER <= msg) then Verdict(Undefined, if msg == [] then None else Some(msg))
      else if n == 0 then Verdict(Undefined, Some(NO_PAYLOAD))
      else var c := RecordAt(x, n - 1); Verdict(Undefined, Some(ReRequested(c.name, c.key)))
  }

  // ----- what the kernel holds when call `k` has been resolved

  function RecordAt(x: Setup, k: nat): Recorded {
    match NextAt(x, k)
    case Call(name, args) => Recorded(KeyOf(name, k), name, args)
    case _ => Recorded([], [], [])
  }

  function Records(x: Setup, k: nat): (r: seq<Recorded>)
    ensures |r| == k && forall i :: 0 <= i < k ==> r[i] == RecordAt(x, i)
  {
    if k == 0 then [] else Records(x, k - 1) + [RecordAt(x, k - 1)]
  }

  function ResultsAt(x: Setup, k: nat): map<Text, Text> {
    if k == 0 then map[]
    else if !KnownCall(x, At(x, k - 1).replies) then ResultsAt(x, k - 1)
    else ResultsAt(x, k - 1)[RecordAt(x, k - 1).key := EncodeOutcome(x.json, OutcomeOf(x, At(x, k - 1)))]
  }

  /** The console output of one run up to its call `k`. */
  function LogsTo(x: Setup, k: nat): seq<Text> {
    if k == 0 then [] else LogsTo(x, k - 1) + x.script(At(x, k - 1).replies).log
  }

  /** Every run repeats the output of the runs before it. */
  function AllLogs(x: Setup, runs: nat): seq<Text> {
    if runs == 0 then [] else AllLogs(x, runs - 1) + LogsTo(x, runs)
  }

  lemma RecordsKeyed(x: Setup, k: nat)
    requires MakesCalls(x, k)
    ensures Keyed(Records(x, k))
  {
    hide KeyOf, At;
    forall i | 0 <= i < k ensures Records(x, k)[i].key == KeyOf(Records(x, k)[i].name, i) {
      assert KnownCall(x, At(x, i).replies);
    }
  }

  /** The results are those of the calls so far, and no other. */
  lemma {:induction false} ResultsHold(x: Setup, k: nat, q: Text)
    requires MakesCalls(x, k)
    ensures forall j :: 0 <= j < k ==> RecordAt(x, j).key in ResultsAt(x, k)
    ensures forall j :: 0 <= j < k ==> ResultsAt(x, k)[RecordAt(x, j).key] == EncodeOutcome(x.json, OutcomeOf(x, At(x, j)))
    ensures q in ResultsAt(x, k) ==> exists j :: 0 <= j < k && RecordAt(x, j).key == q
  {
    hide At, EncodeOutcome, OutcomeOf, RecordAt;
    if k > 0 {
      assert KnownCall(x, At(x, k - 1).replies);
      ResultsHold(x, k - 1, q);
      forall j | 0 <= j < k - 1 ensures RecordAt(x, j).key != RecordAt(x, k - 1).key { KeysDiffer(x, j, k - 1); }
    }
  }

  lemma KeysDiffer(x: Setup, i: nat, j: nat)
    requires i < j && NextAt(x, i).Call? && NextAt(x, j).Call?
    ensures RecordAt(x, i).key != RecordAt(x, j).key
  {
    hide NextAt, KeyOf;
    if RecordAt(x, i).key == RecordAt(x, j).key { KeyFixesIndex(NextAt(x, i).name, i, NextAt(x, j).name, j); }
  }

  lemma NotYetResolved(x: Setup, k: nat)
    requires MakesCalls(x, k) && NextAt(x, k).Call?
    ensures RecordAt(x, k).key !in ResultsAt(x, k)
  {
    hide At, ResultsAt, RecordAt;
    ResultsHold(x, k, RecordAt(x, k).key);
    forall j | 0 <= j < k ensures RecordAt(x, j).key != RecordAt(x, k).key {
      assert KnownCall(x, At(x, j).replies);
      KeysDiffer(x, j, k);
    }
  }

  // ----- one run

  /** A rerun passes through one resolved call with the reply the direct run got. */
  lemma RunPasses(x: Setup, i: nat, k: nat)
    requires MakesCalls(x, i) && k < i
    ensures Keyed(Records(x, k)) && Keyed(Records(x, k + 1))
    ensures RunFrom(x, ResultsAt(x, i), At(x, k).replies, Records(x, k), LogsTo(x, k))
         == RunFrom(x, ResultsAt(x, i), At(x, k + 1).replies, Records(x, k + 1), LogsTo(x, k + 1))
  {
    hide KeyOf, EncodeOutcome, ResultsAt, RunFrom, At, LogsTo, Records, Keyed, RecordAt;
    RecordsPrefix(x, k, i);
    RecordsPrefix(x, k + 1, i);
    assert KnownCall(x, At(x, k).replies);
    ResultsHold(x, i, []);
    RunStep(x, ResultsAt(x, i), k);
  }

  /** A rerun passes through the resolved calls with the replies the direct run got. */
  lemma {:induction false} RunAligned(x: Setup, i: nat, k: nat)
    requires MakesCalls(x, i) && k <= i
    ensures Keyed(Records(x, k)) && Keyed(Records(x, i))
    ensures RunFrom(x, ResultsAt(x, i), At(x, k).replies, Records(x, k), LogsTo(x, k))
         == RunFrom(x, ResultsAt(x, i), At(x, i).replies, Records(x, i), LogsTo(x, i))
    decreases i - k
  {
    hide KeyOf, ResultsAt, RunFrom, At, LogsTo, Records, Keyed, MakesCalls;
    if k < i {
      RunPasses(x, i, k);
      RunAligned(x, i, k + 1);
    } else {
      RecordsPrefix(x, i, i);
    }
  }

  lemma RecordsPrefix(x: Setup, k: nat, i: nat)
    requires k <= i && MakesCalls(x, i)
    ensures Keyed(Records(x, k))
  {
    RecordsKeyed(x, k);
  }

  lemma AtStep(x: Setup, k: nat)
    requires KnownCall(x, At(x, k).replies)
    ensures At(x, k + 1).replies == At(x, k).replies + [DecodeReply(x.json, EncodeOutcome(x.json, OutcomeOf(x, At(x, k))))]
    ensures At(x, k + 1).history == At(x, k).history + [Invocation(NextAt(x, k).name, ToolArgs(x, At(x, k).replies))]
    ensures Records(x, k + 1) == Records(x, k) + [RecordAt(x, k)]
    ensures LogsTo(x, k + 1) == LogsTo(x, k) + x.script(At(x, k).replies).log
    ensures ResultsAt(x, k + 1) == ResultsAt(x, k)[RecordAt(x, k).key := EncodeOutcome(x.json, OutcomeOf(x, At(x, k)))]
  {
    hide DecodeReply, EncodeOutcome, KeyOf;
  }

  lemma RunStep(x: Setup, results: map<Text, Text>, k: nat)
    requires KnownCall(x, At(x, k).replies) && Keyed(Records(x, k)) && Keyed(Records(x, k + 1))
    requires RecordAt(x, k).key in results
    requires results[RecordAt(x, k).key] == EncodeOutcome(x.json, OutcomeOf(x, At(x, k)))
    ensures RunFrom(x, results, At(x, k).replies, Records(x, k), LogsTo(x, k))
         == RunFrom(x, results, At(x, k + 1).replies, Records(x, k + 1), LogsTo(x, k + 1))
  {
    AtStep(x, k);
    hide DecodeReply, EncodeOutcome, KeyOf, At, Records, LogsTo, Keyed;
  }

  lemma {:induction false} AllResolved(results: map<Text, Text>, calls: seq<Recorded>)
    requires forall i :: 0 <= i < |calls| ==> calls[i].key in results
    ensures FirstOpen(results, calls) == None
  {
    if calls != [] { AllResolved(results, calls[1..]); }
  }

  lemma {:induction false} LastOpen(results: map<Text, Text>, calls: seq<Recorded>, c: Recorded)
    requires forall i :: 0 <= i < |calls| ==> calls[i].key in results
    requires c.key !in results
    ensures FirstOpen(results, calls + [c]) == Some(c)
  {
    if calls != [] {
      assert (calls + [c])[1..] == calls[1..] + [c];
      LastOpen(results, calls[1..], c);
    }
  }

  /** With the first `i` calls resolved, a run pauses at call `i` and reports that call. */
  lemma RunPauses(x: Setup, i: nat)
    requires MakesCalls(x, i) && NextAt(x, i).Call?
    ensures var end := RunFrom(x, ResultsAt(x, i), [], [], []);
            end.envelope == x.json.stringify(PendingEnvelope(Some(RecordAt(x, i)))) && end.logs == LogsTo(x, i + 1)
  {
    RunAligned(x, i, 0);
    NotYetResolved(x, i);
    ResultsHold(x, i, []);
    hide KeyOf, ResultsAt, PendingEnvelope, Caught, Lit;
    CaughtPause(x.json, ResultsAt(x, i), Records(x, i), RecordAt(x, i));
    hide At, MakesCalls;
  }

  /** The catch block reports the one call without a result. */
  lemma CaughtPause(j: Json, results: map<Text, Text>, calls: seq<Recorded>, c: Recorded)
    requires (forall i :: 0 <= i < |calls| ==> calls[i].key in results) && c.key !in results
    ensures Caught(j, results, calls + [c], MARKER + c.key) == j.stringify(PendingEnvelope(Some(c)))
  {
    LastOpen(results, calls, c);
    assert MARKER <= MARKER + c.key;
    hide Lit;
  }

  /** With all calls resolved, a run ends as the script does. */
  lemma RunEnds(x: Setup, n: nat)
    requires MakesCalls(x, n) && !NextAt(x, n).Call?
    ensures var end := RunFrom(x, ResultsAt(x, n), [], [], []);
            && end.logs == LogsTo(x, n + 1)
            && (NextAt(x, n).Return? ==> end.envelope == x.json.stringify(DoneEnvelope(NextAt(x, n).v)))
            && (NextAt(x, n).Throw? ==> end.envelope == Caught(x.json, ResultsAt(x, n), Records(x, n), ScriptMessage(NextAt(x, n).e)))
  {
    hide KeyOf, ResultsAt, DoneEnvelope, Caught, ScriptMessage;
    RunAligned(x, n, 0);
    hide At, Lit;
  }

  // ----- the host's reading of the envelopes

  lemma EnvelopeNamesApart()
    ensures DONE != RESULT && DONE != ERROR && DONE != PENDING && RESULT != ERROR && RESULT != PENDING && ERROR != PENDING
    ensures KEY != NAME && KEY != ARGS && NAME != ARGS
  {
    assert |DONE| == 4 && |RESULT| == 6 && |ERROR| == 5 && |PENDING| == 7 && |KEY| == 3 && |NAME| == 4 && |ARGS| == 4;
    assert NAME[0] != ARGS[0];
  }

  /** A two-member object through JSON. */
  lemma TwoThroughJson(j: Json, a: Text, v: Value, b: Text, w: Value, q: Text)
    requires JsonLaw(j) && a != b && WellFormed(v) && WellFormed(w)
    ensures var o := Obj([Entry(a, v), Entry(b, w)]);
            var p := j.parse(j.stringify(o));
            && p == Some(Clean(o)) && Truthy(p.value)
            && Get(p.value, a) == (if v.Undefined? then Undefined else Clean(v))
            && Get(p.value, b) == (if w.Undefined? then Undefined else Clean(w))
            && (q != a && q != b ==> Get(p.value, q) == Undefined)
  {
    hide JsonLaw, Clean, Find, Get;
    TwoMembers(a, v, b, w, q);
    var o := Obj([Entry(a, v), Entry(b, w)]);
    ThroughJson(j, o);
    GetClean(o, a);
    GetClean(o, b);
    GetClean(o, q);
    ObjectStays(o);
  }

  lemma ThroughJson(j: Json, v: Value)
    requires JsonLaw(j) && WellFormed(v) && !v.Undefined?
    ensures j.parse(j.stringify(v)) == Some(Clean(v))
  {
    hide Clean, WellFormed;
  }

  lemma ObjectStays(v: Value)
    requires v.Obj?
    ensures Clean(v).Obj? && Truthy(Clean(v))
  {
  }

  lemma TwoMembers(a: Text, v: Value, b: Text, w: Value, q: Text)
    requires a != b && WellFormed(v) && WellFormed(w)
    ensures var o := Obj([Entry(a, v), Entry(b, w)]);
            WellFormed(o) && Get(o, a) == v && Get(o, b) == w && (q != a && q != b ==> Get(o, q) == Undefined)
  {
    var ms := [Entry(a, v), Entry(b, w)];
    assert Keys(ms) == [a, b];
    FindAt(ms, 0);
    FindAt(ms, 1);
    assert q != a && q != b ==> Find(ms, q) == None;
    hide Find;
  }

  lemma ScalarsClean(b: bool, t: Text)
    ensures Clean(Bool(b)) == Bool(b) && Clean(Str(t)) == Str(t) && Clean(Null) == Null && WellFormed(Bool(b)) && WellFormed(Str(t)) && WellFormed(Null)
  {
  }

  lemma HandlesReturn(x: Setup, h: Host, v: Js)
    requires JsonLaw(x.json)
    ensures Handle(x, h, x.json.stringify(DoneEnvelope(v)))
         == h.(verdict := Some(Verdict(if v.Undefined? then Null else Clean(v), None)))
  {
    EnvelopeNamesApart();
    ScalarsClean(true, []);
    hide JsonLaw, Clean, WellFormed, Get, Lit;
    TwoThroughJson(x.json, DONE, Bool(true), RESULT, if v.Undefined? then Null else v, ERROR);
  }

  lemma HandlesError(x: Setup, h: Host, msg: Text)
    requires JsonLaw(x.json)
    ensures Handle(x, h, x.json.stringify(ErrorEnvelope(msg)))
         == h.(verdict := Some(Verdict(Undefined, if msg == [] then None else Some(msg))))
  {
    EnvelopeNamesApart();
    ScalarsClean(true, msg);
    hide JsonLaw, Clean, WellFormed, Get, Lit;
    TwoThroughJson(x.json, DONE, Bool(true), ERROR, Str(msg), RESULT);
  }

  lemma HandlesNoCall(x: Setup, h: Host)
    requires JsonLaw(x.json)
    ensures Handle(x, h, x.json.stringify(PendingEnvelope(None))) == Fail(h, NO_PAYLOAD)
  {
    EnvelopeNamesApart();
    ScalarsClean(false, []);
    hide JsonLaw, Clean, Get, Lit;
    TwoThroughJson(x.json, DONE, Bool(false), PENDING, Undefined, ERROR);
  }

  /** A pending call comes through JSON with its key, its name and its cleaned arguments. */
  lemma PendingParts(c: Recorded)
    ensures var p := PendingCall(Some(c));
            && WellFormed(p) && !p.Undefined? && Truthy(Clean(p))
            && Get(Clean(p), KEY) == Str(c.key) && Get(Clean(p), NAME) == Str(c.name)
            && Get(Clean(p), ARGS) == Arr(CleanElems(c.args))
  {
    EnvelopeNamesApart();
    var p := PendingCall(Some(c));
    ArgsWellFormed(c.args);
    ScalarsClean(true, c.key);
    ScalarsClean(true, c.name);
    ArrayCleans(c.args);
    hide Lit, Get, Find, WellFormed, Clean, CleanElems;
    ThreeMembers(KEY, Str(c.key), NAME, Str(c.name), ARGS, Arr(c.args));
    GetClean(p, KEY);
    GetClean(p, NAME);
    GetClean(p, ARGS);
    ObjectStays(p);
  }

  lemma ArgsWellFormed(args: seq<Js>)
    ensures WellFormed(Arr(args))
  {
  }

  lemma ArrayCleans(vs: seq<Value>)
    ensures Clean(Arr(vs)) == Arr(CleanElems(vs))
  {
  }

  lemma HandlesPending(x: Setup, h: Host, c: Recorded)
    requires JsonLaw(x.json)
    ensures Handle(x, h, x.json.stringify(PendingEnvelope(Some(c)))) ==
            if c.key in h.results then Fail(h, ReRequested(c.name, c.key))
            else if x.tools.positional(c.name).None? then Fail(h, UnknownTool(c.name))
            else Resolve(x, h, c.key, c.name, CallArgs(x.tools.positional(c.name).value, CleanElems(c.args)))
  {
    EnvelopeNamesApart();
    PendingParts(c);
    ScalarsClean(false, []);
    hide JsonLaw, Clean, Get, Lit, WellFormed, PendingCall, CallArgs, Resolve, ReRequested, UnknownTool;
    TwoThroughJson(x.json, DONE, Bool(false), PENDING, PendingCall(Some(c)), ERROR);
  }

  // ----- the whole loop

  /** While the script keeps calling, each iteration makes exactly its next call. */
  lemma {:induction false} IterationsCall(x: Setup, i: nat)
    requires JsonLaw(x.json) && MakesCalls(x, i)
    ensures Iterate(x, i) == Host(ResultsAt(x, i), At(x, i).history, AllLogs(x, i), i, None)
    ensures |At(x, i).history| == i
  {
    hide JsonLaw, At, ResultsAt, Iterate, KnownCall;
    if i == 0 {
      NothingCalled(x);
    } else {
      assert KnownCall(x, At(x, i - 1).replies);
      IterationsCall(x, i - 1);
      CallHandled(x, i - 1);
      hide MakesCalls, AllLogs;
      AtStep(x, i - 1);
    }
  }

  lemma NothingCalled(x: Setup)
    ensures Iterate(x, 0) == Host(ResultsAt(x, 0), At(x, 0).history, AllLogs(x, 0), 0, None) && At(x, 0).history == []
  {
  }

  /** The iteration after `i` resolved calls resolves call `i`. */
  lemma CallHandled(x: Setup, i: nat)
    requires JsonLaw(x.json) && MakesCalls(x, i) && KnownCall(x, At(x, i).replies)
    requires Iterate(x, i) == Host(ResultsAt(x, i), At(x, i).history, AllLogs(x, i), i, None)
    ensures Iterate(x, i + 1) == Host(ResultsAt(x, i + 1), At(x, i + 1).history, AllLogs(x, i + 1), i + 1, None)
  {
    hide JsonLaw, At, ResultsAt, Iterate, RunFrom, Handle, PendingEnvelope, KeyOf, EncodeOutcome, CleanElems, CallArgs, LogsTo, AllLogs;
    NotYetResolved(x, i);
    RunPauses(x, i);
    OneMore(x, i);
    hide MakesCalls;
    HandlesPending(x, Host(ResultsAt(x, i), At(x, i).history, AllLogs(x, i + 1), i + 1, None), RecordAt(x, i));
    AtStep(x, i);
  }

  /** An iteration is the run's logs followed by the handling of its envelope. */
  lemma OneMore(x: Setup, i: nat)
    requires Iterate(x, i) == Host(ResultsAt(x, i), At(x, i).history, AllLogs(x, i), i, None)
    requires RunFrom(x, ResultsAt(x, i), [], [], []).logs == LogsTo(x, i + 1)
    ensures Iterate(x, i + 1) == Handle(x, Host(ResultsAt(x, i), At(x, i).history, AllLogs(x, i + 1), i + 1, None),
                                        RunFrom(x, ResultsAt(x, i), [], [], []).envelope)
  {
    hide RunFrom, Handle, At, ResultsAt, LogsTo;
  }

  lemma {:induction false} LastIteration(x: Setup, n: nat)
    requires JsonLaw(x.json) && EndsAfter(x, n)
    ensures Iterate(x, n + 1) == Host(ResultsAt(x, n), At(x, n).history, AllLogs(x, n + 1), n + 1, Some(Judge(x, n)))
  {
    IterationsCall(x, n);
    hide JsonLaw, At, ResultsAt, RunFrom, Handle, LogsTo, AllLogs, KeyOf, DoneEnvelope, ErrorEnvelope, PendingEnvelope, Iterate,
         Lit, Clean, ReRequested, UnknownTool;
    var h := Host(ResultsAt(x, n), At(x, n).history, AllLogs(x, n + 1), n + 1, None);
    match NextAt(x, n)
    case Return(v) =>
      RunEnds(x, n);
      HandlesReturn(x, h, v);
      OneMore(x, n);
    case Throw(e) =>
      RunEnds(x, n);
      HandlesThrow(x, h, n, e);
      OneMore(x, n);
    case Call(name, _) =>
      RunPauses(x, n);
      NotYetResolved(x, n);
      HandlesPending(x, h, RecordAt(x, n));
      OneMore(x, n);
  }

  lemma HandlesThrow(x: Setup, h: Host, n: nat, e: Thrown)
    requires JsonLaw(x.json) && MakesCalls(x, n) && h.results == ResultsAt(x, n) && NextAt(x, n) == Throw(e) && h.verdict.None?
    ensures Handle(x, h, Caught(x.json, ResultsAt(x, n), Records(x, n), ScriptMessage(e))) == h.(verdict := Some(Judge(x, n)))
  {
    hide JsonLaw, At, ResultsAt, Handle, ErrorEnvelope, PendingEnvelope, KeyOf, ReRequested, Lit, RecordAt, ScriptMessage;
    HandlesError(x, h, ScriptMessage(e));
    HandlesNoCall(x, h);
    ResultsHold(x, n, []);
    AllResolved(ResultsAt(x, n), Records(x, n));
    if n > 0 {
      assert Records(x, n)[n - 1] == RecordAt(x, n - 1);
      HandlesPending(x, h, RecordAt(x, n - 1));
    }
    hide NextAt, Records;
  }

  /** The theorem about the executor: a script that makes `n` calls, fewer than the iteration limit,
      gets the verdict of running it directly; the user code runs `n + 1` times, and each tool call is
      made exactly once, in program order, with the direct run's arguments. */
  lemma ReplayEqualsDirect(x: Setup, n: nat, maxIter: nat)
    requires JsonLaw(x.json) && EndsAfter(x, n) && n < maxIter
    ensures var h := Iterate(x, maxIter);
            && h.verdict == Some(Judge(x, n)) && h.runs == n + 1
            && h.history == At(x, n).history && |h.history| == n
            && h.logs == AllLogs(x, n + 1)
  {
    hide At, ResultsAt, Iterate, Judge, AllLogs;
    IterationsCall(x, n);
    LastIteration(x, n);
    VerdictStays(x, n + 1, maxIter);
  }

  /** With the limit at or below the number of calls, exactly that many calls are made and neither a
      result nor an error is returned. */
  lemma BudgetRunsOut(x: Setup, maxIter: nat)
    requires JsonLaw(x.json) && MakesCalls(x, maxIter)
    ensures var h := Iterate(x, maxIter);
            && h.verdict == None && h.runs == maxIter
            && h.history == At(x, maxIter).history && |h.history| == maxIter
  {
    IterationsCall(x, maxIter);
  }

  // ----- when the channel and the report lose nothing

  /** The reply an unmediated `await` would give. */
  function IdealReply(o: Outcome): Reply {
    match o
    case Returned(v) => Resolved(if v.Undefined? then Null else Clean(v))
    case Threw(e) => Rejected(ToolMessage(e))
  }

  /** The outcomes the channel carries faithfully: strings that are not JSON text, other values
      without an error marker, and errors with a message. */
  predicate CarriesWell(j: Json, o: Outcome) {
    match o
    case Returned(v) =>
      if v.Str? then j.parse(v.s) == None || j.parse(v.s) == Some(v) else !Truthy(Get(Clean(v), TOOL_ERROR))
    case Threw(e) => ToolMessage(e) != []
  }

  lemma ChannelIsFaithfulIff(j: Json, o: Outcome)
    requires JsonLaw(j)
    ensures DecodeReply(j, EncodeOutcome(j, o)) == IdealReply(o) <==> CarriesWell(j, o)
  {
    match o
    case Returned(v) =>
      if !v.Str? {
        CleanOf(v);
        NullClean();
        hide Clean, WellFormed, Find;
        assert j.parse(j.stringify(if v.Undefined? then Null else v)) == Some(if v.Undefined? then Null else Clean(v));
        assert !Truthy(Clean(v)) ==> Get(Clean(v), TOOL_ERROR) == Undefined;
      }
    case Threw(e) =>
      OneThroughJson(j, TOOL_ERROR, ToolMessage(e));
  }

  lemma NullClean()
    ensures Clean(Null) == Null && WellFormed(Null)
  {
  }

  lemma CleanOf(v: Value)
    ensures v.Undefined? ==> Clean(v) == Null
    ensures Clean(v).Obj? <==> v.Obj?
    ensures Clean(v).Arr? <==> v.Arr?
  {
  }

  lemma OneThroughJson(j: Json, k: Text, t: Text)
    requires JsonLaw(j)
    ensures var p := j.parse(j.stringify(Obj([Entry(k, Str(t))])));
            p.Some? && p.value.Obj? && Get(p.value, k) == Str(t)
  {
    var ms := [Entry(k, Str(t))];
    assert Keys(ms) == [k];
    FindAt(ms, 0);
    GetClean(Obj(ms), k);
    ScalarsClean(true, t);
  }

  ghost predicate AllCarried(x: Setup, n: nat) {
    forall k :: 0 <= k < n && KnownCall(x, DirectTo(x, IdealReply, k).replies) ==>
      CarriesWell(x.json, OutcomeOf(x, DirectTo(x, IdealReply, k)))
  }

  /** When every outcome is carried well, the replay sees what an unmediated run sees. */
  lemma {:induction false} ReplayIsIdeal(x: Setup, n: nat)
    requires JsonLaw(x.json) && AllCarried(x, n)
    ensures At(x, n) == DirectTo(x, IdealReply, n)
  {
    hide DecodeReply, EncodeOutcome, CarriesWell, JsonLaw, ToolArgs;
    if n > 0 {
      ReplayIsIdeal(x, n - 1);
      var d := At(x, n - 1);
      if KnownCall(x, d.replies) { ChannelIsFaithfulIff(x.json, OutcomeOf(x, d)); }
    }
  }

  /** What a caller of the script itself would get. */
  function PlainVerdict(next: Next): Verdict {
    match next
    case Return(v) => Verdict(if v.Undefined? then Null else Clean(v), None)
    case Throw(e) => Verdict(Undefined, Some(ScriptMessage(e)))
    case Call(name, _) => Verdict(Undefined, Some(UnknownTool(name)))
  }

  lemma OwnErrorsAreNotMarked(name: Text, key: Text)
    ensures !(MARKER <= NO_PAYLOAD) && !(MARKER <= ReRequested(name, key))
  {
    assert |MARKER| == 21 && |OURS| == 24 && MARKER[0] == 95 && OURS[0] == 99;
    hide Lit;
    assert NO_PAYLOAD[0] == OURS[0] && ReRequested(name, key)[0] == OURS[0];
  }

  /** A script's own error is reported as it is exactly when its text is not empty and does not start
      with the pause marker; in the other cases the error is lost or replaced. */
  lemma ReportIsPlainIff(x: Setup, n: nat)
    ensures Judge(x, n) == PlainVerdict(NextAt(x, n)) <==>
            (NextAt(x, n).Throw? ==> ScriptMessage(NextAt(x, n).e) != [] && !(MARKER <= ScriptMessage(NextAt(x, n).e)))
  {
    hide Lit, NextAt, Clean, ReRequested, RecordAt, ScriptMessage;
    if n > 0 { OwnErrorsAreNotMarked(RecordAt(x, n - 1).name, RecordAt(x, n - 1).key); }
    OwnErrorsAreNotMarked([], []);
  }

  /** The text of a thrown error is empty only for an error without name and message, and for other
      values whose text is empty: `new Error("")` is reported by its name. */
  lemma EmptyTextIff(e: Thrown)
    ensures ScriptMessage(e) == [] <==> e == ErrorOf([], []) || e == Other([])
    ensures ScriptMessage(ErrorOf(Lit("Error"), [])) == Lit("Error")
  {
  }

  /** A script that throws at once: its text is the error, unless it is empty, which leaves neither
      result nor error, or starts with the marker, which gives the executor's own message. */
  lemma ThrownAtOnce(x: Setup, e: Thrown, maxIter: nat)
    requires JsonLaw(x.json) && x.script([]).next == Throw(e) && 0 < maxIter
    ensures Iterate(x, maxIter).verdict ==
            Some(Verdict(Undefined, if ScriptMessage(e) == [] then None
                                    else if MARKER <= ScriptMessage(e) then Some(NO_PAYLOAD)
                                    else Some(ScriptMessage(e))))
  {
    hide JsonLaw, Iterate, ScriptMessage, Lit;
    assert At(x, 0) == Direct([], []);
    ReplayEqualsDirect(x, 0, maxIter);
    assert |MARKER| == 21;
  }

  /** The channel's losses: a tool error with an empty message arrives as a result, and a string that
      is the JSON text of another value arrives as that value. */
  lemma ChannelLosses(j: Json, name: Text, n: int)
    requires JsonLaw(j)
    ensures DecodeReply(j, EncodeOutcome(j, Threw(ErrorOf(name, [])))) == Resolved(Obj([Entry(TOOL_ERROR, Str([]))]))
    ensures DecodeReply(j, EncodeOutcome(j, Returned(Str(j.stringify(Num(n)))))) == Resolved(Num(n))
  {
    var ms := [Entry(TOOL_ERROR, Str([]))];
    assert Keys(ms) == [TOOL_ERROR] && CleanMembers(ms[1..]) == [];
    assert CleanMembers(ms) == ms;
    assert WellFormed(Obj(ms));
    FindAt(ms, 0);
    assert Clean(Num(n)) == Num(n) && WellFormed(Num(n));
  }
}
