/** The code-mode executor of packages/aisdk/src/codemodeExecutor.ts. */
module Codemode {
  // Run the script, pause at the first unresolved tool call, resolve it, inject the result, and run again
  // from the top. A script is a resumption tree of awaited calls: given the replies so far it returns,
  // throws, or calls a tool. It is deterministic and does not catch the pause. The host's tools see
  // everything that was called before them, so they may have any state. JSON is a parameter with its law.

  import opened JsonValue
  import opened Canonical
  import opened RoundTrip
  import opened JsonParser

  /** What the script's `await` sees. */
  datatype Reply = Resolved(v: Value) | Rejected(msg: Text)

  /** A thrown value: an `Error` with its name and message, or something else, known by its `String(e)`. */
  datatype Thrown = ErrorOf(name: Text, message: Text) | Other(text: Text)

  /** `Error.prototype.toString`, or `String(e)`. */
  function StringOf(e: Thrown): Text {
    match e
    case ErrorOf(name, message) =>
      if message == [] then name else if name == [] then message else name + Lit(": ") + message
    case Other(text) => text
  }

  /** The kernel's `(e && e.message) || String(e)`: an empty message falls back. */
  function ScriptMessage(e: Thrown): Text {
    if e.ErrorOf? && e.message != [] then e.message else StringOf(e)
  }

  /** The host's `e.message ?? String(e)`: an empty message stays. */
  function ToolMessage(e: Thrown): Text {
    if e.ErrorOf? then e.message else StringOf(e)
  }

  datatype Next = Return(v: Js) | Throw(e: Thrown) | Call(name: Text, args: seq<Js>)

  /** The console output up to the next event, and that event. */
  datatype Segment = Segment(log: seq<Text>, next: Next)

  type Script = seq<Reply> -> Segment

  /** What the host's tool function does. */
  datatype Outcome = Returned(v: Js) | Threw(e: Thrown)

  datatype Invocation = Invocation(name: Text, args: seq<Value>)

  /** The flattened providers: which names exist, which take positional arguments, what they do. */
  datatype Tools = Tools(positional: Text -> Option<bool>, call: (seq<Invocation>, Text, seq<Value>) -> Outcome)

  datatype Json = Json(stringify: Value -> Text, parse: Text -> Option<Value>)

  /** `JSON.parse(JSON.stringify(v))`, on values JSON can print. */
  ghost predicate JsonLaw(j: Json) {
    forall v: Value :: WellFormed(v) && !v.Undefined? ==> j.parse(j.stringify(v)) == Some(Clean(v))
  }

  /** The project's own printer and parser satisfy the law. */
  lemma OwnJsonIsLawful()
    ensures JsonLaw(Json((v: Value) => Print(Clean(v)), (t: Text) => Parse(t)))
  {
    forall v: Value | WellFormed(v) ensures Parse(Print(Clean(v))) == Some(Clean(v)) { ParseStringify(v); }
    hide Parse, Print, Clean, WellFormed;
  }

  datatype Setup = Setup(script: Script, tools: Tools, json: Json)

  const MARKER := Lit("__CODEMODE_PENDING__:")
  const DONE := Lit("done")
  const RESULT := Lit("result")
  const ERROR := Lit("error")
  const PENDING := Lit("pending")
  const KEY := Lit("key")
  const NAME := Lit("name")
  const ARGS := Lit("args")
  const TOOL_ERROR := Lit("__codemode_tool_error__")
  const COLON: Unit := 58
  const OURS := Lit("createCodemodeExecutor: ")
  const NO_PAYLOAD := OURS + Lit("pause without pending call payload")

  function ReRequested(name: Text, key: Text): Text {
    OURS + Lit("call ") + name + Lit(" (") + key + Lit(") re-requested after resolution")
  }

  function UnknownTool(name: Text): Text { OURS + Lit("unknown tool \"") + name + Lit("\"") }

  // ----- call keys

  /** `dotted + ':' + __codemode_calls__.length`. */
  function KeyOf(name: Text, index: nat): Text { name + [COLON] + Digits(index) }

  lemma {:induction false} DigitsAreDigits(n: nat)
    ensures forall i :: 0 <= i < |Digits(n)| ==> IsDigit(Digits(n)[i])
  {
    if n >= 10 { DigitsAreDigits(n / 10); }
  }

  lemma DigitsInjective(m: nat, n: nat)
    requires Digits(m) == Digits(n)
    ensures m == n
  {
    assert Digits(m) + [] == Digits(m) && Digits(n) + [] == Digits(n);
    ReadNatBack(m, []);
    ReadNatBack(n, []);
  }

  lemma KeyShape(name: Text, i: nat)
    ensures var s := KeyOf(name, i);
            && |name| < |s| && s[|name|] == COLON && s[..|name|] == name && s[|name| + 1..] == Digits(i)
            && forall p :: |name| < p < |s| ==> s[p] != COLON
  {
    DigitsAreDigits(i);
    hide Digits;
    var s, x := KeyOf(name, i), Digits(i);
    assert s == (name + [COLON]) + x;
    assert s[|name| + 1..] == x;
    forall p | |name| < p < |s| ensures s[p] != COLON { assert s[p] == x[p - |name| - 1]; }
  }

  /** Keys of calls at different positions differ, whatever the names. */
  lemma KeyFixesIndex(a: Text, i: nat, b: Text, j: nat)
    requires KeyOf(a, i) == KeyOf(b, j)
    ensures i == j && a == b
  {
    KeyShape(a, i);
    KeyShape(b, j);
    hide Digits, KeyOf;
    assert |a| == |b|;
    DigitsInjective(i, j);
  }

  // ----- the kernel side

  datatype Recorded = Recorded(key: Text, name: Text, args: seq<Js>)

  /** Call `i` carries index `i` in its key. */
  predicate Keyed(calls: seq<Recorded>) {
    forall i :: 0 <= i < |calls| ==> calls[i].key == KeyOf(calls[i].name, i)
  }

  function CallKeys(calls: seq<Recorded>): set<Text> { set i | 0 <= i < |calls| :: calls[i].key }

  lemma FreshKey(calls: seq<Recorded>, name: Text)
    requires Keyed(calls)
    ensures KeyOf(name, |calls|) !in CallKeys(calls)
  {
    hide KeyOf;
    forall i | 0 <= i < |calls| ensures calls[i].key != KeyOf(name, |calls|) {
      if calls[i].key == KeyOf(name, |calls|) { KeyFixesIndex(calls[i].name, i, name, |calls|); }
    }
  }

  /** `String(x)` of a tool error that is not a string is not modelled beyond integers and booleans. */
  function ErrorText(v: Value): Text {
    match v
    case Str(s) => s
    case Num(n) => PrintInt(n)
    case Bool(b) => Lit(if b then "true" else "false")
    case _ => Lit("[object Object]")
  }

  /** What a leaf makes of an injected result. */
  function DecodeReply(j: Json, raw: Text): Reply {
    match j.parse(raw)
    case None => Resolved(Str(raw))
    case Some(p) =>
      if Truthy(p) && Truthy(Get(p, TOOL_ERROR)) then Rejected(ErrorText(Get(p, TOOL_ERROR))) else Resolved(p)
  }

  function DoneEnvelope(v: Js): Value {
    Obj([Entry(DONE, Bool(true)), Entry(RESULT, if v.Undefined? then Null else v)])
  }

  function ErrorEnvelope(msg: Text): Value { Obj([Entry(DONE, Bool(true)), Entry(ERROR, Str(msg))]) }

  function PendingCall(c: Option<Recorded>): Value {
    match c
    case None => Undefined
    case Some(r) => Obj([Entry(KEY, Str(r.key)), Entry(NAME, Str(r.name)), Entry(ARGS, Arr(r.args))])
  }

  function PendingEnvelope(c: Option<Recorded>): Value { Obj([Entry(DONE, Bool(false)), Entry(PENDING, PendingCall(c))]) }

  /** The first recorded call without a result; failing that the last call. */
  function FirstOpen(results: map<Text, Text>, calls: seq<Recorded>): Option<Recorded> {
    if calls == [] then None
    else if calls[0].key !in results then Some(calls[0])
    else FirstOpen(results, calls[1..])
  }

  function PendingOf(results: map<Text, Text>, calls: seq<Recorded>): Option<Recorded> {
    match FirstOpen(results, calls)
    case Some(c) => Some(c)
    case None => if calls == [] then None else Some(calls[|calls| - 1])
  }

  /** The catch block around the user code. */
  function Caught(j: Json, results: map<Text, Text>, calls: seq<Recorded>, msg: Text): Text {
    if MARKER <= msg then j.stringify(PendingEnvelope(PendingOf(results, calls))) else j.stringify(ErrorEnvelope(msg))
  }

  datatype RunEnd = RunEnd(envelope: Text, calls: seq<Recorded>, logs: seq<Text>)

  /** One run of the wrapped user code, from the point where `replies` have been received. */
  function RunFrom(x: Setup, results: map<Text, Text>, replies: seq<Reply>, calls: seq<Recorded>, logs: seq<Text>): RunEnd
    requires Keyed(calls)
    decreases results.Keys - CallKeys(calls)
  {
    var seg := x.script(replies);
    var out := logs + seg.log;
    match seg.next
    case Return(v) => RunEnd(x.json.stringify(DoneEnvelope(v)), calls, out)
    case Throw(e) => RunEnd(Caught(x.json, results, calls, ScriptMessage(e)), calls, out)
    case Call(name, args) =>
      var c := Recorded(KeyOf(name, |calls|), name, args);
      FreshKey(calls, name);
      assert c.key in CallKeys(calls + [c]) && CallKeys(calls) <= CallKeys(calls + [c]) by { CallKeysSnoc(calls, c); }
      if c.key in results then RunFrom(x, results, replies + [DecodeReply(x.json, results[c.key])], calls + [c], out)
      else RunEnd(Caught(x.json, results, calls + [c], MARKER + c.key), calls + [c], out)
  }

  lemma CallKeysSnoc(calls: seq<Recorded>, c: Recorded)
    ensures CallKeys(calls + [c]) == CallKeys(calls) + {c.key}
  {
    var all := calls + [c];
    assert all[|calls|] == c;
    assert forall i :: 0 <= i < |calls| ==> all[i] == calls[i];
  }

  /** The kernel's globals. */
  class Kernel {
    const setup: Setup
    var results: map<Text, Text>
    var calls: seq<Recorded>

    constructor (setup: Setup)
      ensures this.setup == setup && results == map[] && calls == []
    {
      this.setup, results, calls := setup, map[], [];
    }

    /** The run script: reset the recorded calls and execute the user code. */
    method Run() returns (envelope: Text, logs: seq<Text>)
      modifies this`calls
      ensures RunEnd(envelope, calls, logs) == RunFrom(setup, results, [], [], [])
    {
      hide KeyOf, Caught;
      calls := [];
      var replies: seq<Reply> := [];
      logs := [];
      while true
        invariant Keyed(calls)
        invariant RunFrom(setup, results, replies, calls, logs) == RunFrom(setup, results, [], [], [])
        decreases results.Keys - CallKeys(calls)
      {
        var seg := setup.script(replies);
        logs := logs + seg.log;
        match seg.next {
          case Return(v) =>
            return setup.json.stringify(DoneEnvelope(v)), logs;
          case Throw(e) =>
            return Caught(setup.json, results, calls, ScriptMessage(e)), logs;
          case Call(name, args) =>
            var c := Recorded(KeyOf(name, |calls|), name, args);
            FreshKey(calls, name);
            CallKeysSnoc(calls, c);
            calls := calls + [c];
            if c.key !in results { return Caught(setup.json, results, calls, MARKER + c.key), logs; }
            replies := replies + [DecodeReply(setup.json, results[c.key])];
        }
      }
    }

    /** The inject script. */
    method Inject(key: Text, resultStr: Text)
      modifies this`results
      ensures results == old(results)[key := resultStr]
    {
      results := results[key := resultStr];
    }
  }

  // ----- the host side

  /** The text injected for a tool's outcome. */
  function EncodeOutcome(j: Json, o: Outcome): Text {
    match o
    case Returned(v) => if v.Str? then v.s else j.stringify(if v.Undefined? then Null else v)
    case Threw(e) => j.stringify(Obj([Entry(TOOL_ERROR, Str(ToolMessage(e)))]))
  }

  /** Object-argument tools get the first argument only. */
  function CallArgs(positional: bool, argv: seq<Value>): seq<Value> {
    if positional then argv else [if argv == [] then Undefined else argv[0]]
  }

  function ArgList(args: Value): seq<Value> { if args.Arr? then args.elems else [args] }

  /** What `execute` will return as `result` and `error`. */
  datatype Verdict = Verdict(result: Value, error: Option<Text>)

  /** The loop's variables after some iterations, with the tool calls made and the runs started. */
  datatype Host = Host(results: map<Text, Text>, history: seq<Invocation>, logs: seq<Text>, runs: nat, verdict: Option<Verdict>)

  const START := Host(map[], [], [], 0, None)

  function Fail(h: Host, msg: Text): Host { h.(verdict := Some(Verdict(Undefined, Some(msg)))) }

  /** What the host does with one run's output. */
  function Handle(x: Setup, h: Host, envelope: Text): Host {
    match x.json.parse(envelope)
    case None => h.(verdict := Some(Verdict(Str(envelope), None)))
    case Some(p) =>
      if Truthy(Get(p, DONE)) then
        if Truthy(Get(p, ERROR)) then Fail(h, TextOf(Get(p, ERROR))) else h.(verdict := Some(Verdict(Get(p, RESULT), None)))
      else if !Truthy(Get(p, PENDING)) then Fail(h, NO_PAYLOAD)
      else
        var key, name := TextOf(Get(Get(p, PENDING), KEY)), TextOf(Get(Get(p, PENDING), NAME));
        if key in h.results then Fail(h, ReRequested(name, key))
        else match x.tools.positional(name)
          case None => Fail(h, UnknownTool(name))
          case Some(positional) => Resolve(x, h, key, name, CallArgs(positional, ArgList(Get(Get(p, PENDING), ARGS))))
  }

  function Resolve(x: Setup, h: Host, key: Text, name: Text, args: seq<Value>): Host {
    var o := x.tools.call(h.history, name, args);
    h.(results := h.results[key := EncodeOutcome(x.json, o)], history := h.history + [Invocation(name, args)])
  }

  function Iteration(x: Setup, h: Host): Host {
    var end := RunFrom(x, h.results, [], [], []);
    Handle(x, h.(logs := h.logs + end.logs, runs := h.runs + 1), end.envelope)
  }

  /** The loop after at most `n` iterations; it stops at a verdict. */
  function Iterate(x: Setup, n: nat): Host {
    if n == 0 then START
    else var h := Iterate(x, n - 1); if h.verdict.Some? then h else Iteration(x, h)
  }

  lemma {:induction false} VerdictStays(x: Setup, n: nat, m: nat)
    requires n <= m && Iterate(x, n).verdict.Some?
    ensures Iterate(x, m) == Iterate(x, n)
    decreases m
  {
    hide Iteration;
    if n < m { VerdictStays(x, n, m - 1); }
  }

  lemma IterateStart(x: Setup)
    ensures Iterate(x, 0) == START
  {
  }

  lemma IterateStep(x: Setup, n: nat)
    requires Iterate(x, n).verdict.None?
    ensures Iterate(x, n + 1) == Iteration(x, Iterate(x, n))
  {
    hide Iteration;
  }

  /** `execute`: neither a result nor an error when the iterations run out. */
  method Execute(x: Setup, maxIter: nat) returns (verdict: Option<Verdict>, logs: seq<Text>, history: seq<Invocation>)
    ensures var h := Iterate(x, maxIter); verdict == h.verdict && logs == h.logs && history == h.history
  {
    hide RunFrom, EncodeOutcome, ReRequested, UnknownTool, Get, Truthy, Iterate, Iteration, CallArgs, ArgList, TextOf;
    var kernel := new Kernel(x);
    var resolved: map<Text, Text> := map[];
    logs, history := [], [];
    ghost var host := START;
    IterateStart(x);
    for iter := 0 to maxIter
      invariant kernel.setup == x && kernel.results == resolved
      invariant host == Host(resolved, history, logs, iter, None) && host == Iterate(x, iter)
    {
      var rawOut, runLogs := kernel.Run();
      logs := logs + runLogs;
      ghost var ran := host.(logs := logs, runs := iter + 1);
      IterateStep(x, iter);
      IterationHandles(x, host, RunEnd(rawOut, kernel.calls, runLogs));
      host := Handle(x, ran, rawOut);
      if host.verdict.Some? { VerdictStays(x, iter + 1, maxIter); }
      var parsed := x.json.parse(rawOut);
      if parsed.None? { return Some(Verdict(Str(rawOut), None)), logs, history; }
      var p := parsed.value;
      if Truthy(Get(p, DONE)) {
        if Truthy(Get(p, ERROR)) { return Some(Verdict(Undefined, Some(TextOf(Get(p, ERROR))))), logs, history; }
        return Some(Verdict(Get(p, RESULT), None)), logs, history;
      }
      var pending := Get(p, PENDING);
      if !Truthy(pending) { return Some(Verdict(Undefined, Some(NO_PAYLOAD))), logs, history; }
      var key, name := TextOf(Get(pending, KEY)), TextOf(Get(pending, NAME));
      if key in resolved { return Some(Verdict(Undefined, Some(ReRequested(name, key)))), logs, history; }
      var target := x.tools.positional(name);
      if target.None? { return Some(Verdict(Undefined, Some(UnknownTool(name)))), logs, history; }
      var callArgs := CallArgs(target.value, ArgList(Get(pending, ARGS)));
      var outcome := x.tools.call(history, name, callArgs);
      history := history + [Invocation(name, callArgs)];
      var resultStr := EncodeOutcome(x.json, outcome);
      resolved := resolved[key := resultStr];
      kernel.Inject(key, resultStr);
    }
    return None, logs, history;
  }

  lemma IterationHandles(x: Setup, h: Host, end: RunEnd)
    requires end == RunFrom(x, h.results, [], [], [])
    ensures Iteration(x, h) == Handle(x, h.(logs := h.logs + end.logs, runs := h.runs + 1), end.envelope)
  {
    hide RunFrom, Handle;
  }
}
