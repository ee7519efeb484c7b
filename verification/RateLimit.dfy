/** The sliding-window rate limiter (packages/cloudflare-worker/src/rateLimit.ts:44-124). */
module RateLimit {
  // Times are integer milliseconds. Calls are sequential: the store's get and put are not atomic in the
  // source. A stored array stands for its numeric elements, the only ones the code keeps.

  /** What `backend.get` finds: nothing, a value that is not a JSON array, or an array. */
  datatype Stored = Absent | Corrupt | Stamps(ts: seq<int>)

  datatype RateLimitCheck = RateLimitCheck(allowed: bool, retryAtMs: int, remaining: int)

  /** `filter(t => t > cutoff)`, in order. */
  function Recent(ts: seq<int>, cutoff: int): (r: seq<int>)
    ensures |r| <= |ts| && forall t :: t in r <==> t in ts && t > cutoff
  {
    if ts == [] then []
    else
      var rest := Recent(ts[1..], cutoff);
      assert forall t :: t in ts <==> t == ts[0] || t in ts[1..];
      if ts[0] > cutoff then [ts[0]] + rest else rest
  }

  predicate Ascending(ts: seq<int>) { forall i, j :: 0 <= i < j < |ts| ==> ts[i] <= ts[j] }

  function Insert(t: int, ts: seq<int>): seq<int> {
    if ts == [] || t <= ts[0] then [t] + ts else [ts[0]] + Insert(t, ts[1..])
  }

  /** `sort((a, b) => a - b)` */
  function Sort(ts: seq<int>): seq<int> { if ts == [] then [] else Insert(ts[0], Sort(ts[1..])) }

  function Max(a: int, b: int): int { if a >= b then a else b }

  /** `Math.ceil(ms / 1000)` */
  function CeilSeconds(ms: int): (s: int)
    ensures 1000 * s - 1000 < ms <= 1000 * s
  {
    -((-ms) / 1000)
  }

  /** The key's time to live, in seconds. */
  function Ttl(windowMs: int): int { Max(60, CeilSeconds(windowMs) + 5) }

  /** The stored requests in the window that ends at `now`. */
  function Window(windowMs: int, stored: Stored, now: int): seq<int> {
    match stored
    case Stamps(ts) => Recent(ts, now - windowMs)
    case _ => []
  }

  /** `checkRateLimit` at time `now`: the answer, and what the store holds afterwards. */
  function Check(rpm: int, windowMs: int, stored: Stored, now: int): (RateLimitCheck, Stored) {
    if stored.Corrupt? then (RateLimitCheck(false, now + windowMs, 0), stored)
    else
      var kept := Sort(Window(windowMs, stored, now));
      if |kept| >= rpm then (RateLimitCheck(false, Earliest(kept, now) + windowMs, 0), stored)
      else (RateLimitCheck(true, now, Max(0, rpm - (|kept| + 1))), Stamps(kept + [now]))
  }

  /** `timestamps[0] ?? now` */
  function Earliest(kept: seq<int>, now: int): int { if kept == [] then now else kept[0] }

  /** The header's value when the response is built at time `now`. */
  function RetryAfterSeconds(check: RateLimitCheck, now: int): int { Max(1, CeilSeconds(check.retryAtMs - now)) }

  class Backend {
    var value: Stored
    var expirationTtl: int
    var putAt: int

    constructor ()
      ensures value == Absent
    {
      value, expirationTtl, putAt := Absent, 0, 0;
    }

    method CheckRateLimit(rpm: int, windowMs: int, now: int) returns (r: RateLimitCheck)
      modifies this
      ensures (r, value) == Check(rpm, windowMs, old(value), now)
      ensures if r.allowed then putAt == now && expirationTtl == Ttl(windowMs)
              else putAt == old(putAt) && expirationTtl == old(expirationTtl)
    {
      var cutoff := now - windowMs;
      if value.Corrupt? { return RateLimitCheck(false, now + windowMs, 0); }
      var timestamps: seq<int> := [];
      if value.Stamps? {
        timestamps := Recent(value.ts, cutoff);
        timestamps := Sort(timestamps);
      }
      if |timestamps| >= rpm {
        return RateLimitCheck(false, Earliest(timestamps, now) + windowMs, 0);
      }
      timestamps := timestamps + [now];
      value, expirationTtl, putAt := Stamps(timestamps), Ttl(windowMs), now;
      return RateLimitCheck(true, now, Max(0, rpm - |timestamps|));
    }
  }

  // ----- windows

  lemma {:induction false} RecentSnoc(ts: seq<int>, t: int, cutoff: int)
    ensures Recent(ts + [t], cutoff) == Recent(ts, cutoff) + if t > cutoff then [t] else []
  {
    if ts == [] {
      assert [t][1..] == [];
    } else {
      assert (ts + [t])[1..] == ts[1..] + [t];
      RecentSnoc(ts[1..], t, cutoff);
    }
  }

  /** Narrowing a window in two steps. */
  lemma {:induction false} RecentRecent(ts: seq<int>, early: int, late: int)
    requires early <= late
    ensures Recent(Recent(ts, early), late) == Recent(ts, late)
  {
    if ts != [] {
      RecentRecent(ts[1..], early, late);
      if ts[0] > early { assert Recent(ts, early)[1..] == Recent(ts[1..], early); }
    }
  }

  lemma {:induction false} RecentSame(ts: seq<int>, early: int, late: int)
    requires early <= late && forall t :: t in ts && t > early ==> t > late
    ensures Recent(ts, late) == Recent(ts, early)
  {
    if ts != [] {
      assert ts[0] in ts && forall t :: t in ts[1..] ==> t in ts;
      RecentSame(ts[1..], early, late);
    }
  }

  lemma {:induction false} RecentShrinks(ts: seq<int>, early: int, late: int)
    requires early <= late
    ensures |Recent(ts, late)| <= |Recent(ts, early)|
  {
    if ts != [] { RecentShrinks(ts[1..], early, late); }
  }

  lemma {:induction false} RecentLoses(ts: seq<int>, early: int, late: int, t: int)
    requires early < t <= late && t in ts
    ensures |Recent(ts, late)| < |Recent(ts, early)|
  {
    if ts[0] == t {
      RecentShrinks(ts[1..], early, late);
    } else {
      RecentLoses(ts[1..], early, late, t);
    }
  }

  lemma {:induction false} RecentAscending(ts: seq<int>, cutoff: int)
    requires Ascending(ts)
    ensures Ascending(Recent(ts, cutoff))
  {
    if ts != [] {
      assert forall i, j :: 0 <= i < j < |ts| - 1 ==> ts[1..][i] <= ts[1..][j];
      RecentAscending(ts[1..], cutoff);
      var rest := Recent(ts[1..], cutoff);
      forall i | 0 <= i < |rest| ensures ts[0] <= rest[i] {
        assert rest[i] in ts[1..];
        var k :| 0 <= k < |ts| - 1 && ts[1..][k] == rest[i];
        assert ts[0] <= ts[k + 1];
      }
    }
  }

  // ----- sorting

  lemma {:induction false} InsertKeeps(t: int, ts: seq<int>)
    ensures multiset(Insert(t, ts)) == multiset(ts) + multiset{t} && |Insert(t, ts)| == |ts| + 1
    ensures forall x :: x in Insert(t, ts) <==> x == t || x in ts
  {
    if ts != [] && t > ts[0] {
      InsertKeeps(t, ts[1..]);
      assert ts == [ts[0]] + ts[1..];
    }
  }

  lemma {:induction false} InsertAscending(t: int, ts: seq<int>)
    requires Ascending(ts)
    ensures Ascending(Insert(t, ts))
  {
    if ts != [] && t > ts[0] {
      assert forall i, j :: 0 <= i < j < |ts| - 1 ==> ts[1..][i] <= ts[1..][j];
      InsertAscending(t, ts[1..]);
      InsertKeeps(t, ts[1..]);
      var tail := Insert(t, ts[1..]);
      forall i | 0 <= i < |tail| ensures ts[0] <= tail[i] { assert tail[i] == t || tail[i] in ts[1..]; }
      hide Insert;
    }
  }

  lemma {:induction false} SortAscending(ts: seq<int>)
    ensures Ascending(Sort(ts)) && multiset(Sort(ts)) == multiset(ts)
    ensures |Sort(ts)| == |ts| && forall x :: x in Sort(ts) <==> x in ts
  {
    if ts != [] {
      SortAscending(ts[1..]);
      InsertAscending(ts[0], Sort(ts[1..]));
      InsertKeeps(ts[0], Sort(ts[1..]));
      hide Insert;
      assert ts == [ts[0]] + ts[1..];
    }
  }

  lemma {:induction false} SortSorted(ts: seq<int>)
    requires Ascending(ts)
    ensures Sort(ts) == ts
  {
    if ts != [] {
      assert forall i, j :: 0 <= i < j < |ts| - 1 ==> ts[1..][i] <= ts[1..][j];
      SortSorted(ts[1..]);
      assert |ts| > 1 ==> ts[0] <= ts[1];
    }
  }

  // ----- every run

  /** One call: its time, and whether the store had dropped the key by then. */
  datatype Event = Event(now: int, expired: bool)

  datatype World = World(stored: Stored, putAt: int, checks: seq<RateLimitCheck>)

  /** A key may be dropped once its time to live has passed. */
  predicate MayExpire(windowMs: int, w: World, now: int) { w.stored.Absent? || now >= w.putAt + 1000 * Ttl(windowMs) }

  function Step(rpm: int, windowMs: int, w: World, e: Event): World {
    var (check, stored) := Check(rpm, windowMs, Seen(w, e), e.now);
    World(stored, if check.allowed then e.now else w.putAt, w.checks + [check])
  }

  /** The first `n` calls, from a given world. */
  function Continue(rpm: int, windowMs: int, start: World, events: seq<Event>, n: nat): World
    requires n <= |events|
  {
    if n == 0 then start else Step(rpm, windowMs, Continue(rpm, windowMs, start, events, n - 1), events[n - 1])
  }

  /** A run begins with nothing stored. */
  function Run(rpm: int, windowMs: int, events: seq<Event>, n: nat): World
    requires n <= |events|
  {
    Continue(rpm, windowMs, World(Absent, 0, []), events, n)
  }

  /** The clock does not go back, and keys are dropped only after their time to live. */
  ghost predicate Legal(rpm: int, windowMs: int, events: seq<Event>) {
    && (forall i, j :: 0 <= i < j < |events| ==> events[i].now <= events[j].now)
    && (forall i :: 0 <= i < |events| && events[i].expired ==> MayExpire(windowMs, Run(rpm, windowMs, events, i), events[i].now))
  }

  /** The limiter as its documentation describes it: it remembers every allowed request, and allows
      one more when fewer than `rpm` of them lie in the window that ends now. */
  function Ideal(rpm: int, windowMs: int, events: seq<Event>, n: nat): seq<int>
    requires n <= |events|
  {
    if n == 0 then []
    else
      var past, now := Ideal(rpm, windowMs, events, n - 1), events[n - 1].now;
      if |Recent(past, now - windowMs)| < rpm then past + [now] else past
  }

  /** Whether a call is allowed depends on the size of the window alone. */
  lemma CheckDecides(rpm: int, windowMs: int, stored: Stored, now: int)
    ensures Check(rpm, windowMs, stored, now).0.allowed <==> !stored.Corrupt? && |Window(windowMs, stored, now)| < rpm
    ensures !Check(rpm, windowMs, stored, now).0.allowed ==> Check(rpm, windowMs, stored, now).1 == stored
  {
    SortAscending(Window(windowMs, stored, now));
    hide Sort, Window;
  }

  lemma CheckStores(rpm: int, windowMs: int, stored: Stored, now: int)
    requires Check(rpm, windowMs, stored, now).0.allowed && Ascending(Window(windowMs, stored, now))
    ensures Check(rpm, windowMs, stored, now).1 == Stamps(Window(windowMs, stored, now) + [now])
  {
    SortSorted(Window(windowMs, stored, now));
    hide Sort, Window;
  }

  /** The store agrees with the full history from the last call's window on. */
  ghost predicate Remembers(windowMs: int, w: World, history: seq<int>, now: int) {
    && Ascending(history) && (forall t :: t in history ==> t <= now && t <= w.putAt)
    && !w.stored.Corrupt? && (w.stored.Stamps? ==> Ascending(w.stored.ts))
    && Window(windowMs, w.stored, now) == Recent(history, now - windowMs)
  }

  function Seen(w: World, e: Event): Stored { if e.expired then Absent else w.stored }

  /** What the next call sees is the same whether or not the key was dropped. */
  lemma NextWindow(windowMs: int, w: World, history: seq<int>, before: int, e: Event)
    requires Remembers(windowMs, w, history, before) && before <= e.now
    requires e.expired ==> MayExpire(windowMs, w, e.now)
    ensures !Seen(w, e).Corrupt? && Window(windowMs, Seen(w, e), e.now) == Recent(history, e.now - windowMs)
    ensures Ascending(Recent(history, e.now - windowMs))
  {
    var early, late := before - windowMs, e.now - windowMs;
    RecentAscending(history, late);
    RecentRecent(history, early, late);
    if w.stored.Stamps? {
      RecentRecent(w.stored.ts, early, late);
      if e.expired { NothingRecent(history, late); }
    }
  }

  lemma {:induction false} NothingRecent(ts: seq<int>, cutoff: int)
    requires forall t :: t in ts ==> t <= cutoff
    ensures Recent(ts, cutoff) == []
  {
    if ts != [] {
      assert ts[0] in ts && forall t :: t in ts[1..] ==> t in ts;
      NothingRecent(ts[1..], cutoff);
    }
  }

  /** One call keeps the store in step with the history and decides as the ideal limiter does. */
  lemma StepRemembers(rpm: int, windowMs: int, w: World, history: seq<int>, before: int, e: Event)
    requires Remembers(windowMs, w, history, before) && before <= e.now
    requires e.expired ==> MayExpire(windowMs, w, e.now)
    ensures var w', recent := Step(rpm, windowMs, w, e), Recent(history, e.now - windowMs);
            && (Check(rpm, windowMs, Seen(w, e), e.now).0.allowed <==> |recent| < rpm)
            && Remembers(windowMs, w', if |recent| < rpm then history + [e.now] else history, e.now)
  {
    hide Check, Sort, Recent, MayExpire;
    NextWindow(windowMs, w, history, before, e);
    CheckDecides(rpm, windowMs, Seen(w, e), e.now);
    if Check(rpm, windowMs, Seen(w, e), e.now).0.allowed { CheckStores(rpm, windowMs, Seen(w, e), e.now); }
    var cutoff := e.now - windowMs;
    var recent := Recent(history, cutoff);
    RecentRecent(history, cutoff, cutoff);
    RecentSnoc(recent, e.now, cutoff);
    RecentSnoc(history, e.now, cutoff);
    forall i | 0 <= i < |recent| ensures recent[i] <= e.now { assert recent[i] in recent; }
    forall i | 0 <= i < |history| ensures history[i] <= e.now { assert history[i] in history; }
    assert Ascending(recent + [e.now]) && Ascending(history + [e.now]);
  }

  /** The clock at the last of the first `n` calls. */
  function Clock(events: seq<Event>, n: nat): int
    requires n <= |events|
  {
    if events == [] then 0 else events[if n == 0 then 0 else n - 1].now
  }

  /** The store is in step with the ideal history throughout a legal run. */
  lemma {:induction false} RunRemembers(rpm: int, windowMs: int, events: seq<Event>, n: nat)
    requires Legal(rpm, windowMs, events) && n <= |events|
    ensures |Run(rpm, windowMs, events, n).checks| == n
    ensures Remembers(windowMs, Run(rpm, windowMs, events, n), Ideal(rpm, windowMs, events, n), Clock(events, n))
  {
    hide Check, Recent, MayExpire, Remembers;
    if n == 0 {
      StartRemembers(windowMs, Clock(events, 0));
    } else {
      RunRemembers(rpm, windowMs, events, n - 1);
      StepRemembers(rpm, windowMs, Run(rpm, windowMs, events, n - 1), Ideal(rpm, windowMs, events, n - 1), Clock(events, n - 1), events[n - 1]);
    }
  }

  lemma StartRemembers(windowMs: int, now: int)
    ensures Remembers(windowMs, World(Absent, 0, []), [], now)
  {
  }

  /** The limiter refines the ideal one: over every legal run, whatever keys the store drops after
      their time to live, each call is allowed exactly when fewer than `rpm` allowed requests lie in
      the window that ends at it. */
  lemma RunIsIdeal(rpm: int, windowMs: int, events: seq<Event>, n: nat)
    requires Legal(rpm, windowMs, events) && n < |events|
    ensures |Run(rpm, windowMs, events, n + 1).checks| == n + 1
    ensures Run(rpm, windowMs, events, n + 1).checks[n].allowed <==> |Recent(Ideal(rpm, windowMs, events, n), events[n].now - windowMs)| < rpm
  {
    hide Check, Recent, MayExpire, Remembers;
    RunRemembers(rpm, windowMs, events, n);
    assert Clock(events, n) <= events[n].now;
    StepRemembers(rpm, windowMs, Run(rpm, windowMs, events, n), Ideal(rpm, windowMs, events, n), Clock(events, n), events[n]);
  }

  // ----- no window holds more than the quota

  /** The ideal history is what the allowed calls' times are, in order. */
  lemma {:induction false} IdealAscending(rpm: int, windowMs: int, events: seq<Event>, n: nat)
    requires n <= |events| && forall i, j :: 0 <= i < j < |events| ==> events[i].now <= events[j].now
    ensures Ascending(Ideal(rpm, windowMs, events, n))
    ensures forall t :: t in Ideal(rpm, windowMs, events, n) ==> t <= Clock(events, n)
  {
    hide Recent;
    if n > 0 {
      IdealAscending(rpm, windowMs, events, n - 1);
      assert Clock(events, n - 1) <= events[n - 1].now;
      var past, now := Ideal(rpm, windowMs, events, n - 1), events[n - 1].now;
      forall i | 0 <= i < |past| ensures past[i] <= now { assert past[i] in past; }
    }
  }

  /** The allowed requests in the half-open window `(x - windowMs, x]`. */
  function InWindow(ts: seq<int>, windowMs: int, x: int): (r: seq<int>) {
    if ts == [] then []
    else
      var last := ts[|ts| - 1];
      InWindow(ts[..|ts| - 1], windowMs, x) + if x - windowMs < last <= x then [last] else []
  }

  lemma {:induction false} WindowWithinRecent(ts: seq<int>, windowMs: int, x: int, cutoff: int)
    requires cutoff <= x - windowMs
    ensures |InWindow(ts, windowMs, x)| <= |Recent(ts, cutoff)|
  {
    if ts != [] {
      var last := ts[|ts| - 1];
      WindowWithinRecent(ts[..|ts| - 1], windowMs, x, cutoff);
      assert ts == ts[..|ts| - 1] + [last];
      RecentSnoc(ts[..|ts| - 1], last, cutoff);
    }
  }

  lemma WindowSnoc(ts: seq<int>, windowMs: int, x: int, t: int)
    ensures InWindow([], windowMs, x) == []
    ensures InWindow(ts + [t], windowMs, x) == InWindow(ts, windowMs, x) + if x - windowMs < t <= x then [t] else []
  {
    assert (ts + [t])[..|ts|] == ts;
  }

  /** No interval of the window's length ever holds more than `rpm` allowed requests. */
  lemma {:induction false} NoWindowOverfull(rpm: int, windowMs: int, events: seq<Event>, n: nat, x: int)
    requires n <= |events|
    ensures |InWindow(Ideal(rpm, windowMs, events, n), windowMs, x)| <= Max(0, rpm)
  {
    hide Recent, InWindow;
    if n == 0 {
      WindowSnoc([], windowMs, x, 0);
    } else {
      NoWindowOverfull(rpm, windowMs, events, n - 1, x);
      var past, now := Ideal(rpm, windowMs, events, n - 1), events[n - 1].now;
      if |Recent(past, now - windowMs)| < rpm {
        WindowSnoc(past, windowMs, x, now);
        if now <= x { WindowWithinRecent(past, windowMs, x, now - windowMs); }
      }
    }
  }

  /** The times of the calls the limiter really allowed. */
  function Allowed(rpm: int, windowMs: int, events: seq<Event>, n: nat): seq<int>
    requires n <= |events|
  {
    if n == 0 then []
    else
      var w, e := Run(rpm, windowMs, events, n - 1), events[n - 1];
      Allowed(rpm, windowMs, events, n - 1) + if Check(rpm, windowMs, Seen(w, e), e.now).0.allowed then [e.now] else []
  }

  lemma {:induction false} AllowedIsIdeal(rpm: int, windowMs: int, events: seq<Event>, n: nat)
    requires Legal(rpm, windowMs, events) && n <= |events|
    ensures Allowed(rpm, windowMs, events, n) == Ideal(rpm, windowMs, events, n)
  {
    hide Check, Recent, MayExpire, Remembers;
    if n > 0 {
      AllowedIsIdeal(rpm, windowMs, events, n - 1);
      RunRemembers(rpm, windowMs, events, n - 1);
      assert Clock(events, n - 1) <= events[n - 1].now;
      StepRemembers(rpm, windowMs, Run(rpm, windowMs, events, n - 1), Ideal(rpm, windowMs, events, n - 1), Clock(events, n - 1), events[n - 1]);
    }
  }

  /** The sliding window, on the limiter itself: in every legal run and for every `x`, at most `rpm`
      requests are allowed in `(x - windowMs, x]`. */
  lemma QuotaHolds(rpm: int, windowMs: int, events: seq<Event>, n: nat, x: int)
    requires Legal(rpm, windowMs, events) && n <= |events|
    ensures |InWindow(Allowed(rpm, windowMs, events, n), windowMs, x)| <= Max(0, rpm)
  {
    AllowedIsIdeal(rpm, windowMs, events, n);
    NoWindowOverfull(rpm, windowMs, events, n, x);
  }

  // ----- retrying

  lemma IsFirst(ts: seq<int>, s: int)
    requires s in ts
    ensures |Sort(ts)| > 0 && Sort(ts)[0] in ts && Sort(ts)[0] <= s
  {
    SortAscending(ts);
    assert s in Sort(ts);
    var i :| 0 <= i < |Sort(ts)| && Sort(ts)[i] == s;
    assert Sort(ts)[0] in Sort(ts);
  }

  /** A rejection of a readable record names the earliest stamp in the window, plus the window. */
  lemma RejectionNames(rpm: int, windowMs: int, ts: seq<int>, now: int)
    requires 0 < rpm && !Check(rpm, windowMs, Stamps(ts), now).0.allowed
    ensures var first := Check(rpm, windowMs, Stamps(ts), now).0.retryAtMs - windowMs;
            && first in ts && first > now - windowMs
            && forall t :: t in ts && t > now - windowMs ==> first <= t
  {
    CheckDecides(rpm, windowMs, Stamps(ts), now);
    var kept := Recent(ts, now - windowMs);
    assert kept[0] in kept;
    IsFirst(kept, kept[0]);
    forall t | t in ts && t > now - windowMs ensures Sort(kept)[0] <= t { IsFirst(kept, t); }
    hide Sort, Recent;
  }

  /** Until `retryAtMs` an undisturbed retry is rejected too. */
  lemma TooEarly(rpm: int, windowMs: int, ts: seq<int>, now: int, t: int)
    requires 0 < rpm && !Check(rpm, windowMs, Stamps(ts), now).0.allowed
    requires now <= t < Check(rpm, windowMs, Stamps(ts), now).0.retryAtMs
    ensures !Check(rpm, windowMs, Stamps(ts), t).0.allowed
  {
    RejectionNames(rpm, windowMs, ts, now);
    CheckDecides(rpm, windowMs, Stamps(ts), now);
    CheckDecides(rpm, windowMs, Stamps(ts), t);
    hide Check, Recent;
    RecentSame(ts, now - windowMs, t - windowMs);
  }

  /** At `retryAtMs` the retry is allowed exactly when fewer than `rpm` stamps are later than the
      earliest one, which is so whenever the window held no more than `rpm`. */
  lemma AtRetry(rpm: int, windowMs: int, ts: seq<int>, now: int)
    requires 0 < rpm && !Check(rpm, windowMs, Stamps(ts), now).0.allowed
    ensures var retry := Check(rpm, windowMs, Stamps(ts), now).0.retryAtMs;
            && now < retry
            && (Check(rpm, windowMs, Stamps(ts), retry).0.allowed <==> |Recent(ts, retry - windowMs)| < rpm)
            && (|Recent(ts, now - windowMs)| <= rpm ==> Check(rpm, windowMs, Stamps(ts), retry).0.allowed)
  {
    hide Check, Recent;
    var retry := Check(rpm, windowMs, Stamps(ts), now).0.retryAtMs;
    RejectionNames(rpm, windowMs, ts, now);
    CheckDecides(rpm, windowMs, Stamps(ts), retry);
    RecentLoses(ts, now - windowMs, retry - windowMs, retry - windowMs);
  }

  /** A readable record that allows a call goes on allowing it. */
  lemma StaysAllowed(rpm: int, windowMs: int, ts: seq<int>, early: int, late: int)
    requires early <= late && Check(rpm, windowMs, Stamps(ts), early).0.allowed
    ensures Check(rpm, windowMs, Stamps(ts), late).0.allowed
  {
    hide Check, Recent;
    CheckDecides(rpm, windowMs, Stamps(ts), early);
    CheckDecides(rpm, windowMs, Stamps(ts), late);
    RecentShrinks(ts, early - windowMs, late - windowMs);
  }

  /** Waiting the rounded `Retry-After` reaches `retryAtMs`, and one second less does not. */
  lemma RetryAfterSuffices(check: RateLimitCheck, now: int)
    ensures now + 1000 * RetryAfterSeconds(check, now) >= check.retryAtMs
    ensures RetryAfterSeconds(check, now) >= 1
    ensures check.retryAtMs > now ==> now + 1000 * (RetryAfterSeconds(check, now) - 1) < check.retryAtMs
  {
    var d := check.retryAtMs - now;
    assert 1000 * CeilSeconds(d) - 1000 < d <= 1000 * CeilSeconds(d);
  }

  lemma {:induction false} RecentIsWindow(ts: seq<int>, windowMs: int, x: int)
    requires forall t :: t in ts ==> t <= x
    ensures Recent(ts, x - windowMs) == InWindow(ts, windowMs, x)
  {
    if ts != [] {
      var init, last := ts[..|ts| - 1], ts[|ts| - 1];
      forall t | t in init ensures t <= x { assert t in ts; }
      RecentIsWindow(init, windowMs, x);
      assert ts == init + [last];
      hide Recent;
      RecentSnoc(init, last, x - windowMs);
      assert last in ts;
    }
  }

  lemma RecentNeverOver(rpm: int, windowMs: int, events: seq<Event>, n: nat)
    requires n < |events| && forall i, j :: 0 <= i < j < |events| ==> events[i].now <= events[j].now
    ensures |Recent(Ideal(rpm, windowMs, events, n), events[n].now - windowMs)| <= Max(0, rpm)
  {
    hide Recent, InWindow;
    var history, x := Ideal(rpm, windowMs, events, n), events[n].now;
    IdealAscending(rpm, windowMs, events, n);
    NoWindowOverfull(rpm, windowMs, events, n, x);
    assert Clock(events, n) <= x;
    RecentIsWindow(history, windowMs, x);
  }

  /** A rejected call leaves the readable record it was decided on, with a full window. */
  lemma RejectedStays(rpm: int, windowMs: int, events: seq<Event>, n: nat)
    requires Legal(rpm, windowMs, events) && n < |events| && 0 < rpm
    requires var w := Run(rpm, windowMs, events, n); !Check(rpm, windowMs, Seen(w, events[n]), events[n].now).0.allowed
    ensures var w := Run(rpm, windowMs, events, n);
            && w.stored.Stamps? && Seen(w, events[n]) == w.stored
            && |Recent(w.stored.ts, events[n].now - windowMs)| == rpm == |Recent(Ideal(rpm, windowMs, events, n), events[n].now - windowMs)|
  {
    hide Check, Recent, MayExpire, InWindow, Ideal;
    var w, e, history := Run(rpm, windowMs, events, n), events[n], Ideal(rpm, windowMs, events, n);
    RunRemembers(rpm, windowMs, events, n);
    assert Clock(events, n) <= e.now;
    NextWindow(windowMs, w, history, Clock(events, n), e);
    RecentNeverOver(rpm, windowMs, events, n);
    CheckDecides(rpm, windowMs, Seen(w, e), e.now);
  }

  /** In a legal run a rejection means exactly `rpm` allowed requests lie in the window. An undisturbed
      retry is rejected before `retryAtMs`, and allowed from then on and after waiting `Retry-After`. */
  lemma RejectedRunRecovers(rpm: int, windowMs: int, events: seq<Event>, n: nat, t: int)
    requires Legal(rpm, windowMs, events) && n < |events| && 0 < rpm && events[n].now <= t
    requires var w := Run(rpm, windowMs, events, n); !Check(rpm, windowMs, Seen(w, events[n]), events[n].now).0.allowed
    ensures var now := events[n].now;
            var check := Check(rpm, windowMs, Seen(Run(rpm, windowMs, events, n), events[n]), now).0;
            var after := Run(rpm, windowMs, events, n + 1).stored;
            && |Recent(Ideal(rpm, windowMs, events, n), now - windowMs)| == rpm
            && (Check(rpm, windowMs, after, t).0.allowed <==> t >= check.retryAtMs)
            && (t >= now + 1000 * RetryAfterSeconds(check, now) ==> Check(rpm, windowMs, after, t).0.allowed)
  {
    hide Recent, MayExpire, Ideal, RetryAfterSeconds, Check;
    RejectedStays(rpm, windowMs, events, n);
    var w, now := Run(rpm, windowMs, events, n), events[n].now;
    var check := Check(rpm, windowMs, w.stored, now).0;
    CheckDecides(rpm, windowMs, w.stored, now);
    RetryAfterSuffices(check, now);
    if t < check.retryAtMs { TooEarly(rpm, windowMs, w.stored.ts, now, t); } else {
      AtRetry(rpm, windowMs, w.stored.ts, now);
      StaysAllowed(rpm, windowMs, w.stored.ts, check.retryAtMs, t);
    }
  }

  // ----- corrupt records

  /** From a corrupt record every call is rejected and nothing is written until the key expires: no
      later call overwrites it, and the `retryAtMs` of a rejection is no time at which one succeeds. */
  lemma {:induction false} CorruptStays(rpm: int, windowMs: int, start: World, events: seq<Event>, n: nat)
    requires start.stored == Corrupt && n <= |events| && forall i :: 0 <= i < n ==> !events[i].expired
    ensures var w := Continue(rpm, windowMs, start, events, n);
            && w.stored == Corrupt && w.putAt == start.putAt && |w.checks| == |start.checks| + n
            && forall i :: |start.checks| <= i < |w.checks| ==> !w.checks[i].allowed
  {
    hide Sort, Recent;
    if n > 0 { CorruptStays(rpm, windowMs, start, events, n - 1); }
  }

  /** The first call after the expiry starts afresh: it is allowed exactly when the quota is positive. */
  lemma ExpiryRecovers(rpm: int, windowMs: int, start: World, events: seq<Event>, n: nat)
    requires start.stored == Corrupt && n < |events| && (forall i :: 0 <= i < n ==> !events[i].expired) && events[n].expired
    ensures var w := Continue(rpm, windowMs, start, events, n + 1);
            && |w.checks| == |start.checks| + n + 1
            && (w.checks[|w.checks| - 1].allowed <==> 0 < rpm)
            && w.stored == if 0 < rpm then Stamps([events[n].now]) else Absent
  {
    hide Recent;
    CorruptStays(rpm, windowMs, start, events, n);
  }

  // ----- a quota of zero

  /** Under a quota that is not positive every call of any run is rejected and nothing is ever written: the
      `retryAtMs` of such a rejection is no time at which a call succeeds. */
  lemma {:induction false} NoQuotaNeverAllows(rpm: int, windowMs: int, start: World, events: seq<Event>, n: nat)
    requires rpm <= 0 && n <= |events|
    ensures var w := Continue(rpm, windowMs, start, events, n);
            && w.putAt == start.putAt && |w.checks| == |start.checks| + n
            && (w.stored == start.stored || w.stored == Absent)
            && forall i :: |start.checks| <= i < |w.checks| ==> !w.checks[i].allowed
  {
    hide Sort, Recent;
    if n > 0 { NoQuotaNeverAllows(rpm, windowMs, start, events, n - 1); }
  }
}
