/** The fixed-window rate limiter of the HTTP middleware. Instants and durations are in
    nanoseconds; the clock is a parameter, read under the mutex, so it never goes back. */
module RateLimit {
  import opened Options

  const SECOND := 1_000_000_000
  const MAX_TRACKED_WINDOWS := 10000

  datatype Window = Window(start: int, count: int)

  type Windows = map<string, Window>

  datatype Config = Config(limit: int, interval: int)

  datatype Verdict = Verdict(allowed: bool, retryAfter: int)

  datatype Request = Request(key: string, at: int)

  predicate Expired(w: Window, interval: int, now: int) {
    now - w.start >= interval
  }

  predicate Opens(windows: Windows, cfg: Config, key: string, now: int) {
    key !in windows || Expired(windows[key], cfg.interval, now)
  }

  /** The limiter that never forgets a window: its decision and its next windows. */
  function Judge(windows: Windows, cfg: Config, r: Request): Verdict {
    if Opens(windows, cfg, r.key, r.at) then Verdict(true, 0)
    else if windows[r.key].count >= cfg.limit then Verdict(false, cfg.interval - (r.at - windows[r.key].start))
    else Verdict(true, 0)
  }

  function Remember(windows: Windows, cfg: Config, r: Request): Windows {
    if Opens(windows, cfg, r.key, r.at) then windows[r.key := Window(r.at, 1)]
    else if windows[r.key].count >= cfg.limit then windows
    else windows[r.key := Window(windows[r.key].start, windows[r.key].count + 1)]
  }

  function Swept(windows: Windows, interval: int, now: int): Windows {
    map k | k in windows && !Expired(windows[k], interval, now) :: windows[k]
  }

  /** The limiter as written: opening a window beyond the bound sweeps the expired ones. */
  function Next(windows: Windows, cfg: Config, r: Request): Windows {
    var kept := Remember(windows, cfg, r);
    if Opens(windows, cfg, r.key, r.at) && |kept| > MAX_TRACKED_WINDOWS then Swept(kept, cfg.interval, r.at) else kept
  }

  class RateLimiter {
    var windows: Windows
    const cfg: Config

    constructor (limit: int, interval: int)
      ensures windows == map[] && cfg == Config(limit, interval)
    {
      windows := map[];
      cfg := Config(limit, interval);
    }

    method Allow(key: string, now: int) returns (allowed: bool, retryAfter: int)
      modifies this
      ensures Verdict(allowed, retryAfter) == Judge(old(windows), cfg, Request(key, now))
      ensures windows == Next(old(windows), cfg, Request(key, now))
    {
      if key !in windows || now - windows[key].start >= cfg.interval {
        windows := windows[key := Window(now, 1)];
        if |windows| > MAX_TRACKED_WINDOWS {
          SweepLocked(now);
        }
        return true, 0;
      }
      var current := windows[key];
      if current.count >= cfg.limit {
        return false, cfg.interval - (now - current.start);
      }
      windows := windows[key := current.(count := current.count + 1)];
      return true, 0;
    }

    /** Visits every window in an arbitrary order and deletes the expired ones. */
    method SweepLocked(now: int)
      modifies this
      ensures windows == Swept(old(windows), cfg.interval, now)
    {
      var pending := windows.Keys;
      while pending != {}
        invariant pending <= windows.Keys <= old(windows).Keys
        invariant forall k | k in windows :: windows[k] == old(windows)[k]
        invariant forall k | k in old(windows) && k !in pending ::
                    k in windows <==> !Expired(old(windows)[k], cfg.interval, now)
        decreases |pending|
      {
        var key :| key in pending;
        if now - windows[key].start >= cfg.interval {
          windows := windows - {key};
        }
        pending := pending - {key};
      }
    }
  }

  // ----- Request sequences -----

  /** Request times never decrease, starting from `now`. */
  ghost predicate Ordered(reqs: seq<Request>, now: int) {
    reqs == [] || (now <= reqs[0].at && Ordered(reqs[1..], reqs[0].at))
  }

  /** The decisions of the limiter, sweeping or not. */
  ghost function Verdicts(windows: Windows, cfg: Config, reqs: seq<Request>, sweeps: bool): seq<Verdict>
    decreases |reqs|
  {
    if reqs == [] then []
    else [Judge(windows, cfg, reqs[0])]
         + Verdicts(if sweeps then Next(windows, cfg, reqs[0])
             else Remember(windows, cfg, reqs[0]), cfg, reqs[1..], sweeps)
  }

  /** The two limiters agree on every window that has not expired by `now`. */
  ghost predicate Agrees(swept: Windows, full: Windows, interval: int, now: int) {
    && (forall k | k in swept :: k in full && full[k] == swept[k])
    && (forall k | k in full && k !in swept :: Expired(full[k], interval, now))
  }

  lemma AgreeingStep(swept: Windows, full: Windows, cfg: Config, now: int, r: Request)
    requires Agrees(swept, full, cfg.interval, now) && now <= r.at
    ensures Judge(swept, cfg, r) == Judge(full, cfg, r)
    ensures Agrees(Next(swept, cfg, r), Remember(full, cfg, r), cfg.interval, r.at)
  {
  }

  /** Sweeping is invisible: on every request sequence with a clock that never goes back, the
      limiter decides exactly as one that never deletes a window. */
  lemma {:induction false} SweepIsInvisible(swept: Windows, full: Windows, cfg: Config, now: int, reqs: seq<Request>)
    requires Agrees(swept, full, cfg.interval, now) && Ordered(reqs, now)
    ensures Verdicts(swept, cfg, reqs, true) == Verdicts(full, cfg, reqs, false)
    decreases |reqs|
  {
    if reqs != [] {
      AgreeingStep(swept, full, cfg, now, reqs[0]);
      SweepIsInvisible(Next(swept, cfg, reqs[0]), Remember(full, cfg, reqs[0]), cfg, reqs[0].at, reqs[1..]);
    }
  }

  // ----- Keys do not interfere -----

  ghost function OnlyKey(reqs: seq<Request>, key: string): seq<Request> {
    if reqs == [] then []
    else (if reqs[0].key == key then [reqs[0]] else []) + OnlyKey(reqs[1..], key)
  }

  /** The verdicts that fell to the requests of one key. */
  ghost function VerdictsFor(reqs: seq<Request>, verdicts: seq<Verdict>, key: string): seq<Verdict>
    requires |verdicts| == |reqs|
  {
    if reqs == [] then []
    else (if reqs[0].key == key then [verdicts[0]] else []) + VerdictsFor(reqs[1..], verdicts[1..], key)
  }

  lemma {:induction false} VerdictsLength(windows: Windows, cfg: Config, reqs: seq<Request>, sweeps: bool)
    ensures |Verdicts(windows, cfg, reqs, sweeps)| == |reqs|
    decreases |reqs|
  {
    if reqs != [] {
      VerdictsLength(if sweeps then Next(windows, cfg, reqs[0])
          else Remember(windows, cfg, reqs[0]), cfg, reqs[1..], sweeps);
    }
  }

  /** Two stores hold the same window for a key. */
  ghost predicate SameFor(a: Windows, b: Windows, key: string) {
    (key in a <==> key in b) && (key in a ==> a[key] == b[key])
  }

  lemma {:induction false} KeyAlone(a: Windows, b: Windows, cfg: Config, reqs: seq<Request>, key: string)
    requires SameFor(a, b, key)
    ensures |Verdicts(a, cfg, reqs, false)| == |reqs|
    ensures VerdictsFor(reqs, Verdicts(a, cfg, reqs, false), key) == Verdicts(b, cfg, OnlyKey(reqs, key), false)
    decreases |reqs|
  {
    VerdictsLength(a, cfg, reqs, false);
    if reqs != [] {
      var r := reqs[0];
      assert Verdicts(a, cfg, reqs, false)[1..] == Verdicts(Remember(a, cfg, r), cfg, reqs[1..], false);
      if r.key == key {
        KeyAlone(Remember(a, cfg, r), Remember(b, cfg, r), cfg, reqs[1..], key);
        assert OnlyKey(reqs, key)[1..] == OnlyKey(reqs[1..], key);
      } else {
        KeyAlone(Remember(a, cfg, r), b, cfg, reqs[1..], key);
        assert OnlyKey(reqs, key) == OnlyKey(reqs[1..], key);
      }
    }
  }

  /** Requests of other keys never change a decision: the sweeping limiter, starting empty,
      decides the requests of a key as if no other key existed. */
  lemma KeysAreIndependent(cfg: Config, reqs: seq<Request>, now: int, key: string)
    requires Ordered(reqs, now)
    ensures |Verdicts(map[], cfg, reqs, true)| == |reqs|
    ensures VerdictsFor(reqs, Verdicts(map[], cfg, reqs, true), key) == Verdicts(map[], cfg, OnlyKey(reqs, key), true)
  {
    SweepIsInvisible(map[], map[], cfg, now, reqs);
    KeyAlone(map[], map[], cfg, reqs, key);
    OnlyKeyOrdered(reqs, now, key);
    SweepIsInvisible(map[], map[], cfg, now, OnlyKey(reqs, key));
  }

  lemma {:induction false} OnlyKeyOrdered(reqs: seq<Request>, now: int, key: string)
    requires Ordered(reqs, now)
    ensures Ordered(OnlyKey(reqs, key), now)
  {
    if reqs != [] {
      OnlyKeyOrdered(reqs[1..], reqs[0].at, key);
      if reqs[0].key == key {
        assert OnlyKey(reqs, key)[1..] == OnlyKey(reqs[1..], key);
      } else {
        OrderedEarlier(OnlyKey(reqs[1..], key), now, reqs[0].at);
        assert OnlyKey(reqs, key) == OnlyKey(reqs[1..], key);
      }
    }
  }

  lemma OrderedEarlier(reqs: seq<Request>, now: int, then_: int)
    requires now <= then_ && Ordered(reqs, then_)
    ensures Ordered(reqs, now)
  {
  }

  // ----- The rate bound -----

  /** How many requests of `key` with a time in [from, until) were admitted. */
  ghost function Admitted(reqs: seq<Request>, verdicts: seq<Verdict>, key: string, from: int, until: int): nat
    requires |verdicts| == |reqs|
  {
    if reqs == [] then 0
    else (if reqs[0].key == key && from <= reqs[0].at < until && verdicts[0].allowed then 1 else 0)
         + Admitted(reqs[1..], verdicts[1..], key, from, until)
  }

  /** How many windows of length `interval` can start in [start, until), back to back. */
  ghost function Starts(start: int, until: int, interval: int): nat
    requires interval > 0
    decreases until - start
  {
    if start >= until then 0 else 1 + Starts(start + interval, until, interval)
  }

  lemma {:induction false} LaterStarts(a: int, b: int, until: int, interval: int)
    requires interval > 0 && a <= b
    ensures Starts(a, until, interval) >= Starts(b, until, interval)
    decreases until - a
  {
    if a < until && b < until { LaterStarts(a + interval, b + interval, until, interval); }
  }

  lemma {:induction false} StartsBound(start: int, until: int, interval: int, m: nat)
    requires interval > 0 && until - m * interval <= start
    ensures Starts(start, until, interval) <= m
    decreases m
  {
    if start < until {
      assert 0 * interval == 0;
      if m > 0 {
        assert (m - 1) * interval == m * interval - interval;
        StartsBound(start + interval, until, interval, m - 1);
      }
    }
  }

  /** The earliest start of a window that can admit anything in [from, ...). */
  ghost function Relevant(start: int, from: int, interval: int): int {
    if start > from - interval then start else from - interval + 1
  }

  /** What the current window of `key` can still admit in the span. */
  ghost function Left(windows: Windows, cfg: Config, key: string, from: int): int {
    if key in windows && windows[key].start + cfg.interval > from then cfg.limit - windows[key].count else 0
  }

  /** The earliest instant at which the next window of `key` can start. */
  ghost function NextStart(windows: Windows, cfg: Config, key: string, now: int): int {
    if key in windows then windows[key].start + cfg.interval else now
  }

  /** The budget from here on: what is left of the current window and `limit` for each window
      that can still start inside the span. */
  ghost function Budget(windows: Windows, cfg: Config, key: string, now: int, from: int, until: int): int
    requires cfg.interval > 0
  {
    Left(windows, cfg, key, from)
    + cfg.limit * Starts(Relevant(NextStart(windows, cfg, key, now), from, cfg.interval), until, cfg.interval)
  }

  lemma {:induction false} NothingLate(reqs: seq<Request>, verdicts: seq<Verdict>, key: string, now: int, from: int,
        until: int)
    requires |verdicts| == |reqs| && Ordered(reqs, now) && until <= now
    ensures Admitted(reqs, verdicts, key, from, until) == 0
  {
    if reqs != [] { NothingLate(reqs[1..], verdicts[1..], key, reqs[0].at, from, until); }
  }

  lemma MultiplyMore(limit: int, fewer: nat, more: nat)
    requires limit >= 0 && fewer <= more
    ensures limit * fewer <= limit * more
  {
  }

  /** One request spends at most what it takes from the budget. */
  lemma BudgetSpent(windows: Windows, cfg: Config, key: string, r: Request, now: int, from: int, until: int)
    requires cfg.limit >= 1 && cfg.interval > 0 && now <= r.at < until
    requires key in windows ==> 1 <= windows[key].count <= cfg.limit
    ensures (if r.key == key && from <= r.at && Judge(windows, cfg, r).allowed then 1 else 0)
            + Budget(Remember(windows, cfg, r), cfg, key, r.at, from, until)
            <= Budget(windows, cfg, key, now, from, until)
  {
    var next := Remember(windows, cfg, r);
    var i := cfg.interval;
    var before := Relevant(NextStart(windows, cfg, key, now), from, i);
    var after := Relevant(NextStart(next, cfg, key, r.at), from, i);
    if r.key == key && Opens(windows, cfg, key, r.at) {
      var mine := Relevant(r.at, from, i);
      LaterStarts(before, mine, until, i);
      MultiplyMore(cfg.limit, Starts(mine, until, i), Starts(before, until, i));
      if r.at > from - i {
        assert Starts(mine, until, i) == 1 + Starts(after, until, i);
        assert cfg.limit * (1 + Starts(after, until, i)) == cfg.limit + cfg.limit * Starts(after, until, i);
      } else {
        LaterStarts(mine, after, until, i);
        MultiplyMore(cfg.limit, Starts(after, until, i), Starts(mine, until, i));
      }
    } else {
      LaterStarts(before, after, until, i);
      MultiplyMore(cfg.limit, Starts(after, until, i), Starts(before, until, i));
    }
  }

  lemma {:induction false} WithinBudget(windows: Windows, cfg: Config, reqs: seq<Request>, key: string, now: int,
        from: int, until: int)
    requires cfg.limit >= 1 && cfg.interval > 0 && Ordered(reqs, now)
    requires key in windows ==> 1 <= windows[key].count <= cfg.limit
    ensures |Verdicts(windows, cfg, reqs, false)| == |reqs|
    ensures Admitted(reqs, Verdicts(windows, cfg, reqs, false), key, from, until)
            <= Budget(windows, cfg, key, now, from, until)
    decreases |reqs|
  {
    var verdicts := Verdicts(windows, cfg, reqs, false);
    VerdictsLength(windows, cfg, reqs, false);
    assert Left(windows, cfg, key, from) >= 0;
    MultiplyMore(cfg.limit, 0,
        Starts(Relevant(NextStart(windows, cfg, key, now), from, cfg.interval), until, cfg.interval));
    if reqs != [] {
      var r := reqs[0];
      var next := Remember(windows, cfg, r);
      assert verdicts[1..] == Verdicts(next, cfg, reqs[1..], false);
      if r.at >= until {
        VerdictsLength(next, cfg, reqs[1..], false);
        NothingLate(reqs[1..], verdicts[1..], key, r.at, from, until);
      } else {
        WithinBudget(next, cfg, reqs[1..], key, r.at, from, until);
        BudgetSpent(windows, cfg, key, r, now, from, until);
      }
    }
  }

  /** Before any request, the budget of a span of k intervals is k + 1 windows. */
  lemma FreshBudget(cfg: Config, now: int, key: string, from: int, k: nat)
    requires cfg.limit >= 1 && cfg.interval > 0
    ensures Budget(map[], cfg, key, now, from, from + k * cfg.interval) <= (k + 1) * cfg.limit
  {
    var until := from + k * cfg.interval;
    var start := Relevant(now, from, cfg.interval);
    assert (k + 1) * cfg.interval == k * cfg.interval + cfg.interval;
    StartsBound(start, until, cfg.interval, k + 1);
    MultiplyMore(cfg.limit, Starts(start, until, cfg.interval), k + 1);
  }

  /** The rate bound: a half-open span of k intervals admits at most (k + 1) * limit requests
      of one key, on every request sequence. */
  lemma RateBound(cfg: Config, reqs: seq<Request>, now: int, key: string, from: int, k: nat)
    requires cfg.limit >= 1 && cfg.interval > 0 && Ordered(reqs, now)
    ensures |Verdicts(map[], cfg, reqs, true)| == |reqs|
    ensures Admitted(reqs, Verdicts(map[], cfg, reqs, true), key, from, from + k * cfg.interval) <= (k + 1) * cfg.limit
  {
    SweepIsInvisible(map[], map[], cfg, now, reqs);
    WithinBudget(map[], cfg, reqs, key, now, from, from + k * cfg.interval);
    FreshBudget(cfg, now, key, from, k);
  }

  // ----- No refusal too early -----

  /** When the current fixed window of `key` began, by the request times alone: the first
      request of the key opens a window, and so does each one at least an interval after the
      beginning of the last. */
  ghost function WindowStart(reqs: seq<Request>, key: string, interval: int): Option<int> {
    if reqs == [] then None
    else
      var r := reqs[|reqs| - 1];
      var before := WindowStart(reqs[..|reqs| - 1], key, interval);
      if r.key == key && (before.None? || r.at >= before.value + interval) then Some(r.at) else before
  }

  /** How many requests of `key` at or after `from` were admitted. */
  ghost function AdmittedFrom(reqs: seq<Request>, verdicts: seq<Verdict>, key: string, from: int): nat
    requires |verdicts| == |reqs|
  {
    if reqs == [] then 0
    else
      var n := |reqs| - 1;
      AdmittedFrom(reqs[..n], verdicts[..n], key, from)
      + (if reqs[n].key == key && reqs[n].at >= from && verdicts[n].allowed then 1 else 0)
  }

  lemma AdmittedAppend(reqs: seq<Request>, verdicts: seq<Verdict>, r: Request, v: Verdict, key: string, from: int)
    requires |verdicts| == |reqs|
    ensures AdmittedFrom(reqs + [r], verdicts + [v], key, from)
            == AdmittedFrom(reqs, verdicts, key, from) + (if r.key == key && r.at >= from && v.allowed then 1 else 0)
  {
    assert (reqs + [r])[..|reqs|] == reqs && (verdicts + [v])[..|reqs|] == verdicts;
  }

  lemma WindowAppend(reqs: seq<Request>, r: Request, key: string, interval: int)
    ensures var before := WindowStart(reqs, key, interval);
            WindowStart(reqs + [r], key, interval)
            == if r.key == key && (before.None? || r.at >= before.value + interval) then Some(r.at) else before
  {
    assert (reqs + [r])[..|reqs|] == reqs;
  }

  ghost predicate AllBy(reqs: seq<Request>, now: int) {
    forall i | 0 <= i < |reqs| :: reqs[i].at <= now
  }

  /** Nothing was admitted after the last request. */
  lemma {:induction false} NoneAfter(reqs: seq<Request>, verdicts: seq<Verdict>, key: string, from: int, now: int)
    requires |verdicts| == |reqs| && AllBy(reqs, now) && now < from
    ensures AdmittedFrom(reqs, verdicts, key, from) == 0
  {
    if reqs != [] { NoneAfter(reqs[..|reqs| - 1], verdicts[..|reqs| - 1], key, from, now); }
  }

  /** Within a window nothing earlier counts: requests of the key before the opening request
      are earlier than the window. */
  lemma {:induction false} StartIsPast(reqs: seq<Request>, key: string, interval: int, now: int)
    requires AllBy(reqs, now)
    ensures WindowStart(reqs, key, interval).Some? ==> WindowStart(reqs, key, interval).value <= now
  {
    if reqs != [] { StartIsPast(reqs[..|reqs| - 1], key, interval, now); }
  }

  /** Before a new window begins, every request of the key is earlier than it. */
  lemma {:induction false} NoneYet(reqs: seq<Request>, verdicts: seq<Verdict>, key: string, interval: int, from: int)
    requires |verdicts| == |reqs| && AllBy(reqs, from) && interval > 0
    requires WindowStart(reqs, key, interval).None? || WindowStart(reqs, key, interval).value + interval <= from
    ensures AdmittedFrom(reqs, verdicts, key, from) == 0
  {
    if reqs != [] {
      var n := |reqs| - 1;
      WindowAppend(reqs[..n], reqs[n], key, interval);
      assert reqs == reqs[..n] + [reqs[n]];
      NoneYet(reqs[..n], verdicts[..n], key, interval, from);
    }
  }

  /** The stored window of `key` is the one the request times give, with its admissions. */
  ghost predicate Tracks(windows: Windows, cfg: Config, past: seq<Request>, verdicts: seq<Verdict>, key: string)
    requires |verdicts| == |past|
  {
    var start := WindowStart(past, key, cfg.interval);
    && (key in windows <==> start.Some?)
    && (key in windows ==>
          windows[key].start == start.value && windows[key].count == AdmittedFrom(past, verdicts, key, start.value))
  }

  lemma TrackingStep(windows: Windows, cfg: Config, past: seq<Request>, verdicts: seq<Verdict>, r: Request, key: string)
    requires |verdicts| == |past| && Tracks(windows, cfg, past, verdicts, key)
    requires cfg.interval > 0 && AllBy(past, r.at)
    ensures Tracks(Remember(windows, cfg, r), cfg, past + [r], verdicts + [Judge(windows, cfg, r)], key)
  {
    var v := Judge(windows, cfg, r);
    var start := WindowStart(past, key, cfg.interval);
    WindowAppend(past, r, key, cfg.interval);
    if start.Some? {
      AdmittedAppend(past, verdicts, r, v, key, start.value);
      StartIsPast(past, key, cfg.interval, r.at);
    }
    if r.key == key && (start.None? || r.at >= start.value + cfg.interval) {
      AdmittedAppend(past, verdicts, r, v, key, r.at);
      NoneYet(past, verdicts, key, cfg.interval, r.at);
    }
  }

  /** The request is refused: within the current window of its key, which still stands, the
      limit has been admitted. */
  ghost predicate FullWindow(cfg: Config, past: seq<Request>, verdicts: seq<Verdict>, r: Request)
    requires |verdicts| == |past|
  {
    var start := WindowStart(past, r.key, cfg.interval);
    start.Some? && r.at < start.value + cfg.interval && AdmittedFrom(past, verdicts, r.key, start.value) == cfg.limit
  }

  lemma AtMostLimit(cfg: Config, w: Windows, r: Request, key: string)
    requires cfg.limit >= 1 && (key in w ==> w[key].count <= cfg.limit)
    ensures key in Remember(w, cfg, r) ==> Remember(w, cfg, r)[key].count <= cfg.limit
  {}

  lemma {:induction false} RefusedFrom(windows: Windows, cfg: Config, past: seq<Request>, pastVerdicts: seq<Verdict>,
                                       reqs: seq<Request>, now: int, i: nat)
    requires cfg.limit >= 1 && cfg.interval > 0 && |pastVerdicts| == |past| && AllBy(past, now)
    requires Ordered(reqs, now) && i < |reqs| && Tracks(windows, cfg, past, pastVerdicts, reqs[i].key)
    requires reqs[i].key in windows ==> windows[reqs[i].key].count <= cfg.limit
    ensures var v := Verdicts(windows, cfg, reqs, false);
            && |v| == |reqs|
            && (!v[i].allowed <==> FullWindow(cfg, past + reqs[..i], pastVerdicts + v[..i], reqs[i]))
    decreases i
  {
    var v := Verdicts(windows, cfg, reqs, false);
    VerdictsLength(windows, cfg, reqs, false);
    if i == 0 {
      assert past + reqs[..0] == past && pastVerdicts + v[..0] == pastVerdicts;
    } else {
      var r, first := reqs[0], Judge(windows, cfg, reqs[0]);
      TrackingStep(windows, cfg, past, pastVerdicts, r, reqs[i].key);
      AtMostLimit(cfg, windows, r, reqs[i].key);
      RefusedFrom(Remember(windows, cfg, r), cfg, past + [r], pastVerdicts + [first], reqs[1..], r.at, i - 1);
      var rest := Verdicts(Remember(windows, cfg, r), cfg, reqs[1..], false);
      assert v == [first] + rest;
      assert past + [r] + reqs[1..][..i - 1] == past + reqs[..i];
      assert pastVerdicts + [first] + rest[..i - 1] == pastVerdicts + v[..i];
    }
  }

  /** Refusals, exactly, on every request sequence from an empty limiter: a request is refused
      if and only if the fixed window its key is in still stands and exactly `limit` requests
      of the key have been admitted in it. */
  lemma RefusedIff(cfg: Config, reqs: seq<Request>, now: int, i: nat)
    requires cfg.limit >= 1 && cfg.interval > 0 && Ordered(reqs, now) && i < |reqs|
    ensures var v := Verdicts(map[], cfg, reqs, true);
            && |v| == |reqs|
            && (!v[i].allowed <==> FullWindow(cfg, reqs[..i], v[..i], reqs[i]))
  {
    SweepIsInvisible(map[], map[], cfg, now, reqs);
    RefusedFrom(map[], cfg, [], [], reqs, now, i);
    var v := Verdicts(map[], cfg, reqs, true);
    VerdictsLength(map[], cfg, reqs, true);
    assert [] + reqs[..i] == reqs[..i] && [] + v[..i] == v[..i];
  }

  lemma {:induction false} EarlierCounts(reqs: seq<Request>, verdicts: seq<Verdict>, key: string, from: int, later: int)
    requires |verdicts| == |reqs| && from <= later
    ensures AdmittedFrom(reqs, verdicts, key, from) >= AdmittedFrom(reqs, verdicts, key, later)
  {
    if reqs != [] { EarlierCounts(reqs[..|reqs| - 1], verdicts[..|reqs| - 1], key, from, later); }
  }

  /** No refusal too early: whoever is refused at time t has had at least `limit` requests of
      the key admitted, earlier in the sequence, within the interval that ends at t. */
  lemma RefusedOnlyAfterLimit(cfg: Config, reqs: seq<Request>, now: int, i: nat)
    requires cfg.limit >= 1 && cfg.interval > 0 && Ordered(reqs, now) && i < |reqs|
    requires |Verdicts(map[], cfg, reqs, true)| == |reqs| && !Verdicts(map[], cfg, reqs, true)[i].allowed
    ensures AdmittedFrom(reqs[..i], Verdicts(map[], cfg, reqs, true)[..i], reqs[i].key, reqs[i].at - cfg.interval + 1)
            >= cfg.limit
  {
    RefusedIff(cfg, reqs, now, i);
    var v := Verdicts(map[], cfg, reqs, true);
    var start := WindowStart(reqs[..i], reqs[i].key, cfg.interval);
    EarlierCounts(reqs[..i], v[..i], reqs[i].key, reqs[i].at - cfg.interval + 1, start.value);
  }

  /** Not exactly `limit`: the interval can reach back into the window before. With a limit of
      two in ten, of requests at 0, 9, 10, 11 and 12 only the last is refused, and three were
      admitted in the ten before it. */
  lemma PreviousWindowCounts(cfg: Config, reqs: seq<Request>, v: seq<Verdict>)
    requires cfg == Config(2, 10) && v == Verdicts(map[], cfg, reqs, true)
    requires reqs == [Request("k", 0), Request("k", 9), Request("k", 10), Request("k", 11), Request("k", 12)]
    ensures Ordered(reqs, 0) && |v| == 5
    ensures v[0].allowed && v[1].allowed && v[2].allowed && v[3].allowed && !v[4].allowed
    ensures AdmittedFrom(reqs[..4], v[..4], "k", 12 - cfg.interval + 1) == 3
  {
    var r0, r1, r2, r3, r4 := reqs[0], reqs[1], reqs[2], reqs[3], reqs[4];
    assert reqs == [r0] + ([r1] + ([r2] + ([r3] + [r4])));
    OrderedFive(r0, r1, r2, r3, r4);
    SweepIsInvisible(map[], map[], cfg, 0, reqs);
    FiveVerdicts(cfg, r0, r1, r2, r3, r4);
    assert reqs[..4] == [r0] + [r1] + [r2] + [r3];
    var ok := Verdict(true, 0);
    assert v[..4] == [ok] + [ok] + [ok] + [ok];
    ThreeInTen(r0, r1, r2, r3, ok);
  }

  lemma FiveVerdicts(cfg: Config, r0: Request, r1: Request, r2: Request, r3: Request, r4: Request)
    requires cfg == Config(2, 10) && r0 == Request("k", 0) && r1 == Request("k", 9) && r2 == Request("k", 10)
    requires r3 == Request("k", 11) && r4 == Request("k", 12)
    ensures var ok := Verdict(true, 0);
            Verdicts(map[], cfg, [r0] + ([r1] + ([r2] + ([r3] + [r4]))), false)
            == [ok] + ([ok] + ([ok] + ([ok] + [Verdict(false, 8)])))
  {
    assert [r4] + [] == [r4];
    FirstVerdict(map["k" := Window(10, 2)], cfg, r4, []);
    assert map["k" := Window(10, 1)]["k" := Window(10, 2)] == map["k" := Window(10, 2)];
    FirstVerdict(map["k" := Window(10, 1)], cfg, r3, [r4]);
    assert map["k" := Window(0, 2)]["k" := Window(10, 1)] == map["k" := Window(10, 1)];
    FirstVerdict(map["k" := Window(0, 2)], cfg, r2, [r3] + [r4]);
    assert map["k" := Window(0, 1)]["k" := Window(0, 2)] == map["k" := Window(0, 2)];
    FirstVerdict(map["k" := Window(0, 1)], cfg, r1, [r2] + ([r3] + [r4]));
    FirstVerdict(map[], cfg, r0, [r1] + ([r2] + ([r3] + [r4])));
  }

  lemma ThreeInTen(r0: Request, r1: Request, r2: Request, r3: Request, ok: Verdict)
    requires r0 == Request("k", 0) && r1 == Request("k", 9) && r2 == Request("k", 10) && r3 == Request("k", 11)
    requires ok.allowed
    ensures AdmittedFrom([r0] + [r1] + [r2] + [r3], [ok] + [ok] + [ok] + [ok], "k", 3) == 3
  {
    assert [] + [r0] == [r0] && [] + [ok] == [ok];
    AdmittedAppend([], [], r0, ok, "k", 3);
    AdmittedAppend([r0], [ok], r1, ok, "k", 3);
    AdmittedAppend([r0] + [r1], [ok] + [ok], r2, ok, "k", 3);
    AdmittedAppend([r0] + [r1] + [r2], [ok] + [ok] + [ok], r3, ok, "k", 3);
  }

  lemma FirstVerdict(windows: Windows, cfg: Config, r: Request, rest: seq<Request>)
    ensures Verdicts(windows, cfg, [r] + rest, false)
            == [Judge(windows, cfg, r)] + Verdicts(Remember(windows, cfg, r), cfg, rest, false)
  {
    assert ([r] + rest)[1..] == rest;
  }

  lemma OrderedFive(a: Request, b: Request, c: Request, d: Request, e: Request)
    requires 0 <= a.at <= b.at <= c.at <= d.at <= e.at
    ensures Ordered([a] + ([b] + ([c] + ([d] + [e]))), 0)
  {
    OrderedCons(e, [], d.at);
    assert [e] + [] == [e];
    OrderedCons(d, [e], c.at);
    OrderedCons(c, [d] + [e], b.at);
    OrderedCons(b, [c] + ([d] + [e]), a.at);
    OrderedCons(a, [b] + ([c] + ([d] + [e])), 0);
  }

  lemma OrderedCons(r: Request, rest: seq<Request>, now: int)
    requires now <= r.at && Ordered(rest, r.at)
    ensures Ordered([r] + rest, now)
  {
    assert ([r] + rest)[1..] == rest;
  }

  // ----- Retry-After -----

  /** The Retry-After header in seconds: whole seconds of the remaining time, plus one. */
  function RetryAfterHeader(v: Verdict): int {
    v.retryAfter / SECOND + 1
  }

  /** The header is the least number of whole seconds past the remaining time. */
  lemma HeaderIsLeast(v: Verdict)
    requires v.retryAfter >= 0
    ensures (RetryAfterHeader(v) - 1) * 1_000_000_000 <= v.retryAfter < RetryAfterHeader(v) * 1_000_000_000
  {}

  /** A rejected client that waits as long as the limiter says, or as the header says, is
      admitted when it asks again; asking any sooner it is not. */
  lemma RetryAfterIsExact(windows: Windows, cfg: Config, key: string, now: int, later: int)
    requires cfg.interval > 0 && now <= later
    requires !Judge(windows, cfg, Request(key, now)).allowed
    ensures var v := Judge(windows, cfg, Request(key, now));
            && Remember(windows, cfg, Request(key, now)) == windows
            && (Judge(windows, cfg, Request(key, later)).allowed <==> later >= now + v.retryAfter)
            && Judge(windows, cfg, Request(key, now + RetryAfterHeader(v) * SECOND)).allowed
  {
    var v := Judge(windows, cfg, Request(key, now));
    assert v.retryAfter == v.retryAfter / SECOND * SECOND + v.retryAfter % SECOND;
  }
}
