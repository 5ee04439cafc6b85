/** The shared fixed-window rate limiter (RedisRateLimiter of apps/gateway/services.py) over whole runs:
    any number of gateway replicas calling it for any keys, on one millisecond clock. */
module RateLimiter {
  import opened PyStrings
  import opened RedisKeys
  import opened RedisStore

  type Positive = n: nat | n > 0 witness 1

  /** One allow_request at instant `at`. The script may not execute, or execute and lose its reply. */
  datatype Call = Call(key: string, limit: nat, window: Positive, at: nat, executed: bool, replied: bool)

  /** Unavailable stands for RateLimitBackendUnavailable. */
  datatype Outcome = Admitted | Refused | Unavailable

  /** The aligned window of an instant: whole seconds, then whole windows. */
  function Window(at: nat, window: Positive): nat { at / 1000 / window }

  /** The instant a window ends. */
  function Boundary(w: nat, window: Positive): nat { (w + 1) * window * 1000 }

  function Ttl(at: nat, window: Positive): nat { window - at / 1000 % window }

  function CounterKey(c: Call): string { WindowKey(c.key, Window(c.at, c.window)) }

  /** allow_request on what Redis shows at the instant of the call. */
  function Allow(s: Store, c: Call): (Store, Outcome) {
    if !c.executed then (s, Unavailable)
    else
      var (after, allowed) := CountCall(s, CounterKey(c), c.limit, Ttl(c.at, c.window), c.at);
      (after, if !c.replied || allowed.None? then Unavailable else if allowed.value then Admitted else Refused)
  }

  datatype Run = Run(calls: seq<Call>, stores: seq<Store>, outcomes: seq<Outcome>)

  ghost predicate IsRun(r: Run) {
    && |r.stores| == |r.calls| + 1 && |r.outcomes| == |r.calls| && r.stores[0] == map[]
    && (forall i, j :: 0 <= i <= j < |r.calls| ==> r.calls[i].at <= r.calls[j].at)
    && (forall i :: 0 <= i < |r.calls| ==>
          (r.stores[i + 1], r.outcomes[i]) == Allow(Unexpired(r.stores[i], r.calls[i].at), r.calls[i]))
  }

  /** Callers of a key agree on the length of its windows. */
  predicate Uniform(r: Run, key: string, window: Positive) {
    forall c <- r.calls :: c.key == key ==> c.window == window
  }

  predicate Hits(c: Call, key: string, w: nat) { c.key == key && Window(c.at, c.window) == w }

  /** Executed calls of a key in one window among the first `n`. */
  function Counted(r: Run, key: string, w: nat, n: nat): nat
    requires n <= |r.calls|
  {
    if n == 0 then 0
    else Counted(r, key, w, n - 1) + if Hits(r.calls[n - 1], key, w) && r.calls[n - 1].executed then 1 else 0
  }

  /** Admitted calls of a key in the windows from `lo` up to `hi` among the first `n`. */
  function Admissions(r: Run, key: string, lo: nat, hi: nat, n: nat): nat
    requires n <= |r.calls| == |r.outcomes|
  {
    if n == 0 then 0
    else
      var c := r.calls[n - 1];
      Admissions(r, key, lo, hi, n - 1) +
      if c.key == key && lo <= Window(c.at, c.window) < hi && r.outcomes[n - 1] == Admitted then 1 else 0
  }

  // ---- the clock ----

  lemma WindowBounds(at: nat, window: Positive)
    ensures Window(at, window) * window * 1000 <= at < Boundary(Window(at, window), window)
    ensures Boundary(Window(at, window), window) == at - at % 1000 + 1000 * Ttl(at, window)
  {
    var now := at / 1000;
    var q, m := now / window, now % window;
    assert now == q * window + m;
    assert at == 1000 * now + at % 1000;
    assert (q + 1) * window == q * window + window;
  }

  lemma SameOrder(v: nat, w: nat, factor: nat)
    requires v <= w
    ensures v * factor <= w * factor
  {
  }

  lemma WindowMonotone(a: nat, b: nat, window: Positive)
    requires a <= b
    ensures Window(a, window) <= Window(b, window)
  {
    WindowBounds(a, window);
    WindowBounds(b, window);
    if Window(b, window) < Window(a, window) {
      SameOrder(Window(b, window) + 1, Window(a, window), window);
    }
  }

  /** The expiry the first call of a window sets lies within the second after its end. */
  lemma FirstExpiry(c: Call)
    ensures var end := Boundary(Window(c.at, c.window), c.window);
            end <= c.at + 1000 * Ttl(c.at, c.window) < end + 1000
  {
    WindowBounds(c.at, c.window);
  }

  // ---- the counter ----

  /** The counter of a window after `n` calls: absent before the first, then exactly the number of
      executed calls, expiring only once the window is over. */
  ghost predicate CounterOk(r: Run, key: string, window: Positive, w: nat, n: nat)
    requires n <= |r.calls| < |r.stores|
  {
    var s, k, count, end := r.stores[n], WindowKey(key, w), Counted(r, key, w, n), Boundary(w, window);
    if k in s then
      && count > 0 && s[k].value == Str(count)
      && s[k].expires.Some? && end <= s[k].expires.value < end + 1000
    else count == 0 || (n > 0 && end <= r.calls[n - 1].at)
  }

  lemma OtherCounter(s: Store, c: Call, k: string)
    requires CounterKey(c) != k || !c.executed
    ensures k in Allow(s, c).0 <==> k in s
    ensures k in s ==> Allow(s, c).0[k] == s[k]
  {
    hide Str, WindowKey;
  }

  /** A call in the window finds the counter alive and moves it by one. */
  lemma OwnCounter(r: Run, key: string, window: Positive, w: nat, n: nat)
    requires IsRun(r) && n < |r.calls| && Hits(r.calls[n], key, w) && r.calls[n].executed && r.calls[n].window == window
    requires CounterOk(r, key, window, w, n)
    ensures CounterOk(r, key, window, w, n + 1)
    ensures var c := r.calls[n]; var rank := Counted(r, key, w, n + 1);
            r.outcomes[n] == if !c.replied then Unavailable else if rank <= c.limit then Admitted else Refused
  {
    hide Str, WindowKey, Window, Boundary, Ttl, Int, IsDecimal;
    var c := r.calls[n];
    var s := r.stores[n];
    WindowBounds(c.at, window);
    FirstExpiry(c);
    IntStr(Counted(r, key, w, n));
    assert n > 0 ==> r.calls[n - 1].at <= c.at;
    assert WindowKey(key, w) in s ==> WindowKey(key, w) in Unexpired(s, c.at);
    assert (r.stores[n + 1], r.outcomes[n]) == Allow(Unexpired(s, c.at), c);
  }

  lemma CounterStep(r: Run, key: string, window: Positive, w: nat, n: nat)
    requires IsRun(r) && Uniform(r, key, window) && n < |r.calls| && CounterOk(r, key, window, w, n)
    ensures CounterOk(r, key, window, w, n + 1)
  {
    hide Str, WindowKey, Window, Boundary, Allow;
    var c := r.calls[n];
    var s := r.stores[n];
    assert c in r.calls;
    if Hits(c, key, w) && c.executed {
      OwnCounter(r, key, window, w, n);
    } else {
      if CounterKey(c) == WindowKey(key, w) { WindowKeyInjective(c.key, Window(c.at, c.window), key, w); }
      OtherCounter(Unexpired(s, c.at), c, WindowKey(key, w));
      assert n > 0 ==> r.calls[n - 1].at <= c.at;
      assert r.stores[n + 1] == Allow(Unexpired(s, c.at), c).0;
    }
  }

  lemma {:induction false} Counters(r: Run, key: string, window: Positive, w: nat, n: nat)
    requires IsRun(r) && Uniform(r, key, window) && n <= |r.calls|
    ensures CounterOk(r, key, window, w, n)
  {
    if n > 0 {
      Counters(r, key, window, w, n - 1);
      CounterStep(r, key, window, w, n - 1);
    }
  }

  // ---- what is admitted ----

  /** A call that executes and is answered is admitted exactly when its rank among the executed calls of
      its window is within its limit. */
  lemma AdmittedByRank(r: Run, key: string, window: Positive, i: nat)
    requires IsRun(r) && Uniform(r, key, window) && i < |r.calls| && r.calls[i].key == key
    ensures var c := r.calls[i]; var rank := Counted(r, key, Window(c.at, window), i + 1);
            r.outcomes[i] == if !c.executed || !c.replied then Unavailable
                             else if rank <= c.limit then Admitted else Refused
  {
    hide WindowKey, Window, Boundary, Counted;
    var c := r.calls[i];
    assert c in r.calls;
    assert (r.stores[i + 1], r.outcomes[i]) == Allow(Unexpired(r.stores[i], c.at), c);
    if c.executed {
      Counters(r, key, window, Window(c.at, window), i);
      OwnCounter(r, key, window, Window(c.at, window), i);
    }
  }

  /** Calls of a key in one window among the first `n`, executed or not. */
  function Calls(r: Run, key: string, w: nat, n: nat): nat
    requires n <= |r.calls|
  {
    if n == 0 then 0 else Calls(r, key, w, n - 1) + if Hits(r.calls[n - 1], key, w) then 1 else 0
  }

  function Min(a: nat, b: nat): nat { if a <= b then a else b }

  /** Without failed evaluations a fixed limit admits exactly the first `limit` calls of every window,
      whichever replicas make them. */
  lemma {:induction false} ExactQuota(r: Run, key: string, window: Positive, limit: nat, w: nat, n: nat)
    requires IsRun(r) && Uniform(r, key, window) && n <= |r.calls|
    requires forall c <- r.calls :: Hits(c, key, w) ==> c.executed && c.replied && c.limit == limit
    ensures Admissions(r, key, w, w + 1, n) == Min(Calls(r, key, w, n), limit)
    ensures Calls(r, key, w, n) == Counted(r, key, w, n)
  {
    hide Window, IsRun;
    if n > 0 {
      ExactQuota(r, key, window, limit, w, n - 1);
      assert r.calls[n - 1] in r.calls;
      if r.calls[n - 1].key == key { AdmittedByRank(r, key, window, n - 1); }
    }
  }

  /** Whatever fails and however the limit varies, a window never admits more than the largest limit. */
  lemma {:induction false} QuotaBound(r: Run, key: string, window: Positive, limit: nat, w: nat, n: nat)
    requires IsRun(r) && Uniform(r, key, window) && n <= |r.calls|
    requires forall c <- r.calls :: Hits(c, key, w) ==> c.limit <= limit
    ensures Admissions(r, key, w, w + 1, n) <= Min(Counted(r, key, w, n), limit)
  {
    hide Window, IsRun;
    if n > 0 {
      QuotaBound(r, key, window, limit, w, n - 1);
      assert r.calls[n - 1] in r.calls;
      if r.calls[n - 1].key == key { AdmittedByRank(r, key, window, n - 1); }
    }
  }

  // ---- memory ----

  lemma CountedWindow(r: Run, key: string, window: Positive, w: nat, n: nat, t: nat)
    requires IsRun(r) && Uniform(r, key, window) && n <= |r.calls| && Counted(r, key, w, n) > 0
    requires forall c <- r.calls :: c.at <= t
    ensures w <= Window(t, window)
  {
    hide Window;
    var c := r.calls[n - 1];
    assert c in r.calls;
    if Hits(c, key, w) {
      WindowMonotone(c.at, t, window);
    } else {
      CountedWindow(r, key, window, w, n - 1, t);
    }
  }

  /** At any instant at most two counters of a key are alive: that of the current window and that of the
      one before. */
  lemma LiveWindows(r: Run, key: string, window: Positive, w: nat, t: nat)
    requires IsRun(r) && Uniform(r, key, window) && (forall c <- r.calls :: c.at <= t)
    requires WindowKey(key, w) in Unexpired(r.stores[|r.calls|], t)
    ensures w <= Window(t, window) <= w + 1
  {
    hide WindowKey, IsRun, Counted;
    Counters(r, key, window, w, |r.calls|);
    CountedWindow(r, key, window, w, |r.calls|, t);
    assert t < Boundary(w, window) + 1000;
    WindowBounds(t, window);
    assert (w + 2) * window == (w + 1) * window + window;
    if w + 1 < Window(t, window) {
      SameOrder(w + 2, Window(t, window), window);
    }
  }

  // ---- bursts ----

  lemma {:induction false} AdmissionsSplit(r: Run, key: string, lo: nat, mid: nat, hi: nat, n: nat)
    requires n <= |r.calls| == |r.outcomes| && lo <= mid <= hi
    ensures Admissions(r, key, lo, hi, n) == Admissions(r, key, lo, mid, n) + Admissions(r, key, mid, hi, n)
  {
    hide Window;
    if n > 0 { AdmissionsSplit(r, key, lo, mid, hi, n - 1); }
  }

  lemma {:induction false} NoWindows(r: Run, key: string, lo: nat, n: nat)
    requires n <= |r.calls| == |r.outcomes|
    ensures Admissions(r, key, lo, lo, n) == 0
  {
    if n > 0 { NoWindows(r, key, lo, n - 1); }
  }

  lemma {:induction false} ManyWindows(r: Run, key: string, window: Positive, limit: nat, lo: nat, m: nat)
    requires IsRun(r) && Uniform(r, key, window) && forall c <- r.calls :: c.key == key ==> c.limit <= limit
    ensures Admissions(r, key, lo, lo + m, |r.calls|) <= m * limit
  {
    hide Window, Admissions, Uniform;
    if m == 0 {
      NoWindows(r, key, lo, |r.calls|);
    } else {
      ManyWindows(r, key, window, limit, lo, m - 1);
      AdmissionsSplit(r, key, lo, lo + m - 1, lo + m, |r.calls|);
      QuotaBound(r, key, window, limit, lo + m - 1, |r.calls|);
      assert m * limit == (m - 1) * limit + limit;
    }
  }

  /** Admitted calls of a key from instant `a` to instant `b`, both included. */
  function AdmittedDuring(r: Run, key: string, a: nat, b: nat, n: nat): nat
    requires n <= |r.calls| == |r.outcomes|
  {
    if n == 0 then 0
    else
      var c := r.calls[n - 1];
      AdmittedDuring(r, key, a, b, n - 1) +
      if c.key == key && a <= c.at <= b && r.outcomes[n - 1] == Admitted then 1 else 0
  }

  lemma {:induction false} DuringWindows(r: Run, key: string, window: Positive, a: nat, b: nat, n: nat)
    requires n <= |r.calls| == |r.outcomes| && Uniform(r, key, window) && a <= b
    ensures AdmittedDuring(r, key, a, b, n) <= Admissions(r, key, Window(a, window), Window(b, window) + 1, n)
  {
    hide Window;
    if n > 0 {
      DuringWindows(r, key, window, a, b, n - 1);
      var c := r.calls[n - 1];
      assert c in r.calls;
      if c.key == key && a <= c.at <= b {
        WindowMonotone(a, c.at, window);
        WindowMonotone(c.at, b, window);
      }
    }
  }

  /** Windows of a length that fit into a duration, rounded up. */
  function WindowsIn(duration: nat, window: Positive): nat { (duration + 1000 * window - 1) / (1000 * window) }

  lemma LengthsApart(a: nat, d: nat, u: nat, v: nat, m: nat, length: nat)
    requires a < (u + 1) * length && v * length <= a + d && d <= m * length
    ensures v <= u + m
  {
    assert (u + m + 1) * length == (u + 1) * length + m * length;
    if u + m < v {
      SameOrder(u + m + 1, v, length);
    }
  }

  lemma RoundedUp(d: nat, length: Positive)
    ensures d <= (d + length - 1) / length * length
  {
    var m, rest := (d + length - 1) / length, (d + length - 1) % length;
    assert d + length - 1 == m * length + rest;
  }

  lemma Regrouped(w: nat, window: Positive)
    ensures w * window * 1000 == w * (1000 * window)
  {
  }

  lemma WindowsApart(a: nat, duration: nat, window: Positive)
    ensures Window(a + duration, window) <= Window(a, window) + WindowsIn(duration, window)
  {
    hide Ttl, Window;
    var u, v := Window(a, window), Window(a + duration, window);
    WindowBounds(a, window);
    WindowBounds(a + duration, window);
    Regrouped(u + 1, window);
    Regrouped(v, window);
    RoundedUp(duration, 1000 * window);
    LengthsApart(a, duration, u, v, WindowsIn(duration, window), 1000 * window);
  }

  /** No interval admits more than one limit for each window length it spans and one more; so an interval as
      long as a window admits at most twice the limit. */
  lemma BoundedBurst(r: Run, key: string, window: Positive, limit: nat, a: nat, duration: nat)
    requires IsRun(r) && Uniform(r, key, window) && forall c <- r.calls :: c.key == key ==> c.limit <= limit
    ensures AdmittedDuring(r, key, a, a + duration, |r.calls|) <= (WindowsIn(duration, window) + 1) * limit
    ensures WindowsIn(1000 * window, window) == 1
  {
    hide Window, AdmittedDuring, Admissions, Uniform;
    WindowMonotone(a, a + duration, window);
    var u, v := Window(a, window), Window(a + duration, window);
    DuringWindows(r, key, window, a, a + duration, |r.calls|);
    ManyWindows(r, key, window, limit, u, v + 1 - u);
    WindowsApart(a, duration, window);
    SameOrder(v + 1 - u, WindowsIn(duration, window) + 1, limit);
  }

  // ---- one call ----

  lemma SameTimes(r: Run, c: Call)
    requires IsRun(r) && forall d <- r.calls :: d.at <= c.at
    ensures forall i, j :: 0 <= i <= j < |r.calls| + 1 ==> (r.calls + [c])[i].at <= (r.calls + [c])[j].at
  {
    forall i, j | 0 <= i <= j < |r.calls| + 1 ensures (r.calls + [c])[i].at <= (r.calls + [c])[j].at {
      if i < |r.calls| { assert r.calls[i] in r.calls; }
    }
  }

  /** Any later call extends a run. */
  lemma RunExtended(r: Run, c: Call)
    requires IsRun(r) && forall d <- r.calls :: d.at <= c.at
    ensures var (s, outcome) := Allow(Unexpired(r.stores[|r.calls|], c.at), c);
            IsRun(Run(r.calls + [c], r.stores + [s], r.outcomes + [outcome]))
  {
    hide Allow, Unexpired;
    SameTimes(r, c);
  }

  class RedisRateLimiter {
    const client: FakeRedisClient

    constructor (client: FakeRedisClient)
      ensures this.client == client
    {
      this.client := client;
    }

    /** allow_request. */
    method AllowRequest(key: string, limit: nat, window: Positive, now: nat, executed: bool, replied: bool)
        returns (outcome: Outcome)
      requires client.Valid()
      modifies client
      ensures client.Valid()
      ensures outcome == Allow(old(client.View(now)), Call(key, limit, window, now, executed, replied)).1
      ensures forall t :: now <= t ==>
                client.View(t) ==
                Unexpired(Allow(old(client.View(now)), Call(key, limit, window, now, executed, replied)).0, t)
    {
      hide Unexpired, CountCall;
      UnexpiredTwice(client.Contents(), now);
      if !executed {
        return Unavailable;
      }
      var seconds := now / 1000;
      var windowKey := WindowKey(key, seconds / window);
      var ttl := window - seconds % window;
      var allowed := client.EvalCount(windowKey, limit, ttl, now);
      outcome := if !replied || allowed.None? then Unavailable else if allowed.value then Admitted else Refused;
    }
  }
}
