/** One Redis database under everything: readers, publishers and invalidations of the route cache, and
    rate-limit calls of the gateway and the client endpoints, in any order. What the strings in it mean. */
module SharedRedis {
  import opened PyStrings
  import opened Routing
  import opened RouteCatalog
  import opened CacheProtocol
  import opened CacheRefinement
  import opened RedisKeys
  import opened RedisStore
  import Guarantees = CacheGuarantees
  import Limiter = RateLimiter

  datatype Event =
    | Cache(step: Step)
    | Rate(subject: Subject, limit: nat, window: Limiter.Positive, executed: bool, replied: bool)

  /** The cache protocol, the strings visible at its instant, and the limiter calls so far, with the counters
      as they would be in a database of their own. */
  datatype World = World(sys: Sys, store: Store, run: Limiter.Run)

  function Last(run: Limiter.Run): Store { if run.stores == [] then map[] else run.stores[|run.stores| - 1] }

  predicate Possible(w: World, e: Event) { e.Cache? ==> Enabled(w.sys, e.step) }

  function RateCall(w: World, e: Event): Limiter.Call
    requires e.Rate?
  {
    Limiter.Call(RateKey(e.subject), e.limit, e.window, w.sys.clock, e.executed, e.replied)
  }

  /** The run of the limiter with one more call, whose outcome the shared database decides. */
  function Counting(run: Limiter.Run, c: Limiter.Call, outcome: Limiter.Outcome): Limiter.Run {
    Limiter.Run(run.calls + [c], run.stores + [Limiter.Allow(Unexpired(Last(run), c.at), c).0],
      run.outcomes + [outcome])
  }

  function After(w: World, e: Event, encode: Snapshot -> string): World
    requires Possible(w, e)
  {
    match e
    case Cache(step) => World(Next(w.sys, step), StoreAfter(w.sys, step, w.store, encode), w.run)
    case Rate(_, _, _, _, _) =>
      var (store, outcome) := Limiter.Allow(w.store, RateCall(w, e));
      World(w.sys, store, Counting(w.run, RateCall(w, e), outcome))
  }

  function Start(catalog: Catalog): World { World(Init(catalog), map[], Limiter.Run([], [map[]], [])) }

  ghost predicate Runs(w: World, es: seq<Event>, t: World, encode: Snapshot -> string)
    decreases |es|
  {
    if es == [] then w == t else Possible(w, es[0]) && Runs(After(w, es[0], encode), es[1..], t, encode)
  }

  // ---- the invariant ----

  ghost predicate IsCounter(name: string) {
    exists s: Subject, n: nat :: name == WindowKey(RateKey(s), n)
  }

  /** Two databases hold the same counters. */
  ghost predicate SameCounters(a: Store, b: Store) { forall name :: IsCounter(name) ==> SameCell(a, b, name) }

  predicate AllAlive(store: Store, now: nat) { forall k <- store :: Alive(store[k], now) }

  /** The limiter calls form a run, whose counters are those of the shared database. */
  ghost predicate CountersShared(store: Store, run: Limiter.Run, clock: nat) {
    && Limiter.IsRun(run) && (forall c <- run.calls :: c.at <= clock)
    && SameCounters(store, Unexpired(Last(run), clock))
  }

  ghost predicate Good(w: World, encode: Snapshot -> string) {
    && Inv(w.sys) && Represents(w.sys, w.store, encode) && AllAlive(w.store, w.sys.clock)
    && CountersShared(w.store, w.run, w.sys.clock)
  }

  /** No counter is named like a key of the cache. */
  lemma CounterNames(name: string, k: Key)
    requires IsCounter(name)
    ensures name != VersionName(k) && name != DataName(k)
  {
    hide WindowKey, RateKey;
    var s: Subject, n: nat :| name == WindowKey(RateKey(s), n);
    KeyspacesDisjoint(k.project, LStrip(k.path), k.project, LStrip(k.path), s, n);
  }

  // ---- a step of the cache ----

  lemma PublishApart(s: Sys, c: nat, replyLost: bool, store: Store, encode: Snapshot -> string)
    requires Enabled(s, Publish(c, replyLost)) && AllAlive(store, s.clock)
    ensures var after := StoreAfter(s, Publish(c, replyLost), store, encode);
            AllAlive(after, s.clock) && SameCounters(after, store)
  {
    hide VersionName, DataName, Str, IsCounter, Generation;
    var after := StoreAfter(s, Publish(c, replyLost), store, encode);
    forall name | IsCounter(name) ensures SameCell(after, store, name) {
      CounterNames(name, s.calls[c].key);
    }
  }

  lemma InvalidateApart(s: Sys, key: Key, store: Store, encode: Snapshot -> string)
    requires Enabled(s, Invalidate(key)) && AllAlive(store, s.clock)
    ensures var after := StoreAfter(s, Invalidate(key), store, encode);
            AllAlive(after, s.clock) && SameCounters(after, store)
  {
    hide VersionName, DataName, Str, IsCounter, Generation, Enabled, IsDecimal, Int;
    var after := StoreAfter(s, Invalidate(key), store, encode);
    forall name | IsCounter(name) ensures SameCell(after, store, name) {
      CounterNames(name, key);
    }
  }

  /** Apart from the passing of time the cache leaves every counter alone. */
  lemma CacheApart(s: Sys, step: Step, store: Store, encode: Snapshot -> string)
    requires Enabled(s, step) && AllAlive(store, s.clock)
    ensures var t, after := Next(s, step), StoreAfter(s, step, store, encode);
            && AllAlive(after, t.clock) && s.clock <= t.clock && SameCounters(after, Unexpired(store, t.clock))
  {
    hide VersionName, DataName, Str, IsCounter, Enabled;
    hide ReadRoute, ApplyAll, ScheduledAll, PublishIfCurrent, InvalidateKeys;
    StillAlive(store, s.clock);
    match step
    case Publish(c, replyLost) => PublishApart(s, c, replyLost, store, encode);
    case Invalidate(key) => InvalidateApart(s, key, store, encode);
    case _ =>
  }

  lemma StillAlive(store: Store, now: nat)
    requires AllAlive(store, now)
    ensures Unexpired(store, now) == store
  {
  }

  /** Hiding what has expired by `later` agrees on counters that agreed at `now`. */
  lemma CountersLater(store: Store, after: Store, run: Limiter.Run, now: nat, later: nat)
    requires CountersShared(store, run, now) && now <= later
    requires SameCounters(after, Unexpired(store, later))
    ensures CountersShared(after, run, later)
  {
    hide IsCounter, Limiter.IsRun;
    forall name | IsCounter(name) ensures SameCell(after, Unexpired(Last(run), later), name) {
      assert SameCell(after, Unexpired(store, later), name) && SameCell(store, Unexpired(Last(run), now), name);
    }
  }

  lemma CacheStep(w: World, step: Step, encode: Snapshot -> string)
    requires Good(w, encode) && Enabled(w.sys, step)
    ensures Good(After(w, Cache(step), encode), encode)
  {
    hide Inv, Represents, AllAlive, CountersShared, SameCounters, Enabled, Next, StoreAfter, Unexpired;
    StepKeepsInv(w.sys, step);
    StepRefined(w.sys, step, w.store, encode);
    CacheApart(w.sys, step, w.store, encode);
    var t := Next(w.sys, step);
    CountersLater(w.store, StoreAfter(w.sys, step, w.store, encode), w.run, w.sys.clock, t.clock);
  }

  // ---- a limiter call ----

  /** Two databases that agree on a call's counter decide it alike and still agree on all counters. */
  lemma CallAgrees(a: Store, b: Store, c: Limiter.Call)
    requires SameCounters(a, b) && IsCounter(Limiter.CounterKey(c))
    ensures Limiter.Allow(a, c).1 == Limiter.Allow(b, c).1
    ensures SameCounters(Limiter.Allow(a, c).0, Limiter.Allow(b, c).0)
  {
    hide IsCounter, Limiter.CounterKey, Str, Int, IsDecimal, Limiter.Ttl;
    assert SameCell(a, b, Limiter.CounterKey(c));
  }

  /** What a call writes is alive at its instant. */
  lemma CallAlive(s: Store, c: Limiter.Call)
    requires AllAlive(s, c.at)
    ensures AllAlive(Limiter.Allow(s, c).0, c.at)
  {
    hide Str, Int, IsDecimal, Limiter.CounterKey;
  }

  lemma CounterOfCall(subject: Subject, c: Limiter.Call)
    requires c.key == RateKey(subject)
    ensures IsCounter(Limiter.CounterKey(c))
  {
    hide RateKey, WindowKey;
  }

  lemma CallRecorded(run: Limiter.Run, c: Limiter.Call, outcome: Limiter.Outcome)
    requires Limiter.IsRun(run) && forall d <- run.calls :: d.at <= c.at
    requires outcome == Limiter.Allow(Unexpired(Last(run), c.at), c).1
    ensures var r := Counting(run, c, outcome);
            && Limiter.IsRun(r) && (forall d <- r.calls :: d.at <= c.at)
            && Last(r) == Limiter.Allow(Unexpired(Last(run), c.at), c).0
  {
    hide Limiter.Allow, Unexpired;
    Limiter.RunExtended(run, c);
  }

  lemma CallCounted(w: World, e: Event, encode: Snapshot -> string)
    requires CountersShared(w.store, w.run, w.sys.clock) && AllAlive(w.store, w.sys.clock) && e.Rate?
    ensures var t := After(w, e, encode);
            CountersShared(t.store, t.run, t.sys.clock) && AllAlive(t.store, t.sys.clock)
  {
    hide IsCounter, SameCounters, AllAlive, Limiter.IsRun, Limiter.Allow, Unexpired, Counting, Last, RateKey;
    var c := RateCall(w, e);
    var own := Unexpired(Last(w.run), c.at);
    CounterOfCall(e.subject, c);
    CallAgrees(w.store, own, c);
    CallAlive(w.store, c);
    OwnAlive(Last(w.run), c.at);
    CallAlive(own, c);
    StillAlive(Limiter.Allow(own, c).0, c.at);
    CallRecorded(w.run, c, Limiter.Allow(w.store, c).1);
  }

  lemma OwnAlive(s: Store, now: nat)
    ensures AllAlive(Unexpired(s, now), now)
  {
  }

  lemma RateStep(w: World, e: Event, encode: Snapshot -> string)
    requires Good(w, encode) && Possible(w, e) && e.Rate?
    ensures Good(After(w, e, encode), encode)
  {
    hide Inv, Represents, AllAlive, CountersShared, Unexpired, CountCall;
    CallCounted(w, e, encode);
    var c := RateCall(w, e);
    RateCallApart(w.sys, w.store, e.subject, Limiter.Window(c.at, c.window), e.limit, Limiter.Ttl(c.at, c.window),
      encode);
  }

  // ---- whole runs ----

  lemma StartGood(catalog: Catalog, encode: Snapshot -> string)
    requires WellFormed(catalog)
    ensures Good(Start(catalog), encode)
  {
    hide Represents, Inv, WellFormed;
    InitInv(catalog);
    EmptyRepresents(catalog, encode);
  }

  lemma {:induction false} RunGood(w: World, es: seq<Event>, t: World, encode: Snapshot -> string)
    requires Good(w, encode) && Runs(w, es, t, encode)
    ensures Good(t, encode)
    decreases |es|
  {
    hide Good, After, Enabled;
    if es != [] {
      if es[0].Cache? {
        CacheStep(w, es[0].step, encode);
      } else {
        RateStep(w, es[0], encode);
      }
      RunGood(After(w, es[0], encode), es[1..], t, encode);
    }
  }

  /** The steps of the cache among the events. */
  function CacheSteps(es: seq<Event>): seq<Step> {
    if es == [] then [] else (if es[0].Cache? then [es[0].step] else []) + CacheSteps(es[1..])
  }

  lemma {:induction false} CacheRun(w: World, es: seq<Event>, t: World, encode: Snapshot -> string)
    requires Runs(w, es, t, encode)
    ensures Guarantees.Runs(w.sys, CacheSteps(es), t.sys)
    decreases |es|
  {
    hide Enabled, Next, StoreAfter, Limiter.Allow, Counting;
    if es != [] {
      CacheRun(After(w, es[0], encode), es[1..], t, encode);
      if es[0].Cache? {
        assert CacheSteps(es)[1..] == CacheSteps(es[1..]);
      } else {
        assert CacheSteps(es) == CacheSteps(es[1..]);
      }
    }
  }

  /** From the empty database on, whatever runs: the state of the cache is one its protocol reaches, the visible
      strings show its generations and entries, and the limiter calls are a run of the limiter. */
  lemma OneRedis(catalog: Catalog, es: seq<Event>, t: World, encode: Snapshot -> string)
    requires WellFormed(catalog) && Runs(Start(catalog), es, t, encode)
    ensures Guarantees.Reachable(t.sys) && Inv(t.sys) && Represents(t.sys, t.store, encode) && Limiter.IsRun(t.run)
  {
    hide Runs, Inv, Represents, WellFormed, Guarantees.Runs;
    StartGood(catalog, encode);
    RunGood(Start(catalog), es, t, encode);
    CacheRun(Start(catalog), es, t, encode);
  }

  /** The text a GET of a data key finds encodes what the database held for the key at some instant of the
      last minute before its publisher's delay, in a version no older than the last invalidation of the key. */
  lemma CachedText(catalog: Catalog, es: seq<Event>, t: World, k: Key, encode: Snapshot -> string) returns (v: nat)
    requires WellFormed(catalog) && Runs(Start(catalog), es, t, encode)
    requires ValidBasePath(k.path) && DataName(k) in t.store
    ensures Floor(t.sys, k) <= v < |t.sys.history| && ReadRoute(t.sys.history[v], k).Some?
    ensures t.store[DataName(k)].value == encode(ReadRoute(t.sys.history[v], k).value)
    ensures k in t.sys.data && CurrentAt(t.sys, v, t.sys.data[k].readAt)
    ensures t.sys.clock < t.sys.data[k].publishedAt + 60000
  {
    hide Runs, WellFormed, ReadRoute, ValidBasePath, Settled, CallOk;
    OneRedis(catalog, es, t, encode);
    assert Shown(t.sys, t.store, k, encode);
    v := t.sys.data[k].version;
    assert EntryOk(t.sys, k, t.sys.data[k]);
  }

  /** While its window lasts, the text of a counter is the number of executed calls of its subject. */
  lemma CounterText(catalog: Catalog, es: seq<Event>, t: World, subject: Subject, window: Limiter.Positive, n: nat,
                    encode: Snapshot -> string)
    requires WellFormed(catalog) && Runs(Start(catalog), es, t, encode)
    requires Limiter.Uniform(t.run, RateKey(subject), window) && t.sys.clock < Limiter.Boundary(n, window)
    ensures var name := WindowKey(RateKey(subject), n);
            var count := Limiter.Counted(t.run, RateKey(subject), n, |t.run.calls|);
            && (name in t.store <==> count > 0)
            && (name in t.store ==> t.store[name].value == Str(count))
  {
    hide Runs, WellFormed, Represents, Inv, RateKey, WindowKey, Str, Limiter.Boundary, Limiter.Counted, Limiter.Uniform;
    StartGood(catalog, encode);
    RunGood(Start(catalog), es, t, encode);
    Limiter.Counters(t.run, RateKey(subject), window, n, |t.run.calls|);
    var name := WindowKey(RateKey(subject), n);
    assert IsCounter(name);
    assert SameCell(t.store, Unexpired(Last(t.run), t.sys.clock), name);
    assert |t.run.calls| > 0 ==> t.run.calls[|t.run.calls| - 1] in t.run.calls;
  }
}
