/** The generation-guarded route cache as a transition system: any number of get_route calls, committed
    writes, after-commit invalidations that run late or are lost, Redis errors, and a clock
    (apps/gateway/route_cache.py). Database reads see the latest commit; a transaction commits, with its
    scheduled invalidations, in one step; generation keys are never lost. */
module CacheProtocol {
  import opened PyStrings
  import opened Routing
  import opened RouteCatalog

  const TTL: nat := 60000

  /** A cached document with the history of how it got there. */
  datatype Entry = Entry(value: Snapshot, version: nat, readAt: nat, publishedAt: nat)

  datatype Source = Hit | Published | Missing | Fallback(error: bool)

  /** What a call returned, the catalog version it came from, and when that was read and served. `lag` is
      the time its publisher took between reading the database and publishing. */
  datatype Answer = Answer(value: Option<Snapshot>, version: nat, readAt: nat, servedAt: nat, lag: nat, source: Source)

  /** The next operation of a get_route call. */
  datatype Phase =
    | Looking                       // GET the data key
    | Guarding                      // GET the generation key
    | Reading(gen: nat)             // read the database
    | Publishing(gen: nat, value: Snapshot, version: nat, readAt: nat)
    | FallingBack(error: bool)      // read the database and return
    | Served(answer: Answer)

  /** `floor` and `startGen` record the catalog version of the last invalidation of the key, and its
      generation, when the call began. */
  datatype Call = Call(key: Key, floor: nat, startGen: nat, attempts: nat, dbReads: nat, phase: Phase)

  /** `invalidated` holds the catalog version at the last executed invalidation of a key; `scheduled` the keys
      each commit scheduled; `lost` the keys with a lost invalidation that no later one has made up for. */
  datatype Sys = Sys(
    history: seq<Catalog>, times: seq<nat>, clock: nat,
    gens: map<Key, nat>, data: map<Key, Entry>, invalidated: map<Key, nat>,
    scheduled: seq<set<Key>>, pending: multiset<Key>, lost: set<Key>, calls: map<nat, Call>)

  datatype Step =
    | Tick(ms: nat)
    | Begin(call: nat, key: Key)
    | GetData(call: nat)
    | GetGeneration(call: nat)
    | ReadDatabase(call: nat)
    | Publish(call: nat, replyLost: bool)
    | RedisError(call: nat)
    | FallbackRead(call: nat)
    | Commit(writes: seq<Write>)
    | Invalidate(key: Key)
    | LoseInvalidation(key: Key)

  function Gen(s: Sys, k: Key): nat { if k in s.gens then s.gens[k] else 0 }

  function Floor(s: Sys, k: Key): nat { if k in s.invalidated then s.invalidated[k] else 0 }

  function Current(s: Sys): Catalog
    requires s.history != []
  {
    s.history[|s.history| - 1]
  }

  predicate InPhase(s: Sys, c: nat) { c in s.calls && s.history != [] }

  predicate Enabled(s: Sys, step: Step) {
    match step
    case Tick(_) => true
    case Begin(c, key) => c !in s.calls && ValidBasePath(key.path)
    case GetData(c) => InPhase(s, c) && s.calls[c].phase.Looking?
    case GetGeneration(c) => InPhase(s, c) && s.calls[c].phase.Guarding?
    case ReadDatabase(c) => InPhase(s, c) && s.calls[c].phase.Reading?
    case Publish(c, _) => InPhase(s, c) && s.calls[c].phase.Publishing?
    case RedisError(c) =>
      InPhase(s, c) && (s.calls[c].phase.Looking? || s.calls[c].phase.Guarding? || s.calls[c].phase.Publishing?)
    case FallbackRead(c) => InPhase(s, c) && s.calls[c].phase.FallingBack?
    case Commit(ws) => s.history != [] && AllAccepted(Current(s), ws)
    case Invalidate(key) => s.history != [] && ValidBasePath(key.path)
    case LoseInvalidation(key) => key in s.pending
  }

  function WithPhase(s: Sys, c: nat, phase: Phase): Sys
    requires c in s.calls
  {
    s.(calls := s.calls[c := s.calls[c].(phase := phase)])
  }

  /** After a refused publish: another round, or the final read after the third. */
  function Refused(call: Call): Call {
    call.(attempts := call.attempts + 1, phase := if call.attempts + 1 < 3 then Looking else FallingBack(false))
  }

  function Next(s: Sys, step: Step): Sys
    requires Enabled(s, step)
  {
    match step
    case Tick(ms) => s.(clock := s.clock + ms)
    case Begin(c, key) => s.(calls := s.calls[c := Call(key, Floor(s, key), Gen(s, key), 0, 0, Looking)])
    case GetData(c) =>
      var k := s.calls[c].key;
      if k in s.data && s.clock < s.data[k].publishedAt + TTL then
        var e := s.data[k];
        var lag := if e.readAt <= e.publishedAt then e.publishedAt - e.readAt else 0;
        WithPhase(s, c, Served(Answer(Some(e.value), e.version, e.readAt, s.clock, lag, Hit)))
      else WithPhase(s, c, Guarding)
    case GetGeneration(c) => WithPhase(s, c, Reading(Gen(s, s.calls[c].key)))
    case ReadDatabase(c) =>
      var call := s.calls[c];
      var v := |s.history| - 1;
      var read := ReadRoute(Current(s), call.key);
      s.(calls := s.calls[c := call.(
        dbReads := call.dbReads + 1,
        phase := if read.None? then Served(Answer(None, v, s.clock, s.clock, 0, Missing))
                 else Publishing(call.phase.gen, read.value, v, s.clock))])
    case Publish(c, replyLost) =>
      var call := s.calls[c];
      var p := call.phase;
      if Gen(s, call.key) == p.gen then
        var lag := if p.readAt <= s.clock then s.clock - p.readAt else 0;
        var phase := if replyLost then FallingBack(true)
                     else Served(Answer(Some(p.value), p.version, p.readAt, s.clock, lag, Published));
        WithPhase(s.(data := s.data[call.key := Entry(p.value, p.version, p.readAt, s.clock)]), c, phase)
      else if replyLost then WithPhase(s, c, FallingBack(true))
      else s.(calls := s.calls[c := Refused(call)])
    case RedisError(c) => WithPhase(s, c, FallingBack(true))
    case FallbackRead(c) =>
      var call := s.calls[c];
      var answer := Answer(ReadRoute(Current(s), call.key), |s.history| - 1, s.clock, s.clock, 0,
        Fallback(call.phase.error));
      s.(calls := s.calls[c := call.(dbReads := call.dbReads + 1, phase := Served(answer))])
    case Commit(ws) =>
      s.(history := s.history + [ApplyAll(Current(s), ws)], times := s.times + [s.clock],
         scheduled := s.scheduled + [ScheduledAll(Current(s), ws)],
         pending := s.pending + multiset(ScheduledAll(Current(s), ws)))
    case Invalidate(key) =>
      s.(gens := s.gens[key := Gen(s, key) + 1], data := s.data - {key},
         invalidated := s.invalidated[key := |s.history| - 1],
         pending := s.pending - multiset{key}, lost := s.lost - {key})
    case LoseInvalidation(key) => s.(pending := s.pending - multiset{key}, lost := s.lost + {key})
  }

  function Init(catalog: Catalog): Sys {
    Sys([catalog], [0], 0, map[], map[], map[], [], multiset{}, {}, map[])
  }

  // ---- the invariant ----

  /** Version `v` was the committed catalog at instant `t`. */
  predicate CurrentAt(s: Sys, v: nat, t: nat)
  {
    |s.times| == |s.history| && v < |s.history| && s.times[v] <= t && (v + 1 < |s.times| ==> t <= s.times[v + 1])
  }

  ghost predicate Timeline(s: Sys) {
    && |s.times| == |s.history| == |s.scheduled| + 1 && s.times[|s.times| - 1] <= s.clock
    && (forall v :: 0 <= v < |s.history| ==> WellFormed(s.history[v]) && s.history[v].fold == s.history[0].fold)
    && (forall k <- s.invalidated :: s.invalidated[k] < |s.history|)
  }

  /** `value` is what a lookup of `key` found in version `v`, current at `t`. */
  predicate ReadAt(s: Sys, key: Key, value: Option<Snapshot>, v: nat, t: nat) {
    CurrentAt(s, v, t) && t <= s.clock && value == ReadRoute(s.history[v], key)
  }

  predicate EntryOk(s: Sys, k: Key, e: Entry)
  {
    && Floor(s, k) <= e.version && ReadAt(s, k, Some(e.value), e.version, e.readAt)
    && e.readAt <= e.publishedAt <= s.clock
  }

  predicate CallOk(s: Sys, call: Call)
  {
    && call.floor <= Floor(s, call.key) && call.startGen + call.attempts <= Gen(s, call.key)
    && match call.phase
       case Looking => call.attempts < 3 && call.dbReads == call.attempts
       case Guarding => call.attempts < 3 && call.dbReads == call.attempts
       case Reading(g) =>
         && call.attempts < 3 && call.dbReads == call.attempts
         && call.startGen + call.attempts <= g <= Gen(s, call.key)
       case Publishing(g, value, v, t) =>
         && call.attempts < 3 && call.dbReads == call.attempts + 1
         && call.startGen + call.attempts <= g <= Gen(s, call.key)
         && (g == Gen(s, call.key) ==> Floor(s, call.key) <= v)
         && call.floor <= v && ReadAt(s, call.key, Some(value), v, t)
       case FallingBack(error) => call.dbReads <= 3 && (!error ==> call.attempts == 3)
       case Served(a) =>
         && call.dbReads <= 4 && (a.source == Fallback(false) ==> call.attempts == 3)
         && (a.source.Missing? ==> a.value.None?)
         && call.floor <= a.version && ReadAt(s, call.key, a.value, a.version, a.readAt)
         && a.servedAt <= s.clock && a.servedAt <= a.readAt + a.lag + TTL
  }

  /** Since the last invalidation of the key, a commit changed its lookup, which found a row spelt like it, and
      did not schedule it. */
  ghost predicate Missed(s: Sys, k: Key) {
    |s.scheduled| < |s.history| &&
    exists v: nat :: Floor(s, k) <= v < |s.scheduled| && Unscheduled(s, k, v)
  }

  predicate Unscheduled(s: Sys, k: Key, v: nat)
    requires v < |s.scheduled| < |s.history|
  {
    Own(s.history[v], k) && ReadRoute(s.history[v + 1], k) != ReadRoute(s.history[v], k) && k !in s.scheduled[v]
  }

  /** Without a pending, lost or missed invalidation, no commit since the last one changed a lookup that found a
      row spelt like the key. */
  ghost predicate Settled(s: Sys) {
    forall k, v ::
      (&& k !in s.pending && k !in s.lost && !Missed(s, k)
       && Floor(s, k) <= v < |s.history| && Own(s.history[v], k)) ==>
        ReadRoute(s.history[v], k) == ReadRoute(s.history[|s.history| - 1], k)
  }

  ghost predicate Inv(s: Sys) {
    && Timeline(s)
    && (forall k <- s.data :: EntryOk(s, k, s.data[k]))
    && (forall c <- s.calls :: CallOk(s, s.calls[c]))
    && Settled(s)
  }

  /** What every step only moves forward. */
  ghost predicate Extends(s: Sys, t: Sys) {
    && s.history <= t.history && s.times <= t.times && s.scheduled <= t.scheduled && s.clock <= t.clock
    && (forall k :: Gen(s, k) <= Gen(t, k) && Floor(s, k) <= Floor(t, k))
    && (forall k :: Gen(s, k) == Gen(t, k) ==> Floor(s, k) == Floor(t, k))
    && (|s.times| < |t.times| ==> s.clock <= t.times[|s.times|])
    && (forall c <- s.calls :: c in t.calls && t.calls[c].key == s.calls[c].key
          && t.calls[c].floor == s.calls[c].floor && t.calls[c].startGen == s.calls[c].startGen)
  }

  /** The call a step belongs to. */
  function Actor(step: Step): Option<nat> {
    match step
    case Begin(c, _) => Some(c)
    case GetData(c) => Some(c)
    case GetGeneration(c) => Some(c)
    case ReadDatabase(c) => Some(c)
    case Publish(c, _) => Some(c)
    case RedisError(c) => Some(c)
    case FallbackRead(c) => Some(c)
    case _ => None
  }

  /** Nothing but call `c` and possibly the cached entry of its key differs. */
  ghost predicate OnlyCall(s: Sys, t: Sys, c: nat) {
    && c in t.calls && t == s.(data := t.data, calls := s.calls[c := t.calls[c]])
    && (forall k <- t.data :: k != t.calls[c].key ==> k in s.data && t.data[k] == s.data[k])
    && (c in s.calls ==> t.calls[c].key == s.calls[c].key && t.calls[c].floor == s.calls[c].floor
                         && t.calls[c].startGen == s.calls[c].startGen)
  }

  lemma ActorOnly(s: Sys, step: Step)
    requires Enabled(s, step) && Actor(step).Some?
    ensures OnlyCall(s, Next(s, step), Actor(step).value)
  {
    hide ReadRoute, ValidBasePath;
  }

  lemma OnlyCallExtends(s: Sys, t: Sys, c: nat)
    requires Timeline(s) && OnlyCall(s, t, c)
    ensures Extends(s, t) && Timeline(t)
  {
    hide WellFormed;
  }

  lemma InvalidateExtends(s: Sys, key: Key)
    requires Timeline(s) && Enabled(s, Invalidate(key))
    ensures Extends(s, Next(s, Invalidate(key))) && Timeline(Next(s, Invalidate(key)))
  {
    hide WellFormed, ValidBasePath;
  }

  lemma CommitExtends(s: Sys, ws: seq<Write>)
    requires Timeline(s) && Enabled(s, Commit(ws))
    ensures Extends(s, Next(s, Commit(ws))) && Timeline(Next(s, Commit(ws)))
  {
    hide WellFormed, AllAccepted, ApplyAll, ScheduledAll, ReadRoute;
    TransactionKeepsTables(Current(s), ws);
  }

  lemma StepExtends(s: Sys, step: Step)
    requires Timeline(s) && Enabled(s, step)
    ensures Extends(s, Next(s, step)) && Timeline(Next(s, step))
  {
    hide OnlyCall;
    if Actor(step).Some? {
      ActorOnly(s, step);
      OnlyCallExtends(s, Next(s, step), Actor(step).value);
    } else if step.Commit? {
      CommitExtends(s, step.writes);
    } else if step.Invalidate? {
      InvalidateExtends(s, step.key);
    }
  }

  lemma ReadAtStable(s: Sys, t: Sys, key: Key, value: Option<Snapshot>, v: nat, at: nat)
    requires Timeline(s) && Timeline(t) && Extends(s, t) && ReadAt(s, key, value, v, at)
    ensures ReadAt(t, key, value, v, at)
  {
    hide ReadRoute, WellFormed;
  }

  lemma CallStable(s: Sys, t: Sys, call: Call)
    requires Timeline(s) && Timeline(t) && Extends(s, t) && CallOk(s, call)
    ensures CallOk(t, call)
  {
    hide ReadAt;
    match call.phase
    case Publishing(_, value, v, at) => ReadAtStable(s, t, call.key, Some(value), v, at);
    case Served(a) => ReadAtStable(s, t, call.key, a.value, a.version, a.readAt);
    case _ =>
  }

  // ---- every step keeps the invariant ----

  lemma ReadNow(s: Sys, key: Key)
    requires Timeline(s)
    ensures ReadAt(s, key, ReadRoute(Current(s), key), |s.history| - 1, s.clock)
    ensures Floor(s, key) <= |s.history| - 1
  {
    hide ReadRoute, WellFormed;
  }

  lemma HitOk(s: Sys, c: nat)
    requires Inv(s) && Enabled(s, GetData(c))
    ensures CallOk(s, Next(s, GetData(c)).calls[c])
  {
    hide ReadAt, Settled, ReadRoute, WellFormed;
    var key := s.calls[c].key;
    assert key in s.data ==> EntryOk(s, key, s.data[key]);
    assert CallOk(s, s.calls[c]);
  }

  lemma PublishOk(s: Sys, c: nat, replyLost: bool)
    requires Inv(s) && Enabled(s, Publish(c, replyLost))
    ensures CallOk(s, Next(s, Publish(c, replyLost)).calls[c])
  {
    hide Settled, ReadRoute, WellFormed, EntryOk;
    assert CallOk(s, s.calls[c]);
  }

  lemma DatabaseOk(s: Sys, step: Step)
    requires Inv(s) && Enabled(s, step) && (step.ReadDatabase? || step.FallbackRead?)
    ensures CallOk(s, Next(s, step).calls[Actor(step).value])
  {
    hide ReadAt, Settled, ReadRoute, WellFormed, EntryOk;
    var c := Actor(step).value;
    ReadNow(s, s.calls[c].key);
    assert CallOk(s, s.calls[c]);
  }

  lemma MovingOk(s: Sys, step: Step)
    requires Inv(s) && Enabled(s, step) && (step.Begin? || step.GetGeneration? || step.RedisError?)
    ensures CallOk(s, Next(s, step).calls[Actor(step).value])
  {
    hide ReadAt, Settled, ReadRoute, WellFormed, EntryOk, ValidBasePath;
    var c := Actor(step).value;
    assert c in s.calls ==> CallOk(s, s.calls[c]);
  }

  /** The call that takes the step is fine afterwards. */
  lemma ActorOk(s: Sys, step: Step)
    requires Inv(s) && Enabled(s, step) && Actor(step).Some?
    ensures CallOk(s, Next(s, step).calls[Actor(step).value])
  {
    hide Inv, CallOk, Next, ValidBasePath;
    match step
    case GetData(c) => HitOk(s, c);
    case Publish(c, replyLost) => PublishOk(s, c, replyLost);
    case ReadDatabase(_) => DatabaseOk(s, step);
    case FallbackRead(_) => DatabaseOk(s, step);
    case Begin(_, _) => MovingOk(s, step);
    case GetGeneration(_) => MovingOk(s, step);
    case RedisError(_) => MovingOk(s, step);
  }

  /** Cached entries: the only one a call adds is the one it publishes under an unchanged generation. */
  lemma EntriesOk(s: Sys, step: Step)
    requires Inv(s) && Enabled(s, step)
    ensures forall k <- Next(s, step).data :: EntryOk(Next(s, step), k, Next(s, step).data[k])
  {
    var t := Next(s, step);
    StepExtends(s, step);
    forall k | k in t.data ensures EntryOk(t, k, t.data[k]) {
      if k in s.data && t.data[k] == s.data[k] {
        EntryStable(s, step, k);
      } else {
        PublishedOk(s, step, k);
      }
    }
  }

  lemma EntryStable(s: Sys, step: Step, k: Key)
    requires Inv(s) && Enabled(s, step) && k in s.data && k in Next(s, step).data
    requires Extends(s, Next(s, step)) && Timeline(Next(s, step))
    ensures EntryOk(Next(s, step), k, s.data[k])
  {
    hide ReadAt, Settled, ReadRoute, WellFormed, CallOk, ValidBasePath, AllAccepted, ApplyAll, ScheduledAll;
    var t, e := Next(s, step), s.data[k];
    assert EntryOk(s, k, e);
    ReadAtStable(s, t, k, Some(e.value), e.version, e.readAt);
    FloorKept(s, step, k);
  }

  lemma FloorKept(s: Sys, step: Step, k: Key)
    requires Enabled(s, step) && k in Next(s, step).data
    ensures Floor(Next(s, step), k) == Floor(s, k)
  {
    hide ReadRoute, ValidBasePath, AllAccepted, ApplyAll, ScheduledAll;
  }

  lemma PublishedOk(s: Sys, step: Step, k: Key)
    requires Inv(s) && Enabled(s, step) && k in Next(s, step).data
    requires k !in s.data || Next(s, step).data[k] != s.data[k]
    ensures EntryOk(Next(s, step), k, Next(s, step).data[k])
  {
    hide Settled, ReadRoute, WellFormed, ValidBasePath, AllAccepted, ApplyAll, ScheduledAll, EntryOk;
    assert step.Publish?;
    var call := s.calls[step.call];
    assert CallOk(s, call);
    assert k == call.key && Gen(s, k) == call.phase.gen;
    PublishEntry(s, step.call, step.replyLost);
  }

  lemma PublishEntry(s: Sys, c: nat, replyLost: bool)
    requires Timeline(s) && Enabled(s, Publish(c, replyLost)) && CallOk(s, s.calls[c])
    requires Gen(s, s.calls[c].key) == s.calls[c].phase.gen
    ensures var k, t := s.calls[c].key, Next(s, Publish(c, replyLost));
            k in t.data && EntryOk(t, k, t.data[k])
  {
    hide ReadRoute, WellFormed;
  }

  // ---- coherence ----

  /** What was missed before a commit is missed after it. */
  lemma MissedStays(s: Sys, ws: seq<Write>, k: Key)
    requires Timeline(s) && Enabled(s, Commit(ws)) && Missed(s, k)
    ensures Missed(Next(s, Commit(ws)), k)
  {
    hide ReadRoute, Own, WellFormed, AllAccepted, ApplyAll, ScheduledAll;
    var t := Next(s, Commit(ws));
    var v: nat :| Floor(s, k) <= v < |s.scheduled| && Unscheduled(s, k, v);
    assert Floor(t, k) == Floor(s, k) && Unscheduled(t, k, v);
  }

  /** The last commit changed no lookup spelt like its row unless it scheduled or missed it. */
  lemma LastCommit(s: Sys, ws: seq<Write>, k: Key)
    requires Timeline(s) && Enabled(s, Commit(ws)) && Own(Current(s), k)
    requires k !in Next(s, Commit(ws)).pending && !Missed(Next(s, Commit(ws)), k)
    ensures ReadRoute(Current(Next(s, Commit(ws))), k) == ReadRoute(Current(s), k)
  {
    hide ReadRoute, Own, WellFormed, AllAccepted, ApplyAll, ScheduledAll;
    var t := Next(s, Commit(ws));
    var v := |s.history| - 1;
    assert k !in multiset(ScheduledAll(Current(s), ws));
    assert Floor(t, k) == Floor(s, k) <= v;
    assert !Unscheduled(t, k, v);
  }

  lemma CommitSettles(s: Sys, ws: seq<Write>)
    requires Inv(s) && Enabled(s, Commit(ws))
    ensures Settled(Next(s, Commit(ws)))
  {
    hide EntryOk, CallOk, ReadRoute, WellFormed, AllAccepted, ApplyAll, ScheduledAll, Missed;
    var t := Next(s, Commit(ws));
    forall k, v | k !in t.pending && k !in t.lost && !Missed(t, k) && Floor(t, k) <= v < |t.history|
      && Own(t.history[v], k)
      ensures ReadRoute(t.history[v], k) == ReadRoute(t.history[|t.history| - 1], k)
    {
      if v < |s.history| {
        if Missed(s, k) { MissedStays(s, ws, k); }
        assert k !in s.pending && Floor(s, k) == Floor(t, k);
        assert ReadRoute(s.history[v], k) == ReadRoute(Current(s), k);
        LastCommit(s, ws, k);
      }
    }
  }

  lemma MissedSame(s: Sys, t: Sys, k: Key)
    requires t.history == s.history && t.scheduled == s.scheduled && Floor(t, k) == Floor(s, k)
    ensures Missed(t, k) <==> Missed(s, k)
  {
    hide Own, ReadRoute, Floor;
    assert forall v: nat :: v < |s.scheduled| < |s.history| ==> (Unscheduled(t, k, v) <==> Unscheduled(s, k, v));
  }

  lemma InvalidationSettles(s: Sys, step: Step)
    requires Inv(s) && Enabled(s, step) && (step.Invalidate? || step.LoseInvalidation?)
    ensures Settled(Next(s, step))
  {
    hide EntryOk, CallOk, Own, ReadRoute, WellFormed, ValidBasePath, Missed;
    var t := Next(s, step);
    forall k, v | k !in t.pending && k !in t.lost && !Missed(t, k) && Floor(t, k) <= v < |t.history|
      && Own(t.history[v], k)
      ensures ReadRoute(t.history[v], k) == ReadRoute(t.history[|t.history| - 1], k)
    {
      if k != step.key { MissedSame(s, t, k); }
    }
  }

  lemma StaysSettled(s: Sys, step: Step)
    requires Inv(s) && Enabled(s, step)
    ensures Settled(Next(s, step))
  {
    hide EntryOk, CallOk, ReadRoute, WellFormed, ValidBasePath, Next, Settled;
    match step
    case Commit(ws) => CommitSettles(s, ws);
    case Invalidate(_) => InvalidationSettles(s, step);
    case LoseInvalidation(_) => InvalidationSettles(s, step);
    case _ => QuietStep(s, step);
  }

  lemma QuietStep(s: Sys, step: Step)
    requires Settled(s) && Enabled(s, step) && !step.Commit? && !step.Invalidate? && !step.LoseInvalidation?
    ensures Settled(Next(s, step))
  {
    hide ReadRoute, ValidBasePath, Settled;
    var t := Next(s, step);
    assert t.history == s.history && t.pending == s.pending && t.lost == s.lost && t.invalidated == s.invalidated;
    assert t.scheduled == s.scheduled;
    SettledSame(s, t);
  }

  lemma SettledSame(s: Sys, t: Sys)
    requires Settled(s)
    requires t.history == s.history && t.pending == s.pending && t.lost == s.lost && t.invalidated == s.invalidated
    requires t.scheduled == s.scheduled
    ensures Settled(t)
  {
    hide ReadRoute, Own, Missed;
    forall k ensures Floor(t, k) == Floor(s, k) && (Missed(t, k) <==> Missed(s, k)) { MissedSame(s, t, k); }
  }

  lemma StepKeepsInv(s: Sys, step: Step)
    requires Inv(s) && Enabled(s, step)
    ensures Inv(Next(s, step)) && Extends(s, Next(s, step))
  {
    hide EntryOk, CallOk, Settled, Extends, Enabled;
    var t := Next(s, step);
    StepExtends(s, step);
    EntriesOk(s, step);
    StaysSettled(s, step);
    forall c | c in t.calls ensures CallOk(t, t.calls[c]) {
      if Actor(step) == Some(c) {
        ActorOk(s, step);
        CallStable(s, t, t.calls[c]);
      } else {
        OtherCalls(s, step, c);
        CallStable(s, t, s.calls[c]);
      }
    }
  }

  lemma OtherCalls(s: Sys, step: Step, c: nat)
    requires Enabled(s, step) && c in Next(s, step).calls && Actor(step) != Some(c)
    ensures c in s.calls && Next(s, step).calls[c] == s.calls[c]
  {
    hide ReadRoute, ValidBasePath, AllAccepted, ApplyAll, ScheduledAll;
  }

  lemma InitInv(catalog: Catalog)
    requires WellFormed(catalog)
    ensures Inv(Init(catalog))
  {
  }
}
