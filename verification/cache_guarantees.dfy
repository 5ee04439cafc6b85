/** What the protocol guarantees over whole runs, and get_route as one actor of it. */
module CacheGuarantees {
  import opened PyStrings
  import opened Routing
  import opened RouteCatalog
  import opened CacheProtocol

  ghost predicate Runs(s: Sys, steps: seq<Step>, t: Sys)
    decreases |steps|
  {
    if steps == [] then s == t else Enabled(s, steps[0]) && Runs(Next(s, steps[0]), steps[1..], t)
  }

  ghost predicate Reachable(s: Sys) {
    exists catalog, steps :: WellFormed(catalog) && Runs(Init(catalog), steps, s)
  }

  lemma ExtendsRefl(s: Sys)
    ensures Extends(s, s)
  {
  }

  lemma ExtendsTrans(s: Sys, m: Sys, t: Sys)
    requires Timeline(s) && Timeline(m) && Timeline(t) && Extends(s, m) && Extends(m, t)
    ensures Extends(s, t)
  {
    hide WellFormed;
    assert forall k :: Gen(s, k) == Gen(t, k) ==> Gen(s, k) == Gen(m, k);
    if |s.times| < |t.times| && |s.times| < |m.times| {
      assert t.times[|s.times|] == m.times[|s.times|];
    }
  }

  lemma {:induction false} RunKeepsInv(s: Sys, steps: seq<Step>, t: Sys)
    requires Inv(s) && Runs(s, steps, t)
    ensures Inv(t) && Extends(s, t)
    decreases |steps|
  {
    hide Inv, Extends, Enabled, Next;
    if steps == [] {
      ExtendsRefl(s);
    } else {
      var m := Next(s, steps[0]);
      StepKeepsInv(s, steps[0]);
      RunKeepsInv(m, steps[1..], t);
      assert Timeline(s) && Timeline(m) && Timeline(t) by { InvTimeline(s); InvTimeline(m); InvTimeline(t); }
      ExtendsTrans(s, m, t);
    }
  }

  lemma InvTimeline(s: Sys)
    requires Inv(s)
    ensures Timeline(s)
  {
  }

  lemma ReachableInv(s: Sys)
    requires Reachable(s)
    ensures Inv(s)
  {
    hide Inv, Runs, WellFormed;
    var catalog, steps :| WellFormed(catalog) && Runs(Init(catalog), steps, s);
    InitInv(catalog);
    RunKeepsInv(Init(catalog), steps, s);
  }

  /** A served answer is a lookup in some version no older than the call's floor. */
  lemma ServedAnswer(t: Sys, c: nat)
    requires Inv(t) && c in t.calls && t.calls[c].phase.Served?
    ensures var a, call := t.calls[c].phase.answer, t.calls[c];
            call.floor <= a.version < |t.history| && a.value == ReadRoute(t.history[a.version], call.key)
  {
    hide ReadRoute, WellFormed, EntryOk, Settled;
    assert CallOk(t, t.calls[c]);
  }

  lemma CallKept(s: Sys, t: Sys, c: nat)
    requires Extends(s, t) && c in s.calls
    ensures c in t.calls && t.calls[c].key == s.calls[c].key && t.calls[c].floor == s.calls[c].floor
  {
  }

  /** Regularity: whatever a call returns, and however it comes by it, is at least as recent as the catalog
      was when the last invalidation of its key before the call was executed. Other invalidations may be
      lost, and any number of calls and commits may run in between. */
  lemma Regularity(s: Sys, key: Key, before: seq<Step>, mid: Sys, c: nat, during: seq<Step>, t: Sys)
    requires Reachable(s) && Enabled(s, Invalidate(key)) && Runs(Next(s, Invalidate(key)), before, mid)
    requires Enabled(mid, Begin(c, key)) && Runs(Next(mid, Begin(c, key)), during, t)
    requires c in t.calls && t.calls[c].phase.Served?
    ensures var a := t.calls[c].phase.answer;
            |s.history| - 1 <= a.version < |t.history| && a.value == ReadRoute(t.history[a.version], key)
  {
    hide ReadRoute, Runs, Reachable, ValidBasePath, AllAccepted, Inv, Extends;
    ReachableInv(s);
    var u, b := Next(s, Invalidate(key)), Next(mid, Begin(c, key));
    StepKeepsInv(s, Invalidate(key));
    RunKeepsInv(u, before, mid);
    StepKeepsInv(mid, Begin(c, key));
    RunKeepsInv(b, during, t);
    CallKept(b, t, c);
    ServedAnswer(t, c);
    assert Floor(u, key) <= Floor(mid, key) by { FloorGrows(u, mid, key); }
    assert Floor(u, key) == |s.history| - 1;
    assert b.calls[c].floor == Floor(mid, key) && b.calls[c].key == key;
  }

  lemma FloorGrows(s: Sys, t: Sys, key: Key)
    requires Extends(s, t)
    ensures Floor(s, key) <= Floor(t, key) && Gen(s, key) <= Gen(t, key)
  {
  }

  predicate EntryLive(s: Sys, key: Key) {
    key in s.data && s.clock < s.data[key].publishedAt + TTL
  }

  /** Coherence: a cached route that spells its path like the key is what the database holds now, unless an
      invalidation of the key is still to run, or was lost or never scheduled and not made up for. */
  lemma Coherence(s: Sys, key: Key)
    requires Reachable(s) && key in s.data && s.data[key].value.path == key.path
    requires key !in s.pending && key !in s.lost && !Missed(s, key)
    ensures s.history != [] && ReadRoute(Current(s), key) == Some(s.data[key].value)
  {
    hide ReadRoute, Reachable, WellFormed, CallOk, Missed;
    ReachableInv(s);
    assert EntryOk(s, key, s.data[key]);
  }

  /** In the run no invalidation is lost and every committed write goes through a fresh instance. */
  ghost predicate Faithful(s: Sys, steps: seq<Step>)
    decreases |steps|
  {
    steps == [] ||
    (&& Enabled(s, steps[0]) && !steps[0].LoseInvalidation?
     && (steps[0].Commit? ==> AllFresh(Current(s), steps[0].writes))
     && Faithful(Next(s, steps[0]), steps[1..]))
  }

  /** No commit left a changed lookup, spelt like the row it found, unscheduled. */
  ghost predicate NeverMissed(s: Sys) {
    |s.scheduled| < |s.history| && forall k: Key, v: nat :: v < |s.scheduled| ==> !Unscheduled(s, k, v)
  }

  /** ... so in faithful runs it is current or about to be dropped. */
  lemma CoherentWithoutLoss(catalog: Catalog, steps: seq<Step>, s: Sys, key: Key)
    requires WellFormed(catalog) && Runs(Init(catalog), steps, s) && Faithful(Init(catalog), steps)
    requires key in s.data && s.data[key].value.path == key.path
    ensures s.history != [] && (ReadRoute(Current(s), key) == Some(s.data[key].value) || key in s.pending)
  {
    hide ReadRoute, Runs, WellFormed, Faithful, Inv, Unscheduled;
    InitInv(catalog);
    NothingLost(Init(catalog), steps, s);
    if key !in s.pending {
      Coherence(s, key);
    } else {
      RunKeepsInv(Init(catalog), steps, s);
      InvTimeline(s);
    }
  }

  /** Where paths compare exactly, that is every cached route. */
  lemma ExactlyCoherent(catalog: Catalog, steps: seq<Step>, s: Sys, key: Key)
    requires WellFormed(catalog) && Runs(Init(catalog), steps, s) && Faithful(Init(catalog), steps)
    requires (forall a, b :: catalog.fold(a) == catalog.fold(b) ==> a == b) && key in s.data
    ensures s.history != [] && (ReadRoute(Current(s), key) == Some(s.data[key].value) || key in s.pending)
  {
    hide ReadRoute, Runs, WellFormed, Faithful, CallOk, Settled;
    InitInv(catalog);
    RunKeepsInv(Init(catalog), steps, s);
    assert s.history[0] == catalog;
    assert EntryOk(s, key, s.data[key]);
    ExactSpelling(s.history[s.data[key].version], key);
    CoherentWithoutLoss(catalog, steps, s, key);
  }

  lemma CommitMissesNothing(s: Sys, ws: seq<Write>)
    requires Timeline(s) && Enabled(s, Commit(ws)) && AllFresh(Current(s), ws) && NeverMissed(s)
    ensures NeverMissed(Next(s, Commit(ws)))
  {
    hide ReadRoute, Own, WellFormed, AllAccepted, AllFresh, ApplyAll, ScheduledAll;
    var t := Next(s, Commit(ws));
    TransactionCovers(Current(s), ws);
    forall k: Key, v: nat | v < |t.scheduled| ensures !Unscheduled(t, k, v) {
      if v < |s.scheduled| { assert !Unscheduled(s, k, v); }
    }
  }

  lemma StepLosesNothing(s: Sys, step: Step)
    requires Timeline(s) && Enabled(s, step) && s.lost == {} && NeverMissed(s) && !step.LoseInvalidation?
    requires step.Commit? ==> AllFresh(Current(s), step.writes)
    ensures Next(s, step).lost == {} && NeverMissed(Next(s, step))
  {
    hide ReadRoute, Own, WellFormed, ValidBasePath, AllAccepted, AllFresh, ApplyAll, ScheduledAll, NeverMissed;
    if step.Commit? {
      CommitMissesNothing(s, step.writes);
    } else {
      SameMisses(s, Next(s, step));
    }
  }

  lemma SameMisses(s: Sys, t: Sys)
    requires NeverMissed(s) && t.history == s.history && t.scheduled == s.scheduled
    ensures NeverMissed(t)
  {
    hide ReadRoute, Own;
    forall k: Key, v: nat | v < |t.scheduled| ensures !Unscheduled(t, k, v) { assert !Unscheduled(s, k, v); }
  }

  lemma {:induction false} NothingLost(s: Sys, steps: seq<Step>, t: Sys)
    requires Inv(s) && Runs(s, steps, t) && Faithful(s, steps) && s.lost == {} && NeverMissed(s)
    ensures t.lost == {} && NeverMissed(t)
    decreases |steps|
  {
    hide Inv, Next, Enabled, AllFresh, NeverMissed;
    if steps != [] {
      InvTimeline(s);
      StepLosesNothing(s, steps[0]);
      StepKeepsInv(s, steps[0]);
      NothingLost(Next(s, steps[0]), steps[1..], t);
    }
  }

  /** Bounded staleness: whatever happens to the invalidations, a value served at some instant was the
      committed one no more than the publisher's delay and 60 seconds earlier. */
  lemma BoundedStaleness(s: Sys, c: nat)
    requires Reachable(s) && c in s.calls && s.calls[c].phase.Served?
    ensures |s.times| == |s.history|
    ensures var a := s.calls[c].phase.answer;
            exists v: nat, at: nat ::
              && CurrentAt(s, v, at) && a.value == ReadRoute(s.history[v], s.calls[c].key)
              && a.servedAt <= at + a.lag + 60000
  {
    hide Reachable, WellFormed, EntryOk, Settled, ReadRoute;
    ReachableInv(s);
    var a := s.calls[c].phase.answer;
    assert CallOk(s, s.calls[c]);
    assert CurrentAt(s, a.version, a.readAt);
  }

  /** The lag of a hit is the delay of the call that published the entry, which the protocol bounds by the
      entry's own history. */
  lemma HitLag(s: Sys, c: nat)
    requires Reachable(s) && Enabled(s, GetData(c)) && EntryLive(s, s.calls[c].key)
    ensures var e := s.data[s.calls[c].key];
            && e.readAt <= e.publishedAt
            && Next(s, GetData(c)).calls[c].phase ==
              Served(Answer(Some(e.value), e.version, e.readAt, s.clock, e.publishedAt - e.readAt, Hit))
  {
    hide Reachable, WellFormed, Settled, ReadAt, CallOk;
    ReachableInv(s);
    assert EntryOk(s, s.calls[c].key, s.data[s.calls[c].key]);
  }

  // ---- progress ----

  function Invalidations(steps: seq<Step>, key: Key): nat {
    if steps == [] then 0 else (if steps[0] == Invalidate(key) then 1 else 0) + Invalidations(steps[1..], key)
  }

  lemma {:induction false} GenerationCounts(s: Sys, steps: seq<Step>, t: Sys, key: Key)
    requires Runs(s, steps, t)
    ensures Gen(t, key) == Gen(s, key) + Invalidations(steps, key)
    decreases |steps|
  {
    if steps != [] {
      GenStep(s, steps[0], key);
      GenerationCounts(Next(s, steps[0]), steps[1..], t, key);
    }
  }

  lemma GenStep(s: Sys, step: Step, key: Key)
    requires Enabled(s, step)
    ensures Gen(Next(s, step), key) == Gen(s, key) + if step == Invalidate(key) then 1 else 0
  {
    hide ReadRoute;
  }

  /** A Redis operation of call `c` fails. */
  predicate Fails(step: Step, c: nat) {
    step == RedisError(c) || step == Publish(c, true)
  }

  predicate Errored(call: Call) {
    call.phase == FallingBack(true) || (call.phase.Served? && call.phase.answer.source == Fallback(true))
  }

  lemma ErrorStep(s: Sys, step: Step, c: nat)
    requires Enabled(s, step) && c in s.calls && !Errored(s.calls[c]) && !Fails(step, c)
    ensures c in Next(s, step).calls && !Errored(Next(s, step).calls[c])
  {
    hide ReadRoute, ValidBasePath, AllAccepted, ApplyAll, ScheduledAll;
    if Actor(step) != Some(c) {
      assert Next(s, step).calls[c] == s.calls[c];
    }
  }

  lemma {:induction false} NoErrors(s: Sys, steps: seq<Step>, t: Sys, c: nat)
    requires Runs(s, steps, t) && c in s.calls && !Errored(s.calls[c]) && forall step <- steps :: !Fails(step, c)
    ensures c in t.calls && !Errored(t.calls[c])
    decreases |steps|
  {
    hide Enabled, Next, Errored;
    if steps != [] {
      assert steps[0] in steps;
      ErrorStep(s, steps[0], c);
      NoErrors(Next(s, steps[0]), steps[1..], t, c);
    }
  }

  /** Every refused publish has its own invalidation during the call. So a call with fewer than three
      overlapping invalidations and no Redis error ends in a hit, a successful publish or a missing route;
      and no call reads the database more than four times. */
  lemma FillProgress(s: Sys, c: nat, key: Key, during: seq<Step>, t: Sys)
    requires Reachable(s) && Enabled(s, Begin(c, key)) && Runs(Next(s, Begin(c, key)), during, t)
    ensures c in t.calls && t.calls[c].attempts <= Invalidations(during, key) && t.calls[c].dbReads <= 4
    ensures (&& Invalidations(during, key) < 3 && (forall step <- during :: !Fails(step, c))
             && t.calls[c].phase.Served? && t.calls[c].phase.answer.value.Some?)
            ==> t.calls[c].phase.answer.source == Hit || t.calls[c].phase.answer.source == Published
  {
    hide Reachable, Runs, Enabled, WellFormed, EntryOk, Settled, ReadAt;
    var b := Next(s, Begin(c, key));
    ReachableInv(s);
    StepKeepsInv(s, Begin(c, key));
    RunKeepsInv(b, during, t);
    GenerationCounts(b, during, t, key);
    assert CallOk(t, t.calls[c]);
    if forall step <- during :: !Fails(step, c) {
      NoErrors(b, during, t, c);
    }
  }
}
