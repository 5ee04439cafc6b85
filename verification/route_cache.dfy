/** get_route and invalidate_route (apps/gateway/route_cache.py) as clients of the shared database and Redis
    state. Between any two of their own operations the rest of the deployment takes an arbitrary series of
    steps, and any Redis operation may fail before or after it took effect. */
module RouteCache {
  import opened PyStrings
  import opened Routing
  import opened RouteCatalog
  import opened CacheProtocol
  import opened CacheGuarantees
  import RedisKeys

  /** What becomes of one Redis operation: it runs, it never runs, or it runs but its reply is lost. */
  datatype Fate = Answered | NotExecuted | ReplyLost

  /** Call `c` for `key` has been running since state `was`. */
  ghost predicate Running(was: Sys, t: Sys, c: nat, key: Key) {
    && Timeline(was) && Inv(t) && Extends(was, t)
    && c in t.calls && t.calls[c].key == key && t.calls[c].floor == Floor(was, key)
  }

  /** The operation a call is about to perform. */
  predicate Awaits(phase: Phase, step: Step) {
    match step
    case GetData(_) => phase.Looking?
    case GetGeneration(_) => phase.Guarding?
    case ReadDatabase(_) => phase.Reading?
    case Publish(_, _) => phase.Publishing?
    case RedisError(_) => phase.Looking? || phase.Guarding? || phase.Publishing?
    case FallbackRead(_) => phase.FallingBack?
    case _ => false
  }

  /** What the caller goes on with after its own operation. */
  predicate Moved(call: Call, step: Step, now: Call) {
    match step
    case GetData(_) => now.phase.Served? || now == call.(phase := Guarding)
    case GetGeneration(_) => now.phase.Reading? && now.attempts == call.attempts
    case ReadDatabase(_) => now.phase.Served? || (now.phase.Publishing? && now.attempts == call.attempts)
    case Publish(_, replyLost) =>
      if replyLost then now.phase == FallingBack(true) else now.phase.Served? || now == Refused(call)
    case RedisError(_) => now.phase == FallingBack(true)
    case FallbackRead(_) => now.phase.Served?
    case _ => true
  }

  lemma OwnStep(s: Sys, step: Step, c: nat)
    requires Timeline(s) && c in s.calls && Actor(step) == Some(c) && Awaits(s.calls[c].phase, step)
    ensures Enabled(s, step) && c in Next(s, step).calls && Moved(s.calls[c], step, Next(s, step).calls[c])
  {
    hide ReadRoute, ValidBasePath, WellFormed;
  }

  lemma StillRunning(was: Sys, s: Sys, t: Sys, c: nat, key: Key)
    requires Running(was, s, c, key) && Inv(t) && Extends(s, t)
    ensures Running(was, t, c, key)
  {
    hide Inv, Extends;
    InvTimeline(s);
    InvTimeline(t);
    ExtendsTrans(was, s, t);
    CallKept(s, t, c);
  }

  lemma BeginRuns(s: Sys, c: nat, key: Key)
    requires Inv(s) && c !in s.calls && ValidBasePath(key.path)
    ensures Enabled(s, Begin(c, key)) && Running(s, Next(s, Begin(c, key)), c, key)
    ensures Next(s, Begin(c, key)).calls[c].phase == Looking && Next(s, Begin(c, key)).calls[c].attempts == 0
  {
    hide Inv, Extends, ValidBasePath;
    InvTimeline(s);
    StepKeepsInv(s, Begin(c, key));
  }

  /** What the answer to a call for `key` begun in state `was` is worth. */
  ghost predicate Worth(was: Sys, t: Sys, key: Key, a: Answer) {
    && |t.times| == |t.history| && Floor(was, key) <= a.version < |t.history|
    && a.value == ReadRoute(t.history[a.version], key)
    && CurrentAt(t, a.version, a.readAt) && a.servedAt <= a.readAt + a.lag + TTL
  }

  lemma FinishedCall(was: Sys, t: Sys, c: nat, key: Key)
    requires Running(was, t, c, key) && t.calls[c].phase.Served?
    ensures Worth(was, t, key, t.calls[c].phase.answer) && t.calls[c].dbReads <= 4
  {
    hide ReadRoute, WellFormed, EntryOk, Settled, Extends;
    assert CallOk(t, t.calls[c]);
  }

  /** The path of a route found for a key compares equal to that of the key, and is one the save guard accepts. */
  lemma WorthPath(was: Sys, t: Sys, key: Key, a: Answer)
    requires Timeline(t) && Worth(was, t, key, a) && a.value.Some?
    ensures ValidBasePath(a.value.value.path) && Current(t).fold(a.value.value.path) == Current(t).fold(key.path)
  {
    hide ValidBasePath;
    var c := t.history[a.version];
    assert WellFormed(c) && c.fold == Current(t).fold;
    assert Visible(c, key, a.value.value.id);
  }

  class Deployment {
    var sys: Sys

    ghost predicate Valid()
      reads this
    {
      Inv(sys)
    }

    constructor (catalog: Catalog)
      requires WellFormed(catalog)
      ensures Valid() && sys == Init(catalog)
    {
      sys := Init(catalog);
      InitInv(catalog);
    }

    method Perform(step: Step)
      requires Valid() && Enabled(sys, step)
      modifies this
      ensures Valid() && sys == Next(old(sys), step) && Extends(old(sys), sys)
    {
      hide Inv, Next, Enabled, Extends;
      StepKeepsInv(sys, step);
      sys := Next(sys, step);
    }

    /** The others take the given steps, as far as they are possible. */
    method Interleave(c: nat, steps: seq<Step>)
      requires Valid() && c in sys.calls
      modifies this
      ensures Valid() && Extends(old(sys), sys)
      ensures c in sys.calls && sys.calls[c] == old(sys).calls[c]
    {
      hide Inv, Next, Enabled, Extends;
      ghost var was := sys;
      ExtendsRefl(was);
      InvTimeline(was);
      for i := 0 to |steps|
        invariant Valid() && Extends(was, sys)
        invariant c in sys.calls && sys.calls[c] == was.calls[c]
      {
        if Enabled(sys, steps[i]) && Actor(steps[i]) != Some(c) {
          ghost var now := sys;
          Perform(steps[i]);
          InvTimeline(now);
          InvTimeline(sys);
          ExtendsTrans(was, now, sys);
          CallKept(now, sys, c);
          OtherCalls(now, steps[i], c);
        }
      }
    }

    /** One operation of call `c`, after the others took the given steps. */
    method Operate(c: nat, step: Step, others: seq<Step>, ghost was: Sys, ghost key: Key)
      requires Valid() && Running(was, sys, c, key)
      requires Actor(step) == Some(c) && Awaits(sys.calls[c].phase, step)
      modifies this
      ensures Valid() && Running(was, sys, c, key) && c in sys.calls
      ensures Moved(old(sys).calls[c], step, sys.calls[c])
    {
      hide Inv, Next, Enabled, Extends, Awaits, Moved;
      ghost var start := sys;
      Interleave(c, others);
      StillRunning(was, start, sys, c, key);
      ghost var before := sys;
      InvTimeline(before);
      OwnStep(before, step, c);
      Perform(step);
      StillRunning(was, before, sys, c, key);
    }

    /** One round of the fill loop. */
    method Round(c: nat, others: nat -> seq<Step>, fates: nat -> Fate, i: nat, ghost was: Sys, ghost key: Key)
      requires Valid() && Running(was, sys, c, key)
      requires sys.calls[c].phase == Looking && sys.calls[c].attempts == i < 3
      modifies this
      ensures Valid() && Running(was, sys, c, key)
      ensures var now := sys.calls[c];
              || now.phase.Served? || now.phase == FallingBack(true)
              || (now.attempts == i + 1 && now.phase == if i + 1 < 3 then Looking else FallingBack(false))
    {
      hide Inv, Running, Next, Enabled;
      if fates(3 * i) != Answered {
        Operate(c, RedisError(c), others(4 * i), was, key);
        return;
      }
      Operate(c, GetData(c), others(4 * i), was, key);
      if sys.calls[c].phase.Served? { return; }
      if fates(3 * i + 1) != Answered {
        Operate(c, RedisError(c), others(4 * i + 1), was, key);
        return;
      }
      Operate(c, GetGeneration(c), others(4 * i + 1), was, key);
      Operate(c, ReadDatabase(c), others(4 * i + 2), was, key);
      if sys.calls[c].phase.Served? { return; }
      var fate := fates(3 * i + 2);
      Operate(c, if fate == NotExecuted then RedisError(c) else Publish(c, fate == ReplyLost), others(4 * i + 3), was,
        key);
    }

    /** get_route. Whatever the others do and whichever operations fail, it returns what the database held
        for the key in some version no older than at the last invalidation before the call, and held no
        longer ago than the publisher's delay and the time to live. A path without Redis keys is looked up
        in the database alone. A path spelt with no slash or several shares the keys of the one-slash path, so
        it finds a cached route of that path or nothing, on a collation that tells slashes from other characters. */
    method GetRoute(c: nat, key: Key, others: nat -> seq<Step>, fates: nat -> Fate) returns (route: Option<Snapshot>)
      requires Valid() && c !in sys.calls
      requires RedisKeys.Keys(key.project, key.path).None? || ValidBasePath(key.path) || TellsSlashes(sys)
      modifies this
      ensures Valid() && Extends(old(sys), sys)
      ensures RedisKeys.Keys(key.project, key.path).None? ==>
                sys == old(sys) && sys.history != [] && route == ReadRoute(Current(sys), key)
      ensures RedisKeys.Keys(key.project, key.path).Some? && (ValidBasePath(key.path) || route.Some?) ==>
                && c in sys.calls && sys.calls[c].phase.Served? && sys.calls[c].dbReads <= 4
                && route == sys.calls[c].phase.answer.value
                && Worth(old(sys), sys, Slot(key), sys.calls[c].phase.answer)
      ensures ValidBasePath(key.path) ==> Slot(key) == key && RedisKeys.Keys(key.project, key.path).Some?
    {
      hide Inv, Next, Enabled, Extends, ValidBasePath, Worth, RedisKeys.Keys, Slot;
      ghost var was := sys;
      SlotOf(key);
      if RedisKeys.Keys(key.project, key.path).None? {
        ExtendsRefl(sys);
        InvTimeline(sys);
        return ReadRoute(Current(sys), key);
      }
      if !ValidBasePath(key.path) {
        route := GetOtherSpelling(c, key, others, fates);
        return;
      }
      BeginRuns(sys, c, key);
      Perform(Begin(c, key));
      for i := 0 to 3
        invariant Valid() && Running(was, sys, c, key)
        invariant sys.calls[c].attempts == i && sys.calls[c].phase == if i < 3 then Looking else FallingBack(false)
      {
        Round(c, others, fates, i, was, key);
        if sys.calls[c].phase.Served? {
          FinishedCall(was, sys, c, key);
          return sys.calls[c].phase.answer.value;
        }
        if sys.calls[c].phase == FallingBack(true) { break; }
      }
      Operate(c, FallbackRead(c), others(12), was, key);
      FinishedCall(was, sys, c, key);
      route := sys.calls[c].phase.answer.value;
    }

    /** The first round for a path that is not its own slot: a hit ends it; a miss or an error leads to a
        database read under the path as it is spelt, which finds no row. */
    method GetOtherSpelling(c: nat, key: Key, others: nat -> seq<Step>, fates: nat -> Fate)
        returns (route: Option<Snapshot>)
      requires Valid() && c !in sys.calls
      requires RedisKeys.Keys(key.project, key.path).Some? && !ValidBasePath(key.path) && TellsSlashes(sys)
      modifies this
      ensures Valid() && Extends(old(sys), sys)
      ensures route.Some? ==>
                && c in sys.calls && sys.calls[c].phase.Served? && sys.calls[c].dbReads <= 4
                && route == sys.calls[c].phase.answer.value
                && Worth(old(sys), sys, Slot(key), sys.calls[c].phase.answer)
    {
      hide Inv, Next, Enabled, Extends, ValidBasePath, Worth, RedisKeys.Keys, Slot, TellsSlashes;
      ghost var was := sys;
      SlotOf(key);
      BeginRuns(sys, c, Slot(key));
      Perform(Begin(c, Slot(key)));
      if fates(0) == Answered {
        Operate(c, GetData(c), others(0), was, Slot(key));
        if sys.calls[c].phase.Served? {
          FinishedCall(was, sys, c, Slot(key));
          return sys.calls[c].phase.answer.value;
        }
      }
      ghost var now := sys;
      Interleave(c, others(1));
      StillRunning(was, now, sys, c, Slot(key));
      InvTimeline(sys);
      StillTells(was, sys);
      NoRow(sys, key);
      route := ReadRoute(Current(sys), key);
    }

    /** get_route_for_request: the lookup is under the first segment of the path; a route found for it has a path
        that compares equal, and its target URL can be built exactly when it spells the path the same way. */
    method GetRouteForRequest(c: nat, project: nat, path: string, others: nat -> seq<Step>, fates: nat -> Fate)
        returns (route: Option<Snapshot>)
      requires Valid() && c !in sys.calls
      modifies this
      ensures Valid() && Extends(old(sys), sys)
      ensures BasePathOf(path) == "/" ==> route.None? && sys == old(sys)
      ensures BasePathOf(path) != "/" ==>
                && c in sys.calls && sys.calls[c].phase.Served? && route == sys.calls[c].phase.answer.value
                && Worth(old(sys), sys, Key(project, BasePathOf(path)), sys.calls[c].phase.answer)
      ensures route.Some? ==>
                && BasePathOf(path) != "/" && ValidBasePath(route.value.path) && sys.history != []
                && Current(sys).fold(route.value.path) == Current(sys).fold(BasePathOf(path))
                && forall url :: BuildTargetUrl(route.value.path, url, path) ==
                     if route.value.path == BasePathOf(path) then Some(RStrip(url) + NormalizePath(path)) else None
    {
      hide Inv, Extends, Worth, BuildTargetUrl, BasePathOf, ValidBasePath, RStrip, NormalizePath, RedisKeys.Keys, Slot;
      if BasePathOf(path) == "/" {
        ExtendsRefl(sys);
        return None;
      }
      ResolverAgreesWithBuilder(path, "");
      ghost var was := sys;
      var key := Key(project, BasePathOf(path));
      SlotOf(key);
      route := GetRoute(c, key, others, fates);
      if route.Some? {
        InvTimeline(sys);
        WorthPath(was, sys, key, sys.calls[c].phase.answer);
        forall url ensures BuildTargetUrl(route.value.path, url, path) ==
            if route.value.path == BasePathOf(path) then Some(RStrip(url) + NormalizePath(path)) else None
        {
          BuilderOutcome(route.value.path, url, path);
        }
      }
    }

    /** invalidate_route. If the script does not execute, stale entries may stay until they expire. */
    method InvalidateRoute(key: Key, fate: Fate)
      requires Valid()
      modifies this
      ensures Valid() && Extends(old(sys), sys)
      ensures var done := !fate.NotExecuted? && RedisKeys.Keys(key.project, key.path).Some?;
              if done then
                && Enabled(old(sys), Invalidate(Slot(key))) && sys == Next(old(sys), Invalidate(Slot(key)))
                && Slot(key) !in sys.data && Slot(key) !in sys.lost && Floor(sys, Slot(key)) == |sys.history| - 1
                && Gen(sys, Slot(key)) == Gen(old(sys), Slot(key)) + 1 && sys.history == old(sys).history
              else if key.path != "" && key in old(sys).pending then
                sys == old(sys).(pending := old(sys).pending - multiset{key}, lost := old(sys).lost + {key})
              else sys == old(sys)
    {
      hide Inv, Extends, ValidBasePath, RedisKeys.Keys, Slot;
      InvTimeline(sys);
      EmptyUnkeyed(key);
      SlotOf(key);
      if key.path != "" && RedisKeys.Keys(key.project, key.path).Some? && fate != NotExecuted {
        Perform(Invalidate(Slot(key)));
      } else if key.path != "" && key in sys.pending {
        Perform(LoseInvalidation(key));
      } else {
        ExtendsRefl(sys);
      }
    }
  }

  lemma EmptyUnkeyed(key: Key)
    ensures key.path == "" ==> RedisKeys.Keys(key.project, key.path).None?
  {
  }

  /** The key whose Redis names a key uses. */
  function Slot(key: Key): Key { Key(key.project, "/" + LStrip(key.path)) }

  lemma SlotOf(key: Key)
    ensures ValidBasePath(key.path) ==> Slot(key) == key && RedisKeys.Keys(key.project, key.path).Some?
    ensures RedisKeys.Keys(key.project, key.path).Some? ==>
              && ValidBasePath(Slot(key).path)
              && RedisKeys.Keys(key.project, Slot(key).path) == RedisKeys.Keys(key.project, key.path)
  {
    ValidBasePathShape(key.path);
    if ValidBasePath(key.path) {
      RedisKeys.SavedPathsHaveKeys(key.project, key.path);
      ValidBasePathNormal(key.path);
      assert key.path == "/" + key.path[1..];
    }
    var suffix := LStrip(key.path);
    if suffix != "" && '/' !in suffix {
      assert Slot(key).path[1..] == suffix;
      ValidBasePathShape(Slot(key).path);
      RedisKeys.SavedPathsHaveKeys(key.project, Slot(key).path);
    }
  }

  /** No path the save guard accepts compares equal to one it refuses. */
  ghost predicate TellsSlashes(s: Sys) {
    s.history != [] &&
    forall a, b :: Current(s).fold(a) == Current(s).fold(b) ==> (ValidBasePath(a) <==> ValidBasePath(b))
  }

  lemma StillTells(s: Sys, t: Sys)
    requires Timeline(s) && Timeline(t) && Extends(s, t) && TellsSlashes(s)
    ensures TellsSlashes(t)
  {
    hide ValidBasePath, WellFormed;
    assert t.history[0] == s.history[0];
    assert Current(t).fold == Current(s).fold;
  }

  /** Then no row answers to a path the guard refuses. */
  lemma NoRow(s: Sys, key: Key)
    requires Inv(s) && !ValidBasePath(key.path) && TellsSlashes(s)
    ensures ReadRoute(Current(s), key).None?
  {
    hide ValidBasePath, Settled;
    var c := Current(s);
    assert WellFormed(c);
    assert forall id :: Visible(c, key, id) ==> ValidBasePath(c.routes[id].key.path);
  }
}
