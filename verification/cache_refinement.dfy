/** The cache protocol speaks of keys, generations and entries; Redis holds strings. Every step of the
    protocol is carried out by the string-level commands and scripts under the names `_keys` builds, and
    rate-limit counters in the same database never disturb it (apps/gateway/route_cache.py). */
module CacheRefinement {
  import opened PyStrings
  import opened Routing
  import opened RouteCatalog
  import opened CacheProtocol
  import opened RedisKeys
  import opened RedisStore

  /** The names `_keys` builds. */
  function VersionName(k: Key): string { VersionKey(k.project, LStrip(k.path)) }

  function DataName(k: Key): string { DataKey(k.project, LStrip(k.path)) }

  /** What Redis shows under the two names of a key; `encode` is json.dumps. */
  predicate Shown(s: Sys, store: Store, k: Key, encode: Snapshot -> string) {
    && Generation(store, VersionName(k)) == Str(Gen(s, k))
    && (VersionName(k) in store ==> store[VersionName(k)].expires.None?)
    && (DataName(k) in store <==> k in s.data && s.clock < s.data[k].publishedAt + TTL)
    && (DataName(k) in store ==>
          store[DataName(k)] == Cell(encode(s.data[k].value), Some(s.data[k].publishedAt + TTL)))
  }

  ghost predicate Represents(s: Sys, store: Store, encode: Snapshot -> string) {
    && (forall k: Key :: ValidBasePath(k.path) ==> Shown(s, store, k, encode))
    && (forall c <- s.calls :: ValidBasePath(s.calls[c].key.path))
  }

  /** What a step does to the visible strings. */
  function StoreAfter(s: Sys, step: Step, store: Store, encode: Snapshot -> string): Store
    requires Enabled(s, step)
  {
    match step
    case Tick(ms) => Unexpired(store, s.clock + ms)
    case Publish(c, _) =>
      var call := s.calls[c];
      PublishIfCurrent(store, VersionName(call.key), DataName(call.key), Str(call.phase.gen),
                       encode(call.phase.value), 60, s.clock).0
    case Invalidate(key) => InvalidateKeys(store, VersionName(key), DataName(key)).0
    case _ => store
  }

  /** Names of different keys, and the two names of one key, differ. */
  lemma NamesApart(k: Key, l: Key)
    requires ValidBasePath(k.path) && ValidBasePath(l.path)
    ensures VersionName(k) != DataName(l)
    ensures k != l ==> VersionName(k) != VersionName(l) && DataName(k) != DataName(l)
  {
    KeyspacesDisjoint(l.project, LStrip(l.path), k.project, LStrip(k.path), Registration(0), 0);
    ValidBasePathNormal(k.path);
    ValidBasePathNormal(l.path);
    if VersionName(k) == VersionName(l) || DataName(k) == DataName(l) {
      KeysInjective(k.project, k.path, l.project, l.path);
    }
  }

  lemma GenerationText(a: nat, b: nat)
    ensures Str(a) == Str(b) <==> a == b
    ensures Str(0) == "0" && Int(Str(a)) == a
  {
    IntStr(a);
    if Str(a) == Str(b) { StrInjective(a, b); }
  }

  /** GET of the data key hits exactly when the protocol says so, with the encoded entry. */
  lemma HitRefined(s: Sys, store: Store, c: nat, encode: Snapshot -> string)
    requires Represents(s, store, encode) && Enabled(s, GetData(c))
    ensures var phase, name := Next(s, GetData(c)).calls[c].phase, DataName(s.calls[c].key);
            && (name in store <==> phase.Served?)
            && (phase.Served? ==> phase.answer.value.Some? && store[name].value == encode(phase.answer.value.value))
  {
    hide ValidBasePath;
    assert Shown(s, store, s.calls[c].key, encode);
  }

  /** The script's comparison of texts is the protocol's comparison of generations. */
  lemma SameDecision(s: Sys, store: Store, k: Key, gen: nat, encode: Snapshot -> string)
    requires Shown(s, store, k, encode)
    ensures Generation(store, VersionName(k)) == Str(gen) <==> Gen(s, k) == gen
  {
    hide VersionName, DataName, Str, Generation;
    GenerationText(Gen(s, k), gen);
  }

  /** What the publishing script leaves behind, in the terms of both levels. */
  lemma PublishEffect(s: Sys, store: Store, c: nat, replyLost: bool, encode: Snapshot -> string)
    requires Enabled(s, Publish(c, replyLost)) && Shown(s, store, s.calls[c].key, encode)
    ensures var call, p := s.calls[c], s.calls[c].phase;
            var t, after := Next(s, Publish(c, replyLost)), StoreAfter(s, Publish(c, replyLost), store, encode);
            && t.clock == s.clock && t.gens == s.gens
            && t.calls.Keys == s.calls.Keys && (forall d <- s.calls :: t.calls[d].key == s.calls[d].key)
            && (if Gen(s, call.key) == p.gen then
                  && t.data == s.data[call.key := Entry(p.value, p.version, p.readAt, s.clock)]
                  && after == store[DataName(call.key) := Cell(encode(p.value), Some(s.clock + TTL))]
                else t.data == s.data && after == store)
  {
    hide ValidBasePath, VersionName, DataName, Str, Shown, Generation, Gen, ReadRoute;
    SameDecision(s, store, s.calls[c].key, s.calls[c].phase.gen, encode);
  }

  /** Publishing replaces the visible cell of one key and of no other. */
  lemma PublishShown(s: Sys, t: Sys, store: Store, after: Store, l: Key, e: Entry, k: Key, encode: Snapshot -> string)
    requires ValidBasePath(k.path) && ValidBasePath(l.path) && Shown(s, store, k, encode)
    requires t.clock == s.clock && t.gens == s.gens && t.data == s.data[l := e] && e.publishedAt == s.clock
    requires after == store[DataName(l) := Cell(encode(e.value), Some(s.clock + TTL))]
    ensures Shown(t, after, k, encode)
  {
    hide ValidBasePath, VersionName, DataName, Str;
    NamesApart(k, l);
    if k != l { SameShown(s, t, store, after, k, encode); }
  }

  lemma PublishRefined(s: Sys, store: Store, c: nat, replyLost: bool, encode: Snapshot -> string)
    requires Represents(s, store, encode) && Enabled(s, Publish(c, replyLost))
    ensures Represents(Next(s, Publish(c, replyLost)), StoreAfter(s, Publish(c, replyLost), store, encode), encode)
  {
    hide ValidBasePath, VersionName, DataName, Str, Shown, Next, StoreAfter;
    var t, after := Next(s, Publish(c, replyLost)), StoreAfter(s, Publish(c, replyLost), store, encode);
    var l, p := s.calls[c].key, s.calls[c].phase;
    assert Shown(s, store, l, encode);
    PublishEffect(s, store, c, replyLost, encode);
    if Gen(s, l) == p.gen {
      var e := Entry(p.value, p.version, p.readAt, s.clock);
      forall k: Key | ValidBasePath(k.path) ensures Shown(t, after, k, encode) {
        assert Shown(s, store, k, encode);
        PublishShown(s, t, store, after, l, e, k, encode);
      }
    } else {
      forall k: Key | ValidBasePath(k.path) ensures Shown(t, after, k, encode) {
        assert Shown(s, store, k, encode);
        SameShown(s, t, store, after, k, encode);
      }
    }
  }

  /** What the invalidating script leaves behind; it never fails on a generation the scripts wrote. */
  lemma InvalidateEffect(s: Sys, store: Store, l: Key, encode: Snapshot -> string)
    requires Shown(s, store, l, encode)
    ensures InvalidateKeys(store, VersionName(l), DataName(l)) ==
            (store[VersionName(l) := Cell(Str(Gen(s, l) + 1), None)] - {DataName(l)}, true)
  {
    hide VersionName, DataName, Str;
    GenerationText(Gen(s, l), 0);
  }

  lemma InvalidateShown(s: Sys, t: Sys, store: Store, l: Key, k: Key, encode: Snapshot -> string)
    requires ValidBasePath(k.path) && ValidBasePath(l.path) && Shown(s, store, k, encode)
    requires t.clock == s.clock && t.gens == s.gens[l := Gen(s, l) + 1] && t.data == s.data - {l}
    ensures Shown(t, store[VersionName(l) := Cell(Str(Gen(s, l) + 1), None)] - {DataName(l)}, k, encode)
  {
    hide ValidBasePath, VersionName, DataName;
    var after := store[VersionName(l) := Cell(Str(Gen(s, l) + 1), None)] - {DataName(l)};
    NamesApart(k, l);
    NamesApart(l, k);
    if k != l { SameShown(s, t, store, after, k, encode); }
  }

  lemma InvalidateRefined(s: Sys, store: Store, l: Key, encode: Snapshot -> string)
    requires Represents(s, store, encode) && Enabled(s, Invalidate(l))
    ensures Represents(Next(s, Invalidate(l)), InvalidateKeys(store, VersionName(l), DataName(l)).0, encode)
  {
    hide ValidBasePath, VersionName, DataName, Str, Shown, InvalidateKeys;
    var t, after := Next(s, Invalidate(l)), InvalidateKeys(store, VersionName(l), DataName(l)).0;
    assert Shown(s, store, l, encode);
    InvalidateEffect(s, store, l, encode);
    forall k: Key | ValidBasePath(k.path) ensures Shown(t, after, k, encode) {
      assert Shown(s, store, k, encode);
      InvalidateShown(s, t, store, l, k, encode);
    }
  }

  lemma TickRefined(s: Sys, store: Store, ms: nat, encode: Snapshot -> string)
    requires Represents(s, store, encode)
    ensures Represents(Next(s, Tick(ms)), Unexpired(store, s.clock + ms), encode)
  {
    hide ValidBasePath, VersionName, DataName, Str;
    forall k: Key | ValidBasePath(k.path) ensures Shown(Next(s, Tick(ms)), Unexpired(store, s.clock + ms), k, encode) {
      assert Shown(s, store, k, encode);
    }
  }

  lemma QuietRefined(s: Sys, store: Store, step: Step, encode: Snapshot -> string)
    requires Represents(s, store, encode) && Enabled(s, step)
    requires !step.Tick? && !step.Publish? && !step.Invalidate?
    ensures Represents(Next(s, step), store, encode)
  {
    hide ValidBasePath, Shown, Next, Enabled;
    var t := Next(s, step);
    QuietSame(s, step);
    forall k: Key | ValidBasePath(k.path) ensures Shown(t, store, k, encode) {
      assert Shown(s, store, k, encode);
      SameShown(s, t, store, store, k, encode);
    }
  }

  lemma QuietSame(s: Sys, step: Step)
    requires Enabled(s, step) && !step.Tick? && !step.Publish? && !step.Invalidate?
    ensures var t := Next(s, step); t.data == s.data && t.gens == s.gens && t.clock == s.clock
    ensures forall c <- Next(s, step).calls ::
              if c in s.calls then Next(s, step).calls[c].key == s.calls[c].key
              else ValidBasePath(Next(s, step).calls[c].key.path)
  {
    hide ValidBasePath, ReadRoute, AllAccepted, ApplyAll, ScheduledAll, OnlyCall;
    if Actor(step).Some? {
      ActorOnly(s, step);
      OnlyCallKeys(s, Next(s, step), Actor(step).value);
    }
  }

  lemma OnlyCallKeys(s: Sys, t: Sys, c: nat)
    requires OnlyCall(s, t, c)
    ensures t.gens == s.gens && t.clock == s.clock
    ensures forall d <- t.calls :: d in s.calls || d == c
    ensures forall d <- s.calls :: d in t.calls && t.calls[d].key == s.calls[d].key
  {
  }

  lemma SameShown(s: Sys, t: Sys, store: Store, after: Store, k: Key, encode: Snapshot -> string)
    requires Shown(s, store, k, encode)
    requires t.clock == s.clock && Gen(t, k) == Gen(s, k)
    requires k in t.data <==> k in s.data
    requires k in s.data ==> t.data[k] == s.data[k]
    requires SameCell(store, after, VersionName(k)) && SameCell(store, after, DataName(k))
    ensures Shown(t, after, k, encode)
  {
    hide VersionName, DataName, Str, Gen;
  }

  predicate SameCell(store: Store, after: Store, name: string) {
    (name in store <==> name in after) && (name in store ==> after[name] == store[name])
  }

  /** The strings follow the protocol step by step. */
  lemma StepRefined(s: Sys, step: Step, store: Store, encode: Snapshot -> string)
    requires Represents(s, store, encode) && Enabled(s, step)
    ensures Represents(Next(s, step), StoreAfter(s, step, store, encode), encode)
  {
    hide Represents, Next, ValidBasePath;
    match step
    case Tick(ms) => TickRefined(s, store, ms, encode);
    case Publish(c, replyLost) => PublishRefined(s, store, c, replyLost, encode);
    case Invalidate(key) => InvalidateRefined(s, store, key, encode);
    case _ => QuietRefined(s, store, step, encode);
  }

  /** A rate-limit call on the same database leaves the cache untouched. */
  lemma RateCallApart(s: Sys, store: Store, subject: Subject, window: nat, limit: nat, ttl: nat,
                      encode: Snapshot -> string)
    requires Represents(s, store, encode)
    ensures Represents(s, CountCall(store, WindowKey(RateKey(subject), window), limit, ttl, s.clock).0, encode)
  {
    hide ValidBasePath, RateKey, WindowKey, Str, Shown, LStrip, VersionKey, DataKey, IsDecimal, Int;
    var after := CountCall(store, WindowKey(RateKey(subject), window), limit, ttl, s.clock).0;
    forall k: Key | ValidBasePath(k.path) ensures Shown(s, after, k, encode) {
      assert Shown(s, store, k, encode);
      KeyspacesDisjoint(k.project, LStrip(k.path), k.project, LStrip(k.path), subject, window);
      SameShown(s, s, store, after, k, encode);
    }
  }

  lemma EmptyRepresents(catalog: Catalog, encode: Snapshot -> string)
    ensures Represents(Init(catalog), map[], encode)
  {
  }
}
