/** Lookups under a path collation that identifies several spellings, such as MySQL's default, which ignores case
    (gateway_project/settings.py): which of them the invalidation signals and the URL builder still serve, and
    that the cache can serve the others stale. */
module PathCollation {
  import opened PyStrings
  import opened Routing
  import opened RouteCatalog
  import opened CacheProtocol
  import opened CacheGuarantees

  /** Every fresh write that changes the lookup of the key schedules it. */
  ghost predicate Covered(c: Catalog, key: Key) {
    forall w :: Accepted(c, w) && Fresh(c, w) && ReadRoute(Apply(c, w), key) != ReadRoute(c, key) ==>
      key in Scheduled(c, w)
  }

  /** A lookup that finds a row is covered by the signals exactly when it spells the path like the row. */
  lemma CoveredSpellings(c: Catalog, key: Key)
    requires WellFormed(c) && ReadRoute(c, key).Some?
    ensures Covered(c, key) <==> ReadRoute(c, key).value.path == key.path
  {
    hide ReadRoute, Accepted, Fresh, Apply, Scheduled, WellFormed;
    if Own(c, key) {
      forall w | Accepted(c, w) && Fresh(c, w) && ReadRoute(Apply(c, w), key) != ReadRoute(c, key)
        ensures key in Scheduled(c, w)
      {
        FreshCovers(c, w);
      }
    } else {
      DeleteUncovers(c, key);
    }
  }

  /** Deleting the row schedules its own spelling only. */
  lemma DeleteUncovers(c: Catalog, key: Key)
    requires WellFormed(c) && ReadRoute(c, key).Some? && ReadRoute(c, key).value.path != key.path
    ensures !Covered(c, key)
  {
    var id := ReadRoute(c, key).value.id;
    var w := DeleteRoute(id, c.routes[id].key);
    assert Accepted(c, w) && Fresh(c, w) && key !in Scheduled(c, w);
    assert forall j :: !Visible(Apply(c, w), key, j);
  }

  lemma FoundPathValid(c: Catalog, key: Key)
    requires WellFormed(c) && ReadRoute(c, key).Some?
    ensures ValidBasePath(ReadRoute(c, key).value.path)
  {
  }

  /** For a request whose lookup finds a row, its cache key is covered by the signals exactly when the target URL
      can be built; a request under another spelling is refused, however stale its entry. */
  lemma SpellingDecides(c: Catalog, project: nat, path: string, baseUrl: string)
    requires WellFormed(c) && ReadRoute(c, Key(project, BasePathOf(path))).Some?
    ensures var key := Key(project, BasePathOf(path));
            Covered(c, key) <==> BuildTargetUrl(ReadRoute(c, key).value.path, baseUrl, path).Some?
  {
    hide ReadRoute, BuildTargetUrl, BasePathOf, Covered, ValidBasePath, WellFormed;
    var key := Key(project, BasePathOf(path));
    FoundPathValid(c, key);
    CoveredSpellings(c, key);
    BuilderAgreesExactly(ReadRoute(c, key).value.path, baseUrl, path);
  }

  // ---- a request in another case ----

  function CaseFold(s: string): string { if s == "/Doctors" then "/doctors" else s }

  const LISTED := Catalog(map[5 := Route(Key(1, "/doctors"), None, true)], map[], CaseFold)

  const ASKED := Key(1, "/Doctors")

  const FOUND := Snapshot(5, "/doctors", None)

  lemma ValidSpellings()
    ensures ValidBasePath("/doctors") && ValidBasePath("/Doctors")
  {
    ValidBasePathShape("/doctors");
    ValidBasePathShape("/Doctors");
  }

  lemma ListedFound()
    ensures WellFormed(LISTED) && ReadRoute(LISTED, ASKED) == Some(FOUND)
  {
    hide ValidBasePath;
    ValidSpellings();
    assert Visible(LISTED, ASKED, 5);
    ReadsVisible(LISTED, ASKED, 5);
  }

  /** A request for "/Doctors" finds the row "/doctors", which no signal covers and no URL can be built for. */
  lemma OtherSpelling()
    ensures WellFormed(LISTED) && BasePathOf("/Doctors") == "/Doctors" && ReadRoute(LISTED, ASKED) == Some(FOUND)
    ensures !Covered(LISTED, ASKED) && BuildTargetUrl(FOUND.path, "", "/Doctors").None?
  {
    hide ReadRoute, BuildTargetUrl, Covered, BasePathOf, ValidBasePath, WellFormed;
    ListedFound();
    ValidSpellings();
    OwnFirstSegment("/Doctors");
    CoveredSpellings(LISTED, ASKED);
    BuilderAgreesExactly("/doctors", "", "/Doctors");
  }

  // ---- ... and the cache serves it after the route is gone ----

  function StaleStep(n: nat): Step
    requires n < 7
  {
    match n
    case 0 => Begin(1, ASKED)
    case 1 => GetData(1)
    case 2 => GetGeneration(1)
    case 3 => ReadDatabase(1)
    case 4 => Publish(1, false)
    case 5 => Commit([DeleteRoute(5, Key(1, "/doctors"))])
    case _ => Invalidate(Key(1, "/doctors"))
  }

  function StalePhase(n: nat): Phase {
    match n
    case 1 => Looking
    case 2 => Guarding
    case 3 => Reading(0)
    case 4 => Publishing(0, FOUND, 0, 0)
    case _ => Served(Answer(Some(FOUND), 0, 0, 0, 0, Published))
  }

  /** The deployment before step `n`. */
  function StaleState(n: nat): Sys
    requires n <= 7
  {
    var row := Key(1, "/doctors");
    Sys(if n < 6 then [LISTED] else [LISTED, LISTED.(routes := map[])], if n < 6 then [0] else [0, 0], 0,
        if n < 7 then map[] else map[row := 1], if n < 5 then map[] else map[ASKED := Entry(FOUND, 0, 0, 0)],
        if n < 7 then map[] else map[row := 1], if n < 6 then [] else [{row}],
        if n == 6 then multiset{row} else multiset{}, {},
        if n < 1 then map[] else map[1 := Call(ASKED, 0, 0, 0, if n < 4 then 0 else 1, StalePhase(n))])
  }

  lemma StaleCommit()
    ensures var ws := [DeleteRoute(5, Key(1, "/doctors"))];
            && AllAccepted(LISTED, ws) && AllFresh(LISTED, ws)
            && ApplyAll(LISTED, ws) == LISTED.(routes := map[]) && ScheduledAll(LISTED, ws) == {Key(1, "/doctors")}
  {
    var ws := [DeleteRoute(5, Key(1, "/doctors"))];
    assert ws[1..] == [];
    assert LISTED.routes - {5} == map[];
  }

  lemma StaleReading(n: nat)
    requires n < 5
    ensures Enabled(StaleState(n), StaleStep(n)) && Next(StaleState(n), StaleStep(n)) == StaleState(n + 1)
  {
    hide ReadRoute, ValidBasePath;
    ValidSpellings();
    ListedFound();
  }

  lemma StaleDeletes()
    ensures Enabled(StaleState(5), StaleStep(5)) && Next(StaleState(5), StaleStep(5)) == StaleState(6)
    ensures AllFresh(Current(StaleState(5)), StaleStep(5).writes)
  {
    hide ReadRoute, ValidBasePath, AllAccepted, AllFresh, ApplyAll, ScheduledAll;
    StaleCommit();
  }

  lemma StaleInvalidates()
    ensures Enabled(StaleState(6), StaleStep(6)) && Next(StaleState(6), StaleStep(6)) == StaleState(7)
  {
    hide ReadRoute, ValidBasePath, AllAccepted, AllFresh, ApplyAll, ScheduledAll;
    ValidSpellings();
  }

  function StaleFrom(n: nat): seq<Step>
    requires n <= 7
    decreases 7 - n
  {
    if n == 7 then [] else [StaleStep(n)] + StaleFrom(n + 1)
  }

  lemma StaleKind(n: nat)
    requires n < 7
    ensures !StaleStep(n).LoseInvalidation? && (StaleStep(n).Commit? <==> n == 5)
    ensures StaleState(n).history != []
  {
  }

  lemma {:induction false} StaleRun(n: nat)
    requires n <= 7
    ensures Runs(StaleState(n), StaleFrom(n), StaleState(7)) && Faithful(StaleState(n), StaleFrom(n))
    decreases 7 - n
  {
    hide Enabled, Next, StaleState, StaleStep, AllFresh;
    if n < 7 {
      StaleKind(n);
      if n < 5 { StaleReading(n); } else if n == 5 { StaleDeletes(); } else { StaleInvalidates(); }
      StaleRun(n + 1);
      assert StaleFrom(n)[1..] == StaleFrom(n + 1);
    }
  }

  lemma NothingListed()
    ensures ReadRoute(LISTED.(routes := map[]), ASKED).None?
  {
  }

  /** So coherence needs the spelling: in a faithful run with nothing left to invalidate a live entry under
      another spelling shows a route that was deleted. */
  lemma OtherSpellingStale() returns (s: Sys)
    ensures Runs(Init(LISTED), StaleFrom(0), s) && Faithful(Init(LISTED), StaleFrom(0)) && s.pending == multiset{}
    ensures EntryLive(s, ASKED) && s.data[ASKED].value == FOUND && s.history != []
    ensures ReadRoute(Current(s), ASKED).None?
  {
    hide ReadRoute, Runs, Faithful, StaleFrom;
    s := StaleState(7);
    StaleRun(0);
    assert StaleState(0) == Init(LISTED);
    NothingListed();
  }
}
