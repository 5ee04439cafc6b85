# Verification model of a multi-tenant API gateway

A Dafny model of the parts of the gateway that hold state or rewrite it, with machine-checked theorems about
them. `dafny verify dfyconfig.toml` checks the whole project.

| part of the gateway | modules |
|---|---|
| route consolidation (migration 0008) and origin migration (0009) | `Consolidation`, `ConsolidationDatabase`, `ConsolidationValidation`, `ConsolidationRewrite`, `ConsolidateRoutes`, `ConsolidationMeaning`, `ServiceOrigins`, `Migrations` |
| route cache: tables and signals, protocol, guarantees, `get_route`, strings in Redis | `RouteCatalog`, `RouteSignals`, `CacheProtocol`, `CacheGuarantees`, `RouteCache`, `CacheRefinement` |
| Redis commands and scripts, shared rate limiter, cache and limiter on one Redis | `RedisStore`, `RateLimiter`, `SharedRedis` |
| request pipeline and its quota over runs | `Gateway`, `GatewayRuns` |
| client tokens, their endpoints and the requests they serve, API keys | `ClientTokens`, `ClientViews`, `GatewayUsers`, `ApiKeys` |
| paths, Redis key names, path collations, URLs, approved origins, permissions | `Routing`, `RedisKeys`, `PathCollation`, `Urls`, `Destinations`, `Authorization`, `PyStrings`, `Tables` |

Code that changes things step by step is imperative here too (`ConsolidationDatabase.Database`,
`ServiceOrigins.Catalog`, `RouteSignals.Transaction`, `RouteCache.Deployment`, `RedisStore.FakeRedisClient`,
`RateLimiter.RedisRateLimiter`, `Gateway.GatewayProxyView`, `ClientViews.ClientAuth`, `ApiKeys.APIKeyTable`);
concurrent behaviour is a transition system whose runs are arbitrary sequences of steps.

The modules whose names end in `Laws` say what the basic definitions come to in rows, columns, claims, numbers and texts
alone: `PermissionLaws`, `GatewayLaws`, `CatalogLaws`, `ConsolidationLaws`,
`ServiceOriginsLaws`, `PathLaws`, `UrlLaws`, `LimiterLaws`, `ClientLaws`. `ApiKeyLedger` is an independent account of the
keys in force, and `Migrations` the two data migrations in their order.

## Results about the code

Six promises do not hold of the code without a condition. Each has a theorem with its exact condition and a
concrete counterexample.

1. **Consolidation can widen access.** Validation looks at active grants on enabled rows only, while merging takes
   `any(is_active)` over all rows. Access is never narrowed. It is unchanged exactly when, in every group with an
   enabled row, each usable application with an active grant on a disabled row has one on an enabled row too
   (`ConsolidationMeaning.AccessPreservedExactly`, `HiddenGrantPassesValidation`).
2. **Two kinds of write escape the invalidation signals**: a save that writes only part of the key columns of an
   instance that is out of date, and a delete through an instance whose key is out of date. All other writes schedule
   every lookup they change that spells the path like its row (`RouteCatalog.CoversExactly`, `StaleSaveEscapes`,
   `StaleDeleteEscapes`). The cache protocol admits such writes too: regularity, bounded staleness and progress hold in
   spite of them, coherence except for the keys they touch.
3. **Revocation of a client user can be undone** by a concurrent edit in the admin: a request that reads the row before
   the disable and saves it afterwards writes all columns, the old `token_version` among them. (A page merely opened
   before the disable is harmless: its submission reads the row again, and the version is not a form field.) A version
   stays revoked throughout a run exactly when no such save of that user at that version or an older one occurs
   (`ClientTokens.RevocationRun`, `DisableRevokes`, `PermanentRevocation`, `StaleSaveUndoesRevocation`).
4. **An accepted base URL may end in a bare `?` or `#`.** Behind `?` the request path becomes the query; behind `#`
   every target URL is refused. The origin is kept in all cases (`Destinations.AppendedOrigin`, `AppendedPath`,
   `BareQueryAccepted`).
5. **Other spellings of a path.** Where the path column compares by a collation, such as MySQL's default, which ignores
   case, a lookup finds rows that spell the path differently and caches them under the spelling of the request. The
   signals cover such a lookup exactly when it spells the path like the row, and exactly then the target URL can be
   built (`PathCollation.CoveredSpellings`, `SpellingDecides`, `OtherSpelling`). Regularity, bounded staleness and
   progress hold for every spelling; coherence holds for entries spelt like their rows, which under exact comparison
   are all entries (`CacheGuarantees.Coherence`, `ExactlyCoherent`), and fails for others even when no invalidation is
   outstanding (`PathCollation.OtherSpellingStale`).
6. **A session can outlast seven days and fifteen minutes**, by as long as a refresh request takes between verifying the
   refresh token and making the access token. The bound holds without allowance for requests of up to one second; in
   general an access token outlives it exactly when the second it was made in begins later than seven days after the
   login (`ClientTokens.StrictSessionBound`, `OutlivesExactly`, `SlowRefreshOutlives`).

## Assumptions

- Database reads see the latest commit; transactions that write routes or services run one after another, so their
  commit and the keys they schedule form one step.
- Redis never loses a generation key or a counter before its expiry. A single command or script may fail before
  executing, or execute and lose its reply.
- One clock, in milliseconds, shared by replicas and Redis; reading the clock and evaluating the script are one instant.
- How paths compare in the database is a parameter of the catalog (`Catalog.fold`): exactly, or by any collation. The
  migrations group paths in Python, that is exactly.
- Signatures cannot be forged, the key hash is injective, raw keys are drawn afresh.
- `str.lower`, the IPv6 parser, the check of bracketed hosts and NFKC normalisation are parameters (`Urls.Library`)
  and arbitrary in every theorem but the witnesses; so is `json.dumps` in `CacheRefinement` and `SharedRedis`.

## Model

| member | source | states |
|---|---|---|
| ConsolidateRoutes.Consolidate | apps/routes/migrations/0008_route_methods_and_unique_base_paths.py:8-90 | succeeds exactly when every group passes validation, never violates a uniqueness or reference constraint at any write, leaves the completely rewritten database; when it fails it writes nothing and some group raises the error it reports |
| ConsolidationValidation.GroupRoutes | apps/routes/migrations/0008_route_methods_and_unique_base_paths.py:14-16 | every route is listed once, under its project and path, in id order |
| ConsolidationValidation.CollectGrants | apps/routes/migrations/0008_route_methods_and_unique_base_paths.py:33-39 | the applications with any grant on the group, and for each the methods of enabled rows it holds an active grant on |
| ConsolidationValidation.MethodSetsDecide | apps/routes/migrations/0008_route_methods_and_unique_base_paths.py:41-48 | comparing sets of method names is the same as asking that an application be granted all enabled rows of the group or none |
| ConsolidationValidation.ValidateGroup | apps/routes/migrations/0008_route_methods_and_unique_base_paths.py:19-48 | passes a group if and only if its rows share target and service and every application is granted all enabled rows or none, and otherwise raises the error of the first of the three checks that fails |
| ConsolidationDatabase.Database.SaveGrant | apps/routes/migrations/0008_route_methods_and_unique_base_paths.py:85-88 | refuses a missing route or a second grant of the application for it, and otherwise changes that row only |
| ConsolidationDatabase.Database.DeleteRoutes | apps/routes/migrations/0008_route_methods_and_unique_base_paths.py:90 | deletes with cascades: policies and grants go, logs lose their reference |
| ConsolidationDatabase.MergeApplication | apps/routes/migrations/0008_route_methods_and_unique_base_paths.py:76-88 | one entry of an application remains, on the survivor, active when any was, the survivor's own entry if there was one; no constraint is met on the way |
| ConsolidationDatabase.MergedStep | apps/routes/migrations/0008_route_methods_and_unique_base_paths.py:76-88 | merging one more application keeps what merging the others achieved and leaves every other grant alone |
| ConsolidationRewrite.GroupGrants | apps/routes/migrations/0008_route_methods_and_unique_base_paths.py:73-75 | every grant on the group is listed under its application, and nothing else is |
| ConsolidationRewrite.MergeGrants | apps/routes/migrations/0008_route_methods_and_unique_base_paths.py:73-88 | after merging, each application with a grant in the group holds exactly one, on the survivor |
| ConsolidationRewrite.CreateMethods | apps/routes/migrations/0008_route_methods_and_unique_base_paths.py:53-59 | the survivor gets one policy for each enabled row, under its own method, and no write meets the (route, method) constraint |
| ConsolidationRewrite.ConsolidateGroup | apps/routes/migrations/0008_route_methods_and_unique_base_paths.py:50-90 | takes a database in which some groups are finished to one in which this group is finished too, without an integrity error; the final delete cascades to nothing |
| ConsolidationRewrite.Uncascaded | apps/routes/migrations/0008_route_methods_and_unique_base_paths.py:70-90 | when the duplicates are deleted no policy, grant or log refers to them any more |
| ConsolidationRewrite.GroupStep | apps/routes/migrations/0008_route_methods_and_unique_base_paths.py:50-90 | routes, policies, grants and logs of finished groups stay finished while another group is rewritten |
| ConsolidationMeaning.UngrantedKept | apps/routes/migrations/0008_route_methods_and_unique_base_paths.py:73-88 | an application has no grant rows afterwards exactly when it had none, so default access is neither gained nor lost |
| ConsolidationMeaning.GrantedAtHome | apps/routes/migrations/0008_route_methods_and_unique_base_paths.py:76-88 | the surviving route is granted to an application exactly when some row of the group was |
| ConsolidationMeaning.AccessKept | apps/routes/migrations/0008_route_methods_and_unique_base_paths.py:50-90 | every application, path and method allowed before is allowed after, under the same policy |
| ConsolidationMeaning.AccessPreservedExactly | apps/routes/migrations/0008_route_methods_and_unique_base_paths.py:18-90 | access is the same for all applications, paths, methods and policies if and only if no enabled group hides an active grant on a disabled row |
| ConsolidationMeaning.HiddenGrantPassesValidation | apps/routes/migrations/0008_route_methods_and_unique_base_paths.py:38-48 | a database that passes validation and hides a grant |
| ConsolidationMeaning.DestinationKept | apps/routes/migrations/0008_route_methods_and_unique_base_paths.py:50-52 | exactly one row per project and path survives, the one with the least id, with the target and service every row of the group had |
| ConsolidationLaws.PassesExactly | apps/routes/migrations/0008_route_methods_and_unique_base_paths.py:18-48 | a database passes validation if and only if rows of one project and path agree on target and service, and an active grant on one enabled row comes with one on each of the others |
| ConsolidationLaws.RaisesExactly | apps/routes/migrations/0008_route_methods_and_unique_base_paths.py:19-48 | each error names its cause: two different targets, two different services, or a grant on one enabled row and not on another |
| ConsolidationLaws.BeforeExactly | apps/routes/migrations/0008_route_methods_and_unique_base_paths.py:31-39 | who may call what before, over raw rows: an enabled row, an active application of the project, and no grant row at all or an active one on this row |
| ConsolidationLaws.AfterExactly | apps/routes/migrations/0008_route_methods_and_unique_base_paths.py:50-90 | the same afterwards, over surviving rows and policy rows |
| ConsolidationLaws.OpenThroughout | apps/routes/migrations/0008_route_methods_and_unique_base_paths.py:73-88 | an active application without grant rows may call every enabled row of its project before, and its method afterwards |
| ConsolidationLaws.RowsLeft | apps/routes/migrations/0008_route_methods_and_unique_base_paths.py:50-64 | the rows left are those with the least id of their project and path, unchanged except that they are enabled when any row was |
| ConsolidationLaws.PoliciesLeft | apps/routes/migrations/0008_route_methods_and_unique_base_paths.py:53-59 | the policy rows left are exactly those of the methods that had an enabled row, with that row's policy |
| ConsolidationLaws.LogsLeft | apps/routes/migrations/0008_route_methods_and_unique_base_paths.py:70-71 | no log is lost or emptied, and each refers to the remaining route of its path |
| ConsolidationLaws.GrantsLeft | apps/routes/migrations/0008_route_methods_and_unique_base_paths.py:73-88 | an application has a grant row on a remaining route exactly when it had one in the group, never two, active exactly when one was |
| ServiceOrigins.Catalog.RoutesByService | apps/routes/migrations/0009_backendservice_base_url.py:18-31 | groups all routes by service, or fails if and only if some target has no service or some service is missing or of another project |
| ServiceOrigins.Catalog.CollectOrigins | apps/routes/migrations/0009_backendservice_base_url.py:33-54 | the origins of the configured routes of a service, or a failure that some route's target cannot be represented |
| ServiceOrigins.Catalog.MigrateServiceOrigins | apps/routes/migrations/0009_backendservice_base_url.py:13-66 | succeeds if and only if the catalog is migratable, and then moves every service; after a failure each service is untouched or correctly moved |
| ServiceOrigins.VerdictMoved | apps/routes/migrations/0009_backendservice_base_url.py:55-66 | a service that passes the two checks gets the one origin of its routes, or keeps its row when none is configured |
| ServiceOrigins.UrlsPreserved | apps/routes/migrations/0009_backendservice_base_url.py:40-66 | for every route with a service and every suffix the new target URL is the old one with that suffix, and the base URL is empty exactly when the target was |
| ServiceOriginsLaws.MigrateUniform | apps/routes/migrations/0009_backendservice_base_url.py:13-66 | completeness: every database whose routes forward to one http or https address per service, under their own paths with any trailing slashes, migrates and stores exactly that address |
| ServiceOriginsLaws.DestinationExactly | apps/routes/migrations/0009_backendservice_base_url.py:40-54 | a composed target is migrated to scheme and network location if and only if it has a host, no user or password, no query, no fragment, and the public path with any slashes behind |
| ServiceOriginsLaws.RootDestination | apps/routes/migrations/0009_backendservice_base_url.py:48-49 | a route at the root may have a target without a path or with slashes only |
| ServiceOriginsLaws.MigratesExactly | apps/routes/migrations/0009_backendservice_base_url.py:18-66 | the databases that migrate, over raw rows and the destinations of their routes |
| ServiceOriginsLaws.HttpsMigrates | apps/routes/migrations/0009_backendservice_base_url.py:43 | for example a route with target https://svc/doctors/ |
| Migrations.DestinationsPreserved | apps/routes/migrations/0009_backendservice_base_url.py:13-66 | after 0008 and then 0009 every old row with a service keeps its target URL with any admitted suffix, through the surviving row of its path |
| Migrations.Migrate | apps/routes/migrations/0008_route_methods_and_unique_base_paths.py:122 | both migrations run in order: on success that holds of every row of the old database |
| Routing.ValidBasePathShape | apps/routes/models.py:49-56 | the save guard accepts exactly one slash in front of a non-empty segment |
| Routing.NormalizeIdempotent | apps/gateway/services.py:52-54 | normalising a path twice is normalising it once |
| Routing.ResolverAgreesWithBuilder | apps/gateway/services.py:56-76 | for every request path with a first segment the lookup path is one the save guard accepts, and the target URL of a route found there is the stripped origin and the normalised path, never an error |
| Routing.BuilderAgreesExactly | apps/gateway/services.py:71-76 | the builder accepts a request if and only if the route spells its path like the first segment |
| Routing.BuildAppendsSuffix | apps/gateway/services.py:71-76 | the target URL of a public path and a suffix is plain concatenation |
| PathLaws.StripExactly | apps/gateway/services.py:52-54 | stripping removes the slashes at both ends and nothing else |
| PathLaws.StripParts | apps/gateway/services.py:52-54 | every string is slashes, its stripped form with clean ends, and slashes |
| PathLaws.NormalForm | apps/gateway/services.py:52-54 | the normal form of slashes, a clean path and slashes is that path behind one slash |
| PathLaws.LookupPath | apps/gateway/services.py:56-60 | the lookup path is the first segment behind a slash, whatever slashes surround the request and whatever follows |
| PathLaws.NoLookupPath | apps/gateway/services.py:60-62 | there is none if and only if the request consists of slashes |
| PathLaws.ComposedTarget | apps/gateway/services.py:70-76 | the target is the base URL without trailing slashes followed by segment and rest |
| PathLaws.OtherRoute | apps/gateway/services.py:73-75 | a route under another segment is refused |
| PathLaws.KeyTexts | apps/gateway/route_cache.py:35-43 | a path has Redis keys exactly when it is slashes and one segment, and their text spells project and segment |
| PathLaws.RouteTexts | apps/gateway/route_cache.py:40-43 | both keys of a route in full, at an example |
| PathLaws.CounterTexts | apps/gateway/views.py:67 | gateway and login counter keys in full, at an example |
| PathLaws.RegistrationTexts | apps/client_auth/views.py:77-81 | registration counter keys in full, at an example |
| RedisKeys.SavedPathsHaveKeys | apps/gateway/route_cache.py:35-43 | every path the save guard accepts has Redis keys, so no invalidation is dropped for its shape |
| RedisKeys.KeysCollideExactly | apps/gateway/route_cache.py:35-43 | two lookups share a key if and only if they agree on project and segment |
| RedisKeys.KeysInjective | apps/gateway/route_cache.py:35-43 | distinct routes never share a key |
| RedisKeys.KeyspacesDisjoint | apps/gateway/route_cache.py:40-43 | data keys, generation keys and rate-limit counters never coincide |
| RedisKeys.WindowKeyInjective | apps/gateway/services.py:41 | a counter key determines its base key and its window |
| RedisKeys.RateKeyInjective | apps/gateway/views.py:67 | gateway, login and registration counters of different subjects have different keys |
| RedisKeys.ScriptKeysShareSlot | apps/gateway/route_cache.py:36-43 | both script keys have the project as their non-empty hash tag, whatever braces the segment contains |
| PathCollation.CoveredSpellings | apps/routes/signals.py:20-49 | every fresh write that changes the lookup schedules its key if and only if it spells the path like the row it finds |
| PathCollation.SpellingDecides | apps/gateway/services.py:56-76 | the cache key of a request is covered if and only if its target URL can be built |
| PathCollation.OtherSpelling | apps/gateway/services.py:56-76 | a request spelt in another case finds a row that no signal covers and no URL can be built for |
| PathCollation.OtherSpellingStale | apps/gateway/route_cache.py:65-101 | a faithful run at whose end, with nothing pending, a live entry under another spelling shows a deleted route |
| Destinations.AppendedOrigin | apps/routes/destinations.py:10-23 | appending any rooted path to an accepted base yields the same origin or none, and none exactly when the path has a refused character or a fragment appears |
| Destinations.AppendedPath | apps/routes/destinations.py:26-39 | the request path stays the path of the target URL if and only if the accepted base contains no question mark or hash |
| Destinations.AppendedSplit | apps/routes/destinations.py:26-39 | an accepted base fixes scheme and network location of everything appended to it |
| Destinations.BareQueryAccepted | apps/routes/destinations.py:34-39 | a base with a bare question mark is accepted, and the path of a request becomes its query |
| UrlLaws.SplitComposed | apps/routes/destinations.py:13 | urlsplit finds the parts a URL was composed of |
| UrlLaws.BreakRemoved | apps/routes/destinations.py:13 | line breaks and tabs inside a URL do not count |
| UrlLaws.HostPort | apps/routes/destinations.py:14-22 | host and port of a network location |
| UrlLaws.BracketedHost | apps/routes/destinations.py:14-22 | the same for an IPv6 address in brackets |
| UrlLaws.UserGiven | apps/routes/migrations/0009_backendservice_base_url.py:43-44 | a user name or password makes credentials, an empty user field does not |
| UrlLaws.OriginComposed | apps/routes/destinations.py:10-23 | a composed URL names exactly its scheme, host and port, unless it has a fragment or its port is too large |
| UrlLaws.OriginSound | apps/routes/destinations.py:10-16 | only http(s) URLs without user, fragment and refused characters name an origin |
| UrlLaws.HostLowered | apps/routes/destinations.py:17-21 | a host in any case names the origin in lower case, if it matches the host pattern |
| UrlLaws.NameExactly | apps/routes/destinations.py:20 | the host pattern: letters, digits, dots and hyphens with a letter or digit at both ends |
| UrlLaws.AddressOrigin | apps/routes/destinations.py:18-19 | an IPv6 address names an origin if and only if the library accepts it |
| UrlLaws.OddPorts | apps/routes/destinations.py:22-23 | an empty port is the default one, one that is no number names no origin |
| UrlLaws.RefusedCharacters | apps/routes/destinations.py:11 | the refused characters by code point |
| UrlLaws.ListedExactly | apps/routes/destinations.py:42-52 | a composed URL is accepted if and only if its very scheme, host and port are listed |
| UrlLaws.BadEntryRefuses | apps/routes/destinations.py:47 | one list entry that is no origin makes every URL refused |
| UrlLaws.BaseExactly | apps/routes/destinations.py:26-39 | a base URL is accepted if and only if it is a listed site with nothing behind it |
| RouteCatalog.ReadRoute | apps/gateway/route_cache.py:46-62 | finds nothing if and only if no active row of the project with an equal path has no service or an active one of the project; otherwise describes such a row, path as the row spells it |
| CatalogLaws.FoundExactly | apps/gateway/route_cache.py:46-53 | column by column: nothing is found exactly when no row has the project, an equal path, is active, and has no service or an existing active one of the project |
| CatalogLaws.FoundRow | apps/gateway/route_cache.py:54-62 | what is found is such a row, with its path and its service's base URL |
| CatalogLaws.DeactivatedHidden | apps/gateway/route_cache.py:47-51 | after a service is saved inactive no lookup returns it |
| CatalogLaws.ActivatedFound | apps/gateway/route_cache.py:47-62 | after it is saved active in their project its active routes are found with the base URL just saved |
| CatalogLaws.AcceptedExactly | apps/routes/models.py:46-56 | which saves the guard and the uniqueness constraint accept, column by column |
| CatalogLaws.SavedColumns | apps/routes/models.py:49-56 | a save writes the named columns of one row and nothing else |
| CatalogLaws.SavedIsRead | apps/gateway/route_cache.py:46-62 | a full save is read back at once, or not at all if it is not to be seen |
| CatalogLaws.DeletedIsGone | apps/routes/signals.py:37-39 | a deleted route is gone, its key answers nothing, the other rows stay |
| CatalogLaws.ServiceIsGone | apps/routes/models.py:34-36 | a deleted service takes its routes along and no others |
| CatalogLaws.RouteSchedules | apps/routes/signals.py:20-39 | a save schedules exactly the key of the instance and the key the row had, a delete that of the instance |
| CatalogLaws.ServiceSchedules | apps/routes/signals.py:42-49 | saving or deleting a service schedules exactly the keys of its routes |
| RouteCatalog.ExactSpelling | apps/gateway/route_cache.py:46-62 | under exact comparison whatever a lookup finds spells the path like the key |
| RouteCatalog.CoversExactly | apps/routes/signals.py:20-49 | a save or delete schedules every key whose lookup it changes, spelt like the row found before or after, if and only if its instance was fresh where it matters |
| RouteCatalog.StaleSaveEscapes | apps/routes/signals.py:29-34 | a save of the project alone through an outdated instance moves the row to a key that is not scheduled |
| RouteCatalog.StaleDeleteEscapes | apps/routes/signals.py:37-39 | a delete through an outdated instance leaves the real key of the row unscheduled |
| RouteCatalog.TransactionCovers | apps/routes/signals.py:9-49 | a transaction of fresh writes schedules every such key |
| RouteCatalog.TransactionKeepsTables | apps/routes/models.py:46-56 | accepted transactions, fresh or not, keep guard and uniqueness constraint of the route table |
| RouteSignals.Transaction.Save | apps/routes/models.py:49-56 | accepts exactly what guard and constraints accept; the commit queue grows by the saved key and the key the row had |
| RouteSignals.Transaction.Delete | apps/routes/signals.py:37-39 | the commit queue grows by the key of the deleted instance |
| RouteSignals.Transaction.InvalidateServiceRoutes | apps/routes/signals.py:45-49 | queues the keys of all routes of a service and no others |
| RouteSignals.Transaction.Update | apps/routes/signals.py:42-49 | saving a service keeps queue and tables in step |
| RouteSignals.Transaction.DeleteWithRoutes | apps/routes/signals.py:37-39 | deleting a service queues the keys of all routes it takes along |
| RouteSignals.Transaction.QueueCovers | apps/routes/signals.py:9-49 | whatever lookup a transaction of fresh writes changes, spelt like its row, is in its commit queue |
| CacheProtocol.StepKeepsInv | apps/gateway/route_cache.py:65-101 | every step of readers, writers, invalidations, failures and clock keeps the cache invariant and moves history, time and generations forward only |
| CacheProtocol.EntriesOk | apps/gateway/route_cache.py:21-26 | whatever is cached was read no earlier than the last invalidation of its key and was committed when it was read |
| CacheProtocol.CommitSettles | apps/routes/signals.py:9-17 | a commit, fresh or not, changes no lookup spelt like its row unless it leaves the key pending or has missed it |
| CacheGuarantees.Regularity | apps/gateway/route_cache.py:65-101 | what a call returns, by hit, publish, third failure or error, is at least as recent as the last invalidation of its key that ran before the call began, whatever other invalidations are lost |
| CacheGuarantees.Coherence | apps/gateway/route_cache.py:73-86 | a cached route spelt like its key is what the database holds, unless an invalidation of the key is pending, was lost, or was never scheduled |
| CacheGuarantees.CoherentWithoutLoss | apps/routes/signals.py:9-49 | in runs that lose no invalidation and write through fresh instances a cached route spelt like its key is current or about to be dropped |
| CacheGuarantees.NothingLost | apps/routes/signals.py:9-49 | such runs never leave a changed lookup unscheduled |
| CacheGuarantees.ExactlyCoherent | apps/gateway/route_cache.py:46-86 | under exact comparison every cached route of such a run is current or about to be dropped |
| CacheGuarantees.BoundedStaleness | apps/gateway/route_cache.py:19-26 | with any number of lost invalidations, a served value was the committed one at most 60 seconds and the publisher's delay earlier |
| CacheGuarantees.HitLag | apps/gateway/route_cache.py:74-76 | the delay counted for a hit is the time its entry's publisher took from read to publish |
| CacheGuarantees.GenerationCounts | apps/gateway/route_cache.py:28-32 | a generation advances by exactly the executed invalidations of its key |
| CacheGuarantees.FillProgress | apps/gateway/route_cache.py:70-89 | each refused publish has its own invalidation during the call; with fewer than three and no Redis error a call that finds the route ends in a hit or a publish; no call reads the database more than four times |
| RouteCache.Deployment.GetRoute | apps/gateway/route_cache.py:65-89 | under every interleaving and every failure of its operations it returns a lookup in a version no older than the last invalidation before the call, within the staleness bound, with at most four reads; for a path spelt without its slash or with several, the cached route of the one-slash path or nothing, where the collation tells slashes from other characters |
| RouteCache.Deployment.Round | apps/gateway/route_cache.py:73-86 | one round of the loop ends served, in the error path, or refused and ready for the next round |
| RouteCache.Deployment.GetRouteForRequest | apps/gateway/services.py:56-64 | no first segment, no lookup; the path of a found route compares equal to the first segment, and the target URL of the whole request can be built exactly when it spells it the same |
| RouteCache.Deployment.InvalidateRoute | apps/gateway/route_cache.py:92-101 | an executed invalidation drops the entry of the path, however its slashes are spelt, and advances the generation; a failed one changes nothing in Redis |
| CacheRefinement.HitRefined | apps/gateway/route_cache.py:74-76 | the GET of the data key hits exactly when the protocol's step does, on the encoding of the same value |
| CacheRefinement.SameDecision | apps/gateway/route_cache.py:22-23 | comparing generations as text, absent meaning 0, is comparing them as numbers |
| CacheRefinement.PublishRefined | apps/gateway/route_cache.py:21-26 | the publishing script on strings does what the protocol's publish step does, for this key and no other |
| CacheRefinement.InvalidateRefined | apps/gateway/route_cache.py:28-32 | the invalidation script on strings does what the protocol's step does, for this key and no other |
| CacheRefinement.StepRefined | apps/gateway/route_cache.py:21-101 | every protocol step is carried out by its string-level commands |
| CacheRefinement.RateCallApart | apps/gateway/services.py:38-45 | rate-limit calls in the same database never disturb the cache |
| SharedRedis.CacheApart | apps/gateway/route_cache.py:21-32 | apart from expiry no step of the cache touches a rate-limit counter |
| SharedRedis.OneRedis | apps/gateway/route_cache.py:21-101 | from the empty database on, with cache steps and limiter calls in any order, the strings show a state the cache protocol reaches and the limiter calls are a run of the limiter |
| SharedRedis.CachedText | apps/gateway/route_cache.py:74-76 | the text a GET finds encodes what a lookup found in a version no older than the key's last invalidation, published within the last 60 seconds |
| SharedRedis.CounterText | apps/gateway/services.py:20-29 | while a window lasts the text of its counter is the number of executed calls, whatever the cache does |
| RedisStore.FakeRedisClient.Read | apps/gateway/test_support.py:17-22 | dropping an expired key changes nothing that is visible from then on |
| RedisStore.FakeRedisClient.Set | apps/gateway/test_support.py:31-38 | replaces the value, and sets or clears the expiry |
| RedisStore.FakeRedisClient.Delete | apps/gateway/test_support.py:40-48 | removes the keys and counts the stored ones among them, unread expired ones included |
| RedisStore.FakeRedisClient.EvalCount | apps/gateway/test_support.py:57-66 | the fixed-window script acts on what is visible at its instant, at every later instant |
| RedisStore.FakeRedisClient.EvalPublish | apps/gateway/test_support.py:75-81 | likewise the publishing script |
| RedisStore.FakeRedisClient.EvalInvalidate | apps/gateway/test_support.py:67-74 | likewise the invalidation script |
| RateLimiter.Counters | apps/gateway/services.py:20-29 | over every run the counter of a window holds exactly the executed calls of that window, and goes only after the window has ended |
| RateLimiter.AdmittedByRank | apps/gateway/services.py:38-48 | an answered call is admitted if and only if its rank among the executed calls of its window is within its limit |
| RateLimiter.ExactQuota | apps/gateway/services.py:38-48 | without failed evaluations, n calls in a window with a fixed limit L are admitted exactly min(n, L) times |
| RateLimiter.QuotaBound | apps/gateway/services.py:38-48 | with failures and varying limits no window admits more than the largest limit or more than was executed |
| RateLimiter.LiveWindows | apps/gateway/services.py:40-42 | at any instant only the counters of the current window and of the one before are alive |
| RateLimiter.BoundedBurst | apps/gateway/services.py:38-45 | any closed interval of length T admits at most (ceil(T/W) + 1) times the limit, so twice the limit for T = W |
| RateLimiter.RedisRateLimiter.AllowRequest | apps/gateway/services.py:38-48 | one call advances the store by one event of the run and reports failure of the script as unavailable |
| LimiterLaws.WindowExactly | apps/gateway/services.py:40-41 | window w runs from w to w + 1 times its length, in milliseconds |
| LimiterLaws.TtlExactly | apps/gateway/services.py:42 | the time to live reaches from the current second to the next aligned boundary |
| LimiterLaws.CounterName | apps/gateway/services.py:41 | a counter is named after key and window |
| LimiterLaws.VisibleExactly | apps/gateway/test_support.py:17-22 | a cell is visible before its expiry and not from it on |
| LimiterLaws.ScriptExactly | apps/gateway/services.py:20-29 | the script starts a counter at one with the time to live, moves it by one, and tells whether the count is within the limit |
| LimiterLaws.LostCalls | apps/gateway/services.py:43-48 | a call that does not run changes nothing, one whose reply is lost counts |
| LimiterLaws.ScriptFails | apps/gateway/services.py:43-48 | a counter that is not a number makes the limiter unavailable and stays as it is |
| Gateway.GatewayProxyView.Screen | apps/gateway/views.py:36-62 | lets a request through to the limiter if and only if caller, route, method policy, permission and token all hold; otherwise answers with the first that fails |
| Gateway.GatewayProxyView.Describe | apps/gateway/views.py:76-96 | previews exactly the configured and approved destinations of routes that spell their path like the request, and refuses all others |
| Gateway.GatewayProxyView.Decide | apps/gateway/views.py:36-96 | every request gets the response its conditions call for, and the limiter is charged once if the request reaches it and not at all otherwise |
| Gateway.GatewayProxyView.Forward | apps/gateway/views.py:36-96 | the same with the route taken from the shared cache under every interleaving |
| Gateway.OneAnswer | apps/gateway/views.py:36-96 | the conditions of the responses exclude each other |
| Gateway.PreviewOrigin | apps/gateway/views.py:79-84 | a 200 names the base URL followed by the normalised path, and its origin is the base URL's and is on the allowlist |
| Gateway.PreviewExists | apps/gateway/views.py:86-96 | a request that is previewed |
| PermissionLaws.PermissionExactly | apps/authentication/models.py:118-124 | an active application of the project without any grant row may call every route, one with rows those an active row names |
| PermissionLaws.OwnRowsOnly | apps/authentication/models.py:121-124 | the rows of other applications do not matter |
| GatewayLaws.EarlyExactly | apps/gateway/views.py:37-52 | 401 without a project, 404 without a route, 405 without a policy row for exactly this route and method |
| GatewayLaws.NotPermittedExactly | apps/gateway/views.py:53-54 | 403 exactly for an inactive application, or one that has grant rows of which no active one names the route |
| GatewayLaws.OpenByDefault | apps/gateway/views.py:53-54 | an active application without grant rows is never refused a route of its project |
| GatewayLaws.BearerExactly | apps/client_auth/services.py:66-82 | the bearer user exists exactly for access claims of this application whose dates hold and whose stored user is active with the claimed version |
| GatewayLaws.BadTokenExactly | apps/gateway/views.py:55-61 | 401 exactly when the policy asks for a token and there is no good one |
| GatewayLaws.ReachesExactly | apps/gateway/views.py:36-62 | which requests reach the limiter, over raw rows and claims |
| GatewayLaws.LimiterExactly | apps/gateway/views.py:68-78 | 503 and 429 of the limiter, and the 503 of a route without service or base URL |
| GatewayLaws.ChargeText | apps/authentication/models.py:98-127 | the limiter call in full: the application's key, sixty seconds, 1000 on the premium plan and 100 on any other |
| GatewayLaws.PreviewTells | apps/gateway/views.py:86-96 | a 200 tells the policy row of exactly this route and method, and the user of its token under JWT only |
| GatewayLaws.ApprovedExactly | apps/gateway/views.py:79-84 | a destination is approved exactly when the route is that of the request's first segment and its service's site is listed |
| GatewayLaws.PreviewExactly | apps/gateway/views.py:79-96 | past the limiter such a request is previewed with the site's URL, segment and rest as target, or refused a destination, by that |
| GatewayRuns.ChargedExactly | apps/gateway/views.py:36-84 | 404, 405, permission 403 and token 401 are exactly the responses that never reach the limiter |
| GatewayRuns.CounterConserved | apps/gateway/views.py:63-84 | per application and window the shared counter equals the number of 200, 429, destination 403 and 503 responses and of limiter 503 whose script ran |
| GatewayRuns.EndToEndQuota | apps/gateway/views.py:66-84 | per application and window at most the largest plan limit in force passes the limiter, which bounds the 200s |
| GatewayRuns.EndToEndExact | apps/gateway/views.py:66-84 | with one plan and an answering limiter exactly the first L charged requests of a window pass |
| GatewayRuns.TraceExtended | apps/gateway/views.py:36-96 | what forward promises of one request extends any run by that request |
| GatewayRuns.Serve | apps/gateway/views.py:36-96 | requests served by the view one after another on fresh counters make such a run, each with its right response |
| GatewayUsers.ServedUser | apps/gateway/views.py:55-61 | a 200 under the JWT policy names the user its access token was issued for, active in the caller's application, with an unrevoked version |
| GatewayUsers.NeverServedAgain | apps/gateway/views.py:55-61 | once the version of a token is revoked no later request of a trace is served on it, unless a save of that user restores the version |
| GatewayUsers.DisabledNeverServed | apps/client_auth/views.py:44-55 | so after a disable of an active user no later request is served on a token of a version the user had reached |
| ClientTokens.VerifiesExactly | apps/client_auth/services.py:19-82 | a made token verifies if and only if kind, dates in whole seconds, application, version and activity of the stored user all agree |
| ClientLaws.VerifyExactly | apps/client_auth/services.py:44-82 | any signed claims: which kind, dates, subject, application and stored user they verify for |
| ClientLaws.TokenSays | apps/client_auth/services.py:19-32 | what a made token says, with an end 900 or 604800 seconds after the second it was made in |
| ClientLaws.UserWrites | apps/client_auth/views.py:44-104 | what each step writes to the user table, column by column |
| ClientLaws.SessionsRead | apps/client_auth/views.py:128-133 | logins start from active users only, and requests work on the row as they read it |
| ClientTokens.StepKeepsInv | apps/client_auth/views.py:44-156 | registrations, logins, refreshes, disables, edits and deletions keep users unique per application and address and tokens true to the rows they were made from |
| ClientTokens.VerifiedBelongs | apps/client_auth/services.py:66-82 | a token that verifies names the user it was made for, in the presented application, for the purpose it was issued for |
| ClientTokens.SessionBound | apps/client_auth/views.py:146-156 | in every run no access token derived from a login, directly or by refreshes, is accepted seven days and fifteen minutes later plus the time its own refresh request took |
| ClientTokens.StrictSessionBound | apps/client_auth/views.py:146-156 | without that allowance, if the refresh request took at most one second |
| ClientTokens.OutlivesExactly | apps/client_auth/services.py:19-32 | an access token can be accepted at or after seven days and fifteen minutes if and only if the second it was made in begins later than seven days after the login |
| ClientTokens.SlowRefreshOutlives | apps/client_auth/views.py:146-156 | a refresh of 1001 milliseconds whose token is accepted at exactly seven days and fifteen minutes |
| ClientTokens.RefreshBound | apps/client_auth/services.py:35-41 | refresh tokens stem from logins only and are refused after seven days |
| ClientTokens.RevocationStep | apps/client_auth/views.py:44-55 | a revocation survives a step if and only if the step is not a save of that user whose request read the row at a revoked version |
| ClientTokens.RevocationRun | apps/client_auth/views.py:44-55 | the versions up to any v of a user stay revoked in every state of a run if and only if no step of it is such a save |
| ClientTokens.DisableRevokes | apps/client_auth/views.py:50-53 | after disabling an active user a version is revoked throughout the continuation if and only if the user had reached it and no such save restores it |
| ClientTokens.PermanentRevocation | apps/client_auth/views.py:44-55 | from any reachable state: after a disable of an active user no token of a version the user had reached verifies in a continuation without such a save of that user, even if made later and even if the user is activated again |
| ClientTokens.PeakStep | apps/client_auth/admin.py:6-15 | a user's row leaves its highest version if and only if a save of that user writes an older one back |
| ClientTokens.ReadsBounded | apps/client_auth/services.py:19-41 | as long as it has not, every read so far has at most its version, so a disable revokes the tokens of all earlier reads |
| ClientTokens.StaleSaveUndoesRevocation | apps/client_auth/admin.py:6-15 | an admin request that reads the row before the disable and saves it afterwards makes a revoked token verify again |
| ClientViews.ClientAuth.Disable | apps/client_auth/views.py:44-55 | 404 changes nothing; 200 leaves the user inactive, with a new version if it was active |
| ClientViews.ClientAuth.Admit | apps/client_auth/views.py:72-85 | charges the application's counter, and the address's only when the first admits |
| ClientViews.ClientAuth.Register | apps/client_auth/views.py:63-104 | status and new user follow the counters and the uniqueness of the address; no other outcome adds a user |
| ClientViews.ClientAuth.IssuePair | apps/client_auth/services.py:35-41 | both tokens are usable from now to the end of their lifetime for the row they were made from |
| ClientViews.ClientAuth.Login | apps/client_auth/views.py:112-133 | charges its counter once; 200 only for an active user of the application whose password is known, with tokens that verify |
| ClientViews.ClientAuth.Refresh | apps/client_auth/views.py:140-156 | 200 if and only if the refresh token verifies, with one usable access token of the same session and nothing else issued |
| ClientLaws.LoginQuota | apps/client_auth/views.py:122-127 | at most ten logins per address of an application in a window of five minutes, twenty in any five minutes |
| ClientLaws.RegistrationQuota | apps/client_auth/views.py:77-78 | at most a hundred registrations per application in an hour's window, two hundred in any hour |
| ClientLaws.AddressQuota | apps/client_auth/views.py:79-82 | at most five per address in an hour's window, ten in any hour |
| ClientLaws.GateExactly | apps/client_auth/views.py:75-84 | a registration charges the second counter exactly when the first admits it |
| ApiKeys.StepKeepsInv | apps/authentication/models.py:42-85 | creations, rotations, revocations and deletions keep one row per application, distinct hashes, and rows in step with the keys in force |
| ApiKeys.ValidatesExactly | apps/authentication/models.py:66-78 | a raw key validates if and only if it is its active application's current key and has not expired |
| ApiKeys.OneKeyPerApplication | apps/authentication/models.py:11 | each application has at most one row and at most one raw key that validates |
| ApiKeys.Retires | apps/authentication/models.py:56-85 | rotating, revoking or deleting retires the key that was current |
| ApiKeys.RetiredForever | apps/authentication/models.py:56-78 | a retired key never validates again in any continuation, although rotation clears the revocation of the row |
| ApiKeyLedger.ValidatesByLedger | apps/authentication/models.py:42-78 | over every run a raw key validates exactly when the ledger of events has it standing for the row's active application and the instant it was drawn plus its lifetime is not over |
| ApiKeyLedger.NeverAfterItsTime | apps/authentication/models.py:49-77 | a key never validates after the instant it was drawn plus its lifetime, in any continuation |
| ApiKeys.APIKeyTable.CreateForApplication | apps/authentication/models.py:42-64 | rotates the row or inserts one, with the new hash, the expiry its lifetime ahead and no revocation; afterwards the application answers to the new key and to no earlier one |
| ApiKeys.APIKeyTable.Revoke | apps/authentication/models.py:83-85 | afterwards no raw key validates as that row |
| ApiKeys.APIKeyTable.ValidateKey | apps/authentication/models.py:66-78 | finds exactly the row whose current key is presented, if active and unexpired |

## Left out

- Framework code: ORM, serializers, admin CRUD, middleware plumbing, URL routing; only the table reads and writes named above are modelled.
- A request with a project but no application: the API-key middleware sets both or neither.
- `build_payload` of the preview response: JSON, UTF-8 and base64 formatting.
- `ProductResponseCache`: the gateway does not use it and its fallback is best effort.
- JWT encoding, HMAC, SHA-256 and password hashing; header parsing of the bearer token arrives as decoded claims or nothing.
- `ping` and `scan_iter` of the Redis double; numerals other than plain decimals as counter values, which only other clients could write.
- Redis Cluster failover, lost counters or generations, skewed clocks, and delay between reading the clock and running the script: the code does not guard against them.
- Overlapping uncommitted transactions around signal collection, `QuerySet.update` and bulk writes, and deletion of a whole project: they bypass or precede the signals.
- Monotonic reads between a commit and its invalidation: publishing is a plain SET and the protocol does not provide them.
- RouteCache.Deployment.GetRoute: for a path spelt without its slash or with several it is stated only for collations that tell slashes from other characters, because another row could then be published under the keys of the one-slash path; the resolver never passes such a path.
- ClientTokens.SessionBound: both tokens of a login carry one instant; the code reads the clock once for each.
- Password rules, e-mail normalisation and staff ownership of created users in the client endpoints.
- Bootstrap scripts, Compose, nginx, demo data and schema-only migrations.
