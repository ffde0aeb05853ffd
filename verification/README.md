# A verified model of the CMS kernel

This project models the stateful and order-sensitive core of the Go CMS kernel in Dafny 4.11
and proves what that core is relied on for. `dafny verify dfyconfig.toml` checks everything.

Concurrency is modelled as interleaving. A protocol is a state machine on values (`State`,
`Step`, `CanDo`/`Enabled`, `Do`, `After(run)`), with theorems about every run. The code itself
is a class whose methods are the Go statements: each effect of a method is one step of the
machine, and `Others()` lets all other threads and processes act between any two of them. Map
iteration picks any remaining element (`:|`), so results hold for every iteration order.

* **Tag-generation cache.** `TokenHistory` is the history of the commands that any number of
  processes send to one backend; `CacheBackend`, `RedisConnector` and `FilesystemConnector` are
  the two implementations over it; `Remember` is the read-through order of operations.
* **Coherence.** `Stripes` (striped RW locks and load locks), `LockIndexes` (stripe numbers),
  `Coherence` (cached site listings beside mutations), `StaleListing` (what an unsafe write
  leaves behind), `LoadLocks`, `Coordinator` (staged invalidation targets and namespaces),
  `WidgetSplit` (layouts and content-addressed widget configurations).
* **Entity hooks.** `HookRegistry`, `HookTransitions` (pins, deliveries and runtime transitions
  over whole runs), `RuntimePreparer`, `Delivery`, `HookBuild`.
* **Graphs and trees.** `Graphs` (three-colour search), `Sorting`, `Layout`, `Visibility`,
  `Navigation`.
* **Small machines.** `PrefixScan`, `Templating`, `RateLimiter`, `BackgroundTasks` with
  `TaskOverlap`; `Text`, `Lists` and `Wrappers` hold shared vocabulary.

Some expectations turned out to need a condition, and the project says which:

* Cache and repository agree throughout a run if and only if every write changes, of the listings
  that are relied on, only those of sites it locked (`Coherence.RunIsExactExactly`). A listing is
  relied on while a cached entry of it matches in all its tags, or a reader has accepted it or will
  accept it if nothing moves on; agreement is that all of those are the repository's. `Delete` and
  the widget mutations read the owner before they lock, so this holds when the owner is still the
  same when they write; a delete that finds its row in another site leaves every usable entry of
  that site stale (`StaleListing.MovedDeleteLeavesStale`), and `StaleListing.StaleListingStays`
  is such a run from the empty cache to the end.
* `tagToken` does not check the length of the value it reads after replacing a damaged one. The
  Redis connector compares raw tokens, so its hits are right whatever is damaged, as long as damage
  changes the length of a token. The filesystem connector
  reads generations through `tagToken`, and confirms an outdated token exactly when the tag is
  damaged twice during the check and the second damage reads as the old token
  (`TokenHistory.StaleIsConfirmed`; `TokenHistory.DamagedTwiceServesStale` is such a read).
* A rate-limited key gets fewer than twice the limit in any span of a window's length,
  `2 * limit - 1`. The bound is reached by every rule except one with windows of a single
  nanosecond and a limit above one.
* Two instances of a background task can run together. The updates that rule it out, whatever
  the goroutines do, are exactly those that start a task only when no instance of it is still
  running besides the one they replace (`TaskOverlap.UpdateIsSafeExactly`). An instance replaced
  while it waits, and a task that is dropped and wanted again, break that condition. Of instances
  that run together at most one was not cancelled.
* Published invalidation targets stay registered throughout a run, overlapping updates included,
  exactly when each abort is of an update at whose preparation the targets published by then were
  registered (`Coordinator.PublishedSurviveExactly`).
* A handler that has succeeded can be called again exactly while its recipient is not completed, or
  an attempt that claimed the recipient has not called the handler yet
  (`Delivery.SuccessIsRepeatedExactly`); once the recipient is completed such an attempt has
  outlived its lease.
* While an update of runtime targets is open, a store that is replaced under the same scope and
  code is no longer reached.
* A directory whose `Close` fails at its end is closed a second time by `prefixScan`; all other
  opened directories are closed exactly once.
* In a complete form layout the final search for the mandatory nodes cannot fail.

## Model

| member | source | states |
|---|---|---|
| TokenHistory.GenerationIsAnInterval | connectors/redis/connector.go:496-571 | between two moments at which a bucket yields a token nothing touched it, exactly when no damage of that bucket in between reads as the token; a token found intact needs no condition, because invalidation only writes tokens never used before |
| TokenHistory.MatchingTokenDatesLoad | connectors/redis/connector.go:441-473 | an entry whose captured token is still in place was loaded after every earlier invalidation of its tag, unless damage of its bucket since the load imitates the token |
| TokenHistory.LateWriteAllowed | cache/prepare.go:10-39 | a prepared write keeps its guarantee however late it reaches the backend |
| TokenHistory.CaptureAfterLoadServesStale | cache/remember.go:57-66 | capturing generations after the load instead of before can serve a value that predates an invalidation |
| TokenHistory.StaleIsConfirmed | connectors/filesystemcache/connector.go:389-457 | a token outdated before the check began is answered again exactly when the tag was found damaged, replaced, and damaged again into that token |
| TokenHistory.DamagedTwiceServesStale | connectors/filesystemcache/connector.go:428-457 | for every tag a whole read that does so: the entry is found, its tag was invalidated, and the token answered is the entry's |
| CacheBackend.StoredIsLegitimate | connectors/redis/connector.go:441-473 | whatever entry the backend holds was written under the tags declared for its key and with generations captured before its load |
| RedisConnector.Connector.InvalidateTag | connectors/redis/connector.go:496-511 | a successful invalidation ends with a fresh token in the tag's bucket; an empty tag changes nothing |
| RedisConnector.Connector.TagToken | connectors/redis/connector.go:541-571 | the token returned is in place at that moment, created if it was missing; only after replacing a damaged one may it be read out of new damage |
| RedisConnector.Connector.TagTokens | connectors/redis/connector.go:520-539 | one captured token for each distinct tag |
| RedisConnector.Connector.Prepare | connectors/redis/connector.go:441-473 | captures every dependency before the load that follows |
| RedisConnector.Connector.Write | connectors/redis/connector.go:441-473 | stores exactly the value under the captured generations, however much happened since, with a clock of the call plus the TTL as its expiry and none for a TTL of zero; it fails only for its input, its context or the backend |
| RedisConnector.Connector.GetMany | connectors/redis/connector.go:360-420 | one result per key, in every interleaving and with bucket collisions; every hit was stored with the declared tags, loaded for the key after all invalidations of its tags up to the token-check phase, and not expired by a clock of the call; a miss means that during the call the entry was absent, had expired, or had a generation out of place; damage and failures are reported only where they happened |
| RedisConnector.Connector.CheckEntry | connectors/redis/connector.go:396-419 | an entry is a hit exactly when all its tags match the tokens read |
| RedisConnector.Connector.Get | connectors/redis/connector.go:351-358 | the same for a single key |
| FilesystemConnector.DiskConnector.CheckTags | connectors/filesystemcache/connector.go:389-404 | tags are confirmed one by one; all confirmed, the load came after every invalidation of each tag before the check, except for tags damaged twice during it |
| FilesystemConnector.DiskConnector.ValidEntry | connectors/filesystemcache/connector.go:378-405 | a hit is the stored value, not expired and, tag by tag, as fresh as the moment the check began unless the tag was damaged twice since; a miss had expired by then or had a generation that was not in place |
| FilesystemConnector.DiskConnector.Get | connectors/filesystemcache/connector.go:187-209 | the same for a read, hits being fresh outright when nothing was damaged during the check; a miss means that the entry was absent or had expired, or that a generation was not in place; what is not served is deleted |
| Remember.RememberJSON | cache/remember.go:29-68 | the value returned is one that the cache served or exactly the answer of this call's own load, which is asked at most once, after two reads without a value, and stored unless something prevents it; on any path it was loaded for the key after every invalidation of its declared tags that preceded the call, from the filesystem connector up to tags damaged twice during the call; cache failures never change the answer |
| Stripes.WriterIsAlone | modules/core/repository_coherence.go:58-96 | in no run is a writer inside together with a thread that shares a stripe |
| Stripes.NoDeadlock | modules/core/repository_coherence.go:58-111 | while a thread is left in any run some thread can move: index order and load locks only inside read sections rule out deadlock |
| Stripes.OppositeOrderDeadlocks | modules/core/repository_coherence.go:98-111 | without the index order any two stripes taken in opposite order admit a run that ends with both writers blocked for good |
| LockIndexes.CollectStripes | modules/core/repository_coherence.go:98-111 | the stripes collected are exactly those the tags hash to |
| LockIndexes.KnownHashes | modules/core/repository_coherence.go:98-111 | the hash has the published values of FNV-1a |
| LockIndexes.LockIndexes | modules/core/repository_coherence.go:98-111 | the plan holds the stripes of exactly the tags given, once each and ascending |
| LockIndexes.SharedTagExcludes | modules/core/repository_coherence.go:58-111 | a reader never overlaps a writer that shares a tag |
| Coherence.CachedListingIsExact | modules/core/repository_cache.go:241-263 | in every run whose mutations find the owner they read, a listing about to be returned is what the repository holds right then |
| Coherence.FixedSitesAreExact | modules/core/repository_coherence.go:364-385 | the same for every run in which no resource changes site |
| Coherence.MatchingEntryIsServed | modules/core/repository_cache.go:241-263 | an entry whose generations are all in place is returned without a load |
| Coherence.OwnSitesOnly | modules/core/repository_coherence.go:449-530 | whatever the repository changes in the rows an operation is about, and in their neighbours, no listing changes outside the sites that are locked and invalidated, as long as the owner read before is still the owner |
| Coherence.OrdinaryWritesFit | modules/core/repository_coherence.go:364-530 | creating a row, moving one to another site, moving a subtree and deleting rows are such changes |
| Coherence.StepKeeps | modules/core/repository_coherence.go:499-530 | every step of readers, create, update, transfer, delete and widget mutations keeps entries, in-flight reads and dirty sites in agreement, writes as long as they are safe |
| Coherence.MutateKeepsExactly | modules/core/repository_coherence.go:605-641 | a write keeps entries that match in all their tags and in-flight reads right if and only if it changes no listing that is relied on beyond the sites it locked and invalidates |
| Coherence.RunIsExactExactly | modules/core/repository_coherence.go:364-385 | matching entries and in-flight reads are right at every moment of a run if and only if all its writes are safe in that sense |
| StaleListing.MovedDeleteLeavesStale | modules/core/repository_coherence.go:626-641 | a delete that finds its row in another site leaves every entry of that site that can be served in place and wrong |
| StaleListing.StaleListingStays | modules/core/repository_coherence.go:626-641 | a whole run in which a resource moves between the read of its owner and the lock, ending with a stale cached listing |
| HookRegistry.Registry.Add | entityhooks/registry.go:107-145 | a registration succeeds exactly when it is admissible, is appended, and keeps handlers unique and hook keys unambiguous |
| HookRegistry.AddedIsConsistent | entityhooks/registry.go:107-145 | what registration checks is enough for that consistency |
| HookRegistry.Registry.Seal | entityhooks/registry.go:167-178 | sealing works once and is permanent |
| HookRegistry.Registry.Acquire | entityhooks/registry.go:181-196 | pins exactly a sealed registry that is not draining |
| HookRegistry.Registry.Drain | entityhooks/registry.go:200-209 | drains exactly a registry without pins that is not draining yet |
| HookRegistry.Release.Call | entityhooks/registry.go:181-209 | only the first call undoes the pin or the drain |
| HookRegistry.Registry.Targets | entityhooks/registry.go:251-259 | lists exactly the after-handlers of a name |
| HookRegistry.Registry.Handle | entityhooks/registry.go:273-280 | finds a handler exactly when the registry has it, and then the only one with that target |
| HookTransitions.TransitionsAreSafe | app/entity_hooks.go:52-97 | in every run of mutations, deliveries and transitions: pending site recipients have their handler in the published registry of their site, a draining registry has no pin, and without a transition under way no published registry drains |
| HookTransitions.PendingExactly | entityhooks/registry.go:251-259 | a step makes a recipient pending exactly when it commits the event for an after-handler of the pinned registry, and only its completion ends that |
| HookTransitions.StepKeeps | app/entity_hooks.go:52-97 | every single step keeps the invariant behind that |
| RuntimePreparer.Catalog.SourceIsClear | app/entity_hooks.go:79-93 | a source passes exactly when no pending recipient of the site would lose its handler |
| RuntimePreparer.Catalog.Prepare | app/entity_hooks.go:52-97 | success has drained what will be replaced, which needs every source to be readable if that is anything; undeclared names are refused; anything else only because a registry could not be drained, a pending recipient would have lost its handler, or a source could not be read; a refusal leaves nothing drained and nothing changed |
| RuntimePreparer.Catalog.Transition | modules/core/site/runtime_catalog.go:85-190 | afterwards either all next runtimes are published or all old ones still are, and none of the published ones drains; a refusal has one of those reasons or a later preparer that failed |
| RuntimePreparer.Catalog.UndeclaredNames | app/entity_hooks.go:52-62 | finds whether a next runtime hooks an event name nobody declared |
| RuntimePreparer.ValidatePending | entityhooks/delivery.go:64-78 | startup succeeds exactly when every saved recipient has its handler |
| LoadLocks.LoadLocksExclude | cache/load.go:22-52 | in every run no two threads hold a key, users of a key share the table entry, its counter is their number, and the table holds only used keys |
| LoadLocks.Table.LockLoad | cache/load.go:22-52 | success holds the key alone; a cancelled wait leaves no trace; it fails only when the context has ended or another caller held the key |
| LoadLocks.Table.Unref | cache/load.go:22-52 | the last user deletes the entry |
| Graphs.Search.Run | modules/forms/validation.go:311-333 | the three-colour search ends with a complete topological order or with a cycle, whatever the iteration order |
| Graphs.SearchDecidesGrounded | modules/forms/validation.go:287-333 | searching the children of each node succeeds exactly when every chain of parents ends |
| Graphs.SearchDecidesEnding | modules/forms/validation.go:93-117 | searching the controller of each field succeeds exactly when every chain of controllers ends |
| Layout.Collect | modules/forms/validation.go:224-275 | accepts exactly well-formed, existing, non-repeated nodes and indexes them |
| Layout.Attach | modules/forms/validation.go:287-310 | accepts exactly parents that are other container nodes and distinct sibling positions, and lists the children |
| Layout.CheckForest | modules/forms/validation.go:287-333 | succeeds exactly when the nodes hang in containers and climbing from every node reaches the root |
| Layout.CheckStructure | modules/forms/validation.go:208-333 | succeeds exactly on complete forests of the form's own nodes |
| Layout.Normalize | modules/forms/validation.go:208-352 | accepts exactly complete forests with the mandatory parts; the result is the sorted permutation, roots first, then ordered by parent and position without ties, over precisely the existing nodes |
| Layout.NoNodeIsMissing | modules/forms/validation.go:209-236 | equal lengths and no foreign or repeated node leave no existing node out |
| Layout.PlacedOnce | modules/forms/validation.go:241-285 | each field is placed by exactly one node |
| Layout.OrderOfRequestIsIrrelevant | modules/forms/validation.go:208-352 | neither whether a request is accepted nor the result depends on the order of its nodes |
| Layout.ValidateMandatory | modules/forms/validation.go:355-401 | succeeds exactly with a valid consent, CAPTCHA and single submit element, all placed |
| Layout.CompleteLayoutsPlaceTheMandatory | modules/forms/validation.go:383-399 | in a complete layout the mandatory nodes are always found |
| Visibility.ValidateConditions | modules/forms/validation.go:76-118 | accepts exactly conditions with usable controllers and no cycle |
| Visibility.ActiveWithController | modules/forms/validation.go:130-162 | a field is active exactly when its controller is, the controller has a value, and that value in canonical form is the one asked for |
| Visibility.BrokenWithController | modules/forms/validation.go:130-162 | a refused value breaks a field exactly when it is its active controller's or lies further up |
| Visibility.BrokenIsNotActive | modules/forms/validation.go:130-162 | a field that fails is not active |
| Visibility.Evaluation.Evaluate | modules/forms/validation.go:130-162 | the memoised evaluation agrees with the declarative chain, or names the controller whose value is refused |
| Visibility.ResolveActive | modules/forms/validation.go:120-173 | returns the active items in input order, or fails for the first item with a refused value on its chain |
| Navigation.CompileItem | adminui/navigation.go:102-213 | accepts exactly valid trees with new codes and returns them with trimmed labels and ordered children |
| Navigation.CanonicalIsTidy | adminui/navigation.go:102-222 | compiled trees are in ascending order and code at every level |
| Navigation.CollectCodes | adminui/navigation.go:278-289 | succeeds exactly when no code of the tree is in use or occurs twice |
| Navigation.Merge | adminui/navigation.go:238-276 | succeeds exactly when codes are unique and parents are root groups, with the merged tree as result |
| Navigation.MergeKeepsEveryItem | adminui/navigation.go:238-276 | every item of every collection, at any depth, is in the result exactly once |
| Navigation.MergedIsOrdered | adminui/navigation.go:238-276 | roots are extended by exactly the items that name them, and the top level and extended groups ascend in order and code |
| Navigation.MergedStaysTidy | adminui/navigation.go:238-276 | trees that are in order at every level stay so |
| Text.LessIsLexicographic | adminui/navigation.go:215-222 | codes are compared as in a dictionary |
| Navigation.OrderIsIrrelevant | adminui/navigation.go:238-276 | any arrangement of the collections gives the same tree or fails |
| HookBuild.BuildIsRight | entity_hooks.go:39-79 | success builds each application once, after its application dependencies, with all dependencies valid and no cycle; a failure names something wrong |
| HookBuild.BuildsExactly | entity_hooks.go:39-79 | without failing registrations the build succeeds exactly on acyclic valid dependencies |
| HookBuild.Builder.Build | entity_hooks.go:39-73 | the recursive closure computes that search |
| HookBuild.BuildApplicationHooks | entity_hooks.go:13-80 | collects, sorts and builds; the registry holds the hooks in build order |
| HookBuild.OrderIsIrrelevant | entity_hooks.go:13-80 | the same applications in any order give the same hooks in the same order or the same failure; only which of several unusable applications is named first may differ |
| HookBuild.SortedCodesAreUnique | entity_hooks.go:34-38 | the order of the codes depends only on which they are |
| PrefixScan.AdvanceKeeps | connectors/localstorage/connector.go:382-423 | one read neither loses nor repeats a key and leaves exactly one read less |
| PrefixScan.PagesListTheTree | connectors/localstorage/connector.go:370-428 | the pages for any limits are a prefix of the depth-first listing, complete exactly when the limits add up to one read per entry and per directory |
| PrefixScan.FlattenIsTheFiles | connectors/localstorage/connector.go:404-422 | the keys are exactly the non-symlink files reachable through real directories |
| PrefixScan.FlattenHasNoDuplicates | connectors/localstorage/connector.go:404-422 | no key occurs twice |
| PrefixScan.Scan.Next | connectors/localstorage/connector.go:370-428 | at most `limit` reads, exactly the keys they meet, done when nothing is left; it fails exactly when one of those reads meets a fault, with that fault, and then the scan has ended |
| PrefixScan.Scan.EndDirectory | connectors/localstorage/connector.go:391-398 | an exhausted directory is closed and left; a failing close ends the scan |
| PrefixScan.Scan.CloseLocked | connectors/localstorage/connector.go:436-444 | closes every open directory once more and ends the scan |
| Templating.AcceptedSources | templating/templating.go:85-127 | a source is accepted exactly when it fits and well-formed parts spell it, and those parts are unique |
| Templating.ParseSound | templating/templating.go:97-125 | literals are non-empty, not adjacent and free of delimiters; variables are allowed names; together they spell the source |
| Templating.ParseComplete | templating/templating.go:97-125 | any text spelled by well-formed parts is accepted with those parts |
| Templating.Compile | templating/templating.go:85-127 | the loop computes that parser |
| Templating.PrintedTemplatesCompileToThemselves | templating/templating.go:85-127 | printing an accepted template and compiling it again gives the same template, in no more characters |
| Templating.RenderedAsItself | templating/templating.go:129-187 | rendering with each variable standing for itself gives a source of the same template, without warnings, in every context |
| Templating.Render | templating/templating.go:129-187 | succeeds exactly when all parts can be shown, the text fits and a header is safe; then gives that text and a warning per missing occurrence, in order; a failure names its cause |
| Templating.ScalarsAreReadable | templating/templating.go:189-222 | numbers are written in decimal digits behind their sign and read back as themselves, flags as words, texts unchanged |
| Templating.EscapedIsInert | templating/templating.go:174-176 | escaped values hold no character that opens a tag or ends an attribute |
| Templating.EscapeIsInjective | templating/templating.go:174-176 | escaping keeps different values different |
| Templating.EscapedReadsAsItself | templating/templating.go:174-176 | with its entities read back an escaped value is the value |
| RateLimiter.AdmissionsAreBounded | modules/forms/limits.go:51-73 | with a steady clock a key that is not evicted is admitted at most `limit` times per window and less than twice that in any span of a window's length |
| RateLimiter.TheBoundIsReached | modules/forms/limits.go:51-73 | the bound on spans is reached exactly by rules with windows of two instants or more or a limit of one |
| RateLimiter.Limiter.Allow | modules/forms/limits.go:51-73 | refuses exactly in a running window with all calls used, keeps at most `maxEntries` keys with counts in range, forgets a key whose window is running only when a new key finds as many such keys as the table holds, and with a steady clock answers as the recorded calls of the key demand |
| RateLimiter.Limiter.Evict | modules/forms/limits.go:75-94 | only keys whose window is running stay: all of them if that leaves room, and otherwise as many of the most recently touched as leave room for one more |
| BackgroundTasks.RunsAreExclusive | app/background.go:95-145 | in every run each key has at most one instance that is not cancelled, and an instance runs only after its immediate predecessor is done |
| BackgroundTasks.Reconciler.Apply | app/background.go:113-145 | adds exactly one update to the run: retires what is replaced, then launches what is missing, each once; afterwards active keys and owners are the desired ones, instances of unchanged owners are untouched, the others are cancelled, and new ones wait for what they replace |
| TaskOverlap.UpdateIsSafeExactly | app/background.go:113-145 | no two instances of a task run together during or after an update, whatever the goroutines do, if and only if of each task it starts only the instance it replaces is still running |
| TaskOverlap.ClearUpdatesNeverOverlap | app/background.go:95-145 | in every history of such updates no two instances of a task ever run together |
| TaskOverlap.ThirdOverlapsFirst | app/background.go:131-143 | three updates after which the third instance runs beside the cancelled first |
| TaskOverlap.ReturnOverlapsDropped | app/background.go:113-145 | a task dropped by one update and wanted by the next runs beside its cancelled instance |
| WidgetSplit.MatchingConfigsRebuildTheList | modules/core/resource_cache_split.go:80-128 | configurations that match the references rebuild exactly the list the references were made from, areas and positions included |
| WidgetSplit.MovedKeepsItsKey | modules/core/resource_cache_split.go:44-55 | moving a widget changes neither its configuration nor its key |
| WidgetSplit.Repository.StoreWidgets | modules/core/resource_cache_split.go:59-70 | makes exactly the references of the list and writes each configuration under its own content |
| WidgetSplit.Repository.Assemble | modules/core/resource_cache_split.go:115-128 | consistent exactly when every reference has a matching configuration |
| WidgetSplit.Repository.LoadWidgets | modules/core/resource_cache_split.go:80-128 | whatever the configuration keys hold, success is exactly the stored list; with distinct widgets the layout is inconsistent exactly when some reference is covered neither by what is cached nor by what is then read, and a failure is that of the read or of the encoding |
| WidgetSplit.Repository.ReadResource | modules/core/resource_cache_split.go:130-177 | the answer is exactly the resource a cached layout was split from, or what the base repository has just answered, whose layout is then stored unless its site changed meanwhile; a failure has its reason |
| Coordinator.ScopedValueIsInjective | cache/module.go:263-265 | different namespaces never share a physical name |
| Coordinator.DependencyScopesAreSeparate | cache/module.go:267-272 | dependency scopes coincide only for one site, or one profile outside any site |
| Coordinator.UpdatesAreRight | cache/coordinator.go:76-115 | with one update at a time: both sides are registered while it is open, the desired targets after publishing, the previous after aborting, and the first completion wins |
| Coordinator.CombinedReachesBoth | cache/coordinator.go:76-98 | the combination holds exactly the targets of either side, the desired store first |
| Coordinator.OpenUpdateReachesEverything | cache/coordinator.go:177-191 | while an update is open exactly the static, previous and desired targets are reached |
| Coordinator.AbortRestoresSnapshot | cache/coordinator.go:107-113 | in every run an abort leaves exactly what was registered when its update was prepared |
| Coordinator.PublishedSurviveExactly | cache/coordinator.go:76-115 | in every run, overlapping updates included, published targets stay registered exactly when each abort is of an update that was prepared with the targets published by then registered |
| Coordinator.OverlappingAbortLosesTargets | cache/coordinator.go:107-113 | overlapping updates can lose published targets |
| Coordinator.ReplacedStoreIsDroppedEarly | cache/coordinator.go:84-96 | a store replaced under the same target is not reached while the update is open |
| Coordinator.Coordinator.InvalidateIn | cache/coordinator.go:131-235 | every reached store of the scope, or of all scopes, gets every non-empty tag in its own scope, whatever fails, nothing else is called, and exactly the failed calls are reported |
| Coordinator.ScopedInvalidationStaysInScope | cache/coordinator.go:161-175 | an invalidation within one scope touches no name of another |
| Coordinator.UniqueIsRight | cache/coordinator.go:237-250 | each non-empty tag once |
| Coordinator.UniqueTags | cache/coordinator.go:237-250 | the loop keeps the first occurrence of each non-empty tag |
| Coordinator.Coordinator.PrepareTargets | cache/coordinator.go:76-98 | registers the combination and remembers both sides |
| Delivery.CompletedMeansHandled | entityhooks/delivery.go:109-140 | in every run a completed recipient was claimed and handled without error by the attempt that completed it |
| Delivery.CompletedIsFinal | entityhooks/adapters/postgres/source.go:81-98 | after completion no attempt claims or completes the recipient again |
| Delivery.InvocationsAreClaimed | entityhooks/delivery.go:109-140 | a handler runs only for an attempt that claimed its recipient |
| Delivery.LeasesExclude | entityhooks/adapters/postgres/source.go:81-105 | in every run a second attempt claims a recipient only after the first one's lease ran out or was given up |
| Delivery.MayInvokeExactly | entityhooks/delivery.go:109-140 | at any moment of any run the attempts that can still call a recipient's handler are those that claimed it and have not called it yet and, while it is not completed, all new ones |
| Delivery.SuccessIsRepeatedExactly | entityhooks/adapters/postgres/source.go:81-98 | after a success the handler can be called again if and only if the recipient is not completed or a claimant has not called it yet, and never by the attempt that succeeded |
| Delivery.LateSuccessIsRepeated | entityhooks/adapters/postgres/source.go:92-98 | in every run a success that was not recorded can be repeated by any new attempt, whose own success can then be recorded |
| Delivery.StalledOutlivesLease | entityhooks/adapters/postgres/source.go:81-98 | a claimant that has not called the handler when its recipient is completed has outlived its lease |
| Delivery.NothingIsLeft | entityhooks/delivery.go:80-107 | recipients completed before or executed since are all completed |
| Delivery.Runner.Execute | entityhooks/delivery.go:109-140 | no error means claimed, handled and completed under one lease; each error has its own cause: no handler, a drained registry or a claim that was impossible, a failed handler, or an outcome that could not be recorded |
| Delivery.Runner.Handle | entityhooks/delivery.go:80-107 | tries each uncompleted recipient of the message once, in order, whatever happened before, and leaves completed ones alone; acknowledges exactly when no attempt had a problem, and then every recipient is completed |

## Left out

- RedisConnector.Connector.Write: randomness is a supply of tokens never used before; a repeated draw counts as a failed write.
- TokenHistory.StaleIsConfirmed: damage of a token always changes its length; an object of 32 bytes that reappears from an older state of the backend is not modelled.
- RedisConnector.Connector.GetMany: the same. The clock of the process may be set to anything between two commands.
- Remember.RememberJSON: the path without a store, which only calls the loader, is left out; the load lock appears as a wait during which others act and which the context can cut short.
- Entry encoding is abstract: a stored object either decodes or is garbled. JSON is lossless and SHA-256 has no collisions where the model says so (`WidgetSplit.Injective`); stripe and bucket collisions are modelled.
- Setting an entry with tags but without a preparation, the existence checks, pruning and flushing of the filesystem cache, and the wrappers that add observation, backoff and namespaces around a store.
- Coherence.CachedListingIsExact: a listing is a set of rows; the repository's order is a function of the rows, so equal rows are equal lists. The deletion of sites, library items and the other cached reads are not modelled, and cache operations work.
- Coherence.FixedSitesAreExact: the same.
- Stripes.NoDeadlock: Go's fairness between waiting readers and writers is reduced to the rule that an announced writer shuts out new readers; termination of the protected work itself is assumed.
- LoadLocks.Table.LockLoad: the context ends after a given number of looks at the taken slot; a wait without an end is not modelled.
- HookTransitions.TransitionsAreSafe: the catalog's own lock is modelled by allowing one transition at a time, and the recipients of a mutation are committed together with it.
- Before-hooks, panics and handler timeouts; the handler's work is its success or failure.
- Layout.Normalize: the nodes returned carry the form identifier they came with, as in the source, where it is set on internal copies only; the identifier is not a field of the model.
- Visibility.ResolveActive: the type-specific normaliser is any deterministic function that may refuse a value.
- Navigation.CompileItem: error texts and the owner recorded per code are not modelled, and `Compile` over several sources is left out because it only adds a loop.
- HookBuild.BuildApplicationHooks: sealing the result is part of `HookRegistry`; a registration's outcome is any function of the modules registered before it.
- PrefixScan.Scan.Next: path resolution and the check for symbolic links on the way to the root are not modelled; the tree does not change during a scan.
- Templating.Render: floating-point scalars are left out; sources are valid UTF-8, so a character is a code point.
- RateLimiter.Limiter.Allow: limits satisfy `PublicLimits.Validate`; the arithmetic of `time.Time` does not saturate.
- BackgroundTasks.Reconciler.Apply: restarting a task that returns, with its pause, happens inside the running phase.
- WidgetSplit.Repository.ReadResource: library items and route lookups follow the same pattern and are left out; the freshness of the layout record is the subject of the cache modules.
- Coordinator.Coordinator.InvalidateIn: `Invalidate` and `invalidateScope` differ only in the choice of targets and are one method with an optional scope; the manager's validation of targets is the precondition `Placed`.
- RuntimePreparer.Catalog.Transition: which sources can be read is fixed for one transition, as the number that answer before the first that does not.
- Delivery.Runner.Execute: whether a handler is there, its registry can be pinned, the source is reachable and the handler succeeds are parameters of an attempt.
- Delivery.Runner.Handle: one event and one source at a time; cleanup of completed events and the decoding of messages are left out.
