# calf: verified models of the daemon's core

calf runs a Docker engine in a guest machine and puts a daemon in front of it. This project models
the parts of the daemon whose correctness is more than one branch deep, in Dafny, and proves what
they are for. The operating system, the Docker command line, the clock and the network appear as
inputs, so a theorem holds for all of their answers that its hypotheses do not name.

| file | models |
|---|---|
| `Options.dfy`, `Text.dfy` | optional values; byte strings as the Go code uses them: order, first occurrence, split, join, trim, decimal numbers |
| `ApiVersion.dfy`, `HttpHead.dfy`, `HttpFraming.dfy`, `HttpProxy.dfy` | the Docker API proxy: reading a request head from arbitrary reads, the two head rewrites, framing, body forwarding |
| `Schedule.dfy`, `ExportScheduler.dfy` | export schedules: normalizing, validating, the 14-day scan, and the tick loop over whole runs |
| `EngineGate.dfy` | the four-slot engine gate with serialized dials, all interleavings |
| `ProxyLifecycle.dfy` | the public socket proxy: listeners, stop and done channels, accept loops |
| `ListCache.dfy` | the single-flight container list with its cache and invalidation |
| `RuntimeStart.dfy` | the single-flight runtime start |
| `ResourceSaver.dfy` | the idle detector that stops the engine |
| `StatsHistory.dfy` | the prefix-keyed statistics history |
| `BuildStore.dfy` | the build record store with its two-phase history sync |
| `BuildParser.dfy` | build-log parsing as a fold over classified lines |
| `RotatingLog.dfy` | the rotating daemon log under file-system failures |
| `Compose.dfy`, `Migration.dfy` | grouping by compose project, and the whole migration run from Docker Desktop |

Code that loops or updates fields is modelled by methods and classes, each proved equal to a
specification function; the theorems are then about that function. A protocol between goroutines
is a state and a set of atomic events, and a theorem about it is about every list of events that
can happen. `dafny verify dfyconfig.toml` verifies everything.

Where a natural claim turned out false of the code, the model keeps the code, shows an input on
which the claim fails, and proves exactly when it holds:

- a body whose length is chunked or unreadable is forwarded only as far as it arrived with the
  head, so then the engine's bytes depend on the reads (`HttpProxy.SameBytesForEveryDelivery`,
  `ChunkedDependsOnDelivery`);
- at exactly 00:00:00 the initial scan does not see the slot of 23:59 that is still in grace
  (`Schedule.InitialIsEarliestUnlessMidnight`), and only the first entry of a weekday is served
  (`Schedule.ScanServesWrittenSlots`);
- a stored slot is run only if some tick falls between its minute and the end of its grace
  (`ExportScheduler.StoredSlotRunsIffTickInTime`; `StallingRun` never runs again), and two ticks
  run the same slot exactly when the stored schedule is invalid or nothing in between was saved
  (`ExportScheduler.SlotRepeatsIff`, `InvalidSlotRepeats`, `UnsavedSlotRepeats`);
- an invalidation during a fetch does not guarantee fresh lists
  (`ListCache.InvalidationIsFreshIffQuiet`);
- a readiness probe gets a slot exactly when fewer than four are held (`EngineGate.SlotFreeIff`);
  four waking handlers can hold them all (`WakersCanFillTheGate`), and then nobody gets one before
  a wake ends (`NoSlotUntilAWakeEnds`, `FailedWakeFreesASlot`);
- a stop ends an unbroken idle period unless a Clear came after its decision
  (`ResourceSaver.StopEndsIdlePeriodIff`, `ClearCanLoseTheRace`, `DecisionIsReached`), and a Clear during the stop leaves
  the engine stopped with Resource Saver inactive (`ActiveAfterStopIff`);
- an id can be given out twice exactly when a restart does not pick up the last number, because a
  save had failed or the file cannot be read (`BuildStore.RestartIsSafeIff`,
  `LostSaveReusesAnId`, `FailedLoadReusesAnId`);
- a sync commit overwrites what was stored in a linked record between its phases exactly when its
  snapshot holds something else for it (`BuildStore.CommitKeepsIff`, `LinkedEditIsLost`,
  `LinkedRecordIsReached`), and a repeated sync imports again exactly when the 200-record bound cut
  off a listed ref, so with more than 200 refs it never settles (`BuildStore.SyncSettlesIff`,
  `TooManyRefsNeverSettle`);
- the constructor's done channel is closed only if Start is disabled or fails
  (`ProxyLifecycle.DoneClosedExactlyOnce`), and an accept loop that ended on its own is replaced
  only when the public path no longer looks like the proxy's socket
  (`ProxyLifecycle.DeadLoopIsNotRepaired`, `RebindRepairsIff`, `DeadLoopIsReached`);
- samples appended out of time order can be lost (`StatsHistory.RetainedIsWindowIff`,
  `OutOfOrderCanLoseSamples`);
- the live log passes its cap exactly when a write does not fit and the file was below the cap, or
  the write alone is longer (`RotatingLog.LiveCanPassTheCap`, `RunPassesTheCap`), and it can
  stay above the cap plus the latest write when a rename fails (`BoundedByThisWriteIff`,
  `FailedRenameKeepsLongFile`) or when its size cannot be read (`LiveBoundedIff`,
  `BlindWriteBreaksTheBound`).

## Model

| member | source | states |
|---|---|---|
| `HttpProxy.ReadDockerAPIRequestHead` | backend/internal/runtime/docker_http_proxy.go:204-231 | the read loop over any sequence of reads, with its 1 MiB limit and its errors, computes the head reader `ReadHead` |
| `HttpProxy.HeadIndependentOfReads` | backend/internal/runtime/docker_http_proxy.go:204-231 | whatever the reads, a head within the limit ends at the first CRLFCRLF and head, rest and unread bytes together are the client's bytes |
| `HttpProxy.LongHeadRefused` | backend/internal/runtime/docker_http_proxy.go:208-229 | a head beyond the limit delivered byte by byte is refused |
| `HttpProxy.HeadReadForEveryDelivery` | backend/internal/runtime/docker_http_proxy.go:208-229 | a head is read under every delivery if and only if it is no longer than the limit plus one byte |
| `HttpProxy.ForwardDockerAPIRequestBody` | backend/internal/runtime/docker_http_proxy.go:89-109 | the copy loop forwards exactly the first Content-Length bytes of rest and connection, or only rest when the length is not readable |
| `HttpProxy.ProxyDockerAPI` | backend/internal/runtime/docker_http_proxy.go:23-58 | reading, both rewrites and body forwarding together send `EngineBytes` |
| `HttpProxy.EngineBytesIndependentOfReads` | backend/internal/runtime/docker_http_proxy.go:41-130 | for every split of the bytes into reads, the engine receives the rewritten head and exactly Content-Length body bytes, or everything unchanged for an upgrade |
| `HttpProxy.ExactBody` | backend/internal/runtime/docker_http_proxy.go:41-130 | with the body fully sent the engine receives rewritten head and body, and nothing that follows it (section 6.3 of RFC 9112) |
| `HttpProxy.SameBytesForEveryDelivery` | backend/internal/runtime/docker_http_proxy.go:89-109 | for a plain request with its head within the limit the engine's bytes are the same for all deliveries if and only if its length is readable or nothing follows the head |
| `HttpProxy.OnlyRestIsForwarded` | backend/internal/runtime/docker_http_proxy.go:91-96 | without a readable length exactly the bytes that came with the read completing the head are forwarded, whatever is still to come |
| `HttpProxy.ChunkedDependsOnDelivery` | backend/internal/runtime/docker_http_proxy.go:89-96 | a chunked request with any request line and body is forwarded differently by two deliveries |
| `HttpProxy.PlainRequestIsForwarded` | backend/internal/runtime/docker_http_proxy.go:23-58 | a request spelled with `Content-Length: n`, however it arrives and whatever follows, reaches the engine as clamped request line, length field, `Connection: close` and exactly its body |
| `HttpProxy.PlainRequest` | backend/internal/runtime/docker_http_proxy.go:112-130 | the field `Content-Length: n` as clients spell it is read as n, and upgrades nothing |
| `HttpProxy.UpgradeIsForwardedUnchanged` | backend/internal/runtime/docker_http_proxy.go:61-86 | a request with a field `Upgrade: x` reaches the engine unchanged |
| `HttpProxy.BadLengthIsRefused` | backend/internal/runtime/docker_http_proxy.go:118-127 | a negative length or one beyond 63 bits is not readable |
| `HttpProxy.UnterminatedHead` | backend/internal/runtime/docker_http_proxy.go:218-228 | without a terminator an orderly end makes what was read the head, and a broken or empty connection returns its error |
| `HttpHead.ClampDockerAPIVersion` | backend/internal/runtime/docker_http_proxy.go:134-178 | the byte-level clamp computes the line-wise function `Clamp` |
| `HttpHead.ClampTargetTakesSmaller` | backend/internal/runtime/docker_http_proxy.go:149-176 | for every target with a version run after its first `/v`, what stands before and after is kept and the version becomes the smaller one |
| `HttpHead.ClampedVersionIsSmaller` | backend/internal/runtime/docker_http_proxy.go:149-176 | a target that starts with `/v<version>` gets the smaller of the client's version and the maximum |
| `HttpHead.WrittenVersionIsClamped` | backend/internal/runtime/docker_http_proxy.go:149-176 | for versions written in decimal, of any number of components, the target gets the smaller of the two by their numbers |
| `HttpHead.OnlyTheTargetIsClamped` | backend/internal/runtime/docker_http_proxy.go:140-176 | of a request line only its second word is touched |
| `HttpHead.ClampLineIdempotent` | backend/internal/runtime/docker_http_proxy.go:140-176 | a clamped request line needs no further clamp |
| `HttpHead.ClampIdempotent` | backend/internal/runtime/docker_http_proxy.go:134-178 | clamping a head twice is clamping it once |
| `HttpHead.ForceHTTPConnectionClose` | backend/internal/runtime/docker_http_proxy.go:238-258 | the filtering loop computes `ForceClose` |
| `HttpHead.ForceCloseIdempotent` | backend/internal/runtime/docker_http_proxy.go:238-258 | forcing close twice is forcing it once |
| `HttpHead.RewriteOnlyVersionAndConnection` | backend/internal/runtime/docker_http_proxy.go:134-177 | after both rewrites only the version run and the Connection lines differ; other lines keep content and order; exactly one Connection line remains, last |
| `HttpHead.RewritesCommute` | backend/internal/runtime/docker_http_proxy.go:41-58 | the two rewrites commute on every head |
| `HttpHead.RenderRoundTrip` | backend/internal/runtime/docker_http_proxy.go:139-177 | joining lines and splitting them again gives the same lines |
| `HttpHead.HeadRoundTrip` | backend/internal/runtime/docker_http_proxy.go:139-177 | a terminated head is the rendering of its lines |
| `HttpFraming.HttpRequestContentLength` | backend/internal/runtime/docker_http_proxy.go:112-130 | the line loop with its chunked, invalid and negative cases computes `ContentLength` |
| `HttpFraming.HeaderSearch` | backend/internal/runtime/docker_http_proxy.go:233-235 | searching the lower-cased head for CRLF and a name finds it exactly when a header line starts with that name in some case |
| `HttpFraming.FieldsAreRecognized` | backend/internal/runtime/docker_http_proxy.go:112-130 | the usual spellings of the length, upgrade, chunked and Connection fields are recognized as what they are |
| `HttpFraming.RewritePreservesFraming` | backend/internal/runtime/docker_http_proxy.go:112-130 | for every head both rewrites leave the content length, its readability and the upgrade flag unchanged |
| `HttpFraming.ContentLengthReadsBack` | backend/internal/runtime/docker_http_proxy.go:112-130 | a length written as decimal after any case of the name and any padding is read back |
| `Text.LowerIsLetterwise` | backend/internal/runtime/docker_http_proxy.go:113-119 | lower-casing maps every capital to the small letter at its place in the alphabet and keeps every other byte |
| `Text.TrimSpaceIsMiddle` | backend/internal/runtime/docker_http_proxy.go:121-123 | trimming removes exactly the blanks at both ends |
| `ApiVersion.NewerComparesTheNumbers` | backend/internal/runtime/docker_http_proxy.go:181-201 | two versions written in decimal, of any lengths, are compared by their numbers at the first difference |
| `ApiVersion.NewerOfTwo` | backend/internal/runtime/docker_http_proxy.go:181-201 | a.b is newer than c.d if and only if a > c, or a = c and b > d |
| `ApiVersion.DockerAPIVersionNewer` | backend/internal/runtime/docker_http_proxy.go:181-201 | the loop decides the zero-padded lexicographic order on dotted versions of any lengths |
| `ApiVersion.NewerIsLexicographic` | backend/internal/runtime/docker_http_proxy.go:181-201 | first-difference comparison equals the order on infinite zero-padded sequences |
| `ApiVersion.NewerIrreflexive` | backend/internal/runtime/docker_http_proxy.go:181-201 | no version is newer than itself |
| `ApiVersion.NewerTransitive` | backend/internal/runtime/docker_http_proxy.go:181-201 | newer is transitive |
| `ApiVersion.TieIsSameVersion` | backend/internal/runtime/docker_http_proxy.go:181-201 | neither is newer exactly when all components agree |
| `ApiVersion.TiesAreInterchangeable` | backend/internal/runtime/docker_http_proxy.go:181-201 | tied versions compare alike with every third version, so the order is strict weak |
| `Schedule.ClockRoundTrip` | backend/internal/volumeexport/schedule_timing.go:177-189 | every minute of the day written as HH:MM is parsed back |
| `Schedule.ParseTimeOfDayIff` | backend/internal/volumeexport/schedule_timing.go:177-189 | a text is read as minute m if and only if, trimmed, it is m written as HH:MM or H:MM |
| `Schedule.NormalizeSchedule` | backend/internal/volumeexport/schedule_timing.go:13-25 | days come out sorted and so do the times of each day; the entries and each entry's times are the same up to order, and nothing else changes |
| `Schedule.ValidateScheduleInput` | backend/internal/volumeexport/schedule_timing.go:28-77 | no error if and only if the schedule is disabled or valid; with valid days, which error a missing folder, a missing image ref or an unknown type gives |
| `Schedule.ComputeNextRun` | backend/internal/volumeexport/schedule_timing.go:80-174 | for every valid enabled schedule the 14-day scan returns the least slot of the unbounded weekly set that is dated today or later and qualifies; the error for no upcoming run is unreachable |
| `Schedule.AfterRunIsEarliest` | backend/internal/volumeexport/schedule_timing.go:85-88 | after a run that slot is the least of all later slots |
| `Schedule.InitialIsEarliestUnlessMidnight` | backend/internal/volumeexport/schedule_timing.go:111-174 | the initial result is the least slot still in grace unless now is exactly midnight and yesterday's 23:59 is a slot, and only then |
| `Schedule.MidnightSlotMissed` | backend/internal/volumeexport/schedule_timing.go:130-170 | a schedule and a time at which that slot is missed |
| `Schedule.DistinctDaysServeTheWrittenSchedule` | backend/internal/volumeexport/schedule_timing.go:192-200 | with distinct weekdays the slots served are exactly those written |
| `Schedule.ScanServesWrittenSlots` | backend/internal/volumeexport/schedule_timing.go:192-200 | the scan serves every written slot if and only if the first entry of each weekday covers the others |
| `Schedule.SecondEntryIsSkipped` | backend/internal/volumeexport/schedule_timing.go:192-200 | a valid schedule with two entries for Sunday, whose second time the scan passes over |
| `ExportScheduler.RunSchedule` | backend/internal/daemon/export_scheduler.go:117-174 | a run changes the stored schedule as `Step` says, in each failure case |
| `ExportScheduler.TickOnce` | backend/internal/daemon/export_scheduler.go:75-114 | a tick runs the schedule exactly when it is enabled and due |
| `ExportScheduler.NextNeverMovesBack` | backend/internal/daemon/export_scheduler.go:75-174 | over every run of ticks, whatever is stored and saved, the stored slot never moves back, and it moves forward exactly when the schedule is valid and a run in between was saved |
| `ExportScheduler.SlotRepeatsIff` | backend/internal/daemon/export_scheduler.go:117-174 | two ticks run the same slot if and only if the schedule is invalid or no run from the first up to the second was saved; otherwise the second slot is later |
| `ExportScheduler.InvalidSlotRepeats` | backend/internal/daemon/export_scheduler.go:121-133 | every enabled invalid schedule repeats its slot while the runtime is down, although both runs are saved |
| `ExportScheduler.UnsavedSlotRepeats` | backend/internal/daemon/export_scheduler.go:117-174 | every enabled schedule repeats its slot when the first run cannot be saved |
| `ExportScheduler.EntryRecordsLastRun` | backend/internal/daemon/export_scheduler.go:117-174 | the entry holds the time of the last saved run, is Completed if and only if the runtime was up, the export succeeded and the schedule was valid, and is disabled by a run of an invalid schedule with the runtime up |
| `ExportScheduler.StepIsDetermined` | backend/internal/daemon/export_scheduler.go:75-174 | what a tick leaves on disk is determined by what it finds |
| `ExportScheduler.NoSlotRunsTwice` | backend/internal/daemon/export_scheduler.go:75-174 | however long exports take, a slot whose run was saved never runs again, if and only if the schedule is valid |
| `ExportScheduler.EveryRunIsASlot` | backend/internal/daemon/export_scheduler.go:75-174 | each run is of a slot of the schedule, at a tick less than a minute after it |
| `ExportScheduler.EverySlotIsRun` | backend/internal/daemon/export_scheduler.go:75-174 | every slot that passes is run at some tick |
| `ExportScheduler.EachSlotRunsExactlyOnce` | backend/internal/daemon/export_scheduler.go:75-174 | from a caught-up start, with prompt ticks and no slot inside an export, every slot runs at exactly one tick, within a minute |
| `ExportScheduler.UnsavedRunRepeats` | backend/internal/daemon/export_scheduler.go:117-174 | after a run that was not saved something runs again if and only if a later tick is within the grace of the same slot |
| `ExportScheduler.StoredSlotRunsIffTickInTime` | backend/internal/daemon/export_scheduler.go:75-114 | over every run of ticks a stored slot is ever run if and only if some tick falls between its minute and the end of its grace |
| `ExportScheduler.StallingRun` | backend/internal/daemon/export_scheduler.go:75-114 | from every enabled stored slot, a run of ticks of any length that never runs anything |
| `ExportScheduler.MissedSlotStalls` | backend/internal/daemon/export_scheduler.go:75-114 | once the grace of the stored slot has passed no later tick runs anything |
| `EngineGate.GateIsSafe` | backend/internal/runtime/guest_darwin.go:132-153 | in every interleaving of handlers, probes and local commands slots taken equal slot holders and never exceed four, connections never exceed slots held, at most one dial is in progress |
| `EngineGate.ReleaseFindsToken` | backend/internal/runtime/guest_darwin.go:268-276 | a release never meets an empty gate |
| `EngineGate.FinishedHoldsNothing` | backend/internal/daemon/docker_socket_proxy.go:302-341 | a finished handler or probe holds no slot, connection or dial lock |
| `EngineGate.SlotOnlyAfterHead` | backend/internal/runtime/guest_darwin.go:209-251 | no handler takes a slot before its request head was read |
| `EngineGate.GetsSlot` | backend/internal/daemon/docker_socket_proxy.go:302-320 | whoever finds room gets a slot, a handler after its head |
| `EngineGate.ServesAndReleases` | backend/internal/runtime/guest_darwin.go:209-251 | a good dial serves the connection, and its end gives back connection, slot and dial lock |
| `EngineGate.WakesAndDialsAgain` | backend/internal/daemon/docker_socket_proxy.go:322-336 | after a failed dial a public handler wakes the engine, keeps its slot and dials again |
| `EngineGate.WakesAtMostOnce` | backend/internal/daemon/docker_socket_proxy.go:322-336 | over every run a handler starts at most one wake |
| `EngineGate.GivesUpOnlyAfterWake` | backend/internal/daemon/docker_socket_proxy.go:330-335 | a public handler gives up only after a wake that succeeded |
| `EngineGate.EndsForGood` | backend/internal/daemon/docker_socket_proxy.go:302-320 | after a failed read, a cancelled wait or a release a process does nothing more |
| `EngineGate.CommandRuns` | backend/internal/runtime/guest_darwin.go:722-741 | a local command holds its slot until it ends |
| `EngineGate.WakersCanFillTheGate` | backend/internal/daemon/docker_socket_proxy.go:316-331 | four waking handlers can hold all slots, so that no readiness probe gets one |
| `EngineGate.SlotFreeIff` | backend/internal/runtime/guest_darwin.go:694-718 | in every reachable state a waiting probe can take a slot if and only if fewer than four are held |
| `EngineGate.NoSlotUntilAWakeEnds` | backend/internal/daemon/docker_socket_proxy.go:316-331 | once four wakers hold the gate nobody gets a slot in any continuation in which no wake ends |
| `EngineGate.FailedWakeFreesASlot` | backend/internal/daemon/docker_socket_proxy.go:324-328 | a wake that fails gives its slot to whoever waits |
| `ProxyLifecycle.OneLoopAndNoDoubleClose` | backend/internal/daemon/docker_socket_proxy.go:86-297 | over any run of Start, UseProxy, Rebind, reclaim ticks, failed listens and Stop at most one accept loop lives and no done channel is closed twice |
| `ProxyLifecycle.DoneClosedExactlyOnce` | backend/internal/daemon/docker_socket_proxy.go:210-297 | every done channel a listen made is closed exactly once, except the current one while its loop lives or is about to start; the constructor's is closed if and only if Start was disabled or a listen failed before any succeeded |
| `ProxyLifecycle.DeadLoopIsNotRepaired` | backend/internal/daemon/docker_socket_proxy.go:115-171 | after an accept loop ended on its own no UseProxy, Rebind or reclaim tick starts another while the path looks like a socket |
| `ProxyLifecycle.RebindRepairsIff` | backend/internal/daemon/docker_socket_proxy.go:141-171 | without a live loop a Rebind gives up if the listener is recorded and the path a socket and no symlink, and otherwise reopens and, its calls succeeding, leaves a live loop |
| `ProxyLifecycle.DeadLoopIsReached` | backend/internal/daemon/docker_socket_proxy.go:210-297 | a run that reaches such a state |
| `ProxyLifecycle.WaitIsAnswered` | backend/internal/daemon/docker_socket_proxy.go:244-276 | the channel a shutdown waits for is closed or will be closed by a live loop whose listener is closed |
| `ProxyLifecycle.NoListenerLeaks` | backend/internal/daemon/docker_socket_proxy.go:210-263 | between operations the only open listener is the proxy's own |
| `ProxyLifecycle.NothingBindsAfterStop` | backend/internal/daemon/docker_socket_proxy.go:115-243 | once a Stop has been called and decided nothing binds the public path again, whatever follows |
| `ProxyLifecycle.StopRuns` | backend/internal/daemon/docker_socket_proxy.go:173-189 | a Stop of a running proxy closes its stop channel and listener, waits for the loop and goes on to remove the path |
| `ProxyLifecycle.DisabledNeverBinds` | backend/internal/daemon/docker_socket_proxy.go:86-99 | a proxy whose paths are missing or equal never binds anything |
| `ProxyLifecycle.UseProxyRepairsIff` | backend/internal/daemon/docker_socket_proxy.go:115-137 | without a live loop UseProxy gives up if the listener is recorded and the path a socket, and otherwise reopens |
| `ProxyLifecycle.StopClosesEverything` | backend/internal/daemon/docker_socket_proxy.go:173-189 | when Stop removes the public path no listener is open and no loop lives |
| `ListCache.SingleFlight` | backend/internal/runtime/guest_darwin.go:783-828 | at most one fetch is in flight in every interleaving |
| `ListCache.ReturnedListsWereFetched` | backend/internal/runtime/guest_darwin.go:783-828 | every list returned without error is the list of a successful fetch |
| `ListCache.AnsweredFromCacheIff` | backend/internal/runtime/guest_darwin.go:783-806 | a call is answered at once if and only if a non-empty list was stored less than 2000 ms ago and not invalidated since, and with that list; otherwise it joins the fetch in flight or begins one |
| `ListCache.FetcherGets` | backend/internal/runtime/guest_darwin.go:808-828 | the fetching call returns its own list, or after a failure the list kept, or the error when there is none |
| `ListCache.WaiterGets` | backend/internal/runtime/guest_darwin.go:794-806 | a woken call returns what the last committing call returned |
| `ListCache.CancelledGets` | backend/internal/runtime/guest_darwin.go:794-806 | a cancelled wait changes nothing for anyone else |
| `ListCache.WaitersAreServed` | backend/internal/runtime/guest_darwin.go:794-806 | a waiting call waits for a closed channel or for the fetch in flight |
| `ListCache.QuietMeansFresh` | backend/internal/runtime/guest_darwin.go:830-835 | after an invalidation with no fetch in flight later calls return only lists fetched after it |
| `ListCache.OverlapCanBeStale` | backend/internal/runtime/guest_darwin.go:783-835 | with a fetch in flight a later call can return the older list |
| `ListCache.InvalidationIsFreshIffQuiet` | backend/internal/runtime/guest_darwin.go:783-835 | in every reachable state, freshness is guaranteed if and only if no fetch is running or waiting to be committed after success |
| `RuntimeStart.OneStartAtATime` | backend/internal/daemon/runtime_ready.go:16-43 | at most one start runs, and RuntimeStarting reports exactly that |
| `RuntimeStart.JoinedCallersAgree` | backend/internal/daemon/runtime_ready.go:16-53 | callers joined to one start return its result, and it finished after each of them arrived |
| `RuntimeStart.ResultIsTheStarts` | backend/internal/daemon/runtime_ready.go:16-53 | every returned caller has the result of the one event that ended its start, which came after its call |
| `RuntimeStart.WaiterIsServed` | backend/internal/daemon/runtime_ready.go:46-53 | a waiting caller can return or its start is still running |
| `ResourceSaver.Saver.Tick` | backend/internal/daemon/resource_saver.go:89-156 | one tick, with each early return, updates the fields as `AfterTick` and decides as `Decides` |
| `ResourceSaver.Saver.Clear` | backend/internal/daemon/resource_saver.go:55-60 | Clear resets both fields |
| `ResourceSaver.Saver.MarkActive` | backend/internal/daemon/resource_saver.go:63-68 | marking active drops the idle time |
| `ResourceSaver.StopNeedsFullIdlePeriod` | backend/internal/daemon/resource_saver.go:89-156 | each decision to stop ends an unbroken idle period of at least max(30, timeout) seconds without a Clear, an earlier stop or a tick that saw activity |
| `ResourceSaver.DecidesIff` | backend/internal/daemon/resource_saver.go:89-147 | over every history a tick decides if and only if it is quiet, Resource Saver is not active, and the idle period began at least thirty seconds and at least the configured timeout ago |
| `ResourceSaver.ActiveIff` | backend/internal/daemon/resource_saver.go:48-68 | Resource Saver is active if and only if a stop was entered and no Clear, failed stop or running container came after |
| `ResourceSaver.StopFollowsDecision` | backend/internal/daemon/resource_snapshot.go:43-53 | a stop is always the carrying out of such a decision |
| `ResourceSaver.FailedStopStartsOver` | backend/internal/daemon/resource_saver.go:89-156 | after a failed stop the detector is as at the start |
| `ResourceSaver.StopEndsIdlePeriodIff` | backend/internal/daemon/resource_saver.go:129-153 | a stop about to be carried out ends an unbroken idle period if and only if no Clear came after its decision |
| `ResourceSaver.DecisionIsReached` | backend/internal/daemon/resource_saver.go:129-147 | two quiet ticks thirty seconds apart reach a decision |
| `ResourceSaver.ClearCanLoseTheRace` | backend/internal/daemon/resource_saver.go:55-156 | a Clear between decision and stop does not prevent the stop |
| `ResourceSaver.ActiveAfterStopIff` | backend/internal/daemon/resource_snapshot.go:43-53 | after a successful stop Resource Saver is active if and only if no Clear fell into the stop |
| `StatsHistory.MatchIsPrefix` | backend/internal/daemon/stats_history.go:139-141 | ids match if and only if one is a prefix of the other |
| `StatsHistory.PrefixKeyIsTheOnlyMatch` | backend/internal/daemon/stats_history.go:126-141 | in an antichain a key that is a prefix of the id is the only match |
| `StatsHistory.AmbiguousOnlyBelow` | backend/internal/daemon/stats_history.go:126-141 | several matches are possible only when the id is a proper prefix of each |
| `StatsHistory.NewKeyKeepsAntichain` | backend/internal/daemon/stats_history.go:38-72 | an id that matches nothing can be added to an antichain |
| `StatsHistory.History.Append` | backend/internal/daemon/stats_history.go:38-72 | an append lands on the resolved key or the id itself, keeps the antichain and stores what the key's whole append log retains |
| `StatsHistory.History.ResolveKey` | backend/internal/daemon/stats_history.go:126-136 | no key is returned exactly when none matches; a returned key is the id itself if stored, else a match |
| `StatsHistory.History.Samples` | backend/internal/daemon/stats_history.go:75-93 | the samples of a resolved key, or none |
| `StatsHistory.History.Forget` | backend/internal/daemon/stats_history.go:96-110 | exactly the matching keys are removed |
| `StatsHistory.History.RetainOnly` | backend/internal/daemon/stats_history.go:113-123 | exactly the keys matching nothing to keep are removed |
| `StatsHistory.RetainedAreTheSurvivors` | backend/internal/daemon/stats_history.go:38-72 | the stored samples are those appended ones that survived every later cutoff, in order |
| `StatsHistory.RetainedIsWindowIff` | backend/internal/daemon/stats_history.go:38-72 | they are the window of the latest append if and only if everything in it survived the cutoffs in between |
| `StatsHistory.RetainedIsWindow` | backend/internal/daemon/stats_history.go:38-72 | with non-decreasing times they are the append log filtered to the retention window of the latest append |
| `StatsHistory.OutOfOrderCanLoseSamples` | backend/internal/daemon/stats_history.go:38-72 | a log in which a clock stepping back loses a sample of the window |
| `StatsHistory.ForgottenIdMatchesNothing` | backend/internal/daemon/stats_history.go:96-110 | after Forget no stored key matches the id and no other key is lost |
| `BuildStore.MergeRows` | backend/internal/buildhistory/history.go:161-175 | the loop with its growing set computes `NewRefs` |
| `BuildStore.NewRefsAreTheUnknown` | backend/internal/buildhistory/history.go:161-175 | the imported refs are exactly the named, unknown ones, each once |
| `BuildStore.HistoryIDIsLastSegment` | backend/internal/buildhistory/history.go:29-40 | a row is named by its id, or by the last path segment of its ref |
| `BuildStore.RecordsAsWritten` | backend/internal/daemon/builds.go:130-184 | new, migrated and imported records are named `build-n`, `migrated-n` and `history-n` by the next numbers and go in front |
| `BuildStore.StoreIsConsistent` | backend/internal/daemon/build_sync.go:33-121 | over every interleaving, failed saves and failed loads included, records in memory and on disk have distinct ids and distinct history refs, their ids were given out, and at most 200 remain |
| `BuildStore.IdsAreNeverReused` | backend/internal/daemon/builds.go:130-184 | no id is given out twice as long as every restart picks up the last number |
| `BuildStore.SaveIsTheListInMemory` | backend/internal/daemon/builds.go:370-376 | each successful save is the list in memory after trimming, with its counter; nothing else touches the file |
| `BuildStore.FileMirrorsMemory` | backend/internal/daemon/builds.go:370-388 | while no save fails, memory equals the file after every step, except that it is empty from a start-up that could not read the file up to the next save |
| `BuildStore.RestartIsSafeIff` | backend/internal/daemon/builds.go:379-388 | after a restart the next id is fresh for every kind if and only if the load succeeded and the file held the last number, or no id was ever given out |
| `BuildStore.LostSaveReusesAnId` | backend/internal/daemon/builds.go:379-388 | a failed save and a restart give the same id out twice |
| `BuildStore.FailedLoadReusesAnId` | backend/internal/daemon/builds.go:379-388 | a restart that cannot read a good file gives the same id out twice and the next save overwrites the history |
| `BuildStore.Core.LoadBuilds` | backend/internal/daemon/builds.go:379-388 | start-up takes list and counter from the file, or leaves both empty when it cannot be read |
| `BuildStore.CommitKeepsIff` | backend/internal/daemon/build_sync.go:97-121 | a commit leaves a record as it is stored if and only if its snapshot holds no update for it or the same body |
| `BuildStore.SnapshotHoldsTheNews` | backend/internal/daemon/build_sync.go:61-84 | the snapshot holds an update for exactly the linked, listed records whose fresh body differs from the stored one, namely that body |
| `BuildStore.LinkedEditIsLost` | backend/internal/daemon/build_sync.go:97-106 | every linked record can lose an edit stored between the phases to the older state in the snapshot |
| `BuildStore.CommitDropsIff` | backend/internal/daemon/build_sync.go:108-121 | a record stays in the list if and only if the imports in front of it leave it within the first 200 |
| `BuildStore.SyncSettlesIff` | backend/internal/daemon/build_sync.go:33-121 | a second sync over the same rows imports nothing if and only if the first cut off no listed ref |
| `BuildStore.TooManyRefsNeverSettle` | backend/internal/daemon/build_sync.go:33-121 | with more than 200 listed refs every sync in every reachable store imports again |
| `BuildStore.LinkedRecordIsReached` | backend/internal/daemon/build_sync.go:86-121 | one sync of one row reaches a linked record |
| `BuildStore.CommitKeepsUnlinked` | backend/internal/daemon/build_sync.go:92-121 | a sync commit never overwrites a record without history link: what a job stored between the phases survives |
| `BuildStore.Core.PersistLocked` | backend/internal/daemon/builds.go:370-376 | saves the trimmed list and trims memory even when saving fails |
| `BuildStore.Core.StartBuild` | backend/internal/daemon/builds.go:130-157 | a new record in front under the next id, then persisted |
| `BuildStore.Core.AddMigratedBuild` | backend/internal/daemon/builds.go:160-184 | a migrated record in front under the next id, then persisted |
| `BuildStore.Core.FinishJob` | backend/internal/daemon/builds.go:65-127 | the first record with the id gets the job's result and is persisted; no other changes |
| `BuildStore.Core.SyncSnapshot` | backend/internal/daemon/build_sync.go:61-90 | phase one collects updates and imports from the list it reads |
| `BuildStore.CollectSnapshot` | backend/internal/daemon/build_sync.go:61-90 | its loops compute `TakeSnapshot` |
| `BuildStore.Core.SyncBuildHistory` | backend/internal/daemon/build_sync.go:92-121 | phase two replaces updated records, numbers and prepends imports, and persists only when something changed |
| `BuildParser.ParseBuildOutput` | backend/internal/runtime/build_parser.go:19-115 | TotalSteps is the number of distinct step ids, listed in first-appearance order; CachedSteps the number of ids with a CACHED line; each step has the duration of its last DONE line; time is conserved |
| `BuildParser.TimingIsConserved` | backend/internal/runtime/build_parser.go:159-181 | the six timing buckets sum to the durations of all DONE lines |
| `BuildParser.ClassifyTiming` | backend/internal/runtime/build_parser.go:159-181 | the switch adds the duration to the bucket of the first word of the table found in the name |
| `BuildParser.BucketsHoldTheirSteps` | backend/internal/runtime/build_parser.go:37-45 | each bucket holds exactly the durations of the DONE lines whose step then bore a name of that bucket |
| `BuildParser.ParseReadsSteps` | backend/internal/runtime/build_parser.go:47-95 | every step has the last name, index and total announced for it and holds exactly its output lines |
| `BuildParser.ParseAgrees` | backend/internal/runtime/build_parser.go:19-145 | the fold over the lines agrees with independent readings of the whole log |
| `BuildParser.CollectSteps` | backend/internal/runtime/build_parser.go:95-115 | the final loop lists the steps in order and counts the cached ones |
| `RotatingLog.RotatingFile.WriteNow` | backend/internal/config/log_file.go:32-44 | a write with any file-system outcome changes the files as `Write` says |
| `RotatingLog.RotatingFile.RotateIfNeededNow` | backend/internal/config/log_file.go:95-109 | a rotation with any outcome changes the files as `RotateIfNeeded` says |
| `RotatingLog.RotatingFile.ReopenNow` | backend/internal/config/log_file.go:47-63 | a reopen with any outcome changes the files as `Reopen` says |
| `RotatingLog.WriteStoresPrefix` | backend/internal/config/log_file.go:32-44 | a write adds a prefix of its bytes, as many as the open file took |
| `RotatingLog.KeptIsLongSuffix` | backend/internal/config/log_file.go:32-109 | after any run, with any failures, backup followed by live file is a suffix of everything written that holds at least the last cap bytes, or everything |
| `RotatingLog.LiveBoundedInRuns` | backend/internal/config/log_file.go:32-109 | in every run in which the file's size can be read, whatever else fails, the live file stays below the cap plus what the last storing write stored |
| `RotatingLog.LiveBoundedIff` | backend/internal/config/log_file.go:32-109 | that bound holds throughout a run if and only if no write stores something without seeing the size while the file is at or above the cap |
| `RotatingLog.StoringWriteBoundedIff` | backend/internal/config/log_file.go:32-44 | a write that stores something keeps the bound if and only if the size can be read or the file is below the cap |
| `RotatingLog.BlindWriteBreaksTheBound` | backend/internal/config/log_file.go:32-44 | a run in which a failed size check breaks it |
| `RotatingLog.BoundedByThisWriteIff` | backend/internal/config/log_file.go:32-109 | after a non-empty write the live file is below the cap plus that write if and only if it was before, or close, stat and rename succeed |
| `RotatingLog.FailedRenameKeepsLongFile` | backend/internal/config/log_file.go:95-109 | a run in which a failed rename leaves the file at the cap plus more than the latest write |
| `RotatingLog.LiveCanPassTheCap` | backend/internal/config/log_file.go:32-109 | with every call succeeding, a write leaves the live file above the cap if and only if it does not fit into a file below the cap, or is itself longer than the cap |
| `RotatingLog.RunPassesTheCap` | backend/internal/config/log_file.go:32-109 | a run that reaches the cap plus the last write less one byte |
| `RotatingLog.EmptyWriteAtTheCap` | backend/internal/config/log_file.go:32-44 | an empty write leaves a live file of exactly the cap in place |
| `RotatingLog.ReadLogTail` | backend/internal/config/log_file.go:112-158 | a suffix within the limit that starts at the earliest line start inside the window, if there is one |
| `Compose.GroupContainersByComposeProject` | backend/internal/migration/compose_migration.go:27-71 | the grouping loop and the sort, for any order of map iteration, give `Groups` and the standalone containers |
| `Compose.GroupingPartitions` | backend/internal/migration/compose_migration.go:27-71 | groups are non-empty, hold only their own project, have strictly rising names, and with the standalone containers make up the inspected ones, with multiplicity |
| `Compose.FirstsAreFirst` | backend/internal/migration/compose_migration.go:50-55 | a group's directory and files are those of its first container that has any |
| `Compose.NameDropsSlash` | backend/internal/migration/compose_migration.go:32-32 | one leading slash of a container's name is dropped, and nothing else |
| `Text.LessIsDictionary` | backend/internal/migration/compose_migration.go:66-68 | names are compared in dictionary order of their bytes |
| `Compose.SortedIsUnique` | backend/internal/migration/compose_migration.go:61-68 | a set of names has one sorted listing, so map order does not matter |
| `Migration.ProgressNeverDecreases` | backend/internal/migration/docker_desktop.go:112-223 | in every run reported progress never decreases and stays within 0..100, and the last report is the returned status |
| `Migration.CountersStayWithinTotals` | backend/internal/migration/docker_desktop.go:269-533 | in every report each OK counter is at most its total |
| `Migration.CompletesIff` | backend/internal/migration/docker_desktop.go:112-223 | a run completes at 100 % if and only if nothing fatal happened, and otherwise fails below 100 % with the first fatal error |
| `Migration.PreflightReportsTheFirst` | backend/internal/migration/docker_desktop.go:126-168 | the preflight error is that of the first failing check |
| `Migration.StepsEndAtLastShare` | backend/internal/migration/docker_desktop.go:282-343 | the image and volume steps leave the progress at the share of their last item |
| `Migration.FinalCounts` | backend/internal/migration/docker_desktop.go:269-652 | a completed run's counters are the numbers of items whose every command succeeded, and the builds those of the first listing that works |
| `Migration.MigratedAreTheMoved` | backend/internal/migration/docker_desktop.go:465-530 | with distinct names the containers counted are as many as the inspected ones whose project was imported, or that were created and, if they had been running, started |
| `Migration.RestartsExactlyTheUnimported` | backend/internal/migration/docker_desktop.go:440-498 | the containers started again on the source are exactly those stopped there whose compose project was not imported, each once |
| `Migration.Migrator.RunFromDockerDesktop` | backend/internal/migration/docker_desktop.go:112-223 | the whole run, each early return included, reports `Run`, and stops and restarts source containers only if it reaches the containers step |
| `Migration.Migrator.MigrateConfig` | backend/internal/migration/docker_desktop.go:243-266 | settings are applied and counted only when present and saved; a failed save is the step's error |
| `Migration.Migrator.ImportImages` | backend/internal/migration/docker_desktop.go:282-303 | the image loop reports each image at its share of 10 to 45 % and counts the loaded ones |
| `Migration.Migrator.MigrateImages` | backend/internal/migration/docker_desktop.go:269-306 | reports the total, then the images; without a list it fails and changes no counter |
| `Migration.Migrator.ImportVolumes` | backend/internal/migration/docker_desktop.go:342-380 | the volume loop reports each volume at its share of 50 to 70 % and counts those exported, created and imported |
| `Migration.Migrator.MigrateVolumes` | backend/internal/migration/docker_desktop.go:323-383 | reports the total, then the volumes; without a list it fails and changes no counter |
| `Migration.Migrator.MigrateGroups` | backend/internal/migration/docker_desktop.go:471-487 | imported projects count all their containers and record their names |
| `Migration.Migrator.MigrateRemaining` | backend/internal/migration/docker_desktop.go:500-530 | the remaining containers are created, and started when they were running, before they count |
| `Migration.Migrator.MigrateContainers` | backend/internal/migration/docker_desktop.go:412-533 | total, stops, grouping, projects, remaining containers, and the deferred restarts on every return, the failed mounts directory included |
| `Migration.Migrator.MigrateBuilds` | backend/internal/migration/docker_desktop.go:579-652 | every listed build is counted, from the history or else the fallback listing, at 95 % |

## Left out

- Case folding and white space beyond ASCII; bytes are modelled as characters.
- Failures of writes to the engine, and the engine-to-client direction of a proxied connection; the upgrade relay is only "the head and everything after it, unchanged".
- `HttpHead.RewritesCommute`, `HttpHead.ClampIdempotent`, `HttpHead.RewriteOnlyVersionAndConnection`, `HttpFraming.RewritePreservesFraming` and `HttpProxy.ExactBody` take the maximum version to be digits and dots, as the constant the proxy passes is.
- Time zones and daylight saving: the scheduler's clock is a count of nanoseconds at a fixed offset.
- Concurrent edits of schedule files, several schedules in one tick, and the stop channel between them.
- Go's `sort.Slice` is not stable: where several entries name one weekday the model sorts stably, and claims about served slots are about the normalized list.
- `ExportScheduler.EachSlotRunsExactlyOnce`: takes every run to be saved; `SlotRepeatsIff` and `UnsavedRunRepeats` say what happens otherwise.
- The proxy variant without a gater.
- In the proxy's lifecycle Start is taken to return before other operations begin.
- `EngineGate.GateIsSafe`: counts connections opened through the gate's own dial, and takes the readiness probe's connection to be closed before its slot is released; the HTTP transport may dial and close in a goroutine of its own, and a local docker command opens connections from its own process.
- The resource snapshots served while Resource Saver is active (`listSnapshot`).
- Build fields other than id and history ref are one opaque body: `applyHistoryRow`, `applyBuildEnrichment` and `buildsEqual` only decide which bodies change. Purge of the store.
- Regular expressions, JSON, YAML and floating-point text: build-log lines come classified with durations in milliseconds, history rows and container inspections decoded.
- The wording of status messages and error texts in a migration; errors are named, not spelled. What a compose import does inside the guest.
- Errors of opening or reading the log file in `ReadLogTail` other than its absence.
- HTTP handlers, OAuth, command-line start-up, disk download, guest scripts and process control, port forwarding, the log broadcaster and the user interfaces: foreign processes or one-branch claims.
