# statusetat, modelled and proved

statusetat is a status page. It keeps incidents in one or several stores, shows the state of each
component and a timeline, and tells notifiers about every change. This project models its core and
proves what that core promises.

| files | what they model |
|---|---|
| `StoreSpec`, `Protocol`, `Ideals` | one store as a map; the replication log as a step machine whose steps interleave freely |
| `Conservation`, `Convergence`, `Overtaking`, `ReadAfterCreate` | what holds over every run of that machine, and exactly when a store that missed writes recovers |
| `Replicate`, `Retry`, `Stack` | the objects that run the protocol: shared records, the bounded retry loops, one on top of the other |
| `Files`, `Local`, `S3` | the two file stores, which keep an incident in one of two places |
| `Disks`, `DiskRuns`, `BothStores`, `RetryLocal` | both as one function of the operation and of what the disk does; whole runs over disks that fail, alone, side by side and through the retry loop |
| `FileProtocol` | the replication protocol over such stores, each behind its retry loop |
| `Models`, `Seqs`, `Regroup`, `Wrappers` | incidents and what is shared by the rest |
| `DateQuery`, `Index`, `ComponentText` | the status page: which incidents are shown where, the worst state of components and groups, the timeline, printed components |
| `BaseSixty`, `Zone`, `ZoneChange` | the time zone code shipped with the site: unpacking, lookup both ways, and the search for clock changes |
| `Api`, `Notify`, `Extemplate` | the request handlers, the fan-out to notifiers with its barrier, template inheritance |

## What is assumed

- A store fails as an arbitrary oracle says. A write that reports an error may leave the one key it was
  aimed at untouched, erased or written. Only `Conservation.StoresHoldWhatWasApplied` needs failed writes
  to leave their store alone (`FailsCleanly`).
- The stores under `Replicate` follow the put semantics of `StoreSpec`. `Disks.LandsExactly` says exactly
  when an operation of `Local` or `S3` does, from any state and on any disk, and `FileProtocol.RunIsRun`
  that a run over such stores is then a run of the protocol.
- `addRecord` reads the slice before it takes the lock (storages/replicate.go:185-195); it is one step
  here, as is each operation of a file store. A file is written whole or not at all.
- The order in which Go walks a map is an arbitrary permutation, given as a parameter.
- A guid is not empty and is not the name of one of the two shared files. Clocks, uuids, request bodies
  and the failures of disks are parameters.
- Offsets, fractions and minutes are real numbers; only `Math.round` and `| 0` round.

## What turned out not to hold

- Replay converges only if nothing newer was written meanwhile: `Overtaking.ReplayUndoesNewerWrite` and
  `Overtaking.PartialPassSwapsRecords` give runs that leave the older incident in force with an empty
  log. `Overtaking.ConvergesUnlessSpoiled` gives the exact condition in terms of the steps of the run.
- `Local.Update` drops the error of clearing the list, and `S3.Update` that of removing the object; an
  update can then report success and leave its guid in both places, and not be read back if the place
  read first is the other one: exactly `Disks.Splits` and `Disks.Loses`.
- A guid left in both places keeps its old incident behind the new one. A deletion or an update in a
  directory that fails after taking the new one off the list brings the old one back, which is neither
  what was there nor nothing (`Disks.DeletionBringsBackTheOld`): exactly `Disks.Uncovers`.
- `S3.Subscribe` drops the error of reading the list; one failed read takes every other subscriber off:
  exactly `Disks.Forgets`.
- `Local.Delete` of a persistent incident removes it and reports that it does not exist
  (storages/local.go:166-172). `DiskRuns.DeletionNeverReportsSuccess` shows that every later deletion
  reports an error too, `Conservation.WaitsWhileRefused` that its record then waits for ever.
- With no attempt allowed, `Retry` reports a write as taken that no store has seen.
- The page looks six days back for incidents but only from today on for maintenances: one under way that
  began yesterday is shown nowhere (`DateQuery.OngoingMaintenanceIsNowhere`). It also reads the clock
  once for each side, and a maintenance whose end falls in between is on neither
  (`DateQuery.ShownOnceUnlessItEnds`). `DateQuery.ShownExactly` says exactly what is shown.
- A group need not show the worst of its components. `Index.GroupIsMaximumExactly` gives the exact
  condition. An ungrouped component configured as "A - B" breaks it for every incident that names it by
  its text, since that text is read as B of group A (`Index.OneComponentPage`). The other way round the
  failing component can be stored from one text only, which starts with two separators
  (`Index.GroupMayMissItsComponent`).
- `parse` in the time zone code can be wrong for an instant exactly as far before a transition as the
  largest and the smallest offset differ (`Zone.ExactlySpreadBefore`); a strict bound on that side is
  what holds, and `Zone.ParseExactly` is exact for zones with sparse transitions.
- The instant one minute after the result of `findChange` has another offset, whatever the clock, exactly
  when the end points are whole minutes apart (`ZoneChange.AMinuteIsEnough`). This concerns `findChange`
  alone: `userOffsets` calls it with starts of months only.
- What `AddMessage` and `UpdateMessage` send out carries a new update time; what they store does not.

## Model

| member | source | states |
|---|---|---|
| Conservation.EveryWriteHasOneFate | storages/replicate.go:129-265 | in every interleaving of writes, passes, replays and cleaning, each write at each store is exactly one of applied at once, waiting in the log, or replayed, and has taken effect exactly once, or not at all while it waits |
| Conservation.LogIsBacklog | storages/replicate.go:180-212 | the records not marked deleted are, in order, exactly the writes not yet in force |
| Conservation.CleaningIsInvisible | storages/replicate.go:198-212 | one more run of the cleaner at any moment, even inside a pass, changes nothing but which deleted records the log still holds, for every continuation |
| Conservation.StoresHoldWhatWasApplied | storages/replicate.go:129-265 | with clean failures each store holds exactly the writes counted as applied, in the order they were |
| Conservation.StoresHoldWhereNothingWaits | storages/replicate.go:129-265 | whatever failed writes leave, each store holds at every key no record waits for what the applied writes, in their order, put there |
| Conservation.WaitsWhileRefused | storages/replicate.go:198-265 | a live record stays live if and only if no step replays it with success, in every run |
| Protocol.RunKeepsInv | storages/replicate.go:180-265 | the invariant of every reachable world: log and pass in issue order without repeats, a pass holds only waiting records, done records are applied, nothing is applied twice |
| Protocol.LiveShrinks | storages/replicate.go:198-212 | cleaning, then marking more records, then cleaning again keeps what one cleaning at the end keeps, in the same order |
| Convergence.OutageLogsWhatWasMissed | storages/replicate.go:129-196 | during an outage the live records of a store are exactly the writes issued to it since the outage began |
| Convergence.OutageConverges | storages/replicate.go:129-265 | a store down from its first failure until a pass during which it is up and gets no new write ends equal to one that was never down, whatever refused writes left |
| Convergence.PatientWritersConverge | storages/replicate.go:214-265 | if no write hits a key that a record waits for, any sequence of partly failing passes ends, once drained, at the map of a store that was never down, and is right at every clear key before that |
| Overtaking.ConvergesUnlessOvertaken | storages/replicate.go:214-265 | with a drained log, whatever failed writes left before, the write in force at each key is the newest one if and only if its application was not overtaken, and the store is as if never down if and only if no overtaken write is in force whose operation writes something else than the newest operation issued there |
| Overtaking.ConvergesUnlessSpoiled | storages/replicate.go:226-260 | the same on the steps of any run: a drained store is as if never down if and only if no step replays a record over a newer write in force, to a key nothing touches later, whose newest operation writes something else |
| Overtaking.StaleFromReplay | storages/replicate.go:226-260 | an overtaken application exists if and only if some replay step took a record to whose key a newer write had been applied |
| Overtaking.FinalIsNewest | storages/replicate.go:226-260 | the last write applied at a key of a drained store is the last one issued there if and only if it was not overtaken |
| Overtaking.ReplayUndoesNewerWrite | storages/replicate.go:146-265 | a run in which a replay puts an older incident over a newer one, with nothing left in the log |
| Overtaking.PartialPassSwapsRecords | storages/replicate.go:226-260 | the same from two records of which the older fails once more |
| ReadAfterCreate.ReadsBackWhatWasCreated | storages/replicate.go:129-278 | after a creation with a fresh guid, in every run without other writes to it, a read in any order of stores gives that incident or nothing, and gives it when one store that took it answers |
| ReadAfterCreate.ReadsBackAfterCreate | storages/replicate.go:129-278 | from the creation itself: after the write loop with a fresh guid and any later steps that hand no other write under it to a store, a read finds the incident if a store that accepted it answers |
| ReadAfterCreate.TookLasts | storages/replicate.go:129-265 | what a store took it keeps having taken, in every run |
| ReadAfterCreate.AcceptedTook | storages/replicate.go:129-144 | a store that accepts in the write loop has taken the creation when the loop ends |
| ReadAfterCreate.ReadFinds | storages/replicate.go:267-278 | a walk over the stores in any order finds the created incident if one that took it is up |
| ReplicateStore.Replicate.Write | storages/replicate.go:129-178 | every store and every record get the caller's own write; what becomes of a store does not depend on the order of the walk; an error is returned if and only if there are stores and none took it |
| ReplicateStore.Replicate.WriteOne | storages/replicate.go:133-140 | one turn of the write loops: the store takes the write or a record of it is logged |
| ReplicateStore.Replicate.AddRecord | storages/replicate.go:180-196 | a new record at the end of the log, shared by object |
| ReplicateStore.Replicate.Clean | storages/replicate.go:198-212 | the list is swapped for exactly the records not marked deleted, while a pass may hold the older ones |
| ReplicateStore.Replicate.Snapshot | storages/replicate.go:216-224 | a pass starts with the records not marked deleted, in log order |
| ReplicateStore.Replicate.ReplayOne | storages/replicate.go:226-261 | one turn of the pass on the shared record: applied and marked exactly on success, or passed over |
| ReplicateStore.Replicate.Pass | storages/replicate.go:214-261 | a pass left alone ends and tries each record of its snapshot once |
| ReplicateStore.Replicate.Pending | storages/replicate.go:199-207 | the loop both background jobs share collects the live records in order |
| ReplicateStore.Replicate.Read | storages/replicate.go:267-278 | the answer of the first store in the order that is up and has the incident, and none if no store has |
| ReplicateStore.StepsWrite | storages/replicate.go:129-144 | a walk reaches each store once and leaves there what depends on that store alone |
| ReplicateStore.ReachedKeepsInv | storages/replicate.go:226-261 | the records a pass holds are always of known stores and still live |
| StoreSpec.RetriedWriteIsOneWrite | storages/retry.go:42-139 | a write repeated after a failed attempt that left its key untouched, erased or written is one write |
| RetryStore.Retry.Write | storages/retry.go:42-139 | calls up to the first success or not-exist error, at most nbRetry, each before the last failing otherwise; always hands back the caller's write; the store ends as after one write, or with at most its own key disturbed; with nbRetry 0 a write nobody saw is reported as taken |
| RetryStore.CallsCount | storages/retry.go:42-57 | the number of calls is the only one that stops at the first decisive attempt or the cap |
| RetryStore.SucceedsAt | storages/retry.go:108-123 | a success after failed attempts leaves what one application leaves |
| RetryStore.FailsAt | storages/retry.go:108-123 | the damage of failed attempts composes to one effect, and the loop ends there on not-exist or at the cap |
| Stack.WriteThrough | storages/replicate.go:129-144 | a store behind its retry loop ends a write in one outcome of the protocol, decided by its oracle |
| Stack.Turn | storages/replicate.go:133-140 | one turn over a real store behind its real retry loop: the store ends as its oracle decides, and what the loop handed back, which is the caller's write, is logged on an error |
| Stack.Write | storages/replicate.go:129-178 | the write loop over real stores behind real retry loops: each store ends as its own oracle decides whatever the order, the caller's write comes back, an error means that no store took it, and the replicate goes on by exactly the protocol steps of this write, so that log, records and stores are those of the protocol |
| Stack.UnreportedWritesAreHarmless | storages/retry.go:42-139 | attempts that all took effect but reported failure leave the store as one write, and replaying the record changes nothing |
| RetryLocal.Update | storages/local.go:153-164 | a retried update of a local store reported as done has happened once, whatever the failed attempts left; reported as failed it changed no other incident, and left the old one or none if it was in one place |
| RetryLocal.Write | storages/retry.go:42-139 | any operation of a local store through the retry loop, from any state, lands as one operation would if and only if the last attempt does not lose its write and the loop does not fail with an older incident uncovered; deletions and subscriptions that report success always do |
| LocalStore.Local.Create | storages/local.go:42-50 | writes the map at its guid if and only if the guid is not already in the place read first |
| LocalStore.Local.Update | storages/local.go:153-164 | writes the map at its guid if and only if the list could be cleared or had no such guid, and leaves its guid in both places if and only if the clearing failed where it was needed; every other guid keeps both its places; a failure leaves the old incident or none where the guid was in one place; and both places and the error are those of `Disks.Next` from any state |
| LocalStore.Local.Delete | storages/local.go:166-172 | what goes from each place, and the error that says something else for a persistent incident |
| LocalStore.Local.Read | storages/local.go:178-197 | a map lookup; every error reads as no incident |
| LocalStore.Local.ByDate | storages/local.go:199-231 | the incidents of the window in walk order, up to the first unreadable file |
| LocalStore.Local.Subscribe | storages/local.go:128-138 | exactly this address is added, once |
| LocalStore.Local.Unsubscribe | storages/local.go:140-147 | exactly this address goes |
| LocalStore.Local.Do | storages/local.go:42-172 | any operation in any state on any disk changes the contents as the protocol assumes if and only if it does not lose its write behind the list or fail after uncovering an older incident |
| S3Store.S3.Create | storages/s3.go:33-46 | the mirror image: writes the map if and only if a persistent incident has no object |
| S3Store.S3.Update | storages/s3.go:138-147 | writes the map unless the incident becomes persistent and its object could not be removed, leaves its guid in both places if and only if the clearing failed where it was needed, and gives a plain incident the guid it is stored under |
| S3Store.S3.Delete | storages/s3.go:149-159 | both places lose the guid, and a missing object is no error |
| S3Store.S3.Read | storages/s3.go:161-187 | a map lookup up to message order, the plain object first |
| S3Store.S3.ByDate | storages/s3.go:189-214 | the incidents of the window in listing order, messages newest first, up to the first unreadable object |
| S3Store.S3.Subscribe | storages/s3.go:105-112 | adds the address, but exactly when the read failed takes the others off |
| S3Store.S3.Unsubscribe | storages/s3.go:114-121 | exactly this address goes |
| S3Store.S3.Do | storages/s3.go:33-159 | the same for a bucket in any state: if and only if it does not lose its write behind the object or forget subscribers |
| Files.EachStoredOnce | storages/local.go:199-231 | over a covering window listing and persistent list show each stored incident once and nothing else, if and only if none is in both places |
| Files.WindowCounts | storages/local.go:199-231 | a listing shows a plain incident once if it is listed and was created from the start to the end of the period, both included, and nothing else |
| Files.WindowInOrder | storages/local.go:199-231 | what is listed earlier is shown earlier |
| Files.AddPersistent | storages/local.go:84-92 | the list stays unique and sorted by creation and gains or replaces the incident |
| Files.RemovePersistent | storages/local.go:94-101 | the list stays unique and sorted and loses exactly the guid |
| Files.Replaced | storages/local.go:84-92 | filter, append and sort replace one guid of the map a sorted list stands for |
| Files.Removed | storages/local.go:94-101 | filter and sort drop one guid of it |
| Files.ClearedThenWritten | storages/local.go:153-164 | clearing a guid from two places as far as possible and writing one of them writes their union, unless the place read first kept its old one |
| Disks.SplitsExactly | storages/local.go:42-164 | a creation or update that reports success leaves its guid in both places if and only if the other place had it and could not be cleared |
| Disks.SeparateExactly | storages/local.go:42-172 | where no guid is in both places, that stays so if and only if the operation does not split one |
| Disks.LandsExactly | storages/s3.go:33-159 | for both stores, every state and every failure: the contents change as the protocol assumes if and only if the write is not lost, no subscriber forgotten and no older incident uncovered by a failure |
| Disks.DoneExactly | storages/local.go:42-172 | an operation that happened is seen to have, and nothing else, if and only if it does not lose its write or forget subscribers, even with guids in both places |
| Disks.BucketFailsCleanly | storages/s3.go:33-159 | a failed operation on a bucket leaves at its key what was there, or nothing, in every state |
| Disks.DeletionBringsBackTheOld | storages/local.go:153-172 | a plain incident made persistent and then deleted, while its file cannot be removed, is there again as it was before |
| DiskRuns.SeparateThroughout | storages/local.go:42-172 | over any run on any disk no guid is ever in both places if and only if no operation splits one |
| DiskRuns.RunLandsExactly | storages/local.go:42-172 | from any state every operation of a run changes the contents as the protocol assumes if and only if none loses, forgets or uncovers |
| DiskRuns.RunLands | storages/local.go:42-172 | such a run is a run of the store the protocol assumes, with the outcomes that were reported |
| DiskRuns.RunIsFold | storages/local.go:42-172 | if every operation happened, the store shows at every moment what the operations so far say if and only if none loses its write or forgets subscribers |
| DiskRuns.SameRunSameContents | storages/s3.go:33-159 | both kinds of store over disks of their own then hold what the operations say, even with guids in both places, and each guid in one place if none is split |
| DiskRuns.FineRunIsSmooth | storages/local.go:42-172 | on a disk that never fails a run that creates under new guids is such a run, always in a directory, and in a bucket if and only if nobody is taken off the list before somebody was put on it |
| DiskRuns.TriedLandsExactly | storages/retry.go:42-139 | from any state through the retry loop any operation lands as one would if and only if the last attempt does not lose or forget, and the loop does not fail with an older incident lying open, whatever else failed attempts left halfway |
| DiskRuns.AgainIsOnce | storages/local.go:42-172 | every operation that happened and was not lost, done once more, leaves the contents as they were |
| DiskRuns.DeletionNeverReportsSuccess | storages/local.go:166-172 | where no plain file has the guid, every deletion of it reports an error in every run that writes none, tried once or through the retry loop |
| BothStores.Drive | storages/local.go:42-172 | the objects go through any run over two disks that fail as they like; where every operation happened and none loses or forgets, both hold what the operations say and the same incidents; where none splits, each guid is in one place |
| BothStores.ReadBoth | storages/s3.go:161-187 | every read then gives the same incident in both up to message order, or in neither |
| FileProtocol.RunIsRun | storages/replicate.go:129-265 | writes, passes, replays and the cleaner over directories and buckets behind their retry loops, each on a disk that fails as it likes: where no effort loses, forgets or fails with an older incident uncovered, this is a run of the protocol step for step, whose stores are what the files show |
| FileProtocol.FilesConverge | storages/replicate.go:214-265 | so a file store no record waits for shows what one that was never down would if and only if no replay spoiled a key |
| Models.Find | models/incident.go:84-91 | the first incident with the guid |
| Models.Filter | models/incident.go:93-102 | the others, in order |
| Models.WithoutMembers | models/incident.go:93-102 | filtering drops exactly the incidents with the guid |
| ComponentText.ParseAfterPrint | models/components.go:18-39 | parsing a printed component gives it back if and only if an ungrouped name has no separator and a group neither has it nor ends in a blank and a dash |
| ComponentText.PrintAfterParse | models/components.go:18-39 | printing a parsed text gives it back if and only if it does not start with the separator |
| ComponentText.ParsedIsUnambiguous | models/components.go:18-32 | a parsed component survives another round unless its text starts with the separator and has a second one |
| ComponentText.PrintsApart | models/components.go:34-39 | unambiguous components that print alike are the same |
| ComponentText.TextOfAmbiguous | models/components.go:18-32 | an ungrouped component with the separator in its name is read from one text only, its own behind a separator |
| ComponentText.StoredTextOfAmbiguous | models/components.go:14-39 | and from one text only if it is printed and read once more in between |
| ComponentText.ComponentCell.UnmarshalJSON | models/components.go:18-32 | sets the two fields to the parsed component; without a separator the group is left as it was |
| DateQuery.Scheduled | serves/common.go:12-26 | each incident once for each place of the listing where it is a maintenance that is not over or is resolved or idle, or with the setting where its scheduled end is after the first instant of 2000; oldest first |
| DateQuery.IncidentsByParamsDate | serves/common.go:50-68 | each incident once for each place where it is no maintenance, or one that is over and neither resolved nor idle, or with the setting where its scheduled end is not after the first instant of 2000; all of them for all types; newest first |
| DateQuery.OneReadingSplits | serves/common.go:12-68 | for one clock reading every occurrence of an incident is on the side it belongs to and none on the other |
| DateQuery.ShownOnceUnlessItEnds | serves/index.go:190-264 | with two readings it is shown exactly once, unless its scheduled end falls between them, and then not at all |
| DateQuery.ShownExactly | serves/index.go:185-264 | a stored incident is on the page once if it is in the period of the timeline and judged an incident, or in the other period and judged scheduled, and else nowhere |
| DateQuery.DefaultPageShows | serves/common.go:28-44 | without dates in the request that is six days back to today for an incident, and today to twenty-six days on for a maintenance |
| DateQuery.OngoingMaintenanceIsNowhere | serves/index.go:185-264 | a maintenance under way that began before today is on neither side |
| DateQuery.ChosenPageShows | serves/common.go:28-44 | a start date in the request moves both periods, and then only what is before it or too late is missing |
| DateQuery.FoundCounts | serves/common.go:12-68 | a store finds exactly what falls into the window, as often as it is stored |
| DateQuery.FoundPlaces | serves/common.go:12-68 | a place in what a store finds is a place in the store, less the earlier incidents outside the window |
| DateQuery.ListingIsFound | storages/local.go:199-231 | what a directory or a bucket gives for a period is what the page takes a store to find in it |
| Index.GetIndexData | serves/index.go:184-288 | the whole page from the store and the request: both periods in nanoseconds for every form of the query; how often each stored incident is on the timeline and among the scheduled; component and group states the worst of the open incidents that concern them, one bucket a day named once in strictly descending order, the seven days of the period; no page if and only if a date is malformed or a query fails |
| Index.OnThePage | serves/index.go:184-264 | exactly when a stored incident is on that page, where it then is once, from its place in the store and the two moments it is looked at |
| Index.UnplannedOnThePage | serves/index.go:184-190 | without dates in the request an unplanned incident is on the timeline as often as stored if it was created in the last six days or today, and else not at all |
| Index.States | serves/index.go:195-254 | the part of the page computed from the incidents of the period |
| Index.CellMeans | serves/index.go:218-246 | a component is as bad as the worst unresolved incident found that lists it by its text, and Operational without one |
| Index.GroupMeans | serves/index.go:213-246 | a group is as bad as the worst unresolved incident found that lists a configured component under it |
| Index.Mark | serves/index.go:232-244 | one incident raises, through shared pointers, exactly the cells and groups its components name |
| Index.MakeCells | serves/index.go:195-211 | one cell a component, in configuration order in its group, and found by printed name the last one printed so |
| Index.Regroups | config/config.go:262-273 | the groups, each with its components in order |
| Regroup.UnderAt | config/config.go:262-273 | a bucket holds all items with its key, the n-th of them at place n |
| Index.AddWeek | serves/index.go:248-254 | each of the seven days gets a bucket, without touching those there |
| Index.WorstIsUnique | serves/index.go:220-246 | the state is one number whatever the order of incidents and of components inside them |
| Index.GroupIsWorstOfItsComponents | serves/index.go:213-246 | a group's state is the maximum of its components' states if every incident worse than Operational raises both the group and one of its cells or neither |
| Index.GroupIsMaximumExactly | serves/index.go:213-246 | and it is so for all incidents of a pool if and only if each of them does |
| Index.UnambiguousAgrees | serves/index.go:232-244 | where printing loses nothing every incident does |
| Index.OneComponentPage | serves/index.go:232-244 | a group of one component, named by its own text, shows what the component shows if and only if that is unambiguous or its text starts with the separator |
| Index.ConcernsWhatItLists | serves/index.go:232-236 | an incident read from any texts concerns a component if and only if one is a text the component prints as, or that behind a separator, and lists it if and only if one of them reads as it; the two differ exactly as stated |
| Index.GroupMayMissItsComponent | serves/index.go:232-244 | a component is red while its group is green, and the one text of a request that stores such a component |
| Index.EachIncidentInOneBucket | serves/index.go:218-227 | every incident is in the bucket of its day as often as found and in no other, and buckets are newest first |
| BaseSixty.UnpackBase60 | serves/website/assets/js/moment-timezone.js:66-96 | the signed value of the digits before and after the dot |
| BaseSixty.UnpackAfterPack | serves/website/assets/js/moment-timezone.js:57-96 | every number with k digits after the dot comes back from its digits |
| BaseSixty.UnpackAfterPackWhole | serves/website/assets/js/moment-timezone.js:57-96 | so does every whole number written without a dot |
| Zone.IntToUntil | serves/website/assets/js/moment-timezone.js:104-110 | in place, prefix sums of the differences each rounded once, the last Infinity |
| Zone.UntilsIncrease | serves/website/assets/js/moment-timezone.js:104-110 | the instants increase if and only if each later difference rounds to at least a millisecond |
| Zone.UntilNearSum | serves/website/assets/js/moment-timezone.js:104-110 | rounding at every step leaves an instant within half a millisecond a step of the exact sum of minutes times 60000 |
| Zone.Unpack | serves/website/assets/js/moment-timezone.js:132-141 | the periods of the zone are in order if and only if its packed differences are positive once rounded |
| Zone.UnpackText | serves/website/assets/js/moment-timezone.js:98-141 | from the packed text itself: each period has the offset its digit points to among the numbers of the third field, and ends at the rounded sum of the differences in the fifth, the last never |
| Zone.SplitThenJoin | serves/website/assets/js/moment-timezone.js:122-128 | splitting at a separator loses nothing |
| Zone.Index | serves/website/assets/js/moment-timezone.js:162-172 | the first period whose end is still to come: every earlier one has ended at the instant, and none from there on has |
| Zone.Parse | serves/website/assets/js/moment-timezone.js:181-205 | the loop returns the offset of the first period whose moved end is still to come |
| Zone.ParsedPeriod | serves/website/assets/js/moment-timezone.js:181-205 | parsing the local time of an instant finds its period if and only if every earlier transition and the next are far enough away |
| Zone.ParseUndoesShift | serves/website/assets/js/moment-timezone.js:162-218 | parse gives the offset back for every instant at least D after or more than D before each transition, for all flags |
| Zone.ExactlySpreadBefore | serves/website/assets/js/moment-timezone.js:181-205 | at exactly D before a transition it need not |
| Zone.ParseExactly | serves/website/assets/js/moment-timezone.js:162-218 | in a zone of sparse transitions the offset comes back if and only if the transition before and the one after, where they change the offset, are far enough away for the offset each is read at |
| Zone.SkippedTimes | serves/website/assets/js/moment-timezone.js:181-205 | a local time the clock skips, between the end of a period as it and the one before read it, gets the offset of that period if and only if invalid times are moved forward, and else of the next |
| Zone.RepeatedTimes | serves/website/assets/js/moment-timezone.js:181-205 | a local time the clock shows twice gets the offset of the next period if and only if ambiguous times are moved forward, and else of the one that ends |
| Zone.OtherTimes | serves/website/assets/js/moment-timezone.js:181-205 | every other local time near the end of a period is read in the period it belongs to, whatever the flags |
| Zone.HalfPastInTheSkippedHour | serves/website/assets/js/moment-timezone.js:181-205 | in an hour skipped at the end of winter time, half past has the winter offset with the flags the site ships and the summer offset without them |
| ZoneChange.FindChange | serves/website/assets/js/moment-timezone.js:271-284 | ends, with the low offset kept and less than two minutes to an instant with another |
| ZoneChange.ReachIsExact | serves/website/assets/js/moment-timezone.js:271-284 | up to twice the reach the first probe falls into the interval if and only if the interval is within reach, so the wrap to 32 bits shows exactly beyond |
| ZoneChange.ChangesWithinAMinute | serves/website/assets/js/moment-timezone.js:295-297 | between end points whole minutes apart the gap is one minute, so the instant pushed next differs |
| ZoneChange.PinsTheChange | serves/website/assets/js/moment-timezone.js:271-284 | a single change lies after the result and within the gap |
| ZoneChange.TooEarly | serves/website/assets/js/moment-timezone.js:271-284 | between any end points not whole minutes apart a clock that changes at the very end has not changed a minute after the result |
| ZoneChange.AMinuteIsEnough | serves/website/assets/js/moment-timezone.js:271-284 | a minute after the result the offset differs for every clock if and only if the end points are whole minutes apart |
| ZoneChange.UserOffsets | serves/website/assets/js/moment-timezone.js:286-308 | for each month at whose start the offset differs a pair one minute apart around a change inside the month before, then the half years |
| ZoneChange.ChangedExactly | serves/website/assets/js/moment-timezone.js:286-299 | the months taken for changes are exactly those at whose start the offset differs from the month before, in order |
| Notify.MatchComponent | config/types.go:30-54 | the early-exit loops compute any, or all, of the groups and names |
| Notify.MatchComponents | config/types.go:13-28 | the same over components; a filter never matches an event without any |
| Notify.ToldExactlyOnce | notifiers/manager.go:90-116 | in every interleaving each notifier whose filter matches a finished event was called once and returned, and no other was called |
| Notify.ToldByFilter | notifiers/manager.go:100-105 | the same in terms of the filters and the event's components |
| Notify.NoOverlap | notifiers/manager.go:99-115 | no call for an event starts before all calls for earlier events returned, and none starts twice |
| Notify.EventEnds | notifiers/manager.go:99-115 | until the loop is back at its channel some step is possible, and every step brings it closer |
| Extemplate.EndsExactly | extemplate/template.go:187-195 | the walk up the layouts ends if and only if no file is met twice, and then within as many steps as there are files |
| Extemplate.Extemplate.ParseChain | extemplate/template.go:197-204 | parsing the chain in reverse resolves every block to the nearest definition that is not blank, else to the shared one, else to the blank one furthest up |
| Extemplate.Chain | extemplate/template.go:187-195 | the loop collects the chain, each file once, at most as many as there are |
| Extemplate.ResolvesMore | extemplate/template.go:198-200 | one more file down the chain overrides what it defines and nothing else |
| Extemplate.Extemplate.ParseRoots | extemplate/template.go:161-171 | the shared namespace offers each block of the files that extend nothing, a blank one only if all are |
| Extemplate.Extemplate.ParseDir | extemplate/template.go:152-209 | fails if and only if some file does not parse; else every file is found under its own name with a body; a file that extends another has there its own text, or the nearest one that is not blank, and in each other block what the nearest file up its layouts puts there, or what the files that extend nothing share |
| Api.Serve.CreateIncident | serves/api.go:22-97 | created if and only if it has components, messages, states and consistent dates, is not vetoed and is stored; then each field of what is stored and sent out is the one sent or the one filled in, else nothing changes |
| Api.Serve.Update | serves/api.go:174-283 | updated if and only if found, with consistent dates, not vetoed and stored; then each field given is there with its value, each one not given is as it was, messages stay, are retold or are replaced, and origin and update time are new |
| Api.Serve.Delete | serves/api.go:315-350 | gone from the store, and sent out as cancelled |
| Api.Serve.AddMessage | serves/api.go:352-399 | one message with a new guid at the end; what is sent out has a new update time, what is stored has not |
| Api.Serve.DeleteMessage | serves/api.go:401-440 | exactly the messages with the guid go |
| Api.Serve.UpdateMessage | serves/api.go:483-532 | only title and content of the messages with the guid change, to those sent |
| Api.Serve.Notify | serves/api.go:299-313 | sends a stored incident out once more, and answers that it was not found exactly when it cannot be read |
| Api.MessagesGuid | serves/api.go:99-114 | in place: every message gets the incident's guid and keeps its text, and one without a guid gets a guid and, if it has none, a date |
| Api.MergedIsSound | serves/api.go:200-257 | a merge of a sound incident is sound if and only if its dates are consistent |
| Api.MergedMeans | serves/api.go:200-260 | a merge has each field the update gives and every other field of the incident |
| Api.KeptMembers | serves/api.go:416-422 | the loop drops exactly the messages with the guid |
| Api.UpdatesCompose | serves/api.go:200-253 | two updates are the one update that gives what the second gives and else what the first gives |
| Api.DeleteUndoesAdd | serves/api.go:382-422 | deleting a message just added restores the messages |
| Api.LastTextStays | serves/api.go:510-516 | of two new texts for a message the last one stays |
| Api.RewriteBesideDelete | serves/api.go:417-516 | rewriting messages and deleting others can be done in either order |
| Api.Serve.Serving | serves/api.go:22-532 | over every run of requests each stored or emitted incident has components, each message a guid, each scheduled one a start not after its end; incidents no request names are untouched; at most one event a request |

## Left out

- ReplicateStore.Replicate.WriteOne: how the store ends the write is a parameter; `Stack.Write` supplies it from real stores behind real retry loops.
- ReplicateStore.Replicate.Write: the five write loops differ only in the call they make, and are one method over the five kinds of write; the stores are values in it, so that two urls cannot name one store is built in.
- ReplicateStore.Replicate.Write: which of several stores' errors the caller gets depends on the order of the walk; only whether there is one is stated.
- ReplicateStore.Replicate.Read: the `Subscribers`, `ByDate` and `Persistents` loops are the same loop, and so are the retry loops of the reading operations.
- RetryStore.Retry.Write: the sleep between attempts, and a store that changes by itself between them.
- S3Store.S3.Update: a persistent incident whose own guid is not the one updated, which no handler asks for; so also LocalStore.Local.Update for any incident.
- LocalStore.Local.ByDate: the walk order is a parameter; directories and file names that are no incidents are not modelled.
- Extemplate.Extemplate.ParseDir: parsing a template text is a flag and a map of its definitions; a layout that defines a block with the very name of the child is not told apart from the child's body.
- Index.GetIndexData: a date text and the day read back from it are one number; display of times in the user's zone is left to a parameter.
- Api.Serve.CreateIncident: JSON decoding is a parameter, and so is what the pre-checkers answer.
- Notify.EventEnds: the list of subscribers sent along, and calls that never return.
- Zone.UnpackText: the name, the abbreviations and the population; texts with fewer fields, or with indices that point at no offset.
- ZoneChange.FindChange: end points more than 2^31 times two minutes apart, where `| 0` wraps.
- The database store, sessions, authentication, Ping and the choice of a store by its url: plumbing over libraries.
- The formats of mails, chats, feeds, JSON, YAML and protobuf, HTML and Markdown: no state of their own.
- Guessing the user's zone from its offsets, and the zone tables.
- The history page and the calendar feed: the date query again.
