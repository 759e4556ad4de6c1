# Verified model of blocks-os

Dafny models of the parts of blocks-os that carry the most logic, with proofs of what they promise. `dafny verify dfyconfig.toml` checks everything.

| files | what they model |
|---|---|
| `Bson`, `ColumnMask`, `BsonInPlace`, `ColumnMaskInPlace` | the column mask: what a reader does not see is taken out of a document, and put back when that reader saves the whole document |
| `Nest`, `NestInPlace` | the dotted paths of a partial update as a nested document |
| `OsDataAccess` | whole-document reads and writes through the data access resolver |
| `LmtRegistry`, `LmtWorker` | the LMT worker's consumer registry, over runs in which broker calls may fail |
| `LmtDelivery` | one RabbitMQ delivery: what is saved and how it is settled |
| `SetupEvents`, `SetupStream`, `BlockCuts`, `EventStream`, `PayloadJson`, `SetupClient`, `SetupEndToEnd` | the guided domain setup: a detached task, a stream with heartbeats, its text, and the page that reads it in runs that may overlap |
| `FrontendSettings` | placeholder substitution in the published files at start-up |
| `OrphanNames` | the scanner for labels of left-over test projects |
| `DeepLink` | deep links: the sanitizer, the pending path, hidden menus |
| `DeepEqual`, `Debounce` | structural equality and the debounced function |
| `Options`, `Strings` | shared: optional values, white space, splitting and joining text, occurrences |

Mutable objects of the source are classes (documents and arrays that hold one another, the worker with its dictionaries, session storage, the page's state, timers), and every method is proved against a function on values; the laws are lemmas about those functions. The interleaving of the setup task with the request, and that of the page's runs, are state machines over their steps. Where a property one would expect does not hold for every input, a lemma ending in `Iff` says exactly when it does, and the lemma named beside it gives inputs for which it does not:

- `IOsDataAccess.cs` says that a client that saves what it read never erases a hidden value. That is so exactly when every array the reader could see was shown whole, because arrays are masked but never restored (`ColumnMask.WriteBackKeepsEverythingIff`, `ColumnMask.MaskedArrayIsLost`).
- The same holds of a read and a replace through the resolver (`OsDataAccess.ReadThenReplaceIff`). A read with a projection keeps the stored document only under the wider condition of `OsDataAccess.AnyReadThenReplaceIff`; a visible property that was not fetched is lost (`OsDataAccess.ProjectedPropertyIsLost`).
- `LmtWorker` disposes every channel it opened exactly when no start failed after its channel was created, no cancel call failed, and no registered channel fails to close at shutdown (`LmtRegistry.ShutdownDisposesAllIff`, `LmtRegistry.FailedBindIsNeverDisposed`, `LmtRegistry.FailedCloseSkipsTheRest`).
- A delivery that is put back on the queue may have been saved: a traces message in which one tenant has no list at all is, after the other tenants were saved, with every redelivery (`LmtDelivery.RequeuedAfterSavingIff`, `LmtDelivery.NullBatchSavesOthersAgain`).
- The events of a stream do not depend on how its text is cut into chunks exactly when the text does not mix the two separators (`BlockCuts.CutsDoNotMatterIff`, `EventStream.MixedSeparatorsDependOnCuts`). What the server prints never does.
- A superseded run of the setup page leaves the page alone from then on exactly when it was not refetching the project, because it does not look again whether it was aborted (`SetupClient.OnlyCurrentWritesIff`, `SetupClient.SupersededVerdictIsShown`).
- Replacing a placeholder leaves none of it in any text exactly when its value never makes it anew with the text around it (`FrontendSettings.ReplaceLeavesNoneIff`, `FrontendSettings.EndsMatter`).
- A deep-link target is stable under dot-segment removal exactly when the item id brings in no dot segment (`DeepLink.TargetStaysUnderEnvironmentIff`, `DeepLink.DotItemIdLeadsOut`).
- A partial update survives nesting and flattening exactly when no path leads through another (`Nest.RoundTripIff`, `Nest.LaterPathTakesThePlace`).

## Model

| member | source | states |
|---|---|---|
| ColumnMask.MaskedIsLargestClean | server/Os.DataAccess/IOsDataAccess.cs:144-186 | of all sub-documents in which nothing non-null that the mask cleared is left, the masked document is the largest |
| ColumnMask.MaskedLeavesIff | server/Os.DataAccess/IOsDataAccess.cs:161-167 | a property that holds something is left exactly when the masked row still has it and holds something for it: a row without it hides it as a null does |
| ColumnMask.MaskedAtIff | server/Os.DataAccess/IOsDataAccess.cs:148-174 | at every path through documents, a value is left exactly when the row hides nothing on the way to it, and then it is the stored value |
| ColumnMask.MaskedItemLeavesIff | server/Os.DataAccess/IOsDataAccess.cs:177-186 | the same for the documents of an array, paired by position; without a row for each item the array stays |
| ColumnMask.ReadLaw | server/Os.DataAccess/IOsDataAccess.cs:94-99 | what a reader is shown of any stored entity, at every property of a document they may see: the stored value where the row holds something for it, what a new instance holds where it does not |
| ColumnMask.MaskingAgainChangesNothing | server/Os.DataAccess/IOsDataAccess.cs:148-186 | masking again with the same row takes out nothing and reports nothing |
| ColumnMask.TakesOutMeansChanged | server/Os.DataAccess/IOsDataAccess.cs:144-186 | the returned flag is true exactly when the document changed |
| ColumnMask.PutLaw | server/Os.DataAccess/IOsDataAccess.cs:101-142 | for any update, at any path through documents: the stored value is saved exactly where it is hidden and the caller sent nothing or what they were shown; elsewhere the caller's value is |
| ColumnMask.KeepHiddenIsRestored | server/Os.DataAccess/IOsDataAccess.cs:106-115 | the early exits and the final deserialization of the whole operation never change what the walk alone gives |
| ColumnMask.KeepingTwiceIsKeepingOnce | server/Os.DataAccess/IOsDataAccess.cs:106-142 | keeping hidden values twice is keeping them once |
| ColumnMask.WriteBackLaw | server/Os.DataAccess/IOsDataAccess.cs:94-142 | read through the mask and save what was read: every path outside visible arrays holds what was stored, a visible array holds what was shown |
| ColumnMask.WriteBackKeepsEverythingIff | server/Os.DataAccess/IOsDataAccess.cs:101-115 | saving what was read restores the stored entity exactly when every visible array was shown whole |
| ColumnMask.MaskedArrayIsLost | server/Os.DataAccess/IOsDataAccess.cs:101-115 | an entity with a list of one item whose text the mask clears: the reader is shown the item without it, and saving what was shown saves the item without it |
| ColumnMask.SavingKeepsStoredIff | server/Os.DataAccess/IOsDataAccess.cs:106-142 | for any document of the class: saving it leaves the stored one exactly when it sends what is stored wherever nothing is put back |
| ColumnMaskInPlace.RemoveHidden | server/Os.DataAccess/IOsDataAccess.cs:148-155 | the loop over mutable documents ends with the masked tree and the right flag, whatever the order of properties, and writes no other object |
| ColumnMaskInPlace.RemoveHiddenProperty | server/Os.DataAccess/IOsDataAccess.cs:161-174 | one property is taken out, or masked inside, and every other property keeps its value and its objects |
| ColumnMaskInPlace.RemoveHiddenInArray | server/Os.DataAccess/IOsDataAccess.cs:177-186 | documents of an array are masked by position, other items stay |
| ColumnMaskInPlace.Restore | server/Os.DataAccess/IOsDataAccess.cs:118-142 | the in-place walk over four documents ends with the restored tree and the right flag; stored values become part of the update without copying, and the three other documents are not written |
| ColumnMaskInPlace.RestoreProperty | server/Os.DataAccess/IOsDataAccess.cs:121-140 | one property is put back, settled inside, or left, as its three branches say |
| ColumnMaskInPlace.Apply | server/Os.DataAccess/IOsDataAccess.cs:94-99 | the method on objects computes what the laws are about |
| ColumnMaskInPlace.KeepHidden | server/Os.DataAccess/IOsDataAccess.cs:106-115 | the method on objects computes what the laws are about |
| Nest.NestedAt | server/Os.DataAccess/OsDataAccess.cs:207-231 | for prefix-free paths the built document holds, at every path, the set value or its part, a document on the way, or nothing |
| Nest.RoundTripIff | server/Os.DataAccess/OsDataAccess.cs:207-231 | flattening gives back exactly the kept entries if and only if no kept path leads through another |
| Nest.NextEntry | server/Os.DataAccess/OsDataAccess.cs:215-228 | an entry is left out exactly when a part of its path is empty, begins with "$" or is all digits; otherwise its value is found at its path |
| Nest.LaterPathTakesThePlace | server/Os.DataAccess/OsDataAccess.cs:221-228 | entries "a" and "a.b": the value set for "a" does not come back |
| Nest.OrderDoesNotMatter | server/Os.DataAccess/OsDataAccess.cs:212-231 | the same prefix-free entries in any order build the same document |
| NestInPlace.NestEntries | server/Os.DataAccess/OsDataAccess.cs:212-231 | the loop over entries builds that document out of new objects |
| NestInPlace.SetPath | server/Os.DataAccess/OsDataAccess.cs:221-228 | walking down and setting the last part changes that path only, replacing a non-document on the way |
| OsDataAccess.ReadThenReplaceIff | server/Os.DataAccess/OsDataAccess.cs:35-55 | a granted whole read saved as shown is judged and saved as the stored document itself would be, where every visible array was shown whole; when the rules pass that is the only case in which the stored document stays; a replace and an upsert agree |
| OsDataAccess.AnsweredReadShows | server/Os.DataAccess/OsDataAccess.cs:40-50 | a user's read of their own tenant shows nothing when access or the filter is missing, and otherwise the stored document as the projection, if used, and the mask of that answer leave it |
| OsDataAccess.OpenReadShowsStored | server/Os.DataAccess/OsDataAccess.cs:37-38 | without a user, for another tenant or for a missing schema, a read shows the document as it is stored |
| OsDataAccess.AnyReadThenReplaceIff | server/Os.DataAccess/OsDataAccess.cs:45-50 | for a read with any projection, saving what it showed leaves the stored document exactly when that sends what is stored wherever nothing is put back |
| OsDataAccess.ProjectedPropertyIsLost | server/Os.DataAccess/OsDataAccess.cs:45-49 | a visible property that the projection left out is saved with the value of a new instance, whatever was stored: why a read that may be written back takes no projection |
| OsDataAccess.RejectedIff | server/Os.DataAccess/OsDataAccess.cs:83-123 | a replace or an upsert is rejected exactly when the rules reject the document with the hidden values kept; on the skip path never |
| OsDataAccess.DefaultsAreSaved | server/Os.DataAccess/OsDataAccess.cs:89-98 | when the rules apply defaults, what is saved is their document read into the class, value by value, and an insert adds the requester to that one |
| OsDataAccess.SkippedSaveIsAsSent | server/Os.DataAccess/OsDataAccess.cs:103-117 | without a user or for another tenant, every kind of save prepares what was sent |
| OsDataAccess.NothingToKeep | server/Os.DataAccess/OsDataAccess.cs:119-135 | where nothing is stored, or the read before the write gives no mask, the rules judge what was sent |
| OsDataAccess.SavePutLaw | server/Os.DataAccess/OsDataAccess.cs:101-135 | for any incoming document: what the rules judge and, when they pass, what a replace and an upsert prepare, holds the stored value exactly where a property is hidden and left alone, and the caller's elsewhere |
| OsDataAccess.SavingAgain | server/Os.DataAccess/OsDataAccess.cs:113-135 | preparing what was prepared gives the same again |
| OsDataAccess.RequesterAddedIff | server/Os.DataAccess/OsDataAccess.cs:93-111 | when the rules leave a list without the requester, the prepared upsert names them exactly when nothing is stored, the entity carries the lists and there is a user id |
| OsDataAccess.RequesterJoinsLists | server/Os.DataAccess/OsDataAccess.cs:149-170 | on adding, the requester is in all three lists, once more only if they were not; other ids keep their places, everything else stays, and adding again changes nothing |
| OsDataAccess.RequesterJoinsAccess | server/Os.DataAccess/OsDataAccess.cs:154-170 | each of the three accesses, or a new one where there is none, keeps what it holds and gets the id at the end of its list unless it is there; nothing else of the record changes |
| OsDataAccess.NobodyJoins | server/Os.DataAccess/OsDataAccess.cs:155-157 | without a user id, or for an entity without the lists, nobody is added |
| OsDataAccess.OsDataAccess.AddRequesterToAccessLists | server/Os.DataAccess/OsDataAccess.cs:149-162 | updating the three lists one after the other is adding the requester to each of them as it was |
| OsDataAccess.OsDataAccess.ShouldSkipResolver | server/Os.DataAccess/OsDataAccess.cs:260-283 | skips without an authenticated user or for another tenant, and logs each call site and reason once |
| OsDataAccess.OsDataAccess.KeepHiddenValues | server/Os.DataAccess/OsDataAccess.cs:130-135 | what is kept is the mask operation the laws are about, under the policy of a read of everything, and the incoming document where that read gives no mask |
| OsDataAccess.OsDataAccess.PrepareReplace | server/Os.DataAccess/OsDataAccess.cs:113-123 | the calls, with their own looks at the skip path, prepare what `RejectedIff`, `SavePutLaw` and `ReadThenReplaceIff` are about |
| LmtRegistry.EveryRunIsSound | server/LmtManagedServiceWorker/LmtWorker.cs:121-206 | whatever fails, each kind has tags for exactly its channels, and no registered channel is disposed or shared |
| LmtRegistry.AddMessage | server/LmtManagedServiceWorker/LmtWorker.cs:132-148 | the whole new state after an "add", in any reachable state and for every point at which each of the two starts may fail |
| LmtRegistry.RemoveMessage | server/LmtManagedServiceWorker/LmtWorker.cs:149-165 | the whole new state after a "remove", for open and closed channels and cancel calls that fail or not |
| LmtRegistry.OtherMessage | server/LmtManagedServiceWorker/LmtWorker.cs:121-171 | a message that cannot be read, names no service or asks for anything else changes nothing |
| LmtRegistry.LoadMessage | server/LmtManagedServiceWorker/LmtWorker.cs:173-206 | after loading, every service is in the cache and has each consumer whose start did not fail, and nothing was taken away |
| LmtRegistry.FailedLoad | server/LmtManagedServiceWorker/LmtWorker.cs:173-206 | where the database cannot be read or a document does not name its service, nothing is started |
| LmtRegistry.AddHeals | server/LmtManagedServiceWorker/LmtWorker.cs:132-148 | from any reachable state one add that goes through restores both consumers and replaces none that runs |
| LmtRegistry.RemoveClears | server/LmtManagedServiceWorker/LmtWorker.cs:149-165 | from any reachable state one remove that goes through clears the service everywhere and nothing else |
| LmtRegistry.RegistryRefinesSet | server/LmtManagedServiceWorker/LmtWorker.cs:121-206 | in failure-free runs the cache and all four maps hold exactly the services loaded or last added and not removed since |
| LmtRegistry.Conservation | server/LmtManagedServiceWorker/LmtWorker.cs:316-401 | over any run, opened minus disposed minus registered channels is the number of faults that lose one |
| LmtRegistry.FailureFreeConservation | server/LmtManagedServiceWorker/LmtWorker.cs:316-401 | without failures opened minus disposed channels is twice the size of the cache |
| LmtRegistry.ShutdownDisposesAllIff | server/LmtManagedServiceWorker/LmtWorker.cs:571-608 | after shutdown every channel ever opened is disposed exactly when no fault lost one and no registered channel fails to close, in whatever order the dictionaries list their channels |
| LmtRegistry.CloseAllUpTo | server/LmtManagedServiceWorker/LmtWorker.cs:598-608 | the channels before the first that fails to close are disposed, and none from there on |
| LmtRegistry.FailedBindIsNeverDisposed | server/LmtManagedServiceWorker/LmtWorker.cs:344-382 | one add whose log consumer fails at binding its queue: no shutdown disposes its channel |
| LmtRegistry.FailedCloseSkipsTheRest | server/LmtManagedServiceWorker/LmtWorker.cs:598-608 | one service whose log channel fails to close: neither channel is disposed |
| LmtWorker.Worker.StartConsumer | server/LmtManagedServiceWorker/LmtWorker.cs:316-383 | the new state of the dictionaries and channels for every point at which the broker may fail |
| LmtWorker.Worker.StopConsumer | server/LmtManagedServiceWorker/LmtWorker.cs:385-401 | the new state, and that it throws exactly when the cancel call of a found consumer fails |
| LmtWorker.Worker.HandleServiceActivity | server/LmtManagedServiceWorker/LmtWorker.cs:121-171 | a message is one step of a run; a throwing stop of the log consumer leaves the trace consumer |
| LmtWorker.Worker.LoadServicesFromDb | server/LmtManagedServiceWorker/LmtWorker.cs:173-206 | loading is one step of a run; a document without an id stops it before any start |
| LmtWorker.Worker.StopAsync | server/LmtManagedServiceWorker/LmtWorker.cs:598-608 | the channels disposed before the first whose closing fails, and that it throws exactly when a registered channel fails to close |
| LmtDelivery.Worker.ProcessMessage | server/LmtManagedServiceWorker/LmtWorker.cs:403-439 | a delivery is settled at most once, for every failure of the two settling calls: acknowledged exactly when nothing throws, else put back, and unsettled when that fails too |
| LmtDelivery.Worker.ProcessPayload | server/LmtManagedServiceWorker/LmtWorker.cs:477-533 | exactly when processing throws, and what it has attempted and saved by then |
| LmtDelivery.LogsMessage | server/LmtManagedServiceWorker/LmtWorker.cs:500-510 | a logs message makes one insert, of all its logs in their order, into its service's collection, of which what comes before a failure is stored; it is put back only for an impossible collection name |
| LmtDelivery.TracesMessage | server/LmtManagedServiceWorker/LmtWorker.cs:511-528 | a traces message attempts its tenants in order up to the first impossible collection name, stores of each what its own insert stores, and is acknowledged exactly when none was left out and each has a list |
| LmtDelivery.OtherMessage | server/LmtManagedServiceWorker/LmtWorker.cs:416-439 | any other message saves nothing; it is put back when a part that its type asks for cannot be read, and acknowledged otherwise |
| LmtDelivery.Worker.SaveTenantBatches | server/LmtManagedServiceWorker/LmtMongoPersistence.cs:33-53 | one attempt per tenant in order, up to the first tenant that cannot name a collection |
| LmtDelivery.Worker.SaveLogs | server/LmtManagedServiceWorker/LmtMongoPersistence.cs:13-31 | one attempt whose failure is swallowed, unless the service cannot name a collection |
| LmtDelivery.AckedAttemptsEveryBatch | server/LmtManagedServiceWorker/LmtWorker.cs:513-527 | in an acknowledged traces message every tenant's batch was attempted exactly once |
| LmtDelivery.BatchStandsAlone | server/LmtManagedServiceWorker/LmtMongoPersistence.cs:39-52 | what is stored for a tenant is what its own insert stores, all of it or what came before the failure, whatever happens to other tenants |
| LmtDelivery.RequeuedAfterSavingIff | server/LmtManagedServiceWorker/LmtWorker.cs:403-439 | a delivery is put back after something was stored exactly when a failing traces message saved something before any tenant with an impossible collection name, or the acknowledgement of a saved message fails |
| LmtDelivery.Worker.DeliverAgain | server/LmtManagedServiceWorker/LmtWorker.cs:434-438 | as often as a delivery is put back, what it stores is stored again |
| LmtDelivery.NullBatchSavesOthersAgain | server/LmtManagedServiceWorker/LmtWorker.cs:515-519 | a message with a tenant without a list, whose other tenant is saved and which is still requeued |
| SetupStream.EventsConserved | server/Api/Controllers/DomainController.cs:78-141 | under every interleaving, written, taken and queued events are the events produced, a prefix of all of them |
| SetupStream.EndedStreamIsComplete | server/Api/Controllers/DomainController.cs:54-59 | a stream that ends unabandoned has written every step in order and then one result, last: the one setup returned, or the text for a setup that throws |
| SetupStream.WithoutDomainOneResult | server/Api/Controllers/DomainController.cs:72-76 | without a domain one failed result is written and nothing is notified |
| SetupStream.WireGrows | server/Api/Controllers/DomainController.cs:109-136 | one step writes at most one frame, a heartbeat only while waiting for events; after its end or its reader's leaving a stream writes and takes nothing more |
| SetupStream.TaskIgnoresReader | server/Api/Controllers/DomainController.cs:80-107 | the task's progress depends only on how often it was scheduled, never on the reader |
| SetupStream.TaskAlwaysFinishes | server/Api/Controllers/DomainController.cs:82-107 | scheduled often enough, the task has produced everything, completed, and notified exactly once with the outcome |
| SetupStream.StepsApproachTheEnd | server/Api/Controllers/DomainController.cs:109-136 | every effective step but heartbeats and aborts lowers a measure |
| SetupStream.CanAlwaysEnd | server/Api/Controllers/DomainController.cs:109-136 | no reachable state is stuck: the stream can always be run to its end |
| BlockCuts.CutsDoNotMatterIff | client/app/cross-modules/ai/shared/utils/parse-sse.ts:17-30 | the blocks of a text are the same for every way of cutting it into chunks exactly when it has no CRLF separator or no other one between them |
| BlockCuts.CutContinues | client/app/cross-modules/ai/shared/utils/parse-sse.ts:17-30 | cutting such a text after a beginning of it is going on with the rest of that beginning |
| BlockCuts.SplitOnGlues | client/app/cross-modules/ai/shared/utils/parse-sse.ts:24-26 | no part holds a separator, and the parts joined by separators are the text |
| EventStream.ChunksDoNotMatter | client/app/cross-modules/ai/shared/utils/parse-sse.ts:17-30 | for such a text, reading chunk by chunk is reading the whole text |
| EventStream.MixedSeparatorsDependOnCuts | client/app/cross-modules/ai/shared/utils/parse-sse.ts:24-28 | a text with both separators that gives an event when read whole and none when cut between them |
| EventStream.ParseWire | client/app/cross-modules/ai/shared/utils/parse-sse.ts:1-30 | parsing the printed frames gives back their events, heartbeats leaving no trace |
| EventStream.FieldReads | client/app/cross-modules/ai/shared/utils/parse-sse.ts:4-11 | a field's value is what stands on its line without the white space around it; the two Unicode line separators end it too |
| EventStream.WireRoundTrip | server/Api/Controllers/DomainController.cs:166-173 | frames printed, cut anywhere and read chunk by chunk give back their events |
| EventStream.BrokenWireGivesPrefix | client/app/hooks/use-domain-setup.ts:86-110 | a stream broken off anywhere gives a prefix of its events |
| EventStream.StandardAgrees | server/Api/Controllers/DomainController.cs:166-167 | sections 9.2.5 and 9.2.6 of the WHATWG HTML Standard read the same events out of the same text |
| PayloadJson.JsonIsFaithful | client/app/models/domain-setup.model.ts:36-52 | the JSON of the fields the page reads is on one line and reads back, for every text in it: the assumption of the laws above has an instance |
| SetupClient.SetupStreamHook.Receive | client/app/hooks/use-domain-setup.ts:85-106 | the loop over the events of a chunk is one step of the page |
| SetupClient.EveryRunReadsItsOwn | client/app/hooks/use-domain-setup.ts:75-107 | over any interleaving of runs, each run's buffer and result are those of its own chunks |
| SetupClient.StepsAreTheCurrentRuns | client/app/hooks/use-domain-setup.ts:65-106 | over any interleaving, the steps shown are those the current run has received |
| SetupClient.LeavingEndsReading | client/app/hooks/use-domain-setup.ts:63 | once the page is left, no run receives anything until another is started |
| SetupClient.VerdictIsTheWriters | client/app/hooks/use-domain-setup.ts:112-125 | over any interleaving, phase and error are those of the runs that showed their verdict since the last start or reset |
| SetupClient.OnlyCurrentWritesIff | client/app/hooks/use-domain-setup.ts:112-123 | after a start or a reset, no superseded run will show its verdict exactly when none of them was refetching the project then |
| SetupClient.CurrentRunIsShown | client/app/hooks/use-domain-setup.ts:112-123 | when only the current run shows its verdict, the page is running until then and shows that run's outcome from then on |
| SetupClient.SupersededVerdictIsShown | client/app/hooks/use-domain-setup.ts:112-123 | a run started during the refetch of another: the page shows the old verdict while the new run has received nothing |
| SetupEndToEnd.StepsAreLastReports | client/app/hooks/use-domain-setup.ts:93-102 | each step shows the last thing reported about it, or that nothing was |
| SetupEndToEnd.EndToEnd | client/app/hooks/use-domain-setup.ts:65-125 | from the setup service to the page, over every interleaving on both sides, every heartbeat and chunking: once the current run alone has shown its verdict on the whole text, the page shows the last reports, success exactly when setup returned success, and otherwise the text for what went wrong |
| SetupEndToEnd.BrokenConnectionNeverClaimsSuccess | client/app/hooks/use-domain-setup.ts:108-122 | with a connection broken anywhere, a page whose current run alone shows verdicts says success only if the task produced it |
| SetupEndToEnd.LostConnectionIsShown | client/app/hooks/use-domain-setup.ts:45-46 | a run that read no result shows that the connection was lost |
| FrontendSettings.PassIsIdempotent | server/Api/ProgramStartup.cs:190-207 | if values seal against tokens, one pass leaves no configured token in any text and a second changes nothing |
| FrontendSettings.PlainValuesSeal | server/Api/ProgramStartup.cs:127-178 | for keys of capitals and underscores it is enough that values have no double underscore and begin and end with something else |
| FrontendSettings.ReplaceLeavesAbsent | server/Api/ProgramStartup.cs:195-201 | replacing a token leaves none of it and brings in none that was absent, overlaps included |
| FrontendSettings.ReplaceLeavesNoneIff | server/Api/ProgramStartup.cs:199 | replacing one token leaves none of it in any text exactly when its value, with less than a token before and after it, never makes the token anew |
| FrontendSettings.EndsMatter | server/Api/ProgramStartup.cs:199 | for every key: the value "_" contains no token, and completes one in a text where the token is followed by the end of another |
| FrontendSettings.PlaceholderTakesValue | server/Api/ProgramStartup.cs:127-201 | a placeholder is replaced by the environment variable of its key, if that is not empty, and otherwise by the key's value in the configuration |
| FrontendSettings.PlaceholderStays | server/Api/ProgramStartup.cs:127-201 | a placeholder stays where there is no value or only white space, also where an environment variable of white space hides the configuration |
| FrontendSettings.PassInOrder | server/Api/ProgramStartup.cs:195-201 | the later settings are applied to what the earlier ones made of the text |
| FrontendSettings.ServedIff | server/Api/ProgramStartup.cs:180-188 | exactly the paths that end in one of the four extensions, in capitals or not, are substituted |
| FrontendSettings.SecondStartWritesNothing | server/Api/ProgramStartup.cs:190-207 | starting again on the same files writes none of them |
| FrontendSettings.WebRoot.ApplyFrontendRuntimeSettings | server/Api/ProgramStartup.cs:180-207 | served files hold the substituted text, others are untouched, and exactly the changed ones are written |
| FrontendSettings.WebRoot.ReplaceTokens | server/Api/ProgramStartup.cs:195-201 | tokens are replaced in order, configured ones only |
| OrphanNames.CollectOrphanNames | e2e/support/create-and-delete-project.ts:19-40 | the distinct names are exactly the labels of every occurrence of every prefix, overlapping ones included |
| OrphanNames.NameFrom | e2e/support/create-and-delete-project.ts:26-35 | an occurrence gives a name exactly when a space, a maximal digit run and a maximal run of renamings follow, and then that one |
| OrphanNames.LabelUnique | e2e/support/create-and-delete-project.ts:26-35 | at one position a prefix begins at most one label |
| OrphanNames.LabelIsName | e2e/support/create-and-delete-project.ts:26-35 | wherever a prefix, a space, a number and some renamings stand in a text, and no more of them, that text is a name |
| DeepLink.SanitizedIsSafe | client/app/lib/deep-link.ts:13-20 | whatever is accepted is a path of proper segments, and is accepted again unchanged |
| DeepLink.AcceptedIffPadded | client/app/lib/deep-link.ts:14-20 | a text is accepted as a path exactly when it is that safe path within slashes within white space |
| DeepLink.SafeIsUnchanged | client/app/lib/deep-link.ts:14-20 | exactly the paths of segments of the listed letters, digits and signs, none beginning with a dot, come out as they went in |
| DeepLink.DotFreeIff | client/app/lib/deep-link.ts:75 | removing dot segments by section 5.2.4 of RFC 3986 leaves an absolute path alone exactly when it has none |
| DeepLink.TargetStaysUnderEnvironmentIff | client/app/lib/deep-link.ts:69-79 | the target of an accepted path stays under its environment exactly when the item id has no dot segment |
| DeepLink.DotItemIdLeadsOut | client/app/lib/deep-link.ts:75 | with the item id "..", the target of any accepted path resolves to that path at the root |
| DeepLink.EachCaptureReturnedAtMostOnce | client/app/lib/deep-link.ts:30-43 | over any run a consume returns the capture that still reaches it, and no capture is returned twice |
| DeepLink.CapturedIff | client/app/lib/deep-link.ts:30-35 | a page stores its path exactly when it is the start page, the login page or the console with any slashes behind it, and the query's path is accepted; and then that one |
| DeepLink.Pending.CaptureDeepLink | client/app/lib/deep-link.ts:30-35 | what is stored for every page, path and storage |
| DeepLink.Pending.ConsumeDeepLink | client/app/lib/deep-link.ts:38-43 | the stored path is returned, sanitized, and forgotten |
| DeepLink.UnderIsPrefixOfSegments | client/app/lib/deep-link.ts:63 | the string test is the prefix test on segments |
| DeepLink.RefusedIffHidden | client/app/lib/deep-link.ts:55-79 | a path is refused exactly when it is no route, or a menu that is disabled, blocked or below such a one leads to segments that the path begins with; otherwise the target is the path below the item |
| DeepEqual.Compare | client/app/lib/utils.ts:93-111 | the loop over the keys of one side decides the recursive comparison |
| DeepEqual.OneWayInclusionIsEnough | client/app/lib/utils.ts:101-107 | equal length and one-way inclusion of distinct keys give the same keys |
| DeepEqual.DeepEqualIsStructural | client/app/lib/utils.ts:93-111 | it is equality of structure, with arrays read as objects keyed by index |
| DeepEqual.ErasedObject | client/app/lib/utils.ts:98-108 | the structure of an object: exactly its names, each with the structure of its own value |
| DeepEqual.ErasedArray | client/app/lib/utils.ts:98-108 | the structure of an array: its positions in digits, each with the structure of its own item |
| DeepEqual.DecimalPrints | client/app/lib/utils.ts:98-99 | a position as a key is its number in decimal digits without a leading zero |
| DeepEqual.ArraysEqualIff | client/app/lib/utils.ts:93-111 | two arrays are equal exactly when they are as long and equal item by item |
| DeepEqual.ObjectsEqualIff | client/app/lib/utils.ts:93-111 | two objects are equal exactly when they have as many properties and each of one is in the other with an equal value |
| DeepEqual.DeepEqualIsEquivalence | client/app/lib/utils.ts:93-111 | reflexive, symmetric and transitive |
| Debounce.RunsExactlyAfterQuiet | client/app/lib/utils.ts:61-76 | over any run at most one timer is pending, and the function runs exactly one delay after a call that no call or cancel followed before, with its arguments, at least one unit of time later |
| Debounce.Debounced.Call | client/app/lib/utils.ts:63-66 | a call clears the pending timer and sets a new one |
| Debounce.Debounced.Cancel | client/app/lib/utils.ts:68-73 | a cancel clears the pending timer |

## Left out

- The order of properties in a BSON document: documents are maps, so two documents that differ only in order compare equal here.
- The resolver, its policies and rules, the MongoDB driver and class-map reflection: a mask is any function, rules are any answer, and a class is a set of members with initial values. Members that are not serialized, and fields a class does not declare being dropped on reading, are not modelled.
- `NestInPlace.SetPath`: walks down by recursion where the source reassigns a container in a loop.
- `OsDataAccess`: the filters of edits and deletes, the insert gate, which documents a filter matches, and an access whose list of user ids is null. What a new access holds is a parameter; its class is not part of this model.
- `OsDataAccess.ReadThenReplaceIff`: the policy hides the same columns in the read and in the read of everything before the write.
- `LmtDelivery.Worker.DeliverAgain`: the database fails in the same places at every redelivery.
- `LmtWorker.Worker.StopAsync`: the connection, and the Redis subscription, whose own failures are caught.
- `SetupClient.SetupStreamHook`: an aborted reader receives nothing more, as the platform's abort signal promises; a refetch that never ends or throws is one after which a run takes no further step.
- The Azure Service Bus transport, replacing a closed RabbitMQ connection, and two activity messages handled at the same time.
- The service cache is the set of its keys; its values repeat them.
- What a client that leaves had received of an event cut off in the middle of its write.
- JSON: a pair of functions that read back what they write, on one line. `PayloadJson` is one such pair; it escapes fewer characters than the server's serializer and writes only the fields the page reads. Payloads of another shape than the server sends are not modelled, nor is the decoding of bytes into characters.
- `FrontendSettings.WebRoot.ApplyFrontendRuntimeSettings`: the list of placeholder names is a parameter; every name gives a token with two underscores on each side, as in the source. Files are read and written as whole texts.
- `OrphanNames.CollectOrphanNames`: the order of the names is not stated.
- `DeepLink.Pending.CaptureDeepLink`: reading the query string is a parameter, and nothing else writes the stored key.
- `DeepEqual.DeepEqualIsStructural`: values with NaN, sparse arrays, cyclic objects, and objects such as dates whose content is not in their own keys.
- `Debounce.RunsExactlyAfterQuiet`: timers go off on time, a delay of zero as a delay of one.
- Other controllers, React components, the Playwright flows, the content security policy and hosting are left out: they would add thin wrappers and single branches.
