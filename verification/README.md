# A Dafny model of moq-rs

moq-rs is a Media over QUIC relay, with an MMTP publisher beside it. This project models the parts of
it that hold state and have to keep promises across many steps, and proves those promises:

- **FETCH retention** (`FetchPlan`, `RetentionCache`, `RetainedTrack`, `RetentionBudget`, `RetentionRace`). Each track
  keeps recent groups under a group limit, a byte limit and a byte budget shared by all tracks, and
  answers FETCH ranges from what it keeps.
- **MMTP dispatch** (`PresentationClock`, `Catalog`, `Dispatch`, `DispatchRuns`, `DispatchChains`,
  `DispatchPlaces`, `Publisher`, `Alignment`). The publisher unwraps a 32-bit NTP-short clock, turns time into MoQ groups, assigns
  subgroups by MFU identity, follows fragment chains and aligns repair groups.
- **Namespace registry and its replicas** (`NamespaceRegistry`, `NamespaceHolds`, `NamespaceDrop`,
  `Locals`, `NamespaceReplica`). Local and
  remote owners register and leave, and each subscriber follows the registry through a bounded, lossy
  channel.
- **Connection slots** (`RemoteSlots`). A map lock and one lock per key guard relay-to-relay
  connections against any interleaving of connecting, failing, closing and cancelled tasks.
- **Covering prefixes** (`CoveringPrefixSet`). The minimal set of prefixes to ask upstream for, patched
  on each add and remove.
- **Draft-19 drain** (`Drain`, `DrainRuns`, `DrainObject`). Admission, GOAWAY and a ceiling that late
  arrivals must not move.

Code that changes objects in place is a class whose methods are proved against specification functions
(`Cache` values, `PublishOne`, `After`, `RootsOf`, `Apply`). Code that several tasks run at once is a
step system with an inductive invariant, and the theorems hold for every state of every run.

Where the code and its documentation disagree the model follows the code:

- `retention.rs` says an insert that cannot fit evicts nothing. That holds of the check made first, and
  of an insert that passed it as long as the other tracks do not come to hold more meanwhile
  (`NoGrowthNoLoss`). `KeptExactlyWhenItFitted` says exactly when such an insert keeps its Object and
  what it loses otherwise; `InterferenceCanLoseAGroup` is a run where that happens.
- `publish.rs` documents that the first packet of a new MPU is its metadata or an error, and that
  subgroups are always opened as 0. The code accepts an MFU first and opens subgroup 1 for it
  (`MfuFirstIsAccepted`), and so for the first packet of any new MPU (`NewMpuMayStartWithMfu`).
  `MetadataFirstExactly` gives the condition, told before each call, under which every group does start
  with its metadata: it rests with the packets, not with dispatch.
- A fragment chain is registered before its first fragment is written. A first fragment that the
  transport fails, in opening its subgroup or in writing to it, leaves its chain behind, and the next
  fragment is written without it (`RefusedStartStillHasContinuation`). `ContinuationAndItsFirst` shows
  that such a failure is the only way a written continuation is apart from its first fragment. It also
  takes a caller that goes on after an error: the publisher's own loop ends at the first one
  (moq-pub-mmtp/src/main.rs:265), and in a run without errors every chain lies whole in one subgroup
  (`WholeChainInOneSubgroup`).
- The registry sends a change's notification after it has given up its lock
  (moq-relay-ietf/src/local.rs:299-314, 588-596), so two tasks may send in another order than they
  changed. Under any proper scope a removal sent after a later registration can leave the peer without
  a registered namespace and nothing more to come (`LateSendMisleads`). `QuiescentAgreesExactly` gives the exact condition
  for any order of sends; while each namespace's notifications are sent in the order of its changes the
  replica follows through every loss and resync (`RunFollows`), which a send made under the lock would
  ensure (`SendUnderLockFollows`).
- Even then a subscriber whose scope is the empty string fails: it shares the unscoped bucket in its
  snapshot but ignores every later change. With sends in order it is the only scope that fails
  (`ConvergesExactlyForProperScopes`).
- A local registration's drop upgrades the entry's weak reference under the lock. If every other handle
  goes before it is done, the source's own drop starts there and waits for the lock its task holds
  (`DropUnderLock`, `DropCanBeLast`).
- `relay.rs` says the drain cannot be finished while an admission is alive. The tracker's wait is a
  latch (tokio-util documents it as immune to the tracker becoming non-empty again), so Drained can be
  reported with a session admitted after the empty instant still open
  (`DrainedCanLeaveASessionOpen`); `DrainedExactly` says which sessions those are. And `admit` reads
  the signal before it takes its broadcast token, so a call of `finished` between the two can miss that
  session
  (`MidJoinCanOutliveTheCeiling`, with `CeilingWaitsForAllBeforeTheSignal` for the converse). That takes
  a caller with the accept loop and `finished` on two threads: the relay's own binary polls both in one
  task (moq-relay-ietf/src/bin/moq-relay-ietf/main.rs:430-433).

## Model

| member | source | states |
|---|---|---|
| `FetchPlanning.ScanGroup` | moq-relay-ietf/src/retention.rs:470-502 | one group is scanned to the first Object not retained or to its end, keeping an exact listing in response order and one lookup per Object plus at most one |
| `FetchPlanning.ScanRange` | moq-relay-ietf/src/retention.rs:455-503 | all groups of the range in either order: the longest retained prefix and the first Location after it |
| `FetchPlanning.Plan` | moq-relay-ietf/src/retention.rs:419-509 | the plan answers the range exactly (kind, Objects, first unknown, true last Location, End Location) and takes at most one lookup more than there are retained Objects, however long the range |
| `FetchPlanning.CompleteExactlyWhenRetained` | moq-relay-ietf/src/retention.rs:433-509 | Complete if and only if every Location from start to the lesser of the inclusive end and Largest is retained |
| `FetchPlanning.RequestedExactly` | moq-relay-ietf/src/retention.rs:513-518 | a Location is requested if and only if it is not before the start and, for an End Location with Object 0, in a group up to the end's, otherwise before the end |
| `FetchPlanning.AnswerInPlainNumbers` | moq-relay-ietf/src/retention.rs:419-509 | every Object of an answer is a retained one within start, end and Largest, compared number by number; groups in the order wanted, Objects ascending; the End Location is one past Largest or the one asked for |
| `FetchPlanning.AnswerIsWhole` | moq-relay-ietf/src/retention.rs:455-509 | a Complete answer has every Location asked for, a Partial one exactly those before its first unknown, which was asked for and is not retained |
| `FetchPlanning.NoRangeExactly` | moq-relay-ietf/src/retention.rs:420-428 | NothingPublished exactly without a Largest Location, BeyondLargest exactly when the start is past it |
| `FetchPlanning.AnswerIsUnique` | moq-relay-ietf/src/retention.rs:419-509 | the specification of an answer leaves no choice: two answers to one request are equal, End Location included |
| `FetchPlanning.ListingIsUnique` | moq-relay-ietf/src/retention.rs:469-503 | there is one listing of a range in response order |
| `FetchPlanning.SpliceIsExact` | moq-relay-ietf/src/producer.rs:245-265 | the retained prefix and the upstream request cover the original request with no gap and no repeat, in order, and the upstream request is not empty; the whole retained prefix is used exactly for ascending order and a non-empty one |
| `RetainedTracks.Limits.Reserve` | moq-relay-ietf/src/retention.rs:70-77 | bytes are taken exactly when they fit the total, else the counter stays |
| `RetainedTracks.Limits.Release` | moq-relay-ietf/src/retention.rs:79-82 | exactly the given bytes return to the budget |
| `RetainedTracks.RetainedTrack.EvictOldest` | moq-relay-ietf/src/retention.rs:242-250 | the least recently arrived group goes, its bytes leave the track and the budget, all counters stay in agreement |
| `RetainedTracks.RetainedTrack.ReserveRoom` | moq-relay-ietf/src/retention.rs:355-377 | older groups go one at a time until the bytes fit and are reserved, and the last of them was necessary; the exit for a budget taken by another track is never reached without one |
| `RetainedTracks.RetainedTrack.TrimGroups` | moq-relay-ietf/src/retention.rs:387-393 | oldest groups beyond the window go, and the total dropped is the least that meets all three limits |
| `RetainedTracks.RetainedTrack.Insert` | moq-relay-ietf/src/retention.rs:301-393 | all or nothing: a duplicate or an Object that cannot fit changes nothing; otherwise that very Object is kept at its Location, every other retained Object is one that was there, and the survivors are the arrival order minus the shortest run of oldest groups, never its own |
| `RetainedGroups.RoomExactlyWhenOlderSuffice` | moq-relay-ietf/src/retention.rs:317-354 | room can be made at all if and only if dropping every older group leaves both byte limits met |
| `RetainedGroups.FirstCheckDecides` | moq-relay-ietf/src/retention.rs:317-354 | the check made before any eviction is that condition, computed from the counters |
| `RetainedGroups.InsertedWithinPolicy` | moq-relay-ietf/src/retention.rs:355-393 | what an insert leaves is within every limit with all counters exact |
| `RetainedGroups.DropAfterAdd` | moq-relay-ietf/src/retention.rs:379-393 | evicting older groups after storing equals storing after evicting them |
| `RetainedGroups.InsertStores` | moq-relay-ietf/src/retention.rs:379-393 | storing after evictions puts the Object in as it is at a free Location, keeps the rest of its group and every other remaining group whole, and brings in nothing else |
| `RetainedTracks.RetainedTrack.LargestLocation` | moq-relay-ietf/src/retention.rs:397-415 | the greatest of the live Largest Location and all retained Locations, if any |
| `RetainedTracks.RetainedTrack.PlanFetch` | moq-relay-ietf/src/retention.rs:397-509 | a FETCH is answered exactly, against that Largest Location, with work bounded by the cache |
| `RetainedTracks.RetainedTrack.Free` | moq-relay-ietf/src/retention.rs:210-217 | a dropped track gives back exactly its bytes |
| `RetentionBudget.TrackStepSafe` | moq-relay-ietf/src/retention.rs:301-393 | each atomic step of a track keeps its limits and moves the shared counter by exactly the change in what the track answers for |
| `RetentionBudget.NextSafe` | moq-relay-ietf/src/retention.rs:68-82 | every step of every track, opening and dropping included, keeps the counter equal to the sum of all tracks' bytes, reservations and pending releases, and within the total |
| `RetentionBudget.RunConserves` | moq-relay-ietf/src/retention.rs:68-393 | the same in every state of every interleaving of any number of tracks |
| `RetentionBudget.ReleaseNeverWraps` | moq-relay-ietf/src/retention.rs:79-82 | no release and no track drop ever wraps the counter below zero |
| `RetentionBudget.IdleCounterIsRetainedBytes` | moq-relay-ietf/src/retention.rs:220-239 | with every track idle the counter is exactly the retained bytes and every track is within its policy |
| `RetentionRace.FitsExactly` | moq-relay-ietf/src/retention.rs:355-362 | an attempt to reserve succeeds if and only if the Object fits the track and, beside the charges of all other tracks, the total |
| `RetentionRace.LastRefusalNeedsGrowth` | moq-relay-ietf/src/retention.rs:363-374 | refused after a passed check with every older group gone: the other tracks hold more than at the check |
| `RetentionRace.KeptExactlyWhenItFitted` | moq-relay-ietf/src/retention.rs:317-393 | in every interleaving an insert that passed its check keeps its Object if and only if it fitted at one of its attempts; otherwise exactly its older groups are gone and the other tracks' charges have grown since the check |
| `RetentionRace.NoGrowthNoLoss` | moq-relay-ietf/src/retention.rs:363-374 | while the other tracks together never hold more than at the check, an insert that passed it keeps its Object |
| `RetentionRace.FirstCheckExactly` | moq-relay-ietf/src/retention.rs:317-354 | the first check of the step system passes if and only if dropping every older group would make the bytes fit |
| `RetentionRace.RetainedWasInserted` | moq-relay-ietf/src/retention.rs:301-393 | in every interleaving each Object a track retains is one whose insert into that track began earlier, unchanged and at its own Location |
| `RetentionRace.InterferenceCanLoseAGroup` | moq-relay-ietf/src/retention.rs:355-377 | a run in which another track takes the budget after the check, and an older group is lost for an Object that is not kept |
| `PresentationClock.UnwrapInWindow` | moq-pub-mmtp/src/publish.rs:162-173 | the nearest-era choice is the one value congruent to the timestamp in the half-open window around the highest time |
| `PresentationClock.UnwrapExact` | moq-pub-mmtp/src/publish.rs:154-173 | one timestamp is unwrapped to its true time if and only if that time is in the window |
| `PresentationClock.RunExactlyWhenTrackable` | moq-pub-mmtp/src/publish.rs:154-177 | over a run of any length and any number of wraps, all times are true if and only if each is in the window of the highest before it |
| `PresentationClock.HighestIsGreatest` | moq-pub-mmtp/src/publish.rs:174-177 | the reference time is the greatest of the times so far |
| `PresentationClock.UnwrapFitsI64` | moq-pub-mmtp/src/publish.rs:161-170 | the three candidates fit 64-bit integers while the highest time does by two eras |
| `PresentationClock.PresentationTicksExact` | moq-pub-mmtp/src/publish.rs:178-182 | the cast to 64 bits is exact if and only if the rescaled time fits |
| `PresentationClock.AsI64Wraps` | moq-pub-mmtp/src/publish.rs:178-182 | otherwise the cast keeps the value modulo 2^64 |
| `PresentationClock.NestedFloor` | moq-pub-mmtp/src/publish.rs:178-186 | dividing twice with floors is dividing once by the product |
| `PresentationClock.GroupNumberIsFloor` | moq-pub-mmtp/src/publish.rs:43-49 | while the time fits, the group number is one exact division of elapsed time by group duration |
| `PresentationClock.GroupNumberMonotone` | moq-pub-mmtp/src/publish.rs:178-186 | group numbers never go back while true time does not |
| `PresentationClock.EqualDurationsAlign` | moq-pub-mmtp/src/publish.rs:178-186 | durations equal as fractions give one time one group number, whatever the timescales |
| `Catalog.ValidateMmtpTrack` | moq-catalog/src/lib.rs:389-457 | Ok if and only if timescale and duration are present, positive and exact in ticks and the FEC parameters are usable; an error names the track and a fault it has |
| `Catalog.ValidateSwitchingSets` | moq-catalog/src/lib.rs:553-587 | Ok if and only if all pairs of MMTP tracks of each altGroup have equal durations, though each is compared with the first only; an error names two that differ |
| `Catalog.SameDurationTransitive` | moq-catalog/src/lib.rs:570-583 | cross-multiplied equality is transitive over usable tracks |
| `Catalog.Validate` | moq-catalog/src/lib.rs:340-387 | Ok if and only if the root fields are right, every track is usable, the sets agree and the checks taken as inputs pass; an error points at something wrong with the catalog; the sets are compared only after every track's timing is known to be usable |
| `Catalog.AcceptedTracksAlign` | moq-catalog/src/lib.rs:553-587 | in an accepted catalog any two MMTP tracks of a set give one elapsed time one group number |
| `Catalog.AcceptedTrackIsUsable` | moq-pub-mmtp/src/main.rs:501-528 | an accepted MMTP track has a positive timescale, the given ticks as its duration or else exactly the given milliseconds in ticks, and usable FEC parameters |
| `Catalog.RepairDepthIsLeast` | moq-pub-mmtp/src/main.rs:529-538 | the repair depth is at least 1, fits 64 bits, covers the interleave depth, and no smaller positive count does |
| `Catalog.CeilDivIsLeast` | moq-pub-mmtp/src/main.rs:601-604 | the rounded-up quotient is the least count whose product reaches the numerator |
| `Publishing.TrackState.FormulaGroupId` | moq-pub-mmtp/src/publish.rs:154-187 | sets the shared epoch once, advances only this track's highest time, and gives the group of the unwrapped time |
| `Publishing.TrackState.AdvanceToGroup` | moq-pub-mmtp/src/publish.rs:189-197 | a new group starts with empty tables, and subgroups, repair groups and chains stay in order |
| `Publishing.TrackState.FollowChain` | moq-pub-mmtp/src/publish.rs:316-369 | an MFU fragment is taken exactly when it is whole with an identity or fits the history of its group's fragments, and gets the identity that history gives it; a refused one changes nothing |
| `Publishing.TrackState.PutPacket` | moq-pub-mmtp/src/publish.rs:300-391 | a written packet is the last event of the track, in subgroup 0 or in the subgroup of its identity or chain; otherwise no payload is added, and a packet refused for its headers changes nothing |
| `Publishing.TrackState.DispatchMpuPacket` | moq-pub-mmtp/src/publish.rs:237-391 | header checks, clock, stale drop and group change in the source's order; the payload is added once if written and not otherwise; all invariants of the track are kept |
| `Publishing.TrackState.DispatchRepairPacket` | moq-pub-mmtp/src/publish.rs:394-427 | a written repair packet is the last event of the repair track, in the current source group over the depth; a failed one adds no payload; the source track is untouched |
| `Publishing.Publisher.Dispatch` | moq-pub-mmtp/src/publish.rs:224-438 | one packet changes its own track state as specified, no other one, and sets the shared epoch only if it reaches the clock |
| `Publishing.WrittenExactly` | moq-pub-mmtp/src/publish.rs:281-391 | a media packet with good headers is written if and only if it is not of an earlier group, is metadata or an MFU with its place in the history, and the transport carries it into a subgroup that is open or can be opened |
| `Publishing.FailureTellsWhy` | moq-pub-mmtp/src/publish.rs:224-427 | every error of a dispatch is true of the packet, the track and the history |
| `DispatchRuns.StepKeepsSource` | moq-pub-mmtp/src/publish.rs:191-383 | any packet, accepted or not, and any transport failure keeps the subgroup tables equal to what is open in the current group |
| `DispatchRuns.RunKeepsSource` | moq-pub-mmtp/src/publish.rs:191-383 | over every run opened group ids never decrease, no subgroup is opened twice, subgroup 0 holds only Init, MFU subgroups open as 1, 2, 3, ... and the counter is one more than those open |
| `DispatchRuns.RunKeepsRepair` | moq-pub-mmtp/src/publish.rs:394-427 | over every run the repair track's opened group ids strictly increase and never pass the source group over the depth |
| `DispatchRuns.RepairLandsInItsGroup` | moq-pub-mmtp/src/publish.rs:406-427 | a written repair object is in group floor(source group / depth) |
| `DispatchRuns.MediaWrittenOnce` | moq-pub-mmtp/src/publish.rs:237-391 | a media packet is written exactly once when accepted and not at all when stale or refused |
| `DispatchRuns.RepairWrittenOnce` | moq-pub-mmtp/src/publish.rs:394-427 | the same for repair packets, the source track untouched |
| `DispatchRuns.RunWritesAcceptedOnce` | moq-pub-mmtp/src/publish.rs:224-438 | over every run the source track carries the accepted media packets, each once, in order |
| `DispatchRuns.TurnedAwayExactly` | moq-pub-mmtp/src/publish.rs:238-279 | over every run a media packet is turned away for its headers, with the whole track unchanged, if and only if it lacks its sequence number or fragment type, is aggregated, or its sequence number is below that of a media packet heard before |
| `DispatchRuns.RunKeepsSequences` | moq-pub-mmtp/src/publish.rs:15-19 | over every run the MPU sequence numbers of the packets on a track never decrease, and no aggregated packet or movie fragment is among them |
| `DispatchRuns.StaleExactly` | moq-pub-mmtp/src/publish.rs:281-292 | over every run a packet is dropped as stale if and only if its headers are good and a packet heard before was of a later group |
| `DispatchRuns.RepairWrittenExactly` | moq-pub-mmtp/src/publish.rs:394-427 | a repair packet is written if and only if there is a source group and a repair track and the transport carries it |
| `DispatchChains.StepKeepsChains` | moq-pub-mmtp/src/publish.rs:316-369 | the table of active chains equals a scan of the admitted fragments, kept by every packet |
| `DispatchChains.RunFollowsChains` | moq-pub-mmtp/src/publish.rs:316-369 | the same over every run, and every admitted fragment continues its chain |
| `DispatchChains.ChainHasStart` | moq-pub-mmtp/src/publish.rs:336-369 | an open chain has the identity of the latest first fragment not yet ended, and counts on from it modulo 256 |
| `DispatchChains.StartKeepsChain` | moq-pub-mmtp/src/publish.rs:319-369 | conversely a first fragment that nothing ended is an open chain |
| `DispatchChains.ContinuationJoinsItsChain` | moq-pub-mmtp/src/publish.rs:336-383 | a written continuation belongs to the latest first fragment in the history not yet ended, has the next counter modulo 256, and is written to the subgroup the table holds for that identity |
| `DispatchChains.MfuLandsInItsSubgroup` | moq-pub-mmtp/src/publish.rs:370-383 | a fragment that carries its identity is written to that identity's subgroup |
| `DispatchChains.RunKeepsSubgroups` | moq-pub-mmtp/src/publish.rs:370-383 | while the group stays, the table keeps an identity's subgroup through any run |
| `DispatchChains.RunKeepsChainsOpened` | moq-pub-mmtp/src/publish.rs:319-383 | while the transport opens every subgroup asked for, the identity of every open chain has an open subgroup |
| `DispatchChains.RefusedStartStillHasContinuation` | moq-pub-mmtp/src/publish.rs:319-383 | whenever the transport fails a first fragment, in opening or in writing, the next fragment, if dispatched, is written and its first is not on the track |
| `DispatchPlaces.OpenChainFirst` | moq-pub-mmtp/src/publish.rs:319-369 | over every run of a fresh track each open chain was started by one input, of its group and timestamp, that nothing has ended since |
| `DispatchPlaces.ContinuationAndItsFirst` | moq-pub-mmtp/src/publish.rs:316-383 | over every run a written continuation has one such first fragment among the inputs; the two are in the same (group, subgroup) if and only if the first was written, and if it was not the transport had failed it |
| `DispatchPlaces.WholeChainInOneSubgroup` | moq-pub-mmtp/src/publish.rs:316-383 | in a run with no failure every fragment of a chain is in one subgroup |
| `DispatchPlaces.MfuFirstIsAccepted` | moq-pub-mmtp/src/publish.rs:366-383 | on a fresh track any whole MFU as the first packet is written, into subgroup 1, with no metadata subgroup |
| `DispatchPlaces.OpeningTellsKind` | moq-pub-mmtp/src/publish.rs:304-383 | a packet that opens a group opens subgroup 0 exactly when it is metadata, and subgroup 1 otherwise |
| `DispatchPlaces.NewMpuMayStartWithMfu` | moq-pub-mmtp/src/publish.rs:11-14 | on any track in any state a whole MFU as the first packet of a new MPU is written, whether or not that MPU's metadata was seen |
| `DispatchPlaces.WillOpenGroupExactly` | moq-pub-mmtp/src/publish.rs:237-383 | a packet is the first to open anything in its group if and only if, before the call, it passes the header checks, is not stale, its group has no event, the transport opens subgroups and it is metadata or an MFU with a place |
| `DispatchPlaces.MetadataFirstExactly` | moq-pub-mmtp/src/publish.rs:11-14 | over every run of a fresh track each group starts with subgroup 0 if and only if each input of which that can be told before its call is metadata |
| `Alignment.BuildTrackTiming` | moq-pub-mmtp/src/main.rs:501-538 | tracks built from the catalog start fresh, in the invariants, with the catalog's timing and priorities, and a depth of 1 or the least positive count of groups covering the interleave depth |
| `Alignment.RunClock` | moq-pub-mmtp/src/publish.rs:154-177 | after any run the track's clock is the highest of the times unwrapped from the packets that reached it |
| `Alignment.PlacedByTrueTime` | moq-pub-mmtp/src/publish.rs:154-187 | after any trackable run a packet in the window is placed by its true time |
| `Alignment.SwitchingSetAligns` | moq-pub-mmtp/src/publish.rs:154-187 | two tracks of one switching set of an accepted catalog, after different trackable runs under one epoch, put the same true time in the same group |
| `Alignment.EachTrackRunsAlone` | moq-pub-mmtp/src/publish.rs:224-438 | however the packets of all tracks interleave, each track ends as if it had run alone on its own packets under the one epoch the publisher settled on |
| `Alignment.EpochIsSetOnce` | moq-pub-mmtp/src/publish.rs:155-160 | the shared epoch, once set, never changes |
| `Alignment.EpochIsFirstClocked` | moq-pub-mmtp/src/publish.rs:155-160 | the epoch after any arrivals is the timestamp of the first to reach a clock, and unset exactly if none did |
| `Alignment.PublisherAligns` | moq-pub-mmtp/src/publish.rs:154-187 | a publisher of an accepted catalog, after any interleaving of packets, would put the same true time in the same group on any two tracks of a switching set whose packets were trackable |
| `Alignment.WrittenByTrueTime` | moq-pub-mmtp/src/publish.rs:224-391 | a media packet written in any interleaving is the last event of its track, in the group of its true time |
| `Alignment.WrittenTogether` | moq-pub-mmtp/src/publish.rs:224-391 | two media packets of the same true time written on tracks of one switching set have `Wrote` events of the same group |
| `NamespaceSpec.ActionIsItsNotification` | moq-relay-ietf/src/local.rs:262-380 | an action gives rise to at most one notification, and that is its whole effect on the registered keys |
| `NamespaceSpec.ActionKeepsOwnership` | moq-relay-ietf/src/local.rs:262-636 | every action keeps owners and entries naming each other |
| `NamespaceSpec.ActionKeepsLog` | moq-relay-ietf/src/local.rs:262-380 | the notifications due, taken in the order of the changes, lead to exactly the registered keys |
| `NamespaceSpec.RunKeepsRegistry` | moq-relay-ietf/src/local.rs:262-636 | ownership and that record of changes hold in every state of every run from the empty registry |
| `NamespaceSpec.OwnersAndEntries` | moq-relay-ietf/src/local.rs:563-636 | a live owner implies the entry, an entry implies an owner or a pending drop, and with no drop pending presence is exactly live ownership |
| `NamespaceSpec.RunOwnership` | moq-relay-ietf/src/local.rs:262-636 | the same at every point of every interleaving of registrations, releases and late drops, and the changes so far tell the same |
| `NamespaceSpec.OwnersAreUnique` | moq-relay-ietf/src/local.rs:262-380 | one live local registration and one live remote source per key |
| `NamespaceSpec.StaleDropSparesNewOwner` | moq-relay-ietf/src/local.rs:604-636 | a source's late drop removes nothing a newer owner has, and touches no other key |
| `NamespaceHolds.HandlesAreHolds` | moq-relay-ietf/src/local.rs:328-380 | over every run a source's handle count is the remote registrations that were given it less the releases of it |
| `NamespaceHolds.RegisteredWhileHeld` | moq-relay-ietf/src/local.rs:352-380 | a namespace stays registered, under the same source, while some remote registration given that source has not been released |
| `NamespaceHolds.LocalsAreHeld` | moq-relay-ietf/src/local.rs:262-317 | over every run the live local registrations are exactly those handed out and not dropped, each with the key it was asked for |
| `NamespaceHolds.RegisterExactly` | moq-relay-ietf/src/local.rs:262-380 | a registration is announced exactly when the namespace was not registered; a second local one changes nothing and a shared remote one no entry |
| `NamespaceHolds.DropLocalExactly` | moq-relay-ietf/src/local.rs:563-597 | after a local drop the namespace is registered, and not announced as gone, exactly if a remote source is held |
| `NamespaceHolds.FinishDropExactly` | moq-relay-ietf/src/local.rs:604-636 | after a late source drop the namespace is registered exactly if a local route is there or the entry names another source |
| `LocalRegistry.Locals.RegisterNamespace` | moq-relay-ietf/src/local.rs:262-317 | the registry becomes the specified one; refused exactly when a local route exists |
| `LocalRegistry.Locals.RegisterRemoteNamespace` | moq-relay-ietf/src/local.rs:328-380 | a live source is shared, else a new one is recorded; announced only when the entry is new |
| `LocalRegistry.Locals.DropLocalRegistration` | moq-relay-ietf/src/local.rs:563-602 | the route goes, and the entry with it unless a remote source is alive |
| `NamespaceDrop.DropUnderLock` | moq-relay-ietf/src/local.rs:574-590 | with the upgraded reference counted as a handle, a local drop during which others release handles ends as the one-step drop followed by the releases; its handle is the last one, under the lock, if and only if every handle there was at the upgrade has been released |
| `NamespaceDrop.DropCanBeLast` | moq-relay-ietf/src/local.rs:574-590 | that can happen to every local drop that finds a remote source alive |
| `LocalRegistry.Locals.DropRemoteSource` | moq-relay-ietf/src/local.rs:604-636 | the entry is cleared only where it still points at this source |
| `LocalRegistry.Locals.ListNamespacesMatching` | moq-relay-ietf/src/local.rs:156-173 | exactly the registered namespaces of the scope under the prefix, whatever the visiting order |
| `LocalRegistry.Locals.RouteNamespace` | moq-relay-ietf/src/local.rs:457-488 | the local route of the longest non-empty registered prefix, and None exactly when there is none |
| `LocalRegistry.BestRouteIsUnique` | moq-relay-ietf/src/local.rs:457-488 | that route does not depend on the order the entries are visited in |
| `LocalRegistry.RemoteOnlyNeverRoutes` | moq-relay-ietf/src/local.rs:457-488 | remote-only entries make no difference to routing |
| `NamespaceHolds.RouteIsLongestOwner` | moq-relay-ietf/src/local.rs:457-488 | the route is a live local registration of that scope whose non-empty namespace matches field by field, none matching is longer, and there is a route whenever one matches |
| `NamespaceSubscriber.Subscriber.SendSnapshot` | moq-relay-ietf/src/producer.rs:540-555 | every listed namespace becomes known, and no message repeats what the peer knows |
| `NamespaceSubscriber.Subscriber.ApplyChange` | moq-relay-ietf/src/producer.rs:557-583 | a change of the same scope under the prefix is applied and told once |
| `NamespaceSubscriber.Subscriber.Resync` | moq-relay-ietf/src/producer.rs:585-606 | the peer is told exactly the differences and the known set becomes the current one |
| `NamespaceReplica.SuffixReplayIsIdle` | moq-relay-ietf/src/producer.rs:495-606 | replaying any tail of the log on the current set returns the current set |
| `NamespaceReplica.ReplayKnownIsNewest` | moq-relay-ietf/src/producer.rs:557-583 | under a proper scope, what a subscriber makes of any notifications is what the newest one about each selected namespace says |
| `NamespaceReplica.OvertakingOthers` | moq-relay-ietf/src/local.rs:299-314 | a notification sent ahead of others, none about its namespace, changes no namespace's newest |
| `NamespaceReplica.SnapshotFollows` | moq-relay-ietf/src/producer.rs:540-606 | a snapshot or resync taken with anything still queued or unsent is in step with it |
| `NamespaceReplica.NextKeeps` | moq-relay-ietf/src/producer.rs:433-606 | registry changes, sends in order, snapshot, delivery, loss and resync all keep the replica following |
| `NamespaceReplica.RunFollows` | moq-relay-ietf/src/producer.rs:433-606 | over every run that sends each namespace's notifications in the order of its changes, the peer's view equals the known set and, once ready, what is queued and then what is unsent leads to the registry's namespaces |
| `NamespaceReplica.QueueLeadsToRegistry` | moq-relay-ietf/src/producer.rs:495-538 | in such a run, unless a lag is pending, applying what is queued and then what is unsent gives exactly the registry's matching namespaces |
| `NamespaceReplica.SendUnderLockFollows` | moq-relay-ietf/src/local.rs:299-314 | if each change were followed at once by its send, the queue alone would give them whenever nothing is unsent |
| `NamespaceReplica.RunRemembers` | moq-relay-ietf/src/producer.rs:433-606 | over every run, in whatever order the sends come, what is known of a namespace is what the newest notification received since the last listing says, or that listing |
| `NamespaceReplica.QuiescentAgreesExactly` | moq-relay-ietf/src/local.rs:299-314 | over every run, with nothing left to send or receive the peer sees exactly the registered namespaces if and only if, for each sent about since the last listing, the notification sent last says what the last change was |
| `NamespaceReplica.LateSendMisleads` | moq-relay-ietf/src/local.rs:563-602 | for every proper scope a run in which a removal sent after a later registration leaves the peer without a registered namespace, with nothing left to send or receive |
| `NamespaceReplica.ConvergesExactlyForProperScopes` | moq-relay-ietf/src/local.rs:638-644 | with sends in order every run converges if and only if the scope is not the empty string |
| `RemoteSlots.GetStepKeeps` | moq-relay-ietf/src/remote.rs:597-666 | every step of `get_or_connect` keeps the slot invariant |
| `RemoteSlots.ClearStepKeeps` | moq-relay-ietf/src/remote.rs:668-688 | so does every step of clearing a slot, by a caller or by the session's end |
| `RemoteSlots.RemoveStepKeeps` | moq-relay-ietf/src/remote.rs:707-721 | so does every step of removing an empty slot from the map |
| `RemoteSlots.ArriveStepKeeps` | moq-relay-ietf/src/remote.rs:810-844 | so do new calls and ending sessions |
| `RemoteSlots.RunKeeps` | moq-relay-ietf/src/remote.rs:597-844 | in every interleaving of any number of tasks an occupied slot, and one whose holder passed the currency check, is the slot the map holds for its key |
| `RemoteSlots.OneConnectionPerKey` | moq-relay-ietf/src/remote.rs:597-666 | in every interleaving at most one connection is cached and at most one connect is under way per key, and nothing is cached while one is |
| `RemoteSlots.LiveConnectionClearedOnlyByItsOwn` | moq-relay-ietf/src/remote.rs:668-844 | a cached live connection leaves its slot only by a task sent to clear that very connection |
| `RemoteSlots.RunSparesLiveConnections` | moq-relay-ietf/src/remote.rs:668-844 | the same at every step of every interleaving |
| `RemoteSlots.DeadConnectionsAreCleared` | moq-relay-ietf/src/remote.rs:810-844 | in every interleaving a cached connection that is down has an unfinished cleanup task on that very slot |
| `RemoteSlots.RunAnswers` | moq-relay-ietf/src/remote.rs:615-688 | at every step of every interleaving a call turns to return only with a connection in its slot that is connected then or that it has just dialled, dials only if none is connected, keeps what it dialled, and clears the connection it gives up |
| `RemoteSlots.EmptySlotsGo` | moq-relay-ietf/src/remote.rs:652-721 | in every interleaving without cancelled calls each empty slot in the map has a task that fills it or sees it removed, so at rest the map holds connections only |
| `RemoteSlots.SomeTaskCanRun` | moq-relay-ietf/src/remote.rs:605-666 | the two lock levels never deadlock: while a task is unfinished some task waits for nothing that is held |
| `RemoteSlots.RunnableHasStep` | moq-relay-ietf/src/remote.rs:597-844 | and such a task has a step to take |
| `CoveringPrefixSet.CoversIsPrefix` | moq-relay-ietf/src/covering_prefix_set.rs:76-82 | covering is the prefix order on field tuples, and overlapping is being ordered by it |
| `CoveringPrefixSet.RootsNeverOverlap` | moq-relay-ietf/src/covering_prefix_set.rs:22-74 | distinct roots never overlap |
| `CoveringPrefixSet.RootsCoverWhatActiveCovers` | moq-relay-ietf/src/covering_prefix_set.rs:22-74 | the roots cover exactly what the active prefixes cover |
| `CoveringPrefixSet.RootsAreTheOnlyCover` | moq-relay-ietf/src/covering_prefix_set.rs:22-74 | no other non-overlapping choice of active prefixes covers them all |
| `CoveringPrefixSet.UncoveredAddPatchesRoots` | moq-relay-ietf/src/covering_prefix_set.rs:31-43 | adding an uncovered prefix replaces exactly the roots under it |
| `CoveringPrefixSet.RootRemovePatchesRoots` | moq-relay-ietf/src/covering_prefix_set.rs:46-73 | removing a root exposes exactly the minimal prefixes that were under it |
| `CoveringPrefixSet.CoveringPrefixes.Add` | moq-relay-ietf/src/covering_prefix_set.rs:22-44 | the patched roots equal the definition from scratch and the delta is their exact difference |
| `CoveringPrefixSet.CoveringPrefixes.Remove` | moq-relay-ietf/src/covering_prefix_set.rs:46-73 | the same for removal, absent and covered prefixes included |
| `CoveringPrefixSet.PatchAddIsExact` | moq-relay-ietf/src/covering_prefix_set.rs:22-44 | the patch an add computes from the roots alone gives the roots defined from scratch, and its delta is their exact difference |
| `CoveringPrefixSet.PatchRemoveIsExact` | moq-relay-ietf/src/covering_prefix_set.rs:46-73 | the same for the patch a remove computes |
| `CoveringPrefixSet.AddThenRemoveMirrors` | moq-relay-ietf/src/covering_prefix_set.rs:22-73 | after adding a new prefix and removing it, the second computed patch undoes the first and reports its mirror image |
| `CoveringPrefixSet.PatchesFollowTheDefinition` | moq-relay-ietf/src/covering_prefix_set.rs:22-73 | after any history of computed patches the roots, and the set of a listener who follows only the deltas, are the roots defined from scratch over exactly the prefixes last added |
| `DrainSpec.RunKeeps` | moq-relay-ietf/src/relay.rs:160-231 | in every run the GOAWAY clock is the latest GOAWAY of a session admitted before the signal, each wait has latched whenever its tracker is empty, and a deadline lies between the call and the latest GOAWAY, each plus the timeout |
| `DrainRuns.RunTells` | moq-relay-ietf/src/relay.rs:160-231 | in every run the signal, the time, who belongs to the broadcast, who has ended and each GOAWAY time are exactly what the steps say |
| `DrainRuns.CeilingIsLate` | moq-relay-ietf/src/relay.rs:184-206 | Ceiling comes only with a nonzero timeout, after it has run out since the call and since every broadcast GOAWAY, with every broadcast session ended |
| `DrainRuns.CeilingWaitsForAllBeforeTheSignal` | moq-relay-ietf/src/relay.rs:160-206 | if no admission was halfway in at the call, every session that saw no signal has ended, and the deadline is exactly max(last GOAWAY, call) + timeout |
| `DrainRuns.MidJoinCanOutliveTheCeiling` | moq-relay-ietf/src/relay.rs:160-166 | that condition is needed: from any call with an admission halfway in, some continuation reports Ceiling with that session open |
| `DrainRuns.DrainedEndsAllBeforeTheCall` | moq-relay-ietf/src/relay.rs:184-206 | Drained comes only after every session admitted before the call has ended |
| `DrainRuns.LatchedMeansWasEmpty` | moq-relay-ietf/src/relay.rs:203-204 | the wait for sessions completes only if at some instant since the call none was open |
| `DrainRuns.OpenOnesAreNew` | moq-relay-ietf/src/relay.rs:160-206 | from an instant with no open session, a session is there later exactly if it was there or was admitted since, and ended exactly if it was there or has left since |
| `DrainRuns.DrainedExactly` | moq-relay-ietf/src/relay.rs:184-206 | at Drained there was an instant since the call with no session open; the sessions open are exactly those admitted after it and not ended; the report is clean if and only if there is none |
| `DrainRuns.DrainedWithoutArrivalsIsEmpty` | moq-relay-ietf/src/relay.rs:184-206 | in particular, with no admission after the call, Drained comes only with no session open |
| `DrainRuns.DrainedCanLeaveASessionOpen` | moq-relay-ietf/src/relay.rs:203-204 | any session admitted between the empty instant and the report is still open at Drained |
| `DrainRuns.ZeroTimeoutHasNoCeiling` | moq-relay-ietf/src/relay.rs:189-193 | with a zero timeout no deadline is ever set and Ceiling is never reported |
| `DrainRuns.ArrivalsCannotMoveTheCeiling` | moq-relay-ietf/src/relay.rs:184-206 | leaving every step of the late sessions out of any run leaves a run with the same clock, deadline and report |
| `DrainRuns.CeilingIsReached` | moq-relay-ietf/src/relay.rs:188-200 | once the broadcast has ended the drain can be over at the deadline however many sessions are open |
| `DrainRuns.DeadlineIsFinal` | moq-relay-ietf/src/relay.rs:194-200 | nothing later moves a set deadline, and once it has passed Ceiling stays reportable |
| `DrainObject.Draft19Drain.Admit` | moq-relay-ietf/src/relay.rs:160-166 | one undisturbed admission is its three steps, with the counters in agreement with the open sessions |
| `DrainObject.Draft19Drain.GoawaySent` | moq-relay-ietf/src/relay.rs:222-231 | only a broadcast session moves the clock, and only forwards |
| `DrainObject.Draft19Drain.Release` | moq-relay-ietf/src/relay.rs:213-218 | an ending session drops its tokens and a count of zero completes the wait on it |
| `DrainObject.Draft19Drain.BeginFinished` | moq-relay-ietf/src/relay.rs:184-187 | the call closes the trackers and notes the time |
| `DrainObject.Draft19Drain.Poll` | moq-relay-ietf/src/relay.rs:188-206 | a poll reports nothing exactly while no session wait and no deadline is complete, in either order of the branches |

## Left out

- QUIC, TLS, WebTransport, the async runtime, metrics, logging, command lines and the HTTP and Redis coordinators: plumbing around the modelled state.
- The wire codecs and session internals of moq-transport, and MMTP header decoding: dispatch starts from decoded packets, and sinks are logs that may refuse a subgroup or an object.
- The sum of allocation sizes that makes an Object's retained bytes is a positive `cost` carried by the Object.
- The relay's two-level maps (scope, then namespace) are one map keyed by both.
- A poisoned retention lock, after which inserts are dropped and plans are Partial from the start.
- `PlanFetch` reads the Largest Location and the cache in one step; the source locks the cache twice. `FetchPlanning.Plan` takes the two as independent inputs and is exact for any pair.
- A registration is handed to its owner only after its notification is sent; the model also allows its owner to drop it earlier, so its runs include all of the source's.
- A send error ends the SUBSCRIBE_NAMESPACE handler in the source; the model ends the run there.
- The session cleanup task of `remote.rs` is taken to run to its end: it is spawned detached and nothing aborts it.
- `RemoteManager::shutdown`, which empties the slot map at exit and breaks the slot invariant on purpose.
- `Remote::shutdown` after a slot is cleared is modelled as that session's end, which is what cancelling it leads to; inside `get_or_connect` the connection is marked down at once.
- The per-connection track slots of `remote.rs`, which follow the same pattern as the connection slots.
- The track change log, pull-through requests and pruning of closed tracks in `local.rs`.
- Catalog.Validate: takes the verdicts of the repair-track, FEC-reference, multicast and network-source checks as inputs and reports their errors as one; they are single-branch checks of fields no theorem here needs.
- The publisher's endpoint and track tables in `build_state_map`, apart from timing and repair depth.
- Presentation times whose unwrapped ticks leave 64-bit range: the source would overflow after some four million years; the cast of rescaled ticks, which can be reached sooner, is modelled.
- A drain admission's two tokens are dropped in one step, the two waits of `finished` start at the call itself, and one call of `finished` is followed.
- JSON serialisation, fMP4 parsing, datagrams, framing, backoff and connection tags: only easy members.
