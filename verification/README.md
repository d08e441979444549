# Pit-wall relay: a verified model

The relay keeps one live picture of a Formula 1 session. It receives a snapshot and then sparse feed messages, merges
them into typed slices and maps, derives a lap history, incidents and starting positions from them, bundles every message
for the browsers that are connected, records the stream to a file, replays such files, and decides from the season's
schedule when to connect at all. This project models those parts in Dafny and proves what they promise.

`dafny verify dfyconfig.toml` checks everything. The modules, from the bottom up:

- `Wrappers`, `Decimal`, `Text`, `Timestamps`: 64-bit integers with their decimal text (Itoa, Atoi, `%0wd`), the order of
  numerals as strings, the string operations of Go that the relay uses, and the timestamps of section 5.6 of RFC 3339.
- `LapTime`: the lap-time codec on int64 nanoseconds, with wrap-around written out.
- `SliceMerge`, `MergeOrder`, `MergeLaws`: `applyMapUpdatesToSlice` over any element type. An execution is the sequence of
  entries that a range over the Go map visits; the meaning has no order in it. Order independence, composition and
  collapse of updates are proved on this level, each as an if-and-only-if where it does not always hold.
- `Sectors`, `SectorHeap`, `SectorOrder`: the same merge on the heap, where a slice is a header over an array and sectors
  hold slices of segments, and when the order of the nested ranges can be seen.
- `Collections`: the flat collections (TopThree, stints, session series) and the queries over them.
- `LapHistory`, `LiveState`: what a recorded lap is, and the object that holds the live lines and the lap history. The
  object keeps two regions of the heap apart: the arrays the merge writes to and the arrays of completed laps.
- `Incidents`, `Roster`: the race-control log with the incident index, and the driver list with starting positions.
- `Relay`, `Server`: one message as a step on values, theorems about all sequences of messages, and the objects
  (`GlobalState`, `MessageHandlers`) proved to take exactly such steps.
- `Json`, `Bundle`, `Hub`, `BroadcasterObjects`: JSON texts (RFC 8259) and the scan that takes a bundle apart, the payload
  built in one allocation, the hub with the connection limiter as a step machine over all interleavings, and the
  objects of its run loop proved to take its steps.
- `Recording`, `Replay`: the recorder with overlapping flushes, reading a recording back, and the pacing of a replay.
- `Sessions`, `StateStore`: the session manager's checks and the choice of the latest saved state.

Where the code falls short of what one would expect of it, the model keeps the code's behaviour and a lemma shows the case:

- Keys "1" and "01" name one index, so a map with both makes the merged slice depend on Go's map order
  (`Collections.CollidingKeysAreSeen`). Exactly when the order is invisible is said for structs of scalars, for segments
  and for sectors with their nested segments (`Collections.FlatOrderIndependentIff`, `Collections.SegmentOrderIndependentIff`,
  `SectorOrder.SectorOrderIndependentIff`). For sectors that agree on everything the order can still be seen when one of
  them carries the segment key 9223372036854775807 (`SectorOrder.WrappingKeyIsSeen`).
- `saveLapToHistory` reads the stored line before it is written back, so the lap holds the sectors of the new line exactly
  when no sector had to be appended (`LapHistory.LapHoldsLineIff`). A line that had two sectors when the third one arrived
  shows a lap time, and its history has the lap as "N/A" and as a pit stop (`LapHistory.FirstLapMissesItsTime`).
- A snapshot that fails to decode sets the state to nil, and with it the lap history is gone even if the next snapshot is
  of the same session (`Relay.MalformedSnapshotLosesLaps`); which events lose laps is said exactly by
  `Relay.LapsSurviveIff`.
- A client dropped for a full send buffer keeps its place in the connection limiter. The count of an address is the number
  of its connections exactly when no tick with something to send found one of its clients with a full queue
  (`Hub.CountIsExactIff`); a client that never reads shows it (`Hub.IgnoredClientIsEvicted`).
- Flushes that overlap may write their batches in the wrong order (`Recording.OverlappingFlushesMayReorder`); a file is in
  the order of recording exactly when the writes to it land in the order of the swaps (`Recording.FileInOrderIff`).
- A replay of what was recorded drops payloads that do not begin like JSON and trims the others. Without overlapping
  flushes it finds exactly the recorded messages if and only if nothing is left in the buffer, every batch reached the
  file, and no payload is dropped or trimmed (`Replay.RecordThenReplay`).
- The lap time of three sectors reads back as their sum exactly when the sum fits an int64 and has no part below a
  millisecond (`LapTime.SectorSumReadsBack`). Three times of a hundred million minutes make a negative lap
  (`LapTime.OverflowingSumMisreads`), and minutes that wrap lose what they have below a millisecond
  (`LapTime.WrappedMinutesMisread`).
- The digits behind the point of a time count as milliseconds however many they are, so "31.5" is 31 seconds and 5
  milliseconds: a text is read as the decimal number it writes exactly when these digits are three, or all zero
  (`LapTime.FractionReadsIff`).
- Keys of saved states compare as strings; the largest key is that of the newest state exactly under the condition of
  `StateStore.LargestKeyIsNewestIff`.
- A finalised session is connected to again by the next check in its window exactly when the store cannot be asked, when
  there is none, or when it did not take the session (`Sessions.FinalisedSessionRestartsIff`).
- A driver that the feed introduces without a line gets the starting position "0", which is final
  (`Roster.LateLineDoesNotCount`).

In lap-time texts the comment in the source speaks of "M:SS.fff" or "SS.fff"; the code also accepts an empty minutes or
seconds part, signs, and milliseconds of any length, and the model follows the code.

## Model

| member | source | states |
|---|---|---|
| Decimal.AtoiReadsPrinted | model/state.go:1594-1633 | Atoi reads back what Itoa and the padded verbs print, for every int64 and width |
| Decimal.AtoiIff | model/state.go:1383-1389 | Atoi accepts exactly the numerals, signed or not, leading zeros or not, whose number fits an int64 |
| Decimal.LessIsNumeric | valkeyclient/client.go:50-55 | for numerals of one length Go's string order is the numeric order |
| LapTime.ParseOfFormat | model/state.go:1586-1645 | parsing a printed duration gives it back without the part below a millisecond, for every int64, no intermediate result overflowing |
| LapTime.FormatIsInjective | model/state.go:1586-1595 | two durations print alike if and only if they agree to the millisecond |
| LapTime.FormatOfParse | model/state.go:1586-1645 | every canonical "M:SS.fff" whose value fits an int64 parses to that value and prints as itself |
| LapTime.ParseIsExactIff | model/state.go:1598-1645 | three numerals of any length parse to the nanoseconds they denote if and only if those fit an int64; else to the wrapped sum, or to an error if and only if one numeral does not fit |
| LapTime.ParseOfSeconds | model/state.go:1598-1645 | "SS.fff" without minutes likewise: the exact value if and only if it fits an int64, else the wrapped one or an error |
| LapTime.ParseOtherShapes | model/state.go:1598-1640 | more than one colon, a second point and the empty text are errors; an empty minutes or seconds part counts as zero, and so do missing milliseconds |
| LapTime.FractionReadsIff | model/state.go:1626-1639 | "ss.f" is read as the decimal number it writes if and only if there are three digits behind the point or only zeros |
| LapTime.SumOfSectors | model/state.go:1563-1584 | the loop yields the printed 64-bit sum of three parsed sector times, and an error in every other case |
| LapTime.SectorSumOf | model/state.go:1563-1584 | the printed int64 sum of exactly three sector times that all parse, an error for any other list |
| LapTime.SectorSumReadsBack | model/state.go:1563-1584 | the lap time reads back as the exact sum if and only if the sum fits an int64 and is whole milliseconds |
| LapTime.OverflowingSumMisreads | model/state.go:1563-1584 | three printed times whose sum leaves int64: the lap time is negative |
| LapTime.WrappedMinutesMisread | model/state.go:1563-1584 | a time whose minutes wrap: the sum fits an int64, is no whole millisecond, and reads back wrong |
| SliceMerge.KeyNamesIff | model/state.go:1383-1403 | a key names an index if and only if it is a numeral of it, signed or not, with leading zeros or without |
| SliceMerge.LargestIndex | model/state.go:1383-1389 | the first loop finds the largest index any key names, -1 when none does, in any map order |
| SliceMerge.MergeUpdates | model/state.go:1372-1443 | the merge is one linearisation of the map over the grown slice, and with distinct indices the order-free result |
| SliceMerge.TraceAt | model/state.go:1398-1416 | a position is patched once by the one entry that names it and left alone by all others |
| SliceMerge.OrderIsIrrelevant | model/state.go:1398-1441 | every order of the range gives the same slice when the keys name distinct indices |
| MergeOrder.ReorderingIsInvisible | model/state.go:1398-1416 | permuting entries that commute pairwise leaves the result unchanged |
| MergeOrder.OrderIndependentIff | model/state.go:1398-1416 | no order can be told from another, for any slice, if and only if entries that collide on an index commute, for elements whose patches commute or not irrespective of what they are laid over, as structs of scalars do |
| MergeLaws.MergedPointwise | model/state.go:1383-1416 | unnamed indices keep their value, gaps hold zero values, named ones are patched, invalid keys do nothing, and the length is the largest index plus one unless that wraps |
| MergeLaws.ComposedAt | model/state.go:1372-1443 | the composed update patches each index with the join of the two patches and names the union of their indices |
| MergeLaws.MergingIsAnAction | model/state.go:1372-1443 | applying two updates in turn is applying their composition, on every slice, if and only if their growth agrees |
| MergeLaws.UpdatesCollapse | model/state.go:788-803 | a sequence of whole-array and patch updates with distinct indices acts like one update, on every slice, if and only if it holds a whole array or all patches that name an index agree on whether they wrap |
| MergeLaws.DifferenceReaches | model/state.go:1372-1443 | some single update takes any slice to any slice that is not shorter |
| Sectors.NestedOrderIsIrrelevant | model/state.go:1398-1441 | with distinct indices on both levels neither the order of the sectors nor that of their segments matters |
| SectorHeap.AppendZeros | model/state.go:1391-1396 | growth appends zero values, in place exactly while the capacity lasts, else into a fresh array that leaves the old one unchanged |
| SectorHeap.RequiredLength | model/state.go:1383-1392 | the length after growth, with the wrap of maxIndex + 1 |
| SectorHeap.LaySegments | model/state.go:1398-1416 | the loop over segment patches changes the backing array in place as one linearisation says |
| SectorHeap.MergeSegments | model/state.go:1372-1443 | the merge into a segments slice, and whether the result shares the old array |
| SectorHeap.PatchElement | model/state.go:1409-1440 | one sector is patched field by field and its nested segments merged |
| SectorHeap.LayEntry | model/state.go:1398-1441 | one iteration over a sector patch; an element from before the loop goes on sharing its segments with the one at its place, or shows them as they were when the array of segments was replaced |
| SectorHeap.LaySectors | model/state.go:1398-1441 | the loop over sector patches, nested segments included, in place; the elements it started from show their segments as they were at some point of the execution |
| SectorHeap.MergeSectors | model/state.go:1372-1443 | the result is one execution of the two nested ranges; only arrays of this slice or fresh ones are written; the old header shows the merged sectors while the array is shared; once it moved, the old fields, and of each sector as many segments as before, as they were when its own array was replaced or at the end |
| Sectors.LeftBehindShows | model/state.go:1391-1441 | with distinct keys a sector left behind in the old array shows its old segments or the first of the merged ones |
| SectorOrder.StatusAt | model/state.go:1398-1416 | after an order of the segment range each status is the one set last for its index, or the old one |
| SectorOrder.LengthOfTrace | model/state.go:1391-1396 | in whatever order the entries come, a segment exists afterwards if and only if it did before or some entry names one at or behind it without the key that wraps |
| SectorOrder.StatusOfTrace | model/state.go:1398-1441 | where a segment status comes from after entries in some order: an entry that sets it, the old segment, or zero when only entries whose largest key wraps set it before it was there |
| SectorOrder.AgreementSuffices | model/state.go:1398-1441 | when entries naming one sector agree on fields and segments, and what entries with the key that wraps set is covered, no order of either range can be seen |
| SectorOrder.CollisionsMustAgree | model/state.go:1398-1441 | when no order can be seen, they agree, colliding segment keys within one entry included |
| SectorOrder.WrapsMustBeCovered | model/state.go:1391-1416 | when no order can be seen, a non-zero status that an entry with the key that wraps sets, where another entry for the sector makes room, is also set by an entry that makes room |
| SectorOrder.SectorOrderIndependentIff | model/state.go:1372-1443 | for every update of sectors whatsoever, all orders of the nested ranges give the same slice, for every slice, if and only if entries naming one sector agree on every field both set and every segment both name and the entries with the key that wraps are covered |
| SectorOrder.WrappingKeyIsSeen | model/state.go:1391-1396 | an update whose entries agree everywhere, with the key that wraps in one of them, whose order can be seen |
| Collections.UpdateSlice | model/state.go:788-806 | the array-or-object dispatch: an array replaces, an object is merged by index |
| Collections.FlatOrderIndependentIff | model/state.go:1398-1416 | for structs of scalars the order of the range is invisible if and only if patches for one index agree on common fields |
| Collections.SegmentOrderIndependentIff | model/state.go:1429-1439 | the same for mini-sector segments |
| Collections.CollidingKeysAreSeen | model/state.go:1398-1416 | "1" and "01" with different patches give two results in two orders |
| Collections.FlatUpdatesCollapse | model/state.go:788-803 | TopThree lines, stints and series: a sequence of updates with distinct indices is one update if and only if it holds a whole array or its patches agree in growth |
| Collections.SectorMergingIsAnAction | model/state.go:1372-1443 | two sector updates with distinct keys compose into one, later fields winning and segment maps composed, on every slice if and only if their growth agrees on both levels |
| Collections.CompositionIsTame | model/state.go:1372-1443 | the composition again has distinct keys on both levels and none that wraps |
| Collections.SectorUpdatesCollapse | model/state.go:1372-1443 | a sequence of whole-array and patch updates of sectors with distinct keys on both levels is one update, on every slice, if and only if it holds a whole array or its patches agree in growth on both levels |
| Collections.EverySectorStateIsReachable | model/state.go:1372-1443 | one update suffices between any two sector lists that do not shrink |
| Collections.GapsHoldZero | model/state.go:1391-1396 | an index that growth adds and no key names holds a segment, a sector or a struct with all fields zero |
| Collections.GetLastSessionStatus | model/state.go:1539-1552 | the backward loop finds the last non-empty status, "" when there is none |
| Collections.LastStatusIsUnique | model/state.go:1539-1552 | there is only one such status |
| Collections.IsSessionFinished | model/state.go:1554-1561 | finished if and only if that status is Finalised or Ends |
| Collections.SessionFinishedIff | model/state.go:1539-1561 | finished if and only if some entry's SessionStatus is "Finalised" or "Ends" and every later one is empty or missing |
| LapHistory.RecordedLapIsSound | model/state.go:1470-1514 | a lap has a parseable time made of its three sectors, or "N/A" and Pitted; an unpitted lap never touched the pits |
| LapHistory.PittedIff | model/state.go:1470-1499 | Pitted if and only if InPit or PitOut is set, some segment has the status 2064, or there is no lap time from three sectors that parse |
| LapHistory.LapTexts | model/state.go:1491-1514 | the lap time is the printed int64 sum of three sector times that parse, "N/A" otherwise; the tyre is the Compound of the last stint, "" without one |
| LapHistory.LapAddedIff | model/state.go:1242-1253 | over a whole update a driver's history gains a lap if and only if the driver is stored and sector key "2" carries a non-empty Value; the lap has the next number and the position, pit flags and tyre from before |
| LapHistory.LineFields | model/state.go:1205-1270 | over a whole update each field of a named driver's line is the zero of a deleted field, else the patched value, else the old one; with distinct keys the sectors are the merged ones |
| LapHistory.LapHoldsLineIff | model/state.go:1242-1270 | whatever the keys and the order, the recorded lap holds the sectors of the new line if and only if no sector had to be appended |
| LapHistory.LapHoldsMergedSectors | model/state.go:1242-1253 | with distinct keys the recorded lap is the lap of the merged sectors if and only if no sector had to be appended |
| LapHistory.ShortLineRecordsNoTime | model/state.go:1472-1499 | a line that did not have three sectors before the completing update records "N/A" and Pitted |
| LapHistory.FirstLapMissesItsTime | model/state.go:1242-1270 | two stored sectors and a third one arriving: the line shows a lap of 1:30.000, the history "N/A" and Pitted |
| LiveState.CopySegments | model/state.go:1476-1486 | the copy of the segments is fresh and equal, and pit segments are found |
| LiveState.CopySectors | model/state.go:1472-1489 | the deep copy shares no array with anything that existed and shows the same sectors |
| LiveState.RecordLap | model/state.go:1470-1514 | the new lap is the specified one, in fresh arrays |
| LiveState.Timing.constructor | model/state.go:406-449 | no lines, no laps |
| LiveState.Timing.Load | model/state.go:517-582 | decoded lines in fresh arrays, with the previous lap history or none, still apart from each other |
| LiveState.Timing.StoreLap | model/state.go:1516-1531 | a lap with a new number is appended, one with a known number replaces it |
| LiveState.Timing.SaveLap | model/state.go:1445-1537 | the driver's history gains exactly the next lap, numbered without a gap; lines and other drivers are untouched |
| LiveState.Timing.MergeShared | model/state.go:1240-1244 | merging one driver's sectors changes no other driver's line |
| LiveState.Timing.MergeAndSave | model/state.go:1240-1254 | the lap is saved between the merge and the write-back, from what the stored header shows, with the scalars from before the message |
| LiveState.Timing.UpdateLine | model/state.go:1205-1271 | one driver's update, new or stored, with deletions and write-back |
| LiveState.Timing.UpdateTimingData | model/state.go:1148-1273 | a whole update does to each driver what the step relation allows, in any order of the range; live arrays and completed laps stay disjoint |
| Incidents.FirstOccurrencesMeaning | model/state.go:977-988 | the list without repeats is exactly the first occurrences, in order |
| Incidents.FirstOccurrencesKeep | model/state.go:977-988 | removing repeats keeps every time and text |
| Incidents.IndexAfter | model/state.go:957-995 | adding messages to the log changes the index as processing them one by one does |
| Incidents.IndexOfOneMore | model/state.go:957-989 | one more message appends its incident to a driver it names if and only if no logged message made an incident of the same UTC and the same text for that driver; other drivers keep theirs |
| Incidents.AppendedTimes | model/state.go:998-1020 | a map payload appends each message once for every key that decodes to it, a list its items in order, any other payload nothing |
| Incidents.ReapplyingLeavesIndex | model/state.go:977-988 | messages that are in the log already leave every driver's incidents unchanged |
| Incidents.AppendsSameMessages | model/state.go:1012-1019 | the order of the range decides the order of the appended messages, not which they are |
| Incidents.FindSame | model/state.go:978-984 | the search finds an incident of the same time and text if and only if there is one |
| Incidents.RaceControl.AddIncident | model/state.go:968-989 | only the named driver's incidents change, and only by one that was not known |
| Incidents.RaceControl.Process | model/state.go:957-995 | the message is logged and the index agrees with the log again, for every driver named |
| Incidents.RaceControl.Apply | model/state.go:951-1021 | map, array and undecodable payloads append what they should and keep index and log in agreement |
| Roster.DriverList.UpdateOne | model/state.go:726-752 | one driver's patch, the starting position derived from the line, and whether it is announced |
| Roster.DriverList.Update | model/state.go:709-760 | the whole list and the announced drivers, in any order of the range |
| Roster.ListedFields | model/state.go:709-753 | after an update, field by field: patched fields, and the starting position from the patch, else the known one, else the line; a driver that was not listed starts on its line; "_kf" and undecodable values change nothing |
| Roster.AnnouncedIff | model/state.go:736-757 | announced are exactly the drivers that were not listed and those that had no starting position, got none from the patch, and are on a line |
| Roster.SnapshotStart | model/state.go:493-598 | the list of a snapshot: the known starting position in the same session, else the decoded one, else the line if there is one; all other fields as decoded; without "_kf" |
| Roster.StartKeptIff | model/state.go:726-737 | an update keeps a known starting position if and only if its patch leaves it alone |
| Roster.StartingPositionIsWriteOnce | model/state.go:584-598 | over any sequence of updates without the field and snapshots of the session a starting position never changes |
| Roster.NewDriverHasStart | model/state.go:741-752 | a driver the feed introduces is announced and starts where its line says, at "0" without one |
| Roster.LateLineDoesNotCount | model/state.go:726-752 | such a "0" survives every later update and reconnection |
| Relay.SnapshotState | model/state.go:451-598 | what a decoded snapshot makes of every part of the state, starting positions and lap history included |
| Relay.StintsFed | model/state.go:896-949 | a stints update replaces or merges the stints of the drivers it names, over what they had, and changes nothing else |
| Relay.ListFed | model/state.go:709-753 | a list update changes the carried drivers' lines and starting positions, and no other driver and no other part of the state |
| Relay.LastStatusDecides | model/state.go:1093-1146 | a status fed to the end of the series makes the session finished if and only if it is "Finalised" or "Ends" |
| Relay.TimingKeepsSound | model/state.go:1205-1271 | a timing update only appends sound laps, at most one per driver, exactly for a stored driver whose sector key "2" got a non-empty Value |
| Relay.ReachableStatesAreGood | handlers/handlers.go:29-85 | in every reachable state all laps are sound and numbered 1..n and the incident index is the one of the log |
| Relay.CompletedLapsAreImmutable | model/state.go:1205-1271 | no sequence of events that keeps the session changes, removes or reorders a completed lap |
| Relay.LapsAreCounted | model/state.go:568-582 | the number of laps of a driver is the number of updates with a non-empty Value in sector key "2" for the stored driver since the last event that dropped the history, read off the messages alone |
| Relay.LapsSurviveIff | handlers/handlers.go:29-85 | one event keeps a driver's laps if and only if it does not drop the history, or leaves a state and there were no laps |
| Relay.MalformedSnapshotLosesLaps | handlers/handlers.go:38-40 | a same-session snapshot keeps the laps; with an undecodable one before it they are lost |
| Relay.IncidentsAreKept | model/state.go:951-1021 | between snapshots log and incidents only grow at their ends |
| Relay.ReapplyingKeepsIncidents | model/state.go:951-1021 | the same update again changes no driver's incidents, while the log grows by it |
| Relay.StartingPositionsAreKept | model/state.go:584-598 | known starting positions survive all events that do not carry the field, reconnections included |
| Relay.SkippedIsCounted | handlers/handlers.go:35-79 | the skip counter is the one read off the messages alone, and a reconnection is forced exactly when it comes to fifty |
| Relay.EveryFiftiethSkipForces | handlers/handlers.go:69-79 | while there is no state, exactly every fiftieth skipped update forces a reconnection |
| Server.GlobalState.constructor | model/state.go:406-449 | the empty state |
| Server.GlobalState.Load | model/state.go:451-601 | a decoded snapshot with the carry-over of laps and starting positions for the same session key |
| Server.GlobalState.ApplyTiming | model/state.go:694-695 | a timing update takes the timing step and touches nothing else |
| Server.GlobalState.ApplyControl | model/state.go:683-684 | a race-control update takes its step and touches nothing else |
| Server.GlobalState.ApplyFeedUpdate | model/state.go:607-707 | each topic changes its own part of the state and nothing else, as the step relation says |
| Server.UpdateStints | model/state.go:896-949 | every named driver's stints are updated, others kept, in any order of the range |
| Server.MessageHandlers.Load | handlers/handlers.go:35-46 | the snapshot step, nil state on a decode failure included |
| Server.MessageHandlers.Handle | handlers/handlers.go:29-85 | every message takes one step; a reconnection is forced exactly when the step says so |
| Server.Serve | handlers/handlers.go:29-85 | every execution over a stream of messages is a run of the step relation |
| Json.ScanJoined | broadcaster/broadcaster.go:92-100 | the scan of a concatenation is the scan of its parts in turn |
| Json.ValueIsBalanced | broadcaster/broadcaster.go:92-100 | a JSON value leaves the scan at the depth it began, without a separating comma |
| Json.JsonIsBalanced | broadcaster/broadcaster.go:92-100 | so does every JSON text |
| Json.JsonIsJsonLike | broadcaster/broadcaster.go:92-100 | every JSON text is one of the loose grammar that the scan needs |
| Json.EmptyIsOnlyLike | broadcaster/broadcaster.go:92-100 | not conversely |
| Bundle.Append | broadcaster/broadcaster.go:92-100 | bytes are appended behind the used part, which stays |
| Bundle.Capacity | broadcaster/broadcaster.go:87-90 | the computed capacity |
| Bundle.AppendJoined | broadcaster/broadcaster.go:94-99 | the messages with commas between them, within the room computed for them |
| Bundle.BuildPayload | broadcaster/broadcaster.go:86-100 | the payload fills one allocation but for exactly one byte, so no append reallocates |
| Bundle.BundleComesApart | broadcaster/broadcaster.go:86-100 | cutting at the commas outside strings and brackets recovers exactly the buffered JSON texts in order, even those of the loose grammar |
| Bundle.BundlesAreDistinct | broadcaster/broadcaster.go:86-100 | different lists of JSON texts give different payloads |
| Bundle.OtherMessagesMix | broadcaster/broadcaster.go:86-100 | without JSON texts they may not |
| Bundle.PayloadIsJson | broadcaster/broadcaster.go:86-100 | the payload of JSON texts is itself a JSON text of RFC 8259, with the messages as one array; likewise in the loose grammar |
| Hub.StepKeepsBalance | broadcaster/broadcaster.go:68-118 | every step keeps count = on the way + live + evicted within the limit, for every address |
| Hub.StepConserves | broadcaster/broadcaster.go:81-118 | every step keeps bundles plus buffer equal to what was recorded and, with the inbox, to what was submitted |
| Hub.StepDelivers | broadcaster/broadcaster.go:68-118 | every step keeps each client's bundles contiguous from registration to removal |
| Hub.StreamStep | broadcaster/broadcaster.go:84-119 | every event adds to what a client is sent exactly the initial state sent to it or the bundle of a tick that found room among 256; only its own pump takes items, from the front |
| Hub.TickTakesAll | broadcaster/broadcaster.go:84-119 | a tick makes one bundle of everything buffered and leaves the buffer empty |
| Hub.EveryRunIsGood | broadcaster/broadcaster.go:62-122 | ledger, conservation and contiguous delivery in every reachable state of every interleaving; what counts as submitted are the messages of the Broadcast events in order |
| Hub.ConnectionsWithinLimit | ratelimiter/ratelimiter.go:62-72 | live and pending connections of an address never exceed the limit, and are counted exactly if and only if none was evicted |
| Hub.AdmittedIff | broadcaster/broadcaster.go:173-178 | in every reachable state an address is admitted if and only if fewer than the limit are on their way, live or evicted for it |
| Hub.ReleaseFindsConnection | ratelimiter/ratelimiter.go:74-85 | every release by the hub finds a positive count and lowers it by one, no other, and drops the address when it was the last |
| Hub.EvictedStay | broadcaster/broadcaster.go:112-116 | a place held by an evicted client is never given back |
| Hub.EvictionsExhaustLimit | broadcaster/broadcaster.go:112-116 | once as many clients of an address were evicted as the limit allows, it is refused for good |
| Hub.NeverEvictedIff | broadcaster/broadcaster.go:109-117 | over every run, no client of an address is evicted if and only if no tick with a non-empty buffer finds a live one with a full queue |
| Hub.CountIsExactIff | broadcaster/broadcaster.go:109-117 | the count of an address is the number of its connections if and only if no tick found such a client |
| Hub.IgnoredClientIsEvicted | broadcaster/broadcaster.go:109-117 | a client that never reads is evicted by the 257th bundle, and with a limit of one its address is refused from then on |
| BroadcasterObjects.ConnectionLimiter.AddConnection | ratelimiter/ratelimiter.go:62-72 | admits exactly below the limit and counts the connection |
| BroadcasterObjects.ConnectionLimiter.RemoveConnection | ratelimiter/ratelimiter.go:74-85 | lowers the count, dropping the address at zero |
| BroadcasterObjects.Channel.TrySend | broadcaster/broadcaster.go:110-113 | sends exactly when the buffer has room, on an open channel only |
| BroadcasterObjects.Broadcaster.Connect | broadcaster/broadcaster.go:173-178 | the admission step |
| BroadcasterObjects.Broadcaster.UpgradeFailed | broadcaster/broadcaster.go:180-185 | the failed upgrade releases the place |
| BroadcasterObjects.Broadcaster.Register | broadcaster/broadcaster.go:69-72 | the registration step, with a fresh channel |
| BroadcasterObjects.Broadcaster.SendInitial | broadcaster/broadcaster.go:193-199 | the initial state is queued, or the send panics on a channel closed meanwhile and changes nothing |
| BroadcasterObjects.Broadcaster.Unregister | broadcaster/broadcaster.go:73-80 | a live client is released, removed and its channel closed once; any other is ignored |
| BroadcasterObjects.Broadcaster.Drain | broadcaster/broadcaster.go:148-160 | what is sent out is the oldest item, also from a channel that was closed since |
| BroadcasterObjects.Broadcaster.Accept | broadcaster/broadcaster.go:81-83 | a message goes to the recorder and to the buffer |
| BroadcasterObjects.Broadcaster.Deliver | broadcaster/broadcaster.go:109-117 | one client gets the payload or is dropped; run never sends on or closes a closed channel |
| BroadcasterObjects.Broadcaster.Tick | broadcaster/broadcaster.go:84-119 | the whole tick takes the machine's step, whatever the order of the clients |
| Timestamps.ParseOfFormat | recorder/recorder.go:80 | every timestamp to the second reads back as written |
| Timestamps.FormatFields | recorder/recorder.go:80 | which digits and marks stand where in a printed timestamp, the zone included |
| Timestamps.ValidIff | replayer/replayer.go:79-82 | the ranges of the fields, with the lengths of the months and the leap years |
| Timestamps.FormatOfParse | replayer/replayer.go:79-82 | an accepted text is the one that would be written, unless its zone is a signed zero |
| Timestamps.DaysFollowCalendar | replayer/replayer.go:146 | day numbers advance by one from each calendar day to the next, leap years included |
| Timestamps.InstantsOfOneDay | replayer/replayer.go:146 | within a day instants differ by their times of day less their offsets, in seconds |
| Timestamps.InstantsADayApart | replayer/replayer.go:146 | from one calendar day to the next the same time of day is 86400 seconds later |
| Recording.EntryFields | recorder/recorder.go:80 | a line is the bracketed timestamp, a space and the payload |
| Recording.BatchIsLines | recorder/recorder.go:121 | a batch is written as its lines, each with its newline |
| Recording.EveryRunKeeps | recorder/recorder.go:72-124 | in every interleaving what is recorded are the messages that came while the session had not finished, each in the buffer or in exactly one batch, in order, and each file holds the lines of the batches written to it, each once |
| Recording.RecordedAreAccounted | recorder/recorder.go:72-124 | accepted messages = buffered + in flight + written + lost, as multisets |
| Recording.OnlyFailuresLose | recorder/recorder.go:98-123 | without a failed open or write nothing is lost, a missing session path included |
| Recording.AscendingWritesKeepOrder | recorder/recorder.go:98-124 | a file whose writes land in the order of the swaps holds its batches in the order of recording |
| Recording.FileTextIsInjective | recorder/recorder.go:121 | the text of a file determines its lines |
| Recording.LinesDetermineOrder | recorder/recorder.go:98-124 | when no entry is in two batches the lines tell in which order the batches were written |
| Recording.FileInOrderIff | recorder/recorder.go:98-124 | for pairwise different lines, per file: in the order of recording if and only if the writes to it land in the order of the swaps |
| Recording.SerialFlushesKeepOrder | recorder/recorder.go:98-124 | when flushes do not overlap every file is in the order of recording, whatever the batches, changes of path and failures |
| Recording.WholeRecordingInOrder | recorder/recorder.go:98-124 | when every batch reached one file in order, file and buffer are all accepted messages |
| Recording.OverlappingFlushesMayReorder | recorder/recorder.go:98-124 | two overlapping flushes can swap their batches |
| Recording.FlushEmptiesBuffer | recorder/recorder.go:98-124 | a successful flush appends exactly the buffered lines to the file and empties the buffer; without a path nothing changes |
| Recording.Recorder.Record | recorder/recorder.go:73-85 | an entry is appended unless recording is off or the session has finished |
| Recording.Recorder.TakeBatch | recorder/recorder.go:98-112 | the swap under the lock |
| Recording.Recorder.WriteBatch | recorder/recorder.go:114-123 | the write, or the loss of the batch |
| Recording.Recorder.Flush | recorder/recorder.go:98-124 | an uninterrupted flush is the swap and then the write |
| Recording.Recorder.Stop | recorder/recorder.go:45-59 | the last flush, which happens only on the first call |
| Replay.ScanFile | replayer/replayer.go:109-115 | the scanner gives back the lines of a file one by one |
| Replay.LineEnds | replayer/replayer.go:104-115 | a carriage return before the newline is no part of the line, and a last line without a newline is read too |
| Text.TrimSpaceCuts | replayer/replayer.go:58-69 | trimming cuts off exactly the white space at both ends |
| Replay.TrimsCommute | replayer/replayer.go:58-69 | trimming left and right commute |
| Replay.ParsedIff | replayer/replayer.go:57-88 | a line parses to a message if and only if, without white space around, it is a bracketed timestamp of it and a payload that begins with a brace or a bracket |
| Replay.ParsedEntry | replayer/replayer.go:57-88 | a recorded line parses to its timestamp and trimmed payload if and only if that begins like JSON |
| Replay.ReplayOfRecording | replayer/replayer.go:109-121 | the messages read from a recording are the usable entries in order |
| Replay.TextReadsBackIff | replayer/replayer.go:109-121 | the text of entries reads back as the entries if and only if all payloads are trimmed and begin like JSON |
| Replay.RecordThenReplayInOrder | replayer/replayer.go:109-121 | for every run whose writes to a file landed in order, the replay finds exactly the messages accepted for recording if and only if the buffer is empty, every batch reached that file, and each payload begins with a brace or bracket and ends in no white space |
| Replay.RecordThenReplay | replayer/replayer.go:109-121 | the same for every run of the recorder in which no flush starts during another one |
| Replay.OverlongLineEndsReplay | replayer/replayer.go:110-125 | nothing behind a line of 16 MiB or more is replayed |
| Replay.RecordingReplays | recorder/recorder.go:98-124 | what was written to a file in the order of the swaps comes back from it as the usable messages in order |
| Replay.GapIs | replayer/replayer.go:144-150 | a gap is the time between two messages in nanoseconds, at most the largest int64, and nothing when it goes back |
| Replay.PacingIsExact | replayer/replayer.go:144-155 | after k gaps the pauses add up to the recorded time over the speed, short by less than k nanoseconds |
| Replay.RecordedCoversSpan | replayer/replayer.go:144-158 | the recorded time is at least the span from the first message to any other |
| Replay.RecordedIsSpan | replayer/replayer.go:144-158 | for timestamps in order the recorded time is exactly the time from the first message to the last |
| Replay.Replayer.constructor | replayer/replayer.go:31-43 | a speed that is not positive becomes 1 |
| Replay.Replayer.Load | replayer/replayer.go:108-121 | the loop collects the lines that parse |
| Replay.Replayer.Pace | replayer/replayer.go:134-165 | all payloads are emitted in file order, with the specified pauses |
| Replay.Replayer.Start | replayer/replayer.go:90-167 | loading and pacing together |
| Sessions.FindActiveEvent | sessionmanager/manager.go:119-129 | the first session whose window is open, none if none is |
| Sessions.SessionOpen | sessionmanager/manager.go:51-169 | with a session in its window, 14 minutes before to 56 minutes after it: what a check makes of the running flag, the count and the store, in every case |
| Sessions.NoSessionOpen | sessionmanager/manager.go:87-101 | with none in its window a running client is stopped and the count cleared, and nothing else happens |
| Sessions.Manager.HandleFinalisedSessionCheck | sessionmanager/manager.go:131-169 | the count, and at five the end of the session |
| Sessions.Manager.CheckAndManageConnection | sessionmanager/manager.go:51-117 | a check takes the specified step |
| Sessions.CountIsTrailingRun | sessionmanager/manager.go:131-139 | over all sequences of checks the count stays below five and is the number of finished checks in a row since connecting |
| Sessions.FinalisationNeedsFive | sessionmanager/manager.go:141-168 | a session is finalised if and only if this and the last four checks found it finished |
| Sessions.OnlyFinalisationCompletes | sessionmanager/manager.go:141-168 | no other tick completes a session; a finalising one stops the client and clears the count |
| Sessions.RunningMeansOpenWindow | sessionmanager/manager.go:56-116 | a client that runs after a check is inside the window of a scheduled session not known to be completed |
| Sessions.CompletedSessionNeverRuns | sessionmanager/manager.go:59-71 | once completed, a session is never left running by a check that can ask the store |
| Sessions.RunsAfterIff | sessionmanager/manager.go:51-117 | a check leaves the client running if and only if it watches an open session that is not known to be completed and does not end it |
| Sessions.FinalisedSessionRestartsIff | sessionmanager/manager.go:59-77 | the next check in the window restarts a finalised session if and only if the lookup fails, there is no store, or the store neither took the session nor had it |
| Sessions.FinalisedSessionStaysOff | sessionmanager/manager.go:59-71 | a session the store took stays off through every later check that can ask the store |
| StateStore.KeyTellsTime | valkeyclient/client.go:30-31 | a key is the prefix and the numeral that reads back as the time of the save |
| StateStore.LessIsTransitive | valkeyclient/client.go:50-55 | the string order is transitive |
| StateStore.LatestKey | valkeyclient/client.go:46-55 | the loop returns a key that no other exceeds, none for no keys |
| StateStore.LessAcrossLengths | valkeyclient/client.go:50-55 | numerals of different lengths compare as if filled up with zeros |
| StateStore.KeyOrderIff | valkeyclient/client.go:30-31 | an earlier key sorts first if and only if the earlier time, filled up to as many digits, is not larger |
| StateStore.LargestKeyIsNewestIff | valkeyclient/client.go:40-55 | over any saves the largest key is that of the newest if and only if every earlier time, filled up to as many digits, is not larger than the newest |
| StateStore.ElevenDigitsComeFirst | valkeyclient/client.go:50-55 | the order fails when an eleventh digit appears |
| StateStore.LargestKeyIsNewest | valkeyclient/client.go:40-55 | among saves at ten-digit times the largest key is that of the newest |

## Left out

- JSON decoding, gjson and reflection: patches arrive decoded, as records of optional fields; a value that does not decode
  is None. Characters stand for bytes.
- Fields of the driver records that no rule reads (names, gaps, speeds, BestLapTimes, Stats) and the array form of slice
  fields decoded straight into an existing record, the array form of Segments inside a sector patch included.
- Whether an empty slice is nil or not, and the failure to allocate a slice for an absurd index.
- Topics that are stored or copied without a rule of their own (heartbeat, weather, team radio, championship prediction,
  timing statistics, NoEntries, the metadata of TopThree). The slices of TopThree, TyreStintSeries and SessionData.Series
  take the updates of `Collections.UpdateSlice`; the step machine carries the stints and the status series only.
- MergeOrder.OrderIndependentIff: sectors are not such elements; `SectorOrder.SectorOrderIndependentIff` is about them.
- MergeLaws.UpdatesCollapse: updates whose own keys collide are excluded, as they have no one result to speak of.
- Collections.FlatUpdatesCollapse: the same.
- Collections.SectorUpdatesCollapse: the same, on both levels.
- SectorHeap.MergeSectors: once the array of sectors has moved, at which entry the segments of a patched sector were
  replaced depends on the spare room of their own arrays, which the values do not carry.
- LiveState.Timing.UpdateLine: the BestLapTimes and Stats of a line are not carried; they are merged like the slices of
  `Collections.UpdateSlice`.
- LiveState.Timing.UpdateTimingData: neither are the session part and NoEntries.
- Server.GlobalState.ApplyFeedUpdate: TopThree, TyreStintSeries, TimingStats and the session series are the topic Other.
- Collections.UpdateSlice: the flat slices are values, so their updates in place are not modelled; nothing else refers to
  their arrays.
- LiveState.CopySectors: the copies are gathered in a sequence and stored in one array at the end, where the source fills
  the array as it goes.
- Incidents.RaceControl.Process: the incident parser is any function from a message to an incident with driver numbers;
  its regular expressions and the broadcast of the incident are not modelled.
- Relay.LapsAreCounted: states loaded from the key-value store, which may lack session info, are not part of the runs.
- Legacy feed messages, the SignalR clients, tokens and reconnection itself.
- Gzip, WebSocket reads and writes, pings, metrics, HTTP handlers; the snapshot a browser gets may be older than its first
  bundle, and nothing is claimed about that.
- BroadcasterObjects.Broadcaster.SendInitial: a send that blocks on a full channel is a step that is not enabled yet.
- Recording.Recorder.WriteBatch: a write either happens as a whole or loses the batch; partial writes are not modelled, nor
  are the metadata file and two concurrent calls of Stop. FinalizeSessionRecording is `Recording.Recorder.Flush`.
- Recording.FileInOrderIff: the entries are different lines, as equal ones can hide in which order they were written.
- Timestamps.FormatOfParse: fractional seconds and the lenient forms Go's parser also accepts are rejected by the model.
- SectorHeap.AppendZeros: the new capacity is any function of the old one and the length needed, the same function for
  sectors and segments.
- Replay.Replayer.Start: waiting for the first client, opening the file, and the rewriting of clocks inside payloads.
- Replay.Replayer.Pace: the speed is a positive real, so float64 rounding and the conversion of a quotient beyond int64 are
  not modelled; neither is the rewriting of clocks inside payloads before they are emitted.
- Replay.RecordedCoversSpan: holds for gaps that fit an int64 of nanoseconds (292 years), beyond which Time.Sub saturates.
- Replay.ParsedEntry: white space outside ASCII is not trimmed.
- Sessions.Manager.CheckAndManageConnection: saving the state, finalising the recording and loading the latest state have
  no effect on the flags modelled; a check is atomic.
- The token bucket for downloads, the season calendar, the track lookup and the login session store.
