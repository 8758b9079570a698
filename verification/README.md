# Verified model of py-ipfs-lite

This project models the parts of py-ipfs-lite that carry state or byte-level
arithmetic, and proves what they promise, for all inputs and all runs:

- the breadth-first DAG walk and the links it follows (`Ipld`, `Graphs`, `Dag`);
- pins, garbage collection and pin listing (`Pins`, `Content`);
- the readers-writer lock, and collections interleaved with any number of adders (`RWLock`, `GcSystem`),
  and beside writers that take no lock (`GcWriters`);
- the CARv1 writer and reader, byte by byte (`Varint`, `Cids`, `Car`);
- the connection tracker's stream statistics (`Tallies`, `TrackerMemory`, `Tracker`, `TrackerLaws`, `TrackerLedger`,
  `TrackerDuplicates`, `TrackerClass`);
- adaptive pubsub joining and leaving (`Pubsub`);
- file reassembly, the block store gauges and the keep-alive sweep (`Reassembly`, `Gauges`, `KeepAlive`).

Code that changes an object in place is a class whose methods are proved equal to
a specification function; the laws are lemmas about those functions. Code that
several tasks run at once is a step system in which every await, and every
statement between two awaits, is a step.

## Assumptions

- Identifiers are well-formed and their bytes and text forms are unique: a multihash
  with a non-minimal varint is not an identifier here. `w.TextRoundTrips()` says that
  the display form of an identifier parses back to it.
- `decode_dag_pb`, `json.loads`, `cbor2.loads`, the codec table and the hash functions
  are arbitrary functions that may fail. A codec has one name, whichever of the
  spellings the code compares it with. `w.HeaderRoundTrips()` says that `cbor2.loads`
  inverts `cbor2.dumps` on archive headers.
- Storage and decoding raise nothing but what the model returns as `None` or `false`, and
  reads by `gc` and `list_pins`, which raise on the identifiers `w.readFails` names. A
  dag-pb link whose bytes are no identifier is not modelled.
- The exchange looks into the local store before it asks a peer, and delivers a block that
  some peer has; wherever a block is, it is the same block.
- Locking: nothing is cancelled inside `read_lock` or `write_lock`; `remove_node` and the
  writers that put without the lock (`import_car`, the cache write of `fetch_block`,
  Bitswap) stay outside a collection in `GcSystem`. `GcWriters` lets such writers put between
  any two steps of a collection, each block under its own identifier. Pins may change at any time. What a cancellation
  would break is proved in `RWLock`.
- Tracker runs: a key opened is not live, a key closed is live or still remembered, a
  peer evicted has no live stream. Each of the three is proved to be exactly what the
  conservation law needs of that event.
- The keep-alive loop has a nursery.

## Where code and description differ

- The pubsub scorer is described as joining a topic after consecutive confirmations. It
  counts scans above the threshold since the last dead streak. `JoinRuleIsConsecutiveExactly`
  shows that enough hits are as many confirmations in a row, on all histories, exactly when
  one miss ends a streak; otherwise some run of passes joins a topic that its last scan did
  not find at all (`UnconfirmedJoinHappens`).
- Leaving is described for auto-joined topics, but the code leaves any unprotected one;
  `LeavesOnlyAutoJoinedExactly` says when the next scan can cost none but auto-joined topics,
  and `CloseBecomesStale` finds the scan that costs another.
- `joined` and the set of auto-joined topics include topics whose subscription failed:
  `RefusedTopicCountsAsJoined` is such a pass, and `JoinedMeansSubscribedExactly` shows that
  both are true of the subscriptions exactly when no candidate there is room for is refused.
- `gc` swallows an exception from the middle of a pinned walk and then deletes what the walk
  had not reached: `FailedReadLosesChild` loses a pinned block this way, and
  `PinnedSurvivesExactly` says when none is lost. When all reads succeed none is
  (`SoundReadsKeepPinned`).
- An archive whose header length is cut short makes `import_car` raise a bare `EOFError`
  (lines 142-145), not `CarParseError`; `EofEscapesExactly` names the bytes on which it does.
- Non-strict import accepts an archive cut between two sections (`LaxImportPassesSectionCuts`).
- `list_pins` agrees with the collector only if every stored pin text is canonical
  (`ListingAgreesWithCollector`).
- A key finalized twice keeps its old place in the memory of closed streams, so an
  expired entry can stay behind it (`ReMarkedKeyHidesExpired`).
- `put_many` overcounts a new block that is listed twice (`PutManyAgreesExactly`).
- A close event for an unknown stream does its accounting and then raises, as its log message
  formats a missing duration (line 836); `CloseRaisesExactly` says when.

## Model

| member | source | states |
|---|---|---|
| Varint.DecodeEncode | py_ipfs_lite/car.py:29-43 | reading a varint inverts writing it, for every number and whatever follows |
| Varint.DecodeCut | py_ipfs_lite/car.py:33-37 | a number cut short is an error, or end of file when nothing of it is left, and never another number |
| Varint.TruncatedExactly | py_ipfs_lite/car.py:33-42 | reading fails inside a number exactly on bytes that all announce another |
| Varint.DecodeMeans | py_ipfs_lite/car.py:29-43 | a number read is its bytes' low seven bits, the k-th weighted with 2 to the power 7k, up to the first byte that announces no other |
| Varint.EncodeMeans | py_ipfs_lite/car.py:79 | a number is written as bytes worth it, and as few as there can be |
| Varint.Examples | py_ipfs_lite/car.py:79 | the examples of the unsigned-varint specification |
| Varint.GroupOrAdds | py_ipfs_lite/car.py:39 | the groups or-ed into the result never overlap, so the bitwise or is a sum below the next place value |
| Cids.CidLenEncode | py_ipfs_lite/car.py:46-56 | the length found equals the identifier's, for every version 0 and version 1 identifier and every data behind it |
| Cids.CidLenMeans | py_ipfs_lite/car.py:46-56 | the length found in any data that begins with four numbers, clamped to the data |
| Cids.EncodeMeans | py_ipfs_lite/car.py:46-56 | the layout of identifiers: a bare sha2-256 multihash, or version, codec and multihash |
| Cids.ParseExactly | py_ipfs_lite/car.py:171-175 | bytes are taken for an identifier iff they are its encoding |
| Ipld.Collector.Extract | py_ipfs_lite/dag_utils.py:28-51 | appends the links of a node in document order; raises exactly when strict and some link does not parse |
| Ipld.Collector.ExtractKids | py_ipfs_lite/dag_utils.py:37-41 | the loop over dictionary values or list items does the same for all of them |
| Ipld.ExtractCids | py_ipfs_lite/dag_utils.py:21-54 | the whole list, or an exception in strict mode when a link does not parse |
| Ipld.LinkAtExactly | py_ipfs_lite/dag_utils.py:29-50 | a node is a link iff it is a dictionary whose "/" entry names an identifier, or tag 42 whose content names one behind its first byte |
| Ipld.LinksAreExactlyTheNestedOnes | py_ipfs_lite/dag_utils.py:28-51 | an identifier is extracted iff at the end of some path through nested dictionaries and lists there is a link to it |
| Ipld.BadLinksAreMinded | py_ipfs_lite/dag_utils.py:28-51 | strict mode minds a node iff somewhere in it there is something meant as a link that is none |
| Ipld.LinksInDocumentOrder | py_ipfs_lite/dag_utils.py:28-51 | a list's links are those of its items in turn, a dictionary's its own and then those of its values, a tag's its own only |
| Ipld.PresentCidsInOrder | py_ipfs_lite/dag_utils.py:92-94 | each dag-pb link with an identifier gives it and every other nothing, one after the other |
| Dag.FollowLinks | py_ipfs_lite/dag_utils.py:86-107 | the identifiers queued are, in order, those of the dag-pb links, or those nested in the dag-json or dag-cbor node; none for any other block; None iff strict and the block does not decode or has a bad link |
| Dag.FollowedLinks | py_ipfs_lite/dag_utils.py:86-107 | the links followed out of a block of a store are exactly those it has under its own codec |
| Dag.IntactIsWhole | py_ipfs_lite/dag_utils.py:75-107 | strict mode minds exactly the blocks that are absent, do not decode or have something meant as a link that is none |
| Dag.Expand | py_ipfs_lite/dag_utils.py:75-84 | an absent block ends a strict walk and is skipped by a lenient one |
| Dag.WalkDag | py_ipfs_lite/dag_utils.py:57-107 | terminates on every store, cyclic or not; yields all that the root leads to over the blocks' links, each once, the closest first; raises iff it comes to a block whose read fails or, in strict mode, that is not whole, and yields nothing behind the first of them; a walk that is not recursive yields the root |
| Dag.WalkCoversReachable | py_ipfs_lite/dag_utils.py:63-74 | the walk yields exactly the reachable identifiers, absent ones included, each once, none before one closer to the root |
| Pins.PinStore.AddPin | py_ipfs_lite/pin.py:55-76 | succeeds iff the text parses, the type is direct or recursive and not direct over recursive; then the text maps to that type and all else is as before; else nothing changes |
| Pins.LastAddWins | py_ipfs_lite/pin.py:55-87 | after every run of calls the type of a pin is that of the last successful add of its text not followed by a remove |
| Pins.PinStore.RemovePin | py_ipfs_lite/pin.py:78-87 | removes exactly that pin, or reports that there is none |
| Pins.RecursiveUntilRemoved | py_ipfs_lite/pin.py:66-75 | in every run of calls a recursive pin stays recursive until a call removes it |
| Pins.DowngradeNeedsRemove | py_ipfs_lite/pin.py:66-86 | a recursive pin found direct later was removed and then pinned directly, in that order |
| Content.Peer.Mark | py_ipfs_lite/peer/_content.py:479-494 | the reachable set is the display forms of everything some pin keeps, whatever the order of the pins; a pin that does not parse keeps nothing, and one whose walk raises keeps what it had reached |
| Content.Peer.DeleteAll | py_ipfs_lite/peer/_content.py:496-500 | deletes exactly the named blocks and counts each once |
| Content.Peer.Gc | py_ipfs_lite/peer/_content.py:470-505 | a block stays, unchanged, iff some pin keeps it; the reclaimed count is the number of blocks removed; the retained count is the size of the marked set |
| Content.MarkedMeans | py_ipfs_lite/peer/_content.py:481-494 | a block is kept iff it is the root of a direct pin, or the root of a recursive one leads to it and it is not behind a read that fails |
| Content.PinnedSurvivesExactly | py_ipfs_lite/peer/_content.py:484-500 | exactly the pinned blocks survive a collection iff every block that some pin loses behind a failing read is kept by another |
| Content.SoundReadsKeepPinned | py_ipfs_lite/peer/_content.py:484-500 | exactly the pinned blocks survive when no read of a pinned one fails |
| Content.FailedReadLosesChild | py_ipfs_lite/peer/_content.py:484-500 | a failing read of a pinned root costs a child that nothing else pins |
| Content.MarkedUnchanged | py_ipfs_lite/peer/_content.py:485-492 | a collection changes nothing about what the pins keep |
| Content.HeldUnchanged | py_ipfs_lite/peer/_content.py:485-492 | every pin keeps the same blocks after a collection as before |
| Content.SecondGcReclaimsNothing | py_ipfs_lite/peer/_content.py:476-505 | collecting twice is collecting once |
| Content.RetainedCount | py_ipfs_lite/peer/_content.py:503-505 | the retained count is at least the blocks kept, and equal iff no marked block is missing |
| Content.AddNeverShrinks | py_ipfs_lite/pin.py:66-75 | adding a pin never makes a collection keep less |
| Content.AddsNeverShrink | py_ipfs_lite/peer/_content.py:413-418 | nor does any run of adds |
| Content.Peer.ListPins | py_ipfs_lite/peer/_content.py:425-468 | which filters raise; each other lists exactly the stored pins of its type, and the indirect ones where it lets them through |
| Content.IndirectExactly | py_ipfs_lite/peer/_content.py:445-462 | an indirect entry names what some recursive pin keeps beyond its own root and no stored pin names |
| Content.Peer.IndirectLoop | py_ipfs_lite/peer/_content.py:445-462 | the indirect entries are what recursive pins reach beyond their roots and no stored pin names |
| Content.IndirectAreMarked | py_ipfs_lite/peer/_content.py:455-460 | every indirect entry is kept by the collector and is no stored pin |
| Content.ListingAgreesWithCollector | py_ipfs_lite/peer/_content.py:434-468 | the full listing names exactly what the collector marks iff every stored pin text is canonical |
| RWLock.StepKeepsInv | py_ipfs_lite/peer/ipld.py:254-274 | every step keeps: the counter is the number of readers between increment and decrement, the semaphore is 0 or 1, at most one writer and never beside a reader |
| RWLock.RunIsSafe | py_ipfs_lite/peer/ipld.py:249-274 | hence these hold in every state of every run, for any number of tasks: no writer is inside with another writer or a reader |
| RWLock.BlockedReaderWaitsForWriter | py_ipfs_lite/peer/ipld.py:256-259 | a first reader that waits for the semaphore while it holds the counter's lock waits for a writer |
| RWLock.NoDeadlock | py_ipfs_lite/peer/ipld.py:254-274 | while some task is unfinished, some task can step |
| RWLock.WaitingIsReachable | py_ipfs_lite/peer/ipld.py:255-259 | an ordinary run leads to a reader waiting for a writer with the counter's lock held |
| RWLock.CancellationSpoilsCounter | py_ipfs_lite/peer/ipld.py:256-266 | in every state either cancellation leaves the counter one too high |
| RWLock.CancelledWaitLetsReaderIn | py_ipfs_lite/peer/ipld.py:256-259 | in every state, after such a wait is cancelled ordinary steps take the next reader in beside the writer |
| RWLock.CancelledLeaveBlocksWriter | py_ipfs_lite/peer/ipld.py:262-266 | cancelling the last reader on its way out leaves a waiting writer stuck |
| GcSystem.GcStaysOnTrack | py_ipfs_lite/peer/_content.py:476-505 | every snapshot, walk turn and delete keeps a collection on the way to one atomic collection of the store it found |
| GcSystem.NextKeepsInv | py_ipfs_lite/peer/_content.py:91-110 | every step of any adder, collector or outside caller keeps the system invariant |
| GcSystem.RunKeepsInv | py_ipfs_lite/peer/_content.py:91-110 | so it holds throughout every interleaving |
| GcSystem.SectionRemembers | py_ipfs_lite/peer/_content.py:476-481 | a collection works from the store it found on acquiring the lock and the pins of one moment inside |
| GcSystem.CollectionIsAtomic | py_ipfs_lite/peer/_content.py:476-505 | in every interleaving, when a collection ends the store is one atomic collection of the store at acquisition, and the counts reported are true |
| GcSystem.OpenSectionsAreSafe | py_ipfs_lite/peer/_content.py:331-332 | a block put by a still open add section is there unless a caller removed it since it was last put, and no collection step can happen next |
| GcSystem.OpenPutSurvives | py_ipfs_lite/peer/_content.py:91-110 | in every interleaving a block put inside an add section stays while the section is open, unless a caller removes it |
| GcSystem.CollectionNeverStuck | py_ipfs_lite/peer/_content.py:478-500 | a collection that has not ended has a next step |
| GcSystem.SystemNeverStuck | py_ipfs_lite/peer/_content.py:478-500 | in every reachable state of the whole system with an unfinished task, some task can take a step of its own |
| GcSystem.GcMakesProgress | py_ipfs_lite/peer/_content.py:478-500 | every step of a collection lowers a number of steps left |
| GcSystem.EveryCollectionEnds | py_ipfs_lite/peer/_content.py:478-500 | in every interleaving a collection takes no more steps than the store it found and the pins of one moment inside allow, so it ends |
| GcWriters.PinnedSurvivesWriters | py_ipfs_lite/peer/_content.py:476-500 | whatever unlocked writers put between its steps, a collection whose reads succeed leaves all that one atomic collection of the store it found would leave |
| GcWriters.UnpinnedPutIsCollected | py_ipfs_lite/peer/_content.py:478-500 | an unpinned block put before the key snapshot is collected |
| Car.ExportCar | py_ipfs_lite/car.py:59-131 | succeeds iff nothing the root leads to is missing locally and remotely; then the file is the length of the header, the header with the root behind a zero byte, and for each block of the walk in order its length, identifier and data |
| Car.File.ReadExactly | py_ipfs_lite/car.py:19-26 | the next n bytes however short the single reads are, or EOFError iff there are fewer |
| Car.File.ReadVarint | py_ipfs_lite/car.py:29-43 | the loop reads exactly one LEB128 number and tells an empty stream from one cut inside a number |
| Car.ImportBlocks | py_ipfs_lite/car.py:159-186 | which blocks are stored before the loop ends or raises |
| Car.CheckRoots | py_ipfs_lite/car.py:188-203 | passes iff every root is there and, when strict, leads to whole blocks only |
| Car.ImportCar | py_ipfs_lite/car.py:134-214 | the store and the result of an import, error kinds included; a block new or changed carries the hash of its data |
| Car.ImportSucceedsExactly | py_ipfs_lite/car.py:147-214 | an import succeeds iff the header counts, the sections are read to an end and the roots hold; it returns the roots in order |
| Car.HeaderRootsMean | py_ipfs_lite/car.py:148-157 | a header counts iff it loads, is of version 1 and has roots that parse |
| Car.RootsInOrder | py_ipfs_lite/car.py:153-157 | the roots are those under tag 42 behind one byte, in order; one that does not parse is an error, others are passed over |
| Car.OnlyVerifiedBlocksStored | py_ipfs_lite/car.py:174-186 | on any bytes, rejected or not, the hash of a block that is new or changed, under its identifier's own hash function, is the identifier's digest |
| Car.BlockReadExactly | py_ipfs_lite/car.py:168-184 | a section is taken for a block iff it is an identifier and behind it data with that digest |
| Car.ImportStopsAtBadSection | py_ipfs_lite/car.py:159-184 | the first section that is none, or whose hash fails or differs, ends the import with CarParseError, and the store keeps the good ones before it |
| Car.ReadingEnds | py_ipfs_lite/car.py:160-166 | reading ends well at the end of the file and at an empty section, and badly inside a section |
| Car.EofEscapesExactly | py_ipfs_lite/car.py:142-145 | a bare EOFError escapes iff there are bytes and all of them announce another in the header's length |
| Car.ReadSectionBack | py_ipfs_lite/car.py:101-104 | a section written for a block with a matching hash is read back, and reading goes on behind it |
| Car.CutSectionFails | py_ipfs_lite/car.py:160-166 | a section cut anywhere but at its ends is an error |
| Car.ReadCutSections | py_ipfs_lite/car.py:159-186 | of sections cut anywhere the whole ones are stored, and the loop passes iff the cut is between two |
| Car.CutHeaderFails | py_ipfs_lite/car.py:141-149 | the empty file has no roots; a cut in the header length and a cut in the header fail in different ways |
| Car.ImportCut | py_ipfs_lite/car.py:134-214 | what any import of an archive cut behind its header stores and returns |
| Car.RoundTrip | py_ipfs_lite/car.py:134-214 | an exported archive imports to exactly its root and exactly the reachable blocks; strict mode refuses it iff one of them does not decode |
| Car.CutWalkReachesMissing | py_ipfs_lite/dag_utils.py:75-83 | with its later blocks gone, a strict walk still reaches the first missing one, because its discoverer comes earlier |
| Car.StrictImportCatchesEveryCut | py_ipfs_lite/car.py:188-203 | strict import fails on every proper non-empty prefix of an exported archive |
| Car.LaxImportPassesSectionCuts | py_ipfs_lite/car.py:159-190 | non-strict import passes a prefix iff it is empty or ends between two sections behind the root's |
| TrackerMemory.RememberIsBounded | py_ipfs_lite/connection_tracker.py:345-360 | the memory never exceeds 2000 entries, holds no key twice, and holds the key just marked |
| TrackerMemory.PurgeIsExact | py_ipfs_lite/connection_tracker.py:349-358 | the early-exit purge removes exactly the expired entries iff these all come first |
| TrackerMemory.FreshMarksStayInOrder | py_ipfs_lite/connection_tracker.py:348-360 | marking a key not in memory keeps the time order and leaves exactly what has not expired, less the oldest over the cap |
| TrackerMemory.MemoryIsRecent | py_ipfs_lite/connection_tracker.py:345-360 | after every run of marks of different keys the memory is in time order and holds exactly those of the last 2000 that have not expired |
| TrackerMemory.RemembersExactly | py_ipfs_lite/connection_tracker.py:345-360 | after such a run a key is remembered iff it is among the last 2000 marked and had not expired at the last mark |
| TrackerMemory.ReMarkedKeyHidesExpired | py_ipfs_lite/connection_tracker.py:348-356 | a key marked again can hide an expired entry from the purge |
| TrackerClass.ConnectionStatsTracker.OpenedStream | py_ipfs_lite/connection_tracker.py:713-757 | the state after an open event |
| TrackerClass.ConnectionStatsTracker.RefreshRecordMetadata | py_ipfs_lite/connection_tracker.py:840-898 | the record and the counters after late metadata is filled in; live records are left alone |
| TrackerClass.ConnectionStatsTracker.CountLateDirection | py_ipfs_lite/connection_tracker.py:849-866 | a direction found late is counted once, as on opening |
| TrackerClass.ConnectionStatsTracker.MarkFinalized | py_ipfs_lite/connection_tracker.py:345-360 | the loop and the cap leave the memory as specified |
| TrackerClass.ConnectionStatsTracker.SettleRecord | py_ipfs_lite/connection_tracker.py:1087-1108 | the accounting every way of closing shares |
| TrackerClass.ConnectionStatsTracker.FinalizeRecord | py_ipfs_lite/connection_tracker.py:1076-1108 | a live record is closed like any other |
| TrackerClass.ConnectionStatsTracker.ClosedStream | py_ipfs_lite/connection_tracker.py:772-838 | the state after a close event: live, duplicate or unknown; and whether it raises in the end |
| TrackerClass.ConnectionStatsTracker.SweepRecord | py_ipfs_lite/connection_tracker.py:1122-1158 | what the sweep does with one record and whether it reports it |
| TrackerClass.ConnectionStatsTracker.CheckForLeaks | py_ipfs_lite/connection_tracker.py:1110-1173 | every live record is swept once, in any order; those live afterwards are exactly those not over; the list returned is exactly those of them too old and not flagged before |
| TrackerClass.ConnectionStatsTracker.PruneConnection | py_ipfs_lite/connection_tracker.py:540-544 | exactly the live streams of the connection are finalized, each once |
| TrackerClass.PoppedFirst | py_ipfs_lite/connection_tracker.py:775-796 | popping the record before refreshing it comes to the same as popping it after |
| TrackerLaws.OpenKeepsInv | py_ipfs_lite/connection_tracker.py:724-757 | an open event under a new key keeps every law |
| TrackerLaws.OpenConservesExactly | py_ipfs_lite/connection_tracker.py:733-742 | opening conserves the counts iff the key is not live |
| TrackerLaws.OpenRecordsStream | py_ipfs_lite/connection_tracker.py:724-755 | a new stream is recorded as seen and counted under its protocol, or under "unknown" without one |
| TrackerLaws.LivePeerHasStats | py_ipfs_lite/connection_tracker.py:855-870 | a peer with a live stream has statistics, so the guards of a refresh never skip |
| TrackerLaws.MoveBucketKeeps | py_ipfs_lite/connection_tracker.py:871-879 | moving a stream to its bucket keeps the sum and leaves no empty bucket |
| TrackerLaws.MoveBucketMoves | py_ipfs_lite/connection_tracker.py:871-879 | one stream leaves the bucket "unknown" for that of its protocol, and no other bucket changes |
| TrackerLaws.RefreshedMeans | py_ipfs_lite/connection_tracker.py:847-851 | late metadata fills in what was unknown and replaces nothing |
| TrackerLaws.RefreshKeepsInv | py_ipfs_lite/connection_tracker.py:840-898 | late metadata keeps every law: directions, buckets and totals |
| TrackerLaws.ClampsNeverBite | py_ipfs_lite/connection_tracker.py:1092-1102 | closing a live stream lowers each count by exactly one, never stopped at zero |
| TrackerLaws.FinalizeKeepsInv | py_ipfs_lite/connection_tracker.py:1076-1108 | finalizing a live record keeps every law |
| TrackerLaws.CloseKeepsInv | py_ipfs_lite/connection_tracker.py:772-832 | so does a close event for a live or remembered key |
| TrackerLaws.CloseMeans | py_ipfs_lite/connection_tracker.py:772-832 | a close event for a live stream takes it out and counts the close, and a reset if there was one |
| TrackerLaws.CloseConservesExactly | py_ipfs_lite/connection_tracker.py:775-824 | closing conserves the counts iff the key is live or still remembered |
| TrackerLaws.DuplicateCloseIsIgnored | py_ipfs_lite/connection_tracker.py:774-783 | a second close event for the key just closed changes nothing at all |
| TrackerDuplicates.LateDuplicateIgnoredExactly | py_ipfs_lite/connection_tracker.py:774-783 | however late, a second close changes nothing iff at most 2000 streams were finalized since, the last within 300 seconds |
| TrackerLaws.FlagKeepsInv | py_ipfs_lite/connection_tracker.py:1147-1157 | flagging a live record not flagged yet keeps every law |
| TrackerLaws.SweepPerRecord | py_ipfs_lite/connection_tracker.py:1122-1157 | whatever the order, what a sweep makes of each record |
| TrackerLaws.SweepMeans | py_ipfs_lite/connection_tracker.py:1122-1157 | a sweep closes a stream iff it is dead, or no connection it names is registered and it names one or its known peer is not connected; it flags the others iff they are too old |
| TrackerLaws.RegisteredStreamStays | py_ipfs_lite/connection_tracker.py:958-964 | a stream with a registered connection, not dead, survives every sweep |
| TrackerLaws.UnregisteredStreamIsClosed | py_ipfs_lite/connection_tracker.py:965-971 | a stream without one is closed when it names a connection or its known peer is not connected |
| TrackerLaws.NamelessStreamStays | py_ipfs_lite/connection_tracker.py:965-972 | a stream that names no connection stays while its peer is connected or unknown |
| TrackerLaws.SweepKeepsInv | py_ipfs_lite/connection_tracker.py:1110-1173 | a sweep keeps every law |
| TrackerLaws.PruneKeepsInv | py_ipfs_lite/connection_tracker.py:540-544 | a disconnect keeps every law |
| TrackerLaws.EvictConservesExactly | py_ipfs_lite/connection_tracker.py:584-587 | evicting a peer conserves the counts iff it has no live stream |
| TrackerLaws.EveryRunIsConserved | py_ipfs_lite/connection_tracker.py:713-832 | after every run: opened minus closed is current is live, per peer and per direction; current <= peak <= opened; buckets are positive and sum to opened; per protocol, outbound and inbound together never exceed the total; the memory is bounded |
| TrackerLaws.CloseRaisesExactly | py_ipfs_lite/connection_tracker.py:773-838 | after every run on a clock past zero, a close event raises iff its key is neither live nor remembered |
| TrackerLedger.FlagStaysExact | py_ipfs_lite/connection_tracker.py:1147-1157 | a flag is raised only for a stream never flagged before, and adds one to its peer's leaks |
| TrackerLedger.RefreshStaysExact | py_ipfs_lite/connection_tracker.py:881-898 | a stream enters the totals only when it never did before, under one protocol and one direction |
| TrackerLedger.EveryStreamCountsOnce | py_ipfs_lite/connection_tracker.py:881-1157 | after every sequence of events, a peer's leaks are the number of different streams of it that were flagged, and the totals by protocol, in all and by direction, the numbers of different streams counted: none is flagged or counted twice |
| Pubsub.StatisticsMean | py_ipfs_lite/peer/_pubsub.py:201-216 | misses are the length of the present run below the threshold; hits and peak are those of the scans since the last dead streak |
| Pubsub.LastDeathExists | py_ipfs_lite/peer/_pubsub.py:211-216 | every history has exactly one point where the scans since its last dead streak begin |
| Pubsub.HitsAreConsecutiveExactly | py_ipfs_lite/peer/_pubsub.py:207-216 | the counter of hits is the length of the present run above the threshold, on all histories, iff one miss ends a streak |
| Pubsub.JoinRuleIsConsecutiveExactly | py_ipfs_lite/peer/_pubsub.py:177-179 | having enough hits means having as many confirmations in a row, on all histories, iff one miss ends a streak |
| Pubsub.ConfirmedJoin | py_ipfs_lite/peer/_pubsub.py:177-179 | when one miss ends a streak, every topic a pass tries has its confirmations in a row |
| Pubsub.UnconfirmedJoinHappens | py_ipfs_lite/peer/_pubsub.py:237-263 | whenever one miss does not end a streak and there is room at all, some run of passes joins a topic that its last scan did not find |
| Pubsub.InterruptedHitsCount | py_ipfs_lite/peer/_pubsub.py:207-216 | a hit, a miss and a hit are two hits when two misses end a streak |
| Pubsub.UpdateAgrees | py_ipfs_lite/peer/_pubsub.py:202-216 | one more scan keeps every topic's statistics those of its history |
| Pubsub.Scorer.UpdateStreaks | py_ipfs_lite/peer/_pubsub.py:202-216 | the first loop updates each topic seen or known once |
| Pubsub.Scorer.LeaveStale | py_ipfs_lite/peer/_pubsub.py:218-234 | the second loop drops exactly the unprotected subscriptions with too many misses, with their statistics |
| Pubsub.Scorer.Rank | py_ipfs_lite/peer/_pubsub.py:237-245 | the candidates, each once, by falling peak |
| Pubsub.Scorer.Subscribe | py_ipfs_lite/peer/_pubsub.py:276-295 | a refusal leaves the subscriptions as they were; a failure to start the receive loop leaves the topic subscribed |
| Pubsub.Scorer.JoinRanked | py_ipfs_lite/peer/_pubsub.py:246-264 | tries the prefix of the ranking that ends exactly when the cap is reached |
| Pubsub.Scorer.DiscoveryPass | py_ipfs_lite/peer/_pubsub.py:173-274 | what a pass leaves, joins and keeps follows its rules; statistics still follow the histories |
| Pubsub.PassFollowsRules | py_ipfs_lite/peer/_pubsub.py:187-264 | in terms of the configuration: configured topics and the node's own stay; any other subscription is left iff this scan is one miss too many; the candidates are those with enough hits; one is joined iff tried and accepted, and passed over only at the cap |
| Pubsub.PassKeepsCap | py_ipfs_lite/peer/_pubsub.py:247-255 | at most the cap or the starting count, even when subscribing fails |
| Pubsub.PassIsGreedy | py_ipfs_lite/peer/_pubsub.py:237-264 | a candidate passed over means the cap is reached, and never outranks one that was tried |
| Pubsub.PassHysteresis | py_ipfs_lite/peer/_pubsub.py:220-262 | configured topics and the node's own stay, nothing left is tried again, and no other subscription with statistics has missed too often |
| Pubsub.JoinedMeansSubscribedExactly | py_ipfs_lite/peer/_pubsub.py:246-264 | all topics tried are subscribed to, and the count reported is that of the new subscriptions, iff no candidate there is room for is refused |
| Pubsub.AutoJoinedMeansSubscribedExactly | py_ipfs_lite/peer/_pubsub.py:246-264 | the auto-joined topics stay among the subscriptions iff no candidate there is room for is refused |
| Pubsub.RefusedTopicCountsAsJoined | py_ipfs_lite/peer/_pubsub.py:256-264 | a pass in which the one candidate is refused reports one topic joined and marks it |
| Pubsub.LeavesOnlyAutoJoinedExactly | py_ipfs_lite/peer/_pubsub.py:182-184 | whatever the next scan finds it leaves auto-joined topics only, iff no other unprotected subscription is one miss from stale |
| Gauges.MetricsBlockStore.PutBlock | py_ipfs_lite/metrics.py:377-382 | store and gauges after a put |
| Gauges.MetricsBlockStore.DeleteBlock | py_ipfs_lite/metrics.py:407-425 | store and gauges after a delete |
| Gauges.MetricsBlockStore.PutBlocks | py_ipfs_lite/metrics.py:384-399 | store and gauges after a batch whose new blocks are decided before any is written; the last entry for a block wins |
| Gauges.PutAgreesExactly | py_ipfs_lite/metrics.py:377-382 | a put keeps the gauges true iff it does not replace a block by one of another size |
| Gauges.DeleteAgrees | py_ipfs_lite/metrics.py:407-425 | a delete keeps them true and neither guard skips a decrement that is due |
| Gauges.PutManyAgreesExactly | py_ipfs_lite/metrics.py:384-399 | a content-addressed batch keeps them true iff it lists no new block twice |
| Gauges.RunAgrees | py_ipfs_lite/metrics.py:377-425 | after every such run the gauges are the number of blocks and their total size |
| Reassembly.Fetcher.FetchBlock | py_ipfs_lite/peer/_content.py:222-235 | the block delivered is the same whether it comes from the local store, the last good peer or another, and whatever was prefetched before |
| Reassembly.Fetcher.FetchStream | py_ipfs_lite/peer/_content.py:237-293 | the chunks of a file do not depend on batch size, on what a prefetch brings in before it ends or fails, on the local store or on which peers serve |
| Reassembly.Fetcher.FetchLinks | py_ipfs_lite/peer/_content.py:267-293 | the loops over batches deliver the links' streams in order until one fails |
| Reassembly.StreamIsContent | py_ipfs_lite/peer/_content.py:237-293 | the stream is the left-to-right concatenation of the leaves; it ends well iff every needed block is there and decodes; a failing one has delivered a prefix |
| Reassembly.ContentMeans | py_ipfs_lite/peer/_content.py:244-293 | a file's content is that of all its links in order, whatever data stands beside them; a leaf's its data; a directory's that of its first link |
| Reassembly.Fetcher.GetFile | py_ipfs_lite/peer/_content.py:295-312 | disk, stream and buffer carry the same bytes |
| KeepAlive.EventKeepsInv | py_ipfs_lite/peer/_maintenance.py:77-104 | every step keeps: in flight are exactly the peers with a ping, none has two, permits and pings under way make up the limit |
| KeepAlive.RunKeepsInv | py_ipfs_lite/peer/_maintenance.py:57-104 | so in every run, and at most 25 pings are under way |
| KeepAlive.SweepQueuesExactly | py_ipfs_lite/peer/_maintenance.py:78-101 | a sweep queues exactly the connected peers not in flight whose last recorded ping is at least 15 seconds ago, each once |
| KeepAlive.RequeuedAfterInterval | py_ipfs_lite/peer/_maintenance.py:78-94 | a peer is queued again at least 15 seconds after its last recorded ping |

## Left out

- Ipld.Collector.Extract: dictionary keys are text; a key of another type is some other text.
- Stream records and peer statistics are values in the tracker's tables, so aliasing of a record by a caller is not captured.
- Lifetimes, lifespan buckets, reason hints, connection metadata and snapshots of the tracker: reporting only.
- How a stream object shows its protocol, direction and state: arguments of the tracker's methods.
- The choice of peers to evict when connection statistics overflow; only the effect of an eviction on stream statistics is modelled.
- Prometheus stream counters other than the one for opened streams: the sweep does not raise the closed counter.
- Fairness of the lock: overlapping readers can hold off a writer for ever.
- Progress callbacks of `get_file`, a fetch that times out although a peer has the block, and `SeekableReader`.
- Tiered routing: it asks its routers in turn and merges what they return.
- The HTTP API, the command line and configuration: plumbing over libraries.
- IPNS, versioning and the reprovider: chains of single checks around signatures and timers.
- Persistence of pins and topics to disk.
- The connection pruner, which is never started.
