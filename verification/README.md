# Verified models of the node's storage, wallet, address and codec code

This project models the hard parts of the repository in Dafny and proves what they promise:

- **LevelDB**: the snapshot iterator (`DbIter`), the compaction drop rule (`Compaction`), the group-commit queue
  (`GroupCommit`, `WriteQueue`), and the protocol of log, memtable, manifest and reopening (`CrashRecovery`; that each
  operation can complete, `CrashProgress`; what reopening may lose, `Reopening`; what readers see after crashes,
  `CrashReads`, and at a snapshot they hold, `HeldSnapshots`). `Run` holds the entries all of these share and the plain key-to-value map a reader at a snapshot is
  promised.
- **The parallel check queue**: its critical sections (`CheckQueue`) and all their interleavings over any number of
  workers (`CheckQueueProtocol`).
- **The address manager**: the tables and their invariant (`AddrBook`), the code's own consistency check
  (`AddrCheck`), the operations (`AddrMan`), and the file (`AddrDisk`).
- **The wallet**: coin selection (`CoinSelection`), the fee loop (`CreateTransaction`), address groups
  (`AddressGroups`).
- **Codecs and arithmetic**: Merkle trees and branches (`Merkle`), pruned coins (`PrunedCoins`), message framing
  (`Framing`), compact targets and signed byte forms (`BigNum`), the minimum-work rule (`MinWork`), Base58 (`Base58`,
  over digits in a base, `Radix`).

Objects that the program updates in place are classes whose methods state their whole new state; concurrent protocols
are transition systems with theorems about every run. Random draws are arbitrary choices within their range. Hashes,
signature checks, fee estimates and the byte codecs that are not in the repository are parameters. Integers are
unbounded.

Four properties one might expect do not hold of the code, and the project says exactly when they do:

- `DBIter::Next` after a reverse move takes the key to skip from the internal iterator. It yields the successor exactly
  if the entry just before the current key's entries is not newer than the snapshot; otherwise it shows the current key
  again (`TurningRound`, `PrevThenNext`; `RepeatedKey` is the smallest instance).
- `SelectTried` returns the position an entry was drawn from, after swapping it elsewhere. That position holds an entry
  at least as old as all those inspected, whatever their ages, exactly if every entry was drawn where it already stood
  (`RightForAllAges`); and, whatever is drawn, exactly if all entries of the bucket are equally old or it holds just
  two of which the second is not the older (`RightForAllDraws`; `SelectedNotOldest` is an instance of the failure).
- `Recover` keeps only the status of the last log it replays, and without paranoid checks, which is the default, a
  replay reports success after dropping what it could not read. Reopening a closed disk loses nothing exactly if the
  durable entries of every log that may be replayed in part are also in tables of the manifest or in logs replayed whole
  (`ReopeningLosesNothing`). `EarlierFailureIsHidden` and `ErrorIsIgnored` are the two ways to lose an acknowledged
  write. Nothing is ever lost in a run whose replays are complete (`NothingLost`), as they are with paranoid checks and
  successful replays throughout (`ParanoidIsComplete`).
- The compact encoding cuts its exponent to one byte. It is close to the number exactly if the exponent fits
  (`CloseIffEncodable`); of 256^256 it leaves 1 (`TooLarge`).

The comment above the iterator's direction switch (leveldb/db/db_iter.cc:134-136) says the position is just before the
entries for the current key; the code is followed, where entries newer than the snapshot may lie between.

## Model

| member | source | states |
|---|---|---|
| Run.NewestExists | leveldb/db/db_impl.cc:1051-1096 | whenever some entry of a key is visible at a snapshot there is a newest one, which decides the lookup |
| DbIter.LiveIsView | leveldb/db/db_iter.cc:155-185 | an entry that is the first visible one of its key and a value is exactly a binding of the snapshot map |
| DbIter.ViewIsLive | leveldb/db/db_iter.cc:155-185 | every binding of the snapshot map is shown by such an entry |
| DbIter.DBIter.FindNextUserEntry | leveldb/db/db_iter.cc:155-185 | stops at the first live entry from its position, beyond the skipped key if there is one, or finds that there is none |
| DbIter.DBIter.FindPrevUserEntry | leveldb/db/db_iter.cc:214-254 | saves the last live entry up to its position and stops just before that key's visible entries, or finds that there is none |
| DbIter.DBIter.Next | leveldb/db/db_iter.cc:129-153 | shows the least live key above the key skipped, which is its own key after a forward move |
| DbIter.DBIter.Prev | leveldb/db/db_iter.cc:187-212 | from any position shows the greatest live key below the current one, or ends |
| DbIter.DBIter.Seek | leveldb/db/db_iter.cc:256-268 | lands on the least live key at or above the target, or is invalid if there is none |
| DbIter.DBIter.SeekToFirst | leveldb/db/db_iter.cc:270-279 | lands on the least live key, or is invalid if there is none |
| DbIter.DBIter.SeekToLast | leveldb/db/db_iter.cc:281-286 | lands on the greatest live key, or is invalid if there is none |
| DbIter.DBIter.Shows | leveldb/db/db_iter.cc:100-113 | in either direction key and value of a valid iterator are a binding of the snapshot map |
| DbIter.DBIter.TurningRound | leveldb/db/db_iter.cc:132-152 | Next after a reverse position yields the successor if and only if the entry before the key's entries is visible, and else the same key |
| DbIter.CleanMeansAdjacent | leveldb/db/db_iter.cc:132-152 | that condition on the run says exactly that the entry after the internal position belongs to the current key |
| DbIter.ScanForward | leveldb/db/db_iter.cc:129-185 | SeekToFirst and Next until invalid list the snapshot map: every live key once, ascending, with its value |
| DbIter.ScanBackward | leveldb/db/db_iter.cc:187-286 | SeekToLast and Prev until invalid list the same map in descending order |
| DbIter.PrevThenNext | leveldb/db/db_iter.cc:129-212 | Prev and then Next return to the key started from exactly if the predecessor has no newer entry just before its own; always, with no entry newer than the snapshot |
| DbIter.NextThenPrev | leveldb/db/db_iter.cc:129-212 | Next and then Prev return to the key started from, save from a reverse position with a newer entry just before its key: there Next stays and Prev goes to the predecessor |
| DbIter.RepeatedKey | leveldb/db/db_iter.cc:132-152 | a@1, b@5, c@2 at snapshot 3: SeekToLast and Next show c twice |
| Compaction.KeptExactly | leveldb/db/db_impl.cc:886-917 | an entry survives if and only if it is of the input, is not a deletion marker that the oldest snapshot sees and that has nothing below it, and no newer entry of its key is seen by that snapshot |
| Compaction.SurvivorsSorted | leveldb/db/db_impl.cc:864-956 | the surviving entries stay sorted |
| Compaction.CompactionPreservesLookup | leveldb/db/db_impl.cc:848-956 | at every snapshot from the oldest on and for every key, lookup over the survivors and the rest of the database equals lookup over the inputs and the rest |
| Compaction.ObsoleteDeletion | leveldb/db/db_impl.cc:906-917 | if the newest visible entry of a key is dropped it is a deletion marker and nothing visible of the key is left anywhere |
| Compaction.SmallestIsOldest | leveldb/db/db_impl.cc:848-852 | the snapshot a compaction takes for the oldest is the least of those held, or the last sequence number if none is |
| Compaction.CompactionState.Add | leveldb/db/db_impl.cc:931-943 | an entry is appended to the open table, whose key range follows |
| Compaction.CompactionState.FinishOutputFile | leveldb/db/db_impl.cc:762-811 | closing a table changes nothing of what has been written; if it fails the entries of that table are gone |
| Compaction.CompactionState.Emit | leveldb/db/db_impl.cc:877-951 | one entry is written unless dropped, wherever tables are cut; a failure has a cause and leaves a part of what was to be written, from the front |
| Compaction.CompactionState.Close | leveldb/db/db_impl.cc:958-966 | at the end the open table is closed; on success what was written is in closed tables, else a part of it from the front |
| Compaction.WriteSurvivors | leveldb/db/db_impl.cc:864-966 | on success the tables together hold exactly the survivors in order, each with the right key range; after shutdown or a file error, the only reasons to fail, a part of them from the front |
| Compaction.DoCompactionWork | leveldb/db/db_impl.cc:848-966 | on success the tables hold, sorted, exactly the input without markers that the oldest of the snapshots held, or the last sequence number, sees above nothing, and without entries older than one of their key that it sees |
| GroupCommit.BuildBatchGroup | leveldb/db/db_impl.cc:1192-1237 | builds the longest group the sync and size rules allow; its operations are the leader's, then each follower's where those before end, in queue order |
| GroupCommit.FitsOneMore | leveldb/db/db_impl.cc:1200-1218 | a writer joins exactly if it does not sync under a leader that does not and its batch keeps the group within one megabyte, or 128 kilobytes beyond a leader's batch of no more than that |
| GroupCommit.TwoFit | leveldb/db/db_impl.cc:1200-1218 | the same for two writers with batches, in bytes |
| WriteQueue.NextKeepsInv | leveldb/db/db_impl.cc:1127-1188 | every step of every writer keeps the invariant of queue, groups and sequence numbers |
| WriteQueue.RunKeepsInv | leveldb/db/db_impl.cc:1127-1188 | the invariant holds in every state of every interleaving |
| WriteQueue.GroupsAreFifo | leveldb/db/db_impl.cc:1171-1180 | groups take requests in order of arrival, each a contiguous stretch, and what a group took is queued no more |
| WriteQueue.OneLeaderEach | leveldb/db/db_impl.cc:1134-1140 | no request is in two groups, and earlier groups hold earlier requests |
| WriteQueue.NumbersNeverReused | leveldb/db/db_impl.cc:1144-1168 | sequence numbers of a group start beyond those of all earlier ones, failed ones included |
| WriteQueue.MemtableIncreases | leveldb/db/db_impl.cc:1162 | operations enter the memtable under strictly increasing numbers, so none is applied twice |
| WriteQueue.AcknowledgedIsApplied | leveldb/db/db_impl.cc:1155-1187 | a write reported successful is in the memtable, whole, in its own order, under consecutive numbers |
| WriteQueue.AcknowledgedInOrder | leveldb/db/db_impl.cc:1148-1230 | of two writes reported successful, in one group or not, the one that arrived first has all its numbers below all those of the other |
| WriteQueue.GroupsRespectLimits | leveldb/db/db_impl.cc:1200-1233 | no sync write rides under a leader that does not sync, and no group outgrows its first batch and the limit, in bytes |
| WriteQueue.GroupsAreLongest | leveldb/db/db_impl.cc:1208-1218 | and a leader leaves the next in line behind only because it syncs and the leader does not, or its batch is too large for the group, in bytes |
| WriteQueue.NeverStuck | leveldb/db/db_impl.cc:1135-1137 | a nonempty queue always has a front that can move, and every finished writer can return |
| WriteQueue.AtMostFourStepsEach | leveldb/db/db_impl.cc:1127-1188 | no run has more than four steps other than arrivals and idle wake-ups for each request |
| WriteQueue.SomebodyCanMove | leveldb/db/db_impl.cc:1135-1187 | while some request has not returned such a step is possible, so requests cannot wait for ever while such steps are taken |
| WriteQueue.RoomIsUsed | leveldb/db/db_impl.cc:1143-1147 | once room is made the leader can go on with the longest group, or alone without a batch |
| WriteQueue.AnyEndMayCome | leveldb/db/db_impl.cc:1155-1168 | the log, the sync and the insertion may succeed, or fail with any part of the group applied; its numbers are used up in either case |
| CrashRecovery.NextKeepsInv | leveldb/db/db_impl.cc:206-517 | every step of writing, failing to write, flushing, compacting, deleting files, crashing and reopening, ignored replay errors included, keeps the invariant |
| CrashRecovery.NextKeepsFresh | leveldb/db/db_impl.cc:335-339 | every step keeps what can be read no newer than the last sequence number |
| CrashRecovery.RunKeepsInv | leveldb/db/db_impl.cc:1155-1168 | in every state of every run, over any crashes and reopenings, the disk alone holds every acknowledged write, save what a compaction retired or a reopening lost, and everything in the two memtables |
| Reopening.ReopeningLosesNothing | leveldb/db/db_impl.cc:265-343 | for a closed disk and the logs sure to replay whole: every reopening loses nothing if and only if the durable entries of every other log are in the tables of the manifest or in those logs; with paranoid checks the newest log is sure to, as its status decides |
| CrashRecovery.NothingLost | leveldb/db/db_impl.cc:345-438 | if log replays are complete, no acknowledged write is lost in any run, for process crashes and for power failures |
| CrashRecovery.ParanoidIsComplete | leveldb/db/db_impl.cc:375-418 | with paranoid checks and successful replays throughout a run its replays are complete |
| Reopening.EarlierFailureIsHidden | leveldb/db/db_impl.cc:326-335 | two logs, the first of which fails to replay: opening succeeds, with paranoid checks too, and the acknowledged write is gone |
| Reopening.ErrorIsIgnored | leveldb/db/db_impl.cc:364-370 | one log that cannot be read: without paranoid checks the replay reports success, opening succeeds, and the acknowledged write is gone |
| CrashRecovery.NewWritesAreNewest | leveldb/db/db_impl.cc:1144-1149 | in every run a write, also after reopening, is newer than everything that can be read |
| CrashProgress.WriteSucceeds | leveldb/db/db_impl.cc:1144-1187 | a write can always be carried through log, sync and memtable; readers then see it under its numbers, and it is acknowledged if the crash mode promises to keep it |
| CrashProgress.FlushSucceeds | leveldb/db/db_impl.cc:486-517 | a memtable can always be put aside and flushed: its entries are then in a table of the manifest, which asks for no log before the current one |
| CrashProgress.CompactionSucceeds | leveldb/db/db_impl.cc:835-966 | any tables can be compacted: one table with exactly what the drop rule leaves takes their place |
| CrashProgress.OpenSucceeds | leveldb/db/db_impl.cc:265-343 | a closed database can always be opened, replaying every log whole |
| CrashProgress.PowerMayFail | leveldb/db/db_impl.cc:1155-1158 | in any state power may fail, and cut any log anywhere beyond what was synced |
| CrashReads.NextKeepsReads | leveldb/db/db_impl.cc:486-517 | every step keeps: logs are newer than tables, and readers of the present miss nothing of what compactions left out |
| CrashReads.RunKeepsReads | leveldb/db/db_impl.cc:1399-1431 | this holds in every state of every run |
| CrashReads.RetiredIsInvisible | leveldb/db/db_impl.cc:814-833 | lookups from the disk are the same with and without the entries retired by all compactions so far |
| CrashReads.AcknowledgedIsRead | leveldb/db/db_impl.cc:295-343 | after any crashes, if replays are complete, an acknowledged write that is the newest of its key is what a reader of the disk finds |
| CrashRecovery.NextKeepsSnapshots | leveldb/db/db_impl.cc:848-852 | every step keeps: the running compaction, which looks for the oldest snapshot once at its start, spares every snapshot held, also those taken since |
| HeldSnapshots.StepKeepsView | leveldb/db/db_impl.cc:1051-1096 | no step of an open database, compactions included, changes what a snapshot held before it sees in memtables and tables |
| HeldSnapshots.SnapshotKeepsView | leveldb/db/db_impl.cc:1108-1116 | so a snapshot sees the same for as long as it is held, over any run of writes, flushes, compactions and deletions |
| CheckQueue.CCheckQueue.constructor | checkqueue.h:122-123 | the queue starts empty and in order |
| CheckQueue.CCheckQueue.Report | checkqueue.h:70-76 | a finished batch is counted off and the verdict updated; only the worker that ends the work notifies the master |
| CheckQueue.CCheckQueue.Proceed | checkqueue.h:82-110 | the critical section is the transition that the protocol's steps use: it takes the topmost share of the queue among all threads, one check at least and a full batch at most; or, the queue being empty, waits, or returns with nothing left to do and the verdict, which only the master resets |
| CheckQueue.CCheckQueue.Execute | checkqueue.h:112-116 | a batch succeeds if it started well and all its checks hold |
| CheckQueue.CCheckQueue.Add | checkqueue.h:136-147 | checks are pushed and counted; one worker is notified of one check, all of more |
| CheckQueueProtocol.NextKeepsInv | checkqueue.h:61-147 | every critical section of every thread keeps the counters, the work and the verdict in agreement |
| CheckQueueProtocol.RunKeepsInv | checkqueue.h:61-147 | so in every reachable state nTodo is the queue plus the batches at work, nTotal the idle plus the running threads |
| CheckQueueProtocol.WaitIsRight | checkqueue.h:83-91 | Wait returns only with nothing in flight, returns true if and only if every check of the round holds, and leaves the controller's entry assertions true |
| CheckQueueProtocol.QuietWhenEmpty | checkqueue.h:164-171 | with nothing added since the last return the controller's entry assertions hold |
| CheckQueueProtocol.BlockedMasterIsWoken | checkqueue.h:93 | a blocked master has been signalled or some worker is at work |
| CheckQueueProtocol.BatchesAreBounded | checkqueue.h:71-76 | along every run no more batches are finished than checks have been added; by nTodo less, at least |
| CheckQueueProtocol.MasterCanGoOn | checkqueue.h:71-94 | as long as the master is inside the loop some thread can finish a batch or the master can return; so a round in which such steps are taken ends |
| CheckQueueProtocol.EveryThreadCanGoOn | checkqueue.h:61-118 | in every reachable state every thread can take its next step, a blocked one as wake-ups may be spurious |
| CheckQueueProtocol.EnterLoop | checkqueue.h:77-110 | a thread entering the loop takes a step of the protocol: the invariant holds, it goes on with one check to a full batch, waits, or returns, the master with the verdict on its round |
| CheckQueueProtocol.EndOfWait | checkqueue.h:82-110 | so does a thread whose wait ends, signalled or not |
| CheckQueueProtocol.WorkOff | checkqueue.h:69-116 | so does a thread that works off its batch; nTodo falls, and the worker that brings it to zero, and no other, notifies the master |
| CheckQueueProtocol.AddChecks | checkqueue.h:136-147 | so does the master when he adds checks, whichever waiting workers the notification reaches; all of them are woken up by more than one check, and one of them by one |
| CheckQueueProtocol.NotifiedAreWoken | checkqueue.h:143-146 | this on the threads: after more than one check every blocked worker is signalled, after one some worker is if any is blocked |
| AddrBook.InsertKeepsInv | addrman.cpp:363-366 | inserting an entry counted once more settles its reference count |
| AddrBook.DropKeepsInv | addrman.cpp:160-172 | taking an entry out of a new bucket, and forgetting it with its last reference, keeps the invariant and never meets a tried entry |
| AddrBook.PromoteIntoKeepsInv | addrman.cpp:208-229 | moving an entry to a tried bucket with room keeps the invariant |
| AddrBook.PromoteForKeepsInv | addrman.cpp:231-259 | so does moving it in place of an entry that goes back to a new bucket with room |
| AddrBook.TablesInNumbers | addrman.h:110-145 | the invariant in numbers: 64 tried and 256 new buckets of 64 at most, one to four references of an untried entry |
| AddrMan.CAddrMan.constructor | addrman.h:382-390 | the empty manager satisfies the invariant |
| AddrMan.CAddrMan.Find | addrman.cpp:81-92 | finds the entry of an address exactly if there is one |
| AddrMan.CAddrMan.SwapRandom | addrman.cpp:106-124 | updates vRandom and both entries' positions |
| AddrMan.IsTerrible | addrman.cpp:38-58 | an entry is terrible exactly if it was not tried in the last minute and is ten minutes ahead, without a time, a month old, never reached in three attempts, or not within a week in ten |
| AddrMan.DeadGoFirst | addrman.cpp:155-173 | while a bucket holds an entry tried three times in vain, not within the last minute, what it gives up meets one of the five conditions and was not tried within the last minute either |
| AddrMan.CAddrMan.FirstTerrible | addrman.cpp:155-173 | the first entry of a bucket that meets these conditions, or none if no entry of it does |
| AddrMan.CAddrMan.OldestOfFour | addrman.cpp:175-189 | the first of the oldest entries at the four places drawn, in the order of ids |
| AddrMan.CAddrMan.ShrinkNew | addrman.cpp:150-202 | takes one entry out of the bucket: the first that meets the conditions for deletion, which returns 0, or if none does, which returns 1, the oldest of those drawn; it is forgotten with its last reference |
| AddrMan.InspectFindsOldest | addrman.cpp:132-147 | after any draws the remembered place of the shuffled bucket holds the oldest entry inspected |
| AddrMan.InspectPermutes | addrman.cpp:136-139 | the bucket is permuted |
| AddrMan.RightForAllAges | addrman.cpp:126-148 | the position returned holds an entry at least as old as every one inspected, whatever the ages, if and only if every entry was drawn where it stood |
| AddrMan.RightForAllDraws | addrman.cpp:126-148 | it does so whatever is drawn if and only if all entries are equally old, or there are two and the second is not the older |
| AddrMan.SelectedNotOldest | addrman.cpp:136-147 | of two entries, the newer one stands at the position returned |
| AddrMan.CAddrMan.SelectTried | addrman.cpp:126-148 | shuffles the bucket with four draws, or as many as there are entries, and returns where an entry was drawn from that was last reached no later than all those inspected |
| AddrMan.CAddrMan.EraseFromNew | addrman.cpp:208-213 | the entry leaves every new bucket and its count falls by their number |
| AddrMan.CAddrMan.MakeTried | addrman.cpp:204-260 | the entry ends in its tried bucket, in exchange for one entry if that was full; no assertion fires |
| AddrMan.MovedKeepsInv | addrman.cpp:204-260 | that keeps the invariant for an entry that has been seen to be good |
| AddrMan.CAddrMan.FindNewBucket | addrman.cpp:289-305 | finds a bucket holding the entry from any random start; the exit for none is unreachable |
| AddrMan.CAddrMan.Good_ | addrman.cpp:262-311 | only the exact service is affected; its times are set and it moves to the tried table; the invariant is kept if and only if the time is positive or the service is not known |
| AddrMan.MovedForgetsNobody | addrman.cpp:204-260 | marking an address good forgets nobody; with room in its tried bucket no other entry changes, else the entry selected gives up its place, and goes to the new bucket it belongs to or, if that is full, to the one the address was found in |
| AddrMan.CAddrMan.Add_ | addrman.cpp:313-369 | returns true exactly for a routable unknown address; the tables change as Added says, by the draw, and the invariant holds |
| AddrMan.Refreshed | addrman.cpp:322-332 | a time is taken over, less the penalty, if there was none or it is later by more than the penalty and an hour, a day for news a day old; services add up |
| AddrMan.AddedGoesInto | addrman.cpp:334-369 | the address enters the bucket that it and the source select and no other: an unknown one always, a known one by one draw in two to the number of its references and only when untried, in less than four buckets and with later news; a bucket of 64 gives up one entry, as ShrinkNew selects it, and no other entry changes |
| AddrMan.AddedForgetsOneAtMost | addrman.cpp:313-369 | no tried bucket changes, the address is known afterwards, and of the other entries at most one goes: an untried one with its last reference in the full bucket |
| AddrMan.CAddrMan.Attempt_ | addrman.cpp:371-388 | the last try is recorded for the exact service only; the invariant is kept if and only if the time is not negative or the service is not known |
| AddrMan.CAddrMan.Connected_ | addrman.cpp:510-528 | the time is refreshed after twenty minutes, for the exact service only, keeping the invariant |
| AddrMan.CAddrMan.GetAddr_ | addrman.cpp:494-508 | returns 23 percent of the addresses, 2500 at most, all known and all different; only the order of vRandom changes |
| AddrMan.CAddrMan.Check_ | addrman.cpp:435-491 | returns 0 if and only if all its conditions hold, and does so in every state that satisfies the invariant |
| AddrCheck.InvIsChecked | addrman.cpp:435-491 | the invariant implies everything the check looks at |
| AddrCheck.CheckDecides | addrman.cpp:435-491 | the invariant holds if and only if the check passes and the facts it does not look at hold: bucket sizes, the bucket of a tried entry, fresh ids, stale addresses |
| AddrCheck.CheckedRandom | addrman.cpp:440-464 | though it compares in one direction only, the check makes vRandom and the positions inverse bijections |
| AddrCheck.CheckTried | addrman.cpp:466-487 | crossing off ids finds exactly whether the tried buckets hold each tried id once |
| AddrCheck.CheckNew | addrman.cpp:476-488 | counting down finds exactly whether the new buckets hold each id as often as its reference count says |
| AddrDisk.Write | addrman.h:279-317 | the file depicts the tables, ids numbered in ascending order, new ones first; bucket lists ascend |
| AddrDisk.OrderCounts | addrman.h:285-306 | the two early exits of the writer are never taken before all entries are written |
| AddrDisk.TriedFits | addrman.h:342-359 | a tried bucket always has room for the next record, so no record is lost |
| AddrDisk.Read | addrman.h:318-378 | reading a file that depicts some tables gives those tables with the ids renumbered, and the invariant |
| AddrDisk.RenumberedKeepsInv | addrman.h:248-380 | renumbering ids keeps the invariant |
| AddrDisk.SaveAndLoad | addrman.h:248-380 | after saving and loading the same addresses are known, each with the same record (but the last try), standing, reference count and buckets, whatever its id |
| CoinSelection.TrySubset | wallet.cpp:1022-1052 | a repetition only ever replaces the best subset by a better one that still reaches the target, and after it some coin of the best cannot be left out |
| CoinSelection.ApproximateBestSubset | wallet.cpp:1010-1054 | the subset returned sums to the value returned, which reaches the target and is no more than the total; without some coin of it the target would not be reached |
| CoinSelection.Scan | wallet.cpp:1071-1098 | collects the eligible coins below target plus a cent and the lowest of the others, unless a coin matches exactly |
| CoinSelection.SelectCoinsMinConf | wallet.cpp:1056-1153 | fails if and only if the eligible coins total less than the target; else the coins returned sum to the value, with no change, or a cent of it at least, unless all coins together cannot, no more than any single larger coin, and no coin too many: without some coin they are worth less than the target and a cent |
| CoinSelection.AvailableCoins | wallet.cpp:982-1008 | lists exactly the spendable outputs, each once |
| CoinSelection.SelectCoins | wallet.cpp:1155-1163 | the three attempts fail together if and only if all spendable coins total less than the target; else the coins come from the first attempt that can succeed, with the guarantees of a single attempt |
| CreateTransaction.SumPayments | wallet.cpp:1171-1185 | fails exactly if there is no payment or some running total is negative |
| CreateTransaction.DustMeans | core.h:189-200 | an output is dust exactly if three times the relay fee on its size and 148 bytes is more than its value |
| CreateTransaction.FeePerKilobyte | wallet.cpp:1302 | the fee set is paid once more for every full thousand bytes |
| CreateTransaction.SplitChange | wallet.cpp:1230-1239 | change under a cent goes to the fee, and no more of it than needed, until the fee meets the minimum or the change is gone |
| CreateTransaction.AddChange | wallet.cpp:1241-1277 | change becomes one output at any place, or goes to the fee if it would be dust |
| CreateTransaction.BuiltSettles | wallet.cpp:1230-1281 | whatever coins are selected, they sum to outputs and fee, no output is dust, the fee does not fall, and change under a cent comes with the minimum fee at least |
| CreateTransaction.Attempt | wallet.cpp:1195-1281 | fails exactly if the funds do not cover payment and fee; else builds a payment from coins SelectCoins may select, balanced as above |
| CreateTransaction.Create | wallet.cpp:1168-1320 | ends; a payment created balances, carries both the set and the required fee, and is what an attempt at a demanded fee builds; insufficient funds are reported only for a fee that was demanded, and the other failures only of balanced payments |
| AddressGroups.CollectGroupings | wallet.cpp:1716-1768 | the groupings are exactly those the transactions give: own inputs with change, and lone own outputs |
| AddressGroups.MergedApart | wallet.cpp:1774-1789 | no live group outside the hits shares an address with the merged group |
| AddressGroups.MergedIsIndexed | wallet.cpp:1781-1793 | after a merge live groups are disjoint and setmap points every address to its live group |
| AddressGroups.MergeOne | wallet.cpp:1772-1794 | one pass of the loop keeps the groups the finest partition for the groupings so far |
| AddressGroups.MergeGroupings | wallet.cpp:1770-1803 | the groups returned are the finest partition in which every grouping lies in one block |
| AddressGroups.PartitionIsUnique | wallet.cpp:1772 | there is only one such partition, so the order of processing does not matter |
| AddressGroups.BlocksAreComponents | wallet.cpp:1770-1803 | two addresses are in one block if and only if a chain of groupings links them |
| AddressGroups.GetAddressGroupings | wallet.cpp:1714-1804 | from transactions to groups |
| Merkle.CBlock.BuildMerkleTree | dust_coin/bitcoin_block.h:50-67 | the flat array holds all levels and the root is that of pairwise hashing with the last entry doubled at odd levels |
| Merkle.RootAbove | dust_coin/bitcoin_block.h:56-64 | the root is that of the pairs hashed left before right, the last with itself if it has no neighbour |
| Merkle.RootOfThree | dust_coin/bitcoin_block.h:56-64 | the instance of three |
| Merkle.RootIsTopNode | dust_coin/bitcoin_block.h:56-65 | that root is the node reached by recursion from the top down |
| Merkle.CBlock.GetMerkleBranch | dust_coin/bitcoin_block.h:75-89 | the branch holds the neighbours on the way up, building the tree first if need be |
| Merkle.CheckMerkleBranch | dust_coin/bitcoin_block.h:91-104 | climbs the branch; 0 for position -1 |
| Merkle.BranchVerifies | dust_coin/bitcoin_block.h:75-104 | for every list and position, climbing the branch from the leaf gives the root |
| Merkle.BranchBinds | dust_coin/bitcoin_block.h:91-104 | without a hash collision only the leaf and its own branch lead to the root |
| Merkle.RootBinds | dust_coin/bitcoin_block.h:56-65 | without a hash collision lists of one length with the same root are the same |
| Merkle.DoubledLast | dust_coin/bitcoin_block.h:56-65 | but whatever the hash, an odd list of three or more has the root of the list with its last entry doubled |
| Merkle.ThreeOrFour | dust_coin/bitcoin_block.h:56-65 | a, b, c and a, b, c, c have the same root |
| Merkle.BranchOfEach | dust_coin/bitcoin_block.h:50-104 | the three operations together: the branch of every transaction checks |
| PrunedCoins.CCoins.Cleanup | core.h:499-504 | drops exactly the spent outputs at the end |
| PrunedCoins.CCoins.CalcMaskSize | core.h:527-543 | the mask ends at the last used byte, and the count is that of bytes not zero |
| PrunedCoins.CCoins.GetSerializeSize | core.h:549-570 | equals the length of what Serialize writes |
| PrunedCoins.CCoins.Serialize | core.h:573-599 | writes the serialised form, for every object that is not pruned |
| PrunedCoins.MaskBits | core.h:585-591 | bit i of mask byte b is set exactly if output 2 + 8b + i is unspent |
| PrunedCoins.HeaderBits | core.h:554-556 | the lowest bits of the header code are the coinbase flag and the first two outputs, the rest the number of mask bytes not zero, one less if both are spent |
| PrunedCoins.OneUnspent | core.h:441-457 | the first documented instance: code 4 and no mask |
| PrunedCoins.FifthAndSeventeenth | core.h:459-478 | the second: code 9 and the mask 04 40 |
| PrunedCoins.CCoins.Unserialize | core.h:602-633 | reads exactly the byte sequences that parse, and leaves the rest |
| PrunedCoins.MaskBack | core.h:612-623 | counting nonzero bytes finds the end of the mask |
| PrunedCoins.RoundTrip | core.h:527-633 | reading back gives the coins without trailing spent outputs and takes exactly the bytes written, whatever follows |
| PrunedCoins.RoundTripExact | core.h:527-633 | nothing is lost if and only if there are no trailing spent outputs and spent ones carry no data |
| PrunedCoins.CCoins.Spend | core.h:636-650 | succeeds exactly for an available output, and returns what undoing needs |
| PrunedCoins.SpendKeepsDomain | core.h:636-650 | takes away that one output and keeps the domain of exact round trips, or leaves nothing |
| PrunedCoins.RunOfSpends | core.h:636-650 | over any run of spends exactly the outputs not yet spent are available |
| PrunedCoins.CodeNotNegative | core.h:555-556 | the assertion holds and the header code is not negative for every object that is not pruned |
| Framing.CNode.ReceiveMsgBytes | net.cpp:613-639 | receiving a chunk is receiving its bytes one by one, with the same verdict and messages |
| Framing.CNode.Pass | net.cpp:615-636 | each pass of the loop absorbs at least one byte |
| Framing.CNetMessage.ReadHeader | net.cpp:641-671 | absorbs what is missing of the header, switches to the data, or refuses |
| Framing.CNetMessage.ReadData | net.cpp:673-682 | absorbs what is missing of the data |
| Framing.ChunkingDoesNotMatter | net.cpp:613-682 | however a stream is cut, verdict and messages are those of the whole |
| Framing.FeedKeepsBytes | net.cpp:613-682 | headers and data of the messages concatenate to the bytes accepted |
| Framing.FramingIsUnique | net.cpp:613-682 | every well-formed list of messages is what its own bytes are cut into |
| BigNum.CBigNum.SetCompact | bignum.h:289-306 | decodes any 32-bit encoding |
| BigNum.CBigNum.GetCompact | bignum.h:308-330 | encodes with the exponent that leaves room for the sign |
| BigNum.FiveBytes | bignum.h:281 | the documented instance 0x1234560000 |
| BigNum.SixBytes | bignum.h:282 | the documented instance 0xc0de000000, whose mantissa needs room for the sign |
| BigNum.NegativeAndZero | bignum.h:283 | the documented negative instance, and zero |
| BigNum.LeadingBytes | bignum.h:310-326 | shifting the mantissa when it runs into the sign bit gives the least exponent with room for it |
| BigNum.CompactIsClose | bignum.h:289-330 | the decoded number has the sign of x, is no larger, and is off by one part in 2^15 at most |
| BigNum.NotEncodable | bignum.h:327 | beyond the exponent range less than half of the number comes back |
| BigNum.CloseIffEncodable | bignum.h:289-330 | the decoded number is close to x if and only if the exponent fits |
| BigNum.TooLarge | bignum.h:327 | 256^256 does not fit, and comes back as 1 |
| BigNum.CompactIsMonotone | bignum.h:289-330 | decoding after encoding is monotone, negative numbers included |
| BigNum.CompactIsCanonical | bignum.h:289-330 | encoding what was decoded gives the same encoding |
| BigNum.ExactNumbers | bignum.h:289-330 | a number comes back unchanged if and only if nothing lies below its mantissa |
| BigNum.CBigNum.SetVch | bignum.h:240-253 | the number of a signed byte form |
| BigNum.OneByte | bignum.h:240-253 | one byte has seven bits of magnitude and a sign |
| BigNum.LowByte | bignum.h:240-253 | a byte put before others, least significant first, shifts the number by a byte and keeps its sign |
| BigNum.CBigNum.GetVch | bignum.h:255-265 | the signed byte form of a number |
| BigNum.VchRoundTrip | bignum.h:240-265 | every number comes back from its bytes |
| BigNum.VchOfNumber | bignum.h:240-265 | bytes come back from their number if and only if they are minimal |
| MinWork.ComputeMinWork | dust_coin/bitcoin_messages_handlers.cpp:527-546 | the loop ends at the smaller of the limit and the base quadrupled for every four timespans begun, for every base; on the test network the limit itself after more than two spacings |
| MinWork.Steps | dust_coin/bitcoin_messages_handlers.cpp:536-542 | the number of steps is the time over four timespans, rounded up |
| MinWork.MinWorkWithinLimit | dust_coin/bitcoin_messages_handlers.cpp:543-545 | for a target that is not negative the encoding decodes to at most the limit |
| MinWork.MinWorkMonotone | dust_coin/bitcoin_messages_handlers.cpp:527-546 | the longer the time, the easier the target |
| Base58.EncodeBase58 | base58.h:29-67 | one character for every leading zero byte, then the number's digits |
| Base58.DecodeBase58 | base58.h:77-121 | succeeds exactly if only white space follows the digits; gives the leading zeros and the number's bytes without sign byte |
| Base58.Alphabet | base58.h:26 | the characters are the letters and digits without 0, O, I and l, in ascending order |
| Base58.ZeroByte | base58.h:58-60 | a leading zero byte is a leading 1 |
| Base58.TwoCharacters | base58.h:47-56 | the digits stand most significant first |
| Base58.DecodeOfEncode | base58.h:29-121 | decoding an encoding gives the bytes back, for every byte sequence |
| Base58.EncodeOfDecode | base58.h:29-121 | encoding what a string decodes to gives the string without the white space around it |
| Base58.DecodesExactly | base58.h:84-103 | the strings that decode are exactly digits with white space around them |

## Left out

- Corrupted internal keys in iterator and compaction: entries are taken to be well formed.
- Compaction.WriteSurvivors: corrupted internal keys, as below.
- Compaction.DoCompactionWork: corrupted internal keys, which the loop passes through, are not among the inputs.
- User keys are their ranks under the comparator; the comparator itself is not modelled.
- VersionSet, table format, log format, memtable and internal key packing: a sorted run, an atomic manifest edit, an
  append-only log of records. A failed manifest edit counts as not having happened, or as a crash; a failed append has
  put its record into the log whole or not at all.
- Compaction: its inputs hold all entries of their keys at both levels, and the base-level test means that no deeper
  entry exists; both are hypotheses (`Consistent`). An output that fails to close is dropped from the list at once;
  nothing is installed then.
- WriteQueue.NeverStuck: whether threads are scheduled at all; and nothing is said of the compaction that a NULL batch is
  to force if it is absorbed into another writer's group.
- MakeRoomForWrite: its delays and waits are one step that may take any time and may fail.
- CrashRecovery: files other than logs, tables and the manifest; a database that does not exist yet; lock files; later
  records of a log that a torn one makes unreadable, other than by an incomplete replay.
- CrashReads.AcknowledgedIsRead: for readers of the present; snapshots do not survive a crash, and `SnapshotKeepsView`
  covers those held without one.
- CheckQueueProtocol: the controller reads the counters without the mutex; the model has it see one state. A thread that
  never gets the mutex is not excluded.
- Address manager: Select_ and GetChance (floating point); bucket hashing, which is two functions of address and source.
- AddrMan.CAddrMan.Check_: which negative code a failed check returns.
- AddrMan.CAddrMan.Add_: how probable a draw is; the draw is any number below two to the number of references.
- AddrDisk.Read: files that no manager wrote, and files written with another number of new buckets; version byte and
  key are not part of the image.
- CoinSelection.SelectCoinsMinConf: amounts are positive and below the largest 64-bit integer; sums do not overflow.
- CreateTransaction.Create: signing, sizes, priorities and the relay fee are functions of the transaction; the key pool
  always has a key for change; linking previous transactions is not modelled.
- util.h, wallet.h, serialize.h and net.h are not part of this model: CENT is taken as one million, whether
  unconfirmed coins are offered is a parameter, the transaction size limit and the message size limit are parameters,
  and a message is complete when all its data is there.
- AddressGroups: extraction of addresses from scripts; an output's address is given or missing.
- Merkle.BranchBinds: the hash is any function; the absence of collisions is asked for only among the pairs hashed.
- PrunedCoins: VARINT and compressed outputs are codecs with a prefix law; height and version are not negative.
- Framing.CNetMessage.ReadHeader: header fields other than the size.
- BigNum: OpenSSL errors and memory; the four-byte length of the MPI form, which setvch adds and getvch strips.
- Base58 addresses, checksums and keys: easier than the encoding itself.
- Sockets, RPC, user interface, scripts, block validation, Bloom filters, alerts, Base64 and Base32, money parsing:
  plumbing, or easier than what is here.
