# Verification of the core of a C utility library

This project models, in Dafny, the parts of the library that carry state: its
hierarchical timing wheel, its order-statistic skip list, the kernel-style
circular list, the chained hash table with its CRC-64, the IPC protocol between
a server and its clients, and the thread pool. Code that changes objects in place
is modelled by classes and methods, each proved against a specification on
values; what the library promises is then proved of those specifications, over
all inputs and, where there are runs, over all runs.

## What is proved

**Timing wheel** (`Arith`, `Clock`, `WheelSpec`, `DueTimes`, `WheelSteps`,
`WheelFiled`, `WheelRuns`, `WheelOrder`, `WheelWalk`, `TimerManager`). `Manager`
holds the five clock indices, the list heads by address and the items by address;
its `CheckTimeout` moves the clock on, walks lists that change under the walk, cascades, fires and
re-files. The plain timer beside it knows only a due time, an interval and a round
count. The main theorem, `WheelRuns.AddedFires`, says for every run of ticks,
additions and deletions of other timers that a timer added at T with interval I
and k rounds fires at T+I, T+2I, and so on, k times or for ever, except when its
first placement clashes. A clash is a matter of one comparison: `uc_timer_add_do`
takes the highest non-zero digit of the deadline without looking at the clock, and
when the clock already shows that digit the first firing is late by exactly one
revolution of that wheel (60 s, 1 h or 24 h), or never comes when it is the day.
`uc_timer_node_reinsert` does compare, and never clashes. `DueTimes.LateByAnHour`
and `DueTimes.NeverByDay` are two inputs that clash. `WheelOrder.FireByTurns` is
about two timers: alike and added one after the other, they fire in that order.

**Skip list** (`SkipOrder`, `SkipLinks`, `SkipTable`, `SkipRank`, `SkipGood`,
`SkipList`). Nodes at addresses with a row of links each. Every level is described
by one function of the nodes' heights; insertion and deletion are shown to restore
all links and spans (also those of levels whose header spans are stale), backward
pointers, tail, length and level, and to be sorted insertion and removal. Rank
queries agree with positions. The element type is any type with a total order
whose equality is identity; the level draw is any number from 1 to 32.

**Circular list** (`Lists`, `ListWalk`, on `Sequences`). Nodes on the heap; every operation of
`list.h` that is used refines its operation on sequences, and leaves other
lists alone.

**Hash table** (`Pointers`, `HashSpec`, `HashChains`, `HashTable`) **and CRC** (`Folds`,
`Xors`, `CrcTable`, `Crc`). Buckets of chains refine a finite map for any hash function;
iteration visits each node once; the loop that deletes while it iterates empties
the table. The table-driven CRC is, for every buffer, bit-by-bit division.

**IPC** (`Wire`, `Deframe`, `IpcIo`, `AckProtocol`, `AckClient`, `FdMap`). The
server's reader decodes any fragmentation of the byte stream as if it had come at
once, and closes a client only when the connection breaks or a payload cannot be
allocated; so what is sent over a connection that holds is what is handled
(`Deframe.Delivered`). Two step systems cover all interleavings: of calling threads, receiver and
server for acknowledgements, and of accepting, closing and replying threads for
descriptors that the system hands out again.

**Thread pool** (`PoolSpec`, `PoolMonitor`). A monitor, one step for each
stretch of code under the lock, over all interleavings.

## Where the code and its comments differ

- The comment on `zslGetRank` says 0 is returned for an element that is not
  there. The code compares the object only. `SkipRank.RankOfOtherScore` gives
  exactly what it returns for a pair whose object is there with another score, and
  `SkipRank.OtherScoreRanked` is a list of one element where that is not 0.
- The header says that `uc_hash_update` returns the new value when the key is not
  there; the code returns NULL, and so does `HashTable.Table.Update`.
- `uc_io_read` and `uc_io_write` return the count of bytes left as a C `int`.
  `IpcIo.WriteTellsAll` and `IpcIo.ReadTellsAll`: a return of 0 means a complete
  transfer, however the single calls go, if and only if the length is below 2^32;
  of any longer transfer, all but 2^32 bytes may get through and 0 be returned.
- `uc_ipc_client_sync_send` leaves its entry in the hash when its wait fails, as
  the other ways out do not; `AckProtocol.LeftBehind` is an equivalence.
- `list_cut_position` leaves an empty list alone, even its other argument; so
  cutting and joining again restores the order exactly when the list had entries
  or the other list had none (`Lists.CutAndJoin`).
- `uc_threadpool_create` means to return NULL for thread numbers that it refuses.
  It refuses them before it initialises the list of thread ids, and closes the
  half-made pool; the zeroed list head does not look empty, and its NULL is followed
  (`PoolMonitor.Monitor.Create`, `PoolMonitor.JoinAll`).
- `uc_time.h` asks for every timer to be deleted, and so also those that have run
  out; those are unlinked already, and `list_del` follows their old pointers. What
  that does is `Lists.DelStale`: whatever has been put between the old neighbours
  since drops out of the list, and it is harmless exactly when nothing has. For the
  wheel: deleting such a timer is in order while its old neighbours are next to each
  other (`WheelRuns.ForgetKeeps`), as they are right after its last round
  (`WheelRuns.RunsOut`) and not after another timer has been put there
  (`WheelRuns.GapFilled`).
- The client's reader adds 28 to the length in a header, in 64 bits. From 2^64 - 28 on
  the sum wraps, and the header is copied past the end of what was allocated, if
  that much could be (`IpcIo.RequestedHolds`, `IpcIo.ReadPacket`).
- When there is no memory for a task node, `uc_threadpool_add_to_void_task_do`
  returns with the lock held (`PoolMonitor.Monitor.AddTask`).

## Model

| member | source | states |
|---|---|---|
| WheelRuns.AddedFires | time/uc_time.c:355-401 | over every run, an added timer has fired at its deadline and each interval after it, as often as asked, unless its first placement clashed; then one revolution late or, by day, never |
| WheelRuns.OnTimeFromZero | time/uc_time.c:355-401 | a timer added at time 0 fires, after n ticks, at each multiple of its interval up to n, as often as it has rounds; such runs go on as long as the clock stays below 2^31 ms |
| WheelOrder.FireByTurns | time/uc_time.c:80-280 | over every run that deletes neither, two timers added one after the other while the clock stands, with the same interval and rounds, fire by turns: the k-th firing of the second stands in the log behind the k-th of the first |
| WheelOrder.StepTogether | time/uc_time.c:123-153 | one step of it: both stay on one list, in that order, or leave it together, and fire in that order or not |
| WheelOrder.VisitSecond | time/uc_time.c:131-136 | items that are moved, down or back, go to the end of a list: visited one after the other, they come to hang in the same order |
| WheelRuns.FiresOnSchedule | time/uc_time.c:80-280 | over every run, the firings of any timer are those of its plain timer: none early, late, twice or skipped, whatever else happens |
| WheelRuns.ScheduleIs | time/uc_time.c:105-119 | the plain timer's firings are the first due time plus multiples of the interval, limited by the round count, 0 meaning no limit |
| WheelRuns.StepMoves | time/uc_time.c:80-280 | a tick does to a timer what the new time does; additions and deletions of others do nothing to it |
| WheelRuns.StepReady | time/uc_time.c:80-280 | every operation keeps each item in one list, on a slot of its own digit that is not slot 0, and the clock right |
| WheelRuns.RunFiled | time/uc_time.c:67-77 | over every run without clashing additions, each timer hangs on one list, at the highest digit in which its deadline, still ahead, differs from the clock, and slot 0 of the four lower wheels is empty |
| WheelRuns.StepFiled | time/uc_time.c:67-77 | one step of it |
| WheelRuns.AddKeeps | time/uc_time.c:355-401 | NULL exactly for a bad interval, a missing callback or no memory, and then nothing changes; else one item more, with the first due time of its placement |
| WheelRuns.DeleteKeeps | time/uc_time.c:411-423 | deleting a linked timer removes it from its list and memory and leaves all others where they are |
| WheelRuns.ForgetKeeps | time/uc_time.c:411-423 | deleting a timer that has run out, while its old neighbours are next to each other, removes it from memory and leaves all others where they are |
| WheelRuns.RunsOut | include/uc_time.h:20-27 | right after its last round a timer is such a one |
| WheelRuns.GapFilled | include/uc_time.h:20-27 | when its old place was at the end of a list, it is no such one any more once another timer is hung there |
| DueTimes.AddAgainstRefile | time/uc_time.c:388-398 | adding chooses the list that re-filing chooses if and only if the clock does not show the highest set digit of the deadline already |
| DueTimes.DueAdded | time/uc_time.c:388-398 | where an addition is due first: on time, one revolution late, or never |
| DueTimes.LateByAnHour | time/uc_time.c:388-398 | a clash: 100 ms asked for at 1 min 1.5 s come an hour late |
| DueTimes.NeverByDay | time/uc_time.c:388-398 | a clash: 100 ms asked for half a second into the second day never come |
| DueTimes.DueRefiled | time/uc_time.c:67-77 | a re-filed timer is due exactly at its deadline, and not on slot 0 |
| DueTimes.RefileIsHighest | time/uc_time.c:67-77 | the ladder of tests finds the highest digit in which deadline and clock differ |
| DueTimes.DueCascade | time/uc_time.c:131-136 | moving an item down to its next set digit keeps its due time |
| DueTimes.DuePassive | time/uc_time.c:94-95 | a tick that does not reach an item's slot leaves its due time |
| DueTimes.DueArrived | time/uc_time.c:123-125 | when its slot is reached, an item is due after exactly its lower digits |
| DueTimes.DueDay | time/uc_time.c:244-249 | the day list: due at the tick that turns to the item's day, else passed over |
| DueTimes.DueHighest | time/uc_time.c:67-77 | filed at the highest differing digit, an item is due at its stamp |
| WheelSteps.TickRefines | time/uc_time.c:80-280 | one tick keeps the wheel in order and advances each plain timer by one millisecond, firing it exactly when due |
| WheelSteps.VisitKeeps | time/uc_time.c:131-153 | visiting one item waits, cascades or fires just as its due time says |
| WheelSteps.WalkSelf | time/uc_time.c:101-121 | a walk visits an item that was on the list once |
| WheelSteps.WalkOther | time/uc_time.c:101-121 | a walk does nothing to items that were not on the list |
| WheelSteps.FireKeeps | time/uc_time.c:103-119 | firing logs the callback, counts a round, and puts the timer back for the next interval or takes it off |
| WheelFiled.FiledDue | time/uc_time.c:67-77 | a rightly filed item is due at its deadline |
| WheelFiled.TickFiled | time/uc_time.c:80-280 | a tick keeps every item rightly filed |
| WheelFiled.FiledPassive | time/uc_time.c:94-95 | an item whose slot is not reached is still rightly filed after the tick |
| WheelFiled.FiledCascade | time/uc_time.c:131-136 | an item that is moved down is rightly filed again |
| WheelWalk.RefiledElsewhere | time/uc_time.c:244-249 | an item put back on the day list being walked waits for another day, and so is not fired twice |
| WheelWalk.WalkingStep | include/list.h:414-416 | a step of the safe walk over a list that changes under it: what was read ahead is still on the list, and the walk goes on to what walking the first list gives |
| WheelWalk.Carry | time/uc_time.c:155-158 | a wheel moves exactly when all below it have wrapped |
| WheelWalk.Turn | time/uc_time.c:94-95 | the index arithmetic is the mixed-radix clock plus one |
| TimerManager.Manager.constructor | time/uc_time.c:299-344 | empty lists, clock at 0 |
| TimerManager.Manager.CheckTimeout | time/uc_time.c:80-280 | all five blocks with their carries are one tick of the specification |
| TimerManager.Manager.WalkList | time/uc_time.c:101-121 | the loop that reads the next node ahead visits the initial nodes in order, once each, and terminates |
| TimerManager.Manager.VisitNode | time/uc_time.c:244-277 | the loop body: wait, move down, or expire |
| TimerManager.Manager.Expire | time/uc_time.c:103-119 | submit, count, unlink and put back |
| TimerManager.Manager.Reinsert | time/uc_time.c:47-78 | digits of the next deadline, and the list chosen against the clock |
| TimerManager.Manager.WalkArrived | time/uc_time.c:122-125 | no callback and no re-filing runs against a half-carried clock: below the highest wheel that moves, the slot is empty |
| TimerManager.Manager.AddTimer | time/uc_time.c:355-409 | the addition, clashes included |
| TimerManager.Manager.DeleteTimer | time/uc_time.c:411-431 | the deletion of a linked timer or of one that has run out; an error for NULL |
| TimerManager.SlotZeroEmpty | time/uc_time.c:123-125 | slot 0 of a lower wheel holds nothing |
| Clock.DigitsSum | time/uc_time.c:49-54 | the indices weighted by their units are the time |
| SkipOrder.InsertedSorted | skiplist/skiplist.c:87-150 | insertion keeps that order, by score and then by object, and adds one element |
| SkipOrder.DeletedSorted | skiplist/skiplist.c:176-200 | deletion keeps that order and removes one element that is equal, or nothing |
| SkipOrder.InsertThenDelete | skiplist/skiplist.c:87-200 | deleting what was just inserted gives back the sequence |
| SkipOrder.SortedMeans | skiplist/skiplist.c:102-104 | the order, in terms of scores and of the comparison of objects: scores do not fall, and among equal scores no object compares greater than a later one |
| SkipTable.InsertLinked | skiplist/skiplist.c:124-140 | after linking and stretching, each link of each level leads to the next node that is high enough and each span is the distance |
| SkipTable.DeleteLinked | skiplist/skiplist.c:153-165 | the same after unlinking |
| SkipTable.RaisedLinked | skiplist/skiplist.c:114-123 | raising the level gives right links although header spans above were stale |
| SkipTable.LowerLinked | skiplist/skiplist.c:171-172 | dropping an empty top level keeps the links right |
| SkipTable.LinkLeads | skiplist/skiplist.c:93-109 | a link in memory leads to the node its level says, by its span |
| SkipTable.TopAfterInsert | skiplist/skiplist.c:114-123 | the top level is in use after an insertion |
| SkipLinks.NextAcross | skiplist/skiplist.c:136-140 | a link that crosses the new node grows by one |
| SkipGood.InsertFramed | skiplist/skiplist.c:87-150 | insertion keeps links, spans, backward pointers, tail, length and level |
| SkipGood.DeleteFramed | skiplist/skiplist.c:153-173 | deletion keeps them |
| SkipGood.InsertOrdered | skiplist/skiplist.c:87-150 | the new node is where the order puts it |
| SkipGood.DeleteOrdered | skiplist/skiplist.c:176-200 | the node taken out was the element asked for |
| SkipGood.DeleteAbsent | skiplist/skiplist.c:194-199 | when the node found is another, the element is nowhere |
| SkipRank.RankOfPresent | skiplist/skiplist.c:202-228 | with distinct objects, the rank of an element that is there is its 1-based position |
| SkipRank.TellsCount | skiplist/skiplist.c:202-228 | and that is one more than the number of elements with a lower score, or the same score and an object that compares smaller |
| SkipRank.RankOfUnknown | skiplist/skiplist.c:202-228 | the rank of an unknown object is 0 |
| SkipRank.RankOfOtherScore | skiplist/skiplist.c:218-226 | what is answered for an object that is there under another score: its position if the search stops on it, else 0 |
| SkipRank.OtherScoreRanked | skiplist/skiplist.c:218-226 | one element with score 1: the same object with score 2, which is not there, has rank 1 and no other |
| SkipRank.RankInverse | skiplist/skiplist.c:202-248 | rank and element by rank are inverse |
| SkipList.SkipList.constructor | skiplist/skiplist.c:35-53 | an empty list that keeps the whole invariant |
| SkipList.SkipList.FindLeft | skiplist/skiplist.c:93-109 | on each level, the last node before the place, with its rank |
| SkipList.SkipList.Raise | skiplist/skiplist.c:114-123 | new levels start at the header |
| SkipList.SkipList.LinkLevels | skiplist/skiplist.c:124-134 | the new node is linked on its levels, with both spans |
| SkipList.SkipList.StretchSpans | skiplist/skiplist.c:136-140 | spans above grow by one |
| SkipList.SkipList.FitIn | skiplist/skiplist.c:142-149 | backward pointers, tail and length |
| SkipList.SkipList.Insert | skiplist/skiplist.c:87-150 | the whole invariant again, one element more, and the elements ascending by score and then by object, for any level from 1 to 32, which is the level of the new node |
| SkipList.SkipList.DeleteNode | skiplist/skiplist.c:153-173 | links, spans, backward pointers, tail, level and length without the node |
| SkipList.SkipList.Delete | skiplist/skiplist.c:176-200 | 1 and one such element less if it is there, else 0 and no change; the elements ascend by score and then by object |
| SkipList.SkipList.GetRank | skiplist/skiplist.c:202-228 | with distinct objects, the 1-based position of an element that is there, which is one more than the number of elements before it by score and object; whatever is asked for, 0 or the position of an element with that object |
| SkipList.SkipList.GetElementByRank | skiplist/skiplist.c:231-248 | the r-th node for 1 to length, the header for 0, NULL beyond the end |
| Lists.ListHead.Init | include/list.h:48-52 | an empty list, whatever was there |
| Lists.AddBetween | include/list.h:60-68 | the ring with one node more at that place |
| Lists.Add | include/list.h:78-81 | one entry more in front |
| Lists.AddTail | include/list.h:92-95 | one entry more behind |
| Lists.DelBetween | include/list.h:104-108 | the ring without the node between |
| Lists.Del | include/list.h:121-126 | the ring without the entry |
| Lists.DelInit | include/list.h:155-159 | and the entry an empty list |
| Lists.DelStale | include/list.h:121-126 | deleting an entry that was deleted before takes out all that now stands between its old neighbours; the ring stays as it is exactly when they are adjacent |
| Lists.Replace | include/list.h:135-142 | the new node in the place of the old, also for the head of an empty list |
| Lists.ReplaceInit | include/list.h:144-149 | and the old one an empty list |
| Lists.Move | include/list.h:166-170 | taken from its ring and put in front of the same or another list |
| Lists.MoveTail | include/list.h:177-182 | the same, behind |
| Lists.IsEmpty | include/list.h:199-202 | true exactly for no entries |
| Lists.IsSingular | include/list.h:241-244 | true exactly for one entry |
| Lists.RotateLeft | include/list.h:227-235 | the first entry goes last |
| Lists.CutBetween | include/list.h:246-256 | two lists, cut after an entry |
| Lists.CutPosition | include/list.h:272-285 | the cut with its special cases: empty list, foreign entry, cut at the head |
| Lists.SpliceBetween | include/list.h:286-298 | the entries of one list in the ring of another |
| Lists.Splice | include/list.h:305-310 | in front |
| Lists.SpliceTail | include/list.h:317-322 | behind |
| Lists.SpliceInit | include/list.h:331-338 | in front, and the other list empty |
| Lists.SpliceTailInit | include/list.h:348-355 | behind, and the other list empty |
| Lists.CutAndJoin | include/list.h:272-338 | cutting at any entry and joining again restores the list if and only if it had entries or the other had none |
| Lists.Same | include/list.h:22-24 | the pointers determine the entries and their order |
| ListWalk.ForEachSafe | include/list.h:414-416 | a walk whose body moves entries to another list visits each initial entry once, in order |
| ListWalk.ForEachRequeue | include/list.h:414-416 | a walk whose body puts entries, at their first visit, at the end of the very list being walked terminates, visits each initial entry once and in order, then all that were put back, unless only the last was; the list is left in order with those behind |
| HashSpec.InsertMap | hash/uc_hash.c:636-672 | insertion is the map's update |
| HashSpec.InsertFront | hash/uc_hash.c:666-669 | a new key comes to the front of the bucket of its hash modulo the height, and no other bucket changes |
| HashSpec.DeleteMap | hash/uc_hash.c:690-713 | deletion is the map's removal |
| HashSpec.HeldAtHome | hash/uc_hash.c:674-686 | a key is held if and only if the bucket of its hash modulo the height holds it |
| HashSpec.MapSize | hash/uc_hash.c:788-791 | there are as many nodes as keys |
| HashSpec.InsertThenDelete | hash/uc_hash.c:666-700 | deleting a key that was new gives back the same chains |
| HashSpec.HandlerChange | hash/uc_hash.c:794-797 | a new hash function loses no key if and only if it gives each its bucket |
| HashChains.SetWoven | hash/uc_hash.c:643-648 | overwriting a value changes one entry |
| HashChains.PushWoven | hash/uc_hash.c:666-669 | hanging a node in front of a chain |
| HashChains.UnlinkWoven | hash/uc_hash.c:698-700 | storing the next pointer where the node's address was kept, and freeing it, removes one entry |
| HashChains.FlatDeleted | hash/uc_hash.c:690-713 | deletion takes one node out of the order of iteration |
| HashChains.NextInOrder | hash/uc_hash.c:728-756 | the next node of the chain, or the first of the following buckets, is the next in order |
| HashTable.Table.Create | hash/uc_hash.c:566-594 | an empty table that hashes with the CRC from the given seed, or NULL for height 0 |
| HashTable.Table.Find | hash/uc_hash.c:674-688 | the node of the key with its value, NULL exactly for a key that is not held |
| HashTable.Table.Insert | hash/uc_hash.c:636-672 | override or a new node in front of its bucket; fails exactly for a new key without memory, and then changes nothing |
| HashTable.Table.Delete | hash/uc_hash.c:690-713 | the map without the key, and one node less if it was held |
| HashTable.Table.Update | hash/uc_hash.c:715-726 | the old value and the new map for a held key, NULL and no change otherwise |
| HashTable.Table.SetHandler | hash/uc_hash.c:794-797 | the table stays in order if and only if every held key keeps its bucket |
| HashTable.Table.Next | hash/uc_hash.c:758-776 | the first node, which is NULL for an empty table only, the one after a key, or NULL at the end and for an unknown key |
| HashTable.Table.ForEach | hash/uc_hash.c:728-776 | going on from NULL gives each node once, bucket after bucket, in as many steps as there are nodes |
| HashTable.Table.DeleteEach | include/uc_hash.h:75-83 | the sample loop, next then delete, empties the table |
| HashTable.Table.Reset | hash/uc_hash.c:609-634 | the empty map, all nodes freed, and never an error |
| HashTable.Table.RandomNode | hash/uc_hash.c:804-854 | a node for every index unless the table is empty, from the first used bucket at or after the index, or else the last before it |
| CrcTable.TableRight | hash/uc_hash.c:141-270 | each of the 256 entries is eight steps of division of its index |
| Crc.ByteByTable | hash/uc_hash.c:277-278 | one table look-up does eight steps |
| Crc.HashCrc64 | hash/uc_hash.c:272-281 | the loop computes the CRC of the buffer |
| Crc.DividesBits | hash/uc_hash.c:272-281 | for every buffer the CRC is reflected division, bit by bit |
| Crc.Concat | hash/uc_hash.c:272-281 | a buffer may be hashed in pieces |
| Crc.Linear | hash/uc_hash.c:272-281 | the CRC is XOR-linear in register and data together |
| Crc.OneByteSeen | hash/uc_hash.c:272-281 | buffers that differ in one byte only have different CRCs |
| Crc.KnownValue | hash/uc_hash.c:283-291 | the check value that the source names |
| Wire.HeaderRoundTrip | ipc/uc_ipc_common.h:89-94 | the packed header is read back as it was written |
| Wire.HeaderBytes | ipc/uc_ipc_common.h:89-94 | which byte of which field stands where: length, type, own number and answered number, each lowest byte first |
| Wire.DecodeEncode | ipc/uc_ipc_client.c:92-99 | decoding encoded packets gives headers and payloads back in order |
| Wire.DecodeMore | ipc/uc_ipc_server.c:367-462 | bytes that come later only add to what was decoded |
| Wire.LeftNotWhole | ipc/uc_ipc_server.c:367-462 | what is left over holds no whole packet |
| Deframe.Client.Reset | ipc/uc_ipc_server.c:49-60 | ready for the next packet |
| Deframe.Client.Take | ipc/uc_ipc_server.c:395-455 | bytes are appended to the packet being read; and what they lead to: the client closed exactly for a payload that cannot be allocated, the packet complete, reading on at once exactly behind a header, or waiting |
| Deframe.ReadClient | ipc/uc_ipc_server.c:367-462 | 1 for a complete packet, 0 to wait, -1 for a closed client; for every course of the reads, which of these, after how many bytes and which reads; the state is the bytes read so far |
| Deframe.CallHeard | ipc/uc_ipc_server.c:367-462 | calls of that reader, one after the other, take what one read after the other takes, whatever the last led to |
| Deframe.TriesAgain | ipc/uc_ipc_server.c:448-450 | an interrupted read changes nothing about a call |
| Deframe.PacketInOneCall | ipc/uc_ipc_server.c:433-442 | with header and payload at hand, one call takes both, the payload by a read of its own, and returns 1 |
| Deframe.HeaderInOneCall | ipc/uc_ipc_server.c:397-399 | a packet without a payload is complete with its header |
| Deframe.OpenExactly | ipc/uc_ipc_server.c:402-459 | a client is closed if and only if the other side closes, a read fails, or the header just completed is that of a payload that cannot be allocated: never by EINTR, EAGAIN or a part of a packet |
| Deframe.OpenWithRoom | ipc/uc_ipc_server.c:402-459 | with room for any length that fits a header, only the connection decides |
| Deframe.HeardOut | ipc/uc_ipc_server.c:369-381 | while a client is open, no byte is passed over: with reads enough that bring something, all are taken |
| Deframe.Delivered | ipc/uc_ipc_server.c:367-462 | packets sent over a connection that holds, and that can be allocated, are decoded to the messages sent, however they are cut up |
| Deframe.HandleClientMsg | ipc/uc_ipc_server.c:490-558 | nothing without a complete packet; else the message is the packet and reading starts afresh, and it is dropped without memory, echoed, dropped, acknowledged and passed on, passed on or refused by its kind |
| Deframe.DispatchFollows | ipc/uc_ipc_server.c:514-555 | the actions are those of the protocol: for the packet type of each kind, a reply is sent at once exactly when the protocol's receiving thread puts it on the wire, and the packet is passed on exactly when that thread keeps hold of it |
| Deframe.DispatchTypes | include/uc_ipc.h:15-22 | types 1, 2, 3 and 5 are echoed, dropped, acknowledged and passed on, passed on; any other is refused |
| Deframe.Serve | ipc/uc_ipc_server.c:367-558 | for every fragmentation, with interrupted and dry reads, the messages are those of decoding all bytes at once, each meets the action for its kind, and the state is the rest; how many bytes are taken, and that the client is closed if and only if the connection breaks or a payload cannot be allocated |
| IpcIo.WriteTellsAll | ipc/uc_ipc_io.c:50-80 | over all courses of a write, 0 is returned only when all bytes got through if and only if there are fewer than 2^32 |
| IpcIo.ReadTellsAll | ipc/uc_ipc_io.c:7-47 | the same over all courses of a read |
| IpcIo.WriteCourse | ipc/uc_ipc_io.c:50-80 | a write goes on through EINTR and EAGAIN until all is through, or up to the first write that takes nothing or fails, and then all is left but the sum of the writes before |
| IpcIo.ReadCourse | ipc/uc_ipc_io.c:7-47 | a read goes on through EINTR until all is there, or up to the first that brings nothing, finds the other side closed or fails, and then all is missing but the sum of the reads before |
| IpcIo.IoWrite | ipc/uc_ipc_io.c:50-80 | for every course of the single writes, which prefix of the buffer gets through, in order, and what is returned |
| IpcIo.IoRead | ipc/uc_ipc_io.c:7-47 | for every course of the single reads, how many of the bytes to come are read, what is returned, and whether the other side was found closed |
| IpcIo.ReadPacket | ipc/uc_ipc_client.c:331-354 | for every course of the reads, how many bytes are taken; a packet that has come whole, with a number and a length in order, is accepted, and what is accepted is exactly the next packet, on a blocking socket or below 4 GiB; a copy past the end exactly when the size asked for wraps |
| IpcIo.RequestedHolds | ipc/uc_ipc_client.c:343-348 | the buffer holds the packet if and only if 28 and its length stay below 2^64, and else not even the header |
| AckProtocol.AckSafety | ipc/uc_ipc_client.c:484-546 | over all interleavings, a call that succeeds got an acknowledgement with its own number; a synchronous one, what the only callback run for its payload returned |
| AckProtocol.NoSharedAck | ipc/uc_ipc_client.c:448-451 | no acknowledgement is consumed by two calls |
| AckProtocol.OneRun | ipc/uc_ipc_server.c:575-618 | the callback runs at most once for a number |
| AckProtocol.ReceiveStores | ipc/uc_ipc_client.c:365-386 | a message that is awaited is stored under its number, and nothing else changes |
| AckProtocol.ReceivedIsTaken | ipc/uc_ipc_client.c:418-451 | a waiting call whose acknowledgement is received can take it, returns that very message and leaves no entry |
| AckProtocol.AsyncSucceeds | ipc/uc_ipc_client.c:484-518 | from every reachable state with nothing on its way, an asynchronous call of which nothing is lost succeeds, and its packet is in the hands of the server |
| AckProtocol.SyncSucceeds | ipc/uc_ipc_client.c:520-546 | from every such state, a synchronous call of which nothing is lost succeeds with what the callback returned for its payload |
| AckProtocol.EntryFound | ipc/uc_ipc_client.c:418-424 | the error for a missing entry cannot happen |
| AckProtocol.LeftBehind | ipc/uc_ipc_client.c:541-545 | a finished call leaves an entry if and only if it was synchronous and its wait failed |
| AckProtocol.LeftBehindHappens | ipc/uc_ipc_client.c:541-545 | a run in which it does |
| AckProtocol.NewReplies | ipc/uc_ipc_server.c:534-549 | what the server puts on the wire answers a request of that number and kind |
| AckProtocol.StepInv | ipc/uc_ipc_client.c:365-546 | every step of any thread keeps the protocol's invariant |
| AckProtocol.FlightMoves | ipc/uc_ipc_server.c:534-618 | requests move through the server in order, none twice; one drops out only when it is lost on the pipe, or needs no callback |
| AckClient.Client.NextSeqId | ipc/uc_ipc_client.c:8-20 | the number handed out, and the next one, never below 10000 |
| AckClient.Client.InsertSeq | ipc/uc_ipc_client.c:23-37 | the entry is made |
| AckClient.Client.DeleteSeq | ipc/uc_ipc_client.c:40-52 | the entry is gone |
| AckClient.Client.HandleReply | ipc/uc_ipc_client.c:365-386 | an awaited message is stored under its number, another is dropped |
| AckClient.Client.LookForAck | ipc/uc_ipc_client.c:416-451 | a waiting call finds its entry; what it takes answers its own request, and the entry is gone |
| FdMap.RepliesReachTheirClient | ipc/uc_ipc_server.c:643-663 | over all interleavings and reuse of descriptors, bytes for a client are written only while the descriptor is that client's |
| FdMap.ReplyGoesOut | ipc/uc_ipc_server.c:643-663 | in every reachable state with the mutex free, a reply to a client is written if and only if the client is mapped |
| FdMap.LookUpFinds | ipc/uc_ipc_server.c:643-663 | what looking up finds, and that it changes nothing else |
| FdMap.DescriptorReused | ipc/uc_ipc_server.c:297-364 | from every reachable state at rest, a descriptor can go from one client to the next, and replies to that one go out by it |
| FdMap.StepInv | ipc/uc_ipc_server.c:70-83 | unmapping before closing and looking up with writing under one mutex keep map and descriptors in step |
| PoolSpec.PoolSafety | threadpool/uc_threadpool.c:188-318 | over all interleavings: each node in one place, the counter right, threads within their maximum, no task taken twice, none lost, those added at the tail taken in order of acceptance, and the queue within a maximum that was never set to less than it held |
| PoolSpec.StepInv | threadpool/uc_threadpool.c:188-318 | every stretch under the lock keeps that |
| PoolSpec.StepConserves | threadpool/uc_threadpool.c:288-297 | no node is lost, and only an addition that finds none to recycle brings one in |
| PoolSpec.StepCarried | threadpool/uc_threadpool.c:299-300 | a node in use holds the task accepted with it |
| PoolSpec.TakenInOrder | threadpool/uc_threadpool.c:301-305 | tasks added at the tail are taken in the order of acceptance |
| PoolSpec.AddedWhere | threadpool/uc_threadpool.c:301-305 | a task is put at the head or the tail, as asked, and those that wait stay as they are |
| PoolSpec.HeadNext | threadpool/uc_threadpool.c:301-305 | a task put at the head is the next to be taken |
| PoolSpec.TakesFirst | threadpool/uc_threadpool.c:196-213 | a worker can take a task exactly when there is one and no shutdown, and it takes the first |
| PoolSpec.TakenOnce | threadpool/uc_threadpool.c:208-211 | a task is taken once and is then not queued |
| PoolSpec.TakenOrQueued | threadpool/uc_threadpool.c:272-318 | an accepted task is taken or queued |
| PoolSpec.RunWithinMax | threadpool/uc_threadpool.c:284-286 | over every run in which no change of the maximum is to less than the queue holds, the queue stays within the maximum |
| PoolSpec.StepWithinMax | threadpool/uc_threadpool.c:343-351 | one step keeps it if and only if it is no such change |
| PoolMonitor.Monitor.Create | threadpool/uc_threadpool.c:44-107 | threads up to the first that cannot be made, which are then the threads alive; exactly for bad thread numbers, closing the half-made pool follows a NULL pointer |
| PoolMonitor.JoinAll | threadpool/uc_threadpool.c:126-145 | all threads on the list are joined in order and the list is left empty; behind a list head that was never initialised, the entry to be unlinked is NULL |
| PoolMonitor.Monitor.AddTask | threadpool/uc_threadpool.c:272-311 | refused after shutdown, made to wait when full, without memory the lock stays held, else the task is queued at the head or the tail, as asked |
| PoolMonitor.Monitor.TakeTask | threadpool/uc_threadpool.c:196-213 | waits, leaves, or takes the first task |
| PoolMonitor.Monitor.TaskToRun | threadpool/uc_threadpool.c:215-221 | what a worker runs is the task as it was given to the pool |
| PoolMonitor.Monitor.Recycle | threadpool/uc_threadpool.c:223-227 | the node goes to the free list |
| PoolMonitor.Monitor.ActivityTry | threadpool/uc_threadpool.c:235-270 | a thread more exactly when the system can make it, there are fewer threads than the maximum, and not more than waiting tasks |
| PoolMonitor.Monitor.SetTaskMax | threadpool/uc_threadpool.c:343-351 | the old maximum, and the new one set |

## Left out

- Clock values from 2^31 ms on: the indices are summed in C `int`; the model stays below.
- TimerManager.Manager.DeleteTimer: asks for a timer that hangs on a list, or has run out and has its old neighbours next to each other. Otherwise the code breaks a list, which lists as sequences cannot show; `Lists.DelStale` states it on the heap while both old neighbours are on one list. Neighbours that have been freed are not modelled.
- The wheel, the skip list and the hash table keep their nodes in maps from addresses, not as heap objects; lists of the wheel are sequences by the address of their head. Aliasing is equality of addresses.
- SkipList.SkipList.Insert: spans and lengths are unbounded, not 32-bit; NaN scores are excluded by the total order; the random draw is any number from 1 to 32, its distribution is not modelled.
- HashTable.Table.SetHandler: any hash function may be set; the contract says when the table is still in order, the calls after it ask for that.
- Key types other than byte strings, key printing, memory counters and table names of the hash.
- Allocation failure, except for new timers, hash nodes, payloads and task nodes.
- PoolMonitor.Monitor.Close: setting the flag only; joining threads and freeing the lists are not modelled.
- Liveness: condition variables wake whoever they wake; only safety is stated of waiting.
- AckProtocol.AckSafety: assumes that a number is not handed out again while it is in use, within one connection.
- Deframe.Serve: one client; the loop over descriptors is left out, and what callbacks and acknowledgements do is in AckProtocol.
- FdMap.RepliesReachTheirClient: assumes that client numbers are never drawn twice.
- Sockets, epoll, reconnecting, heartbeat timing, time of day and sleeping are replaced by chosen events and ticks.
- hlist operations, backward and typed iteration macros, `util/`, `tcp_ip/`, logging and random numbers: thin or unused here.
