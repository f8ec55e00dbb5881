# Verified model of the packet analyser's shared-memory core

Dafny model of the parts of the packet analyser where correctness is hardest to see: the SharedHashFile key-value table
and its fair read/write lock, the zero-copy IPC queues and the multiplexed log built on it, the retransmission database
of tcptrace, MurmurHash3_x64_128 and the Diameter decoder. The sources are the copies under `MERGE_LATEST/ANALYSEPCAP`.

| part | files | main results |
|---|---|---|
| table | `Records`, `Tabs`, `TabFiles`, `Compaction`, `Redirect`, `Contents`, `Windows`, `Runs` | every run of put, get and delete acts on a finite map from UIDs to pairs; the redirect array is an extendible-hash trie at all times; overflow exactly when a row is full of one tab2 |
| lock | `TicketLock`, `PackedLock`, `PackedFairness` | exclusion, fairness, no deadlock, no starvation for any number of threads; up to 256 threads the packed 8-bit form refines the unbounded one and is fair as well; it excludes writers exactly up to that number |
| queues | `QueueLists`, `QueueLinks`, `QueueFrames`, `Queues` | in every interleaving, linked memory describes the lists, every item has one owner, and it is known which back links are stale; first in, first out |
| log | `SharedLog` | in every schedule, written and pending bytes are the accepted lines in lock order; exactly which lines wait for ever |
| retransmissions | `Segments`, `Acks`, `Quadrants`, `SeqSpaces` | exact overlap, conservation of bytes over whole connections and of counters, the four-slot ring, on doubly linked lists |
| hash | `Murmur` | every step can be undone; no collisions within one block; values for keys of all shapes |
| Diameter | `Diameters` | the bit extractor is the bit slice; the AVP walk |

Objects that the source changes in place are classes (`Tab`, `Window`, `Queues`, `Log`, `Segment`, `Quadrant`, `Tcb`,
`Diameter`) whose methods are proved against functions on values; the lock is a state machine over its atomic steps.
`Arithmetic` holds facts about powers of two and division, `Bytes` the type of a byte. `dafny verify dfyconfig.toml`
checks the whole project.

Where the code and its comments differ, the model follows the code:

- A put never looks for an existing key, so a window is a map from UIDs to pairs and a key may occur more than once.
- The 257th waiting thread breaks the read/write lock, although the comments ask for no limit on threads
  (`PackedLock.ExclusiveUpTo256`).
- The diagram at shf.c:1233-1241 gives the tail of a queue no back link. A locked queue's tail has none exactly when no
  flush has taken some but not all of the queue since it was last empty (`Queues.Queues.Interleave`); the first pull
  from a new queue 0 already leaves a stale one (`Queues.FirstPull`).
- A log line already contains its prefix, and the room test counts the prefix again. So a line that is shorter than
  the buffer waits for ever exactly when it does not fit the empty buffer together with a second prefix
  (`SharedLog.WaitsForEver`, with an example in `SharedLog.LineNeverTaken`).
- `shf_set_data_need_factor` tests the old factor instead of the new one (shf.c:940-947), so it lets 0 through; with
  factor 0 an append does not always fit (`Tabs.GrowthFits`). The window is modelled with a factor of at least 1.
- The sizes of a tab are stored in 32 bits: an append keeps them right exactly when it does not make the tab grow to
  4 GiB (`Tabs.Within32Bits`, with an example in `Tabs.FullTab`).
- A segment's acknowledgement count is 32 bits wide: a byte loses its acknowledgement exactly when that count runs over
  (`Acks.NeverUnacked`), which 2^32 - 1 duplicates bring about (`Acks.AckLost`).
- A segment's retransmit count is 8 bits wide: a segment resent k times gives a clean round-trip sample exactly when
  256 divides k (`Acks.SampleAfterResending`, `Acks.CleanAfter256`).

## Model

| member | source | states |
|---|---|---|
| `Windows.Window.Put` | MERGE_LATEST/ANALYSEPCAP/SHF/shf.c:702-773 | Over every valid window: overflow happens exactly when 16 live entries share the key's tab2 and row; otherwise the map from UIDs to pairs gains exactly one fresh UID for this key and value, whose bits are window, tab2, row and the lowest free ref; tabs part exactly when the row is full, at most 11 times and up to 2,048 tabs; and the tab's garbage is at most 20% of its live bytes |
| `Windows.Window.Find` | MERGE_LATEST/ANALYSEPCAP/SHF/shf.c:781-902 | Lookup by key succeeds exactly when some live UID has the key and selects the lowest ref; lookup by UID succeeds exactly when the UID is live; the value read is the value put; only a delete that finds something changes the map, by exactly one UID; only a copy may replace a tab, and leaves at most a quarter of garbage |
| `Windows.Window.MakeRoom` | MERGE_LATEST/ANALYSEPCAP/SHF/shf.c:714-757 | The retry loop ends: within 11 partings a free slot is found, unless the row is full of live entries of one tab2, and then tab numbers run out |
| `Windows.Window.PartRow` | MERGE_LATEST/ANALYSEPCAP/SHF/shf.c:732-757 | Parting a full row that is not full of one tab2 halves the class of tab2s of its tab and changes no entry of the map |
| `Windows.Window.Exhausted` | MERGE_LATEST/ANALYSEPCAP/SHF/shf.c:661-661 | When all 2,048 tab numbers are taken, a full row is full of live entries of one tab2 |
| `Windows.Window.NotFull` | MERGE_LATEST/ANALYSEPCAP/SHF/shf.c:732-750 | A free slot in a hash's row means that the row is not full of one tab2 and tab numbers are in range |
| `Windows.Window.FirstFree` | MERGE_LATEST/ANALYSEPCAP/SHF/shf.c:732-750 | The slot chosen is the lowest free one of the row, or none is free |
| `Windows.Window.TakenBelow` | MERGE_LATEST/ANALYSEPCAP/SHF/shf.c:732-750 | Below the ref that a put takes, every ref of the row belongs to some live UID |
| `Windows.Window.Place` | MERGE_LATEST/ANALYSEPCAP/SHF/shf.c:736-748 | Storing in a free slot adds exactly one UID to the map |
| `Windows.Window.Insert` | MERGE_LATEST/ANALYSEPCAP/SHF/shf.c:736-766 | The same, followed by the garbage check: the 20% bound holds afterwards |
| `Windows.Window.ShrinkAfterPut` | MERGE_LATEST/ANALYSEPCAP/SHF/shf.c:761-766 | With the 32-bit product of the comparison: the tab is replaced exactly when its garbage exceeds a fifth of its live bytes, the 20% bound holds afterwards and no lookup changes |
| `Windows.Window.ShrinkAfterGet` | MERGE_LATEST/ANALYSEPCAP/SHF/shf.c:875-880 | The tab is replaced exactly when its garbage exceeds a quarter of its live bytes, and no lookup changes |
| `Windows.Window.Shrink` | MERGE_LATEST/ANALYSEPCAP/SHF/shf.c:601-642 | The map and every slot's reading stay the same, and no garbage is left |
| `Windows.Window.Replace` | MERGE_LATEST/ANALYSEPCAP/SHF/shf.c:611-632 | A compacted copy takes the place of a tab file; all slots of all tabs read as before |
| `Windows.Window.Part` | MERGE_LATEST/ANALYSEPCAP/SHF/shf.c:644-700 | The map stays the same; the redirect array, the cells of the trie and the tabs are those of a split, and no garbage is left in the old tab |
| `Windows.Window.Split` | MERGE_LATEST/ANALYSEPCAP/SHF/shf.c:658-695 | The same for the part before the shrink |
| `Windows.Window.MoveToNew` | MERGE_LATEST/ANALYSEPCAP/SHF/shf.c:676-695 | Every slot of the old and the new tab reads what the re-routed redirect array says |
| `Windows.Window.FindRef` | MERGE_LATEST/ANALYSEPCAP/SHF/shf.c:826-844 | The scan with its fingerprint, tab2, length and byte filters finds the lowest ref among all live entries with the key, in the whole window, or there is none |
| `Windows.Window.FindUid` | MERGE_LATEST/ANALYSEPCAP/SHF/shf.c:845-858 | True exactly when the UID is in the map |
| `Windows.Window.Fetch` | MERGE_LATEST/ANALYSEPCAP/SHF/shf.c:845-873 | Returns exactly the bytes that were put under the UID |
| `Windows.Window.Remove` | MERGE_LATEST/ANALYSEPCAP/SHF/shf.c:882-886 | Takes exactly one UID from the map |
| `Windows.Window.Locate` | MERGE_LATEST/ANALYSEPCAP/SHF/shf.c:802-858 | Key search or UID search, by whether a UID is given |
| `Windows.Window.Visit` | MERGE_LATEST/ANALYSEPCAP/SHF/shf.c:860-887 | Look, copy and delete on a live UID |
| `Windows.Window.constructor` | MERGE_LATEST/ANALYSEPCAP/SHF/shf.c:388-401 | A new window is a valid, empty map: every tab2 is routed to tab 0 |
| `Windows.UidRoundTrip` | MERGE_LATEST/ANALYSEPCAP/SHF/shf.private.h:166-174 | Packing window, tab2, row and ref into 32 bits and unpacking gives them back |
| `Windows.UidBits` | MERGE_LATEST/ANALYSEPCAP/SHF/shf.private.h:166-174 | Window, tab2, row and ref are in bits 0-7, 8-18, 19-27 and 28-31 |
| `Windows.UidNone` | MERGE_LATEST/ANALYSEPCAP/SHF/shf.h:347-347 | Exactly one slot of the file has a UID that reads as SHF_UID_NONE |
| `Runs.Run` | MERGE_LATEST/ANALYSEPCAP/SHF/shf.c:702-902 | Every run of puts, gets and deletes acts step by step on the map from UIDs to pairs, and stops early only at a put whose row is full of one tab2 |
| `Runs.Do` | MERGE_LATEST/ANALYSEPCAP/SHF/shf.c:702-902 | One operation acts on the map from UIDs to pairs as specified, or is a put whose row is full of one tab2 and changes nothing of the map |
| `Runs.UidSurvives` | MERGE_LATEST/ANALYSEPCAP/SHF/shf.h:100-104 | In every run, a UID returned by a put keeps naming the key and value of that put, through all partings and shrinks, until it is deleted |
| `Runs.UidsFresh` | MERGE_LATEST/ANALYSEPCAP/SHF/shf.c:732-750 | In every run, a UID is not handed out again while it is live |
| `Contents.PutWindow` | MERGE_LATEST/ANALYSEPCAP/SHF/shf.c:736-748 | Filling a free slot at the key's address keeps the window invariant and adds one fresh UID to the map |
| `Contents.DeleteWindow` | MERGE_LATEST/ANALYSEPCAP/SHF/shf.c:539-547 | Clearing a live slot keeps the invariant and removes one UID |
| `Contents.PartMap` | MERGE_LATEST/ANALYSEPCAP/SHF/shf.c:644-700 | Splitting a tab keeps the invariant and the map |
| `Contents.PartLookup` | MERGE_LATEST/ANALYSEPCAP/SHF/shf.c:660-695 | No UID lookup changes when a tab is split |
| `Contents.PartRouted` | MERGE_LATEST/ANALYSEPCAP/SHF/shf.c:679-695 | After a split every entry is in the tab that its stored tab2 routes to, at its key's row and with its key's fingerprint |
| `Contents.LiveSlot` | MERGE_LATEST/ANALYSEPCAP/SHF/shf.c:845-858 | A UID is live exactly when its slot, found through the redirect array, is in use with the UID's tab2 |
| `Contents.UsedSlot` | MERGE_LATEST/ANALYSEPCAP/SHF/shf.c:845-858 | A slot in use is that of a live UID |
| `Contents.CanHalve` | MERGE_LATEST/ANALYSEPCAP/SHF/shf.c:752-757 | A full row that is not full of one tab2 belongs to a tab with at least two tab2s, so parting can halve it |
| `Contents.Halved` | MERGE_LATEST/ANALYSEPCAP/SHF/shf.c:660-670 | A halving split leaves no tab without tab2s and puts the tab2 one level deeper; tab numbers are left for it |
| `Contents.KeyInRow` | MERGE_LATEST/ANALYSEPCAP/SHF/shf.c:803-844 | Every live entry with a key sits in the row that the key's hash leads to |
| `Contents.FirstMatch` | MERGE_LATEST/ANALYSEPCAP/SHF/shf.c:826-844 | The first match of a row scan is the lowest ref among all live entries with the key |
| `Contents.RndAgrees` | MERGE_LATEST/ANALYSEPCAP/SHF/shf.c:828-830 | The fingerprint filter never hides a match |
| `Contents.InitialWindow` | MERGE_LATEST/ANALYSEPCAP/SHF/shf.c:388-401 | All-zero redirects and one empty tab satisfy the invariant with the empty map |
| `Redirect.PartRedirect` | MERGE_LATEST/ANALYSEPCAP/SHF/shf.c:662-670 | The toggling loop, in place, re-routes every second tab2 of the old tab and no other |
| `Redirect.PartedRoutes` | MERGE_LATEST/ANALYSEPCAP/SHF/shf.c:662-670 | After parting, a tab2 is routed to a tab exactly when it lies in that tab's new residue class |
| `Redirect.LowestStays` | MERGE_LATEST/ANALYSEPCAP/SHF/shf.c:662-670 | Without counting: the lowest tab2 of a parted tab stays with it |
| `Redirect.Alternates` | MERGE_LATEST/ANALYSEPCAP/SHF/shf.c:662-670 | Of every two tab2s of the parted tab that follow each other, exactly one goes to the new tab |
| `Redirect.PartedTrie` | MERGE_LATEST/ANALYSEPCAP/SHF/shf.h:106-112 | Parting any tab of an extendible-hash trie gives such a trie: residue classes modulo powers of two, or nothing, that partition the 2,048 tab2s |
| `Redirect.RankInCell` | MERGE_LATEST/ANALYSEPCAP/SHF/shf.c:662-670 | Counting tab2s of a residue class alternates between its even and its odd half |
| `Redirect.KraftBounds` | MERGE_LATEST/ANALYSEPCAP/SHF/shf.c:661-661 | If no class is empty there are at most 2,048 tabs, and fewer while some class can be halved |
| `Redirect.InitialTrie` | MERGE_LATEST/ANALYSEPCAP/SHF/shf.c:390-400 | The all-zero array is a trie with one class |
| `Compaction.Compact` | MERGE_LATEST/ANALYSEPCAP/SHF/shf.c:620-632 | The copying loops of a shrink give a new tab in which every slot reads as before and nothing is garbage |
| `Compaction.MoveRouted` | MERGE_LATEST/ANALYSEPCAP/SHF/shf.c:679-695 | The copying loops of a parting move exactly the entries whose tab2 now routes to the new tab |
| `Compaction.CopyRef` | MERGE_LATEST/ANALYSEPCAP/SHF/shf.c:549-565 | One entry goes from the same slot of one tab to the other; the new tab gains no garbage |
| `TabFiles.Tab.Append` | MERGE_LATEST/ANALYSEPCAP/SHF/shf.c:486-537 | The slot reads back the key and value, all other slots read as before, and size, used length and live bytes become those of the specified growth by 9 and both lengths |
| `TabFiles.Tab.Grow` | MERGE_LATEST/ANALYSEPCAP/SHF/shf.c:490-521 | A longer, page-aligned file with zeros at its end always has room for the record when the growth factor is at least 1 |
| `TabFiles.Tab.Store` | MERGE_LATEST/ANALYSEPCAP/SHF/shf.c:522-537 | The stores of an append, byte by byte, are those of the specified tab state |
| `TabFiles.Tab.MarkAsDeleted` | MERGE_LATEST/ANALYSEPCAP/SHF/shf.c:539-547 | The slot reads as free, all others as before, and the record's bytes go from live to garbage |
| `TabFiles.Tab.Read` | MERGE_LATEST/ANALYSEPCAP/SHF/shf.c:552-555 | Reads exactly the key and value that the slot holds |
| `TabFiles.Tab.Ref` | MERGE_LATEST/ANALYSEPCAP/SHF/shf.c:828-830 | A slot is in use exactly when its position is not 0 |
| `TabFiles.Tab.constructor` | MERGE_LATEST/ANALYSEPCAP/SHF/shf.c:620-623 | A new tab file is valid, empty and without garbage; it has 17 pages, of which the header uses 65,556 bytes |
| `TabFiles.UsedReadable` | MERGE_LATEST/ANALYSEPCAP/SHF/shf.c:832-836 | The bounds that the lookups assert hold at every slot in use of every valid tab |
| `TabFiles.SpaceAccounting` | MERGE_LATEST/ANALYSEPCAP/SHF/shf.private.h:58-67 | In every valid tab the used length less the header is live plus garbage bytes, and the records of different slots never overlap and lie below the used length |
| `TabFiles.GridSet` | MERGE_LATEST/ANALYSEPCAP/SHF/shf.c:534-547 | The live-byte counter, which every valid tab ties to the sum of 9 and both lengths over its slots in use, moves with the one slot that changes |
| `TabFiles.WriteRecord` | MERGE_LATEST/ANALYSEPCAP/SHF/shf.c:524-533 | Five stores, or four for a reserved value, write the encoding of the record |
| `Tabs.GrowthFits` | MERGE_LATEST/ANALYSEPCAP/SHF/shf.c:490-496 | Growing makes room exactly when there was room or the growth factor is at least 1; without need the size stays, and else it is size plus need times factor, rounded up to pages |
| `Tabs.Within32Bits` | MERGE_LATEST/ANALYSEPCAP/SHF/shf.c:490-523 | The 32-bit fields hold the counters after an append exactly when the tab does not grow to 4 GiB, and then the bounds that the append asserts in 32-bit arithmetic are true |
| `Tabs.FullTab` | MERGE_LATEST/ANALYSEPCAP/SHF/shf.c:496-523 | In a full tab of 4 GiB less a page, an append of 10 bytes stores the size 0 and fails its own assertion |
| `Tabs.AppendedAll` | MERGE_LATEST/ANALYSEPCAP/SHF/shf.c:486-537 | Appending keeps slots, bytes and counters in agreement, and changes what one slot reads |
| `Tabs.DeletedAll` | MERGE_LATEST/ANALYSEPCAP/SHF/shf.c:539-547 | Deleting keeps them in agreement, and changes what one slot reads |
| `Tabs.OwnerUnique` | MERGE_LATEST/ANALYSEPCAP/SHF/shf.c:541-546 | A slot owns one live record only |
| `Records.ReadBack` | MERGE_LATEST/ANALYSEPCAP/SHF/shf.c:527-533 | An encoded record reads back as its key and value |
| `Records.U32RoundTrip` | MERGE_LATEST/ANALYSEPCAP/SHF/shf.c:528-530 | A 32-bit length stored in four bytes reads back |
| `Records.EncExample` | MERGE_LATEST/ANALYSEPCAP/SHF/shf.c:524-542 | A record of three bytes, and its first five bytes after deletion, byte by byte |
| `Records.BytesTotal` | MERGE_LATEST/ANALYSEPCAP/SHF/shf.c:534-544 | Live and garbage records tile the data area exactly |
| `Records.DeletedData` | MERGE_LATEST/ANALYSEPCAP/SHF/shf.c:541-542 | Overwriting the head of one record as deleted leaves every other record intact |
| `Records.AppendedData` | MERGE_LATEST/ANALYSEPCAP/SHF/shf.c:527-534 | Writing behind the last record leaves every other record intact |
| `TicketLock.StepKeeps` | MERGE_LATEST/ANALYSEPCAP/SHF/shf.lock.h:212-284 | Every step of every thread keeps: active_writer <= active_reader <= next, active_writer is the number of releases, every ticket below active_reader has entered, every one above waits |
| `TicketLock.Invariant` | MERGE_LATEST/ANALYSEPCAP/SHF/shf.lock.h:212-284 | The invariant holds in every state of every execution |
| `TicketLock.Exclusion` | MERGE_LATEST/ANALYSEPCAP/SHF/shf.h:114-116 | In every state of every execution of any number of threads, a writer that holds is the only holder |
| `TicketLock.WriterAlone` | MERGE_LATEST/ANALYSEPCAP/SHF/shf.lock.h:212-256 | While a writer holds, all earlier tickets have released and all later ones wait |
| `TicketLock.WriterTurn` | MERGE_LATEST/ANALYSEPCAP/SHF/shf.lock.h:212-229 | A writer can enter exactly when all smaller tickets have released |
| `TicketLock.ReaderTurn` | MERGE_LATEST/ANALYSEPCAP/SHF/shf.lock.h:252-277 | A reader can enter exactly when all smaller tickets have entered and all smaller writers have released |
| `TicketLock.SomeoneMoves` | MERGE_LATEST/ANALYSEPCAP/SHF/shf.lock.h:212-284 | No deadlock: while a ticket is out, that ticket or a smaller one can step |
| `TicketLock.NoStarvation` | MERGE_LATEST/ANALYSEPCAP/SHF/shf.h:117-117 | No starvation: in every execution, from any state on, while a ticket has not been released it or a smaller one can step; and once the tickets up to it have taken the steps that were left to them, at most three each, it has been released. Later tickets can neither stop nor prolong this |
| `TicketLock.WorkDone` | MERGE_LATEST/ANALYSEPCAP/SHF/shf.lock.h:212-284 | Each step of a ticket up to t takes one unit off the work ahead of t, and no step adds to it |
| `PackedLock.Refines` | MERGE_LATEST/ANALYSEPCAP/SHF/shf.lock.h:179-284 | With at most 256 threads, every execution of the packed 64-bit word with its late pad stores maps step by step to an execution of the unbounded lock |
| `PackedLock.NoDeadlock` | MERGE_LATEST/ANALYSEPCAP/SHF/shf.lock.h:212-284 | With at most 256 threads, in every execution of the packed lock, while a thread has a ticket some thread that has one can step |
| `PackedFairness.NobodyOvertakes` | MERGE_LATEST/ANALYSEPCAP/SHF/shf.h:117-117 | With at most 256 threads, in every execution of the packed lock: while a thread waits, a thread that was seen without a ticket in the meantime, and so draws later if at all, does not get in |
| `PackedFairness.OnceEach` | MERGE_LATEST/ANALYSEPCAP/SHF/shf.h:117-117 | The same in numbers: while a thread waits, each other thread gets in at most once |
| `PackedFairness.NoStarvationUpTo256` | MERGE_LATEST/ANALYSEPCAP/SHF/shf.lock.h:212-284 | While a thread waits, a thread that has had its ticket all the while can step, and with n threads these take fewer than 5n steps in all, whatever later threads do |
| `PackedLock.SimStep` | MERGE_LATEST/ANALYSEPCAP/SHF/shf.lock.h:207-284 | Every step of one thread on the packed word is a step, or no step, of the unbounded lock |
| `PackedLock.Comparison` | MERGE_LATEST/ANALYSEPCAP/SHF/shf.lock.h:222-262 | With at most 256 threads, each byte comparison agrees with the comparison of the unbounded tickets |
| `PackedLock.NoCarry` | MERGE_LATEST/ANALYSEPCAP/SHF/shf.lock.h:207-210 | An add stays within its counter and pad byte while no pad is full |
| `PackedLock.Pads` | MERGE_LATEST/ANALYSEPCAP/SHF/shf.lock.h:220-283 | Zeroing a pad removes the carries of its own counter and touches nothing else |
| `PackedLock.ExclusiveUpTo256` | MERGE_LATEST/ANALYSEPCAP/SHF/shf.h:114-116 | The packed lock excludes writers in every execution exactly when at most 256 threads use it |
| `PackedLock.TwoWriters` | MERGE_LATEST/ANALYSEPCAP/SHF/shf.lock.h:212-229 | With 257 threads there is an execution in which two writers hold at once |
| `Queues.Queues.PushHead` | MERGE_LATEST/ANALYSEPCAP/SHF/shf.c:1355-1387 | For the pushing process the queue is a plain list and the item goes to its end; pushing no item changes nothing; the batch is flushed exactly when it is full, as `Queues.PushedExactly` says list by list; other processes' batches stay as they are and only this item changes hands |
| `Queues.Queues.PullTail` | MERGE_LATEST/ANALYSEPCAP/SHF/shf.c:1287-1335 | Returns the first item of the process's list and removes it, or no item exactly when the list is empty; the lock is taken exactly when the pull batch is empty |
| `Queues.Queues.PushHeadPullTail` | MERGE_LATEST/ANALYSEPCAP/SHF/shf.c:1535-1602 | For the process's lists the hybrid call equals a push and then a pull, with one flush, exactly when the push batch is full or the pull batch empty |
| `Queues.Queues.Flush` | MERGE_LATEST/ANALYSEPCAP/SHF/shf.c:1421-1511 | Under the lock, each push batch goes to the head of its queue in order, and the pull batch is filled up to its limit, on linked memory; no item changes hands, no link of another process's items is touched, and a locked tail becomes stale exactly by a partial refill, which the caller can tell beforehand |
| `Queues.Queues.Drain` | MERGE_LATEST/ANALYSEPCAP/SHF/shf.c:1435-1464 | Every push batch ends up at the head of its locked queue, in order; only links that the process may touch change, and no tail becomes stale |
| `Queues.Queues.Fill` | MERGE_LATEST/ANALYSEPCAP/SHF/shf.c:1467-1508 | The walk and the relinking fill a pull batch up to its limit; only links that the process may touch change, and the queue's tail becomes stale exactly if the refill takes a part of the queue |
| `Queues.Queues.Walk` | MERGE_LATEST/ANALYSEPCAP/SHF/shf.c:1479-1489 | The walk along next links ends at the n-th item |
| `Queues.Queues.MoveEnds` | MERGE_LATEST/ANALYSEPCAP/SHF/shf.c:1449-1462 | Relinking only the ends of two lists moves a stretch of items from one to the other and keeps every list a chain; only links of items on lists that the process may touch change, and a locked tail becomes stale exactly if a part of its queue was taken |
| `Queues.Queues.Relink` | MERGE_LATEST/ANALYSEPCAP/SHF/shf.c:1449-1462 | The stores of that move, in place, give exactly the specified links, lists and owners |
| `Queues.Queues.Hook` | MERGE_LATEST/ANALYSEPCAP/SHF/shf.c:1449-1454 | The stores that hook a stretch of items to the head of a list |
| `Queues.Queues.Link` | MERGE_LATEST/ANALYSEPCAP/SHF/shf.c:1370-1377 | An unlocked push touches no link of another process's items or of a locked queue, and makes no locked tail stale |
| `Queues.Queues.Unlink` | MERGE_LATEST/ANALYSEPCAP/SHF/shf.c:1315-1324 | An unlocked pull touches no link of another process's items or of a locked queue, and makes no locked tail stale |
| `Queues.Queues.Interleave` | MERGE_LATEST/ANALYSEPCAP/SHF/shf.c:1287-1602 | For every interleaving of the atomic steps of any number of processes, links and records keep describing the lists of the run, every item is in exactly one list or one hand, and the tail of a locked queue that is not empty has a back link if and only if the queue has not been empty since a partial refill hit it, or since the start if the tail had one then |
| `Queues.Queues.constructor` | MERGE_LATEST/ANALYSEPCAP/SHF/shf.c:1067-1137 | Afterwards every item is on locked queue 0, in order, every batch is empty, and no tail has a back link |
| `Queues.FlushedViews` | MERGE_LATEST/ANALYSEPCAP/SHF/shf.c:1421-1511 | A flush changes no list as its process sees it, and leaves the pull batch empty only if that list is |
| `Queues.FlushedExactly` | MERGE_LATEST/ANALYSEPCAP/SHF/shf.c:1421-1511 | List by list, without the functions that compute it: every push batch of the process is empty and its items are at the end of their locked queue; the pull batch has taken items in order until it is full or the locked queue empty, and no more |
| `Queues.PushedExactly` | MERGE_LATEST/ANALYSEPCAP/SHF/shf.c:1370-1385 | List by list: an item pushed into a batch that stays below its limit changes no other list; one that fills it sends every push batch of the process to its locked queue |
| `Queues.PulledExactly` | MERGE_LATEST/ANALYSEPCAP/SHF/shf.c:1303-1325 | List by list: while the pull batch has an item, its first item is taken and no other list changes; only an empty one is refilled first |
| `Queues.HybridExactly` | MERGE_LATEST/ANALYSEPCAP/SHF/shf.c:1556-1577 | List by list: the item is linked, and one flush happens exactly if the push batch has reached its limit or the pull batch is empty |
| `Queues.ItemPulled` | MERGE_LATEST/ANALYSEPCAP/SHF/shf.c:1287-1602 | The item pulled is the first of pull batch, locked queue, push batch and the item just pushed, or none |
| `Queues.FirstPullStale` | MERGE_LATEST/ANALYSEPCAP/SHF/shf.c:1467-1508 | For all legal sizes, the first pull from queue 0 after shf_q_new is a partial refill that leaves the queue busy |
| `Queues.FirstPull` | MERGE_LATEST/ANALYSEPCAP/SHF/shf.c:1067-1137 | Made and pulled from once, on linked memory: the tail of locked queue 0 has a stale back link, for all legal sizes |
| `QueueLinks.MoveSpace` | MERGE_LATEST/ANALYSEPCAP/SHF/shf.c:1449-1506 | Moving items between lists keeps all chains, sizes, interior back links and owners |
| `QueueLinks.LinkSpace` | MERGE_LATEST/ANALYSEPCAP/SHF/shf.c:1370-1377 | Linking an item in hand keeps them |
| `QueueLinks.TakeSpace` | MERGE_LATEST/ANALYSEPCAP/SHF/shf.c:1315-1324 | Unlinking a tail keeps them |
| `QueueFrames.MoveTails` | MERGE_LATEST/ANALYSEPCAP/SHF/shf.c:1449-1506 | After relinking, the tail of a locked queue that is not empty has a back link exactly when the move took some but not all of that queue, or it had one before |
| `QueueFrames.MoveOwnOnly` | MERGE_LATEST/ANALYSEPCAP/SHF/shf.c:1449-1506 | Relinking lists that one process may touch changes only links of items on such lists, and the process may touch the same items afterwards |
| `QueueFrames.StaleNext` | MERGE_LATEST/ANALYSEPCAP/SHF/shf.c:1467-1508 | Over a run: a queue has been busy since a partial refill exactly when it is busy and was just hit or had been before |
| `QueueLists.FirstInFirstOut` | MERGE_LATEST/ANALYSEPCAP/SHF/shf.c:1287-1602 | With one pusher and one puller of a queue, in every interleaving, the items pulled so far and the items still on the way are the initial contents and the items pushed so far, in order |
| `QueueLists.PipeStep` | MERGE_LATEST/ANALYSEPCAP/SHF/shf.c:1287-1602 | Every single step keeps that order |
| `QueueLists.DrainEffect` | MERGE_LATEST/ANALYSEPCAP/SHF/shf.c:1435-1464 | What a drain leaves in each list |
| `SharedLog.Log.Interleave` | MERGE_LATEST/ANALYSEPCAP/SHF/shf.c:1831-2056 | For every schedule of appenders and the log thread with partial writes: bytes written and bytes pending are together the accepted lines in lock order, the used length never exceeds the size, and a line is accepted exactly when it fitted |
| `SharedLog.Log.TryAppend` | MERGE_LATEST/ANALYSEPCAP/SHF/shf.c:2015-2056 | A line is taken exactly when it is shorter than the buffer and prefix and line are together at most what is free; the stream stays intact |
| `SharedLog.Log.WriteSome` | MERGE_LATEST/ANALYSEPCAP/SHF/shf.c:1831-1855 | A partial write moves bytes from pending to written while appenders may be at work |
| `SharedLog.Log.CloseGap` | MERGE_LATEST/ANALYSEPCAP/SHF/shf.c:1904-1912 | Closing the gap loses and repeats nothing, also of lines appended during the write |
| `SharedLog.Log.AllWritten` | MERGE_LATEST/ANALYSEPCAP/SHF/shf.c:1928-1936 | Everything accepted has been written exactly when the last snapshot was written out and nothing was appended after it |
| `SharedLog.WaitsForEver` | MERGE_LATEST/ANALYSEPCAP/SHF/shf.c:2022-2056 | From every state: some schedule of appenders and the log thread lets a line in that is shorter than the buffer if and only if, while the thread runs, line and prefix fit the empty buffer, and after it has stopped, they fit now |
| `SharedLog.LineNeverTaken` | MERGE_LATEST/ANALYSEPCAP/SHF/shf.c:2022-2046 | A line of 96 bytes with a prefix of 40 is taken by no schedule of an empty log of 128 bytes |
| `SeqSpaces.Tcb.Rexmit` | MERGE_LATEST/ANALYSEPCAP/tcptrace_SRC/rexmit.c:123-160 | For every range that spans at most two quadrants: the segments are those of adding its one or two pieces at this time; the bytes recorded are those kept and the range, acknowledged bytes do not change, and the value returned is the number of bytes of the range that were recorded, also across a quadrant boundary and the wrap of the sequence space; the out-of-order flag means a gap before a segment that ends beyond the piece, in one of the two quadrants |
| `SeqSpaces.Tcb.WhichQuad` | MERGE_LATEST/ANALYSEPCAP/tcptrace_SRC/rexmit.c:284-336 | From every reachable ring: afterwards exactly the quadrant asked for and its two neighbours are there and linked, no link leads elsewhere, and moving the centre drops exactly the opposite quadrant's segments; at the centre nothing changes |
| `SeqSpaces.Tcb.AckIn` | MERGE_LATEST/ANALYSEPCAP/tcptrace_SRC/rexmit.c:579-704 | The loops over the previous and the current quadrant on linked memory give the specified segments, counters and reply, and the histogram still adds up to the number of samples |
| `SeqSpaces.Tcb.Replay` | MERGE_LATEST/ANALYSEPCAP/tcptrace_SRC/rexmit.c:123-160 | Over every run of transmissions and acknowledgements on linked memory: length less returned overlap adds up to the bytes recorded at the end, less those recorded at the start, plus those that moving the centre dropped |
| `SeqSpaces.Tcb.Sees` | MERGE_LATEST/ANALYSEPCAP/tcptrace_SRC/rexmit.c:123-160 | One transmission or acknowledgement keeps what moving the centre leaves, records its bytes, and reports how many of them were new |
| `SeqSpaces.Conserved` | MERGE_LATEST/ANALYSEPCAP/tcptrace_SRC/rexmit.c:123-160 | The law of conservation for every run of states that follow each other in this way |
| `SeqSpaces.DistinctSent` | MERGE_LATEST/ANALYSEPCAP/tcptrace_SRC/rexmit.c:123-160 | From an empty space, while nothing is dropped, the new bytes are the distinct bytes sent, across quadrants and the wrap of the sequence space |
| `SeqSpaces.DroppedSlot` | MERGE_LATEST/ANALYSEPCAP/tcptrace_SRC/rexmit.c:284-336 | Moving the centre drops exactly the bytes of the opposite quadrant |
| `SeqSpaces.Tcb.AddAt` | MERGE_LATEST/ANALYSEPCAP/tcptrace_SRC/rexmit.c:164-251 | Adding to one quadrant leaves the segments of the others untouched |
| `SeqSpaces.AckSpace` | MERGE_LATEST/ANALYSEPCAP/tcptrace_SRC/rexmit.c:603-703 | Every recorded byte is kept; the previous quadrant is acknowledged entirely and of the current one every segment that starts below the acknowledgement; the four counters together rise by the number of newly acknowledged segments |
| `SeqSpaces.AddedTwice` | MERGE_LATEST/ANALYSEPCAP/tcptrace_SRC/rexmit.c:141-154 | The overlaps of the two pieces add up to the overlap of the whole range |
| `SeqSpaces.NextPiece` | MERGE_LATEST/ANALYSEPCAP/tcptrace_SRC/tcptrace.h:966-974 | A range that leaves its quadrant ends in the next one, and the pieces are those of the boundary macros |
| `SeqSpaces.OutOfOrderParts` | MERGE_LATEST/ANALYSEPCAP/tcptrace_SRC/rexmit.c:123-160 | The out-of-order flag of a range in terms of the gaps of its quadrant and the next |
| `Quadrants.Quadrant.AddSeg` | MERGE_LATEST/ANALYSEPCAP/tcptrace_SRC/rexmit.c:164-251 | The walk over the doubly linked list, with its splits, gives exactly the specified list, overlap and out-of-order flag, and a well-linked list |
| `Quadrants.Quadrant.Sweep` | MERGE_LATEST/ANALYSEPCAP/tcptrace_SRC/rexmit.c:180-251 | The loop of that walk, from any segment on, completes the specified result |
| `Quadrants.Quadrant.Insert` | MERGE_LATEST/ANALYSEPCAP/tcptrace_SRC/rexmit.c:398-421 | The list stays doubly linked, with the new segment at its place |
| `Quadrants.Quadrant.Collapse` | MERGE_LATEST/ANALYSEPCAP/tcptrace_SRC/rexmit.c:341-395 | In place, the list becomes the collapsed list; the full flag is set when its first segment covers the quadrant |
| `Quadrants.Quadrant.Cumulate` | MERGE_LATEST/ANALYSEPCAP/tcptrace_SRC/rexmit.c:603-616 | Acknowledges every segment of the list |
| `Quadrants.Quadrant.ScanAcked` | MERGE_LATEST/ANALYSEPCAP/tcptrace_SRC/rexmit.c:620-700 | Visits the segments up to the first that starts at or above the acknowledgement |
| `Quadrants.Quadrant.AckOne` | MERGE_LATEST/ANALYSEPCAP/tcptrace_SRC/rexmit.c:628-699 | One segment: new or repeated acknowledgement, with its counters |
| `Quadrants.Quadrant.AckAgain` | MERGE_LATEST/ANALYSEPCAP/tcptrace_SRC/rexmit.c:633-682 | Duplicate acknowledgements under both rules, with the triple count |
| `Quadrants.Quadrant.RttAckin` | MERGE_LATEST/ANALYSEPCAP/tcptrace_SRC/rexmit.c:440-535 | Classifies a sample: none, normal with its histogram bucket, or ambiguous |
| `Segments.AddedBytes` | MERGE_LATEST/ANALYSEPCAP/tcptrace_SRC/rexmit.c:164-251 | For every sorted disjoint list and every range, the new list covers exactly the old bytes and the range, and acknowledges what the old one did |
| `Segments.AddedSorted` | MERGE_LATEST/ANALYSEPCAP/tcptrace_SRC/rexmit.c:164-251 | The new list is sorted and disjoint, and stays within the quadrant |
| `Segments.OverlapExact` | MERGE_LATEST/ANALYSEPCAP/tcptrace_SRC/rexmit.c:164-251 | The overlap returned is the number of bytes of the range that were covered |
| `Segments.OutOfOrderExact` | MERGE_LATEST/ANALYSEPCAP/tcptrace_SRC/rexmit.c:190-197 | The out-of-order flag means exactly: some uncovered byte of the range lies in the gap right before a segment that ends beyond the range |
| `Segments.LateRange` | MERGE_LATEST/ANALYSEPCAP/tcptrace_SRC/rexmit.c:190-197 | A range none of which was recorded is out of order exactly when something beyond it was |
| `Segments.AddedKeeps` | MERGE_LATEST/ANALYSEPCAP/tcptrace_SRC/rexmit.c:164-251 | Adding a range keeps every segment's bytes and acknowledgements; its one-byte retransmit count goes up exactly if the range touches it, and exactly the first segment touched gets the new time |
| `Segments.AddedNew` | MERGE_LATEST/ANALYSEPCAP/tcptrace_SRC/rexmit.c:164-251 | Every other segment is a new piece of the range: sent once, just now, not acknowledged, and none of it recorded before |
| `Segments.ResentCount` | MERGE_LATEST/ANALYSEPCAP/tcptrace_SRC/rexmit.c:222-227 | Over every run, a segment's one-byte count is the number of ranges that touched it, modulo 256 |
| `Segments.DistinctBytes` | MERGE_LATEST/ANALYSEPCAP/tcptrace_SRC/rexmit.c:164-251 | Over every run from an empty quadrant, length less returned overlap adds up to the number of distinct bytes sent |
| `Segments.CollapsedBytes` | MERGE_LATEST/ANALYSEPCAP/tcptrace_SRC/rexmit.c:341-388 | Collapsing keeps covered and acknowledged bytes and the order |
| `Segments.CollapsedAll` | MERGE_LATEST/ANALYSEPCAP/tcptrace_SRC/rexmit.c:354-388 | Afterwards, up to the first segment not acknowledged, no two neighbours could be joined |
| `Segments.CollapsedStretches` | MERGE_LATEST/ANALYSEPCAP/tcptrace_SRC/rexmit.c:354-388 | Every segment that collapsing leaves is a stretch of acknowledged neighbours that fit together, with the retransmit count of the first, the acknowledgement count of the last and the newest time |
| `Acks.OneCounted` | MERGE_LATEST/ANALYSEPCAP/tcptrace_SRC/rexmit.c:440-535 | A newly acknowledged segment raises exactly one of the four counters by one, another segment none, and the histogram keeps adding up |
| `Acks.OneExactly` | MERGE_LATEST/ANALYSEPCAP/tcptrace_SRC/rexmit.c:628-699 | Which of the six counters and six buckets rises for a segment, what is replied, and what its acknowledgement count becomes, field by field |
| `Acks.AckCounted` | MERGE_LATEST/ANALYSEPCAP/tcptrace_SRC/rexmit.c:603-701 | The same over both quadrants |
| `Acks.UnackedIs` | MERGE_LATEST/ANALYSEPCAP/tcptrace_SRC/rexmit.c:603-616 | The newly acknowledged segments are counted one by one |
| `Acks.AckedPlain` | MERGE_LATEST/ANALYSEPCAP/tcptrace_SRC/rexmit.c:603-703 | An acknowledgement that falls on no segment's end raises only the cumulative counter, once for each segment it newly covers in either quadrant, and replies accordingly |
| `Acks.AckedEnd` | MERGE_LATEST/ANALYSEPCAP/tcptrace_SRC/rexmit.c:603-703 | One that falls on a segment's end: the others it newly covers count as cumulative; that segment counts as no sample exactly if something the acknowledgement passes before it was sent later, else as clean or ambiguous, or as a duplicate; the reply is that for this segment |
| `Acks.AckedCollapses` | MERGE_LATEST/ANALYSEPCAP/tcptrace_SRC/rexmit.c:617-702 | A quadrant is collapsed exactly if the acknowledgement newly covers a segment of it |
| `Acks.CumulatedAt` | MERGE_LATEST/ANALYSEPCAP/tcptrace_SRC/rexmit.c:603-616 | Each segment of the previous quadrant: a new one gets the count 1, the others keep theirs |
| `Acks.ScannedAt` | MERGE_LATEST/ANALYSEPCAP/tcptrace_SRC/rexmit.c:620-700 | Each segment of the current quadrant: its new acknowledgement count under both rules |
| `Acks.AckBytes` | MERGE_LATEST/ANALYSEPCAP/tcptrace_SRC/rexmit.c:603-703 | What is covered and what is acknowledged afterwards, in both quadrants |
| `Acks.NeverUnacked` | MERGE_LATEST/ANALYSEPCAP/tcptrace_SRC/rexmit.c:640-680 | No byte loses its acknowledgement exactly when no segment's 32-bit count runs over in a duplicate acknowledgement |
| `Acks.Duplicates` | MERGE_LATEST/ANALYSEPCAP/tcptrace_SRC/rexmit.c:633-682 | Through the whole of ack_in, n duplicates raise a segment's count by n, and its first byte loses the acknowledgement exactly when the count reaches 2^32 |
| `Acks.AckLost` | MERGE_LATEST/ANALYSEPCAP/tcptrace_SRC/rexmit.c:633-682 | A segment acknowledged once is not acknowledged any more after 2^32 - 1 duplicates |
| `Acks.SampleAfterResending` | MERGE_LATEST/ANALYSEPCAP/tcptrace_SRC/rexmit.c:440-535 | A new segment that k later ranges touched, acknowledged to its end and with nothing sent after it since, counts as a clean sample exactly when 256 divides k, and as ambiguous otherwise |
| `Acks.CleanAfter256` | MERGE_LATEST/ANALYSEPCAP/tcptrace_SRC/rexmit.c:449-451 | A segment sent once and then resent 256 times gives a clean sample |
| `Murmur.HashKey` | MERGE_LATEST/ANALYSEPCAP/SHF/murmurhash3.c:75-152 | The loop over blocks, the fall-through switch and the finalisation compute the specified hash |
| `Murmur.OfFewBytes` | MERGE_LATEST/ANALYSEPCAP/SHF/murmurhash3.c:75-152 | The hash of "hello" without a seed |
| `Murmur.OfOneBlock` | MERGE_LATEST/ANALYSEPCAP/SHF/murmurhash3.c:75-152 | The hash of 16 different bytes, with a seed |
| `Murmur.OfLongTail` | MERGE_LATEST/ANALYSEPCAP/SHF/murmurhash3.c:75-152 | The hash of a block and a tail of 15 bytes, with a seed |
| `Murmur.OfTwoBlocks` | MERGE_LATEST/ANALYSEPCAP/SHF/murmurhash3.c:75-152 | The hash of two different blocks and a tail of 10 bytes, with a seed |
| `Murmur.NoCollision` | MERGE_LATEST/ANALYSEPCAP/SHF/murmurhash3.c:75-152 | For every seed, two keys of equal length that differ within one block only, or within the tail only, have equal hashes exactly when they are equal |
| `Murmur.ShortKeys` | MERGE_LATEST/ANALYSEPCAP/SHF/murmurhash3.c:75-152 | Distinct keys of equal length up to 16 bytes never collide |
| `Murmur.BlockUndone` | MERGE_LATEST/ANALYSEPCAP/SHF/murmurhash3.c:92-104 | A block step can be undone for its state, and for its block |
| `Murmur.FmixUndone` | MERGE_LATEST/ANALYSEPCAP/SHF/murmurhash3.c:62-71 | The finalisation mix has an inverse |
| `Murmur.FinalOneToOne` | MERGE_LATEST/ANALYSEPCAP/SHF/murmurhash3.c:139-151 | The finalisation is one to one on the state |
| `Murmur.TailUndone` | MERGE_LATEST/ANALYSEPCAP/SHF/murmurhash3.c:111-134 | The tail step can be undone for its state, and for its words |
| `Murmur.MixTail` | MERGE_LATEST/ANALYSEPCAP/SHF/murmurhash3.c:109-134 | Leaving out the words without bytes is the same as mixing zeros |
| `Murmur.TailWords` | MERGE_LATEST/ANALYSEPCAP/SHF/murmurhash3.c:111-134 | The fall-through switch builds the little-endian words of the last bytes, for every tail length |
| `Murmur.PackedOneToOne` | MERGE_LATEST/ANALYSEPCAP/SHF/murmurhash3.c:41-44 | Eight bytes are determined by their word |
| `Diameters.ExtractDword` | MERGE_LATEST/ANALYSEPCAP/Diameter.cpp:16-66 | For every buffer, word, start bit 0..15 and length, the result is the big-endian value of the bit slice modulo 2^32 |
| `Diameters.ExtractLong` | MERGE_LATEST/ANALYSEPCAP/Diameter.cpp:30-63 | The same for a field longer than its first word, by the loop over words |
| `Diameters.Walk` | MERGE_LATEST/ANALYSEPCAP/Diameter.cpp:113-163 | The walk goes from AVP start to AVP start, with twice the word offset and the octets left adding up to the message length, and ends; it visits the AVPs up to the end, up to one of refused length, or up to the first after which it has what it looks for, an AVP 416 and, for an answer, an AVP 268; it reports the data of the last AVPs visited with the two codes, and always that of a single AVP 416: the number that its four octets spell, or 0 if that is above 4 |
| `Diameters.StartsExactly` | MERGE_LATEST/ANALYSEPCAP/Diameter.cpp:113-163 | Each AVP starts where the one before it and its padding end; the last is followed by the end of the message or by a length of 0 or above 5014 |
| `Diameters.WalksAll` | MERGE_LATEST/ANALYSEPCAP/Diameter.cpp:113-163 | On every well-formed AVP sequence the walk may read all it needs and its AVPs tile the message |
| `Diameters.OneRequestType` | MERGE_LATEST/ANALYSEPCAP/Diameter.cpp:134-154 | If one AVP only has code 416, its value is reported, or 0 if it is above 4, whatever the uninitialised request member held |
| `Diameters.Diameter.constructor` | MERGE_LATEST/ANALYSEPCAP/Diameter.cpp:68-185 | Header fields are the numbers that their octets spell, by section 3 of RFC 6733; the message is valid exactly for the known applications and commands; the number of the single CC-Request-Type is reported; request is the R bit |
| `Diameters.SliceSplit` | MERGE_LATEST/ANALYSEPCAP/Diameter.cpp:36-63 | A field is its upper part shifted over its lower part |
| `Diameters.FieldInWord` | MERGE_LATEST/ANALYSEPCAP/Diameter.cpp:20-27 | Shift and mask of a word give the bit slice |
| `Diameters.Spelled` | MERGE_LATEST/ANALYSEPCAP/Diameter.cpp:16-66 | Fields of one, three and four octets are the numbers that the octets spell |
| `Diameters.OctetField` | MERGE_LATEST/ANALYSEPCAP/Diameter.cpp:16-66 | The same for any number of octets |
| `Diameters.HeadSpelled` | MERGE_LATEST/ANALYSEPCAP/Diameter.cpp:118-119 | AVP code and length in octets |
| `Diameters.DataSpelled` | MERGE_LATEST/ANALYSEPCAP/Diameter.cpp:134-142 | The data of an AVP of length 12 in octets |

## Left out

- Files, mmap, mremap, unlink, stat and statvfs: a tab file is a fresh zeroed object, growth copies it into a longer one.
- The hash function of the table is any function from keys to addresses; `Murmur` treats the hash by itself.
- Windows.Window.Put: tab sizes and positions are not limited to 32 bits, so it speaks of runs in which no append makes a tab grow to 4 GiB, the condition of `Tabs.Within32Bits`. A put that overflows ends the process in the source, so nothing is said about the window after it beyond its map.
- TabFiles.WriteRecord: the unused bit of the type byte, which the source leaves uninitialised, is modelled as 0.
- Concurrent get and put on one window: a get that copies may shrink a tab under the reader lock (shf.c:816, shf.c:875-880), so table operations are treated one at a time and lock and table are separate results.
- `tab_refs_used`, window statistics and debug fields: diagnostic, and counted twice on a copy.
- The spin lock, switched off by the preprocessor, and the timed race helpers of `shf.lock.h`.
- Memory ordering below the level of single atomic adds, byte stores and byte loads.
- Names of queues (`shf_q_new_name`, `shf_q_get_name`), attaching to an existing queue, and the contents of queue items: only links, records and ownership are modelled.
- When the log thread writes (its time and threshold policy), syslog and formatting; a log size of 0, for which the source takes a default larger than what it reserved.
- SharedLog.Log.TryAppend: the sum of prefix and line length is not reduced to 32 bits; lines and prefixes come from buffers of 4,096 and 128 bytes.
- SeqSpaces.Tcb.Rexmit: ranges that span more than two quadrants, which the source rules out in a comment.
- SeqSpaces.Tcb.AckIn: averages, deviations, minima and maxima of round-trip times, the statistics of `rtt_retrans`, plotting and dumping. The elapsed time is the difference of two times; the function that computes it is not part of this model.
- Freeing memory: `freequad` drops the quadrant, and freed segments are no longer referred to.
- Diameters.Walk: messages whose AVPs reach beyond the buffer, and decoded AVPs shorter than their own header, for which the source computes a negative field length.
- Result-Code recovery in the Diameter constructor depends on an uninitialised member; only what the walk visited is stated.
- Counters per interface, display, SIP, GTP, DPI glue and the main loops: their laws are easy.
