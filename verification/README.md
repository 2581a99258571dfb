# GDP library: verified models

The GDP (Global Data Plane) is a C library for reading and writing secure, append-only
logs over a network.  This project models its stateful core in Dafny and proves what
that core promises.  Each part is a module of its own.

| part | files | what is proved |
|---|---|---|
| GOB cache, lookups, releases and reclaim in every interleaving | `GobProtocol.dfy`, `GobSafety.dfy`, `GobRelease.dfy`, `GobProgress.dfy` | where forced frees are exclusive, no referenced GOB is torn down or freed; exactly when one is; one free per allocation, lookups return live GOBs, structure and order of the cache, exactly when hash and list agree, no lock kept, exactly when every thread comes to move |
| GOB cache, GIN handles, one call at a time | `GobCache.dfy` | reference counts equal open handles across opens, closes and reclaims; exactly what a reclaim pass removes; the retry loop |
| record-sequence check | `Recseq.dfy`, `RecseqReport.dfy`, `RecseqAsWritten.dfy`, `LogCheck.dfy` | the report tiles the span scanned and every count is exact; what the code as written does to it |
| transport framing | `Bytes.dfy`, `Framing.dfy`, `Chan.dfy` | every list of PDUs, cut into chunks in any way, arrives whole and in order; what a NAK or a header in error does |
| thread pool | `ThreadPool.dfy` | no lost wakeup, submission order, each job at most once, exactly when a thread is started |
| pending events | `Events.dfy` | wrapping comparison, tail newest, exactly what a release takes |
| resource pools | `RPool.dfy`, `RPoolRelease.dfy` | blocks are separate arrays through every run, exactly when growing one keeps them so; what a release gives back |
| hash table | `Assoc.dfy`, `Hash.dfy` | a finite map, with deleted keys left in the chains |
| base 64 | `Base64.dfy` | round trip and length for the three standard encodings and more |
| metadata | `Md.dfy` | round trip both ways, exactly when it holds; the list in memory |
| external text | `Xlate.dfy` | round trip, exactly when it holds; named escapes |

Protocols between threads (the GOB cache, the thread pool) are state machines: a `State`,
a `Step` for every stretch of code between two lock operations, `Enabled` and `Apply`,
and theorems over every run.  Code that works on one object is a class or a method with
loops, proved against functions, and the lemmas are about these functions.

## Where the code falls short of what it promises

Each of these is stated with an input that shows it and the condition under which the
promise is kept.  The condition is exact except where the entry says otherwise.

* A lookup that may create a GOB and meets a pending or dropping entry makes a second GOB
  of the same name, and the first stays listed where the hash cannot find it
  (`GobSafety.LostEntryRun`).  A step from a state where the hash and the usage list hold
  the same GOBs keeps them so if and only if it does not file a GOB under a name the hash
  has for another (`GobSafety.AgreeExact`); they hold the same GOBs in every state of a run
  if and only if no step of it does (`GobSafety.HashEqualsList`).  A creation does so only
  after its thread gave up on an entry (`GobSafety.OverwriteNeedsGivingUp`), so that runs in
  which no creating lookup gives up, and no GOB takes the name of another, are all right
  (`GobSafety.ConsiderateRunsAgree`).
* A failed open frees its GOB by force; this is harmless exactly when nobody else has
  looked the pending GOB up (`GobSafety.ForceFreeExact`, `GobSafety.StaleReferenceRun`),
  and the invariant holds in every state of a run if and only if each of its forced frees
  is of that kind (`GobSafety.InvariantExact`).
* Renaming takes the cache mutex.  A caller that has the GOB locked does so against the
  lock order, and a lookup with the cache mutex may be waiting for that GOB: two threads
  stop for good (`GobProgress.DeadlockRun`, `GobProgress.CycleForever`).  A busy thread moves, or waits for a thread that does, or for
  one that waits for one that does, if and only if it is not held up while there is such a
  pair (`GobProgress.ProgressExact`).  That the GOB is locked is what the model assumes of a
  caller: `_gdp_gob_cache_changename` does not check it, and nothing in the repository calls
  it.  To the code as it is called today `GobProgress.NoRenamingNoDeadlock` applies.
* The record check moves too few entries when it compacts (apps/gdp-log-check.c:547) and
  does not sort before its last flush (apps/gdp-log-check.c:597-598).  The functions take
  a flag `asWritten`.  With both repaired the report is right for every input
  (`RecseqReport.ReportExact`).  As written each place does harm
  (`RecseqAsWritten.CompactionMiscounts`, `RecseqAsWritten.AsWrittenMiscounts`), and none
  exactly as `RecseqAsWritten.CompressExact` and `RecseqAsWritten.FinalFlushExact` say;
  where neither does, the report is right (`RecseqAsWritten.AsWrittenExact`), and so it is
  when no number repeats (`RecseqAsWritten.DistinctHarmless`).  Where every compaction is
  right, the report is right if and only if the final ends are sorted
  (`RecseqAsWritten.FlushDecides`); with a wrong compaction this is not decided, since the
  two errors can cancel out (`RecseqAsWritten.ErrorsCancel`).
* When the payload of a PDU cannot be written its header is already on its way
  (`Chan.Send`).
* A PDU header that claims length zero keeps the read callback going for ever
  (`Chan.SpinsExactly`).
* A pool initialised with no threads allowed never runs its work (`ThreadPool.WakeupsExact`).
* The backward scan for the place of an event (gdp/gdp_event.c:389-393) stops at once, so
  an event out of order always lands just before the tail (`Events.InsertSortsExactly`,
  `Events.ExpectedArrivalExact`).
* Releasing a block of a resource pool writes eight bytes into it, but blocks may be four
  bytes long (`RPool.ScribbleExact`, `RPool.ShortBlockHurts`); growing the first block of a
  pool from four bytes so loses its contents (`RPool.FirstBlockLost`).  Growing a block
  keeps all contents, whatever they are, if and only if it happens in place or the eight
  bytes meet neither another block nor what was copied to the new one (`RPool.GrowExact`);
  for a block of four bytes with room behind it that is when it is the last of its segment
  even after the allocation (`RPool.SparedIfLast`).
* Releasing a pool takes separate memory that happens to follow its descriptor for part of
  the descriptor's own, and does not give it back (`RPoolRelease.PageKept`,
  `RPoolRelease.FreedExact`).
* A wrapping base 64 encoding asks for almost all of memory to encode nothing at all
  (`Base64.EmptyNeedsEverything`).
* An empty metadata list, and one of more than 65535 entries, is not read back
  (`Md.RoundTripExact`); headers are read past the end of short input (`Md.OverReadExact`).
* A forbidden character can come out as part of an escape (`Xlate.ForbiddenComesOut`);
  none does, of any string, if and only if no escape that is needed is written with one
  (`Xlate.ForbiddenExactly`).
* Unknown `&name;` escapes are documented to disappear; the code reads every one as `&`
  (`Xlate.UnknownNameStays`), so that it does as documented if and only if the name is
  `amp`, `gt` or `lt` (`Xlate.NamesExact`).

## Model

| member | source | states |
|---|---|---|
| `GobSafety.StepKeepsInv` | gdp/gdp_gob_cache.c:369-712 | every step of every thread (lookup, creation, renaming, reference, release, forced free, drop with its unlocked window, reclaim scan, clock) keeps the whole invariant (locks, lists, flags, counts, and what each thread knows where it stands) if and only if it is not a forced free of a GOB others refer to |
| `GobSafety.InvariantExact` | gdp/gdp_gob_cache.c:281-712 | the invariant holds in every state of a run if and only if every forced free of the run is of a GOB nobody else refers to |
| `GobProtocol.CorpseUnlocked` | gdp/gdp_gob_mgmt.c:157-219 | when a freed GOB's flags are cleared nobody holds its lock, no thread stands anywhere from where it would take it, and no reference leads to it, although the drop path gave the lock up midway |
| `GobProtocol.KeepsDropUnlock` | gdp/gdp_gob_cache.c:516-532 | giving up the GOB lock to take the cache lock first keeps the invariant, because of the DROPPING mark |
| `GobProtocol.KeepsDropUnlink` | gdp/gdp_gob_cache.c:534-545 | unlinking a dropping GOB, with whatever the hash holds under its name, keeps the invariant |
| `GobProtocol.KeepsClearFlags` | gdp/gdp_gob_mgmt.c:204-206 | clearing the corpse's flags keeps the invariant |
| `GobProtocol.KeepsPushFree` | gdp/gdp_gob_mgmt.c:208-217 | putting the corpse on the free list keeps the invariant |
| `GobProtocol.KeepsDecref` | gdp/gdp_gob_mgmt.c:461-497 | giving back a reference keeps the invariant, whether or not the GOB is torn down with it; when it is, `GobRelease.DecrefExact` says |
| `GobProtocol.KeepsForceFree` | gdp/gdp_api.c:541-546 | a forced free of a GOB with no other reference keeps the invariant |
| `GobProtocol.KeepsIncref` | gdp/gdp_gob_mgmt.c:428-442 | another reference to a GOB one holds keeps the invariant |
| `GobProtocol.KeepsChangeName` | gdp/gdp_gob_cache.c:369-378 | going for the cache mutex with the GOB locked keeps the invariant |
| `GobProtocol.KeepsRename` | gdp/gdp_gob_cache.c:378-384 | renaming a GOB in the hash keeps the invariant, whatever was filed under the new name |
| `GobProtocol.KeepsGetNew` | gdp/gdp_gob_mgmt.c:80-150 | taking a GOB from the free list or from fresh memory keeps the invariant |
| `GobProtocol.KeepsGetAdd` | gdp/gdp_gob_cache.c:281-338 | filing a new GOB in hash and list keeps the invariant |
| `GobProtocol.KeepsGetTake` | gdp/gdp_gob_cache.c:429-470 | a lookup that accepts an entry adds a reference to a listed, live GOB and moves it to the front in order |
| `GobProtocol.KeepsReclaimDrop` | gdp/gdp_gob_cache.c:655-700 | reclaiming an entry under both locks keeps the invariant, including the scan's place in the list |
| `GobSafety.RunKeepsInv` | gdp/gdp_gob_cache.c:281-712 | the invariant holds in every state of every run in which forced frees are exclusive |
| `GobSafety.ReferencedGobsLive` | gdp/gdp_gob_mgmt.c:428-497 | at every moment every outstanding reference points at a GOB in use, not dropping, not being torn down, not on the free list, and its count is the number of references |
| `GobSafety.FreedOncePerAllocation` | gdp/gdp_gob_mgmt.c:157-219 | frees never outnumber allocations; the GOB put on the free list is unreferenced, unlocked, in no list and was not there already |
| `GobSafety.LookupReturnsLiveGob` | gdp/gdp_gob_cache.c:407-475 | a lookup returns, locked by its thread, a cached GOB of the name asked for that is not being dropped |
| `GobSafety.CacheStructure` | gdp/gdp_gob_cache.c:143-161 | INCACHE marks exactly the usage list, which has no repeats and shares nothing with the free list; every hash entry is a listed GOB under its own name |
| `GobSafety.UsageOrder` | gdp/gdp_gob_cache.c:558-587 | the usage list is ordered by non-increasing time of use in every reachable state |
| `GobSafety.IdleHoldsNoLock` | gdp/gdp_gob_mgmt.c:302-334 | a thread back outside the library holds no lock |
| `GobSafety.OneDropper` | gdp/gdp_gob_cache.c:483-549 | no two threads ever tear down the same GOB |
| `GobSafety.CursorStaysListed` | gdp/gdp_gob_cache.c:640-705 | the entry a reclaim scan resumes from stays on the list while another is freed |
| `GobSafety.AbandonedEntries` | gdp/gdp_gob_cache.c:429-457 | a lookup gives up only on entries that are dropping, or pending when pending ones were not asked for |
| `GobSafety.SameGobsIs` | gdp/gdp_gob_cache.c:143-161 | the hash and the usage list hold the same GOBs if and only if every listed GOB is found under its name |
| `GobSafety.AgreeExact` | gdp/gdp_gob_cache.c:281-387 | from a state where every listed GOB is found under its name, every step keeps that so if and only if it does not file a GOB, new or renamed, under a name the hash has for another |
| `GobSafety.HashEqualsList` | gdp/gdp_gob_cache.c:281-549 | in every run with exclusive forced frees, the hash and the usage list hold the same GOBs in all states if and only if no step files a GOB under a name the hash has for another |
| `GobSafety.NameFreeExact` | gdp/gdp_gob_cache.c:417-457 | a thread about to create a GOB whose name is not in the hash stays so through every step of every thread, and a thread comes to create under a name in the hash if and only if it gives up on the entry it found there |
| `GobSafety.OverwriteNeedsGivingUp` | gdp/gdp_gob_cache.c:417-457 | every creation of a run that files its GOB under a name in use comes after its thread gave up on an entry |
| `GobSafety.ConsiderateRunsAgree` | gdp/gdp_gob_cache.c:281-549 | in a run in which no creating lookup gives up and no GOB takes the name of another, the hash and the usage list hold the same GOBs throughout |
| `GobSafety.ForceFreeExact` | gdp/gdp_api.c:541-546 | a forced free leaves every reference to a live GOB if and only if the forcing thread's reference was the only one |
| `GobSafety.LostEntryRun` | gdp/gdp_gob_cache.c:429-457 | a run in which a creating lookup meets a pending entry and a listed GOB gets lost to the hash |
| `GobSafety.StaleReferenceRun` | gdp/gdp_api.c:541-546 | a run in which a failed open frees a GOB another thread has a reference to |
| `GobRelease.DecrefExact` | gdp/gdp_gob_mgmt.c:461-497 | a release tears its GOB down, and keeps its lock, if and only if no other reference led to it and it is not DEFER_FREE; otherwise it stays where it is in hash and list, unlocked |
| `GobRelease.DropsExact` | gdp/gdp_gob_cache.c:483-700 | a step of any thread brings a GOB from not dropping to dropping if and only if it is such a release, a forced free of a pending GOB, or a reclaim of one last used by the scan's limit to which no reference leads |
| `GobRelease.KeptUntilReclaimed` | gdp/gdp_gob_mgmt.c:486-490 | in every run with exclusive forced frees a DEFER_FREE GOB comes to be dropped only by a forced free or a reclaim |
| `GobRelease.KeptAsMarked` | gdp/gdp_gob_mgmt.c:80-219 | DEFER_FREE changes only by what a client sets, and is gone from a cleared or newly allocated record |
| `GobRelease.MarkExact` | gdp/gdp_api.c:515-522 | a client's marks are the ones it asked for, and nothing else of the GOB changes |
| `GobRelease.ScanJudges` | gdp/gdp_gob_cache.c:660-700 | in every run a scan keeps the entry it has locked if and only if that was used after the limit, is dropping, or is referred to; a kept one stays as it was, unlocked, a dropped one is in neither list nor hash |
| `GobRelease.ScanTries` | gdp/gdp_gob_cache.c:655-661 | a scan passes over an entry if and only if its lock is taken |
| `GobRelease.ScanInOrder` | gdp/gdp_gob_cache.c:640-705 | through every scan of every run, the entries decided about and those still to be looked at are together the usage list as it was at the start, in its order: none is left out or looked at twice |
| `GobRelease.SearchExact` | gdp/gdp_gob_cache.c:417-422 | a search finds the listed GOB of that name exactly when one is filed; without one it creates exactly when it may |
| `GobRelease.LookupDecides` | gdp/gdp_gob_cache.c:429-450 | a lookup takes the entry it has locked if and only if that is not dropping, and not pending unless pending ones are wanted, and gives up on it otherwise |
| `GobRelease.GivesUpExact` | gdp/gdp_gob_cache.c:436-457 | giving up, it unlocks the entry, changes neither references nor list, and creates exactly when it may |
| `GobRelease.TakesOneReference` | gdp/gdp_gob_cache.c:446-450 | taking it, a lookup adds one reference, stamps it and moves it to the front; peeking, it does none of these |
| `GobRelease.NewExact` | gdp/gdp_gob_mgmt.c:80-150 | a new GOB is the head of the free list, or fresh when that is empty, and is pending, locked, not DEFER_FREE, with the one reference |
| `GobProgress.MovesUnlessWaiting` | gdp/gdp_gob_cache.c:407-712 | a thread inside the library can move if and only if no other thread has the mutex it needs next |
| `GobProgress.Chain` | gdp/gdp_gob_cache.c:516-532 | who waits for a GOB lock has the cache mutex, and whoever has that GOB lock waits for nothing, or for that cache mutex while renaming |
| `GobProgress.ProgressExact` | gdp/gdp_gob_cache.c:369-532 | a busy thread moves, or waits for one that does, or for one that waits for one that does, if and only if it does not wait while a lookup and a renaming hold each other up |
| `GobProgress.CycleForever` | gdp/gdp_gob_cache.c:369-387 | two threads that hold each other up stand where they are in every later state of the run |
| `GobProgress.NoRenamingNoDeadlock` | gdp/gdp_gob_cache.c:516-532 | in a run that renames nothing, as all are today, no threads ever hold each other up |
| `GobProgress.DeadlockRun` | gdp/gdp_gob_cache.c:369-425 | a run in which a renaming and a lookup hold each other up |
| `GobCache.LookupHits` | gdp/gdp_gob_cache.c:407-475 | outside an open call every hash entry is usable: in the cache and not pending |
| `GobCache.HitKeeps` | gdp/gdp_gob_cache.c:558-587 | a hit, with its reference and its move to the front, keeps counts, hash and order |
| `GobCache.CreateKeeps` | gdp/gdp_gob_cache.c:281-338 | a new GOB filed under a free name keeps counts, hash and order |
| `GobCache.RetireKeeps` | gdp/gdp_gob_cache.c:483-549 | retiring a GOB no handle points at keeps everything else in order |
| `GobCache.AttachKeeps` | gdp/gdp_api.c:264-296 | a new handle takes over the reference the lookup made |
| `GobCache.DetachKeeps` | gdp/gdp_api.c:298-323 | freeing a handle leaves exactly one reference over, to be given back |
| `GobCache.ReleaseKeeps` | gdp/gdp_gob_mgmt.c:461-497 | giving back a reference frees the GOB at zero unless DEFER_FREE, and counts equal handles again |
| `GobCache.CloseKeeps` | gdp/gdp_api.c:563-575 | closing keeps the store in order and gives back one reference |
| `GobCache.CloseExact` | gdp/gdp_gob_mgmt.c:461-497 | a closed GOB stays in list and hash if and only if it is DEFER_FREE or another handle points at it |
| `GobCache.OpenedIs` | gdp/gdp_api.c:502-530 | what an open makes of list, hash, flags and stamp, found or created |
| `GobCache.SurvivorsAre` | gdp/gdp_gob_cache.c:640-705 | of any stretch of the usage list, an entry survives a pass if and only if its lock is taken, it was used after the limit, it is dropping, or a handle points at it |
| `GobCache.ReclaimExact` | gdp/gdp_gob_cache.c:640-705 | a pass over any stretch of the usage list leaves exactly the survivors of it, in their order, between what was before and after |
| `GobCache.PassReaches` | gdp/gdp_gob_cache.c:640-705 | when a pass has come to an entry, the list is what survives of the part before it, then that entry and all behind it as they were |
| `GobCache.ReclaimKeeps` | gdp/gdp_gob_cache.c:640-705 | a pass never frees a GOB a handle points at, and keeps the store in order |
| `GobCache.PassesCompose` | gdp/gdp_gob_cache.c:634-711 | a pass with an earlier limit followed by one with a later limit is the later one alone |
| `GobCache.FullPass` | gdp/gdp_gob_cache.c:640-705 | after a full pass the list is the survivors, whose records and all handles are unchanged |
| `GobCache.PassOnce` | gdp/gdp_gob_cache.c:640-705 | a first full pass leaves what is defined as pruned by its limit |
| `GobCache.PassAgain` | gdp/gdp_gob_cache.c:634-711 | what a pass with a later limit leaves of what an earlier one left is what the later one alone leaves |
| `GobCache.Library.CacheGet` | gdp/gdp_gob_cache.c:407-475 | the GOB of that name, found or made, comes back locked and referenced, with only its lock and the open mutex held |
| `GobCache.Library.CacheDrop` | gdp/gdp_gob_cache.c:483-549 | the GOB is out of hash and list, and the locks are as the caller expects with and without cleanup |
| `GobCache.Library.GobFree` | gdp/gdp_gob_mgmt.c:157-219 | the GOB ends up unlocked, out of the cache and on the free list |
| `GobCache.Library.Decref` | gdp/gdp_gob_mgmt.c:461-497 | the store after giving back a reference, in order, with the GOB's lock released |
| `GobCache.Library.Abandon` | gdp/gdp_api.c:541-546 | a new GOB whose open failed is retired and its lock released |
| `GobCache.Library.TakeOver` | gdp/gdp_api.c:264-296 | a handle, recycled or new, points at the GOB and the counts are right again |
| `GobCache.Library.VisitOne` | gdp/gdp_gob_cache.c:655-700 | one entry of the scan is left alone if and only if its lock is taken, it was used after the limit, it is dropping or referred to, and is retired otherwise; only the cache mutex is held |
| `GobCache.Library.GinOpen` | gdp/gdp_api.c:462-556 | each outcome and exactly when it comes about; counts equal handles afterwards, a failed open leaves no trace; an opened GOB is filed under its name, first in the list, stamped, not pending, and DEFER_FREE if and only if that was asked for now or before; no lock is kept |
| `GobCache.Library.GinClose` | gdp/gdp_api.c:563-575 | a handle in use is gone and its reference given back: the GOB stays listed and filed if and only if it is DEFER_FREE or has another handle, and is in neither otherwise; a bad handle changes nothing, no lock is kept |
| `GobCache.Library.ReclaimPass` | gdp/gdp_gob_cache.c:640-705 | one pass, with the early end after too many GOBs: of the entries it came to exactly those are still listed whose lock is taken, which were used after the limit, are dropping, or have a handle; the rest keep their order |
| `GobCache.Library.Reclaim` | gdp/gdp_gob_cache.c:604-712 | for caches of any size, with a clock that does not run back, the passes end with the first that brings enough or when no age is left, the age a quarter shorter each time; no lock is kept, counts, hash and order hold and the handles are as before; unless a pass gives up early exactly those entries are listed whose lock is taken, which were used after the last limit, are dropping, or have a handle |
| `Recseq.WriteDb` | apps/gdp-log-check.c:275-297 | the database stays sorted by start, then end, and gains one block |
| `Recseq.ScanCounts` | apps/gdp-log-check.c:331-356 | during pass 1 each number is in the blocks and the open block as often as it was scanned |
| `Recseq.BlocksCount` | apps/gdp-log-check.c:321-356 | after pass 1 the sorted blocks contain each number as often as it was scanned |
| `RecseqReport.AdvanceReports` | apps/gdp-log-check.c:520-572 | moving the window reports everything before it and keeps what is open |
| `RecseqReport.TakeBlockKeeps` | apps/gdp-log-check.c:488-590 | one block taken in: the report so far is right and the open ends are all that is still owed |
| `RecseqReport.TakeAllKeeps` | apps/gdp-log-check.c:478-599 | the same after any number of blocks |
| `RecseqReport.ProcessReports` | apps/gdp-log-check.c:478-599 | pass 2 over any sorted blocks tiles their span with exact counts |
| `RecseqReport.ReportsTile` | apps/gdp-log-check.c:390-404 | a report is exact if and only if its non-empty ranges tile the span and each counts right |
| `RecseqReport.ReportExact` | apps/gdp-log-check.c:360-387 | for every non-empty sequence of positive numbers, in any order and with any repeats, the non-empty ranges tile the span from lowest to highest and each count is the number of times each of its numbers was scanned |
| `RecseqAsWritten.OneOpen` | apps/gdp-log-check.c:478-599 | without repeats there is never more than one open block |
| `RecseqAsWritten.CompressExact` | apps/gdp-log-check.c:534-549 | the compaction as written keeps the surviving ends if and only if no more survive than were flushed, or all are equal |
| `RecseqAsWritten.FinalFlushExact` | apps/gdp-log-check.c:593-598 | from a right state the last flush as written reports exactly if and only if the open ends are sorted |
| `RecseqAsWritten.SweepExact` | apps/gdp-log-check.c:478-599 | over any sorted blocks, where every compaction is right, pass 2 as written reports exactly if and only if the final ends are sorted |
| `RecseqAsWritten.FlushDecides` | apps/gdp-log-check.c:321-599 | for every non-empty sequence of positive numbers for which every compaction is right, the report of the code as written is right if and only if the final ends are sorted |
| `RecseqAsWritten.SameReport` | apps/gdp-log-check.c:478-599 | if every compaction of the sweep meets the condition of `CompressExact` and the final ends are sorted, the code as written reports what the repaired one does |
| `RecseqAsWritten.AsWrittenExact` | apps/gdp-log-check.c:360-387 | under these two conditions the report of the code as written is right for every non-empty sequence of positive numbers |
| `RecseqAsWritten.DistinctHarmless` | apps/gdp-log-check.c:478-599 | a scan in which no number repeats meets both conditions |
| `RecseqAsWritten.CompactionMiscounts` | apps/gdp-log-check.c:534-549 | for any 2 < m <= e < f < h, scanning 1, then 1 to e, 1 to f and m to h leaves the final ends sorted, yet the numbers after e up to f, scanned twice, are counted once; with 3, 5, 7 and 9 these are 6 and 7 |
| `RecseqAsWritten.ErrorsCancel` | apps/gdp-log-check.c:534-598 | for any 2 < m <= e < f, scanning 1, then 1 to e, 1 to f twice and m to e makes a wrong compaction and unsorted final ends, and yet the report is right |
| `RecseqAsWritten.AsWrittenMiscounts` | apps/gdp-log-check.c:593-598 | scanning 1, 2, 3, 2 makes the code as written count 3 twice |
| `LogCheck.RecordCheck.AddRecord` | apps/gdp-log-check.c:330-348 | extends the open block or writes it and starts another |
| `LogCheck.RecordCheck.LastRecord` | apps/gdp-log-check.c:351-355 | the database stays sorted, and covers each number of the open block once more and every other number as often as before |
| `LogCheck.RecordCheck.FlushAt` | apps/gdp-log-check.c:441-475 | reports one range, moves the start, and skips the entries with the same end |
| `LogCheck.RecordCheck.FlushDeadEnds` | apps/gdp-log-check.c:524-527 | the loop over the ends before the window is the function the report is proved about, with the number of ends it passed |
| `LogCheck.RecordCheck.FlushActiveEnds` | apps/gdp-log-check.c:560-562 | the same for the loop over the ends still open |
| `LogCheck.RecordCheck.CloseAt` | apps/gdp-log-check.c:560-572 | the second flush and the gap, together, are that function |
| `LogCheck.RecordCheck.MoveWindow` | apps/gdp-log-check.c:520-572 | flush, compaction, second flush and gap are the function the report is proved about |
| `LogCheck.RecordCheck.TakeIn` | apps/gdp-log-check.c:488-590 | one iteration of pass 2 is that function |
| `LogCheck.RecordCheck.FlushRest` | apps/gdp-log-check.c:593-598 | the last flush is that function |
| `LogCheck.RecordCheck.Sweeps` | apps/gdp-log-check.c:478-599 | pass 2 is that function |
| `LogCheck.CheckRecords` | apps/gdp-log-check.c:321-599 | both passes over any non-empty positive input, with the two places repaired, report ranges that tile the span with exact counts |
| `Bytes.HighByteFirst` | gdp/gdp_priv.h:996-1060 | fields of one, two and four bytes are written with the high byte first |
| `Bytes.GetPut` | gdp/gdp_priv.h:996-1060 | a number that fits its field is read back |
| `Bytes.PutGet` | gdp/gdp_priv.h:996-1060 | bytes read as a number are written back the same |
| `Framing.ReadsStream` | gdp/gdp_chan.c:337-400 | any prefix of a stream delivers its complete frames and keeps a proper prefix of the next |
| `Framing.ChunksDoNotMatter` | gdp/gdp_chan.c:337-400 | for every way of cutting the bytes, run after run, the same |
| `Framing.WholeStream` | gdp/gdp_chan.c:337-400 | chunks that make up the whole stream deliver every frame and leave nothing |
| `Chan.WireLayout` | gdp/gdp_chan.h:71-155 | all fields of a PDU, of whatever type, are at their offsets on the wire, options and payload included |
| `Chan.SeqFieldBits` | gdp/gdp_chan.h:137-146 | the bit for more fragments, the sequence number and the fragment offset are where the format has them in the second word |
| `Chan.FirstOctetsOf` | gdp/gdp_chan.h:80-135 | the first four octets: version 4, header length in words, type with flags and address format, time to live |
| `Chan.ReadHeader` | gdp/gdp_chan.c:164-320 | what a header announces, or has thrown away, is in the buffer; which outcome comes about is stated by `ReadsWhole`, `WaitsForRest`, `FaultDrained`, `FaultCut`, `FaultWaits`, `WrongVersion` and `ShortHeader` |
| `Chan.ReadsWhole` | gdp/gdp_chan.c:164-320 | a complete PDU at the front of the buffer is read back field for field, whatever follows |
| `Chan.WaitsForRest` | gdp/gdp_chan.c:164-320 | an incomplete PDU is left untouched |
| `Chan.DrainsOne` | gdp/gdp_chan.c:337-400 | the callback delivers a complete PDU first and then does what it does with the rest |
| `Chan.FaultDrained` | gdp/gdp_chan.c:230-310 | a complete PDU that is not regular, whatever follows: a NAK of the router is reported as such, any other type and any other address format as corrupt, and exactly that PDU is thrown away |
| `Chan.FaultCut` | gdp/gdp_chan.c:230-310 | one whose header is there but not all of its payload is reported in the same way and takes what there is with it |
| `Chan.FaultWaits` | gdp/gdp_chan.c:219-221 | one whose header is not all there is left alone |
| `Chan.WrongVersion` | gdp/gdp_chan.c:191-201 | a header of another version takes the whole buffer with it and is reported once |
| `Chan.ShortHeader` | gdp/gdp_chan.c:202-213 | a header that claims less than the minimum, but not nought, is corrupt, and as much as it claims is thrown away |
| `Chan.MixedStream` | gdp/gdp_chan.c:337-400 | of any list of PDUs that have arrived, regular or not, the regular ones are delivered and the others reported, each in order, and nothing stays |
| `Chan.StreamDelivered` | gdp/gdp_chan.c:337-400 | for every list of legal PDUs and every cutting, exactly the complete ones arrive, in order, with source, destination, sequence number and payload, and a proper prefix of the next stays buffered |
| `Chan.WholeStreamDelivered` | gdp/gdp_chan.c:337-400 | the same when the chunks make up the whole stream: all arrive, nothing stays |
| `Chan.SpinsExactly` | gdp/gdp_chan.c:337-400 | on a buffer that holds a header the callback makes no progress if and only if the version is right and the length field is zero |
| `Chan.StuckForGood` | gdp/gdp_chan.c:337-400 | behind such a header nothing is ever delivered again, whatever arrives |
| `Chan.Channel.Handle` | gdp/gdp_chan.c:337-400 | one header: a PDU is delivered, or a header in error thrown away with what it announces and reported, as the lemmas about the header say; and whether anything was drained |
| `Chan.Send` | gdp/gdp_chan.c:864-972 | each error exactly when it comes about: channel closed, payload too long, a write failed; otherwise, for any type-of-service bits, a header with every field in its place and then the payload are written, after a failed write nothing or the header alone, and for the bits of a regular PDU the whole is the wire form of a legal one |
| `Chan.Channel.ReadCallback` | gdp/gdp_chan.c:337-400 | the loop does to the buffer, and delivers, what the function proved about says |
| `Chan.Channel.Receive` | gdp/gdp_chan.c:337-400 | the same for newly arrived bytes behind those buffered |
| `Chan.ReceiveAll` | gdp/gdp_chan.c:337-400 | a channel fed chunk by chunk |
| `ThreadPool.StepKeepsInv` | ep/ep_thr_pool.c:119-260 | every step, with spurious and coalesced wakeups, keeps the counts and the wakeup invariant |
| `ThreadPool.NoLostWakeup` | ep/ep_thr_pool.c:119-151 | while a thread sleeps unsignalled, as many threads are on their way to the queue as jobs are in it; with a job queued somebody is awake |
| `ThreadPool.ThreadCounts` | ep/ep_thr_pool.c:161-179 | in every run free_threads is the number of threads between its increment and its decrement, num_threads is the number of threads, and that stays within the larger of the bounds |
| `ThreadPool.StartsExactly` | ep/ep_thr_pool.c:254-258 | with a job queued, a thread is started if and only if none is free and fewer than the maximum exist, and one is woken otherwise |
| `ThreadPool.StartsWhenNoneFree` | ep/ep_thr_pool.c:240-260 | at every wakeup of every run a thread is free or the maximum is reached; at every start, also one that fails, none is free and the maximum is not reached, and one that succeeds adds a thread |
| `ThreadPool.TakenInOrder` | ep/ep_thr_pool.c:240-260 | jobs are dequeued in the order of submission |
| `ThreadPool.RunsHeldJob` | ep/ep_thr_pool.c:119-151 | a job about to run is held by the thread that runs it and has not run |
| `ThreadPool.RanStays` | ep/ep_thr_pool.c:119-151 | a job that has run stays so for the rest of the run |
| `ThreadPool.RunsAtMostOnce` | ep/ep_thr_pool.c:119-151 | two executions in a run are of different jobs |
| `ThreadPool.RecordsInOnePlace` | ep/ep_thr_pool.c:63-83 | every work record is in exactly one of free list, queue, and one thread's hands |
| `ThreadPool.NoThreadsRun` | ep/ep_thr_pool.c:198-230 | a run of a pool of no threads whose job nobody will take |
| `ThreadPool.WakeupsExact` | ep/ep_thr_pool.c:198-260 | no run gets stuck if and only if at least one thread is allowed |
| `Events.ModuloGtExact` | gdp/gdp_event.c:310-319 | for numbers less than 2^14 apart the comparison of 15-bit residues is the true comparison |
| `Events.ModuloGtResidue` | gdp/gdp_event.c:310-319 | for any numbers, exactly what the comparison says of their distance modulo 2^15 |
| `Events.InsertNearTail` | gdp/gdp_event.c:366-394 | an event that does not go to the tail always lands just before it |
| `Events.InsertKeeps` | gdp/gdp_event.c:321-397 | an insertion neither loses nor duplicates an event |
| `Events.InsertLast` | gdp/gdp_event.c:339-386 | after an insertion the event is last if and only if it is a DONE event, the list was empty, or it counts as newer than the tail |
| `Events.TailAlwaysNewest` | gdp/gdp_event.c:366-394 | over every run of arrivals and head removals in the window the tail is the newest event |
| `Events.InsertSortsExactly` | gdp/gdp_event.c:366-394 | a sorted list stays sorted if and only if the event is newer than the last but one and not the tail's twin |
| `Events.InsertUnsorted` | gdp/gdp_event.c:389-393 | 2 arriving at 3, 4, 5 lands between 4 and 5 |
| `Events.ReleaseExact` | gdp/gdp_event.c:511-555 | a release takes events from the head as long as each has the number after the one before it, or the expected one if first, or has matured, and stops at the first that has neither; with flush it takes all |
| `Events.RunReleased` | gdp/gdp_event.c:511-555 | the whole consecutive run from the expected number, across the wrap, goes out |
| `Events.SentAre` | gdp/gdp_event.c:473-495 | a released event goes to the callbacks if and only if it has one, and else to the active list |
| `Events.SentKeeps` | gdp/gdp_event.c:461-496 | what goes to the callbacks and to the active list together is what was released |
| `Events.ExpectedArrivalExact` | gdp/gdp_event.c:366-394 | the event everyone waits for releases something on arrival if and only if at most one event is pending |
| `Events.Request.Trigger` | gdp/gdp_event.c:461-496 | one event goes to the callbacks if it has one and else to the active list, and the number after its own is expected next |
| `Events.Request.TriggerPending` | gdp/gdp_event.c:511-555 | afterwards the first event left is not the expected one, has not matured, and was not to be flushed; each event gone had the number after the one before it, or had matured, or was flushed; they went out in order, and the timer is set for what is left and only then |
| `Events.Request.FindPlace` | gdp/gdp_event.c:389-393 | the backward scan, as written |
| `Events.Request.InsertPending` | gdp/gdp_event.c:321-397 | the list after an arrival, a DONE event last, and its release: the first event left is neither expected nor matured |
| `RPool.AllocKeeps` | ep/ep_rpool.c:303-455 | the new block is aligned, at least as long as asked for, in the used part of one segment, and shares no byte with any block; every used byte belongs to a block |
| `RPool.AllocOnPage` | ep/ep_rpool.c:361-395 | a request for whole pages is met on a page boundary if the heap does so |
| `RPool.ReusesExactly` | ep/ep_rpool.c:330-362 | a request is met from the first segment if and only if there is room for it, and for whole pages only on a page boundary; then just that many bytes are taken there |
| `RPool.NewSegIs` | ep/ep_rpool.c:361-438 | otherwise one segment is added: of the usual size or that of the request, behind its descriptor, or for whole pages separate and of just that size |
| `RPool.RoomiestFirst` | ep/ep_rpool.c:413-438 | a new segment goes first unless the old first one has more room left |
| `RPool.GrowKeeps` | ep/ep_rpool.c:509-524 | growing in place keeps all blocks apart, inside, and the used bytes covered |
| `RPool.InPlaceExactly` | ep/ep_rpool.c:500-524 | a block grows in place if and only if it is the last of the first segment but not its first, with some room left and enough for the difference |
| `RPool.GrowExact` | ep/ep_rpool.c:466-548 | growing a block keeps its bytes, and place and contents of every other block, for every memory and all junk, if and only if it happens in place, or the eight bytes written from the start of the block left behind meet neither another block nor what was copied to the new one |
| `RPool.SparedIfLast` | ep/ep_rpool.c:610-629 | for a block of four bytes with four more in its segment, that is so if and only if the block is the last of the segment after the allocation |
| `RPool.StepInv` | ep/ep_rpool.c:303-548 | every allocation, write and growth the heap allows keeps blocks aligned, inside their segments and apart, and every used byte in a block |
| `RPool.StepRefines` | ep/ep_rpool.c:303-548 | every allocation and write, and every growth that `GrowExact` allows, treats the blocks as separate arrays: the ones not named keep place and contents, a grown one keeps its bytes |
| `RPool.RunKeeps` | ep/ep_rpool.c:303-548 | through every run the invariant holds; through every run whose growths are of the kind `GrowExact` allows, a block no operation names keeps its place and contents |
| `RPool.ScribbleExact` | ep/ep_rpool.c:610-629 | releasing a block writes only into it and into free space of its segment if and only if it has eight bytes, or is last with room behind it |
| `RPool.ShortBlockHurts` | ep/ep_rpool.c:610-629 | releasing a shorter block that is not the last of its segment overwrites the first byte of another |
| `RPool.FirstBlockLost` | ep/ep_rpool.c:509-546 | growing the first block of a pool from four bytes leaves junk for contents, whatever they were |
| `RPoolRelease.RunOwned` | ep/ep_rpool.c:303-548 | over every run what the pool owns grows by exactly the addresses the heap gave to the operations of the run, and no address comes to be owned twice |
| `RPoolRelease.FreedExact` | ep/ep_rpool.c:221-229 | after every run of a new pool, no address is given back twice and none that the heap did not give, and all that it gave to the operations of the run are given back if and only if no separate memory happens to follow its descriptor |
| `RPoolRelease.PageKept` | ep/ep_rpool.c:221-229 | a page the heap gives right behind its descriptor is not given back |
| `RPool.RPool.constructor` | ep/ep_rpool.c:160-187 | segments are at least as large as asked for, by less than a page, and fill whole pages with their descriptor |
| `RPool.RPool.Alloc` | ep/ep_rpool.c:303-455 | the pool afterwards is the one the lemmas are about, and the invariant holds |
| `RPool.RPool.Realloc` | ep/ep_rpool.c:466-548 | the same for growing, in place or by moving, with the junk written |
| `RPool.RPool.Mfree` | ep/ep_rpool.c:610-629 | every block that does not meet the eight bytes overwritten keeps its contents; nothing is reclaimed |
| `RPool.RPool.Attach` | ep/ep_rpool.c:646-671 | the function attached last comes first |
| `RPool.RPool.Free` | ep/ep_rpool.c:200-234 | each attached function is called once, the last attached first, before any memory goes; then the segments' memory and the pool's own record are given back to the heap; a nested call does nothing |
| `Assoc.SetFind` | ep/ep_hash.c:133-219 | what is stored under a key is found, no other key notices, no key comes twice, the order stays |
| `Hash.XorBits` | ep/ep_hash.c:69-84 | the exclusive or is one bit by bit |
| `Hash.ShortKeys` | ep/ep_hash.c:69-84 | in a table large enough a byte hashes to itself, and a second one is mixed with twice the first |
| `Hash.MixedFits` | ep/ep_hash.c:69-84 | up to 2^30 chains the default hash never leaves the non-negative ints |
| `Hash.DefaultHash` | ep/ep_hash.c:69-84 | the loop computes the index, which is inside the table |
| `Hash.InsertIs` | ep/ep_hash.c:181-219 | inserting changes the value of that key and no other, and keeps each key in one node of its own chain |
| `Hash.DeleteIs` | ep/ep_hash.c:222-255 | deleting makes that key absent, changes no other, and the node can be used again |
| `Hash.VisitsExactly` | ep/ep_hash.c:262-292 | no key is visited twice, and the visited nodes hold exactly the map |
| `Hash.Table.constructor` | ep/ep_hash.c:88-121 | a new table maps no key |
| `Hash.Table.FindNode` | ep/ep_hash.c:133-156 | the place of the key's node, or the end of its chain |
| `Hash.Table.Search` | ep/ep_hash.c:159-178 | the value of the key |
| `Hash.Table.Insert` | ep/ep_hash.c:181-219 | the map with that key set; the old value is returned |
| `Hash.Table.Delete` | ep/ep_hash.c:222-255 | the map without that key; the old value is returned |
| `Hash.Table.ForAll` | ep/ep_hash.c:262-292 | the nodes, chain by chain |
| `Base64.BreaksEvery` | ep/ep_b64.c:130-137 | lines are broken exactly after every 64 or 76 characters that are followed by more |
| `Base64.InsideGroup` | ep/ep_b64.c:130-160 | never inside a group of four |
| `Base64.TextLength` | ep/ep_b64.c:67-81 | the text is exactly as long as ep_b64_enc_len says, with wraps and padding |
| `Base64.EmptyNeedsEverything` | ep/ep_b64.c:67-81 | for no bytes a wrapping encoding asks for more than 2^56 characters |
| `Base64.DecodeSkips` | ep/ep_b64.c:218-282 | ignored characters anywhere change nothing |
| `Base64.PartsAreChars` | ep/ep_b64.c:109-189 | the characters carried from byte to byte are the six-bit groups of section 4 of RFC 4648 |
| `Base64.RoundTrip` | ep/ep_b64.c:109-282 | for every encoding whose two extra characters have no other meaning, decoding the text gives the bytes back |
| `Base64.StandardEncodings` | ep/ep_b64.c:45-56 | the MIME, PEM and URL encodings are such, with their line lengths and options |
| `Base64.Alphabet` | ep/ep_b64.c:38-39 | the values up to 61 stand for the upper-case letters, the lower-case letters and the digits, in that order |
| `Base64.LastCharacters` | ep/ep_b64.c:93-104 | the characters for 62 and 63 in the three encodings, and the pad character |
| `Base64.PadsToFour` | ep/ep_b64.c:163-183 | where padding is asked for, and only there, at most two pad characters fill the text up to a multiple of four |
| `Base64.DecodesNothing` | ep/ep_b64.c:232-246 | which characters are illegal and which are passed over, for every proper encoding |
| `Base64.RefusedExactly` | ep/ep_b64.c:250-259 | text is refused if and only if an illegal character comes before any null byte and while there is room, three bytes being written for every four characters accepted before it |
| `Base64.StandardRoundTrip` | ep/ep_b64.c:67-282 | for these, non-empty input is recovered and the length is the one announced |
| `Base64.EncodeBody` | ep/ep_b64.c:109-189 | the loop with its carried bits, line position and padding writes the text |
| `Base64.EncodeByte` | ep/ep_b64.c:138-160 | the characters for one byte, given the bits carried from the one before |
| `Base64.EncodeEnd` | ep/ep_b64.c:163-183 | the last character and the padding |
| `Base64.Encode` | ep/ep_b64.c:109-189 | refused exactly when the buffer is too small, otherwise the text |
| `Base64.DecodeText` | ep/ep_b64.c:218-282 | the decoding loop, with its limit; it refuses the text exactly when `RefusedExactly` says |
| `Md.Layout` | gdp/gdp_md.c:298-339 | a count of two bytes, then for each entry its identifier and length in four bytes each, then all data |
| `Md.DataAt` | gdp/gdp_md.c:325-335 | the data of an entry stand behind those of the entries before it |
| `Md.RoundTripExact` | gdp/gdp_md.c:298-427 | reading back what was serialized gives the list if and only if it has 1 to 65535 entries, and no list otherwise |
| `Md.Canonical` | gdp/gdp_md.c:355-427 | whatever is accepted is the serialized form of what was read |
| `Md.TakeHeadersIs` | gdp/gdp_md.c:383-395 | taking one header after the other comes to the end if and only if the input holds them all, and then has read all of them and stands behind them |
| `Md.ReadHeaders` | gdp/gdp_md.c:377-395 | the header loop takes the headers, adds up their lengths, and is past the end exactly when a header is not wholly there |
| `Md.OverReadExact` | gdp/gdp_md.c:355-395 | the header loop reads past the end if and only if the count asks for more headers than are there, beyond input too short for one |
| `Md.NameDetermines` | gdp/gdp_md.c:429-443 | but for collisions of the hash, equal names mean equal lists |
| `Md.Metadata.constructor` | gdp/gdp_md.c:56-72 | an empty list with room |
| `Md.Metadata.Add` | gdp/gdp_md.c:126-188 | a read-only list is unchanged, the end mark is ignored, otherwise that identifier has the new data, all others theirs, each once, within the allocation |
| `Md.Metadata.Find` | gdp/gdp_md.c:258-291 | the datum of the identifier, or none |
| `Md.Metadata.Write` | gdp/gdp_md.c:298-339 | the serialized form |
| `Md.Parse` | gdp/gdp_md.c:355-427 | the outcome of reading, including the read past the end |
| `Md.Cut` | gdp/gdp_md.c:407-416 | the data are cut by the lengths in the headers |
| `Xlate.RoundTripExact` | ep/ep_xlate.c:89-308 | every string survives going out and coming in, as far as the buffer goes, if and only if the escape is understood and no passed-through character can be taken for an escape or for the end |
| `Xlate.ReadBack` | ep/ep_xlate.c:89-308 | under that condition the text is read back character by character |
| `Xlate.Unsafe` | ep/ep_xlate.c:89-308 | without it, a string of at most three characters that does not survive |
| `Xlate.OneStyleSafe` | ep/ep_xlate.c:252-308 | with exactly one of the percent, backslash, equal and plus styles and the null byte as stop, the condition holds, whatever is forbidden |
| `Xlate.NameRead` | ep/ep_xlate.c:180-216 | every name of up to 31 characters between `&` and `;`, known or not, is read as one character |
| `Xlate.NameComesIn` | ep/ep_xlate.c:180-216 | one character comes out for the whole escape, and what follows is read as if alone |
| `Xlate.NamesExact` | ep/ep_xlate.c:180-216 | what comes out is what is documented, nothing for an unknown name, if and only if the name is amp, gt or lt |
| `Xlate.UnknownNameStays` | ep/ep_xlate.c:180-216 | `&nbsp;` comes in as an ampersand |
| `Xlate.FitsExactly` | ep/ep_xlate.c:102-106 | the output and its null byte fit the buffer, for every text, if and only if the buffer is not empty |
| `Xlate.PassedExactly` | ep/ep_xlate.c:280-290 | a character is passed through if and only if it is not null, the escape character or forbidden, nor 8-bit or unprintable where those are to be escaped |
| `Xlate.EscapeIs` | ep/ep_xlate.c:262-296 | which escape character is used, the x after a backslash, and the value in two upper-case hexadecimal digits |
| `Xlate.NothingRaw` | ep/ep_xlate.c:277-305 | no null byte comes out, and where asked no 8-bit and no unprintable character |
| `Xlate.ForbiddenExactly` | ep/ep_xlate.c:277-305 | no forbidden character comes out of any string if and only if no escape that is needed is written with one |
| `Xlate.ForbiddenComesOut` | ep/ep_xlate.c:277-305 | with the digit nought forbidden, the null byte comes out with two of them |
| `Xlate.BackslashIs` | ep/ep_xlate.c:113-178 | what each character after a backslash is read as: the control characters, the quoted ones, two hexadecimal digits after an x, and a backslash alone before any other |
| `Xlate.OctalIs` | ep/ep_xlate.c:155-170 | up to three octal digits, as a number modulo 256 |
| `Xlate.HexDigits` | ep/ep_xlate.c:67-69 | hexadecimal digits of either case have their value |
| `Xlate.HexRead` | ep/ep_xlate.c:103-112 | the three styles with two hexadecimal digits, exactly where asked for; otherwise the character stands for itself |
| `Xlate.NoName` | ep/ep_xlate.c:180-200 | without a semicolon in time an ampersand stands for itself |
| `Xlate.XlateOut` | ep/ep_xlate.c:252-308 | the text, and a count that is its length; no null byte, and where asked no 8-bit or unprintable character, is in it |
| `Xlate.XlateIn` | ep/ep_xlate.c:89-225 | the decoding loop with all its styles, stop character and limit |

## Left out

- GobProtocol: `_gdp_gob_cache_add` called on its own, cache shutdown, and `_gdp_gob_cache_foreach`; `rebuild_lru_list` and `sorted_insert`, which the invariant shows are never needed; the consistency check itself.
- GobSafety.RunKeepsInv: for runs whose forced frees are exclusive; `GobSafety.ForceFreeExact` shows that this is what is needed.
- GobCache.Library.Reclaim: which entries are left when a pass gives up with a failed assertion is stated for a single pass only.
- GobCache: requests, subscriptions and the server side; the open request is a parameter that is accepted or refused; GIN names and metadata.
- Recseq: the comparator that narrows a 64-bit difference to an int (apps/gdp-log-check.c:207-224), modelled as a comparison; Berkeley DB, modelled as the sorted sequence of its entries; printing; directory scanning and index checks.
- Chan: sockets, reconnection, Zeroconf, router negotiation; the receive callback consumes the payload and succeeds; PDUs that are not regular are not in the theorem about every cutting (`Chan.MixedStream` has them when all has arrived), since they discard input that may not have arrived (`Chan.FaultCut`).
- ThreadPool: `ep_thr_pool_init` beyond its parameters; a thread that cannot be created is a step, but the theorems are for runs where creation succeeds.
- Events: requests that persist after a DONE event, `_gdp_event_free_all`, waiting for an event, and the callback thread itself.
- RPool.StepRefines: growth is to a size not smaller than before; `RPool.RPool.Realloc` covers a smaller one without a promise about contents.
- RecseqAsWritten.AsWrittenExact: one way only where a compaction is wrong; `RecseqAsWritten.ErrorsCancel` shows reports that are right although both places erred.
- RPool: sizes near the largest size_t, what attached functions do to the pool, the pool mutex, heap exhaustion; strings saved in pools.
- Hash: the mutex, and tables of more than 2^30 chains with the default hash.
- Base64.TextLength: for fewer than 2^60 bytes, where the 64-bit length arithmetic does not wrap.
- Md: entries with a reserved slot and no data are kept in the list but not serialized by the theorems; no list at all; printing and dumping; SHA-256 is any function.
- Xlate: locales other than C for printable characters; writing to a stream, modelled as the sequence of characters written.
- Cryptography, the REST gateway, the daemons and command-line programs, logging, parameter files, time parsing: input and output, foreign calls or thin wrappers.
