# A verified model of the bounded piece cache

The torrent seeder stores each torrent as a set of files and downloads it piece by piece. Each torrent has
a byte budget. When complete pieces outgrow it, the least recently used ones are evicted: marked incomplete,
their files withdrawn from the table of published files, their bytes punched out, and their tracker entry
removed. Other parts of the server serve a file straight from disk as soon as it appears in that table. So
the parts must agree: the piece-to-file geometry, the completion state, the recency tracker and the order of
the eviction steps.

This project models that cache and proves what it promises.

## How it is organised

| file | contents |
|---|---|
| `Collections.dfy` | optional values, lists as sets, duplicate-free lists, sizes of sets |
| `Geometry.dfy` | files laid end to end, pieces, and the two ways of relating them: byte overlap and division |
| `Regions.dfy` | the loops that compute which stretches of which files a range covers |
| `HolePunch.dfy` | the chunked zeroing loop over arrays, reading a range, and what both mean for the concatenation of all files |
| `LruSpec.dfy`, `VictimSelection.dfy`, `Recency.dfy` | the tracker as a value: operations, victim selection, the list against the history |
| `Completion.dfy` | the class `Completions`: bit vector, count, flag and memo |
| `PieceLru.dfy` | the class `PieceLRU`: map, recency list and byte counter |
| `PieceCompletion.dfy` | the class `PieceCompletion`: the two tables behind the completion state, restarts, one scan round |
| `CacheModel.dfy` | the whole cache of one torrent as a value, and what each operation does to it, with and without failing table accesses |
| `Storage.dfy` | the class `MmapTorrentStorage` and `OpenTorrent`, shown to do exactly what `CacheModel` says |
| `Effects.dfy` | what each atomic operation does, in bits, bytes, rows and the recency list, with and without failures |
| `Runs.dfy`, `Survival.dfy` | whole runs of atomic operations: disk bound, data integrity, what an eviction costs, and whom it spares |
| `UseOrder.dfy` | the recency list against the run that led to it: the piece used later outlives the one used earlier |
| `Interleaving.dfy` | the same operations split into the steps other threads can get between; the byte budget over all interleavings |
| `Publication.dfy` | files are withdrawn before their bytes are destroyed; when a scan publishes a stale file |
| `Integrity.dfy` | exactly when complete pieces and published files keep the content |
| `Tracking.dfy` | exactly when every complete piece stays known to the tracker; the disk bound over all interleavings |
| `Scans.dfy` | exactly when publishing from a scan's snapshot does harm, and when a completed file is never published |
| `InterleavedRuns.dfy` | where interleaved runs start, and atomic operations as interleaved runs |
| `Crashes.dfy` | what survives when the process dies at any step; integrity over a history of such sessions |
| `LosingRuns.dfy` | runs from a freshly opened torrent in which a promise is broken |
| `StatStream.dfy` | the status stream that sends only changed pieces |
| `DirComplete.dfy` | deciding that a directory is complete by counting rows |
| `Distribute.dfy` | choosing a data directory from a hash |

Code that updates state in place is a class or a method over arrays. Its contract gives the new state as a
function of the old one (or states it outright), and the lemmas about that function carry the properties.

## What it takes for granted

- Offsets and sizes are mathematical integers. The layout is that of BEP 3, section "info dictionary": as
  many pieces as the content needs, all of the piece length except a possibly shorter last one.
- Joined file paths are distinct, and so are the files on disk. Files have exactly their metainfo length.
- The tables are a map and a set. Each call that reaches a table takes as a parameter whether, or how far, the
  access succeeds; a query on a closed database counts as failing. Whole runs (`Runs.dfy`) are about a
  database that works, and `CacheModel.EvictAllWorks` connects the two.
- The iteration order of maps and tables is arbitrary, clock readings are parameters, and `madvise` has no
  effect on contents. Hole punching is the portable loop; the Linux system call is taken to have the same
  effect on bytes, and neither fails.
- Reading the span is reading the concatenation of the files, within the section of a piece as `io.SectionReader`
  does it.
- The client's writes are `CacheModel.Write`. A piece is marked complete once its bytes have been verified
  (`Runs.Verified`); hash verification itself is not part of this model.
- In the interleaved model each step under a lock is one step, and the set of protected pieces used in
  choosing victims is arbitrary. A punch proceeds from the start of the piece to its end in steps of any size.
  A scan round is either one step, or a snapshot followed by its insertions, one at a time, and the end of the
  round; after a round that ends with every piece complete, or a failing insertion, there are no more. A
  thread adds to the tracker the piece it has just marked complete. A session starts when the tracker has been
  rebuilt: the opening eviction and the first scan round are steps of its run. These steps allow every order
  the program can produce, and some it cannot. In `Runs.dfy`, where operations are atomic, `Scan` may happen at
  any time.
- A crash is the death of the process at any step: what it wrote to tables and mapped files stays.

## Where code and intention differ

- `MarkNotComplete` withdraws no file. `Runs.MarkNotCompleteRows` says exactly when the rows stay sound, and
  `Runs.MarkNotCompleteLeavesRow` is an input on which they do not.
- Marking a piece complete again while its eviction is under way can lose data: the scan publishes the file
  again and the eviction then destroys the bytes. `LosingRuns.RemarkedPieceIsLost` is such a run from a
  freshly opened torrent. `Integrity.StepExactly` says exactly when marking does harm: when the piece is not
  verified or an eviction of it has yet to punch bytes that are not zero. `Integrity.MarkingExactly` puts this as
  a condition on evictions alone.
- A scan takes its snapshot before it publishes. If an eviction withdraws a file in between, the insertion puts it
  back, and the file stays published with its bytes destroyed: `LosingRuns.StaleInsertionIsLost` is such a run, in
  which every piece is verified and marked complete only once. `Scans.InsertionExactly` says exactly when
  publishing from a snapshot does harm: when a piece with bytes of the file that are not zero was withdrawn since
  the snapshot. `Scans.RewrittenInsertionExactly` extends this to files written to meanwhile.
- Marking a piece complete during its eviction can also leave it complete but unknown to the tracker, and the
  complete pieces over budget in a quiet state: `LosingRuns.PieceEscapes` is such a run, and
  `Tracking.EscapesExactly` says exactly when a piece can escape.
- A comment in the source promises that the row of a file is re-added after eviction and download. The loop of scan
  rounds ends for good after a round that ends with every piece complete, so a file withdrawn later is not
  published again in that session (`LosingRuns.RefetchedFileIsForgotten`); and if the last piece completes between
  the snapshot of a round and its end, the file it completes is not published at all
  (`LosingRuns.LastFileIsForgotten`). `Scans.NeverPublishedExactly` says exactly when a completed file is never
  published.
- When a table access fails, an eviction leaves rows behind or stops half-way. `Runs.EvictWithRows` says exactly
  when the rows stay sound, and `LosingRuns.FailedEvictionLeavesRow` is an input on which they do not.
- A memory update is not undone when its table write fails. `PieceCompletion.AgreementAfterSet` says exactly
  when the two still agree.
- The LIKE pattern of the directory test treats `%` and `_` in directory names as wildcards and ignores case.
  `DirComplete.DirCountDecides` gives the exact condition under which the count is right, and
  `DirComplete.UnderscoreMisleads` an input on which it is wrong.
- When no directory is found, `DistributeByHash` wraps a nil error and so returns an empty name without an
  error. `Distribute.FallsOffWhen` says exactly when.
- A client of the status stream would keep stale pieces if the piece count shrank. Within one stream it cannot: the
  count is fixed by the torrent or the file asked about. So the diffs the program sends always restore the pieces
  (`StatStream.DiffRoundTrip` is the equivalence, for any two vectors).
- In a single-file torrent no file is ever memoised, so its pieces are never protected from eviction
  (`Completion.MemoSound`).

## Model

| member | source | states |
|---|---|---|
| Geometry.PieceShape | server/services/mmap.go:319-322 | a piece is nonempty, no longer than the piece length, stays inside the content, and abuts the next one |
| Geometry.PieceOfByte | server/services/mmap.go:317-339 | each byte lies in exactly one piece, the one division by the piece length names |
| Geometry.AffectsExactly | server/services/mmap.go:421-430 | the division-based range relates a file and a piece exactly when they share bytes, or the file ends where the piece starts, or the file is empty and starts within the piece |
| Geometry.SharedBytesAffect | server/services/mmap.go:413-431 | a file that loses a byte to an eviction is always among the affected files |
| Geometry.JoinAppend | server/services/mmap.go:423 | joining a path puts one slash between any two neighbours |
| Regions.PieceFileRegions | server/services/mmap.go:319-339 | the loop computes the regions the tiling lemmas are about |
| Regions.PieceRegionsTile | server/services/mmap.go:317-339 | a piece's regions stay inside their files, come in file order and concatenate to precisely its interval |
| Regions.CoveredExactlyOnce | server/services/mmap.go:317-339 | every byte of every file is in exactly one region of exactly one piece |
| Regions.MadviseSpanRange | server/services/mmap.go:291-308 | the loop with its early exit visits the mapped regions of the range |
| Regions.AdvisedWithBytes | server/services/mmap.go:291-308 | these are exactly the nonempty regions that hole punching would visit |
| HolePunch.PunchHole | server/services/hole_punch_other.go:10-24 | the chunked loop zeroes the stretch and nothing else |
| HolePunch.ZeroInFile | server/services/mmap.go:369-375 | zeroing inside one file is zeroing the corresponding stretch of the concatenation |
| HolePunch.PunchRegions | server/services/mmap.go:367-390 | region by region over separate files, the effect on the concatenation is one flat zeroing of the range |
| VictimSelection.QueueInOrder | server/services/piece_lru.go:149-176 | no protected piece is queued before an unprotected one, and within each group older pieces come first |
| VictimSelection.VictimsAreShortest | server/services/piece_lru.go:149-188 | the victims are the shortest prefix of the queue whose removal reaches the budget; each is tracked and named once |
| VictimSelection.UnprotectedGoFirst | server/services/piece_lru.go:149-188 | a protected piece is a victim only when every unprotected tracked piece is one |
| VictimSelection.OlderGoFirst | server/services/piece_lru.go:149-188 | of two pieces of equal standing the less recently used one goes first |
| VictimSelection.TwoPassesMakeVictims | server/services/piece_lru.go:167-185 | the two passes together select exactly the victims |
| VictimSelection.RemovedAllUsed | server/services/piece_lru.go:95-103 | removing a list of tracked pieces lowers the counter by their sizes and keeps the tracker well formed |
| VictimSelection.EvictionIsTight | server/services/piece_lru.go:158-188 | a nonempty victim list leaves usage in (budget - piece length, budget] |
| VictimSelection.AddHasAtMostTwoVictims | server/services/piece_lru.go:64-86 | an `Add` made within budget has at most two victims when at most one piece is short |
| PieceLru.PieceLRU.Touch | server/services/piece_lru.go:52-62 | the piece moves to the front with the new time, the others keep their order, sizes and times; unknown pieces are ignored |
| PieceLru.PieceLRU.Add | server/services/piece_lru.go:64-86 | the piece goes to the front with the new time, counted if it is new, the others as they were; a new piece returns the victims, a tracked one none |
| PieceLru.PieceLRU.Remove | server/services/piece_lru.go:88-103 | the piece leaves map and list and its size leaves the counter, the others keep their order |
| PieceLru.PieceLRU.Recover | server/services/piece_lru.go:126-147 | the given pieces, unless tracked already, go behind all others in some order of the map, with a time 90 seconds back |
| PieceLru.PieceLRU.ComputeEvictions | server/services/piece_lru.go:149-188 | the two loops return exactly the specified victims; a piece some memoised file depends on is among them only if every tracked piece no memoised file depends on is |
| Recency.ListFollowsHistory | server/services/piece_lru.go:52-147 | after any history, whatever the clock, the list holds each tracked piece once, strictly ordered by last access, never-accessed recovered pieces last in recovery order |
| Recency.StampsFollowHistory | server/services/piece_lru.go:52-86 | a stamp is the clock reading of the last access, or the recovery time |
| Recency.StampsNeverIncrease | server/services/piece_lru.go:52-147 | under a monotone clock stamps never increase along the list |
| Completion.Completions.Complete | server/services/piece_completion.go:24-33 | sets the bit; count, flag and memo stay consistent with the vector |
| Completion.Completions.Uncomplete | server/services/piece_completion.go:35-68 | clears the bit, forgets exactly the memoised files that depend on the piece and no others, returns those that were memoised |
| Completion.Completions.IsPieceInCompletedFile | server/services/piece_completion.go:70-95 | true exactly when some file that depends on the piece is memoised |
| Completion.Completions.GetCompletedFiles | server/services/piece_completion.go:97-140 | with both shortcuts, returns exactly the files all of whose pieces are complete, and memoises them in a multi-file torrent |
| Completion.FreshScanInOrder | server/services/piece_completion.go:115-139 | the files are listed in file order |
| Completion.CompleteKeepsMemo | server/services/piece_completion.go:24-33 | completing a piece keeps every memoised file complete |
| Completion.UncompleteKeepsMemo | server/services/piece_completion.go:35-68 | losing a piece makes exactly its files incomplete; the memo forgets those and no others, and stays sound |
| Completion.CountTrueFull | server/services/piece_completion.go:30-32 | the count reaches the length exactly when every bit is set |
| PieceCompletion.PieceCompletion.constructor | server/services/piece_completion.go:153-200 | opening restores the vector from the table, with an empty memo |
| PieceCompletion.ReadRows | server/services/piece_completion.go:169-183 | reading the rows in any order gives the vector the table describes and counts its true bits |
| PieceCompletion.PieceCompletion.Get | server/services/piece_completion.go:221-233 | reports what the table says and whether there is a row, or an error exactly when the query fails |
| PieceCompletion.PieceCompletion.Set | server/services/piece_completion.go:235-253 | updates memory, then the table, with the failing and the closed case |
| PieceCompletion.AgreementAfterSet | server/services/piece_completion.go:235-253 | memory and table agree afterwards exactly when the write succeeded or nothing changed |
| PieceCompletion.RunThenRestart | server/services/piece_completion.go:153-253 | after any run of successful calls memory agrees with the table, a restart restores the vector, and one scan recovers at least the files memoised before |
| PieceCompletion.PieceCompletion.UncompleteFiles | server/services/piece_completion.go:255-270 | deletes exactly the named rows; when a delete fails, exactly those before it; when closed, none |
| PieceCompletion.PieceCompletion.CompleteFile | server/services/piece_completion.go:272-284 | adds the row, unless the insert fails or the database is closed |
| PieceCompletion.PieceCompletion.ScanOnce | server/services/piece_completion.go:201-217 | one round publishes exactly the completed files, or those before the first failing insert; the loop ends exactly on a failure, when closed, or when everything is complete |
| Storage.MmapTorrentStorage.UncompleteAffectedFiles | server/services/mmap.go:413-443 | withdraws exactly the files the piece affects, or those before the first failing delete |
| Storage.MmapTorrentStorage.ForgetPiece | server/services/mmap.go:358-365 | steps 1 and 2 of an eviction on vector, memo and tables, with the early return when the piece cannot be marked incomplete |
| Storage.MmapTorrentStorage.PunchPiece | server/services/mmap.go:367-390 | step 3: called when the piece is incomplete and, unless a delete failed, its files are withdrawn; its interval becomes zero in the concatenation, every other byte is unchanged |
| Storage.MmapTorrentStorage.EvictPiece | server/services/mmap.go:352-411 | the whole eviction: the piece incomplete, its files withdrawn, its bytes zero, its entry gone; a failed write leaves table, rows, bytes and tracker alone, a failed delete only rows; closed, nothing happens |
| Storage.MmapTorrentStorage.EvictEach | server/services/mmap.go:277-279 | a victim list is carried out in order, each eviction as far as the database lets it |
| Storage.MmapTorrentStorage.EvictOverBudget | server/services/mmap.go:341-350 | evicts exactly the chosen victims |
| Storage.MmapTorrentStorage.SweepTick | server/services/mmap.go:179-182 | a tick evicts only when over a positive budget |
| Storage.MmapTorrentStorage.MarkComplete | server/services/mmap.go:261-282 | marks, tracks and evicts as the cache model says; an error, and no tracking, when the write fails or the database is closed |
| Storage.MmapTorrentStorage.MarkNotComplete | server/services/mmap.go:284-286 | clears memory and table, memory only when the write fails, nothing when closed; leaves rows and tracker alone |
| Storage.MmapTorrentStorage.ReadAt | server/services/mmap.go:227-239 | a tracked piece moves to the front with the time of the read, the others keep their order, sizes and times; returns the bytes of the piece from the offset on, cut off at its end, which is reported |
| Storage.RecoverLRU | server/services/mmap.go:117-137 | the tracker is rebuilt from exactly the complete pieces of the table whose query succeeds |
| Storage.OpenTorrent | server/services/mmap.go:50-96 | opening in any map order, with or without an early scan round, with failing inserts, queries and evictions, gives the reopened state of the cache model |
| CacheModel.ReopenWorks | server/services/mmap.go:50-96 | over a database that works this is the plain reopening the runs are about |
| CacheModel.EvictAllWorks | server/services/mmap.go:358-361 | with a database that works the evictions with failures are the plain ones |
| CacheModel.MarkCompleteWorks | server/services/mmap.go:261-282 | with a database that works so is marking complete |
| Effects.EvictAllExactly | server/services/mmap.go:347-411 | after a list of evictions exactly its pieces are incomplete, zero, untracked and their files unpublished and forgotten; all else is as it was |
| Effects.ReadExactly | server/services/mmap.go:227-231 | a read moves the piece to the front and changes nothing else |
| Effects.WriteExactly | server/services/mmap.go:241-243 | a write stores the data and changes nothing else |
| Effects.MarkCompleteExactly | server/services/mmap.go:261-282 | the bit is set in memory and table and the piece goes to the front; a tracked piece, or one within budget, evicts nothing, another one brings the tracker within budget |
| Effects.MarkNotCompleteExactly | server/services/mmap.go:284-286 | the bit is cleared in memory and table and the files that depend on the piece are forgotten; rows, bytes and tracker stay |
| Effects.ScanExactly | server/services/piece_completion.go:201-217 | a scan publishes, and in a multi-file torrent memoises, exactly the files all of whose pieces are complete |
| Effects.SweepExactly | server/services/mmap.go:179-182 | a sweep within budget changes nothing, another one evicts tracked pieces until within budget |
| Effects.ReloadedExactly | server/services/piece_completion.go:165-217 | a fresh process takes the bits from the table and publishes what its first scan round finds |
| Effects.ReopenExactly | server/services/mmap.go:61-96 | a tracker exists exactly when the torrent exceeds a positive budget; it holds exactly the complete pieces, 90 seconds old, and is brought within budget |
| Effects.FittingTorrentIsLeftAlone | server/services/mmap.go:61-63 | over whole runs, a torrent that fits has no tracker, no row of it is withdrawn, and only writing changes its bytes |
| Effects.EvictAllWithExactly | server/services/mmap.go:358-411 | whatever fails, every piece of a list is tried: those whose write fails are forgotten in memory only, the others incomplete, zero and untracked |
| Effects.WithdrawnExactly | server/services/mmap.go:413-443 | the rows an eviction deletes: all of the piece's files, none after a failed write, the first ones in file order before a failed delete |
| Effects.SweepWithExactly | server/services/mmap.go:341-350 | a sweep over a database that fails tries every victim |
| Effects.MarkCompleteWithExactly | server/services/mmap.go:273-279 | so does marking complete |
| Effects.FailedMarkCompleteExactly | server/services/mmap.go:261-265 | a failed write sets the bit in memory only; on a closed database nothing happens |
| Effects.OpeningExactly | server/services/mmap.go:117-137 | a first scan round that fails publishes the first files in file order, and pieces whose query fails are not tracked |
| Effects.ReopenWithExactly | server/services/mmap.go:61-96 | opening with failures is reloading, and for a torrent that exceeds a positive budget rebuilding the tracker and one sweep |
| Runs.StepConsistent | server/services/mmap.go:261-286 | every operation keeps memory, table, memo and tracker consistent and the tracker within budget |
| Runs.ReopenConsistent | server/services/mmap.go:61-96 | opening establishes this over any tables |
| Runs.DiskBound | server/services/mmap.go:61-63 | complete pieces total at most the budget, also when eviction is disabled because the torrent fits |
| Runs.RunDiskBound | server/services/mmap.go:61-96 | the disk bound holds in every state of every run after opening |
| Runs.StepKeepsPiece | server/services/mmap.go:352-390 | no operation disturbs a piece that is complete before and after it |
| Runs.StillHoldsItsBytes | server/services/mmap.go:261-282 | a piece that stayed complete since it was marked still holds the bytes it held then |
| Runs.StepRowsSound | server/services/mmap.go:352-365 | an operation keeps each published file complete exactly when it is not a `MarkNotComplete` of a piece of a published file |
| Runs.MarkNotCompleteRows | server/services/mmap.go:284-286 | `MarkNotComplete` keeps rows sound exactly when no published file depends on the piece |
| Runs.MarkNotCompleteLeavesRow | server/services/mmap.go:284-286 | a state and a piece for which it does not |
| Runs.EvictWithRows | server/services/mmap.go:358-365 | an eviction with failing table accesses keeps rows sound exactly when no file of the piece stays published |
| Runs.RunIntegrity | server/services/mmap.go:261-282 | in every state of every run of a new torrent in which no piece of a published file is marked incomplete by hand, complete pieces and published files hold exactly the content |
| Survival.CompletedFilesSurvive | server/services/piece_lru.go:149-188 | if the tracked pieces no memoised file depends on have enough bytes, carrying out all victims changes neither the memo nor a byte of a memoised file |
| Survival.SparedExactly | server/services/piece_lru.go:149-188 | no memoised file depends on a victim exactly when those pieces have enough bytes |
| Survival.CompletedFilesGoLast | server/services/piece_lru.go:149-188 | a piece of a memoised file is a victim only when every tracked piece of no memoised file is one |
| Survival.LessRecentlyUsedGoFirst | server/services/piece_lru.go:149-188 | memoised files apart, a piece is a victim only together with all less recently used ones |
| Survival.OnlyUnprotectedVictims | server/services/piece_lru.go:149-188 | no protected piece is a victim exactly when giving up all unprotected pieces would reach the budget |
| Survival.SweepIsTight | server/services/mmap.go:341-350 | a sweep stops within one piece length of the budget |
| Survival.CompletingEvictsAtMostTwo | server/services/mmap.go:273-279 | completing a piece within budget evicts at most two pieces |
| UseOrder.UsedLaterIsNearer | server/services/mmap.go:227-230 | in every state of every run, of two tracked pieces the one read or completed later is nearer the front of the list |
| UseOrder.StampIsLastUse | server/services/piece_lru.go:52-86 | a tracked piece bears the time of its last reading or completion |
| UseOrder.UsedLaterOutlives | server/services/piece_lru.go:149-188 | memoised files apart, a piece used later is a victim only together with those used earlier |
| Interleaving.StepKeepsBudget | server/services/mmap.go:343-411 | every step of every thread keeps settled bytes within budget |
| Interleaving.ChooseEstablishes | server/services/mmap.go:343-346 | choosing victims under the lock establishes this from any state, such as a recovered one |
| Interleaving.UsedLessOutstanding | server/services/piece_lru.go:95-103 | used bytes less those of tracked pieces still to be evicted are within budget |
| Interleaving.QuietMeansWithinBudget | server/services/mmap.go:179-182 | with no list outstanding and no eviction given up, usage is within budget |
| Publication.StepKeepsPublished | server/services/mmap.go:354-390 | a step of any thread keeps every published file complete, but for pieces cleared by an eviction that has yet to withdraw it, exactly when its guard holds; only `MarkNotComplete`, a failing eviction and publishing from a snapshot have one |
| Publication.PunchedFilesAreWithdrawn | server/services/mmap.go:364-373 | no file is published when its bytes are punched, unless the piece was marked complete again meanwhile |
| Publication.RunKeepsPublished | server/services/mmap.go:354-390 | unpublish before destroy in every state of every interleaving whose guarded steps meet their guards |
| Publication.StaleExactlyWhenLost | server/services/piece_completion.go:201-217 | a file in a scan's snapshot is no longer complete exactly when one of its pieces was cleared since and not marked complete after that |
| Publication.FreshMayBePublished | server/services/piece_completion.go:201-217 | publishing a file that is still complete always meets the guard |
| Publication.UndisturbedScan | server/services/piece_completion.go:201-217 | a scan round without interference, a snapshot and then one insertion per file, publishes exactly the completed files |
| Integrity.StepKeepsSafe | server/services/mmap.go:354-405 | a step of any thread keeps complete pieces and published files intact and out of reach of evictions under way exactly when its guard holds; only marking complete, writing and publishing from a snapshot have one, the last that the file is itself intact and out of reach at that moment (`Scans.InsertionExactly` says when that is) |
| Integrity.SafeExactlyWhenStaysGood | server/services/mmap.go:354-405 | this invariant holds exactly in the states from which the cache, left to itself, never damages a complete piece or a published file |
| Integrity.StepExactly | server/services/mmap.go:261-282 | the same guards are exact for doing no harm in any continuation of the cache on its own |
| Integrity.MarkingExactly | server/services/mmap.go:261-282 | marking a verified piece complete does no harm exactly when no eviction of it is between its clearing and the end of its punch, if its last byte is not zero |
| Integrity.MarkingBeforePunchExactly | server/services/mmap.go:261-282 | the same for any content that is not all zero, while no punch of the piece has made progress |
| Scans.FileSafeExactly | server/services/piece_completion.go:201-217 | a file complete at one moment and not written since holds its content at a later one, out of reach of punches, exactly when no piece with bytes of it that are not zero was withdrawn in between |
| Scans.RewrittenFileSafeExactly | server/services/piece_completion.go:201-217 | if its content was written to it meanwhile, exactly when no such byte was last touched by a punch or is ahead of one |
| Scans.InsertionExactly | server/services/piece_completion.go:201-217 | publishing a file from a snapshot does harm, now or later, exactly when such a piece was withdrawn since the snapshot |
| Scans.RewrittenInsertionExactly | server/services/piece_completion.go:201-217 | the same for a file written to since |
| Scans.RunKeepsIntact | server/services/mmap.go:354-405 | in every state of every interleaving whose guarded steps meet their guards, complete pieces and published files hold exactly the content; the guard of publishing is that the file was complete at some moment, and since then neither overwritten nor withdrawn for a destruction that matters |
| Scans.NeverPublishedExactly | server/services/piece_completion.go:201-217 | a completed file of a torrent with any content is never published in a session exactly when it is not published now, and some round has ended with every piece complete or some insert has failed |
| Tracking.StepKeepsTracked | server/services/mmap.go:261-282 | a step of any thread keeps every complete piece tracked, or about to be, and not being evicted, exactly when it does not mark a piece complete during its eviction |
| Tracking.TrackSafeExactlyWhenStaysTracked | server/services/mmap.go:392-396 | this invariant holds exactly in the states from which no complete piece can escape the tracker while none is marked complete |
| Tracking.EscapesExactly | server/services/mmap.go:261-282 | marking a piece complete lets a complete piece escape, in some continuation, exactly when an eviction of it is under way |
| Tracking.RestingWithinBudget | server/services/mmap.go:343-350 | the bytes of complete pieces nobody is concerned with are within budget, those of all complete pieces in a quiet state |
| Tracking.RunKeepsTracked | server/services/mmap.go:343-411 | the disk bound in every state of every interleaving in which no piece is marked complete during its eviction |
| InterleavedRuns.ResumedIsGood | server/services/mmap.go:77-93 | before the opening eviction, over any tables, the tracker knows every complete piece, and the counter is within budget or about to be brought there; with sound rows and pieces all other interleaved invariants hold |
| InterleavedRuns.RunReachesBudget | server/services/mmap.go:83-89 | the budget invariant holds from the first choice of victims on, whatever state the run started in |
| InterleavedRuns.RunKeepsBudget | server/services/piece_lru.go:67-86 | budget safety of the tracker's counter in every state of every interleaving |
| InterleavedRuns.WritingIsSafeUnlessCleared | server/services/mmap.go:241-243 | writing to an incomplete piece meets its guard, whatever the data, unless an eviction has cleared the piece and not yet withdrawn its files |
| InterleavedRuns.UndisturbedEviction | server/services/mmap.go:354-411 | the four steps of an eviction without interference are the atomic eviction |
| InterleavedRuns.UndisturbedList | server/services/mmap.go:347-349 | a thread left alone carries out its victim list, four steps for each piece, as the atomic evictions in turn |
| InterleavedRuns.UndisturbedMarkComplete | server/services/mmap.go:261-282 | an atomic `MarkComplete` is its two steps followed by those of its evictions |
| InterleavedRuns.UndisturbedSweep | server/services/mmap.go:341-350 | an atomic sweep is a choice of victims followed by the steps of their evictions |
| InterleavedRuns.UndisturbedStep | server/services/mmap.go:227-286 | reading, writing, marking incomplete and a scan round are single steps |
| InterleavedRuns.FailedEvictionGivesUp | server/services/mmap.go:357-361 | an eviction whose table write fails is the step that gives up |
| InterleavedRuns.UndisturbedOpening | server/services/mmap.go:77-93 | so is opening, with its eviction and with or without an early scan round |
| Crashes.CrashLosesNothing | server/services/mmap.go:354-411 | after the process died at any step the next session starts with every complete piece and published file intact and every complete piece tracked |
| Crashes.TornStep | server/services/piece_completion.go:235-253 | dying between the memory update and the table write leaves what the state before would have left |
| Crashes.RowsSurviveExactly | server/services/mmap.go:358-365 | the rows of the next session are sound exactly when no eviction had cleared a piece and not yet withdrawn its files |
| Crashes.RunKeepsKnownRows | server/services/piece_completion.go:201-217 | published rows are about files of the torrent in every state of every run that starts so |
| Crashes.SessionsKeepIntact | server/services/mmap.go:354-411 | in every state of every session of a history of crashes, complete pieces and published files hold the content |
| LosingRuns.RemarkedPieceIsLost | server/services/mmap.go:354-405 | a run from a freshly opened torrent, with verified completions only, in which a piece marked complete during its eviction leaves a published file damaged |
| LosingRuns.StaleInsertionIsLost | server/services/piece_completion.go:201-217 | a run in which an insertion from a snapshot taken before an eviction leaves a published file damaged |
| LosingRuns.PieceEscapes | server/services/mmap.go:261-282 | a run after which nothing is going on, a complete piece is untracked, and the complete pieces exceed the budget |
| LosingRuns.LastFileIsForgotten | server/services/piece_completion.go:201-217 | a run after which the whole torrent is complete and its file is never published |
| LosingRuns.RefetchedFileIsForgotten | server/services/piece_completion.go:201-217 | a run after which a file withdrawn and fetched again is never published again |
| LosingRuns.FailedEvictionLeavesRow | server/services/mmap.go:358-365 | a consistent state in which a failing table access leaves the row of an evicted piece's file |
| StatStream.Diff | server/services/stat.go:156-168 | a piece is in the diff exactly when it is new or differs from the old one at its place |
| StatStream.DiffRoundTrip | server/services/stat.go:156-168 | applying a diff by position restores the new vector exactly when the piece count has not shrunk |
| StatStream.SendLoop | server/services/stat.go:187-230 | relays the reports up to the one that ends it, which is an error, one whose message cannot be sent, or one sent that says everything is complete; and the client holds the pieces of the last report sent |
| StatStream.RelayedMeans | server/services/stat.go:196-222 | a message is sent for a report exactly when it is the first or has other byte or peer counts than the last message, and none relayed says everything is complete |
| StatStream.LatestCountsAreKnown | server/services/stat.go:196-222 | so the last message always has the counts of the latest report |
| StatStream.ClientHoldsLastSent | server/services/stat.go:187-230 | after every message the client holds exactly the pieces of the last report sent |
| DirComplete.IsDirComplete | server/services/file_cache_map.go:82-133 | true only of a table that can be queried and a positive number expected, and then exactly when at least that many rows exist, or match the directory's pattern; an error exactly when the database is out of reach, cannot be opened or fails the query; at the root that means that every path of the torrent has a row, for a directory whose pattern matches nothing outside it that it has files and all have rows |
| DirComplete.TotalFiles | server/services/torrent_file_count_map.go:53-63 | the number of the torrent's paths, never zero; zero when unknown, an error when the lookup fails |
| DirComplete.DirFileCount | server/services/torrent_file_count_map.go:65-79 | the number of files, and of distinct paths, under the directory; an error when the lookup fails |
| DirComplete.UnderExactly | server/services/torrent_file_count_map.go:72-77 | these are the files whose path is the directory's name, a slash, and anything |
| DirComplete.RootCountDecides | server/services/file_cache_map.go:102-109 | the root test holds exactly when every file has a row |
| DirComplete.AllFilesMeanAllPieces | server/services/file_cache_map.go:102-109 | with sound rows that means every piece is complete |
| DirComplete.LikeIsPrefix | server/services/file_cache_map.go:110-119 | without wildcards the pattern matches exactly the prefix up to case |
| DirComplete.LikeMatches | server/services/file_cache_map.go:110-119 | an underscore in a name matches any one character |
| DirComplete.LowerExactly | server/services/file_cache_map.go:110-119 | only ASCII letters differ by case |
| DirComplete.PrefixMatches | server/services/file_cache_map.go:110-119 | paths under the directory always match its pattern |
| DirComplete.DirCountDecides | server/services/file_cache_map.go:110-132 | the directory test is right for all rows exactly when the pattern matches no path outside the directory, or the directory is empty |
| DirComplete.PlainNamesAreRight | server/services/file_cache_map.go:110-132 | so it is for names without wildcards and without case clashes |
| DirComplete.UnderscoreMisleads | server/services/file_cache_map.go:110-132 | an underscore in a name lets a neighbour's row stand in for a missing one |
| DirComplete.CompleteDirectoryHolds | server/services/file_cache_map.go:110-132 | a directory rightly called complete holds the content in every file |
| Distribute.DistributeByHash | server/services/common.go:19-35 | sorts the directories and returns the one in whose interval the scaled prefix lies, none exactly when it lies beyond the last |
| Distribute.IntervalExactly | server/services/common.go:25-26 | the intervals are of equal width and as wide as they can be |
| Distribute.IntervalsPartition | server/services/common.go:27-31 | a scaled prefix lies in at most one interval |
| Distribute.LeqExactly | server/services/common.go:20 | the order of the sort: a string comes before its extensions, otherwise the first difference decides |
| Distribute.FallsOffWhen | server/services/common.go:26-34 | exactly which prefixes find no directory, for any number of directories |
| Distribute.OnlyTheLastPrefixFallsOff | server/services/common.go:26-34 | with up to 1000 directories only the prefix 1048575 |
| Distribute.SharesAreEven | server/services/common.go:26-33 | any two slots receive numbers of prefixes that differ by at most one |
| Distribute.AnswersAreEven | server/services/common.go:20-33 | any two of distinct directories are the answer for numbers of prefixes that differ by at most one |
| Distribute.OrderDoesNotMatter | server/services/common.go:20-33 | the choice depends on the directories, not on their order |

## Left out

- gRPC, HTTP, command line, metrics, vault redirects and the client commands: input and output around libraries.
- SQLite, mmap, page alignment and the Linux system calls themselves, and the fallback to an in-memory table when the database cannot be opened.
- The BitTorrent library: hash verification, peer traffic, and the queue of pieces to verify, which drops entries when full.
- Writing through the span: its source is in a library. It is an operation of the model (`CacheModel.Write`) without a method in `Storage`.
- The lazily caching maps with expiry, torrent timers and lazy initialisation.
- `GetDir` and SHA-1 naming; the hash prefix is a parameter of `DistributeByHash`, and sorting is the library's, given here by an insertion sort.
- The linked list of the tracker is a sequence of piece indices, with the shared entry objects kept in the map: pointer identity of list elements is not modelled.
- A crash of the machine, which may lose what was not yet written back; and, in the atomic runs of `Runs.dfy`, a restart in the middle of an operation.
- Storage.OpenTorrent: a scan round that overlaps the opening eviction is not in this method but in the interleaved runs, which start before that eviction (`InterleavedRuns.ResumedIsGood`); errors of the directory, the database file and the mapping are returned before anything is opened.
- Integrity.StepExactly: for publishing from a snapshot its condition speaks of the file at that moment; `Scans.InsertionExactly` and `Scans.RewrittenInsertionExactly` give the condition on the steps since the snapshot.
- Integrity.StepKeepsSafe: the same.
- Failing table accesses in the interleaved model other than the first write of an eviction (`GiveUp`) and an insertion (`InsertFails`), and in the whole runs of `Runs.dfy`.
- A hole punch that fails: the original logs it and goes on, leaving the bytes.
- Storage.MmapTorrentStorage.ReadAt: an error of the mapped span's own read is not modelled, its source being in a library.
- The final messages of a status stream when the torrent closes or the process is stopped: they carry no pieces.
