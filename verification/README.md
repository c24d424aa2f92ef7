# pTop: the sampler, its tree and its energy accounts

pTop samples every process once per round. It keeps two samples per process in an AVL tree,
writes one row per active process and one row for the system into two tables, and computes
from these rows how much energy a process, or the whole machine, has used in the last
seconds. This project models that core in Dafny and proves what it keeps over whole runs,
for arbitrary listings of processes, samples, clocks and answers of the kernel.

`dafny verify dfyconfig.toml` checks the whole project.

## How the model is built

| file | what it models |
|---|---|
| `Counters.dfy`, `Arithmetic.dfy` | unsigned counter differences, the page shift |
| `Floats.dfy` | `float` without rounding: exact reals, infinities, not-a-number |
| `Samples.dfy` | a sample, the two slots of a process, `is_active`, the repair of dips |
| `AvlShape.dfy` | the AVL tree as a value, and what `insert` does to it |
| `Kernel.dfy`, `AvlTree.dfy` | the descriptor table; the tree on the heap, in place |
| `Eperf.dfy` | the descriptors of the processors |
| `Ranking.dfy` | the list of the busiest processes |
| `Tables.dfy` | the two tables and the queries |
| `Rounds.dfy` | one round, and runs of rounds, as functions on values |
| `Sampler.dfy` | the same rounds on the heap: globals, tree, arrays, descriptors |
| `Session.dfy` | start-up, rounds, shutdown |
| `Histories.dfy`, `Outputs.dfy`, `Log.dfy` | what runs mean for one process, for a round's output, for the tables |
| `Columns.dfy`, `CpuTimes.dfy` | the columns of a row against what was read; the sums of /proc/stat, component by component |
| `Departures.dfy`, `Latecomer.dfy` | processes that have gone; a round whose busiest process is not listed |
| `Excess.dfy` | rounds in which a read counter fell, and by how much the processes then exceed the device |
| `Energy.dfy`, `Conservation.dfy`, `Accounting.dfy` | the energy queries, and how the processes add up to the device |
| `CpuFreq.dfy` | the processor energy from the residency of each frequency |
| `Elapsed.dfy` | the text of an elapsed time |

The code that works in place is imperative here too: heap nodes that are rotated, arrays that
are shifted, loops over rows. Each such method is proved to compute a function on values, and
the properties are proved of these functions. The shape of the tree is a value `Tree` (keys
only) together with a map from each key to the node that carries it; `Linked` says that the
heap has that shape, without sharing or cycles and with exact cached heights. A class
invariant, `Sampler.Valid`, holds before and after every step, and the state that `Sampler.Abs`
reads off the heap follows `Rounds.Run` through any number of rounds.

Automatic induction is switched off for every lemma: each induction is written out.

The kernel is a table from open descriptors to what they were opened for. Opening fails or
returns any positive descriptor that is not in use; closing requires an open descriptor and
freeing an object that was not freed before, so "exactly once" is part of what is proved.

Everything that comes from outside is an argument of the round: the listing of /proc in any
order and with repetitions, each sample or the failure to read it, whether a counter would be
granted and what it reads, the line of /proc/stat, the clock readings, and whether the screen
is on. Beside these only the descriptor that the kernel picks is left open.

## Where the code does not do what its comments or names say

The model follows the code, and these are stated and proved:

- The wrap constants are `0x11111111` and `0x1111111111111111`, so a difference across an
  overflow is wrong by that constant, every time (`SubcountCorrectIff`, `OverflowByOne`).
- The ranked list is the stable sort of the first 40 records of a round, not the 40 largest
  (`BoardIsStableSort`, `RoundTopIff`); a process with 99 ticks that is visited after 40 with
  one tick each is not listed (`BusyLatecomerIsDropped`).
- `is_active` answers -1 for an idle process, which counts as true where the counter is opened
  (`EveryGoodReadAsksForCounter`).
- The column for user time subtracts the sample from itself and is right only for a process
  that used no user time (`UserColumnRightIff`).
- Nodes are never deleted: a process that has gone keeps its two last samples. If these differ
  it gets a row in every later round when both are of a live process, in every second round
  when one is, as after a death during a read, and never otherwise (`GoneProcessEmits`,
  `ExitedProcessEmits`, `BriefLifeLongRows`).
- So the byte counters of a process that did input or output in its last interval and exited
  are out of order in every window of two later rounds (`StaleBytesBreakWindow`). If it read,
  one of the two comparisons sees the read counter fall; the row holds a difference wrapped in
  64 bits and the device total one wrapped in 32, and the energy of the processes exceeds the
  device's (`StaleBytesExceed`, `OneFallExceeds`). With counters otherwise in order it stays
  within the bounds exactly if no read counter fell (`WithinIffNoneFell`).
- A row is written only for an active process, and network traffic or cache misses alone do
  not make a process active. What its counters move by in an idle round is in no row: the
  columns of a run add up to the readings exactly if nothing was lost so (`RawColumnsTelescope`,
  `NothingLostIff`).
- The number of records stored for a round is one less than there were, and -1 for none
  (`ActiveNumber`).
- The repair of dips keeps the running maximum exactly if no sample falls 100 or more below it
  (`KeepsMaxIff`).
- The disk totals of the system cut the byte counters to 32 bits, which is exact only as long as
  no multiple of 2^32 is passed (`CutDifferenceExactIff`). The sums of /proc/stat are stored in
  32 bits, and their differences are the true ones under the same condition
  (`StoredDifferenceExactIff`). Busy time leaves out niced time; in the figures of processor
  energy it cancels, so the ticks are held against all time (`CpuBlockIffTicks`).
- The last frequency table that is read overwrites the others. Between two reads whose last
  tables are the longest, or have as many lines and growing counts, the figure is what the last
  processor used (`LastProcessorsFigure`), and what all processors used exactly if the others,
  each measured against its own earlier counts, used nothing (`RightFigureIff`,
  `TwoProcessorsCountAsOne`). A last table of at most one line gives no figure (`NoFigureIff`).
- The comparisons of `val2elapstr` are strict: a full day prints as `24h`, zero as nothing
  (`Boundaries`). Its comment asks for a buffer of 8 characters and allows 13 (`LongestText`);
  8 hold every text and its NUL up to 4209 seconds, but not those of 4210
  (`EightBytesSufficeIff`). For zero the buffer is not touched (`Val2elapstr`).
- The page shift is exact only for pages of a power of two of kilobytes (`PagesToKbExactIff`).

## Model

| member | source | states |
|---|---|---|
| Counters.SubcountCorrectIff | src/common.c:225-231 | the result is the difference modulo 2^32 iff the counter has not gone down; otherwise it is off by the wrap constant |
| Counters.Subcount64CorrectIff | src/common.c:233-239 | the same for 64 bits |
| Counters.SubcountTelescopes | src/common.c:225-231 | for every sequence of samples the differences add up to last minus first plus one wrap constant a drop, modulo 2^32; exactly, when nothing drops |
| Counters.Subcount64Telescopes | src/common.c:233-239 | the same for 64 bits |
| Counters.OverflowByOne | src/common.h:49-50 | a counter that overflows by one tick moves by 286331154, or by 1229782938247303442 for 64 bits |
| Counters.DeltasExact | src/common.c:225-231 | the exact sum: a drop larger than the wrap constant adds 2^32 more |
| Counters.DeltasExact64 | src/common.c:233-239 | the same for 64 bits |
| Counters.GetKbShift | src/common.c:161-179 | the loop computes the floor of log2 of the page size in kB, and 0 after a failed call |
| Counters.PagesToKbExactIff | src/common.c:161-179 | shifting by the result converts every number of pages exactly iff the page is a power of two of kilobytes |
| Floats.PercentOrder | src/ptop.c:340 | percentages of one interval are ordered as their ticks, unless the interval is empty |
| Floats.PercentPositive | src/ptop.c:369 | a percentage is positive iff there are ticks, for an empty interval too |
| Samples.IsActiveIff | src/ptop.c:97-148 | 0 iff the process has gone; -1 iff nothing changed but guest time, network and cache misses; 1 otherwise |
| AvlShape.InsertOk | src/avltree.c:106-149 | insertion keeps the search order and adds exactly the one key |
| AvlShape.InsertBalances | src/avltree.c:106-149 | insertion keeps the tree balanced and grows it by at most one level |
| AvlShape.InsertPresent | src/avltree.c:146 | inserting a key that is present changes nothing |
| AvlShape.InsertAllOk | src/avltree.c:106-149 | after every sequence of insertions: an AVL search tree of exactly the keys inserted |
| AvlShape.AtMostOneRebalancing | src/avltree.c:129-144 | at most one repair fires per insertion, and then the tree keeps its height |
| AvlShape.ImbalanceNeverExceedsTwo | src/avltree.c:129-144 | no node on the path ever sees its sides differ by more than 2, so the tests for equality suffice |
| AvlShape.FixLeftBalances | src/avltree.c:129-134 | the repair after an insertion on the left balances the subtree and restores its height |
| AvlShape.FixRightBalances | src/avltree.c:139-144 | the repair after an insertion on the right balances the subtree and restores its height |
| AvlShape.SizeAtLeastFib | src/avltree.c:46-57 | a balanced tree of height h has at least Fib(h+3)-1 nodes |
| AvlShape.FindIsLogarithmic | src/avltree.c:33-44 | `find` visits at most 2 log2(size+1) + 1 nodes |
| AvlShape.PreOrderListsKeysOnce | src/ptop.c:378-380 | the order of the write pass lists every key of the tree exactly once |
| AvlTree.SingleRotateWithLeft | src/avltree.c:59-71 | in place: the heap below the new root has the rotated shape and exact heights; nothing but links and heights changes |
| AvlTree.SingleRotateWithRight | src/avltree.c:74-86 | the mirror image |
| AvlTree.DoubleRotateWithLeft | src/avltree.c:88-95 | two single rotations, in place |
| AvlTree.DoubleRotateWithRight | src/avltree.c:97-104 | the mirror image |
| AvlTree.Insert | src/avltree.c:106-149 | in place: the heap takes the shape of the insertion on values; every node stays under its key with descriptor and samples; at most one fresh node, with the given descriptor and cleared samples; `np` changes only then |
| AvlTree.InsertLeft | src/avltree.c:126-135 | the branch to the left with its recursive call, test and rotations |
| AvlTree.InsertRight | src/avltree.c:136-145 | the branch to the right |
| AvlTree.RefreshHeight | src/avltree.c:148 | the last statement makes the cached height of the root exact |
| AvlTree.Find | src/avltree.c:33-44 | lookup in the map of keys to nodes; null iff the key is absent; counts the nodes visited |
| AvlTree.CountersDistinct | src/avltree.c:157-162 | distinct nodes hold distinct positive descriptors |
| AvlTree.CloseOne | src/avltree.c:157-162 | closing a node's descriptor closes the counter of its process and no other, and open counters stay exactly those of the nodes |
| AvlTree.ClearPosition | src/avltree.c:157-162 | the counter of this process is closed, if open, and no other; the node is left with -1 |
| AvlTree.Empty | src/avltree.c:18-31 | every counter of a node in the tree is closed once and every node freed once, and nothing else |
| Kernel.System.PerfEventOpen | src/eperf.c:91 | -1, or any positive descriptor not in use |
| Eperf.CpuCounters.InitPerf | src/eperf.c:78-101 | one descriptor a processor, at its index; the open processor counters are exactly these; nothing else is touched |
| Eperf.CpuCounters.CloseCpuCounters | src/eperf.c:55-64 | closes every processor counter once and nothing else |
| Ranking.Place | src/ptop.c:486-495 | where the scan comes to rest: behind every entry that is not less; at 40 it does not move |
| Ranking.MakeRoom | src/ptop.c:486-495 | the scan in place: exactly the entries with less cpu move one place up |
| Ranking.AddHigherProcessInfo | src/ptop.c:486-498 | in place: one offer to the list; no entry beyond index 39 is written |
| Ranking.BoardIsStableSort | src/ptop.c:486-498 | after any offers of a round the entries in front are the stable descending sort of the first 40 records; the others are untouched |
| Ranking.TrueTopIff | src/ptop.c:490 | for any offers: the true top 40 iff no record offered later has more cpu than one of the first 40 |
| Tables.Database.InsertPs | src/database.c:90-109 | appends the row |
| Tables.Database.InsertSysInfo | src/database.c:121-135 | appends the row |
| Tables.Database.FreeupAll | src/database.c:196-253 | deletes from each table the rows older than its own reading of the clock less the interval |
| Tables.KeepPsExactly | src/database.c:205 | what a deletion leaves: every row not older than the cutoff as often as it was there, and no other |
| Tables.KeepSysExactly | src/database.c:229 | the same for the system rows |
| Tables.SelectPsExactly | src/energy.c:252 | a query finds every row of its process after `now - length` up to and with `now`, as often as it is there, and no other |
| Tables.SelectSysExactly | src/energy.c:340-341 | the same for the system rows |
| Tables.SelectPsConcat | src/energy.c:252 | it works row by row and keeps the order |
| Tables.SelectSysConcat | src/energy.c:340-341 | the same for the system rows |
| Tables.KeepPsConcat | src/database.c:205 | it works row by row and keeps the order |
| Tables.KeepSysConcat | src/database.c:229 | the same for the system rows |
| Sampler.Sampler.ReadProcPidMem | src/pid_stats.c:213-226 | opens a counter iff there is none, the activity is not 0 and the kernel grants it; open counters stay exactly those of the nodes; the count is 0 without one |
| Sampler.Sampler.ReadPidStats | src/ptop.c:214-233 | fills the current slot only; after a failure the descriptor is as before |
| Sampler.Sampler.ReadInto | src/ptop.c:273-277 | the same, with the reset of the pid after a failure |
| Sampler.Sampler.FindOrInsert | src/ptop.c:268-271 | the node of the process; a new one only if there was none; no node found before goes away |
| Sampler.Sampler.ReadEntry | src/ptop.c:266-278 | one entry of the listing changes the entry of its own process only |
| Sampler.Sampler.ReadProcessStats | src/ptop.c:243-286 | over any listing: the tree gets exactly the new keys, the entries follow the listing from first to last, every node stays where it was |
| Sampler.Sampler.ReadSystemStats | src/ptop.c:291-296 | fills the current sample of the system and nothing else |
| Sampler.Sampler.WriteActive | src/ptop.c:326-376 | totals, repair of dips, row, and offer to the list, for one active process |
| Sampler.Sampler.WriteNode | src/ptop.c:319-377 | a process that has gone or was idle loses its counter and gets no row; an active one is settled and gets one |
| Sampler.Sampler.WriteStat | src/ptop.c:314-381 | the recursion visits the nodes of a subtree once each in pre-order, settles them, leaves links and keys alone, and keeps open counters exactly those of the nodes |
| Sampler.Sampler.WriteProcessStats | src/ptop.c:395-406 | the whole tree; afterwards no gone or idle process has a counter; returns the records shown less one |
| Sampler.Sampler.WriteSystemStats | src/ptop.c:298-312 | appends the row of differences and stamps the current sample only |
| Sampler.Sampler.Round | src/ptop.c:426-446 | a whole round on the heap is the round on values; the tree stays an AVL search tree; earlier positions stay; no gone or idle process keeps a counter |
| Sampler.Sampler.MainLoop | src/ptop.c:414-449 | the same for any number of rounds with `curr` and `cycle` as the loop has them |
| Sampler.Sampler.FreeTree | src/eperf.c:66 | shutdown closes every process counter and frees every node, once each |
| Session.SystemInit | src/ptop.c:155-181 | the start: what two purges spare of the tables, processor counters open, no tree, cleared samples |
| Session.StartsEmptyIff | src/database.c:286-306 | start-up leaves empty tables iff they hold no rows of the present or the future |
| Session.SystemClean | src/ptop.c:188-195 | the tables are purged; only descriptors of others stay open; exactly the nodes of the tree are freed |
| Session.Session | src/ptop.c:469-484 | from start-up through any rounds to shutdown: tree, ranked list and tables are those of the run on values; there is one new node for each process ever listed, and exactly these are freed; the descriptor table is what it was |
| Histories.StepOne | src/ptop.c:243-286 | processes do not interfere: a round changes an entry by what it read about that process alone |
| Histories.SlotsAtWrite | src/ptop.c:397-403 | at the write pass of the second of two good reads, the current slot is this round's sample and the other one the last round's, dips repaired |
| Histories.TicksTelescope | src/ptop.c:334-340 | read well in every round and falling by less than 100: the kept times are the running maxima, and the emitted ticks add up to the final times, exactly if they fit in 64 bits |
| Histories.KeepsMaxIff | src/ptop.c:334-336 | the kept times are running maxima all along iff no sample falls 100 or more below |
| Histories.RowsShowEmittedTicks | src/ptop.c:340 | the ticks of that sum are those behind the cpu column of the rows |
| Columns.TwoReadsShown | src/ptop.c:345-361 | read well in two rounds running: the row shows the sizes of this read, and of each byte and network counter that has not gone down the true difference, the cancelled bytes at most the written ones |
| Columns.TimesShown | src/ptop.c:337-340 | of times that have not gone down: the shares of system, guest and all time are the true differences; the share of user time is 2^64 ticks less the guest ticks, or 0 without guests |
| Columns.RowsShowColumns | src/ptop.c:349-367 | each row shows of each counter the wrapping difference of the two samples, of cache misses only while they read above 0 |
| Columns.ProcessColumnsTelescope | src/ptop.c:349-367 | over any run and for any process: what its rows show and what no row shows add up to the last reading kept, plus one wrap constant a drop, modulo 2^64; without drops they show all exactly if nothing was lost |
| Columns.RawColumnsTelescope | src/ptop.c:349-361 | for a new process read well in every round those readings are the raw ones, and of bytes nothing is lost |
| Columns.NothingLostIff | src/ptop.c:324-325 | nothing is lost in a round iff the process has a row in it, and a counter above 0, or the counter did not move |
| Columns.MissesKept | src/pid_stats.c:223 | the cache misses kept are the count of the last read while a counter is held, and 0 otherwise |
| Columns.GuestTimeKeptIff | src/ptop.c:336 | the guest time kept is the larger of the two samples iff it has not gone down, or by less than 100 for a process that was otherwise active |
| Departures.AbsentFreezes | src/avltree.c:151-155 | two rounds after a process has left the listing its samples are frozen |
| Departures.FailureClearsPid | src/ptop.c:217-226 | a failed read leaves the part of the sample that was read, with pid 0, and the other sample alone |
| Departures.FrozenEmission | src/ptop.c:324-375 | whether a later round writes a row for it, and of how many ticks, depends on the slot current in that round alone |
| Departures.GoneProcessEmits | src/ptop.c:324-375 | frozen and absent: a row in every later round iff the samples differ and both are live, in every second iff they differ and one is, in none otherwise |
| Departures.ExitedProcessEmits | src/ptop.c:273-277 | after an exit between two reads: every later round or none; after a death during a read: every second round or none; none iff the samples do not differ |
| Departures.BriefLifeLongRows | src/ptop.c:273-277 | a run in which a process of 5 ticks dies in its second read: a row of all 5 ticks in every second round for ever |
| Departures.TwoReadsInOrderIff | src/ptop.c:327-328 | read well in two rounds running, the byte counters compared are in order iff the raw ones are |
| Departures.StaleEntryOkIff | src/ptop.c:327-328 | exactly when the stale samples of a process that has gone are in order in two rounds |
| Departures.StaleBytesBreakWindow | src/ptop.c:327-328 | two live stale samples with different byte counts: the counters are out of order in every window of two rounds |
| Excess.OneFallExceeds | src/ptop.c:349 | one active process whose read counter fell by less than 2^59, in a window of at most 2^26 rows: by the queries, disk energy and the disk part of memory energy of the processes exceed the device's by more than the brackets allow |
| Excess.WithinIffNoneFell | src/energy.c:260-262 | where every active process has its counters in order or its read counter fell: both figures within the bounds iff none fell, both beyond them otherwise |
| Excess.StaleBytesExceed | src/ptop.c:349 | two live stale samples with different bytes read: the device is exceeded in every window of two rounds |
| Histories.EveryGoodReadAsksForCounter | src/pid_stats.c:220-222 | a counter is opened for idle processes too, and taken away again unless the process was active |
| Outputs.RunSound | src/ptop.c:414-449 | in every state of every run: an AVL search tree, with an entry per key holding samples of its own process only |
| Outputs.OneRowPerActiveProcess | src/ptop.c:324-375 | a round appends exactly one row for each active process, with the time of the round, and none for any other |
| Columns.OfferedIff | src/ptop.c:369 | a process is offered to the list iff the screen is on, it was active, and it used processor time or its network counters or counted cache misses moved |
| Columns.ActiveNumber | src/ptop.c:405 | the system row counts the records of the round less one; with the screen off there are none |
| Outputs.RoundRanking | src/ptop.c:369-373 | the list after a round is the stable sort of the first 40 of the round's records in pre-order |
| Outputs.RoundTopIff | src/ptop.c:486-498 | in a round with 40 records or more it is the true top 40 iff no process visited later has more cpu than one of the first 40 |
| Latecomer.BusyLatecomerIsDropped | src/ptop.c:490 | an input of more than 40 different processes, read in the first round, for which it is not: the busiest one, visited last, is not listed |
| Outputs.RunKeys | src/ptop.c:268-271 | over any run the tree gets exactly the processes that were listed |
| Outputs.CutDifferenceExactIff | src/ptop.c:327-328 | the difference of byte counters cut to 32 bits is the true one iff no multiple of 2^32 was passed |
| Outputs.CutTotals | src/ptop.c:327-328 | what one process adds to the totals, for any two samples: the differences modulo 2^32 plus one wrap constant for each cut counter that fell |
| Outputs.DiskTotalsAreSums | src/ptop.c:327-328 | with such counters the disk totals of the round are the sums over the rows written |
| Outputs.UserColumnRightIff | src/ptop.c:337 | the column for user time is user time without guest time iff there was no user time |
| Outputs.GuestAndSystemWithinCpu | src/ptop.c:338-340 | the cpu column is user plus system time; guest plus system time never exceeds it, and equals it iff all user time was guest time |
| Log.TablesAreKeptLog | src/database.c:196-233 | with a good clock the tables are everything ever written, less what is older than the latest cutoff |
| Log.QueriesSeeWholeLog | src/ptop.c:441-442 | no energy query of at most 31 seconds can tell the tables from everything ever written, neither after a round nor, as the display asks, before the purge of the same round |
| Log.PurgesEvery31st | src/ptop.c:442 | rounds 31, 62, 93 and so on leave exactly the rows of the last 31 seconds, all other rounds delete nothing |
| Log.SysInfoNeverAbove63 | src/ptop.c:442 | `sys_info` never holds more than 63 rounds, not even just before a purge |
| Energy.CPUEnergy | src/energy.c:116-159 | the loop adds up the figures of the join of the process's rows with the system rows |
| Energy.DiskEnergy | src/energy.c:240-271 | the loop adds up the disk energy of the process's rows in the window |
| Energy.MemoryEnergy | src/energy.c:286-326 | the loop adds up the memory energy of the process's rows in the window |
| Energy.SystemEnergy | src/energy.c:328-383 | the loop adds up the four figures of the devices in the window |
| Energy.OneRoundFigures | src/energy.c:367-377 | the four figures of one round, each from its own columns, disk and memory with whole kilobytes and lines |
| Energy.FiguresAddUp | src/energy.c:367-377 | those of a window are those of its rounds, added up |
| Energy.OneRowMemory | src/energy.c:316-318 | the memory figure of a row is that of a line for every 128 bytes moved and for every cache miss |
| Energy.DiskPrices | src/energy.c:67-68 | a million kilobytes read cost 55.6 joules, written 43.8, and others in proportion |
| Energy.LinePrice | src/energy.c:56-57 | a thousand million cache lines cost 120.5568 joules, and others in proportion |
| Energy.NetworkPrices | src/energy.c:376 | 1.8 watts for the time of sending at 12.33 MB/s, 1.4 watts for receiving at 5.665 MB/s |
| Conservation.PerProcessIsWindow | src/energy.c:252 | summed over all processes each row of the window counts exactly once |
| Conservation.FloorsOfRows | src/energy.c:262 | kilobytes row by row fall short of the kilobytes of the sum by at most one for each row but the first |
| Conservation.MemoryIsDmaAndAccesses | src/energy.c:316-318 | memory energy is the sum of a part for disk transfers and a part for cache misses |
| Conservation.CpuBlockIff | src/energy.c:150-151 | in one round, whatever was stored: the processes' figures are finite and together at most the device's iff the percentages are of a positive interval q, time went by, and ticks times busy time are at most q times all time (or there are no rows, or no power) |
| Conservation.CpuBlockIffTicks | src/energy.c:150-151 | with the percentages of the stored busy time that cancels: at most the device's iff the ticks are at most all time |
| Accounting.TreeListsAllProcesses | src/avltree.c:151-155 | the tree lists every process that ever got a row, once |
| Accounting.DiskEnergyConserved | src/energy.c:240-271 | for every run with a good clock and every window in whose rounds the byte counters of all active processes are in order (monotone, no multiple of 2^32 passed, no more cancelled than written): the disk energy of all processes is at most the device's, and short of it by at most a kilobyte read and one written for each active process but one, round by round |
| Accounting.DmaEnergyBracketed | src/energy.c:312-316 | under the same condition the disk part of memory energy is bracketed the other way: device at most processes, which are above it by at most 254/128 cache lines a round |
| Accounting.DisplaySeesLastRound | src/ptop.c:441 | the query for the last second, made before the purge with the time of the round: exactly its system row, and for each process its one row of that round or nothing |
| Accounting.CpuEnergyConserved | src/energy.c:116-159 | for every run with a good clock and every window in whose rounds the times fit, in the sense of the next row: the processor energy of all processes is at most the device's |
| Accounting.CpuRoundIff | src/energy.c:150-151 | in any round of any run the processes stay within the device iff the times of the round fit |
| CpuTimes.RaisedSums | src/cpu_stats.c:88-93 | each component but guest time raises the stored total by as much, modulo 2^32; user and system time raise the busy time, guest time lowers it, nothing else moves it |
| CpuTimes.ZeroSums | src/cpu_stats.c:88-93 | a line of zeros stores zeros |
| Accounting.StoredDifferenceExactIff | src/cpu_stats.c:88-93 | the stored difference of a sum of /proc/stat that has not gone down is the true one iff it has passed no multiple of 2^32 |
| Accounting.StoredTimesAreTrueIff | src/ptop.c:306-307 | so busy and total time of a round's row are the true ones iff neither sum has |
| Accounting.RunFitsIffTicks | src/cpu_stats.c:88-93 | when neither has, and both have grown, the times of a round fit iff the active processes ran, niced or not, for at most the total time of all processors |
| Accounting.SystemColumnsTelescope | src/ptop.c:304-308 | over any run the cache-miss and network columns add up to the last reading plus one wrap constant a drop, modulo 2^64; exactly, when nothing drops |
| CpuFreq.Frequencies.StartRead | src/cpu_stats.c:316-319 | keeps the counts of the last read and clears the current ones |
| CpuFreq.Frequencies.ReadTable | src/cpu_stats.c:336-349 | a table overwrites the first entries, at most 16 |
| CpuFreq.Frequencies.ReadTables | src/cpu_stats.c:325-351 | later tables overwrite earlier ones, and the last one sets the largest index |
| CpuFreq.Frequencies.CountResidency | src/cpu_stats.c:355-359 | differences and their sum, unsigned |
| CpuFreq.Frequencies.SumPower | src/cpu_stats.c:361-366 | the weighted sum, nothing if nothing was counted or there is one frequency |
| CpuFreq.Frequencies.ReadCpufreqStats | src/cpu_stats.c:296-368 | the figure of a read from the counts of this read and the last, for each of its exits |
| CpuFreq.PowerOfEnds | src/cpu_stats.c:364 | ticks at the first of several lines cost 24.5 watts of 10 ms, at the last 6 |
| CpuFreq.PowerFallsEvenly | src/cpu_stats.c:364 | from each line to the next they cost the same amount less |
| CpuFreq.FallenCountFigure | src/cpu_stats.c:356 | a count that fell counts as 2^64 ticks less what it fell by |
| CpuFreq.MovedTicksCountNothing | src/cpu_stats.c:357-363 | if one count falls by what another has grown by there is no figure at all |
| CpuFreq.EnergyBetween | src/cpu_stats.c:361-366 | any residencies: between minimal and maximal power over the ticks |
| CpuFreq.FigureNotNegative | src/cpu_stats.c:361-366 | whatever was read, a figure is never negative, which is what the account of processor energy asks of it |
| CpuFreq.RoundEnergyBetween | src/cpu_stats.c:355-366 | with growing counts each figure lies between minimal and maximal power over the ticks counted |
| CpuFreq.EnergiesTelescope | src/cpu_stats.c:316-366 | the figures of any consecutive samples with growing counts add up to the energy of the net change |
| CpuFreq.ReadEachRound | src/ptop.c:293 | reading once a round: counts and figures are those of the run of reads |
| CpuFreq.ReadsTelescope | src/cpu_stats.c:316-366 | over any run of reads with growing counts the figures add up to the energy of the net change of the counts |
| CpuFreq.LastTableWins | src/cpu_stats.c:336-349 | if the last table is the longest, what is read is that table alone |
| CpuFreq.LastProcessorsFigure | src/cpu_stats.c:316-366 | the figure of a read is what the last processor used since the read before, by its own table |
| CpuFreq.RightFigureIff | src/cpu_stats.c:336-366 | it is what all processors used, each against its own table of the read before, iff all others used nothing |
| CpuFreq.TwoProcessorsCountAsOne | src/cpu_stats.c:336-366 | two processors and any growing counts at the top frequency: the figure is that of the second alone, while both used the sum |
| CpuFreq.NoFigureIff | src/cpu_stats.c:349-366 | with growing counts the figure is zero iff the last table has at most one line or no tick was counted |
| Elapsed.Val2elapstr | src/display.c:85-113 | writes the text into the buffer, returns its length, closes it with a NUL; for zero the buffer stays as it is |
| Elapsed.TextReadsBack | src/display.c:85-113 | an independent parser of the fields reads every number back, negative ones too |
| Elapsed.TextInjective | src/display.c:85-113 | different numbers have different texts |
| Elapsed.TextLength | src/display.c:80 | at most 13 characters below a thousand days |
| Elapsed.LongestText | src/display.c:80 | a text of 13 characters |
| Elapsed.EightBytesSufficeIff | src/display.c:82 | 8 bytes hold every text below a bound iff the bound is at most 4210 seconds |
| Elapsed.Boundaries | src/display.c:89-107 | exact boundaries stay in the smaller unit, and zero is empty |

## Left out

- Reading and parsing of /proc and /sys: the values read are arguments of a round. Where the source ends the program because a file cannot be opened, as for the memory map of a process that has just died (src/m_stats.c:56-59), there is no round in the model.
- The energy statements start from empty tables; `Session.StartsEmptyIff` says when start-up leaves them so.
- MySQL connections and their failures, SQL text and the printing of numbers into it: tables are sequences of rows with exact values, and a query is the filter it expresses.
- Rounding of floats: reals are exact; the infinities and not-a-number that an interval of zero produces are kept in the percentages and in the processor energy. The source prints them unquoted into the statement (src/database.c:99-105), which the database refuses, so that the row is lost; the model inserts it.
- ncurses, signals, alarms, help screens and the killing of processes; a round is one step and the display reads nothing back.
- The performance-counter system call itself: opening is granted or refused by an argument of the round, and the descriptor is any unused one.
- More than 32 processors: `fd` in src/eperf.c has that many places, so `Eperf.CpuCounters.InitPerf` requires at most 32.
- `Sampler.Sampler.MainLoop`: the first listing is not empty, because `write_stat` follows the root without a test (src/ptop.c:379); a listing of /proc always holds the reading process.
- `Sampler.Sampler.WriteActive`: fills the columns that a figure or a test uses; page faults and context switches per second, memory share and ratio and the command name are not columns of the model.
- Two structures allocated apart for the samples of a node: the samples are values in the node, so their separate freeing is part of freeing the node.
- Failing allocation, and `delete`, which does nothing.
- `Energy.DiskEnergy`: rows that cancel more bytes than were written, which `write_stat` never inserts (src/ptop.c:352); the source would convert a negative difference to an unsigned one.
- Energy of a process on the network and of the display, and battery readings: the figures come from sources that are not related to those of the device.
- The relation between cache misses of processes and of the device: two independent counters.
- `CpuFreq.Frequencies.ReadCpufreqStats`: its result enters a round as a number; the class is not a part of the sampler object.
- 32-bit overflow of time stamps and of `cycle`.
