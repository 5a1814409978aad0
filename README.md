# PSRS support library — a Dafny model

This project models the support code of a benchmark for Parallel Sorting by
Regular Sampling (PSRS) and proves properties of the model. It covers:

- the fixed-length circular buffer that keeps the last N run times (`src/ring.c`);
- the moving average computed over that buffer (`src/stats.c`);
- the append-only list of `long`s, copied into an array (`src/list.c`);
- the three-way comparison and the merge of two sorted runs (`src/sort.c`);
- the checked string-to-integer wrappers (`src/convert.c`);
- the command-line parsing of the benchmark driver (`src/psrs.c`);
- the wall-clock timer (`src/timing.c`);
- the logic of the plotting script (`tools/plot.py`): the benchmark grid, the
  `runtime_dict` it fills, the speedup vectors, the runtime and
  standard-deviation tables, and the output-extension checks.

Files and modules:
- `ctypes.dfy` (`CTypes`) — shared C vocabulary:
  - errno values, the 0/-1 return convention as `Status`;
  - an output-pointer cell `Ptr<T>`, where a null `Ptr?` stands for a NULL argument;
  - the integer limits of an LP64 platform.
- `decimal.dfy` (`Decimal`) — decimal spelling of numbers.
- `convert.dfy` (`Convert`) — `strtol`/`strtoul`/`strtoumax` (section 7.22.1.4 and 7.8.2.3 of ISO C11) and the wrappers.
- `psrs.dfy` (`Psrs`) — `argument_parse` and its private converters.
- `timing.dfy` (`Timing`) — `timing_start`, `timing_reset`, `timing_stop`.
- `ring.dfy` (`RingBuffer`):
  - `struct ring` and `struct ring_iter` as classes, with the ring's payloads as a sequence and cursors as node numbers;
  - a value-level `Window` specification of `ring_add`.
- `stats.dfy` (`Stats`) — the moving average on top of the ring.
- `list.dfy` (`LinkedList`) — the linked list, as heap nodes with a ghost sequence of nodes.
- `sort.dfy` (`Sort`) — `long_compare`, `array_merge` on arrays, and the specification function `Merge`.
- `plot.dfy` (`Plot`) — the script:
  - a Python dict is an insertion-ordered association list;
  - an exception is a returned error value;
  - the benchmark executable is an oracle `measure(length, processes)`.

Modelling choices:
- The clock (`clock_gettime`) is an input: a reading or a failure with its errno.
- Every allocation succeeds.
- `double` values are modelled as reals.

## Model

| member | source | states |
|---|---|---|
| `Convert.Scan` | src/convert.c:14 | the subject sequence strtol reads ends after its last digit and not before a digit |
| `Convert.SkipSpace` | src/convert.c:14 | the skip stops at the first character that is not white space, having passed only white space |
| `Convert.DigitRunEnd` | src/convert.c:14 | the digit run ends at the first character that is not a decimal digit, having passed only digits |
| `Convert.Strtol` | src/convert.c:14-17 | no digits gives 0 with the end at the start; otherwise the end is just after the digits, ERANGE is set exactly when the signed value lies outside [LONG_MIN, LONG_MAX], and the value is then LONG_MAX or LONG_MIN by the side it overflows, else the signed value itself |
| `Convert.Strtoul` | src/convert.c:48-51 | no digits gives 0 with the end at the start; otherwise the end is just after the digits, ERANGE is set exactly when the magnitude exceeds max, the value is then max, else the signed value reduced modulo max + 1 |
| `Convert.UnsignedValue` | src/convert.c:48 | a minus sign negates in the return type: the value is the signed value reduced modulo max + 1, at most max |
| `Convert.ToCInt` | src/convert.c:31-33 | `(int)` of a long is in int range, and equals its input exactly when the input fits |
| `Convert.ToCUnsigned` | src/convert.c:65-67 | `(unsigned int)` is below 2^32, and equals its input exactly when the input fits |
| `Convert.ToSizeT` | src/convert.c:99-101 | `(size_t)` of a `uintmax_t` keeps every value up to SIZE_MAX |
| `Convert.IntConvert` | src/convert.c:9-41 | stores exactly when there are digits and the value fits in int; the value is the text's; no digits fails with errno 0; otherwise ERANGE |
| `Convert.UnsignedConvert` | src/convert.c:43-75 | stores exactly when strtoul's result fits in unsigned int; no digits fails with errno 0; otherwise ERANGE |
| `Convert.SizetConvert` | src/convert.c:77-109 | stores exactly when the magnitude does not overflow uintmax_t; no digits fails with errno 0; otherwise ERANGE |
| `Convert.ScanComposed` | src/convert.c:14-29 | white space, a sign, a digit run and a non-digit rest scan to the run's value, with the sign, ending after the run |
| `Convert.ScanIntToDecimal` | src/convert.c:14-29 | the decimal spelling of any integer, followed by a non-digit, scans back to that integer |
| `Convert.ScanNoDigits` | src/convert.c:27-28 | white space followed by no digit, or by a sign and then anything but a digit (such as "+ 5"), is "no digits" (end pointer at the start) |
| `Convert.IntConvertRoundTrip` | src/convert.c:9-41 | the decimal spelling of any int, followed by any non-digit text, converts back to that int |
| `Convert.UnsignedConvertRoundTrip` | src/convert.c:43-75 | the spelling of any unsigned int converts back to it |
| `Convert.SizetConvertRoundTrip` | src/convert.c:77-109 | the spelling of any size_t converts back to it |
| `Convert.IntConvertNarrowingFails` | src/convert.c:31-38 | a long outside int range fails with ERANGE, not by truncation |
| `Convert.UnsignedConvertRejectsMinusOne` | src/convert.c:48-72 | "-1" is rejected with ERANGE by unsigned_convert |
| `Convert.SizetConvertAcceptsMinusOne` | src/convert.c:82-106 | "-1" is accepted by sizet_convert as SIZE_MAX |
| `Psrs.PsrsSizetConvert` | src/psrs.c:145-177 | psrs.c's copy agrees with convert.c's sizet_convert on every input |
| `Psrs.PsrsUnsignedConvert` | src/psrs.c:179-211 | psrs.c's copy agrees with convert.c's unsigned_convert on every input |
| `Psrs.Step` | src/psrs.c:83-129 | one getopt result: after usage_show nothing changes, a result that ends the loop ends it in usage_show, and a flag changes at most its own check[] entry and field |
| `Psrs.Scanned` | src/psrs.c:82-130 | the options seen so far: the loop only ends through usage_show, and once it has, later options change nothing |
| `Psrs.Outcome` | src/psrs.c:82-142 | past the entry checks argument_parse never returns -1, and returns 0 only when the loop ran to its end |
| `Psrs.StepNoExit` | src/psrs.c:83-129 | one getopt result keeps the loop going exactly when it is a valid flag value; it sets only its own check[] entry; any other result ends in usage_show |
| `Psrs.ScannedNoExit` | src/psrs.c:82-130 | the loop completes exactly when every option is accepted; check[L], check[R], check[T] are then set exactly when -l, -r, -t occur |
| `Psrs.ScannedAfterExit` | src/psrs.c:93-128 | after usage_show no later option has any effect |
| `Psrs.ParsedIff` | src/psrs.c:82-142 | argument_parse returns 0 exactly when every option is valid and each of -l, -r and -t occurs |
| `Psrs.EntryAsWrittenMissesGuard` | src/psrs.c:71-80 | with argc == 0 or a NULL argv the strdup runs before the EINVAL guard |
| `Psrs.EntryAsWritten` | src/psrs.c:71-80 | as written: the entry is defined exactly when argv is non-NULL and argc > 0, and where defined it rejects exactly a NULL result |
| `Psrs.SwitchOption` | src/psrs.c:83-129 | the switch body stores the converted value and sets check[] as one Step of the specification |
| `Psrs.ScannedKeepsLast` | src/psrs.c:82-116 | when the loop runs to its end, the length, run or thread field holds the value converted from the last -l, -r or -t option |
| `Psrs.ArgumentParse` | src/psrs.c:40-143 | NULL result, argc == 0 or NULL argv gives EINVAL with nothing stored; otherwise the outcome is Outcome(opts), and each field holds the last value its flag stored |
| `Timing.Elapsed` | src/timing.c:48-54 | the fieldwise difference with borrow denotes end - start in nanoseconds |
| `Timing.ElapsedNormalized` | src/timing.c:44-54 | for normalised readings with end not before start, the difference is normalised and non-negative |
| `Timing.ElapsedUnique` | src/timing.c:48-54 | the difference is the only normalised time value denoting end - start |
| `Timing.Seconds` | src/timing.c:55 | nanoseconds / NS_PER_SEC + seconds is the value's total nanoseconds scaled to seconds |
| `Timing.SecondsOfElapsed` | src/timing.c:48-55 | the stored seconds are (end - start) nanoseconds over 10^9 |
| `Timing.TimingStart` | src/timing.c:5-16 | NULL gives EINVAL; a clock failure is returned with the object unchanged; otherwise the reading is stored |
| `Timing.TimingReset` | src/timing.c:18-28 | NULL gives EINVAL; otherwise both fields are zero |
| `Timing.TimingStop` | src/timing.c:30-57 | NULL arguments give EINVAL and a clock failure is returned, both with nothing stored; otherwise *elapsed is the seconds between *start and the reading |
| `RingBuffer.Next` | src/ring.c:64-72 | the successor of a node is a node, and it is the head exactly for the last node |
| `RingBuffer.AdvanceWrap` | src/ring.c:64-72 | following `next` k <= n times from node i reaches node (i + k) mod n |
| `RingBuffer.AdvanceFullTurn` | src/ring.c:64-72 | `length` steps along `next` return to the starting node |
| `RingBuffer.Add` | src/ring.c:80-99 | one ring_add keeps the node count and the cursor on a node |
| `RingBuffer.AddAllCursor` | src/ring.c:89-96 | after a run of additions the cursor has advanced by the run's length |
| `RingBuffer.AddAllRecent` | src/ring.c:89-96 | a run of at most `length` additions leaves its j-th value j nodes after the starting cursor, and every other node unchanged |
| `RingBuffer.DestroyTraceLayout` | src/ring.c:128-142 | destroying releases node i's payload at step 2i and node i at step 2i+1 |
| `RingBuffer.DestroyTraceReleasesEachNodeOnce` | src/ring.c:128-142 | every node is released exactly once, no other node is released, and the header is not released inside the loop |
| `RingBuffer.Ring.constructor` | src/ring.c:50-57 | the header takes the length and hooks, with one empty node under the cursor |
| `RingBuffer.RingIter.constructor` | src/ring.c:158-164 | a new iterator is on the head |
| `RingBuffer.RingInit` | src/ring.c:11-78 | NULL self, zero length or exactly one hook gives EINVAL and stores nothing; otherwise a fresh ring of `length` empty nodes, cursor on the head, with malloc/free as the default hooks |
| `RingBuffer.RingAdd` | src/ring.c:80-99 | rejected calls change nothing; otherwise the cursor node's old payload goes to clean, the new payload is written there, and the cursor moves on (the Window Add) |
| `RingBuffer.RingLength` | src/ring.c:101-110 | NULL arguments give EINVAL; otherwise the stored length |
| `RingBuffer.RingDestroy` | src/ring.c:112-147 | NULL gives EINVAL; otherwise each node's payload then the node go to clean, from the head, then the header, and *self is NULL |
| `RingBuffer.RingIterInit` | src/ring.c:149-168 | NULL arguments give EINVAL with nothing stored; otherwise *self is a fresh iterator on the head of the ring |
| `RingBuffer.RingIterWalk` | src/ring.c:170-185 | NULL arguments change nothing; otherwise the current payload is stored and the iterator moves to the next node |
| `RingBuffer.RingIterDestroy` | src/ring.c:187-197 | NULL gives EINVAL; otherwise *self is NULL |
| `Stats.TotalAppend` | src/stats.c:40-43 | the running sum over a concatenation is the sum of the two sums |
| `Stats.AddAllSplit` | src/stats.c:5-16 | pushing ys then zs is pushing ys ++ zs |
| `Stats.FullTurnRotates` | src/stats.c:5-16 | exactly `length` pushes fill every node, rotated to the cursor where they started |
| `Stats.WindowHoldsRecentValues` | src/stats.c:5-53 | once at least `length` values are pushed, every node holds a value and the average is the mean of the last `length` values pushed |
| `Stats.TotalRotation` | src/stats.c:40-45 | summing the nodes from the head gives the same total wherever the ring's rotation starts |
| `Stats.MovingAveragePush` | src/stats.c:5-16 | NULL gives EINVAL; otherwise the value is added at the cursor and the length is unchanged |
| `Stats.MovingAverageCalc` | src/stats.c:18-53 | NULL arguments give EINVAL with nothing stored; otherwise, once every node holds a value, *average is the sum of the `length` payloads walked from the head, divided by the length |
| `LinkedList.List.constructor` | src/list.c:21-23 | the new list is empty and well formed |
| `LinkedList.ListInit` | src/list.c:6-27 | NULL gives EINVAL; otherwise *self is a fresh empty list |
| `LinkedList.ListAdd` | src/list.c:29-56 | NULL gives EINVAL; otherwise the contents gain the value at the end, the size grows by one, the new node is the last node, and the head is kept (or is the new node of a list that was empty) |
| `LinkedList.ListCopy` | src/list.c:63-77 | NULL gives EINVAL; otherwise dest[0..size) holds the contents in order and the rest of dest is unchanged |
| `LinkedList.ListDestroy` | src/list.c:79-105 | NULL gives EINVAL; otherwise every node is freed from the head, then the header, and *self is NULL |
| `Decimal.NatToDecimalRoundTrip` | src/convert.c:14 | reading back the decimal spelling of n gives n |
| `Sort.LongCompare` | src/sort.c:100-106 | -1, 0 or 1 exactly when left is below, equal to or above right |
| `Sort.LongCompareAntisymmetric` | src/sort.c:100-106 | swapping the arguments negates the result |
| `Sort.Merge` | src/sort.c:131-160 | the merge holds as many elements as both runs |
| `Sort.MergePermutation` | src/sort.c:131-160 | the merge is a permutation of the two runs |
| `Sort.MergeSorted` | src/sort.c:131-160 | two sorted runs merge into a sorted run |
| `Sort.MergeTakeLeft` | src/sort.c:132-134 | taking the smaller left head is one step of the merge |
| `Sort.MergeTakeRight` | src/sort.c:135-137 | taking the right head on a tie or when it is smaller is one step of the merge |
| `Sort.AppendRun` | src/sort.c:150-160 | a closing loop copies the rest of one run after what is merged, completing the merge |
| `Sort.MergeHeads` | src/sort.c:131-139 | the main loop stops with one run exhausted, the output holding a prefix of the merge that the rest of both runs completes, and nothing past lsize + rsize changed |
| `Sort.ArrayMerge` | src/sort.c:118-162 | a NULL array or an empty run gives EINVAL and writes nothing; otherwise output[0..lsize+rsize) is Merge(left, right) and nothing past it changes |
| `Plot.RFind` | tools/plot.py:85 | the index of the last occurrence of a character, or -1 when there is none |
| `Plot.SplitExt` | tools/plot.py:85 | root + ext is the path; ext is non-empty exactly when the last component has a '.' with a character other than '.' before it in that component, and then ext starts at that component's last '.' and holds no further dot or separator |
| `Plot.SplitExtAfterInsert` | tools/plot.py:401-402 | inserting a character before a proper extension keeps that extension |
| `Plot.SplitExtDotfile` | tools/plot.py:85 | a leading dot does not start an extension: splitext(".bashrc") is (".bashrc", "") |
| `Plot.SplitExtFileName` | tools/plot.py:85 | "out/plot.png" splits at its last dot into ("out/plot", ".png") |
| `Plot.RFindSkips` | tools/plot.py:398 | where the last occurrence of a character can lie |
| `Plot.PyRange` | tools/plot.py:76-79 | range(start, stop, step) lists start + i*step, each below stop; it is empty exactly when start >= stop, and its last element plus step reaches stop, so no value below stop is missing |
| `Plot.PyRangeComplete` | tools/plot.py:76-79 | range(start, stop, step) holds every start + k*step below stop, at position k |
| `Plot.GridValues` | tools/plot.py:76-79 | the sweep uses 1, 2, 4, 8 processes and lengths 512, 2048, 8192, 32768 |
| `Plot.GetAt` | tools/plot.py:131 | with unique keys, d[key] is the list stored under that key |
| `Plot.AppendAt` | tools/plot.py:131 | d[key].append(v) keeps the keys; the list with that key gains v at its end and every other list is unchanged |
| `Plot.AppendAtGet` | tools/plot.py:131 | with unique keys, looking key up after the append gives its old list plus v, and any other key gives its old list |
| `Plot.Row` | tools/plot.py:104-131 | one length's row holds one measurement per process count swept so far |
| `Plot.SweepDict` | tools/plot.py:82-145 | runtime_dict has one key per length of the grid |
| `Plot.PartialStep` | tools/plot.py:131 | each run appends its measurement to its length's list and nowhere else |
| `Plot.RowStep` | tools/plot.py:131 | one more run extends a length's list by exactly that run's measurement |
| `Plot.SpeedupVector` | tools/plot.py:126-137 | one speedup per process count |
| `Plot.SpeedupNormalised` | tools/plot.py:126-137 | entry 0 is 1; entry q times the q-th mean is the single-process mean (T1 / Tp) |
| `Plot.SweepLength` | tools/plot.py:104-131 | the inner loop raises ZeroDivisionError exactly when some multi-process mean is 0; otherwise it records the row and the vector of T1 and T1 / Tp |
| `Plot.SpeedupPrefixStep` | tools/plot.py:126-131 | one run extends the speedup vector by T1 (the single-process run) or by T1 / Tk, keeping every earlier entry |
| `Plot.SpeedupPlot` | tools/plot.py:42-145 | a missing program, a missing mpiexec, or an output without extension raise ValueError before any run; ZeroDivisionError exactly when some multi-process mean is 0; otherwise the swept runtime_dict and the plotted speedup vectors |
| `Plot.SeqLessTotal` | tools/plot.py:160 | Python's tuple `<` on process ranges is total |
| `Plot.KeyLeTotal` | tools/plot.py:160 | the key order used by sorted() is total |
| `Plot.Insert` | tools/plot.py:160 | one insertion adds one key |
| `Plot.SortKeys` | tools/plot.py:160 | sorted() keeps the number of keys |
| `Plot.InsertAscending` | tools/plot.py:160 | insertion keeps a sorted key list sorted and adds exactly one key |
| `Plot.SortKeysSorted` | tools/plot.py:160 | sorted(keys) is ascending and a permutation of the keys |
| `Plot.SortKeysOfAscending` | tools/plot.py:160 | strictly ascending keys are left in place by sorted() |
| `Plot.SortKeysMembers` | tools/plot.py:164 | sorted(keys) holds exactly the given keys |
| `Plot.Log2` | tools/plot.py:357-363 | the exponent e with 2^e == n |
| `Plot.Log2OfPow2` | tools/plot.py:357-363 | 2^e is a power of two with exponent e |
| `Plot.ExponentLabelOfPow2` | tools/plot.py:362-364 | the label of the length 2^e is the TeX "$\\mathregular{2^{e}}$" with e in decimal |
| `Plot.ExponentError` | tools/plot.py:357-360 | _log2_exponent_get raises exactly for lengths that are not a power of two |
| `Plot.LengthLabels` | tools/plot.py:160-161 | a label per key exactly when every length is a power of two, otherwise the error of the first key in order whose length is not |
| `Plot.FirstFailingShift` | tools/plot.py:161 | a failing key after a good first key is the first failing one of the whole list |
| `Plot.ProcessLabelsOfGrid` | tools/plot.py:170-172 | the labels of 1, 2, 4, 8 processes |
| `Plot.ProcessLabelShape` | tools/plot.py:170-171 | a column label starts with the process count in decimal and ends in "es" (plural) exactly when the count is not 1 |
| `Plot.Tabulate` | tools/plot.py:148-187 | length labels come first: a non-power-of-two length raises ValueError; an empty dict then raises IndexError; otherwise one row, label and cell list per key |
| `Plot.TabulateRows` | tools/plot.py:160-168 | rows ascending and a permutation of the keys, labelled by their exponent; cell (i, k) is the chosen component of d[key_i][k]; columns labelled by the chosen key's process counts |
| `Plot.TabulateRejects` | tools/plot.py:160-161 | a dict with a length that is not a power of two raises the error of the first such length in ascending key order |
| `Plot.TabulateOutcome` | tools/plot.py:160-167 | a table is built exactly when the dict is non-empty and every length is a power of two, its cells holding the chosen component of each key's pairs; otherwise the error is IndexError for an empty dict, else the ValueError of the first length in key order that is not a power of two |
| `Plot.RuntimeTabulateMeans` | tools/plot.py:148-187 | runtime_tabulate builds a table exactly when the dict is non-empty and every length is a power of two; cell (i, k) is then the mean of the k-th pair stored under the i-th sorted key; otherwise the error is the one TabulateOutcome names |
| `Plot.StdevTabulateErrors` | tools/plot.py:243-282 | stdev_tabulate builds a table exactly when the dict is non-empty and every length is a power of two; cell (i, k) is then the standard error of the k-th pair stored under the i-th sorted key; otherwise the error is the one TabulateOutcome names |
| `Plot.SweepKeysSorted` | tools/plot.py:79-83 | runtime_dict's keys are unique and already in ascending order |
| `Plot.SweepLabels` | tools/plot.py:162-166 | whichever key random.choice picks, the columns are "1 Process" ... "8 Processes" |
| `Plot.SweepLengthLabels` | tools/plot.py:161 | the sweep's lengths are labelled 2^9, 2^11, 2^13, 2^15 |
| `Plot.DecimalOfExponent` | tools/plot.py:362-363 | the spelling of the sweep's exponents |
| `Plot.SweepRowLabels` | tools/plot.py:160-161 | the sweep's row labels |
| `Plot.SweepCells` | tools/plot.py:164-167 | cell (j, q) is the chosen component of the run on the j-th length with the q-th process count |
| `Plot.SweepTableCells` | tools/plot.py:164-167 | the table of runtime_dict has exactly those cells |
| `Plot.TabulateSweep` | tools/plot.py:148-282 | both tables of the sweep in full: grid order of rows with exponent labels, the sweep's measurements, and the four process labels |
| `Plot.MainPieAsWritten` | tools/plot.py:397-400 | as written: a pie path without a proper extension raises KeyError('pie') |
| `Plot.MainPieAsWrittenRaisesKeyError` | tools/plot.py:397-400 | "pie" raises KeyError, not the ValueError naming the path |
| `Plot.MainPie` | tools/plot.py:397-402 | as intended: ValueError naming the path exactly when the extension is empty or a lone dot |
| `Plot.MainPieNamesKeepExtension` | tools/plot.py:397-402 | the two chart names keep the pie path's extension, with "0" or "1" before it |

## Left out

- MovingAverageCalc: requires every node of the window to hold a value. moving_average_calc adds `*current` for every node it walks, and a node that no moving_average_push has reached still has the NULL payload ring_init gave it. Dereferencing that payload is undefined behaviour, which the model does not describe.
- Scan and SkipSpace: C `char` bytes are modelled as Dafny characters. strtol only tests ASCII white space, signs and digits, so no byte value is treated differently.
- Allocation failure (`malloc`, `strdup` or a ring hook returning NULL) is not modelled: every allocation succeeds. The -1 returns on those paths are absent.
- The errno of a failing `clock_gettime` is one of the modelled Errno values. Other codes are not told apart.
- Floating-point rounding is not modelled:
  - `double` sums and divisions in `stats.c`;
  - the seconds conversion in `timing_stop`;
  - speedups, and "{0:f}" formatting in `tools/plot.py`.
  All of these are real numbers.
- `time_t` and `long` overflow in `timing_stop`'s subtraction, and the `size_t` wrap of a list's size, are not modelled. The integers are unbounded there.
- `getopt_long` is not modelled: its results are an input sequence. `usage_show`'s printing, `exit` and `get_nprocs` become the UsageExit outcome with its message.
- `main` of `src/psrs.c` and `src/main.c` are not part of this model. Nor are `sort_launch`, `parallel_sort` and `generator.c`.
- ArrayMerge requires `output` to be distinct from `left` and `right`. The C routine is not meant for aliased arrays.
- The merge's tie rule (right element first) cannot be observed for `long`s. It matters only for identity, which the model does not keep.
- In `tools/plot.py`, matplotlib, `runtime_plot`, `phase_pie_plot`, subprocess launching and `struct.unpack` are not modelled. The runs become the `measure` oracle.
- `random.choice` is an index `pick` into the dict's keys.
- The `isinstance` TypeError checks are left out: the model's types are static.
- argparse and the `all(...)` gate of `main` are left out. MainPie models only the pie-path step.
- Plot.ExponentError: does not model `math.log2` rounding. From about 2^49 on, a length that is not a power of two can have a logarithm that rounds to an integer (`math.log2(2**49 + 1)` is 49.0), so Python accepts it where the model raises ValueError; `float()` of a huge length raises OverflowError.
- Plot.Tabulate: rows that hold different numbers of pairs are tabulated as they are. The ragged-table behaviour of matplotlib is not modelled.
- RingDestroy and ListDestroy: require `*self` to be non-NULL. ring_destroy and list_destroy check only `self` and then dereference `*self`, so a NULL `*self` is undefined behaviour, which the model does not describe.
- RingAdd: stores the whole payload as one value and checks `size` only for 0. ring_add copies only `size` bytes of `data` with memcpy, so a short or over-long `size` is not modelled.
- ring_node_fill_'s own NULL and hook checks are not modelled, because ring_add and the ring's construction already rule those cases out.
- The docstring of `speedup_plot` says lengths run from 2^21 to 2^27. The code uses `range(9, 16, 2)`, that is 2^9 to 2^15, and the model follows the code.

## Findings

| source | as written | input that shows it | evidently intended | confidence | as-written member | corrected member |
|---|---|---|---|---|---|---|
| src/psrs.c:71-80 | `strdup(argv[0])` runs before the guard that rejects argc == 0 and a NULL argv | argc == 0 (argv[0] is then NULL) or argv == NULL | the EINVAL guard runs first | medium, not executed | `Psrs.EntryAsWrittenMissesGuard` | `Psrs.ArgumentParse` |
| tools/plot.py:397-400 | `"'{pie}' must have a proper extension".format(args.pie)` names a field `pie` but passes the path positionally | `--pie pie` (no extension) | ValueError with the message naming the path | high, not executed | `Plot.MainPieAsWrittenRaisesKeyError` | `Plot.MainPie` |
