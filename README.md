# multithread_queues in Dafny

A model of the sequential core of a benchmark suite for multi-threaded FIFO queues.
It has five parts:

- **Lock-based queue** (`src/conc.c`). This is `LockQueue`. A singly linked list with a dummy head node and one node free list per thread. `enq`, `enq_stats`, `deq` and `deq_stats` each run entirely under one lock, so each is modelled as one atomic step of a class. `len` and `init` take no lock; `LockQueue.Queue.Len` and the constructor are modelled on a queue with no concurrent caller. The C heap is a `map` from addresses to nodes. Ghost fields hold the abstract contents, the address of every node on the list (`spine`), each free list's addresses, and which list owns each node.
- **Stamped pointers** (`src/cas.c`). This is `StampedQueue`. A 16-bit ABA stamp and a 48-bit node address packed into one `bv64` word. Also the initial state and the `len` walk of a quiescent queue.
- **Statistics and return codes** (`src/queue.h`). This is `QueueStats`: the per-thread counter record, `comb_stats` and `q_error`.
- **Benchmark-log analysis** (`plot.py`). `LogNames` covers log-file name decoding and the collection of distinct parameters. `RunStats` covers the per-file aggregation of `Stats.file` over a given sequence of lines. The derived metrics and the ordering of runs are in `RunStats` too.
- **Command-line handling** (`src/bench.c`). This is `BenchOptions`: the `getopt` loop, the `-e`/`-d` range parsing (`atoi`, `sscanf("%d,%d")`), the flag rules and the exact-count `strtok` loops over `-E`/`-D`. It also covers the random batch-size formula, the choice between the fixed and random worker, and the repetition loop.

Shared modules hold string helpers (`Text`) and a generic insertion sort (`Sorting`). The sort is proved sorted and a permutation. `Wrappers` has `Option` and `Result`.

Python exceptions become `Result` errors: `IndexError`, `ValueError` and `ZeroDivisionError`, plus one variant for each of the three "Something is off" checks in `Stats.file`. Python's `float` averages are modelled as `real`.

## Model

| member | source | states |
|---|---|---|
| QueueStats.CombStats | src/queue.h:32-49 | The loop's result equals the specification `Combined` of the first `len` entries. The array is not modified. |
| QueueStats.Peak | src/queue.h:33-43 | The peak is at least 0, at least every entry's `freelist_max`, and either 0 or equal to some entry's value. |
| QueueStats.SumAppend | src/queue.h:34-46 | A counter's sum over a concatenation is the sum of the two parts' sums. |
| QueueStats.CombineOne | src/queue.h:32-49 | Combining one record gives that record, with `freelist_len` reset to 0 and `freelist_max` floored at 0. |
| QueueStats.MeanDurationBounds | src/queue.h:35-47 | The combined duration is the mean: it lies between any lower and upper bound of the entries' durations. |
| QueueStats.SumBounds | src/queue.h:35 | The duration sum lies between `len` times a lower bound and `len` times an upper bound of the durations. |
| QueueStats.QError | src/queue.h:66-78 | Each of "Successful", "Queue empty" and "Out of memory" is returned exactly for codes 0, 1 and 2. "Unknown" is returned exactly for every other code. |
| LockQueue.Queue.constructor | src/conc.c:28-42 | After init, head and tail are the dummy and its next is NULL. Every free-list slot is NULL. The contents are empty and the invariant holds. |
| LockQueue.Queue.Enq | src/conc.c:45-65 | With no free node and no memory, returns QUEUE_NOMEM and changes nothing. Otherwise returns QUEUE_OK and the contents become old contents + [v]. The new tail holds v with next NULL. The node is the head of the caller's free list, which loses exactly that node, or else a fresh allocation. Other threads' free lists are unchanged. |
| LockQueue.Queue.Append | src/conc.c:49-64 | A reused node leaves the front of the caller's free list, and the others are untouched. The node then holds v with next NULL and is linked as the new tail, and the contents become old contents + [v]. |
| LockQueue.Queue.EnqStats | src/conc.c:68-89 | As `Enq`: with no free node and no memory it returns QUEUE_NOMEM and changes nothing. Otherwise the contents become old contents + [v], the new tail holds v with next NULL, the node is the head of the caller's free list or else the fresh allocation, and only the caller's free list changes. `freelist_len` drops by one exactly when a node is reused. The gap between the free list's real length and `freelist_len` is kept. |
| LockQueue.Queue.Deq | src/conc.c:92-109 | Returns QUEUE_EMPTY iff the queue is empty, and then leaves `*v`, the queue and the free lists unchanged. Otherwise `*v` is the first element and the contents lose it. The old dummy is pushed onto the front of the caller's free list, and no other free list changes. |
| LockQueue.Queue.Unlink | src/conc.c:103-108 | On a non-empty queue `*v` is the first element and the contents lose it. The old dummy heads the caller's free list, and no other free list changes. |
| LockQueue.Queue.DeqStats | src/conc.c:112-134 | As `Deq`: QUEUE_EMPTY iff the queue is empty, and then nothing changes. Otherwise `*v` is the first element, the contents lose it, the old dummy heads the caller's free list and no other free list changes. On success `freelist_len` and `freelist_insert` rise by exactly 1 and `freelist_max` becomes their maximum, so `freelist_max >= freelist_len` is kept. Nothing changes on the empty path. |
| LockQueue.Queue.Len | src/conc.c:137-146 | The walk's count is the abstract length of the queue. |
| LockQueue.EnqInv | src/conc.c:49-64 | Enqueueing a reused or fresh node keeps the queue and free-list invariant, with the contents extended by v. |
| LockQueue.DeqInv | src/conc.c:103-108 | Dequeueing keeps the invariant. The second spine node becomes the dummy and the old dummy heads the caller's free list. |
| LockQueue.EnqueueRange | src/test.c:21-28 | Enqueueing 0..n-1 into an empty queue leaves the contents exactly 0..n-1, and every `enq` returns QUEUE_OK. |
| LockQueue.DequeueAll | src/test.c:38-49 | Dequeueing n times from a queue holding 0..n-1 yields 0..n-1 in order, every `deq` returns QUEUE_OK, and the queue is left empty. |
| LockQueue.DequeueEmpty | src/test.c:59-66 | Every dequeue on an empty queue returns QUEUE_EMPTY. |
| LockQueue.SequentialTest | src/test.c:21-66 | The FIFO test, on a queue with any number of free lists: every enqueue returns QUEUE_OK, length n after n enqueues, every dequeue returns QUEUE_OK, then 0..n-1 back in order, length 0, then QUEUE_EMPTY on every further dequeue. |
| StampedQueue.Stamp | src/cas.c:22-29 | The packed word's stamp, read by `get_stamp` from its top 16 bits, is `s`. Its node is the address cut to 48 bits. |
| StampedQueue.GetNode | src/cas.c:32-34 | The node always has its top 16 bits clear. |
| StampedQueue.NodeRoundTrip | src/cas.c:22-24 | `get_node(stamp(n, s)) == n` whenever n fits in 48 bits: the stamp never leaks into the address. |
| StampedQueue.PackUnpack | src/cas.c:22-34 | Every word is recovered from its node and stamp. |
| StampedQueue.StampOnlyTopBits | src/cas.c:27-29 | Words that agree in their top 16 bits have the same stamp. |
| StampedQueue.NullSentinel | src/cas.c:57 | `stamp(NULL, 0)` is the zero word, whose node and stamp are both 0. |
| StampedQueue.NextStamp | src/cas.c:91-92 | The stamp after 0xFFFF is 0 (truncation to `stamp_t`). Below that it increases. |
| StampedQueue.NextStampExact | src/cas.c:91-92 | Below 0xFFFF the next stamp is exactly one more, as an integer. |
| StampedQueue.Queue.constructor | src/cas.c:52-68 | After init every free list holds `stamp(NULL, 0)`. Head and tail are the dummy with stamp 0, and the dummy's next is the null word. |
| StampedQueue.Queue.Len | src/cas.c:191-200 | The walk counts the nodes after the dummy. |
| LogNames.ParseInt | plot.py:29 | Python `int()`: failure is a ValueError, and success needs a non-blank argument. |
| LogNames.ParseIntShow | plot.py:29 | `int()` reads back every decimal numeral. |
| LogNames.ParseIntShowNeg | plot.py:29 | `int()` reads back every negative numeral, a minus sign followed by digits. |
| LogNames.ParseIntRejects | plot.py:29 | A character that is not whitespace, a digit or a sign makes `int()` raise ValueError. |
| LogNames.Field | plot.py:24 | Indexing a field list succeeds iff the index is in range, giving that field. Otherwise it is an IndexError. |
| LogNames.DecodeConcName | plot.py:23-44 | For a concurrent log name, program, threads, duration, batch and the pattern cut at the first `.` all decode to the values the name was built from. |
| LogNames.DecodeSeqName | plot.py:23-44 | For a `seq` name, duration and batch sit one field earlier, the batch is cut at `.`, threads is 1 and the pattern is empty. |
| LogNames.SeqIgnoresRest | plot.py:26-28 | For program `seq`, threads is 1 and the pattern is empty, whatever the rest of the name is. |
| LogNames.ConcBatchNotCut | plot.py:39 | A concurrent name whose batch field carries a `.` suffix fails with ValueError: that batch is not cut. |
| LogNames.ConcBatchField | plot.py:36-39 | For a concurrent name of five fields or more, with or without the pattern field, the batch is its fifth field with the marker dropped, read by `int()`. |
| LogNames.SortStrings | plot.py:67-70 | Sorting a duplicate-free list of strings gives a permutation that is strictly ascending. |
| LogNames.SortInts | plot.py:68-71 | Sorting a duplicate-free list of integers gives a permutation that is strictly ascending. |
| LogNames.AllOk | plot.py:51-66 | A sequence of decodings succeeds iff each one does, giving their values in order. A failure is the error of one of them. |
| LogNames.Collect | plot.py:46-71 | Any name that fails to decode makes the collection fail with that error. Otherwise the five lists hold exactly the distinct patterns (without `''`), batches, durations, programs (without `seq`) and thread counts, each strictly ascending. |
| Text.Split | plot.py:24 | `str.split(sep)`: at least one piece, no piece contains the separator, and joining the pieces gives the input back. |
| Text.SplitAt | plot.py:24 | A separator cuts the string in two: the pieces before it, then the pieces after it. |
| Text.SplitJoin | plot.py:24 | Splitting a join of separator-free pieces gives the pieces back. |
| Text.Words | plot.py:118 | `str.split()`: every word is non-empty and free of whitespace. There are no words iff the string is all whitespace. |
| Text.WordsAt | plot.py:118 | A whitespace character separates the words before it from those after it. So leading, trailing and repeated whitespace give no empty words. |
| Text.WordsJoin | plot.py:127 | Splitting a space-join of words gives the words back. |
| Text.Strip | plot.py:138 | `str.strip()`: the result starts and ends with non-whitespace, and keeps every non-whitespace character. |
| Text.StripSlice | plot.py:138 | The result is a contiguous slice of the input with only whitespace before and after it. |
| Text.LexLessTotal | plot.py:67 | String order is total: of two distinct strings, one is less. |
| Sorting.Sort | plot.py:67-71 | The result is sorted and a permutation of the input. |
| RunStats.RawCountsList | plot.py:126-127 | A line with numbers between brackets yields exactly those numbers. |
| RunStats.BracketInner | plot.py:126-127 | A line with one pair of brackets yields the parse of the words between them. |
| RunStats.RawCountsScalar | plot.py:128-129 | A line without brackets yields a one-element list of its last word. |
| RunStats.ParseFloat | plot.py:141 | `float()` fails only with ValueError. |
| RunStats.ParseFloatDecimal | plot.py:141 | `float()` reads a decimal `whole.frac` as its real value. |
| RunStats.Markers | plot.py:137-140 | The block positions are exactly the lines equal to `Summary STATS:` after stripping, in increasing order. |
| RunStats.ParseBlock | plot.py:141-149 | A marker on the last line gives an IndexError. A block is read only when all nine lines after its marker exist. |
| RunStats.PrintedWords | src/queue.h:53-62 | A line printed as a leading space and single-space-separated words splits back into exactly those words. |
| RunStats.CounterLineShow | src/queue.h:55-62 | The last word of a counter line ` <name>: <n>` reads back as `n`. |
| RunStats.DurationLineShow | src/queue.h:54 | The second word of ` duration: <whole>.<frac> sec` reads back as the decimal's value. |
| RunStats.ParseBlockShow | src/queue.h:52-63 | The nine lines `print_stats` writes after a marker read back as the printed block: the duration and the eight counters, each from its own line, in the order printed. |
| RunStats.ParseBlockLocal | plot.py:141-149 | A block depends only on the nine lines after its marker: logs that agree there give the same block or the same error. |
| RunStats.BlockResultsStep | plot.py:137-149 | Each further line adds one block parse, at that line, exactly when it is a marker. |
| RunStats.TotalsMax | plot.py:147 | The running `freelist_max` is at least 0, at least every block's, and either 0 or some block's. |
| RunStats.TotalsAppend | plot.py:141-149 | The totals over a concatenation of blocks are the combination of the two parts' totals. |
| RunStats.SumBlocks | plot.py:136-149 | The loop over the lines after the header counts the markers and adds up the blocks after them; the first block that cannot be read is its error. This is what `AllOk` of the block results and `Totals` describe. |
| RunStats.File | plot.py:107-162 | Reading the header and then the blocks computes exactly the declarative `FileSpec` of the log. |
| RunStats.ThreadsMismatchRaises | plot.py:118-120 | A header thread count that differs from the name's raises the threads mismatch. |
| RunStats.DurationMismatchRaises | plot.py:121-123 | With threads matching, a header duration that differs from the name's raises the duration mismatch. |
| RunStats.RepetitionsMismatchRaises | plot.py:151-152 | A block count that differs from the declared repetitions raises the repetitions mismatch. |
| RunStats.HeaderOk | plot.py:118-134 | An accepted header agrees with the name on threads and duration. It also holds the repetitions and the parsed enqueue and dequeue lists. |
| RunStats.AverageOk | plot.py:151-161 | An accepted average has repetitions == block count > 0. Every counter except `freelist_max` times the count is the block total. `freelist_max` is not divided. |
| RunStats.FileOk | plot.py:107-162 | An accepted log matches its name. It has one block per repetition and at least one. Its `freelist_max` is the largest block maximum (or 0), and it is the average of the block totals. |
| RunStats.SortRuns | plot.py:104-105 | Sorting runs with `__lt__` gives a permutation ordered by thread count. |
| RunStats.Throughput | plot.py:92-94 | Defined iff the duration is non-zero. Then throughput times duration is the successful operations. |
| RunStats.ThroughputAll | plot.py:96-98 | Defined iff the duration is non-zero. Then it times the duration is all operations. |
| RunStats.CasSuccRate | plot.py:100-102 | Defined iff there was a CAS attempt. Then it times the attempts is the successes. |
| RunStats.CasSuccRateBounds | plot.py:100-102 | For non-negative counts the success rate lies in [0, 1]. |
| BenchOptions.ScanInt | src/bench.c:227 | A successful `%d` consumes at least one character. |
| BenchOptions.ScanIntShow | src/bench.c:227 | `%d` reads a decimal numeral and stops at the first non-digit. |
| BenchOptions.ScanIntShowNeg | src/bench.c:227 | `%d` reads a minus sign and digits as the negative number and stops at the first non-digit. |
| BenchOptions.AtoiShow | src/bench.c:218-220 | `atoi` reads back every decimal numeral. |
| BenchOptions.AtoiShowNeg | src/bench.c:218-220 | `atoi` reads back every negative numeral. |
| BenchOptions.ScanPairShow | src/bench.c:227 | `sscanf("%d,%d")` on `a,b` sets both ends. |
| BenchOptions.RangeShow | src/bench.c:225-227 | `-e a,b` or `-d a,b` sets the range to (a, b), whatever it was before. |
| BenchOptions.ScanPair | src/bench.c:227 | When no number starts the argument, neither end is assigned. Otherwise the first end is that number. The second end is the number after a comma that directly follows the first, and is left as it was when there is no such comma or number. |
| BenchOptions.Range | src/bench.c:225-230 | Without a comma both ends are `atoi` of the argument. |
| BenchOptions.ParseOptions | src/bench.c:200-247 | The `getopt` loop yields exactly the defaults with each option applied in order. |
| BenchOptions.LastRangeWins | src/bench.c:223-232 | After a final `-e a,b` the flag is set and the range is (a, b), whatever came before. |
| BenchOptions.RangePartial | src/bench.c:227 | `,5` assigns nothing. `a,` assigns only the lower end. |
| BenchOptions.Tokens | src/bench.c:298-301 | `strtok` tokens are non-empty and contain no comma. |
| BenchOptions.TokensAt | src/bench.c:298-301 | A comma separates the tokens before it from those after it, in order. So leading, trailing and repeated commas give no empty tokens. |
| BenchOptions.TokensJoin | src/bench.c:298-301 | The tokens of a comma-join of non-empty comma-free pieces are those pieces. |
| BenchOptions.ParseBatchList | src/bench.c:297-321 | The count check passes iff there are exactly `threads` tokens. Then the array holds `atoi` of each token. |
| BenchOptions.BatchListShow | src/bench.c:297-308 | A comma-separated list of numerals reads back as those numbers. |
| BenchOptions.ChooseWorker | src/bench.c:70-76 | The fixed worker is chosen iff `eb_min == eb_max` and `db_min == db_max`, with those batch sizes. |
| BenchOptions.CRem | src/bench.c:38 | C's truncating `%`: the remainder has the dividend's sign and is smaller in size than the divisor, and `(a / b) * b + a % b == a` with C's truncating `/`. |
| BenchOptions.ChooseBatchInRange | src/bench.c:38-46 | For `min <= max` and a non-negative random value, the batch lies in [min, max]. |
| BenchOptions.ChooseBatchSingle | src/bench.c:38-46 | A single-value range always yields that value. |
| BenchOptions.Prepare | src/bench.c:249-321 | The rules, the correctness branch and the list reading yield exactly `PlanOf` of the options. |
| BenchOptions.HelpRules | src/bench.c:249-272 | Exactly one of `-E`/`-D` leads to help. So does `-E` with `-e`/`-d`, and so does an inverted range without `-E`. Help is reached only through these rules, `-h` or an unrecognised option. |
| BenchOptions.PlanBatches | src/bench.c:285-321 | A random equal run picks batches inside its ranges. An unequal run has exactly `threads` batches of each kind. |
| BenchOptions.Repeat | src/bench.c:350-358 | The loop runs at most `repetition` times and stops at the first non-zero code, which it returns. It runs all repetitions when every code is 0. |

Functions without a contract of their own are the specifications that the rows above are stated against:

- `LogNames.GetProgram`, `GetThreads`, `GetDuration`, `GetBatch`, `GetPattern` and `Decode` (plot.py:23-44): `DecodeConcName`, `DecodeSeqName`, `SeqIgnoresRest`, `ConcBatchField` and `ConcBatchNotCut`.
- `RunStats.LastInt` and `RawCounts` (plot.py:118-134): `RawCountsList`, `BracketInner` and `RawCountsScalar`. `ReadHeader`: `HeaderOk`, `ThreadsMismatchRaises` and `DurationMismatchRaises`. `Average`: `AverageOk` and `RepetitionsMismatchRaises`. `FileSpec`: `File` and `FileOk`.
- `BenchOptions.Atoi` (src/bench.c:218-229): `AtoiShow` and `Range`. `ApplyOpt` and `ApplyAll`: `ParseOptions`, `LastRangeWins` and `RangePartial`. `NeedsHelp` and `PlanOf`: `Prepare`, `HelpRules` and `PlanBatches`. `ChooseBatch`: `ChooseBatchInRange` and `ChooseBatchSingle`.
- `QueueStats.Combined` (src/queue.h:32-49): `CombStats`, `CombineOne`, `MeanDurationBounds` and `Peak`.

## Left out

- Concurrency: OpenMP parallel regions and the queue's mutex are not modelled. Each locked `conc.c` operation (`enq`, `enq_stats`, `deq`, `deq_stats`) is one atomic step, and the calling thread's number is the parameter `id`. `len` and `init` lock nothing (src/conc.c:28-42 and 137-146); a `len` racing with an `enq` or `deq` is not modelled.
- The `cas.c` `enq`, `enq_stats`, `deq` and `deq_stats` compare-and-swap retry loops: their point is lock-free concurrency. Only the packing, `init` and `len` of a quiescent queue are modelled.
- `create`, `destroy` and `mallopt`. The failure of `malloc`/`calloc` inside `init` is not modelled either: the freelists array and the dummy always exist, and the dummy's never-set value is 0.
- LockQueue.Queue.Enq, Deq, EnqStats and DeqStats require `id < freelists.Length`. The source does not guarantee it: `init` sizes the free-list array by `omp_get_max_threads()` (src/conc.c:29-30), while the experiments run `-n` threads (src/bench.c:71-75 and 106-109). With `-n` above that count a thread indexes past the array. That out-of-bounds access is not modelled.
- LockQueue.Queue.Enq: the result of `malloc` is the parameter `alloc`, with the null address meaning out of memory. Which address the allocator picks is not modelled.
- QueueStats.CombStats: requires `len > 0`. With `len == 0` the C code divides 0.0 by 0 and yields NaN, which has no counterpart among reals.
- Integer width: `long` counters, `int` option values and the `eb_max - eb_min + 1` of `worker_rand` are unbounded integers. C overflow is not modelled.
- Floating point: durations and averages are `real`, so rounding is not modelled. `float()` in `RunStats.ParseFloat` accepts signs, digits and one decimal point; exponents, `inf`, `nan` and underscores are not accepted. `int()` does not accept underscores.
- LogNames.ParseInt and RunStats.ParseFloat accept ASCII digits only. Python's `int()` and `float()` also accept other Unicode decimal digits, such as Arabic-Indic ones.
- BenchOptions.ParseOptions: the scanning of `argv` by `getopt` itself is not modelled. That covers permuting non-options, `--` and grouped flags. The options arrive as a given sequence of flag and argument pairs, with an unknown flag or a missing argument already turned into `'?'`.
- Whitespace is ASCII only: Python's `str.split()`/`str.strip()` also treat some non-ASCII characters as whitespace.
- The workers (`worker_fixed`, `worker_rand`), `experiment_equal`, `experiment_unequal` and `check_correctness`: they are wall-clock loops over `omp_get_wtime` and `rand_r`. The random value is a parameter of `ChooseBatch`, and the experiments' return codes are a given sequence in `Repeat`.
- Output: every `printf`/`print`, the usage text and all plotting in `plot.py`. The exception is the block `print_stats` writes (`RunStats.StatsLines`), which is modelled so that reading it back can be stated. `%f` writes six fraction digits; `ParseBlockShow` allows any number of them.
- StampedQueue.Queue.constructor: requires the dummy's address to fit in the low 48 bits (`dummy <= PointerMask`). The source assumes, without checking, that every node address fits beside the 16-bit stamp in a 64-bit word (src/cas.c:10-26). An address above that would lose its top bits when packed; this is not modelled.
- Input: `listdir`, `open` and `readline`. A log is a given sequence of lines without their line breaks, and the names come from a given list.
- BenchOptions.Prepare: a negative `-n` is taken as a failure of `malloc`. A zero-byte `malloc` is taken to succeed.
- RunStats.ThreadsMismatchRaises: the three "Something is off" checks raise Python `ValueError`s. They are distinct `Error` variants here so their causes stay visible.
- LogNames.Collect: each name is decoded completely before its fields are added. In Python a decoding error part-way through a name also aborts the script, so the outcome is the same.
- The loop over batches and durations in `plot.py` that selects logs for plotting (lines 165-186) is not modelled. Its `stats_pattern.sort()` is modelled by `RunStats.SortRuns`.
- RunStats.SortRuns: does not state that the sort is stable. Python's `list.sort` keeps runs with equal thread counts in their original order. The model's insertion sort places an element after every element it is not less than, but stability is not proved.
