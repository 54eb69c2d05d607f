# System monitor sampling core, in Dafny

`pcmonitor.py` is a Tk desktop widget, `ModernSystemMonitor`, that samples CPU, GPU, memory, disk and network usage once per second and draws them as an always-on-top overlay with a 60-point chart. This project models the sampling and normalisation core of that widget and proves properties of it. The core has these parts:

- the three chart histories (cpu, gpu, mem): deques of 60 values that start as zeros and gain one value per tick;
- the GPU provider choice (`check_gpu_availability`), made at start-up and again on `restart_monitor`;
- the dispatch on that choice (`get_gpu_info`);
- the nvidia-smi readings (`get_gpu_info_nvidia`, `get_gpu_process_count`);
- the process-name heuristic used when no vendor tool answers (`get_gpu_info_fallback`);
- the random placeholder readings of the AMD and Intel paths;
- the network step of a tick, which diffs the cumulative byte counters and then stores the new ones;
- `format_bytes`, which picks the unit a byte count is shown in.

Every `subprocess.run` and `psutil` call is an input to the model:

- a probe is `Raised` or `Exited(returnCode, stdout)`;
- a process scan is a list of records, or `None` when the scan raised;
- memory and network figures are numbers;
- each `random.randint` draw is an arbitrary value within its stated range.

Python's numbers are exact `real`s and `nat`s here.

Files:

- `wrappers.dfy`: `Option`.
- `pystr.dfy`: the Python string built-ins the core relies on. These are `strip()`, `split(sep)`, `sep.join`, `in` on strings, `lower()` and `float()`, together with their laws. The laws include `Join(Split(s)) == s`, the recovery of printed fields, and the fact that `float()` accepts only numeric characters.
- `gpu.dfy`: the provider tags, the nvidia-smi parse and PID count, the heuristic (as a function and as the source's loop) and the dispatch.
- `history.dfy`: the bounded deque append and the shape of a history after any number of ticks.
- `units.dfy`: `format_bytes` as the source's loop, proved against a first-fit specification.
- `monitor.dfy`: the `ModernSystemMonitor` class with the fields a tick changes: the construction, `restart_monitor`, and the state-changing part of `update_display`.

The model follows the code wherever the code differs from what a reader might expect of such a widget:

- network rates are not clamped, so a counter that went back shows a negative rate;
- rates are per tick, with no measured elapsed time;
- nvidia-smi figures are not clamped;
- the heuristic usage is capped at 100 from above only;
- a failing step abandons the rest of the tick rather than only its own field. The one exception is the disk step, whose own handler confines a failure to the disk labels (pcmonitor.py:588-602).

The model also shows one consequence of how the nvidia-smi output is split. On a host with two GPUs, nvidia-smi prints two lines. Splitting only on ", " glues the first GPU's temperature to the second GPU's utilisation with a line break. `float()` rejects that field, so such a host always gets the heuristic reading (`Gpu.NvidiaTwoGpuListingFails`).

## Model

| member | source | states |
|---|---|---|
| Gpu.CheckGpuAvailability | pcmonitor.py:54-86 | `check_gpu_availability`: nvidia if the nvidia-smi probe exits 0; otherwise amd or intel from a wmic listing that exits 0 and names the vendor, AMD first; otherwise fallback. Its meaning is stated by `Gpu.ResolutionPriority` |
| Gpu.ResolutionPriority | pcmonitor.py:54-86 | each of the four tags is chosen exactly under its own condition: nvidia when the nvidia-smi probe exits 0, whatever wmic says; otherwise amd when wmic exits 0 and prints "AMD"; otherwise intel when it prints "Intel"; fallback in every other case (raised, non-zero exit, neither name) |
| Gpu.AmdBeforeIntel | pcmonitor.py:76-81 | a wmic listing naming both vendors, at any positions, resolves to amd |
| PyStr.ContainsIffOccurs | pcmonitor.py:76 | `p in s` holds exactly when `p` occurs in `s` at some index |
| PyStr.Contains | pcmonitor.py:76-79 | Python's `p in s` on strings, characterised by `PyStr.ContainsIffOccurs` |
| Gpu.GpuProcessCount | pcmonitor.py:197-212 | `get_gpu_process_count`: the number of non-empty lines of the stripped output of a query that exits 0, and 0 for a raised or non-zero query. Its meaning is stated by `Gpu.PidListingCount` and `Gpu.BlankPidListingCountsNothing` |
| Gpu.CountNonEmpty | pcmonitor.py:207-208 | the PID count is at most the number of lines |
| Gpu.CountNonEmptyAll | pcmonitor.py:207-208 | when no line is empty, every line is counted |
| Gpu.PidLinesSplit | pcmonitor.py:207 | PIDs printed one per line with a final line break split back into exactly those PIDs after `strip()` |
| Gpu.PidListingCount | pcmonitor.py:197-212 | a successful PID listing of n PIDs, one per line, counts n |
| Gpu.BlankPidListingCountsNothing | pcmonitor.py:206-212 | a raised or non-zero query, or output that is only white space, counts 0 |
| Gpu.ParseNvidiaOutput | pcmonitor.py:98-105 | the parse of nvidia-smi's output: strip, split at ", ", at least four fields, `float()` of the first four; `None` when any step fails. Characterised by `Gpu.NvidiaParseFailure` and `Gpu.ParseNvidiaLine` |
| Gpu.NvidiaReading | pcmonitor.py:88-111 | `get_gpu_info_nvidia`: the parsed figures, memory in MiB times 1024·1024, and the PID count when the query exits 0 and parses; the fallback reading otherwise. Stated by `Gpu.NvidiaReadsListing` and `Gpu.NvidiaFallsBackOnFailure` |
| Gpu.ParseNvidiaLine | pcmonitor.py:98-105 | the line nvidia-smi prints for one GPU (four numbers joined by ", " and a line break) parses to exactly those four numbers |
| Gpu.NvidiaReadsListing | pcmonitor.py:98-107 | from such a line the reading has usage from field 0, memory used and total from fields 1 and 2 times 1024·1024, temperature from field 3, and the PID count |
| Gpu.NvidiaDoesNotClamp | pcmonitor.py:101-105 | nvidia-smi figures are taken as printed: usage 150 stays 150, and memory used above memory total is kept |
| Gpu.NvidiaParseFailure | pcmonitor.py:99-105 | the parse fails exactly when there are fewer than four ", "-separated fields or one of the first four is rejected by `float()` |
| Gpu.NvidiaRejectsNonNumericField | pcmonitor.py:102-108 | a first-four field holding any character other than digits, '.', signs or white space (for example "[N/A]") makes the parse fail |
| Gpu.NvidiaTwoGpuListingFails | pcmonitor.py:92-105 | the two-line output of a two-GPU host never parses |
| Gpu.NvidiaFallsBackOnFailure | pcmonitor.py:98-111 | a raised or non-zero query, or output that does not parse, gives the heuristic reading |
| Gpu.MatchedCount | pcmonitor.py:159-167 | the number of scanned processes whose lowered name contains a pattern; `Gpu.MatchedCountIsNumberOfMatches` says what it counts |
| Gpu.MatchedLoad | pcmonitor.py:159-169 | the sum of `cpu·0.3 + memory·2` (missing figures read as 0) over those processes; `Gpu.MatchedAppend` and `Gpu.MatchedLoadNonNegative` are about it |
| Gpu.HeuristicReading | pcmonitor.py:174-184 | the reading from a completed scan: usage `min(load, 100)`, memory `0.3·used` of `0.5·total`, temperature `40 + 0.4·usage`, and the match count. Bounded by `Gpu.HeuristicReadingBounds` |
| Gpu.FallbackReading | pcmonitor.py:144-195 | `get_gpu_info_fallback` as a function: the heuristic reading when the process scan and the memory query answer, the last-resort random reading (5..35 usage, 1..3 GiB of 6 GiB, 45..60 degrees, 2..6 processes) otherwise. `Gpu.GetGpuInfoFallback` is proved equal to it |
| Gpu.GetGpuInfoFallback | pcmonitor.py:144-195 | the source's single pass over the processes returns the heuristic reading (count and load of the matching processes, usage `min(load, 100)`, memory `0.3·used` of `0.5·total`, temperature `40 + 0.4·usage`), or the last-resort random reading when the scan or the memory query raised |
| Gpu.NamelessProcessNeverCounts | pcmonitor.py:161-166 | a process whose name is missing or empty is read as '' and matches no pattern |
| Gpu.MatchedCountIsNumberOfMatches | pcmonitor.py:159-167 | the process count is the number of scanned positions whose lowered name contains some pattern |
| Gpu.MatchPositionsSnoc | pcmonitor.py:159-167 | scanning one more process adds its position to the matches exactly when it matches |
| Gpu.MatchedAppend | pcmonitor.py:159-169 | count and load over two runs of the scan add up |
| Gpu.MatchedLoadNonNegative | pcmonitor.py:162-169 | with non-negative cpu and memory percentages (missing ones read as 0) the accumulated load is non-negative |
| Gpu.MatchedCountBound | pcmonitor.py:167 | at most one counted process per scanned process |
| Gpu.HeuristicReadingBounds | pcmonitor.py:175-183 | heuristic usage is at most 100 and temperature at most 80; with non-negative percentages usage is at least 0 and temperature at least 40; memory used stays within memory total whenever the host's used memory is within its total; process count is at most the processes scanned |
| Gpu.AmdReading | pcmonitor.py:113-127 | the AMD placeholder: usage 5..40, temperature 45..65, 2..4 GiB used of 8 GiB, 3..8 processes |
| Gpu.IntelReading | pcmonitor.py:129-142 | the Intel placeholder: usage 2..25, temperature 40..55, 1..2 GiB used of 4 GiB, 2..6 processes |
| Gpu.GetGpuInfo | pcmonitor.py:214-223 | `get_gpu_info`: the nvidia, amd or intel reading for those tags and the fallback reading for any other. `Gpu.OnlyNvidiaPathQueriesSmi` and `Gpu.ReadingBounds` are about it |
| Gpu.OnlyNvidiaPathQueriesSmi | pcmonitor.py:214-223 | for every tag but nvidia the reading does not depend on nvidia-smi's answers |
| Gpu.ReadingBounds | pcmonitor.py:214-223 | every path but nvidia reports usage at most 100 and memory used within memory total (for the heuristic, whenever the host's memory is consistent) |
| PyStr.Strip | pcmonitor.py:99 | `strip()`: `rstrip()` after `lstrip()`; `PyStr.StripIsTrimmedSlice` says what it keeps |
| PyStr.StripLeft | pcmonitor.py:99 | `lstrip()` keeps a suffix that does not start with white space and drops only white space |
| PyStr.StripRight | pcmonitor.py:99 | `rstrip()` keeps a prefix that does not end with white space and drops only white space |
| PyStr.StripTrailingSpace | pcmonitor.py:99 | text with no white space at its ends, followed by white space, strips to itself |
| PyStr.StripAllSpace | pcmonitor.py:207 | text made only of white space strips to '' |
| PyStr.StripUnchanged | pcmonitor.py:99 | text with no white space at either end is its own `strip()` |
| PyStr.StripIsTrimmedSlice | pcmonitor.py:99 | `strip()` keeps a slice of its input with only white space outside it |
| PyStr.Split | pcmonitor.py:99 | `split(sep)` gives at least one piece, the first a prefix of the text |
| PyStr.Join | pcmonitor.py:99 | `sep.join(parts)`, the inverse of `split(sep)` through which the round trips of the printed listings are stated |
| PyStr.JoinSplit | pcmonitor.py:99 | joining the pieces of `split(sep)` with `sep` gives back the text |
| PyStr.JoinGlue | pcmonitor.py:99 | gluing the last piece of one list to the first of another joins to the two joins |
| PyStr.SplitPiecesAreSeparatorFree | pcmonitor.py:99 | no piece of `split(sep)` contains `sep` |
| PyStr.SplitJoin | pcmonitor.py:99 | pieces that do not hold the separator's first character split back out of their join |
| PyStr.SplitStrippedJoin | pcmonitor.py:99 | such pieces, joined and printed with trailing white space, split back into the same pieces after `strip()` |
| PyStr.Lower | pcmonitor.py:161 | `lower()` on ASCII letters: the result has the text's length and each character lowered (ASCII letters only, see below) |
| PyStr.ParseFloat | pcmonitor.py:102-105 | `float()` on decimal text: any information separator (U+001C..U+001F) fails; otherwise surrounding white space is stripped and an optionally signed `digits[.digits]` number is read. `PyStr.ParseDecimal`, `PyStr.ParsedTextIsNumeric` and `PyStr.InfoSeparatorIsNotStripped` are about it |
| PyStr.InfoSeparatorIsNotStripped | pcmonitor.py:102 | a field `5` followed by U+001C is rejected by `float()`, although `strip()` would drop the separator |
| PyStr.DigitRun | pcmonitor.py:102-105 | the leading digit run of a text is all digits and stops at a non-digit or the end |
| PyStr.DigitRunStops | pcmonitor.py:105 | a digit run stops at the first character that is not a digit |
| PyStr.Fraction | pcmonitor.py:102-105 | the digits after a decimal point are worth at least 0 and less than 1 |
| PyStr.ParseDigits | pcmonitor.py:102-105 | `float()` of plain decimal digits is their value |
| PyStr.DecimalDigits | pcmonitor.py:102-105 | `str(n)` is non-empty decimal digits worth n |
| PyStr.ParseDecimal | pcmonitor.py:102-105 | `float(str(n)) == n` |
| PyStr.ParsedTextIsNumeric | pcmonitor.py:102-105 | text `float()` accepts holds only digits, points, signs and white space other than the information separators |
| PyStr.LineBreakIsNotANumber | pcmonitor.py:105 | digits, a line break and more digits are rejected by `float()` |
| History.Zeros | pcmonitor.py:46-48 | `[0] * n` has n zeros |
| History.Append | pcmonitor.py:618-620 | `deque.append` with `maxlen=60`: the value goes last, and the oldest value is dropped when the deque is full. `History.AppendKeepsSuffix` and `History.AppendLength` state it |
| History.AppendAll | pcmonitor.py:618-620 | a history never holds more than 60 values |
| History.AppendLength | pcmonitor.py:618-620 | an append grows a deque that is not full by one and keeps a full one at 60 |
| History.AppendKeepsSuffix | pcmonitor.py:618-620 | an append keeps the longest suffix of the old values plus the new one that fits, with the new value last |
| History.FullWindow | pcmonitor.py:618-620 | a full deque stays full and after any appends holds the last 60 of everything it held and was given |
| History.HistoryAfterTicks | pcmonitor.py:46-48 | from sixty zeros, after k ticks a history is the remaining 60-k zeros followed by the k values (k ≤ 60), or the last 60 values (k ≥ 60) |
| History.ThreeTicks | pcmonitor.py:618 | ticks of 10, 55 and 90 leave 57 zeros followed by 10, 55, 90 |
| Units.Scaled | pcmonitor.py:540 | the byte count after k in-place divisions by 1024; `Units.ScaledIsDivision` states it is one division by 1024^k |
| Units.FirstBelow | pcmonitor.py:537-540 | the first unit index from k on whose scaled value is below 1024, with every index before it at 1024 or more, or 4 when none is |
| Units.ChosenIndex | pcmonitor.py:536-541 | the chosen unit is one of the five |
| Units.FormatBytes | pcmonitor.py:536-541 | the source's loop reports the first of B, KB, MB, GB whose value is below 1024 (else TB) and the count divided that many times by 1024 |
| Units.ScaledIsDivision | pcmonitor.py:540 | k in-place divisions by 1024 are one division by 1024^k |
| Units.ChosenUnitIsFirstFit | pcmonitor.py:537-541 | any index that fits, with only misses before it, is the chosen one |
| Units.ValueRange | pcmonitor.py:536-541 | for a non-negative count the value shown is below 1024 unless the unit is TB, and at least 1 unless it is B |
| Units.ScaledMonotonic | pcmonitor.py:540 | scaling keeps the order of two counts |
| Units.ChosenIndexMonotonic | pcmonitor.py:536-541 | a larger count is never shown in a smaller unit |
| Monitor.NetRate | pcmonitor.py:608-609 | the rate is negative exactly when the counter went back and zero exactly when it stood still |
| Monitor.Rates | pcmonitor.py:605-615 | n counter samples give n-1 rates |
| Monitor.RatesTelescope | pcmonitor.py:605-615 | the rates shown over a run of ticks add up to the counter's total movement in KB |
| Monitor.ModernSystemMonitor.constructor | pcmonitor.py:35-38 | a new monitor has three histories of sixty zeros, the start-up counters and the resolved provider |
| Monitor.ModernSystemMonitor.SetupDataStructures | pcmonitor.py:44-52 | the histories become sixty zeros and the stored counters the current ones |
| Monitor.ModernSystemMonitor.RestartMonitor | pcmonitor.py:494-496 | only `gpu_available` changes, to a fresh resolution |
| Monitor.ModernSystemMonitor.UpdateNetwork | pcmonitor.py:605-615 | the rates are `(current - last)/1024` against the stored counters, which then equal the current ones |
| Monitor.ModernSystemMonitor.AppendHistory | pcmonitor.py:617-620 | one append to each of cpu, gpu and mem; each history stays at 60 values |
| Monitor.ModernSystemMonitor.UpdateDisplay | pcmonitor.py:543-626 | with a zero GPU memory total the tick is abandoned and nothing changes; otherwise the tick shows the provider's reading, its memory percentage and the two rates, stores the counters and appends cpu usage, GPU usage and memory percent to their histories; the provider is left as it was |

## Left out

- The Tk window: widgets, cards, labels, the chart drawing, dragging, minimising and the status text (pcmonitor.py:225-534, 554-575). The disk figures and CPU frequency are only shown, never stored.
- Threading and scheduling: `update_loop`, `root.after` and `time.sleep` (pcmonitor.py:41-42, 628-635).
- The `subprocess.run` and `psutil` calls themselves. They are inputs; a probe that times out or whose tool is missing is `Raised`.
- The random generator. Each `randint` draw is an input constrained to its range.
- Float rounding and text output: `%.1f`/`%.0f` formatting and every `print`. Arithmetic is exact.
- PyStr.ParseFloat: strips the white space of `str.isspace()` minus the four information separators, which `float()` rejects as the model does. It accepts only optionally signed decimal text (`12`, `-3.5`, `.5`, `7.`) with surrounding white space. Exponents, `inf`, `nan`, underscores and non-ASCII digits count as rejected, although Python's `float()` accepts them. nvidia-smi prints none of these with `nounits`.
- PyStr.Lower: lowers ASCII letters only and keeps the length. Python's `str.lower()` also lowers other letters, and some of them lower to ASCII letters: 'İ' (U+0130) becomes 'i' followed by U+0307, and the Kelvin sign becomes 'k'. A process named with such letters ("DAVINCİ") matches a pattern in Python but not in the model.
- Gpu.FallbackReading: `psutil.virtual_memory()` is called twice (pcmonitor.py:176, 181), and both calls are taken as one answer.
- Monitor.ModernSystemMonitor.UpdateDisplay: the `psutil` calls of a tick (cpu, memory, network counters) are taken as answering. A tick abandoned because one of them raised would, like the zero-memory-total case, leave the state unchanged; that case is not modelled.
- `format_bytes` is never called in pcmonitor.py. It is modelled on its own.
