# TP latency correlation and TP dataset preparation, in Dafny

This project models two offline-analysis scripts of the DUNE DAQ trigger
studies.

* `dune/daq_trigger_latencies.py` correlates TP sets received by the trigger
  with the TP data requests of the TP buffer. A TP set matches a request when
  its start time lies in the request's window, both bounds included. Each match
  yields a latency record: the TP's receive time, the request's time and their
  difference. For each request the inner scan over the TPs stops at the first
  TP that starts after the window. This is correct because `main` first sorts
  the TPs by start time. The script also reads numbers from log lines with
  `GetNumberFromLine`.
* `dune/generate_tp_dataset.py` turns a file of trigger primitives into a dataset
  for the replay app. It sorts the rows by start time when they fail the ordering
  check (non-decreasing, starting from 0, so a first start below 0 fails it) and
  takes the first `n`. It shifts start and peak times so that they
  are relative to the first start, keeps rows that begin within `num_seconds`,
  and writes each kept row as a line of eight integers.

Modules:

* `Wrappers` (`wrappers.dfy`): `Option`, used where the Python code raises.
* `Text` (`text.dfy`): the string built-ins used, on `seq<char>`. These are
  `str.find`, `str.replace(p, "")` (every non-overlapping occurrence, left to
  right), `str.split(" ")`, `int()` on a token and `str()` of an integer.
* `Sorting` (`sorting.dfy`): `list.sort(key=...)`, modelled as a stable
  insertion sort. It is proved ordered, a permutation, and stable.
* `TriggerLatencies` (`trigger_latencies.dfy`): the three records as datatypes,
  the window join as a method with nested loops and `break`, and `main`'s
  sort-then-join. It also holds `GetNumberFromLine`.
* `TPDataset` (`tp_dataset.dfy`): the ordering check as a loop, `read_data_file`,
  the row-count clamp, the shift, and the filter-and-format loop of
  `construct_dataset`.

The join has two reference functions. `AllMatches` is the brute-force filter
over every (request, TP) pair. `ScannedJoin` is the early-break scan exactly as
written, defined for any input. `GetTPLatencies` is proved equal to
`ScannedJoin` on every input. On TPs sorted by start time it is also proved
equal to `AllMatches`.

Latencies are kept as integer tick differences; the script divides by `1e9`.
The dataset's time filter `start * 16e-9 < num_seconds` is stated exactly as
`16 * start < num_seconds * 10^9`.

Each TP set and each request carries one real time. Each match yields one
latency, `request.m_real_time - tp.m_real_time`. The script performs only this
join.

## Model

| member | source | states |
|---|---|---|
| `TriggerLatencies.GetTPLatencies` | dune/daq_trigger_latencies.py:42-65 | the nested loops with early break return `ScannedJoin` on every input; on TPs sorted by start they return the brute-force join `AllMatches`; an empty TP or request list gives no records |
| `TriggerLatencies.SortAndCorrelate` | dune/daq_trigger_latencies.py:243-260 | `None` exactly when either list is empty (the last-element prints raise); otherwise the brute-force join of the TPs stably sorted by start and the requests stably sorted by window begin |
| `TriggerLatencies.FirstAbove` | dune/daq_trigger_latencies.py:62-64 | the index where the inner loop breaks: every earlier TP starts at or before the bound, the TP there starts after it |
| `TriggerLatencies.ScannedJoinOnSorted` | dune/daq_trigger_latencies.py:55-64 | on TPs sorted by start, the early-break scan equals the brute force over all pairs, in the same order, for any request order |
| `TriggerLatencies.ScannedMatchesOnSorted` | dune/daq_trigger_latencies.py:56-64 | on sorted TPs the break loses no match of a request |
| `TriggerLatencies.ScannedIsPrefix` | dune/daq_trigger_latencies.py:62-64 | on any input the scan's records for a request are a prefix of the brute-force records: it can under-match, never over-match |
| `TriggerLatencies.UnsortedInputUnderMatches` | dune/daq_trigger_latencies.py:62-64 | on unsorted TPs the break loses a match: TPs starting at 300 then 150 against the window [100, 200] |
| `TriggerLatencies.WindowMatchesSound` | dune/daq_trigger_latencies.py:58-61 | every record of a request comes from a TP in the inclusive window; its fields are the TP's real time, the request's real time and their difference, unclamped |
| `TriggerLatencies.WindowMatchesComplete` | dune/daq_trigger_latencies.py:56-61 | every TP in the window, either bound included, yields its record |
| `TriggerLatencies.WindowMatchesCount` | dune/daq_trigger_latencies.py:56-61 | a request has exactly one record per TP index in its window (no deduplication) |
| `TriggerLatencies.WindowMatchesAppend` | dune/daq_trigger_latencies.py:56-61 | within a request the records follow the TP list order |
| `TriggerLatencies.AllMatchesAppend` | dune/daq_trigger_latencies.py:55-61 | the records are grouped by request in request order |
| `TriggerLatencies.AllMatchesSound` | dune/daq_trigger_latencies.py:55-61 | every record of the join is the record of some request and a TP in its window |
| `TriggerLatencies.AllMatchesComplete` | dune/daq_trigger_latencies.py:55-61 | every (request, TP-in-window) pair yields a record, so a TP under several overlapping windows appears several times |
| `TriggerLatencies.AllMatchesCount` | dune/daq_trigger_latencies.py:55-64 | the number of records is the sum over requests of the number of TPs in each window |
| `TriggerLatencies.EmptyInputs` | dune/daq_trigger_latencies.py:53-65 | an empty request list or an empty TP list gives no records, for both joins |
| `TriggerLatencies.SortedWindowIsContiguous` | dune/daq_trigger_latencies.py:56-64 | on sorted TPs the TPs of one window are a contiguous run `lo..hi`, and the request's records are exactly the records of that run |
| `TriggerLatencies.WindowScenario` | dune/daq_trigger_latencies.py:56-64 | TPs starting at 50, 150 and 300 against the window [100, 200] give only the record of the TP at 150, with latency 4000 ticks |
| `TriggerLatencies.GetNumberFromLine` | dune/daq_trigger_latencies.py:80-87 | the number is read from the suffix that starts at the first occurrence of the descriptor, whatever precedes it |
| `TriggerLatencies.GetNumberFromLineReadsNumber` | dune/daq_trigger_latencies.py:80-87 | on `prefix + text + " " + digits + rest`, with `text` first occurring after `prefix` and `rest` empty, a newline or starting with a space, the result is the digits' value |
| `TriggerLatencies.DocstringExample` | dune/daq_trigger_latencies.py:69-71 | `"version_number: 5"` with `"version_number:"` gives 5 |
| `TriggerLatencies.DigitDescriptorMisreads` | dune/daq_trigger_latencies.py:80-85 | because replace removes every `text + " "`, the descriptor `"5"` on `"5 5 7"` reads 7 |
| `Text.FindFrom` | dune/daq_trigger_latencies.py:80 | `find` returns the lowest index at which the pattern occurs, or -1 when it occurs nowhere |
| `Text.Split` | dune/daq_trigger_latencies.py:83 | `split(" ")` gives at least one piece and no piece holds a space; with `JoinSplit`, the pieces are exactly the text between the spaces |
| `Text.JoinSplit` | dune/daq_trigger_latencies.py:83 | the pieces of `split(" ")` joined with `" "` give back the text, empty pieces included |
| `Text.RemoveAll` | dune/daq_trigger_latencies.py:82 | `replace(pat, "")` never lengthens the text; `RemoveAllByFind` states which occurrences it removes |
| `Text.RemoveAllByFind` | dune/daq_trigger_latencies.py:82 | with no occurrence of the pattern the text is unchanged; otherwise the text before the first occurrence (as `find` locates it) is kept, that occurrence is dropped, and removal goes on after it, so occurrences are removed left to right without overlap |
| `Text.ParseInt` | dune/daq_trigger_latencies.py:85 | `int()` succeeds only on a minus sign or digit followed by digits, with at most one trailing newline; a leading digit gives a non-negative value and a leading minus a non-positive one |
| `Text.IntToString` | dune/generate_tp_dataset.py:69-71 | `str()` writes a minus sign exactly for a negative number, then digits without a leading zero (except for 0), and no space or newline |
| `Text.IntToStringRoundTrip` | dune/generate_tp_dataset.py:69-71 | `int(str(x)) == x` for every integer |
| `Text.IntToStringLineRoundTrip` | dune/daq_trigger_latencies.py:85 | a number written by `str()` and followed by the line's newline reads back with `int()` as the same number |
| `Text.SplitJoinSpaces` | dune/generate_tp_dataset.py:69-71 | fields joined with single spaces split back into the same fields |
| `Sorting.SortByKey` | dune/daq_trigger_latencies.py:254-257 | the sorted list is ordered by the key and is a permutation of the input |
| `Sorting.SortByKeyIsStable` | dune/daq_trigger_latencies.py:254-257 | elements of equal key keep their relative order (Python's sort is stable) |
| `TPDataset.CheckTimeOrdering` | dune/generate_tp_dataset.py:11-19 | true exactly when no element is below the one before it, the first being compared with 0; true on the empty list |
| `TPDataset.TimeOrderedIsSortedFromZero` | dune/generate_tp_dataset.py:11-19 | passing the check means every element is non-negative and the list is non-decreasing, and conversely |
| `TPDataset.ReadDataFile` | dune/generate_tp_dataset.py:22-36 | the rows come back ordered by start time and are a permutation of the input; rows that pass the check come back unchanged |
| `TPDataset.ClampCount` | dune/generate_tp_dataset.py:128-130 | the count never exceeds the number of rows, and differs from the request only when the request is larger |
| `TPDataset.ConsideredRows` | dune/generate_tp_dataset.py:50 | with a non-negative request exactly the first `min(n, rows)` rows are considered |
| `TPDataset.ShiftTimes` | dune/generate_tp_dataset.py:51-56 | every row is shifted by the same amount: adding the shift back to start and peak gives the row again, the other six columns are untouched, and the rows are ordered by start after the shift exactly when they were before |
| `TPDataset.ShiftedTimes` | dune/generate_tp_dataset.py:50-59 | start and peak are shifted by the first start, so the first row starts at 0; the other six columns pass through; on sorted rows no relative start is negative |
| `TPDataset.ConstructDataset` | dune/generate_tp_dataset.py:39-73 | the loop writes, in order, the formatted line of every shifted row within the time budget; `None` when no row is considered |
| `TPDataset.PrepareDataset` | dune/generate_tp_dataset.py:126-132 | the top level: ordered permuted rows, the clamped count, and the lines of `construct_dataset` on them |
| `TPDataset.KeptSound` | dune/generate_tp_dataset.py:67-68 | every written row is one of the rows and satisfies `16 * start < num_seconds * 10^9` |
| `TPDataset.KeptComplete` | dune/generate_tp_dataset.py:67-68 | every row satisfying the time test is written |
| `TPDataset.KeptIsPrefixWhenSorted` | dune/generate_tp_dataset.py:61-68 | on rows sorted by start the written rows are a prefix `rows[..p]`, and a row is written iff its index is below `p` |
| `TPDataset.WrittenPrefix` | dune/generate_tp_dataset.py:49-73 | on sorted data the output is the first `p` considered rows, shifted by the first start, with `p` at most the row count |
| `TPDataset.FormatRow` | dune/generate_tp_dataset.py:69-71 | one output line per row: it ends with a newline and holds no other |
| `TPDataset.FormatRowReadsBack` | dune/generate_tp_dataset.py:65-71 | a line is eight space-separated integers and a newline, reading back as start, time over threshold, peak, channel, ADC sum, ADC peak, det_id, type |

## Left out

- ROOT plotting (`SetStyle`, `Plot`) and `plot_constructed_dataset`: histogram, canvas and matplotlib output only.
- The log-file reading of `GetTPDataRequests` and `GetTPSets`, `np.genfromtxt`, `argparse` and every `open`/`write`/`print`. These are I/O. The per-line extraction is `GetNumberFromLine`, and the written file is the concatenation of the lines `ConstructDataset` returns.
- `dune/plot_dataset_vs_triggeredTPs.py` is not part of this model; it is a display script with no logic.
- Floating point. The `/1e9` of the latency and the `*16e-9` of the dataset are replaced by integer ticks and an exact integer comparison. `int()` of numpy float columns is modelled as integer columns.
- `genfromtxt` shape quirks: a file with one row or no rows gives an array that `data[:, 0]` rejects. Rows here are always a sequence of eight-column records.
- `GetNumberFromLine` when `text` is absent from the line, where `find` returns -1 and the last character would be parsed: `Contains(line, text)` is a precondition.
- The generality of Python `int()`: leading or surrounding whitespace other than one trailing newline, a `+` sign, and underscores are not accepted by `ParseInt`.
- GetNumberFromLineReadsNumber: also requires that the descriptor's first character is neither a digit nor a space. Without it the statement is false, because `replace` removes every `text + " "` (see `DigitDescriptorMisreads`). The descriptors the script uses all start with a letter.
- ReadDataFile: for unsorted input it promises only "ordered by start and a permutation". numpy's `argsort` is not stable, so the model's stable order is one allowed outcome, not the order numpy picks among equal start times.
- The in-place `list.sort` of `main` is modelled on values. The two lists are locals of `main` and nothing else holds them. `GetTPLatencies` takes sequences, so it cannot modify its inputs.
