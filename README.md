# Crossover monitor client — a Dafny model of its core

The monitor client is a host telemetry agent. It samples CPU use, memory use
and the number of processes once per period and logs each sample as JSON.
This project models the parts of it that hold real logic:

- `application_client.dfy` (module `Client`), from `application_client.cpp`:
  - the `data` record and `data_to_json`, with a reader for the reverse
    direction;
  - the `application` object: the period check of its constructor, `run`
    with its do-while loop of ticks and interruptible waits, and `stop`. The
    `running` and `stop` flags are plain fields of a class;
  - `report_sent_callback`. Its function-local statics (the report counter
    and the ten-slot ring of CPU values) are fields of a `ReportStats`
    object. A ghost history of every value reported ties the ring to the
    reports.
- `os_win.dfy` (module `Os`), from `os_win.cpp`:
  - `process_count_helper` and `process_count`, the search that doubles the
    buffer while the enumeration fills it;
  - the integer arithmetic of `memory_use_percent`.
- `wrappers.dfy`: `Option` and `Result`.

The OS and the environment appear as oracles:
- `EnumProcesses` is given a `ProcessTable`: the true number of processes,
  and the buffer sizes for which the call fails. It reports
  min(true count, ids that fit) ids, in bytes.
- `GlobalMemoryStatusEx` is an `Option<MemoryStatus>`.
- A run of the loop is given a script of `Round`s. Each round holds the
  tick's outcome (a collected record, or a thrown `std::exception`) and
  what `utils::interruptible_sleep` reports after it.

Where the code and its design description differ, the model follows the
code:
- the process-count search has no upper bound on the buffer;
- a tick only collects, converts and logs. It does not send the record or
  call `report_sent_callback`, so the statistics are a standalone operation;
- percentages are not clamped to [0, 100].

## Model

| member | source | states |
|---|---|---|
| `Client.DataToJson` | application_client.cpp:38-46 | the result is an object whose keys are exactly `cpu_percent`, `memory_percent` and `process_count` |
| `Client.DataToJsonRoundTrip` | application_client.cpp:40-45 | reading the JSON back gives the same record, so each key holds the record's matching value |
| `Client.JsonToDataRoundTrip` | application_client.cpp:40-45 | every JSON value that reads as a record is that record's `data_to_json` form |
| `Client.NewApplication` | application_client.cpp:92-99 | construction fails with `invalid_argument` iff the period is below one minute; otherwise it gives a fresh idle application with both flags false |
| `Client.Executed` | application_client.cpp:122-134 | the loop runs at least one tick; it runs every round up to and including the first interrupted wait; every earlier wait timed out |
| `Client.RunLogShape` | application_client.cpp:122-134 | when the first interrupted wait is in round n, the run logs exactly n+1 entries; entry k is tick k's JSON, or the message of the exception it threw, which was caught and the loop went on |
| `Client.Application.Run` | application_client.cpp:105-135 | if already running it returns at once and both flags are unchanged; otherwise it logs the executed ticks in order and returns with `running` and `stop` both false; the object invariant (stop only while running) is kept |
| `Client.Application.Stop` | application_client.cpp:137-142 | while running it sets `stop` and leaves `running` unchanged; when not running it changes nothing; it has no failure path |
| `Client.Window` | application_client.cpp:72-78 | the ring's ten slots after a sequence of reports from an all-zero start, report n writing slot n mod 10 |
| `Client.WindowHoldsRecent` | application_client.cpp:78 | each of the last ten reports j is still in slot j mod 10 |
| `Client.WindowUnwritten` | application_client.cpp:73 | a slot that no report has reached yet still holds 0 |
| `Client.WindowAtReport` | application_client.cpp:82-86 | when the report count is a nonzero multiple of ten, the ring is exactly the last ten values, oldest first |
| `Client.Accumulate` | application_client.cpp:84 | the loop's result is the sum of the ring's ten values |
| `Client.ReportStats.ReportSent` | application_client.cpp:70-89 | writes the value into slot (count before the call) mod 10; the count goes up by one; the other nine slots are unchanged; a mean is emitted iff the new count is a multiple of ten; the mean is the sum of the ten slots over 10, which is the mean of the last ten values reported |
| `Client.ReportTenTimes` | application_client.cpp:78-87 | ten calls of `report_sent_callback` with one record on fresh statistics emit no mean on calls 1 to 9 and that record's CPU percentage on call 10 |
| `Client.TenTicksScenario` | application_client.cpp:122-134 | ten ticks of one record, interrupted after the tenth, log that record's JSON ten times; ten reports of its CPU value give that value as the mean |
| `Os.Attempts` | os_win.cpp:37-43 | the capacities the search tries: the first is the starting one, each next one is twice the last, every buffer but the last was filled, and the last was not filled |
| `Os.AttemptsDouble` | os_win.cpp:43 | the k-th capacity tried is the starting capacity times 2^k |
| `Os.ProcessCountHelper` | os_win.cpp:22-48 | the result is 0 if the last enumeration failed, and otherwise the true process count, never a truncated one (buffer size passed whole, as corrected below) |
| `Os.ProcessCount` | os_win.cpp:50-52 | the corrected search started at 5120 ids returns 0 or the true process count (as written the code returns 2^28 for 2^30 processes; see Findings) |
| `Os.ProcessCountExact` | os_win.cpp:37-51 | for the corrected search with an enumeration that never fails, `process_count` returns the true count; it tries capacities 5120·2^k, each filled until the last, which exceeds the count |
| `Os.ProcessCountHelperAsWritten` | os_win.cpp:26-47 | with the buffer size cast to a DWORD as written, the result never exceeds the true count |
| `Os.AsWrittenAgrees` | os_win.cpp:29-47 | while every byte size tried (up to twice the process count, times 4) fits a DWORD, the code as written returns the same as the corrected search |
| `Os.ProcessCountAsWrittenExact` | os_win.cpp:50-52 | for fewer than 2^29 processes, `process_count` as written returns 0 or the true count, and the true count when the enumeration never fails |
| `Os.AsWrittenClimbs` | os_win.cpp:37-43 | with 2^30 processes the search as written doubles from 5120 up to 5120·2^18 |
| `Os.AsWrittenTruncates` | os_win.cpp:29-47 | with 2^30 processes the code as written returns 2^28, not the true count, while the corrected helper returns 2^30 |
| `Os.MemoryUsePercent` | os_win.cpp:85-98 | 0 when the status call fails; otherwise 100 minus the wrapped 64-bit integer percentage available; it lies in [0, 100] whenever available ≤ total |
| `Os.MemoryUseIsCeiling` | os_win.cpp:94-97 | when 100·available does not wrap, the result is the used percentage rounded up |

## Findings

| source | as written | input that shows it | evidently intended | confidence | as-written member | corrected member |
|---|---|---|---|---|---|---|
| os_win.cpp:29-37 | the buffer's byte size `size * sizeof(DWORD)` is cast to a 32-bit DWORD before it is passed to `EnumProcesses`; the fill test compares the uncast 64-bit product with the bytes reported | 2^30 processes and an enumeration that never fails: at capacity 5120·2^18 the size 5·2^30 is cut to 2^30; only 2^28 ids are written; the fill test fails and 2^28 is returned | the doubling search returns the untruncated count for any number of processes | not executed; needs more than 671 million processes | `Os.AsWrittenTruncates` | `Os.ProcessCountExact` |

## Left out

- `cpu_use_percent`: PDH counter calls made once under `call_once`, then under a mutex. These are foreign calls; they only return 0 on a failed status.
- `disk_iops`: device I/O and console output. The function is also ill-formed: a `void` function that returns 1.
- `collect_data`: as written its initialiser does not compile, and `data` has no disk field. A tick's outcome is an oracle in a `Round`.
- `send_data`: URI splitting through the REST library and logging; nothing is transmitted.
- `main.cpp`: command-line parsing, log setup and the termination handler that calls `stop`.
- Logging everywhere, and the text of log lines.
- Concurrency: the atomic flags are plain fields. The mutex in `report_sent_callback` is dropped. `stop` called from another thread while `run` is in its loop is represented only by the wait oracle reporting `Interrupted`.
- `utils::interruptible_sleep`: not part of this model. Its 100 ms polling and its reading of the stop flag are folded into the wait oracle.
- Floating point: CPU values, the memory percentage of a record and the mean are reals. `float` rounding in `std::accumulate` and in the division by 10 is not modelled.
- `Os.MemoryUsePercent`: returns an `int`. The source converts the integer quotient to `float` and subtracts it from 100 in `float`. Both steps are exact when available ≤ total, because the quotient is then at most 100. When available > total, the source rounds a large quotient to the nearest `float`, and the model's exact integer does not.
- The key order of the JSON object: it is a map.
- `Client.Application.Run`: only runs whose script contains an interrupted wait are modelled. A run that is never stopped loops forever in the source and has no terminating model.
- `Client.Application.Run`: an exception that is not a `std::exception` escaping a tick is not modelled. The source would clear the flags and propagate it.
- `Client.ReportStats.ReportSent`: the counter is an unbounded `nat`. The source's `unsigned` counter wraps at 2^32, which is where the `reports_sent != 0` guard would matter.
- `Os.ProcessCountHelper`: requires a starting capacity above 0. With 0 the source recurses forever; its only caller passes 5120.
- `Os.ProcessCountHelper`: `size_t` is unbounded. The overflow of `max * 2` and a failed allocation of a huge buffer are not modelled.
- `Os.MemoryUsePercent`: requires a nonzero total. The source divides by it unguarded.
