# Benchfiler in Dafny

Benchfiler is a single-header C++ library for timing one hot code region inside a
live program. The caller brackets the region with `Begin()` and `End()`. The library
accumulates the elapsed ticks of the high-resolution counter in one fixed-size
record, `benchfiler_state`. `Report()` prints the mean and fastest durations in
microseconds, with the hit count, and then clears the record. `Initialize()`
calibrates ticks per microsecond from the counter frequency.

This project models that state machine and proves what it guarantees:

- `uint64.dfy` (module `UInt64`) gives `uint64_t` values and their wrapping `+` and `-`.
- `benchfiler.dfy` (module `Benchfiler`) holds the rest:
  - the specification of the accumulator: the exact sum and the zero-sentinel minimum of the committed durations;
  - the `Initialize` and `Report` arithmetic as functions;
  - the class `Benchfiler`, whose fields are the namespace globals `s_ticksPerMicrosecond` and `s_state`;
  - two client methods: one runs two cycles (durations 100, 50 and 200 ticks at 10 ticks per microsecond, then one 30-tick sample), the other trips the overflow latch.

The class carries a ghost field `samples`, the durations committed since the last
`Report`. Its invariant `Valid()` says that:

- `count` is the number of samples;
- `allDurationTicks` is their exact sum, so the total has never wrapped;
- `fastestTicks` is `Fastest(samples)`.

`End` preserves this invariant. `Begin` and `Initialize` cannot touch it. `Report`
re-establishes it on the zero state.

The clock reads are parameters. `Begin(now)` and `End(now)` take the counter value
that `Sample()` would read. `Initialize(frequency)` takes the value that
`QueryPerformanceFrequency` would return.

The "fastest" figure uses 0 to mean "no sample yet". It is the true minimum
whenever no committed duration is 0 (`FastestIsMinimum`). It can differ from the
true minimum once a 0 is followed by a non-zero duration, because a zero-length
sample erases every earlier duration from the minimum (`ZeroSampleForgetsEarlier`).
As a result, the fastest ticks can exceed the mean ticks, and the fastest
microseconds `Report` returns can exceed the average it returns
(`ZeroSamplesCanLiftFastestAboveMean`). The model keeps this behaviour exactly as the
code has it.

## Model

| member | source | states |
|---|---|---|
| `UInt64.Sub` | benchfiler.h:86 | The duration `endTimeTicks - beginTimeTicks` is the exact difference when the end is not earlier, and otherwise wraps once modulo 2^64. |
| `UInt64.Add` | benchfiler.h:87-90 | The candidate total is the exact sum when it fits in 64 bits, and otherwise the sum less 2^64. It is smaller than the old total exactly when the true sum exceeds `UINT64_MAX`, so the source's `newAllDuration < allDurationTicks` test detects every overflow and nothing else. |
| `Benchfiler.Fastest` | benchfiler.h:97-98 | The zero-sentinel minimum of the committed durations is one of them. It is 0 exactly when no sample was committed or the latest one is 0. |
| `Benchfiler.FastestIsMinimum` | benchfiler.h:97-98 | When no committed duration is 0, `fastestTicks` is the least committed duration. |
| `Benchfiler.ZeroSampleForgetsEarlier` | benchfiler.h:97-98 | After a committed duration of 0, the fastest value depends only on the later durations. |
| `Benchfiler.FastestNotAboveMean` | benchfiler.h:97-98 | When no committed duration is 0, the fastest duration is at most the truncated mean in ticks. |
| `Benchfiler.ZeroSamplesCanLiftFastestAboveMean` | benchfiler.h:97-112 | Some sequence of durations, such as 0, 0, 0, 100, leaves the fastest value above the mean ticks, and `Figures` of it then reports fastest microseconds above the average microseconds. |
| `Benchfiler.TicksPerMicrosecond` | benchfiler.h:106 | The calibration is the whole number of ticks in a microsecond: `r * 1000000 <= frequency < (r + 1) * 1000000`. |
| `Benchfiler.NestedFloor` | benchfiler.h:110-111 | Truncating by the count and then by ticks per microsecond gives the largest `m` with `m * count * ticksPerMicrosecond <= total`. |
| `Benchfiler.Figures` | benchfiler.h:110-112 | The report gives the hit count, the mean in microseconds rounded down (`avg * count * tpm <= total < (avg + 1) * count * tpm`) and the fastest in microseconds rounded down. It requires a non-zero count and calibration. |
| `Benchfiler.ReportedFastestNotAboveMean` | benchfiler.h:110-112 | When no committed duration is 0, the reported fastest microseconds never exceed the reported mean microseconds. |
| `Benchfiler.Benchfiler.constructor` | benchfiler.h:56-68 | The static state starts all zero: zero calibration, zero record, latch clear, no samples. |
| `Benchfiler.Benchfiler.Initialize` | benchfiler.h:103-107 | Only `ticksPerMicrosecond` changes, and it becomes `TicksPerMicrosecond(frequency)`. |
| `Benchfiler.Benchfiler.Begin` | benchfiler.h:77-79 | Only `beginTimeTicks` changes, and it becomes `now`. The count, total, fastest value, latch and samples stay the same, however often `Begin` is called. |
| `Benchfiler.Benchfiler.End` | benchfiler.h:81-101 | When the latch is already set, nothing changes. When the total would exceed `UINT64_MAX` or the count is `UINT64_MAX`, only the latch changes. Otherwise the wrapped duration is appended to the samples, the total grows by exactly that duration, the count grows by one, and the fastest value becomes the duration when it was 0 and otherwise the smaller of the two. `Valid()` is kept throughout. |
| `Benchfiler.Benchfiler.Report` | benchfiler.h:109-127 | The result is `Figures` of the committed samples' sum, number and fastest value. Afterwards the whole record, including the samples, is back in the zero state and the calibration is kept. |

## Left out

- The counter reads in `Sample`, `QueryPerformanceCounter` and `QueryPerformanceFrequency` (benchfiler.h:71-75, 104-105) are Windows calls. They become the `now` and `frequency` parameters. The conversion of the signed `LONGLONG` counter value to `uint64_t` is not modelled: `now` is taken as already converted.
- `Benchfiler.Benchfiler.Initialize`: the frequency is taken as a non-negative signed 64-bit value, `0 <= frequency < 2^63`. Windows documents it as positive. The C++ truncation of a negative frequency, and its conversion to unsigned, are not modelled.
- `Benchfiler.Benchfiler.Report`: it requires `count > 0` and `ticksPerMicrosecond > 0`. In the source, a report with no samples or before `Initialize` divides by zero, which is undefined behaviour in C++. No result is modelled for those cases.
- The `printf` text of `Report` (benchfiler.h:114-122) is output. `Report` returns the three printed numbers instead.
- The `static_assert` on the record size (benchfiler.h:66) is about memory layout and has no behaviour.
- Thread safety and nested regions are disclaimed by the library (benchfiler.h:34-36). All operations are modelled as single-threaded calls on one object.
- The demo driver `test_program.cpp` only calls the API around temporary-file I/O, so it is not modelled. `ScenarioTwoCycles` and `ScenarioLatch` take the place of a client.
- The name `fastestTicks` suggests the least duration, but the code keeps a zero-sentinel minimum. The model follows the code; see `FastestIsMinimum` and `ZeroSampleForgetsEarlier`.
