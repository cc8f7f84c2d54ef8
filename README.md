# System Performance widget: sampling and chart model

A Dafny model of the non-UI logic of the System Performance toolbar widget
(`helloWorldWidget` and its `GraphView`). Every two seconds the widget reads
the host's cumulative CPU tick counters and its VM page statistics. From the
ticks elapsed since the previous reading it computes a rounded CPU busy
percentage. From the page counts and physical memory it computes a RAM
percentage. It appends each value to a rolling 20-sample history, and it
draws each history as a line through evenly spaced points with one of two
vertical scaling rules.

Modules, one per concern of the source file:

- `Wrappers` (`wrappers.dfy`): `Option`, the outcome of a platform call.
- `Usage` (`usage.dfy`): tick snapshots and their deltas, the CPU percentage,
  Swift's `rounded()`, the used-bytes and RAM percentage arithmetic.
- `History` (`history.dfy`): append-then-evict on a bounded history, and what
  any run of such updates leaves behind.
- `Chart` (`chart.dfy`): the x spacing, the CPU and RAM y rules, and the
  drawing loop as a method that returns the points it draws through.
- `Widget` (`widget.dfy`): the `Monitor` class with the two histories and the
  stored tick snapshot, and its `GetCpuUsage` and `UpdateMetrics` steps.

The platform calls (`host_statistics`, `host_statistics64`, `vm_page_size`,
`ProcessInfo.physicalMemory`) are parameters of `UpdateMetrics`. A failed
call is `None`. The page size and the physical memory size are plain numbers.

Choices that follow the code:

- A failed CPU read makes `getCPUUsage` return -1, and `updateMetrics` then
  appends that -1 to the CPU history like any other sample. The model does
  the same. `Chart.CpuSentinelBelowMargin` shows that such a point is drawn
  below the 5% bottom margin.
- A failed VM read leaves the RAM history as it was.
- The tick deltas have no zero-total guard and no underflow guard. Dividing
  by a zero total gives NaN, and `Int(NaN)` traps. Subtracting a larger
  unsigned counter also traps. So both are preconditions of
  `Monitor.GetCpuUsage` and `Monitor.UpdateMetrics`. Counters are never
  clamped to zero.
- There is no special case for the first sample. The stored snapshot starts
  as all zeros, so the first percentage covers the whole time since boot.
- The RAM percentage is not clamped when it is recorded. Only the RAM y rule
  clamps it, to 0..100.
- The RAM window is the fixed range 80..100.
- The widget picks the scaling rule by comparing the graph's colour with
  green. The model makes that choice a two-case `Scaling` value.

## Model

| member | source | states |
|---|---|---|
| `Usage.Delta` | HelloWorld/Sources/helloWorldWidget.swift:149-152 | each delta, added to the earlier counter, gives back the later counter |
| `Usage.Busy` | HelloWorld/Sources/helloWorldWidget.swift:154 | the busy ticks user + system + nice; their share of `Total` is rounded by `CpuPercent` into [0, 100], giving 0 with no busy ticks (`CpuPercentAllIdle`) and 100 with no idle ticks (`CpuPercentNoIdle`) |
| `Usage.Total` | HelloWorld/Sources/helloWorldWidget.swift:153 | all four deltas; a positive total is the precondition of `CpuPercent` because the division at line 154 is unguarded |
| `Usage.RoundHalfAway` | HelloWorld/Sources/helloWorldWidget.swift:157 | the result is within 1/2 of x, and a halfway case goes away from zero (up for x >= 0, down for x < 0) |
| `Usage.CpuPercent` | HelloWorld/Sources/helloWorldWidget.swift:149-157 | for a positive tick total, the result is in [0, 100] and is the integer nearest to 100 * busy / total, with a half rounded up |
| `Usage.CpuPercentIsRounded` | HelloWorld/Sources/helloWorldWidget.swift:153-157 | the integer computation equals round((user + system + nice) / total * 100) over exact reals, rounding halves away from zero |
| `Usage.CpuPercentExample` | HelloWorld/Sources/helloWorldWidget.swift:149-157 | deltas user 30, system 10, idle 55, nice 5 give 45 |
| `Usage.CpuPercentNoIdle` | HelloWorld/Sources/helloWorldWidget.swift:153-157 | an interval without idle ticks gives 100 |
| `Usage.CpuPercentAllIdle` | HelloWorld/Sources/helloWorldWidget.swift:153-157 | an interval with only idle ticks gives 0 |
| `Usage.CpuSample` | HelloWorld/Sources/helloWorldWidget.swift:146-157 | the result is -1 exactly when the read failed; otherwise it is a percentage in [0, 100] |
| `Usage.UsedBytes` | HelloWorld/Sources/helloWorldWidget.swift:124 | with a positive page size, used bytes are zero exactly when all four page counts are zero |
| `Usage.RamPercent` | HelloWorld/Sources/helloWorldWidget.swift:114-126 | even with both byte counts converted to GiB, percent * physical == 100 * used; the result is non-negative, and at most 100 exactly when used <= physical |
| `Usage.RamPercentExample` | HelloWorld/Sources/helloWorldWidget.swift:124-126 | 8 000 000 000 used bytes of 16 000 000 000 give 50 |
| `History.AppendBounded` | HelloWorld/Sources/helloWorldWidget.swift:109-110 | the result is a suffix of old + [v], so only the oldest samples are dropped; below capacity it is old + [v]; within capacity its length is min(n + 1, cap) and its last element is v |
| `History.AppendBoundedFrom` | HelloWorld/Sources/helloWorldWidget.swift:128-129 | every element after an update was in the history before or is the new sample |
| `History.AppendBoundedIsWindow` | HelloWorld/Sources/helloWorldWidget.swift:128-129 | within capacity, one update leaves exactly the last cap elements of old + [v] |
| `History.AppendAllIsWindow` | HelloWorld/Sources/helloWorldWidget.swift:109-110 | starting within capacity, any run of updates leaves exactly the last cap elements of everything recorded, in recording order |
| `History.HistoryFromEmpty` | HelloWorld/Sources/helloWorldWidget.swift:109-110 | from an empty history, M samples leave min(M, cap) samples: all of them when M <= cap, else the last cap in order |
| `Chart.Pad` | HelloWorld/Sources/helloWorldWidget.swift:215 | the padding `n * h * 0.9 + h * 0.05`, shared by both rules; it maps [0, 1] into [0.05h, 0.95h] (`PadWithin`) and is the reference form of both rules (`RamYIsWindowedClamp`) |
| `Chart.CpuY` | HelloWorld/Sources/helloWorldWidget.swift:221 | the CPU rule: percentages land in [0.05h, 0.95h] and y is strictly increasing (`CpuYWithin`, `CpuYIncreasing`); 0/50/100 give 5/50/95 at h = 100 (`CpuYExamples`); -1 falls below the margin (`CpuSentinelBelowMargin`) |
| `Chart.RamY` | HelloWorld/Sources/helloWorldWidget.swift:212-218 | the RAM rule: equal to the padded clamp of (v - 80) / 20 (`RamYIsWindowedClamp`), always within [0.05h, 0.95h] (`RamYWithin`), flat outside 80..100 (`RamYFlatOutsideWindow`), monotone (`RamYMonotone`) |
| `Chart.PointY` | HelloWorld/Sources/helloWorldWidget.swift:211 | the choice between the two rules, made by colour in the source and by `Scaling` here; its margins are proved in `PointsWithinMargins` |
| `Chart.StepX` | HelloWorld/Sources/helloWorldWidget.swift:207 | width / max(count - 1, 1); it spaces the points so the first is at 0 and the last at the width (`PointsSpanWidth`) |
| `Chart.ProjectX` | HelloWorld/Sources/helloWorldWidget.swift:209 | i * stepX; strictly increasing in i for positive width (`PointsIncreasingX`) |
| `Chart.Points` | HelloWorld/Sources/helloWorldWidget.swift:204-228 | the points `draw` strokes through: none under two samples, else one per sample (`PointsCount`), spanning the width (`PointsSpanWidth`), increasing in x (`PointsIncreasingX`), within the margins (`PointsWithinMargins`); the loop `Project` computes exactly these |
| `Chart.Clamp` | HelloWorld/Sources/helloWorldWidget.swift:213-215 | the result lies in [lo, hi]; it equals v inside the range and the nearer bound outside it |
| `Chart.Project` | HelloWorld/Sources/helloWorldWidget.swift:204-228 | the drawing loop returns exactly the specified points: none for fewer than two samples, else one per sample at (i * stepX, y of the chosen rule) |
| `Chart.PointsCount` | HelloWorld/Sources/helloWorldWidget.swift:204 | fewer than two samples give no points; otherwise there is one point per sample |
| `Chart.PointsSpanWidth` | HelloWorld/Sources/helloWorldWidget.swift:207-209 | the oldest sample is at x = 0 and the newest at x = width |
| `Chart.PointsIncreasingX` | HelloWorld/Sources/helloWorldWidget.swift:207-209 | on a view of positive width, x increases strictly with the sample index |
| `Chart.PointsWithinMargins` | HelloWorld/Sources/helloWorldWidget.swift:211-221 | every y is in [0.05h, 0.95h]: always for the RAM rule, and for percentages under the CPU rule |
| `Chart.CpuYWithin` | HelloWorld/Sources/helloWorldWidget.swift:221 | a CPU sample in [0, 100] is drawn within [0.05h, 0.95h] |
| `Chart.CpuYIncreasing` | HelloWorld/Sources/helloWorldWidget.swift:221 | on a view of positive height, a larger CPU sample is drawn strictly higher |
| `Chart.CpuYExamples` | HelloWorld/Sources/helloWorldWidget.swift:221 | with h = 100, samples 0, 50 and 100 are drawn at 5, 50 and 95 |
| `Chart.CpuSentinelBelowMargin` | HelloWorld/Sources/helloWorldWidget.swift:221 | the -1 of a failed read is drawn below 0.05h |
| `Chart.RamYIsWindowedClamp` | HelloWorld/Sources/helloWorldWidget.swift:212-218 | for every sample, the RAM rule equals the padded clamp of (v - 80) / 20 to [0, 1] |
| `Chart.RamYWithin` | HelloWorld/Sources/helloWorldWidget.swift:212-218 | every RAM sample, whatever its value, is drawn within [0.05h, 0.95h] |
| `Chart.RamYFlatOutsideWindow` | HelloWorld/Sources/helloWorldWidget.swift:213-218 | below 80 a RAM sample is drawn at 0.05h; at or above 100 it is drawn at 0.95h |
| `Chart.RamYExamples` | HelloWorld/Sources/helloWorldWidget.swift:212-218 | RAM samples 70, 90 and 100 are drawn at 0.05h, 0.5h and 0.95h |
| `Chart.RamYMonotone` | HelloWorld/Sources/helloWorldWidget.swift:212-218 | a larger RAM sample is never drawn lower |
| `Widget.AppendCpuSample` | HelloWorld/Sources/helloWorldWidget.swift:107-110 | recording a whole percentage or -1 keeps every CPU history entry a whole percentage or -1 |
| `Widget.AppendRamSample` | HelloWorld/Sources/helloWorldWidget.swift:126-129 | recording a non-negative RAM percentage keeps every RAM history entry non-negative |
| `Widget.Monitor.constructor` | HelloWorld/Sources/helloWorldWidget.swift:23-28 | both histories start empty and the stored snapshot starts at zero ticks |
| `Widget.Monitor.GetCpuUsage` | HelloWorld/Sources/helloWorldWidget.swift:137-158 | a failed read returns -1 and keeps the stored snapshot; a successful read returns the percentage of the elapsed ticks and stores the reading |
| `Widget.Monitor.UpdateMetrics` | HelloWorld/Sources/helloWorldWidget.swift:106-135 | appends the CPU sample (the -1 included) to the bounded CPU history; appends the RAM percentage to the bounded RAM history only when the VM read succeeded, else leaves it unchanged; keeps both histories within 20, with CPU samples whole percentages or -1 and RAM samples non-negative |

## Left out

- View construction, labels, fonts, colours and stack layout: user interface only.
- Label text, including `Int(cpuUsage)` and the `%.0f` format: cosmetic text formatting.
- `getMemoryUsage`'s "used/total GB" string: cosmetic formatting that depends on float formatting.
- The repeating `Timer` and its run-loop registration, including the immediate first `updateMetrics()` that `init()` triggers through `startUpdatingMetrics()`: scheduling. `UpdateMetrics` is one step, and the caller decides when to run it. A new `Monitor` is the widget state before that first update, so in the source a freshly built widget already holds one sample and its snapshot is the first reading; here the caller makes that first call.
- Mach and Foundation calls (`host_statistics`, `host_statistics64`, `mach_host_self`, `vm_page_size`, `ProcessInfo.physicalMemory`): foreign OS calls. Their results are parameters.
- `NSBezierPath` move/line/stroke: rendering. The model stops at the points the path goes through.
- `Usage.CpuPercent`: computed exactly over integers, not in IEEE `Double`. A halfway case whose quotient `Double` cannot represent exactly may round differently on the device.
- `Usage.RamPercent`: computed over exact reals. `Double` rounding is not modelled. With zero physical memory `Double` gives infinity or NaN, which the model does not represent, so the model requires physical memory to be positive when the VM read succeeds.
- `Chart.Project`: `CGFloat` arithmetic is modelled over exact reals. The NaN or infinite values that IEEE arithmetic could carry are not modelled.
- Counter widths: tick counts and page counts are unbounded naturals. In the source these are 32-bit counters and 64-bit byte products. A counter that wraps past a stored value runs into the underflow trap, which the preconditions already exclude. The 64-bit product of page count and page size is not expected to overflow.
- Concurrency: the timer and drawing run on the main run loop, and the model is sequential.
