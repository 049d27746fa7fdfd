# Metrics aggregation engine of rust-system-monitor

This project models the stateful core of a terminal system monitor. The core has two parts.

- **`HistoryTracker`** (`src/history.rs`). A bounded FIFO window of samples. Each sample holds
  CPU %, memory % and memory used in MB. The tracker reports the rolling mean and peak of CPU and
  memory, and a trend arrow for each. The arrow compares the last two samples with a ±1.0
  deadband. Modelled in module `History`: the window is a `seq<Sample>`, oldest first, and the
  values are `real`.
- **`RateTracker`** (`src/rates.rs`). It turns cumulative per-device byte counters into
  per-second rates, for network interfaces and for disks. It keeps the previous snapshot of each
  kind and the time of the last refresh. Modelled in module `Rates`: a snapshot is a
  `map<string, (nat, nat)>`, and every update is given the clock reading `now`. The update
  returns the new tracker and its list of rates.

Both trackers are immutable values. `add` and the two updates are functions or methods from the
old tracker to the new one. The queries (`cpu_avg`, `cpu_trend`, `has_data`, …) are pure
functions of the tracker, so no query can change the window.

Notes on how the code is followed:

- **Zero capacity.** With `max_size == 0` the window is not kept empty: `add` still pushes
  after its `pop_front`, so the window holds the last sample. `History.Capacity` is the number
  of samples a window really holds at most, `max(max_size, 1)`. The bound
  `length <= max_size` holds only for `max_size >= 1`.
- **Timestamps.** Only the network update refreshes `last_update`; a disk update never does.
  `Rates.DiskStalledAfterNetwork` and `Rates.DiskRatesMeasuredFromLastRefresh` state what
  follows from this.
- **Output order.** Rates are collected by walking the current snapshot in an unspecified order,
  as the source walks a `HashMap`. `Rates.Reports` states what a report contains, independent of
  order: each device present in both snapshots appears exactly once, with its rates, and no other
  device appears. `Rates.ReportsDetermined` shows that any two reports hold the same entries.

## Model

| member | source | states |
|---|---|---|
| `History.New` | src/history.rs:19-24 | A new tracker has an empty window: `has_data` is false, both averages and both peaks are absent, and both trends are empty. |
| `History.Add` | src/history.rs:27-33 | The new sample is last. The rest is the old window, minus its oldest sample exactly when the old length was at least `max_size`. The result is the newest `Capacity` samples of old window plus new sample. A window of at most `max_size` samples stays within `max_size` when `max_size >= 1`; with `max_size == 0` a window of at most one sample holds exactly the new one after the add. |
| `History.AddAllKeepsNewest` | src/history.rs:27-33 | Any run of adds on a valid tracker leaves the newest `Capacity` samples of everything inserted, in insertion order. |
| `History.WindowFromNew` | src/history.rs:19-33 | From `new(max_size)`: the length never exceeds a positive `max_size`. With `max_size == 0` the window is just the last sample. After at least `max_size` adds it is the last `max_size` samples. With fewer adds it is all of them. |
| `History.Mean` | src/history.rs:36-43 | The mean is absent iff there are no values; otherwise mean × count equals the sum. |
| `History.CpuAvg` | src/history.rs:36-43 | The CPU average is absent iff the window is empty; otherwise average × length equals the sum of the CPU values. |
| `History.MemAvg` | src/history.rs:54-61 | The same for memory %. |
| `History.MeanOfConstant` | src/history.rs:41-42 | On N identical values the mean is exactly that value. |
| `History.MeanAtMost` | src/history.rs:41-42 | The mean never exceeds a bound on every value. |
| `History.AvgOfIdenticalSamples` | src/history.rs:36-61 | A window of identical samples averages exactly to that sample's CPU and memory values. |
| `History.AvgAtMostPeak` | src/history.rs:36-69 | On a non-empty window the average never exceeds the peak, for CPU and for memory. |
| `History.MaxOf` | src/history.rs:47-50 | The maximum of a non-empty sequence is one of its elements and is at least every element. |
| `History.CpuMax` | src/history.rs:46-51 | The CPU peak is absent iff the window is empty; otherwise it is the CPU value of some sample and is at least every sample's CPU value. |
| `History.MemMax` | src/history.rs:64-69 | The same for memory %. |
| `History.PeakExample` | src/history.rs:46-51 | CPU values [10, 90, 30] have peak 90. |
| `History.Classify` | src/history.rs:80-86 | The step is never undetermined. It is rising iff `curr > prev + 1`, falling iff `curr < prev - 1`, and flat iff `prev - 1 <= curr <= prev + 1`. |
| `History.ClassifyReversed` | src/history.rs:80-86 | Swapping the two samples turns rising into falling and back, and keeps flat. |
| `History.ClassifyShift` | src/history.rs:80-86 | Adding the same amount to both samples leaves the classification unchanged. |
| `History.Direction` | src/history.rs:73-75 | The direction is undetermined iff there are fewer than two values. |
| `History.Symbol` | src/history.rs:72-87 | Only the undetermined direction prints the empty string. |
| `History.SymbolInjective` | src/history.rs:72-87 | The four outcomes print four different strings. |
| `History.CpuTrend` | src/history.rs:72-87 | The CPU trend is empty iff the window has fewer than two samples. Otherwise it is the arrow of the step from the second-to-last to the last CPU value. |
| `History.MemTrend` | src/history.rs:90-105 | The same for memory %. |
| `History.TrendUsesLastTwo` | src/history.rs:77-78 | Two windows that agree on their last two samples have the same trends. |
| `History.TrendAfterAdd` | src/history.rs:27-33 | After an add to a non-empty window, the trend compares the previous newest sample with the new one. A window whose capacity is one never shows a trend. |
| `History.TrendExamples` | src/history.rs:72-87 | [50, 52] is rising, [50, 48.5] falling, [50, 50.5] flat, and a single sample gives the empty string. |
| `History.HasData` | src/history.rs:108-110 | `has_data` is true iff the window is non-empty, iff both averages are present, iff both peaks are present. |
| `Rates.New` | src/rates.rs:14-20 | A new tracker has empty previous snapshots and is stamped at the current time. |
| `Rates.Elapsed` | src/rates.rs:27 | Elapsed time is never negative. It is zero iff the clock has not moved past the last refresh; otherwise last refresh + elapsed = now. |
| `Rates.SaturatingSub` | src/rates.rs:37-38 | The growth of a counter is the difference, or zero when the counter went down. |
| `Rates.PerSecond` | src/rates.rs:37-38 | The rate is the largest whole number at most `max(0, curr - prev) / elapsed`. A counter that did not grow gives 0. |
| `Rates.CollectRates` | src/rates.rs:35-42 | The loop emits exactly one entry per device present in both snapshots, each with its rates, and nothing else. |
| `Rates.NetworkState` | src/rates.rs:27-45 | With no elapsed time the tracker is unchanged. Otherwise the network snapshot becomes `current` and the refresh time becomes `now`. The disk snapshot never changes. |
| `Rates.DiskState` | src/rates.rs:54-72 | With no elapsed time the tracker is unchanged. Otherwise the disk snapshot becomes `current`. The network snapshot and the refresh time never change. |
| `Rates.UpdateNetworkRates` | src/rates.rs:23-48 | With no elapsed time: empty output and unchanged state. Otherwise: a correct report from the old network snapshot to `current`, and the new state of `NetworkState`. |
| `Rates.UpdateDiskRates` | src/rates.rs:50-73 | The same for disks, with the new state of `DiskState`. |
| `Rates.ReportsDetermined` | src/rates.rs:35-42 | Two correct reports on the same inputs hold the same entries; only their order can differ. |
| `Rates.NamesBound` | src/rates.rs:35-42 | A report holds no more entries than there are candidate device names. |
| `Rates.SingleDeviceReport` | src/rates.rs:35-42 | When both snapshots hold just one device, the report is exactly that device's entry. |
| `Rates.FirstUpdateReportsNothing` | src/rates.rs:14-20 | The first network or disk update after `new` reports nothing. |
| `Rates.NewDeviceReportedNextTime` | src/rates.rs:35-44 | A device seen for the first time gets no entry in that update. It is stored, and the next update reports it, measured from the counters stored the time before. |
| `Rates.StalledUpdatesKeepSnapshot` | src/rates.rs:31-33 | Updates with no time advance leave the tracker unchanged. A later update still measures from the snapshot and the time stored before them. |
| `Rates.DiskStalledAfterNetwork` | src/rates.rs:44-45 | After a network update at `now`, a disk update at the same `now` sees no elapsed time and keeps the old disk snapshot. |
| `Rates.DiskRatesMeasuredFromLastRefresh` | src/rates.rs:70-72 | A disk update does not move the refresh time, so the next update measures elapsed time from the same instant as before. |
| `Rates.RateExamples` | src/rates.rs:35-41 | With one second elapsed: {eth0: (1000, 2000)} then {eth0: (5000, 2000)} gives (eth0, 4000, 0). Identical snapshots give (eth0, 0, 0). A decrease 2000 → 500 gives 0. |

## Left out

- Floating point. CPU % is `f32` and memory % is `f64` in the source. The model uses `real`, so
  it leaves out rounding in the sums and the quotient, and NaN. It also leaves out the panic of
  `partial_cmp().unwrap()` in `cpu_max`/`mem_max` on a NaN.
- `Rates.PerSecond`: the source divides in `f64` and truncates with `as u64`, which saturates at
  the largest `u64`. The model takes the exact floor of the real quotient, with no upper bound.
- Integer widths. Counters are `u64` in the source and `nat` here. `saturating_sub` never wraps,
  so nothing depends on the width apart from the cast noted above.
- The clock. `Instant::now` and `elapsed` are replaced by the parameter `now` (seconds).
  `elapsed` saturates at zero, as `Instant::elapsed` does. The source reads the clock a second
  time to stamp `last_update` after the loop. The model stamps the same `now` it measured with.
- `HashMap` iteration order. Output order is unspecified, and the contracts do not fix it.
- `History.Sample.memUsedMb` is stored but no query reads it, as in the source.
- `Rates.Rate`: the source returns `(String, u64, u64)` tuples; the model names the two rates
  `incoming` (received or read) and `outgoing` (sent or written).
- Terminal output (`src/display.rs`), metric collection through `sysinfo` (`src/monitor.rs`,
  `src/modules/monitor.rs`), the poll and sleep loop (`src/main.rs`) and command-line parsing
  (`src/config.rs`) are not part of this model. They only feed or print the engine's values.
