# NETAESBenchmark crossover detector in Dafny

NETAESBenchmark times encrypt/decrypt round trips of two AES providers over a
sweep of payload sizes. The native one is `AesCryptoServiceProvider` and the
managed one is `AesManaged`. A small state machine in `Benchmark` watches for
the size at which the managed provider stops being faster. This project models
that state machine, the sweep in `Main` that drives it, and the two timed
runners, and proves properties of them.

Modules:

- `Settings`: the fixed run configuration (Program.cs:13-22). The margin is
  0.001 ms, written as 1000 ns.
- `Arith`: C#'s unchecked 32-bit `int` arithmetic (`Wrap32`) and its division,
  which truncates toward zero (`TruncDiv`).
- `Runners`: a provider is a class `Algorithm`. It holds an abstract cipher
  and counts the encryptor and decryptor handles it creates and disposes. The
  two runners are loops over it. `RoundTrips` specifies how the buffer is
  chained from cycle to cycle.
- `Detection`: the seven static fields of Program.cs:25-32 as the class
  `Detector`, and the same state as the value `State`. `Next` is the pure
  transition of one `Benchmark` call and carries the contract.
  `Detector.Step` is the imperative field update and is proved to equal
  `Next`. `Detector.Benchmark` runs the selected runner, then `Step`.
- `Scanner`: `Sweep` is the pure specification of the size loop.
  `Scan` is the loop of `Main` and is proved to produce exactly
  `Sweep`'s verdicts. The lemmas state what a whole sweep guarantees.

An elapsed time is an integer number of TimeSpan ticks (100 ns). Stopwatch
readings are inputs: one tick value per provider and size. A verdict is one of:

- `Timing`: a plain timing line;
- `Occurrence(report)`: a crossover, with the report's numbers when it was
  judged significant;
- `Stop(report)`: the `Environment.Exit(1)` branch.

Behaviour of the code that the model makes explicit:

- The running mean is gated on `_begSize != 0` (Program.cs:70). That field is
  set only at the first managed occurrence (Program.cs:80), so no sample is
  averaged before the first crossover. `Next` and
  `BeginSizeIsFirstCrossover` state this.
- The deviation's sign depends on the role. The managed call contributes
  `elapsed - _last`, the native call `_last - elapsed` (Program.cs:71-72).
- The incremental mean truncates at every update, so it is not the batch
  mean of the samples. `RunningMeanIsNotBatchMean` gives samples 1, 0, 2:
  their mean is 1, but the running mean ends at 0. What does hold is
  `MeanWithinSamples`: the running mean stays within the range of the samples.
- With an occurrence threshold of 10, take a 100 ms native run and a managed
  run that jumps to 150 ms from size 2 on. The managed run at size 2 is the
  first occurrence, and the margin ends the sweep at size 3, with a report
  that cites size 2 as the crossover (`JumpStopsOnMargin`).
- With the native provider, reuse mode creates `1 + Iterations` decryptors:
  one before the loop and a new one after every cycle (Program.cs:135, 143).
  Only the last is disposed.
- Each size yields two lines, one per provider.
- The loop of `Main` is written once, as `Run`, for any step of the shape of
  `SweepStep`. `Sweep` is `Run` with the step for the given readings. The
  generic lemmas about `Run` (`RunLength`, `RunKeeps`, ...) carry the
  induction, and the `Sweep` lemmas instantiate them.

## Model

| member | source | states |
|---|---|---|
| Arith.Wrap32Spec | NETAESBenchmark/Program.cs:71-72 | `Wrap32`: the result is in the 32-bit range, congruent to the mathematical value modulo 2^32, and equal to it when no overflow occurs |
| Arith.TruncDivBounds | NETAESBenchmark/Program.cs:71-72 | `TruncDiv`: the quotient rounds toward zero: for a non-negative dividend it is the floor, for a negative one the ceiling |
| Runners.Algorithm.constructor | NETAESBenchmark/Program.cs:48-49 | a fresh provider over the given cipher has created and disposed no handles |
| Runners.Algorithm.CreateEncryptor | NETAESBenchmark/Program.cs:120 | returns an encryptor for the provider's cipher and adds one to the encryptors created; the other counters are unchanged |
| Runners.Algorithm.CreateDecryptor | NETAESBenchmark/Program.cs:121 | returns a decryptor for the provider's cipher and adds one to the decryptors created; the other counters are unchanged |
| Runners.Algorithm.Dispose | NETAESBenchmark/Program.cs:145 | adds one to the disposed counter of the handle's kind; the other counters are unchanged |
| Runners.RoundTripsPreservePayload | NETAESBenchmark/Program.cs:123-124 | when decryption undoes encryption, any number of chained cycles leaves the buffer equal to the original |
| Runners.EncryptDecryptDispose | NETAESBenchmark/Program.cs:115-128 | the buffer goes through `Iterations` chained cycles; exactly `Iterations` encryptors and decryptors are created and all of them are disposed |
| Runners.EncryptDecryptNDispose | NETAESBenchmark/Program.cs:130-148 | the buffer goes through `Iterations` chained cycles; one encryptor is created; `1 + Iterations` decryptors are created for the native provider and one otherwise; exactly one of each kind is disposed |
| Detection.RoleOf | NETAESBenchmark/Program.cs:60 | a provider is the managed one exactly when its name is `AesManaged` |
| Detection.PerIterationNs | NETAESBenchmark/Program.cs:71-72 | a tick difference becomes nanoseconds per round trip, truncated toward zero (bounds on both sides for either sign) |
| Detection.Deviation | NETAESBenchmark/Program.cs:71-72 | the managed call yields the per-iteration value of `elapsed - last`; the native call yields its negation, that is, the value of `last - elapsed` |
| Detection.RunningMean | NETAESBenchmark/Program.cs:71-72 | when neither `_avgDev * _sCount` nor the sum overflows, the update is `(mean * n + d) / (n + 1)` rounded toward zero |
| Detection.MeanWithinSamples | NETAESBenchmark/Program.cs:70-72 | with no overflow, the running mean of a non-empty sequence of samples lies between the smallest and the largest sample |
| Detection.RunningMeanIsNotBatchMean | NETAESBenchmark/Program.cs:70-72 | samples 1, 0, 2 leave the running mean at 0, not at their mean 1 |
| Detection.Next | NETAESBenchmark/Program.cs:54-113 | `_last` becomes the elapsed time. An occurrence happens exactly for a managed call strictly slower than `_last`. The mean and `_sCount` move exactly when `_begSize != 0`. `_begSize` is set only from 0, at the first occurrence. Native calls keep the streak and the snapshot. A managed non-occurrence clears the count. A report is produced exactly when the significance test holds, and it stops exactly when the margin is exceeded. The report's numbers are given. A continued report resets the streak. An unreported occurrence extends the streak and opens it at this size if the count was 0. The snapshot is taken exactly when the count ends at 1 |
| Detection.Detector.constructor | NETAESBenchmark/Program.cs:25-32 | all seven fields start at zero |
| Detection.Detector.Step | NETAESBenchmark/Program.cs:70-111 | the field updates, both halves of the significance test evaluated before the branch, leave exactly the state and verdict of `Next` |
| Detection.Detector.Benchmark | NETAESBenchmark/Program.cs:54-113 | after the selected runner, the detector takes the `Next` step for the name's role, with the payload length as the size; the provider's handle counters change as that runner's convention says |
| Scanner.SweepStep | NETAESBenchmark/Program.cs:48-49 | at one size the native call is always a timing line. The managed call is an occurrence exactly when it is slower than the native call at the same size. The sweep exits exactly on a Stop, and then the margin is exceeded. `_last` ends as the managed time. `_begSize` is set here exactly when it was 0 and managed was slower |
| Scanner.SweepLength | NETAESBenchmark/Program.cs:41 | a sweep produces at most two verdicts per remaining size, and exactly two per size when it runs to the end |
| Scanner.SweepStops | NETAESBenchmark/Program.cs:104 | a complete sweep contains no Stop. A sweep that exits ends on its only Stop, with the mean above the margin |
| Scanner.BenchmarkSize | NETAESBenchmark/Program.cs:43-49 | one pass of the loop body on a fresh payload of the given size takes the detector through `SweepStep` and yields its two verdicts |
| Scanner.Scan | NETAESBenchmark/Program.cs:34-52 | the loop of `Main` yields exactly the verdicts of `Sweep` from the initial state, and exits exactly when `Sweep` does |
| Scanner.InvInit | NETAESBenchmark/Program.cs:25-32 | the initial state satisfies the sweep's bookkeeping invariant |
| Scanner.SweepStepKeepsInv | NETAESBenchmark/Program.cs:70-110 | one size keeps the invariant, also when it stops. Before the first crossover, the mean, the count, the streak and the snapshot stay zero. A known crossover size was visited. An open streak covers consecutive sizes ending at the previous one. At most two samples per size are taken |
| Scanner.SweepKeepsInv | NETAESBenchmark/Program.cs:41-51 | the whole sweep keeps the invariant, so `_sCount` never exceeds two per size (3998) |
| Scanner.NoCrossoverNoReport | NETAESBenchmark/Program.cs:74 | if managed is never slower than native at the same size, every verdict is a timing line, the sweep never exits and `_begSize` is unchanged |
| Scanner.EqualTimingsNeverReport | NETAESBenchmark/Program.cs:41-51 | with identical timings the full sweep yields only timing lines, two per size, and runs to the end |
| Scanner.BeginSizeIsFirstCrossover | NETAESBenchmark/Program.cs:80 | `_begSize`, once set, never changes, and it is the first size at which managed was slower than native; if it ends 0, there was no such size |
| Scanner.JumpStopsOnMargin | NETAESBenchmark/Program.cs:70-104 | with a flat 100 ms native run and a managed run jumping to 150 ms from size 2, the sweep exits at size 3 with the report (2, 3, -7, 4, 0, 5000 ns) after one unreported occurrence at size 2 |

## Left out

- The stopwatch (`Stopwatch`, `Start`, `Stop`, `Reset`) and the wall clock. Elapsed ticks are inputs to `Benchmark`, `BenchmarkSize` and `Scan`.
- `RNGCryptoServiceProvider`. The random payload bytes come from a `noise` parameter. The random key, its size, the cipher mode and the padding are not modelled, because the cipher is abstract.
- Real AES (`AesCryptoServiceProvider`, `AesManaged`, CBC with PKCS7). A provider is an abstract pair of transforms. That decryption undoes encryption is a hypothesis of `RoundTripsPreservePayload`, not a fact about a real cipher.
- The exception the native provider's `CreateDecryptor` is said to throw on a second call (Program.cs:141-142). This is library behaviour and is not modelled.
- Detection.PerIterationNs: computes the deviation exactly from ticks, as `ticks * 100 / Iterations` truncated toward zero. It does not model the double-precision rounding of `TotalMilliseconds / _iterations * 0xF4240`.
- Detection.PerIterationNs: does not model an `(int)` cast of a value outside the 32-bit range.
- Detection.Next: models `_msVar > _margin`, that is `_avgDev / 1000000f > 0.001`, as `_avgDev > 1000`. Single-precision rounding could decide the boundary value 1000 either way.
- Detection.Next: keeps `_curVar` as the nanosecond integer it was computed from, not as a float in milliseconds. Its comparison with 0 (Program.cs:87) is the same in both units. It is also a report field, format argument `{4}` (Program.cs:96, 102), which the model reports in nanoseconds as `Report.fluctuationNs`; likewise `_msVar`, argument `{6}`, is reported in nanoseconds as `Report.savingNs`.
- TimeSpan subtraction overflow is not modelled: ticks are unbounded integers.
- `_cOcc` and `_sCount` are unbounded. `SweepKeepsInv` shows that `_sCount` stays at most 3998 over a sweep, and `_cOcc` cannot exceed the number of sizes.
- Console output, colours, the message text (Program.cs:58, 82-103) and the blocking `Console.ReadLine` on line 103. Its result is ignored, so only the verdict and the report's numbers are kept.
- `Environment.Exit(1)` (Program.cs:104). It becomes the `Stop` verdict, and `Scan` returns on it.
- Runners.EncryptDecryptDispose: returns the final buffer, which the source discards, so that the chaining can be stated. Runners.EncryptDecryptNDispose does the same.
- The disposal convention `_disposeEachCycle` is a field of `Detector`, set by its constructor. `Scan` passes the configured value. This keeps the unused branch of `Benchmark` verified rather than dead.
