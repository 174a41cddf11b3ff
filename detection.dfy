/** The crossover-detection state machine of `Benchmark` (Program.cs:54-113).
    Every call of `Benchmark` is one step: it receives the provider's role, the
    payload size and the provider's elapsed time in ticks, updates the seven
    static fields of Program.cs:25-32 and yields a verdict. */
module Detection {
  import opened Settings
  import opened Arith
  import opened Runners

  /** Which provider is being measured; decided by the name check of Program.cs:60. */
  datatype Role = Native | Managed

  function RoleOf(name: string): (r: Role)
    ensures r == Managed <==> name == ManagedName
  {
    if name == ManagedName then Managed else Native
  }

  /** The detector's state, one component per static field:
      last = `_last` (ticks), beginSize = `_begSize`, streakStartSize = `_cOcSz`,
      streakCount = `_cOcc`, snapshotNs = `_curVar`, sampleCount = `_sCount`,
      meanDeviationNs = `_avgDev`. `_curVar` holds a millisecond value
      `_avgDev / 1e6`; it is kept here as the nanosecond value it was made from. */
  datatype State = State(
    last: int,
    beginSize: int,
    streakStartSize: int,
    streakCount: int,
    snapshotNs: int,
    sampleCount: nat,
    meanDeviationNs: int)

  /** All seven fields start at zero. */
  const Init: State := State(0, 0, 0, 0, 0, 0, 0)

  datatype Option<T> = None | Some(value: T)

  /** The numbers the significance report prints (Program.cs:102), in order:
      the size below which managed AES wins, the first and last size of the
      near-identical range, the size above which native AES wins, the
      snapshot variance and the current margin (both in nanoseconds). */
  datatype Report = Report(
    managedBelow: int,
    identicalFrom: int,
    identicalTo: int,
    nativeAbove: int,
    fluctuationNs: int,
    savingNs: int)

  /** What one step yields: a plain timing line, a crossover occurrence (with
      the report when it was judged significant), or Stop, which stands for
      `Environment.Exit(1)`. */
  datatype Verdict =
    | Timing
    | Occurrence(report: Option<Report>)
    | Stop(final: Report)

  datatype StepResult = StepResult(next: State, verdict: Verdict)

  /** A tick difference turned into nanoseconds per round trip, truncated
      toward zero as the `(int)` cast does. */
  function PerIterationNs(diffTicks: int): (ns: int)
    ensures 0 <= diffTicks ==> 0 <= ns && ns * Iterations <= diffTicks * NsPerTick < (ns + 1) * Iterations
    ensures diffTicks < 0 ==> ns <= 0 && (ns - 1) * Iterations < diffTicks * NsPerTick <= ns * Iterations
  {
    TruncDivBounds(diffTicks * NsPerTick, Iterations);
    TruncDiv(diffTicks * NsPerTick, Iterations)
  }

  /** The per-iteration deviation fed into the running mean (Program.cs:71-72):
      the managed provider measures `elapsed - last`, the native one `last - elapsed`,
      so the two roles see opposite signs for the same pair of times. */
  function Deviation(role: Role, last: int, elapsed: int): (d: int)
    ensures d == if role == Managed then PerIterationNs(elapsed - last) else -PerIterationNs(elapsed - last)
  {
    TruncDivNegate(elapsed * NsPerTick - last * NsPerTick, Iterations);
    PerIterationNs(if role == Managed then elapsed - last else last - elapsed)
  }

  /** `(_avgDev * _sCount++ + d) / _sCount` in C#'s unchecked 32-bit arithmetic.
      Without overflow it is the mean of `n` samples averaging `mean` and one
      more sample `d`, truncated toward zero. */
  function RunningMean(mean: int, n: nat, d: int): (r: int)
    ensures InInt32(mean * n) && InInt32(mean * n + d) ==> r == TruncDiv(mean * n + d, n + 1)
  {
    Wrap32Spec(mean * n);
    Wrap32Spec(Wrap32(mean * n) + d);
    TruncDiv(Wrap32(Wrap32(mean * n) + d), n + 1)
  }

  /** `_avgDev` after the samples `ds` have been fed, in order, to a mean
      that starts at 0 with no samples (the initial field values). */
  function MeanOf(ds: seq<int>): int {
    if |ds| == 0 then 0 else RunningMean(MeanOf(ds[..|ds| - 1]), |ds| - 1, ds[|ds| - 1])
  }

  /** Multiplying by a natural number is monotone. */
  lemma {:induction false} MulMono(a: int, c: int, b: nat)
    ensures a <= c ==> a * b <= c * b
  {
    if b > 0 {
      MulMono(a, c, b - 1);
      assert a * b == a * (b - 1) + a;
      assert c * b == c * (b - 1) + c;
    }
  }

  /** A strict inequality between multiples of a positive number is one
      between the factors. */
  lemma MulCancel(p: int, r: int, b: int)
    requires b > 0
    ensures p * b < r * b ==> p < r
  {
    MulMono(r, p, b);
  }

  lemma TruncDivWithin(x: int, b: int, lo: int, hi: int)
    requires b > 0 && lo * b <= x <= hi * b
    ensures lo <= TruncDiv(x, b) <= hi
  {
    var q := TruncDiv(x, b);
    TruncDivBounds(x, b);
    assert (q + 1) * b == q * b + b;
    assert (q - 1) * b == q * b - b;
    assert (hi + 1) * b == hi * b + b;
    if x >= 0 {
      MulCancel(lo, q + 1, b);
      MulCancel(q, hi + 1, b);
    } else {
      MulCancel(q - 1, hi, b);
      MulCancel(lo, q + 1, b);
    }
  }

  /** One update of the mean with no overflow keeps it within `[lo, hi]`. */
  lemma RunningMeanWithin(m: int, n: nat, d: int, lo: int, hi: int, bound: int)
    requires lo <= m <= hi && lo <= d <= hi
    requires 0 <= bound && -bound <= lo && hi <= bound && bound * (n + 1) < Two31
    ensures lo <= RunningMean(m, n, d) <= hi
  {
    MulMono(-bound, m, n);
    MulMono(m, bound, n);
    MulMono(lo, m, n);
    MulMono(m, hi, n);
    assert bound * (n + 1) == bound * n + bound;
    assert (-bound) * n == -(bound * n);
    assert lo * (n + 1) == lo * n + lo;
    assert hi * (n + 1) == hi * n + hi;
    assert InInt32(m * n) && InInt32(m * n + d);
    TruncDivWithin(m * n + d, n + 1, lo, hi);
  }

  /** As long as no intermediate value overflows 32 bits, the running mean
      stays between the smallest and the largest sample fed to it: the
      truncating update never drifts outside the samples' range. */
  lemma {:induction false} MeanWithinSamples(ds: seq<int>, lo: int, hi: int, bound: int)
    requires |ds| > 0
    requires forall i :: 0 <= i < |ds| ==> lo <= ds[i] <= hi
    requires 0 <= bound && -bound <= lo && hi <= bound && bound * |ds| < Two31
    ensures lo <= MeanOf(ds) <= hi
  {
    var n := |ds| - 1;
    var init := ds[..n];
    if n == 0 {
      assert MeanOf(ds) == RunningMean(0, 0, ds[0]);
      RunningMeanWithin(lo, 0, ds[0], lo, hi, bound);
    } else {
      assert forall i :: 0 <= i < |init| ==> init[i] == ds[i];
      MulMono(|init|, |ds|, bound);
      MeanWithinSamples(init, lo, hi, bound);
      RunningMeanWithin(MeanOf(init), n, ds[n], lo, hi, bound);
    }
  }

  /** The update truncates at every step, so the result is in general not the
      truncated arithmetic mean of the samples: 1, 0, 2 average to 1, but the
      running mean ends at 0. */
  lemma RunningMeanIsNotBatchMean()
    ensures MeanOf([1, 0, 2]) == 0
  {
  }

  /** `_msVar > _margin`, with the margin in nanoseconds. */
  predicate MarginExceeded(meanNs: int) {
    meanNs > MarginNs
  }

  /** A crossover occurrence: the managed provider took strictly longer than
      the previous call (Program.cs:74). */
  predicate IsOccurrence(s: State, role: Role, elapsed: int) {
    role == Managed && elapsed > s.last
  }

  /** The significance test of Program.cs:87 with both halves evaluated. */
  predicate ReportDue(streakCount: int, snapshotNs: int, meanNs: int) {
    (streakCount >= MinOccurrences && snapshotNs > 0) || MarginExceeded(meanNs)
  }

  /** Program.cs:70-72: the mean is updated only once a crossover size is known. */
  function Averaged(s: State, role: Role, elapsed: int): State {
    if s.beginSize != 0 then
      s.(sampleCount := s.sampleCount + 1,
         meanDeviationNs := RunningMean(s.meanDeviationNs, s.sampleCount, Deviation(role, s.last, elapsed)))
    else
      s
  }

  /** Program.cs:107: the variance snapshot is taken at the first occurrence of a streak. */
  function TakeSnapshot(s: State, msVar: int): State {
    if s.streakCount == 1 then s.(snapshotNs := msVar) else s
  }

  /** Program.cs:76-108, the occurrence branch, applied to the averaged state. */
  function Occur(a: State, size: int, elapsed: int): StepResult {
    var s1 := a.(last := elapsed,
                 beginSize := if a.beginSize == 0 then size else a.beginSize,
                 streakStartSize := if a.streakCount == 0 then size else a.streakStartSize,
                 streakCount := a.streakCount + 1);
    var msVar := s1.meanDeviationNs;
    if ReportDue(s1.streakCount, s1.snapshotNs, msVar) then
      var report := Report(s1.beginSize, s1.beginSize + 1, size - MinOccurrences * SizeStep,
                           size + 1, s1.snapshotNs, msVar);
      if MarginExceeded(msVar) then
        StepResult(s1, Stop(report))
      else
        StepResult(TakeSnapshot(s1.(streakCount := 0, streakStartSize := 0), msVar), Occurrence(Some(report)))
    else
      StepResult(TakeSnapshot(s1, msVar), Occurrence(None))
  }

  /** One call of `Benchmark` as a transition on the detector's state. */
  function Next(s: State, role: Role, size: int, elapsed: int): (r: StepResult)
    // `_last` always ends up as this call's elapsed time (Program.cs:78, 111)
    ensures r.next.last == elapsed
    // an occurrence exactly when managed is strictly slower than `_last`
    ensures r.verdict != Timing <==> IsOccurrence(s, role, elapsed)
    // the running mean moves only once the first crossover size is known
    ensures s.beginSize != 0 ==>
      r.next.sampleCount == s.sampleCount + 1 &&
      r.next.meanDeviationNs == RunningMean(s.meanDeviationNs, s.sampleCount, Deviation(role, s.last, elapsed))
    ensures s.beginSize == 0 ==>
      r.next.sampleCount == s.sampleCount && r.next.meanDeviationNs == s.meanDeviationNs
    // `_begSize` is set once, at the first occurrence
    ensures r.next.beginSize == if s.beginSize == 0 && IsOccurrence(s, role, elapsed) then size else s.beginSize
    // native calls never touch the streak bookkeeping
    ensures role == Native ==>
      r.next.streakCount == s.streakCount && r.next.streakStartSize == s.streakStartSize &&
      r.next.snapshotNs == s.snapshotNs
    // a managed call that is no occurrence ends the streak
    ensures role == Managed && !IsOccurrence(s, role, elapsed) ==>
      r.next.streakCount == 0 && r.next.streakStartSize == s.streakStartSize &&
      r.next.snapshotNs == s.snapshotNs
    // an occurrence is reported exactly when the significance test holds ...
    ensures IsOccurrence(s, role, elapsed) ==>
      ((r.verdict.Stop? || r.verdict.report.Some?) <==>
       ReportDue(s.streakCount + 1, s.snapshotNs, r.next.meanDeviationNs))
    // ... and it stops the run exactly when the margin is exceeded
    ensures r.verdict.Stop? <==> IsOccurrence(s, role, elapsed) && MarginExceeded(r.next.meanDeviationNs)
    // the report's numbers
    ensures r.verdict.Stop? || (r.verdict.Occurrence? && r.verdict.report.Some?) ==>
      var rep := if r.verdict.Stop? then r.verdict.final else r.verdict.report.value;
      rep == Report(r.next.beginSize, r.next.beginSize + 1, size - MinOccurrences * SizeStep,
                    size + 1, s.snapshotNs, r.next.meanDeviationNs)
    // a reported and continued episode resets the streak
    ensures r.verdict.Occurrence? && r.verdict.report.Some? ==>
      r.next.streakCount == 0 && r.next.streakStartSize == 0
    // an unreported occurrence extends the streak, which starts at this size if it was empty
    ensures r.verdict == Occurrence(None) ==>
      r.next.streakCount == s.streakCount + 1 &&
      r.next.streakStartSize == (if s.streakCount == 0 then size else s.streakStartSize)
    // the snapshot is overwritten exactly when the streak count is 1 after the occurrence
    ensures r.verdict.Occurrence? ==>
      r.next.snapshotNs == (if r.next.streakCount == 1 then r.next.meanDeviationNs else s.snapshotNs)
  {
    var a := Averaged(s, role, elapsed);
    if IsOccurrence(s, role, elapsed) then
      Occur(a, size, elapsed)
    else
      StepResult(a.(streakCount := if role == Managed then 0 else a.streakCount, last := elapsed), Timing)
  }

  /** The static fields of `Program` that `Benchmark` updates, as one object. */
  class Detector {
    /** The runner convention (`_disposeEachCycle`). */
    const disposeEachCycle: bool

    var last: int
    var beginSize: int
    var streakStartSize: int
    var streakCount: int
    var snapshotNs: int
    var sampleCount: nat
    var meanDeviationNs: int

    function Current(): State
      reads this
    {
      State(last, beginSize, streakStartSize, streakCount, snapshotNs, sampleCount, meanDeviationNs)
    }

    constructor (disposeEachCycle: bool)
      ensures this.disposeEachCycle == disposeEachCycle
      ensures Current() == Init
    {
      this.disposeEachCycle := disposeEachCycle;
      last, beginSize, streakStartSize, streakCount := 0, 0, 0, 0;
      snapshotNs, sampleCount, meanDeviationNs := 0, 0, 0;
    }

    /** Program.cs:70-111: the state update after the runner has finished. */
    method Step(role: Role, size: int, elapsed: int) returns (v: Verdict)
      modifies this
      ensures var r := Next(old(Current()), role, size, elapsed);
        Current() == r.next && v == r.verdict
    {
      if beginSize != 0 {
        var d := Deviation(role, last, elapsed);
        var n := sampleCount;
        sampleCount := sampleCount + 1;
        meanDeviationNs := TruncDiv(Wrap32(Wrap32(meanDeviationNs * n) + d), sampleCount);
      }
      if role == Managed && elapsed > last {
        last := elapsed;
        if beginSize == 0 {
          beginSize := size;
        }
        if streakCount == 0 {
          streakStartSize := size;
        }
        streakCount := streakCount + 1;
        // `&` and `|` do not short-circuit: the margin is always computed
        var msVar := meanDeviationNs;
        var streakHalf := streakCount >= MinOccurrences && snapshotNs > 0;
        var marginHalf := MarginExceeded(msVar);
        v := Occurrence(None);
        if streakHalf || marginHalf {
          var marginNotReached := msVar <= MarginNs;
          var report := Report(beginSize, beginSize + 1, size - MinOccurrences * SizeStep,
                               size + 1, snapshotNs, msVar);
          if !marginNotReached {
            return Stop(report);
          }
          streakCount, streakStartSize := 0, 0;
          v := Occurrence(Some(report));
        }
        if streakCount == 1 {
          snapshotNs := msVar;
        }
        return;
      }
      if role == Managed {
        streakCount := 0;
      }
      last := elapsed;
      v := Timing;
    }

    /** `Benchmark` (Program.cs:54-113): run the selected round-trip runner on
        the provider, then feed the measured time into the detector. The size
        is the payload's length. */
    method Benchmark(name: string, aes: Algorithm, data: Bytes, elapsed: int) returns (v: Verdict)
      modifies this, aes
      ensures var r := Next(old(Current()), RoleOf(name), |data|, elapsed);
        Current() == r.next && v == r.verdict
      ensures disposeEachCycle ==>
        aes.encryptorsCreated == old(aes.encryptorsCreated) + Iterations &&
        aes.decryptorsCreated == old(aes.decryptorsCreated) + Iterations &&
        aes.encryptorsDisposed == old(aes.encryptorsDisposed) + Iterations &&
        aes.decryptorsDisposed == old(aes.decryptorsDisposed) + Iterations
      ensures !disposeEachCycle ==>
        aes.encryptorsCreated == old(aes.encryptorsCreated) + 1 &&
        aes.decryptorsCreated == old(aes.decryptorsCreated) + (if RoleOf(name) == Native then 1 + Iterations else 1) &&
        aes.encryptorsDisposed == old(aes.encryptorsDisposed) + 1 &&
        aes.decryptorsDisposed == old(aes.decryptorsDisposed) + 1
    {
      var size := |data|;
      var role := RoleOf(name);
      if disposeEachCycle {
        var roundTripped := EncryptDecryptDispose(aes, data);
      } else {
        var roundTripped := EncryptDecryptNDispose(aes, data, role != Managed);
      }
      v := Step(role, size, elapsed);
    }
  }
}
