/** The size sweep of `Main` (Program.cs:34-52): for every payload size from
    `StartSize` below `MaxSize`, benchmark the native provider and then the
    managed one on the same fresh random payload. The stopwatch readings are
    inputs: `nativeTicks(size)` and `managedTicks(size)` are the elapsed times
    the two runs at that size measure. */
module Scanner {
  import opened Settings
  import opened Runners
  import opened Detection

  /** The final detector state, every verdict in call order, and whether the
      run ended through `Environment.Exit(1)`. */
  datatype Outcome = Outcome(final: State, verdicts: seq<Verdict>, exited: bool)

  /** Number of sizes the sweep still visits from `size` on (the step is 1). */
  function Remaining(size: int): nat {
    if size < MaxSize then MaxSize - size else 0
  }

  /** One iteration of the sweep (Program.cs:48-49) on measured times. */
  function SweepStep(s: State, size: int, native: int, managed: int): (o: Outcome)
    ensures |o.verdicts| == 2 && o.verdicts[0] == Timing
    // the managed run is compared with the native run at the same size
    ensures o.verdicts[1] != Timing <==> managed > native
    ensures o.exited <==> o.verdicts[1].Stop?
    ensures o.exited ==> MarginExceeded(o.final.meanDeviationNs)
    ensures o.final.last == managed
    ensures o.final.beginSize == if s.beginSize == 0 && managed > native then size else s.beginSize
  {
    var a := Next(s, Native, size, native);
    var b := Next(a.next, Managed, size, managed);
    Outcome(b.next, [a.verdict, b.verdict], b.verdict.Stop?)
  }

  /** The outcome `o` with the verdicts `prefix` emitted before it. */
  function After(prefix: seq<Verdict>, o: Outcome): Outcome {
    Outcome(o.final, prefix + o.verdicts, o.exited)
  }

  /** The loop of `Main` from `size` on for any per-size step: stop after the
      last size below `MaxSize`, or right after a step that exits. */
  function Run(step: (State, int) -> Outcome, s: State, size: int): Outcome
    decreases MaxSize - size
  {
    if size >= MaxSize then
      Outcome(s, [], false)
    else
      var o := step(s, size);
      if o.exited then o else After(o.verdicts, Run(step, o.final, size + SizeStep))
  }

  /** The step of the sweep for the given stopwatch readings. */
  function StepAt(nativeTicks: int -> int, managedTicks: int -> int): (State, int) -> Outcome {
    (s: State, z: int) => SweepStep(s, z, nativeTicks(z), managedTicks(z))
  }

  /** The sweep from `size` on, ending early at the first Stop. */
  function Sweep(s: State, size: int, nativeTicks: int -> int, managedTicks: int -> int): Outcome {
    Run(StepAt(nativeTicks, managedTicks), s, size)
  }

  // ---------------------------------------------------------------------
  // The loop, for any step with the shape of `SweepStep`

  /** Every step emits two verdicts, the first a timing line, and exits
      exactly when the second is a Stop, which needs the margin exceeded. */
  ghost predicate Paired(step: (State, int) -> Outcome) {
    forall s, z ::
      |step(s, z).verdicts| == 2 && step(s, z).verdicts[0] == Timing &&
      (step(s, z).exited <==> step(s, z).verdicts[1].Stop?) &&
      (step(s, z).exited ==> MarginExceeded(step(s, z).final.meanDeviationNs))
  }

  lemma StepAtPaired(nativeTicks: int -> int, managedTicks: int -> int)
    ensures Paired(StepAt(nativeTicks, managedTicks))
  {
    forall s, z ensures
      var o := StepAt(nativeTicks, managedTicks)(s, z);
      |o.verdicts| == 2 && o.verdicts[0] == Timing &&
      (o.exited <==> o.verdicts[1].Stop?) && (o.exited ==> MarginExceeded(o.final.meanDeviationNs))
    {
      assert StepAt(nativeTicks, managedTicks)(s, z) == SweepStep(s, z, nativeTicks(z), managedTicks(z));
    }
  }

  lemma {:induction false} RunLength(step: (State, int) -> Outcome, s: State, size: int)
    requires Paired(step)
    decreases MaxSize - size
    ensures var o := Run(step, s, size);
      |o.verdicts| <= 2 * Remaining(size) && (!o.exited ==> |o.verdicts| == 2 * Remaining(size))
  {
    if size < MaxSize && !step(s, size).exited {
      RunLength(step, step(s, size).final, size + SizeStep);
    }
  }

  lemma {:induction false} RunCompleteHasNoStop(step: (State, int) -> Outcome, s: State, size: int)
    requires Paired(step)
    decreases MaxSize - size
    ensures var o := Run(step, s, size);
      !o.exited ==> forall v :: v in o.verdicts ==> !v.Stop?
  {
    if size < MaxSize && !step(s, size).exited {
      RunCompleteHasNoStop(step, step(s, size).final, size + SizeStep);
    }
  }

  lemma {:induction false} RunExitEndsOnStop(step: (State, int) -> Outcome, s: State, size: int)
    requires Paired(step)
    decreases MaxSize - size
    ensures var o := Run(step, s, size);
      o.exited ==>
        2 <= |o.verdicts| && o.verdicts[|o.verdicts| - 1].Stop? && MarginExceeded(o.final.meanDeviationNs) &&
        forall v :: v in o.verdicts[..|o.verdicts| - 1] ==> !v.Stop?
  {
    if size < MaxSize {
      var o := step(s, size);
      if o.exited {
        assert o.verdicts[..1] == [o.verdicts[0]];
      } else {
        RunExitEndsOnStop(step, o.final, size + SizeStep);
        var rest := Run(step, o.final, size + SizeStep);
        if rest.exited {
          var whole := After(o.verdicts, rest);
          assert whole.verdicts[..|whole.verdicts| - 1] == o.verdicts + rest.verdicts[..|rest.verdicts| - 1];
        }
      }
    }
  }

  /** A property `P` of the state and the next size that every continuing
      step keeps, and that every exiting step turns into `Q`: after the loop
      `P` holds at `MaxSize` when the loop runs to the end, and `Q` when it
      exits. */
  lemma {:induction false} RunKeeps(step: (State, int) -> Outcome, P: (State, int) -> bool, Q: State -> bool,
                                    s: State, z: int)
    requires z <= MaxSize && P(s, z)
    requires forall s', z' {:trigger step(s', z')} :: z' < MaxSize && P(s', z') ==>
      if step(s', z').exited then Q(step(s', z').final) else P(step(s', z').final, z' + SizeStep)
    decreases MaxSize - z
    ensures var o := Run(step, s, z);
      (!o.exited ==> P(o.final, MaxSize)) && (o.exited ==> Q(o.final))
  {
    if z < MaxSize && !step(s, z).exited {
      RunKeeps(step, P, Q, step(s, z).final, z + SizeStep);
    }
  }

  /** Steps that emit two timing lines, never exit and keep `_begSize` give a
      loop that does the same. */
  lemma {:induction false} RunQuiet(step: (State, int) -> Outcome, s: State, z: int)
    requires forall s', z' {:trigger step(s', z')} :: z <= z' < MaxSize ==>
      step(s', z').verdicts == [Timing, Timing] && !step(s', z').exited &&
      step(s', z').final.beginSize == s'.beginSize
    decreases MaxSize - z
    ensures var o := Run(step, s, z);
      !o.exited && (forall v :: v in o.verdicts ==> v == Timing) && o.final.beginSize == s.beginSize
  {
    if z < MaxSize {
      RunQuiet(step, step(s, z).final, z + SizeStep);
    }
  }

  // ---------------------------------------------------------------------
  // The sweep

  lemma SweepLength(s: State, size: int, nativeTicks: int -> int, managedTicks: int -> int)
    ensures var o := Sweep(s, size, nativeTicks, managedTicks);
      |o.verdicts| <= 2 * Remaining(size) && (!o.exited ==> |o.verdicts| == 2 * Remaining(size))
  {
    StepAtPaired(nativeTicks, managedTicks);
    RunLength(StepAt(nativeTicks, managedTicks), s, size);
  }

  lemma SweepStops(s: State, size: int, nativeTicks: int -> int, managedTicks: int -> int)
    ensures var o := Sweep(s, size, nativeTicks, managedTicks);
      (!o.exited ==> forall v :: v in o.verdicts ==> !v.Stop?) &&
      (o.exited ==>
        2 <= |o.verdicts| && o.verdicts[|o.verdicts| - 1].Stop? && MarginExceeded(o.final.meanDeviationNs) &&
        forall v :: v in o.verdicts[..|o.verdicts| - 1] ==> !v.Stop?)
  {
    StepAtPaired(nativeTicks, managedTicks);
    RunCompleteHasNoStop(StepAt(nativeTicks, managedTicks), s, size);
    RunExitEndsOnStop(StepAt(nativeTicks, managedTicks), s, size);
  }

  lemma AfterAfter(a: seq<Verdict>, b: seq<Verdict>, o: Outcome)
    ensures After(a, After(b, o)) == After(a + b, o)
  {
    assert a + (b + o.verdicts) == (a + b) + o.verdicts;
  }

  /** One unfolding of the sweep. */
  lemma SweepUnfold(s: State, size: int, nativeTicks: int -> int, managedTicks: int -> int)
    requires size < MaxSize
    ensures var step := SweepStep(s, size, nativeTicks(size), managedTicks(size));
      Sweep(s, size, nativeTicks, managedTicks)
        == if step.exited then step
           else After(step.verdicts, Sweep(step.final, size + SizeStep, nativeTicks, managedTicks))
  {
  }

  /** One size further into the sweep, for the loop of `Scan`. */
  lemma SweepAdvance(whole: Outcome, before: seq<Verdict>, s: State, size: int,
                     nativeTicks: int -> int, managedTicks: int -> int)
    requires size < MaxSize
    requires whole == After(before, Sweep(s, size, nativeTicks, managedTicks))
    ensures var step := SweepStep(s, size, nativeTicks(size), managedTicks(size));
      whole == if step.exited then After(before, step)
               else After(before + step.verdicts, Sweep(step.final, size + SizeStep, nativeTicks, managedTicks))
  {
    var step := SweepStep(s, size, nativeTicks(size), managedTicks(size));
    SweepUnfold(s, size, nativeTicks, managedTicks);
    if !step.exited {
      AfterAfter(before, step.verdicts, Sweep(step.final, size + SizeStep, nativeTicks, managedTicks));
    }
  }

  /** One pass of the loop body of `Main` (Program.cs:43-50): a fresh payload
      of `size` random bytes and, for each provider in turn, a fresh provider
      object benchmarked on it. */
  method BenchmarkSize(detector: Detector, size: int, nativeTicks: int, managedTicks: int,
                       noise: (int, int) -> bv8, cipher: Cipher)
    returns (step: seq<Verdict>)
    requires size >= 0
    modifies detector
    ensures var o := SweepStep(old(detector.Current()), size, nativeTicks, managedTicks);
      detector.Current() == o.final && step == o.verdicts
  {
    var data := seq(size, i => noise(size, i));
    var native := new Algorithm(cipher);
    var v := detector.Benchmark(NativeName, native, data, nativeTicks);
    var managed := new Algorithm(cipher);
    var w := detector.Benchmark(ManagedName, managed, data, managedTicks);
    step := [v, w];
  }

  /** `Main` (Program.cs:34-52). The random payload bytes come from `noise`; a
      fresh provider object is made for each run, both over `cipher`. A native
      run is never an occurrence, so only the managed run can stop the sweep. */
  method Scan(nativeTicks: int -> int, managedTicks: int -> int, noise: (int, int) -> bv8, cipher: Cipher)
    returns (verdicts: seq<Verdict>, exited: bool)
    ensures var o := Sweep(Init, StartSize, nativeTicks, managedTicks);
      verdicts == o.verdicts && exited == o.exited
  {
    ghost var whole := Sweep(Init, StartSize, nativeTicks, managedTicks);
    var detector := new Detector(DisposeEachCycle);
    verdicts, exited := [], false;
    var size := StartSize;
    while size < MaxSize
      invariant StartSize <= size <= MaxSize
      invariant whole == After(verdicts, Sweep(detector.Current(), size, nativeTicks, managedTicks))
      decreases MaxSize - size
    {
      SweepAdvance(whole, verdicts, detector.Current(), size, nativeTicks, managedTicks);
      var step := BenchmarkSize(detector, size, nativeTicks(size), managedTicks(size), noise, cipher);
      verdicts := verdicts + step;
      if step[1].Stop? {
        exited := true;
        return;
      }
      size := size + SizeStep;
    }
  }

  // ---------------------------------------------------------------------
  // Properties of the sweep

  /** The bookkeeping that holds before the sweep visits size `z`:
      - until the first crossover the mean, its sample count, the streak and the
        snapshot are all untouched;
      - a known crossover size lies among the sizes already visited;
      - an open streak is a run of consecutive sizes that ends at the previous
        size and starts no earlier than the first crossover;
      - at most two samples per visited size have been averaged. */
  ghost predicate Inv(s: State, z: int) {
    StartSize <= z &&
    (s.beginSize == 0 ==>
      s.sampleCount == 0 && s.meanDeviationNs == 0 && s.streakCount == 0 &&
      s.streakStartSize == 0 && s.snapshotNs == 0) &&
    (s.beginSize != 0 ==> StartSize <= s.beginSize < z) &&
    0 <= s.streakCount &&
    (s.streakCount > 0 ==>
      s.beginSize <= s.streakStartSize &&
      s.streakStartSize + (s.streakCount - 1) * SizeStep == z - SizeStep) &&
    s.sampleCount <= 2 * (z - StartSize)
  }

  lemma InvInit()
    ensures Inv(Init, StartSize)
  {
  }

  /** One size of the sweep keeps the bookkeeping invariant, also when it stops. */
  lemma SweepStepKeepsInv(s: State, z: int, native: int, managed: int)
    requires Inv(s, z)
    ensures Inv(SweepStep(s, z, native, managed).final, z + SizeStep)
  {
  }

  /** The whole sweep keeps the invariant; in particular `_sCount` never exceeds
      two samples per size, far below the 32-bit range. */
  lemma SweepKeepsInv(s: State, z: int, nativeTicks: int -> int, managedTicks: int -> int)
    requires Inv(s, z) && z <= MaxSize
    ensures var o := Sweep(s, z, nativeTicks, managedTicks);
      o.final.sampleCount <= 2 * (MaxSize - StartSize) &&
      (!o.exited ==> Inv(o.final, MaxSize))
  {
    var step := StepAt(nativeTicks, managedTicks);
    var P := (s': State, z': int) => Inv(s', z');
    var Q := (s': State) => s'.sampleCount <= 2 * (MaxSize - StartSize);
    forall s': State, z': int | z' < MaxSize && P(s', z')
      ensures if step(s', z').exited then Q(step(s', z').final) else P(step(s', z').final, z' + SizeStep)
    {
      SweepStepKeepsInv(s', z', nativeTicks(z'), managedTicks(z'));
    }
    RunKeeps(step, P, Q, s, z);
  }

  /** No size in `[lo, hi)` where the managed run is slower than the native one. */
  ghost predicate NoCrossoverIn(nativeTicks: int -> int, managedTicks: int -> int, lo: int, hi: int) {
    forall z :: lo <= z < hi ==> managedTicks(z) <= nativeTicks(z)
  }

  /** When the managed provider is never slower than the native one at the
      same size, no occurrence is ever seen: every verdict is a timing line,
      the sweep runs to the end, and the first-crossover size stays unset. */
  lemma NoCrossoverNoReport(s: State, z: int, nativeTicks: int -> int, managedTicks: int -> int)
    requires NoCrossoverIn(nativeTicks, managedTicks, z, MaxSize)
    ensures var o := Sweep(s, z, nativeTicks, managedTicks);
      !o.exited && (forall v :: v in o.verdicts ==> v == Timing) &&
      o.final.beginSize == s.beginSize
  {
    var step := StepAt(nativeTicks, managedTicks);
    forall s': State, z': int | z <= z' < MaxSize
      ensures step(s', z').verdicts == [Timing, Timing] && !step(s', z').exited &&
        step(s', z').final.beginSize == s'.beginSize
    {
      var o := SweepStep(s', z', nativeTicks(z'), managedTicks(z'));
      assert o.verdicts == [Timing, Timing];
    }
    RunQuiet(step, s, z);
  }

  /** Identical timings of both providers at every size: the full sweep yields
      only timing lines, two per size, and never stops. */
  lemma EqualTimingsNeverReport(ticks: int -> int)
    ensures var o := Sweep(Init, StartSize, ticks, ticks);
      !o.exited && |o.verdicts| == 2 * (MaxSize - StartSize) &&
      forall v :: v in o.verdicts ==> v == Timing
  {
    NoCrossoverNoReport(Init, StartSize, ticks, ticks);
    SweepLength(Init, StartSize, ticks, ticks);
  }

  /** `b` is the first size of the sweep at which managed was slower than native. */
  ghost predicate FirstCrossoverAt(nativeTicks: int -> int, managedTicks: int -> int, b: int) {
    StartSize <= b && managedTicks(b) > nativeTicks(b) && NoCrossoverIn(nativeTicks, managedTicks, StartSize, b)
  }

  /** What `_begSize` records about the sizes before `z`. */
  ghost predicate BeginSizeRecords(s: State, z: int, nativeTicks: int -> int, managedTicks: int -> int) {
    if s.beginSize == 0 then NoCrossoverIn(nativeTicks, managedTicks, StartSize, z)
    else FirstCrossoverAt(nativeTicks, managedTicks, s.beginSize)
  }

  /** `_begSize`, once set, never changes again, and it is set to the first
      size at which the managed provider was slower than the native one; if it
      is still 0 at the end, there was no such size. */
  lemma BeginSizeIsFirstCrossover(s: State, z: int, nativeTicks: int -> int, managedTicks: int -> int)
    requires StartSize <= z <= MaxSize
    requires BeginSizeRecords(s, z, nativeTicks, managedTicks)
    ensures var o := Sweep(s, z, nativeTicks, managedTicks);
      (s.beginSize != 0 ==> o.final.beginSize == s.beginSize) &&
      (o.final.beginSize != 0 ==> FirstCrossoverAt(nativeTicks, managedTicks, o.final.beginSize)) &&
      (o.final.beginSize == 0 ==> NoCrossoverIn(nativeTicks, managedTicks, StartSize, MaxSize))
  {
    var step := StepAt(nativeTicks, managedTicks);
    var b := s.beginSize;
    var P := (s': State, z': int) =>
      StartSize <= z' && BeginSizeRecords(s', z', nativeTicks, managedTicks) && (b != 0 ==> s'.beginSize == b);
    // a step that stops has seen an occurrence, so `_begSize` is set by then
    var Q := (s': State) =>
      s'.beginSize != 0 && FirstCrossoverAt(nativeTicks, managedTicks, s'.beginSize) && (b != 0 ==> s'.beginSize == b);
    forall s': State, z': int | z' < MaxSize && P(s', z')
      ensures if step(s', z').exited then Q(step(s', z').final) else P(step(s', z').final, z' + SizeStep)
    {
      var o := SweepStep(s', z', nativeTicks(z'), managedTicks(z'));
      assert BeginSizeRecords(o.final, z' + SizeStep, nativeTicks, managedTicks);
    }
    RunKeeps(step, P, Q, s, z);
  }

  // ---------------------------------------------------------------------
  // A concrete run

  /** Both providers take 100 ms (1 000 000 ticks) at every size. */
  function FlatTicks(size: int): int {
    1_000_000
  }

  /** The managed provider matches the native one at the first size and is
      50 ms slower at every later size. */
  function JumpTicks(size: int): int {
    if size == StartSize then 1_000_000 else 1_500_000
  }

  /** With a 50 ms jump from size 2 on, the managed run at size 2 is the first
      occurrence (it is slower than the native run at the same size), which
      fixes the crossover size at 2 and opens a streak without a report. From
      then on both runs at size 3 are averaged: the native run's sample is
      `last - elapsed`, 5000 ns per round trip, the managed run's another
      5000 ns, so the mean passes the 1000 ns margin at the second occurrence
      and the sweep stops at size 3. */
  lemma JumpStopsOnMargin()
    ensures var o := Sweep(Init, StartSize, FlatTicks, JumpTicks);
      o.exited &&
      o.verdicts == [Timing, Timing, Timing, Occurrence(None), Timing, Stop(Report(2, 3, -7, 4, 0, 5000))]
  {
    var s1 := State(1_000_000, 0, 0, 0, 0, 0, 0);
    var s2 := State(1_500_000, 2, 2, 1, 0, 0, 0);
    var stop := Stop(Report(2, 3, -7, 4, 0, 5000));
    JumpSize1();
    JumpSize2();
    JumpSize3();
    SweepUnfold(s2, 3, FlatTicks, JumpTicks);
    SweepUnfold(s1, 2, FlatTicks, JumpTicks);
    SweepUnfold(Init, 1, FlatTicks, JumpTicks);
    ThreePairs(Timing, Timing, Timing, Occurrence(None), Timing, stop);
  }

  lemma ThreePairs(a: Verdict, b: Verdict, c: Verdict, d: Verdict, e: Verdict, f: Verdict)
    ensures [a, b] + ([c, d] + [e, f]) == [a, b, c, d, e, f]
  {
  }

  /** Size 1: equal times, no occurrence. */
  lemma JumpSize1()
    ensures SweepStep(Init, 1, FlatTicks(1), JumpTicks(1)) == Outcome(State(1_000_000, 0, 0, 0, 0, 0, 0), [Timing, Timing], false)
  {
    var s1 := State(1_000_000, 0, 0, 0, 0, 0, 0);
    assert Next(Init, Native, 1, 1_000_000) == StepResult(s1, Timing);
    assert Next(s1, Managed, 1, 1_000_000) == StepResult(s1, Timing);
  }

  /** Size 2: the first occurrence fixes the crossover size and opens a streak. */
  lemma JumpSize2()
    ensures SweepStep(State(1_000_000, 0, 0, 0, 0, 0, 0), 2, FlatTicks(2), JumpTicks(2))
         == Outcome(State(1_500_000, 2, 2, 1, 0, 0, 0), [Timing, Occurrence(None)], false)
  {
    var s1 := State(1_000_000, 0, 0, 0, 0, 0, 0);
    assert Next(s1, Native, 2, 1_000_000) == StepResult(s1, Timing);
    assert Next(s1, Managed, 2, 1_500_000) == StepResult(State(1_500_000, 2, 2, 1, 0, 0, 0), Occurrence(None));
  }

  /** Size 3: two samples of 5000 ns put the mean past the margin. */
  lemma JumpSize3()
    ensures SweepStep(State(1_500_000, 2, 2, 1, 0, 0, 0), 3, FlatTicks(3), JumpTicks(3))
         == Outcome(State(1_500_000, 2, 2, 2, 0, 2, 5000), [Timing, Stop(Report(2, 3, -7, 4, 0, 5000))], true)
  {
    var s3 := State(1_000_000, 2, 2, 1, 0, 1, 5000);
    assert Next(State(1_500_000, 2, 2, 1, 0, 0, 0), Native, 3, 1_000_000) == StepResult(s3, Timing);
    assert Next(s3, Managed, 3, 1_500_000)
        == StepResult(State(1_500_000, 2, 2, 2, 0, 2, 5000), Stop(Report(2, 3, -7, 4, 0, 5000)));
  }
}
