/** The fixed run configuration of the benchmark (the "Settings" region of
    Program.cs). None of these is ever changed while the benchmark runs. */
module Settings {
  /** Significance margin, 0.001 ms, expressed in nanoseconds. */
  const MarginNs: int := 1000
  /** Encrypt/decrypt round trips timed per provider and size (0x186A0 / 10). */
  const Iterations: nat := 10000
  /** First payload size of the sweep. */
  const StartSize: int := 1
  /** The sweep runs while the size is below this bound. */
  const MaxSize: int := 2000
  /** Increment of the payload size between sweep steps. */
  const SizeStep: nat := 1
  /** Occurrences in a row needed before the streak half of the significance test can hold. */
  const MinOccurrences: int := 10
  /** Selects the dispose-each-cycle runner instead of the reuse runner. */
  const DisposeEachCycle: bool := true

  /** Length of a TimeSpan tick in nanoseconds. */
  const NsPerTick: int := 100

  /** Display names of the two providers; the detector tells them apart by name. */
  const NativeName: string := "AesCryptoServiceProvider"
  const ManagedName: string := "AesManaged"
}
