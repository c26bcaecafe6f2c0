/** The test-run executor of test_automation.py: poll a default sensor a
    given number of times, classify each reading against an inclusive spec
    window, and name the report file a run is saved to. The wall clock is an
    injected function: `clock(k)` is the ISO-8601 text read when the `k`-th
    record (from 0) is made. */
module TestAutomation {
  import opened Wrappers
  import opened Dut
  import Text
  import ReportStore

  const OutDir := "reports"

  /** One row of a run; its four fields are the four keys of the row
      dictionary. */
  datatype Record = Record(testId: int, reading: Option<real>, status: string, timestampUtc: string)

  /** PASS exactly when a reading is present and inside the inclusive window;
      FAIL for a dropped reading and for one outside the window. */
  function Status(reading: Option<real>, specMin: real, specMax: real): (s: string)
    ensures s == "PASS" <==> reading.Some? && specMin <= reading.value <= specMax
    ensures s != "PASS" ==> s == "FAIL"
  {
    if reading.Some? && specMin <= reading.value <= specMax then "PASS" else "FAIL"
  }

  /** `run_tests(iterations, spec_min, spec_max, rng)`. The sensor it builds
      has the default configuration. It returns one record per iteration
      (none for a count below 1), numbered from 1 in generation order; the
      `k`-th record holds the sensor's `k`-th reading, which is polled once
      and never retried. */
  method RunTests(rng: RandomSource, clock: nat -> string, iterations: int := 100,
                  specMin: real := 20.0, specMax: real := 30.0)
    returns (results: seq<Record>)
    modifies rng
    ensures |results| == if iterations > 0 then iterations else 0
    ensures rng.cursor == PollMany(DefaultConfig, rng.draws, old(rng.cursor), |results|).next
    ensures forall k :: 0 <= k < |results| ==>
      var reading := PollMany(DefaultConfig, rng.draws, old(rng.cursor), |results|).readings[k];
      results[k] == Record(k + 1, reading, Status(reading, specMin, specMax), clock(k))
  {
    var sensor := new VirtualSensor(rng);
    results := [];
    var i := 0;
    while i < iterations
      invariant 0 <= i == |results|
      invariant iterations > 0 ==> i <= iterations
      invariant iterations <= 0 ==> i == 0
      invariant sensor.rng == rng && sensor.Settings() == DefaultConfig
      invariant var p := PollMany(DefaultConfig, rng.draws, old(rng.cursor), i);
        rng.cursor == p.next &&
        forall k :: 0 <= k < i ==>
          results[k] == Record(k + 1, p.readings[k], Status(p.readings[k], specMin, specMax), clock(k))
    {
      PollManyExtend(DefaultConfig, rng.draws, old(rng.cursor), i);
      var reading := sensor.ReadTemperature();
      var status := Status(reading, specMin, specMax);
      results := results + [Record(i + 1, reading, status, clock(i))];
      i := i + 1;
    }
  }

  /** With the default window, which equals the default sensor's range, a
      reading passes exactly when it is present. */
  lemma DefaultWindowPassesPresentReadings(draws: nat -> real, at: nat, n: nat)
    requires UnitStream(draws)
    ensures var rs := PollMany(DefaultConfig, draws, at, n).readings;
      forall k :: 0 <= k < n ==> (Status(rs[k], 20.0, 30.0) == "PASS" <==> rs[k].Some?)
  {
    PollManyInRange(DefaultConfig, draws, at, n);
  }

  /** The third test of the suite: five iterations give five records with
      ids 1 to 5. */
  method RunOfFive(draws: nat -> real, clock: nat -> string) returns (results: seq<Record>)
    ensures |results| == 5
    ensures forall k :: 0 <= k < 5 ==> results[k].testId == k + 1 && results[k].timestampUtc == clock(k)
  {
    var rng := new RandomSource(draws);
    results := RunTests(rng, clock, iterations := 5);
  }

  /** Two runs fed the same draws give the same (reading, status) pairs,
      whatever their clocks say. */
  method SameDrawsSameRun(draws: nat -> real, clockA: nat -> string, clockB: nat -> string,
                          n: int, specMin: real, specMax: real)
    returns (a: seq<Record>, b: seq<Record>)
    ensures |a| == |b|
    ensures forall k :: 0 <= k < |a| ==> a[k].reading == b[k].reading && a[k].status == b[k].status
  {
    var rngA := new RandomSource(draws);
    var rngB := new RandomSource(draws);
    a := RunTests(rngA, clockA, n, specMin, specMax);
    b := RunTests(rngB, clockB, n, specMin, specMax);
  }

  /** The file name `save_results` writes a run to, for the formatted UTC
      timestamp `ts`. */
  function ReportPath(ts: string): (p: string)
    ensures p == "reports/test_results_" + ts + ".csv"
  {
    Text.JoinPath(OutDir, "test_results_" + ts + ".csv")
  }

  /** What `pd.read_csv` gives back for the file `save_results` wrote: one
      data row per record, with its status. An empty run writes no header
      (`results[0]` raises first), so only non-empty runs have a table. */
  function SavedTable(results: seq<Record>): ReportStore.Table
    requires |results| > 0
  {
    ReportStore.Frame(|results|, Some(seq(|results|, k requires 0 <= k < |results| => results[k].status)))
  }
}
