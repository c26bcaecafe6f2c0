/** The virtual device under test of dut.py: a temperature sensor that drops a
    reading with probability `fail_rate` and otherwise reports a uniform value
    in `[min_temp, max_temp]` rounded to two decimals.

    The injected `random.Random` is modelled by its output stream: an
    infinite sequence of draws (each in `[0, 1)` for a real generator) and a
    cursor that counts the draws consumed so far. Temperatures are exact
    reals. */
module Dut {
  import opened Wrappers

  /** The configuration a VirtualSensor is built with. */
  datatype Config = Config(minTemp: real, maxTemp: real, failRate: real)

  /** The keyword defaults of `VirtualSensor.__init__`. */
  const DefaultConfig := Config(20.0, 30.0, 0.05)

  /** A value `random()` can return. */
  predicate Unit(u: real) {
    0.0 <= u < 1.0
  }

  /** A stream every draw of which `random()` could have returned: what any
      seed of a real generator gives. */
  ghost predicate UnitStream(draws: nat -> real) {
    forall i: nat :: Unit(draws(i))
  }

  /** A value with at most two decimal places. */
  predicate Hundredths(x: real) {
    (x * 100.0).Floor as real == x * 100.0
  }

  /** `random.Random.uniform(a, b)`, which is `a + (b - a) * random()`, for
      the draw `u`. */
  function UniformValue(a: real, b: real, u: real): real {
    a + (b - a) * u
  }

  /** For a draw `random()` can return, `uniform` stays between the ends. */
  lemma UniformInRange(a: real, b: real, u: real)
    requires Unit(u) && a <= b
    ensures a <= UniformValue(a, b, u) <= b
  {
    MulNonneg(b - a, u);
    MulNonneg(b - a, 1.0 - u);
  }

  lemma MulNonneg(x: real, y: real)
    requires 0.0 <= x && 0.0 <= y
    ensures 0.0 <= x * y
  {
  }

  /** `round(x, 2)` on exact reals: the nearest value with two decimals,
      halves rounded up. */
  function Round2(x: real): (r: real)
    ensures Hundredths(r)
    ensures x - 0.005 < r <= x + 0.005
  {
    var n := (x * 100.0 + 0.5).Floor;
    assert (n as real * 100.0 / 100.0).Floor == n;
    n as real / 100.0
  }

  /** Rounding never reverses the order of two values. */
  lemma Round2Monotone(x: real, y: real)
    requires x <= y
    ensures Round2(x) <= Round2(y)
  {
    assert (x * 100.0 + 0.5).Floor <= (y * 100.0 + 0.5).Floor;
  }

  /** A value that already has two decimals is left as it is. */
  lemma Round2Keeps(x: real)
    requires Hundredths(x)
    ensures Round2(x) == x
  {
    assert (x * 100.0 + 0.5).Floor == (x * 100.0).Floor;
  }

  /** The outcome of one `read_temperature` call that starts at draw `at`:
      the reading and the index of the next unused draw. */
  datatype Step = Step(reading: Option<real>, next: nat)

  /** A call is dropped exactly when its first draw falls below `fail_rate`;
      a dropped call consumes one draw, a reading two, and a reading has two
      decimals. */
  function Poll(c: Config, draws: nat -> real, at: nat): (s: Step)
    ensures s.reading.None? <==> draws(at) < c.failRate
    ensures s.next == if s.reading.None? then at + 1 else at + 2
    ensures s.reading.Some? ==> Hundredths(s.reading.value)
  {
    if draws(at) < c.failRate then Step(None, at + 1)
    else Step(Some(Round2(UniformValue(c.minTemp, c.maxTemp, draws(at + 1)))), at + 2)
  }

  /** The outcome of `n` consecutive calls starting at draw `at`. */
  datatype Polls = Polls(readings: seq<Option<real>>, next: nat)

  function PollMany(c: Config, draws: nat -> real, at: nat, n: nat): (p: Polls)
    ensures |p.readings| == n
    ensures at + n <= p.next <= at + 2 * n
    decreases n
  {
    if n == 0 then Polls([], at)
    else
      var s := Poll(c, draws, at);
      var rest := PollMany(c, draws, s.next, n - 1);
      Polls([s.reading] + rest.readings, rest.next)
  }

  /** One more call extends the readings by that call's reading. */
  lemma {:induction false} PollManyExtend(c: Config, draws: nat -> real, at: nat, n: nat)
    ensures var p := PollMany(c, draws, at, n);
            var s := Poll(c, draws, p.next);
            PollMany(c, draws, at, n + 1) == Polls(p.readings + [s.reading], s.next)
    decreases n
  {
    if n > 0 {
      var s := Poll(c, draws, at);
      PollManyExtend(c, draws, s.next, n - 1);
      assert [s.reading] + (PollMany(c, draws, s.next, n - 1).readings + [Poll(c, draws, PollMany(c, draws, at, n).next).reading])
          == ([s.reading] + PollMany(c, draws, s.next, n - 1).readings) + [Poll(c, draws, PollMany(c, draws, at, n).next).reading];
    }
  }

  /** A reading that is absent, or present and within the configured range. */
  predicate InRange(c: Config, r: Option<real>) {
    r.Some? ==> c.minTemp <= r.value <= c.maxTemp
  }

  /** A reading that is present lies in the configured range, provided the
      range is the right way round and its ends have two decimals (as 10.0,
      20.0 and 30.0 have). */
  lemma PollInRange(c: Config, draws: nat -> real, at: nat)
    requires UnitStream(draws)
    requires c.minTemp <= c.maxTemp && Hundredths(c.minTemp) && Hundredths(c.maxTemp)
    ensures InRange(c, Poll(c, draws, at).reading)
  {
    assert Unit(draws(at + 1));
    var x := UniformValue(c.minTemp, c.maxTemp, draws(at + 1));
    UniformInRange(c.minTemp, c.maxTemp, draws(at + 1));
    Round2Monotone(c.minTemp, x);
    Round2Monotone(x, c.maxTemp);
    Round2Keeps(c.minTemp);
    Round2Keeps(c.maxTemp);
  }

  /** Without two-decimal ends the range can miss every reading: between
      10.004 and 10.006 with `fail_rate` 0, each call reads 10.0 or 10.01. */
  lemma NarrowRangeMissed(draws: nat -> real, at: nat)
    requires UnitStream(draws)
    ensures var c := Config(10.004, 10.006, 0.0);
            var r := Poll(c, draws, at).reading;
            r.Some? && (r.value == 10.0 || r.value == 10.01) && !InRange(c, r)
  {
    assert Unit(draws(at)) && Unit(draws(at + 1));
    UniformInRange(10.004, 10.006, draws(at + 1));
    var r := Round2(UniformValue(10.004, 10.006, draws(at + 1)));
    var n := (r * 100.0).Floor;
    assert n as real == r * 100.0;
    assert 999.9 < r * 100.0 <= 1001.1;
    assert n == 1000 || n == 1001;
  }

  /** A reading in range put before readings in range. */
  lemma AllInRangeCons(c: Config, r: Option<real>, rest: seq<Option<real>>)
    requires InRange(c, r)
    requires forall k :: 0 <= k < |rest| ==> InRange(c, rest[k])
    ensures forall k :: 0 <= k < |rest| + 1 ==> InRange(c, ([r] + rest)[k])
  {
  }

  /** Over any number of calls, every reading is in range. */
  lemma {:induction false} PollManyInRange(c: Config, draws: nat -> real, at: nat, n: nat)
    requires UnitStream(draws)
    requires c.minTemp <= c.maxTemp && Hundredths(c.minTemp) && Hundredths(c.maxTemp)
    ensures forall k :: 0 <= k < n ==> InRange(c, PollMany(c, draws, at, n).readings[k])
    decreases n
  {
    if n > 0 {
      var s := Poll(c, draws, at);
      PollInRange(c, draws, at);
      PollManyInRange(c, draws, s.next, n - 1);
      var rest := PollMany(c, draws, s.next, n - 1).readings;
      assert PollMany(c, draws, at, n).readings == [s.reading] + rest;
      AllInRangeCons(c, s.reading, rest);
    }
  }

  /** With `fail_rate` 0 no reading is ever dropped and each call consumes
      exactly two draws, whatever the range. */
  lemma {:induction false} NeverDroppedAtRateZero(c: Config, draws: nat -> real, at: nat, n: nat)
    requires UnitStream(draws) && c.failRate <= 0.0
    ensures var p := PollMany(c, draws, at, n);
            p.next == at + 2 * n && forall k :: 0 <= k < n ==> p.readings[k].Some?
    decreases n
  {
    if n > 0 {
      assert Unit(draws(at));
      NeverDroppedAtRateZero(c, draws, at + 2, n - 1);
    }
  }

  /** With `fail_rate` 0 and a range whose ends have two decimals, every
      reading is present and lies in the range. */
  lemma PresentInRangeAtRateZero(c: Config, draws: nat -> real, at: nat, n: nat)
    requires UnitStream(draws) && c.failRate <= 0.0
    requires c.minTemp <= c.maxTemp && Hundredths(c.minTemp) && Hundredths(c.maxTemp)
    ensures var p := PollMany(c, draws, at, n);
            forall k :: 0 <= k < n ==> p.readings[k].Some? && c.minTemp <= p.readings[k].value <= c.maxTemp
  {
    NeverDroppedAtRateZero(c, draws, at, n);
    PollManyInRange(c, draws, at, n);
  }

  /** With `fail_rate` 1 every reading is dropped, and each call consumes
      exactly one draw. */
  lemma {:induction false} AlwaysDroppedAtRateOne(c: Config, draws: nat -> real, at: nat, n: nat)
    requires UnitStream(draws) && c.failRate >= 1.0
    ensures var p := PollMany(c, draws, at, n);
            p.next == at + n && forall k :: 0 <= k < n ==> p.readings[k] == None
    decreases n
  {
    if n > 0 {
      assert Unit(draws(at));
      AlwaysDroppedAtRateOne(c, draws, at + 1, n - 1);
    }
  }

  /** A seeded `random.Random`, seen through the values it returns. */
  class RandomSource {
    /** `draws(i)` is what the `i`-th call of `random()` returns. */
    const draws: nat -> real
    /** How many draws have been consumed. */
    var cursor: nat

    constructor (draws: nat -> real)
      ensures this.draws == draws && cursor == 0
    {
      this.draws := draws;
      cursor := 0;
    }

    /** `random()`: the next draw. */
    method Random() returns (u: real)
      modifies this
      ensures u == draws(old(cursor)) && cursor == old(cursor) + 1
    {
      u := draws(cursor);
      cursor := cursor + 1;
    }

    /** `uniform(a, b)`: one draw, scaled into the interval. */
    method Uniform(a: real, b: real) returns (x: real)
      modifies this
      ensures x == UniformValue(a, b, draws(old(cursor))) && cursor == old(cursor) + 1
    {
      var u := Random();
      x := UniformValue(a, b, u);
    }
  }

  class VirtualSensor {
    var minTemp: real
    var maxTemp: real
    var failRate: real
    var rng: RandomSource

    /** `VirtualSensor(min_temp=20.0, max_temp=30.0, fail_rate=0.05, rng)`
        with the generator injected. */
    constructor (rng: RandomSource, minTemp: real := 20.0, maxTemp: real := 30.0, failRate: real := 0.05)
      ensures this.rng == rng && Settings() == Config(minTemp, maxTemp, failRate)
    {
      this.rng := rng;
      this.minTemp := minTemp;
      this.maxTemp := maxTemp;
      this.failRate := failRate;
    }

    function Settings(): Config
      reads this
    {
      Config(minTemp, maxTemp, failRate)
    }

    /** `read_temperature()`: `None` exactly when the first draw is below
        `fail_rate`, having consumed that one draw; otherwise a second draw,
        scaled into the range and rounded. Only the generator changes. */
    method ReadTemperature() returns (reading: Option<real>)
      modifies rng
      ensures unchanged(this)
      ensures reading.None? <==> rng.draws(old(rng.cursor)) < failRate
      ensures reading.None? ==> rng.cursor == old(rng.cursor) + 1
      ensures reading.Some? ==> rng.cursor == old(rng.cursor) + 2
      ensures reading.Some? ==> reading.value == Round2(UniformValue(minTemp, maxTemp, rng.draws(old(rng.cursor) + 1)))
      ensures Poll(Settings(), rng.draws, old(rng.cursor)) == Step(reading, rng.cursor)
    {
      var u := rng.Random();
      if u < failRate {
        reading := None;
      } else {
        var x := rng.Uniform(minTemp, maxTemp);
        reading := Some(Round2(x));
      }
    }
  }

  /** Reads `n` times from `sensor`: the readings are those of `PollMany`
      from where the generator stood. */
  method ReadRepeatedly(sensor: VirtualSensor, n: nat) returns (readings: seq<Option<real>>)
    modifies sensor.rng
    ensures unchanged(sensor)
    ensures PollMany(sensor.Settings(), sensor.rng.draws, old(sensor.rng.cursor), n) == Polls(readings, sensor.rng.cursor)
  {
    readings := [];
    while |readings| < n
      invariant |readings| <= n
      invariant unchanged(sensor)
      invariant PollMany(sensor.Settings(), sensor.rng.draws, old(sensor.rng.cursor), |readings|) == Polls(readings, sensor.rng.cursor)
    {
      PollManyExtend(sensor.Settings(), sensor.rng.draws, old(sensor.rng.cursor), |readings|);
      var r := sensor.ReadTemperature();
      readings := readings + [r];
    }
  }

  /** The first test of the suite: a sensor on `[10.0, 20.0]` with
      `fail_rate` 0, read 20 times, never drops a reading and stays in range,
      whatever the seed. */
  method ReadingsAtRateZero(draws: nat -> real) returns (readings: seq<Option<real>>)
    requires UnitStream(draws)
    ensures |readings| == 20
    ensures forall k :: 0 <= k < 20 ==> readings[k].Some? && 10.0 <= readings[k].value <= 20.0
  {
    var rng := new RandomSource(draws);
    var sensor := new VirtualSensor(rng, minTemp := 10.0, maxTemp := 20.0, failRate := 0.0);
    readings := ReadRepeatedly(sensor, 20);
    PresentInRangeAtRateZero(Config(10.0, 20.0, 0.0), draws, 0, 20);
  }

  /** The second test: with `fail_rate` 1 ten readings are all dropped,
      whatever the seed. */
  method ReadingsAtRateOne(draws: nat -> real) returns (readings: seq<Option<real>>)
    requires UnitStream(draws)
    ensures |readings| == 10
    ensures forall k :: 0 <= k < 10 ==> readings[k] == None
  {
    var rng := new RandomSource(draws);
    var sensor := new VirtualSensor(rng, failRate := 1.0);
    readings := ReadRepeatedly(sensor, 10);
    AlwaysDroppedAtRateOne(Config(20.0, 30.0, 1.0), draws, 0, 10);
  }

  /** Two sensors with the same configuration fed the same draws give the
      same readings. */
  method SameDrawsSameReadings(c: Config, draws: nat -> real, n: nat) returns (first: seq<Option<real>>, second: seq<Option<real>>)
    ensures first == second
  {
    var rngA := new RandomSource(draws);
    var rngB := new RandomSource(draws);
    var a := new VirtualSensor(rngA, c.minTemp, c.maxTemp, c.failRate);
    var b := new VirtualSensor(rngB, c.minTemp, c.maxTemp, c.failRate);
    first := ReadRepeatedly(a, n);
    second := ReadRepeatedly(b, n);
  }
}
