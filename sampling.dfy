/**
 What one interrupt contributes to the measurement: the tick latency read
 from the down-counter, the wall-clock period since the previous interrupt,
 and the running minimum and maximum of both.  `Step` is the effect of one
 handler call on the measurement record; `Run` is the effect of a sequence
 of calls, and the lemmas say what the record then holds.
 */
module Sampling {
  import opened Registers

  const NS_PER_S: int := 1_000_000_000

  /** Initial value of the minimum period, larger than any real sample (1.0E20 ns). */
  const MIN_PERIOD_SENTINEL: int := 100_000_000_000_000_000_000

  /** A monotonic-clock reading: whole seconds and nanoseconds. */
  datatype Timespec = Timespec(sec: int, nsec: int)

  /** The nanosecond field is a proper fraction of a second. */
  predicate Normalized(t: Timespec) {
    0 <= t.nsec < NS_PER_S
  }

  /** The instant `t` denotes, in nanoseconds. */
  function Nanos(t: Timespec): int {
    t.sec * NS_PER_S + t.nsec
  }

  /**
   Ticks elapsed since the last auto-reload, `periodTicks - counter`
   computed in unsigned 32-bit arithmetic.
   */
  function Latency(periodTicks: Word, counter: Word): (lat: Word)
    ensures lat == (periodTicks - counter) % WORD_MODULUS
    ensures counter <= periodTicks ==> lat == periodTicks - counter && lat <= periodTicks
    ensures counter > periodTicks ==> lat > periodTicks
  {
    if counter <= periodTicks then periodTicks - counter else periodTicks - counter + WORD_MODULUS
  }

  /**
   The difference `now - last` as a (seconds, nanoseconds) pair, borrowing
   one second when the nanosecond difference is negative.
   */
  function Borrow(now: Timespec, last: Timespec): (d: (int, int))
    ensures d.0 * NS_PER_S + d.1 == Nanos(now) - Nanos(last)
    ensures Normalized(now) && Normalized(last) ==> 0 <= d.1 < NS_PER_S
  {
    var ns := now.nsec - last.nsec;
    if ns < 0 then (now.sec - last.sec - 1, ns + NS_PER_S) else (now.sec - last.sec, ns)
  }

  /** The period between two clock readings, in nanoseconds. */
  function PeriodDelta(now: Timespec, last: Timespec): (period: int)
    ensures period == Nanos(now) - Nanos(last)
    ensures period == (now.sec - last.sec) * NS_PER_S + (now.nsec - last.nsec)
  {
    var (secd, ns) := Borrow(now, last);
    if secd != 0 then ns + secd * NS_PER_S else ns
  }

  /** The running maximum after observing `x`. */
  function RaiseMax(bound: int, x: int): (m: int)
    ensures m >= bound && m >= x
    ensures m == bound || m == x
  {
    if x > bound then x else bound
  }

  /** The running minimum after observing `x`. */
  function LowerMin(bound: int, x: int): (m: int)
    ensures m <= bound && m <= x
    ensures m == bound || m == x
  {
    if x < bound then x else bound
  }

  /** The measurement fields of the timer record. */
  datatype Stats = Stats(maxlat: Word, minlat: Word, maxper: int, minper: int, lastTime: Timespec)

  /** The record as the program initialises it; `lastTime` zero means "no interrupt yet". */
  const INITIAL: Stats := Stats(0, 0xFFFF_FFFF, 0, MIN_PERIOD_SENTINEL, Timespec(0, 0))

  /** What the outside world supplies to one handler call: the counter word and the clock. */
  datatype Sample = Sample(counter: Word, now: Timespec)

  /** A period is measured only once a previous reading has been stored. */
  predicate HasPrevious(s: Stats) {
    s.lastTime.sec > 0
  }

  /** The latency one sample yields. */
  function SampleLatency(periodTicks: Word, x: Sample): Word {
    Latency(periodTicks, x.counter)
  }

  /** The effect of one handler call on the measurement record. */
  function Step(s: Stats, periodTicks: Word, x: Sample): Stats {
    var lat := SampleLatency(periodTicks, x);
    var maxlat := RaiseMax(s.maxlat, lat);
    var minlat := LowerMin(s.minlat, lat);
    if HasPrevious(s) then
      var period := PeriodDelta(x.now, s.lastTime);
      Stats(maxlat, minlat, RaiseMax(s.maxper, period), LowerMin(s.minper, period), x.now)
    else
      Stats(maxlat, minlat, s.maxper, s.minper, x.now)
  }

  /**
   One handler call: the latency bounds enclose the new latency and are
   attained, the period bounds enclose the new period when one is measured
   and are untouched on the first call, and the clock reading is stored.
   */
  lemma StepBounds(s: Stats, periodTicks: Word, x: Sample)
    ensures Step(s, periodTicks, x).minlat <= SampleLatency(periodTicks, x) <= Step(s, periodTicks, x).maxlat
    ensures Step(s, periodTicks, x).minlat <= s.minlat && s.maxlat <= Step(s, periodTicks, x).maxlat
    ensures Step(s, periodTicks, x).maxlat in {s.maxlat, SampleLatency(periodTicks, x)}
    ensures Step(s, periodTicks, x).minlat in {s.minlat, SampleLatency(periodTicks, x)}
    ensures Step(s, periodTicks, x).minper <= s.minper && s.maxper <= Step(s, periodTicks, x).maxper
    ensures !HasPrevious(s) ==>
      Step(s, periodTicks, x).maxper == s.maxper && Step(s, periodTicks, x).minper == s.minper
    ensures HasPrevious(s) ==>
      Step(s, periodTicks, x).minper <= PeriodDelta(x.now, s.lastTime) <= Step(s, periodTicks, x).maxper
    ensures HasPrevious(s) ==> Step(s, periodTicks, x).maxper in {s.maxper, PeriodDelta(x.now, s.lastTime)}
    ensures HasPrevious(s) ==> Step(s, periodTicks, x).minper in {s.minper, PeriodDelta(x.now, s.lastTime)}
    ensures Step(s, periodTicks, x).lastTime == x.now
  {
  }

  /** The record after one handler call per sample, in order. */
  function Run(s: Stats, periodTicks: Word, xs: seq<Sample>): Stats
    decreases |xs|
  {
    if xs == [] then s else Step(Run(s, periodTicks, xs[..|xs| - 1]), periodTicks, xs[|xs| - 1])
  }

  /** Extending the prefix by one sample is one more step. */
  lemma RunPrefixStep(s: Stats, periodTicks: Word, xs: seq<Sample>, i: nat)
    requires i < |xs|
    ensures Run(s, periodTicks, xs[..i + 1]) == Step(Run(s, periodTicks, xs[..i]), periodTicks, xs[i])
  {
    assert xs[..i + 1][..i] == xs[..i];
  }

  /** The clock reading stored in the record when sample `i` is processed. */
  function Previous(s: Stats, xs: seq<Sample>, i: nat): Timespec
    requires i < |xs|
  {
    if i == 0 then s.lastTime else xs[i - 1].now
  }

  /** Whether sample `i` contributes a period. */
  predicate PeriodSampled(s: Stats, xs: seq<Sample>, i: nat)
    requires i < |xs|
  {
    Previous(s, xs, i).sec > 0
  }

  /** The period sample `i` contributes, when it contributes one. */
  function SamplePeriod(s: Stats, xs: seq<Sample>, i: nat): int
    requires i < |xs|
  {
    PeriodDelta(xs[i].now, Previous(s, xs, i))
  }

  /** The stored clock reading after a run is the last sample's. */
  lemma {:induction false} RunLastTime(s: Stats, periodTicks: Word, xs: seq<Sample>)
    ensures xs == [] ==> Run(s, periodTicks, xs) == s
    ensures xs != [] ==> Run(s, periodTicks, xs).lastTime == xs[|xs| - 1].now
  {
    if xs != [] {
      StepBounds(Run(s, periodTicks, xs[..|xs| - 1]), periodTicks, xs[|xs| - 1]);
    }
  }

  /** The latency bounds only widen and the period bounds only widen over a run. */
  lemma {:induction false} RunMonotone(s: Stats, periodTicks: Word, xs: seq<Sample>)
    ensures Run(s, periodTicks, xs).minlat <= s.minlat
    ensures s.maxlat <= Run(s, periodTicks, xs).maxlat
    ensures Run(s, periodTicks, xs).minper <= s.minper
    ensures s.maxper <= Run(s, periodTicks, xs).maxper
  {
    if xs != [] {
      RunMonotone(s, periodTicks, xs[..|xs| - 1]);
      StepBounds(Run(s, periodTicks, xs[..|xs| - 1]), periodTicks, xs[|xs| - 1]);
    }
  }

  /**
   After a run the latency bounds enclose the latency of every sample, and
   the period bounds enclose every period that was measured.
   */
  lemma {:induction false} RunEncloses(s: Stats, periodTicks: Word, xs: seq<Sample>)
    ensures forall i :: 0 <= i < |xs| ==>
      Run(s, periodTicks, xs).minlat <= SampleLatency(periodTicks, xs[i]) <= Run(s, periodTicks, xs).maxlat
    ensures forall i :: 0 <= i < |xs| && PeriodSampled(s, xs, i) ==>
      Run(s, periodTicks, xs).minper <= SamplePeriod(s, xs, i) <= Run(s, periodTicks, xs).maxper
  {
    if xs != [] {
      var n := |xs| - 1;
      var ys := xs[..n];
      var before := Run(s, periodTicks, ys);
      var after := Run(s, periodTicks, xs);
      RunEncloses(s, periodTicks, ys);
      RunLastTime(s, periodTicks, ys);
      StepBounds(before, periodTicks, xs[n]);
      assert after == Step(before, periodTicks, xs[n]);
      forall i | 0 <= i < |xs|
        ensures after.minlat <= SampleLatency(periodTicks, xs[i]) <= after.maxlat
      {
        if i < n {
          assert xs[i] == ys[i];
        }
      }
      forall i | 0 <= i < |xs| && PeriodSampled(s, xs, i)
        ensures after.minper <= SamplePeriod(s, xs, i) <= after.maxper
      {
        if i < n {
          assert xs[i] == ys[i];
          assert Previous(s, xs, i) == Previous(s, ys, i);
          assert PeriodSampled(s, ys, i) && SamplePeriod(s, xs, i) == SamplePeriod(s, ys, i);
        } else {
          assert Previous(s, xs, i) == before.lastTime;
        }
      }
    }
  }

  /**
   The latency bounds after a run are attained: each is its initial value
   or the latency of some sample.
   */
  lemma {:induction false} RunAttained(s: Stats, periodTicks: Word, xs: seq<Sample>)
    ensures Run(s, periodTicks, xs).maxlat == s.maxlat ||
      exists i :: 0 <= i < |xs| && Run(s, periodTicks, xs).maxlat == SampleLatency(periodTicks, xs[i])
    ensures Run(s, periodTicks, xs).minlat == s.minlat ||
      exists i :: 0 <= i < |xs| && Run(s, periodTicks, xs).minlat == SampleLatency(periodTicks, xs[i])
  {
    if xs != [] {
      var n := |xs| - 1;
      var ys := xs[..n];
      RunAttained(s, periodTicks, ys);
      var before := Run(s, periodTicks, ys);
      var after := Run(s, periodTicks, xs);
      StepBounds(before, periodTicks, xs[n]);
      if after.maxlat != s.maxlat && after.maxlat != SampleLatency(periodTicks, xs[n]) {
        var i :| 0 <= i < |ys| && before.maxlat == SampleLatency(periodTicks, ys[i]);
        assert xs[i] == ys[i];
      }
      if after.minlat != s.minlat && after.minlat != SampleLatency(periodTicks, xs[n]) {
        var i :| 0 <= i < |ys| && before.minlat == SampleLatency(periodTicks, ys[i]);
        assert xs[i] == ys[i];
      }
    }
  }

  /** The first handler call after initialisation measures no period. */
  lemma FirstCallNoPeriod(periodTicks: Word, x: Sample)
    ensures Step(INITIAL, periodTicks, x).maxper == INITIAL.maxper
    ensures Step(INITIAL, periodTicks, x).minper == INITIAL.minper
    ensures Step(INITIAL, periodTicks, x).lastTime == x.now
  {
    StepBounds(INITIAL, periodTicks, x);
  }

  /** With a period of 100000 ticks, four counter readings and the latencies they give. */
  lemma LatencyExamples()
    ensures Latency(100000, 99990) == 10
    ensures Latency(100000, 99995) == 5
    ensures Latency(100000, 100000) == 0
    ensures Latency(100000, 5) == 99995
    ensures Latency(100000, 100001) == 0xFFFF_FFFF
  {
  }

  /** A period that crosses a second boundary: 999 999 900 ns at 10 s, then 100 ns at 11 s. */
  lemma PeriodExample()
    ensures Borrow(Timespec(11, 100), Timespec(10, 999_999_900)) == (0, 200)
    ensures PeriodDelta(Timespec(11, 100), Timespec(10, 999_999_900)) == 200
  {
  }

  /**
   Four interrupts with the counter readings of `LatencyExamples`: one
   millisecond, then 200 ns across a second boundary (`PeriodExample`), then
   one millisecond.
   */
  const EXAMPLE_SAMPLES: seq<Sample> := [
    Sample(99990, Timespec(10, 998_999_900)),
    Sample(99995, Timespec(10, 999_999_900)),
    Sample(100000, Timespec(11, 100)),
    Sample(5, Timespec(11, 1_000_100))
  ]

  /** The record at the end of the four-interrupt example. */
  lemma RunExample()
    ensures Run(INITIAL, 100000, EXAMPLE_SAMPLES).maxlat == 99995
    ensures Run(INITIAL, 100000, EXAMPLE_SAMPLES).minlat == 0
    ensures Run(INITIAL, 100000, EXAMPLE_SAMPLES).maxper == 1_000_000
    ensures Run(INITIAL, 100000, EXAMPLE_SAMPLES).minper == 200
    ensures Run(INITIAL, 100000, EXAMPLE_SAMPLES).lastTime == Timespec(11, 1_000_100)
  {
    var xs := EXAMPLE_SAMPLES;
    var s1 := Step(INITIAL, 100000, xs[0]);
    var s2 := Step(s1, 100000, xs[1]);
    var s3 := Step(s2, 100000, xs[2]);
    assert Run(INITIAL, 100000, xs[..1]) == s1 by {
      assert xs[..1][..0] == [];
    }
    assert Run(INITIAL, 100000, xs[..2]) == s2 by {
      assert xs[..2][..1] == xs[..1];
    }
    assert Run(INITIAL, 100000, xs[..3]) == s3 by {
      assert xs[..3][..2] == xs[..2];
    }
    assert xs[..4][..3] == xs[..3];
    assert s3 == Stats(10, 0, 1_000_000, 200, Timespec(11, 100));
  }
}
