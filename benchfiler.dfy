/** Benchfiler: timing of one hot code region by accumulating the ticks that
    elapse between `Begin` and `End`, and summarising them in `Report`.

    The C++ library keeps its state in two namespace globals, the calibration
    `s_ticksPerMicrosecond` and the record `s_state`. Here both are the fields
    of one `Benchfiler` object, and the two clock reads (the tick counter and
    its frequency) are parameters of the operations that make them. */
module Benchfiler {
  import opened UInt64

  const MICROS_PER_SECOND: int := 1000000
  const TWO_63: int := 0x8000_0000_0000_0000

  // ---------------------------------------------------------------------
  // What the accumulator stands for: the durations committed in one cycle.
  // ---------------------------------------------------------------------

  /** The exact (unbounded) sum of the committed durations. */
  function Sum(samples: seq<u64>): nat
  {
    if samples == [] then 0 else Sum(samples[..|samples| - 1]) + samples[|samples| - 1]
  }

  /** The value `fastestTicks` holds after committing `samples` in order from
      the zero state: 0 stands for "no sample yet", so each commit takes the
      new duration when the held value is 0 or larger than it. It is always
      one of the committed durations, and it is 0 exactly when the latest
      committed duration is 0. */
  function Fastest(samples: seq<u64>): (r: u64)
    ensures samples == [] ==> r == 0
    ensures samples != [] ==> r in samples
    ensures r == 0 <==> samples == [] || samples[|samples| - 1] == 0
  {
    if samples == [] then 0
    else
      var held, d := Fastest(samples[..|samples| - 1]), samples[|samples| - 1];
      if d < held || held == 0 then d else held
  }

  /** When no committed duration is 0, `Fastest` is the least of them. */
  lemma {:induction false} FastestIsMinimum(samples: seq<u64>)
    requires samples != [] && 0 !in samples
    ensures Fastest(samples) in samples
    ensures forall i | 0 <= i < |samples| :: Fastest(samples) <= samples[i]
  {
    var init := samples[..|samples| - 1];
    if init != [] {
      assert forall i | 0 <= i < |init| :: init[i] == samples[i];
      FastestIsMinimum(init);
    }
  }

  /** A committed duration of 0 is indistinguishable from the "no sample yet"
      sentinel: every duration committed before it is forgotten. */
  lemma {:induction false} ZeroSampleForgetsEarlier(before: seq<u64>, after: seq<u64>)
    ensures Fastest(before + [0] + after) == Fastest(after)
  {
    var all := before + [0] + after;
    if after == [] {
      assert all[..|all| - 1] == before;
    } else {
      var init := after[..|after| - 1];
      ZeroSampleForgetsEarlier(before, init);
      assert all[..|all| - 1] == before + [0] + init;
    }
  }

  /** A lower bound of every sample is a lower bound of their mean. */
  lemma {:induction false} LowerBoundBoundsSum(samples: seq<u64>, m: int)
    requires forall i | 0 <= i < |samples| :: m <= samples[i]
    ensures m * |samples| <= Sum(samples)
  {
    if samples != [] {
      var init := samples[..|samples| - 1];
      assert forall i | 0 <= i < |init| :: init[i] == samples[i];
      LowerBoundBoundsSum(init, m);
      assert m * |samples| == m * |init| + m;
    }
  }

  /** When no committed duration is 0, the fastest never exceeds the
      truncated mean. */
  lemma FastestNotAboveMean(samples: seq<u64>)
    requires samples != [] && 0 !in samples
    ensures Fastest(samples) <= Sum(samples) / |samples|
  {
    FastestIsMinimum(samples);
    LowerBoundBoundsSum(samples, Fastest(samples));
    FloorIsGreatest(Sum(samples), |samples|, Fastest(samples));
  }

  /** With zero-length samples the sentinel can make the fastest duration
      larger than the mean, in ticks and in the figures `Report` prints:
      committing 0, 0, 0, 100 leaves `fastestTicks` at 100 against a mean of
      25, and at one tick per microsecond `Report` shows fastest 100 and
      average 25. */
  lemma ZeroSamplesCanLiftFastestAboveMean()
    ensures exists samples: seq<u64> ::
      0 < |samples| <= MAX_U64 && Sum(samples) <= MAX_U64
      && Fastest(samples) * |samples| > Sum(samples)
      && Figures(Sum(samples), |samples|, Fastest(samples), 1).fastestMicros
         > Figures(Sum(samples), |samples|, Fastest(samples), 1).avgMicros
  {
    var samples: seq<u64> := [0, 0, 0, 100];
    assert samples[..3] == [0, 0, 0];
    assert samples[..3][..2] == [0, 0];
    assert samples[..3][..2][..1] == [0];
    assert Sum(samples[..3][..2][..1]) == 0;
    assert Sum(samples[..3][..2]) == 0;
    assert Sum(samples[..3]) == 0;
    assert Fastest(samples) == 100 && Sum(samples) == 100;
    assert Figures(100, 4, 100, 1) == ReportFigures(25, 100, 4);
  }

  // ---------------------------------------------------------------------
  // Truncating division, as `Report` and `Initialize` use it.
  // ---------------------------------------------------------------------

  /** `x / d` is the largest `m` with `m * d <= x`. */
  lemma FloorIsGreatest(x: int, d: int, m: int)
    requires 0 <= x && 0 < d && m * d <= x
    ensures m <= x / d
  {
    var q := x / d;
    assert q * d + x % d == x;
    assert (m - q - 1) * d == m * d - q * d - d;
    assert (m - q - 1) * d < 0;
  }

  /** `x / d` rounded down: `x / d` copies of `d` fit in `x`, one more does not. */
  lemma FloorBounds(x: int, d: int)
    requires 0 <= x && 0 < d
    ensures (x / d) * d <= x < (x / d + 1) * d
    ensures 0 <= x / d <= x
  {
    assert (x / d) * d + x % d == x;
    MulMonotone(1, d, x / d);
  }

  /** Dividing by `n` and then by `t`, each time truncating, is dividing by
      `n * t` once: the result is the largest `m` with `m * n * t <= a`. */
  lemma NestedFloor(a: int, n: int, t: int)
    requires 0 <= a && 0 < n && 0 < t
    ensures (a / n) / t * (n * t) <= a < ((a / n) / t + 1) * (n * t)
  {
    var q := a / n;
    var m := q / t;
    assert q * n <= a < (q + 1) * n;
    assert m * t <= q < (m + 1) * t;
    calc {
      m * (n * t);
    ==
      (m * t) * n;
    <=  { MulMonotone(m * t, q, n); }
      q * n;
    }
    assert q + 1 <= (m + 1) * t;
    calc {
      (q + 1) * n;
    <=  { MulMonotone(q + 1, (m + 1) * t, n); }
      ((m + 1) * t) * n;
    ==
      (m + 1) * (n * t);
    }
  }

  lemma MulMonotone(x: int, y: int, k: int)
    requires x <= y && 0 <= k
    ensures x * k <= y * k
  {
    assert y * k - x * k == (y - x) * k;
  }

  lemma DivMonotone(x: int, y: int, d: int)
    requires 0 <= x <= y && 0 < d
    ensures x / d <= y / d
  {
    assert (x / d) * d <= x;
    FloorIsGreatest(y, d, x / d);
  }

  // ---------------------------------------------------------------------
  // Initialize and Report, as functions of their inputs.
  // ---------------------------------------------------------------------

  /** The calibration `Initialize` computes from the counter frequency (ticks
      per second): the whole number of ticks in a microsecond, rounded down. */
  function TicksPerMicrosecond(frequency: int): (r: u64)
    requires 0 <= frequency < TWO_63
    ensures r * MICROS_PER_SECOND <= frequency < (r + 1) * MICROS_PER_SECOND
  {
    frequency / MICROS_PER_SECOND
  }

  /** The three numbers `Report` prints. */
  datatype ReportFigures = ReportFigures(avgMicros: u64, fastestMicros: u64, hitCount: u64)

  /** The figures `Report` computes from the record: the mean duration and
      the fastest duration in whole microseconds, each rounded down, and the
      number of samples. */
  function Figures(allDurationTicks: u64, count: u64, fastestTicks: u64, ticksPerMicrosecond: u64): (r: ReportFigures)
    requires 0 < count && 0 < ticksPerMicrosecond
    ensures r.hitCount == count
    ensures r.avgMicros * (count * ticksPerMicrosecond) <= allDurationTicks
    ensures allDurationTicks < (r.avgMicros + 1) * (count * ticksPerMicrosecond)
    ensures r.fastestMicros * ticksPerMicrosecond <= fastestTicks < (r.fastestMicros + 1) * ticksPerMicrosecond
  {
    FloorBounds(allDurationTicks, count);
    var avgTicks: u64 := allDurationTicks / count;
    FloorBounds(avgTicks, ticksPerMicrosecond);
    FloorBounds(fastestTicks, ticksPerMicrosecond);
    var avgMicros: u64 := avgTicks / ticksPerMicrosecond;
    var fastestMicros: u64 := fastestTicks / ticksPerMicrosecond;
    NestedFloor(allDurationTicks, count, ticksPerMicrosecond);
    ReportFigures(avgMicros, fastestMicros, count)
  }

  /** When no committed duration is 0, the reported fastest time is never
      above the reported mean. */
  lemma ReportedFastestNotAboveMean(samples: seq<u64>, ticksPerMicrosecond: u64)
    requires samples != [] && 0 !in samples && 0 < ticksPerMicrosecond
    requires |samples| <= MAX_U64 && Sum(samples) <= MAX_U64
    ensures var r := Figures(Sum(samples), |samples|, Fastest(samples), ticksPerMicrosecond);
            r.fastestMicros <= r.avgMicros
  {
    FastestNotAboveMean(samples);
    DivMonotone(Fastest(samples), Sum(samples) / |samples|, ticksPerMicrosecond);
  }

  // ---------------------------------------------------------------------
  // The library state and its four operations.
  // ---------------------------------------------------------------------

  class Benchfiler {
    /** `s_ticksPerMicrosecond`: set by `Initialize`, read by `Report`. */
    var ticksPerMicrosecond: u64
    /** The fields of `s_state`. */
    var beginTimeTicks: u64
    var count: u64
    var allDurationTicks: u64
    var fastestTicks: u64
    var filled: bool
    /** The durations committed since the last `Report`, oldest first. */
    ghost var samples: seq<u64>

    /** The accumulator holds exactly the count, the sum and the sentinel
        minimum of the committed durations; in particular the sum has never
        wrapped. */
    ghost predicate Valid()
      reads this`count, this`allDurationTicks, this`fastestTicks, this`samples
    {
      count == |samples| && allDurationTicks == Sum(samples) && fastestTicks == Fastest(samples)
    }

    /** The zero state `s_state` starts in and that `Report` restores. */
    ghost predicate IsReset()
      reads this
    {
      beginTimeTicks == 0 && count == 0 && allDurationTicks == 0 && fastestTicks == 0
      && !filled && samples == []
    }

    /** The statics before any call: everything zero. */
    constructor ()
      ensures Valid() && IsReset() && ticksPerMicrosecond == 0
    {
      ticksPerMicrosecond := 0;
      beginTimeTicks, count, allDurationTicks, fastestTicks, filled := 0, 0, 0, 0, false;
      samples := [];
    }

    /** Calibrate from the counter frequency; the record is untouched. */
    method Initialize(frequency: int)
      requires 0 <= frequency < TWO_63
      modifies this`ticksPerMicrosecond
      ensures ticksPerMicrosecond == TicksPerMicrosecond(frequency)
    {
      ticksPerMicrosecond := frequency / MICROS_PER_SECOND;
    }

    /** Stage the start of a sample. Nothing accumulated changes, however
        often it is called. */
    method Begin(now: u64)
      modifies this`beginTimeTicks
      ensures beginTimeTicks == now
      ensures count == old(count) && allDurationTicks == old(allDurationTicks)
      ensures fastestTicks == old(fastestTicks) && filled == old(filled) && samples == old(samples)
    {
      beginTimeTicks := now;
    }

    /** Finish a sample. Once `filled` is set nothing changes. Otherwise the
        duration is the wrapping difference from the staged start; it is
        committed when neither the total nor the count would overflow, and
        otherwise `filled` latches and nothing is recorded. */
    method End(now: u64)
      requires Valid()
      modifies this`filled, this`allDurationTicks, this`fastestTicks, this`count, this`samples
      ensures Valid()
      ensures old(filled) ==> unchanged(this)
      ensures !old(filled) ==>
        var d := Sub(now, old(beginTimeTicks));
        if MAX_U64 < old(allDurationTicks) + d || old(count) == MAX_U64 then
          filled && samples == old(samples) && count == old(count)
          && allDurationTicks == old(allDurationTicks) && fastestTicks == old(fastestTicks)
        else
          !filled && samples == old(samples) + [d]
          && allDurationTicks == old(allDurationTicks) + d && count == old(count) + 1
          && (old(fastestTicks) == 0 ==> fastestTicks == d)
          && (old(fastestTicks) != 0 ==> fastestTicks == if d < old(fastestTicks) then d else old(fastestTicks))
    {
      if filled {
        return;
      }
      var durationTicks := Sub(now, beginTimeTicks);
      var newAllDuration := Add(allDurationTicks, durationTicks);
      if newAllDuration < allDurationTicks || count == MAX_U64 {
        filled := true;
        return;
      }
      allDurationTicks := newAllDuration;
      if durationTicks < fastestTicks || fastestTicks == 0 {
        fastestTicks := durationTicks;
      }
      count := count + 1;
      samples := samples + [durationTicks];
      assert samples[..|samples| - 1] == old(samples);
    }

    /** Summarise the cycle and clear the record back to the zero state. The
        figures are those of the committed durations; the calibration stays. */
    method Report() returns (figures: ReportFigures)
      requires Valid() && 0 < count && 0 < ticksPerMicrosecond
      modifies this`beginTimeTicks, this`count, this`allDurationTicks, this`fastestTicks
      modifies this`filled, this`samples
      ensures figures == Figures(Sum(old(samples)), |old(samples)|, Fastest(old(samples)), ticksPerMicrosecond)
      ensures Valid() && IsReset() && ticksPerMicrosecond == old(ticksPerMicrosecond)
    {
      figures := Figures(allDurationTicks, count, fastestTicks, ticksPerMicrosecond);
      beginTimeTicks, count, allDurationTicks, fastestTicks, filled := 0, 0, 0, 0, false;
      samples := [];
    }
  }

  /** Durations 100, 50 and 200 ticks at 10 ticks per microsecond, then a
      fresh cycle of one 30-tick sample, as a caller sees them through the
      contracts alone. */
  method ScenarioTwoCycles()
  {
    var b := new Benchfiler();
    b.Initialize(10_000_000);
    assert b.ticksPerMicrosecond == 10;
    b.Begin(1000); b.End(1100);
    b.Begin(2000); b.End(2050);
    b.Begin(3000); b.End(3200);
    assert b.count == 3 && b.allDurationTicks == 350 && b.fastestTicks == 50;
    var r := b.Report();
    assert r == ReportFigures(11, 5, 3);

    // A fresh cycle owes nothing to the last one.
    b.Begin(5000); b.End(5030);
    assert b.count == 1 && b.allDurationTicks == 30 && b.fastestTicks == 30;
    r := b.Report();
    assert r == ReportFigures(3, 3, 1);
  }

  /** A counter that went backwards wraps to a huge duration; the next sample
      would overflow the total, so the latch trips and stays until `Report`. */
  method ScenarioLatch()
  {
    var b := new Benchfiler();
    b.Begin(5); b.End(3);
    assert b.allDurationTicks == MAX_U64 - 1 && b.count == 1 && !b.filled;
    b.Begin(0); b.End(10);
    assert b.filled && b.count == 1 && b.allDurationTicks == MAX_U64 - 1;
    b.Begin(0); b.End(0);
    assert b.filled && b.count == 1 && b.fastestTicks == MAX_U64 - 1;
    b.Initialize(1_000_000);
    var r := b.Report();
    assert r.hitCount == 1 && b.IsReset();
  }
}
