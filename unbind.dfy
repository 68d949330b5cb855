/** Reward unbinding: a stake of 1 earns, for every tick it is held, the
    rate of the interval the tick falls in; intervals are `interval` ticks
    long, there are as many of them as rates, and nothing is earned after
    the last one. The rate table and the interval length are parameters. */
module Unbind {
  import opened Ints

  datatype Schedule = Schedule(interval: nat, rates: seq<nat>)

  /** Eighteen intervals, each at least one tick long, and 108 intervals
      still fit in a uint32 tick count. */
  predicate ValidSchedule(sc: Schedule)
  {
    sc.interval > 0 && |sc.rates| == 18 && 108 * sc.interval <= MaxUint32
  }

  /** A schedule as the program defines it. */
  type GoodSchedule = sc: Schedule | ValidSchedule(sc) witness Schedule(1, seq(18, _ => 0))

  /** The first tick that earns nothing. */
  function Deadline(sc: Schedule): nat
  {
    |sc.rates| * sc.interval
  }

  /** The rate of tick `t`: rates[i] for the ticks of interval i, 0 from
      the deadline on. */
  function TickRate(sc: Schedule, t: nat): nat
    requires sc.interval > 0
  {
    RateAt(sc.rates, sc.interval, t)
  }

  function RateAt(rates: seq<nat>, n: nat, t: nat): nat
    requires n > 0
  {
    if rates == [] then 0
    else if t < n then rates[0]
    else RateAt(rates[1..], n, t - n)
  }

  /** What a stake of 1 earns over the ticks [t1, t2); nothing when t1 >= t2. */
  function Accrual(sc: Schedule, t1: nat, t2: nat): nat
    requires sc.interval > 0
    decreases t2 - t1
  {
    if t1 >= t2 then 0 else TickRate(sc, t1) + Accrual(sc, t1 + 1, t2)
  }

  /** CalcUnbindGala: the reward of `stake` held over [t1, t2). */
  function CalcUnbind(sc: Schedule, stake: nat, t1: nat, t2: nat): (r: nat)
    requires sc.interval > 0
    ensures t1 >= t2 ==> r == 0
    ensures stake == 0 ==> r == 0
  {
    stake * Accrual(sc, t1, t2)
  }

  /** The total one unit of stake can ever earn. */
  function TotalSupply(sc: Schedule): nat
  {
    IntervalsTotal(sc, |sc.rates|)
  }

  /** What the first `k` intervals pay out together. */
  function IntervalsTotal(sc: Schedule, k: nat): nat
    requires k <= |sc.rates|
  {
    if k == 0 then 0 else IntervalsTotal(sc, k - 1) + sc.rates[k - 1] * sc.interval
  }

  // ------------------------------------------------------------ rate table

  lemma {:induction false} RateInInterval(rates: seq<nat>, n: nat, i: nat, a: nat)
    requires n > 0 && i < |rates| && a < n
    ensures RateAt(rates, n, i * n + a) == rates[i]
  {
    if i > 0 {
      assert i * n + a - n == (i - 1) * n + a;
      RateInInterval(rates[1..], n, i - 1, a);
    }
  }

  lemma {:induction false} RatePastEnd(rates: seq<nat>, n: nat, t: nat)
    requires n > 0 && |rates| * n <= t
    ensures RateAt(rates, n, t) == 0
  {
    if rates != [] {
      assert (|rates| - 1) * n == |rates| * n - n;
      RatePastEnd(rates[1..], n, t - n);
    }
  }

  // --------------------------------------------------------------- lemmas

  /** Additivity: the reward over [t1, t3) splits at any t2 in between. */
  lemma {:induction false} Additive(sc: Schedule, t1: nat, t2: nat, t3: nat)
    requires sc.interval > 0 && t1 <= t2 <= t3
    ensures Accrual(sc, t1, t3) == Accrual(sc, t1, t2) + Accrual(sc, t2, t3)
    decreases t2 - t1
  {
    if t1 < t2 {
      Additive(sc, t1 + 1, t2, t3);
    }
  }

  /** Inside interval i, which starts at tick `start`, every tick earns rates[i]. */
  lemma {:induction false} WithinInterval(sc: Schedule, i: nat, start: nat, a: nat, b: nat)
    requires sc.interval > 0 && i < |sc.rates| && start == i * sc.interval && a <= b <= sc.interval
    ensures Accrual(sc, start + a, start + b) == (b - a) * sc.rates[i]
    decreases b - a
  {
    if a < b {
      RateInInterval(sc.rates, sc.interval, i, a);
      WithinInterval(sc, i, start, a + 1, b);
      assert (b - a) * sc.rates[i] == sc.rates[i] + (b - (a + 1)) * sc.rates[i];
    }
  }

  /** A whole interval i pays rates[i] for each of its ticks. */
  lemma WholeInterval(sc: Schedule, i: nat)
    requires sc.interval > 0 && i < |sc.rates|
    ensures Accrual(sc, i * sc.interval, i * sc.interval + sc.interval) == sc.rates[i] * sc.interval
  {
    WithinInterval(sc, i, i * sc.interval, 0, sc.interval);
  }

  lemma MulStep(k: nat, n: nat)
    requires k > 0
    ensures k * n == (k - 1) * n + n
  {
  }

  lemma {:induction false} FirstIntervals(sc: Schedule, k: nat)
    requires sc.interval > 0 && k <= |sc.rates|
    ensures Accrual(sc, 0, k * sc.interval) == IntervalsTotal(sc, k)
  {
    if k > 0 {
      var s0 := (k - 1) * sc.interval;
      MulStep(k, sc.interval);
      FirstIntervals(sc, k - 1);
      Additive(sc, 0, s0, s0 + sc.interval);
      WholeInterval(sc, k - 1);
    }
  }

  lemma {:induction false} NothingAfterDeadline(sc: Schedule, t1: nat, t2: nat)
    requires sc.interval > 0 && Deadline(sc) <= t1
    ensures Accrual(sc, t1, t2) == 0
    decreases t2 - t1
  {
    if t1 < t2 {
      RatePastEnd(sc.rates, sc.interval, t1);
      NothingAfterDeadline(sc, t1 + 1, t2);
    }
  }

  /** Saturation: held from 0 to any tick at or past the deadline, one unit
      of stake earns exactly the total supply. */
  lemma Saturation(sc: Schedule, t: nat)
    requires sc.interval > 0 && Deadline(sc) <= t
    ensures CalcUnbind(sc, 1, 0, t) == TotalSupply(sc)
  {
    FirstIntervals(sc, |sc.rates|);
    Additive(sc, 0, Deadline(sc), t);
    NothingAfterDeadline(sc, Deadline(sc), t);
  }

  /** The three point checks of the unbinding test. */
  lemma FirstTicks(sc: Schedule)
    requires ValidSchedule(sc)
    ensures CalcUnbind(sc, 1, 0, 1) == sc.rates[0]
    ensures CalcUnbind(sc, 1, 0, sc.interval) == sc.rates[0] * sc.interval
    ensures CalcUnbind(sc, 1, 0, sc.interval + 1) == sc.rates[1] + sc.rates[0] * sc.interval
  {
    var n := sc.interval;
    WithinInterval(sc, 0, 0, 0, 1);
    WithinInterval(sc, 0, 0, 0, n);
    WithinInterval(sc, 1, n, 0, 1);
    Additive(sc, 0, n, n + 1);
  }

  /** The cumulative test: the end point is a uint32 sum that may wrap below
      the start, and the split point is their average. */
  lemma Cumulative(sc: Schedule, tstart: nat, delta: nat)
    requires ValidSchedule(sc) && IsU32(tstart) && IsU32(delta)
    ensures var tend := Add32(tstart, delta);
            var tmid := (tstart + tend) / 2;
            CalcUnbind(sc, 1, tstart, tend)
              == CalcUnbind(sc, 1, tstart, tmid) + CalcUnbind(sc, 1, tmid, tend)
  {
    var tend := Add32(tstart, delta);
    var tmid := (tstart + tend) / 2;
    if tstart <= tend {
      Additive(sc, tstart, tmid, tend);
    }
  }

  /** The saturation test: the deadline, 18 intervals, 108 intervals and the
      largest uint32 all give the total supply. */
  lemma TotalSupplyReached(sc: Schedule)
    requires ValidSchedule(sc)
    ensures CalcUnbind(sc, 1, 0, Deadline(sc)) == TotalSupply(sc)
    ensures CalcUnbind(sc, 1, 0, 18 * sc.interval) == TotalSupply(sc)
    ensures CalcUnbind(sc, 1, 0, 108 * sc.interval) == TotalSupply(sc)
    ensures CalcUnbind(sc, 1, 0, MaxUint32) == TotalSupply(sc)
  {
    Saturation(sc, Deadline(sc));
    Saturation(sc, 18 * sc.interval);
    Saturation(sc, 108 * sc.interval);
    Saturation(sc, MaxUint32);
  }
}
