/**
  The integer estimators of jitter and round-trip time. Both move by shifts, `x - (x >> s) + c`, so they
  share one arithmetic: its invariant intervals, its fixed points and its convergence are proved once.
*/
module Estimators {
  import opened Division

  // ----- the shared step -----

  /** One update with divisor `n` and input `c`; the shift rounds down. */
  function Step(n: nat, x: int, c: int): int
    requires n > 0
  {
    x - x / n + c
  }

  function Iterate(n: nat, x: int, c: int, k: nat): int
    requires n > 0
  {
    if k == 0 then x else Step(n, Iterate(n, x, c, k - 1), c)
  }

  lemma DivRange(n: nat, x: int, q: int)
    requires n > 0
    ensures n * q <= x ==> q <= x / n
    ensures x < n * q + n ==> x / n <= q
  {
    assert n * (q + 1) == n * q + n;
    DivIff(n, x, q);
    DivIff(n, x, q + 1);
  }

  lemma StepMonotone(n: nat, x: int, y: int, c: int)
    requires n > 0 && x <= y
    ensures Step(n, x, c) <= Step(n, y, c)
  {
    var e, d := x / n, y - x;
    DivIff(n, x, e + 1);
    Product(1, d, n, d);
    DivIff(n, y, e + d + 1);
    assert n * (e + d + 1) == n * (e + 1) + n * d;
  }

  /** An interval is kept under every input between the quotients of its ends. */
  lemma IntervalKept(n: nat, low: int, high: int, x: int, c: int)
    requires n > 0 && low <= x <= high && low / n <= c <= high / n
    ensures low <= Step(n, x, c) <= high
  {
    StepMonotone(n, low, x, c);
    StepMonotone(n, x, high, c);
  }

  /** Constant input leaves a value alone exactly on the `n` values above `n * c`. */
  lemma FixedIff(n: nat, x: int, c: int)
    requires n > 0
    ensures Step(n, x, c) == x <==> n * c <= x <= n * c + n - 1
  {
    DivRange(n, x, c);
    assert x == n * (x / n) + x % n;
  }

  function Clamp(x: int, low: int, high: int): int
    requires low <= high
  {
    if x < low then low else if x > high then high else x
  }

  /** Below the fixed points a step climbs without overshoot, above them it falls without undershoot. */
  lemma StepApproaches(n: nat, x: int, c: int)
    requires n > 0
    ensures x < n * c ==> x < Step(n, x, c) <= n * c
    ensures x > n * c + n - 1 ==> n * c + n - 1 <= Step(n, x, c) < x
  {
    if x < n * c {
      assert n * c == n * (c - 1) + n;
      DivRange(n, x, c - 1);
      DivRange(n, n * c - 1, c - 1);
      StepMonotone(n, x, n * c - 1, c);
    }
    if x > n * c + n - 1 {
      assert n * c + n == n * (c + 1);
      DivRange(n, x, c + 1);
      DivRange(n, n * c + n, c + 1);
      StepMonotone(n, n * c + n, x, c);
      assert n * (c + 1) < n * (c + 1) + n;
    }
  }

  /** Constant input brings any start to the nearest fixed point in at most as many steps as it is away,
      and leaves it there. */
  lemma {:induction false} Converges(n: nat, x: int, c: int, k: nat)
    requires n > 0
    ensures var y, target := Iterate(n, x, c, k), Clamp(x, n * c, n * c + n - 1);
            && (x <= target ==> x <= y <= target && y >= (if x + k < target then x + k else target))
            && (x >= target ==> target <= y <= x && y <= (if x - k > target then x - k else target))
  {
    if k > 0 {
      Converges(n, x, c, k - 1);
      var y := Iterate(n, x, c, k - 1);
      StepApproaches(n, y, c);
      FixedIff(n, y, c);
    }
  }

  /** The distance left to climb shrinks by its `n`-th part, rounded up, at every step. */
  lemma GapShrinks(n: nat, x: int, c: int)
    requires n > 0 && x <= n * c
    ensures var gap := n * c - x;
            n * c - Step(n, x, c) == gap - (gap + n - 1) / n
  {
    var gap := n * c - x;
    var q := c - x / n;
    assert x == n * (x / n) + x % n;
    assert n * q == n * c - n * (x / n);
    DivRange(n, gap + n - 1, q);
  }

  function Abs(x: int): nat {
    if x < 0 then -x else x
  }

  function Max(a: int, b: int): int {
    if a >= b then a else b
  }

  // ----- jitter, section 6.4.1 of RFC 3550 -----

  class JitterEstimator {
    var jitterQ4: int

    constructor ()
      ensures jitterQ4 == 0
    {
      jitterQ4 := 0;
    }

    method Update(transitDelta: int)
      modifies this
      ensures jitterQ4 == Step(16, old(jitterQ4), Abs(transitDelta))
    {
      var absD := Abs(transitDelta);
      jitterQ4 := jitterQ4 + (absD - jitterQ4 / 16);
    }

    method JitterUs() returns (us: int)
      ensures us == JitterOf(jitterQ4)
    {
      us := jitterQ4 / 16;
    }
  }

  function JitterOf(q4: int): int {
    q4 / 16
  }

  function JitterAfter(deltas: seq<int>): int {
    if deltas == [] then 0 else Step(16, JitterAfter(deltas[..|deltas| - 1]), Abs(deltas[|deltas| - 1]))
  }

  /** Deltas of at most `m` keep the scaled value within `16 * m + 15` and the estimate within `m`. */
  lemma {:induction false} JitterBounded(deltas: seq<int>, m: nat)
    requires forall d | d in deltas :: Abs(d) <= m
    ensures 0 <= JitterAfter(deltas) <= 16 * m + 15 && 0 <= JitterOf(JitterAfter(deltas)) <= m
  {
    if deltas != [] {
      var before, last := deltas[..|deltas| - 1], deltas[|deltas| - 1];
      assert last in deltas;
      forall d | d in before ensures Abs(d) <= m { assert d in deltas; }
      JitterBounded(before, m);
      IntervalKept(16, 0, 16 * m + 15, JitterAfter(before), Abs(last));
    }
  }

  lemma {:induction false} JitterConstant(deltas: seq<int>, d: nat)
    requires forall x | x in deltas :: Abs(x) == d
    ensures JitterAfter(deltas) == Iterate(16, 0, d, |deltas|)
  {
    if deltas != [] {
      var before, last := deltas[..|deltas| - 1], deltas[|deltas| - 1];
      assert last in deltas;
      forall x | x in before ensures Abs(x) == d { assert x in deltas; }
      JitterConstant(before, d);
    }
  }

  /** Under deltas of constant size `d` the estimate climbs to exactly `d`, in at most `16 * d` frames. */
  lemma JitterConverges(deltas: seq<int>, d: nat)
    requires forall x | x in deltas :: Abs(x) == d
    ensures 0 <= JitterAfter(deltas) <= 16 * d && 0 <= JitterOf(JitterAfter(deltas)) <= d
    ensures |deltas| >= 16 * d ==> JitterAfter(deltas) == 16 * d && JitterOf(JitterAfter(deltas)) == d
  {
    JitterConstant(deltas, d);
    Converges(16, 0, d, |deltas|);
  }

  // ----- round-trip time, section 2 of RFC 6298 -----

  datatype Srtt = Srtt(srttUs: int, rttvarUs: int, initialized: bool) {
    function Update(rttUs: int): Srtt {
      if !initialized then Srtt(rttUs, HalfToZero(rttUs), true)
      else Srtt(Step(8, srttUs, rttUs / 8), Step(4, rttvarUs, Abs(srttUs - rttUs) / 4), true)
    }

    function RtoUs(): int {
      Max(srttUs + Max(4 * rttvarUs, 1_000_000), 1_000_000)
    }
  }

  const NO_SRTT := Srtt(0, 0, false)

  /** Division by two as the machine does it, rounding towards zero. */
  function HalfToZero(x: int): int {
    if x >= 0 then x / 2 else -(-x / 2)
  }

  class SrttEstimator {
    var srttUs: int
    var rttvarUs: int
    var initialized: bool

    function View(): Srtt
      reads this
    {
      Srtt(srttUs, rttvarUs, initialized)
    }

    constructor ()
      ensures View() == NO_SRTT
    {
      srttUs, rttvarUs, initialized := 0, 0, false;
    }

    method Update(rttUs: int)
      modifies this
      ensures View() == old(View()).Update(rttUs)
    {
      if !initialized {
        srttUs := rttUs;
        rttvarUs := HalfToZero(rttUs);
        initialized := true;
      } else {
        var err := Abs(srttUs - rttUs);
        rttvarUs := rttvarUs - rttvarUs / 4 + err / 4;
        srttUs := srttUs - srttUs / 8 + rttUs / 8;
      }
    }

    method RtoUs() returns (rto: int)
      ensures rto == View().RtoUs() && rto >= 1_000_000
      ensures srttUs >= 0 ==> rto >= srttUs + 1_000_000
    {
      rto := srttUs + Max(4 * rttvarUs, 1_000_000);
      rto := Max(rto, 1_000_000);
    }
  }

  function SrttAfter(samples: seq<int>): Srtt {
    if samples == [] then NO_SRTT else SrttAfter(samples[..|samples| - 1]).Update(samples[|samples| - 1])
  }

  function SrttLow(m: nat): nat {
    8 * (m / 8)
  }

  function SrttHigh(m: nat): nat {
    8 * (m / 8) + 7
  }

  function RttvarHigh(low: nat, high: nat): nat
    requires low <= high
  {
    var spread := SrttHigh(high) - SrttLow(low);
    Max(high / 2, 4 * (spread / 4) + 3)
  }

  /** Samples between `low` and `high` keep the smoothed time within the multiples of eight around them,
      the variance bounded, and the timeout a second or more above the smoothed time. */
  lemma {:induction false} SrttBounded(samples: seq<int>, low: nat, high: nat)
    requires low <= high && samples != [] && forall r | r in samples :: low <= r <= high
    ensures var s := SrttAfter(samples);
            && s.initialized && SrttLow(low) <= s.srttUs <= SrttHigh(high)
            && 0 <= s.rttvarUs <= RttvarHigh(low, high)
            && s.RtoUs() == s.srttUs + Max(4 * s.rttvarUs, 1_000_000) >= s.srttUs + 1_000_000
  {
    var before, last := samples[..|samples| - 1], samples[|samples| - 1];
    assert last in samples;
    if before != [] {
      forall r | r in before ensures low <= r <= high { assert r in samples; }
      SrttBounded(before, low, high);
      var s := SrttAfter(before);
      SrttStepBounded(s, last, low, high);
    } else {
      assert SrttAfter(before) == NO_SRTT;
    }
  }

  lemma SrttStepBounded(s: Srtt, r: int, low: nat, high: nat)
    requires low <= r <= high && s.initialized
    requires SrttLow(low) <= s.srttUs <= SrttHigh(high) && 0 <= s.rttvarUs <= RttvarHigh(low, high)
    ensures SrttLow(low) <= s.Update(r).srttUs <= SrttHigh(high)
    ensures 0 <= s.Update(r).rttvarUs <= RttvarHigh(low, high)
  {}

  /** The first sample is the smoothed time, and half of it, rounded towards zero, the variance. */
  lemma FirstSample(s: Srtt, r: int)
    requires !s.initialized
    ensures s.Update(r).initialized && s.Update(r).srttUs == r
    ensures r >= 0 ==> 2 * s.Update(r).rttvarUs <= r <= 2 * s.Update(r).rttvarUs + 1
    ensures r <= 0 ==> 2 * s.Update(r).rttvarUs - 1 <= r <= 2 * s.Update(r).rttvarUs
  {}

  /** A later one moves the smoothed time by an eighth of the way to it, and the variance by a quarter of the way
      to its distance from the smoothed time before, up to what the shifts drop. */
  lemma LaterSample(s: Srtt, r: int)
    requires s.initialized
    ensures var t, e := s.Update(r), if r >= s.srttUs then r - s.srttUs else s.srttUs - r;
            && t.initialized
            && 8 * t.srttUs == 7 * s.srttUs + s.srttUs % 8 + r - r % 8
            && 4 * t.rttvarUs == 3 * s.rttvarUs + s.rttvarUs % 4 + e - e % 4
  {}

  /** The timeout is the least that is a second, a second above the smoothed time and four variances above it. */
  lemma TimeoutIsLeast(s: Srtt, t: int)
    ensures t >= s.RtoUs() <==> t >= 1_000_000 && t >= s.srttUs + 1_000_000 && t >= s.srttUs + 4 * s.rttvarUs
  {}

  /** A delta moves the scaled jitter by its size less a sixteenth of it, up to what the shift drops. */
  lemma JitterStep(deltas: seq<int>, delta: int)
    ensures var q, q' := JitterAfter(deltas), JitterAfter(deltas + [delta]);
            16 * q' == 15 * q + q % 16 + 16 * (if delta >= 0 then delta else -delta)
            && 16 * JitterOf(q') <= q' <= 16 * JitterOf(q') + 15
  {
    assert (deltas + [delta])[..|deltas|] == deltas;
  }

  function UpdateAll(s: Srtt, r: int, k: nat): Srtt {
    if k == 0 then s else UpdateAll(s, r, k - 1).Update(r)
  }

  lemma {:induction false} UpdateAllSrtt(s: Srtt, r: int, k: nat)
    requires s.initialized
    ensures UpdateAll(s, r, k).initialized && UpdateAll(s, r, k).srttUs == Iterate(8, s.srttUs, r / 8, k)
  {
    if k > 0 {
      UpdateAllSrtt(s, r, k - 1);
    }
  }

  /** A round-trip time that becomes constant is tracked to within the seven microseconds the shifts drop,
      after at most as many samples as the estimate was microseconds away. */
  lemma SrttConverges(s: Srtt, r: nat, k: nat)
    requires s.initialized && k >= Abs(s.srttUs - Clamp(s.srttUs, SrttLow(r), SrttHigh(r)))
    ensures UpdateAll(s, r, k).srttUs == Clamp(s.srttUs, SrttLow(r), SrttHigh(r))
    ensures Abs(UpdateAll(s, r, k).srttUs - r) <= 7
  {
    UpdateAllSrtt(s, r, k);
    Converges(8, s.srttUs, r / 8, k);
  }

  /** With the smoothed time settled, the variance settles too, on at most seven microseconds. */
  lemma {:induction false} RttvarSettles(s: Srtt, r: nat, k: nat)
    requires s.initialized && SrttLow(r) <= s.srttUs <= SrttHigh(r) && s.rttvarUs >= 0
    ensures var rest := Abs(s.srttUs - r) / 4;
            && rest <= 1
            && UpdateAll(s, r, k) == Srtt(s.srttUs, Iterate(4, s.rttvarUs, rest, k), true)
            && (k >= s.rttvarUs + 4 ==> UpdateAll(s, r, k).rttvarUs == Clamp(s.rttvarUs, 4 * rest, 4 * rest + 3))
  {
    var rest := Abs(s.srttUs - r) / 4;
    Converges(4, s.rttvarUs, rest, k);
    if k > 0 {
      RttvarSettles(s, r, k - 1);
      SettledStep(UpdateAll(s, r, k - 1), r);
    }
  }

  lemma SettledStep(s: Srtt, r: nat)
    requires s.initialized && SrttLow(r) <= s.srttUs <= SrttHigh(r)
    ensures s.Update(r) == Srtt(s.srttUs, Step(4, s.rttvarUs, Abs(s.srttUs - r) / 4), true)
  {}
}
