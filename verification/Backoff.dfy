/** The exponential back-off between reconnect attempts, for any limits MIN <= MAX. */
module Backoff {

  function Pow2(k: nat): (r: nat)
    ensures r >= 1
  {
    if k == 0 then 1 else 2 * Pow2(k - 1)
  }

  /** The waiting time after `k` failed rounds. */
  function Interval(min: nat, k: nat): (r: nat) {
    min * Pow2(k)
  }

  /** Floor of the binary logarithm. */
  function FloorLog2(n: nat): (r: nat)
    requires n >= 1
    ensures Pow2(r) <= n < Pow2(r + 1)
  {
    if n == 1 then 0 else 1 + FloorLog2(n / 2)
  }

  /** The number of failed rounds after which reconnecting gives up. */
  function Rounds(min: nat, max: nat): (n: nat)
    requires 0 < min <= max
  {
    QuotientAtLeastOne(min, max);
    FloorLog2(max / min) + 1
  }

  lemma QuotientAtLeastOne(min: nat, max: nat)
    requires 0 < min <= max
    ensures max / min >= 1
  {
  }

  lemma {:induction false} Pow2Monotone(a: nat, b: nat)
    requires a <= b
    ensures Pow2(a) <= Pow2(b)
    decreases b - a
  {
    if a < b {
      Pow2Monotone(a, b - 1);
    }
  }

  /** The interval exceeds MAX after exactly `Rounds` failed rounds and not before; it never exceeds
      twice MAX at that point. */
  lemma GivesUpAfterRounds(min: nat, max: nat, k: nat)
    requires 0 < min <= max
    ensures Interval(min, k) > max <==> k >= Rounds(min, max)
    ensures Interval(min, Rounds(min, max)) <= 2 * max
  {
    var q := max / min;
    QuotientAtLeastOne(min, max);
    var l := FloorLog2(q);
    QuotientBounds(min, max);
    if k >= l + 1 {
      Pow2Monotone(l + 1, k);
      MulLe(min, q + 1, Pow2(k));
    } else {
      Pow2Monotone(k, l);
      MulLe(min, Pow2(k), q);
    }
    MulLe(min, Pow2(l), q);
    assert Interval(min, l + 1) == 2 * (min * Pow2(l)) by { Double(min, l); }
  }

  lemma QuotientBounds(min: nat, max: nat)
    requires 0 < min
    ensures min * (max / min) <= max < min * (max / min + 1)
  {
  }

  lemma MulLe(a: nat, b: nat, c: nat)
    requires b <= c
    ensures a * b <= a * c
  {
  }

  lemma Double(min: nat, k: nat)
    ensures Interval(min, k + 1) == 2 * Interval(min, k)
  {
  }

  /** With the configured limits, 1000 ms and 20000 ms, there are five rounds. */
  lemma ConfiguredRounds()
    ensures Rounds(1000, 20000) == 5
    ensures Interval(1000, 5) == 32000
  {
    assert FloorLog2(20) == 1 + FloorLog2(10);
    assert FloorLog2(10) == 1 + FloorLog2(5);
    assert FloorLog2(5) == 1 + FloorLog2(2);
    assert FloorLog2(2) == 1;
    assert Pow2(5) == 2 * Pow2(4) && Pow2(4) == 2 * Pow2(3) && Pow2(3) == 2 * Pow2(2) && Pow2(2) == 4;
  }

  /** The milliseconds that must have passed before the interval can be that of round `k`: the sum
      of the waiting times before it. */
  function WaitedBefore(min: nat, k: nat): (r: nat) {
    if k == 0 then 0 else WaitedBefore(min, k - 1) + Interval(min, k - 1)
  }

  lemma {:induction false} WaitedIsGeometric(min: nat, k: nat)
    ensures WaitedBefore(min, k) == min * (Pow2(k) - 1)
  {
    if k > 0 {
      WaitedIsGeometric(min, k - 1);
      assert min * (Pow2(k) - 1) == min * (Pow2(k - 1) - 1) + min * Pow2(k - 1);
    }
  }

  /** The history of a back-off: `rounds` failed rounds since the disconnect at `start`; all times in
      microseconds. `timer` is the instant of the next attempt while there is one. */
  datatype History = History(start: nat, rounds: nat, interval: nat, timer: nat)

  ghost predicate Consistent(h: History, min: nat, max: nat, now: nat)
    requires 0 < min <= max
  {
    && h.interval == Interval(min, h.rounds)
    && h.rounds <= Rounds(min, max)
    && h.interval <= 2 * max
    && (h.interval <= max ==> h.timer >= h.start + 1000 * WaitedBefore(min, h.rounds + 1))
    && (h.interval > max ==> now >= h.start + 1000 * WaitedBefore(min, h.rounds))
  }

  lemma Armed(start: nat, min: nat, max: nat)
    requires 0 < min <= max
    ensures Consistent(History(start, 0, min, start + 1000 * min), min, max, start)
  {
    GivesUpAfterRounds(min, max, 0);
    assert WaitedBefore(min, 1) == WaitedBefore(min, 0) + Interval(min, 0) == min;
  }

  /** A failed round at `now`, not before the timer, keeps the history consistent. */
  lemma FailedRound(h: History, min: nat, max: nat, before: nat, now: nat)
    requires 0 < min <= max && Consistent(h, min, max, before)
    requires h.interval <= max && now >= h.timer
    ensures var next := 2 * h.interval;
            && (next > max ==> Consistent(h.(rounds := h.rounds + 1, interval := next), min, max, now))
            && (next <= max ==>
                Consistent(h.(rounds := h.rounds + 1, interval := next, timer := now + 1000 * next), min, max, now))
  {
    GivesUpAfterRounds(min, max, h.rounds);
    Double(min, h.rounds);
    assert WaitedBefore(min, h.rounds + 2) == WaitedBefore(min, h.rounds + 1) + Interval(min, h.rounds + 1);
  }

  /** Once reconnecting has been given up, exactly `Rounds` rounds have failed and at least
      MIN * (2^n - 1) milliseconds have passed since the disconnect. */
  lemma GivenUp(h: History, min: nat, max: nat, now: nat)
    requires 0 < min <= max && Consistent(h, min, max, now)
    requires h.interval > max
    ensures h.rounds == Rounds(min, max)
    ensures now >= h.start + 1000 * (min * (Pow2(h.rounds) - 1))
  {
    GivesUpAfterRounds(min, max, h.rounds);
    WaitedIsGeometric(min, h.rounds);
  }
}
