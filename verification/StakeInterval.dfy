/** The 64 sections of the selection interval, longer and longer, from a third of an interval to all of it. */
module StakeInterval {
  import opened Arithmetic

  const RATIO: nat := 3

  /** `nModifierInterval`: small enough that the unsigned product below does not wrap. */
  type Interval = i: nat | 0 < i && 63 * i < 0x1_0000_0000 witness 300

  /** `GetStakeModifierSelectionIntervalSection`. */
  function Section(interval: Interval, n: nat): nat
    requires n < 64
  {
    Quotient(interval * 63, Parts(n))
  }

  /** What section `n` divides 63 intervals by: 189 at first, 63 in the end. */
  function Parts(n: nat): (d: nat)
    requires n < 64
    ensures 63 <= d == 189 - 2 * n
  {
    63 + (63 - n) * (RATIO - 1)
  }

  /** Section `n` is 63 intervals divided by 189 - 2n, rounded down. */
  lemma SectionExactly(interval: Interval, n: nat)
    requires n < 64
    ensures Section(interval, n) * (189 - 2 * n) <= 63 * interval < (Section(interval, n) + 1) * (189 - 2 * n)
  {
    var q, d := Section(interval, n), Parts(n);
    assert d * q <= interval * 63 < d * q + d;
    assert (q + 1) * d == d * q + d;
  }

  /** The sections never get shorter. */
  lemma SectionsGrow(interval: Interval, m: nat, n: nat)
    requires m <= n < 64
    ensures Section(interval, m) <= Section(interval, n)
  {
    DivideByLess(interval * 63, Parts(n), Parts(m));
  }

  lemma FirstSection(interval: Interval)
    ensures Section(interval, 0) == interval / 3
  {
    assert interval * 63 / 189 == interval / 3;
  }

  lemma LastSection(interval: Interval)
    ensures Section(interval, 63) == interval
  {
  }

  /** The first `n` sections together. */
  function Sections(interval: Interval, n: nat): nat
    requires n <= 64
  {
    if n == 0 then 0 else Sections(interval, n - 1) + Section(interval, n - 1)
  }

  /** `GetStakeModifierSelectionInterval`. */
  method SelectionInterval(interval: Interval) returns (total: nat)
    ensures total == Sections(interval, 64)
  {
    total := 0;
    for n := 0 to 64
      invariant total == Sections(interval, n)
    {
      total := total + Section(interval, n);
    }
  }

  lemma {:induction false} SectionsIncrease(interval: Interval, m: nat, n: nat)
    requires m <= n <= 64
    ensures Sections(interval, m) <= Sections(interval, n)
    decreases n - m
  {
    if m < n {
      SectionsIncrease(interval, m, n - 1);
    }
  }
}
