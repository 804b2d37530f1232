/** Numbers as digits of any base, highest first. */
module Radix {
  import opened Arithmetic

  type Base = b: nat | 2 <= b witness 2

  function Value(b: Base, d: seq<nat>): nat {
    if |d| == 0 then 0 else b * Value(b, d[..|d| - 1]) + d[|d| - 1]
  }

  ghost predicate Below(b: Base, d: seq<nat>) {
    forall i :: 0 <= i < |d| ==> d[i] < b
  }

  /** No leading zero. */
  predicate Proper(d: seq<nat>) {
    |d| > 0 ==> d[0] > 0
  }

  lemma QuotientSmaller(n: nat, b: Base)
    requires n > 0
    ensures Quotient(n, b) < n
  {
    var q := Quotient(n, b);
    if q > 0 {
      Scales(2, b, q);
    }
  }

  function Digits(b: Base, n: nat): seq<nat> {
    if n == 0 then []
    else
      QuotientSmaller(n, b);
      Digits(b, Quotient(n, b)) + [n - b * Quotient(n, b)]
  }

  lemma {:induction false} DigitsProper(b: Base, n: nat)
    ensures Below(b, Digits(b, n)) && Proper(Digits(b, n)) && (n > 0 ==> |Digits(b, n)| > 0)
  {
    if n > 0 {
      QuotientSmaller(n, b);
      DigitsProper(b, Quotient(n, b));
    }
  }

  lemma {:induction false} ValueOfDigits(b: Base, n: nat)
    ensures Value(b, Digits(b, n)) == n
  {
    if n > 0 {
      QuotientSmaller(n, b);
      var q := Quotient(n, b);
      ValueOfDigits(b, q);
      var d := Digits(b, n);
      assert d[..|d| - 1] == Digits(b, q);
    }
  }

  lemma QuotientOf(b: Base, q: nat, t: nat)
    requires t < b
    ensures Quotient(b * q + t, b) == q
  {
    Division(b, q, t);
  }

  lemma {:induction false} ValuePositive(b: Base, d: seq<nat>)
    requires Proper(d) && |d| > 0
    ensures Value(b, d) > 0
  {
    var init := d[..|d| - 1];
    if |d| == 1 {
      assert Value(b, init) == 0;
    } else {
      ValuePositive(b, init);
      Scales(1, b, Value(b, init));
    }
  }

  lemma {:induction false} DigitsOfValue(b: Base, d: seq<nat>)
    requires Below(b, d) && Proper(d)
    ensures Digits(b, Value(b, d)) == d
  {
    if |d| > 0 {
      var init, last := d[..|d| - 1], d[|d| - 1];
      ValuePositive(b, d);
      DigitsOfValue(b, init);
      QuotientOf(b, Value(b, init), last);
      assert d == init + [last];
    }
  }

  function Zeros(n: nat): seq<nat> {
    seq(n, _ => 0)
  }

  /** Leading zeros do not count. */
  lemma {:induction false} ValueOfPadded(b: Base, z: nat, d: seq<nat>)
    ensures Value(b, Zeros(z) + d) == Value(b, d)
    decreases z + |d|
  {
    var all := Zeros(z) + d;
    if |d| > 0 {
      assert all[..|all| - 1] == Zeros(z) + d[..|d| - 1];
      ValueOfPadded(b, z, d[..|d| - 1]);
    } else if z > 0 {
      assert all[..|all| - 1] == Zeros(z - 1) + d;
      ValueOfPadded(b, z - 1, d);
    }
  }

  function LeadingZeros(d: seq<nat>): (z: nat)
    ensures z <= |d|
    ensures forall i :: 0 <= i < z ==> d[i] == 0
    ensures z < |d| ==> d[z] != 0
  {
    if |d| > 0 && d[0] == 0 then 1 + LeadingZeros(d[1..]) else 0
  }

  /** Leading zeros and a proper rest. */
  lemma SplitZeros(d: seq<nat>)
    ensures var z := LeadingZeros(d); d == Zeros(z) + d[z..] && Proper(d[z..])
  {
  }

  /** How the digits of one base are found in another: the zeros in front are kept one for one. */
  function Convert(from: Base, to: Base, d: seq<nat>): seq<nat> {
    Zeros(LeadingZeros(d)) + Digits(to, Value(from, d))
  }

  lemma ZerosOfPadded(z: nat, d: seq<nat>)
    requires Proper(d)
    ensures LeadingZeros(Zeros(z) + d) == z
  {
    var all := Zeros(z) + d;
    assert |d| > 0 ==> all[z] == d[0];
    assert forall i :: 0 <= i < z ==> all[i] == 0;
  }

  lemma ConvertBelow(from: Base, to: Base, d: seq<nat>)
    ensures Below(to, Convert(from, to, d))
  {
    DigitsProper(to, Value(from, d));
  }

  /** Converting back gives the digits back. */
  lemma ConvertBack(from: Base, to: Base, d: seq<nat>)
    requires Below(from, d)
    ensures Convert(to, from, Convert(from, to, d)) == d
  {
    var z := LeadingZeros(d);
    var e := Digits(to, Value(from, d));
    SplitZeros(d);
    DigitsProper(to, Value(from, d));
    ValueOfPadded(from, z, d[z..]);
    ZerosOfPadded(z, e);
    ValueOfPadded(to, z, e);
    ValueOfDigits(to, Value(from, d));
    DigitsOfValue(from, d[z..]);
  }
}
