/** The compact form of a target: the number of bytes and the three highest of them. */
module Compact {
  import opened Arithmetic
  import opened Radix
  import opened BigNum

  function ByteAt(s: seq<nat>, i: nat): nat {
    if i < |s| then s[i] else 0
  }

  /** The three highest bytes as a number. */
  function Top(s: seq<nat>): nat {
    0x1_0000 * ByteAt(s, 0) + 0x100 * ByteAt(s, 1) + ByteAt(s, 2)
  }

  /** `GetCompact`, an unsigned 32-bit number. */
  function GetCompact(n: int): nat {
    var s := ToMpi(n);
    |s| * 0x100_0000 % 0x1_0000_0000 + Top(s)
  }

  /** The bytes `SetCompact` builds. */
  function CompactBytes(c: nat): seq<nat> {
    seq(c / 0x100_0000, i requires 0 <= i < c / 0x100_0000 =>
      if i == 0 then c / 0x1_0000 % 0x100 else if i == 1 then c / 0x100 % 0x100 else if i == 2 then c % 0x100 else 0)
  }

  /** `SetCompact`. */
  function SetCompact(c: nat): int {
    FromMpi(CompactBytes(c))
  }

  // ----- Bytes and values -----

  function Pow(k: nat): (p: nat)
    ensures p > 0
  {
    if k == 0 then 1 else 0x100 * Pow(k - 1)
  }

  lemma {:induction false} ValueAppend(s: seq<nat>, t: seq<nat>)
    ensures Value(BYTE, s + t) == Value(BYTE, s) * Pow(|t|) + Value(BYTE, t)
  {
    if |t| == 0 {
      assert s + t == s;
    } else {
      var init := t[..|t| - 1];
      ValueAppend(s, init);
      assert (s + t)[..|s + t| - 1] == s + init;
      assert Value(BYTE, s) * Pow(|t|) == 0x100 * (Value(BYTE, s) * Pow(|t| - 1));
    }
  }

  lemma {:induction false} ValueBelow(s: seq<nat>)
    requires Below(BYTE, s)
    ensures Value(BYTE, s) < Pow(|s|)
  {
    if |s| > 0 {
      ValueBelow(s[..|s| - 1]);
    }
  }

  lemma ValueOfZeros(k: nat)
    ensures Value(BYTE, Zeros(k)) == 0
  {
    ValueOfPadded(BYTE, k, []);
    assert Zeros(k) + [] == Zeros(k);
  }

  lemma ValueOfThree(s: seq<nat>)
    requires |s| == 3
    ensures Value(BYTE, s) == Top(s)
  {
    assert s[..2][..1] == s[..1];
    assert Value(BYTE, s[..1]) == s[0];
    assert Value(BYTE, s[..2]) == 0x100 * Value(BYTE, s[..1]) + s[1];
  }

  /** A number as its three highest bytes and the rest. */
  lemma SplitTop(s: seq<nat>)
    requires |s| >= 3 && Below(BYTE, s)
    ensures Value(BYTE, s) == Top(s) * Pow(|s| - 3) + Value(BYTE, s[3..])
    ensures Value(BYTE, s[3..]) < Pow(|s| - 3)
  {
    assert s == s[..3] + s[3..];
    ValueAppend(s[..3], s[3..]);
    ValueOfThree(s[..3]);
    ValueBelow(s[3..]);
  }

  // ----- The round trip -----

  /** The bytes with all but the three highest cleared. */
  function Cut(s: seq<nat>): seq<nat> {
    if |s| <= 3 then s else s[..3] + Zeros(|s| - 3)
  }

  lemma CompactParts(k: nat, a: nat, b: nat, d: nat)
    requires k < 0x100 && a < 0x100 && b < 0x100 && d < 0x100
    ensures var c := k * 0x100_0000 + (0x1_0000 * a + 0x100 * b + d);
            c / 0x100_0000 == k && c / 0x1_0000 % 0x100 == a && c / 0x100 % 0x100 == b && c % 0x100 == d
  {
    var c := k * 0x100_0000 + (0x1_0000 * a + 0x100 * b + d);
    Division(0x100, 0x1_0000 * k + 0x100 * a + b, d);
    Division(0x1_0000, 0x100 * k + a, 0x100 * b + d);
    Division(0x100_0000, k, 0x1_0000 * a + 0x100 * b + d);
    Division(0x100, 0x100 * k + a, b);
    Division(0x100, k, a);
  }

  /** `SetCompact` after `GetCompact` clears all but the three highest bytes. */
  lemma CompactCuts(n: int)
    requires |ToMpi(n)| < 0x100
    ensures CompactBytes(GetCompact(n)) == Cut(ToMpi(n))
  {
    hide ToMpi, FromMpi;
    var s := ToMpi(n);
    MpiRoundTrip(n);
    CompactParts(|s|, ByteAt(s, 0), ByteAt(s, 1), ByteAt(s, 2));
    assert GetCompact(n) == |s| * 0x100_0000 + Top(s);
  }

  /** Compacting again changes nothing, for either sign. */
  lemma CompactStable(n: int)
    requires |ToMpi(n)| < 0x100
    ensures GetCompact(SetCompact(GetCompact(n))) == GetCompact(n)
  {
    hide ToMpi, FromMpi, CompactBytes;
    var s := ToMpi(n);
    CompactCuts(n);
    MpiRoundTrip(n);
    WrittenIsCanonical(n);
    MpiCanonical(Cut(s));
    assert Top(Cut(s)) == Top(s);
  }

  /** The bytes of a number that is not negative are its value. */
  lemma MpiValue(n: nat)
    ensures var s := ToMpi(n);
            && Below(BYTE, s) && Value(BYTE, s) == n && Canonical(s) && (|s| > 0 ==> s[0] < 0x80)
                && (|s| == 0 <==> n == 0)
  {
    hide Digits;
    MpiRoundTrip(n);
    WrittenIsCanonical(n);
    DigitsProper(BYTE, n);
    if n > 0 {
      var m := Digits(BYTE, n);
      assert ToMpi(n) == if m[0] < 0x80 then m else [0] + m;
    }
  }

  /** Of four or more bytes the three highest make at least 2^15. */
  lemma TopIsLarge(s: seq<nat>)
    requires |s| > 3 && Below(BYTE, s) && Canonical(s) && s[0] < 0x80
    ensures 0x8000 <= Top(s) < 0x80_0000
  {
  }

  /** What is lost is at most one part in 2^15, and nothing is added. */
  lemma CompactError(n: nat)
    requires |ToMpi(n)| < 0x100
    ensures var m := SetCompact(GetCompact(n)); 0 <= m <= n && (n - m) * 0x8000 <= n
  {
    hide ToMpi, CompactBytes, Value, GetCompact;
    var s := ToMpi(n);
    MpiValue(n);
    CompactCuts(n);
    if |s| > 3 {
      var t := Cut(s);
      var p := Pow(|s| - 3);
      SplitTop(s);
      SplitTop(t);
      ValueOfZeros(|s| - 3);
      assert t[3..] == Zeros(|s| - 3);
      TopIsLarge(s);
      assert Top(t) == Top(s);
      hide Top, Cut;
      assert SetCompact(GetCompact(n)) == Top(s) * p;
      Scales(0x8000, Top(s), p);
      assert 0x8000 * (n - Top(s) * p) <= 0x8000 * p;
    }
  }

  // ----- Order -----

  lemma {:induction false} PowGrows(j: nat, k: nat)
    requires j <= k
    ensures Pow(j) <= Pow(k)
  {
    if j < k {
      PowGrows(j, k - 1);
    }
  }

  /** The number of bytes bounds the number from both sides. */
  lemma SizeBounds(s: seq<nat>)
    requires Below(BYTE, s) && Canonical(s) && |s| > 0 && s[0] < 0x80
    ensures Value(BYTE, s) < 0x80 * Pow(|s| - 1)
    ensures |s| == 1 ==> Value(BYTE, s) > 0
    ensures |s| > 1 ==> Value(BYTE, s) >= 0x80 * Pow(|s| - 2)
  {
    hide Value, Pow;
    var k := |s|;
    HeadValue(s);
    Scales(s[0], 0x7F, Pow(k - 1));
    if k == 1 {
      PowSteps(0);
      assert s[0] * 1 == s[0];
    } else {
      HeadValue(s[1..]);
      PowSteps(k - 1);
      if s[0] > 0 {
        Scales(1, s[0], Pow(k - 1));
      } else {
        Scales(0x80, s[1], Pow(k - 2));
      }
    }
  }

  lemma PowSteps(k: nat)
    ensures Pow(0) == 1 && (k > 0 ==> Pow(k) == 0x100 * Pow(k - 1))
  {
  }

  /** A number as its highest byte and the rest. */
  lemma HeadValue(s: seq<nat>)
    requires |s| > 0 && Below(BYTE, s)
    ensures Value(BYTE, s) == s[0] * Pow(|s| - 1) + Value(BYTE, s[1..])
    ensures Value(BYTE, s[1..]) < Pow(|s| - 1)
  {
    assert s == s[..1] + s[1..];
    ValueAppend(s[..1], s[1..]);
    ValueBelow(s[1..]);
    assert Value(BYTE, s[..1]) == s[0];
  }

  lemma SizesGrow(m: nat, n: nat)
    requires m <= n
    ensures |ToMpi(m)| <= |ToMpi(n)|
  {
    hide ToMpi, Value;
    var s, t := ToMpi(m), ToMpi(n);
    MpiValue(m);
    MpiValue(n);
    if |s| > |t| && |t| > 0 {
      SizeBounds(s);
      SizeBounds(t);
      PowGrows(|t| - 1, |s| - 2);
    }
  }

  lemma TopsGrow(m: nat, n: nat)
    requires m <= n && |ToMpi(m)| == |ToMpi(n)|
    ensures Top(ToMpi(m)) <= Top(ToMpi(n))
  {
    hide ToMpi, Value, Top, Pow;
    var s, t := ToMpi(m), ToMpi(n);
    MpiValue(m);
    MpiValue(n);
    if |s| >= 3 {
      SplitTop(s);
      SplitTop(t);
      var p := Pow(|s| - 3);
      if Top(s) > Top(t) {
        Widens(p, Top(t), Top(s));
      }
    } else {
      ShortTop(s);
      ShortTop(t);
      Scales(m, n, Pow(3 - |s|));
    }
  }

  lemma ShortTop(s: seq<nat>)
    requires |s| < 3
    ensures Top(s) == Value(BYTE, s) * Pow(3 - |s|)
  {
    assert Pow(1) == 0x100 && Pow(2) == 0x1_0000 && Pow(3) == 0x100_0000;
    if |s| == 2 {
      assert Value(BYTE, s[..1]) == s[0];
    }
  }

  /** A larger number has no smaller compact form. */
  lemma CompactGrows(m: nat, n: nat)
    requires m <= n && |ToMpi(n)| < 0x100
    ensures GetCompact(m) <= GetCompact(n)
  {
    hide ToMpi, Value;
    SizesGrow(m, n);
    MpiValue(m);
    MpiValue(n);
    if |ToMpi(m)| == |ToMpi(n)| {
      TopsGrow(m, n);
    }
  }
}
