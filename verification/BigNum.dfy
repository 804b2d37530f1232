/**
 Big numbers and their byte formats: the sign-and-magnitude bytes of `BN_bn2mpi` (without the four
 bytes of length), their little-endian form, and the compact form of a target. A mathematical
 integer stands for the number.
 */
module BigNum {
  import opened Radix
  import opened Sequences

  const BYTE: Base := 0x100

  function Abs(n: int): nat {
    if n < 0 then -n else n
  }

  /** `BN_bn2mpi`: magnitude, highest byte first, with the sign in the highest bit. */
  function ToMpi(n: int): seq<nat> {
    var m := Digits(BYTE, Abs(n));
    if n == 0 then []
    else if |m| > 0 && m[0] < 0x80 then m[0 := m[0] + if n < 0 then 0x80 else 0]
    else [if n < 0 then 0x80 else 0] + m
  }

  /** `BN_mpi2bn`. */
  function FromMpi(s: seq<nat>): int {
    if |s| == 0 then 0
    else if s[0] < 0x80 then Value(BYTE, s)
    else -(Value(BYTE, Unsigned(s)) as int)
  }

  /** The bytes of the magnitude. */
  function Unsigned(s: seq<nat>): seq<nat>
    requires |s| > 0 && s[0] >= 0x80
  {
    [s[0] - 0x80] + s[1..]
  }

  /** `setvch`: little-endian bytes. */
  function SetVch(v: seq<nat>): int {
    FromMpi(Reversed(v))
  }

  /** `getvch`. */
  function GetVch(n: int): seq<nat> {
    Reversed(ToMpi(n))
  }

  /** Reading what was written gives the number. */
  lemma MpiRoundTrip(n: int)
    ensures Below(BYTE, ToMpi(n)) && FromMpi(ToMpi(n)) == n
  {
    hide Value, Digits;
    var m := Digits(BYTE, Abs(n));
    DigitsProper(BYTE, Abs(n));
    ValueOfDigits(BYTE, Abs(n));
    if n != 0 {
      var s := ToMpi(n);
      if m[0] < 0x80 {
        if n < 0 {
          assert Unsigned(s) == m;
        } else {
          assert s == m;
        }
      } else {
        ValueOfPadded(BYTE, 1, m);
        assert Zeros(1) + m == [0] + m == [0] + s[1..];
      }
    }
  }

  lemma VchRoundTrip(n: int)
    ensures SetVch(GetVch(n)) == n
  {
    hide FromMpi, ToMpi;
    MpiRoundTrip(n);
    ReversedTwice(ToMpi(n));
  }

  /** Bytes without a superfluous one at the front, and without a negative zero. */
  predicate Canonical(s: seq<nat>) {
    |s| > 0 ==> if s[0] % 0x80 != 0 then true else |s| > 1 && s[1] >= 0x80
  }

  /** Writing what was read gives the bytes back exactly if they were canonical. */
  lemma MpiCanonical(s: seq<nat>)
    requires Below(BYTE, s)
    ensures ToMpi(FromMpi(s)) == s <==> Canonical(s)
  {
    if |s| > 0 {
      if Canonical(s) {
        CanonicalReads(s);
      } else {
        WrittenIsCanonical(FromMpi(s));
      }
    }
  }

  lemma WrittenIsCanonical(n: int)
    ensures Canonical(ToMpi(n))
  {
    hide Digits;
    DigitsProper(BYTE, Abs(n));
  }

  /** The magnitude of canonical bytes, with its zero byte dropped. */
  lemma CanonicalReads(s: seq<nat>)
    requires Below(BYTE, s) && |s| > 0 && Canonical(s)
    ensures ToMpi(FromMpi(s)) == s
  {
    hide Value, Digits;
    var t := if s[0] < 0x80 then s else Unsigned(s);
    if t[0] != 0 {
      ValuePositive(BYTE, t);
      DigitsOfValue(BYTE, t);
    } else {
      var rest := t[1..];
      assert t == Zeros(1) + rest;
      ValueOfPadded(BYTE, 1, rest);
      ValuePositive(BYTE, rest);
      DigitsOfValue(BYTE, rest);
    }
  }
}
