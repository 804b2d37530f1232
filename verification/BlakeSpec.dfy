/**
 BLAKE-512 and BLAKE-384 around their compression function: padding, blocks and the counter that
 goes with every block. Bits of a byte come highest first.
 */
module BlakeSpec {
  import opened Arithmetic
  import opened Binary
  import opened Sequences

  const WORD: nat := 0x1_0000_0000_0000_0000

  /** A chaining value. */
  type Words = h: seq<nat> | |h| == 8 witness seq(8, _ => 0)

  /** From a chaining value, a block of 1024 bits and the two halves of the counter. */
  datatype Compress = Compress(apply: (Words, seq<bool>, nat, nat) -> Words)

  /** The lowest `n` bits of a number, highest first. */
  function NatBits(x: nat, n: nat): (r: seq<bool>)
    ensures |r| == n
  {
    if n == 0 then [] else NatBits(x / 2, n - 1) + [x % 2 == 1]
  }

  /** They stand for the remainder modulo 2^n. */
  lemma {:induction false} NatBitsWeigh(x: nat, n: nat)
    ensures Weight(Reversed(NatBits(x, n))) == x % Power2(n)
  {
    if n > 0 {
      NatBitsWeigh(x / 2, n - 1);
      var low, high := [x % 2 == 1], Reversed(NatBits(x / 2, n - 1));
      assert Reversed(NatBits(x, n)) == low + high;
      WeightAppend(low, high);
      assert low[..0] == [] && Power2(0) == 1 && Weight(low) == x % 2;
      HalfRemainder(x, Power2(n - 1));
    }
  }

  lemma HalfRemainder(x: nat, p: nat)
    requires p > 0
    ensures x % (2 * p) == x % 2 + 2 * (x / 2 % p)
  {
    var h, b := x / 2, x % 2;
    var q, t := h / p, h % p;
    assert x == 2 * (p * q + t) + b;
    assert x == 2 * p * q + (2 * t + b);
    Division(2 * p, q, 2 * t + b);
  }

  /** The bits of a message of `total` bits that have been hashed with block `i`, or 0 when block `i`
      has none of them. */
  function Counter(total: nat, i: nat): nat {
    if total <= 1024 * i then 0 else if total < 1024 * i + 1024 then total else 1024 * i + 1024
  }

  /** The chaining value after `i` blocks of `p`. */
  function Chain(compress: Compress, iv: Words, p: seq<bool>, total: nat, i: nat): Words
    requires 1024 * i <= |p|
  {
    if i == 0 then iv
    else
      var t := Counter(total, i - 1);
      compress.apply(Chain(compress, iv, p, total, i - 1), p[1024 * (i - 1)..1024 * i], t % WORD, t / WORD % WORD)
  }

  function PadZeros(n: nat): nat {
    (1919 - (n + 1) % 1024) % 1024
  }

  function False(n: nat): seq<bool> {
    seq(n, _ => false)
  }

  /** A one, zeros up to one bit before 896 modulo 1024, the mark of the output length, and the length
      of the message as 128 bits. */
  function Padded(m: seq<bool>, mark: bool): seq<bool> {
    m + ([true] + False(PadZeros(|m|)) + [mark]) + (NatBits(|m| / WORD % WORD, 64) + NatBits(|m| % WORD, 64))
  }

  function Hash(compress: Compress, iv: Words, m: seq<bool>, mark: bool): Words {
    var p := Padded(m, mark);
    Chain(compress, iv, p, |m|, |p| / 1024)
  }

  lemma FillsBlock(n: nat)
    ensures (n + PadZeros(n) + 130) % 1024 == 0
  {
    var t := (n + 1) % 1024;
    var q := (n + 1) / 1024;
    if t <= 895 {
      assert n + PadZeros(n) + 130 == 1024 * (q + 1);
    } else {
      assert n + PadZeros(n) + 130 == 1024 * (q + 2);
    }
  }

  lemma PaddedLength(m: seq<bool>, mark: bool)
    ensures |Padded(m, mark)| == |m| + PadZeros(|m|) + 130
    ensures |Padded(m, mark)| % 1024 == 0
  {
    hide PadZeros, NatBits;
    FillsBlock(|m|);
  }

  /** The chaining value depends on the blocks and counters so far only. */
  lemma {:induction false} ChainPrefix(compress: Compress, iv: Words, p: seq<bool>, q: seq<bool>, s: nat, t: nat,
      i: nat)
    requires 1024 * i <= |p| && 1024 * i <= |q| && 1024 * i <= s && 1024 * i <= t && p[..1024 * i] == q[..1024 * i]
    ensures Chain(compress, iv, p, s, i) == Chain(compress, iv, q, t, i)
  {
    if i > 0 {
      assert p[..1024 * (i - 1)] == p[..1024 * i][..1024 * (i - 1)];
      assert q[..1024 * (i - 1)] == q[..1024 * i][..1024 * (i - 1)];
      ChainPrefix(compress, iv, p, q, s, t, i - 1);
      assert p[1024 * (i - 1)..1024 * i] == p[..1024 * i][1024 * (i - 1)..];
      assert q[1024 * (i - 1)..1024 * i] == q[..1024 * i][1024 * (i - 1)..];
    }
  }
}
