/**
 The hash function Keccak[c]: the sponge of section 4 and the padding of section 5.1 of FIPS 202,
 without the domain bits that SHA-3 later put before the padding. Everything is bits.
 */
module KeccakSponge {
  import opened Arithmetic
  import opened KeccakSpec

  function Zero(): Lane {
    seq(64, _ => false)
  }

  function Start(): State {
    seq(25, _ => Zero())
  }

  /** Section 3.1.2: where lane i = 5 * x + y stands in the bit string of a state. */
  function Place(i: nat): nat {
    i / 5 + 5 * (i % 5)
  }

  /** The lane of a state that the part of a block at place w is added to. */
  function XorAt(v: Lane, block: seq<bool>, w: nat): Lane {
    if 64 * w + 64 <= |block| then Xor(v, block[64 * w..64 * w + 64]) else v
  }

  /** A block added to the front of the state. */
  function XorBlock(s: State, block: seq<bool>): State {
    seq(25, i requires 0 <= i < 25 => XorAt(s[i], block, Place(i)))
  }

  /** Algorithm 8, steps 4 to 6: the blocks of `p`, one after the other. */
  function Absorb(s: State, rate: nat, p: seq<bool>): State
    requires rate > 0
    decreases |p|
  {
    if |p| < rate then s else Absorb(KeccakF(XorBlock(s, p[..rate])), rate, p[rate..])
  }

  /** Algorithm 9: the number of zeros in the padding of `n` bits. */
  function PadZeros(n: nat, rate: nat): (k: nat)
    requires rate > 0
  {
    (rate - (n + 2) % rate) % rate
  }

  function Padding(k: nat): seq<bool> {
    [true] + seq(k, _ => false) + [true]
  }

  function Padded(m: seq<bool>, rate: nat): seq<bool>
    requires rate > 0
  {
    m + Padding(PadZeros(|m|, rate))
  }

  /** Bit k of a state as a string: bit k % 64 of the lane at place k / 64. */
  function Output(s: State, bits: nat): (r: seq<bool>)
    requires bits <= 1600
    ensures |r| == bits
  {
    seq(bits, k requires 0 <= k < bits => s[LaneAt(k / 64)][k % 64])
  }

  /** The lane at a place. */
  function LaneAt(w: nat): (i: nat)
    requires w < 25
    ensures i < 25 && Place(i) == w
  {
    5 * (w % 5) + w / 5
  }

  function Hash(m: seq<bool>, rate: nat, bits: nat): seq<bool>
    requires rate > 0 && bits <= 1600
  {
    Output(Absorb(Start(), rate, Padded(m, rate)), bits)
  }

  // ----- Appending a block -----

  lemma {:induction false} AbsorbAppend(s: State, rate: nat, p: seq<bool>, q: seq<bool>)
    requires rate > 0 && |p| % rate == 0
    ensures Absorb(s, rate, p + q) == Absorb(Absorb(s, rate, p), rate, q)
    decreases |p|
  {
    hide KeccakF, XorBlock;
    if |p| < rate {
      assert p + q == q;
    } else {
      ModDown(|p|, rate);
      assert (p + q)[..rate] == p[..rate];
      assert (p + q)[rate..] == p[rate..] + q;
      AbsorbAppend(KeccakF(XorBlock(s, p[..rate])), rate, p[rate..], q);
    }
  }

  lemma AbsorbBlock(s: State, rate: nat, p: seq<bool>, block: seq<bool>)
    requires rate > 0 && |p| % rate == 0 && |block| == rate
    ensures Absorb(s, rate, p + block) == KeccakF(XorBlock(Absorb(s, rate, p), block))
  {
    hide KeccakF, XorBlock;
    AbsorbAppend(s, rate, p, block);
    var t := Absorb(s, rate, p);
    assert block[..rate] == block;
    assert Absorb(KeccakF(XorBlock(t, block)), rate, block[rate..]) == KeccakF(XorBlock(t, block));
  }

  /** Padding fills the last block, and there is only one way to do that with fewer zeros than a block. */
  lemma PadZerosUnique(n: nat, rate: nat, k: nat)
    requires rate > 0
    ensures k == PadZeros(n, rate) <==> k < rate && (n + 2 + k) % rate == 0
  {
    var a := n + 2;
    var t := a % rate;
    if k < rate {
      assert a + k == rate * (a / rate) + (t + k);
      if t + k < rate {
        Division(rate, a / rate, t + k);
        if t == 0 {
          Division(rate, 1, 0);
        } else {
          Division(rate, 0, rate - t);
        }
      } else {
        assert a + k == rate * (a / rate + 1) + (t + k - rate);
        Division(rate, a / rate + 1, t + k - rate);
        Division(rate, 0, rate - t);
      }
    }
  }
}
