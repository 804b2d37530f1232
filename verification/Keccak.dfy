/**
 The permutation Keccak-f[1600] as sections 3.2 and 3.4 of FIPS 202 define it. A lane is its 64
 bits, lowest first; lane (x, y) of a state is element 5 * x + y.
 */
module KeccakSpec {
  import opened Arithmetic
  import opened Binary

  type Lane = v: seq<bool> | |v| == 64 witness seq(64, _ => false)
  type State = s: seq<Lane> | |s| == 25 witness seq(25, _ => seq(64, _ => false))

  function Xor(a: Lane, b: Lane): Lane {
    seq(64, z requires 0 <= z < 64 => a[z] != b[z])
  }

  function And(a: Lane, b: Lane): Lane {
    seq(64, z requires 0 <= z < 64 => a[z] && b[z])
  }

  function Or(a: Lane, b: Lane): Lane {
    seq(64, z requires 0 <= z < 64 => a[z] || b[z])
  }

  function Not(a: Lane): Lane {
    seq(64, z requires 0 <= z < 64 => !a[z])
  }

  /** Bit z becomes bit z + n modulo 64. */
  function Rol(a: Lane, n: nat): Lane
    requires n < 64
  {
    seq(64, z requires 0 <= z < 64 => if z < n then a[z + 64 - n] else a[z - n])
  }

  /** Lane (x, y), indices modulo 5. */
  function At(s: State, x: nat, y: nat): Lane {
    s[5 * (x % 5) + y % 5]
  }

  function Column(s: State, x: nat): Lane {
    Xor(Xor(Xor(Xor(At(s, x, 0), At(s, x, 1)), At(s, x, 2)), At(s, x, 3)), At(s, x, 4))
  }

  /** Section 3.2.1: what theta adds to every lane of column x. */
  function Effect(s: State, x: nat): Lane {
    Xor(Column(s, x + 4), Rol(Column(s, x + 1), 1))
  }

  function Theta(s: State): State {
    seq(25, i requires 0 <= i < 25 => Xor(s[i], Effect(s, i / 5)))
  }

  /** Rotation offsets, in the order of the lanes. */
  const RHO: seq<nat> := [
    0, 36, 3, 41, 18,
    1, 44, 10, 45, 2,
    62, 6, 43, 15, 61,
    28, 55, 25, 21, 56,
    27, 20, 39, 8, 14]

  function Offset(i: nat): (n: nat)
    requires i < 25
    ensures n < 64
  {
    RHO[i]
  }

  /** Section 3.2.2. */
  function Rho(s: State): State {
    seq(25, i requires 0 <= i < 25 => Rol(s[i], Offset(i)))
  }

  /** Section 3.2.3: lane (x, y) becomes the former lane (x + 3y, x). */
  function PiSource(i: nat): (j: nat)
    requires i < 25
    ensures j < 25
  {
    5 * ((i / 5 + 3 * (i % 5)) % 5) + i / 5
  }

  function Pi(s: State): State {
    seq(25, i requires 0 <= i < 25 => s[PiSource(i)])
  }

  /** Section 3.2.4. */
  function ChiLane(s: State, x: nat, y: nat): Lane {
    Xor(At(s, x, y), And(Not(At(s, x + 1, y)), At(s, x + 2, y)))
  }

  function Chi(s: State): State {
    seq(25, i requires 0 <= i < 25 => ChiLane(s, i / 5, i % 5))
  }

  /** Section 3.2.5. */
  function Iota(s: State, k: Lane): State {
    s[0 := Xor(s[0], k)]
  }

  function Round(s: State, k: Lane): State {
    Iota(Chi(Pi(Rho(Theta(s)))), k)
  }

  /** The lowest 64 bits of a number. */
  function Word(n: nat): Lane {
    seq(64, z requires 0 <= z < 64 => BitAt(n, z))
  }

  const RC: seq<nat> := [
    0x0000000000000001, 0x0000000000008082,
    0x800000000000808A, 0x8000000080008000,
    0x000000000000808B, 0x0000000080000001,
    0x8000000080008081, 0x8000000000008009,
    0x000000000000008A, 0x0000000000000088,
    0x0000000080008009, 0x000000008000000A,
    0x000000008000808B, 0x800000000000008B,
    0x8000000000008089, 0x8000000000008003,
    0x8000000000008002, 0x8000000000000080,
    0x000000000000800A, 0x800000008000000A,
    0x8000000080008081, 0x8000000000008080,
    0x0000000080000001, 0x8000000080008008]

  function RoundConstant(r: nat): Lane
    requires r < 24
  {
    Word(RC[r])
  }

  /** The first `n` rounds. */
  function Rounds(s: State, n: nat): State
    requires n <= 24
  {
    if n == 0 then s else Round(Rounds(s, n - 1), RoundConstant(n - 1))
  }

  function KeccakF(s: State): State {
    Rounds(s, 24)
  }

  // ----- The tables agree with the algorithms of FIPS 202 -----

  /** The lane that Algorithm 2 treats at step `t`. */
  function Visited(t: nat): (nat, nat)
    requires t < 24
  {
    if t == 0 then (1, 0)
    else if t == 1 then (0, 2)
    else if t == 2 then (2, 1)
    else if t == 3 then (1, 2)
    else if t == 4 then (2, 3)
    else if t == 5 then (3, 3)
    else if t == 6 then (3, 0)
    else if t == 7 then (0, 1)
    else if t == 8 then (1, 3)
    else if t == 9 then (3, 1)
    else if t == 10 then (1, 4)
    else if t == 11 then (4, 4)
    else if t == 12 then (4, 0)
    else if t == 13 then (0, 3)
    else if t == 14 then (3, 4)
    else if t == 15 then (4, 3)
    else if t == 16 then (3, 2)
    else if t == 17 then (2, 2)
    else if t == 18 then (2, 0)
    else if t == 19 then (0, 4)
    else if t == 20 then (4, 2)
    else if t == 21 then (2, 4)
    else if t == 22 then (4, 1)
    else (1, 1)
  }

  lemma WalkStep(t: nat)
    requires t < 24
    ensures t == 0 ==> Visited(t) == (1, 0)
    ensures t < 23 ==> Visited(t + 1) == (Visited(t).1, (2 * Visited(t).0 + 3 * Visited(t).1) % 5)
    ensures Visited(t).0 < 5 && Visited(t).1 < 5
  {
  }

  /** The triangular numbers modulo 64. */
  function Triangular(t: nat): nat {
    (t + 1) * (t + 2) / 2 % 64
  }

  lemma Triangulars()
    ensures Triangular(0) == 1 && Triangular(1) == 3 && Triangular(2) == 6 && Triangular(3) == 10
        && Triangular(4) == 15 && Triangular(5) == 21 && Triangular(6) == 28 && Triangular(7) == 36
    ensures Triangular(8) == 45 && Triangular(9) == 55 && Triangular(10) == 2 && Triangular(11) == 14
        && Triangular(12) == 27 && Triangular(13) == 41 && Triangular(14) == 56 && Triangular(15) == 8
    ensures Triangular(16) == 25 && Triangular(17) == 43 && Triangular(18) == 62 && Triangular(19) == 18
        && Triangular(20) == 39 && Triangular(21) == 61 && Triangular(22) == 20 && Triangular(23) == 44
  {
  }

  lemma WalkOffset(t: nat)
    requires t < 24
    ensures Visited(t).0 < 5 && Visited(t).1 < 5
    ensures Offset(5 * Visited(t).0 + Visited(t).1) == Triangular(t)
  {
    Triangulars();
    hide Triangular;
  }

  /** Algorithm 2: the walk starts at (1, 0), goes from (x, y) to (y, 2x + 3y), and the lane of step t
      gets the offset (t + 1)(t + 2) / 2. */
  lemma RhoIsWalk(t: nat)
    requires t < 24
    ensures t == 0 ==> Visited(t) == (1, 0)
    ensures t < 23 ==> Visited(t + 1) == (Visited(t).1, (2 * Visited(t).0 + 3 * Visited(t).1) % 5)
    ensures Visited(t).0 < 5 && Visited(t).1 < 5
    ensures Offset(5 * Visited(t).0 + Visited(t).1) == (t + 1) * (t + 2) / 2 % 64
  {
    WalkStep(t);
    WalkOffset(t);
    assert Triangular(t) == (t + 1) * (t + 2) / 2 % 64;
    hide Visited, Offset;
  }

  /** The walk visits every lane but (0, 0). */
  lemma WalkCovers(x: nat, y: nat)
    requires x < 5 && y < 5 && (x, y) != (0, 0)
    ensures exists t: nat :: t < 24 && Visited(t) == (x, y)
  {
    assert Visited(0) == (1, 0) && Visited(1) == (0, 2) && Visited(2) == (2, 1) && Visited(3) == (1, 2)
        && Visited(4) == (2, 3) && Visited(5) == (3, 3) && Visited(6) == (3, 0) && Visited(7) == (0, 1);
    assert Visited(8) == (1, 3) && Visited(9) == (3, 1) && Visited(10) == (1, 4) && Visited(11) == (4, 4)
        && Visited(12) == (4, 0) && Visited(13) == (0, 3) && Visited(14) == (3, 4) && Visited(15) == (4, 3);
    assert Visited(16) == (3, 2) && Visited(17) == (2, 2) && Visited(18) == (2, 0) && Visited(19) == (0, 4)
        && Visited(20) == (4, 2) && Visited(21) == (2, 4) && Visited(22) == (4, 1) && Visited(23) == (1, 1);
  }

  /** One step of Algorithm 5 on its register, bit 0 lowest: shift up and add the bit that falls out
      at places 0, 4, 5 and 6. */
  function Shift(q: bv8): bv8 {
    if q & 0x80 == 0 then q << 1 else (q << 1) ^ 0x71
  }

  function Weigh(q: bv8, w: nat): nat {
    if q & 0x01 == 0 then 0 else w
  }

  /** Section 3.2.5: bit 2^j - 1 of a round constant is the output of the register j steps later. */
  function Sampled(q: bv8): nat {
    Weigh(q, 0x1) + Weigh(Shift(q), 0x2) + Weigh(Shift(Shift(q)), 0x8) + Weigh(Shift(Shift(Shift(q))), 0x80)
      + Weigh(Shift(Shift(Shift(Shift(q)))), 0x8000) + Weigh(Shift(Shift(Shift(Shift(Shift(q))))), 0x80000000)
      + Weigh(Shift(Shift(Shift(Shift(Shift(Shift(q)))))), 0x8000000000000000)
  }

  /** Seven steps a round. */
  function Seven(q: bv8): bv8 {
    Shift(Shift(Shift(Shift(Shift(Shift(Shift(q)))))))
  }

  /** The register at the beginning of round `r`. */
  function AtRound(r: nat): bv8
    requires r < 24
  {
    if r == 0 then 0x01
    else if r == 1 then 0x80
    else if r == 2 then 0xD8
    else if r == 3 then 0x1A
    else if r == 4 then 0xDF
    else if r == 5 then 0x09
    else if r == 6 then 0x35
    else if r == 7 then 0x4F
    else if r == 8 then 0xCA
    else if r == 9 then 0x70
    else if r == 10 then 0x41
    else if r == 11 then 0xEC
    else if r == 12 then 0xD5
    else if r == 13 then 0xCD
    else if r == 14 then 0x63
    else if r == 15 then 0xAB
    else if r == 16 then 0xAA
    else if r == 17 then 0x2A
    else if r == 18 then 0xF2
    else if r == 19 then 0xE8
    else if r == 20 then 0x37
    else if r == 21 then 0x3E
    else if r == 22 then 0x0B
    else 0x44
  }

  lemma EarlyRounds(r: nat)
    requires 0 <= r < 12
    ensures r < 23 ==> AtRound(r + 1) == Seven(AtRound(r))
  {
  }

  lemma EarlyConstants(r: nat)
    requires 0 <= r < 12
    ensures RC[r] == Sampled(AtRound(r))
  {
  }

  lemma LateRounds(r: nat)
    requires 12 <= r < 24
    ensures r < 23 ==> AtRound(r + 1) == Seven(AtRound(r))
  {
  }

  lemma LateConstants(r: nat)
    requires 12 <= r < 24
    ensures RC[r] == Sampled(AtRound(r))
  {
  }

  /** The table of round constants is that of section 3.2.5: the register starts with 1, makes seven
      steps a round, and is sampled on the way. */
  lemma ConstantsAreSampled(r: nat)
    requires r < 24
    ensures r == 0 ==> AtRound(r) == 1
    ensures r < 23 ==> AtRound(r + 1) == Seven(AtRound(r))
    ensures RC[r] == Sampled(AtRound(r))
  {
    if r < 12 {
      EarlyRounds(r);
      EarlyConstants(r);
    } else {
      LateRounds(r);
      LateConstants(r);
    }
    hide Seven, Sampled;
  }

  // ----- Lanes as numbers -----

  lemma PowerOf64()
    ensures Power2(64) == 0x1_0000_0000_0000_0000
  {
    assert Power2(8) == 0x100;
    assert Power2(16) == 0x1_0000;
    assert Power2(24) == 0x100_0000;
    assert Power2(32) == 0x1_0000_0000;
    assert Power2(40) == 0x100_0000_0000;
    assert Power2(48) == 0x1_0000_0000_0000;
    assert Power2(56) == 0x100_0000_0000_0000;
  }

  /** `Xor` adds bits without carry: a bit is set exactly if it is set in one of the two lanes, so what is added
      twice is gone and adding nothing changes nothing. */
  lemma XorAdds(a: Lane, b: Lane, z: nat)
    requires z < 64
    ensures BitAt(Weight(Xor(a, b)), z) <==> BitAt(Weight(a), z) != BitAt(Weight(b), z)
    ensures Weight(Xor(a, a)) == 0 && Xor(Xor(a, b), b) == a && Xor(a, Word(0)) == a
  {
    hide BitAt, Weight;
    BitOfWeight(a, z);
    BitOfWeight(b, z);
    BitOfWeight(Xor(a, b), z);
    NoBits(Xor(a, a));
    forall i: nat | i < 64 ensures !BitAt(0, i) {
      ZeroBit(i);
    }
  }

  lemma ZeroBit(z: nat)
    ensures !BitAt(0, z)
  {
    Division(Power2(z), 0, 0);
  }

  /** The lane of a number stands for that number. */
  lemma WordWeighs(n: nat)
    requires n < 0x1_0000_0000_0000_0000
    ensures Weight(Word(n)) == n
  {
    hide BitAt;
    BitsWeigh(n, Word(n));
    PowerOf64();
    Division(Power2(64), 0, n);
  }

  /** Rotating a lane is shifting its number up, and what falls out comes in below. */
  lemma RolWeighs(a: Lane, n: nat)
    requires n < 64
    ensures Weight(Rol(a, n)) == Power2(n) * (Weight(a) % Power2(64 - n)) + Weight(a) / Power2(64 - n)
  {
    var low, high := a[..64 - n], a[64 - n..];
    assert Rol(a, n) == high + low;
    assert a == low + high;
    hide Rol;
    WeightAppend(high, low);
    WeightAppend(low, high);
    WeightFits(low);
    Division(Power2(64 - n), Weight(high), Weight(low));
  }

  /** The register of Algorithm 5 after `t` steps. */
  function Register(t: nat): bv8 {
    if t == 0 then 0x01 else Shift(Register(t - 1))
  }

  predicate Out(q: bv8) {
    q & 0x01 != 0
  }

  lemma {:induction false} RegisterAtRound(r: nat)
    requires r < 24
    ensures Register(7 * r) == AtRound(r)
  {
    hide Shift, AtRound, Seven, Sampled;
    ConstantsAreSampled(r);
    if r > 0 {
      RegisterAtRound(r - 1);
      ConstantsAreSampled(r - 1);
      SevenSteps(7 * (r - 1));
    }
  }

  lemma {:induction false} SevenSteps(t: nat)
    ensures Register(t + 1) == Shift(Register(t)) && Register(t + 2) == Shift(Register(t + 1))
    ensures Register(t + 3) == Shift(Register(t + 2)) && Register(t + 4) == Shift(Register(t + 3))
    ensures Register(t + 5) == Shift(Register(t + 4)) && Register(t + 6) == Shift(Register(t + 5))
    ensures Register(t + 7) == Seven(Register(t))
  {
    hide Shift;
  }

  /** What section 3.2.5 puts at bit `z` when the register has made `t` steps. */
  predicate ConstantBit(t: nat, z: nat) {
    || (z == 0 && Out(Register(t)))
    || (z == 1 && Out(Register(t + 1)))
    || (z == 3 && Out(Register(t + 2)))
    || (z == 7 && Out(Register(t + 3)))
    || (z == 15 && Out(Register(t + 4)))
    || (z == 31 && Out(Register(t + 5)))
    || (z == 63 && Out(Register(t + 6)))
  }

  function ConstantLane(t: nat): Lane {
    seq(64, z requires 0 <= z < 64 => ConstantBit(t, z))
  }

  lemma {:induction false} NextWeight(v: Lane, m: nat, n: nat)
    requires m <= n < 64 && forall z :: m <= z < n ==> !v[z]
    ensures Weight(v[..n + 1]) == Weight(v[..m]) + if v[n] then Power2(n) else 0
  {
    var w := v[..n + 1];
    assert w[..n] == v[..n];
    WeightSkip(v[..n], m);
    assert v[..n][..m] == v[..m];
  }

  lemma {:induction false} ConstantPowers()
    ensures Power2(0) == 0x1 && Power2(1) == 0x2 && Power2(3) == 0x8 && Power2(7) == 0x80
    ensures Power2(15) == 0x8000 && Power2(31) == 0x80000000 && Power2(63) == 0x8000000000000000
  {
    PowerOf64();
    assert Power2(8) == 0x100;
    assert Power2(16) == 0x1_0000;
    assert Power2(24) == 0x100_0000;
    assert Power2(32) == 0x1_0000_0000;
  }

  function If(b: bool, w: nat): nat {
    if b then w else 0
  }

  /** The number of a lane with bits at places 2^j - 1 only. */
  lemma {:induction false} SparseWeighs(v: Lane)
    requires forall z :: 0 <= z < 64 && z != 0 && z != 1 && z != 3 && z != 7 && z != 15 && z != 31 && z != 63 ==> !v[z]
    ensures Weight(v) == If(v[0], 0x1) + If(v[1], 0x2) + If(v[3], 0x8) + If(v[7], 0x80) + If(v[15], 0x8000)
                         + If(v[31], 0x80000000) + If(v[63], 0x8000000000000000)
  {
    hide Weight, Power2;
    ConstantPowers();
    NoWeight();
    NextWeight(v, 0, 0);
    NextWeight(v, 1, 1);
    NextWeight(v, 2, 3);
    NextWeight(v, 4, 7);
    NextWeight(v, 8, 15);
    NextWeight(v, 16, 31);
    NextWeight(v, 32, 63);
    assert v[..64] == v;
    assert v[..0] == [];
  }

  lemma NoWeight()
    ensures Weight([]) == 0
  {
  }

  lemma {:induction false} ConstantWeighs(t: nat)
    ensures Weight(ConstantLane(t)) == Sampled(Register(t))
  {
    hide Shift, Register, Weight, Power2;
    SevenSteps(t);
    SparseWeighs(ConstantLane(t));
  }

  lemma {:induction false} ConstantIsLane(r: nat)
    requires r < 24
    ensures RoundConstant(r) == ConstantLane(7 * r)
  {
    hide AtRound, Sampled, Register, Weight, ConstantLane, Word;
    RegisterAtRound(r);
    ConstantsAreSampled(r);
    ConstantWeighs(7 * r);
    ConstantFits(r);
    WordWeighs(RC[r]);
    WeightUnique(RoundConstant(r), ConstantLane(7 * r));
  }

  /** Algorithm 5 on the lane: bit z of the constant of round r is set exactly if z is 2^j - 1 for some
      j up to 6 and the register puts out a one after 7r + j steps. */
  lemma {:induction false} ConstantIsSampled(r: nat, z: nat)
    requires r < 24 && z < 64
    ensures RoundConstant(r)[z] <==> exists j: nat :: j <= 6 && z == Power2(j) - 1 && Out(Register(7 * r + j))
  {
    hide RoundConstant, Register, Out, Power2, ConstantBit;
    ConstantIsLane(r);
    SamplePlaces(7 * r, z);
  }

  lemma ConstantFits(r: nat)
    requires r < 24
    ensures RC[r] < 0x1_0000_0000_0000_0000
  {
  }

  lemma {:induction false} SamplePlaces(t: nat, z: nat)
    ensures ConstantBit(t, z) <==> exists j: nat :: j <= 6 && z == Power2(j) - 1 && Out(Register(t + j))
  {
    hide Register, Out;
    assert Power2(0) == 1 && Power2(1) == 2 && Power2(2) == 4 && Power2(3) == 8;
    assert Power2(4) == 16 && Power2(5) == 32 && Power2(6) == 64;
    hide Power2;
    if ConstantBit(t, z) {
      var j: nat := if z == 0 then 0 else if z == 1 then 1 else if z == 3 then 2 else if z == 7 then 3
                    else if z == 15 then 4 else if z == 31 then 5 else 6;
      assert z == Power2(j) - 1 && Out(Register(t + j));
    }
  }
}
