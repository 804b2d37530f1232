/**
 Fugue-512 in its eager form: a state of 36 words that is really rotated. A word of the message is
 injected, then four times the state is rotated by three and mixed. The substitution `smix` on the
 first four words is a parameter.
 */
module FugueSpec {
  import opened Arithmetic
  import opened Binary
  import Radix

  const WORD: nat := 0x1_0000_0000
  const COUNT: nat := 0x1_0000_0000_0000_0000

  type Word = x: nat | x < 0x1_0000_0000
  type Byte = x: nat | x < 0x100
  type State = s: seq<Word> | |s| == 36 witness seq(36, _ => 0)
  type Smix = (Word, Word, Word, Word) -> (Word, Word, Word, Word)

  /** Exclusive or of the lowest `n` bits. */
  function XorBits(a: nat, b: nat, n: nat): (r: nat)
    ensures r < Power2(n)
  {
    if n == 0 then 0 else 2 * XorBits(a / 2, b / 2, n - 1) + if a % 2 == b % 2 then 0 else 1
  }

  function Xor(a: Word, b: Word): Word {
    PowerOf32();
    XorBits(a, b, 32)
  }

  /** Bit z of the result is set exactly if the bits z of the two numbers differ. */
  lemma {:induction false} XorBitsAt(a: nat, b: nat, n: nat, z: nat)
    requires z < n
    ensures BitAt(XorBits(a, b, n), z) <==> BitAt(a, z) != BitAt(b, z)
  {
    var x := XorBits(a / 2, b / 2, n - 1);
    var r := XorBits(a, b, n);
    assert r / 2 == x;
    hide BitAt;
    if z == 0 {
      BitOfHalf(a, 0);
      BitOfHalf(b, 0);
      BitOfHalf(r, 0);
    } else {
      BitOfHalf(a, z - 1);
      BitOfHalf(b, z - 1);
      BitOfHalf(r, z - 1);
      XorBitsAt(a / 2, b / 2, n - 1, z - 1);
    }
  }

  /** `Xor` is exclusive or, bit by bit. */
  lemma XorAt(a: Word, b: Word, z: nat)
    requires z < 32
    ensures Xor(a, b) / Power2(z) % 2 == 1 <==> a / Power2(z) % 2 != b / Power2(z) % 2
  {
    XorBitsAt(a, b, 32, z);
    hide XorBits;
  }

  lemma {:induction false} XorBitsSelf(a: nat, n: nat)
    ensures XorBits(a, a, n) == 0
    ensures a < Power2(n) ==> XorBits(a, 0, n) == a
  {
    if n > 0 {
      XorBitsSelf(a / 2, n - 1);
    }
  }

  lemma {:induction false} XorBitsTwice(a: nat, b: nat, n: nat)
    requires a < Power2(n)
    ensures XorBits(XorBits(a, b, n), b, n) == a
  {
    if n > 0 {
      XorBitsTwice(a / 2, b / 2, n - 1);
      var x := XorBits(a, b, n);
      assert x / 2 == XorBits(a / 2, b / 2, n - 1);
      assert x % 2 == if a % 2 == b % 2 then 0 else 1;
      assert XorBits(x, b, n) == 2 * XorBits(x / 2, b / 2, n - 1) + if x % 2 == b % 2 then 0 else 1;
    }
  }

  /** A word added twice is gone, and nothing added changes nothing. */
  lemma XorUndo(a: Word, b: Word)
    ensures Xor(a, a) == 0 && Xor(Xor(a, b), b) == a && Xor(a, 0) == a
  {
    hide XorBits;
    assert Xor(a, a) == XorBits(a, a, 32);
    PowerOf32();
    XorBitsSelf(a, 32);
    XorBitsTwice(a, b, 32);
  }

  lemma PowerOf32()
    ensures Power2(32) == 0x1_0000_0000
  {
    assert Power2(8) == 0x100;
    assert Power2(16) == 0x1_0000;
    assert Power2(24) == 0x100_0000;
  }

  /** TIX: the word of the message goes in. */
  function Tix(s: State, q: Word): State {
    s[22 := Xor(s[22], s[0])][0 := q][8 := Xor(s[8], q)]
     [1 := Xor(s[1], s[24])][4 := Xor(s[4], s[27])][7 := Xor(s[7], s[30])]
  }

  /** ROR: the last `n` words come to the front. */
  function Ror(s: State, n: nat): State
    requires n <= 36
  {
    s[36 - n..] + s[..36 - n]
  }

  function Cmix(s: State): State {
    s[0 := Xor(s[0], s[4])][1 := Xor(s[1], s[5])][2 := Xor(s[2], s[6])]
     [18 := Xor(s[18], s[4])][19 := Xor(s[19], s[5])][20 := Xor(s[20], s[6])]
  }

  function SmixFirst(smix: Smix, s: State): State {
    var (a, b, c, d) := smix(s[0], s[1], s[2], s[3]);
    s[0 := a][1 := b][2 := c][3 := d]
  }

  /** One quarter of a round. */
  function SubRound(smix: Smix, s: State): State {
    SmixFirst(smix, Cmix(Ror(s, 3)))
  }

  function Round(smix: Smix, s: State, q: Word): State {
    SubRound(smix, SubRound(smix, SubRound(smix, SubRound(smix, Tix(s, q)))))
  }

  /** All words, one round each. */
  function Absorb(smix: Smix, iv: State, words: seq<Word>): State {
    if |words| == 0 then iv
    else Round(smix, Absorb(smix, iv, words[..|words| - 1]), words[|words| - 1])
  }

  function WordOf(a: Byte, b: Byte, c: Byte, d: Byte): Word {
    0x100_0000 * a + 0x1_0000 * b + 0x100 * c + d
  }

  /** The whole words at the beginning of `m`. */
  function Words(m: seq<Byte>): seq<Word> {
    seq(|m| / 4, i requires 0 <= i < |m| / 4 => WordOf(m[4 * i], m[4 * i + 1], m[4 * i + 2], m[4 * i + 3]))
  }

  /** `ub & ~(0xFF >> n)`: the bits below the `n` highest ones cleared. */
  function HighBits(ub: Byte, n: nat): Byte
    requires n < 8
  {
    var p := Power2(8 - n);
    p * Quotient(ub, p)
  }

  /** Of the eight bits the `n` highest are kept and the others are zero. */
  lemma HighBitsAt(ub: Byte, n: nat, z: nat)
    requires n < 8 && z < 8
    ensures BitAt(HighBits(ub, n), z) <==> z >= 8 - n && BitAt(ub, z)
  {
    assert Power2(8) == 0x100;
    ClearLow(ub, 8 - n, 8, z);
  }

  /** The byte with the `n` highest bits of `ub`, if there are any. */
  function Extra(ub: Byte, n: nat): seq<Byte>
    requires n < 8
  {
    if n == 0 then [] else [HighBits(ub, n)]
  }

  /** What comes after a message of `len` bytes to fill its last word. */
  function Filling(len: nat, ub: Byte, n: nat): seq<Byte>
    requires n < 8
  {
    var e := Extra(ub, n);
    e + Radix.Zeros((4 - (len + |e|) % 4) % 4)
  }

  /** The message, filled up to whole words, and its length in bits as two words. */
  function Padded(m: seq<Byte>, ub: Byte, n: nat): seq<Word>
    requires n < 8
  {
    var bits := (8 * |m| + n) % COUNT;
    Words(m + Filling(|m|, ub, n)) + [bits / WORD, bits % WORD]
  }

  /** The last two words are the length in bits as a 64-bit number, high word first. */
  lemma PaddedLength(m: seq<Byte>, ub: Byte, n: nat)
    requires n < 8
    ensures var p := Padded(m, ub, n);
            && |p| >= 2
            && 0x1_0000_0000 * (p[|p| - 2] as int) + p[|p| - 1] as int == (8 * |m| + n) % 0x1_0000_0000_0000_0000
  {
    hide Words, Filling;
    var w := Words(m + Filling(|m|, ub, n));
    var bits := (8 * |m| + n) % COUNT;
    assert Padded(m, ub, n) == w + [bits / WORD, bits % WORD];
  }

  // ----- The final rounds -----

  /** Word 0 is added to word 4 and to three more. */
  function Spread(s: State, i: nat, j: nat, k: nat): State
    requires 4 < i < j < k < 36
  {
    s[4 := Xor(s[4], s[0])][i := Xor(s[i], s[0])][j := Xor(s[j], s[0])][k := Xor(s[k], s[0])]
  }

  function FinalStep(smix: Smix, s: State, i: nat, j: nat, k: nat, n: nat): State
    requires 4 < i < j < k < 36 && n <= 36
  {
    SmixFirst(smix, Ror(Spread(s, i, j, k), n))
  }

  function FinalRound(smix: Smix, s: State): State {
    var a := FinalStep(smix, s, 9, 18, 27, 9);
    var b := FinalStep(smix, a, 10, 18, 27, 9);
    var c := FinalStep(smix, b, 10, 19, 27, 9);
    FinalStep(smix, c, 10, 19, 28, 8)
  }

  function SubRounds(smix: Smix, s: State, n: nat): State {
    if n == 0 then s else SubRound(smix, SubRounds(smix, s, n - 1))
  }

  function FinalRounds(smix: Smix, s: State, n: nat): State {
    if n == 0 then s else FinalRound(smix, FinalRounds(smix, s, n - 1))
  }

  /** The words of the digest. */
  function OutputWord(i: nat): (k: nat)
    requires i < 16
    ensures k < 36
  {
    if i < 4 then i + 1 else if i < 8 then i + 5 else if i < 12 then i + 10 else i + 15
  }

  lemma OutputWords()
    ensures seq(16, i requires 0 <= i < 16 => OutputWord(i))
         == [1, 2, 3, 4, 9, 10, 11, 12, 18, 19, 20, 21, 27, 28, 29, 30]
  {
  }

  /** Four bytes, highest first. */
  function Encode32(x: Word): (r: seq<Byte>)
    ensures |r| == 4
  {
    [x / 0x100_0000, x / 0x1_0000 % 0x100, x / 0x100 % 0x100, x % 0x100]
  }

  /** The first `n` words of the digest, as bytes. */
  function Output(s: State, n: nat): seq<Byte>
    requires n <= 16
  {
    if n == 0 then [] else Output(s, n - 1) + Encode32(s[OutputWord(n - 1)])
  }

  /** The digest of an absorbed state: 32 quarter rounds, 13 final rounds, one last addition. */
  function Final(smix: Smix, s: State): seq<Byte> {
    Output(Spread(FinalRounds(smix, SubRounds(smix, s, 32), 13), 9, 18, 27), 16)
  }

  /** Fugue-512 of a message and the `n` highest bits of `ub`. */
  function Hash(smix: Smix, iv: State, m: seq<Byte>, ub: Byte, n: nat): seq<Byte>
    requires n < 8
  {
    Final(smix, Absorb(smix, iv, Padded(m, ub, n)))
  }
}
