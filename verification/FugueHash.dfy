/**
 The incremental Fugue-512: `fugue4_core` takes a message in pieces of any length; close appends the
 padding and the length, takes the names back to where they began and computes the digest.
 */
module FugueHash {
  import opened Arithmetic
  import Radix
  import opened FugueSpec
  import opened Fugue
  import opened FugueFinal

  // ----- Bytes and words -----

  lemma WordValue(w: seq<Byte>)
    requires |w| == 4
    ensures Radix.Value(0x100, w) == WordOf(w[0], w[1], w[2], w[3])
  {
    assert w[..3][..2] == w[..2];
    assert w[..2][..1] == w[..1];
    assert Radix.Value(0x100, w[..1]) == w[0];
    assert Radix.Value(0x100, w[..2]) == 0x100 * Radix.Value(0x100, w[..1]) + w[1];
    assert Radix.Value(0x100, w[..3]) == 0x100 * Radix.Value(0x100, w[..2]) + w[2];
  }

  /** Up to three bytes leave room for one more. */
  lemma ValueFits(w: seq<Byte>)
    requires |w| <= 3
    ensures Radix.Value(0x100, w) < 0x100_0000
  {
    if |w| == 3 {
      WordValue(w + [0]);
      assert (w + [0])[..3] == w;
    } else if |w| == 2 {
      assert w[..1] == [w[0]];
    }
  }

  lemma ValueAppend(w: seq<Byte>, b: Byte)
    requires |w| <= 3
    ensures Radix.Value(0x100, w + [b]) == 0x100 * Radix.Value(0x100, w) + b < WORD
  {
    ValueFits(w);
    assert (w + [b])[..|w|] == w;
  }

  lemma WordsAppend(m: seq<Byte>, w: seq<Byte>)
    requires |m| % 4 == 0 && |w| == 4
    ensures Words(m + w) == Words(m) + [WordOf(w[0], w[1], w[2], w[3])]
  {
    forall i | 0 <= i <= |m| / 4 ensures Words(m + w)[i] == (Words(m) + [WordOf(w[0], w[1], w[2], w[3])])[i] {
    }
  }

  /** `p = (p << 8) | byte` for every byte. */
  method Gather(p0: Word, bytes: seq<Byte>, ghost before: seq<Byte>) returns (p: Word)
    requires |before| + |bytes| <= 4 && p0 == Radix.Value(0x100, before)
    ensures p == Radix.Value(0x100, before + bytes)
  {
    hide Radix.Value;
    p := p0;
    assert before + bytes[..0] == before;
    for i := 0 to |bytes|
      invariant p == Radix.Value(0x100, before + bytes[..i])
    {
      ValueAppend(before + bytes[..i], bytes[i]);
      assert before + bytes[..i] + [bytes[i]] == before + bytes[..i + 1];
      p := (0x100 * p + bytes[i]) % WORD;
    }
    assert bytes[..|bytes|] == bytes;
  }

  // ----- The context -----

  /** The register of word 0 at the beginning of a turn. */
  function Base(turn: nat): (b: nat)
    requires turn < 3
    ensures b < 36
  {
    if turn == 0 then 0 else if turn == 1 then 24 else 12
  }

  /** The words of `m` have been absorbed. */
  ghost predicate Holds(smix: Smix, iv: State, s: State, turn: nat, m: seq<Byte>)
    requires turn < 3
  {
    |m| % 4 == 0 && View(s, Base(turn)) == Absorb(smix, iv, Words(m))
  }

  /** The bytes of `m` after `done` wait in `partial`. */
  ghost predicate Waiting(m: seq<Byte>, done: seq<Byte>, partial: Word, partialLen: nat) {
    && partialLen <= 4
    && |done| + partialLen == |m|
    && done == m[..|done|]
    && partial == Radix.Value(0x100, m[|done|..])
  }

  lemma WaitingBytes(m: seq<Byte>, done: seq<Byte>, partial: Word, partialLen: nat) returns (w: seq<Byte>)
    requires Waiting(m, done, partial, partialLen)
    ensures |w| == partialLen <= 4 && m == done + w && partial == Radix.Value(0x100, w)
  {
    w := m[|done|..];
  }

  lemma Remaining(m: seq<Byte>, done: seq<Byte>, partial: Word, partialLen: nat)
    requires Waiting(m, done, partial, partialLen) && |done| % 4 == 0
    ensures |m| % 4 == partialLen % 4 && partialLen <= 4
  {
    hide Radix.Value;
  }

  lemma Waits(m: seq<Byte>, done: seq<Byte>, w: seq<Byte>, p: Word)
    requires |w| <= 4 && p == Radix.Value(0x100, w) && m == done + w
    ensures Waiting(m, done, p, |w|)
  {
    assert m[|done|..] == w;
  }

  lemma Regroup(done: seq<Byte>, m: seq<Byte>, data: seq<Byte>, w0: seq<Byte>, w: seq<Byte>, rest: seq<Byte>)
    requires m == done + w0 && w + rest == w0 + data
    ensures done + w + rest == m + data
    ensures rest == [] ==> done + w == m + data
  {
    assert done + w + rest == done + (w + rest);
    assert m + data == done + (w0 + data);
    if rest == [] {
      assert done + w + rest == done + w;
    }
  }

  /** `CORE_ENTRY`: the waiting bytes `w` are completed to a word as far as the data goes. */
  method Enter(p0: Word, data: seq<Byte>, plen0: nat, ghost w0: seq<Byte>)
    returns (p: Word, plen: nat, rest: seq<Byte>, ghost w: seq<Byte>)
    requires |w0| == plen0 <= 4 && p0 == Radix.Value(0x100, w0)
    ensures |w| == plen <= 4 && p == Radix.Value(0x100, w) && w + rest == w0 + data
    ensures plen == 4 || |rest| == 0
    ensures |data| > 0 ==> plen > 0
    ensures plen0 == 4 ==> rest == data
  {
    hide Radix.Value;
    p, plen, rest, w := p0, plen0, data, w0;
    if plen < 4 {
      var count := 4 - plen;
      if |rest| < count {
        count := |rest|;
      }
      plen := plen + count;
      p := Gather(p, rest[..count], w);
      w := w + rest[..count];
      rest := rest[count..];
      assert w + rest == w0 + data;
    }
  }

  lemma AbsorbWord(smix: Smix, iv: State, m: seq<Byte>, w: seq<Byte>)
    requires |m| % 4 == 0 && |w| == 4
    ensures Absorb(smix, iv, Words(m + w)) == Round(smix, Absorb(smix, iv, Words(m)), WordOf(w[0], w[1], w[2], w[3]))
  {
    hide Round, Words;
    WordsAppend(m, w);
    var ws := Words(m + w);
    assert ws[..|ws| - 1] == Words(m);
  }

  lemma CountAdds(x: nat, y: nat)
    ensures (x % COUNT + y) % COUNT == (x + y) % COUNT
  {
  }

  lemma EmptyValue()
    ensures Radix.Value(0x100, []) == 0
  {
  }

  lemma Fresh(smix: Smix, iv: State, s: State)
    requires s == iv
    ensures Holds(smix, iv, s, 0, [])
  {
  }

  lemma EncodedWord(x: Word)
    ensures var e := Encode32(x); WordOf(e[0], e[1], e[2], e[3]) == x
  {
    assert x / 0x100 / 0x100 == x / 0x1_0000;
    assert x / 0x1_0000 / 0x100 == x / 0x100_0000;
  }

  /** `sph_enc64be`. */
  function Encode(c: nat): (r: seq<Byte>)
    requires c < COUNT
    ensures |r| == 8
  {
    Encode32(c / WORD) + Encode32(c % WORD)
  }

  lemma FillingBytes(len: nat, ub: Byte, n: nat, pending: nat)
    requires n < 8 && pending <= 4 && len % 4 == pending % 4
    ensures Filling(len, ub, n) ==
            if pending % 4 == 0 && n == 0 then []
            else [HighBits(ub, n)] + Radix.Zeros(3 - pending % 4)
  {
    if n == 0 {
      assert Power2(8) == 0x100;
      assert HighBits(ub, 0) == 0;
    }
  }

  lemma FillsWords(m: seq<Byte>, ub: Byte, n: nat)
    requires n < 8
    ensures |m + Filling(|m|, ub, n)| % 4 == 0
  {
  }

  lemma PaddedWords(m: seq<Byte>, ub: Byte, n: nat)
    requires n < 8
    ensures var all := m + Filling(|m|, ub, n) + Encode((8 * |m| + n) % COUNT);
            |all| % 4 == 0 && Words(all) == Padded(m, ub, n)
  {
    var bits := (8 * |m| + n) % COUNT;
    var e, g := Encode32(bits / WORD), Encode32(bits % WORD);
    var f := m + Filling(|m|, ub, n);
    EncodedWord(bits / WORD);
    EncodedWord(bits % WORD);
    FillsWords(m, ub, n);
    hide Words, Encode32, Filling;
    WordsAppend(f, e);
    WordsAppend(f + e, g);
    assert f + e + g == f + Encode(bits);
  }

  /** The end of a message of `len` bytes: filling, length and four more bytes. */
  ghost function Ending(len: nat, ub: Byte, n: nat, last: seq<Byte>): (r: seq<Byte>)
    requires n < 8
    ensures |r| >= 8
  {
    Filling(len, ub, n) + Encode((8 * len + n) % COUNT) + last
  }

  /** With the tail taken, the last four bytes wait and all before them has been absorbed. */
  lemma Finished(m: seq<Byte>, ub: Byte, n: nat, last: seq<Byte>, done: seq<Byte>, partial: Word, pending: nat)
    requires n < 8 && |last| == 4 && 0 < pending && |done| % 4 == 0
    requires Waiting(m + Ending(|m|, ub, n, last), done, partial, pending)
    ensures Words(done) == Padded(m, ub, n)
  {
    hide Words, Encode, Filling, Padded, Radix.Value;
    PaddedWords(m, ub, n);
    var whole := m + Filling(|m|, ub, n) + Encode((8 * |m| + n) % COUNT);
    assert m + Ending(|m|, ub, n, last) == whole + last;
    assert pending % 4 == 0;
    assert done == whole;
  }

  /** What close feeds to the core when `plen0` bytes are waiting; `junk` is what the buffer held. */
  method Tail(plen0: nat, bitCount: nat, ub: Byte, n: nat, junk: seq<Byte>, ghost len: nat) returns (tail: seq<Byte>)
    requires plen0 <= 4 && len % 4 == plen0 % 4 && bitCount == 8 * len % COUNT && n < 8 && |junk| == 16
    ensures tail == Ending(len, ub, n, junk[12..])
  {
    hide Encode, Filling, HighBits;
    CountAdds(8 * len, n);
    var count := (bitCount + n) % COUNT;
    FillingBytes(len, ub, n, plen0);
    var plen := plen0;
    var enc := Encode(count);
    var buf := junk[..4] + enc + junk[12..];
    if plen == 0 && n == 0 {
      plen := 4;
    } else if plen < 4 || n != 0 {
      if plen == 4 {
        plen := 0;
      }
      var last := HighBits(ub, n);
      buf := buf[plen := last];
      buf := buf[..plen + 1] + Radix.Zeros(3 - plen) + buf[4..];
      assert buf[plen..] == [last] + Radix.Zeros(3 - plen) + enc + junk[12..];
    }
    tail := buf[plen..];
  }

  /** Close takes the names back by 12 for every turn. */
  lemma Unrotated(s: State, turn: nat)
    requires turn < 3
    ensures s[36 - 12 * turn..] + s[..36 - 12 * turn] == View(s, Base(turn))
  {
  }

  class Context {
    const smix: Smix
    const iv: State
    const a: array<Word>
    var partial: Word
    var partialLen: nat
    var roundShift: nat
    var bitCount: nat
    ghost var message: seq<Byte>
    ghost var done: seq<Byte>

    ghost predicate Valid()
      reads this, a
    {
      && a.Length == 36
      && roundShift < 3
      && bitCount == 8 * |message| % COUNT
      && Waiting(message, done, partial, partialLen)
      && Holds(smix, iv, a[..], roundShift, done)
    }

    constructor (smix: Smix, iv: State)
      ensures Valid() && message == [] && fresh(a)
      ensures this.smix == smix && this.iv == iv
    {
      this.smix, this.iv := smix, iv;
      this.a := new Word[36](i requires 0 <= i < 36 => iv[i]);
      this.partial, this.partialLen, this.roundShift, this.bitCount := 0, 0, 0, 0;
      this.message, this.done := [], [];
      new;
      Fresh(smix, iv, a[..]);
    }

    /** One pass of the loop: the round of this turn. */
    method Turn(turn: nat, p: Word, ghost d: seq<Byte>, ghost w: seq<Byte>) returns (next: nat)
      requires a.Length == 36 && turn < 3 && |w| == 4 && p == Radix.Value(0x100, w)
      requires Holds(smix, iv, a[..], turn, d)
      modifies a
      ensures next < 3 && Holds(smix, iv, a[..], next, d + w)
    {
      hide View, Round, Words, Absorb;
      WordValue(w);
      AbsorbWord(smix, iv, d, w);
      if turn == 0 {
        FirstRound(smix, a, p);
        next := 1;
      } else if turn == 1 {
        SecondRound(smix, a, p);
        next := 2;
      } else {
        ThirdRound(smix, a, p);
        next := 0;
      }
    }

    /** The loop over the turns: it stops with at most four bytes left. */
    method Turns(turn0: nat, p0: Word, rest0: seq<Byte>, ghost d0: seq<Byte>, ghost w0: seq<Byte>)
      returns (turn: nat, rest: seq<Byte>, ghost d: seq<Byte>)
      requires a.Length == 36 && turn0 < 3 && |w0| == 4 && p0 == Radix.Value(0x100, w0)
      requires Holds(smix, iv, a[..], turn0, d0)
      modifies a
      ensures turn < 3 && |rest| <= 4 && d + rest == d0 + w0 + rest0
      ensures |rest0| > 0 ==> |rest| > 0
      ensures Holds(smix, iv, a[..], turn, d)
    {
      hide Holds, Radix.Value;
      ghost var all := d0 + w0 + rest0;
      ghost var w := w0;
      var p := p0;
      turn, rest, d := turn0, rest0, d0;
      while true
        invariant turn < 3 && |w| == 4 && p == Radix.Value(0x100, w)
        invariant d + w + rest == all && (|rest0| > 0 ==> |rest| > 0)
        invariant Holds(smix, iv, a[..], turn, d)
        decreases |rest|
      {
        turn := Turn(turn, p, d, w);
        d := d + w;
        if |rest| <= 4 {
          break;
        }
        p := WordOf(rest[0], rest[1], rest[2], rest[3]);
        WordValue(rest[..4]);
        w := rest[..4];
        rest := rest[4..];
      }
    }

    /** `fugue4_core`. */
    method Update(data: seq<Byte>)
      requires Valid()
      modifies this, a
      ensures Valid() && message == old(message) + data
      ensures |data| > 0 ==> partialLen > 0
    {
      hide Holds, Radix.Value, Waiting;
      ghost var all := message + data;
      ghost var w0 := WaitingBytes(message, done, partial, partialLen);
      CountAdds(8 * |message|, 8 * |data|);
      var full := partialLen == 4;
      var p, plen, rest, w := Enter(partial, data, partialLen, w0);
      Regroup(done, old(message), data, w0, w, rest);
      bitCount := (bitCount + 8 * |data|) % COUNT;
      message := all;
      if !full && |rest| == 0 {
        partial, partialLen := p, plen;
        Waits(all, done, w, p);
        return;
      }
      roundShift, rest, done := Turns(roundShift, p, rest, done, w);
      EmptyValue();
      partial := Gather(0, rest, []);
      partialLen := |rest|;
      assert [] + rest == rest;
      Waits(all, done, rest, partial);
    }

    /** The context of an empty message. */
    method Restart()
      requires a.Length == 36
      modifies this, a
      ensures Valid() && message == []
    {
      forall i | 0 <= i < 36 {
        a[i] := iv[i];
      }
      partial, partialLen, roundShift, bitCount := 0, 0, 0, 0;
      message, done := [], [];
      assert a[..] == iv;
      hide Holds;
      Fresh(smix, iv, a[..]);
      EmptyValue();
    }

    /** The names go back to where they began. */
    method Unrotate() returns (s: array<Word>)
      requires a.Length == 36 && roundShift < 3
      ensures fresh(s) && s.Length == 36 && s[..] == View(a[..], Base(roundShift))
    {
      hide View;
      var rms := 12 * roundShift;
      var words: State := a[36 - rms..] + a[..36 - rms];
      Unrotated(a[..], roundShift);
      s := new Word[36](i requires 0 <= i < 36 => words[i]);
      assert s[..] == words;
    }

    /** `fugue4_close`, and the start of the next message. */
    method Close(ub: Byte, n: nat, junk: seq<Byte>) returns (dst: seq<Byte>)
      requires Valid() && n < 8 && |junk| == 16
      modifies this, a
      ensures dst == Hash(smix, iv, old(message), ub, n)
      ensures Valid() && message == []
    {
      ghost var m := message;
      Remaining(m, done, partial, partialLen);
      hide Radix.Value, Padded, Ending, Absorb, View, Words, Waiting, Final;
      var tail := Tail(partialLen, bitCount, ub, n, junk, |m|);
      Update(tail);
      Finished(m, ub, n, junk[12..], done, partial, partialLen);
      var s := Unrotate();
      dst := Finish(smix, s);
      Restart();
    }
  }
}
