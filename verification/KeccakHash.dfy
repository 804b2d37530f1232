/**
 The incremental hash: a context that takes a message in pieces of any length and, on close, pads
 it, reads the digest and starts over. Its 25 words stay complemented from start to close.
 */
module KeccakHash {
  import opened Arithmetic
  import opened BitStrings
  import opened KeccakSpec
  import opened KeccakFast
  import opened KeccakPermutation
  import opened KeccakSponge

  // ----- The complemented words -----

  /** The words `keccak_init` sets to all ones. */
  predicate Inverted(w: nat) {
    w == 1 || w == 2 || w == 8 || w == 12 || w == 17 || w == 20
  }

  lemma Places()
    ensures Place(0) == 0 && Place(1) == 5 && Place(2) == 10 && Place(3) == 15 && Place(4) == 20
    ensures Place(5) == 1 && Place(6) == 6 && Place(7) == 11 && Place(8) == 16 && Place(9) == 21
    ensures Place(10) == 2 && Place(11) == 7 && Place(12) == 12 && Place(13) == 17 && Place(14) == 22
    ensures Place(15) == 3 && Place(16) == 8 && Place(17) == 13 && Place(18) == 18 && Place(19) == 23
    ensures Place(20) == 4 && Place(21) == 9 && Place(22) == 14 && Place(23) == 19 && Place(24) == 24
  {
  }

  lemma InvertedPlaces(i: nat)
    requires i < 25
    ensures Place(i) < 25 && Inverted(Place(i)) == Complemented(Between, i)
  {
    Places();
    hide Place;
  }

  /** The words, in the order of the context, hold `s` complemented. */
  ghost predicate Holding(words: State, s: State) {
    forall i :: 0 <= i < 25 ==> words[P0[i]] == Flip(Complemented(Between, i), s[i])
  }

  lemma HoldingView(words: State, s: State)
    ensures Holding(words, s) <==> View(words, P0) == Masked(Between, s)
  {
    hide Flip, Complemented;
    if View(words, P0) == Masked(Between, s) {
      forall i | 0 <= i < 25 ensures words[P0[i]] == Flip(Complemented(Between, i), s[i]) {
        assert View(words, P0)[i] == Masked(Between, s)[i];
      }
    }
  }

  // ----- Input and output -----

  /** `sph_dec64le`. */
  function Load(bytes: seq<Byte>, w: nat): Lane
    requires 8 * w + 8 <= |bytes|
  {
    Bits(bytes[8 * w..8 * w + 8])
  }

  /** The words with the first `n` words of `bytes` added. */
  ghost predicate Added(words: State, cur: State, bytes: seq<Byte>, n: nat)
    requires 8 * n <= |bytes|
  {
    && (forall w :: 0 <= w < 25 && w < n ==> cur[w] == Xor(words[w], Load(bytes, w)))
    && (forall w :: n <= w < 25 ==> cur[w] == words[w])
  }

  lemma AddedAt(words: State, cur: State, bytes: seq<Byte>, n: nat, s: State, i: nat)
    requires 8 * n == |bytes| && n <= 25 && Added(words, cur, bytes, n) && Holding(words, s) && i < 25
    ensures cur[P0[i]] == Flip(Complemented(Between, i), XorBlock(s, Bits(bytes))[i])
  {
    FirstNames(i);
    var w := Place(i);
    var b := Bits(bytes);
    var c := Complemented(Between, i);
    hide Complemented, Flip, Xor, Load;
    assert words[P0[i]] == Flip(c, s[i]);
    if w < n {
      LoadBits(bytes, w);
      FlipXor(s[i], Load(bytes, w), c, false);
      assert Flip(false, Load(bytes, w)) == Load(bytes, w) by { NoFlip(Load(bytes, w)); }
    }
  }

  lemma LoadBits(bytes: seq<Byte>, w: nat)
    requires 8 * w + 8 <= |bytes|
    ensures Load(bytes, w) == Bits(bytes)[64 * w..64 * w + 64]
  {
    BitsSlice(bytes, 8 * w, 8 * w + 8);
  }

  lemma NoFlip(v: Lane)
    ensures Flip(false, v) == v
  {
  }

  /** `INPUT_BUF`: a full buffer goes into the words. */
  method InputBuf(wide: array<Lane>, bytes: seq<Byte>, n: nat, ghost s: State)
    requires wide.Length == 25 && |bytes| == 8 * n && n <= 25
    requires Holding(wide[..], s)
    modifies wide
    ensures Holding(wide[..], XorBlock(s, Bits(bytes)))
  {
    ghost var words: State := wide[..];
    hide Xor, Load;
    for w := 0 to n
      invariant Added(words, wide[..], bytes, w)
    {
      wide[w] := Xor(wide[w], Load(bytes, w));
    }
    ghost var cur: State := wide[..];
    hide Added, XorBlock, Bits, Flip, Complemented;
    assert Holding(words, s);
    forall i | 0 <= i < 25 ensures cur[P0[i]] == Flip(Complemented(Between, i), XorBlock(s, Bits(bytes))[i]) {
      AddedAt(words, cur, bytes, n, s, i);
    }
  }

  function Ones(): Lane {
    seq(64, _ => true)
  }

  /** The words of a fresh context. */
  method Clear(wide: array<Lane>)
    requires wide.Length == 25
    modifies wide
    ensures Holding(wide[..], Start())
  {
    for i := 0 to 25
      invariant forall k :: 0 <= k < i ==> wide[k] == Zero()
    {
      wide[i] := Zero();
    }
    wide[1] := Ones();
    wide[2] := Ones();
    wide[8] := Ones();
    wide[12] := Ones();
    wide[17] := Ones();
    wide[20] := Ones();
    ghost var words: State := wide[..];
    assert forall w :: 0 <= w < 25 ==> words[w] == if Inverted(w) then Ones() else Zero();
    assert Not(Zero()) == Ones();
    hide Zero, Ones, Not, Inverted, Complemented;
    forall i | 0 <= i < 25 ensures words[P0[i]] == Flip(Complemented(Between, i), Start()[i]) {
      FirstNames(i);
      InvertedPlaces(i);
    }
  }

  /** The end of the complement. */
  method Uncomplement(wide: array<Lane>)
    requires wide.Length == 25
    modifies wide
    ensures forall w :: 0 <= w < 25 ==> wide[w] == Flip(Inverted(w), old(wide[..])[w])
  {
    hide Not;
    wide[1] := Not(wide[1]);
    wide[2] := Not(wide[2]);
    wide[8] := Not(wide[8]);
    wide[12] := Not(wide[12]);
    wide[17] := Not(wide[17]);
    wide[20] := Not(wide[20]);
  }

  /** After that every word is plain. */
  lemma Plain(words: State, cur: State, s: State, w: nat)
    requires w < 25 && Holding(words, s) && cur[w] == Flip(Inverted(w), words[w])
    ensures cur[w] == s[LaneAt(w)]
  {
    PlainWord(words, s, w);
    NotTwice(s[LaneAt(w)]);
  }

  lemma NotTwice(v: Lane)
    ensures Not(Not(v)) == v
  {
  }

  lemma PlainWord(words: State, s: State, w: nat)
    requires w < 25 && Holding(words, s)
    ensures words[w] == Flip(Inverted(w), s[LaneAt(w)])
  {
    var i := LaneAt(w);
    FirstNames(i);
    InvertedPlaces(i);
    hide Flip, Complemented, Inverted;
    assert words[P0[i]] == Flip(Complemented(Between, i), s[i]);
  }

  /** Byte k of the encoded words. */
  function StoredByte(words: State, k: nat): Byte
    requires k < 200
  {
    words[k / 8][8 * (k % 8)..8 * (k % 8) + 8]
  }

  lemma StoredBits(words: State, s: State, dst: seq<Byte>)
    requires |dst| <= 200
    requires forall w :: 0 <= w < 25 ==> words[w] == s[LaneAt(w)]
    requires forall k :: 0 <= k < |dst| ==> dst[k] == StoredByte(words, k)
    ensures Bits(dst) == Output(s, 8 * |dst|)
  {
    hide LaneAt;
    forall k | 0 <= k < 8 * |dst| ensures Bits(dst)[k] == Output(s, 8 * |dst|)[k] {
      assert k / 8 / 8 == k / 64 && 8 * (k / 8 % 8) + k % 8 == k % 64;
      assert dst[k / 8] == StoredByte(words, k / 8);
      assert words[k / 64] == s[LaneAt(k / 64)];
    }
  }

  /** The digest: whole words are encoded, then cut to length. */
  method Store(wide: array<Lane>, d: nat) returns (dst: seq<Byte>)
    requires wide.Length == 25 && d <= 200
    ensures |dst| == d && forall k :: 0 <= k < d ==> dst[k] == StoredByte(wide[..], k)
  {
    var tmp: seq<Byte> := [];
    var w := 0;
    while 8 * w < d
      invariant w <= 25 && |tmp| == 8 * w
      invariant forall k :: 0 <= k < |tmp| ==> tmp[k] == StoredByte(wide[..], k)
    {
      var v := wide[w];
      var word: seq<Byte> := seq(8, k requires 0 <= k < 8 => v[8 * k..8 * k + 8]);
      forall k | 0 <= k < 8 ensures word[k] == StoredByte(wide[..], 8 * w + k) {
        assert (8 * w + k) / 8 == w && (8 * w + k) % 8 == k;
      }
      tmp := tmp + word;
      w := w + 1;
    }
    dst := tmp[..d];
  }

  // ----- Padding -----

  /** The bits of `ub` that belong to the message: the `n` highest. */
  function Extra(ub: Byte, n: nat): seq<bool>
    requires n < 8
  {
    ub[8 - n..]
  }

  /** Bit i of `(0x100 | ub) >> (8 - n)`: those bits, and the first bit of the padding after them. */
  function Last(ub: Byte, n: nat): Byte
    requires n < 8
  {
    var wide := ub + [true];
    seq(8, i requires 0 <= i < 8 => i + 8 - n < 9 && wide[i + 8 - n])
  }

  /** 0x80. */
  function TopByte(): Byte {
    ZeroByte()[7 := true]
  }

  /** What close appends to a buffer that already holds `ptr` bytes. */
  function Tail(ub: Byte, n: nat, ptr: nat, lim: nat): seq<Byte>
    requires n < 8 && ptr < lim
  {
    var eb := Last(ub, n);
    if ptr == lim - 1 then
      if n == 7 then [eb] + seq(lim - 1, _ => ZeroByte()) + [TopByte()] else [eb[7 := true]]
    else
      [eb] + seq(lim - ptr - 2, _ => ZeroByte()) + [TopByte()]
  }

  /** It is the rest of the message and the padding of the standard. */
  lemma TailBits(ub: Byte, n: nat, ptr: nat, lim: nat)
    requires n < 8 && ptr < lim
    ensures var t := Tail(ub, n, ptr, lim);
            && 8 * |t| - n >= 2
            && Bits(t) == Extra(ub, n) + Padding(8 * |t| - n - 2)
  {
    var t := Tail(ub, n, ptr, lim);
    var e := Extra(ub, n) + Padding(8 * |t| - n - 2);
    forall k | 0 <= k < 8 * |t| ensures Bits(t)[k] == e[k] {
      if k < 8 {
        assert k / 8 == 0 && k % 8 == k;
      } else if k >= 8 * |t| - 8 {
        assert k / 8 == |t| - 1 && k % 8 == k - 8 * (|t| - 1);
      }
    }
  }

  lemma PaddedMessage(m: seq<Byte>, ub: Byte, n: nat, ptr: nat, lim: nat)
    requires n < 8 && ptr < lim && |m| >= ptr && (|m| - ptr) % lim == 0
    ensures var t := Tail(ub, n, ptr, lim);
            && |m + t| % lim == 0
            && Bits(m + t) == Padded(Bits(m) + Extra(ub, n), 8 * lim)
  {
    var t := Tail(ub, n, ptr, lim);
    var k := 8 * |t| - n - 2;
    TailBits(ub, n, ptr, lim);
    BitsAppend(m, t);
    assert |t| + ptr == lim || |t| + ptr == 2 * lim;
    ModUp(|m| - ptr, |t| + ptr, lim);
    assert (|t| + ptr) % lim == 0 by {
      Division(lim, 1, 0);
      Division(lim, 2, 0);
    }
    hide Tail, Extra, Padding, Bits;
    var all := Bits(m) + Extra(ub, n);
    EightTimes(|m + t|, lim);
    PadZerosUnique(|all|, 8 * lim, k);
    assert Bits(m) + (Extra(ub, n) + Padding(k)) == all + Padding(k);
  }

  lemma EightTimes(a: nat, lim: nat)
    requires lim > 0 && a % lim == 0
    ensures (8 * a) % (8 * lim) == 0
  {
    var q := a / lim;
    assert a == lim * q;
    assert 8 * a == (8 * lim) * q + 0;
    Division(8 * lim, q, 0);
  }

  // ----- The context -----

  /** `words` and the first `ptr` bytes of `buf` are what is left of `m`, in blocks of `lim` bytes. */
  ghost predicate Taken(m: seq<Byte>, words: State, buf: seq<Byte>, ptr: nat, lim: nat) {
    && ptr < lim <= |buf|
    && ptr <= |m|
    && (|m| - ptr) % lim == 0
    && m[|m| - ptr..] == buf[..ptr]
    && Holding(words, Absorb(Start(), 8 * lim, Bits(m[..|m| - ptr])))
  }

  lemma NothingTaken(words: State, buf: seq<Byte>, lim: nat)
    requires 0 < lim <= |buf| && Holding(words, Start())
    ensures Taken([], words, buf, 0, lim)
  {
  }

  /** More bytes in the buffer, but not enough for a block. */
  lemma TakeBytes(m: seq<Byte>, words: State, buf: seq<Byte>, ptr: nat, lim: nat, data: seq<Byte>, next: seq<Byte>)
    requires Taken(m, words, buf, ptr, lim) && ptr + |data| < lim
    requires |next| == |buf| && next[..ptr + |data|] == buf[..ptr] + data
    ensures Taken(m + data, words, next, ptr + |data|, lim)
  {
    hide Holding, Absorb;
    var n := |m| - ptr;
    assert (m + data)[..n] == m[..n];
    assert (m + data)[n..] == m[n..] + data;
  }

  /** Enough bytes for a block. */
  lemma TakeBlock(m: seq<Byte>, words: State, buf: seq<Byte>, ptr: nat, lim: nat, data: seq<Byte>, block: seq<Byte>,
                  after: State, next: seq<Byte>)
    requires Taken(m, words, buf, ptr, lim) && ptr + |data| == lim && block == buf[..ptr] + data && |next| == |buf|
    requires Holding(after, KeccakF(XorBlock(Absorb(Start(), 8 * lim, Bits(m[..|m| - ptr])), Bits(block))))
    ensures Taken(m + data, after, next, 0, lim)
  {
    hide Holding, Absorb, KeccakF, XorBlock;
    var n := |m| - ptr;
    var p := Bits(m[..n]);
    var all := m + data;
    assert all == m[..n] + block;
    BitsAppend(m[..n], block);
    EightTimes(n, lim);
    AbsorbBlock(Start(), 8 * lim, p, Bits(block));
    ModUp(n, lim, lim);
    Division(lim, 1, 0);
    assert all[..|all|] == all;
    assert all[|all|..] == next[..0];
  }

  /** With the tail taken the buffer is empty and the words hold the absorbed padded message. */
  lemma Finished(m: seq<Byte>, ub: Byte, n: nat, at: nat, words: State, buf: seq<Byte>, ptr: nat, lim: nat)
    requires n < 8 && at < lim && |m| >= at && (|m| - at) % lim == 0
    requires Taken(m + Tail(ub, n, at, lim), words, buf, ptr, lim)
    ensures Holding(words, Absorb(Start(), 8 * lim, Padded(Bits(m) + Extra(ub, n), 8 * lim)))
  {
    hide Holding, Absorb, Padded, Bits, Extra, Tail;
    PaddedMessage(m, ub, n, at, lim);
    var all := m + Tail(ub, n, at, lim);
    ModUp(|all| - ptr, ptr, lim);
    Division(lim, 0, ptr);
    assert all[..|all|] == all;
  }

  /** Uncomplement and encode. */
  method Digest(wide: array<Lane>, d: nat, ghost s: State) returns (dst: seq<Byte>)
    requires wide.Length == 25 && d <= 200 && Holding(wide[..], s)
    modifies wide
    ensures |dst| == d && Bits(dst) == Output(s, 8 * d)
  {
    hide Holding, Flip, Inverted, Bits, Output, StoredByte, LaneAt, Place;
    ghost var words: State := wide[..];
    Uncomplement(wide);
    ghost var cur: State := wide[..];
    forall w | 0 <= w < 25 ensures cur[w] == s[LaneAt(w)] {
      Plain(words, cur, s, w);
    }
    dst := Store(wide, d);
    StoredBits(cur, s, dst);
  }

  class Keccak {
    const d: nat
    const lim: nat
    const buf: array<Byte>
    const wide: array<Lane>
    var ptr: nat
    ghost var message: seq<Byte>

    ghost predicate Valid()
      reads this, buf, wide
    {
      && (d == 28 || d == 32 || d == 48 || d == 64)
      && lim == 200 - 2 * d
      && buf.Length == 144
      && wide.Length == 25
      && (buf as object) != (wide as object)
      && Taken(message, wide[..], buf[..], ptr, lim)
    }

    constructor (d: nat)
      requires d == 28 || d == 32 || d == 48 || d == 64
      ensures Valid() && message == [] && this.d == d && fresh(buf) && fresh(wide)
    {
      this.d := d;
      this.lim := 200 - 2 * d;
      this.buf := new Byte[144](_ => ZeroByte());
      this.wide := new Lane[25](_ => Zero());
      this.ptr := 0;
      this.message := [];
      new;
      Clear(wide);
    }

    /** One pass of the loop: bytes up to the end of the buffer, which is processed when full. */
    method Fill(piece: seq<Byte>)
      requires Valid() && ptr + |piece| <= lim
      modifies this, buf, wide
      ensures Valid() && message == old(message) + piece
    {
      hide Holding, Absorb, KeccakF, XorBlock, Bits;
      ghost var words: State := wide[..];
      ghost var bytes := buf[..];
      ghost var s := Absorb(Start(), 8 * lim, Bits(message[..|message| - ptr]));
      Copy(buf, ptr, piece);
      assert buf[..ptr + |piece|] == bytes[..ptr] + piece;
      if ptr + |piece| == lim {
        var block := buf[..lim];
        InputBuf(wide, block, 25 - d / 4, s);
        HoldingView(wide[..], XorBlock(s, Bits(block)));
        Permute(wide, XorBlock(s, Bits(block)));
        HoldingView(wide[..], KeccakF(XorBlock(s, Bits(block))));
        TakeBlock(message, words, bytes, ptr, lim, piece, block, wide[..], buf[..]);
        ptr := 0;
      } else {
        TakeBytes(message, words, bytes, ptr, lim, piece, buf[..]);
        ptr := ptr + |piece|;
      }
      message := message + piece;
    }

    /** `keccak_core`: a message may come in pieces of any length. */
    method Update(data: seq<Byte>)
      requires Valid()
      modifies this, buf, wide
      ensures Valid() && message == old(message) + data
    {
      hide Holding, Absorb, Bits;
      if |data| < lim - ptr {
        Fill(data);
        return;
      }
      var rest := data;
      while |rest| > 0
        invariant Valid() && message + rest == old(message) + data
        decreases |rest|
      {
        var clen := lim - ptr;
        if clen > |rest| {
          clen := |rest|;
        }
        assert rest == rest[..clen] + rest[clen..];
        Fill(rest[..clen]);
        rest := rest[clen..];
      }
    }

    /** `keccak_close`: the digest of everything taken so far and the highest `n` bits of `ub`. */
    method Close(ub: Byte, n: nat) returns (dst: seq<Byte>)
      requires Valid() && n < 8
      modifies this, buf, wide
      ensures |dst| == d && Bits(dst) == Hash(Bits(old(message)) + Extra(ub, n), 8 * lim, 8 * d)
      ensures Valid() && message == []
    {
      hide Holding, Absorb, Padded, Bits, Extra, Tail, Flip, LaneAt, StoredByte, Output;
      var tail := Tail(ub, n, ptr, lim);
      ghost var m, at := message, ptr;
      Update(tail);
      ghost var s := Absorb(Start(), 8 * lim, Padded(Bits(m) + Extra(ub, n), 8 * lim));
      Finished(m, ub, n, at, wide[..], buf[..], ptr, lim);
      dst := Digest(wide, d, s);
      Clear(wide);
      ptr := 0;
      message := [];
      NothingTaken(wide[..], buf[..], lim);
    }
  }
}
