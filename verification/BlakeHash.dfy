/** Closing a BLAKE-512 or BLAKE-384 context, and the context itself. */
module BlakeHash {
  import opened Arithmetic
  import opened BitStrings
  import opened BlakeSpec
  import opened Blake

  /** The clock before a block that has no bit of the message. */
  const STOPPED: Clock := Clock(WORD - 1024, WORD - 1)

  lemma OneBlock(compress: Compress, c: Raw, piece: seq<Byte>)
    requires |c.pending| < 128 && |c.pending| + |piece| == 128
    ensures Feed(compress, c, piece) == Block(compress, c, piece)
  {
    hide Feed, Block;
    FeedLong(compress, c, piece);
    assert piece[..128 - |c.pending|] == piece;
    assert piece[128 - |c.pending|..] == [];
    var d := Block(compress, c, piece);
    FeedShort(compress, d, []);
    assert d.pending + [] == d.pending;
  }

  lemma HashLength(compress: Compress, iv: Words, m: seq<bool>, mark: bool, blocks: nat)
    requires |Padded(m, mark)| == 1024 * blocks
    ensures Hash(compress, iv, m, mark) == Chain(compress, iv, Padded(m, mark), |m|, blocks)
  {
    hide Padded, Chain;
    Division(1024, blocks, 0);
  }

  /** The last block with message bits, which may be none. */
  lemma LastBlock(compress: Compress, iv: Words, m: seq<Byte>, c: Raw, i: nat, bits: nat, piece: seq<Byte>,
      p: seq<bool>)
    requires Tracks(compress, iv, m, c, i) && |c.pending| + |piece| == 128 && bits < 1024 && bits >= 8 * |c.pending|
    requires 1024 * i + 1024 <= |p| && Bits(m + piece) == p[..1024 * i + 1024]
    ensures var d := c.(clock := SetBack(c.clock, bits));
            Feed(compress, d, piece).h == Chain(compress, iv, p, 1024 * i + bits, i + 1)
  {
    hide Bits, Chain, Bump, ClockOf, SetBack, Counter, Feed;
    NextBlock(compress, iv, m, c, i, piece, p, 1024 * i + bits);
    SetBackCounts(i, bits);
    OneBlock(compress, c.(clock := SetBack(c.clock, bits)), piece);
  }

  /** Room for the padding in the block: one more block. */
  lemma FinishOne(compress: Compress, iv: Words, m: seq<Byte>, c: Raw, i: nat, ub: Byte, n: nat, mark: bool,
                  tail: seq<Byte>)
    requires Tracks(compress, iv, m, c, i) && n < 8 && 8 * |c.pending| + n <= 894
    requires tail == Front(ub, n, 112 - |c.pending|, mark) + Length(c.clock, 8 * |c.pending| + n)
    ensures |tail| == 128 - |c.pending|
    ensures var d := c.(clock := SetBack(c.clock, 8 * |c.pending| + n));
            Feed(compress, d, tail).h == Hash(compress, iv, Bits(m) + ub[..n], mark)
  {
    hide Bits, Chain, SetBack, Feed, Hash, Padded, ClockOf;
    var p := Padded(Bits(m) + ub[..n], mark);
    PaddedBits(m, i, |c.pending|, ub, n, 112 - |c.pending|, mark);
    assert p[..1024 * i + 1024] == p;
    LastBlock(compress, iv, m, c, i, 8 * |c.pending| + n, tail, p);
    HashLength(compress, iv, Bits(m) + ub[..n], mark, i + 1);
  }

  /** The two blocks of a message that leaves no room for the padding. */
  lemma TwoBlocks(ub: Byte, n: nat, ptr: nat, mark: bool, length: seq<Byte>)
    requires n < 8 && ptr < 128 && 8 * ptr + n > 894
    ensures Front(ub, n, 128 - ptr, false) + (Blank(112, mark) + length) == Front(ub, n, 240 - ptr, mark) + length
  {
    hide Last, Marked, ZeroByte;
    var f := [Last(ub, n)] + seq(127 - ptr, _ => ZeroByte());
    MarkedNot(f[127 - ptr]);
    assert Front(ub, n, 128 - ptr, false) == f;
    assert f + Blank(112, mark) == Front(ub, n, 240 - ptr, mark);
    assert f + (Blank(112, mark) + length) == f + Blank(112, mark) + length;
  }

  lemma MarkedNot(b: Byte)
    ensures Marked(b, false) == b
  {
  }

  /** Zeros and a mark at the end. */
  function Blank(len: nat, mark: bool): seq<Byte>
    requires len >= 1
  {
    seq(len - 1, _ => ZeroByte()) + [Marked(ZeroByte(), mark)]
  }

  lemma StoppedBumps()
    ensures Bump(STOPPED) == ClockOf(0)
  {
  }

  /** No room for the padding: a block with the end of the message, and a block without message. */
  lemma FinishTwo(compress: Compress, iv: Words, m: seq<Byte>, c: Raw, i: nat, ub: Byte, n: nat, mark: bool,
                  first: seq<Byte>, second: seq<Byte>, mid: Raw)
    requires Tracks(compress, iv, m, c, i) && n < 8 && 8 * |c.pending| + n > 894
    requires first == Front(ub, n, 128 - |c.pending|, false)
    requires second == Blank(112, mark) + Length(c.clock, 8 * |c.pending| + n)
    requires mid == Feed(compress, c.(clock := SetBack(c.clock, 8 * |c.pending| + n)), first)
    ensures mid.pending == [] && |second| == 128
    ensures Feed(compress, mid.(clock := STOPPED), second).h == Hash(compress, iv, Bits(m) + ub[..n], mark)
  {
    hide Bits, Chain, SetBack, Feed, Hash, Padded, ClockOf, Bump, Blank, Front;
    var bits := 8 * |c.pending| + n;
    var total := 1024 * i + bits;
    var p := Padded(Bits(m) + ub[..n], mark);
    Lengths(ub, n, |c.pending|, mark, c.clock, bits);
    TwoBlocks(ub, n, |c.pending|, mark, Length(c.clock, bits));
    PaddedBits(m, i, |c.pending|, ub, n, 240 - |c.pending|, mark);
    assert m + (first + second) == m + first + second;
    BitsAppend(m + first, second);
    assert p[..1024 * i + 1024] == Bits(m + first);
    assert p[1024 * i + 1024..1024 * i + 2048] == Bits(second);
    LastBlock(compress, iv, m, c, i, bits, first, p);
    OneBlock(compress, c.(clock := SetBack(c.clock, bits)), first);
    SecondBlock(compress, iv, mid, second, p, total, i + 1);
    HashLength(compress, iv, Bits(m) + ub[..n], mark, i + 2);
  }

  lemma Lengths(ub: Byte, n: nat, ptr: nat, mark: bool, c: Clock, bits: nat)
    requires n < 8 && ptr < 128
    ensures |Front(ub, n, 128 - ptr, false)| == 128 - ptr && |Blank(112, mark)| == 112 && |Length(c, bits)| == 16
  {
  }

  /** A block without message bits goes with counter 0. */
  lemma SecondBlock(compress: Compress, iv: Words, mid: Raw, second: seq<Byte>, p: seq<bool>, total: nat, j: nat)
    requires mid.pending == [] && |second| == 128 && 1024 * j + 1024 <= |p| && total <= 1024 * j
    requires mid.h == Chain(compress, iv, p, total, j) && p[1024 * j..1024 * j + 1024] == Bits(second)
    ensures Feed(compress, mid.(clock := STOPPED), second).h == Chain(compress, iv, p, total, j + 1)
  {
    hide Bits, Chain, Feed, ClockOf, Bump;
    var d := mid.(clock := STOPPED);
    OneBlock(compress, d, second);
    StoppedBumps();
    ChainStep(compress, iv, p, total, j);
    assert d.pending + second == second;
  }

  // ----- The context -----

  /** `dst`: the first words of the chaining value, highest byte first. */
  function Digest(h: Words, words: nat): seq<Byte>
    requires words <= 8
  {
    if words == 0 then [] else Digest(h, words - 1) + Encode64(h[words - 1])
  }

  function ZeroBytes(n: nat): seq<Byte> {
    seq(n, _ => ZeroByte())
  }

  /** The last block when there is room in it; `junk` is what the buffer of close holds before. */
  method OneTail(ub: Byte, n: nat, ptr: nat, mark: bool, th: nat, tl: nat, junk: seq<Byte>) returns (tail: seq<Byte>)
    requires n < 8 && 8 * ptr + n <= 894 && |junk| == 128
    ensures tail == Front(ub, n, 112 - ptr, mark) + (Encode64(th) + Encode64(tl))
  {
    hide Last, Marked, Encode64, ZeroByte;
    var u := junk[ptr := Last(ub, n)];
    u := u[..ptr + 1] + ZeroBytes(111 - ptr) + u[112..];
    MarkedNot(u[111]);
    if mark {
      u := u[111 := Marked(u[111], true)];
    }
    assert u[ptr..112] == Front(ub, n, 112 - ptr, mark);
    u := u[..112] + Encode64(th) + Encode64(tl);
    tail := u[ptr..];
  }

  method FirstTail(ub: Byte, n: nat, ptr: nat, junk: seq<Byte>) returns (tail: seq<Byte>)
    requires n < 8 && ptr < 128 && |junk| == 128
    ensures tail == Front(ub, n, 128 - ptr, false)
  {
    hide Last, Marked, ZeroByte;
    var u := junk[ptr := Last(ub, n)];
    u := u[..ptr + 1] + ZeroBytes(127 - ptr);
    MarkedNot(u[127]);
    tail := u[ptr..];
  }

  method SecondTail(mark: bool, th: nat, tl: nat, junk: seq<Byte>) returns (tail: seq<Byte>)
    requires |junk| == 128
    ensures tail == Blank(112, mark) + (Encode64(th) + Encode64(tl))
  {
    hide Encode64;
    MarkedNot(ZeroByte());
    var u := ZeroBytes(112) + junk[112..];
    if mark {
      u := u[111 := ZeroByte()[7 := true]];
    }
    assert u[..112] == Blank(112, mark);
    u := u[..112] + Encode64(th) + Encode64(tl);
    tail := u;
  }

  class Context {
    const compress: Compress
    const iv: Words
    const outWords: nat
    const buf: array<Byte>
    var ptr: nat
    var h: Words
    var t0: nat
    var t1: nat
    ghost var message: seq<Byte>
    ghost var blocks: nat

    ghost predicate Sized()
      reads this, buf
    {
      buf.Length == 128 && ptr < 128
    }

    ghost function Contents(): Raw
      requires Sized()
      reads this, buf
    {
      Raw(h, Clock(t0, t1), buf[..ptr])
    }

    ghost predicate Valid()
      reads this, buf
    {
      Sized() && Tracks(compress, iv, message, Contents(), blocks)
    }

    /** `blake64_init`. */
    constructor (compress: Compress, iv: Words, outWords: nat)
      ensures Valid() && message == [] && fresh(buf)
      ensures this.compress == compress && this.iv == iv && this.outWords == outWords
    {
      this.compress, this.iv, this.outWords := compress, iv, outWords;
      this.buf := new Byte[128](_ => ZeroByte());
      this.ptr, this.h, this.t0, this.t1 := 0, iv, 0, 0;
      this.message, this.blocks := [], 0;
    }

    /** One pass of the loop: bytes up to the end of the buffer, which is compressed when full. */
    method Fill(piece: seq<Byte>)
      requires Sized() && ptr + |piece| <= 128
      modifies this, buf
      ensures Sized() && message == old(message) && blocks == old(blocks)
      ensures Contents() == Feed(compress, old(Contents()), piece)
    {
      hide Feed, Bits;
      ghost var c := Contents();
      Copy(buf, ptr, piece);
      ptr := ptr + |piece|;
      if ptr == 128 {
        OneBlock(compress, c, piece);
        t0 := (t0 + 1024) % WORD;
        if t0 < 1024 {
          t1 := (t1 + 1) % WORD;
        }
        h := compress.apply(h, Bits(buf[..]), t0, t1);
        assert buf[..] == c.pending + piece;
        ptr := 0;
      } else {
        FeedShort(compress, c, piece);
      }
    }

    /** `blake64`. */
    method Process(data: seq<Byte>)
      requires Sized()
      modifies this, buf
      ensures Sized() && message == old(message) && blocks == old(blocks)
      ensures Contents() == Feed(compress, old(Contents()), data)
    {
      hide Feed;
      if |data| < 128 - ptr {
        Fill(data);
        return;
      }
      var rest := data;
      while |rest| > 0
        invariant Sized() && message == old(message) && blocks == old(blocks)
        invariant Feed(compress, Contents(), rest) == Feed(compress, old(Contents()), data)
        decreases |rest|
      {
        var clen := 128 - ptr;
        if clen > |rest| {
          clen := |rest|;
        }
        FeedSplit(compress, Contents(), rest, clen);
        Fill(rest[..clen]);
        rest := rest[clen..];
      }
      FeedShort(compress, Contents(), []);
      assert Contents().pending + [] == Contents().pending;
    }

    /** `sph_blake512` and `sph_blake384`: a message may come in pieces of any length. */
    method Update(data: seq<Byte>)
      requires Valid()
      modifies this, buf
      ensures Valid() && message == old(message) + data
    {
      hide Tracks, Feed;
      blocks := FeedTracks(compress, iv, message, Contents(), blocks, data);
      Process(data);
      message := message + data;
    }

    /** Close sets the clock back. */
    method SetClockBack(bits: nat)
      requires Sized() && bits < 1024
      modifies this
      ensures Sized() && Contents() == old(Contents()).(clock := SetBack(old(Contents()).clock, bits))
      ensures message == old(message) && blocks == old(blocks)
    {
      if bits == 0 {
        t0, t1 := WORD - 1024, WORD - 1;
      } else if t0 == 0 {
        t0, t1 := (WORD - 1024 + bits) % WORD, (t1 + WORD - 1) % WORD;
      } else {
        t0 := (t0 + WORD - (1024 - bits)) % WORD;
      }
    }

    /** `blake64_close` up to the digest: the chaining value of the padded message. */
    method Finish(ub: Byte, n: nat, junk: seq<Byte>)
      requires Valid() && n < 8 && |junk| == 128
      modifies this, buf
      ensures h == Hash(compress, iv, Bits(old(message)) + ub[..n], outWords == 8) && buf.Length == 128
    {
      hide Tracks, Feed, SetBack, Hash, Front, Blank, Encode64;
      ghost var c := Contents();
      ghost var m := message;
      var bits := 8 * ptr + n;
      var tl, th := (t0 + bits) % WORD, t1;
      var at := ptr;
      SetClockBack(bits);
      if bits <= 894 {
        var tail := OneTail(ub, n, at, outWords == 8, th, tl, junk);
        Process(tail);
        FinishOne(compress, iv, m, c, blocks, ub, n, outWords == 8, tail);
      } else {
        var first := FirstTail(ub, n, at, junk);
        Process(first);
        ghost var mid := Contents();
        t0, t1 := WORD - 1024, WORD - 1;
        var second := SecondTail(outWords == 8, th, tl, junk);
        Process(second);
        FinishTwo(compress, iv, m, c, blocks, ub, n, outWords == 8, first, second, mid);
      }
    }

    /** `sph_blake512_addbits_and_close` and `sph_blake384_addbits_and_close`. */
    method Close(ub: Byte, n: nat, junk: seq<Byte>) returns (dst: seq<Byte>)
      requires Valid() && n < 8 && |junk| == 128 && outWords <= 8
      modifies this, buf
      ensures dst == Digest(Hash(compress, iv, Bits(old(message)) + ub[..n], outWords == 8), outWords)
      ensures Valid() && message == []
    {
      Finish(ub, n, junk);
      hide Encode64, Hash, Bits;
      dst := [];
      for k := 0 to outWords
        invariant dst == Digest(h, k)
      {
        dst := dst + Encode64(h[k]);
      }
      h, t0, t1, ptr := iv, 0, 0, 0;
      message, blocks := [], 0;
    }
  }

  lemma FeedSplit(compress: Compress, c: Raw, data: seq<Byte>, n: nat)
    requires |c.pending| < 128 && n <= |data| && |c.pending| + n <= 128
    requires n == |data| || |c.pending| + n == 128
    ensures |Feed(compress, c, data[..n]).pending| < 128
    ensures Feed(compress, Feed(compress, c, data[..n]), data[n..]) == Feed(compress, c, data)
  {
    hide Feed, Block;
    if |c.pending| + n == 128 {
      OneBlock(compress, c, data[..n]);
      FeedLong(compress, c, data);
    } else {
      assert data[..n] == data && data[n..] == [];
      FeedShort(compress, c, data);
      var d := Feed(compress, c, data);
      FeedShort(compress, d, []);
      assert d.pending + [] == d.pending;
    }
  }
}
