/** The incremental BLAKE-512 and BLAKE-384 contexts. */
module Blake {
  import opened Arithmetic
  import opened BitStrings
  import opened BlakeSpec

  // ----- The counter -----

  /** The 128 bits of the counter in two words. */
  datatype Clock = Clock(t0: nat, t1: nat)

  function ClockOf(t: nat): Clock {
    Clock(t % WORD, t / WORD % WORD)
  }

  /** What every block adds. */
  function Bump(c: Clock): Clock {
    var t0 := (c.t0 + 1024) % WORD;
    Clock(t0, if t0 < 1024 then (c.t1 + 1) % WORD else c.t1)
  }

  /** Close sets the clock back so that the next bump shows `bits` more bits, or none at all. */
  function SetBack(c: Clock, bits: nat): Clock
    requires bits < 1024
  {
    if bits == 0 then Clock(WORD - 1024, WORD - 1)
    else if c.t0 == 0 then Clock((WORD - 1024 + bits) % WORD, (c.t1 + WORD - 1) % WORD)
    else Clock((c.t0 + WORD - (1024 - bits)) % WORD, c.t1)
  }

  lemma Halves(i: nat)
    ensures var x := 1024 * i; x % WORD % 1024 == 0 && x % WORD <= WORD - 1024 && x == WORD * (x / WORD) + x % WORD
  {
    var x := 1024 * i;
    var q, r := x / WORD, x % WORD;
    assert r == 1024 * (i - 0x40_0000_0000_0000 * q);
  }

  lemma ClockAt(q: nat, r: nat)
    requires r < WORD
    ensures ClockOf(WORD * q + r) == Clock(r, q % WORD)
  {
    Division(WORD, q, r);
  }

  lemma BumpCounts(i: nat)
    ensures Bump(ClockOf(1024 * i)) == ClockOf(1024 * i + 1024)
  {
    Halves(i);
    var q, r := 1024 * i / WORD, 1024 * i % WORD;
    ClockAt(q, r);
    if r == WORD - 1024 {
      ClockAt(q + 1, 0);
      assert (q % WORD + 1) % WORD == (q + 1) % WORD;
    } else {
      ClockAt(q, r + 1024);
    }
    hide ClockOf;
  }

  lemma SetBackAt(q: nat, r: nat, bits: nat)
    requires r % 1024 == 0 && r <= WORD - 1024 && 0 < bits < 1024
    ensures Bump(SetBack(Clock(r, q % WORD), bits)) == Clock(r + bits, q % WORD)
  {
    if r == 0 {
      assert ((q % WORD + WORD - 1) % WORD + 1) % WORD == q % WORD;
    }
  }

  /** Through the set-back and the bump neither a carry nor a borrow is lost or made up. */
  lemma SetBackCounts(i: nat, bits: nat)
    requires bits < 1024
    ensures Bump(SetBack(ClockOf(1024 * i), bits)) == ClockOf(Counter(1024 * i + bits, i))
  {
    if bits == 0 {
      ClockAt(0, 0);
    } else {
      Halves(i);
      var q, r := 1024 * i / WORD, 1024 * i % WORD;
      ClockAt(q, r);
      ClockAt(q, r + bits);
      hide ClockOf, Bump, SetBack;
      SetBackAt(q, r, bits);
    }
  }

  // ----- Blocks -----

  /** A context: chaining value, clock and the bytes that wait in the buffer. */
  datatype Raw = Raw(h: Words, clock: Clock, pending: seq<Byte>)

  /** A full buffer is compressed. */
  function Block(compress: Compress, c: Raw, piece: seq<Byte>): (r: Raw)
    ensures r.pending == []
  {
    var k := Bump(c.clock);
    Raw(compress.apply(c.h, Bits(c.pending + piece), k.t0, k.t1), k, [])
  }

  /** What `blake64` does with some data. */
  function Feed(compress: Compress, c: Raw, data: seq<Byte>): (r: Raw)
    requires |c.pending| < 128
    decreases |data|
  {
    var room := 128 - |c.pending|;
    if |data| < room then c.(pending := c.pending + data)
    else Feed(compress, Block(compress, c, data[..room]), data[room..])
  }

  /** The context has hashed the `i` full blocks of `m`. */
  ghost predicate Tracks(compress: Compress, iv: Words, m: seq<Byte>, c: Raw, i: nat) {
    && |m| == 128 * i + |c.pending|
    && |c.pending| < 128
    && c.pending == m[128 * i..]
    && c.clock == ClockOf(1024 * i)
    && c.h == Chain(compress, iv, Bits(m), 8 * |m|, i)
  }

  /** The next block of a string that goes on after the bytes of `m`. */
  lemma NextBlock(compress: Compress, iv: Words, m: seq<Byte>, c: Raw, i: nat, piece: seq<Byte>, p: seq<bool>,
                  total: nat)
    requires Tracks(compress, iv, m, c, i) && |c.pending| + |piece| == 128
    requires 1024 * i + 1024 <= |p| && Bits(m + piece) == p[..1024 * i + 1024] && total >= 8 * |m|
    ensures var t := ClockOf(Counter(total, i));
            Chain(compress, iv, p, total, i + 1) == compress.apply(c.h, Bits(c.pending + piece), t.t0, t.t1)
  {
    BlockBits(m, piece, i, p);
    hide Bits, Counter, ClockOf;
    ChainPrefix(compress, iv, p, Bits(m), total, 8 * |m|, i);
    hide Chain;
    ChainStep(compress, iv, p, total, i);
  }

  lemma ChainStep(compress: Compress, iv: Words, p: seq<bool>, total: nat, i: nat)
    requires 1024 * i + 1024 <= |p|
    ensures var t := ClockOf(Counter(total, i));
            Chain(compress, iv, p, total, i + 1)
              == compress.apply(Chain(compress, iv, p, total, i), p[1024 * i..1024 * i + 1024], t.t0, t.t1)
  {
  }

  lemma BlockBits(m: seq<Byte>, piece: seq<Byte>, i: nat, p: seq<bool>)
    requires |m| + |piece| == 128 * i + 128 && |piece| <= 128
    requires 1024 * i + 1024 <= |p| && Bits(m + piece) == p[..1024 * i + 1024]
    ensures p[1024 * i..1024 * i + 1024] == Bits(m[128 * i..] + piece)
    ensures p[..1024 * i] == Bits(m)[..1024 * i]
  {
    hide Bits;
    var all := m + piece;
    BitsSlice(all, 128 * i, 128 * i + 128);
    BitsSlice(all, 0, 128 * i);
    BitsSlice(m, 0, 128 * i);
    assert all[128 * i..128 * i + 128] == m[128 * i..] + piece;
    assert all[0..128 * i] == m[0..128 * i];
    assert p[1024 * i..1024 * i + 1024] == Bits(all)[1024 * i..1024 * i + 1024];
    assert p[..1024 * i] == Bits(all)[..1024 * i];
  }

  lemma BlockTracks(compress: Compress, iv: Words, m: seq<Byte>, c: Raw, i: nat, piece: seq<Byte>)
    requires Tracks(compress, iv, m, c, i) && |c.pending| + |piece| == 128
    ensures Tracks(compress, iv, m + piece, Block(compress, c, piece), i + 1)
  {
    var p := Bits(m + piece);
    assert p[..1024 * i + 1024] == p;
    hide Bits, Chain, ClockOf, Bump;
    NextBlock(compress, iv, m, c, i, piece, p, 8 * |m + piece|);
    BumpCounts(i);
  }

  lemma MoreTracks(compress: Compress, iv: Words, m: seq<Byte>, c: Raw, i: nat, data: seq<Byte>)
    requires Tracks(compress, iv, m, c, i) && |c.pending| + |data| < 128
    ensures Tracks(compress, iv, m + data, c.(pending := c.pending + data), i)
  {
    var all := m + data;
    assert all[128 * i..] == c.pending + data;
    BitsAppend(m, data);
    assert Bits(all)[..1024 * i] == Bits(m)[..1024 * i];
    hide Bits, Chain, ClockOf;
    ChainPrefix(compress, iv, Bits(all), Bits(m), 8 * |all|, 8 * |m|, i);
  }

  lemma HasRoom(compress: Compress, iv: Words, m: seq<Byte>, c: Raw, i: nat)
    requires Tracks(compress, iv, m, c, i)
    ensures |c.pending| < 128 && |m| == 128 * i + |c.pending|
  {
  }

  lemma FeedShort(compress: Compress, c: Raw, data: seq<Byte>)
    requires |c.pending| + |data| < 128
    ensures Feed(compress, c, data) == c.(pending := c.pending + data)
  {
  }

  lemma FeedLong(compress: Compress, c: Raw, data: seq<Byte>)
    requires |c.pending| < 128 && |c.pending| + |data| >= 128
    ensures var room := 128 - |c.pending|;
            Feed(compress, c, data) == Feed(compress, Block(compress, c, data[..room]), data[room..])
  {
    hide Block;
  }

  /** Whatever the pieces, the context tracks the message. */
  lemma {:induction false} FeedTracks(compress: Compress, iv: Words, m: seq<Byte>, c: Raw, i: nat, data: seq<Byte>)
    returns (j: nat)
    requires |c.pending| < 128 && Tracks(compress, iv, m, c, i)
    ensures Tracks(compress, iv, m + data, Feed(compress, c, data), j)
    decreases |data|
  {
    hide Tracks, Block, Feed;
    HasRoom(compress, iv, m, c, i);
    var room := 128 - |c.pending|;
    if |data| < room {
      FeedShort(compress, c, data);
      MoreTracks(compress, iv, m, c, i, data);
      j := i;
    } else {
      FeedLong(compress, c, data);
      var d := Block(compress, c, data[..room]);
      BlockTracks(compress, iv, m, c, i, data[..room]);
      j := FeedTracks(compress, iv, m + data[..room], d, i + 1, data[room..]);
      assert m + data[..room] + data[room..] == m + data;
    }
  }

  // ----- Padding -----

  /** `sph_enc64be`. */
  function Encode64(x: nat): (r: seq<Byte>)
    ensures |r| == 8
  {
    seq(8, i requires 0 <= i < 8 => Eight(NatBits(x, 64), i))
  }

  function Eight(bits: seq<bool>, i: nat): Byte
    requires 8 * i + 8 <= |bits|
  {
    bits[8 * i..8 * i + 8]
  }

  lemma EncodedBits(x: nat)
    ensures Bits(Encode64(x)) == NatBits(x, 64)
  {
    hide NatBits;
    forall k | 0 <= k < 64 ensures Bits(Encode64(x))[k] == NatBits(x, 64)[k] {
      assert 8 * (k / 8) + k % 8 == k;
    }
  }

  /** `(ub & -z) | z` with z = 0x80 >> n: the `n` highest bits of `ub` and a one. */
  function Last(ub: Byte, n: nat): Byte
    requires n < 8
  {
    seq(8, i requires 0 <= i < 8 => if i < n then ub[i] else i == n)
  }

  /** A byte with its lowest bit set if wanted. */
  function Marked(b: Byte, mark: bool): Byte {
    b[7 := mark || b[7]]
  }

  /** The bytes of the padding before the length: `len` of them, the last one marked. */
  function Front(ub: Byte, n: nat, len: nat, mark: bool): seq<Byte>
    requires n < 8 && len >= 1
  {
    var f := [Last(ub, n)] + seq(len - 1, _ => ZeroByte());
    f[len - 1 := Marked(f[len - 1], mark)]
  }

  lemma FrontBits(ub: Byte, n: nat, len: nat, mark: bool)
    requires n < 8 && len >= 1 && 8 * len >= n + 2
    ensures Bits(Front(ub, n, len, mark)) == ub[..n] + ([true] + False(8 * len - n - 2) + [mark])
  {
    var f := Front(ub, n, len, mark);
    var e := ub[..n] + ([true] + False(8 * len - n - 2) + [mark]);
    forall k | 0 <= k < 8 * len ensures Bits(f)[k] == e[k] {
      if k < 8 {
        assert k / 8 == 0 && k % 8 == k;
      } else if k >= 8 * len - 8 {
        assert k / 8 == len - 1 && k % 8 == k - 8 * (len - 1);
      }
    }
  }

  /** The length in bits, as the two words that close computes from its clock. */
  function Length(c: Clock, bits: nat): seq<Byte> {
    Encode64(c.t1) + Encode64((c.t0 + bits) % WORD)
  }

  lemma ClockAdds(i: nat, bits: nat)
    requires bits < 1024
    ensures var c := ClockOf(1024 * i); ClockOf(1024 * i + bits) == Clock((c.t0 + bits) % WORD, c.t1)
  {
    Halves(i);
    var q, r := 1024 * i / WORD, 1024 * i % WORD;
    ClockAt(q, r);
    ClockAt(q, r + bits);
    hide ClockOf;
  }

  lemma LengthBits(i: nat, bits: nat)
    requires bits < 1024
    ensures var t := ClockOf(1024 * i + bits);
            Bits(Length(ClockOf(1024 * i), bits)) == NatBits(t.t1, 64) + NatBits(t.t0, 64)
  {
    hide ClockOf, NatBits, Encode64, Bits;
    ClockAdds(i, bits);
    var t := ClockOf(1024 * i + bits);
    EncodedBits(t.t1);
    EncodedBits(t.t0);
    BitsAppend(Encode64(t.t1), Encode64(t.t0));
  }

  /** A message, its padding and its length in bytes are the padded message in bits. */
  lemma PaddedBits(m: seq<Byte>, i: nat, ptr: nat, ub: Byte, n: nat, len: nat, mark: bool)
    requires n < 8 && |m| == 128 * i + ptr && ptr < 128
    requires len == (if 8 * ptr + n <= 894 then 112 else 240) - ptr
    ensures Bits(m + (Front(ub, n, len, mark) + Length(ClockOf(1024 * i), 8 * ptr + n)))
         == Padded(Bits(m) + ub[..n], mark)
  {
    hide Bits, Front, Length, NatBits, ClockOf, PadZeros, Padded;
    var total := 1024 * i + (8 * ptr + n);
    var f, l := Front(ub, n, len, mark), Length(ClockOf(1024 * i), 8 * ptr + n);
    var pad := [true] + False(PadZeros(total)) + [mark];
    ZerosNeeded(i, 8 * ptr + n);
    FrontBits(ub, n, len, mark);
    assert Bits(f) == ub[..n] + pad;
    BitsAppend(m, f + l);
    BitsAppend(f, l);
    assert Bits(m) + (ub[..n] + pad + Bits(l)) == Bits(m) + ub[..n] + pad + Bits(l);
    LengthBits(i, 8 * ptr + n);
    PaddedParts(Bits(m) + ub[..n], mark, total);
  }

  lemma PaddedParts(m: seq<bool>, mark: bool, total: nat)
    requires |m| == total
    ensures var t := ClockOf(total);
            Padded(m, mark) == m + ([true] + False(PadZeros(total)) + [mark]) + (NatBits(t.t1, 64) + NatBits(t.t0, 64))
  {
    hide NatBits, PadZeros;
  }

  lemma ZerosNeeded(i: nat, bits: nat)
    requires bits < 1024
    ensures PadZeros(1024 * i + bits) == if bits <= 894 then 894 - bits else 1918 - bits
  {
    if bits < 1023 {
      Division(1024, i, bits + 1);
    } else {
      Division(1024, i + 1, 0);
    }
  }
}
