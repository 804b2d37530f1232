/** Byte strings as bit strings. */
module BitStrings {

  /** Eight bits, in the order in which a hash function reads them. */
  type Byte = b: seq<bool> | |b| == 8 witness seq(8, _ => false)

  /** The bytes as one string. */
  function Bits(m: seq<Byte>): (r: seq<bool>)
    ensures |r| == 8 * |m|
  {
    seq(8 * |m|, k requires 0 <= k < 8 * |m| => m[k / 8][k % 8])
  }

  lemma BitsAppend(m: seq<Byte>, n: seq<Byte>)
    ensures Bits(m + n) == Bits(m) + Bits(n)
  {
    forall k | 0 <= k < 8 * |m + n| ensures Bits(m + n)[k] == (Bits(m) + Bits(n))[k] {
      if k >= 8 * |m| {
        assert (k - 8 * |m|) / 8 == k / 8 - |m| && (k - 8 * |m|) % 8 == k % 8;
      }
    }
  }

  lemma BitsSlice(m: seq<Byte>, i: nat, j: nat)
    requires i <= j <= |m|
    ensures Bits(m[i..j]) == Bits(m)[8 * i..8 * j]
  {
    forall k | 0 <= k < 8 * (j - i) ensures Bits(m[i..j])[k] == Bits(m)[8 * i..8 * j][k] {
      assert (k + 8 * i) / 8 == k / 8 + i && (k + 8 * i) % 8 == k % 8;
    }
  }

  function ZeroByte(): Byte {
    seq(8, _ => false)
  }

  /** `memcpy` into the buffer. */
  method Copy(buf: array<Byte>, ptr: nat, data: seq<Byte>)
    requires ptr + |data| <= buf.Length
    modifies buf
    ensures buf[..ptr + |data|] == old(buf[..ptr]) + data
  {
    forall k | 0 <= k < |data| {
      buf[ptr + k] := data[k];
    }
  }
}
