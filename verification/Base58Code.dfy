/** The base58 loops, the checksummed forms and the classes built on them. */
module Base58Code {
  import opened Arithmetic
  import opened Radix
  import opened BigNum
  import opened Base58
  import opened Sequences

  /** Reversed and with an extra zero, the bytes read as a positive number. */
  lemma PositiveNumber(b: seq<nat>)
    ensures SetVch(Reversed(b) + [0]) == Value(BYTE, b)
  {
    hide Value;
    ReversedZero(b);
    ValueOfPadded(BYTE, 1, b);
    assert Zeros(1) + b == [0] + b;
    hide Reversed;
  }

  lemma ReversedZero(b: seq<nat>)
    ensures Reversed(Reversed(b) + [0]) == [0] + b
  {
  }

  lemma NextDigit(n: nat)
    requires n > 0
    ensures Digits(B58, n) == Digits(B58, n / 58) + [n % 58] && n / 58 < n
  {
    assert Quotient(n, 58) == n / 58;
  }

  lemma Push(d: seq<nat>, c: nat)
    requires Below(B58, d) && c < 58
    ensures Below(B58, [c] + d) && Reversed(Text([c] + d)) == Reversed(Text(d)) + [Letter(c)]
  {
    hide Letter;
  }

  /** The division loop: the letters of a number, lowest first. */
  method LowestFirst(n: nat) returns (str: string)
    ensures Below(B58, Digits(B58, n)) && str == Reversed(Text(Digits(B58, n)))
  {
    hide Digits, Letter, Reversed, Text;
    ghost var all := Digits(B58, n);
    ghost var done: seq<nat> := [];
    DigitsProper(B58, n);
    NoText();
    str := "";
    var bn := n;
    while bn > 0
      invariant Digits(B58, bn) + done == all && Below(B58, done) && str == Reversed(Text(done))
    {
      NextDigit(bn);
      Push(done, bn % 58);
      str := str + [Letter(bn % 58)];
      assert Digits(B58, bn / 58) + ([bn % 58] + done) == all;
      done := [bn % 58] + done;
      bn := bn / 58;
    }
    assert done == all;
  }

  lemma NoText()
    ensures Digits(B58, 0) == [] && Reversed(Text([])) == ""
  {
  }

  /** `EncodeBase58`. */
  method Encode(b: seq<nat>) returns (str: string)
    requires Below(BYTE, b)
    ensures str == EncodeText(b)
  {
    hide Digits, Value, Letter, LeadingZeros, Reversed, Text, SetVch;
    PositiveNumber(b);
    var bn := SetVch(Reversed(b) + [0]);
    str := LowestFirst(bn);
    ghost var all := Digits(B58, bn);
    assert Zeros(0) + all == all;
    var z := 0;
    while z < |b| && b[z] == 0
      invariant z <= |b| && forall i :: 0 <= i < z ==> b[i] == 0
      invariant Below(B58, Zeros(z) + all) && str == Reversed(Text(Zeros(z) + all))
    {
      Push(Zeros(z) + all, 0);
      str := str + [Letter(0)];
      z := z + 1;
      assert [0] + (Zeros(z - 1) + all) == Zeros(z) + all;
    }
    assert z == LeadingZeros(b);
    ReversedTwice(Text(Zeros(z) + all));
    str := Reversed(str);
  }

  // ----- Decoding -----

  method SkipSpace(s: string, from: nat) returns (i: nat)
    requires from <= |s|
    ensures from <= i <= |s| && Blank(s[from..i]) && (i < |s| ==> !IsSpace(s[i]))
  {
    hide IsSpace;
    i := from;
    while i < |s| && IsSpace(s[i])
      invariant from <= i <= |s| && Blank(s[from..i])
    {
      assert s[from..i + 1] == s[from..i] + [s[i]];
      i := i + 1;
    }
  }

  /** Without the byte that only keeps the sign clear. */
  function Trim(v: seq<nat>): seq<nat> {
    if |v| >= 2 && v[|v| - 1] == 0 && v[|v| - 2] >= 0x80 then v[..|v| - 1] else v
  }

  /** Little-endian data without sign byte are the digits of the number, lowest first. */
  lemma TrimmedBytes(n: nat)
    ensures Reversed(Trim(GetVch(n))) == Digits(BYTE, n)
  {
    hide Digits;
    var m := Digits(BYTE, n);
    DigitsProper(BYTE, n);
    ZeroHasNoDigits();
    if n > 0 {
      if m[0] < 0x80 {
        assert ToMpi(n) == m;
      } else {
        assert ToMpi(n) == [0] + m;
        assert GetVch(n)[..|m|] == Reversed(m);
      }
      ReversedTwice(m);
    }
  }

  lemma ZeroHasNoDigits()
    ensures Digits(BYTE, 0) == []
  {
  }

  lemma AppendPlace(t: string, x: char)
    ensures Value(B58, Places(t + [x])) == 58 * Value(B58, Places(t)) + Place(x)
  {
    hide Place;
    var d := Places(t + [x]);
    assert d[..|t|] == Places(t);
  }

  /** The multiplication loop from `i` on: where the letters end, and their value. */
  method Letters(s: string, i: nat) returns (p: nat, bn: nat)
    requires i <= |s|
    ensures i <= p <= |s| && Clean(s[i..p]) && (p < |s| ==> Place(s[p]) == 58)
    ensures bn == Value(B58, Places(s[i..p]))
  {
    hide Place, Value, Places, Clean;
    p, bn := i, 0;
    assert s[i..i] == [];
    NoPlaces();
    while p < |s| && Place(s[p]) < 58
      invariant i <= p <= |s| && Clean(s[i..p]) && bn == Value(B58, Places(s[i..p]))
    {
      AppendPlace(s[i..p], s[p]);
      AppendClean(s[i..p], s[p]);
      assert s[i..p] + [s[p]] == s[i..p + 1];
      bn := bn * 58 + Place(s[p]);
      p := p + 1;
    }
  }

  lemma AppendClean(t: string, x: char)
    requires Clean(t) && Place(x) < 58
    ensures Clean(t + [x])
  {
    hide Place;
  }

  lemma NoPlaces()
    ensures Value(B58, Places([])) == 0 && Clean([])
  {
  }

  /** The loop over the ones in front. */
  method Ones(s: string, i: nat, p: nat) returns (z: nat)
    requires i <= p <= |s| && Clean(s[i..p]) && (p < |s| ==> Place(s[p]) == 58)
    ensures z == LeadingZeros(Places(s[i..p]))
  {
    hide LeadingZeros;
    z := 0;
    while i + z < |s| && s[i + z] == '1'
      invariant i + z <= p && forall k :: 0 <= k < z ==> Places(s[i..p])[k] == 0
    {
      z := z + 1;
    }
    assert i + z < p ==> Places(s[i..p])[z] == Place(s[i + z]);
  }

  /** `DecodeBase58`. */
  method Decode(s: string) returns (ret: Option<seq<nat>>)
    ensures ret == DecodeText(s)
  {
    hide IsSpace, Place, Places, Value, Digits, LeadingZeros, Body, GetVch, Reversed;
    var i := SkipSpace(s, 0);
    var p, bn := Letters(s, i);
    var q := SkipSpace(s, p);
    if q < |s| {
      NoBody(s, i, p, q);
      return None;
    }
    assert s == s[..i] + s[i..p] + s[p..];
    assert s[0..i] == s[..i] && s[p..q] == s[p..];
    Surrounded(s[..i], s[i..p], s[p..]);
    var z := Ones(s, i, p);
    TrimmedBytes(bn);
    ret := Some(Zeros(z) + Reversed(Trim(GetVch(bn))));
  }

  lemma NoBody(s: string, i: nat, p: nat, q: nat)
    requires i <= p <= q < |s| && Blank(s[..i]) && Clean(s[i..p]) && Blank(s[p..q]) && !IsSpace(s[q])
    requires (i < |s| ==> !IsSpace(s[i])) && (p < |s| ==> Place(s[p]) == 58)
    ensures Body(s) == None
  {
    hide IsSpace, Place, Spaces, Leading;
    forall k | 0 <= k < i ensures IsSpace(s[k]) {
      assert s[..i][k] == s[k];
    }
    SpacesExactly(s, i);
    var t, w := s[i..], s[p..];
    forall k | 0 <= k < p - i ensures Place(t[k]) < 58 {
      assert s[i..p][k] == t[k];
    }
    LeadingExactly(t, p - i);
    assert t[p - i..] == w;
    forall k | 0 <= k < q - p ensures IsSpace(w[k]) {
      assert s[p..q][k] == w[k];
    }
    SpacesExactly(w, q - p);
  }

  // ----- Checksums -----

  /** Four bytes. */
  type Four = s: seq<nat> | |s| == 4 && forall i :: 0 <= i < 4 ==> s[i] < 0x100 witness [0, 0, 0, 0]

  /** The first four bytes of the hash. */
  datatype Checksum = Checksum(apply: seq<nat> -> Four)

  function WithCheck(h: Checksum, b: seq<nat>): seq<nat> {
    b + h.apply(b)
  }

  function CheckedText(h: Checksum, b: seq<nat>): string {
    EncodeText(WithCheck(h, b))
  }

  /** The decoded bytes without their checksum, if that is right. */
  function CheckedBytes(h: Checksum, s: string): Option<seq<nat>> {
    match DecodeText(s)
    case None => None
    case Some(v) =>
      if |v| < 4 then None
      else if h.apply(v[..|v| - 4]) != v[|v| - 4..] then None
      else Some(v[..|v| - 4])
  }

  /** `EncodeBase58Check`. */
  method EncodeCheck(h: Checksum, b: seq<nat>) returns (s: string)
    requires Below(BYTE, b)
    ensures s == CheckedText(h, b)
  {
    hide EncodeText;
    var v := b + h.apply(b);
    s := Encode(v);
  }

  /** `DecodeBase58Check`: on failure the result is empty. */
  method DecodeCheck(h: Checksum, s: string) returns (ok: bool, v: seq<nat>)
    ensures ok == CheckedBytes(h, s).Some?
    ensures v == if ok then CheckedBytes(h, s).value else []
  {
    hide DecodeText;
    var r := Decode(s);
    if r.None? {
      return false, [];
    }
    v := r.value;
    if |v| < 4 {
      return false, [];
    }
    if h.apply(v[..|v| - 4]) != v[|v| - 4..] {
      return false, [];
    }
    return true, v[..|v| - 4];
  }

  /** The checksummed form round-trips, whatever the hash. */
  lemma CheckedRoundTrip(h: Checksum, b: seq<nat>)
    requires Below(BYTE, b)
    ensures CheckedBytes(h, CheckedText(h, b)) == Some(b)
  {
    hide DecodeText, EncodeText;
    var v := WithCheck(h, b);
    DecodeOfEncode(v);
    assert v[..|v| - 4] == b && v[|v| - 4..] == h.apply(b);
  }

  /** What is accepted is, up to space, exactly what would be written. */
  lemma CheckedIsWritten(h: Checksum, s: string)
    requires CheckedBytes(h, s).Some?
    ensures Below(BYTE, CheckedBytes(h, s).value) && Body(s) == Some(CheckedText(h, CheckedBytes(h, s).value))
  {
    hide EncodeText, Convert, Body;
    EncodeOfDecode(s);
    var v := DecodeText(s).value;
    assert v == v[..|v| - 4] + v[|v| - 4..];
  }

  // ----- Base58 data and secrets -----

  const PUBKEY_ADDRESS: nat := 27
  const PUBKEY_ADDRESS_TEST: nat := 111

  class Base58Data {
    const h: Checksum
    var version: nat
    var data: seq<nat>

    ghost predicate Valid()
      reads this
    {
      version < 0x100 && Below(BYTE, data)
    }

    constructor (h: Checksum)
      ensures Valid() && this.h == h && version == 0 && data == []
    {
      this.h, version, data := h, 0, [];
    }

    method SetData(v: nat, d: seq<nat>)
      requires v < 0x100 && Below(BYTE, d)
      modifies this
      ensures Valid() && version == v && data == d
    {
      version, data := v, d;
    }

    method ToString() returns (s: string)
      requires Valid()
      ensures s == CheckedText(h, [version] + data)
    {
      s := EncodeCheck(h, [version] + data);
    }

    /** A text is accepted exactly if it is, up to space, the text of some version and data. */
    method SetString(s: string) returns (ok: bool)
      modifies this
      ensures Valid()
      ensures ok <==> CheckedBytes(h, s).Some? && |CheckedBytes(h, s).value| > 0
      ensures if ok then [version] + data == CheckedBytes(h, s).value else version == 0 && data == []
    {
      hide CheckedBytes;
      var found, v := DecodeCheck(h, s);
      if |v| == 0 {
        version, data := 0, [];
        return false;
      }
      CheckedIsWritten(h, s);
      version, data := v[0], v[1..];
      return true;
    }
  }

  /** Setting an object to the text of another makes them equal. */
  lemma DataRoundTrip(h: Checksum, version: nat, data: seq<nat>)
    requires version < 0x100 && Below(BYTE, data)
    ensures CheckedBytes(h, CheckedText(h, [version] + data)) == Some([version] + data)
  {
    CheckedRoundTrip(h, [version] + data);
  }

  /** `CBitcoinSecret`. */
  class Secret {
    const testNet: bool
    const base: Base58Data

    constructor (h: Checksum, testNet: bool)
      ensures fresh(base) && base.h == h && this.testNet == testNet && base.Valid()
    {
      this.testNet := testNet;
      this.base := new Base58Data(h);
    }

    function Version(): (v: nat)
      ensures v == if testNet then 239 else 155
    {
      128 + if testNet then PUBKEY_ADDRESS_TEST else PUBKEY_ADDRESS
    }

    /** `IsValid`. */
    predicate IsValid()
      reads base
    {
      && base.version == Version()
      && (|base.data| == 32 || (|base.data| == 33 && base.data[32] == 1))
    }

    method SetSecret(secret: seq<nat>, compressed: bool)
      requires |secret| == 32 && Below(BYTE, secret)
      modifies base
      ensures base.Valid() && IsValid() && base.data == secret + if compressed then [1] else []
    {
      base.SetData(Version(), secret);
      if compressed {
        base.data := base.data + [1];
      }
    }

    /** The secret and whether its key is compressed. */
    method GetSecret() returns (secret: seq<nat>, compressed: bool)
      requires |base.data| >= 32
      ensures secret == base.data[..32] && (compressed <==> |base.data| == 33)
    {
      secret, compressed := base.data[..32], |base.data| == 33;
    }

    method SetString(s: string) returns (ok: bool)
      modifies base
      ensures base.Valid() && (ok <==> IsValid())
      ensures ok ==> CheckedBytes(base.h, s) == Some([base.version] + base.data)
      ensures ok <== exists d ::
                CheckedBytes(base.h, s) == Some([Version()] + d) && (|d| == 32 || (|d| == 33 && d[32] == 1))
    {
      hide CheckedBytes;
      ok := base.SetString(s);
      if ok && exists d :: CheckedBytes(base.h, s) == Some([Version()] + d) {
        var d :| CheckedBytes(base.h, s) == Some([Version()] + d);
        assert ([base.version] + base.data)[1..] == base.data && ([Version()] + d)[1..] == d;
        assert ([base.version] + base.data)[0] == ([Version()] + d)[0];
      }
      ok := ok && IsValid();
    }

    /** Writing a secret and reading it into another object gives the secret and its flag. */
    method Transfer(other: Secret, secret: seq<nat>, compressed: bool) returns (ok: bool, s: seq<nat>, c: bool)
      requires other.base != base && other.base.h == base.h && other.testNet == testNet
      requires |secret| == 32 && Below(BYTE, secret)
      modifies base, other.base
      ensures ok && s == secret && c == compressed
    {
      SetSecret(secret, compressed);
      var text := base.ToString();
      DataRoundTrip(base.h, base.version, base.data);
      hide CheckedBytes, CheckedText;
      ok := other.SetString(text);
      assert ([other.base.version] + other.base.data)[1..] == other.base.data;
      assert ([base.version] + base.data)[1..] == base.data;
      s, c := other.GetSecret();
    }
  }
}
