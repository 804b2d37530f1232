/** The end of Fugue-512, where the words are really moved. */
module FugueFinal {
  import opened FugueSpec
  import opened Fugue

  /** Without renaming the view is the registers. */
  lemma PlainView(s: State)
    ensures View(s, 0) == s
  {
  }

  /** `ROR`: a temporary, a move upwards and a copy. */
  method Rotate(a: array<Word>, n: nat)
    requires a.Length == 36 && n <= 36
    modifies a
    ensures a[..] == Ror(old(a[..]), n)
  {
    var tmp := a[36 - n..];
    forall i | n <= i < 36 {
      a[i] := a[i - n];
    }
    forall i | 0 <= i < n {
      a[i] := tmp[i];
    }
  }

  method Mix(smix: Smix, a: array<Word>)
    requires a.Length == 36
    modifies a
    ensures a[..] == SmixFirst(smix, old(a[..]))
  {
    hide SmixFirst, View;
    PlainView(a[..]);
    SmixFour(smix, a, 0, 1, 2, 3, 0);
    PlainView(a[..]);
  }

  method QuarterRound(smix: Smix, a: array<Word>)
    requires a.Length == 36
    modifies a
    ensures a[..] == SubRound(smix, old(a[..]))
  {
    hide SmixFirst, View, Cmix, Ror;
    Rotate(a, 3);
    PlainView(a[..]);
    Cmix36(a, 0, 1, 2, 4, 5, 6, 18, 19, 20, 0);
    PlainView(a[..]);
    Mix(smix, a);
  }

  method SpreadFirst(a: array<Word>, i: nat, j: nat, k: nat)
    requires a.Length == 36 && 4 < i < j < k < 36
    modifies a
    ensures a[..] == Spread(old(a[..]), i, j, k)
  {
    hide Xor;
    a[4] := Xor(a[4], a[0]);
    a[i] := Xor(a[i], a[0]);
    a[j] := Xor(a[j], a[0]);
    a[k] := Xor(a[k], a[0]);
  }

  method Step(smix: Smix, a: array<Word>, i: nat, j: nat, k: nat, n: nat)
    requires a.Length == 36 && 4 < i < j < k < 36 && n <= 36
    modifies a
    ensures a[..] == FinalStep(smix, old(a[..]), i, j, k, n)
  {
    hide SmixFirst, Ror, Spread;
    SpreadFirst(a, i, j, k);
    Rotate(a, n);
    Mix(smix, a);
  }

  /** The rest of `fugue4_close`. */
  method Finish(smix: Smix, a: array<Word>) returns (dst: seq<Byte>)
    requires a.Length == 36
    modifies a
    ensures dst == Final(smix, old(a[..]))
  {
    hide SubRound, FinalStep, Spread, Encode32;
    ghost var s: State := a[..];
    for i := 0 to 32
      invariant a[..] == SubRounds(smix, s, i)
    {
      QuarterRound(smix, a);
    }
    ghost var t := SubRounds(smix, s, 32);
    for i := 0 to 13
      invariant a[..] == FinalRounds(smix, t, i)
    {
      Step(smix, a, 9, 18, 27, 9);
      Step(smix, a, 10, 18, 27, 9);
      Step(smix, a, 10, 19, 27, 9);
      Step(smix, a, 10, 19, 28, 8);
    }
    SpreadFirst(a, 9, 18, 27);
    ghost var f: State := a[..];
    dst := [];
    for i := 0 to 16
      invariant a[..] == f && dst == Output(f, i)
    {
      dst := dst + Encode32(a[OutputWord(i)]);
    }
  }
}
