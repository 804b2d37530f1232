/**
 Fugue-512 as it is run: the 36 words stay where they are and their names rotate. Three copies of
 the round, each written for the names of its turn, follow one another; the context keeps the turn
 and up to four bytes that wait for the next call.
 */
module Fugue {
  import opened FugueSpec

  // ----- Names -----

  /** The register of word `i` when word 0 is in register `b`. */
  function Reg(b: nat, i: nat): (r: nat)
    requires b < 36 && i < 36
    ensures r < 36
  {
    if b + i < 36 then b + i else b + i - 36
  }

  function View(s: State, b: nat): State
    requires b < 36
  {
    seq(36, i requires 0 <= i < 36 => s[Reg(b, i)])
  }

  lemma SetView(s: State, b: nat, i: nat, v: Word)
    requires b < 36 && i < 36
    ensures View(s[Reg(b, i) := v], b) == View(s, b)[i := v]
  {
  }

  /** Moving every name down by three is the rotation. */
  lemma RotateView(s: State, b: nat)
    requires 3 <= b < 36
    ensures View(s, b - 3) == Ror(View(s, b), 3)
  {
  }

  lemma RotateViewAround(s: State, b: nat)
    requires b < 3
    ensures View(s, b + 33) == Ror(View(s, b), 3)
  {
  }

  // ----- The macros -----

  /** One register. */
  method Assign(a: array<Word>, r: nat, v: Word, ghost b: nat, ghost i: nat)
    requires a.Length == 36 && b < 36 && i < 36 && r == Reg(b, i)
    modifies a
    ensures View(a[..], b) == View(old(a[..]), b)[i := v]
  {
    hide View, Reg;
    ghost var s: State := a[..];
    a[r] := v;
    assert a[..] == s[r := v];
    SetView(s, b, i, v);
  }

  /** `TIX4`, given the registers of words 0, 1, 4, 7, 8, 22, 24, 27 and 30. */
  method Tix4(a: array<Word>, q: Word, x00: nat, x01: nat, x04: nat, x07: nat, x08: nat, x22: nat, x24: nat, x27: nat,
              x30: nat, ghost b: nat)
    requires a.Length == 36 && b < 36
    requires x00 == Reg(b, 0) && x01 == Reg(b, 1) && x04 == Reg(b, 4) && x07 == Reg(b, 7) && x08 == Reg(b, 8)
    requires x22 == Reg(b, 22) && x24 == Reg(b, 24) && x27 == Reg(b, 27) && x30 == Reg(b, 30)
    modifies a
    ensures View(a[..], b) == Tix(View(old(a[..]), b), q)
  {
    hide View, Xor, Reg;
    Assigned(a[..], b);
    Assign(a, x22, Xor(a[x22], a[x00]), b, 22);
    Assign(a, x00, q, b, 0);
    Assigned(a[..], b);
    Assign(a, x08, Xor(a[x08], a[x00]), b, 8);
    Assigned(a[..], b);
    Assign(a, x01, Xor(a[x01], a[x24]), b, 1);
    Assigned(a[..], b);
    Assign(a, x04, Xor(a[x04], a[x27]), b, 4);
    Assigned(a[..], b);
    Assign(a, x07, Xor(a[x07], a[x30]), b, 7);
  }

  lemma Assigned(s: State, b: nat)
    requires b < 36
    ensures forall i :: 0 <= i < 36 ==> View(s, b)[i] == s[Reg(b, i)]
  {
  }

  /** `CMIX36`, given the registers of words 0, 1, 2, 4, 5, 6, 18, 19 and 20. */
  method Cmix36(a: array<Word>, x00: nat, x01: nat, x02: nat, x04: nat, x05: nat, x06: nat, x18: nat, x19: nat,
                x20: nat, ghost b: nat)
    requires a.Length == 36 && b < 36
    requires x00 == Reg(b, 0) && x01 == Reg(b, 1) && x02 == Reg(b, 2) && x04 == Reg(b, 4) && x05 == Reg(b, 5)
    requires x06 == Reg(b, 6) && x18 == Reg(b, 18) && x19 == Reg(b, 19) && x20 == Reg(b, 20)
    modifies a
    ensures View(a[..], b) == Cmix(View(old(a[..]), b))
  {
    hide View, Xor, Reg;
    Assigned(a[..], b);
    Assign(a, x00, Xor(a[x00], a[x04]), b, 0);
    Assigned(a[..], b);
    Assign(a, x01, Xor(a[x01], a[x05]), b, 1);
    Assigned(a[..], b);
    Assign(a, x02, Xor(a[x02], a[x06]), b, 2);
    Assigned(a[..], b);
    Assign(a, x18, Xor(a[x18], a[x04]), b, 18);
    Assigned(a[..], b);
    Assign(a, x19, Xor(a[x19], a[x05]), b, 19);
    Assigned(a[..], b);
    Assign(a, x20, Xor(a[x20], a[x06]), b, 20);
  }

  /** `SMIX` on the registers of the first four words. */
  method SmixFour(smix: Smix, a: array<Word>, x0: nat, x1: nat, x2: nat, x3: nat, ghost b: nat)
    requires a.Length == 36 && b < 36
    requires x0 == Reg(b, 0) && x1 == Reg(b, 1) && x2 == Reg(b, 2) && x3 == Reg(b, 3)
    modifies a
    ensures View(a[..], b) == SmixFirst(smix, View(old(a[..]), b))
  {
    hide View, Reg;
    Assigned(a[..], b);
    var r := smix(a[x0], a[x1], a[x2], a[x3]);
    Assign(a, x0, r.0, b, 0);
    Assign(a, x1, r.1, b, 1);
    Assign(a, x2, r.2, b, 2);
    Assign(a, x3, r.3, b, 3);
  }

  // ----- The three rounds -----

  /** `case 0`: word 0 is in register 0. */
  method FirstRound(smix: Smix, a: array<Word>, q: Word)
    requires a.Length == 36
    modifies a
    ensures View(a[..], 24) == Round(smix, View(old(a[..]), 0), q)
  {
    hide View, Tix, Cmix, SmixFirst, Ror;
    Tix4(a, q, 0, 1, 4, 7, 8, 22, 24, 27, 30, 0);
    RotateViewAround(a[..], 0);
    Cmix36(a, 33, 34, 35, 1, 2, 3, 15, 16, 17, 33);
    SmixFour(smix, a, 33, 34, 35, 0, 33);
    RotateView(a[..], 33);
    Cmix36(a, 30, 31, 32, 34, 35, 0, 12, 13, 14, 30);
    SmixFour(smix, a, 30, 31, 32, 33, 30);
    RotateView(a[..], 30);
    Cmix36(a, 27, 28, 29, 31, 32, 33, 9, 10, 11, 27);
    SmixFour(smix, a, 27, 28, 29, 30, 27);
    RotateView(a[..], 27);
    Cmix36(a, 24, 25, 26, 28, 29, 30, 6, 7, 8, 24);
    SmixFour(smix, a, 24, 25, 26, 27, 24);
  }

  /** `case 1`: word 0 is in register 24. */
  method SecondRound(smix: Smix, a: array<Word>, q: Word)
    requires a.Length == 36
    modifies a
    ensures View(a[..], 12) == Round(smix, View(old(a[..]), 24), q)
  {
    hide View, Tix, Cmix, SmixFirst, Ror;
    Tix4(a, q, 24, 25, 28, 31, 32, 10, 12, 15, 18, 24);
    RotateView(a[..], 24);
    Cmix36(a, 21, 22, 23, 25, 26, 27, 3, 4, 5, 21);
    SmixFour(smix, a, 21, 22, 23, 24, 21);
    RotateView(a[..], 21);
    Cmix36(a, 18, 19, 20, 22, 23, 24, 0, 1, 2, 18);
    SmixFour(smix, a, 18, 19, 20, 21, 18);
    RotateView(a[..], 18);
    Cmix36(a, 15, 16, 17, 19, 20, 21, 33, 34, 35, 15);
    SmixFour(smix, a, 15, 16, 17, 18, 15);
    RotateView(a[..], 15);
    Cmix36(a, 12, 13, 14, 16, 17, 18, 30, 31, 32, 12);
    SmixFour(smix, a, 12, 13, 14, 15, 12);
  }

  /** `case 2`: word 0 is in register 12. */
  method ThirdRound(smix: Smix, a: array<Word>, q: Word)
    requires a.Length == 36
    modifies a
    ensures View(a[..], 0) == Round(smix, View(old(a[..]), 12), q)
  {
    hide View, Tix, Cmix, SmixFirst, Ror;
    Tix4(a, q, 12, 13, 16, 19, 20, 34, 0, 3, 6, 12);
    RotateView(a[..], 12);
    Cmix36(a, 9, 10, 11, 13, 14, 15, 27, 28, 29, 9);
    SmixFour(smix, a, 9, 10, 11, 12, 9);
    RotateView(a[..], 9);
    Cmix36(a, 6, 7, 8, 10, 11, 12, 24, 25, 26, 6);
    SmixFour(smix, a, 6, 7, 8, 9, 6);
    RotateView(a[..], 6);
    Cmix36(a, 3, 4, 5, 7, 8, 9, 21, 22, 23, 3);
    SmixFour(smix, a, 3, 4, 5, 6, 3);
    RotateView(a[..], 3);
    Cmix36(a, 0, 1, 2, 4, 5, 6, 18, 19, 20, 0);
    SmixFour(smix, a, 0, 1, 2, 3, 0);
  }
}
