/**
 The optimised permutation: six lanes are kept complemented so that most negations disappear, and
 lanes are renamed from round to round instead of being moved. The 25 registers are overwritten
 in place.
 */
module KeccakFast {
  import opened KeccakSpec

  // ----- Names for registers -----

  /** A naming says, for every lane (x, y) at 5 * x + y, which register holds it. */
  type Names = p: seq<nat> | |p| == 25 && forall i :: 0 <= i < 25 ==> p[i] < 25 witness seq(25, _ => 0)

  /** No register holds two lanes. */
  ghost predicate Injective(p: Names) {
    forall i, j :: 0 <= i < j < 25 ==> p[i] != p[j]
  }

  function View(s: State, p: Names): State {
    seq(25, i requires 0 <= i < 25 => s[p[i]])
  }

  const P0: Names := [0, 5, 10, 15, 20, 1, 6, 11, 16, 21, 2, 7, 12, 17, 22, 3, 8, 13, 18, 23, 4, 9, 14, 19, 24]
  const P1: Names := [0, 3, 1, 4, 2, 6, 9, 7, 5, 8, 12, 10, 13, 11, 14, 18, 16, 19, 17, 15, 24, 22, 20, 23, 21]
  const P2: Names := [0, 18, 6, 24, 12, 9, 22, 10, 3, 16, 13, 1, 19, 7, 20, 17, 5, 23, 11, 4, 21, 14, 2, 15, 8]
  const P3: Names := [0, 17, 9, 21, 13, 22, 14, 1, 18, 5, 19, 6, 23, 10, 2, 11, 3, 15, 7, 24, 8, 20, 12, 4, 16]
  const P4: Names := [0, 11, 22, 8, 19, 14, 20, 6, 17, 3, 23, 9, 15, 1, 12, 7, 18, 4, 10, 21, 16, 2, 13, 24, 5]
  const P5: Names := [0, 7, 14, 16, 23, 20, 2, 9, 11, 18, 15, 22, 4, 6, 13, 10, 17, 24, 1, 8, 5, 12, 19, 21, 3]
  const P6: Names := [0, 10, 20, 5, 15, 2, 12, 22, 7, 17, 4, 14, 24, 9, 19, 1, 11, 21, 6, 16, 3, 13, 23, 8, 18]
  const P7: Names := [0, 1, 2, 3, 4, 12, 13, 14, 10, 11, 24, 20, 21, 22, 23, 6, 7, 8, 9, 5, 18, 19, 15, 16, 17]
  const P8: Names := [0, 6, 12, 18, 24, 13, 19, 20, 1, 7, 21, 2, 8, 14, 15, 9, 10, 16, 22, 3, 17, 23, 4, 5, 11]

  /** Naming `q` is naming `p` after pi: the lanes move although the registers do not. */
  ghost predicate Follows(p: Names, q: Names) {
    forall i :: 0 <= i < 25 ==> q[i] == p[PiSource(i)]
  }

  lemma RenamingIsPi(s: State, p: Names, q: Names)
    requires Follows(p, q)
    ensures View(s, q) == Pi(View(s, p))
  {
  }

  // ----- Masked states -----

  /** Where a round stands, as far as complemented lanes are concerned. */
  datatype Phase = Between | AfterTheta | BeforeChi

  /** The complemented lanes: between rounds 04, 10, 20, 22, 23 and 31; theta and then pi change that. */
  predicate Complemented(phase: Phase, i: nat) {
    match phase
    case Between => i == 4 || i == 5 || i == 10 || i == 12 || i == 13 || i == 16
    case AfterTheta =>
      i == 0 || i == 1 || i == 2 || i == 3 || i == 5 || i == 10
      || i == 12 || i == 13 || i == 15 || i == 17 || i == 18 || i == 19
    case BeforeChi =>
      i == 0 || i == 1 || i == 2 || i == 4 || i == 8 || i == 10
      || i == 11 || i == 12 || i == 15 || i == 18 || i == 19 || i == 23
  }

  function Flip(b: bool, v: Lane): Lane {
    if b then Not(v) else v
  }

  function Masked(phase: Phase, s: State): State {
    seq(25, i requires 0 <= i < 25 => Flip(Complemented(phase, i), s[i]))
  }

  // ----- Theta -----

  lemma FlipXor(a: Lane, b: Lane, p: bool, q: bool)
    ensures Xor(Flip(p, a), Flip(q, b)) == Flip(p != q, Xor(a, b))
  {
  }

  lemma FlipRol(v: Lane, p: bool, n: nat)
    requires n < 64
    ensures Rol(Flip(p, v), n) == Flip(p, Rol(v, n))
  {
  }

  lemma FlipFive(a: Lane, b: Lane, c: Lane, d: Lane, e: Lane, p: bool, q: bool, r: bool, s: bool, t: bool)
    ensures Xor(Xor(Xor(Xor(Flip(p, a), Flip(q, b)), Flip(r, c)), Flip(s, d)), Flip(t, e))
         == Flip((((p != q) != r) != s) != t, Xor(Xor(Xor(Xor(a, b), c), d), e))
  {
    hide Flip, Xor;
    FlipXor(a, b, p, q);
    FlipXor(Xor(a, b), c, p != q, r);
    FlipXor(Xor(Xor(a, b), c), d, (p != q) != r, s);
    FlipXor(Xor(Xor(Xor(a, b), c), d), e, ((p != q) != r) != s, t);
  }

  lemma ColumnLanes(s: State, x: nat)
    requires x < 5
    ensures Column(s, x) == Xor(Xor(Xor(Xor(s[5 * x], s[5 * x + 1]), s[5 * x + 2]), s[5 * x + 3]), s[5 * x + 4])
  {
    assert x % 5 == x;
  }

  /** Between rounds every column but the last has an odd number of complemented lanes. */
  lemma ColumnParity(x: nat)
    requires x < 5
    ensures (x != 4) ==
            ((((Complemented(Between, 5 * x) != Complemented(Between, 5 * x + 1)) != Complemented(Between, 5 * x + 2))
              != Complemented(Between, 5 * x + 3)) != Complemented(Between, 5 * x + 4))
  {
  }

  lemma MaskedLane(s: State, i: nat)
    requires i < 25
    ensures Masked(Between, s)[i] == Flip(Complemented(Between, i), s[i])
  {
  }

  lemma ColumnMasked(s: State, x: nat)
    requires x < 5
    ensures Column(Masked(Between, s), x) == Flip(x != 4, Column(s, x))
  {
    var r := Masked(Between, s);
    var c := 5 * x;
    ColumnLanes(s, x);
    ColumnLanes(r, x);
    ColumnParity(x);
    hide Flip, Xor, Complemented, Column;
    MaskedLane(s, c);
    MaskedLane(s, c + 1);
    MaskedLane(s, c + 2);
    MaskedLane(s, c + 3);
    MaskedLane(s, c + 4);
    hide Masked;
    FlipFive(s[c], s[c + 1], s[c + 2], s[c + 3], s[c + 4], Complemented(Between, c), Complemented(Between, c + 1),
             Complemented(Between, c + 2), Complemented(Between, c + 3), Complemented(Between, c + 4));
  }

  lemma ColumnWraps(s: State, x: nat)
    requires x < 5
    ensures Column(s, x + 4) == Column(s, if x == 0 then 4 else x - 1)
    ensures Column(s, x + 1) == Column(s, if x == 4 then 0 else x + 1)
  {
  }

  lemma EffectMasked(s: State, x: nat)
    requires x < 5
    ensures Effect(Masked(Between, s), x) == Flip(x == 0 || x == 3, Effect(s, x))
  {
    var r := Masked(Between, s);
    ColumnWraps(s, x);
    ColumnWraps(r, x);
    hide Flip, Xor, Masked, Column, Rol;
    var before, after := if x == 0 then 4 else x - 1, if x == 4 then 0 else x + 1;
    ColumnMasked(s, before);
    ColumnMasked(s, after);
    FlipRol(Column(s, after), after != 4, 1);
    FlipXor(Column(s, before), Rol(Column(s, after), 1), before != 4, after != 4);
  }

  lemma ThetaMask(i: nat, x: nat)
    requires i < 25 && 5 * x <= i < 5 * x + 5
    ensures Complemented(AfterTheta, i) == (Complemented(Between, i) != (x == 0 || x == 3))
  {
  }

  lemma ThetaMasked(s: State)
    ensures Theta(Masked(Between, s)) == Masked(AfterTheta, Theta(s))
  {
    var r := Masked(Between, s);
    forall i | 0 <= i < 25 ensures Theta(r)[i] == Masked(AfterTheta, Theta(s))[i] {
      ThetaLaneMasked(s, i, i / 5);
    }
  }

  lemma ThetaLaneMasked(s: State, i: nat, x: nat)
    requires i < 25 && x == i / 5
    ensures Xor(Masked(Between, s)[i], Effect(Masked(Between, s), x))
         == Flip(Complemented(AfterTheta, i), Xor(s[i], Effect(s, x)))
  {
    EffectMasked(s, x);
    ThetaMask(i, x);
    hide Effect, Xor, Flip, Complemented;
    FlipXor(s[i], Effect(s, x), Complemented(Between, i), x == 0 || x == 3);
  }

  // ----- Rho and pi -----

  lemma RhoMasked(phase: Phase, s: State)
    ensures Rho(Masked(phase, s)) == Masked(phase, Rho(s))
  {
    forall i | 0 <= i < 25 ensures Rho(Masked(phase, s))[i] == Masked(phase, Rho(s))[i] {
      FlipRol(s[i], Complemented(phase, i), Offset(i));
    }
  }

  lemma PiSources()
    ensures PiSource(0) == 0 && PiSource(1) == 15 && PiSource(2) == 5 && PiSource(3) == 20 && PiSource(4) == 10
        && PiSource(5) == 6 && PiSource(6) == 21 && PiSource(7) == 11 && PiSource(8) == 1
    ensures PiSource(9) == 16 && PiSource(10) == 12 && PiSource(11) == 2 && PiSource(12) == 17
        && PiSource(13) == 7 && PiSource(14) == 22 && PiSource(15) == 18 && PiSource(16) == 8
    ensures PiSource(17) == 23 && PiSource(18) == 13 && PiSource(19) == 3 && PiSource(20) == 24
        && PiSource(21) == 14 && PiSource(22) == 4 && PiSource(23) == 19 && PiSource(24) == 9
  {
  }

  lemma PiMask(i: nat)
    requires i < 25
    ensures Complemented(BeforeChi, i) == Complemented(AfterTheta, PiSource(i))
  {
    PiSources();
    hide PiSource;
  }

  lemma PiMasked(s: State)
    ensures Pi(Masked(AfterTheta, s)) == Masked(BeforeChi, Pi(s))
  {
    forall i | 0 <= i < 25 ensures Pi(Masked(AfterTheta, s))[i] == Masked(BeforeChi, Pi(s))[i] {
      PiMask(i);
    }
  }

  // ----- Chi -----

  type Row = r: seq<Lane> | |r| == 5 witness seq(5, _ => seq(64, _ => false))

  /** The new row y from the old one, each row with its own mixture of and, or and one negation. */
  function KhiRow(y: nat, b0: Lane, b1: Lane, b2: Lane, b3: Lane, b4: Lane): Row
    requires y < 5
  {
    if y == 0 then
      var n := Not(b2);
      [Xor(b0, Or(b1, b2)), Xor(b1, Or(n, b3)), Xor(b2, And(b3, b4)), Xor(b3, Or(b4, b0)), Xor(b4, And(b0, b1))]
    else if y == 1 then
      var n := Not(b4);
      [Xor(b0, Or(b1, b2)), Xor(b1, And(b2, b3)), Xor(b2, Or(b3, n)), Xor(b3, Or(b4, b0)), Xor(b4, And(b0, b1))]
    else if y == 2 then
      var n := Not(b3);
      [Xor(b0, Or(b1, b2)), Xor(b1, And(b2, b3)), Xor(b2, And(n, b4)), Xor(n, Or(b4, b0)), Xor(b4, And(b0, b1))]
    else if y == 3 then
      var n := Not(b3);
      [Xor(b0, And(b1, b2)), Xor(b1, Or(b2, b3)), Xor(b2, Or(n, b4)), Xor(n, And(b4, b0)), Xor(b4, Or(b0, b1))]
    else
      var n := Not(b1);
      [Xor(b0, And(n, b2)), Xor(n, Or(b2, b3)), Xor(b2, And(b3, b4)), Xor(b3, Or(b4, b0)), Xor(b4, And(b0, b1))]
  }

  function ChiOf(a: Lane, b: Lane, c: Lane): Lane {
    Xor(a, And(Not(b), c))
  }

  function ChiRow(s0: Lane, s1: Lane, s2: Lane, s3: Lane, s4: Lane): Row {
    [ChiOf(s0, s1, s2), ChiOf(s1, s2, s3), ChiOf(s2, s3, s4), ChiOf(s3, s4, s0), ChiOf(s4, s0, s1)]
  }

  lemma KhiRow0(s0: Lane, s1: Lane, s2: Lane, s3: Lane, s4: Lane)
    ensures var c := ChiRow(s0, s1, s2, s3, s4);
            KhiRow(0, Not(s0), s1, Not(s2), Not(s3), s4)
              == [c[0], Not(c[1]), Not(c[2]), c[3], c[4]]
  {
    assert Xor(Not(s0), Or(s1, Not(s2))) == ChiOf(s0, s1, s2);
    assert Xor(s1, Or(Not(Not(s2)), Not(s3))) == Not(ChiOf(s1, s2, s3));
    assert Xor(Not(s2), And(Not(s3), s4)) == Not(ChiOf(s2, s3, s4));
    assert Xor(Not(s3), Or(s4, Not(s0))) == ChiOf(s3, s4, s0);
    assert Xor(s4, And(Not(s0), s1)) == ChiOf(s4, s0, s1);
  }

  lemma KhiRow1(s0: Lane, s1: Lane, s2: Lane, s3: Lane, s4: Lane)
    ensures var c := ChiRow(s0, s1, s2, s3, s4);
            KhiRow(1, Not(s0), s1, Not(s2), s3, s4)
              == [c[0], c[1], c[2], Not(c[3]), c[4]]
  {
    assert Xor(Not(s0), Or(s1, Not(s2))) == ChiOf(s0, s1, s2);
    assert Xor(s1, And(Not(s2), s3)) == ChiOf(s1, s2, s3);
    assert Xor(Not(s2), Or(s3, Not(s4))) == ChiOf(s2, s3, s4);
    assert Xor(s3, Or(s4, Not(s0))) == Not(ChiOf(s3, s4, s0));
    assert Xor(s4, And(Not(s0), s1)) == ChiOf(s4, s0, s1);
  }

  lemma KhiRow2(s0: Lane, s1: Lane, s2: Lane, s3: Lane, s4: Lane)
    ensures var c := ChiRow(s0, s1, s2, s3, s4);
            KhiRow(2, Not(s0), s1, Not(s2), s3, s4)
              == [c[0], c[1], Not(c[2]), c[3], c[4]]
  {
    assert Xor(Not(s0), Or(s1, Not(s2))) == ChiOf(s0, s1, s2);
    assert Xor(s1, And(Not(s2), s3)) == ChiOf(s1, s2, s3);
    assert Xor(Not(s2), And(Not(s3), s4)) == Not(ChiOf(s2, s3, s4));
    assert Xor(Not(s3), Or(s4, Not(s0))) == ChiOf(s3, s4, s0);
    assert Xor(s4, And(Not(s0), s1)) == ChiOf(s4, s0, s1);
  }

  lemma KhiRow3(s0: Lane, s1: Lane, s2: Lane, s3: Lane, s4: Lane)
    ensures var c := ChiRow(s0, s1, s2, s3, s4);
            KhiRow(3, s0, Not(s1), s2, Not(s3), Not(s4))
              == [c[0], c[1], Not(c[2]), c[3], c[4]]
  {
    assert Xor(s0, And(Not(s1), s2)) == ChiOf(s0, s1, s2);
    assert Xor(Not(s1), Or(s2, Not(s3))) == ChiOf(s1, s2, s3);
    assert Xor(s2, Or(Not(Not(s3)), Not(s4))) == Not(ChiOf(s2, s3, s4));
    assert Xor(Not(Not(s3)), And(Not(s4), s0)) == ChiOf(s3, s4, s0);
    assert Xor(Not(s4), Or(s0, Not(s1))) == ChiOf(s4, s0, s1);
  }

  lemma KhiRow4(s0: Lane, s1: Lane, s2: Lane, s3: Lane, s4: Lane)
    ensures var c := ChiRow(s0, s1, s2, s3, s4);
            KhiRow(4, Not(s0), s1, s2, Not(s3), s4)
              == [Not(c[0]), c[1], c[2], c[3], c[4]]
  {
    assert Xor(Not(s0), And(Not(s1), s2)) == Not(ChiOf(s0, s1, s2));
    assert Xor(Not(s1), Or(s2, Not(s3))) == ChiOf(s1, s2, s3);
    assert Xor(s2, And(Not(s3), s4)) == ChiOf(s2, s3, s4);
    assert Xor(Not(s3), Or(s4, Not(s0))) == ChiOf(s3, s4, s0);
    assert Xor(s4, And(Not(s0), s1)) == ChiOf(s4, s0, s1);
  }

  function FlipRow(phase: Phase, y: nat, r: Row): Row {
    [Flip(Complemented(phase, y), r[0]), Flip(Complemented(phase, 5 + y), r[1]), Flip(Complemented(phase, 10 + y),
        r[2]),
     Flip(Complemented(phase, 15 + y), r[3]), Flip(Complemented(phase, 20 + y), r[4])]
  }

  /** A row that comes with the complements of pi leaves with those between rounds. */
  lemma KhiRowMasked(y: nat, r: Row)
    requires y < 5
    ensures var f := FlipRow(BeforeChi, y, r);
            KhiRow(y, f[0], f[1], f[2], f[3], f[4]) == FlipRow(Between, y, ChiRow(r[0], r[1], r[2], r[3], r[4]))
  {
    hide KhiRow, ChiRow, Not;
    KhiRow0(r[0], r[1], r[2], r[3], r[4]);
    KhiRow1(r[0], r[1], r[2], r[3], r[4]);
    KhiRow2(r[0], r[1], r[2], r[3], r[4]);
    KhiRow3(r[0], r[1], r[2], r[3], r[4]);
    KhiRow4(r[0], r[1], r[2], r[3], r[4]);
  }

  function RowOf(s: State, y: nat): Row
    requires y < 5
  {
    [s[y], s[5 + y], s[10 + y], s[15 + y], s[20 + y]]
  }

  function KhiOfRow(y: nat, r: Row): Row
    requires y < 5
  {
    KhiRow(y, r[0], r[1], r[2], r[3], r[4])
  }

  function Khi(s: State): State {
    seq(25, i requires 0 <= i < 25 => KhiOfRow(i % 5, RowOf(s, i % 5))[i / 5])
  }

  lemma RowMasked(s: State, phase: Phase, y: nat)
    requires y < 5
    ensures RowOf(Masked(phase, s), y) == FlipRow(phase, y, RowOf(s, y))
  {
  }

  lemma ChiRowLane(s: State, y: nat, x: nat)
    requires x < 5 && y < 5
    ensures var r := RowOf(s, y);
            ChiRow(r[0], r[1], r[2], r[3], r[4])[x] == ChiLane(s, x, y)
  {
    assert y % 5 == y;
    assert x == 0 || x == 1 || x == 2 || x == 3 || x == 4;
  }

  lemma FlipRowLane(phase: Phase, y: nat, r: Row, x: nat)
    requires x < 5 && y < 5
    ensures FlipRow(phase, y, r)[x] == Flip(Complemented(phase, 5 * x + y), r[x])
  {
    assert x == 0 || x == 1 || x == 2 || x == 3 || x == 4;
  }

  lemma KhiLaneMasked(s: State, x: nat, y: nat)
    requires x < 5 && y < 5
    ensures KhiOfRow(y, RowOf(Masked(BeforeChi, s), y))[x] == Flip(Complemented(Between, 5 * x + y), ChiLane(s, x, y))
  {
    var r := RowOf(s, y);
    RowMasked(s, BeforeChi, y);
    KhiRowMasked(y, r);
    FlipRowLane(Between, y, ChiRow(r[0], r[1], r[2], r[3], r[4]), x);
    ChiRowLane(s, y, x);
  }

  lemma KhiMasked(s: State)
    ensures Khi(Masked(BeforeChi, s)) == Masked(Between, Chi(s))
  {
    hide KhiOfRow, RowOf, ChiLane, Flip, Complemented;
    forall i | 0 <= i < 25 ensures Khi(Masked(BeforeChi, s))[i] == Masked(Between, Chi(s))[i] {
      KhiLaneMasked(s, i / 5, i % 5);
    }
  }

  /** One fast round on a complemented state is the round of the standard on the state itself, and
      complements the same lanes again. */
  lemma RoundMasked(s: State, k: Lane)
    ensures Iota(Khi(Pi(Rho(Theta(Masked(Between, s))))), k) == Masked(Between, Round(s, k))
  {
    hide Theta, Rho, Pi, Khi, Chi;
    ThetaMasked(s);
    RhoMasked(AfterTheta, Theta(s));
    PiMasked(Rho(Theta(s)));
    KhiMasked(Pi(Rho(Theta(s))));
  }

  // ----- In place -----

  /** The shifts and the or of a rotation. */
  function Shl(v: Lane, n: nat): Lane {
    seq(64, z requires 0 <= z < 64 => z >= n && v[z - n])
  }

  function Shr(v: Lane, n: nat): Lane {
    seq(64, z requires 0 <= z < 64 => z + n < 64 && v[z + n])
  }

  function Rotl(v: Lane, n: nat): (r: Lane)
    requires n < 64
    ensures r == Rol(v, n)
  {
    Or(Shl(v, n), Shr(v, 64 - n))
  }

  /** What theta adds to column x, from columns x - 1 and x + 1. */
  function ThElt(c: Row, d: Row): (t: Lane)
    ensures t == Xor(Xor(Xor(Xor(Xor(c[0], c[1]), c[2]), c[3]), c[4]),
                     Rol(Xor(Xor(Xor(Xor(d[0], d[1]), d[2]), d[3]), d[4]), 1))
  {
    var sum := Xor(Xor(Xor(d[0], d[1]), d[4]), Xor(d[2], d[3]));
    assert sum == Xor(Xor(Xor(Xor(d[0], d[1]), d[2]), d[3]), d[4]);
    Xor(Xor(Rotl(sum, 1), c[4]), Xor(Xor(c[0], c[1]), Xor(c[2], c[3])))
  }

  function ColumnAt(s: State, p: Names, x: nat): Row
    requires x < 5
  {
    [s[p[5 * x]], s[p[5 * x + 1]], s[p[5 * x + 2]], s[p[5 * x + 3]], s[p[5 * x + 4]]]
  }

  lemma ColumnAtView(s: State, p: Names, x: nat)
    requires x < 5
    ensures var c := ColumnAt(s, p, x);
            Column(View(s, p), x) == Xor(Xor(Xor(Xor(c[0], c[1]), c[2]), c[3]), c[4])
  {
    ColumnLanes(View(s, p), x);
    hide Xor, Column;
  }

  lemma ThEltIsEffect(s: State, p: Names, x: nat)
    requires x < 5
    ensures ThElt(ColumnAt(s, p, if x == 0 then 4 else x - 1), ColumnAt(s, p, if x == 4 then 0 else x + 1))
         == Effect(View(s, p), x)
  {
    ColumnWraps(View(s, p), x);
    ColumnAtView(s, p, if x == 0 then 4 else x - 1);
    ColumnAtView(s, p, if x == 4 then 0 else x + 1);
    hide Xor, Rol, Column, ThElt, View, ColumnAt;
  }

  /** The five values that `THETA` adds, by column. */
  method ThetaEffects(s: State, p: Names) returns (t: Row)
    ensures forall x :: 0 <= x < 5 ==> t[x] == Effect(View(s, p), x)
  {
    hide Effect, ThElt, ColumnAt, View;
    var t0 := ThElt(ColumnAt(s, p, 4), ColumnAt(s, p, 1));
    var t1 := ThElt(ColumnAt(s, p, 0), ColumnAt(s, p, 2));
    var t2 := ThElt(ColumnAt(s, p, 1), ColumnAt(s, p, 3));
    var t3 := ThElt(ColumnAt(s, p, 2), ColumnAt(s, p, 4));
    var t4 := ThElt(ColumnAt(s, p, 3), ColumnAt(s, p, 0));
    t := [t0, t1, t2, t3, t4];
    forall x | 0 <= x < 5 ensures t[x] == Effect(View(s, p), x) {
      ThEltIsEffect(s, p, x);
    }
  }

  // A state that is overwritten lane by lane: lanes already `done` are those of `goal`.
  ghost predicate Partly(s: State, cur: State, p: Names, goal: State, done: seq<bool>)
    requires |done| == 25
  {
    forall k :: 0 <= k < 25 ==> cur[p[k]] == if done[k] then goal[k] else s[p[k]]
  }

  lemma PartlyStep(s: State, cur: State, p: Names, goal: State, done: seq<bool>, n: nat)
    requires |done| == 25 && Injective(p) && n < 25 && Partly(s, cur, p, goal, done)
    ensures Partly(s, cur[p[n] := goal[n]], p, goal, done[n := true])
  {
    forall k | 0 <= k < 25
      ensures cur[p[n] := goal[n]][p[k]] == if done[n := true][k] then goal[k] else s[p[k]]
    {
      assert k < n ==> p[k] != p[n];
      assert n < k ==> p[n] != p[k];
    }
  }

  lemma AllDone(s: State, cur: State, p: Names, goal: State, done: seq<bool>)
    requires |done| == 25 && (forall k :: 0 <= k < 25 ==> done[k]) && Partly(s, cur, p, goal, done)
    ensures View(cur, p) == goal
  {
  }

  function UpTo(n: nat): (done: seq<bool>)
    ensures |done| == 25
  {
    seq(25, k requires 0 <= k < 25 => k < n)
  }

  lemma ThetaLane(s: State, p: Names, t: Row, i: nat)
    requires i < 25 && forall x :: 0 <= x < 5 ==> t[x] == Effect(View(s, p), x)
    ensures Theta(View(s, p))[i] == Xor(s[p[i]], t[i / 5])
  {
    hide Effect, Xor;
  }

  /** `THETA` on the registers as named by `p`. */
  method ThetaInPlace(a: array<Lane>, p: Names)
    requires a.Length == 25 && Injective(p)
    modifies a
    ensures View(a[..], p) == Theta(View(old(a[..]), p))
  {
    hide Effect, Xor, Injective, Theta, View;
    ghost var s: State := a[..];
    ghost var goal := Theta(View(s, p));
    var t := ThetaEffects(a[..], p);
    forall i | 0 <= i < 25 ensures goal[i] == Xor(s[p[i]], t[i / 5]) {
      ThetaLane(s, p, t, i);
    }
    assert Partly(s, s, p, goal, UpTo(0));
    for i := 0 to 25
      invariant Partly(s, a[..], p, goal, UpTo(i))
    {
      ghost var cur: State := a[..];
      assert a[p[i]] == s[p[i]];
      a[p[i]] := Xor(a[p[i]], t[i / 5]);
      PartlyStep(s, cur, p, goal, UpTo(i), i);
      assert a[..] == cur[p[i] := goal[i]];
      assert UpTo(i)[i := true] == UpTo(i + 1);
    }
    AllDone(s, a[..], p, goal, UpTo(25));
  }

  /** `RHO`. */
  method RhoInPlace(a: array<Lane>, p: Names)
    requires a.Length == 25 && Injective(p)
    modifies a
    ensures View(a[..], p) == Rho(View(old(a[..]), p))
  {
    ghost var s: State := a[..];
    ghost var goal := Rho(View(s, p));
    forall i | 0 <= i < 25 ensures goal[i] == Rol(s[p[i]], Offset(i)) {
      assert View(s, p)[i] == s[p[i]];
    }
    assert Partly(s, s, p, goal, UpTo(0));
    hide Rol, Rotl, Injective, Rho, View, Offset;
    for i := 0 to 25
      invariant Partly(s, a[..], p, goal, UpTo(i))
    {
      ghost var cur: State := a[..];
      assert a[p[i]] == s[p[i]];
      a[p[i]] := Rotl(a[p[i]], Offset(i));
      PartlyStep(s, cur, p, goal, UpTo(i), i);
      assert a[..] == cur[p[i] := goal[i]];
      assert UpTo(i)[i := true] == UpTo(i + 1);
    }
    AllDone(s, a[..], p, goal, UpTo(25));
  }

  /** The rows before y. */
  function Rows(y: nat): (done: seq<bool>)
    ensures |done| == 25
  {
    seq(25, k requires 0 <= k < 25 => k % 5 < y)
  }

  lemma NextRow(y: nat)
    requires y < 5
    ensures Rows(y)[y := true][5 + y := true][10 + y := true][15 + y := true][20 + y := true] == Rows(y + 1)
    ensures !Rows(y)[y] && !Rows(y)[5 + y] && !Rows(y)[10 + y] && !Rows(y)[15 + y] && !Rows(y)[20 + y]
  {
  }

  lemma KhiLanes(s: State, y: nat)
    requires y < 5
    ensures var c := KhiOfRow(y, RowOf(s, y));
            && Khi(s)[y] == c[0] && Khi(s)[5 + y] == c[1] && Khi(s)[10 + y] == c[2]
            && Khi(s)[15 + y] == c[3] && Khi(s)[20 + y] == c[4]
  {
    hide KhiOfRow, RowOf;
  }

  /** A row is read before it is written. */
  lemma RowStill(s: State, cur: State, p: Names, goal: State, y: nat)
    requires y < 5 && Partly(s, cur, p, goal, Rows(y))
    ensures RowOf(View(cur, p), y) == RowOf(View(s, p), y)
  {
    NextRow(y);
    hide Rows;
    assert cur[p[y]] == s[p[y]] && cur[p[5 + y]] == s[p[5 + y]] && cur[p[10 + y]] == s[p[10 + y]];
    assert cur[p[15 + y]] == s[p[15 + y]] && cur[p[20 + y]] == s[p[20 + y]];
    hide Partly;
  }

  method SetLane(a: array<Lane>, p: Names, n: nat, v: Lane, ghost s: State, ghost goal: State, ghost done: seq<bool>)
    requires a.Length == 25 && n < 25 && |done| == 25 && Injective(p)
    requires Partly(s, a[..], p, goal, done) && v == goal[n]
    modifies a
    ensures Partly(s, a[..], p, goal, done[n := true])
  {
    hide Partly, Injective;
    ghost var cur: State := a[..];
    a[p[n]] := v;
    assert a[..] == cur[p[n] := goal[n]];
    PartlyStep(s, cur, p, goal, done, n);
  }

  method ReadRow(a: array<Lane>, p: Names, y: nat) returns (b: Row)
    requires a.Length == 25 && y < 5
    ensures b == RowOf(View(a[..], p), y)
  {
    b := [a[p[y]], a[p[5 + y]], a[p[10 + y]], a[p[15 + y]], a[p[20 + y]]];
  }

  method WriteRow(a: array<Lane>, p: Names, y: nat, c: Row, ghost s: State, ghost goal: State)
    requires a.Length == 25 && Injective(p) && y < 5 && Partly(s, a[..], p, goal, Rows(y))
    requires goal[y] == c[0] && goal[5 + y] == c[1] && goal[10 + y] == c[2] && goal[15 + y] == c[3]
    requires goal[20 + y] == c[4]
    modifies a
    ensures Partly(s, a[..], p, goal, Rows(y + 1))
  {
    hide Rows, Injective, Partly;
    NextRow(y);
    ghost var done := Rows(y);
    SetLane(a, p, y, c[0], s, goal, done);
    done := done[y := true];
    SetLane(a, p, 5 + y, c[1], s, goal, done);
    done := done[5 + y := true];
    SetLane(a, p, 10 + y, c[2], s, goal, done);
    done := done[10 + y := true];
    SetLane(a, p, 15 + y, c[3], s, goal, done);
    done := done[15 + y := true];
    SetLane(a, p, 20 + y, c[4], s, goal, done);
  }

  /** One row of `KHI`. */
  method KhiRowInPlace(a: array<Lane>, p: Names, y: nat, ghost s: State)
    requires a.Length == 25 && Injective(p) && y < 5
    requires Partly(s, a[..], p, Khi(View(s, p)), Rows(y))
    modifies a
    ensures Partly(s, a[..], p, Khi(View(s, p)), Rows(y + 1))
  {
    hide Rows, Khi, KhiOfRow, Injective, Partly, View, RowOf;
    var b := ReadRow(a, p, y);
    RowStill(s, a[..], p, Khi(View(s, p)), y);
    KhiLanes(View(s, p), y);
    WriteRow(a, p, y, KhiOfRow(y, b), s, Khi(View(s, p)));
  }

  /** `KHI`: one row after the other. */
  method KhiInPlace(a: array<Lane>, p: Names)
    requires a.Length == 25 && Injective(p)
    modifies a
    ensures View(a[..], p) == Khi(View(old(a[..]), p))
  {
    ghost var s: State := a[..];
    assert Partly(s, s, p, Khi(View(s, p)), Rows(0));
    hide Partly, Injective, Khi, View;
    for y := 0 to 5
      invariant Partly(s, a[..], p, Khi(View(s, p)), Rows(y))
    {
      KhiRowInPlace(a, p, y, s);
    }
    AllDone(s, a[..], p, Khi(View(s, p)), Rows(5));
  }

  /** `THETA`, `RHO`, the renaming and `KHI`. */
  method LinearAndKhi(a: array<Lane>, p: Names, q: Names)
    requires a.Length == 25 && Injective(p) && Injective(q) && Follows(p, q)
    modifies a
    ensures View(a[..], q) == Khi(Pi(Rho(Theta(View(old(a[..]), p)))))
  {
    hide Theta, Rho, Khi, Pi, View, Follows, Injective;
    ThetaInPlace(a, p);
    RhoInPlace(a, p);
    RenamingIsPi(a[..], p, q);
    KhiInPlace(a, q);
  }

  /** `IOTA`: register 0 always holds lane (0, 0). */
  method IotaInPlace(a: array<Lane>, q: Names, k: Lane)
    requires a.Length == 25 && Injective(q) && q[0] == 0
    modifies a
    ensures View(a[..], q) == Iota(View(old(a[..]), q), k)
  {
    hide View, Iota, Xor, Injective;
    a[0] := Xor(a[0], k);
    IotaView(old(a[..]), a[..], q, k);
  }

  /** `KF_ELT`: one round with the registers named by `p` before and by `q` after it. */
  method RoundInPlace(a: array<Lane>, p: Names, q: Names, k: Lane, ghost s: State)
    requires a.Length == 25 && Injective(p) && Injective(q) && Follows(p, q) && q[0] == 0
    requires View(a[..], p) == Masked(Between, s)
    modifies a
    ensures View(a[..], q) == Masked(Between, Round(s, k))
  {
    hide Theta, Rho, Khi, Pi, Iota, View, Masked, Round, Follows, Injective;
    LinearAndKhi(a, p, q);
    IotaInPlace(a, q, k);
    RoundMasked(s, k);
  }

  lemma IotaView(t: State, u: State, q: Names, k: Lane)
    requires Injective(q) && q[0] == 0 && u == t[0 := Xor(t[0], k)]
    ensures View(u, q) == Iota(View(t, q), k)
  {
    hide Xor;
    forall i | 0 <= i < 25 ensures View(u, q)[i] == Iota(View(t, q), k)[i] {
      assert i != 0 ==> q[i] != q[0];
    }
  }
}
