/**
 The whole in-place permutation: three times eight renamed rounds, each time followed by the moves
 that bring the lanes back to the registers they started from.
 */
module KeccakPermutation {
  import opened KeccakSpec
  import opened KeccakFast

  // ----- The names of the eight rounds -----

  lemma FollowsByTable(p: Names, q: Names)
    requires q == [p[0], p[15], p[5], p[20], p[10], p[6], p[21], p[11], p[1], p[16], p[12], p[2], p[17], p[7], p[22],
                   p[18], p[8], p[23], p[13], p[3], p[24], p[14], p[4], p[19], p[9]]
    ensures Follows(p, q)
  {
    PiSources();
    hide PiSource;
  }

  lemma NamesFollow()
    ensures Follows(P0, P1) && Follows(P1, P2) && Follows(P2, P3) && Follows(P3, P4)
    ensures Follows(P4, P5) && Follows(P5, P6) && Follows(P6, P7) && Follows(P7, P8)
  {
    hide Follows;
    FollowsByTable(P0, P1);
    FollowsByTable(P1, P2);
    FollowsByTable(P2, P3);
    FollowsByTable(P3, P4);
    FollowsByTable(P4, P5);
    FollowsByTable(P5, P6);
    FollowsByTable(P6, P7);
    FollowsByTable(P7, P8);
  }

  lemma FirstNames(i: nat)
    requires i < 25
    ensures P0[i] == i / 5 + 5 * (i % 5)
  {
  }

  lemma FirstNamesInjective()
    ensures Injective(P0)
  {
    forall i, j | 0 <= i < j < 25 ensures P0[i] != P0[j] {
      FirstNames(i);
      FirstNames(j);
    }
  }

  /** Pi moves no two lanes to the same place. */
  lemma PiSourceInjective(i: nat, j: nat)
    requires i < 25 && j < 25 && PiSource(i) == PiSource(j)
    ensures i == j
  {
    PiSources();
    hide PiSource;
  }

  lemma InjectiveFollows(p: Names, q: Names)
    requires Injective(p) && Follows(p, q)
    ensures Injective(q)
  {
    hide PiSource;
    forall i, j | 0 <= i < j < 25 ensures q[i] != q[j] {
      if PiSource(i) == PiSource(j) {
        PiSourceInjective(i, j);
      }
    }
  }

  // ----- Rounds -----

  /** The registers hold the state after `n` rounds on `s`, complemented, under the names `p`. */
  ghost predicate Holds(r: State, p: Names, s: State, n: nat)
    requires n <= 24
  {
    View(r, p) == Masked(Between, Rounds(s, n))
  }

  method Step(a: array<Lane>, p: Names, q: Names, n: nat, ghost s: State)
    requires a.Length == 25 && Injective(p) && Follows(p, q) && q[0] == 0 && n < 24
    requires Holds(a[..], p, s, n)
    modifies a
    ensures Injective(q) && Holds(a[..], q, s, n + 1)
  {
    InjectiveFollows(p, q);
    hide Injective, Follows, View, Masked, RoundConstant, Round;
    RoundInPlace(a, p, q, RoundConstant(n), Rounds(s, n));
    assert Rounds(s, n + 1) == Round(Rounds(s, n), RoundConstant(n));
  }

  /** The body of the loop, before the moves. */
  method EightRounds(a: array<Lane>, n: nat, ghost s: State)
    requires a.Length == 25 && n + 8 <= 24
    requires Holds(a[..], P0, s, n)
    modifies a
    ensures Holds(a[..], P8, s, n + 8)
  {
    NamesFollow();
    FirstNamesInjective();
    hide Injective, Follows, Holds;
    Step(a, P0, P1, n, s);
    Step(a, P1, P2, n + 1, s);
    Step(a, P2, P3, n + 2, s);
    Step(a, P3, P4, n + 3, s);
    Step(a, P4, P5, n + 4, s);
    Step(a, P5, P6, n + 5, s);
    Step(a, P6, P7, n + 6, s);
    Step(a, P7, P8, n + 7, s);
  }

  // ----- Moving back -----

  /** Where the contents of register `r` go when `i` takes `j`, `j` takes `k` and `k` takes `i`. */
  function Goes(r: nat, i: nat, j: nat, k: nat): nat {
    if r == j then i else if r == k then j else if r == i then k else r
  }

  function GoesAll(p: Names, i: nat, j: nat, k: nat): Names
    requires i < 25 && j < 25 && k < 25
  {
    seq(25, x requires 0 <= x < 25 => Goes(p[x], i, j, k))
  }

  /** A temporary and three moves; the names move along, so the view stays. */
  method Cycle(a: array<Lane>, i: nat, j: nat, k: nat, ghost p: Names, ghost v: State) returns (ghost q: Names)
    requires a.Length == 25 && i < 25 && j < 25 && k < 25 && i != j && j != k && i != k
    requires View(a[..], p) == v
    modifies a
    ensures q == GoesAll(p, i, j, k) && View(a[..], q) == v
  {
    ghost var s: State := a[..];
    var t := a[i];
    a[i] := a[j];
    a[j] := a[k];
    a[k] := t;
    q := GoesAll(p, i, j, k);
    forall x | 0 <= x < 25 ensures View(a[..], q)[x] == v[x] {
      assert v[x] == s[p[x]];
    }
  }

  /** All eight cycles. */
  function Home(r: nat): nat {
    Goes(Goes(Goes(Goes(Goes(Goes(Goes(Goes(r, 5, 6, 19), 10, 12, 8), 15, 18, 22), 20, 24, 11), 1, 13, 16),
                             21, 7, 2), 17, 14, 4), 3, 9, 23)
  }

  lemma Homes()
    ensures Home(0) == 0 && Home(1) == 16 && Home(2) == 7 && Home(3) == 23 && Home(4) == 14 && Home(5) == 19
        && Home(6) == 5 && Home(7) == 21 && Home(8) == 12
    ensures Home(9) == 3 && Home(10) == 8 && Home(11) == 24 && Home(12) == 10 && Home(13) == 1 && Home(14) == 17
        && Home(15) == 22 && Home(16) == 13
    ensures Home(17) == 4 && Home(18) == 15 && Home(19) == 6 && Home(20) == 11 && Home(21) == 2 && Home(22) == 18
        && Home(23) == 9 && Home(24) == 20
  {
  }

  lemma HomeNames(x: nat)
    requires x < 25
    ensures Home(P8[x]) == P0[x]
  {
    Homes();
    hide Home;
  }

  /** `P8_TO_P0`. */
  method MoveBack(a: array<Lane>, ghost v: State)
    requires a.Length == 25 && View(a[..], P8) == v
    modifies a
    ensures View(a[..], P0) == v
  {
    hide View;
    ghost var q := Cycle(a, 5, 6, 19, P8, v);
    q := Cycle(a, 10, 12, 8, q, v);
    q := Cycle(a, 15, 18, 22, q, v);
    q := Cycle(a, 20, 24, 11, q, v);
    q := Cycle(a, 1, 13, 16, q, v);
    q := Cycle(a, 21, 7, 2, q, v);
    q := Cycle(a, 17, 14, 4, q, v);
    q := Cycle(a, 3, 9, 23, q, v);
    forall x | 0 <= x < 25 ensures q[x] == P0[x] {
      HomeNames(x);
    }
    assert q == P0;
  }

  /** `KECCAK_F_1600`: on complemented registers, the permutation of the standard. */
  method Permute(a: array<Lane>, ghost s: State)
    requires a.Length == 25 && View(a[..], P0) == Masked(Between, s)
    modifies a
    ensures View(a[..], P0) == Masked(Between, KeccakF(s))
  {
    hide View, Masked, Round;
    var n := 0;
    while n < 24
      invariant n == 0 || n == 8 || n == 16 || n == 24
      invariant Holds(a[..], P0, s, n)
    {
      EightRounds(a, n, s);
      n := n + 8;
      MoveBack(a, Masked(Between, Rounds(s, n)));
    }
  }
}
