/** The modifiers of whole chains: determined by the blocks, and how often a new one appears. */
module StakeHistory {
  import opened Arithmetic
  import opened StakeInterval
  import opened StakeSelect
  import opened StakeModifier
  import opened StakeChain

  // ----- The modifier does not depend on the index -----

  lemma LastPick(h: Hashing, prev: Modifier, index: map<Hash, Block>, items: seq<Item>, interval: Interval, start: int,
                 p: seq<Block>)
    returns (k: nat)
    requires Indexed(index, items) && |p| > 0 && Picked(h, prev, index, items, interval, start, p)
    ensures |p| <= 64 && Picked(h, prev, index, items, interval, start, p[..|p| - 1])
    ensures Best(h, prev, index, items, ByHash(p[..|p| - 1]), Stop(interval, start, |p| - 1), k)
    ensures k < |items| && items[k].hash in index && p[|p| - 1] == index[items[k].hash]
  {
    hide Best, Sections, ByHash, Indexed;
    var n := |p| - 1;
    k :| PickAt(h, prev, index, items, ByHash(p[..n]), Stop(interval, start, n), k, p[n]);
    BestIsFree(h, prev, index, items, ByHash(p[..n]), Stop(interval, start, n), k);
  }

  /** Both indexes know the candidates, and as the same blocks. */
  ghost predicate Agree(i: map<Hash, Block>, j: map<Hash, Block>, items: seq<Item>) {
    && Indexed(i, items)
    && Indexed(j, items)
    && forall k :: 0 <= k < |items| ==> i[items[k].hash] == j[items[k].hash]
  }

  lemma BestAgrees(h: Hashing, prev: Modifier, i: map<Hash, Block>, j: map<Hash, Block>, items: seq<Item>,
                   selected: map<Hash, Block>, stop: int, k: nat)
    requires Agree(i, j, items) && Best(h, prev, i, items, selected, stop, k)
    ensures Best(h, prev, j, items, selected, stop, k)
  {
    hide Selection;
  }

  lemma {:induction false} PicksAreUnique(h: Hashing, prev: Modifier, i: map<Hash, Block>, j: map<Hash, Block>,
                                          items: seq<Item>, interval: Interval, start: int, p: seq<Block>,
                                          q: seq<Block>)
    requires Agree(i, j, items) && |p| == |q|
    requires Picked(h, prev, i, items, interval, start, p) && Picked(h, prev, j, items, interval, start, q)
    ensures p == q
  {
    hide Best, Indexed, Sections, Picked, ByHash;
    if |p| > 0 {
      var n := |p| - 1;
      var k := LastPick(h, prev, i, items, interval, start, p);
      var l := LastPick(h, prev, j, items, interval, start, q);
      PicksAreUnique(h, prev, i, j, items, interval, start, p[..n], q[..n]);
      BestAgrees(h, prev, i, j, items, ByHash(p[..n]), Stop(interval, start, n), k);
      BestIsUnique(h, prev, j, items, ByHash(p[..n]), Stop(interval, start, n), k, l);
      assert p == p[..n] + [p[n]] && q == q[..n] + [q[n]];
    }
  }

  /** Two well-formed indexes agree on the candidates of a chain. */
  lemma ChainsAgree(chain: seq<Block>, i: map<Hash, Block>, j: map<Hash, Block>, c: nat)
    requires WellFormed(chain, i) && WellFormed(chain, j) && c <= |chain|
    ensures Agree(i, j, Sort(Items(chain[c..])))
  {
    CandidatesIndexed(chain, i, c);
    CandidatesIndexed(chain, j, c);
    var items := Items(chain[c..]);
    SortKeeps(items);
    hide Sort, Indexed;
    var sorted := Sort(items);
    forall k | 0 <= k < |sorted| ensures i[sorted[k].hash] == j[sorted[k].hash] {
      var x := sorted[k];
      assert x in sorted;
      assert x in items;
      var l :| 0 <= l < |items| && items[l] == x;
      assert items[l] == ItemOf(chain[c + l]);
    }
  }

  lemma SinceFits(chain: seq<Block>, start: int)
    ensures Since(chain, start) <= |chain|
  {
    hide Since;
  }

  /** Every node computes the same modifier, whatever else its index holds. */
  lemma ModifierIsUnique(h: Hashing, interval: Interval, chain: seq<Block>, i: map<Hash, Block>, j: map<Hash, Block>,
                         prev: Modifier, m: Modifier, n: Modifier)
    requires |chain| > 0 && WellFormed(chain, i) && WellFormed(chain, j)
    requires Follows(h, interval, chain, i, prev, m) && Follows(h, interval, chain, j, prev, n)
    ensures m == n
  {
    hide Picked, Indexed, Sort, Distinct, Start, Items, Since, WellFormed, Agree;
    var start := Start(interval, chain[|chain| - 1].time);
    SinceFits(chain, start);
    ChainsAgree(chain, i, j, Since(chain, start));
    var p :| FromPicks(h, interval, chain, i, prev, m, p);
    var q :| FromPicks(h, interval, chain, j, prev, n, q);
    PicksAreUnique(h, prev, i, j, Sort(Items(chain[Since(chain, start)..])), interval, start, p, q);
  }

  // ----- There always is one -----

  /** The least selection hash among the free candidates before `n` that are early enough. */
  lemma {:induction false} LeastFree(h: Hashing, prev: Modifier, index: map<Hash, Block>, items: seq<Item>,
                                     selected: map<Hash, Block>, stop: int, n: nat)
    returns (k: nat)
    requires Indexed(index, items) && n <= |items|
    requires exists j :: 0 <= j < n && Free(items, selected, j) && items[j].time <= stop
    ensures k < n && Free(items, selected, k) && items[k].time <= stop
    ensures forall j :: 0 <= j < n && Free(items, selected, j) && items[j].time <= stop ==>
              && Selection(h, prev, index[items[k].hash]) <= Selection(h, prev, index[items[j].hash])
              && (j < k ==> Selection(h, prev, index[items[k].hash]) < Selection(h, prev, index[items[j].hash]))
  {
    hide Selection, Indexed;
    KnownItem(index, items, n - 1);
    if exists j :: 0 <= j < n - 1 && Free(items, selected, j) && items[j].time <= stop {
      k := LeastFree(h, prev, index, items, selected, stop, n - 1);
      KnownItem(index, items, k);
      if Free(items, selected, n - 1) && items[n - 1].time <= stop
        && Selection(h, prev, index[items[n - 1].hash]) < Selection(h, prev, index[items[k].hash]) {
        k := n - 1;
      }
    } else {
      k := n - 1;
    }
  }

  lemma KnownItem(index: map<Hash, Block>, items: seq<Item>, k: int)
    requires Indexed(index, items) && 0 <= k < |items|
    ensures items[k].hash in index
  {
  }

  lemma {:induction false} FirstFree(items: seq<Item>, selected: map<Hash, Block>, n: nat) returns (k: nat)
    requires n <= |items| && exists j :: 0 <= j < n && Free(items, selected, j)
    ensures k < n && Free(items, selected, k) && forall j :: 0 <= j < k ==> !Free(items, selected, j)
  {
    if exists j :: 0 <= j < n - 1 && Free(items, selected, j) {
      k := FirstFree(items, selected, n - 1);
    } else {
      k := n - 1;
    }
  }

  lemma BestExists(h: Hashing, prev: Modifier, index: map<Hash, Block>, items: seq<Item>,
                   selected: map<Hash, Block>, stop: int)
    returns (k: nat)
    requires Indexed(index, items) && ByTime(items)
    requires exists j :: 0 <= j < |items| && Free(items, selected, j)
    ensures Best(h, prev, index, items, selected, stop, k)
  {
    hide Selection, Indexed;
    if exists j :: 0 <= j < |items| && Free(items, selected, j) && items[j].time <= stop {
      k := LeastFree(h, prev, index, items, selected, stop, |items|);
    } else {
      k := FirstFree(items, selected, |items|);
    }
  }

  lemma {:induction false} PicksExist(h: Hashing, prev: Modifier, index: map<Hash, Block>, candidates: seq<Block>,
                                      interval: Interval, start: int, n: nat)
    returns (picks: seq<Block>)
    requires var items := Sort(Items(candidates)); Indexed(index, items)
    requires Distinct(candidates) && n <= 64 && n <= |candidates|
    ensures |picks| == n && Distinct(picks)
    ensures Picked(h, prev, index, Sort(Items(candidates)), interval, start, picks)
  {
    hide Sort, Indexed, Distinct, Picked, Best, Items;
    var items := Sort(Items(candidates));
    if n == 0 {
      picks := [];
      NoPicks(h, prev, index, items, interval, start);
    } else {
      var init := PicksExist(h, prev, index, candidates, interval, start, n - 1);
      FewChosen(init);
      SomeFree(candidates, ByHash(init));
      SortKeeps(Items(candidates));
      var k := BestExists(h, prev, index, items, ByHash(init), Stop(interval, start, n - 1));
      BestIsFree(h, prev, index, items, ByHash(init), Stop(interval, start, n - 1), k);
      NextPick(h, prev, index, items, interval, start, init, k);
      picks := init + [index[items[k].hash]];
    }
  }

  lemma ModifierExists(h: Hashing, interval: Interval, chain: seq<Block>, index: map<Hash, Block>, prev: Modifier)
    returns (m: Modifier)
    requires |chain| > 0 && WellFormed(chain, index)
    ensures Follows(h, interval, chain, index, prev, m)
  {
    hide Sort, Indexed, Picked, Distinct, Start, Items, Since, WellFormed;
    var start := Start(interval, chain[|chain| - 1].time);
    SinceFits(chain, start);
    var c := Since(chain, start);
    CandidatesIndexed(chain, index, c);
    CandidatesDistinct(chain, index, c);
    var candidates := chain[c..];
    var n := if |candidates| < 64 then |candidates| else 64;
    var picks := PicksExist(h, prev, index, candidates, interval, start, n);
    m := seq(64, r requires 0 <= r < 64 => r < |picks| && picks[r].entropy);
    assert Bits(m, picks);
    assert FromPicks(h, interval, chain, index, prev, m, picks);
  }

  /** One well-formed index is as good as another. */
  lemma FollowsAnyIndex(h: Hashing, interval: Interval, chain: seq<Block>, i: map<Hash, Block>, j: map<Hash, Block>,
                        prev: Modifier, m: Modifier)
    requires |chain| > 0 && WellFormed(chain, i) && WellFormed(chain, j)
    requires Follows(h, interval, chain, i, prev, m)
    ensures Follows(h, interval, chain, j, prev, m)
  {
    hide Follows, WellFormed;
    var n := ModifierExists(h, interval, chain, j, prev);
    ModifierIsUnique(h, interval, chain, i, j, prev, m, n);
  }

  lemma {:induction false} OwnIndex(chain: seq<Block>)
    requires Distinct(chain)
    ensures WellFormed(chain, ByHash(chain))
  {
    if |chain| > 0 {
      OwnIndex(chain[..|chain| - 1]);
    }
  }

  // ----- Whole chains -----

  /** Block `b` has the flag `ComputeNextStakeModifier` gives it after this chain, and the old modifier without it. */
  ghost predicate Paced(interval: Interval, chain: seq<Block>, b: Block) {
    if |chain| == 0 then b.generated && b.modifier == Zero()
    else
      && Generated(chain)
      && b.generated == Due(interval, chain)
      && (!b.generated ==> b.modifier == chain[Latest(chain)].modifier)
  }

  /** Block `b` also has the new modifier when it generates one. */
  ghost predicate Produced(h: Hashing, interval: Interval, chain: seq<Block>, b: Block) {
    && Paced(interval, chain, b)
    && (|chain| > 0 && b.generated && Distinct(chain) ==>
          Follows(h, interval, chain, ByHash(chain), chain[Latest(chain)].modifier, b.modifier))
  }

  ghost predicate Grown(h: Hashing, interval: Interval, chain: seq<Block>) {
    forall k :: 0 <= k < |chain| ==> Produced(h, interval, chain[..k], chain[k])
  }

  lemma GrownAt(h: Hashing, interval: Interval, chain: seq<Block>, k: nat)
    requires Grown(h, interval, chain) && k < |chain|
    ensures Produced(h, interval, chain[..k], chain[k]) && Paced(interval, chain[..k], chain[k])
  {
  }

  lemma GrownSoFar(h: Hashing, interval: Interval, chain: seq<Block>, n: nat)
    requires Grown(h, interval, chain) && n <= |chain|
    ensures Grown(h, interval, chain[..n])
  {
    hide Produced;
    forall k | 0 <= k < n ensures Produced(h, interval, chain[..n][..k], chain[..n][k]) {
      assert chain[..n][..k] == chain[..k];
    }
  }

  lemma GrownLonger(h: Hashing, interval: Interval, chain: seq<Block>, b: Block)
    requires Grown(h, interval, chain) && Produced(h, interval, chain, b)
    ensures Grown(h, interval, chain + [b])
  {
    hide Produced;
    var longer := chain + [b];
    forall k | 0 <= k < |longer| ensures Produced(h, interval, longer[..k], longer[k]) {
      assert longer[..k] == chain[..k];
      assert chain[..|chain|] == chain;
    }
  }

  /** The genesis block generates, so there always is a last modifier. */
  lemma GrownGenerates(h: Hashing, interval: Interval, chain: seq<Block>)
    requires Grown(h, interval, chain) && |chain| > 0
    ensures chain[0].generated && chain[0].modifier == Zero() && Generated(chain)
  {
    assert Produced(h, interval, chain[..0], chain[0]);
  }

  /** The part of `AddToBlockIndex` that sets the modifier: on a chain grown this way it never fails. */
  method Extend(h: Hashing, interval: Interval, chain: seq<Block>, index: map<Hash, Block>, b: Block)
    returns (ok: bool, longer: seq<Block>)
    requires Grown(h, interval, chain)
    ensures WellFormed(chain, index) ==> ok && Grown(h, interval, longer)
    ensures ok ==> |longer| == |chain| + 1 && longer[..|chain|] == chain && Paced(interval, chain, longer[|chain|])
    ensures ok ==> longer[|chain|].(modifier := b.modifier, generated := b.generated) == b
  {
    hide Follows, WellFormed, Current, Due, Latest, Grown, Distinct, ByHash;
    if |chain| > 0 {
      GrownGenerates(h, interval, chain);
    }
    var next;
    ok, next := ComputeNext(h, interval, chain, index);
    var added := b.(modifier := next.modifier, generated := next.generated);
    longer := chain + [added];
    if WellFormed(chain, index) {
      if |chain| > 0 && next.generated {
        LatestFits(chain);
        OnOwnIndex(h, interval, chain, index, chain[Latest(chain)].modifier, next.modifier);
      }
      GrownLonger(h, interval, chain, added);
    }
  }

  lemma OnOwnIndex(h: Hashing, interval: Interval, chain: seq<Block>, index: map<Hash, Block>, prev: Modifier,
                   m: Modifier)
    requires |chain| > 0 && WellFormed(chain, index) && Follows(h, interval, chain, index, prev, m)
    ensures Follows(h, interval, chain, ByHash(chain), prev, m)
  {
    hide Follows, ByHash;
    OwnIndex(chain);
    hide WellFormed;
    FollowsAnyIndex(h, interval, chain, index, ByHash(chain), prev, m);
  }

  // ----- A chain determines its modifiers -----

  /** What a block is before `AddToBlockIndex` sets its modifier. */
  function Raw(b: Block): Block {
    b.(generated := false, modifier := Zero())
  }

  lemma NextIsUnique(h: Hashing, interval: Interval, chain: seq<Block>, b: Block, c: Block)
    requires Produced(h, interval, chain, b) && Produced(h, interval, chain, c)
    requires Distinct(chain) && Raw(b) == Raw(c)
    ensures b == c
  {
    hide Follows, Latest, Due, Distinct, ByHash, Generated;
    if |chain| > 0 && b.generated {
      OwnIndexUnique(h, interval, chain, chain[Latest(chain)].modifier, b.modifier, c.modifier);
    }
  }

  lemma OwnIndexUnique(h: Hashing, interval: Interval, chain: seq<Block>, prev: Modifier, m: Modifier, n: Modifier)
    requires |chain| > 0 && Distinct(chain)
    requires Follows(h, interval, chain, ByHash(chain), prev, m) && Follows(h, interval, chain, ByHash(chain), prev, n)
    ensures m == n
  {
    hide Follows, ByHash, WellFormed;
    OwnIndex(chain);
    ModifierIsUnique(h, interval, chain, ByHash(chain), ByHash(chain), prev, m, n);
  }

  /** Two nodes that grow a chain from the same blocks agree on every flag and every modifier. */
  lemma {:induction false} GrownIsUnique(h: Hashing, interval: Interval, c: seq<Block>, d: seq<Block>)
    requires Grown(h, interval, c) && Grown(h, interval, d) && Distinct(c)
    requires |c| == |d| && forall k :: 0 <= k < |c| ==> Raw(c[k]) == Raw(d[k])
    ensures c == d
  {
    hide Grown, Produced;
    if |c| > 0 {
      var n := |c| - 1;
      GrownSoFar(h, interval, c, n);
      GrownSoFar(h, interval, d, n);
      GrownIsUnique(h, interval, c[..n], d[..n]);
      GrownAt(h, interval, c, n);
      GrownAt(h, interval, d, n);
      NextIsUnique(h, interval, c[..n], c[n], d[n]);
      assert c == c[..n] + [c[n]] && d == d[..n] + [d[n]];
    }
  }

  // ----- How often a new modifier appears -----

  /** What made block `k`: the latest generating block before it. */
  lemma BlockBefore(h: Hashing, interval: Interval, chain: seq<Block>, k: nat)
    requires Grown(h, interval, chain) && 0 < k < |chain|
    ensures Generated(chain[..k]) && Latest(chain[..k]) < k
    ensures var g := Latest(chain[..k]);
            && chain[g].generated
            && chain[k].generated == (Slot(interval, chain[g].time) < Slot(interval, chain[k - 1].time))
            && (!chain[k].generated ==> chain[k].modifier == chain[g].modifier)
  {
    hide Slot, Latest, Grown, Produced;
    GrownAt(h, interval, chain, k);
    var before := chain[..k];
    assert before[|before| - 1] == chain[k - 1];
  }

  /** A block that does not generate a modifier carries that of its parent. */
  lemma CarriesParent(h: Hashing, interval: Interval, chain: seq<Block>, k: nat)
    requires Grown(h, interval, chain) && 0 < k < |chain| && !chain[k].generated
    ensures chain[k].modifier == chain[k - 1].modifier
  {
    hide Slot, Grown, Latest;
    BlockBefore(h, interval, chain, k);
    if chain[k - 1].generated {
      LatestIs(chain[..k], k - 1);
    } else {
      GrownGenerates(h, interval, chain);
      BlockBefore(h, interval, chain, k - 1);
      SameLatest(chain, k);
    }
  }

  lemma SameLatest(chain: seq<Block>, k: nat)
    requires 0 < k <= |chain| && !chain[k - 1].generated && Generated(chain[..k - 1])
    ensures Generated(chain[..k]) && Latest(chain[..k]) == Latest(chain[..k - 1])
  {
    hide Latest;
    var f := Latest(chain[..k - 1]);
    assert chain[..k][f] == chain[..k - 1][f];
    LatestIs(chain[..k], f);
  }

  /** The blocks that generate lie in later and later intervals, so no interval has two. */
  ghost predicate Spaced(interval: Interval, chain: seq<Block>) {
    forall i, j :: 0 <= i < j < |chain| && chain[i].generated && chain[j].generated ==>
      Slot(interval, chain[i].time) < Slot(interval, chain[j].time)
  }

  /** If a new modifier is due, the next block has left the interval of the current one. */
  ghost predicate InTime(interval: Interval, chain: seq<Block>, b: Block) {
    Generated(chain) && Due(interval, chain) ==> Slot(interval, chain[Latest(chain)].time) < Slot(interval, b.time)
  }

  lemma SpacedStep(interval: Interval, chain: seq<Block>, b: Block)
    requires |chain| > 0 && Spaced(interval, chain) && Paced(interval, chain, b)
    ensures Spaced(interval, chain + [b]) <==> InTime(interval, chain, b)
  {
    hide Slot, Latest;
    var g := Latest(chain);
    var longer := chain + [b];
    assert longer[g] == chain[g] && longer[|chain|] == b;
    if InTime(interval, chain, b) {
      forall i, j | 0 <= i < j < |longer| && longer[i].generated && longer[j].generated
        ensures Slot(interval, longer[i].time) < Slot(interval, longer[j].time)
      {
        assert longer[i] == chain[i];
        if j < |chain| {
          assert longer[j] == chain[j];
        }
      }
    }
  }

  ghost predicate AllInTime(interval: Interval, chain: seq<Block>) {
    forall k :: 0 < k < |chain| ==> InTime(interval, chain[..k], chain[k])
  }

  lemma AllInTimeStep(interval: Interval, chain: seq<Block>, n: nat)
    requires 0 < n && |chain| == n + 1
    ensures AllInTime(interval, chain) <==> AllInTime(interval, chain[..n]) && InTime(interval, chain[..n], chain[n])
  {
    hide InTime;
    forall k | 0 < k < n ensures chain[..n][..k] == chain[..k] && chain[..n][k] == chain[k] {
    }
    if AllInTime(interval, chain) {
      forall k | 0 < k < n ensures InTime(interval, chain[..n][..k], chain[..n][k]) {
        assert InTime(interval, chain[..k], chain[k]);
      }
    }
    if AllInTime(interval, chain[..n]) && InTime(interval, chain[..n], chain[n]) {
      forall k | 0 < k < |chain| ensures InTime(interval, chain[..k], chain[k]) {
        if k < n {
          assert InTime(interval, chain[..n][..k], chain[..n][k]);
        }
      }
    }
  }

  /** Exactly when the generating blocks of a chain lie in later and later intervals. */
  lemma {:induction false} SpacedExactly(h: Hashing, interval: Interval, chain: seq<Block>)
    requires Grown(h, interval, chain)
    ensures Spaced(interval, chain) <==> AllInTime(interval, chain)
  {
    hide Grown, Produced, InTime, Paced, Slot;
    if |chain| > 1 {
      hide AllInTime, Spaced;
      var n := |chain| - 1;
      GrownSoFar(h, interval, chain, n);
      SpacedExactly(h, interval, chain[..n]);
      GrownAt(h, interval, chain, n);
      AllInTimeStep(interval, chain, n);
      SpacedSoFar(interval, chain, n);
      assert chain == chain[..n] + [chain[n]];
      if Spaced(interval, chain[..n]) {
        SpacedStep(interval, chain[..n], chain[n]);
      }
    }
  }

  lemma SpacedSoFar(interval: Interval, chain: seq<Block>, n: nat)
    requires n <= |chain|
    ensures Spaced(interval, chain) ==> Spaced(interval, chain[..n])
  {
    hide Slot;
  }

  lemma SlotsGrow(interval: Interval, s: nat, t: nat)
    requires s <= t
    ensures Slot(interval, s) <= Slot(interval, t)
  {
    var p, q := Slot(interval, s), Slot(interval, t);
    if q < p {
      Widens(interval, q, p);
    }
  }

  /** No block is earlier than its parent. */
  ghost predicate Ordered(chain: seq<Block>) {
    forall k :: 0 < k < |chain| ==> chain[k - 1].time <= chain[k].time
  }

  /** If no block is earlier than its parent, no interval has two blocks that generate. */
  lemma OnePerSlot(h: Hashing, interval: Interval, chain: seq<Block>)
    requires Grown(h, interval, chain) && Ordered(chain)
    ensures Spaced(interval, chain)
  {
    hide Slot, Latest, Grown, Generated, Spaced;
    forall k | 0 < k < |chain| ensures InTime(interval, chain[..k], chain[k]) {
      SlotsGrow(interval, chain[k - 1].time, chain[k].time);
      assert chain[..k][k - 1] == chain[k - 1];
    }
    SpacedExactly(h, interval, chain);
  }

  /** Otherwise an interval can see two: here block 2 is back in the interval block 1 has left. */
  lemma TwoInOneSlot(h: Hashing) returns (chain: seq<Block>)
    ensures Grown(h, 300, chain) && |chain| == 3 && chain[0].generated && chain[2].generated
    ensures Slot(300, chain[0].time) == Slot(300, chain[2].time) && !Spaced(300, chain)
  {
    hide Latest, Zero, Follows, ByHash, WellFormed;
    var b0 := Block(0, 0, false, 0, false, true, Zero());
    var b1 := Block(1, 300, false, 0, false, false, Zero());
    assert Slot(300, 0) == 0 && Slot(300, 10) == 0 && Slot(300, 300) == 1;
    hide Slot;
    StartTwo(h, 300, b0, b1);
    OwnIndex([b0, b1]);
    var m := ModifierExists(h, 300, [b0, b1], ByHash([b0, b1]), Zero());
    var b2 := Block(2, 10, false, 0, false, true, m);
    LatestIs([b0, b1], 0);
    assert Produced(h, 300, [b0, b1], b2);
    GrownLonger(h, 300, [b0, b1], b2);
    chain := [b0, b1] + [b2];
    hide Grown;
    assert chain[0] == b0 && chain[2] == b2;
  }

  /** A genesis block and a second one that generates nothing. */
  lemma StartTwo(h: Hashing, interval: Interval, b0: Block, b1: Block)
    requires b0.generated && b0.modifier == Zero() && !b1.generated && b1.modifier == Zero()
    ensures Grown(h, interval, [b0, b1])
  {
    hide Latest, Zero, Follows, ByHash, Slot;
    assert Grown(h, interval, []);
    assert Produced(h, interval, [], b0);
    GrownLonger(h, interval, [], b0);
    assert [] + [b0] == [b0];
    LatestIs([b0], 0);
    assert Produced(h, interval, [b0], b1);
    GrownLonger(h, interval, [b0], b1);
    assert [b0] + [b1] == [b0, b1];
  }

  /** And a block may be earlier than its parent and no harm done. */
  lemma EarlyButOnce(h: Hashing) returns (chain: seq<Block>)
    ensures Grown(h, 300, chain) && !Ordered(chain) && Spaced(300, chain)
  {
    hide Latest, Zero, Follows, ByHash, WellFormed;
    var b0 := Block(0, 0, false, 0, false, true, Zero());
    var b1 := Block(1, 5, false, 0, false, false, Zero());
    var b2 := Block(2, 3, false, 0, false, false, Zero());
    assert Slot(300, 0) == 0 && Slot(300, 5) == 0;
    hide Slot;
    StartTwo(h, 300, b0, b1);
    LatestIs([b0, b1], 0);
    assert Produced(h, 300, [b0, b1], b2);
    GrownLonger(h, 300, [b0, b1], b2);
    chain := [b0, b1] + [b2];
    hide Grown;
    assert chain[1] == b1 && chain[2] == b2;
  }
}
