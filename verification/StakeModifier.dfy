/** The last modifier, the candidates, and the rounds that pick one candidate each. */
module StakeModifier {
  import opened Sequences
  import opened StakeInterval
  import opened StakeSelect

  // ----- The last modifier -----

  /** Block `g` of the chain generated the modifier that is current at its end. */
  ghost predicate Current(chain: seq<Block>, g: nat) {
    g < |chain| && chain[g].generated && forall k :: g < k < |chain| ==> !chain[k].generated
  }

  ghost predicate Generated(chain: seq<Block>) {
    exists k :: 0 <= k < |chain| && chain[k].generated
  }

  /** That block. */
  ghost function Latest(chain: seq<Block>): (g: nat)
    requires Generated(chain)
    ensures Current(chain, g)
  {
    var n := |chain| - 1;
    if chain[n].generated then n
    else
      assert Generated(chain[..n]) by {
        var k :| 0 <= k < |chain| && chain[k].generated;
        assert chain[..n][k].generated;
      }
      Latest(chain[..n])
  }

  lemma LatestIs(chain: seq<Block>, g: nat)
    requires Current(chain, g)
    ensures Generated(chain) && Latest(chain) == g
  {
    hide Latest;
  }

  /** `GetLastStakeModifier`, from the last block of the chain. */
  method LastModifier(chain: seq<Block>) returns (ok: bool, modifier: Modifier, time: nat)
    ensures ok <==> Generated(chain)
    ensures ok ==> modifier == chain[Latest(chain)].modifier && time == chain[Latest(chain)].time
  {
    hide Latest;
    ok, modifier, time := false, seq(64, _ => false), 0;
    if |chain| == 0 {
      return;
    }
    var i := |chain| - 1;
    while i > 0 && !chain[i].generated
      invariant 0 <= i < |chain|
      invariant forall k :: i < k < |chain| ==> !chain[k].generated
    {
      i := i - 1;
    }
    if !chain[i].generated {
      return;
    }
    LatestIs(chain, i);
    ok, modifier, time := true, chain[i].modifier, chain[i].time;
  }

  // ----- Candidates -----

  function ItemOf(b: Block): Item {
    Item(b.time, b.hash)
  }

  function Items(blocks: seq<Block>): seq<Item> {
    seq(|blocks|, k requires 0 <= k < |blocks| => ItemOf(blocks[k]))
  }

  /** The candidates are the blocks from `c` on: the longest end of the chain without a block before `start`. */
  ghost predicate FirstCandidate(chain: seq<Block>, start: int, c: nat) {
    && c <= |chain|
    && (forall k :: c <= k < |chain| ==> chain[k].time >= start)
    && (c > 0 ==> chain[c - 1].time < start)
  }

  /** Where the candidates begin. */
  ghost function Since(chain: seq<Block>, start: int): (c: nat)
    ensures FirstCandidate(chain, start, c)
  {
    var n := |chain| - 1;
    if |chain| == 0 || chain[n].time < start then |chain| else Since(chain[..n], start)
  }

  lemma SinceIs(chain: seq<Block>, start: int, c: nat)
    requires FirstCandidate(chain, start, c)
    ensures Since(chain, start) == c
  {
    hide Since;
  }

  predicate Before(a: Item, b: Item) {
    a.time < b.time || (a.time == b.time && a.hash <= b.hash)
  }

  ghost predicate Sorted(items: seq<Item>) {
    forall j, k :: 0 <= j <= k < |items| ==> Before(items[j], items[k])
  }

  /** Insertion into a sorted list. */
  function Insert(x: Item, items: seq<Item>): seq<Item> {
    if |items| == 0 || Before(x, items[0]) then [x] + items else [items[0]] + Insert(x, items[1..])
  }

  function Sort(items: seq<Item>): seq<Item> {
    if |items| == 0 then [] else Insert(items[0], Sort(items[1..]))
  }

  lemma {:induction false} InsertSorted(x: Item, items: seq<Item>)
    requires Sorted(items)
    ensures Sorted(Insert(x, items))
    ensures multiset(Insert(x, items)) == multiset(items) + multiset{x}
  {
    if |items| == 0 || Before(x, items[0]) {
      assert Insert(x, items) == [x] + items;
    } else {
      InsertSorted(x, items[1..]);
      var rest := Insert(x, items[1..]);
      assert items == [items[0]] + items[1..];
      forall k | 0 <= k < |rest| ensures Before(items[0], rest[k]) {
        assert rest[k] in multiset(rest);
        if rest[k] != x {
          assert rest[k] in items[1..];
        }
      }
    }
  }

  /** `sort`: by time, then by hash. */
  lemma {:induction false} SortSorts(items: seq<Item>)
    ensures Sorted(Sort(items)) && multiset(Sort(items)) == multiset(items)
  {
    if |items| > 0 {
      SortSorts(items[1..]);
      InsertSorted(items[0], Sort(items[1..]));
      assert items == [items[0]] + items[1..];
    }
  }

  /** A permutation has the same members, and as many. */
  lemma SortKeeps(items: seq<Item>)
    ensures |Sort(items)| == |items| && ByTime(Sort(items))
    ensures forall x :: x in Sort(items) <==> x in items
    ensures forall j, k :: 0 <= j < k < |items| ==>
              var x, y := Sort(items)[j], Sort(items)[k];
              x.time < y.time || (x.time == y.time && x.hash <= y.hash)
  {
    SortSorts(items);
    hide Sort;
    assert |multiset(items)| == |multiset(Sort(items))|;
    forall x ensures x in Sort(items) <==> x in items {
      assert x in Sort(items) <==> x in multiset(Sort(items));
      assert x in items <==> x in multiset(items);
    }
  }

  /** The blocks of a chain are indexed under different hashes. */
  ghost predicate WellFormed(chain: seq<Block>, index: map<Hash, Block>) {
    && (forall k :: 0 <= k < |chain| ==> chain[k].hash in index && index[chain[k].hash] == chain[k])
    && (forall j, k :: 0 <= j < k < |chain| ==> chain[j].hash != chain[k].hash)
  }

  lemma CandidatesIndexed(chain: seq<Block>, index: map<Hash, Block>, c: nat)
    requires WellFormed(chain, index) && c <= |chain|
    ensures Indexed(index, Sort(Items(chain[c..])))
  {
    var items := Items(chain[c..]);
    SortKeeps(items);
    hide Sort;
    forall k | 0 <= k < |Sort(items)|
      ensures Sort(items)[k].hash in index && index[Sort(items)[k].hash].hash == Sort(items)[k].hash
      ensures index[Sort(items)[k].hash].time == Sort(items)[k].time
    {
      var x := Sort(items)[k];
      assert x in Sort(items);
      assert x in items;
      var i :| 0 <= i < |items| && items[i] == x;
      assert items[i] == ItemOf(chain[c + i]);
    }
  }

  // ----- Distinct picks -----

  function Hashes(blocks: seq<Block>): set<Hash> {
    set b | b in blocks :: b.hash
  }

  ghost predicate Distinct(blocks: seq<Block>) {
    forall j, k :: 0 <= j < k < |blocks| ==> blocks[j].hash != blocks[k].hash
  }

  lemma {:induction false} DistinctCount(blocks: seq<Block>)
    requires Distinct(blocks)
    ensures |Hashes(blocks)| == |blocks|
  {
    if |blocks| > 0 {
      var last := blocks[|blocks| - 1];
      var init := blocks[..|blocks| - 1];
      DistinctCount(init);
      assert blocks == init + [last];
      assert Hashes(blocks) == Hashes(init) + {last.hash};
      assert last.hash !in Hashes(init);
    }
  }

  /** With fewer blocks selected than there are candidates, one is free. */
  lemma SomeFree(candidates: seq<Block>, selected: map<Hash, Block>)
    requires Distinct(candidates) && |selected| < |candidates|
    ensures exists k :: 0 <= k < |Sort(Items(candidates))| && Free(Sort(Items(candidates)), selected, k)
  {
    var items := Items(candidates);
    SortKeeps(items);
    DistinctCount(candidates);
    hide Sort;
    assert |selected.Keys| == |selected|;
    if Hashes(candidates) <= selected.Keys {
      SubsetSize(Hashes(candidates), selected.Keys);
    } else {
      var x: Hash :| x in Hashes(candidates) && x !in selected.Keys;
      var i :| 0 <= i < |candidates| && candidates[i].hash == x;
      assert items[i] in items;
      var k :| 0 <= k < |Sort(items)| && Sort(items)[k] == items[i];
      assert Free(Sort(items), selected, k);
    }
  }

  // ----- Rounds -----

  /** These blocks by their hashes, as in `mapSelectedBlocks` or in a block index. */
  function ByHash(picks: seq<Block>): map<Hash, Block> {
    if |picks| == 0 then map[]
    else var n := |picks| - 1; ByHash(picks[..n])[picks[n].hash := picks[n]]
  }

  /** The r-th pick is the best candidate of round r, given the picks before it. */
  ghost predicate Picked(h: Hashing, prev: Modifier, index: map<Hash, Block>, items: seq<Item>, interval: Interval,
                         start: int, picks: seq<Block>)
    requires Indexed(index, items)
  {
    |picks| == 0 ||
    var n := |picks| - 1;
    && n < 64
    && Picked(h, prev, index, items, interval, start, picks[..n])
    && exists k: nat ::
         PickAt(h, prev, index, items, ByHash(picks[..n]), Stop(interval, start, n), k, picks[n])
  }

  /** `nSelectionIntervalStop` in round `r`. */
  function Stop(interval: Interval, start: int, r: nat): int
    requires r < 64
  {
    start + Sections(interval, r + 1)
  }

  /** Block `b` is the best candidate of a round, at place `k`. */
  ghost predicate PickAt(h: Hashing, prev: Modifier, index: map<Hash, Block>, items: seq<Item>,
                         selected: map<Hash, Block>, stop: int, k: nat, b: Block)
    requires Indexed(index, items)
  {
    Best(h, prev, index, items, selected, stop, k) && b == index[items[k].hash]
  }

  /** Bit r is the entropy bit of pick r. */
  ghost predicate Bits(modifier: Modifier, picks: seq<Block>)
    requires |picks| <= 64
  {
    && (forall r :: 0 <= r < |picks| ==> modifier[r] == picks[r].entropy)
    && (forall r :: |picks| <= r < 64 ==> !modifier[r])
  }

  lemma {:induction false} ChosenHashes(picks: seq<Block>)
    ensures ByHash(picks).Keys == Hashes(picks)
  {
    if |picks| > 0 {
      var n := |picks| - 1;
      ChosenHashes(picks[..n]);
      assert picks == picks[..n] + [picks[n]];
      assert Hashes(picks) == Hashes(picks[..n]) + {picks[n].hash};
    }
  }

  /** A new pick differs from all before it. */
  lemma PickDiffers(index: map<Hash, Block>, items: seq<Item>, picks: seq<Block>, k: nat)
    requires Indexed(index, items) && Distinct(picks) && k < |items| && Free(items, ByHash(picks), k)
    ensures Distinct(picks + [index[items[k].hash]])
  {
    ChosenHashes(picks);
    hide ByHash;
    var b := index[items[k].hash];
    forall j | 0 <= j < |picks| ensures picks[j].hash != b.hash {
      assert picks[j] in picks;
      assert picks[j].hash in Hashes(picks);
    }
  }

  /** The rounds: min(64, n) different blocks are picked, one a round. */
  method PickAll(h: Hashing, prev: Modifier, index: map<Hash, Block>, items: seq<Item>, interval: Interval, start: int,
                 ghost candidates: seq<Block>)
    returns (ok: bool, modifier: Modifier, ghost picks: seq<Block>)
    requires items == Sort(Items(candidates))
    ensures Indexed(index, items) && Distinct(candidates) ==> ok
    ensures Indexed(index, items) && ok ==>
              && |picks| == (if |items| < 64 then |items| else 64)
              && Picked(h, prev, index, items, interval, start, picks)
              && Distinct(picks)
              && Bits(modifier, picks)
  {
    SortKeeps(Items(candidates));
    hide Sort, Best, Hashes, Indexed, ByTime, Picked, Distinct, Free;
    modifier := seq(64, _ => false);
    picks := [];
    NoPicks(h, prev, index, items, interval, start);
    var selected: map<Hash, Block> := map[];
    var stop := start;
    var rounds := if |items| < 64 then |items| else 64;
    for r := 0 to rounds
      invariant |picks| == r <= 64 && stop == start + Sections(interval, r)
      invariant Indexed(index, items) ==>
                  && selected == ByHash(picks)
                  && Picked(h, prev, index, items, interval, start, picks)
                  && Distinct(picks)
      invariant Bits(modifier, picks)
    {
      stop := stop + Section(interval, r);
      if Indexed(index, items) && Distinct(candidates) {
        FewChosen(picks);
        SomeFree(candidates, selected);
      }
      var choice;
      ghost var k;
      choice, k := Select(h, prev, index, items, selected, stop);
      if choice.None? {
        ok := false;
        return;
      }
      if Indexed(index, items) {
        BestIsFree(h, prev, index, items, selected, stop, k);
        NextPick(h, prev, index, items, interval, start, picks, k);
      }
      modifier := modifier[r := modifier[r] || choice.value.entropy];
      selected := selected[choice.value.hash := choice.value];
      ghost var before := picks;
      picks := picks + [choice.value];
      assert picks[..r] == before;
    }
    ok := true;
  }

  lemma NoPicks(h: Hashing, prev: Modifier, index: map<Hash, Block>, items: seq<Item>, interval: Interval, start: int)
    ensures Indexed(index, items) ==> Picked(h, prev, index, items, interval, start, [])
    ensures Distinct([])
  {
  }

  lemma FewChosen(picks: seq<Block>)
    requires Distinct(picks)
    ensures |ByHash(picks)| == |picks|
  {
    ChosenHashes(picks);
    DistinctCount(picks);
    assert |ByHash(picks).Keys| == |ByHash(picks)|;
  }

  lemma NextPick(h: Hashing, prev: Modifier, index: map<Hash, Block>, items: seq<Item>, interval: Interval, start: int,
                 picks: seq<Block>, k: nat)
    requires Indexed(index, items) && |picks| < 64 && Picked(h, prev, index, items, interval, start, picks)
    requires Distinct(picks)
    requires k < |items| && items[k].hash in index
    requires Best(h, prev, index, items, ByHash(picks), Stop(interval, start, |picks|), k)
    ensures var next := picks + [index[items[k].hash]];
            Picked(h, prev, index, items, interval, start, next) && Distinct(next)
  {
    hide Indexed, Distinct, Picked, ByHash;
    BestIsFree(h, prev, index, items, ByHash(picks), Stop(interval, start, |picks|), k);
    PickDiffers(index, items, picks, k);
    NextPicked(h, prev, index, items, interval, start, picks, k);
  }

  lemma BestIsFree(h: Hashing, prev: Modifier, index: map<Hash, Block>, items: seq<Item>, selected: map<Hash, Block>,
                   stop: int, k: nat)
    requires Indexed(index, items) && Best(h, prev, index, items, selected, stop, k)
    ensures k < |items| && Free(items, selected, k) && items[k].hash in index
  {
  }

  lemma NextPicked(h: Hashing, prev: Modifier, index: map<Hash, Block>, items: seq<Item>, interval: Interval,
                   start: int, picks: seq<Block>, k: nat)
    requires Indexed(index, items) && |picks| < 64 && Picked(h, prev, index, items, interval, start, picks)
    requires k < |items| && items[k].hash in index
    requires Best(h, prev, index, items, ByHash(picks), Stop(interval, start, |picks|), k)
    ensures Picked(h, prev, index, items, interval, start, picks + [index[items[k].hash]])
  {
    hide Best, Indexed, ByHash, Sections;
    var b := index[items[k].hash];
    var next := picks + [b];
    assert next[..|picks|] == picks;
    assert next[|picks|] == b;
    assert PickAt(h, prev, index, items, ByHash(next[..|picks|]), Stop(interval, start, |picks|), k, next[|picks|]);
  }
}
