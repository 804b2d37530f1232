/** `ComputeNextStakeModifier` and `GetKernelStakeModifier`. */
module StakeChain {
  import opened Arithmetic
  import opened Sequences
  import opened StakeInterval
  import opened StakeSelect
  import opened StakeModifier

  /** The number of the interval a time lies in. */
  function Slot(interval: Interval, time: nat): nat {
    Quotient(time, interval)
  }

  /** The beginning of that interval. */
  function Aligned(interval: Interval, time: nat): nat {
    interval * Slot(interval, time)
  }

  /** A time lies in its interval, which begins at a multiple of the length. */
  lemma SlotExactly(interval: Interval, time: nat, k: nat)
    ensures Aligned(interval, time) <= time < Aligned(interval, time) + interval
    ensures k == Slot(interval, time) <==> interval * k <= time < interval * k + interval
    ensures Aligned(interval, time) == interval * Slot(interval, time)
  {
    var q := Slot(interval, time);
    if k < q {
      Widens(interval, k, q);
    } else if q < k {
      Widens(interval, q, k);
    }
  }

  /** `nSelectionIntervalStart` for a chain that ends at `time`. */
  function Start(interval: Interval, time: nat): int {
    Aligned(interval, time) - Sections(interval, 64)
  }

  /** The stop of a round never passes the aligned time, and the 64th reaches it. */
  lemma StopBound(interval: Interval, time: nat, r: nat)
    requires r < 64
    ensures Stop(interval, Start(interval, time), r) <= Aligned(interval, time) <= time
    ensures r == 63 ==> Stop(interval, Start(interval, time), r) == Aligned(interval, time)
  {
    SectionsIncrease(interval, r + 1, 64);
  }

  /** The walk back over the candidates, and their order restored. */
  method Collect(chain: seq<Block>, start: int) returns (items: seq<Item>)
    ensures items == Items(chain[Since(chain, start)..])
  {
    hide Since;
    items := [];
    var i := |chain|;
    assert chain[i..] == [];
    while i > 0 && chain[i - 1].time >= start
      invariant 0 <= i <= |chain|
      invariant forall k :: i <= k < |chain| ==> chain[k].time >= start
      invariant items == Reversed(Items(chain[i..]))
    {
      i := i - 1;
      assert chain[i..] == [chain[i]] + chain[i + 1..];
      assert Items(chain[i..]) == [ItemOf(chain[i])] + Items(chain[i + 1..]);
      items := items + [ItemOf(chain[i])];
    }
    SinceIs(chain, start, i);
    ReversedTwice(Items(chain[i..]));
    items := Reversed(items);
  }

  /** What the block after a chain gets: a modifier, and whether it is a new one. */
  datatype Next = Next(modifier: Modifier, generated: bool)

  function Zero(): Modifier {
    seq(64, _ => false)
  }

  /** A new interval has begun since the current modifier was generated. */
  ghost predicate Due(interval: Interval, chain: seq<Block>)
    requires Generated(chain)
  {
    Slot(interval, chain[Latest(chain)].time) < Slot(interval, chain[|chain| - 1].time)
  }

  /** A modifier made of the picks of 64 rounds, or of as many rounds as there are candidates. */
  ghost predicate FromPicks(h: Hashing, interval: Interval, chain: seq<Block>, index: map<Hash, Block>,
                            prev: Modifier, modifier: Modifier, picks: seq<Block>)
    requires |chain| > 0
  {
    var start := Start(interval, chain[|chain| - 1].time);
    var candidates := chain[Since(chain, start)..];
    var items := Sort(Items(candidates));
    && Indexed(index, items)
    && |picks| == (if |candidates| < 64 then |candidates| else 64)
    && Picked(h, prev, index, items, interval, start, picks)
    && Distinct(picks)
    && Bits(modifier, picks)
  }

  /** The modifier that follows `prev` at the end of the chain. */
  ghost predicate Follows(h: Hashing, interval: Interval, chain: seq<Block>, index: map<Hash, Block>, prev: Modifier,
                          modifier: Modifier)
    requires |chain| > 0
  {
    exists picks :: FromPicks(h, interval, chain, index, prev, modifier, picks)
  }

  /** The second half: collect, sort, pick. */
  method Generate(h: Hashing, interval: Interval, chain: seq<Block>, index: map<Hash, Block>, prev: Modifier)
    returns (ok: bool, modifier: Modifier)
    requires |chain| > 0
    ensures WellFormed(chain, index) ==> ok && Follows(h, interval, chain, index, prev, modifier)
  {
    hide Sort, Indexed, Picked, Bits, Since, Aligned, WellFormed, Distinct, Items, FirstCandidate;
    var total := SelectionInterval(interval);
    var start := Aligned(interval, chain[|chain| - 1].time) - total;
    var items := Collect(chain, start);
    ghost var c := Since(chain, start);
    CandidatesFit(chain, start, c);
    SortKeeps(items);
    if WellFormed(chain, index) {
      CandidatesIndexed(chain, index, c);
      CandidatesDistinct(chain, index, c);
      ItemsCount(chain[c..]);
    }
    ghost var picks;
    ok, modifier, picks := PickAll(h, prev, index, Sort(items), interval, start, chain[c..]);
    assert WellFormed(chain, index) ==> FromPicks(h, interval, chain, index, prev, modifier, picks);
  }

  lemma ItemsCount(blocks: seq<Block>)
    ensures |Items(blocks)| == |blocks|
  {
  }

  /** `ComputeNextStakeModifier`. */
  method ComputeNext(h: Hashing, interval: Interval, chain: seq<Block>, index: map<Hash, Block>)
    returns (ok: bool, next: Next)
    ensures |chain| == 0 ==> ok && next.generated && forall r :: 0 <= r < 64 ==> !next.modifier[r]
    ensures |chain| > 0 && ok ==> Generated(chain) && next.generated == Due(interval, chain)
    ensures |chain| > 0 && ok && !next.generated ==> next.modifier == chain[Latest(chain)].modifier
    ensures |chain| > 0 && ok && next.generated && WellFormed(chain, index) ==>
              Follows(h, interval, chain, index, chain[Latest(chain)].modifier, next.modifier)
    ensures |chain| > 0 && WellFormed(chain, index) ==> (ok <==> Generated(chain))
  {
    hide Follows, Generated, Slot, WellFormed, Latest, Current;
    next := Next(Zero(), false);
    if |chain| == 0 {
      return true, Next(Zero(), true);
    }
    var prev, time;
    ok, prev, time := LastModifier(chain);
    if !ok {
      return;
    }
    LatestFits(chain);
    next := Next(prev, false);
    if Slot(interval, time) >= Slot(interval, chain[|chain| - 1].time) {
      return;
    }
    var modifier;
    ok, modifier := Generate(h, interval, chain, index, prev);
    if ok {
      next := Next(modifier, true);
    }
  }

  lemma LatestFits(chain: seq<Block>)
    requires Generated(chain)
    ensures Latest(chain) < |chain|
  {
    hide Latest;
  }

  lemma CandidatesFit(chain: seq<Block>, start: int, c: nat)
    requires FirstCandidate(chain, start, c)
    ensures c <= |chain|
  {
  }

  lemma CandidatesDistinct(chain: seq<Block>, index: map<Hash, Block>, c: nat)
    requires WellFormed(chain, index) && c <= |chain|
    ensures Distinct(chain[c..])
  {
  }

  // ----- The modifier of a kernel -----

  /** Block `j` is the first one after block 0 that generates a modifier a selection interval later. */
  ghost predicate KernelAt(interval: Interval, forward: seq<Block>, j: nat) {
    && 0 < j < |forward|
    && forward[j].generated
    && forward[j].time >= forward[0].time + Sections(interval, 64)
    && forall k :: 0 < k < j && forward[k].generated ==> forward[k].time < forward[0].time + Sections(interval, 64)
  }

  lemma IntervalPositive(interval: Interval)
    ensures Sections(interval, 64) > 0
  {
    LastSection(interval);
    assert Sections(interval, 64) == Sections(interval, 63) + Section(interval, 63);
  }

  /** `GetKernelStakeModifier`: `following` gives for every indexed block itself and its successors. */
  method KernelModifier(interval: Interval, following: map<Hash, seq<Block>>, from: Hash)
    returns (ok: bool, modifier: Modifier, at: nat, time: nat)
    requires forall x :: x in following ==> |following[x]| > 0
    ensures ok <==> from in following && exists j :: KernelAt(interval, following[from], j)
    ensures ok ==> KernelAt(interval, following[from], at)
    ensures ok ==> modifier == following[from][at].modifier && time == following[from][at].time
  {
    hide Sections;
    ok, modifier, at, time := false, Zero(), 0, 0;
    if from !in following {
      return;
    }
    var forward := following[from];
    time := forward[0].time;
    var total := SelectionInterval(interval);
    IntervalPositive(interval);
    var i := 0;
    while time < forward[0].time + total
      invariant i < |forward| && at <= i && time == forward[at].time
      invariant forall k :: 0 < k < i && forward[k].generated ==> forward[k].time < forward[0].time + total
      invariant i > 0 && forward[i].generated ==> at == i
      invariant at < i ==> time < forward[0].time + total
      invariant at > 0 ==> forward[at].generated
      decreases |forward| - i
    {
      if i + 1 == |forward| {
        ok := false;
        return;
      }
      i := i + 1;
      if forward[i].generated {
        at, time := i, forward[i].time;
      }
    }
    ok, modifier := true, forward[i].modifier;
    assert KernelAt(interval, forward, at);
  }
}
