/** The choice of one block among the candidates of a round. */
module StakeSelect {
  import opened Sequences

  type Hash = nat

  /** 64 bits, lowest first. */
  type Modifier = m: seq<bool> | |m| == 64 witness seq(64, _ => false)

  /** What the modifier needs to know of a block index entry. */
  datatype Block = Block(hash: Hash, time: nat, stake: bool, proof: Hash, entropy: bool, generated: bool,
      modifier: Modifier)

  /** A candidate in the sorted list. */
  datatype Item = Item(time: nat, hash: Hash)

  /** The hash of a proof and the previous modifier. */
  datatype Hashing = Hashing(apply: (Hash, Modifier) -> nat)

  /** `hashSelection`: divided by 2^32 for a proof-of-stake block. */
  function Selection(h: Hashing, prev: Modifier, b: Block): nat {
    if b.stake then h.apply(b.proof, prev) / 0x1_0000_0000 else h.apply(b.hash, prev)
  }

  /** What the division is for: a proof-of-stake block goes before a proof-of-work block exactly if its full
      hash is below 2^32 times the other's; among proof-of-work blocks the full hashes decide. */
  lemma StakeFirst(h: Hashing, prev: Modifier, b: Block, c: Block)
    ensures b.stake && !c.stake ==>
              && (Selection(h, prev, b) < Selection(h, prev, c) <==>
                    h.apply(b.proof, prev) < 0x1_0000_0000 * h.apply(c.hash, prev))
              && (Selection(h, prev, c) < Selection(h, prev, b) <==>
                    0x1_0000_0000 * (h.apply(c.hash, prev) + 1) <= h.apply(b.proof, prev))
    ensures b.stake && c.stake ==>
              (Selection(h, prev, b) < Selection(h, prev, c) <==>
                 exists q: nat :: h.apply(b.proof, prev) < 0x1_0000_0000 * q <= h.apply(c.proof, prev))
    ensures !b.stake && !c.stake ==>
              (Selection(h, prev, b) < Selection(h, prev, c) <==> h.apply(b.hash, prev) < h.apply(c.hash, prev))
  {
    if b.stake && c.stake {
      var x, y := h.apply(b.proof, prev), h.apply(c.proof, prev);
      if x / 0x1_0000_0000 < y / 0x1_0000_0000 {
        var q := y / 0x1_0000_0000;
        assert x < 0x1_0000_0000 * q <= y;
      }
    }
  }

  /** So it is favoured whatever its own 256-bit hash exactly if the other's is at least 2^224, not always. */
  lemma AlwaysFirst(work: nat)
    ensures (forall x: nat :: x < LIMIT ==> x / 0x1_0000_0000 < work) <==> work >= LIMIT / 0x1_0000_0000
  {
    if work < LIMIT / 0x1_0000_0000 {
      var x: nat := 0x1_0000_0000 * work;
      assert x < LIMIT && x / 0x1_0000_0000 == work;
    } else {
      forall x: nat | x < LIMIT ensures x / 0x1_0000_0000 < work {
      }
    }
  }

  /** 2^256. */
  const LIMIT: nat := 0x1_0000_0000_0000_0000_0000_0000_0000_0000_0000_0000_0000_0000_0000_0000_0000_0000

  /** Every candidate is in the index, with its own time and hash. */
  ghost predicate Indexed(index: map<Hash, Block>, items: seq<Item>) {
    forall k :: 0 <= k < |items| ==>
      && items[k].hash in index
      && index[items[k].hash].hash == items[k].hash
      && index[items[k].hash].time == items[k].time
  }

  ghost predicate ByTime(items: seq<Item>) {
    forall j, k :: 0 <= j <= k < |items| ==> items[j].time <= items[k].time
  }

  /** A candidate that may be chosen. */
  predicate Free(items: seq<Item>, selected: map<Hash, Block>, k: nat)
    requires k < |items|
  {
    items[k].hash !in selected
  }

  /** Candidate `k` is the free one with the least selection hash among those up to `stop`, the
      earliest of equals; or, if none of those is free, the first free one. */
  ghost predicate Best(h: Hashing, prev: Modifier, index: map<Hash, Block>, items: seq<Item>,
                       selected: map<Hash, Block>, stop: int, k: nat)
    requires Indexed(index, items)
  {
    && k < |items|
    && Free(items, selected, k)
    && (items[k].time > stop ==>
          forall j :: 0 <= j < |items| && Free(items, selected, j) ==> k <= j && items[j].time > stop)
    && (items[k].time <= stop ==>
          forall j :: 0 <= j < |items| && Free(items, selected, j) && items[j].time <= stop ==>
            && Selection(h, prev, index[items[k].hash]) <= Selection(h, prev, index[items[j].hash])
            && (j < k ==> Selection(h, prev, index[items[k].hash]) < Selection(h, prev, index[items[j].hash])))
  }

  /** The candidates before `n` have been looked at, and `k` is the best of them. */
  ghost predicate BestSoFar(h: Hashing, prev: Modifier, index: map<Hash, Block>, items: seq<Item>,
                            selected: map<Hash, Block>, stop: int, n: nat, k: nat)
    requires Indexed(index, items)
  {
    && k < n <= |items|
    && Free(items, selected, k)
    && (items[n - 1].time <= stop || (n - 1 == k && forall j :: 0 <= j < k ==> !Free(items, selected, j)))
    && forall j :: 0 <= j < n && Free(items, selected, j) ==>
         && Selection(h, prev, index[items[k].hash]) <= Selection(h, prev, index[items[j].hash])
         && (j < k ==> Selection(h, prev, index[items[k].hash]) < Selection(h, prev, index[items[j].hash]))
  }

  /** Nothing after `n` is early enough: the best so far is the best. */
  lemma BestStays(h: Hashing, prev: Modifier, index: map<Hash, Block>, items: seq<Item>,
                  selected: map<Hash, Block>, stop: int, n: nat, k: nat)
    requires Indexed(index, items) && ByTime(items) && BestSoFar(h, prev, index, items, selected, stop, n, k)
    requires n == |items| || items[n].time > stop
    ensures Best(h, prev, index, items, selected, stop, k)
  {
    hide Selection, Indexed;
    if items[k].time > stop {
      assert items[k].time <= items[n - 1].time;
    }
  }

  /** The best candidate is determined. */
  lemma BestIsUnique(h: Hashing, prev: Modifier, index: map<Hash, Block>, items: seq<Item>,
                     selected: map<Hash, Block>, stop: int, j: nat, k: nat)
    requires Indexed(index, items)
    requires Best(h, prev, index, items, selected, stop, j) && Best(h, prev, index, items, selected, stop, k)
    ensures j == k
  {
  }

  /** `SelectBlockFromCandidates`: on an indexed list it fails only if every candidate has been selected. */
  method Select(h: Hashing, prev: Modifier, index: map<Hash, Block>, items: seq<Item>, selected: map<Hash, Block>,
                stop: int)
    returns (choice: Option<Block>, ghost k: nat)
    requires ByTime(items)
    ensures Indexed(index, items) ==> (choice.None? <==> forall j :: 0 <= j < |items| ==> !Free(items, selected, j))
    ensures Indexed(index, items) && choice.Some? ==>
              Best(h, prev, index, items, selected, stop, k) && choice.value == index[items[k].hash]
  {
    hide Selection, ByTime, Best;
    choice := None;
    k := 0;
    var best := 0;
    var n := 0;
    while n < |items|
      invariant n <= |items|
      invariant Indexed(index, items) && choice.None? ==> forall j :: 0 <= j < n ==> !Free(items, selected, j)
      invariant Indexed(index, items) && choice.Some? ==>
                  && BestSoFar(h, prev, index, items, selected, stop, n, k)
                  && choice.value == index[items[k].hash]
                  && best == Selection(h, prev, choice.value)
    {
      var item := items[n];
      if item.hash !in index {
        return None, 0;
      }
      var b := index[item.hash];
      if choice.Some? && b.time > stop {
        break;
      }
      if b.hash !in selected {
        var sel := Selection(h, prev, b);
        if choice.None? || sel < best {
          best, choice, k := sel, Some(b), n;
        }
      }
      n := n + 1;
    }
    if choice.Some? && Indexed(index, items) {
      BestStays(h, prev, index, items, selected, stop, n, k);
    }
  }
}
