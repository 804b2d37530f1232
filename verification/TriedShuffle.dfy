/**
 The choice of an entry to evict from a tried bucket, as a function of its random draws: when the
 position it returns is that of the entry it found.
 */
module TriedShuffle {
  import opened AddrTables

  ghost predicate Known(info: map<int, Info>, ids: seq<int>) {
    forall j :: 0 <= j < |ids| ==> ids[j] in info && ids[j] >= 0
  }

  /** Position `step` has the least recent success among the first `m` positions, the first of equals. */
  ghost predicate LeastRecent(info: map<int, Info>, bucket: seq<int>, m: int, step: int)
    requires Known(info, bucket)
  {
    && 0 <= step < |bucket| && step < m
    && (forall j :: 0 <= j < m && j < |bucket| ==> info[bucket[step]].lastSuccess <= info[bucket[j]].lastSuccess)
    && (forall j :: 0 <= j < step ==> info[bucket[step]].lastSuccess < info[bucket[j]].lastSuccess)
  }

  /** Draw i is a position from i on. */
  ghost predicate Draws(b: seq<int>, draws: seq<int>) {
    |draws| <= |b| && forall i :: 0 <= i < |draws| ==> i <= draws[i] < |b|
  }

  /** How many entries are inspected. */
  function Inspected(b: seq<int>): nat {
    if |b| < TRIED_ENTRIES_INSPECT_ON_EVICT then |b| else TRIED_ENTRIES_INSPECT_ON_EVICT
  }

  /** The entries at `i` and `p` change places. */
  function Swap(b: seq<int>, i: nat, p: nat): (r: seq<int>)
    requires i < |b| && p < |b|
    ensures |r| == |b|
  {
    b[p := b[i]][i := b[p]]
  }

  /** The bucket after these draws. */
  ghost function Shuffle(b: seq<int>, draws: seq<int>): (r: seq<int>)
    requires Draws(b, draws)
    ensures |r| == |b|
  {
    if |draws| == 0 then b
    else var i := |draws| - 1; Swap(Shuffle(b, draws[..i]), i, draws[i])
  }

  lemma SwapInBucket(s: seq<int>, i: nat, p: nat)
    requires i < |s| && p < |s|
    ensures multiset(Swap(s, i, p)) == multiset(s)
    ensures Distinct(s) ==> Distinct(Swap(s, i, p))
  {
  }

  lemma SwapKnown(info: map<int, Info>, s: seq<int>, i: nat, p: nat)
    requires i < |s| && p < |s| && Known(info, s)
    ensures Known(info, Swap(s, i, p))
  {
  }

  lemma {:induction false} ShuffleStep(b: seq<int>, draws: seq<int>)
    requires Draws(b, draws) && |draws| > 0
    ensures var i := |draws| - 1;
            && Draws(b, draws[..i])
            && i <= draws[i] < |b|
            && Shuffle(b, draws) == Swap(Shuffle(b, draws[..i]), i, draws[i])
  {
    hide Swap;
  }

  lemma {:induction false} ShuffleKeeps(info: map<int, Info>, b: seq<int>, draws: seq<int>)
    requires Draws(b, draws)
    ensures multiset(Shuffle(b, draws)) == multiset(b)
    ensures Distinct(b) ==> Distinct(Shuffle(b, draws))
    ensures Known(info, b) ==> Known(info, Shuffle(b, draws))
  {
    if |draws| > 0 {
      ShuffleStep(b, draws);
      hide Shuffle, Distinct, Known, Swap, Draws;
      var i := |draws| - 1;
      ShuffleKeeps(info, b, draws[..i]);
      SwapInBucket(Shuffle(b, draws[..i]), i, draws[i]);
      if Known(info, b) {
        SwapKnown(info, Shuffle(b, draws[..i]), i, draws[i]);
      }
    }
  }

  /** The draw that found the least recently successful entry, the first of equals. */
  ghost function Found(info: map<int, Info>, b: seq<int>, draws: seq<int>): (step: nat)
    requires Draws(b, draws) && |draws| > 0 && Known(info, b)
    ensures step < |draws|
  {
    var i := |draws| - 1;
    if i == 0 then 0
    else
      var s := Found(info, b, draws[..i]);
      ShuffleKeeps(info, b, draws);
      var r := Shuffle(b, draws);
      if info[r[i]].lastSuccess < info[r[s]].lastSuccess then i else s
  }

  /** The position that is returned: where that draw took its entry from. */
  ghost function Position(info: map<int, Info>, b: seq<int>, draws: seq<int>): (pos: nat)
    requires Draws(b, draws) && |draws| > 0 && Known(info, b)
    ensures pos < |b|
  {
    draws[Found(info, b, draws)]
  }

  /** Later draws leave the entries at earlier positions alone. */
  lemma DrawnStays(b: seq<int>, draws: seq<int>, j: nat)
    requires Draws(b, draws) && j < |draws| - 1
    ensures Shuffle(b, draws)[j] == Shuffle(b, draws[..|draws| - 1])[j]
  {
  }

  lemma {:induction false} FoundIsLeast(info: map<int, Info>, b: seq<int>, draws: seq<int>)
    requires Draws(b, draws) && |draws| > 0 && Known(info, b)
    ensures Known(info, Shuffle(b, draws))
    ensures LeastRecent(info, Shuffle(b, draws), |draws|, Found(info, b, draws))
  {
    ShuffleKeeps(info, b, draws);
    var i := |draws| - 1;
    if i > 0 {
      FoundIsLeast(info, b, draws[..i]);
      forall j: nat | j < i ensures Shuffle(b, draws)[j] == Shuffle(b, draws[..i])[j] {
        DrawnStays(b, draws, j);
      }
    }
  }

  /** The entries of `s` had their last success at the same times. */
  ghost predicate SameSuccess(info: map<int, Info>, other: map<int, Info>, s: seq<int>) {
    forall j :: 0 <= j < |s| ==>
      s[j] in info && s[j] in other && other[s[j]].lastSuccess == info[s[j]].lastSuccess
  }

  lemma {:induction false} ShuffleSameSuccess(info: map<int, Info>, other: map<int, Info>, b: seq<int>, draws: seq<int>)
    requires Draws(b, draws) && SameSuccess(info, other, b)
    ensures SameSuccess(info, other, Shuffle(b, draws))
  {
    if |draws| > 0 {
      ShuffleStep(b, draws);
      ShuffleSameSuccess(info, other, b, draws[..|draws| - 1]);
      hide Shuffle;
    }
  }

  /** Nothing but those times matters. */
  lemma {:induction false} SamePosition(info: map<int, Info>, other: map<int, Info>, b: seq<int>, draws: seq<int>)
    requires Draws(b, draws) && |draws| > 0 && Known(info, b) && SameSuccess(info, other, b)
    ensures Known(other, b) && Found(other, b, draws) == Found(info, b, draws)
    ensures Position(other, b, draws) == Position(info, b, draws)
  {
    hide Shuffle;
    ShuffleSameSuccess(info, other, b, draws);
    if |draws| > 1 {
      SamePosition(info, other, b, draws[..|draws| - 1]);
    }
  }

  lemma NoDraws(b: seq<int>)
    ensures Draws(b, []) && Shuffle(b, []) == b
  {
  }

  /** One more draw. */
  lemma NextDraw(info: map<int, Info>, b: seq<int>, draws: seq<int>, p: nat)
    requires Draws(b, draws) && |draws| <= p < |b| && Known(info, b)
    ensures var i, r := |draws|, Shuffle(b, draws);
            var next := draws + [p];
            && Draws(b, next)
            && Shuffle(b, next) == r[p := r[i]][i := r[p]]
            && Known(info, r) && Known(info, Shuffle(b, next))
            && Found(info, b, next) ==
               (if i == 0 || info[r[p]].lastSuccess < info[r[Found(info, b, draws)]].lastSuccess then i
                else Found(info, b, draws))
            && (i > 0 ==> Shuffle(b, next)[Found(info, b, draws)] == r[Found(info, b, draws)])
  {
    var next := draws + [p];
    assert next[..|draws|] == draws;
    ShuffleKeeps(info, b, draws);
    ShuffleKeeps(info, b, next);
  }

  /** The returned position holds the entry that was found. */
  ghost predicate Right(info: map<int, Info>, b: seq<int>, draws: seq<int>)
    requires Draws(b, draws) && |draws| > 0 && Known(info, b)
  {
    var r := Shuffle(b, draws);
    r[Position(info, b, draws)] == r[Found(info, b, draws)]
  }

  /** That is so exactly if the draw that found it left it where it was. */
  lemma RightExactly(info: map<int, Info>, b: seq<int>, draws: seq<int>)
    requires Draws(b, draws) && |draws| > 0 && Known(info, b) && Distinct(b)
    ensures Right(info, b, draws) <==> draws[Found(info, b, draws)] == Found(info, b, draws)
  {
    hide Shuffle, Found;
    ShuffleKeeps(info, b, draws);
  }

  // ----- Before the draws are known -----

  /** Draws that move nothing change nothing. */
  lemma {:induction false} InPlace(b: seq<int>, draws: seq<int>, k: nat)
    requires Draws(b, draws) && k <= |draws| && forall i :: k <= i < |draws| ==> draws[i] == i
    ensures Draws(b, draws[..k]) && Shuffle(b, draws) == Shuffle(b, draws[..k])
    decreases |draws|
  {
    if k < |draws| {
      var i := |draws| - 1;
      InPlace(b, draws[..i], k);
      assert draws[..i][..k] == draws[..k];
    } else {
      assert draws[..k] == draws;
    }
  }

  /** The first draw takes `p`, all others move nothing. */
  ghost function First(p: nat, m: nat): (draws: seq<int>)
    ensures |draws| == m
  {
    seq(m, i => if i == 0 then p else i)
  }

  lemma FirstSwaps(b: seq<int>, p: nat)
    requires 0 < p < |b|
    ensures Draws(b, First(p, Inspected(b))) && Shuffle(b, First(p, Inspected(b))) == Swap(b, 0, p)
  {
    var draws := First(p, Inspected(b));
    InPlace(b, draws, 1);
    assert Shuffle(b, draws[..1]) == Swap(Shuffle(b, draws[..1][..0]), 0, p);
  }

  /** An entry behind the first that is no more recent than any other can be missed. */
  lemma MissLater(info: map<int, Info>, b: seq<int>, p: nat)
    requires Known(info, b) && Distinct(b) && 0 < p < |b|
    requires forall j :: 0 <= j < |b| ==> info[b[p]].lastSuccess <= info[b[j]].lastSuccess
    ensures var draws := First(p, Inspected(b));
            Draws(b, draws) && Found(info, b, draws) == 0 && !Right(info, b, draws)
  {
    hide Shuffle, Found, Right;
    var draws := First(p, Inspected(b));
    FirstSwaps(b, p);
    FoundIsLeast(info, b, draws);
    assert Shuffle(b, draws)[0] == b[p];
    assert Found(info, b, draws) == 0;
    RightExactly(info, b, draws);
  }

  /** Position 2 is drawn twice, all else moves nothing. */
  ghost function Twice(m: nat): (draws: seq<int>)
    ensures |draws| == m
  {
    seq(m, i => if i < 2 then 2 else i)
  }

  lemma TwiceSwaps(b: seq<int>)
    requires |b| >= 3
    ensures Draws(b, Twice(Inspected(b))) && Shuffle(b, Twice(Inspected(b))) == Swap(Swap(b, 0, 2), 1, 2)
  {
    hide Shuffle, Swap;
    var draws := Twice(Inspected(b));
    InPlace(b, draws, 2);
    ShuffleStep(b, draws[..2]);
    assert draws[..2][..1] == draws[..1];
    ShuffleStep(b, draws[..1]);
    NoDraws(b);
    assert draws[..1][..0] == [];
  }

  /** If the first entry is strictly the least recent of three or more, it can be missed. */
  lemma MissFirst(info: map<int, Info>, b: seq<int>)
    requires Known(info, b) && Distinct(b) && |b| >= 3
    requires forall j :: 0 < j < |b| ==> info[b[0]].lastSuccess < info[b[j]].lastSuccess
    ensures var draws := Twice(Inspected(b)); Draws(b, draws) && !Right(info, b, draws)
  {
    hide Shuffle, Found, Right;
    var draws := Twice(Inspected(b));
    TwiceSwaps(b);
    FoundIsLeast(info, b, draws);
    var r := Shuffle(b, draws);
    assert r[0] == b[2] && r[1] == b[0];
    assert Found(info, b, draws) == 1;
    RightExactly(info, b, draws);
  }

  /** Whatever the draws. */
  ghost predicate AlwaysRight(info: map<int, Info>, b: seq<int>)
    requires Known(info, b)
  {
    forall draws :: Draws(b, draws) && 0 < |draws| == Inspected(b) ==> Right(info, b, draws)
  }

  /** At most one entry, or two of which the first is strictly the less recently successful. */
  predicate Safe(info: map<int, Info>, b: seq<int>)
    requires |b| == 2 ==> b[0] in info && b[1] in info
  {
    |b| <= 1 || (|b| == 2 && info[b[0]].lastSuccess < info[b[1]].lastSuccess)
  }

  lemma SafeIsRight(info: map<int, Info>, b: seq<int>, draws: seq<int>)
    requires Known(info, b) && Distinct(b) && Safe(info, b)
    requires Draws(b, draws) && 0 < |draws| == Inspected(b)
    ensures Right(info, b, draws)
  {
    RightExactly(info, b, draws);
    FoundIsLeast(info, b, draws);
    hide Found, Right;
    if |b| == 2 && draws[0] == 1 {
      assert draws[..1][..0] == [];
      assert Shuffle(b, draws[..1]) == Swap(b, 0, 1);
      assert Shuffle(b, draws)[1] == b[0];
    }
  }

  /** The least recent entry of a bucket, the first of equals. */
  lemma {:induction false} Minimum(info: map<int, Info>, b: seq<int>) returns (p: nat)
    requires Known(info, b) && |b| > 0
    ensures LeastRecent(info, b, |b|, p)
  {
    if |b| == 1 {
      p := 0;
    } else {
      var n := |b| - 1;
      var q := Minimum(info, b[..n]);
      p := if info[b[n]].lastSuccess < info[b[q]].lastSuccess then n else q;
    }
  }

  /** The position is right for all draws exactly in those cases; so a full bucket can always miss. */
  lemma AlwaysRightExactly(info: map<int, Info>, b: seq<int>)
    requires Known(info, b) && Distinct(b)
    ensures AlwaysRight(info, b) <==> Safe(info, b)
  {
    hide Shuffle, Found, Right;
    if Safe(info, b) {
      forall draws | Draws(b, draws) && 0 < |draws| == Inspected(b) ensures Right(info, b, draws) {
        SafeIsRight(info, b, draws);
      }
    } else {
      var p := Minimum(info, b);
      if exists q :: 0 < q < |b| && info[b[q]].lastSuccess == info[b[p]].lastSuccess {
        var q :| 0 < q < |b| && info[b[q]].lastSuccess == info[b[p]].lastSuccess;
        MissLater(info, b, q);
      } else {
        MissFirst(info, b);
      }
    }
  }

  /** A full bucket of successful entries, the second one the least recent: the draws 1, 1, 2, 3 find it
      and return position 1, which by then holds the first one. */
  lemma FullBucketMiss() returns (info: map<int, Info>, b: seq<int>)
    ensures |b| == TRIED_BUCKET_SIZE && Known(info, b) && Distinct(b)
    ensures forall j :: 0 <= j < |b| ==> info[b[j]].lastSuccess > 0
    ensures var draws := [1, 1, 2, 3];
            && Draws(b, draws) && |draws| == Inspected(b)
            && Shuffle(b, draws)[Found(info, b, draws)] == b[1]
            && Position(info, b, draws) == 1 && Shuffle(b, draws)[1] == b[0]
  {
    hide Shuffle, Found, Right;
    b := seq(TRIED_BUCKET_SIZE, i => i);
    info := map n | 0 <= n < TRIED_BUCKET_SIZE ::
      Info(Service([], n), {}, 0, [], if n == 1 then 1 else 2, 2, 0, 0, true, n);
    assert First(1, Inspected(b)) == [1, 1, 2, 3];
    FirstSwaps(b, 1);
    MissLater(info, b, 1);
  }
}
