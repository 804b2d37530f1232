/**
 What one announcement and one success change, field by field: the contracts of `Add_` and `Good_`
 in terms of the tables before and after.
 */
module AddrChanges {
  import opened AddrTables
  import opened Ordering
  import opened TriedShuffle

  function ToUint32(x: int): Uint32 {
    x % 0x1_0000_0000
  }

  function Max(x: int, y: int): int {
    if x < y then y else x
  }

  // ----- Who makes way in a full new bucket -----

  ghost predicate NoneTerrible(info: map<int, Info>, ids: seq<int>, now: int)
    requires forall j :: 0 <= j < |ids| ==> ids[j] in info
  {
    forall j :: 0 <= j < |ids| ==> !IsTerrible(info[ids[j]], now)
  }

  /** `victim` is the first of `ids` whose statistics are terrible. */
  ghost predicate FirstTerrible(info: map<int, Info>, ids: seq<int>, now: int, victim: int)
    requires forall j :: 0 <= j < |ids| ==> ids[j] in info
  {
    exists k :: 0 <= k < |ids| && ids[k] == victim && IsTerrible(info[victim], now)
                && forall j :: 0 <= j < k ==> !IsTerrible(info[ids[j]], now)
  }

  /** Of the sampled positions of `ids`, `victim` is the first one with the least time. */
  ghost predicate OldestSampled(info: map<int, Info>, ids: seq<int>, picks: set<int>, victim: int)
    requires forall j :: 0 <= j < |ids| ==> ids[j] in info
  {
    exists k :: && k in picks && 0 <= k < |ids| && ids[k] == victim
                && forall j :: j in picks && 0 <= j < |ids| ==>
                     && info[victim].time <= info[ids[j]].time
                     && (j < k ==> info[victim].time < info[ids[j]].time)
  }

  /** At most four positions were drawn, and `victim` is the oldest entry at them. */
  ghost predicate Sampled(info: map<int, Info>, ids: seq<int>, picks: set<int>, victim: int)
    requires forall j :: 0 <= j < |ids| ==> ids[j] in info
  {
    && |picks| <= 4 && (forall j :: j in picks ==> 0 <= j < |ids|)
    && OldestSampled(info, ids, picks, victim)
  }

  /** The first entry with terrible statistics makes way, else the oldest of at most four sampled ones. */
  ghost predicate MakesWay(info: map<int, Info>, bucket: set<int>, now: int, victim: int) {
    var ids := Ascending(bucket);
    && victim in bucket
    && (forall j :: 0 <= j < |ids| ==> ids[j] in info)
    && (FirstTerrible(info, ids, now, victim)
        || (NoneTerrible(info, ids, now) && exists picks :: Sampled(info, ids, picks, victim)))
  }

  /** That depends on the entries of the bucket only. */
  lemma MakesWaySame(info: map<int, Info>, other: map<int, Info>, bucket: set<int>, now: int, victim: int)
    requires MakesWay(info, bucket, now, victim)
    requires forall n :: n in bucket ==> n in info && n in other && other[n] == info[n]
    ensures MakesWay(other, bucket, now, victim)
  {
    hide IsTerrible;
    var ids := Ascending(bucket);
    forall j | 0 <= j < |ids| ensures ids[j] in other && other[ids[j]] == info[ids[j]] {
      assert ids[j] in ids;
    }
    if FirstTerrible(info, ids, now, victim) {
      assert FirstTerrible(other, ids, now, victim);
    } else {
      var picks :| Sampled(info, ids, picks, victim);
      assert Sampled(other, ids, picks, victim);
    }
  }

  // ----- An announcement -----

  /** The time after an announcement: an hour is news of a node that is online, otherwise a day. */
  function RefreshedTime(i: Info, a: Address, penalty: int, now: int): Uint32 {
    var interval := if now - a.time < 24 * 60 * 60 then 60 * 60 else 24 * 60 * 60;
    if a.time != 0 && (i.time == 0 || i.time < a.time - interval - penalty)
    then ToUint32(Max(0, a.time - penalty)) else i.time
  }

  /** The entry after an announcement of its address. */
  function Refreshed(i: Info, a: Address, penalty: int, now: int): Info {
    i.(time := RefreshedTime(i, a, penalty, now), services := i.services + a.services)
  }

  /** An announcement carries news and its address may still gain a reference. */
  predicate WantsMore(i: Info, a: Address) {
    && a.time != 0 && (i.time == 0 || a.time > i.time)
    && !i.inTried && i.refCount != NEW_BUCKETS_PER_ADDRESS
  }

  /** Apart from `n` the entries of `u` are those of `t`, save that `victim` has one reference less and is
      gone if that was its last. */
  ghost predicate OthersKept(t: Tables, u: Tables, n: int, victim: int) {
    && (forall m :: m != n ==> (m in u.info <==> m in t.info && !(m == victim && t.info[m].refCount == 1)))
    && (forall m :: m != n && m in u.info && m in t.info ==>
          u.info[m] == t.info[m].(randomPos := u.info[m].randomPos,
                                  refCount := t.info[m].refCount - if m == victim then 1 else 0))
  }

  /** From `t` to `u` entry `n` came into new bucket `b`, where `victim` made way if the bucket was full;
      nothing else changed but random positions. */
  ghost predicate CameIn(t: Tables, u: Tables, n: int, b: nat, now: int, victim: int)
    requires b < |t.untried|
  {
    && n !in t.untried[b]
    && u.key == t.key && u.tried == t.tried && u.nTried == t.nTried
    && if |t.untried[b]| == NEW_BUCKET_SIZE
       then
         && MakesWay(t.info, t.untried[b], now, victim)
         && u.untried == t.untried[b := t.untried[b] - {victim} + {n}]
         && OthersKept(t, u, n, victim)
       else
         && u.untried == t.untried[b := t.untried[b] + {n}]
         && OthersKept(t, u, n, n)
  }

  /** The entry of an announced address after it came in for the first time. */
  ghost predicate NewEntry(i: Info, a: Address, source: NetAddr, penalty: int) {
    && i.service.ip == a.service.ip && i.service.port == a.service.port && i.services == a.services
    && i.source == source
    && i.time == (if a.time - penalty < 0 then 0 else a.time - penalty) % 0x1_0000_0000
    && i.lastSuccess == 0 && i.lastTry == 0 && i.attempts == 0
    && i.refCount == 1 && !i.inTried
  }

  /** The entry of an address that was known: new services join the old ones, the time follows the
      announcement if that is far enough ahead, and the references grow by `more`. */
  ghost predicate KnownEntry(i: Info, j: Info, a: Address, penalty: int, now: int, more: nat) {
    && j.service == i.service && j.source == i.source && j.inTried == i.inTried
    && j.lastSuccess == i.lastSuccess && j.lastTry == i.lastTry && j.attempts == i.attempts
    && j.services == i.services + a.services
    && j.time == RefreshedTime(i, a, penalty, now)
    && j.refCount == i.refCount + more
  }

  /** The announcement has news for an entry that may still gain a reference, and the coin agrees. */
  predicate Gains(i: Info, a: Address, penalty: int, now: int, coin: int) {
    var time := RefreshedTime(i, a, penalty, now);
    && a.time != 0 && (time == 0 || a.time > time)
    && !i.inTried && i.refCount != NEW_BUCKETS_PER_ADDRESS && coin == 0
  }

  /** `Add_` for an address that has no entry: a new one comes into the bucket for its source. */
  ghost predicate Introduced(net: Net, t: Tables, u: Tables, a: Address, source: NetAddr, penalty: int, now: int,
                             victim: int)
    requires |t.untried| == NEW_BUCKET_COUNT
  {
    var n, b := t.idCount, NewBucket(net, t.key, a.service, source);
    && n !in t.info && n in u.info && u.idCount == n + 1
    && a.service.ip in u.addr && u.addr[a.service.ip] == n
    && NewEntry(u.info[n], a, source, penalty)
    && CameIn(t, u, n, b, now, victim)
    && (forall c :: 0 <= c < |u.untried| ==> (n in u.untried[c] <==> c == b))
  }

  /** `Add_` for an address with entry `n`: the entry is refreshed and perhaps comes into one more bucket. */
  ghost predicate Renewed(net: Net, t: Tables, u: Tables, n: int, a: Address, source: NetAddr, penalty: int, now: int,
                          coin: int, victim: int)
    requires n in t.info && |t.untried| == NEW_BUCKET_COUNT
  {
    var b := NewBucket(net, t.key, t.info[n].service, source);
    var more := Gains(t.info[n], a, penalty, now, coin) && n !in t.untried[b];
    && n in u.info && KnownEntry(t.info[n], u.info[n], a, penalty, now, Bit(more))
    && if more then CameIn(t, u, n, b, now, victim) && u.idCount == t.idCount
       else u == t.(info := t.info[n := u.info[n]]) && u.info[n].randomPos == t.info[n].randomPos
  }

  /** Dropping a reference leaves all other entries alone but for random positions. */
  lemma DropKeepsOthers(t: Tables, b: nat, n: int)
    requires RandomIndexed(t) && b < |t.untried| && n in t.info
    ensures forall m :: m in Dropped(t, b, n).info <==> m in t.info && !(m == n && t.info[m].refCount == 1)
    ensures forall m :: m in Dropped(t, b, n).info ==>
              Dropped(t, b, n).info[m] == t.info[m].(randomPos := Dropped(t, b, n).info[m].randomPos,
                                                     refCount := t.info[m].refCount - if m == n then 1 else 0)
    ensures Dropped(t, b, n).untried == t.untried[b := t.untried[b] - {n}]
    ensures Dropped(t, b, n).key == t.key && Dropped(t, b, n).tried == t.tried && Dropped(t, b, n).nTried == t.nTried
    ensures Dropped(t, b, n).idCount == t.idCount
  {
    if t.info[n].refCount == 1 {
      DroppedLast(t, b, n);
      hide Dropped, RandomIndexed;
    }
  }

  /** What `Placed` does, spelled out. */
  lemma PlacedCameIn(t: Tables, u: Tables, n: int, b: nat, now: int, victim: int)
    requires n in t.info && RandomIndexed(t) && b < |t.untried| && n !in t.untried[b]
    requires |t.untried[b]| == NEW_BUCKET_SIZE ==> victim in t.info && MakesWay(t.info, t.untried[b], now, victim)
    requires u == Placed(t, n, b, victim)
    ensures CameIn(t, u, n, b, now, victim) && u.idCount == t.idCount
    ensures n in u.info && u.info[n] == t.info[n].(randomPos := u.info[n].randomPos, refCount := t.info[n].refCount + 1)
  {
    hide MakesWay, RandomIndexed, OthersKept;
    var r := Referred(t, n);
    SameIndexRandom(t, r);
    if |t.untried[b]| == NEW_BUCKET_SIZE {
      MakesWayIn(t.info, t.untried[b], now, victim);
      DropKeepsOthers(r, b, victim);
      hide Dropped;
      var d := Dropped(r, b, victim);
      assert u == Seated(d, b, n);
      OthersDropped(t, d, n, victim);
      OthersOfInfo(t, d, u, n, victim);
    } else {
      OthersReferred(t, u, n);
    }
  }

  lemma OthersOfInfo(t: Tables, d: Tables, u: Tables, n: int, victim: int)
    requires OthersKept(t, d, n, victim) && u.info == d.info
    ensures OthersKept(t, u, n, victim)
  {
  }

  lemma OthersReferred(t: Tables, u: Tables, n: int)
    requires n in t.info && u.info == Referred(t, n).info
    ensures OthersKept(t, u, n, n)
  {
  }

  lemma OthersDropped(t: Tables, d: Tables, n: int, victim: int)
    requires n in t.info && victim in t.info && victim != n
    requires var r := Referred(t, n);
             && (forall m :: m in d.info <==> m in r.info && !(m == victim && r.info[m].refCount == 1))
             && (forall m :: m in d.info ==>
                   d.info[m] == r.info[m].(randomPos := d.info[m].randomPos,
                                           refCount := r.info[m].refCount - if m == victim then 1 else 0))
    ensures OthersKept(t, d, n, victim)
    ensures n in d.info && d.info[n] == t.info[n].(randomPos := d.info[n].randomPos, refCount := t.info[n].refCount + 1)
  {
    var r := Referred(t, n);
    assert n in r.info;
    forall m | m != n ensures m in d.info <==> m in t.info && !(m == victim && t.info[m].refCount == 1) {
      assert m in d.info <==> m in r.info && !(m == victim && r.info[m].refCount == 1);
    }
  }

  lemma MakesWayIn(info: map<int, Info>, bucket: set<int>, now: int, victim: int)
    requires MakesWay(info, bucket, now, victim)
    ensures victim in bucket
  {
  }

  /** Only the announced entry differs before it comes in. */
  lemma CameInSame(t: Tables, r: Tables, u: Tables, n: int, b: nat, now: int, victim: int)
    requires r.untried == t.untried && r.key == t.key && r.tried == t.tried && r.nTried == t.nTried
    requires forall m :: m != n ==> (m in r.info <==> m in t.info)
    requires forall m :: m != n && m in t.info ==> r.info[m] == t.info[m]
    requires forall m :: b < |t.untried| && m in t.untried[b] ==> m in t.info
    requires b < |t.untried| && CameIn(r, u, n, b, now, victim)
    ensures CameIn(t, u, n, b, now, victim)
  {
    hide MakesWay, OthersKept;
    if |t.untried[b]| == NEW_BUCKET_SIZE {
      forall m | m in t.untried[b] ensures m in r.info && m in t.info && t.info[m] == r.info[m] {
      }
      MakesWaySame(r.info, t.info, t.untried[b], now, victim);
      OthersSame(t, r, u, n, victim);
    } else {
      OthersSame(t, r, u, n, n);
    }
  }

  lemma OthersSame(t: Tables, r: Tables, u: Tables, n: int, victim: int)
    requires forall m :: m != n ==> (m in r.info <==> m in t.info)
    requires forall m :: m != n && m in t.info ==> r.info[m] == t.info[m]
    requires OthersKept(r, u, n, victim)
    ensures OthersKept(t, u, n, victim)
  {
    forall m | m != n ensures m in u.info <==> m in t.info && !(m == victim && t.info[m].refCount == 1) {
      assert m in u.info <==> m in r.info && !(m == victim && r.info[m].refCount == 1);
    }
  }

  // ----- A success -----

  /** From `t` to `u` entry `n`, which was in new bucket `origin`, left the new buckets for its tried bucket.
      If that was full, it was shuffled by `draws` and the entry at the position that follows from them went
      back to its own new bucket, or to `origin` if its own had no room. No entry but these two changed. */
  ghost predicate BecameTried(net: Net, t: Tables, u: Tables, n: int, origin: nat, draws: seq<int>)
    requires n in t.info && |t.tried| == TRIED_BUCKET_COUNT && |t.untried| == NEW_BUCKET_COUNT
  {
    var k := TriedBucket(net, t.key, t.info[n].service);
    var bucket := t.tried[k];
    && origin < |t.untried| && n in t.untried[origin]
    && u.addr == t.addr && u.random == t.random && u.key == t.key && u.idCount == t.idCount
    && SameKeys(t, u)
    && if |bucket| < TRIED_BUCKET_SIZE
       then
         && u.tried == t.tried[k := bucket + [n]]
         && u.untried == WithoutId(t.untried, n)
         && u.nNew == t.nNew - 1 && u.nTried == t.nTried + 1
         && (forall m :: m in t.info && m != n ==> u.info[m] == t.info[m])
       else
         && Known(t.info, bucket) && Draws(bucket, draws) && |draws| == Inspected(bucket)
         && u.nNew == t.nNew && u.nTried == t.nTried
         && Replaced(net, t, u, n, origin, k, Shuffle(bucket, draws), Position(t.info, bucket, draws))
  }

  /** The entry at `pos` of the shuffled bucket `k` was replaced by `n`. */
  ghost predicate Replaced(net: Net, t: Tables, u: Tables, n: int, origin: nat, k: nat, order: seq<int>, pos: nat)
    requires k < |t.tried| && pos < |order| && |t.untried| == NEW_BUCKET_COUNT && SameKeys(t, u)
  {
    var v := order[pos];
    && v in t.info && v != n && t.info[v].inTried
    && u.tried == t.tried[k := order[pos := n]]
    && u.info[v] == t.info[v].(inTried := false, refCount := 1)
    && (forall m :: m in t.info && m != n && m != v ==> u.info[m] == t.info[m])
    && var own := NewBucket(net, t.key, t.info[v].service, t.info[v].source);
       var dest := if |t.untried[own] - {n}| < NEW_BUCKET_SIZE then own else origin;
       && |u.untried| == |t.untried|
       && (forall b :: 0 <= b < |t.untried| ==>
             u.untried[b] == t.untried[b] - {n} + if b == dest then {v} else {})
  }

  lemma MovedBecameTried(net: Net, t: Tables, u: Tables, n: int, origin: nat, order: seq<int>, pos: int,
                         draws: seq<int>)
    requires n in t.info && Bounded(t) && TriedPlaced(net, t) && !t.info[n].inTried
    requires origin < |t.untried| && n in t.untried[origin] && Moved(net, t, u, n, origin, order, pos)
    requires var bucket := t.tried[TriedBucket(net, t.key, t.info[n].service)];
             |bucket| >= TRIED_BUCKET_SIZE ==>
               && Known(t.info, bucket) && Draws(bucket, draws) && |draws| == Inspected(bucket)
               && order == Shuffle(bucket, draws) && pos == Position(t.info, bucket, draws)
    ensures BecameTried(net, t, u, n, origin, draws)
    ensures n in u.info && u.info[n] == t.info[n].(inTried := true, refCount := 0)
  {
    hide Shuffle, Position, Distinct, Known, Draws, Replaced, Displaced, Reordered, Refuge, Cleared;
    var k := TriedBucket(net, t.key, t.info[n].service);
    if |t.tried[k]| >= TRIED_BUCKET_SIZE {
      TriedMember(net, t, k, order, pos);
      DisplacedReplaced(net, t, u, n, origin, k, order, pos);
    } else {
      SettledOnly(t, u, n, k);
    }
  }

  lemma SettledOnly(t: Tables, u: Tables, n: int, k: nat)
    requires n in t.info && k < |t.tried| && u == Settled(Cleared(t, n), n, k)
    ensures u.tried == t.tried[k := t.tried[k] + [n]] && u.untried == WithoutId(t.untried, n)
    ensures u.nNew == t.nNew - 1 && u.nTried == t.nTried + 1
    ensures u.addr == t.addr && u.random == t.random && u.key == t.key && u.idCount == t.idCount && SameKeys(t, u)
    ensures u.info == t.info[n := t.info[n].(inTried := true, refCount := 0)]
  {
  }

  lemma DisplacedReplaced(net: Net, t: Tables, u: Tables, n: int, origin: nat, k: nat, order: seq<int>, pos: nat)
    requires n in t.info && k < |t.tried| && pos < |order| && |t.untried| == NEW_BUCKET_COUNT && origin < |t.untried|
    requires order[pos] in t.info && t.info[order[pos]].inTried && !t.info[n].inTried
    requires var c := Cleared(t, n);
             u == Displaced(Reordered(c, k, order), n, k, pos, Refuge(net, c, order[pos], origin))
    ensures SameKeys(t, u) && Replaced(net, t, u, n, origin, k, order, pos)
    ensures u.nNew == t.nNew && u.nTried == t.nTried
    ensures u.addr == t.addr && u.random == t.random && u.key == t.key && u.idCount == t.idCount
    ensures u.info[n] == t.info[n].(inTried := true, refCount := 0)
  {
    hide NewBucket;
    var c := Cleared(t, n);
    var dest := Refuge(net, c, order[pos], origin);
    RefugeExactly(net, t, n, order[pos], origin);
    hide Refuge;
    DisplacedFields(t, u, n, k, order, pos, dest);
  }

  lemma RefugeExactly(net: Net, t: Tables, n: int, v: int, origin: nat)
    requires n in t.info && v in t.info && v != n && |t.untried| == NEW_BUCKET_COUNT && origin < |t.untried|
    ensures var own := NewBucket(net, t.key, t.info[v].service, t.info[v].source);
            Refuge(net, Cleared(t, n), v, origin)
            == if |t.untried[own] - {n}| < NEW_BUCKET_SIZE then own else origin
  {
    hide NewBucket;
  }

  lemma DisplacedFields(t: Tables, u: Tables, n: int, k: nat, order: seq<int>, pos: nat, dest: nat)
    requires n in t.info && k < |t.tried| && pos < |order| && dest < |t.untried|
    requires order[pos] in t.info && order[pos] != n
    requires u == Displaced(Reordered(Cleared(t, n), k, order), n, k, pos, dest)
    ensures SameKeys(t, u) && u.tried == t.tried[k := order[pos := n]] && |u.untried| == |t.untried|
    ensures u.info == t.info[order[pos] := t.info[order[pos]].(inTried := false, refCount := 1)]
                            [n := t.info[n].(inTried := true, refCount := 0)]
    ensures forall b :: 0 <= b < |t.untried| ==>
              u.untried[b] == t.untried[b] - {n} + if b == dest then {order[pos]} else {}
    ensures u.nNew == t.nNew && u.nTried == t.nTried
    ensures u.addr == t.addr && u.random == t.random && u.key == t.key && u.idCount == t.idCount
  {
    var c := Cleared(t, n);
    assert c.untried == WithoutId(t.untried, n);
  }

  lemma TriedMember(net: Net, t: Tables, k: nat, order: seq<int>, pos: nat)
    requires TriedPlaced(net, t) && k < |t.tried| && multiset(order) == multiset(t.tried[k]) && pos < |order|
    ensures order[pos] in t.info && t.info[order[pos]].inTried
  {
    assert order[pos] in multiset(t.tried[k]);
    var i :| 0 <= i < |t.tried[k]| && t.tried[k][i] == order[pos];
  }

  /** The times of `n` itself do not matter. */
  lemma BecameTriedStamped(net: Net, t: Tables, r: Tables, u: Tables, n: int, origin: nat, draws: seq<int>)
    requires n in t.info && n in r.info && r == t.(info := t.info[n := r.info[n]])
    requires r.info[n].service == t.info[n].service && !t.info[n].inTried && TriedPlaced(net, t)
    requires |t.untried| == NEW_BUCKET_COUNT && BecameTried(net, r, u, n, origin, draws)
    ensures BecameTried(net, t, u, n, origin, draws)
  {
    hide Shuffle, Position, Found, Draws;
    var k := TriedBucket(net, t.key, t.info[n].service);
    var bucket := t.tried[k];
    if |bucket| >= TRIED_BUCKET_SIZE {
      forall j | 0 <= j < |bucket| ensures bucket[j] != n && bucket[j] in t.info {
      }
      SamePosition(r.info, t.info, bucket, draws);
      var v := Shuffle(bucket, draws)[Position(t.info, bucket, draws)];
      assert v != n;
    }
  }
}
