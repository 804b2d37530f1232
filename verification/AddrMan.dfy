/**
 The address manager itself: the class whose methods update the six indexes in place.

 Every method keeps `Valid()`, the invariant of `AddrTables`, for every random choice and
 every clock value; random draws are nondeterministic, clocks are parameters.
 */
module AddrMan {
  import opened AddrChanges
  import opened AddrTables
  import opened Arithmetic
  import opened Ordering
  import opened PeersFile
  import opened PeersRebuild
  import opened Sequences
  import opened TriedShuffle

  /** One request to the manager; `now` is what the adjusted clock reads meanwhile. */
  datatype Request =
    | AddRequest(a: Address, source: NetAddr, penalty: int, now: int)
    | GoodRequest(s: Service, time: int)
    | AttemptRequest(s: Service, time: int)
    | ConnectedRequest(s: Service, time: int)
    | GetAddrRequest

  /** A success is stamped with a time after 1970, a try with one not before it. */
  predicate Timely(q: Request) {
    match q
    case GoodRequest(_, time) => time > 0
    case AttemptRequest(_, time) => time >= 0
    case _ => true
  }

  method GetRandInt(n: int) returns (r: int)
    requires n >= 0
    ensures if n == 0 then r == 0 else 0 <= r < n
  {
    if n == 0 {
      r := 0;
    } else {
      r :| 0 <= r < n;
    }
  }

  class AddrMan {
    const net: Net
    var key: Bytes
    var idCount: int
    var info: map<int, Info>
    var addr: map<NetAddr, int>
    var random: seq<int>
    var nTried: int
    var tried: seq<seq<int>>
    var nNew: int
    var untried: seq<set<int>>

    ghost function State(): Tables
      reads this
    {
      Tables(key, idCount, info, addr, random, nTried, tried, nNew, untried)
    }

    ghost predicate Valid()
      reads this
    {
      Inv(net, State())
    }

    constructor (net: Net, key: Bytes)
      ensures Valid() && this.net == net && this.key == key
      ensures info == map[] && addr == map[] && random == []
    {
      this.net := net;
      this.key := key;
      idCount, nTried, nNew := 0, 0, 0;
      info, addr, random := map[], map[], [];
      tried := seq(TRIED_BUCKET_COUNT, _ => []);
      untried := seq(NEW_BUCKET_COUNT, _ => {});
      new;
      assert TriedIds(State()) == {} && NewIds(State()) == {};
    }

    /** The id of an address; with the invariant it is found exactly if some entry has that address. */
    function Find(a: NetAddr): (r: Option<int>)
      reads this
      ensures r.Some? ==> r.value in info && a in addr && addr[a] == r.value
      ensures Valid() ==> (r.Some? <==> exists n :: n in info && info[n].service.ip == a)
      ensures Valid() && r.Some? ==> info[r.value].service.ip == a
    {
      if a in addr && addr[a] in info then Some(addr[a]) else None
    }

    method Create(a: Address, source: NetAddr) returns (n: int)
      modifies this
      ensures State() == Created(old(State()), a, source) && n == old(idCount)
    {
      n := idCount;
      idCount := idCount + 1;
      info := info[n := Info(a.service, a.services, a.time, source, 0, 0, 0, 0, false, -1)];
      addr := addr[a.service.ip := n];
      info := info[n := info[n].(randomPos := |random|)];
      random := random + [n];
    }

    method SwapRandom(i: nat, j: nat)
      requires i != j ==> i < |random| && j < |random| && random[i] in info && random[j] in info
      modifies this
      ensures State() == Swapped(old(State()), i, j)
    {
      if i == j {
        return;
      }
      var a, b := random[i], random[j];
      info := info[a := info[a].(randomPos := j)];
      info := info[b := info[b].(randomPos := i)];
      random := random[i := b];
      random := random[j := a];
    }

    /** The first few positions of a tried bucket are shuffled and one position of it returned. Both are
        functions of the draws: the position is where the least recently successful of the inspected
        entries was drawn from, although that entry stands at the draw's own number afterwards. */
    method SelectTried(k: nat) returns (pos: int, ghost draws: seq<int>)
      requires k < |tried| && Distinct(tried[k]) && Known(info, tried[k])
      modifies `tried
      ensures Draws(old(tried[k]), draws) && |draws| == Inspected(old(tried[k]))
      ensures tried == old(tried)[k := Shuffle(old(tried[k]), draws)]
      ensures if |old(tried[k])| == 0 then pos == -1 else pos == Position(info, old(tried[k]), draws)
      ensures Distinct(tried[k]) && multiset(tried[k]) == multiset(old(tried[k])) && Known(info, tried[k])
      ensures |draws| > 0 ==> LeastRecent(info, tried[k], |draws|, Found(info, old(tried[k]), draws))
      ensures |draws| > 0 ==>
                var step := Found(info, old(tried[k]), draws);
                tried[k][pos] == tried[k][step] <==> draws[step] == step
    {
      hide Distinct, LeastRecent, Shuffle, Found, Swap;
      ghost var start := tried[k];
      var oldest := -1;
      pos, draws := -1, [];
      var bucket := tried[k];
      NoDraws(start);
      var i := 0;
      while i < TRIED_ENTRIES_INSPECT_ON_EVICT && i < |bucket|
        invariant 0 <= i <= |bucket| == |start| && i <= TRIED_ENTRIES_INSPECT_ON_EVICT
        invariant Draws(start, draws) && |draws| == i && bucket == Shuffle(start, draws) && Known(info, bucket)
        invariant tried == old(tried)[k := bucket]
        invariant if i == 0 then oldest == -1 && pos == -1
                  else oldest == bucket[Found(info, start, draws)] && pos == Position(info, start, draws)
      {
        var r := GetRandInt(|bucket| - i);
        var p := r + i;
        var n := bucket[p];
        NextDraw(info, start, draws, p);
        bucket := bucket[p := bucket[i]][i := n];
        tried := tried[k := bucket];
        if oldest == -1 || info[n].lastSuccess < info[oldest].lastSuccess {
          oldest, pos := n, p;
        }
        draws := draws + [p];
        i := i + 1;
      }
      ShuffleKeeps(info, start, draws);
      if i > 0 {
        FoundIsLeast(info, start, draws);
        RightExactly(info, start, draws);
      }
    }

    /** Give up the reference to `n` from new bucket `b`; the entry goes with its last reference. */
    method DropReference(b: nat, n: int)
      requires b < |untried| && n in info && 0 <= info[n].randomPos < |random|
      requires random[info[n].randomPos] == n && random[|random| - 1] in info
      modifies this
      ensures State() == Dropped(old(State()), b, n)
    {
      info := info[n := info[n].(refCount := info[n].refCount - 1)];
      if info[n].refCount == 0 {
        SwapRandom(info[n].randomPos, |random| - 1);
        random := random[..|random| - 1];
        addr := addr - {info[n].service.ip};
        info := info - {n};
        nNew := nNew - 1;
      }
      untried := untried[b := untried[b] - {n}];
    }

    /** Make room in a new bucket. The lowest terrible id goes, else the oldest of four sampled. */
    method ShrinkNew(b: nat, now: int, ghost pending: int)
      returns (r: int, ghost victim: int, ghost picks: set<int>)
      requires Waiting(net, State(), pending)
      requires b < |untried| && pending !in untried[b] && |untried[b]| > 0
      modifies this
      ensures old(victim in untried[b] && victim in info && RandomIndexed(State()))
      ensures State() == Dropped(old(State()), b, victim)
      ensures Waiting(net, State(), pending)
      ensures forall j :: 0 <= j < |Ascending(old(untried[b]))| ==> Ascending(old(untried[b]))[j] in old(info)
      ensures r == 0 ==> FirstTerrible(old(info), Ascending(old(untried[b])), now, victim)
      ensures r != 0 ==>
                && r == 1
                && NoneTerrible(old(info), Ascending(old(untried[b])), now)
                && |picks| <= 4 && (forall j :: j in picks ==> 0 <= j < |old(untried[b])|)
                && OldestSampled(old(info), Ascending(old(untried[b])), picks, victim)
      ensures MakesWay(old(info), old(untried[b]), now, victim)
    {
      hide Waiting, Dropped, OldestSampled, FirstTerrible, NoneTerrible, MakesWay, RandomIndexed, Ascending;
      var ids := Ascending(untried[b]);
      ShrinkReady(net, State(), pending, b, ids);
      var found, v := ScanTerrible(info, ids, now);
      r, picks := 0, {};
      if !found {
        r := 1;
        v, picks := SampleOldest(info, ids);
      }
      victim := v;
      VictimMakesWay(info, untried[b], now, found, picks, v);
      DropKeeps(net, State(), b, v, pending);
      DropPossible(State(), v);
      DropReference(b, v);
    }

    /** `n` leaves every new bucket and with them loses all its references. */
    method LeaveNewBuckets(n: int)
      requires n in info && info[n].refCount == Holders(untried, n)
      modifies `untried, `info, `nNew
      ensures State() == Cleared(old(State()), n)
    {
      var b := 0;
      assert untried[..0] == [];
      while b < |untried|
        invariant 0 <= b <= |untried| == |old(untried)|
        invariant forall c :: 0 <= c < b ==> untried[c] == old(untried)[c] - {n}
        invariant forall c :: b <= c < |untried| ==> untried[c] == old(untried)[c]
        invariant nNew == old(nNew) && n in info && n in old(info)
        invariant info == old(info)[n := old(info)[n].(refCount := info[n].refCount)]
        invariant info[n].refCount == old(info)[n].refCount - Holders(old(untried)[..b], n)
      {
        assert old(untried)[..b + 1][..b] == old(untried)[..b];
        if n in untried[b] {
          untried := untried[b := untried[b] - {n}];
          info := info[n := info[n].(refCount := info[n].refCount - 1)];
        }
        b := b + 1;
      }
      assert old(untried)[..b] == old(untried);
      assert untried == WithoutId(old(untried), n);
      nNew := nNew - 1;
    }

    /** Move an entry, whatever its times, from the new buckets to its tried bucket. */
    method MakeTried(n: int, origin: nat) returns (ghost order: seq<int>, ghost pos: int, ghost draws: seq<int>)
      requires Untimed(net, State(), n) && !info[n].inTried
      requires origin < |untried| && n in untried[origin]
      modifies this
      ensures old(Bounded(State())) && Moved(net, old(State()), State(), n, origin, order, pos)
      ensures BecameTried(net, old(State()), State(), n, origin, draws)
      ensures Untimed(net, State(), n)
    {
      hide Untimed, Limbo, Cleared, Displaced, Timed, Reordered, Refuge, TriedPlaced, BecameTried, Shuffle, Position;
      ghost var t := State();
      UntimedParts(net, t, n);
      PromotionReady(net, t, n);
      ClearedRest(t, n);
      LeaveNewBuckets(n);
      var k := TriedBucket(net, key, info[n].service);
      order, pos, draws := [], -1, [];
      if |tried[k]| < TRIED_BUCKET_SIZE {
        tried := tried[k := tried[k] + [n]];
        nTried := nTried + 1;
        info := info[n := info[n].(inTried := true)];
        assert State() == Settled(Cleared(t, n), n, k);
      } else {
        order, pos, draws := ReplaceTried(n, k, origin);
        ClearedBucket(net, t, n, k, draws);
      }
      MovedUntimed(net, t, State(), n, origin, order, pos);
      MovedBecameTried(net, t, State(), n, origin, order, pos, draws);
    }

    /** Put `n` into a full tried bucket, in place of an entry that goes back to a new bucket. */
    method ReplaceTried(n: int, k: nat, origin: nat)
      returns (ghost order: seq<int>, ghost pos: int, ghost draws: seq<int>)
      requires n in info && Limbo(net, Timed(State(), n), n) && k < |tried| && |tried[k]| > 0 && origin < |untried|
      modifies this
      ensures multiset(order) == multiset(old(tried[k])) && Distinct(order)
      ensures 0 <= pos < |order| && order[pos] in old(info)
      ensures old(Known(info, tried[k]))
      ensures Draws(old(tried[k]), draws) && |draws| == Inspected(old(tried[k]))
      ensures order == Shuffle(old(tried[k]), draws) && pos == Position(old(info), old(tried[k]), draws)
      ensures |old(untried)| == NEW_BUCKET_COUNT
      ensures State() ==
                Displaced(Reordered(old(State()), k, order), n, k, pos, Refuge(net, old(State()), order[pos], origin))
    {
      BucketKnown(net, State(), n, k);
      hide Limbo, Displaced, Distinct, Position, Found, Shuffle, LeastRecent;
      ghost var members := multiset(tried[k]);
      var p;
      p, draws := SelectTried(k);
      order, pos := tried[k], p;
      assert tried[k][p] in members;
      assert State() == Reordered(old(State()), k, order);
      Evict(n, k, p, origin);
    }

    /** The entry at `pos` of tried bucket `k` goes back to a new bucket and `n` takes its place. */
    method Evict(n: int, k: nat, pos: nat, origin: nat)
      requires n in info && k < |tried| && pos < |tried[k]| && tried[k][pos] in info && tried[k][pos] != n
      requires |untried| == NEW_BUCKET_COUNT && origin < |untried|
      modifies this
      ensures State() == old(Displaced(State(), n, k, pos, Refuge(net, State(), tried[k][pos], origin)))
    {
      var v := tried[k][pos];
      var own := NewBucket(net, key, info[v].service, info[v].source);
      info := info[v := info[v].(inTried := false, refCount := 1)];
      if |untried[own]| < NEW_BUCKET_SIZE {
        untried := untried[own := untried[own] + {v}];
      } else {
        untried := untried[origin := untried[origin] + {v}];
      }
      nNew := nNew + 1;
      tried := tried[k := tried[k][pos := n]];
      info := info[n := info[n].(inTried := true)];
    }

    /** Looks for a new bucket with `n`, starting from a random one and wrapping around. */
    method LocateNew(n: int) returns (b: int)
      ensures b == -1 || (0 <= b < |untried| && n in untried[b])
      ensures b == -1 ==> forall c :: 0 <= c < |untried| ==> n !in untried[c]
    {
      var start := GetRandInt(|untried|);
      var i := 0;
      while i < |untried|
        invariant 0 <= i <= |untried|
        invariant forall c :: 0 <= c < |untried| && Distance(start, c, |untried|) < i ==> n !in untried[c]
      {
        var c := (i + start) % |untried|;
        Wraparound(i, start, |untried|);
        if n in untried[c] {
          return c;
        }
        i := i + 1;
      }
      return -1;
    }

    /** A known address is announced again: its time and services may be refreshed, and then it
        is decided (in the end by a coin that gets heavier with each reference) whether it may
        take one more bucket. */
    method Refresh(n: int, a: Address, penalty: int, now: int) returns (more: bool, ghost coin: int)
      requires n in info && info[n].refCount >= 0
      modifies `info
      ensures n in info && info == old(info)[n := Refreshed(old(info)[n], a, penalty, now)]
      ensures 0 <= coin < Power2(info[n].refCount)
      ensures more <==> WantsMore(info[n], a) && coin == 0
    {
      coin := 0;
      var online := now - a.time < 24 * 60 * 60;
      var interval := if online then 60 * 60 else 24 * 60 * 60;
      if a.time != 0 && (info[n].time == 0 || info[n].time < a.time - interval - penalty) {
        info := info[n := info[n].(time := ToUint32(Max(0, a.time - penalty)))];
      }
      info := info[n := info[n].(services := info[n].services + a.services)];
      if a.time == 0 || (info[n].time != 0 && a.time <= info[n].time) {
        return false, 0;
      }
      if info[n].inTried {
        return false, 0;
      }
      if info[n].refCount == NEW_BUCKETS_PER_ADDRESS {
        return false, 0;
      }
      var factor := 1;
      for i := 0 to info[n].refCount
        invariant factor == Power2(i)
      {
        factor := factor * 2;
      }
      var draw := GetRandInt(factor);
      return !(factor > 1 && draw != 0), draw;
    }

    /** Put one more reference to `n` into new bucket `b`, making room first if it is full. */
    method Place(n: int, b: nat, now: int) returns (ghost victim: int)
      requires n in info && n != -1 && b < |untried| && n !in untried[b]
      requires RandomIndexed(State()) && Waiting(net, Referred(State(), n), n)
      modifies this
      ensures |old(untried[b])| == NEW_BUCKET_SIZE ==> old(victim in untried[b] && victim in info
          && !info[victim].inTried)
      ensures |old(untried[b])| == NEW_BUCKET_SIZE ==> MakesWay(old(info), old(untried[b]), now, victim)
      ensures State() == Placed(old(State()), n, b, victim)
    {
      hide Waiting, Dropped, MakesWay, RandomIndexed, OldestSampled, FirstTerrible, NoneTerrible, Ascending;
      info := info[n := info[n].(refCount := info[n].refCount + 1)];
      ghost var t := State();
      assert t == Referred(old(State()), n);
      victim := -1;
      if |untried[b]| == NEW_BUCKET_SIZE {
        ghost var picks;
        var r;
        r, victim, picks := ShrinkNew(b, now, n);
        DropPossible(t, victim);
        DropRest(t, b, victim);
        assert State() == Dropped(t, b, victim);
        PlacedVictim(net, old(State()), n, b, now, victim);
      }
      ghost var d := State();
      untried := untried[b := untried[b] + {n}];
      assert State() == Seated(d, b, n);
    }

    /** `Add_` for an address that is already known. */
    method AddKnown(n: int, a: Address, source: NetAddr, penalty: int, now: int)
      returns (ghost coin: int, ghost victim: int)
      requires Valid() && n in info && info[n].service.ip == a.service.ip
      modifies this
      ensures Valid() && Conserved(old(State()), State(), a.service.ip)
      ensures old(info)[n].refCount >= 0 && 0 <= coin < Power2(old(info)[n].refCount)
      ensures Renewed(net, old(State()), State(), n, a, source, penalty, now, coin, victim)
    {
      ghost var t := State();
      RefreshKeeps(net, t, n, a, penalty, now);
      assert info[n].refCount >= 0;
      hide Waiting, RandomIndexed, Conserved, Refreshed, WantsMore, SameMembers, Placed, Renewed;
      victim := -1;
      var more;
      more, coin := Refresh(n, a, penalty, now);
      ghost var r := State();
      assert r == t.(info := t.info[n := Refreshed(t.info[n], a, penalty, now)]);
      RefreshedRest(t.info[n], a, penalty, now);
      var b := NewBucket(net, key, info[n].service, source);
      if more && n !in untried[b] {
        victim := Place(n, b, now);
        KnownPlaced(net, t, r, n, b, victim);
        RenewedPlaced(net, t, r, State(), n, a, source, penalty, now, coin, victim);
      } else {
        RenewedOnly(net, t, r, n, a, source, penalty, now, coin, victim);
      }
    }

    /** `Add_` for a new address. */
    method AddUnknown(a: Address, source: NetAddr, penalty: int, now: int) returns (ghost victim: int)
      requires Valid() && a.service.ip !in addr
      modifies this
      ensures Valid() && Conserved(old(State()), State(), a.service.ip)
      ensures Introduced(net, old(State()), State(), a, source, penalty, now, victim)
    {
      ghost var t := State();
      AdmissionReady(net, t, a, source, ToUint32(Max(0, a.time - penalty)));
      hide Waiting, RandomIndexed, Conserved, Introduced;
      victim := -1;
      var n := Create(a, source);
      info := info[n := info[n].(time := ToUint32(Max(0, info[n].time - penalty)))];
      nNew := nNew + 1;
      ghost var r := State();
      assert r == Unreferred(t, a, source, ToUint32(Max(0, a.time - penalty)));
      hide Unreferred;
      var b := NewBucket(net, key, info[n].service, source);
      if n !in untried[b] {
        victim := Place(n, b, now);
        UnknownPlaced(net, t, r, a, source, ToUint32(Max(0, a.time - penalty)), b, victim);
        IntroducedPlaced(net, t, r, State(), a, source, penalty, now, victim);
      }
    }

    /** `Add_`: returns whether the address was not known before. */
    method Add(a: Address, source: NetAddr, penalty: int, now: int)
      returns (isNew: bool, ghost coin: int, ghost victim: int)
      requires Valid()
      modifies this
      ensures Valid()
      ensures isNew <==> net.routable(a.service.ip) && a.service.ip !in old(addr)
      ensures !net.routable(a.service.ip) ==> State() == old(State())
      ensures isNew ==> Introduced(net, old(State()), State(), a, source, penalty, now, victim)
      ensures net.routable(a.service.ip) && !isNew ==>
                var n := old(addr)[a.service.ip];
                && n in old(info) && old(info)[n].refCount >= 0 && 0 <= coin < Power2(old(info)[n].refCount)
                && Renewed(net, old(State()), State(), n, a, source, penalty, now, coin, victim)
      ensures Conserved(old(State()), State(), a.service.ip)
    {
      isNew, coin, victim := false, 0, -1;
      if !net.routable(a.service.ip) {
        return;
      }
      hide Introduced, Renewed, Conserved;
      match Find(a.service.ip) {
        case Some(n) =>
          coin, victim := AddKnown(n, a, source, penalty, now);
          isNew := false;
        case None =>
          victim := AddUnknown(a, source, penalty, now);
          isNew := true;
      }
    }

    /** Does the entry of this address have the same port, too? */
    function Matching(s: Service): (r: Option<int>)
      reads this
      ensures r.Some? ==> r.value in info && info[r.value].service == s
      ensures Valid() ==> (r.Some? <==> exists n :: n in info && info[n].service == s)
    {
      match Find(s.ip)
      case Some(n) => if info[n].service == s then Some(n) else None
      case None => None
    }

    /** `Good_`: the matching entry is tried afterwards, whatever bucket it was in; so the search for
        a new bucket with it never comes back empty-handed. A time that is not after 1970 breaks the
        invariant, exactly if there is a matching entry. */
    method Good(s: Service, time: int) returns (ghost origin: nat, ghost draws: seq<int>)
      requires Valid()
      modifies this
      ensures Valid() <==> old(Matching(s)).None? || time > 0
      ensures old(Matching(s)).None? ==> State() == old(State())
      ensures old(Matching(s)).Some? ==>
                var n := old(Matching(s)).value;
                && n in info
                && info[n] == old(info)[n].(lastSuccess := time, lastTry := time, time := ToUint32(time), attempts := 0,
                                            inTried := true, refCount := 0)
                && if old(info)[n].inTried then State() == old(State()).(info := old(info)[n := info[n]])
                   else BecameTried(net, old(State()), State(), n, origin, draws)
      ensures OneEvicted(old(State()), State(), s)
    {
      hide Waiting, OneEvicted, Promotion, Timed, BecameTried;
      ghost var t := State();
      origin, draws := 0, [];
      var found := Matching(s);
      if found.None? {
        NoneEvicted(t, s);
        return;
      }
      var n := found.value;
      GoodReady(net, t, n);
      info := info[n := info[n].(lastSuccess := time, lastTry := time, time := ToUint32(time), attempts := 0)];
      ghost var r := State();
      StampedUntimed(net, t, r, n);
      if !info[n].inTried {
        origin, draws := Promote(n);
        PromotedStamp(r, State(), n);
        BecameTriedStamped(net, t, r, State(), n, origin, draws);
      } else {
        NotPromoted(r, n);
      }
      OneChange(net, t, r, State(), n, s);
      UntimedExactly(net, State(), n);
    }

    /** Find a new bucket with the entry and move the entry to its tried bucket. */
    method Promote(n: int) returns (ghost origin: nat, ghost draws: seq<int>)
      requires Untimed(net, State(), n) && !info[n].inTried
      modifies this
      ensures Untimed(net, State(), n) && Promotion(old(State()), State(), n)
      ensures old(Bounded(State())) && BecameTried(net, old(State()), State(), n, origin, draws)
      ensures n in info && info[n].refCount == 0
    {
      ghost var t := State();
      UntimedParts(net, t, n);
      var b := LocateNew(n);
      if b == -1 {
        HeldSomewhere(net, Timed(t, n), n);
        assert false;
      }
      hide Untimed, BecameTried, Shuffle, Position;
      origin := b;
      ghost var order, pos;
      order, pos, draws := MakeTried(n, b);
      MovedConserves(net, t, State(), n, b, order, pos);
      MovedCount(net, t, State(), n, b, order, pos);
    }

    /** `Attempt_`. */
    method Attempt(s: Service, time: int)
      requires Valid()
      modifies `info
      ensures Valid() <==> old(Matching(s)).None? || time >= 0
      ensures match old(Matching(s))
              case None => info == old(info)
              case Some(n) =>
                info == old(info)[n := old(info)[n].(lastTry := time, attempts := old(info)[n].attempts + 1)]
    {
      hide Waiting;
      ghost var t := State();
      var found := Matching(s);
      if found.Some? {
        var n := found.value;
        TimesOf(net, t, n);
        info := info[n := info[n].(lastTry := time)];
        info := info[n := info[n].(attempts := info[n].attempts + 1)];
        if time >= 0 {
          StampKeeps(net, t, State(), n);
        } else {
          NotSound(net, State(), n);
        }
      }
    }

    /** `Connected_`. */
    method Connected(s: Service, time: int)
      requires Valid()
      modifies `info
      ensures Valid()
      ensures match old(Matching(s))
              case None => info == old(info)
              case Some(n) =>
                info == if time - old(info)[n].time > 20 * 60
                        then old(info)[n := old(info)[n].(time := ToUint32(time))] else old(info)
    {
      ghost var t := State();
      var found := Matching(s);
      if found.Some? {
        var n := found.value;
        if time - info[n].time > 20 * 60 {
          info := info[n := info[n].(time := ToUint32(time))];
          StampKeeps(net, t, State(), n);
        }
      }
    }

    /** One step of the shuffle: a random entry from position `n` on comes to position `n`. */
    method Draw(n: nat)
      requires Valid() && n < |random|
      modifies this
      ensures Valid() && SameMembers(old(State()), State()) && |random| == |old(random)|
      ensures exists p :: n <= p < |random| && random == old(random)[n := old(random)[p]][p := old(random)[n]]
      ensures forall k :: 0 <= k <= n ==> random[k] in info
      ensures SameReplies(old(State()), State(), n) && OnlyPositions(old(State()), State())
    {
      var d := GetRandInt(|random| - n);
      ghost var t := State();
      var p := d + n;
      SwapKeeps(net, t, -1, n, p);
      SwapRandomIndexed(t, n, p);
      SwapLeavesPrefix(t, n, p);
      hide Waiting, SameMembers, OnlyPositions;
      SwapRandom(n, p);
      assert random == t.random[n := t.random[p]][p := t.random[n]];
    }

    /** `GetAddr_`: at most 23 percent and at most 2500 of the known addresses, all of different entries. */
    method GetAddr() returns (r: seq<Address>)
      requires Valid()
      modifies this
      ensures Valid() && SameMembers(old(State()), State()) && OnlyPositions(old(State()), State())
      ensures |r| <= 2500 && |r| * 100 <= 23 * |random| && |random| == |old(random)|
      ensures |r| == 2500 || (|r| + 1) * 100 > 23 * |random|
      ensures forall k :: 0 <= k < |r| ==> random[k] in info && Announces(r[k], info[random[k]])
      ensures forall j, k :: 0 <= j < k < |r| ==> r[j].service.ip != r[k].service.ip
    {
      var nodes := GETADDR_MAX_PCT * |random| / 100;
      if nodes > GETADDR_MAX {
        nodes := GETADDR_MAX;
      }
      r := [];
      var n := 0;
      while n < nodes
        invariant 0 <= n <= nodes && |r| == n
        invariant Valid() && SameMembers(old(State()), State()) && |random| == |old(random)|
        invariant OnlyPositions(old(State()), State())
        invariant forall k :: 0 <= k < n ==> random[k] in info && r[k] == ToAddress(info[random[k]])
      {
        hide Waiting, SameMembers, OnlyPositions;
        ghost var t := State();
        Draw(n);
        SameMembersTrans(old(State()), t, State());
        OnlyPositionsTrans(old(State()), t, State());
        r := r + [ToAddress(info[random[n]])];
        n := n + 1;
      }
      DifferentEntries(State());
    }

    method Apply(q: Request) returns (reply: seq<Address>)
      requires Valid() && Timely(q)
      modifies this
      ensures Valid() && nTried >= old(nTried)
      ensures !q.AddRequest? ==> addr.Keys == old(addr).Keys
      ensures q.AddRequest? ==> addr.Keys <= old(addr).Keys + {q.a.service.ip} && |old(addr).Keys - addr.Keys| <= 1
    {
      ghost var t := State();
      reply := [];
      match q {
        case AddRequest(a, source, penalty, now) =>
          var isNew;
          ghost var coin, victim;
          isNew, coin, victim := Add(a, source, penalty, now);
          AddressesConserved(t, State(), a.service.ip);
        case GoodRequest(s, time) =>
          ghost var origin, draws := Good(s, time);
        case AttemptRequest(s, time) =>
          Attempt(s, time);
        case ConnectedRequest(s, time) =>
          Connected(s, time);
        case GetAddrRequest =>
          reply := GetAddr();
      }
    }

    /** Any run of requests keeps the invariant and the size bounds and never lowers the tried total. */
    method Run(qs: seq<Request>)
      requires Valid()
      requires forall i :: 0 <= i < |qs| ==> Timely(qs[i])
      modifies this
      ensures Valid() && nTried >= old(nTried)
      ensures |random| == nNew + nTried <= 20480
      ensures addr.Keys <= old(addr).Keys + Announced(qs)
      ensures |addr.Keys| >= |old(addr).Keys| - Additions(qs)
    {
      assert qs[..0] == [];
      for i := 0 to |qs|
        invariant Valid() && nTried >= old(nTried)
        invariant addr.Keys <= old(addr).Keys + Announced(qs[..i])
        invariant |addr.Keys| >= |old(addr).Keys| - Additions(qs[..i])
      {
        hide Waiting;
        ghost var known := addr.Keys;
        var _ := Apply(qs[i]);
        assert qs[..i + 1][..i] == qs[..i];
        FewerByOne(known, addr.Keys);
      }
      assert qs[..|qs|] == qs;
      SizeIsTotal(net, State());
      SizeBound(net, State());
    }

    /** Write the peers file. */
    method Save() returns (s: seq<Token>)
      requires Valid()
      ensures BucketsListed(State()) && s == Layout(State())
    {
      ghost var t := State();
      WritePlan(net, t);
      var ids := Ascending(info.Keys);
      assert ids == Ids(t);
      ghost var list, ls := NewList(t), BucketLists(t);
      hide Waiting, Select, Distinct;
      var newEntries, index := WriteNew(info, ids, nNew);
      var triedEntries := WriteTried(info, ids, nTried);
      var buckets := WriteBuckets(untried, index, list, ls);
      s := [Num(0), Blob(key), Num(nNew), Num(nTried)];
      s := s + [Num(NEW_BUCKET_COUNT)];
      s := s + EntryTokens(newEntries);
      s := s + EntryTokens(triedEntries);
      s := s + buckets;
      FormatWritten(key, nNew, nTried, newEntries, triedEntries, ls, s);
      StoredSplit(t, newEntries, triedEntries);
    }

    /** Read a peers file that was written by a manager with the same parameters: nothing is lost, and
        the result is that manager up to ids, list order and memory-only fields. */
    method Load(s: seq<Token>, ghost t: Tables)
      requires Inv(net, t) && BucketsListed(t) && s == Layout(t)
      modifies this
      ensures Valid() && SameManager(t, State(), FileOrder(t))
    {
      ghost var name, es, ls := FileOrder(t), StoredEntries(t), BucketLists(t);
      LoadPlan(net, t, name, es, ls, s);
      hide Layout, FileOrder, NewList, StoredEntries, BucketLists, BucketsListed, FileOf, Waiting;
      key, nNew, nTried := s[1].bytes, s[2].n, s[3].n;
      var nBuckets := s[4].n;
      ReadEntries(s, t, name, es, ls);
      ReferencesStart(net, t, name, t.nNew, ls, State());
      ReadBuckets(s, nBuckets, t, name, es, ls);
      hide SameManager;
      RebuiltIsSame(net, t, State(), name, t.nNew, ls);
    }

    /** The first part of the reader: clear the tables and read all entries. */
    method ReadEntries(s: seq<Token>, ghost t: Tables, ghost name: seq<int>, ghost es: seq<Stored>,
        ghost ls: seq<seq<int>>)
      requires Inv(net, t) && t.nNew >= 0 && t.nTried >= 0 && |name| == t.nNew + t.nTried
      requires Naming(t, name, t.nNew) && FileOf(t, name, es, ls, s)
      requires key == t.key && nNew == t.nNew && nTried == t.nTried
      modifies this
      ensures EntriesRead(net, t, name, t.nNew, State(), |name|) && idCount == |name|
    {
      hide EntriesRead, Waiting, FileOf, Naming;
      idCount := 0;
      info, addr, random := map[], map[], [];
      tried := seq(TRIED_BUCKET_COUNT, _ => []);
      untried := seq(NEW_BUCKET_COUNT, _ => {});
      NothingRead(net, t, name, State());
      var n := 0;
      while n < nNew
        invariant 0 <= n <= nNew == t.nNew && nTried == t.nTried && key == t.key
        invariant EntriesRead(net, t, name, t.nNew, State(), n)
      {
        ReadNewEntry(s, n, t, name, es, ls);
        n := n + 1;
      }
      ghost var u := State();
      idCount := nNew;
      SkipIdCount(net, t, name, u, State(), n);
      ReadTriedEntries(s, t, name, es, ls);
    }

    method ReadTriedEntries(s: seq<Token>, ghost t: Tables, ghost name: seq<int>, ghost es: seq<Stored>,
        ghost ls: seq<seq<int>>)
      requires Inv(net, t) && t.nNew >= 0 && t.nTried >= 0 && FileOf(t, name, es, ls, s) && |name| == t.nNew + t.nTried
      requires key == t.key && nNew == t.nNew == idCount && nTried == t.nTried
      requires EntriesRead(net, t, name, t.nNew, State(), nNew)
      modifies `info, `addr, `random, `tried, `idCount, `nTried
      ensures EntriesRead(net, t, name, t.nNew, State(), |name|) && idCount == |name|
    {
      hide EntriesRead, Waiting, FileOf;
      var lost := 0;
      var n := 0;
      while n < nTried
        invariant 0 <= n <= nTried == t.nTried && nNew == t.nNew && key == t.key && idCount == nNew + n && lost == 0
        invariant EntriesRead(net, t, name, t.nNew, State(), nNew + n)
      {
        var kept := ReadTriedEntry(s, n, t, name, es, ls);
        if !kept {
          lost := lost + 1;
        }
        n := n + 1;
      }
      nTried := nTried - lost;
    }

    method ReadNewEntry(s: seq<Token>, n: nat, ghost t: Tables, ghost name: seq<int>, ghost es: seq<Stored>,
        ghost ls: seq<seq<int>>)
      requires Inv(net, t) && FileOf(t, name, es, ls, s) && n < t.nNew <= |name|
      requires EntriesRead(net, t, name, t.nNew, State(), n)
      modifies `info, `addr, `random
      ensures EntriesRead(net, t, name, t.nNew, State(), n + 1)
    {
      hide EntriesRead, Waiting, FileOf, AddrIndexed, Strip;
      ghost var u := State();
      WaitingParts(net, t, -1);
      NewEntryStep(net, t, name, t.nNew, u, n);
      FileEntry(t, name, es, ls, s, n);
      ghost var e := Strip(t.info[name[n]]);
      info := info[n := Restore(s[5 + n].stored, 0, false, -1)];
      addr := addr[info[n].service.ip := n];
      info := info[n := info[n].(randomPos := |random|)];
      random := random + [n];
      assert info == u.info[n := Restore(e, 0, false, |u.random|)];
      assert State() == WithNew(u, e, n);
    }

    method ReadTriedEntry(s: seq<Token>, n: nat, ghost t: Tables, ghost name: seq<int>, ghost es: seq<Stored>,
        ghost ls: seq<seq<int>>)
      returns (kept: bool)
      requires Inv(net, t) && FileOf(t, name, es, ls, s) && 0 <= t.nNew && n < t.nTried && |name| == t.nNew + t.nTried
      requires nNew == t.nNew && key == t.key && idCount == nNew + n
      requires EntriesRead(net, t, name, t.nNew, State(), nNew + n)
      modifies `info, `addr, `random, `tried, `idCount
      ensures kept && idCount == nNew + n + 1 && EntriesRead(net, t, name, t.nNew, State(), nNew + n + 1)
    {
      ghost var u := State();
      ghost var k := nNew + n;
      hide EntriesRead, Waiting, FileOf;
      TriedEntryStep(net, t, name, t.nNew, u, k);
      FileEntry(t, name, es, ls, s, k);
      var i := Restore(s[5 + nNew + n].stored, 0, false, -1);
      var b := TriedBucket(net, key, i.service);
      if |tried[b]| < TRIED_BUCKET_SIZE {
        i := i.(randomPos := |random|, inTried := true);
        random := random + [idCount];
        info := info[idCount := i];
        addr := addr[i.service.ip := idCount];
        tried := tried[b := tried[b] + [idCount]];
        idCount := idCount + 1;
        kept := true;
        ghost var w := WithTried(u, Strip(t.info[name[k]]), k, b);
        assert State() == w.(idCount := idCount);
        SkipIdCount(net, t, name, w, State(), k + 1);
      } else {
        kept := false;
      }
    }

    /** The last part of the reader: the references from the new buckets. */
    method ReadBuckets(s: seq<Token>, nBuckets: int, ghost t: Tables, ghost name: seq<int>, ghost es: seq<Stored>,
        ghost ls: seq<seq<int>>)
      requires Inv(net, t) && FileOf(t, name, es, ls, s) && nBuckets == |ls| == NEW_BUCKET_COUNT && 0 <= t.nNew
      requires ReferencesRead(net, t, name, t.nNew, ls, State(), 0, 0)
      modifies `info, `untried
      ensures ReferencesRead(net, t, name, t.nNew, ls, State(), |ls|, 0)
    {
      var pos := 5 + nNew + nTried;
      var b := 0;
      assert ls[..0] == [];
      assert |es| == |name| == nNew + nTried;
      while b < nBuckets
        invariant 0 <= b <= nBuckets && pos == ListStart(es, ls, b)
        invariant ReferencesRead(net, t, name, t.nNew, ls, State(), b, 0)
      {
        pos := ReadBucket(s, pos, b, nBuckets, t, name, es, ls);
        b := b + 1;
      }
    }

    method ReadBucket(s: seq<Token>, start: nat, b: nat, nBuckets: int, ghost t: Tables, ghost name: seq<int>,
        ghost es: seq<Stored>, ghost ls: seq<seq<int>>)
      returns (pos: nat)
      requires Inv(net, t) && FileOf(t, name, es, ls, s) && b < nBuckets == |ls| == NEW_BUCKET_COUNT && 0 <= t.nNew
      requires start == ListStart(es, ls, b)
      requires ReferencesRead(net, t, name, t.nNew, ls, State(), b, 0)
      modifies `info, `untried
      ensures pos == ListStart(es, ls, b + 1)
      ensures ReferencesRead(net, t, name, t.nNew, ls, State(), b + 1, 0)
    {
      FileList(t, name, es, ls, s, b, 0);
      hide ReferencesRead, Waiting, ListStart, FileOf;
      pos := start;
      var size := s[pos].n;
      pos := pos + 1;
      var n := 0;
      while n < size
        invariant 0 <= n <= size == |ls[b]| && pos == start + 1 + n
        invariant ReferencesRead(net, t, name, t.nNew, ls, State(), b, n)
      {
        FileList(t, name, es, ls, s, b, n + 1);
        var k := s[pos].n;
        pos := pos + 1;
        ReadReference(k, b, nBuckets, t, name, ls, n);
        n := n + 1;
      }
      NextBucket(net, t, name, ls, State(), b);
    }

    method ReadReference(k: int, b: nat, nBuckets: int, ghost t: Tables, ghost name: seq<int>,
        ghost ls: seq<seq<int>>, ghost n: nat)
      requires Inv(net, t) && 0 <= t.nNew && b < nBuckets == |ls| == NEW_BUCKET_COUNT && n < |ls[b]| && k == ls[b][n]
      requires ReferencesRead(net, t, name, t.nNew, ls, State(), b, n)
      modifies `info, `untried
      ensures ReferencesRead(net, t, name, t.nNew, ls, State(), b, n + 1)
    {
      hide ReferencesRead, Waiting, RefCounted, Statistics;
      ghost var u := State();
      WaitingParts(net, t, -1);
      ReferenceStep(net, t, name, t.nNew, ls, u, b, n);
      if nBuckets == NEW_BUCKET_COUNT && info[k].refCount < NEW_BUCKETS_PER_ADDRESS {
        info := info[k := info[k].(refCount := info[k].refCount + 1)];
        untried := untried[b := untried[b] + {k}];
        assert State() == WithReference(u, b, k);
      }
    }
  }

  /** Writing one manager and reading the file into another gives the same manager back. */
  method SaveThenLoad(am: AddrMan, bm: AddrMan)
    requires am.Valid() && am != bm && bm.net == am.net
    modifies bm
    ensures bm.Valid() && SameManager(am.State(), bm.State(), FileOrder(am.State()))
    ensures bm.nNew == am.nNew && bm.nTried == am.nTried && bm.addr.Keys == am.addr.Keys
  {
    var s := am.Save();
    bm.Load(s, am.State());
  }

  /** `s` is the file of `t`, whose ids in file order are `name`. */
  ghost predicate FileOf(t: Tables, name: seq<int>, es: seq<Stored>, ls: seq<seq<int>>, s: seq<Token>) {
    && s == Format(t.key, t.nNew, t.nTried, es, ls)
    && |es| == |name| == t.nNew + t.nTried
    && forall k :: 0 <= k < |es| ==> name[k] in t.info && es[k] == Strip(t.info[name[k]])
  }

  lemma FileEntry(t: Tables, name: seq<int>, es: seq<Stored>, ls: seq<seq<int>>, s: seq<Token>, k: nat)
    requires FileOf(t, name, es, ls, s) && k < |name|
    ensures 5 + k < |s| && name[k] in t.info && s[5 + k] == Entry(Strip(t.info[name[k]]))
  {
    FormatEntry(t.key, t.nNew, t.nTried, es, ls, k);
  }

  lemma FileList(t: Tables, name: seq<int>, es: seq<Stored>, ls: seq<seq<int>>, s: seq<Token>, b: nat, k: nat)
    requires FileOf(t, name, es, ls, s) && b < |ls| && k <= |ls[b]|
    ensures var p := ListStart(es, ls, b);
            && p + k < |s|
            && s[p] == Num(|ls[b]|)
            && (k > 0 ==> s[p + k] == Num(ls[b][k - 1]))
            && ListStart(es, ls, b + 1) == p + 1 + |ls[b]|
  {
    FormatList(t.key, t.nNew, t.nTried, es, ls, b, k);
  }

  lemma NothingRead(net: Net, t: Tables, name: seq<int>, u: Tables)
    requires t.nNew >= 0 && Naming(t, name, t.nNew) && u.key == t.key && u.nNew == t.nNew && u.nTried == t.nTried
    requires u.info == map[] && u.addr == map[] && u.random == []
    requires u.tried == seq(TRIED_BUCKET_COUNT, _ => []) && u.untried == seq(NEW_BUCKET_COUNT, _ => {})
    ensures EntriesRead(net, t, name, t.nNew, u, 0)
  {
  }

  lemma SkipIdCount(net: Net, t: Tables, name: seq<int>, u: Tables, v: Tables, k: nat)
    requires t.nNew >= 0 && EntriesRead(net, t, name, t.nNew, u, k) && v == u.(idCount := v.idCount)
    ensures EntriesRead(net, t, name, t.nNew, v, k)
  {
  }

  lemma NextBucket(net: Net, t: Tables, name: seq<int>, ls: seq<seq<int>>, u: Tables, b: nat)
    requires t.nNew >= 0 && b < |ls| && ReferencesRead(net, t, name, t.nNew, ls, u, b, |ls[b]|)
    ensures ReferencesRead(net, t, name, t.nNew, ls, u, b + 1, 0)
  {
    BucketsReadNext(ls, u.untried, b);
  }

  lemma WritePlan(net: Net, t: Tables)
    requires Inv(net, t)
    ensures BucketsListed(t) && Distinct(NewList(t))
    ensures forall n :: n in Ids(t) ==> (t.info[n].refCount != 0 <==> !t.info[n].inTried)
    ensures |NewList(t)| == t.nNew && |TriedList(t)| == t.nTried
  {
    InvListed(net, t);
    ListSizes(t);
  }

  lemma LoadPlan(net: Net, t: Tables, name: seq<int>, es: seq<Stored>, ls: seq<seq<int>>, s: seq<Token>)
    requires Inv(net, t) && BucketsListed(t) && s == Layout(t)
    requires name == FileOrder(t) && es == StoredEntries(t) && ls == BucketLists(t)
    ensures t.nNew >= 0 && t.nTried >= 0 && |name| == t.nNew + t.nTried && |ls| == NEW_BUCKET_COUNT
    ensures Naming(t, name, t.nNew) && ListsSound(t, name, t.nNew, ls) && FileOf(t, name, es, ls, s)
    ensures |s| >= 5 && s[0] == Num(0) && s[1] == Blob(t.key) && s[2] == Num(t.nNew) && s[3] == Num(t.nTried)
        && s[4] == Num(NEW_BUCKET_COUNT)
  {
    InvListed(net, t);
    FileOrderNames(t);
    BucketListsSound(t);
    FormatHeader(t.key, t.nNew, t.nTried, es, ls);
  }

  /** The address with its port, services and time, and nothing of the statistics. */
  predicate Announces(a: Address, i: Info) {
    && a.service.ip == i.service.ip && a.service.port == i.service.port
    && a.services == i.services && a.time == i.time
  }

  function ToAddress(i: Info): Address {
    Address(i.service, i.services, i.time)
  }

  /** The addresses that a run offers to the manager. */
  ghost function Announced(qs: seq<Request>): set<NetAddr> {
    if |qs| == 0 then {}
    else
      var q := qs[|qs| - 1];
      Announced(qs[..|qs| - 1]) + if q.AddRequest? then {q.a.service.ip} else {}
  }

  function Additions(qs: seq<Request>): nat {
    if |qs| == 0 then 0
    else Additions(qs[..|qs| - 1]) + Bit(qs[|qs| - 1].AddRequest?)
  }

  lemma FewerByOne(a: set<NetAddr>, b: set<NetAddr>)
    ensures |b| >= |a| - |a - b|
  {
    assert a == (a - b) + (a * b);
    assert b == (b - a) + (a * b);
  }

  /** Stamping one entry with new times keeps the invariant. */
  lemma StampKeeps(net: Net, t: Tables, r: Tables, n: int)
    requires Inv(net, t) && n in t.info && n in r.info
    requires r == t.(info := t.info[n := r.info[n]])
    requires r.info[n].lastTry >= 0 && (r.info[n].lastSuccess == t.info[n].lastSuccess || r.info[n].lastSuccess > 0)
    requires r.info[n].service == t.info[n].service && r.info[n].source == t.info[n].source
    requires r.info[n].inTried == t.info[n].inTried && r.info[n].refCount == t.info[n].refCount
    requires r.info[n].randomPos == t.info[n].randomPos
    ensures Inv(net, r)
  {
    StampStatistics(net, t, r, n);
    hide AddrIndexed, RandomIndexed, RefCounted, TriedPlaced, Statistics, Totals, Bounded;
    SameMembersKeeps(net, t, r, -1);
  }

  lemma StampStatistics(net: Net, t: Tables, r: Tables, n: int)
    requires Inv(net, t) && n in t.info && n in r.info && r == t.(info := t.info[n := r.info[n]])
    requires r.info[n].lastTry >= 0 && (r.info[n].lastSuccess == t.info[n].lastSuccess || r.info[n].lastSuccess > 0)
    requires r.info[n].service == t.info[n].service && r.info[n].source == t.info[n].source
    requires r.info[n].inTried == t.info[n].inTried && r.info[n].refCount == t.info[n].refCount
    requires r.info[n].randomPos == t.info[n].randomPos
    ensures SameMembers(t, r) && RandomIndexed(r) && Statistics(r, -1)
  {
    hide AddrIndexed, RefCounted, TriedPlaced, Totals, Bounded;
    SameIndexRandom(t, r);
  }

  lemma NotSound(net: Net, t: Tables, n: int)
    requires n in t.info && !TimesSound(t.info[n])
    ensures !Inv(net, t)
  {
  }

  lemma TimesOf(net: Net, t: Tables, n: int)
    requires Inv(net, t) && n in t.info
    ensures TimesSound(t.info[n])
  {
  }

  lemma OnlyEntry(net: Net, t: Tables, n: int)
    requires Inv(net, t) && n in t.info
    ensures forall m :: m in t.info && m != n ==> t.info[m].service != t.info[n].service
  {
    forall m | m in t.info && m != n ensures t.info[m].service != t.info[n].service {
      assert t.addr[t.info[m].service.ip] == m && t.addr[t.info[n].service.ip] == n;
    }
  }

  /** No address comes or goes, the tried total does not fall, and of the entries for other services at
      most one changes: it was tried and is evicted. */
  ghost predicate OneEvicted(t: Tables, u: Tables, s: Service) {
    && u.addr == t.addr && u.random == t.random && u.nTried >= t.nTried
    && (forall m :: m in u.info <==> m in t.info)
    && (forall m :: m in t.info && t.info[m].service != s && u.info[m] != t.info[m] ==>
          t.info[m].inTried && u.info[m] == t.info[m].(inTried := false, refCount := 1))
    && (forall l, m ::
          Differs(t, u, l) && t.info[l].service != s && Differs(t, u, m) && t.info[m].service != s ==> l == m)
  }

  /** The state `Good_` leaves with time 0 for an entry that is tried already is not consistent. */
  lemma GoodAtZero(net: Net, t: Tables, n: int)
    requires n in t.info && t.info[n].inTried
    ensures !Inv(net, t.(info := t.info[n := t.info[n].(lastSuccess := 0, lastTry := 0, time := 0, attempts := 0)]))
  {
    var u := t.(info := t.info[n := t.info[n].(lastSuccess := 0, lastTry := 0, time := 0, attempts := 0)]);
    assert n in u.info && u.info[n].inTried;
  }

  lemma NoneEvicted(t: Tables, s: Service)
    ensures OneEvicted(t, t, s)
  {
  }

  /** An entry that is tried already stays as it is. */
  lemma NotPromoted(r: Tables, n: int)
    requires n in r.info && r.info[n].inTried
    ensures Promotion(r, r, n)
  {
  }

  lemma PromotedStamp(r: Tables, u: Tables, n: int)
    requires Promotion(r, u, n)
    ensures n in r.info && n in u.info && u.info[n] == r.info[n].(inTried := true, refCount := u.info[n].refCount)
  {
  }

  lemma OneChange(net: Net, t: Tables, r: Tables, u: Tables, n: int, s: Service)
    requires Inv(net, t) && n in t.info && t.info[n].service == s && n in r.info
    requires r == t.(info := t.info[n := r.info[n]]) && Promotion(r, u, n)
    ensures OneEvicted(t, u, s)
  {
    OnlyEntry(net, t, n);
    hide Inv, Waiting;
    forall m | m in t.info && t.info[m].service != s ensures m in r.info && r.info[m] == t.info[m] && m != n {
    }
    forall m | Differs(t, u, m) && t.info[m].service != s ensures m != n && Differs(r, u, m) {
    }
  }

  lemma StampedUntimed(net: Net, t: Tables, r: Tables, n: int)
    requires Inv(net, t) && n in t.info && n in r.info && r == t.(info := t.info[n := r.info[n]])
    requires r.info[n].service == t.info[n].service && r.info[n].source == t.info[n].source
    requires r.info[n].inTried == t.info[n].inTried && r.info[n].refCount == t.info[n].refCount
    requires r.info[n].randomPos == t.info[n].randomPos
    ensures Untimed(net, r, n)
  {
    hide Inv, Waiting;
    StampKeeps(net, t, Timed(r, n), n);
  }

  lemma PromotionReady(net: Net, t: Tables, n: int)
    requires Untimed(net, t, n) && !t.info[n].inTried
    ensures t.info[n].refCount == Holders(t.untried, n)
    ensures Limbo(net, Timed(Cleared(t, n), n), n)
  {
    UntimedParts(net, t, n);
    ClearLimbo(net, Timed(t, n), n);
    assert Timed(t, n).info[n].refCount == Holders(t.untried, n) + Bit(n == -1) && n != -1;
    hide Limbo, Inv, Waiting;
    assert Timed(Cleared(t, n), n) == Cleared(Timed(t, n), n);
  }

  lemma ClearedRest(t: Tables, n: int)
    requires n in t.info
    ensures var c := Cleared(t, n);
            c.tried == t.tried && c.key == t.key && |c.untried| == |t.untried| && c.nTried == t.nTried
            && n in c.info && c.info[n].service == t.info[n].service
  {
  }

  /** Once `n` has left the new buckets the same draws still give the same position. */
  lemma ClearedBucket(net: Net, t: Tables, n: int, k: nat, draws: seq<int>)
    requires n in t.info && !t.info[n].inTried && TriedPlaced(net, t) && k < |t.tried| && |draws| > 0
    requires Known(Cleared(t, n).info, t.tried[k]) && Draws(t.tried[k], draws)
    ensures Known(t.info, t.tried[k])
    ensures Position(t.info, t.tried[k], draws) == Position(Cleared(t, n).info, t.tried[k], draws)
  {
    hide Draws, Position, Found, Shuffle;
    SamePosition(Cleared(t, n).info, t.info, t.tried[k], draws);
  }

  lemma MovedCount(net: Net, t: Tables, u: Tables, n: int, origin: nat, order: seq<int>, pos: int)
    requires n in t.info && Bounded(t) && origin < |t.untried| && TriedPlaced(net, t) && !t.info[n].inTried
    requires Moved(net, t, u, n, origin, order, pos)
    ensures n in u.info && u.info[n].refCount == 0
  {
    var k := TriedBucket(net, t.key, t.info[n].service);
    if |t.tried[k]| >= TRIED_BUCKET_SIZE {
      NotInBucket(net, t, n, k, order, pos);
    }
  }

  lemma GoodReady(net: Net, t: Tables, n: int)
    requires Inv(net, t) && n in t.info
    ensures TriedPlaced(net, t) && |t.untried| == NEW_BUCKET_COUNT && |t.tried| == TRIED_BUCKET_COUNT
    ensures t.info[n].inTried ==> t.info[n].refCount == 0
  {
  }

  /** What a tried bucket holds, and what else an eviction needs to know. */
  lemma BucketKnown(net: Net, t: Tables, n: int, k: nat)
    requires n in t.info && Limbo(net, Timed(t, n), n) && k < |t.tried|
    ensures Distinct(t.tried[k]) && Known(t.info, t.tried[k]) && |t.untried| == NEW_BUCKET_COUNT
    ensures n !in t.tried[k]
  {
    var u := Timed(t, n);
    BucketMembers(net, u, n, k);
    assert |u.untried| == NEW_BUCKET_COUNT && !u.info[n].inTried;
    hide Limbo;
    forall j | 0 <= j < |t.tried[k]| ensures t.tried[k][j] in t.info && t.tried[k][j] >= 0 {
      assert t.tried[k][j] in t.tried[k];
      assert t.tried[k][j] in u.info;
    }
  }

  lemma HeldSomewhere(net: Net, t: Tables, n: int)
    requires Inv(net, t) && n in t.info && !t.info[n].inTried
    ensures exists b :: 0 <= b < |t.untried| && n in t.untried[b]
  {
    var b := HolderExists(t.untried, n);
  }

  lemma SameMembersTrans(t: Tables, u: Tables, v: Tables)
    requires SameMembers(t, u) && SameMembers(u, v)
    ensures SameMembers(t, v)
  {
    forall n ensures n in v.info <==> n in t.info {
      assert n in u.info <==> n in t.info;
    }
  }

  /** The first `n` entries of the random order are the same and announce the same. */
  ghost predicate SameReplies(t: Tables, u: Tables, n: nat)
    requires n <= |t.random| && n <= |u.random|
  {
    forall k :: 0 <= k < n ==>
      && u.random[k] == t.random[k]
      && (t.random[k] in t.info ==>
            u.random[k] in u.info && ToAddress(u.info[u.random[k]]) == ToAddress(t.info[t.random[k]]))
  }

  lemma SwapLeavesPrefix(t: Tables, n: nat, p: nat)
    requires RandomIndexed(t) && n <= p < |t.random|
    ensures var u := Swapped(t, n, p);
            && |u.random| == |t.random|
            && (forall k :: 0 <= k <= n ==> u.random[k] in u.info)
            && SameReplies(t, u, n)
            && OnlyPositions(t, u)
  {
  }

  /** The same entries, but for their places in the random order. */
  ghost predicate OnlyPositions(t: Tables, u: Tables) {
    && SameKeys(t, u)
    && forall n :: n in t.info ==> u.info[n] == t.info[n].(randomPos := u.info[n].randomPos)
  }

  lemma OnlyPositionsTrans(t: Tables, u: Tables, v: Tables)
    requires OnlyPositions(t, u) && OnlyPositions(u, v)
    ensures OnlyPositions(t, v)
  {
    forall n ensures n in v.info <==> n in t.info {
      assert n in u.info <==> n in t.info;
    }
  }

  lemma DifferentEntries(t: Tables)
    requires RandomIndexed(t) && AddrIndexed(t)
    ensures forall j, k :: 0 <= j < k < |t.random| ==>
              t.random[j] in t.info && t.random[k] in t.info
              && t.info[t.random[j]].service.ip != t.info[t.random[k]].service.ip
  {
    forall j, k | 0 <= j < k < |t.random|
      ensures t.random[j] in t.info && t.random[k] in t.info
              && t.info[t.random[j]].service.ip != t.info[t.random[k]].service.ip
    {
      var m, n := t.random[j], t.random[k];
      assert t.info[m].randomPos == j && t.info[n].randomPos == k;
      assert t.addr[t.info[m].service.ip] == m && t.addr[t.info[n].service.ip] == n;
    }
  }

  /** The tables with a created entry that has its time and is counted, but has no reference yet. */
  function Unreferred(t: Tables, a: Address, source: NetAddr, time: Uint32): Tables {
    var u := Created(t, a, source);
    u.(info := u.info[t.idCount := u.info[t.idCount].(time := time)], nNew := u.nNew + 1)
  }

  lemma AdmissionReady(net: Net, t: Tables, a: Address, source: NetAddr, time: Uint32)
    requires Inv(net, t) && a.service.ip !in t.addr
    ensures var n := t.idCount;
            var r := Unreferred(t, a, source, time);
            && n != -1 && n !in t.info && n in r.info && r.info[n].service == a.service
            && RandomIndexed(r) && AddrIndexed(r) && |r.untried| == NEW_BUCKET_COUNT && r.key == t.key
            && (forall b :: 0 <= b < |r.untried| ==> n !in r.untried[b])
            && Waiting(net, Referred(r, n), n)
  {
    var n := t.idCount;
    var r := Unreferred(t, a, source, time);
    var u := Admitted(t, a, source, time);
    AdmitKeeps(net, t, a, source, time);
    assert Referred(r, n) == u;
    SameIndexKeeps(u, r);
  }

  lemma PlacedAddress(t: Tables, u: Tables, n: int, b: nat, victim: int)
    requires n in t.info && RandomIndexed(t) && AddrIndexed(t) && b < |t.untried| && n !in t.untried[b]
    requires |t.untried[b]| == NEW_BUCKET_SIZE ==> victim in t.untried[b] && victim in t.info && !t.info[victim].inTried
    requires u == Placed(t, n, b, victim)
    ensures n in u.info && u.info[n].service == t.info[n].service
    ensures t.info[n].service.ip in u.addr
  {
    var r := Referred(t, n);
    SameIndexKeeps(t, r);
    if |t.untried[b]| == NEW_BUCKET_SIZE {
      DropKeepsOthers(r, b, victim);
      hide Dropped;
      DropAddress(r, b, victim, n);
    }
  }

  lemma DropAddress(t: Tables, b: nat, n: int, m: int)
    requires RandomIndexed(t) && AddrIndexed(t) && b < |t.untried| && n in t.info && m in t.info && m != n
    ensures t.info[m].service.ip in Dropped(t, b, n).addr
  {
    assert t.addr[t.info[m].service.ip] == m && t.addr[t.info[n].service.ip] == n;
    if t.info[n].refCount == 1 {
      DroppedLast(t, b, n);
      hide Dropped;
    }
  }

  lemma UnknownPlaced(net: Net, t: Tables, r: Tables, a: Address, source: NetAddr, time: Uint32, b: nat, victim: int)
    requires Inv(net, t) && a.service.ip !in t.addr && r == Unreferred(t, a, source, time)
    requires b < |r.untried| && t.idCount !in r.untried[b]
    requires |r.untried[b]| == NEW_BUCKET_SIZE ==> victim in r.untried[b] && victim in r.info && !r.info[victim].inTried
    ensures RandomIndexed(r)
    ensures var u := Placed(r, t.idCount, b, victim);
            Inv(net, u) && Conserved(t, u, a.service.ip) && a.service.ip in u.addr
  {
    hide Placed, Waiting, RandomIndexed, AddrIndexed, Conserved;
    var n := t.idCount;
    AdmissionReady(net, t, a, source, time);
    var u := Placed(r, n, b, victim);
    PlaceKeeps(net, r, n, b, victim);
    PlaceConserves(r, n, b, victim);
    PlacedAddress(r, u, n, b, victim);
    ConservedAfterNew(t, r, u, n, a.service.ip);
  }

  lemma RefreshKeeps(net: Net, t: Tables, n: int, a: Address, penalty: int, now: int)
    requires Inv(net, t) && n in t.info && t.info[n].service.ip == a.service.ip
    ensures var r := t.(info := t.info[n := Refreshed(t.info[n], a, penalty, now)]);
            && Inv(net, r) && RandomIndexed(r) && |r.untried| == NEW_BUCKET_COUNT && n != -1
            && r.info[n].service == t.info[n].service && t.info[n].refCount >= 0 && SameMembers(t, r)
            && Conserved(t, r, a.service.ip)
            && (WantsMore(r.info[n], a) ==> Waiting(net, Referred(r, n), n))
  {
    var r := t.(info := t.info[n := Refreshed(t.info[n], a, penalty, now)]);
    assert SameMembers(t, r);
    SameIndexKeeps(t, r);
    SameMembersKeeps(net, t, r, -1);
    if WantsMore(r.info[n], a) {
      ReferKeeps(net, r, n);
    }
  }

  lemma WaitingParts(net: Net, t: Tables, pending: int)
    requires Waiting(net, t, pending)
    ensures AddrIndexed(t) && RandomIndexed(t) && Statistics(t, -1) && RefCounted(t, pending)
  {
  }

  lemma ShrinkReady(net: Net, t: Tables, pending: int, b: nat, ids: seq<int>)
    requires Waiting(net, t, pending) && b < |t.untried| && ids == Ascending(t.untried[b])
    ensures RandomIndexed(t) && forall m :: m in t.untried[b] ==> m in t.info
    ensures forall j :: 0 <= j < |ids| ==> ids[j] in t.untried[b] && ids[j] in t.info && ids[j] >= 0
  {
    hide AddrIndexed, RandomIndexed, TriedPlaced, Totals, Bounded, Holders;
    forall j | 0 <= j < |ids| ensures ids[j] in t.untried[b] && ids[j] in t.info && ids[j] >= 0 {
      var n := ids[j];
      assert n in ids;
    }
  }

  lemma DropPossible(t: Tables, n: int)
    requires RandomIndexed(t) && n in t.info
    ensures 0 <= t.info[n].randomPos < |t.random| && t.random[t.info[n].randomPos] == n
    ensures t.random[|t.random| - 1] in t.info
  {
  }

  lemma DropRest(t: Tables, b: nat, n: int)
    requires RandomIndexed(t) && n in t.info && b < |t.untried|
    ensures |Dropped(t, b, n).untried| == |t.untried|
  {
  }

  lemma VictimMakesWay(info: map<int, Info>, bucket: set<int>, now: int, found: bool, picks: set<int>, victim: int)
    requires forall j :: 0 <= j < |Ascending(bucket)| ==> Ascending(bucket)[j] in info
    requires victim in Ascending(bucket)
    requires found ==> FirstTerrible(info, Ascending(bucket), now, victim)
    requires !found ==> NoneTerrible(info, Ascending(bucket), now) && Sampled(info, Ascending(bucket), picks, victim)
    ensures MakesWay(info, bucket, now, victim)
  {
    hide FirstTerrible, NoneTerrible, Sampled;
  }

  lemma PlacedVictim(net: Net, t: Tables, n: int, b: nat, now: int, victim: int)
    requires n in t.info && RandomIndexed(t) && Waiting(net, Referred(t, n), n) && b < |t.untried|
    requires n !in t.untried[b] && victim in t.untried[b]
    requires MakesWay(Referred(t, n).info, t.untried[b], now, victim)
    ensures MakesWay(t.info, t.untried[b], now, victim)
    ensures victim in t.info && !t.info[victim].inTried && 0 <= t.info[victim].randomPos < |t.random|
    ensures t.random[t.info[victim].randomPos] == victim && t.random[|t.random| - 1] in t.info
  {
    hide MakesWay;
    var r := Referred(t, n);
    InBucketsKnown(net, r, n, b);
    hide Waiting;
    forall m | m in t.untried[b] ensures m in t.info && m in r.info && t.info[m] == r.info[m] {
      assert m in r.info;
    }
    MakesWaySame(r.info, t.info, t.untried[b], now, victim);
  }

  lemma RefreshedRest(i: Info, a: Address, penalty: int, now: int)
    ensures var j := Refreshed(i, a, penalty, now);
            && KnownEntry(i, j, a, penalty, now, 0) && j.randomPos == i.randomPos
            && forall coin :: WantsMore(j, a) && coin == 0 <==> Gains(i, a, penalty, now, coin)
  {
  }

  lemma RenewedPlaced(net: Net, t: Tables, r: Tables, u: Tables, n: int, a: Address, source: NetAddr, penalty: int,
                      now: int, coin: int, victim: int)
    requires Inv(net, t) && RandomIndexed(r) && n in t.info && n in r.info && r == t.(info := t.info[n := r.info[n]])
    requires r.info[n].service == t.info[n].service && KnownEntry(t.info[n], r.info[n], a, penalty, now, 0)
    requires Gains(t.info[n], a, penalty, now, coin)
    requires |t.untried| == NEW_BUCKET_COUNT
    requires var b := NewBucket(net, t.key, t.info[n].service, source);
             && n !in t.untried[b]
             && (|t.untried[b]| == NEW_BUCKET_SIZE ==> victim in r.info && MakesWay(r.info, t.untried[b], now, victim))
             && u == Placed(r, n, b, victim)
    ensures Renewed(net, t, u, n, a, source, penalty, now, coin, victim)
  {
    var b := NewBucket(net, t.key, t.info[n].service, source);
    InBucketsKnown(net, t, -1, b);
    hide Waiting, MakesWay, Placed, RandomIndexed, CameIn, Gains;
    PlacedCameIn(r, u, n, b, now, victim);
    CameInSame(t, r, u, n, b, now, victim);
  }

  lemma InBucketsKnown(net: Net, t: Tables, pending: int, b: nat)
    requires Waiting(net, t, pending) && b < |t.untried|
    ensures forall m :: m in t.untried[b] ==> m in t.info && !t.info[m].inTried
  {
  }

  lemma RenewedOnly(net: Net, t: Tables, r: Tables, n: int, a: Address, source: NetAddr, penalty: int, now: int,
                    coin: int, victim: int)
    requires n in t.info && n in r.info && r == t.(info := t.info[n := r.info[n]]) && |t.untried| == NEW_BUCKET_COUNT
    requires KnownEntry(t.info[n], r.info[n], a, penalty, now, 0) && r.info[n].randomPos == t.info[n].randomPos
    requires var b := NewBucket(net, t.key, t.info[n].service, source);
             !(Gains(t.info[n], a, penalty, now, coin) && n !in t.untried[b])
    ensures Renewed(net, t, r, n, a, source, penalty, now, coin, victim)
  {
  }

  lemma IntroducedPlaced(net: Net, t: Tables, r: Tables, u: Tables, a: Address, source: NetAddr, penalty: int,
                         now: int, victim: int)
    requires Inv(net, t) && a.service.ip !in t.addr
    requires r == Unreferred(t, a, source, ToUint32(Max(0, a.time - penalty))) && Inv(net, u)
    requires |t.untried| == NEW_BUCKET_COUNT && RandomIndexed(r)
    requires var n, b := t.idCount, NewBucket(net, t.key, a.service, source);
             && n in r.info
             && (|t.untried[b]| == NEW_BUCKET_SIZE ==> victim in r.info && MakesWay(r.info, t.untried[b], now, victim))
             && u == Placed(r, n, b, victim)
    ensures Introduced(net, t, u, a, source, penalty, now, victim)
  {
    var n, b := t.idCount, NewBucket(net, t.key, a.service, source);
    UnreferredRest(net, t, r, a, source, penalty);
    InBucketsKnown(net, t, -1, b);
    hide MakesWay, Placed, RandomIndexed, Waiting, Unreferred, CameIn, NewBucket, NewEntry;
    PlacedCameIn(r, u, n, b, now, victim);
    CameInSame(t, r, u, n, b, now, victim);
    NewEntrySame(r.info[n], u.info[n], a, source, penalty);
    FoundByAddress(net, u, n);
    CameInOnly(t, u, n, b, now, victim);
  }

  lemma NewEntrySame(i: Info, j: Info, a: Address, source: NetAddr, penalty: int)
    requires NewEntry(i.(refCount := 1), a, source, penalty) && i.refCount == 0
    requires j == i.(randomPos := j.randomPos, refCount := i.refCount + 1)
    ensures NewEntry(j, a, source, penalty) && j.service.ip == a.service.ip
  {
  }

  lemma UnreferredRest(net: Net, t: Tables, r: Tables, a: Address, source: NetAddr, penalty: int)
    requires Inv(net, t) && a.service.ip !in t.addr
    requires r == Unreferred(t, a, source, ToUint32(Max(0, a.time - penalty)))
    ensures var n := t.idCount;
            && n !in t.info && n in r.info && r.idCount == n + 1
            && NewEntry(r.info[n].(refCount := 1), a, source, penalty) && r.info[n].refCount == 0
            && r.untried == t.untried && r.key == t.key && r.tried == t.tried && r.nTried == t.nTried
            && (forall m :: m != n ==> (m in r.info <==> m in t.info))
            && (forall m :: m != n && m in t.info ==> r.info[m] == t.info[m])
            && (forall c :: 0 <= c < |t.untried| ==> n !in t.untried[c])
  {
    AdmissionReady(net, t, a, source, ToUint32(Max(0, a.time - penalty)));
    hide Waiting;
  }

  lemma CameInOnly(t: Tables, u: Tables, n: int, b: nat, now: int, victim: int)
    requires b < |t.untried| && CameIn(t, u, n, b, now, victim)
    requires forall c :: 0 <= c < |t.untried| ==> n !in t.untried[c]
    ensures |u.untried| == |t.untried| && forall c :: 0 <= c < |u.untried| ==> (n in u.untried[c] <==> c == b)
  {
    hide MakesWay, OthersKept;
  }

  lemma FoundByAddress(net: Net, t: Tables, n: int)
    requires Inv(net, t) && n in t.info
    ensures t.info[n].service.ip in t.addr && t.addr[t.info[n].service.ip] == n
  {
  }

  lemma KnownPlaced(net: Net, t: Tables, r: Tables, n: int, b: nat, victim: int)
    requires Inv(net, t) && Inv(net, r) && SameMembers(t, r)
    requires n in r.info && n != -1 && Waiting(net, Referred(r, n), n)
    requires b < |r.untried| && n !in r.untried[b]
    requires |r.untried[b]| == NEW_BUCKET_SIZE ==> victim in r.untried[b] && victim in r.info && !r.info[victim].inTried
    ensures var u := Placed(r, n, b, victim);
            Inv(net, u) && Conserved(t, u, t.info[n].service.ip)
  {
    PlaceKeeps(net, r, n, b, victim);
    PlaceConserves(r, n, b, victim);
    hide Placed, Waiting;
    ConservedAfterSame(t, r, Placed(r, n, b, victim), t.info[n].service.ip);
  }

  /** How many steps from `start` lead to `c` when counting modulo `n`. */
  ghost function Distance(start: int, c: int, n: int): int {
    if c >= start then c - start else c + n - start
  }

  lemma Wraparound(i: nat, start: nat, n: nat)
    requires i < n && start < n
    ensures 0 <= (i + start) % n < n
    ensures forall c :: 0 <= c < n ==> (Distance(start, c, n) == i <==> c == (i + start) % n)
  {
    if i + start < n {
      assert (i + start) % n == i + start;
    } else {
      assert i + start == n + (i + start - n);
      assert (i + start) % n == i + start - n;
    }
  }

  method ScanTerrible(info: map<int, Info>, ids: seq<int>, now: int) returns (found: bool, victim: int)
    requires forall j :: 0 <= j < |ids| ==> ids[j] in info
    ensures found ==> victim in ids && FirstTerrible(info, ids, now, victim)
    ensures !found ==> NoneTerrible(info, ids, now)
  {
    var i := 0;
    while i < |ids|
      invariant 0 <= i <= |ids|
      invariant forall j :: 0 <= j < i ==> !IsTerrible(info[ids[j]], now)
    {
      if IsTerrible(info[ids[i]], now) {
        return true, ids[i];
      }
      i := i + 1;
    }
    return false, -1;
  }

  /** Draws four positions and picks, scanning upwards, the entry with the least time among them. */
  method SampleOldest(info: map<int, Info>, ids: seq<int>) returns (victim: int, ghost picks: set<int>)
    requires |ids| > 0
    requires forall j :: 0 <= j < |ids| ==> ids[j] in info && ids[j] >= 0
    ensures |picks| <= 4 && forall j :: j in picks ==> 0 <= j < |ids|
    ensures victim in ids && OldestSampled(info, ids, picks, victim)
  {
    var n0 := GetRandInt(|ids|);
    var n1 := GetRandInt(|ids|);
    var n2 := GetRandInt(|ids|);
    var n3 := GetRandInt(|ids|);
    picks := {n0, n1, n2, n3};
    var oldest := -1;
    var i := 0;
    ghost var at := -1;
    while i < |ids|
      invariant 0 <= i <= |ids|
      invariant oldest == -1 <==> (n0 >= i && n1 >= i && n2 >= i && n3 >= i)
      invariant oldest != -1 ==>
          && 0 <= at < i && at in picks && ids[at] == oldest
          && forall j :: j in picks && 0 <= j < i ==>
               && info[oldest].time <= info[ids[j]].time
               && (j < at ==> info[oldest].time < info[ids[j]].time)
    {
      if i == n0 || i == n1 || i == n2 || i == n3 {
        if oldest == -1 || info[ids[i]].time < info[oldest].time {
          oldest, at := ids[i], i;
        }
      }
      i := i + 1;
    }
    victim := oldest;
  }
}
