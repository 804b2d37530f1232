/**
 The manager's own consistency check, `Check_`: what a zero result means, that the invariant
 implies it, and exactly what it leaves unchecked.
 */
module AddrCheck {
  import opened AddrTables
  import opened Ordering

  /** `mapAddr[info]`: a missing address reads as id 0. */
  function IdOrZero(addr: map<NetAddr, int>, a: NetAddr): int {
    if a in addr then addr[a] else 0
  }

  /** What `Check_` demands of one entry. */
  predicate EntrySound(t: Tables, n: int)
    requires n in t.info
  {
    var i := t.info[n];
    && (i.inTried ==> i.lastSuccess != 0 && i.refCount == 0)
    && (!i.inTried ==> 0 < i.refCount <= NEW_BUCKETS_PER_ADDRESS)
    && IdOrZero(t.addr, i.service.ip) == n
    && 0 <= i.randomPos < |t.random| && t.random[i.randomPos] == n
    && i.lastTry >= 0
    && i.lastSuccess >= 0
  }

  function Flat(buckets: seq<seq<int>>): seq<int> {
    if |buckets| == 0 then [] else Flat(buckets[..|buckets| - 1]) + buckets[|buckets| - 1]
  }

  /** Going through all tried buckets meets every tried entry exactly once. */
  ghost predicate TriedExact(t: Tables) {
    Distinct(Flat(t.tried)) && Elements(Flat(t.tried)) == TriedIds(t)
  }

  function Expected(t: Tables, n: int): int {
    if n in t.info && !t.info[n].inTried then t.info[n].refCount else 0
  }

  /** Every id is in as many new buckets as its entry says. */
  ghost predicate NewExact(t: Tables) {
    forall n :: Holders(t.untried, n) == Expected(t, n)
  }

  /** No id is in more new buckets than its entry says. */
  ghost predicate NewAtMost(t: Tables) {
    forall n :: Holders(t.untried, n) <= Expected(t, n)
  }

  ghost predicate Consistent(t: Tables) {
    && |t.random| == t.nTried + t.nNew
    && (forall n :: n in t.info ==> EntrySound(t, n))
    && |TriedIds(t)| == t.nTried
    && |NewIds(t)| == t.nNew
    && TriedExact(t)
    && NewExact(t)
  }

  /** The error code for an entry, in the order of the tests; 0 for a sound one. */
  function EntryError(t: Tables, n: int): (err: int)
    requires n in t.info
    ensures err == 0 <==> EntrySound(t, n)
  {
    var i := t.info[n];
    if i.inTried && i.lastSuccess == 0 then -1
    else if i.inTried && i.refCount != 0 then -2
    else if !i.inTried && (i.refCount < 0 || i.refCount > NEW_BUCKETS_PER_ADDRESS) then -3
    else if !i.inTried && i.refCount == 0 then -4
    else if IdOrZero(t.addr, i.service.ip) != n then -5
    else if i.randomPos < 0 || i.randomPos >= |t.random| || t.random[i.randomPos] != n then -14
    else if i.lastTry < 0 then -6
    else if i.lastSuccess < 0 then -8
    else 0
  }

  /** The entries `done` are sound and sorted into tried ids and new ids with their references. */
  ghost predicate Sorted(t: Tables, done: seq<int>, setTried: set<int>, mapNew: map<int, int>) {
    && (forall n :: n in done ==> n in t.info && EntrySound(t, n))
    && (forall n :: n in setTried <==> n in done && t.info[n].inTried)
    && (forall n :: n in mapNew <==> n in done && !t.info[n].inTried)
    && (forall n :: n in mapNew ==> mapNew[n] == t.info[n].refCount)
  }

  /** The first entry, in the order of the ids, that is not sound. */
  ghost predicate FirstUnsound(t: Tables, n: int) {
    n in t.info && !EntrySound(t, n) && forall m :: m in t.info && m < n ==> EntrySound(t, m)
  }

  ghost predicate HasEntry(t: Tables, a: NetAddr) {
    exists n :: n in t.info && t.info[n].service.ip == a
  }

  /** `mapAddr` after it was asked for the entries `done`: a missing address is inserted with id 0. */
  ghost predicate LookedUp(t: Tables, done: seq<int>, addr: map<NetAddr, int>) {
    && (forall a :: a in t.addr ==> a in addr && addr[a] == t.addr[a])
    && (forall a :: a in addr && a !in t.addr ==> addr[a] == 0 && HasEntry(t, a))
    && (forall n :: n in done && n in t.info ==> t.info[n].service.ip in addr)
  }

  /** The address of entry 0, if it was missing, is the only one a passing check inserts: its id is right. */
  function Repaired(t: Tables): map<NetAddr, int> {
    if 0 in t.info && t.info[0].service.ip !in t.addr then t.addr[t.info[0].service.ip := 0] else t.addr
  }

  /** The tests of one entry, in their order. */
  method CheckEntry(t: Tables, n: int) returns (e: int)
    requires n in t.info
    ensures e == EntryError(t, n)
  {
    var i := t.info[n];
    if i.inTried {
      if i.lastSuccess == 0 {
        return -1;
      }
      if i.refCount != 0 {
        return -2;
      }
    } else {
      if i.refCount < 0 || i.refCount > NEW_BUCKETS_PER_ADDRESS {
        return -3;
      }
      if i.refCount == 0 {
        return -4;
      }
    }
    if IdOrZero(t.addr, i.service.ip) != n {
      return -5;
    }
    if i.randomPos < 0 || i.randomPos >= |t.random| || t.random[i.randomPos] != n {
      return -14;
    }
    if i.lastTry < 0 {
      return -6;
    }
    if i.lastSuccess < 0 {
      return -8;
    }
    return 0;
  }

  method CheckEntries(t: Tables)
    returns (err: int, setTried: set<int>, mapNew: map<int, int>, addr: map<NetAddr, int>)
    ensures err == 0 <==> forall n :: n in t.info ==> EntrySound(t, n)
    ensures err != 0 ==> exists n :: FirstUnsound(t, n) && err == EntryError(t, n)
    ensures err == 0 ==> setTried == TriedIds(t)
    ensures err == 0 ==> mapNew.Keys == NewIds(t) && forall n :: n in mapNew ==> mapNew[n] == t.info[n].refCount
    ensures LookedUp(t, [], addr) && (err == 0 ==> addr == Repaired(t))
  {
    hide Sorted, EntrySound, EntryError, LookedUp, Ascending, FirstUnsound, Increasing, Repaired;
    setTried, mapNew, addr := {}, map[], t.addr;
    var ids := Ascending(t.info.Keys);
    var i := 0;
    assert ids[..0] == [];
    NothingDone(t);
    while i < |ids|
      invariant 0 <= i <= |ids|
      invariant Sorted(t, ids[..i], setTried, mapNew) && LookedUp(t, ids[..i], addr)
    {
      var n := ids[i];
      assert ids[..i + 1] == ids[..i] + [n];
      assert n in ids;
      assert n in t.info.Keys;
      var e := CheckEntry(t, n);
      LookUp(t, ids[..i], addr, n);
      if !(-4 <= e <= -1) && t.info[n].service.ip !in addr {
        addr := addr[t.info[n].service.ip := 0];
      }
      if e != 0 {
        FirstError(t, ids, i, setTried, mapNew);
        return e, setTried, mapNew, addr;
      }
      SortedStep(t, ids[..i], setTried, mapNew, n);
      if t.info[n].inTried {
        setTried := setTried + {n};
      } else {
        mapNew := mapNew[n := t.info[n].refCount];
      }
      i := i + 1;
    }
    assert ids[..i] == ids;
    SortedAll(t, ids, setTried, mapNew);
    AllLookedUp(t, ids, addr);
    err := 0;
  }

  lemma NothingDone(t: Tables)
    ensures Sorted(t, [], {}, map[]) && LookedUp(t, [], t.addr)
  {
  }

  lemma LookUp(t: Tables, done: seq<int>, addr: map<NetAddr, int>, n: int)
    requires LookedUp(t, done, addr) && n in t.info
    ensures LookedUp(t, [], addr)
    ensures var a := t.info[n].service.ip;
            var next := if a in addr then addr else addr[a := 0];
            LookedUp(t, [], next) && LookedUp(t, done + [n], next)
  {
    assert HasEntry(t, t.info[n].service.ip);
  }

  lemma FirstError(t: Tables, ids: seq<int>, i: nat, setTried: set<int>, mapNew: map<int, int>)
    requires Increasing(ids) && (forall n :: n in ids <==> n in t.info.Keys) && i < |ids|
    requires Sorted(t, ids[..i], setTried, mapNew) && ids[i] in t.info && EntryError(t, ids[i]) != 0
    ensures FirstUnsound(t, ids[i])
  {
    hide EntryError, EntrySound;
    forall m | m in t.info && m < ids[i] ensures EntrySound(t, m) {
      assert m in t.info.Keys;
      var k :| 0 <= k < |ids| && ids[k] == m;
      assert k < i;
      assert m in ids[..i];
    }
  }

  lemma AllLookedUp(t: Tables, ids: seq<int>, addr: map<NetAddr, int>)
    requires LookedUp(t, ids, addr) && (forall n :: n in ids <==> n in t.info.Keys)
    requires forall n :: n in t.info ==> EntrySound(t, n)
    ensures LookedUp(t, [], addr) && addr == Repaired(t)
  {
    forall a | a in addr && a !in t.addr ensures 0 in t.info && t.info[0].service.ip == a && addr[a] == 0 {
      assert HasEntry(t, a);
      var n :| n in t.info && t.info[n].service.ip == a;
      assert EntrySound(t, n);
    }
    if 0 in t.info {
      assert 0 in t.info.Keys;
      assert 0 in ids;
      assert t.info[0].service.ip in addr;
    }
  }

  lemma SortedStep(t: Tables, done: seq<int>, setTried: set<int>, mapNew: map<int, int>, n: int)
    requires Sorted(t, done, setTried, mapNew) && n in t.info && EntrySound(t, n)
    ensures t.info[n].inTried ==> Sorted(t, done + [n], setTried + {n}, mapNew)
    ensures !t.info[n].inTried ==> Sorted(t, done + [n], setTried, mapNew[n := t.info[n].refCount])
  {
  }

  lemma SortedAll(t: Tables, ids: seq<int>, setTried: set<int>, mapNew: map<int, int>)
    requires Sorted(t, ids, setTried, mapNew) && forall n :: n in ids <==> n in t.info.Keys
    ensures forall n :: n in t.info ==> EntrySound(t, n)
    ensures setTried == TriedIds(t) && mapNew.Keys == NewIds(t)
    ensures forall n :: n in mapNew ==> n in t.info && mapNew[n] == t.info[n].refCount
  {
    forall n | n in t.info ensures EntrySound(t, n) {
      assert n in t.info.Keys;
      assert n in ids;
    }
    forall n
      ensures n in setTried <==> n in TriedIds(t)
      ensures n in mapNew.Keys <==> n in NewIds(t)
    {
      assert n in t.info.Keys <==> n in ids;
    }
  }

  lemma {:induction false} FlatPrefix(buckets: seq<seq<int>>, b: nat, k: nat)
    requires b < |buckets| && k <= |buckets[b]|
    ensures Flat(buckets[..b]) + buckets[b][..k] <= Flat(buckets)
  {
    var last := |buckets| - 1;
    if b == last {
      assert buckets[b][..k] <= buckets[b];
    } else {
      assert buckets[..last][..b] == buckets[..b];
      FlatPrefix(buckets[..last], b, k);
    }
  }

  /** No tried bucket holds an id that is not tried, and none is met twice. */
  ghost predicate TriedOnce(t: Tables) {
    Distinct(Flat(t.tried)) && Elements(Flat(t.tried)) <= TriedIds(t)
  }

  method CheckTried(t: Tables, setTried: set<int>) returns (err: int, left: set<int>)
    requires setTried == TriedIds(t)
    ensures err == if TriedOnce(t) then 0 else -11
    ensures err == 0 ==> left == TriedIds(t) - Elements(Flat(t.tried))
  {
    left := setTried;
    var b := 0;
    assert t.tried[..0] == [];
    while b < |t.tried|
      invariant 0 <= b <= |t.tried|
      invariant Distinct(Flat(t.tried[..b])) && Elements(Flat(t.tried[..b])) <= TriedIds(t)
      invariant left == TriedIds(t) - Elements(Flat(t.tried[..b]))
    {
      ghost var done := Flat(t.tried[..b]);
      assert done + t.tried[b][..0] == done;
      var k := 0;
      while k < |t.tried[b]|
        invariant 0 <= k <= |t.tried[b]|
        invariant Distinct(done + t.tried[b][..k]) && Elements(done + t.tried[b][..k]) <= TriedIds(t)
        invariant left == TriedIds(t) - Elements(done + t.tried[b][..k])
      {
        var x := t.tried[b][k];
        ghost var seen := done + t.tried[b][..k];
        assert done + t.tried[b][..k + 1] == seen + [x];
        if x !in left {
          FlatPrefix(t.tried, b, k + 1);
          NotExact(t, seen, x);
          return -11, left;
        }
        assert Elements(seen + [x]) == Elements(seen) + {x};
        left := left - {x};
        k := k + 1;
      }
      assert t.tried[b][..k] == t.tried[b];
      assert t.tried[..b + 1][..b] == t.tried[..b];
      b := b + 1;
    }
    assert t.tried[..b] == t.tried;
    err := 0;
  }

  lemma NotExact(t: Tables, seen: seq<int>, x: int)
    requires seen + [x] <= Flat(t.tried) && x !in TriedIds(t) - Elements(seen)
    ensures !TriedOnce(t)
  {
    var all := Flat(t.tried);
    assert all[|seen|] == x;
    if x in seen {
      var j :| 0 <= j < |seen| && seen[j] == x;
      assert all[j] == x;
    } else {
      assert x in Elements(all) && x !in TriedIds(t);
    }
  }

  /** How often `n` was met after the first `b` buckets and the ids `part` of the next one. */
  ghost function Met(t: Tables, b: nat, part: seq<int>, n: int): nat
    requires b <= |t.untried|
  {
    Holders(t.untried[..b], n) + Bit(n in part)
  }

  lemma {:induction false} HoldersPrefix(untried: seq<set<int>>, b: nat, n: int)
    requires b < |untried|
    ensures Holders(untried[..b], n) + Bit(n in untried[b]) <= Holders(untried, n)
  {
    var last := |untried| - 1;
    if b < last {
      assert untried[..last][..b] == untried[..b];
      HoldersPrefix(untried[..last], b, n);
    }
  }

  /** The open references: those of new entries that were not met often enough yet. */
  ghost predicate Outstanding(t: Tables, left: map<int, int>, b: nat, part: seq<int>)
    requires b <= |t.untried|
  {
    && (forall n :: n in left <==> Met(t, b, part, n) < Expected(t, n))
    && (forall n :: n in left ==> left[n] == Expected(t, n) - Met(t, b, part, n))
    && (forall n :: Met(t, b, part, n) <= Expected(t, n))
  }

  lemma AscendingNext(ids: seq<int>, k: nat)
    requires Increasing(ids) && k < |ids|
    ensures ids[..k + 1] == ids[..k] + [ids[k]] && ids[k] in ids && ids[k] !in ids[..k]
  {
  }

  /** One new bucket of the check: each of its ids must have an open reference. */
  method CheckBucket(t: Tables, open: map<int, int>, b: nat) returns (err: int, left: map<int, int>)
    requires b < |t.untried| && Outstanding(t, open, b, [])
    ensures err == 0 || err == -12
    ensures err == 0 ==> Outstanding(t, left, b + 1, [])
    ensures err != 0 ==> !NewAtMost(t)
  {
    hide Outstanding, NewAtMost, Met, Ascending;
    left := open;
    var ids := Ascending(t.untried[b]);
    assert ids[..0] == [];
    var k := 0;
    while k < |ids|
      invariant 0 <= k <= |ids|
      invariant Outstanding(t, left, b, ids[..k])
    {
      var x := ids[k];
      ghost var part := ids[..k];
      AscendingNext(ids, k);
      if x !in left {
        TooMany(t, left, b, part, x);
        return -12, left;
      }
      ghost var before := left;
      left := left[x := left[x] - 1];
      if left[x] == 0 {
        left := left - {x};
      }
      assert left == if before[x] == 1 then before - {x} else before[x := before[x] - 1];
      OneMet(t, before, left, b, part, x);
      k := k + 1;
    }
    assert ids[..k] == ids;
    BucketMet(t, left, b, ids);
    err := 0;
  }

  lemma BucketMet(t: Tables, left: map<int, int>, b: nat, ids: seq<int>)
    requires b < |t.untried| && forall n :: n in ids <==> n in t.untried[b]
    requires Outstanding(t, left, b, ids)
    ensures Outstanding(t, left, b + 1, [])
  {
    assert t.untried[..b + 1][..b] == t.untried[..b];
    assert forall n :: Met(t, b + 1, [], n) == Met(t, b, ids, n);
  }

  lemma TooMany(t: Tables, left: map<int, int>, b: nat, part: seq<int>, x: int)
    requires b < |t.untried| && Outstanding(t, left, b, part)
    requires x in t.untried[b] && x !in part && x !in left
    ensures !NewAtMost(t)
  {
    HoldersPrefix(t.untried, b, x);
    assert Met(t, b, part, x) >= Expected(t, x);
    assert Holders(t.untried, x) > Expected(t, x);
  }

  method CheckNew(t: Tables, mapNew: map<int, int>) returns (err: int, left: map<int, int>)
    requires forall n :: n in t.info ==> EntrySound(t, n)
    requires mapNew.Keys == NewIds(t) && forall n :: n in mapNew ==> mapNew[n] == t.info[n].refCount
    ensures err == if NewAtMost(t) then 0 else -12
    ensures err == 0 ==> (|left| == 0 <==> NewExact(t))
  {
    left := mapNew;
    NoneMet(t, mapNew);
    var b := 0;
    while b < |t.untried|
      invariant 0 <= b <= |t.untried|
      invariant Outstanding(t, left, b, [])
    {
      err, left := CheckBucket(t, left, b);
      if err != 0 {
        return;
      }
      b := b + 1;
    }
    NothingLeft(t, left);
    err := 0;
  }

  lemma NoneMet(t: Tables, mapNew: map<int, int>)
    requires forall n :: n in t.info ==> EntrySound(t, n)
    requires mapNew.Keys == NewIds(t) && forall n :: n in mapNew ==> mapNew[n] == t.info[n].refCount
    ensures Outstanding(t, mapNew, 0, [])
  {
    assert t.untried[..0] == [];
    forall n ensures n in mapNew <==> n in t.info && !t.info[n].inTried {
      assert n in mapNew.Keys <==> n in NewIds(t);
    }
  }

  lemma OneMet(t: Tables, before: map<int, int>, left: map<int, int>, b: nat, part: seq<int>, x: int)
    requires b <= |t.untried| && Outstanding(t, before, b, part) && x in before && x !in part
    requires left == if before[x] == 1 then before - {x} else before[x := before[x] - 1]
    ensures Outstanding(t, left, b, part + [x])
  {
    forall n ensures Met(t, b, part + [x], n) == Met(t, b, part, n) + Bit(n == x) {
    }
  }

  lemma NothingLeft(t: Tables, left: map<int, int>)
    requires Outstanding(t, left, |t.untried|, [])
    ensures NewAtMost(t) && (|left| == 0 <==> NewExact(t))
  {
    assert t.untried[..|t.untried|] == t.untried;
    if |left| == 0 {
      forall n ensures Holders(t.untried, n) == Expected(t, n) {
        assert n !in left;
        assert Met(t, |t.untried|, [], n) <= Expected(t, n);
      }
    } else {
      var n := Element(left.Keys);
      assert Met(t, |t.untried|, [], n) < Expected(t, n);
    }
  }

  lemma ExactAtMost(t: Tables)
    ensures NewExact(t) ==> NewAtMost(t)
  {
  }

  /** The code of the first test that fails, in the order of the source; 0 if none does. */
  ghost predicate Code(t: Tables, err: int) {
    if |t.random| != t.nTried + t.nNew then err == -7
    else if exists n :: n in t.info && !EntrySound(t, n) then exists n :: FirstUnsound(t, n) && err == EntryError(t, n)
    else if |TriedIds(t)| != t.nTried then err == -9
    else if |NewIds(t)| != t.nNew then err == -10
    else if !TriedOnce(t) then err == -11
    else if !NewAtMost(t) then err == -12
    else if !TriedExact(t) then err == -13
    else if !NewExact(t) then err == -15
    else err == 0
  }

  /** `Check_`: which test fails, zero exactly if the tables are consistent, and what the lookups leave. */
  method Check(t: Tables) returns (err: int, addr: map<NetAddr, int>)
    ensures Code(t, err) && (err == 0 <==> Consistent(t))
    ensures LookedUp(t, [], addr) && (err == 0 ==> addr == Repaired(t))
  {
    hide FirstUnsound, EntryError, EntrySound, NewExact, NewAtMost, Repaired;
    addr := t.addr;
    if |t.random| != t.nTried + t.nNew {
      return -7, addr;
    }
    var e, setTried, mapNew;
    e, setTried, mapNew, addr := CheckEntries(t);
    if e != 0 {
      return e, addr;
    }
    if |setTried| != t.nTried {
      return -9, addr;
    }
    assert |mapNew| == |mapNew.Keys|;
    if |mapNew| != t.nNew {
      return -10, addr;
    }
    var e1, left := CheckTried(t, setTried);
    if e1 != 0 {
      return e1, addr;
    }
    ExactAtMost(t);
    var e2, open := CheckNew(t, mapNew);
    if e2 != 0 {
      return e2, addr;
    }
    assert |left| == 0 <==> left == {};
    if |left| != 0 {
      return -13, addr;
    }
    if |open| != 0 {
      return -15, addr;
    }
    return 0, addr;
  }

  // ----- What the check covers -----

  /** The part of the invariant that `Check_` does not look at: ids below the counter, table sizes,
      tried entries in their own bucket, and no stray or missing address. */
  ghost predicate Unchecked(net: Net, t: Tables) {
    && Bounded(t)
    && (forall n :: n in t.info ==> 0 <= n < t.idCount)
    && (forall b, k :: 0 <= b < |t.tried| && 0 <= k < |t.tried[b]| && t.tried[b][k] in t.info ==>
          TriedBucket(net, t.key, t.info[t.tried[b][k]].service) == b)
    && (forall n :: n in t.info ==> t.info[n].service.ip in t.addr)
    && (forall a :: a in t.addr ==> t.addr[a] in t.info && t.info[t.addr[a]].service.ip == a)
  }

  lemma {:induction false} FlatElement(buckets: seq<seq<int>>, x: int) returns (b: nat, k: nat)
    requires x in Flat(buckets)
    ensures b < |buckets| && k < |buckets[b]| && buckets[b][k] == x
  {
    var last := |buckets| - 1;
    if x in buckets[last] {
      b := last;
      k :| 0 <= k < |buckets[b]| && buckets[b][k] == x;
    } else {
      b, k := FlatElement(buckets[..last], x);
    }
  }

  lemma FlatContains(buckets: seq<seq<int>>, b: nat, k: nat)
    requires b < |buckets| && k < |buckets[b]|
    ensures buckets[b][k] in Flat(buckets)
  {
    FlatPrefix(buckets, b, k + 1);
    var p := Flat(buckets[..b]) + buckets[b][..k + 1];
    assert p[|p| - 1] == buckets[b][k];
    assert Flat(buckets)[|p| - 1] == buckets[b][k];
  }

  lemma BucketDistinct(buckets: seq<seq<int>>, b: nat)
    requires b < |buckets| && Distinct(Flat(buckets))
    ensures Distinct(buckets[b])
  {
    var bucket := buckets[b];
    FlatPrefix(buckets, b, |bucket|);
    assert bucket[..|bucket|] == bucket;
    SuffixDistinct(Flat(buckets[..b]), bucket, Flat(buckets));
  }

  lemma SuffixDistinct(p: seq<int>, q: seq<int>, all: seq<int>)
    requires p + q <= all && Distinct(all)
    ensures Distinct(q)
  {
    forall i, j | 0 <= i < j < |q| ensures q[i] != q[j] {
      assert all[|p| + i] == q[i] && all[|p| + j] == q[j];
    }
  }

  lemma {:induction false} FlatDistinct(buckets: seq<seq<int>>)
    requires forall b :: 0 <= b < |buckets| ==> Distinct(buckets[b])
    requires forall b, c, x :: 0 <= b < c < |buckets| && x in buckets[b] ==> x !in buckets[c]
    ensures Distinct(Flat(buckets))
  {
    if |buckets| > 0 {
      var last := |buckets| - 1;
      var rest := buckets[..last];
      FlatDistinct(rest);
      forall x | x in Flat(rest) ensures x !in buckets[last] {
        var b, k := FlatElement(rest, x);
        assert x in buckets[b];
      }
      AppendDistinct(Flat(rest), buckets[last]);
    }
  }

  lemma AppendDistinct(p: seq<int>, q: seq<int>)
    requires Distinct(p) && Distinct(q) && forall x :: x in p ==> x !in q
    ensures Distinct(p + q)
  {
    var s := p + q;
    forall i, j | 0 <= i < j < |s| ensures s[i] != s[j] {
      if i < |p| <= j {
        assert s[i] in p && s[j] in q;
      }
    }
  }

  lemma InvTriedExact(net: Net, t: Tables)
    requires TriedPlaced(net, t)
    ensures TriedExact(t)
  {
    forall b, c, x | 0 <= b < c < |t.tried| && x in t.tried[b] ensures x !in t.tried[c] {
      var k :| 0 <= k < |t.tried[b]| && t.tried[b][k] == x;
      assert TriedBucket(net, t.key, t.info[x].service) == b;
    }
    FlatDistinct(t.tried);
    forall x ensures x in Elements(Flat(t.tried)) <==> x in TriedIds(t) {
      if x in Flat(t.tried) {
        var b, k := FlatElement(t.tried, x);
      }
      if x in t.info && t.info[x].inTried {
        var b := TriedBucket(net, t.key, t.info[x].service);
        var k :| 0 <= k < |t.tried[b]| && t.tried[b][k] == x;
        FlatContains(t.tried, b, k);
      }
    }
  }

  lemma InvNewExact(t: Tables)
    requires RefCounted(t, -1) && Statistics(t, -1)
    ensures NewExact(t)
  {
    forall n ensures Holders(t.untried, n) == Expected(t, n) {
      if n !in t.info {
        HoldersZero(t.untried, n);
      }
    }
  }

  lemma InvEntries(t: Tables)
    requires AddrIndexed(t) && RandomIndexed(t) && Statistics(t, -1)
    ensures forall n :: n in t.info ==> EntrySound(t, n)
  {
  }

  /** In every reachable state `Check_` returns 0. */
  lemma InvPassesCheck(net: Net, t: Tables)
    requires Inv(net, t)
    ensures Consistent(t)
  {
    SizeIsTotal(net, t);
    InvTriedExact(net, t);
    InvNewExact(t);
    InvEntries(t);
  }

  lemma Preimage(f: map<int, int>, n: nat, k: nat) returns (x: int)
    requires |f.Keys| == n && k < n
    requires forall x :: x in f ==> 0 <= f[x] < n
    requires forall x, y :: x in f && y in f && f[x] == f[y] ==> x == y
    ensures x in f && f[x] == k
  {
    var image := set x | x in f :: f[x];
    ImageSize(f, image);
    var range := Range(n);
    assert image <= range;
    SameSize(image, range);
    assert k in range;
    assert k in image;
    x :| x in f && f[x] == k;
  }

  lemma {:induction false} ImageSize(f: map<int, int>, image: set<int>)
    requires image == set x | x in f :: f[x]
    requires forall x, y :: x in f && y in f && f[x] == f[y] ==> x == y
    ensures |image| == |f.Keys|
    decreases |f.Keys|
  {
    if |f.Keys| == 0 {
      assert image == {};
    } else {
      var x := Element(f.Keys);
      var g := f - {x};
      assert g.Keys == f.Keys - {x};
      var rest := set y | y in g :: g[y];
      ImageSize(g, rest);
      forall v ensures v in image <==> v in rest || v == f[x] {
        if v in image {
          var y :| y in f && f[y] == v;
          assert y == x || (y in g && g[y] == v);
        }
        if v in rest {
          var y :| y in g && g[y] == v;
          assert y in f && f[y] == v;
        }
        assert x in f;
      }
      assert image == rest + {f[x]};
      assert f[x] !in rest;
    }
  }

  function Range(n: nat): (s: set<int>)
    ensures |s| == n && forall k :: k in s <==> 0 <= k < n
  {
    if n == 0 then {} else Range(n - 1) + {n - 1}
  }

  lemma SameSize(a: set<int>, b: set<int>)
    requires a <= b && |a| == |b|
    ensures a == b
  {
    assert b == a + (b - a);
    assert |b - a| == 0;
    assert b - a == {};
  }

  /** Each entry pointing to its own place in a random list of the right length is enough for the
      list to be a permutation. */
  lemma CheckedRandom(t: Tables)
    requires forall n :: n in t.info ==> EntrySound(t, n)
    requires |t.random| == |t.info.Keys|
    ensures RandomIndexed(t)
  {
    var f := map n | n in t.info :: t.info[n].randomPos;
    assert f.Keys == t.info.Keys;
    forall x, y | x in f && y in f && f[x] == f[y] ensures x == y {
      assert t.random[f[x]] == x && t.random[f[y]] == y;
    }
    forall k | 0 <= k < |t.random| ensures t.random[k] in t.info && t.info[t.random[k]].randomPos == k {
      var x := Preimage(f, |t.random|, k);
      assert EntrySound(t, x);
    }
  }

  lemma CheckedTried(net: Net, t: Tables)
    requires TriedExact(t) && Unchecked(net, t)
    ensures TriedPlaced(net, t)
  {
    forall b | 0 <= b < |t.tried| ensures Distinct(t.tried[b]) {
      BucketDistinct(t.tried, b);
    }
    forall b, k | 0 <= b < |t.tried| && 0 <= k < |t.tried[b]|
      ensures t.tried[b][k] in t.info && t.info[t.tried[b][k]].inTried
              && TriedBucket(net, t.key, t.info[t.tried[b][k]].service) == b
    {
      FlatContains(t.tried, b, k);
      assert t.tried[b][k] in Elements(Flat(t.tried));
      assert t.tried[b][k] in TriedIds(t);
    }
    forall n | n in t.info && t.info[n].inTried ensures n in t.tried[TriedBucket(net, t.key, t.info[n].service)] {
      assert n in TriedIds(t);
      assert n in Elements(Flat(t.tried));
      var b, k := FlatElement(t.tried, n);
    }
  }

  lemma CheckedRefs(t: Tables)
    requires NewExact(t) && forall n :: n in t.info ==> EntrySound(t, n) && n >= 0
    ensures RefCounted(t, -1)
  {
    forall n | n in t.info ensures t.info[n].refCount == Holders(t.untried, n) + Bit(n == -1) {
      assert EntrySound(t, n);
    }
    forall b, n | 0 <= b < |t.untried| && n in t.untried[b] ensures n in t.info && !t.info[n].inTried {
      HoldersPositive(t.untried, b, n);
      assert Holders(t.untried, n) == Expected(t, n);
    }
  }

  lemma CheckedAddr(net: Net, t: Tables)
    requires Unchecked(net, t) && forall n :: n in t.info ==> EntrySound(t, n)
    ensures AddrIndexed(t) && Statistics(t, -1)
  {
    forall n | n in t.info ensures t.info[n].service.ip in t.addr && t.addr[t.info[n].service.ip] == n {
      assert EntrySound(t, n);
    }
  }

  /** `Check_` and the few facts it does not look at are together exactly the invariant. */
  lemma CheckIsInvariant(net: Net, t: Tables)
    ensures Inv(net, t) <==> Consistent(t) && Unchecked(net, t)
  {
    if Inv(net, t) {
      InvPassesCheck(net, t);
    }
    if Consistent(t) && Unchecked(net, t) {
      CheckedAddr(net, t);
      IdsPartition(t);
      CheckedRandom(t);
      CheckedTried(net, t);
      CheckedRefs(t);
    }
  }
}
