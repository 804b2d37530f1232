/**
 The tables of the address manager as one value, the invariant that ties its six
 redundant indexes together, and the table updates that the manager performs.

 Hashing, network grouping and the routability test are parameters (`Net`): every
 statement below holds whatever they compute.
 */
module AddrTables {
  import opened Sequences

  type Byte = x: nat | x < 256
  type Bytes = seq<Byte>
  type NetAddr = Bytes
  type Uint32 = x: nat | x < 0x1_0000_0000

  const TRIED_BUCKET_COUNT: nat := 64
  const TRIED_BUCKET_SIZE: nat := 64
  const NEW_BUCKET_COUNT: nat := 256
  const NEW_BUCKET_SIZE: nat := 64
  const TRIED_BUCKETS_PER_GROUP: nat := 4
  const NEW_BUCKETS_PER_SOURCE_GROUP: nat := 32
  const NEW_BUCKETS_PER_ADDRESS: nat := 4
  const TRIED_ENTRIES_INSPECT_ON_EVICT: nat := 4
  const HORIZON_DAYS: nat := 30
  const RETRIES: nat := 3
  const MAX_FAILURES: nat := 10
  const MIN_FAIL_DAYS: nat := 7
  const GETADDR_MAX_PCT: nat := 23
  const GETADDR_MAX: nat := 2500

  datatype Service = Service(ip: NetAddr, port: nat)

  /** A `CAddress` as it arrives from a peer. */
  datatype Address = Address(service: Service, services: set<nat>, time: Uint32)

  /** A `CAddrInfo`: an address with the statistics kept about it. */
  datatype Info = Info(
    service: Service,
    services: set<nat>,
    time: Uint32,
    source: NetAddr,
    lastSuccess: int,
    lastTry: int,
    attempts: int,
    refCount: int,
    inTried: bool,
    randomPos: int)

  /** What the manager takes from outside: a 64-bit hash of a list of byte vectors,
      the network group of an address and the routability test. */
  datatype Net = Net(hash: seq<Bytes> -> nat, group: NetAddr -> Bytes, routable: NetAddr -> bool)

  datatype Tables = Tables(
    key: Bytes,
    idCount: int,
    info: map<int, Info>,
    addr: map<NetAddr, int>,
    random: seq<int>,
    nTried: int,
    tried: seq<seq<int>>,
    nNew: int,
    untried: seq<set<int>>)

  // ----- Bucket selection -----

  /** A small number as the eight little-endian bytes that enter the hash. */
  function Word(n: Byte): Bytes {
    [n, 0, 0, 0, 0, 0, 0, 0]
  }

  function ServiceKey(s: Service): Bytes {
    s.ip + [s.port / 0x100 % 0x100, s.port % 0x100]
  }

  /** Where within a group's share of the tried buckets an address falls. */
  function TriedSlot(net: Net, key: Bytes, s: Service): (slot: Byte)
    ensures slot < TRIED_BUCKETS_PER_GROUP
  {
    net.hash([key, ServiceKey(s)]) % TRIED_BUCKETS_PER_GROUP
  }

  function TriedBucketOfSlot(net: Net, key: Bytes, group: Bytes, slot: Byte): (b: nat)
    ensures b < TRIED_BUCKET_COUNT
  {
    net.hash([key, group, Word(slot)]) % TRIED_BUCKET_COUNT
  }

  function TriedBucket(net: Net, key: Bytes, s: Service): (b: nat)
    ensures b < TRIED_BUCKET_COUNT
  {
    TriedBucketOfSlot(net, key, net.group(s.ip), TriedSlot(net, key, s))
  }

  /** Where within the share of the source's group an address falls. */
  function NewSlot(net: Net, key: Bytes, group: Bytes, sourceGroup: Bytes): (slot: Byte)
    ensures slot < NEW_BUCKETS_PER_SOURCE_GROUP
  {
    net.hash([key, group, sourceGroup]) % NEW_BUCKETS_PER_SOURCE_GROUP
  }

  function NewBucketOfSlot(net: Net, key: Bytes, sourceGroup: Bytes, slot: Byte): (b: nat)
    ensures b < NEW_BUCKET_COUNT
  {
    net.hash([key, sourceGroup, Word(slot)]) % NEW_BUCKET_COUNT
  }

  function NewBucket(net: Net, key: Bytes, s: Service, source: NetAddr): (b: nat)
    ensures b < NEW_BUCKET_COUNT
  {
    NewBucketOfSlot(net, key, net.group(source), NewSlot(net, key, net.group(s.ip), net.group(source)))
  }

  predicate IsTerrible(i: Info, now: int) {
    if i.lastTry != 0 && i.lastTry >= now - 60 then false
    else if i.time > now + 10 * 60 then true
    else if i.time == 0 || now - i.time > HORIZON_DAYS * 86400 then true
    else if i.lastSuccess == 0 && i.attempts >= RETRIES then true
    else now - i.lastSuccess > MIN_FAIL_DAYS * 86400 && i.attempts >= MAX_FAILURES
  }

  // ----- The invariant -----

  function Bit(b: bool): nat {
    if b then 1 else 0
  }

  /** In how many buckets an id sits. */
  function Holders(untried: seq<set<int>>, n: int): nat {
    if |untried| == 0 then 0
    else Holders(untried[..|untried| - 1], n) + Bit(n in untried[|untried| - 1])
  }

  ghost function TriedIds(t: Tables): set<int> {
    set n | n in t.info && t.info[n].inTried
  }

  ghost function NewIds(t: Tables): set<int> {
    set n | n in t.info && !t.info[n].inTried
  }

  ghost predicate AddrIndexed(t: Tables) {
    && (forall n :: n in t.info ==> t.info[n].service.ip in t.addr && t.addr[t.info[n].service.ip] == n)
    && (forall a :: a in t.addr ==> t.addr[a] in t.info && t.info[t.addr[a]].service.ip == a)
  }

  ghost predicate RandomIndexed(t: Tables) {
    && (forall n :: n in t.info ==>
          0 <= t.info[n].randomPos < |t.random| && t.random[t.info[n].randomPos] == n)
    && (forall k :: 0 <= k < |t.random| ==> t.random[k] in t.info && t.info[t.random[k]].randomPos == k)
  }

  /** Every entry but `limbo` has 1 to 4 references or is tried. */
  ghost predicate Statistics(t: Tables, limbo: int) {
    forall n :: n in t.info ==>
      var i := t.info[n];
      && 0 <= n < t.idCount
      && i.lastTry >= 0
      && i.lastSuccess >= 0
      && (i.inTried ==> i.refCount == 0 && i.lastSuccess != 0)
      && (!i.inTried && n != limbo ==> 1 <= i.refCount <= NEW_BUCKETS_PER_ADDRESS)
  }

  /** `nRefCount` is exact, save that `pending` has one reference that is not yet in a bucket. */
  ghost predicate RefCounted(t: Tables, pending: int) {
    && (forall n :: n in t.info ==> t.info[n].refCount == Holders(t.untried, n) + Bit(n == pending))
    && (forall b, n :: 0 <= b < |t.untried| && n in t.untried[b] ==> n in t.info && !t.info[n].inTried)
  }

  ghost predicate Distinct(s: seq<int>) {
    forall i, j :: 0 <= i < j < |s| ==> s[i] != s[j]
  }

  ghost predicate TriedPlaced(net: Net, t: Tables) {
    && |t.tried| == TRIED_BUCKET_COUNT
    && (forall b :: 0 <= b < |t.tried| ==> Distinct(t.tried[b]))
    && (forall b, k :: 0 <= b < |t.tried| && 0 <= k < |t.tried[b]| ==>
          t.tried[b][k] in t.info && t.info[t.tried[b][k]].inTried
          && TriedBucket(net, t.key, t.info[t.tried[b][k]].service) == b)
    && (forall n :: n in t.info && t.info[n].inTried ==>
          n in t.tried[TriedBucket(net, t.key, t.info[n].service)])
  }

  ghost predicate Bounded(t: Tables) {
    && t.idCount >= 0
    && |t.tried| == TRIED_BUCKET_COUNT
    && |t.untried| == NEW_BUCKET_COUNT
    && (forall b :: 0 <= b < |t.untried| ==> |t.untried[b]| <= NEW_BUCKET_SIZE)
    && (forall b :: 0 <= b < |t.tried| ==> |t.tried[b]| <= TRIED_BUCKET_SIZE)
  }

  ghost predicate Totals(t: Tables) {
    && t.nTried == |TriedIds(t)|
    && t.nNew == |NewIds(t)|
  }

  /** The invariant while `pending` (if not -1) waits for its bucket. */
  ghost predicate Waiting(net: Net, t: Tables, pending: int) {
    && AddrIndexed(t)
    && RandomIndexed(t)
    && Statistics(t, -1)
    && RefCounted(t, pending)
    && TriedPlaced(net, t)
    && Bounded(t)
    && Totals(t)
    && (pending != -1 ==> pending in t.info && !t.info[pending].inTried)
  }

  ghost predicate Inv(net: Net, t: Tables) {
    Waiting(net, t, -1)
  }

  // ----- Counting -----

  lemma {:induction false} HoldersUpdate(untried: seq<set<int>>, b: nat, s: set<int>, n: int)
    requires b < |untried|
    ensures Holders(untried[b := s], n) == Holders(untried, n) - Bit(n in untried[b]) + Bit(n in s)
  {
    var last := |untried| - 1;
    if b == last {
      assert untried[b := s][..last] == untried[..last];
    } else {
      assert untried[b := s][..last] == untried[..last][b := s];
      HoldersUpdate(untried[..last], b, s, n);
    }
  }

  lemma {:induction false} HoldersPositive(untried: seq<set<int>>, b: nat, n: int)
    requires b < |untried| && n in untried[b]
    ensures Holders(untried, n) > 0
  {
    var last := |untried| - 1;
    if b < last {
      assert untried[..last][b] == untried[b];
      HoldersPositive(untried[..last], b, n);
    }
  }

  /** An id with a holder sits in some bucket. */
  lemma {:induction false} HolderExists(untried: seq<set<int>>, n: int) returns (b: nat)
    requires Holders(untried, n) > 0
    ensures b < |untried| && n in untried[b]
  {
    var last := |untried| - 1;
    if n in untried[last] {
      b := last;
    } else {
      b := HolderExists(untried[..last], n);
    }
  }

  // ----- Table updates -----

  /** `SwapRandom`. */
  function Swapped(t: Tables, i: nat, j: nat): Tables
    requires i != j ==> i < |t.random| && j < |t.random| && t.random[i] in t.info && t.random[j] in t.info
  {
    if i == j then t
    else
      var a, b := t.random[i], t.random[j];
      var info1 := t.info[a := t.info[a].(randomPos := j)];
      t.(info := info1[b := info1[b].(randomPos := i)], random := t.random[i := b][j := a])
  }

  ghost predicate SameKeys(t: Tables, u: Tables) {
    forall n :: n in u.info <==> n in t.info
  }

  /** `u` has the addresses and the random order of `t`. */
  ghost predicate SameIndex(t: Tables, u: Tables) {
    && SameKeys(t, u)
    && u.addr == t.addr
    && u.random == t.random
    && (forall n :: n in t.info ==>
          u.info[n].service == t.info[n].service && u.info[n].randomPos == t.info[n].randomPos)
  }

  lemma SameIndexKeeps(t: Tables, u: Tables)
    requires SameIndex(t, u) && AddrIndexed(t) && RandomIndexed(t)
    ensures AddrIndexed(u) && RandomIndexed(u)
  {
    SameAddr(t, u);
    SameIndexRandom(t, u);
  }

  lemma SameIndexRandom(t: Tables, u: Tables)
    requires SameKeys(t, u) && u.random == t.random && RandomIndexed(t)
    requires forall n :: n in t.info ==> u.info[n].randomPos == t.info[n].randomPos
    ensures RandomIndexed(u)
  {
    forall n | n in u.info
      ensures 0 <= u.info[n].randomPos < |u.random| && u.random[u.info[n].randomPos] == n
    {
      assert n in t.info;
    }
    forall k | 0 <= k < |u.random| ensures u.random[k] in u.info && u.info[u.random[k]].randomPos == k {
      var n := t.random[k];
      assert n in t.info && n in u.info;
    }
  }

  lemma SameAddr(t: Tables, u: Tables)
    requires SameKeys(t, u) && u.addr == t.addr && AddrIndexed(t)
    requires forall n :: n in t.info ==> u.info[n].service == t.info[n].service
    ensures AddrIndexed(u)
  {
    forall n | n in u.info ensures u.info[n].service.ip in u.addr && u.addr[u.info[n].service.ip] == n {
      assert n in t.info;
    }
    forall a | a in u.addr ensures u.addr[a] in u.info && u.info[u.addr[a]].service.ip == a {
      var n := u.addr[a];
      assert n in t.info && n in u.info;
    }
  }

  /** `u` has the entries of `t`, each with its address and on its side of new and tried. */
  ghost predicate SameSides(t: Tables, u: Tables) {
    && SameKeys(t, u)
    && (forall n :: n in t.info ==>
          u.info[n].service == t.info[n].service && u.info[n].inTried == t.info[n].inTried)
  }

  lemma SameTried(net: Net, t: Tables, u: Tables)
    requires SameSides(t, u) && u.key == t.key && u.tried == t.tried && TriedPlaced(net, t)
    ensures TriedPlaced(net, u)
  {
    forall b, k | 0 <= b < |u.tried| && 0 <= k < |u.tried[b]|
      ensures u.tried[b][k] in u.info && u.info[u.tried[b][k]].inTried
              && TriedBucket(net, u.key, u.info[u.tried[b][k]].service) == b
    {
      var n := t.tried[b][k];
      assert n in t.info && n in u.info;
    }
    forall n | n in u.info && u.info[n].inTried
      ensures n in u.tried[TriedBucket(net, u.key, u.info[n].service)]
    {
      assert n in t.info && t.info[n].inTried;
    }
  }

  lemma SameIds(t: Tables, u: Tables)
    requires SameSides(t, u)
    ensures TriedIds(u) == TriedIds(t) && NewIds(u) == NewIds(t)
  {
    forall n
      ensures n in TriedIds(u) <==> n in TriedIds(t)
      ensures n in NewIds(u) <==> n in NewIds(t)
    {
      assert n in u.info <==> n in t.info;
    }
  }

  /** `u` differs from `t` at most in the time statistics and the random order. */
  ghost predicate SameMembers(t: Tables, u: Tables) {
    && u.key == t.key && u.idCount == t.idCount && u.addr == t.addr
    && u.nTried == t.nTried && u.tried == t.tried && u.nNew == t.nNew && u.untried == t.untried
    && SameSides(t, u)
    && (forall n :: n in t.info ==>
          u.info[n].source == t.info[n].source && u.info[n].refCount == t.info[n].refCount)
  }

  lemma SameRefs(t: Tables, u: Tables, pending: int)
    requires SameMembers(t, u) && RefCounted(t, pending)
    ensures RefCounted(u, pending)
  {
    forall n | n in u.info ensures u.info[n].refCount == Holders(u.untried, n) + Bit(n == pending) {
      assert n in t.info;
    }
  }

  /** Whatever only touches times or the random order keeps the invariant as long as
      those two stay sound themselves. */
  lemma SameMembersKeeps(net: Net, t: Tables, u: Tables, pending: int)
    requires Waiting(net, t, pending)
    requires SameMembers(t, u) && Statistics(u, -1) && RandomIndexed(u)
    ensures Waiting(net, u, pending)
  {
    SameTried(net, t, u);
    SameIds(t, u);
    SameRefs(t, u, pending);
    SameAddr(t, u);
  }

  lemma SwapRandomIndexed(t: Tables, i: nat, j: nat)
    requires RandomIndexed(t)
    requires i < |t.random| && j < |t.random|
    ensures RandomIndexed(Swapped(t, i, j))
    ensures SameMembers(t, Swapped(t, i, j))
  {
    var u := Swapped(t, i, j);
    var a, b := t.random[i], t.random[j];
    forall n | n in u.info
      ensures 0 <= u.info[n].randomPos < |u.random| && u.random[u.info[n].randomPos] == n
    {
      assert n in t.info;
      assert n != a && n != b ==> t.info[n].randomPos != i && t.info[n].randomPos != j;
    }
    forall k | 0 <= k < |u.random| ensures u.random[k] in u.info && u.info[u.random[k]].randomPos == k {
      var n := t.random[k];
      assert n in t.info && t.info[n].randomPos == k;
    }
  }

  lemma SwapKeeps(net: Net, t: Tables, pending: int, i: nat, j: nat)
    requires Waiting(net, t, pending)
    requires i < |t.random| && j < |t.random|
    ensures Waiting(net, Swapped(t, i, j), pending)
  {
    SwapRandomIndexed(t, i, j);
    hide AddrIndexed, RandomIndexed, TriedPlaced, RefCounted;
    SameMembersKeeps(net, t, Swapped(t, i, j), pending);
  }

  // ----- Removing a reference, and with the last one the entry -----

  /** The deletion step of `ShrinkNew`: swap the entry to the end of the random list, pop it
      and erase it from both maps. */
  function Erased(t: Tables, n: int): Tables
    requires n in t.info && 0 <= t.info[n].randomPos < |t.random|
    requires t.random[t.info[n].randomPos] == n && t.random[|t.random| - 1] in t.info
  {
    var u := Swapped(t, t.info[n].randomPos, |t.random| - 1);
    u.(random := u.random[..|u.random| - 1],
       addr := u.addr - {u.info[n].service.ip},
       info := u.info - {n},
       nNew := u.nNew - 1)
  }

  function Decremented(t: Tables, n: int): Tables
    requires n in t.info
  {
    t.(info := t.info[n := t.info[n].(refCount := t.info[n].refCount - 1)])
  }

  /** One reference to `n`, the one from new bucket `b`, is given up. */
  function Dropped(t: Tables, b: nat, n: int): Tables
    requires b < |t.untried| && n in t.info && 0 <= t.info[n].randomPos < |t.random|
    requires t.random[t.info[n].randomPos] == n && t.random[|t.random| - 1] in t.info
  {
    var u := Decremented(t, n);
    var v := if u.info[n].refCount == 0 then Erased(u, n) else u;
    v.(untried := v.untried[b := v.untried[b] - {n}])
  }

  /** `u` is `t` without entry `n`. */
  ghost predicate Gone(t: Tables, u: Tables, n: int) {
    && n in t.info
    && (forall m :: m in u.info <==> m in t.info && m != n)
    && (forall m :: m in u.info ==> u.info[m] == t.info[m].(randomPos := u.info[m].randomPos))
    && u.addr == t.addr - {t.info[n].service.ip}
    && u.key == t.key && u.idCount == t.idCount
    && u.nTried == t.nTried && u.tried == t.tried && u.nNew == t.nNew - 1
  }

  /** `u` is `t` without entry `n` and without `n` in new bucket `b`. */
  ghost predicate Without(t: Tables, u: Tables, b: nat, n: int) {
    && Gone(t, u, n)
    && b < |t.untried|
    && u.untried == t.untried[b := t.untried[b] - {n}]
  }

  lemma ErasedGone(t: Tables, n: int)
    requires RandomIndexed(t) && n in t.info
    ensures Gone(t, Erased(t, n), n)
    ensures Erased(t, n).untried == t.untried
  {
    var last := |t.random| - 1;
    assert t.random[last] in t.info;
  }

  lemma ErasedRandom(t: Tables, n: int)
    requires RandomIndexed(t) && n in t.info
    ensures RandomIndexed(Erased(t, n))
  {
    var u := Swapped(t, t.info[n].randomPos, |t.random| - 1);
    var v := Erased(t, n);
    SwapRandomIndexed(t, t.info[n].randomPos, |t.random| - 1);
    assert u.random[|u.random| - 1] == n;
    PoppedRandom(u, v, n);
  }

  lemma PoppedRandom(u: Tables, v: Tables, n: int)
    requires RandomIndexed(u) && |u.random| > 0 && u.random[|u.random| - 1] == n
    requires v.random == u.random[..|u.random| - 1] && v.info == u.info - {n}
    ensures RandomIndexed(v)
  {
    forall m | m in v.info
      ensures 0 <= v.info[m].randomPos < |v.random| && v.random[v.info[m].randomPos] == m
    {
      assert m in u.info && m != n;
    }
    forall k | 0 <= k < |v.random| ensures v.random[k] in v.info && v.info[v.random[k]].randomPos == k {
      var m := u.random[k];
      assert m in u.info && u.info[m].randomPos == k;
      assert m != n;
    }
  }

  lemma DroppedLast(t: Tables, b: nat, n: int)
    requires RandomIndexed(t) && b < |t.untried| && n in t.info && t.info[n].refCount == 1
    ensures RandomIndexed(Dropped(t, b, n))
    ensures Without(t, Dropped(t, b, n), b, n)
  {
    var u := Decremented(t, n);
    SameIndexRandom(t, u);
    ErasedRandom(u, n);
    ErasedGone(u, n);
    var v := Erased(u, n);
    var w := Dropped(t, b, n);
    hide Erased;
    assert w == v.(untried := v.untried[b := v.untried[b] - {n}]);
    SameIndexRandom(v, w);
    GoneTransfer(t, u, v, w, b, n);
  }

  lemma GoneTransfer(t: Tables, u: Tables, v: Tables, w: Tables, b: nat, n: int)
    requires n in t.info && u == Decremented(t, n) && Gone(u, v, n)
    requires v.untried == u.untried && b < |t.untried|
    requires w == v.(untried := v.untried[b := v.untried[b] - {n}])
    ensures Without(t, w, b, n)
  {
    forall m ensures m in w.info <==> m in t.info && m != n {
      assert m in v.info <==> m in u.info && m != n;
    }
    forall m | m in w.info ensures w.info[m] == t.info[m].(randomPos := w.info[m].randomPos) {
      assert m in v.info && u.info[m] == t.info[m];
    }
  }

  lemma WithoutAddr(t: Tables, u: Tables, b: nat, n: int)
    requires AddrIndexed(t) && Without(t, u, b, n)
    ensures AddrIndexed(u)
  {
    forall m | m in u.info ensures u.info[m].service.ip in u.addr && u.addr[u.info[m].service.ip] == m {
      assert m in t.info;
      assert t.addr[t.info[n].service.ip] == n;
    }
    forall a | a in u.addr ensures u.addr[a] in u.info && u.info[u.addr[a]].service.ip == a {
      assert a in t.addr;
      var m := t.addr[a];
      assert m in t.info && m != n && m in u.info;
    }
  }

  lemma WithoutRefs(t: Tables, u: Tables, b: nat, n: int, pending: int)
    requires RefCounted(t, pending) && Without(t, u, b, n)
    requires n in t.untried[b] && n != pending && t.info[n].refCount == 1
    ensures RefCounted(u, pending)
  {
    forall m | m in u.info ensures u.info[m].refCount == Holders(u.untried, m) + Bit(m == pending) {
      assert m in t.info;
      HoldersUpdate(t.untried, b, t.untried[b] - {n}, m);
    }
    HoldersUpdate(t.untried, b, t.untried[b] - {n}, n);
    assert Holders(u.untried, n) == 0;
    forall c, m | 0 <= c < |u.untried| && m in u.untried[c] ensures m in u.info && !u.info[m].inTried {
      HoldersPositive(u.untried, c, m);
      assert m in t.untried[c] && m != n;
      assert m in t.info && m in u.info;
    }
  }

  lemma WithoutTried(net: Net, t: Tables, u: Tables, b: nat, n: int)
    requires TriedPlaced(net, t) && Without(t, u, b, n) && !t.info[n].inTried
    ensures TriedPlaced(net, u)
  {
    forall c, k | 0 <= c < |u.tried| && 0 <= k < |u.tried[c]|
      ensures u.tried[c][k] in u.info && u.info[u.tried[c][k]].inTried
              && TriedBucket(net, u.key, u.info[u.tried[c][k]].service) == c
    {
      var m := t.tried[c][k];
      assert m in t.info && m != n && m in u.info;
    }
    forall m | m in u.info && u.info[m].inTried
      ensures m in u.tried[TriedBucket(net, u.key, u.info[m].service)]
    {
      assert m in t.info && t.info[m].inTried;
    }
  }

  lemma WithoutTotals(t: Tables, u: Tables, b: nat, n: int)
    requires Totals(t) && Without(t, u, b, n) && !t.info[n].inTried
    ensures Totals(u)
  {
    forall m
      ensures m in TriedIds(u) <==> m in TriedIds(t)
      ensures m in NewIds(u) <==> m in NewIds(t) && m != n
    {
      assert m in u.info <==> m in t.info && m != n;
    }
    assert TriedIds(u) == TriedIds(t);
    assert NewIds(u) == NewIds(t) - {n};
    assert n in NewIds(t);
  }

  lemma SmallerBucketBounded(t: Tables, u: Tables, b: nat, n: int)
    requires Bounded(t) && b < |t.untried|
    requires u.untried == t.untried[b := t.untried[b] - {n}] && u.tried == t.tried && u.idCount == t.idCount
    ensures Bounded(u)
  {
    forall c | 0 <= c < |u.untried| ensures |u.untried[c]| <= NEW_BUCKET_SIZE {
      if c == b {
        assert t.untried[b] == if n in t.untried[b] then u.untried[b] + {n} else u.untried[b];
      }
    }
  }

  /** Dropping a reference keeps the invariant, also while another entry is waiting. */
  lemma DropKeeps(net: Net, t: Tables, b: nat, n: int, pending: int)
    requires Waiting(net, t, pending)
    requires b < |t.untried| && n in t.untried[b] && n != pending
    ensures n in t.info && Waiting(net, Dropped(t, b, n), pending)
  {
    var u := Dropped(t, b, n);
    HoldersPositive(t.untried, b, n);
    hide AddrIndexed, TriedPlaced, Totals;
    if t.info[n].refCount == 1 {
      DroppedLast(t, b, n);
      WithoutAddr(t, u, b, n);
      WithoutRefs(t, u, b, n, pending);
      WithoutTried(net, t, u, b, n);
      WithoutTotals(t, u, b, n);
      SmallerBucketBounded(t, u, b, n);
      assert Statistics(u, -1);
    } else {
      DroppedOneOfMany(net, t, b, n, pending);
    }
  }

  lemma DroppedOneOfMany(net: Net, t: Tables, b: nat, n: int, pending: int)
    requires Waiting(net, t, pending)
    requires b < |t.untried| && n in t.untried[b] && n != pending && t.info[n].refCount != 1
    ensures Waiting(net, Dropped(t, b, n), pending)
  {
    var u := Dropped(t, b, n);
    hide AddrIndexed, RandomIndexed, TriedPlaced, Erased;
    forall m | m in u.info ensures u.info[m].refCount == Holders(u.untried, m) + Bit(m == pending) {
      HoldersUpdate(t.untried, b, t.untried[b] - {n}, m);
    }
    SmallerBucketBounded(t, u, b, n);
    SameIndexKeeps(t, u);
    SameTried(net, t, u);
    SameIds(t, u);
  }

  // ----- Adding a reference, and with the first one the entry -----

  /** `Create`: a new entry at the end of the random list. */
  function Created(t: Tables, a: Address, source: NetAddr): Tables {
    var n := t.idCount;
    t.(idCount := n + 1,
       info := t.info[n := Info(a.service, a.services, a.time, source, 0, 0, 0, 0, false, |t.random|)],
       addr := t.addr[a.service.ip := n],
       random := t.random + [n])
  }

  /** A created entry that is counted, has its time reduced and expects its first bucket. */
  function Admitted(t: Tables, a: Address, source: NetAddr, time: Uint32): Tables {
    var n := t.idCount;
    var u := Created(t, a, source);
    u.(info := u.info[n := u.info[n].(time := time, refCount := 1)], nNew := u.nNew + 1)
  }

  lemma {:induction false} HoldersZero(untried: seq<set<int>>, n: int)
    requires forall b :: 0 <= b < |untried| ==> n !in untried[b]
    ensures Holders(untried, n) == 0
  {
    if |untried| > 0 {
      HoldersZero(untried[..|untried| - 1], n);
    }
  }

  lemma AdmitIndexed(t: Tables, a: Address, source: NetAddr, time: Uint32)
    requires AddrIndexed(t) && RandomIndexed(t) && a.service.ip !in t.addr && t.idCount !in t.info
    ensures AddrIndexed(Admitted(t, a, source, time))
    ensures RandomIndexed(Admitted(t, a, source, time))
  {
    var n := t.idCount;
    var u := Admitted(t, a, source, time);
    forall m | m in u.info
      ensures u.info[m].service.ip in u.addr && u.addr[u.info[m].service.ip] == m
      ensures 0 <= u.info[m].randomPos < |u.random| && u.random[u.info[m].randomPos] == m
    {
      if m != n {
        assert m in t.info && u.info[m] == t.info[m];
      }
    }
    forall ip | ip in u.addr ensures u.addr[ip] in u.info && u.info[u.addr[ip]].service.ip == ip {
      var m := u.addr[ip];
      if ip != a.service.ip {
        assert m in t.info && m != n && m in u.info;
      }
    }
    forall k | 0 <= k < |u.random| ensures u.random[k] in u.info && u.info[u.random[k]].randomPos == k {
      var m := u.random[k];
      if k < |t.random| {
        assert m in t.info && m != n && m in u.info;
      }
    }
  }

  lemma AdmitPlaced(net: Net, t: Tables, a: Address, source: NetAddr, time: Uint32)
    requires TriedPlaced(net, t) && t.idCount !in t.info
    ensures TriedPlaced(net, Admitted(t, a, source, time))
    ensures TriedIds(Admitted(t, a, source, time)) == TriedIds(t)
    ensures NewIds(Admitted(t, a, source, time)) == NewIds(t) + {t.idCount}
  {
    var u := Admitted(t, a, source, time);
    forall b, k | 0 <= b < |u.tried| && 0 <= k < |u.tried[b]|
      ensures u.tried[b][k] in u.info && u.info[u.tried[b][k]].inTried
              && TriedBucket(net, u.key, u.info[u.tried[b][k]].service) == b
    {
      var n := t.tried[b][k];
      assert n in t.info && n != t.idCount && n in u.info;
    }
    forall n | n in u.info && u.info[n].inTried
      ensures n in u.tried[TriedBucket(net, u.key, u.info[n].service)]
    {
      assert n in t.info && t.info[n].inTried;
    }
  }

  lemma AdmitKeeps(net: Net, t: Tables, a: Address, source: NetAddr, time: Uint32)
    requires Inv(net, t) && a.service.ip !in t.addr
    ensures Waiting(net, Admitted(t, a, source, time), t.idCount)
  {
    var u := Admitted(t, a, source, time);
    var n := t.idCount;
    hide AddrIndexed, RandomIndexed, TriedPlaced;
    assert n !in t.info;
    AdmitIndexed(t, a, source, time);
    AdmitPlaced(net, t, a, source, time);
    HoldersZero(t.untried, n);
    assert Statistics(u, -1);
    forall m | m in u.info ensures u.info[m].refCount == Holders(u.untried, m) + Bit(m == n) {
      if m != n {
        assert m in t.info && u.info[m] == t.info[m];
      }
    }
    assert n !in NewIds(t);
  }

  function Referred(t: Tables, n: int): Tables
    requires n in t.info
  {
    t.(info := t.info[n := t.info[n].(refCount := t.info[n].refCount + 1)])
  }

  lemma ReferKeeps(net: Net, t: Tables, n: int)
    requires Inv(net, t)
    requires n in t.info && !t.info[n].inTried && t.info[n].refCount < NEW_BUCKETS_PER_ADDRESS
    ensures Waiting(net, Referred(t, n), n)
  {
    var u := Referred(t, n);
    hide AddrIndexed, RandomIndexed, TriedPlaced;
    SameIndexKeeps(t, u);
    SameTried(net, t, u);
    SameIds(t, u);
    assert RefCounted(u, n);
  }

  /** The waiting entry takes its place in new bucket `b`. */
  function Seated(t: Tables, b: nat, n: int): Tables
    requires b < |t.untried|
  {
    t.(untried := t.untried[b := t.untried[b] + {n}])
  }

  lemma SeatKeeps(net: Net, t: Tables, b: nat, n: int)
    requires Waiting(net, t, n) && n != -1
    requires b < |t.untried| && n !in t.untried[b] && |t.untried[b]| < NEW_BUCKET_SIZE
    ensures Inv(net, Seated(t, b, n))
  {
    var u := Seated(t, b, n);
    hide AddrIndexed, RandomIndexed, TriedPlaced;
    forall m | m in u.info ensures u.info[m].refCount == Holders(u.untried, m) + Bit(m == -1) {
      HoldersUpdate(t.untried, b, t.untried[b] + {n}, m);
    }
    SameIndexKeeps(t, u);
    SameTried(net, t, u);
    SameIds(t, u);
  }

  // ----- Moving an entry to the tried buckets -----

  function WithoutId(untried: seq<set<int>>, n: int): (r: seq<set<int>>)
    ensures |r| == |untried|
    ensures forall b :: 0 <= b < |r| ==> r[b] == untried[b] - {n}
  {
    seq(|untried|, b requires 0 <= b < |untried| => untried[b] - {n})
  }

  /** First half of `MakeTried`: the entry leaves every new bucket. */
  function Cleared(t: Tables, n: int): Tables
    requires n in t.info
  {
    t.(untried := WithoutId(t.untried, n),
       info := t.info[n := t.info[n].(refCount := 0)],
       nNew := t.nNew - 1)
  }

  /** The invariant while entry `n` is in no bucket at all and in neither total. */
  ghost predicate Limbo(net: Net, t: Tables, n: int) {
    && n in t.info && !t.info[n].inTried && t.info[n].refCount == 0 && t.info[n].lastSuccess > 0
    && AddrIndexed(t)
    && RandomIndexed(t)
    && Statistics(t, n)
    && RefCounted(t, -1)
    && TriedPlaced(net, t)
    && Bounded(t)
    && t.nTried == |TriedIds(t)|
    && t.nNew == |NewIds(t) - {n}|
  }

  lemma {:induction false} HoldersWithoutId(untried: seq<set<int>>, n: int, m: int)
    ensures Holders(WithoutId(untried, n), m) == if m == n then 0 else Holders(untried, m)
  {
    var r := WithoutId(untried, n);
    if |untried| > 0 {
      var last := |untried| - 1;
      assert r[..last] == WithoutId(untried[..last], n);
      HoldersWithoutId(untried[..last], n, m);
    }
  }

  lemma ClearRefs(t: Tables, n: int)
    requires RefCounted(t, -1) && n in t.info && n != -1
    ensures RefCounted(Cleared(t, n), -1)
  {
    var u := Cleared(t, n);
    forall m | m in u.info ensures u.info[m].refCount == Holders(u.untried, m) + Bit(m == -1) {
      HoldersWithoutId(t.untried, n, m);
    }
    forall b, m | 0 <= b < |u.untried| && m in u.untried[b] ensures m in u.info && !u.info[m].inTried {
      assert m in t.untried[b] && m in t.info;
    }
  }

  lemma ClearBounded(t: Tables, n: int)
    requires Bounded(t) && n in t.info
    ensures Bounded(Cleared(t, n))
  {
    var u := Cleared(t, n);
    forall b | 0 <= b < |u.untried| ensures |u.untried[b]| <= NEW_BUCKET_SIZE {
      assert t.untried[b] == if n in t.untried[b] then u.untried[b] + {n} else u.untried[b];
    }
  }

  lemma ClearLimbo(net: Net, t: Tables, n: int)
    requires Inv(net, t)
    requires n in t.info && !t.info[n].inTried && t.info[n].lastSuccess > 0
    ensures Limbo(net, Cleared(t, n), n)
  {
    var u := Cleared(t, n);
    ClearRefs(t, n);
    ClearBounded(t, n);
    hide AddrIndexed, RandomIndexed, TriedPlaced, RefCounted, Bounded;
    SameIndexKeeps(t, u);
    SameTried(net, t, u);
    SameIds(t, u);
    assert Statistics(u, n);
    assert n in NewIds(t);
  }

  /** The entry is appended to its tried bucket. */
  function Settled(t: Tables, n: int, k: nat): Tables
    requires n in t.info && k < |t.tried|
  {
    t.(tried := t.tried[k := t.tried[k] + [n]],
       info := t.info[n := t.info[n].(inTried := true)],
       nTried := t.nTried + 1)
  }

  lemma SettleIds(t: Tables, n: int, k: nat)
    requires n in t.info && k < |t.tried|
    ensures TriedIds(Settled(t, n, k)) == TriedIds(t) + {n}
    ensures NewIds(Settled(t, n, k)) == NewIds(t) - {n}
  {
  }

  lemma SettleKeeps(net: Net, t: Tables, n: int)
    requires Limbo(net, t, n)
    requires |t.tried[TriedBucket(net, t.key, t.info[n].service)]| < TRIED_BUCKET_SIZE
    ensures Inv(net, Settled(t, n, TriedBucket(net, t.key, t.info[n].service)))
  {
    var k := TriedBucket(net, t.key, t.info[n].service);
    var u := Settled(t, n, k);
    hide AddrIndexed, RandomIndexed, TriedPlaced, RefCounted;
    SettleRefs(t, n, k);
    SettlePlaced(net, t, n);
    SettleIds(t, n, k);
    SameIndexKeeps(t, u);
    assert Statistics(u, -1);
    assert n !in TriedIds(t);
  }

  lemma SettlePlaced(net: Net, t: Tables, n: int)
    requires TriedPlaced(net, t) && n in t.info && !t.info[n].inTried
    ensures TriedPlaced(net, Settled(t, n, TriedBucket(net, t.key, t.info[n].service)))
  {
    var k := TriedBucket(net, t.key, t.info[n].service);
    var u := Settled(t, n, k);
    forall b, i | 0 <= b < |u.tried| && 0 <= i < |u.tried[b]|
      ensures u.tried[b][i] in u.info && u.info[u.tried[b][i]].inTried
              && TriedBucket(net, u.key, u.info[u.tried[b][i]].service) == b
    {
      if b == k && i == |t.tried[k]| {
      } else {
        assert u.tried[b][i] == t.tried[b][i];
      }
    }
    forall b | 0 <= b < |u.tried| ensures Distinct(u.tried[b]) {
      if b == k {
        assert forall i :: 0 <= i < |t.tried[k]| ==> t.tried[k][i] != n;
      }
    }
    forall m | m in u.info && u.info[m].inTried ensures m in u.tried[TriedBucket(net, u.key, u.info[m].service)] {
      if m == n {
        assert u.tried[k][|t.tried[k]|] == n;
      } else {
        assert m in t.tried[TriedBucket(net, t.key, t.info[m].service)];
      }
    }
  }

  lemma SettleRefs(t: Tables, n: int, k: nat)
    requires RefCounted(t, -1) && n in t.info && t.info[n].refCount == 0 && n != -1 && k < |t.tried|
    ensures RefCounted(Settled(t, n, k), -1)
  {
    var u := Settled(t, n, k);
    forall b, m | 0 <= b < |u.untried| && m in u.untried[b] ensures m in u.info && !u.info[m].inTried {
      HoldersPositive(t.untried, b, m);
      assert m in t.info && m != n;
    }
  }

  /** The entry at position `pos` of tried bucket `k` goes back to new bucket `dest` and `n`
      takes its place. */
  function Displaced(t: Tables, n: int, k: nat, pos: nat, dest: nat): Tables
    requires n in t.info && k < |t.tried| && pos < |t.tried[k]| && dest < |t.untried|
    requires t.tried[k][pos] in t.info
  {
    var old_ := t.tried[k][pos];
    var info1 := t.info[old_ := t.info[old_].(inTried := false, refCount := 1)];
    t.(info := info1[n := info1[n].(inTried := true)],
       untried := t.untried[dest := t.untried[dest] + {old_}],
       nNew := t.nNew + 1,
       tried := t.tried[k := t.tried[k][pos := n]])
  }

  lemma DisplacePlaced(net: Net, t: Tables, n: int, pos: nat, dest: nat)
    requires TriedPlaced(net, t) && n in t.info && !t.info[n].inTried && dest < |t.untried|
    requires pos < |t.tried[TriedBucket(net, t.key, t.info[n].service)]|
    ensures TriedPlaced(net, Displaced(t, n, TriedBucket(net, t.key, t.info[n].service), pos, dest))
  {
    var k := TriedBucket(net, t.key, t.info[n].service);
    var v := t.tried[k][pos];
    var u := Displaced(t, n, k, pos, dest);
    assert v in t.info && v != n;
    forall b, i | 0 <= b < |u.tried| && 0 <= i < |u.tried[b]|
      ensures u.tried[b][i] in u.info && u.info[u.tried[b][i]].inTried
              && TriedBucket(net, u.key, u.info[u.tried[b][i]].service) == b
    {
      if b == k && i == pos {
      } else {
        var m := t.tried[b][i];
        assert u.tried[b][i] == m && m in t.info && m != n;
        assert m != v;
      }
    }
    forall b | 0 <= b < |u.tried| ensures Distinct(u.tried[b]) {
      if b == k {
        assert forall i :: 0 <= i < |t.tried[k]| ==> t.tried[k][i] != n;
      }
    }
    forall m | m in u.info && u.info[m].inTried ensures m in u.tried[TriedBucket(net, u.key, u.info[m].service)] {
      if m == n {
        assert u.tried[k][pos] == n;
      } else {
        var b := TriedBucket(net, t.key, t.info[m].service);
        var i :| 0 <= i < |t.tried[b]| && t.tried[b][i] == m;
        assert u.tried[b][i] == m;
      }
    }
  }

  lemma DisplaceRefs(t: Tables, n: int, k: nat, pos: nat, dest: nat)
    requires RefCounted(t, -1) && n in t.info && t.info[n].refCount == 0 && n != -1
    requires k < |t.tried| && pos < |t.tried[k]| && dest < |t.untried|
    requires t.tried[k][pos] in t.info && t.tried[k][pos] != -1 && t.tried[k][pos] != n
    requires t.info[t.tried[k][pos]].refCount == 0 && t.info[t.tried[k][pos]].inTried
    ensures RefCounted(Displaced(t, n, k, pos, dest), -1)
  {
    var v := t.tried[k][pos];
    var u := Displaced(t, n, k, pos, dest);
    forall m | m in u.info ensures u.info[m].refCount == Holders(u.untried, m) + Bit(m == -1) {
      HoldersUpdate(t.untried, dest, t.untried[dest] + {v}, m);
    }
    forall b, m | 0 <= b < |u.untried| && m in u.untried[b] ensures m in u.info && !u.info[m].inTried {
      if m != v {
        assert m in t.untried[b];
        HoldersPositive(t.untried, b, m);
        assert m != n;
      }
    }
  }

  lemma DisplaceIds(t: Tables, n: int, k: nat, pos: nat, dest: nat)
    requires n in t.info && k < |t.tried| && pos < |t.tried[k]| && dest < |t.untried|
    requires t.tried[k][pos] in t.info && t.tried[k][pos] != n
    ensures TriedIds(Displaced(t, n, k, pos, dest)) == TriedIds(t) - {t.tried[k][pos]} + {n}
    ensures NewIds(Displaced(t, n, k, pos, dest)) == NewIds(t) - {n} + {t.tried[k][pos]}
  {
  }

  lemma DisplaceBounded(t: Tables, n: int, k: nat, pos: nat, dest: nat)
    requires Bounded(t) && n in t.info && k < |t.tried| && pos < |t.tried[k]| && dest < |t.untried|
    requires t.tried[k][pos] in t.info && |t.untried[dest]| < NEW_BUCKET_SIZE
    ensures Bounded(Displaced(t, n, k, pos, dest))
  {
  }

  lemma DisplaceRest(t: Tables, n: int, k: nat, pos: nat, dest: nat)
    requires AddrIndexed(t) && RandomIndexed(t) && Statistics(t, n)
    requires n in t.info && t.info[n].refCount == 0 && t.info[n].lastSuccess > 0
    requires k < |t.tried| && pos < |t.tried[k]| && dest < |t.untried|
    requires t.tried[k][pos] in t.info && t.tried[k][pos] != n
    ensures var u := Displaced(t, n, k, pos, dest);
            AddrIndexed(u) && RandomIndexed(u) && Statistics(u, -1)
  {
    SameIndexKeeps(t, Displaced(t, n, k, pos, dest));
  }

  lemma DisplacedSound(net: Net, t: Tables, n: int, k: nat, pos: nat)
    requires n in t.info && TriedPlaced(net, t) && Statistics(t, n) && k < |t.tried| && pos < |t.tried[k]|
    ensures var v := t.tried[k][pos];
            v in t.info && t.info[v].inTried && 0 <= v && 0 <= n && t.info[v].refCount == 0
  {
  }

  lemma DisplaceKeeps(net: Net, t: Tables, n: int, pos: nat, dest: nat)
    requires Limbo(net, t, n)
    requires pos < |t.tried[TriedBucket(net, t.key, t.info[n].service)]|
    requires dest < |t.untried| && |t.untried[dest]| < NEW_BUCKET_SIZE
    ensures Inv(net, Displaced(t, n, TriedBucket(net, t.key, t.info[n].service), pos, dest))
  {
    hide AddrIndexed, RandomIndexed, TriedPlaced, RefCounted, Statistics;
    var k := TriedBucket(net, t.key, t.info[n].service);
    var v := t.tried[k][pos];
    DisplacedSound(net, t, n, k, pos);
    var u := Displaced(t, n, k, pos, dest);
    DisplacePlaced(net, t, n, pos, dest);
    DisplaceRefs(t, n, k, pos, dest);
    DisplaceIds(t, n, k, pos, dest);
    DisplaceBounded(t, n, k, pos, dest);
    DisplaceRest(t, n, k, pos, dest);
    assert v in TriedIds(t) && n !in TriedIds(t);
    assert v !in NewIds(t) - {n};
  }

  // ----- Shuffling a tried bucket -----

  function Reordered(t: Tables, k: nat, s: seq<int>): Tables
    requires k < |t.tried|
  {
    t.(tried := t.tried[k := s])
  }

  lemma ReorderPlaced(net: Net, t: Tables, k: nat, s: seq<int>)
    requires TriedPlaced(net, t) && k < |t.tried|
    requires Distinct(s) && multiset(s) == multiset(t.tried[k])
    ensures TriedPlaced(net, Reordered(t, k, s)) && |s| == |t.tried[k]|
  {
    var u := Reordered(t, k, s);
    assert |s| == |multiset(s)| == |t.tried[k]|;
    forall b, i | 0 <= b < |u.tried| && 0 <= i < |u.tried[b]|
      ensures u.tried[b][i] in u.info && u.info[u.tried[b][i]].inTried
              && TriedBucket(net, u.key, u.info[u.tried[b][i]].service) == b
    {
      if b == k {
        assert s[i] in multiset(s);
        assert s[i] in multiset(t.tried[k]);
        var j :| 0 <= j < |t.tried[k]| && t.tried[k][j] == s[i];
      }
    }
    forall m | m in u.info && u.info[m].inTried ensures m in u.tried[TriedBucket(net, u.key, u.info[m].service)] {
      var b := TriedBucket(net, t.key, t.info[m].service);
      assert m in t.tried[b];
      if b == k {
        assert m in multiset(t.tried[k]);
        assert m in multiset(s);
      }
    }
  }

  /** What is in a tried bucket is a tried entry. */
  lemma BucketMembers(net: Net, t: Tables, n: int, k: nat)
    requires Limbo(net, t, n) && k < |t.tried|
    ensures Distinct(t.tried[k])
    ensures forall m :: m in t.tried[k] ==> m in t.info && t.info[m].inTried && m >= 0
  {
    forall m | m in t.tried[k] ensures m in t.info && t.info[m].inTried && m >= 0 {
      var i :| 0 <= i < |t.tried[k]| && t.tried[k][i] == m;
    }
  }

  lemma ReorderKeeps(net: Net, t: Tables, n: int, k: nat, s: seq<int>)
    requires Limbo(net, t, n) && k < |t.tried|
    requires Distinct(s) && multiset(s) == multiset(t.tried[k])
    ensures Limbo(net, Reordered(t, k, s), n)
  {
    var u := Reordered(t, k, s);
    hide AddrIndexed, RandomIndexed, TriedPlaced, RefCounted;
    ReorderPlaced(net, t, k, s);
    SameIndexKeeps(t, u);
    SameIds(t, u);
  }

  // ----- Promotion as a whole -----

  /** The new bucket an evicted entry returns to: its own, or else the one `n` came from. */
  function Refuge(net: Net, t: Tables, v: int, origin: nat): (b: nat)
    requires v in t.info && |t.untried| == NEW_BUCKET_COUNT
  {
    var own := NewBucket(net, t.key, t.info[v].service, t.info[v].source);
    if |t.untried[own]| < NEW_BUCKET_SIZE then own else origin
  }

  /** `u` is `t` after `n`, once in new bucket `origin`, became tried; if its tried bucket was full,
      that bucket was put into `order` and the entry at `pos` of it made way. */
  ghost predicate Moved(net: Net, t: Tables, u: Tables, n: int, origin: nat, order: seq<int>, pos: int)
    requires n in t.info && Bounded(t) && origin < |t.untried|
  {
    var k := TriedBucket(net, t.key, t.info[n].service);
    var c := Cleared(t, n);
    if |t.tried[k]| < TRIED_BUCKET_SIZE then u == Settled(c, n, k)
    else
      && multiset(order) == multiset(t.tried[k]) && Distinct(order)
      && 0 <= pos < |order| && order[pos] in c.info
      && u == Displaced(Reordered(c, k, order), n, k, pos, Refuge(net, c, order[pos], origin))
  }

  /** "There is certainly place there": once `n` has left, the bucket it came from has room. */
  lemma RefugeHasRoom(net: Net, t: Tables, n: int, v: int, origin: nat)
    requires Inv(net, t) && n in t.info && v in t.info && origin < |t.untried| && n in t.untried[origin]
    ensures var c := Cleared(t, n);
            Refuge(net, c, v, origin) < |c.untried| && |c.untried[Refuge(net, c, v, origin)]| < NEW_BUCKET_SIZE
  {
    var c := Cleared(t, n);
    assert t.untried[origin] == c.untried[origin] + {n};
  }

  lemma MovedKeeps(net: Net, t: Tables, u: Tables, n: int, origin: nat, order: seq<int>, pos: int)
    requires Inv(net, t)
    requires n in t.info && !t.info[n].inTried && t.info[n].lastSuccess > 0
    requires origin < |t.untried| && n in t.untried[origin]
    requires Moved(net, t, u, n, origin, order, pos)
    ensures Inv(net, u)
  {
    var k := TriedBucket(net, t.key, t.info[n].service);
    var c := Cleared(t, n);
    ClearLimbo(net, t, n);
    if |t.tried[k]| < TRIED_BUCKET_SIZE {
      SettleKeeps(net, c, n);
    } else {
      var d := Reordered(c, k, order);
      RefugeHasRoom(net, t, n, order[pos], origin);
      hide Waiting;
      ReorderKeeps(net, c, n, k, order);
      hide Limbo;
      DisplaceKeeps(net, d, n, pos, Refuge(net, c, order[pos], origin));
    }
  }

  // ----- Whatever the times of one entry -----

  /** `t` with the times of entry `n` replaced by good ones. */
  function Timed(t: Tables, n: int): Tables
    requires n in t.info
  {
    t.(info := t.info[n := t.info[n].(lastTry := 1, lastSuccess := 1)])
  }

  /** The invariant, save that nothing is said about the times of entry `n`. */
  ghost predicate Untimed(net: Net, t: Tables, n: int) {
    n in t.info && Inv(net, Timed(t, n))
  }

  /** What the invariant says about them. */
  predicate TimesSound(i: Info) {
    i.lastTry >= 0 && i.lastSuccess >= 0 && (i.inTried ==> i.lastSuccess != 0)
  }

  lemma TimedIndex(t: Tables, n: int)
    requires n in t.info
    ensures SameMembers(t, Timed(t, n)) && SameMembers(Timed(t, n), t)
    ensures RandomIndexed(t) <==> RandomIndexed(Timed(t, n))
  {
    var u := Timed(t, n);
    if RandomIndexed(t) {
      SameIndexRandom(t, u);
    }
    if RandomIndexed(u) {
      SameIndexRandom(u, t);
    }
  }

  lemma TimedStatistics(t: Tables, n: int)
    requires n in t.info && Statistics(Timed(t, n), -1)
    ensures Statistics(t, -1) <==> TimesSound(t.info[n])
  {
    var u := Timed(t, n);
    forall m | m in t.info && m != n ensures u.info[m] == t.info[m] && m in u.info {
    }
    assert n in u.info;
  }

  /** So the invariant is that and sound times. */
  lemma UntimedExactly(net: Net, t: Tables, n: int)
    requires n in t.info
    ensures Inv(net, t) <==> Untimed(net, t, n) && TimesSound(t.info[n])
  {
    var u := Timed(t, n);
    TimedIndex(t, n);
    hide RandomIndexed, SameMembers, AddrIndexed, RefCounted, TriedPlaced, Totals, Bounded;
    if Inv(net, t) {
      assert Statistics(u, -1);
      SameMembersKeeps(net, t, u, -1);
    }
    if Untimed(net, t, n) && TimesSound(t.info[n]) {
      TimedStatistics(t, n);
      SameMembersKeeps(net, u, t, -1);
    }
  }

  /** The promotion does not look at the times. */
  lemma TimedMoved(net: Net, t: Tables, u: Tables, n: int, origin: nat, order: seq<int>, pos: int)
    requires n in t.info && Bounded(t) && origin < |t.untried| && !t.info[n].inTried && TriedPlaced(net, t)
    requires Moved(net, t, u, n, origin, order, pos)
    ensures n in u.info && Bounded(Timed(t, n)) && Moved(net, Timed(t, n), Timed(u, n), n, origin, order, pos)
  {
    var k := TriedBucket(net, t.key, t.info[n].service);
    var c := Cleared(t, n);
    assert Timed(c, n) == Cleared(Timed(t, n), n);
    hide Bounded, Cleared;
    if |t.tried[k]| < TRIED_BUCKET_SIZE {
      assert Timed(Settled(c, n, k), n) == Settled(Timed(c, n), n, k);
    } else {
      var v := order[pos];
      NotInBucket(net, t, n, k, order, pos);
      var d := Reordered(c, k, order);
      var dest := Refuge(net, c, v, origin);
      assert Refuge(net, Timed(c, n), v, origin) == dest;
      TimedDisplaced(d, n, k, pos, dest);
    }
  }

  lemma NotInBucket(net: Net, t: Tables, n: int, k: nat, order: seq<int>, pos: int)
    requires TriedPlaced(net, t) && n in t.info && !t.info[n].inTried && k < |t.tried|
    requires multiset(order) == multiset(t.tried[k]) && 0 <= pos < |order|
    ensures order[pos] != n
  {
    assert order[pos] in multiset(order);
    assert order[pos] in multiset(t.tried[k]);
    var j :| 0 <= j < |t.tried[k]| && t.tried[k][j] == order[pos];
  }

  lemma TimedDisplaced(t: Tables, n: int, k: nat, pos: nat, dest: nat)
    requires n in t.info && k < |t.tried| && pos < |t.tried[k]| && dest < |t.untried|
    requires t.tried[k][pos] in t.info && t.tried[k][pos] != n
    ensures Timed(Displaced(t, n, k, pos, dest), n) == Displaced(Timed(t, n), n, k, pos, dest)
  {
  }

  /** What does not depend on the times. */
  lemma UntimedParts(net: Net, t: Tables, n: int)
    requires Untimed(net, t, n)
    ensures Bounded(t) && TriedPlaced(net, t) && RefCounted(t, -1)
  {
    TimedIndex(t, n);
    hide SameMembers, RandomIndexed;
    TimedSame(net, t, n);
  }

  lemma TimedSame(net: Net, t: Tables, n: int)
    requires n in t.info && TriedPlaced(net, Timed(t, n)) && RefCounted(Timed(t, n), -1)
    ensures TriedPlaced(net, t) && RefCounted(t, -1)
  {
    TimedIndex(t, n);
    SameTried(net, Timed(t, n), t);
    SameRefs(Timed(t, n), t, -1);
  }

  lemma MovedUntimed(net: Net, t: Tables, u: Tables, n: int, origin: nat, order: seq<int>, pos: int)
    requires Untimed(net, t, n) && !t.info[n].inTried && origin < |t.untried| && n in t.untried[origin]
    requires Bounded(t) && Moved(net, t, u, n, origin, order, pos)
    ensures Untimed(net, u, n)
  {
    hide Moved, Inv, Waiting, Bounded;
    UntimedParts(net, t, n);
    TimedMoved(net, t, u, n, origin, order, pos);
    MovedKeeps(net, Timed(t, n), Timed(u, n), n, origin, order, pos);
  }

  ghost predicate Differs(t: Tables, u: Tables, m: int) {
    m in t.info && m in u.info && u.info[m] != t.info[m]
  }

  /** A promotion loses no address, never lowers the tried total, makes `n` tried, and touches no
      other entry except possibly one, which was tried and is evicted. */
  ghost predicate Promotion(t: Tables, u: Tables, n: int) {
    && u.addr == t.addr && u.random == t.random && u.key == t.key && u.idCount == t.idCount
    && u.nTried >= t.nTried
    && (forall m :: m in u.info <==> m in t.info)
    && n in t.info && u.info[n] == t.info[n].(inTried := true, refCount := u.info[n].refCount)
    && (forall m :: m in t.info && m != n && u.info[m] != t.info[m] ==>
          t.info[m].inTried && u.info[m] == t.info[m].(inTried := false, refCount := 1))
    && (forall l, m :: l != n && Differs(t, u, l) && m != n && Differs(t, u, m) ==> l == m)
  }

  lemma MovedConserves(net: Net, t: Tables, u: Tables, n: int, origin: nat, order: seq<int>, pos: int)
    requires n in t.info && Bounded(t) && origin < |t.untried|
    requires Moved(net, t, u, n, origin, order, pos)
    requires !t.info[n].inTried && TriedPlaced(net, t)
    ensures Promotion(t, u, n)
  {
    var k := TriedBucket(net, t.key, t.info[n].service);
    if |t.tried[k]| >= TRIED_BUCKET_SIZE {
      assert order[pos] in multiset(order);
      assert order[pos] in multiset(t.tried[k]);
      var j :| 0 <= j < |t.tried[k]| && t.tried[k][j] == order[pos];
    }
    forall m | m != n && Differs(t, u, m)
      ensures |t.tried[k]| >= TRIED_BUCKET_SIZE && m == order[pos]
    {
      OnlyOneMoved(net, t, u, n, origin, order, pos, m);
    }
  }

  lemma OnlyOneMoved(net: Net, t: Tables, u: Tables, n: int, origin: nat, order: seq<int>, pos: int, m: int)
    requires n in t.info && Bounded(t) && origin < |t.untried|
    requires Moved(net, t, u, n, origin, order, pos) && m != n && Differs(t, u, m)
    ensures |t.tried[TriedBucket(net, t.key, t.info[n].service)]| >= TRIED_BUCKET_SIZE && m == order[pos]
  {
  }

  // ----- What an addition can change -----

  /** From `t` to `u` nothing tried changed, no entry came but possibly one for `ip`, and no entry
      went but possibly one, for another address, that was untried and had a single reference. */
  ghost predicate Conserved(t: Tables, u: Tables, ip: NetAddr) {
    && u.key == t.key && u.nTried == t.nTried && u.tried == t.tried
    && (forall n :: n in u.info && n !in t.info ==> u.info[n].service.ip == ip)
    && (forall n :: n in t.info && n in u.info ==>
          u.info[n].service == t.info[n].service && u.info[n].inTried == t.info[n].inTried)
    && (forall n :: n in t.info && n !in u.info ==>
          !t.info[n].inTried && t.info[n].refCount == 1 && t.info[n].service.ip != ip)
    && (forall m, n :: m in t.info && m !in u.info && n in t.info && n !in u.info ==> m == n)
  }

  /** From `t` to `u` at most entry `n` is gone, if it had one reference, and all others kept
      their address, side and references. */
  ghost predicate OneFewer(t: Tables, u: Tables, n: int) {
    && n in t.info
    && u.key == t.key && u.nTried == t.nTried && u.tried == t.tried
    && (forall m :: m in u.info <==> m in t.info && (m == n ==> t.info[n].refCount != 1))
    && (forall m :: m in u.info ==> SameSide(u.info[m], t.info[m]))
  }

  predicate SameSide(i: Info, j: Info) {
    i.service == j.service && i.inTried == j.inTried
  }

  lemma DropConserves(t: Tables, b: nat, n: int)
    requires RandomIndexed(t) && b < |t.untried| && n in t.info
    ensures OneFewer(t, Dropped(t, b, n), n)
    ensures Dropped(t, b, n).untried == t.untried[b := t.untried[b] - {n}]
  {
    var u := Dropped(t, b, n);
    if t.info[n].refCount == 1 {
      DroppedLast(t, b, n);
      forall m ensures m in u.info <==> m in t.info && m != n {
      }
    }
  }

  /** One more reference to `n` in new bucket `b`; if that is full, `victim` drops out first. */
  function Placed(t: Tables, n: int, b: nat, victim: int): Tables
    requires n in t.info && b < |t.untried|
    requires |t.untried[b]| == NEW_BUCKET_SIZE ==>
               victim in t.info && 0 <= t.info[victim].randomPos < |t.random|
               && t.random[t.info[victim].randomPos] == victim && t.random[|t.random| - 1] in t.info
  {
    var r := Referred(t, n);
    Seated(if |t.untried[b]| == NEW_BUCKET_SIZE then Dropped(r, b, victim) else r, b, n)
  }

  lemma PlaceKeeps(net: Net, t: Tables, n: int, b: nat, victim: int)
    requires n in t.info && n != -1 && RandomIndexed(t) && Waiting(net, Referred(t, n), n)
    requires b < |t.untried| && n !in t.untried[b]
    requires |t.untried[b]| == NEW_BUCKET_SIZE ==> victim in t.untried[b] && victim in t.info
    ensures Inv(net, Placed(t, n, b, victim))
  {
    var r := Referred(t, n);
    if |t.untried[b]| == NEW_BUCKET_SIZE {
      DropKeeps(net, r, b, victim, n);
      DropConserves(r, b, victim);
      hide Waiting, Dropped;
      assert t.untried[b] == Dropped(r, b, victim).untried[b] + {victim};
      SeatKeeps(net, Dropped(r, b, victim), b, n);
    } else {
      SeatKeeps(net, r, b, n);
    }
  }

  lemma PlaceConserves(t: Tables, n: int, b: nat, victim: int)
    requires n in t.info && RandomIndexed(t) && AddrIndexed(t) && b < |t.untried| && n !in t.untried[b]
    requires |t.untried[b]| == NEW_BUCKET_SIZE ==> victim in t.untried[b] && victim in t.info && !t.info[victim].inTried
    ensures Conserved(t, Placed(t, n, b, victim), t.info[n].service.ip)
    ensures n in Placed(t, n, b, victim).info && n in Placed(t, n, b, victim).untried[b]
  {
    var r := Referred(t, n);
    var u := Placed(t, n, b, victim);
    if |t.untried[b]| == NEW_BUCKET_SIZE {
      SameIndexRandom(t, r);
      DropConserves(r, b, victim);
      var d := Dropped(r, b, victim);
      hide Dropped, RandomIndexed;
      FewerConserved(t, d, n, victim);
    }
  }

  lemma FewerConserved(t: Tables, d: Tables, n: int, victim: int)
    requires n in t.info && AddrIndexed(t) && victim in t.info && victim != n && !t.info[victim].inTried
    requires OneFewer(Referred(t, n), d, victim)
    ensures n in d.info && Conserved(t, d, t.info[n].service.ip)
  {
    var r := Referred(t, n);
    forall m ensures m in d.info <==> m in t.info && (m == victim ==> t.info[victim].refCount != 1) {
      assert m in d.info <==> m in r.info && (m == victim ==> r.info[victim].refCount != 1);
    }
    forall m | m in d.info ensures SameSide(d.info[m], t.info[m]) {
      assert SameSide(d.info[m], r.info[m]);
    }
    assert t.addr[t.info[n].service.ip] == n && t.addr[t.info[victim].service.ip] == victim;
  }

  lemma ConservedAfterSame(t: Tables, r: Tables, u: Tables, ip: NetAddr)
    requires SameMembers(t, r) && Conserved(r, u, ip)
    ensures Conserved(t, u, ip)
  {
    forall n ensures n in r.info <==> n in t.info {
    }
  }

  lemma ConservedAfterNew(t: Tables, r: Tables, u: Tables, n: int, ip: NetAddr)
    requires r.key == t.key && r.nTried == t.nTried && r.tried == t.tried
    requires n !in t.info && n in r.info && r.info == t.info[n := r.info[n]] && r.info[n].service.ip == ip
    requires Conserved(r, u, ip)
    ensures Conserved(t, u, ip)
  {
    forall m ensures m in r.info <==> m in t.info || m == n {
    }
  }

  /** Among the known addresses: at most `ip` comes and at most one other goes. */
  lemma AddressesConserved(t: Tables, u: Tables, ip: NetAddr)
    requires AddrIndexed(t) && AddrIndexed(u) && Conserved(t, u, ip)
    ensures u.addr.Keys <= t.addr.Keys + {ip}
    ensures ip in t.addr ==> ip in u.addr
    ensures |t.addr.Keys - u.addr.Keys| <= 1
  {
    forall a | a in u.addr ensures a in t.addr || a == ip {
      var n := u.addr[a];
      assert n in u.info;
      if n in t.info {
        assert t.info[n].service.ip == a;
      }
    }
    if ip in t.addr {
      var n := t.addr[ip];
      assert n in t.info && n in u.info;
    }
    var lost := t.addr.Keys - u.addr.Keys;
    forall a, c | a in lost && c in lost ensures a == c {
      var m, n := t.addr[a], t.addr[c];
      assert m in t.info && n in t.info;
      assert m !in u.info && n !in u.info;
    }
    AtMostOne(lost);
  }

  lemma AtMostOne<T>(s: set<T>)
    requires forall a, c :: a in s && c in s ==> a == c
    ensures |s| <= 1
  {
    if |s| > 0 {
      var a :| a in s;
      assert s == {a};
    }
  }

  // ----- How much the tables can hold -----

  function Elements(s: seq<int>): set<int> {
    set x | x in s
  }

  function Union(sets: seq<set<int>>): set<int> {
    if |sets| == 0 then {} else Union(sets[..|sets| - 1]) + sets[|sets| - 1]
  }

  lemma {:induction false} UnionContains(sets: seq<set<int>>, b: nat)
    requires b < |sets|
    ensures sets[b] <= Union(sets)
  {
    var last := |sets| - 1;
    if b < last {
      assert sets[..last][b] == sets[b];
      UnionContains(sets[..last], b);
    }
  }

  lemma {:induction false} UnionBound(sets: seq<set<int>>, cap: nat)
    requires forall b :: 0 <= b < |sets| ==> |sets[b]| <= cap
    ensures |Union(sets)| <= |sets| * cap
  {
    if |sets| > 0 {
      var last := |sets| - 1;
      var rest := sets[..last];
      UnionBound(rest, cap);
      SumOfSizes(Union(rest), sets[last]);
      assert (last + 1) * cap == last * cap + cap;
    }
  }

  lemma SumOfSizes(a: set<int>, b: set<int>)
    ensures |a + b| <= |a| + |b|
  {
    assert a + b == a + (b - a);
    assert b == (b - a) + (b * a);
  }

  lemma {:induction false} ElementsBound(s: seq<int>)
    ensures |Elements(s)| <= |s|
  {
    if |s| > 0 {
      var rest := s[..|s| - 1];
      ElementsBound(rest);
      assert Elements(s) == Elements(rest) + {s[|s| - 1]};
    }
  }

  lemma {:induction false} DistinctSize(s: seq<int>)
    requires Distinct(s)
    ensures |Elements(s)| == |s|
  {
    if |s| > 0 {
      var rest := s[..|s| - 1];
      DistinctSize(rest);
      assert Elements(s) == Elements(rest) + {s[|s| - 1]};
      assert s[|s| - 1] !in Elements(rest);
    }
  }

  lemma RandomDistinct(t: Tables)
    requires RandomIndexed(t)
    ensures Distinct(t.random) && Elements(t.random) == t.info.Keys
  {
    forall i, j | 0 <= i < j < |t.random| ensures t.random[i] != t.random[j] {
      var m, n := t.random[i], t.random[j];
      assert t.info[m].randomPos == i && t.info[n].randomPos == j;
    }
    forall n | n in t.info ensures n in Elements(t.random) {
      assert t.random[t.info[n].randomPos] == n;
    }
  }

  /** The random list runs through every entry exactly once, so `size()` is the sum of the totals. */
  lemma SizeIsTotal(net: Net, t: Tables)
    requires Inv(net, t)
    ensures |t.random| == |t.info.Keys| == t.nNew + t.nTried
  {
    RandomDistinct(t);
    DistinctSize(t.random);
    IdsPartition(t);
  }

  lemma IdsPartition(t: Tables)
    ensures |t.info.Keys| == |NewIds(t)| + |TriedIds(t)|
  {
    assert NewIds(t) + TriedIds(t) == t.info.Keys;
    assert NewIds(t) !! TriedIds(t);
  }

  lemma NewTotalBound(net: Net, t: Tables)
    requires Inv(net, t)
    ensures t.nNew <= NEW_BUCKET_COUNT * NEW_BUCKET_SIZE
  {
    UnionBound(t.untried, NEW_BUCKET_SIZE);
    assert NewIds(t) <= Union(t.untried) by {
      forall n | n in NewIds(t) ensures n in Union(t.untried) {
        assert n in t.info && t.info[n].refCount == Holders(t.untried, n) + Bit(n == -1);
        var b := HolderExists(t.untried, n);
        UnionContains(t.untried, b);
      }
    }
    SubsetSize(NewIds(t), Union(t.untried));
  }

  lemma TriedTotalBound(net: Net, t: Tables)
    requires Inv(net, t)
    ensures t.nTried <= TRIED_BUCKET_COUNT * TRIED_BUCKET_SIZE
  {
    var sets := seq(|t.tried|, b requires 0 <= b < |t.tried| => Elements(t.tried[b]));
    forall b | 0 <= b < |sets| ensures |sets[b]| <= TRIED_BUCKET_SIZE {
      ElementsBound(t.tried[b]);
    }
    UnionBound(sets, TRIED_BUCKET_SIZE);
    assert TriedIds(t) <= Union(sets) by {
      forall n | n in TriedIds(t) ensures n in Union(sets) {
        var b := TriedBucket(net, t.key, t.info[n].service);
        assert n in t.tried[b];
        assert n in sets[b];
        UnionContains(sets, b);
      }
    }
    SubsetSize(TriedIds(t), Union(sets));
  }

  /** The design goal of a bounded table: never more than 64 * 64 + 256 * 64 addresses. */
  lemma SizeBound(net: Net, t: Tables)
    requires Inv(net, t)
    ensures |t.random| <= 20480
  {
    SizeIsTotal(net, t);
    NewTotalBound(net, t);
    TriedTotalBound(net, t);
  }

  ghost function TriedOfGroup(net: Net, t: Tables, group: Bytes): set<int> {
    set n | n in t.info && t.info[n].inTried && net.group(t.info[n].service.ip) == group
  }

  /** The design goal against localized attackers: one network group owns at most 4 of the 64
      tried buckets, hence at most 256 tried entries. */
  lemma GroupBound(net: Net, t: Tables, group: Bytes)
    requires Inv(net, t)
    ensures |TriedOfGroup(net, t, group)| <= 256
  {
    var own := seq(TRIED_BUCKETS_PER_GROUP, slot requires 0 <= slot < TRIED_BUCKETS_PER_GROUP =>
      Elements(t.tried[TriedBucketOfSlot(net, t.key, group, slot)]));
    forall slot | 0 <= slot < |own| ensures |own[slot]| <= TRIED_BUCKET_SIZE {
      ElementsBound(t.tried[TriedBucketOfSlot(net, t.key, group, slot)]);
    }
    UnionBound(own, TRIED_BUCKET_SIZE);
    var all := TriedOfGroup(net, t, group);
    forall n | n in all ensures n in Union(own) {
      var slot := TriedSlot(net, t.key, t.info[n].service);
      assert n in t.tried[TriedBucketOfSlot(net, t.key, group, slot)];
      assert n in own[slot];
      UnionContains(own, slot);
    }
    SubsetSize(all, Union(own));
  }

  // ----- What the hashed bytes and the statistics mean -----

  /** The bytes of a service are those of its address and its port, high byte first. */
  lemma ServiceKeyExactly(s: Service)
    requires s.port < 0x1_0000
    ensures var k, n := ServiceKey(s), |s.ip|;
            |k| == n + 2 && k[..n] == s.ip && s.port == 0x100 * (k[n] as int) + k[n + 1] as int
  {
    var n := |s.ip|;
    assert ServiceKey(s)[..n] == s.ip;
  }

  /** A tried bucket is found by two hashes over the secret key: one of address and port picks one of four slots
      of the network group, one of group and slot picks the bucket. For a new bucket it is one of 32 slots of
      the source's group, from the two groups. */
  lemma BucketsExactly(net: Net, key: Bytes, s: Service, source: NetAddr)
    requires s.port < 0x1_0000
    ensures var k := s.ip + [s.port / 0x100, s.port % 0x100];
            TriedBucket(net, key, s)
            == net.hash([key, net.group(s.ip), [net.hash([key, k]) % 4, 0, 0, 0, 0, 0, 0, 0]]) % 64
    ensures NewBucket(net, key, s, source)
            == net.hash([key, net.group(source),
                         [net.hash([key, net.group(s.ip), net.group(source)]) % 32, 0, 0, 0, 0, 0, 0, 0]]) % 256
  {
    assert ServiceKey(s) == s.ip + [s.port / 0x100, s.port % 0x100];
  }

  /** Bucket `b` can be reached by an announcement from the network group. */
  ghost predicate Reaches(net: Net, key: Bytes, group: Bytes, b: nat) {
    exists s: Service, source: NetAddr :: net.group(source) == group && NewBucket(net, key, s, source) == b
  }

  /** One network group reaches at most 32 of the 256 new buckets, whatever it announces. */
  lemma SourceBound(net: Net, key: Bytes, group: Bytes, reached: set<nat>)
    requires forall b :: b in reached ==> Reaches(net, key, group, b)
    ensures |reached| <= 32
  {
    var own := SlotBuckets(net, key, group, 32);
    forall b | b in reached ensures b in own {
      var s: Service, source: NetAddr :| net.group(source) == group && NewBucket(net, key, s, source) == b;
      SlotIn(net, key, group, NewSlot(net, key, net.group(s.ip), group), 32);
    }
    SubsetSize(reached, own);
  }

  function SlotBuckets(net: Net, key: Bytes, group: Bytes, n: nat): (r: set<nat>)
    requires n <= 32
    ensures |r| <= n
  {
    if n == 0 then {} else SlotBuckets(net, key, group, n - 1) + {NewBucketOfSlot(net, key, group, n - 1)}
  }

  lemma {:induction false} SlotIn(net: Net, key: Bytes, group: Bytes, slot: Byte, n: nat)
    requires slot < n <= 32
    ensures NewBucketOfSlot(net, key, group, slot) in SlotBuckets(net, key, group, n)
  {
    if slot < n - 1 {
      SlotIn(net, key, group, slot, n - 1);
    }
  }

  /** Which entries are terrible: not tried within a minute, and with a time more than ten minutes ahead, no
      time at all, not seen for 30 days, three tries without any success, or ten failures and no success for
      a week. */
  lemma TerribleExactly(i: Info, now: int)
    ensures IsTerrible(i, now) <==>
              && (i.lastTry == 0 || now - i.lastTry > 60)
              && (|| i.time - now > 600
                  || i.time == 0
                  || now - i.time > 2592000
                  || (i.lastSuccess == 0 && i.attempts >= 3)
                  || (now - i.lastSuccess > 604800 && i.attempts >= 10))
  {
  }

  /** A new entry sits in one to four new buckets and in no tried one, a tried entry in its tried bucket only. */
  lemma EntryPlaces(net: Net, t: Tables, n: int)
    requires Inv(net, t) && n in t.info
    ensures if t.info[n].inTried then Holders(t.untried, n) == 0 else 1 <= Holders(t.untried, n) <= 4
    ensures forall b :: 0 <= b < |t.tried| ==>
              (n in t.tried[b] <==> t.info[n].inTried && b == TriedBucket(net, t.key, t.info[n].service))
  {
    assert t.info[n].refCount == Holders(t.untried, n) + Bit(n == -1) && n != -1;
    forall b | 0 <= b < |t.tried| && n in t.tried[b]
      ensures t.info[n].inTried && b == TriedBucket(net, t.key, t.info[n].service)
    {
      var k :| 0 <= k < |t.tried[b]| && t.tried[b][k] == n;
    }
  }
}
