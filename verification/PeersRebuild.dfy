/**
 Reading a peers file back: what the tables look like after each step of the reader, that no stored
 entry or bucket reference is ever refused, and that the result is the written manager up to ids.
 */
module PeersRebuild {
  import opened Sequences
  import opened AddrTables
  import opened Ordering
  import opened PeersFile

  /** `name` lists the ids of all entries, the `first` new ones before the tried ones; the place of
      an entry in it is its id after reading. */
  ghost predicate Naming(t: Tables, name: seq<int>, first: nat) {
    && Distinct(name)
    && first <= |name|
    && (forall n :: n in name <==> n in t.info)
    && (forall k :: 0 <= k < |name| ==> name[k] in t.info && (t.info[name[k]].inTried <==> k >= first))
  }

  lemma FileOrderNames(t: Tables)
    ensures Naming(t, FileOrder(t), |NewList(t)|)
  {
    FileOrderExact(t);
  }

  /** The tried bucket of the `k`-th stored entry. */
  ghost function BucketAt(net: Net, t: Tables, name: seq<int>, k: int): nat
    requires 0 <= k < |name| && name[k] in t.info
  {
    TriedBucket(net, t.key, t.info[name[k]].service)
  }

  /** The ids below `k` of the stored tried entries that belong in tried bucket `b`. */
  ghost function TriedBelow(net: Net, t: Tables, name: seq<int>, first: nat, k: nat, b: nat): seq<int>
    requires Naming(t, name, first) && k <= |name|
  {
    if k <= first then []
    else
      TriedBelow(net, t, name, first, k - 1, b) + if BucketAt(net, t, name, k - 1) == b then [k - 1] else []
  }

  ghost predicate ExactlyBelow(net: Net, t: Tables, name: seq<int>, first: nat, k: nat, b: nat, r: seq<int>)
    requires Naming(t, name, first) && k <= |name|
  {
    && Increasing(r)
    && (forall i :: 0 <= i < |r| ==> first <= r[i] < k && BucketAt(net, t, name, r[i]) == b)
    && (forall n :: first <= n < k && BucketAt(net, t, name, n) == b ==> n in r)
  }

  lemma {:induction false} TriedBelowExact(net: Net, t: Tables, name: seq<int>, first: nat, k: nat, b: nat)
    requires Naming(t, name, first) && k <= |name|
    ensures ExactlyBelow(net, t, name, first, k, b, TriedBelow(net, t, name, first, k, b))
  {
    if k > first {
      TriedBelowExact(net, t, name, first, k - 1, b);
      var r := TriedBelow(net, t, name, first, k - 1, b);
      assert TriedBelow(net, t, name, first, k, b) == r + if BucketAt(net, t, name, k - 1) == b then [k - 1] else [];
      hide TriedBelow;
      BelowStep(net, t, name, first, k, b, r);
    }
  }

  lemma BelowStep(net: Net, t: Tables, name: seq<int>, first: nat, k: nat, b: nat, r: seq<int>)
    requires Naming(t, name, first) && first < k <= |name| && ExactlyBelow(net, t, name, first, k - 1, b, r)
    ensures ExactlyBelow(net, t, name, first, k, b, r + if BucketAt(net, t, name, k - 1) == b then [k - 1] else [])
  {
    var r' := r + if BucketAt(net, t, name, k - 1) == b then [k - 1] else [];
    forall n | first <= n < k && BucketAt(net, t, name, n) == b ensures n in r' {
      if n < k - 1 {
        assert n in r;
      } else {
        assert r'[|r|] == n;
      }
    }
  }

  lemma ImageDistinct(s: seq<int>, name: seq<int>, image: seq<int>)
    requires Distinct(name) && Increasing(s) && |image| == |s|
    requires forall i :: 0 <= i < |s| ==> 0 <= s[i] < |name| && image[i] == name[s[i]]
    ensures Distinct(image)
  {
  }

  lemma TriedBelowFits(net: Net, t: Tables, name: seq<int>, first: nat, k: nat, b: nat)
    requires TriedPlaced(net, t) && Naming(t, name, first) && k <= |name| && b < TRIED_BUCKET_COUNT
    ensures |TriedBelow(net, t, name, first, k, b)| <= |t.tried[b]|
  {
    var s := TriedBelow(net, t, name, first, k, b);
    TriedBelowExact(net, t, name, first, k, b);
    hide TriedBelow;
    var image := seq(|s|, i requires 0 <= i < |s| => name[s[i]]);
    ImageDistinct(s, name, image);
    DistinctSize(image);
    ElementsBound(t.tried[b]);
    forall x | x in Elements(image) ensures x in Elements(t.tried[b]) {
      var i :| 0 <= i < |image| && image[i] == x;
      assert t.info[x].inTried && BucketAt(net, t, name, s[i]) == b;
    }
    SubsetSize(Elements(image), Elements(t.tried[b]));
  }

  /** The tried entries that come before place `k` and share its bucket never fill that bucket, so
      the reader loses none. */
  lemma BucketHasRoom(net: Net, t: Tables, name: seq<int>, first: nat, k: nat)
    requires TriedPlaced(net, t) && Bounded(t) && Naming(t, name, first) && first <= k < |name|
    ensures |TriedBelow(net, t, name, first, k, BucketAt(net, t, name, k))| < TRIED_BUCKET_SIZE
  {
    TriedBelowFits(net, t, name, first, k + 1, BucketAt(net, t, name, k));
  }

  // ----- After the first `k` entries -----

  ghost predicate AddressesRead(t: Tables, name: seq<int>, addr: map<NetAddr, int>, k: nat)
    requires k <= |name| && forall n :: 0 <= n < |name| ==> name[n] in t.info
  {
    && (forall n :: 0 <= n < k ==>
          t.info[name[n]].service.ip in addr && addr[t.info[name[n]].service.ip] == n)
    && (forall a :: a in addr ==> var n := addr[a]; 0 <= n < k && t.info[name[n]].service.ip == a)
  }

  ghost predicate InfoRead(t: Tables, name: seq<int>, first: nat, info: map<int, Info>, untried: seq<set<int>>, k: nat)
    requires k <= |name| && forall n :: 0 <= n < |name| ==> name[n] in t.info
  {
    && (forall n :: n in info <==> 0 <= n < k)
    && (forall n :: 0 <= n < k ==>
          (n in info && info[n] == Restore(Strip(t.info[name[n]]), Holders(untried, n), n >= first, n)))
  }

  ghost predicate OrderRead(random: seq<int>, k: nat) {
    |random| == k && forall n :: 0 <= n < k ==> random[n] == n
  }

  ghost predicate TriedRead(net: Net, t: Tables, name: seq<int>, first: nat, tried: seq<seq<int>>, k: nat)
    requires Naming(t, name, first) && k <= |name|
  {
    |tried| == TRIED_BUCKET_COUNT && forall b :: 0 <= b < |tried| ==> tried[b] == TriedBelow(net, t, name, first, k, b)
  }

  lemma AddressesStep(t: Tables, name: seq<int>, first: nat, addr: map<NetAddr, int>, k: nat)
    requires Naming(t, name, first) && k < |name| && AddrIndexed(t) && AddressesRead(t, name, addr, k)
    ensures AddressesRead(t, name, addr[t.info[name[k]].service.ip := k], k + 1)
  {
    var added := name[k];
    var ip := t.info[added].service.ip;
    assert added in t.info;
    forall n | 0 <= n < k ensures t.info[name[n]].service.ip != ip {
      var m := name[n];
      assert m in t.info && m != added;
    }
  }

  lemma InfoStep(t: Tables, name: seq<int>, first: nat, info: map<int, Info>, untried: seq<set<int>>, k: nat)
    requires Naming(t, name, first) && k < |name| && InfoRead(t, name, first, info, untried, k)
        && Holders(untried, k) == 0
    ensures InfoRead(t, name, first, info[k := Restore(Strip(t.info[name[k]]), 0, k >= first, k)], untried, k + 1)
  {
  }

  lemma TriedStep(net: Net, t: Tables, name: seq<int>, first: nat, tried: seq<seq<int>>, k: nat)
    requires Naming(t, name, first) && k < |name| && TriedRead(net, t, name, first, tried, k)
    ensures k < first ==> TriedRead(net, t, name, first, tried, k + 1)
    ensures k >= first ==>
              var b := BucketAt(net, t, name, k);
              TriedRead(net, t, name, first, tried[b := tried[b] + [k]], k + 1)
  {
  }

  /** The tables after reading the first `k` entries into an empty manager. */
  ghost predicate EntriesRead(net: Net, t: Tables, name: seq<int>, first: nat, u: Tables, k: nat) {
    && Naming(t, name, first) && k <= |name|
    && u.key == t.key && u.nNew == t.nNew && u.nTried == t.nTried
    && AddressesRead(t, name, u.addr, k)
    && InfoRead(t, name, first, u.info, u.untried, k)
    && OrderRead(u.random, k)
    && TriedRead(net, t, name, first, u.tried, k)
    && |u.untried| == NEW_BUCKET_COUNT && forall b :: 0 <= b < |u.untried| ==> u.untried[b] == {}
  }

  /** One more new entry under id `k`. */
  function WithNew(u: Tables, e: Stored, k: int): Tables {
    u.(info := u.info[k := Restore(e, 0, false, |u.random|)],
       addr := u.addr[e.service.ip := k],
       random := u.random + [k])
  }

  /** One more tried entry under id `k`, in tried bucket `b`. */
  function WithTried(u: Tables, e: Stored, k: int, b: nat): Tables
    requires b < |u.tried|
  {
    u.(info := u.info[k := Restore(e, 0, true, |u.random|)],
       addr := u.addr[e.service.ip := k],
       random := u.random + [k],
       tried := u.tried[b := u.tried[b] + [k]])
  }

  lemma NewEntryStep(net: Net, t: Tables, name: seq<int>, first: nat, u: Tables, k: nat)
    requires EntriesRead(net, t, name, first, u, k) && k < first && AddrIndexed(t)
    ensures EntriesRead(net, t, name, first, WithNew(u, Strip(t.info[name[k]]), k), k + 1)
  {
    HoldersZero(u.untried, k);
    AddressesStep(t, name, first, u.addr, k);
    InfoStep(t, name, first, u.info, u.untried, k);
    TriedStep(net, t, name, first, u.tried, k);
  }

  lemma TriedEntryStep(net: Net, t: Tables, name: seq<int>, first: nat, u: Tables, k: nat)
    requires EntriesRead(net, t, name, first, u, k) && first <= k < |name| && Inv(net, t)
    ensures var b := BucketAt(net, t, name, k);
            && b < |u.tried| && |u.tried[b]| < TRIED_BUCKET_SIZE
            && EntriesRead(net, t, name, first, WithTried(u, Strip(t.info[name[k]]), k, b), k + 1)
  {
    HoldersZero(u.untried, k);
    AddressesStep(t, name, first, u.addr, k);
    InfoStep(t, name, first, u.info, u.untried, k);
    TriedStep(net, t, name, first, u.tried, k);
    BucketHasRoom(net, t, name, first, k);
  }

  // ----- After some of the bucket references -----

  lemma {:induction false} HoldersMono(a: seq<set<int>>, b: seq<set<int>>, x: int)
    requires |a| == |b| && forall c :: 0 <= c < |a| ==> (x in a[c] ==> x in b[c])
    ensures Holders(a, x) <= Holders(b, x)
  {
    if |a| > 0 {
      HoldersMono(a[..|a| - 1], b[..|b| - 1], x);
    }
  }

  lemma {:induction false} HoldersSame(a: seq<set<int>>, x: int, b: seq<set<int>>, y: int)
    requires |a| == |b| && forall c :: 0 <= c < |a| ==> (x in a[c] <==> y in b[c])
    ensures Holders(a, x) == Holders(b, y)
  {
    if |a| > 0 {
      HoldersSame(a[..|a| - 1], x, b[..|b| - 1], y);
    }
  }

  lemma PlacesExact(list: seq<int>, bucket: set<int>)
    requires Distinct(list) && forall n :: n in bucket ==> n in list
    ensures var r := Places(list, bucket);
            && Distinct(r)
            && |r| == |bucket|
            && forall k :: 0 <= k < |list| ==> (k in r <==> list[k] in bucket)
  {
    hide Places, Ascending, Distinct;
    var r, ids := Places(list, bucket), Ascending(bucket);
    PlacesDistinct(list, ids, r);
    forall k | 0 <= k < |list| ensures k in r <==> list[k] in bucket {
      PlaceExact(list, ids, r, k);
    }
  }

  lemma PlacesDistinct(list: seq<int>, ids: seq<int>, r: seq<int>)
    requires |r| == |ids| && Increasing(ids)
    requires forall k :: 0 <= k < |r| ==> 0 <= r[k] < |list| && list[r[k]] == ids[k]
    ensures Distinct(r)
  {
    forall i, j | 0 <= i < j < |r| ensures r[i] != r[j] {
      assert list[r[i]] == ids[i] && list[r[j]] == ids[j];
    }
  }

  lemma PlaceExact(list: seq<int>, ids: seq<int>, r: seq<int>, k: nat)
    requires |r| == |ids| && Distinct(list) && k < |list|
    requires forall i :: 0 <= i < |r| ==> 0 <= r[i] < |list| && list[r[i]] == ids[i]
    ensures k in r <==> list[k] in ids
  {
    if k in r {
      var i :| 0 <= i < |r| && r[i] == k;
      assert ids[i] in ids;
    }
    if list[k] in ids {
      var i :| 0 <= i < |ids| && ids[i] == list[k];
      assert list[r[i]] == list[k];
    }
  }

  /** The lists hold, for every new bucket, the places of exactly its entries, each once. */
  ghost predicate ListsSound(t: Tables, name: seq<int>, first: nat, ls: seq<seq<int>>)
    requires first <= |name|
  {
    && |ls| == |t.untried|
    && (forall c :: 0 <= c < |ls| ==> Distinct(ls[c]) && |ls[c]| == |t.untried[c]|)
    && (forall c, i :: 0 <= c < |ls| && 0 <= i < |ls[c]| ==> 0 <= ls[c][i] < first)
    && (forall c, k :: 0 <= c < |ls| && 0 <= k < first ==> (k in ls[c] <==> name[k] in t.untried[c]))
  }

  lemma BucketListsSound(t: Tables)
    requires BucketsListed(t)
    ensures |FileOrder(t)| >= |NewList(t)|
    ensures ListsSound(t, FileOrder(t), |NewList(t)|, BucketLists(t))
  {
    ListSizes(t);
    PlacesSound(t, NewList(t), FileOrder(t), BucketLists(t));
  }

  lemma PlacesSound(t: Tables, list: seq<int>, name: seq<int>, ls: seq<seq<int>>)
    requires Distinct(list) && list <= name && |ls| == |t.untried|
    requires forall b, n :: 0 <= b < |t.untried| && n in t.untried[b] ==> n in list
    requires forall b :: 0 <= b < |ls| ==> ls[b] == Places(list, t.untried[b])
    ensures ListsSound(t, name, |list|, ls)
  {
    forall c | 0 <= c < |ls| ensures Distinct(ls[c]) && |ls[c]| == |t.untried[c]| {
      PlacesExact(list, t.untried[c]);
    }
    forall c, k | 0 <= c < |ls| && 0 <= k < |list| ensures k in ls[c] <==> name[k] in t.untried[c] {
      PlacesExact(list, t.untried[c]);
    }
  }

  /** The buckets before `b` are complete, bucket `b` has the first `j` of its places, later ones are empty. */
  ghost predicate BucketsRead(ls: seq<seq<int>>, untried: seq<set<int>>, b: nat, j: nat) {
    && |untried| == |ls|
    && (b < |ls| ==> j <= |ls[b]|)
    && (forall c :: 0 <= c < |ls| && c < b ==> untried[c] == Elements(ls[c]))
    && (b < |ls| ==> untried[b] == Elements(ls[b][..j]))
    && (forall c :: 0 <= c < |ls| && c > b ==> untried[c] == {})
  }

  lemma BucketsReadNext(ls: seq<seq<int>>, untried: seq<set<int>>, b: nat)
    requires b < |ls| && BucketsRead(ls, untried, b, |ls[b]|)
    ensures BucketsRead(ls, untried, b + 1, 0)
  {
    assert ls[b][..|ls[b]|] == ls[b];
  }

  lemma BucketsReadStep(ls: seq<seq<int>>, untried: seq<set<int>>, b: nat, j: nat)
    requires b < |ls| && j < |ls[b]| && Distinct(ls[b]) && BucketsRead(ls, untried, b, j)
    ensures ls[b][j] !in untried[b]
    ensures BucketsRead(ls, untried[b := untried[b] + {ls[b][j]}], b, j + 1)
  {
    assert ls[b][..j + 1] == ls[b][..j] + [ls[b][j]];
  }

  /** While its references are being read an entry has fewer than four, so the reader drops none. */
  lemma ReferenceHasRoom(t: Tables, name: seq<int>, first: nat, ls: seq<seq<int>>, untried: seq<set<int>>, b: nat,
      j: nat)
    requires Naming(t, name, first) && ListsSound(t, name, first, ls)
    requires RefCounted(t, -1) && Statistics(t, -1)
    requires b < |ls| && j < |ls[b]| && BucketsRead(ls, untried, b, j)
    ensures Holders(untried, ls[b][j]) < NEW_BUCKETS_PER_ADDRESS
  {
    var k := ls[b][j];
    var more := untried[b := untried[b] + {k}];
    BucketsReadStep(ls, untried, b, j);
    HoldersUpdate(untried, b, untried[b] + {k}, k);
    var image := seq(|t.untried|, c requires 0 <= c < |t.untried| => if name[k] in t.untried[c] then {k} else {});
    forall c | 0 <= c < |more| && k in more[c] ensures k in image[c] {
      assert k in ls[c];
    }
    HoldersMono(more, image, k);
    HoldersSame(image, k, t.untried, name[k]);
  }

  lemma InfoRefStep(t: Tables, name: seq<int>, first: nat, info: map<int, Info>, untried: seq<set<int>>, b: nat, k: nat)
    requires Naming(t, name, first) && InfoRead(t, name, first, info, untried, |name|)
    requires b < |untried| && k < |name| && k !in untried[b]
    ensures InfoRead(t, name, first, info[k := info[k].(refCount := info[k].refCount + 1)],
                     untried[b := untried[b] + {k}], |name|)
  {
    var more := untried[b := untried[b] + {k}];
    var info' := info[k := info[k].(refCount := info[k].refCount + 1)];
    forall n | 0 <= n < |name|
      ensures info'[n] == Restore(Strip(t.info[name[n]]), Holders(more, n), n >= first, n)
    {
      HoldersUpdate(untried, b, untried[b] + {k}, n);
    }
  }

  /** The tables after all entries, the first `b` new buckets and `j` references of the next. */
  ghost predicate ReferencesRead(net: Net, t: Tables, name: seq<int>, first: nat, ls: seq<seq<int>>, u: Tables,
      b: nat, j: nat) {
    && Naming(t, name, first) && ListsSound(t, name, first, ls)
    && u.key == t.key && u.nNew == t.nNew && u.nTried == t.nTried && u.idCount == |name|
    && AddressesRead(t, name, u.addr, |name|)
    && InfoRead(t, name, first, u.info, u.untried, |name|)
    && OrderRead(u.random, |name|)
    && TriedRead(net, t, name, first, u.tried, |name|)
    && BucketsRead(ls, u.untried, b, j)
  }

  lemma ReferencesStart(net: Net, t: Tables, name: seq<int>, first: nat, ls: seq<seq<int>>, u: Tables)
    requires EntriesRead(net, t, name, first, u, |name|) && ListsSound(t, name, first, ls) && u.idCount == |name|
    requires |ls| == NEW_BUCKET_COUNT
    ensures ReferencesRead(net, t, name, first, ls, u, 0, 0)
  {
  }

  /** One more reference: id `k` in new bucket `b`. */
  function WithReference(u: Tables, b: nat, k: int): Tables
    requires b < |u.untried| && k in u.info
  {
    u.(info := u.info[k := u.info[k].(refCount := u.info[k].refCount + 1)],
       untried := u.untried[b := u.untried[b] + {k}])
  }

  lemma ReferenceStep(net: Net, t: Tables, name: seq<int>, first: nat, ls: seq<seq<int>>, u: Tables, b: nat, j: nat)
    requires ReferencesRead(net, t, name, first, ls, u, b, j) && b < |ls| && j < |ls[b]|
    requires RefCounted(t, -1) && Statistics(t, -1)
    ensures var k := ls[b][j];
            && k in u.info && u.info[k].refCount < NEW_BUCKETS_PER_ADDRESS && b < |u.untried|
            && ReferencesRead(net, t, name, first, ls, WithReference(u, b, k), b, j + 1)
  {
    var k := ls[b][j];
    assert 0 <= k < first <= |name| && Distinct(ls[b]);
    assert k in u.info && u.info[k].refCount == Holders(u.untried, k) && b < |u.untried|;
    hide InfoRead, BucketsRead, TriedRead, AddressesRead, ListsSound, Naming, RefCounted, Statistics, Distinct, Holders;
    ReferenceHasRoom(t, name, first, ls, u.untried, b, j);
    BucketsReadStep(ls, u.untried, b, j);
    InfoRefStep(t, name, first, u.info, u.untried, b, k);
  }

  // ----- The whole file -----

  /** `u` is what the reader builds from the file of `t`. */
  ghost predicate Rebuilt(net: Net, t: Tables, u: Tables, name: seq<int>, first: nat, ls: seq<seq<int>>) {
    ReferencesRead(net, t, name, first, ls, u, |ls|, 0)
  }

  /** Every field that the file is to keep agrees. */
  predicate SameEntry(i: Info, j: Info) {
    && j.service.ip == i.service.ip && j.service.port == i.service.port
    && j.services == i.services && j.time == i.time
    && j.source == i.source && j.lastSuccess == i.lastSuccess && j.attempts == i.attempts
  }

  /** The same manager up to ids: `name[k]` is the old id of the entry that now has id `k`. Addresses,
      stored statistics, new bucket membership, references and tried buckets agree; the last try, which
      lives in memory only, is forgotten. */
  ghost predicate SameManager(t: Tables, u: Tables, name: seq<int>) {
    && Distinct(name)
    && (forall n :: n in name <==> n in t.info)
    && (forall k :: k in u.info <==> 0 <= k < |name|)
    && u.key == t.key && u.nNew == t.nNew && u.nTried == t.nTried
    && u.addr.Keys == t.addr.Keys
    && (forall k :: 0 <= k < |name| ==>
          && name[k] in t.info
          && SameEntry(t.info[name[k]], u.info[k])
          && u.info[k].inTried == t.info[name[k]].inTried
          && u.info[k].refCount == t.info[name[k]].refCount
          && u.info[k].lastTry == 0)
    && |u.untried| == |t.untried| && |u.tried| == |t.tried|
    && (forall b, k :: 0 <= b < |u.untried| ==> (k in u.untried[b] <==> 0 <= k < |name| && name[k] in t.untried[b]))
    && (forall b, k :: 0 <= b < |u.tried| ==> (k in u.tried[b] <==> 0 <= k < |name| && name[k] in t.tried[b]))
  }

  lemma RebuiltHolders(net: Net, t: Tables, u: Tables, name: seq<int>, first: nat, ls: seq<seq<int>>)
    requires Rebuilt(net, t, u, name, first, ls) && RefCounted(t, -1)
    ensures forall b, k :: 0 <= b < |u.untried| ==> (k in u.untried[b] <==> 0 <= k < first && name[k] in t.untried[b])
    ensures forall b, k :: 0 <= b < |u.untried| && first <= k < |name| ==> name[k] !in t.untried[b]
    ensures forall k :: 0 <= k < |name| ==> Holders(u.untried, k) == Holders(t.untried, name[k])
  {
    forall b, k | 0 <= b < |u.untried| ensures k in u.untried[b] <==> 0 <= k < first && name[k] in t.untried[b] {
      assert u.untried[b] == Elements(ls[b]);
      if k in ls[b] {
        var i :| 0 <= i < |ls[b]| && ls[b][i] == k;
      }
    }
    forall k | 0 <= k < |name| ensures Holders(u.untried, k) == Holders(t.untried, name[k]) {
      forall c | 0 <= c < |u.untried| ensures k in u.untried[c] <==> name[k] in t.untried[c] {
        if k >= first {
          assert t.info[name[k]].inTried;
        }
      }
      HoldersSame(u.untried, k, t.untried, name[k]);
    }
  }

  lemma RebuiltTried(net: Net, t: Tables, u: Tables, name: seq<int>, first: nat)
    requires Naming(t, name, first) && TriedPlaced(net, t) && u.key == t.key
    requires InfoRead(t, name, first, u.info, u.untried, |name|) && TriedRead(net, t, name, first, u.tried, |name|)
    ensures TriedPlaced(net, u)
    ensures forall b, k :: 0 <= b < |u.tried| ==> (k in u.tried[b] <==> 0 <= k < |name| && name[k] in t.tried[b])
    ensures forall b :: 0 <= b < |u.tried| ==> |u.tried[b]| <= |t.tried[b]|
  {
    forall b | 0 <= b < |u.tried| ensures Distinct(u.tried[b]) && |u.tried[b]| <= |t.tried[b]| {
      TriedBelowExact(net, t, name, first, |name|, b);
      TriedBelowFits(net, t, name, first, |name|, b);
    }
    forall b, i | 0 <= b < |u.tried| && 0 <= i < |u.tried[b]|
      ensures u.tried[b][i] in u.info && u.info[u.tried[b][i]].inTried
              && TriedBucket(net, u.key, u.info[u.tried[b][i]].service) == b
    {
      TriedBelowExact(net, t, name, first, |name|, b);
      var k := u.tried[b][i];
      assert first <= k < |name| && BucketAt(net, t, name, k) == b;
      assert k in u.info;
    }
    forall k | k in u.info && u.info[k].inTried ensures k in u.tried[TriedBucket(net, u.key, u.info[k].service)] {
      TriedBelowExact(net, t, name, first, |name|, BucketAt(net, t, name, k));
    }
    forall b, k | 0 <= b < |u.tried| ensures k in u.tried[b] <==> 0 <= k < |name| && name[k] in t.tried[b] {
      RebuiltTriedMember(net, t, u, name, first, b, k);
    }
  }

  lemma RebuiltTriedMember(net: Net, t: Tables, u: Tables, name: seq<int>, first: nat, b: nat, k: int)
    requires Naming(t, name, first) && TriedPlaced(net, t) && b < |u.tried|
    requires TriedRead(net, t, name, first, u.tried, |name|)
    ensures k in u.tried[b] <==> 0 <= k < |name| && name[k] in t.tried[b]
  {
    TriedBelowExact(net, t, name, first, |name|, b);
    var below := TriedBelow(net, t, name, first, |name|, b);
    hide TriedBelow;
    if k in u.tried[b] {
      var i :| 0 <= i < |below| && below[i] == k;
      assert BucketAt(net, t, name, k) == b;
      assert t.info[name[k]].inTried;
    }
    if 0 <= k < |name| && name[k] in t.tried[b] {
      var i :| 0 <= i < |t.tried[b]| && t.tried[b][i] == name[k];
      assert t.info[name[k]].inTried;
      assert BucketAt(net, t, name, k) == b;
    }
  }

  lemma RebuiltIndexes(t: Tables, u: Tables, name: seq<int>, first: nat)
    requires Naming(t, name, first) && AddrIndexed(t)
    requires AddressesRead(t, name, u.addr, |name|) && OrderRead(u.random, |name|)
    requires InfoRead(t, name, first, u.info, u.untried, |name|)
    ensures AddrIndexed(u) && RandomIndexed(u) && u.addr.Keys == t.addr.Keys
  {
    forall a | a in u.addr ensures u.addr[a] in u.info && u.info[u.addr[a]].service.ip == a {
      var k := u.addr[a];
      assert 0 <= k < |name|;
      assert k in u.info;
    }
    forall a ensures a in u.addr <==> a in t.addr {
      if a in u.addr {
        var k := u.addr[a];
        var n := name[k];
        assert n in t.info && t.info[n].service.ip == a;
      }
      if a in t.addr {
        var n := t.addr[a];
        assert n in t.info && n in name;
        var k :| 0 <= k < |name| && name[k] == n;
      }
    }
  }

  lemma IntervalSize(s: set<int>, lo: nat, hi: nat)
    requires lo <= hi && forall k :: k in s <==> lo <= k < hi
    ensures |s| == hi - lo
    decreases hi - lo
  {
    if lo < hi {
      assert s == (s - {hi - 1}) + {hi - 1};
      IntervalSize(s - {hi - 1}, lo, hi - 1);
    } else if |s| > 0 {
      var k := Element(s);
    }
  }

  lemma RebuiltTotals(t: Tables, u: Tables, name: seq<int>, first: nat)
    requires Naming(t, name, first) && t.nNew == first && t.nTried == |name| - first
    requires u.nNew == t.nNew && u.nTried == t.nTried
    requires InfoRead(t, name, first, u.info, u.untried, |name|)
    ensures Totals(u)
  {
    forall k
      ensures k in NewIds(u) <==> 0 <= k < first
      ensures k in TriedIds(u) <==> first <= k < |name|
    {
      assert k in u.info <==> 0 <= k < |name|;
    }
    IntervalSize(NewIds(u), 0, first);
    IntervalSize(TriedIds(u), first, |name|);
  }

  lemma RebuiltRefs(net: Net, t: Tables, u: Tables, name: seq<int>, first: nat, ls: seq<seq<int>>)
    requires Rebuilt(net, t, u, name, first, ls) && RefCounted(t, -1) && Statistics(t, -1)
    ensures RefCounted(u, -1) && Statistics(u, -1)
    ensures forall k :: 0 <= k < |name| ==> u.info[k].refCount == t.info[name[k]].refCount
  {
    RebuiltHolders(net, t, u, name, first, ls);
    forall k | 0 <= k < |name| ensures u.info[k].refCount == t.info[name[k]].refCount {
      assert name[k] in t.info;
    }
    forall k | k in u.info ensures u.info[k].refCount == Holders(u.untried, k) + Bit(k == -1) {
      assert 0 <= k < |name|;
    }
  }

  lemma RebuiltBounded(t: Tables, u: Tables, name: seq<int>, first: nat, ls: seq<seq<int>>)
    requires Bounded(t) && first <= |name| && ListsSound(t, name, first, ls)
    requires BucketsRead(ls, u.untried, |ls|, 0) && u.idCount >= 0 && |u.tried| == |t.tried|
    requires forall b :: 0 <= b < |u.tried| ==> |u.tried[b]| <= |t.tried[b]|
    ensures Bounded(u)
  {
    forall b | 0 <= b < |u.untried| ensures |u.untried[b]| <= NEW_BUCKET_SIZE {
      ElementsBound(ls[b]);
    }
  }

  lemma RebuiltInv(net: Net, t: Tables, u: Tables, name: seq<int>, first: nat, ls: seq<seq<int>>)
    requires Inv(net, t) && t.nNew == first && t.nTried == |name| - first
    requires Rebuilt(net, t, u, name, first, ls)
    ensures Inv(net, u)
  {
    hide AddrIndexed, RandomIndexed, TriedPlaced, RefCounted, Statistics, Totals;
    RebuiltIndexes(t, u, name, first);
    RebuiltTried(net, t, u, name, first);
    RebuiltTotals(t, u, name, first);
    RebuiltRefs(net, t, u, name, first, ls);
    RebuiltBounded(t, u, name, first, ls);
  }

  lemma RebuiltSame(net: Net, t: Tables, u: Tables, name: seq<int>, first: nat, ls: seq<seq<int>>)
    requires Inv(net, t) && Rebuilt(net, t, u, name, first, ls)
    ensures SameManager(t, u, name)
  {
    hide AddrIndexed, RandomIndexed, TriedPlaced, RefCounted, Statistics, Totals;
    RebuiltIndexes(t, u, name, first);
    RebuiltTried(net, t, u, name, first);
    RebuiltRefs(net, t, u, name, first, ls);
    RebuiltHolders(net, t, u, name, first, ls);
    hide TriedRead, BucketsRead, Holders, Waiting, ListsSound, AddressesRead;
    forall b, k | 0 <= b < |u.untried| ensures k in u.untried[b] <==> 0 <= k < |name| && name[k] in t.untried[b] {
    }
  }

  /** Reading a written manager gives a manager that satisfies the invariant and is the same one
      up to ids, the order within tried buckets and the memory-only fields. */
  lemma RebuiltIsSame(net: Net, t: Tables, u: Tables, name: seq<int>, first: nat, ls: seq<seq<int>>)
    requires Inv(net, t) && t.nNew == first && t.nTried == |name| - first
    requires Rebuilt(net, t, u, name, first, ls)
    ensures Inv(net, u) && SameManager(t, u, name)
  {
    hide Rebuilt, Waiting, SameManager;
    RebuiltInv(net, t, u, name, first, ls);
    RebuiltSame(net, t, u, name, first, ls);
  }
}
