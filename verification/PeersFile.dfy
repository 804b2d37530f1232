/**
 The on-disk form of the address manager. Only part of the tables is written; ids, the address
 index, the random order, reference counts and the tried buckets are rebuilt on reading.

 The stream is a sequence of tokens in the order in which the serializer emits them.
 */
module PeersFile {
  import opened AddrTables
  import opened Ordering

  /** What is stored of an entry. */
  datatype Stored = Stored(
    service: Service,
    services: set<nat>,
    time: Uint32,
    source: NetAddr,
    lastSuccess: int,
    attempts: int)

  datatype Token = Num(n: int) | Blob(bytes: Bytes) | Entry(stored: Stored)

  function Strip(i: Info): Stored {
    Stored(i.service, i.services, i.time, i.source, i.lastSuccess, i.attempts)
  }

  /** An entry as read back, with its memory-only fields. */
  function Restore(e: Stored, refCount: int, inTried: bool, randomPos: int): Info {
    Info(e.service, e.services, e.time, e.source, e.lastSuccess, 0, e.attempts, refCount, inTried, randomPos)
  }

  // ----- The order of entries in the file -----

  /** The tried, or the new, entries among `ids`, in the same order. */
  function Select(info: map<int, Info>, ids: seq<int>, tried: bool): seq<int>
    requires forall n :: n in ids ==> n in info
  {
    if |ids| == 0 then []
    else
      var last := ids[|ids| - 1];
      Select(info, ids[..|ids| - 1], tried) + if info[last].inTried == tried then [last] else []
  }

  lemma {:induction false} SelectExact(info: map<int, Info>, ids: seq<int>, tried: bool)
    requires forall n :: n in ids ==> n in info
    ensures forall n :: n in Select(info, ids, tried) <==> n in ids && info[n].inTried == tried
    ensures forall k :: 0 <= k < |Select(info, ids, tried)| ==> Select(info, ids, tried)[k] in info
  {
    if |ids| > 0 {
      assert ids == ids[..|ids| - 1] + [ids[|ids| - 1]];
      SelectExact(info, ids[..|ids| - 1], tried);
    }
  }

  lemma {:induction false} SelectIncreasing(info: map<int, Info>, ids: seq<int>, tried: bool)
    requires forall n :: n in ids ==> n in info
    requires Increasing(ids)
    ensures Increasing(Select(info, ids, tried))
  {
    if |ids| > 0 {
      var rest := ids[..|ids| - 1];
      SelectIncreasing(info, rest, tried);
      var r := Select(info, rest, tried);
      SelectExact(info, rest, tried);
      forall k | 0 <= k < |r| ensures r[k] < ids[|ids| - 1] {
        assert r[k] in r;
        var i :| 0 <= i < |rest| && rest[i] == r[k];
      }
    }
  }

  function Ids(t: Tables): (r: seq<int>)
    ensures Increasing(r) && forall n :: n in r <==> n in t.info
  {
    assert forall n :: n in t.info.Keys <==> n in t.info;
    Ascending(t.info.Keys)
  }

  function NewList(t: Tables): seq<int> {
    Select(t.info, Ids(t), false)
  }

  function TriedList(t: Tables): seq<int> {
    Select(t.info, Ids(t), true)
  }

  /** All ids in the order in which their entries stand in the file: an entry's place here is its
      id after reading. */
  function FileOrder(t: Tables): (r: seq<int>)
    ensures forall k :: 0 <= k < |r| ==> r[k] in t.info
  {
    SelectExact(t.info, Ids(t), false);
    SelectExact(t.info, Ids(t), true);
    NewList(t) + TriedList(t)
  }

  lemma IncreasingDistinct(s: seq<int>)
    requires Increasing(s)
    ensures Distinct(s)
  {
  }

  lemma ListSize(t: Tables, tried: bool)
    ensures var r := Select(t.info, Ids(t), tried);
            Distinct(r) && Elements(r) == (if tried then TriedIds(t) else NewIds(t)) && |r| == |Elements(r)|
  {
    var r := Select(t.info, Ids(t), tried);
    SelectIncreasing(t.info, Ids(t), tried);
    SelectExact(t.info, Ids(t), tried);
    hide Select;
    IncreasingDistinct(r);
    DistinctSize(r);
  }

  lemma ListSizes(t: Tables)
    ensures Distinct(NewList(t)) && Distinct(TriedList(t))
    ensures |NewList(t)| == |NewIds(t)| && |TriedList(t)| == |TriedIds(t)|
  {
    ListSize(t, false);
    ListSize(t, true);
  }

  /** The file order runs through all entries once, new ones first. */
  lemma FileOrderExact(t: Tables)
    ensures Distinct(FileOrder(t))
    ensures forall n :: n in FileOrder(t) <==> n in t.info
    ensures |NewList(t)| == |NewIds(t)| && |FileOrder(t)| == |NewIds(t)| + |TriedIds(t)|
    ensures forall k :: 0 <= k < |FileOrder(t)| ==>
              FileOrder(t)[k] in t.info && (t.info[FileOrder(t)[k]].inTried <==> k >= |NewList(t)|)
  {
    ListSizes(t);
    SelectExact(t.info, Ids(t), false);
    SelectExact(t.info, Ids(t), true);
    hide Select;
    var p, q := NewList(t), TriedList(t);
    var all := FileOrder(t);
    forall k | 0 <= k < |all| ensures all[k] in t.info && (t.info[all[k]].inTried <==> k >= |p|) {
      if k < |p| {
        assert all[k] in p;
      } else {
        assert all[k] in q;
      }
    }
    forall i, j | 0 <= i < j < |all| ensures all[i] != all[j] {
    }
  }

  function IndexIn(s: seq<int>, n: int): (k: nat)
    requires n in s
    ensures k < |s| && s[k] == n
  {
    if s[0] == n then 0 else 1 + IndexIn(s[1..], n)
  }

  // ----- The layout of the file -----

  function EntryTokens(es: seq<Stored>): (r: seq<Token>)
    ensures |r| == |es| && forall k :: 0 <= k < |r| ==> r[k] == Entry(es[k])
  {
    seq(|es|, k requires 0 <= k < |es| => Entry(es[k]))
  }

  function ListTokens(l: seq<int>): (r: seq<Token>)
    ensures |r| == 1 + |l| && r[0] == Num(|l|)
    ensures forall k :: 0 <= k < |l| ==> r[1 + k] == Num(l[k])
  {
    [Num(|l|)] + seq(|l|, k requires 0 <= k < |l| => Num(l[k]))
  }

  function ListsTokens(ls: seq<seq<int>>): seq<Token> {
    if |ls| == 0 then [] else ListsTokens(ls[..|ls| - 1]) + ListTokens(ls[|ls| - 1])
  }

  /** New buckets hold new entries only. */
  ghost predicate BucketsListed(t: Tables) {
    forall b, n :: 0 <= b < |t.untried| && n in t.untried[b] ==> n in NewList(t)
  }

  /** The ids of a new bucket as places among the stored new entries. */
  function Places(list: seq<int>, bucket: set<int>): (r: seq<int>)
    requires forall n :: n in bucket ==> n in list
    ensures |r| == |Ascending(bucket)|
    ensures forall k :: 0 <= k < |r| ==> 0 <= r[k] < |list| && list[r[k]] == Ascending(bucket)[k]
  {
    var ids := Ascending(bucket);
    assert forall k :: 0 <= k < |ids| ==> ids[k] in ids;
    seq(|ids|, k requires 0 <= k < |ids| => IndexIn(list, ids[k]))
  }

  ghost function BucketLists(t: Tables): (r: seq<seq<int>>)
    requires BucketsListed(t)
    ensures |r| == |t.untried|
    ensures forall b :: 0 <= b < |r| ==> r[b] == Places(NewList(t), t.untried[b])
  {
    seq(|t.untried|, b requires 0 <= b < |t.untried| => Places(NewList(t), t.untried[b]))
  }

  lemma InvListed(net: Net, t: Tables)
    requires Inv(net, t)
    ensures BucketsListed(t) && |NewList(t)| == t.nNew && |TriedList(t)| == t.nTried
  {
    ListSizes(t);
    SelectExact(t.info, Ids(t), false);
  }

  function Header(key: Bytes, nNew: int, nTried: int): seq<Token> {
    [Num(0), Blob(key), Num(nNew), Num(nTried), Num(NEW_BUCKET_COUNT)]
  }

  /** The stored entries in file order. */
  function StoredEntries(t: Tables): (r: seq<Stored>)
    ensures |r| == |FileOrder(t)|
    ensures forall k :: 0 <= k < |r| ==> r[k] == Strip(t.info[FileOrder(t)[k]])
  {
    var all := FileOrder(t);
    seq(|all|, k requires 0 <= k < |all| => Strip(t.info[all[k]]))
  }

  function Format(key: Bytes, nNew: int, nTried: int, es: seq<Stored>, ls: seq<seq<int>>): seq<Token> {
    Header(key, nNew, nTried) + EntryTokens(es) + ListsTokens(ls)
  }

  ghost function Layout(t: Tables): seq<Token>
    requires BucketsListed(t)
  {
    Format(t.key, t.nNew, t.nTried, StoredEntries(t), BucketLists(t))
  }

  lemma {:induction false} ListsPrefix(ls: seq<seq<int>>, b: nat)
    requires b < |ls|
    ensures ListsTokens(ls[..b]) + ListTokens(ls[b]) <= ListsTokens(ls)
  {
    var last := |ls| - 1;
    if b < last {
      assert ls[..last][..b] == ls[..b];
      ListsPrefix(ls[..last], b);
    }
  }

  lemma MiddleAt<T>(a: seq<T>, b: seq<T>, c: seq<T>, k: nat)
    requires k < |b|
    ensures (a + b + c)[|a| + k] == b[k]
  {
  }

  /** List `b` of the lists that follow `head`, element by element. */
  lemma ListAt(head: seq<Token>, ls: seq<seq<int>>, b: nat, k: nat)
    requires b < |ls| && k <= |ls[b]|
    ensures var p := |head| + |ListsTokens(ls[..b])|;
            && p + k < |head + ListsTokens(ls)|
            && (head + ListsTokens(ls))[p] == Num(|ls[b]|)
            && (k > 0 ==> (head + ListsTokens(ls))[p + k] == Num(ls[b][k - 1]))
            && p + 1 + |ls[b]| == |head| + |ListsTokens(ls[..b + 1])|
  {
    ListsPrefix(ls, b);
    var q := ListsTokens(ls[..b]) + ListTokens(ls[b]);
    assert ls[..b + 1][..b] == ls[..b];
    assert ListsTokens(ls)[|ListsTokens(ls[..b])|] == q[|ListsTokens(ls[..b])|];
    if k > 0 {
      assert ListsTokens(ls)[|ListsTokens(ls[..b])| + k] == q[|ListsTokens(ls[..b])| + k];
    }
  }

  lemma FormatHeader(key: Bytes, nNew: int, nTried: int, es: seq<Stored>, ls: seq<seq<int>>)
    ensures var s := Format(key, nNew, nTried, es, ls);
            && |s| >= 5 && s[0] == Num(0) && s[1] == Blob(key) && s[2] == Num(nNew)
            && s[3] == Num(nTried) && s[4] == Num(NEW_BUCKET_COUNT)
  {
  }

  lemma FormatEntry(key: Bytes, nNew: int, nTried: int, es: seq<Stored>, ls: seq<seq<int>>, k: nat)
    requires k < |es|
    ensures var s := Format(key, nNew, nTried, es, ls);
            5 + k < |s| && s[5 + k] == Entry(es[k])
  {
    MiddleAt(Header(key, nNew, nTried), EntryTokens(es), ListsTokens(ls), k);
  }

  /** Where list `b` begins. */
  function ListStart(es: seq<Stored>, ls: seq<seq<int>>, b: nat): nat
    requires b <= |ls|
  {
    5 + |es| + |ListsTokens(ls[..b])|
  }

  lemma FormatList(key: Bytes, nNew: int, nTried: int, es: seq<Stored>, ls: seq<seq<int>>, b: nat, k: nat)
    requires b < |ls| && k <= |ls[b]|
    ensures var s := Format(key, nNew, nTried, es, ls);
            var p := ListStart(es, ls, b);
            && p + k < |s|
            && s[p] == Num(|ls[b]|)
            && (k > 0 ==> s[p + k] == Num(ls[b][k - 1]))
            && ListStart(es, ls, b + 1) == p + 1 + |ls[b]|
  {
    ListAt(Header(key, nNew, nTried) + EntryTokens(es), ls, b, k);
  }

  /** The file, token by token: a version, the key and three counts. */
  lemma LayoutHeader(net: Net, t: Tables)
    requires Inv(net, t)
    ensures BucketsListed(t)
    ensures var s := Layout(t);
            && |s| >= 5 && s[0] == Num(0) && s[1] == Blob(t.key)
            && s[2] == Num(|NewIds(t)|) && s[3] == Num(|TriedIds(t)|) && s[4] == Num(256)
  {
    InvListed(net, t);
    ListSizes(t);
    FormatHeader(t.key, t.nNew, t.nTried, StoredEntries(t), BucketLists(t));
  }

  /** Then every entry once, new ones before tried ones, each part by ascending id; only the fields
      that are not rebuilt are written. */
  lemma LayoutEntry(net: Net, t: Tables, k: nat)
    requires Inv(net, t) && k < |t.info|
    ensures BucketsListed(t) && |FileOrder(t)| == |t.info| == t.nNew + t.nTried && 5 + k < |Layout(t)|
    ensures var n := FileOrder(t)[k];
            && n in t.info && (t.info[n].inTried <==> k >= t.nNew)
            && Layout(t)[5 + k] == Entry(Stored(Service(t.info[n].service.ip, t.info[n].service.port),
                                                t.info[n].services, t.info[n].time, t.info[n].source,
                                                t.info[n].lastSuccess, t.info[n].attempts))
    ensures forall i, j :: 0 <= i < j < t.nNew || t.nNew <= i < j < |t.info| ==> FileOrder(t)[i] < FileOrder(t)[j]
    ensures Distinct(FileOrder(t))
  {
    InvListed(net, t);
    FileOrderExact(t);
    IdsPartition(t);
    assert |t.info| == |t.info.Keys|;
    SelectIncreasing(t.info, Ids(t), false);
    SelectIncreasing(t.info, Ids(t), true);
    hide Waiting, Select;
    FormatEntry(t.key, t.nNew, t.nTried, StoredEntries(t), BucketLists(t), k);
    InFileOrder(t);
  }

  lemma InFileOrder(t: Tables)
    requires Increasing(NewList(t)) && Increasing(TriedList(t))
    ensures var first := |NewList(t)|;
            forall i, j :: 0 <= i < j < first || first <= i < j < |FileOrder(t)| ==> FileOrder(t)[i] < FileOrder(t)[j]
  {
    hide Select;
    var first := |NewList(t)|;
    forall i, j | 0 <= i < j < first || first <= i < j < |FileOrder(t)|
      ensures FileOrder(t)[i] < FileOrder(t)[j]
    {
      if first <= i {
        assert FileOrder(t)[i] == TriedList(t)[i - first] && FileOrder(t)[j] == TriedList(t)[j - first];
      }
    }
  }

  /** From `p` on `s` has the number of `ids` and then each as its place among the first `n` of `order`. */
  ghost predicate ListedAt(s: seq<Token>, p: nat, ids: seq<int>, order: seq<int>, n: int) {
    && p + |ids| < |s| && n <= |order|
    && s[p] == Num(|ids|)
    && forall k :: p < k <= p + |ids| ==> s[k].Num? && 0 <= s[k].n < n && order[s[k].n] == ids[k - p - 1]
  }

  lemma PlacesListed(list: seq<int>, order: seq<int>, ids: seq<int>, l: seq<int>, s: seq<Token>, p: nat)
    requires list <= order && |l| == |ids| && p + |l| < |s| && s[p] == Num(|l|)
    requires forall k :: 0 <= k < |l| ==> 0 <= l[k] < |list| && list[l[k]] == ids[k]
    requires forall k :: p < k <= p + |l| ==> s[k] == Num(l[k - p - 1])
    ensures ListedAt(s, p, ids, order, |list|)
  {
    forall k | p < k <= p + |l|
      ensures s[k].Num? && 0 <= s[k].n < |list| && order[s[k].n] == ids[k - p - 1]
    {
      assert list[l[k - p - 1]] == ids[k - p - 1];
    }
  }

  /** Then every new bucket: its size and its ids ascending, each as its entry's place in the file. */
  lemma LayoutBucket(net: Net, t: Tables, es: seq<Stored>, ls: seq<seq<int>>, b: nat)
    requires Inv(net, t) && BucketsListed(t) && es == StoredEntries(t) && ls == BucketLists(t) && b < |ls|
    ensures |ls| == NEW_BUCKET_COUNT == |t.untried| && ListStart(es, ls, 0) == 5 + t.nNew + t.nTried
    ensures var p := ListStart(es, ls, b);
            && ListStart(es, ls, b + 1) == p + 1 + |t.untried[b]|
            && ListedAt(Layout(t), p, Ascending(t.untried[b]), FileOrder(t), t.nNew)
  {
    hide Waiting, Select, Places, ListedAt, BucketsListed, ListStart, Format, StoredEntries, BucketLists, NewList;
    LayoutPlan(net, t, es, ls, b);
    var p, l, file := ListStart(es, ls, b), ls[b], Layout(t);
    FormatList(t.key, t.nNew, t.nTried, es, ls, b, 0);
    forall k | p < k <= p + |l| ensures k < |file| && file[k] == Num(l[k - p - 1]) {
      FormatList(t.key, t.nNew, t.nTried, es, ls, b, k - p);
    }
    FormatList(t.key, t.nNew, t.nTried, es, ls, b, |l|);
    PlacesListed(NewList(t), FileOrder(t), Ascending(t.untried[b]), l, file, p);
  }

  lemma LayoutPlan(net: Net, t: Tables, es: seq<Stored>, ls: seq<seq<int>>, b: nat)
    requires Inv(net, t) && BucketsListed(t) && es == StoredEntries(t) && ls == BucketLists(t) && b < |ls|
    ensures |ls| == NEW_BUCKET_COUNT == |t.untried| && ListStart(es, ls, 0) == 5 + t.nNew + t.nTried
    ensures |NewList(t)| == t.nNew && |ls[b]| == |Ascending(t.untried[b])| && NewList(t) <= FileOrder(t)
    ensures forall k :: 0 <= k < |ls[b]| ==>
              0 <= ls[b][k] < t.nNew && NewList(t)[ls[b][k]] == Ascending(t.untried[b])[k]
  {
    InvListed(net, t);
    assert |t.untried| == NEW_BUCKET_COUNT;
    hide Waiting, Select, Places;
    assert ls[..0] == [];
  }

  // ----- Writing -----

  lemma SelectNext(info: map<int, Info>, ids: seq<int>, i: nat, tried: bool)
    requires forall n :: n in ids ==> n in info
    requires i < |ids|
    ensures Select(info, ids[..i + 1], tried) ==
              Select(info, ids[..i], tried) + if info[ids[i]].inTried == tried then [ids[i]] else []
  {
    assert ids[..i + 1][..i] == ids[..i];
  }

  lemma {:induction false} SelectPrefix(info: map<int, Info>, ids: seq<int>, i: nat, tried: bool)
    requires forall n :: n in ids ==> n in info
    requires i <= |ids|
    ensures Select(info, ids[..i], tried) <= Select(info, ids, tried)
    decreases |ids| - i
  {
    if i == |ids| {
      assert ids[..i] == ids;
    } else {
      SelectNext(info, ids, i, tried);
      SelectPrefix(info, ids, i + 1, tried);
    }
  }

  /** `out` holds the entries of `part` in this order. */
  ghost predicate Written(info: map<int, Info>, part: seq<int>, out: seq<Stored>) {
    |out| == |part| && forall k :: 0 <= k < |part| ==> part[k] in info && out[k] == Strip(info[part[k]])
  }

  /** `index` knows the place of every id in `part`. */
  ghost predicate Indexed(part: seq<int>, index: map<int, int>) {
    forall n :: n in part ==> n in index && 0 <= index[n] < |part| && part[index[n]] == n
  }

  lemma WrittenStep(info: map<int, Info>, part: seq<int>, out: seq<Stored>, n: int)
    requires Written(info, part, out) && n in info
    ensures Written(info, part + [n], out + [Strip(info[n])])
  {
  }

  lemma IndexedStep(part: seq<int>, index: map<int, int>, n: int)
    requires Indexed(part, index) && n !in part
    ensures Indexed(part, index[n := |part|])
    ensures Indexed(part + [n], index[n := |part|])
  {
  }

  /** A prefix of the selection that is as long as the whole is the whole. */
  lemma SelectDone(info: map<int, Info>, ids: seq<int>, i: nat, tried: bool)
    requires forall n :: n in ids ==> n in info
    requires i <= |ids| && (i == |ids| || |Select(info, ids[..i], tried)| == |Select(info, ids, tried)|)
    ensures Select(info, ids[..i], tried) == Select(info, ids, tried)
  {
    SelectPrefix(info, ids, i, tried);
    if i == |ids| {
      assert ids[..i] == ids;
    }
  }

  /** The stored new entries, with the place of each; the loop ends early once all are written. */
  method WriteNew(info: map<int, Info>, ids: seq<int>, nNew: int) returns (out: seq<Stored>, index: map<int, int>)
    requires forall n :: n in ids ==> n in info
    requires Increasing(ids)
    requires forall n :: n in ids ==> (info[n].refCount != 0 <==> !info[n].inTried)
    requires |Select(info, ids, false)| == nNew
    ensures Written(info, Select(info, ids, false), out)
    ensures Indexed(Select(info, ids, false), index)
  {
    out, index := [], map[];
    var written, i := 0, 0;
    assert ids[..0] == [];
    assert Select(info, ids[..0], false) == [];
    assert Written(info, [], out) && Indexed([], index);
    hide Select, Written, Indexed;
    while i < |ids| && written != nNew
      invariant 0 <= i <= |ids| && written == |Select(info, ids[..i], false)|
      invariant Written(info, Select(info, ids[..i], false), out)
      invariant Indexed(Select(info, ids[..i], false), index)
    {
      var n := ids[i];
      ghost var part := Select(info, ids[..i], false);
      assert n in ids && n !in ids[..i];
      SelectExact(info, ids[..i], false);
      SelectNext(info, ids, i, false);
      WrittenStep(info, part, out, n);
      IndexedStep(part, index, n);
      index := index[n := written];
      if info[n].refCount != 0 {
        out := out + [Strip(info[n])];
        written := written + 1;
      }
      i := i + 1;
    }
    SelectDone(info, ids, i, false);
  }

  method WriteTried(info: map<int, Info>, ids: seq<int>, nTried: int) returns (out: seq<Stored>)
    requires forall n :: n in ids ==> n in info
    requires |Select(info, ids, true)| == nTried
    ensures Written(info, Select(info, ids, true), out)
  {
    out := [];
    var written, i := 0, 0;
    assert ids[..0] == [];
    assert Select(info, ids[..0], true) == [];
    assert Written(info, [], out);
    hide Select, Written;
    while i < |ids| && written != nTried
      invariant 0 <= i <= |ids| && written == |Select(info, ids[..i], true)|
      invariant Written(info, Select(info, ids[..i], true), out)
    {
      var n := ids[i];
      assert n in ids;
      SelectNext(info, ids, i, true);
      WrittenStep(info, Select(info, ids[..i], true), out, n);
      if info[n].inTried {
        out := out + [Strip(info[n])];
        written := written + 1;
      }
      i := i + 1;
    }
    SelectDone(info, ids, i, true);
  }

  method WriteBuckets(untried: seq<set<int>>, index: map<int, int>, ghost list: seq<int>, ghost ls: seq<seq<int>>)
    returns (out: seq<Token>)
    requires Distinct(list) && Indexed(list, index) && |ls| == |untried|
    requires forall b, n :: 0 <= b < |untried| && n in untried[b] ==> n in list
    requires forall b :: 0 <= b < |ls| ==> ls[b] == Places(list, untried[b])
    ensures out == ListsTokens(ls)
  {
    out := [];
    var b := 0;
    hide Indexed, Places, ListTokens;
    while b < |untried|
      invariant 0 <= b <= |untried|
      invariant out == ListsTokens(ls[..b])
    {
      var one := WriteBucket(untried[b], list, index);
      assert ls[..b + 1][..b] == ls[..b];
      out := out + one;
      b := b + 1;
    }
    assert ls[..b] == ls;
  }

  lemma PlaceIndexed(list: seq<int>, index: map<int, int>, bucket: set<int>, k: nat)
    requires Distinct(list) && Indexed(list, index) && forall n :: n in bucket ==> n in list
    requires k < |Ascending(bucket)|
    ensures var n := Ascending(bucket)[k];
            n in index && index[n] == Places(list, bucket)[k]
  {
    var ids := Ascending(bucket);
    assert ids[k] in ids;
    assert list[Places(list, bucket)[k]] == ids[k];
  }

  lemma ListTokensNext(l: seq<int>, k: nat)
    requires k < |l|
    ensures ListTokens(l)[..2 + k] == ListTokens(l)[..1 + k] + [Num(l[k])]
  {
  }

  method WriteBucket(bucket: set<int>, ghost list: seq<int>, index: map<int, int>) returns (out: seq<Token>)
    requires Distinct(list) && Indexed(list, index) && forall n :: n in bucket ==> n in list
    ensures out == ListTokens(Places(list, bucket))
  {
    var ids := Ascending(bucket);
    ghost var places := Places(list, bucket);
    out := [Num(|bucket|)];
    var k := 0;
    assert out == ListTokens(places)[..1];
    hide Indexed, Places, ListTokens, Ascending, Distinct;
    while k < |ids|
      invariant 0 <= k <= |ids|
      invariant out == ListTokens(places)[..1 + k]
    {
      PlaceIndexed(list, index, bucket, k);
      ListTokensNext(places, k);
      out := out + [Num(index[ids[k]])];
      k := k + 1;
    }
    assert out == ListTokens(places);
  }

  lemma EntryTokensSplit(p: seq<Stored>, q: seq<Stored>)
    ensures EntryTokens(p) + EntryTokens(q) == EntryTokens(p + q)
  {
  }

  lemma StoredSplit(t: Tables, p: seq<Stored>, q: seq<Stored>)
    requires Written(t.info, NewList(t), p) && Written(t.info, TriedList(t), q)
    ensures p + q == StoredEntries(t)
  {
  }

  lemma FormatWritten(key: Bytes, nNew: int, nTried: int, p: seq<Stored>, q: seq<Stored>, ls: seq<seq<int>>,
      s: seq<Token>)
    requires s == [Num(0), Blob(key), Num(nNew),
        Num(nTried)] + [Num(NEW_BUCKET_COUNT)] + EntryTokens(p) + EntryTokens(q) + ListsTokens(ls)
    ensures s == Format(key, nNew, nTried, p + q, ls)
  {
    EntryTokensSplit(p, q);
    hide EntryTokens, ListsTokens;
    assert [Num(0), Blob(key), Num(nNew), Num(nTried)] + [Num(NEW_BUCKET_COUNT)] == Header(key, nNew, nTried);
    assert s == Header(key, nNew, nTried) + (EntryTokens(p) + EntryTokens(q)) + ListsTokens(ls);
  }
}
