/** How many of the live ranges touch a page, and the calls that follow from it. */
module PageCounts {
  import opened Arithmetic

  datatype Range = Range(base: nat, size: nat)

  function First(r: Range, pageSize: nat): nat
    requires pageSize > 0
  {
    Quotient(r.base, pageSize)
  }

  /** One past the last page. */
  function End(r: Range, pageSize: nat): nat
    requires pageSize > 0
  {
    if r.size == 0 then First(r, pageSize) else Quotient(r.base + r.size - 1, pageSize) + 1
  }

  /** Some byte of the range lies on the page. */
  ghost predicate OnPage(r: Range, pageSize: nat, page: nat)
    requires pageSize > 0
  {
    exists a: nat :: r.base <= a < r.base + r.size && Quotient(a, pageSize) == page
  }

  function One(from: nat, to: nat, page: nat): nat {
    if from <= page < to then 1 else 0
  }

  function Touching(r: Range, pageSize: nat, page: nat): nat
    requires pageSize > 0
  {
    One(First(r, pageSize), End(r, pageSize), page)
  }

  /** The number of live ranges that touch a page. */
  function Count(live: seq<Range>, pageSize: nat, page: nat): nat
    requires pageSize > 0
  {
    if |live| == 0 then 0
    else Count(live[..|live| - 1], pageSize, page) + Touching(live[|live| - 1], pageSize, page)
  }

  lemma {:induction false} CountWithout(live: seq<Range>, k: nat, pageSize: nat, page: nat)
    requires pageSize > 0 && k < |live|
    ensures Count(live[..k] + live[k + 1..], pageSize, page) + Touching(live[k], pageSize, page)
         == Count(live, pageSize, page)
  {
    hide Touching;
    var n := |live| - 1;
    var rest := live[..k] + live[k + 1..];
    if k == n {
      assert rest == live[..n];
    } else {
      var init := live[..n];
      CountWithout(init, k, pageSize, page);
      assert rest[..|rest| - 1] == init[..k] + init[k + 1..];
      assert rest[|rest| - 1] == live[n];
    }
  }

  /** The histogram is exactly the count, with one more on the pages from `from` up to `to`. */
  ghost predicate Exact(histogram: map<nat, nat>, live: seq<Range>, pageSize: nat, from: nat, to: nat)
    requires pageSize > 0
  {
    forall q: nat ::
      var n := Count(live, pageSize, q) + One(from, to, q);
      && (q in histogram <==> n > 0)
      && (q in histogram ==> histogram[q] == n)
  }

  lemma PageOf(page: nat, offset: nat, pageSize: nat)
    requires offset < pageSize
    ensures Quotient(page * pageSize + offset, pageSize) == page
  {
    Division(pageSize, page, offset);
  }

  lemma PagesGrow(a: nat, b: nat, pageSize: nat)
    requires pageSize > 0 && a <= b
    ensures Quotient(a, pageSize) <= Quotient(b, pageSize)
  {
    var p, q := Quotient(a, pageSize), Quotient(b, pageSize);
    if q < p {
      Widens(pageSize, q, p);
    }
  }

  /** The pages between first and end are those that hold a byte of the range. */
  lemma TouchingIsOnPage(r: Range, pageSize: nat, page: nat)
    requires pageSize > 0
    ensures Touching(r, pageSize, page) == 1 <==> OnPage(r, pageSize, page)
  {
    if OnPage(r, pageSize, page) {
      var a: nat :| r.base <= a < r.base + r.size && Quotient(a, pageSize) == page;
      PagesGrow(r.base, a, pageSize);
      PagesGrow(a, r.base + r.size - 1, pageSize);
    }
    if Touching(r, pageSize, page) == 1 {
      FindByte(r, pageSize, page);
    }
  }

  lemma FindByte(r: Range, pageSize: nat, page: nat)
    requires pageSize > 0 && First(r, pageSize) <= page < End(r, pageSize)
    ensures OnPage(r, pageSize, page)
  {
    var first, last := First(r, pageSize), Quotient(r.base + r.size - 1, pageSize);
    if page == first {
      assert Quotient(r.base, pageSize) == page;
    } else {
      var a := page * pageSize + 0;
      PageOf(page, 0, pageSize);
      Widens(pageSize, first, page);
      if page < last {
        Widens(pageSize, page, last);
      }
      assert r.base <= a < r.base + r.size;
    }
  }

  lemma NothingExtra(histogram: map<nat, nat>, live: seq<Range>, pageSize: nat, page: nat)
    requires pageSize > 0
    ensures Exact(histogram, live, pageSize, page, page) <==> Exact(histogram, live, pageSize, 0, 0)
  {
    hide Count;
    forall q: nat ensures One(page, page, q) == One(0, 0, q) {
    }
  }

  lemma AddedExact(histogram: map<nat, nat>, live: seq<Range>, r: Range, pageSize: nat)
    requires pageSize > 0 && Exact(histogram, live, pageSize, First(r, pageSize), End(r, pageSize))
    ensures Exact(histogram, live + [r], pageSize, 0, 0)
  {
    hide Count;
    Added(live, r, pageSize);
  }

  lemma RemovedExact(histogram: map<nat, nat>, live: seq<Range>, k: nat, pageSize: nat)
    requires pageSize > 0 && k < |live| && Exact(histogram, live, pageSize, 0, 0)
    ensures Exact(histogram, live[..k] + live[k + 1..], pageSize, First(live[k], pageSize), End(live[k], pageSize))
  {
    hide Count;
    Removed(live, k, pageSize);
  }

  lemma Added(live: seq<Range>, r: Range, pageSize: nat)
    requires pageSize > 0
    ensures forall q: nat :: Count(live + [r], pageSize, q) == Count(live, pageSize, q) + Touching(r, pageSize, q)
  {
    hide Touching;
    assert (live + [r])[..|live|] == live;
  }

  lemma Removed(live: seq<Range>, k: nat, pageSize: nat)
    requires pageSize > 0 && k < |live|
    ensures forall q: nat ::
              Count(live, pageSize, q) == Count(live[..k] + live[k + 1..], pageSize, q) + Touching(live[k], pageSize, q)
  {
    forall q: nat
      ensures Count(live, pageSize, q) == Count(live[..k] + live[k + 1..], pageSize, q) + Touching(live[k], pageSize, q)
    {
      CountWithout(live, k, pageSize, q);
    }
  }

  /** A page is locked exactly as long as a live range has a byte on it; with no live range, none is. */
  lemma LockedMeansLive(histogram: map<nat, nat>, live: seq<Range>, pageSize: nat, page: nat)
    requires pageSize > 0 && Exact(histogram, live, pageSize, 0, 0)
    ensures page in histogram <==> exists k :: 0 <= k < |live| && OnPage(live[k], pageSize, page)
    ensures live == [] ==> page !in histogram
  {
    CountPositive(live, pageSize, page);
    hide Count, OnPage;
  }

  lemma {:induction false} CountPositive(live: seq<Range>, pageSize: nat, page: nat)
    requires pageSize > 0
    ensures Count(live, pageSize, page) > 0 <==> exists k :: 0 <= k < |live| && OnPage(live[k], pageSize, page)
  {
    if |live| > 0 {
      var n := |live| - 1;
      CountPositive(live[..n], pageSize, page);
      TouchingIsOnPage(live[n], pageSize, page);
      if k :| 0 <= k < |live| && OnPage(live[k], pageSize, page) {
        assert k < n ==> OnPage(live[..n][k], pageSize, page);
      }
      if k :| 0 <= k < |live[..n]| && OnPage(live[..n][k], pageSize, page) {
        assert OnPage(live[k], pageSize, page);
      }
    }
  }

  // ----- The calls to the operating system -----

  datatype Call = LockPage(page: nat) | UnlockPage(page: nat)

  /** The pages from `from` up to `end` that no live range touches, in order. */
  function Untouched(live: seq<Range>, pageSize: nat, from: nat, end: nat): seq<nat>
    requires pageSize > 0
    decreases end
  {
    if end <= from then []
    else Untouched(live, pageSize, from, end - 1) + if Count(live, pageSize, end - 1) == 0 then [end - 1] else []
  }

  ghost predicate Ascending(pages: seq<nat>) {
    forall i, j :: 0 <= i < j < |pages| ==> pages[i] < pages[j]
  }

  lemma {:induction false} UntouchedPages(live: seq<Range>, pageSize: nat, from: nat, end: nat)
    requires pageSize > 0
    ensures forall q :: q in Untouched(live, pageSize, from, end) <==> from <= q < end && Count(live, pageSize, q) == 0
    ensures Ascending(Untouched(live, pageSize, from, end))
    decreases end
  {
    hide Count;
    if from < end {
      UntouchedPages(live, pageSize, from, end - 1);
      var init := Untouched(live, pageSize, from, end - 1);
      forall i | 0 <= i < |init| ensures init[i] < end - 1 {
        assert init[i] in init;
      }
    }
  }

  function Locks(pages: seq<nat>): seq<Call> {
    seq(|pages|, i requires 0 <= i < |pages| => LockPage(pages[i]))
  }

  function Unlocks(pages: seq<nat>): seq<Call> {
    seq(|pages|, i requires 0 <= i < |pages| => UnlockPage(pages[i]))
  }

  // ----- Runs -----

  datatype Op = LockRange(range: Range) | UnlockRange(range: Range)

  /** The live ranges without the first that equals `r`. */
  function Without(live: seq<Range>, r: Range): seq<Range> {
    if |live| == 0 then []
    else if live[0] == r then live[1..]
    else [live[0]] + Without(live[1..], r)
  }

  lemma {:induction false} WithoutAt(live: seq<Range>, r: Range) returns (k: nat)
    requires r in live
    ensures k < |live| && live[k] == r && Without(live, r) == live[..k] + live[k + 1..]
  {
    if live[0] == r {
      k := 0;
    } else {
      var j := WithoutAt(live[1..], r);
      k := j + 1;
      assert live[..k] == [live[0]] + live[1..][..j];
      assert live[k + 1..] == live[1..][j + 1..];
    }
  }

  function Next(live: seq<Range>, op: Op): seq<Range> {
    match op
    case LockRange(r) => live + [r]
    case UnlockRange(r) => Without(live, r)
  }

  /** What one operation asks of the operating system. */
  function CallsOf(live: seq<Range>, pageSize: nat, op: Op): seq<Call>
    requires pageSize > 0
  {
    match op
    case LockRange(r) => Locks(Untouched(live, pageSize, First(r, pageSize), End(r, pageSize)))
    case UnlockRange(r) => Unlocks(Untouched(Without(live, r), pageSize, First(r, pageSize), End(r, pageSize)))
  }

  /** Only live ranges are unlocked. */
  predicate Allowed(live: seq<Range>, op: Op) {
    op.UnlockRange? ==> op.range in live
  }

  predicate AllAllowed(live: seq<Range>, ops: seq<Op>)
    decreases |ops|
  {
    |ops| > 0 ==> Allowed(live, ops[0]) && AllAllowed(Next(live, ops[0]), ops[1..])
  }

  function After(live: seq<Range>, ops: seq<Op>): seq<Range>
    decreases |ops|
  {
    if |ops| == 0 then live else After(Next(live, ops[0]), ops[1..])
  }

  function AllCalls(live: seq<Range>, pageSize: nat, ops: seq<Op>): seq<Call>
    requires pageSize > 0
    decreases |ops|
  {
    if |ops| == 0 then [] else CallsOf(live, pageSize, ops[0]) + AllCalls(Next(live, ops[0]), pageSize, ops[1..])
  }

  ghost predicate Once(calls: seq<Call>) {
    forall i, j :: 0 <= i < j < |calls| ==> calls[i] != calls[j]
  }

  lemma CountNext(live: seq<Range>, pageSize: nat, op: Op, page: nat)
    requires pageSize > 0 && Allowed(live, op)
    ensures Count(Next(live, op), pageSize, page) ==
            Count(live, pageSize, page) + Touching(op.range, pageSize, page) * (if op.LockRange? then 1 else -1)
  {
    hide Count, Touching;
    if op.LockRange? {
      Added(live, op.range, pageSize);
    } else {
      var k := WithoutAt(live, op.range);
      CountWithout(live, k, pageSize, page);
    }
  }

  /** A page is locked exactly when its count leaves zero and unlocked exactly when it comes back, once each. */
  lemma CallsAtZero(live: seq<Range>, pageSize: nat, op: Op, page: nat)
    requires pageSize > 0 && Allowed(live, op)
    ensures var before, after := Count(live, pageSize, page), Count(Next(live, op), pageSize, page);
            && (LockPage(page) in CallsOf(live, pageSize, op) <==> before == 0 < after)
            && (UnlockPage(page) in CallsOf(live, pageSize, op) <==> after == 0 < before)
    ensures Once(CallsOf(live, pageSize, op))
  {
    CountNext(live, pageSize, op, page);
    var r := op.range;
    var others := if op.LockRange? then live else Without(live, r);
    var pages := Untouched(others, pageSize, First(r, pageSize), End(r, pageSize));
    UntouchedPages(others, pageSize, First(r, pageSize), End(r, pageSize));
    hide Count, Untouched, Without;
    if page in pages {
      var i :| 0 <= i < |pages| && pages[i] == page;
      assert CallsOf(live, pageSize, op)[i].page == page;
    }
  }

  // ----- What the operating system makes of them -----

  /** The pages held after these calls. */
  function Held(calls: seq<Call>): set<nat> {
    if |calls| == 0 then {}
    else
      var n := |calls| - 1;
      match calls[n]
      case LockPage(p) => Held(calls[..n]) + {p}
      case UnlockPage(p) => Held(calls[..n]) - {p}
  }

  /** No page is locked that is held, and none unlocked that is not. */
  predicate Legal(calls: seq<Call>) {
    |calls| > 0 ==>
      var n := |calls| - 1;
      Legal(calls[..n]) && (calls[n].LockPage? <==> calls[n].page !in Held(calls[..n]))
  }

  lemma OneMoreCall(calls: seq<Call>, c: Call)
    requires Legal(calls) && (c.LockPage? <==> c.page !in Held(calls))
    ensures Legal(calls + [c])
    ensures Held(calls + [c]) == if c.LockPage? then Held(calls) + {c.page} else Held(calls) - {c.page}
  {
    assert (calls + [c])[..|calls|] == calls;
  }

  function Times(calls: seq<Call>, c: Call): nat {
    multiset(calls)[c]
  }

  /** Every lock but that of a page still held has been undone by an unlock. */
  lemma {:induction false} Balanced(calls: seq<Call>, page: nat)
    requires Legal(calls)
    ensures Times(calls, LockPage(page)) == Times(calls, UnlockPage(page)) + if page in Held(calls) then 1 else 0
  {
    if |calls| > 0 {
      var n := |calls| - 1;
      Balanced(calls[..n], page);
      assert calls == calls[..n] + [calls[n]];
    }
  }
}
