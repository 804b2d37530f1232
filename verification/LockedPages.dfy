/** Counted locks on memory pages, over an operating system whose locks do not stack. */
module LockedPages {
  import opened Arithmetic
  import opened PageCounts

  /** The operating system: a page is locked or not. */
  class Locker {
    var locked: set<nat>
    ghost var calls: seq<Call>

    ghost predicate Valid()
      reads this
    {
      Legal(calls) && locked == Held(calls)
    }

    constructor ()
      ensures Valid() && calls == [] && locked == {}
    {
      locked, calls := {}, [];
    }

    /** Only pages that are not locked are ever locked. */
    method Lock(page: nat)
      requires Valid() && page !in locked
      modifies this
      ensures Valid() && calls == old(calls) + [LockPage(page)]
      ensures locked == old(locked) + {page}
    {
      hide Held, Legal;
      OneMoreCall(calls, LockPage(page));
      locked, calls := locked + {page}, calls + [LockPage(page)];
    }

    /** Only locked pages are ever unlocked. */
    method Unlock(page: nat)
      requires Valid() && page in locked
      modifies this
      ensures Valid() && calls == old(calls) + [UnlockPage(page)]
      ensures locked == old(locked) - {page}
    {
      hide Held, Legal;
      OneMoreCall(calls, UnlockPage(page));
      locked, calls := locked - {page}, calls + [UnlockPage(page)];
    }
  }

  class LockedPageManager {
    const pageSize: nat
    const locker: Locker
    var histogram: map<nat, nat>
    ghost var live: seq<Range>

    /** Counts are exact, and the locked pages are those with a count. */
    ghost predicate Valid()
      reads this, locker
    {
      && pageSize > 0
      && Exact(histogram, live, pageSize, 0, 0)
      && locker.Valid()
      && locker.locked == histogram.Keys
    }

    constructor (pageSize: nat, locker: Locker)
      requires pageSize > 0 && locker.Valid() && locker.locked == {}
      ensures Valid() && live == [] && this.locker == locker && this.pageSize == pageSize
    {
      this.pageSize, this.locker := pageSize, locker;
      histogram, live := map[], [];
    }

    /** `LockRange`: the pages that no live range touches are locked, in order. */
    method LockRange(base: nat, size: nat)
      requires Valid()
      modifies this, locker
      ensures Valid() && live == Next(old(live), Op.LockRange(Range(base, size)))
      ensures locker.calls == old(locker.calls) + CallsOf(old(live), pageSize, Op.LockRange(Range(base, size)))
    {
      hide Count, Exact, Held, Legal;
      ghost var r := Range(base, size);
      ghost var first := First(r, pageSize);
      ghost var before := locker.calls;
      NothingExtra(histogram, live, pageSize, first);
      if size > 0 {
        var page := Quotient(base, pageSize);
        var last := Quotient(base + size - 1, pageSize);
        PagesGrow(base, base + size - 1, pageSize);
        while page <= last
          invariant first <= page <= last + 1 && live == old(live)
          invariant Exact(histogram, live, pageSize, first, page)
          invariant locker.Valid() && locker.locked == histogram.Keys
          invariant locker.calls == before + Locks(Untouched(live, pageSize, first, page))
          decreases last + 1 - page
        {
          TakePage(first, page);
          page := page + 1;
        }
      }
      AddedExact(histogram, live, r, pageSize);
      live := live + [r];
    }

    /** One pass of that loop. */
    method TakePage(ghost first: nat, page: nat)
      requires pageSize > 0 && first <= page && Exact(histogram, live, pageSize, first, page)
      requires locker.Valid() && locker.locked == histogram.Keys
      modifies this`histogram, locker
      ensures Exact(histogram, live, pageSize, first, page + 1)
      ensures locker.Valid() && locker.locked == histogram.Keys
      ensures locker.calls ==
              old(locker.calls) + if Count(live, pageSize, page) == 0 then [LockPage(page)] else []
    {
      hide Count, Held, Legal;
      if page !in histogram {
        locker.Lock(page);
        histogram := histogram[page := 1];
      } else {
        histogram := histogram[page := histogram[page] + 1];
      }
    }

    /** `UnlockRange`: the pages that no other live range touches are unlocked, in order. */
    method UnlockRange(base: nat, size: nat)
      requires Valid() && Range(base, size) in live
      modifies this, locker
      ensures Valid() && live == Next(old(live), Op.UnlockRange(Range(base, size)))
      ensures locker.calls == old(locker.calls) + CallsOf(old(live), pageSize, Op.UnlockRange(Range(base, size)))
    {
      hide Count, Exact, Held, Legal;
      ghost var r := Range(base, size);
      ghost var first := First(r, pageSize);
      ghost var before := locker.calls;
      ghost var k := WithoutAt(live, r);
      ghost var without := Without(live, r);
      RemovedExact(histogram, live, k, pageSize);
      live := without;
      if size > 0 {
        var page := Quotient(base, pageSize);
        var last := Quotient(base + size - 1, pageSize);
        PagesGrow(base, base + size - 1, pageSize);
        while page <= last
          invariant first <= page <= last + 1 && live == without
          invariant Exact(histogram, live, pageSize, page, last + 1)
          invariant locker.Valid() && locker.locked == histogram.Keys
          invariant locker.calls == before + Unlocks(Untouched(live, pageSize, first, page))
          decreases last + 1 - page
        {
          ReleasePage(page, last + 1);
          page := page + 1;
        }
        NothingExtra(histogram, live, pageSize, page);
      } else {
        NothingExtra(histogram, live, pageSize, first);
      }
    }

    /** One pass of that loop. */
    method ReleasePage(page: nat, ghost to: nat)
      requires pageSize > 0 && page < to && Exact(histogram, live, pageSize, page, to)
      requires locker.Valid() && locker.locked == histogram.Keys
      modifies this`histogram, locker
      ensures Exact(histogram, live, pageSize, page + 1, to)
      ensures locker.Valid() && locker.locked == histogram.Keys
      ensures locker.calls ==
              old(locker.calls) + if Count(live, pageSize, page) == 0 then [UnlockPage(page)] else []
    {
      hide Count, Held, Legal;
      assert page in histogram;
      histogram := histogram[page := histogram[page] - 1];
      if histogram[page] == 0 {
        locker.Unlock(page);
        histogram := histogram - {page};
      }
    }

    method Step(op: Op)
      requires Valid() && Allowed(live, op)
      modifies this, locker
      ensures Valid() && live == Next(old(live), op)
      ensures locker.calls == old(locker.calls) + CallsOf(old(live), pageSize, op)
    {
      hide CallsOf, Next, Exact, Held, Legal;
      match op {
        case LockRange(r) => LockRange(r.base, r.size);
        case UnlockRange(r) => UnlockRange(r.base, r.size);
      }
    }

    /** Any run that only unlocks live ranges. */
    method Run(ops: seq<Op>)
      requires Valid() && AllAllowed(live, ops)
      modifies this, locker
      ensures Valid() && live == After(old(live), ops)
      ensures locker.calls == old(locker.calls) + AllCalls(old(live), pageSize, ops)
      ensures live == [] ==> histogram == map[] && locker.locked == {}
    {
      hide CallsOf, Next, Exact, Held, Legal, Allowed;
      if |ops| > 0 {
        Step(ops[0]);
        Run(ops[1..]);
      }
      if live == [] {
        NoneLive(histogram, pageSize);
      }
    }
  }

  lemma NoneLive(histogram: map<nat, nat>, pageSize: nat)
    requires pageSize > 0 && Exact(histogram, [], pageSize, 0, 0)
    ensures histogram == map[] && histogram.Keys == {}
  {
    forall q: nat ensures q !in histogram {
      LockedMeansLive(histogram, [], pageSize, q);
    }
  }
}
