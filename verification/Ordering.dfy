/** Iteration over finite sets of integers in ascending order, as `std::set` and `std::map` do it. */
module Ordering {

  ghost predicate Increasing(s: seq<int>) {
    forall i, j :: 0 <= i < j < |s| ==> s[i] < s[j]
  }

  ghost predicate IsLeast(m: int, s: set<int>) {
    m in s && forall x :: x in s ==> m <= x
  }

  lemma Element<T>(s: set<T>) returns (m: T)
    requires |s| > 0
    ensures m in s
  {
    m :| m in s;
  }

  lemma LeastExists(s: set<int>) returns (m: int)
    requires |s| > 0
    ensures IsLeast(m, s)
  {
    m := Element(s);
    var rest := s - {m};
    if |rest| > 0 {
      var k := LeastExists(rest);
      if k < m {
        m := k;
      }
      forall x | x in s ensures m <= x {
        assert x in rest || x !in rest;
      }
    } else {
      forall x | x in s ensures m <= x {
        assert x in rest || x == m;
      }
    }
  }

  function Least(s: set<int>): (m: int)
    requires |s| > 0
    ensures IsLeast(m, s)
  {
    assert exists m :: IsLeast(m, s) by {
      var m := LeastExists(s);
    }
    var m :| m in s && forall x :: x in s ==> m <= x;
    m
  }

  function Ascending(s: set<int>): (r: seq<int>)
    ensures Increasing(r)
    ensures forall x :: x in r <==> x in s
    ensures |r| == |s|
    decreases |s|
  {
    if |s| == 0 then []
    else
      var m := Least(s);
      [m] + Ascending(s - {m})
  }
}
