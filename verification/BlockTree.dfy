/** The block index as a tree that only grows. */
module BlockTree {

  type Hash = nat

  datatype Link = Root | Parent(hash: Hash)

  datatype Node = Node(height: nat, prev: Link)

  type Index = map<Hash, Node>

  /** Every block but a root has an indexed parent one height below. */
  ghost predicate Tree(index: Index) {
    forall b :: b in index ==>
      match index[b].prev
      case Root => index[b].height == 0
      case Parent(p) => p in index && index[b].height == index[p].height + 1
  }

  /** Block `b` is block `a` or descends from it. */
  ghost predicate Descends(index: Index, a: Hash, b: Hash)
    requires Tree(index) && b in index
    decreases index[b].height
  {
    a == b || (index[b].prev.Parent? && Descends(index, a, index[b].prev.hash))
  }

  ghost predicate StrictlyDescends(index: Index, a: Hash, b: Hash)
    requires Tree(index) && b in index
  {
    a != b && Descends(index, a, b)
  }

  /** On no common branch. */
  ghost predicate Apart(index: Index, a: Hash, b: Hash)
    requires Tree(index) && a in index && b in index
  {
    !Descends(index, a, b) && !Descends(index, b, a)
  }

  lemma {:induction false} AncestorIsLower(index: Index, a: Hash, b: Hash)
    requires Tree(index) && b in index && Descends(index, a, b)
    ensures a in index && index[a].height <= index[b].height
    ensures index[a].height == index[b].height ==> a == b
    decreases index[b].height
  {
    if a != b {
      AncestorIsLower(index, a, index[b].prev.hash);
    }
  }

  lemma {:induction false} DescendsTransitively(index: Index, a: Hash, b: Hash, c: Hash)
    requires Tree(index) && b in index && c in index && Descends(index, a, b) && Descends(index, b, c)
    ensures Descends(index, a, c)
    decreases index[c].height
  {
    if b != c {
      DescendsTransitively(index, a, b, index[c].prev.hash);
    }
  }

  /** The ancestors of a block form a line. */
  lemma {:induction false} AncestorsCompare(index: Index, a: Hash, b: Hash, c: Hash)
    requires Tree(index) && c in index && Descends(index, a, c) && Descends(index, b, c)
    ensures a in index && b in index && (Descends(index, a, b) || Descends(index, b, a))
    decreases index[c].height
  {
    AncestorIsLower(index, a, c);
    AncestorIsLower(index, b, c);
    if a != c && b != c {
      AncestorsCompare(index, a, b, index[c].prev.hash);
    }
  }

  /** What descends from `b` and is above another block keeps apart from it if `b` does. */
  lemma ApartStays(index: Index, x: Hash, a: Hash, b: Hash)
    requires Tree(index) && x in index && a in index && b in index && Apart(index, x, a) && Descends(index, a, b)
    ensures Apart(index, x, b)
  {
    if Descends(index, x, b) {
      AncestorsCompare(index, x, a, b);
    } else if Descends(index, b, x) {
      DescendsTransitively(index, a, b, x);
    }
  }

  // ----- Growth -----

  /** A block can be added under a parent, or as a root. */
  ghost predicate Extends(index: Index, hash: Hash, prev: Link) {
    hash !in index && (prev.Parent? ==> prev.hash in index)
  }

  function Height(index: Index, prev: Link): nat
    requires prev.Parent? ==> prev.hash in index
  {
    if prev.Parent? then index[prev.hash].height + 1 else 0
  }

  function Grow(index: Index, hash: Hash, prev: Link): Index
    requires prev.Parent? ==> prev.hash in index
  {
    index[hash := Node(Height(index, prev), prev)]
  }

  lemma GrowKeepsTree(index: Index, hash: Hash, prev: Link)
    requires Tree(index) && Extends(index, hash, prev)
    ensures Tree(Grow(index, hash, prev))
  {
  }

  /** A new block changes nothing between the old ones. */
  lemma {:induction false} GrowKeepsDescent(index: Index, hash: Hash, prev: Link, a: Hash, b: Hash)
    requires Tree(index) && Extends(index, hash, prev) && b in index
    ensures Tree(Grow(index, hash, prev)) && (Descends(Grow(index, hash, prev), a, b) <==> Descends(index, a, b))
    decreases index[b].height
  {
    GrowKeepsTree(index, hash, prev);
    if a != b && index[b].prev.Parent? {
      GrowKeepsDescent(index, hash, prev, a, index[b].prev.hash);
    }
  }

  // ----- The walk back -----

  /** Walks from `from` back to a height that is not above its own. */
  method WalkBack(index: Index, from: Hash, height: nat) returns (at: Hash)
    requires Tree(index) && from in index && height <= index[from].height
    ensures at in index && index[at].height == height && Descends(index, at, from)
  {
    at := from;
    while index[at].height > height
      invariant at in index && height <= index[at].height && Descends(index, at, from)
      decreases index[at].height
    {
      StepBack(index, at, from);
      at := index[at].prev.hash;
    }
  }

  lemma {:induction false} StepBack(index: Index, a: Hash, b: Hash)
    requires Tree(index) && a in index && b in index && Descends(index, a, b) && index[a].prev.Parent?
    ensures Descends(index, index[a].prev.hash, b)
    decreases index[b].height
  {
    var p := index[a].prev.hash;
    if a == b {
      assert Descends(index, p, p);
    } else {
      StepBack(index, a, index[b].prev.hash);
    }
  }

  /** The walk decides descent. */
  lemma WalkDecides(index: Index, a: Hash, from: Hash, at: Hash)
    requires Tree(index) && a in index && from in index && at in index
    requires index[at].height == index[a].height && Descends(index, at, from)
    ensures at == a <==> Descends(index, a, from)
  {
    if Descends(index, a, from) {
      AncestorsCompare(index, a, at, from);
      if Descends(index, a, at) {
        AncestorIsLower(index, a, at);
      } else {
        AncestorIsLower(index, at, a);
      }
    }
  }
}
