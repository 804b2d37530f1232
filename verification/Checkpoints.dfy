/** Synchronized checkpoints over a growing block tree. */
module Checkpoints {
  import opened BlockTree

  /** What the rest of the node answers: is the block in the main chain, and do reading it, making its
      chain the best one, and writing to the database succeed? */
  datatype World = World(inMain: bool, disk: bool, best: bool, db: bool)

  /** The checkpoint can become the current one. */
  predicate Reachable(w: World) {
    (w.inMain || (w.disk && w.best)) && w.db
  }

  datatype Op =
    | Process(hash: Hash, signed: bool, world: World)
    | AcceptPending(world: World)
    | NewBlock(hash: Hash, prev: Link)

  /** All checkpoints ever adopted lie on one branch, each strictly above the one before. */
  ghost predicate OneBranch(index: Index, adopted: seq<Hash>)
    requires Tree(index)
  {
    && (forall i :: 0 <= i < |adopted| ==> adopted[i] in index)
    && (forall i, j :: 0 <= i < j < |adopted| ==> StrictlyDescends(index, adopted[i], adopted[j]))
  }

  lemma AdoptKeeps(index: Index, adopted: seq<Hash>, hash: Hash)
    requires Tree(index) && |adopted| > 0 && OneBranch(index, adopted)
    requires hash in index && StrictlyDescends(index, adopted[|adopted| - 1], hash)
    ensures OneBranch(index, adopted + [hash])
  {
    hide Tree, Descends;
    var last := adopted[|adopted| - 1];
    forall i | 0 <= i < |adopted| ensures StrictlyDescends(index, adopted[i], hash) {
      if i < |adopted| - 1 {
        DescendsTransitively(index, adopted[i], last, hash);
        AncestorIsLower(index, adopted[i], last);
        AncestorIsLower(index, last, hash);
      }
    }
  }

  lemma GrowKeepsBranch(index: Index, hash: Hash, prev: Link, adopted: seq<Hash>)
    requires Tree(index) && Extends(index, hash, prev) && OneBranch(index, adopted)
    ensures Tree(Grow(index, hash, prev)) && OneBranch(Grow(index, hash, prev), adopted)
  {
    hide Tree, Descends;
    GrowKeepsTree(index, hash, prev);
    forall i, j | 0 <= i < j < |adopted| ensures StrictlyDescends(Grow(index, hash, prev), adopted[i], adopted[j]) {
      GrowKeepsDescent(index, hash, prev, adopted[i], adopted[j]);
    }
  }

  /** A known block is marked invalid as a checkpoint if it is on another branch than the current one, or if
      it is ahead on the same branch but its chain cannot be made the best one. */
  ghost predicate Rejected(index: Index, sync: Hash, hash: Hash, world: World)
    requires Tree(index) && sync in index
  {
    && hash in index
    && (Apart(index, sync, hash)
        || (StrictlyDescends(index, sync, hash) && !world.inMain && world.disk && !world.best))
  }

  class SyncCheckpoints {
    var index: Index
    var sync: Hash
    var pending: Hash
    var invalid: Hash
    ghost var adopted: seq<Hash>
    ghost var refused: set<Hash>

    ghost predicate Valid()
      reads this
    {
      && Tree(index)
      && sync in index
      && |adopted| > 0
      && adopted[|adopted| - 1] == sync
      && OneBranch(index, adopted)
      && (forall x :: x in refused ==> x in index && Apart(index, x, sync))
    }

    constructor (genesis: Hash)
      ensures Valid() && adopted == [genesis] && refused == {} && index.Keys == {genesis} && pending == 0
    {
      index := map[genesis := Node(0, Root)];
      sync, pending, invalid := genesis, 0, 0;
      adopted, refused := [genesis], {};
    }

    /** `ValidateSyncCheckpoint`: only a strict descendant of the current checkpoint is accepted, an
        ancestor is ignored, anything else is marked invalid. */
    method Validate(hash: Hash) returns (ok: bool)
      requires Valid()
      modifies this`invalid, this`refused
      ensures Valid()
      ensures ok <==> hash in index && StrictlyDescends(index, sync, hash)
      ensures invalid == if hash in index && Apart(index, sync, hash) then hash else old(invalid)
      ensures refused == old(refused) + if hash in index && Apart(index, sync, hash) then {hash} else {}
    {
      hide Tree, Descends, OneBranch;
      if hash !in index {
        return false;
      }
      if index[hash].height <= index[sync].height {
        var at := WalkBack(index, sync, index[hash].height);
        WalkDecides(index, hash, sync, at);
        Lower(index, sync, hash);
        if at != hash {
          invalid := hash;
          refused := refused + {hash};
        }
        return false;
      }
      var at := WalkBack(index, hash, index[sync].height);
      WalkDecides(index, sync, hash, at);
      Higher(index, sync, hash);
      if at != sync {
        invalid := hash;
        refused := refused + {hash};
        return false;
      }
      return true;
    }

    /** The common end of both ways to a new checkpoint. */
    method Adopt(hash: Hash, world: World) returns (ok: bool)
      requires Valid() && hash in index && StrictlyDescends(index, sync, hash)
      modifies this`sync, this`invalid, this`adopted
      ensures Valid() && ok == Reachable(world)
      ensures ok ==> sync == hash && adopted == old(adopted) + [hash]
      ensures !ok ==> sync == old(sync) && adopted == old(adopted)
      ensures invalid == if !world.inMain && world.disk && !world.best then hash else old(invalid)
    {
      hide Tree, Descends, OneBranch;
      if !world.inMain {
        if !world.disk {
          return false;
        }
        if !world.best {
          invalid := hash;
          return false;
        }
      }
      if !world.db {
        return false;
      }
      AdoptKeeps(index, adopted, hash);
      forall x | x in refused ensures x in index && Apart(index, x, hash) {
        ApartStays(index, x, sync, hash);
      }
      sync := hash;
      adopted := adopted + [hash];
      return true;
    }

    /** `ProcessSyncCheckpoint`. */
    method ProcessMessage(hash: Hash, signed: bool, world: World) returns (ok: bool)
      requires Valid()
      modifies this
      ensures Valid() && index == old(index) && old(refused) <= refused
      ensures ok <==> signed && hash in index && StrictlyDescends(index, old(sync), hash) && Reachable(world)
      ensures ok ==> sync == hash && adopted == old(adopted) + [hash]
      ensures !ok ==> sync == old(sync) && adopted == old(adopted)
      ensures pending == if ok then 0 else if signed && hash !in index then hash else old(pending)
      ensures invalid == if signed && Rejected(index, old(sync), hash, world) then hash else old(invalid)
      ensures refused ==
              old(refused) + if signed && hash in index && Apart(index, old(sync), hash) then {hash} else {}
    {
      hide Tree, Descends, OneBranch;
      if !signed {
        return false;
      }
      if hash !in index {
        pending := hash;
        return false;
      }
      ok := Validate(hash);
      if !ok {
        return;
      }
      ok := Adopt(hash, world);
      if ok {
        pending := 0;
      }
    }

    /** `AcceptPendingSyncCheckpoint`. */
    method AcceptPendingMessage(world: World) returns (ok: bool)
      requires Valid()
      modifies this
      ensures Valid() && index == old(index) && old(refused) <= refused
      ensures ok <==> old(pending) != 0 && old(pending) in index && StrictlyDescends(index, old(sync), old(pending))
                      && Reachable(world)
      ensures if ok then sync == old(pending) && adopted == old(adopted) + [sync]
              else sync == old(sync) && adopted == old(adopted)
      ensures pending == if ok || (old(pending) in index && !StrictlyDescends(index, old(sync), old(pending))) then 0
                         else old(pending)
      ensures invalid == if old(pending) != 0 && Rejected(index, old(sync), old(pending), world) then old(pending)
                         else old(invalid)
      ensures refused ==
              old(refused) + if old(pending) != 0 && old(pending) in index && Apart(index, old(sync), old(pending))
                             then {old(pending)} else {}
    {
      hide Tree, Descends, OneBranch;
      if pending == 0 || pending !in index {
        return false;
      }
      ok := Validate(pending);
      if !ok {
        pending := 0;
        return;
      }
      ok := Adopt(pending, world);
      if ok {
        pending := 0;
      }
    }

    /** The index grows. */
    method AddBlock(hash: Hash, prev: Link)
      requires Valid() && Extends(index, hash, prev)
      modifies this`index
      ensures Valid() && index == Grow(old(index), hash, prev)
    {
      hide Tree, Descends, OneBranch;
      GrowKeepsBranch(index, hash, prev, adopted);
      forall x | x in refused ensures Apart(Grow(index, hash, prev), x, sync) {
        GrowKeepsDescent(index, hash, prev, x, sync);
        GrowKeepsDescent(index, hash, prev, sync, x);
      }
      index := Grow(index, hash, prev);
    }

    /** `CheckSync`: above the checkpoint only its descendants pass, and so only descendants of every
        checkpoint there ever was. */
    method CheckSync(hash: Hash, prev: Hash, testNet: bool) returns (ok: bool)
      requires Valid() && prev in index
      ensures testNet ==> ok
      ensures !testNet ==>
                var height := index[prev].height + 1;
                ok <==> if height > index[sync].height then Descends(index, sync, prev)
                        else if height == index[sync].height then hash == sync
                        else hash in index
      ensures !testNet && ok && index[prev].height >= index[sync].height ==>
                forall i :: 0 <= i < |adopted| ==> Descends(index, adopted[i], prev)
    {
      hide Tree, Descends, OneBranch;
      if testNet {
        return true;
      }
      var height := index[prev].height + 1;
      if height > index[sync].height {
        var at := WalkBack(index, prev, index[sync].height);
        WalkDecides(index, sync, prev, at);
        if index[at].height < index[sync].height || at != sync {
          return false;
        }
        forall i | 0 <= i < |adopted| ensures Descends(index, adopted[i], prev) {
          AdoptedBelow(index, adopted, i);
          DescendsTransitively(index, adopted[i], sync, prev);
        }
      }
      if height == index[sync].height && hash != sync {
        return false;
      }
      if height < index[sync].height && hash !in index {
        return false;
      }
      return true;
    }

    /** Any run of messages and new blocks. */
    method Run(ops: seq<Op>)
      requires Valid()
      modifies this
      ensures Valid()
      ensures old(adopted) <= adopted && old(refused) <= refused
      ensures forall x :: x in refused ==> x !in adopted
    {
      hide Tree, Descends, OneBranch, Reachable;
      for n := 0 to |ops|
        invariant Valid() && old(adopted) <= adopted && old(refused) <= refused
      {
        match ops[n]
        case Process(hash, signed, world) =>
          var ok := ProcessMessage(hash, signed, world);
        case AcceptPending(world) =>
          var ok := AcceptPendingMessage(world);
        case NewBlock(hash, prev) =>
          if hash !in index && (prev.Parent? ==> prev.hash in index) {
            AddBlock(hash, prev);
          }
      }
      forall x | x in refused ensures x !in adopted {
        RefusedNotAdopted(index, adopted, x);
      }
    }
  }

  lemma AdoptedBelow(index: Index, adopted: seq<Hash>, i: nat)
    requires Tree(index) && OneBranch(index, adopted) && i < |adopted|
    ensures adopted[i] in index && adopted[|adopted| - 1] in index
        && Descends(index, adopted[i], adopted[|adopted| - 1])
  {
    hide Tree;
    if i < |adopted| - 1 {
      assert StrictlyDescends(index, adopted[i], adopted[|adopted| - 1]);
    }
  }

  /** What once conflicted with the checkpoint is never adopted. */
  lemma RefusedNotAdopted(index: Index, adopted: seq<Hash>, x: Hash)
    requires Tree(index) && OneBranch(index, adopted) && |adopted| > 0
    requires x in index && adopted[|adopted| - 1] in index && Apart(index, x, adopted[|adopted| - 1])
    ensures x !in adopted
  {
    hide Tree, Descends, OneBranch;
    if x in adopted {
      var i :| 0 <= i < |adopted| && adopted[i] == x;
      AdoptedBelow(index, adopted, i);
    }
  }

  lemma Lower(index: Index, sync: Hash, hash: Hash)
    requires Tree(index) && sync in index && hash in index && index[hash].height <= index[sync].height
    ensures !StrictlyDescends(index, sync, hash)
    ensures Descends(index, sync, hash) ==> Descends(index, hash, sync)
  {
    if Descends(index, sync, hash) {
      AncestorIsLower(index, sync, hash);
    }
  }

  lemma Higher(index: Index, sync: Hash, hash: Hash)
    requires Tree(index) && sync in index && hash in index && index[hash].height > index[sync].height
    ensures !Descends(index, hash, sync)
  {
    if Descends(index, hash, sync) {
      AncestorIsLower(index, hash, sync);
    }
  }
}
