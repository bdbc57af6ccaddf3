/** Removing the sidechains that finalization leaves behind. */
module Finalization {
  import opened Blocks
  import opened Chains
  import opened Grouping
  import opened BlockIndexing
  import opened BlockBuffers
  import opened Trees

  ghost function HashesIn(chains: map<nat, Chain>, ids: set<nat>): set<BlockHash> {
    set id, b | id in ids && id in chains && b in chains[id] :: b.Hash()
  }

  ghost function FirstsIn(chains: map<nat, Chain>, ids: set<nat>): set<BlockHash> {
    set id | id in ids && id in chains && chains[id] != [] :: chains[id][0].Hash()
  }

  /** The hash that a sidechain sits on. */
  ghost function Base(chains: map<nat, Chain>, id: nat): BlockHash
    requires id in chains && chains[id] != []
  {
    chains[id][0].parentHash
  }

  /** The sidechains in `gone` are out of the tree and those in `pending` are to follow: together
      they are the ones that sit on `done` or on a block that is out.  The owner of a pending
      sidechain's first block is already dropped while its number is still listed. */
  ghost predicate Purging(t0: Tree, done: set<BlockHash>, chains: map<nat, Chain>, ix: Indices, pending: set<nat>) {
    var gone := t0.chains.Keys - chains.Keys;
    var out := HashesIn(t0.chains, gone);
    && chains == t0.chains - gone && pending <= chains.Keys
    && (forall id :: id in t0.chains && t0.chains[id] != [] ==>
                       ((id in gone || id in pending) <==> Base(t0.chains, id) in done || Base(t0.chains, id) in out))
    && ix.blocksToChain == t0.Owner() - out - FirstsIn(t0.chains, pending)
    && ix.forkToChild == t0.indices.forkToChild - done - out
    && Groups(ix.numberToHashes, t0.Owner().Keys - out, NumberOf)
  }

  /** The hashes filed under a set of keys are the first blocks of the sidechains that sit on them. */
  lemma UnderFirsts(chains: map<nat, Chain>, forks: map<BlockHash, set<BlockHash>>, keys: set<BlockHash>, ids: set<nat>)
    requires forall id :: id in chains ==> chains[id] != []
    requires Groups(forks, Firsts(chains), ParentOf)
    requires ids == set id | id in chains && Base(chains, id) in keys
    ensures Under(forks, keys) == FirstsIn(chains, ids)
  {
    forall h | h in Under(forks, keys)
      ensures h in FirstsIn(chains, ids)
    {
      var k :| k in keys && k in forks && h in forks[k];
      assert h in Firsts(chains) && ParentOf(h) == k;
      var id :| id in chains && chains[id] != [] && chains[id][0].Hash() == h;
      assert Base(chains, id) == k;
    }
    forall h | h in FirstsIn(chains, ids)
      ensures h in Under(forks, keys)
    {
      var id :| id in ids && id in chains && chains[id] != [] && chains[id][0].Hash() == h;
      assert h in Firsts(chains) && ParentOf(h) == Base(chains, id);
      assert h in forks[ParentOf(h)];
    }
  }

  /** The owners of first blocks are the sidechains they start. */
  lemma IdsOfFirsts(chains: map<nat, Chain>, owner: map<BlockHash, nat>, ids: set<nat>)
    requires forall id :: id in ids ==> id in chains && Starts(chains, owner, id)
    ensures Ids(owner, FirstsIn(chains, ids)) == ids
  {
    var firsts := FirstsIn(chains, ids);
    forall id | id in ids
      ensures id in Ids(owner, firsts)
    {
      assert Starts(chains, owner, id);
      assert chains[id][0].Hash() in firsts;
    }
    forall id | id in Ids(owner, firsts)
      ensures id in ids
    {
      var h :| h in firsts && h in owner && owner[h] == id;
      var j :| j in ids && j in chains && chains[j] != [] && chains[j][0].Hash() == h;
      assert Starts(chains, owner, j);
    }
  }

  /** The owner of the first block of the sidechain is the sidechain. */
  ghost predicate Starts(chains: map<nat, Chain>, owner: map<BlockHash, nat>, id: nat)
    requires id in chains
  {
    chains[id] != [] && chains[id][0].Hash() in owner && owner[chains[id][0].Hash()] == id
  }

  lemma OwnedStarts(t: Tree, id: nat)
    requires Filed(t) && id in t.chains
    ensures Starts(t.chains, t.Owner(), id)
  {
    assert t.chains[id][0].Hash() in Hashes(t.chains[id]);
  }

  lemma PurgingStarts(t0: Tree, done: set<BlockHash>, ix: Indices, pending: set<nat>)
    requires Consistent(t0)
    requires pending == Ids(t0.Owner(), Under(t0.indices.forkToChild, done))
    requires ix.blocksToChain == t0.Owner() - Under(t0.indices.forkToChild, done)
    requires ix.forkToChild == t0.indices.forkToChild - done
    requires ix.numberToHashes == t0.indices.numberToHashes
    ensures Purging(t0, done, t0.chains, ix, pending)
  {
    hide Groups; hide Linked; hide Attached; hide Buffer.Valid; hide Owned; hide InDatabase;
    var ids := set id | id in t0.chains && Base(t0.chains, id) in done;
    UnderFirsts(t0.chains, t0.indices.forkToChild, done, ids);
    forall id | id in ids
      ensures Starts(t0.chains, t0.Owner(), id)
    {
      OwnedStarts(t0, id);
    }
    IdsOfFirsts(t0.chains, t0.Owner(), ids);
    assert pending == ids;
    var gone := t0.chains.Keys - t0.chains.Keys;
    assert HashesIn(t0.chains, gone) == {};
    assert t0.Owner().Keys - {} == t0.Owner().Keys;
    assert t0.chains - gone == t0.chains;
    assert t0.Owner() - {} == t0.Owner();
    assert t0.indices.forkToChild - done - {} == t0.indices.forkToChild - done;
  }

  /** The sidechains that sit on one of the given hashes. */
  ghost function SittingOn(chains: map<nat, Chain>, hashes: set<BlockHash>): set<nat> {
    set id | id in chains && chains[id] != [] && chains[id][0].parentHash in hashes
  }

  lemma InHashesIn(t: Tree, ids: set<nat>, h: BlockHash)
    requires Filed(t)
    ensures h in HashesIn(t.chains, ids) <==> h in t.Owner() && t.Owner()[h] in ids
  {
    hide Linked;
    if h in HashesIn(t.chains, ids) {
      var id, b :| id in ids && id in t.chains && b in t.chains[id] && b.Hash() == h;
      assert h in Hashes(t.chains[id]);
    }
    if h in t.Owner() && t.Owner()[h] in ids {
      var id := t.Owner()[h];
      assert h in Hashes(t.chains[id]);
      var b :| b in t.chains[id] && b.Hash() == h;
    }
  }

  lemma HashesInMore(chains: map<nat, Chain>, ids: set<nat>, id: nat)
    requires id in chains
    ensures HashesIn(chains, ids + {id}) == HashesIn(chains, ids) + Hashes(chains[id])
  {
  }

  /** The sidechains on top of one that is being removed are neither removed nor pending yet. */
  lemma SittersAreNew(t0: Tree, done: set<BlockHash>, chains: map<nat, Chain>, ix: Indices, pending: set<nat>, id: nat)
    requires Consistent(t0) && done <= t0.Canon()
    requires Purging(t0, done, chains, ix, pending) && id in pending
    ensures chains[id] == t0.chains[id]
    ensures Hashes(chains[id]) !! done && Hashes(chains[id]) !! HashesIn(t0.chains, t0.chains.Keys - chains.Keys)
    ensures Hashes(chains[id]) <= t0.Owner().Keys
    ensures var kids := SittingOn(t0.chains, Hashes(chains[id]));
            kids <= chains.Keys && kids !! pending
  {
    hide Groups; hide Attached; hide Buffer.Valid; hide InDatabase;
    var gone := t0.chains.Keys - chains.Keys;
    var out := HashesIn(t0.chains, gone);
    assert chains[id] == t0.chains[id];
    forall h | h in Hashes(chains[id])
      ensures h in t0.Owner() && h !in done && h !in out
    {
      InHashesIn(t0, gone, h);
    }
    forall j | j in SittingOn(t0.chains, Hashes(chains[id]))
      ensures j in chains && j !in pending
    {
      assert Base(t0.chains, j) in Hashes(chains[id]);
    }
  }

  lemma SitterOwners(t0: Tree, done: set<BlockHash>, chains: map<nat, Chain>, ix: Indices, pending: set<nat>, id: nat)
    requires Consistent(t0) && done <= t0.Canon()
    requires Purging(t0, done, chains, ix, pending) && id in pending
    ensures var kids := SittingOn(t0.chains, Hashes(chains[id]));
            && Under(ix.forkToChild, Hashes(chains[id])) == FirstsIn(t0.chains, kids)
            && Ids(ix.blocksToChain, FirstsIn(t0.chains, kids)) == kids
            && FirstsIn(t0.chains, kids) !! Hashes(chains[id])
  {
    hide Groups; hide Attached; hide Buffer.Valid; hide InDatabase; hide Linked; hide Owned;
    SittersAreNew(t0, done, chains, ix, pending, id);
    var gone := t0.chains.Keys - chains.Keys;
    var out := HashesIn(t0.chains, gone);
    var hs, kids := Hashes(chains[id]), SittingOn(t0.chains, Hashes(chains[id]));
    UnderFirsts(t0.chains, t0.indices.forkToChild, hs, kids);
    UnderLeft(t0.indices.forkToChild, done, out, hs);
    forall j | j in kids
      ensures Starts(t0.chains, ix.blocksToChain, j) && t0.chains[j][0].Hash() !in hs
    {
      OwnedStarts(t0, j);
      var h := t0.chains[j][0].Hash();
      InHashesIn(t0, gone, h);
      FirstIsDistinct(t0, pending, j);
      NotInOther(t0, id, j);
    }
    IdsOfFirsts(t0.chains, ix.blocksToChain, kids);
  }

  lemma UnderLeft(forks: map<BlockHash, set<BlockHash>>, a: set<BlockHash>, b: set<BlockHash>, keys: set<BlockHash>)
    requires keys !! a && keys !! b
    ensures Under(forks - a - b, keys) == Under(forks, keys)
  {
    var left := forks - a - b;
    assert forall k :: k in keys ==> (k in left <==> k in forks) && (k in forks ==> left[k] == forks[k]);
  }

  lemma FirstIsDistinct(t: Tree, ids: set<nat>, j: nat)
    requires Filed(t) && j in t.chains && j !in ids
    ensures t.chains[j][0].Hash() !in FirstsIn(t.chains, ids)
  {
    hide Linked; hide Owned;
    OwnedStarts(t, j);
    if t.chains[j][0].Hash() in FirstsIn(t.chains, ids) {
      var k :| k in ids && k in t.chains && t.chains[k] != [] && t.chains[k][0].Hash() == t.chains[j][0].Hash();
      OwnedStarts(t, k);
    }
  }

  /** A sidechain that sits on another does not start inside it. */
  lemma NotInOther(t: Tree, id: nat, j: nat)
    requires Consistent(t) && id in t.chains && j in t.chains
    requires t.chains[j][0].parentHash in Hashes(t.chains[id])
    ensures j != id && t.chains[j][0].Hash() !in Hashes(t.chains[id])
  {
    hide Groups; hide Buffer.Valid; hide InDatabase;
    OwnedStarts(t, j);
    InChain(t.chains[id], t.chains[j][0].parentHash);
  }

  /** Taking out one pending sidechain keeps the account. */
  lemma PurgingSteps(t0: Tree, done: set<BlockHash>, chains: map<nat, Chain>, ix: Indices, pending: set<nat>, id: nat,
                     ix': Indices, more: set<nat>)
    requires Consistent(t0) && done <= t0.Canon()
    requires Purging(t0, done, chains, ix, pending) && id in pending
    requires var hs := Hashes(chains[id]);
             && ix'.blocksToChain == ix.blocksToChain - hs - Under(ix.forkToChild, hs)
             && ix'.forkToChild == ix.forkToChild - hs
             && more == Ids(ix.blocksToChain, Under(ix.forkToChild, hs))
             && Groups(ix'.numberToHashes, t0.Owner().Keys - HashesIn(t0.chains, t0.chains.Keys - chains.Keys) - hs, NumberOf)
    ensures Purging(t0, done, chains - {id}, ix', pending - {id} + more)
  {
    hide Groups; hide Attached; hide Buffer.Valid; hide InDatabase; hide Linked; hide Owned;
    SittersAreNew(t0, done, chains, ix, pending, id);
    SitterOwners(t0, done, chains, ix, pending, id);
    var gone := t0.chains.Keys - chains.Keys;
    HashesInMore(t0.chains, gone, id);
    var out, hs := HashesIn(t0.chains, gone), Hashes(chains[id]);
    assert more == SittingOn(t0.chains, hs);
    assert id !in more by {
      if id in more {
        NotInOther(t0, id, id);
      }
    }
    assert t0.chains.Keys - (chains - {id}).Keys == gone + {id};
    assert t0.chains - (gone + {id}) == chains - {id};
    assert t0.Owner().Keys - out - hs == t0.Owner().Keys - (out + hs);
    assert t0.indices.forkToChild - done - out - hs == t0.indices.forkToChild - done - (out + hs);
    PurgedOwners(t0, out, hs, pending, more, id);
    PurgedBases(t0, done, out, gone, pending, hs, more, id);
  }

  lemma PurgedOwners(t0: Tree, out: set<BlockHash>, hs: set<BlockHash>, pending: set<nat>, more: set<nat>, id: nat)
    requires id in t0.chains && t0.chains[id] != [] && t0.chains[id][0].Hash() in hs
    ensures t0.Owner() - out - FirstsIn(t0.chains, pending) - hs - FirstsIn(t0.chains, more)
         == t0.Owner() - (out + hs) - FirstsIn(t0.chains, pending - {id} + more)
  {
    var a, b, c := FirstsIn(t0.chains, pending), FirstsIn(t0.chains, more), FirstsIn(t0.chains, pending - {id} + more);
    forall h
      ensures h in a || h in b || h in hs <==> h in c || h in hs
    {
      if h in a && h !in hs {
        var j :| j in pending && j in t0.chains && t0.chains[j] != [] && t0.chains[j][0].Hash() == h;
        assert j in pending - {id} + more;
      }
    }
    assert out + a + hs + b == (out + hs) + c;
    assert t0.Owner() - out - a - hs - b == t0.Owner() - (out + a + hs + b);
    assert t0.Owner() - (out + hs) - c == t0.Owner() - ((out + hs) + c);
  }

  lemma PurgedBases(t0: Tree, done: set<BlockHash>, out: set<BlockHash>, gone: set<nat>, pending: set<nat>,
                    hs: set<BlockHash>, more: set<nat>, id: nat)
    requires forall j :: j in t0.chains && t0.chains[j] != [] ==>
                           ((j in gone || j in pending) <==> Base(t0.chains, j) in done || Base(t0.chains, j) in out)
    requires more == SittingOn(t0.chains, hs) && id in pending
    ensures forall j :: j in t0.chains && t0.chains[j] != [] ==>
                          ((j in gone + {id} || j in pending - {id} + more)
                           <==> Base(t0.chains, j) in done || Base(t0.chains, j) in out + hs)
  {
  }

  lemma LeftForks(t0: Tree, done: set<BlockHash>, chains: map<nat, Chain>, ix: Indices)
    requires Consistent(t0)
    requires Purging(t0, done, chains, ix, {})
    ensures Groups(ix.forkToChild, Firsts(chains), ParentOf)
  {
    hide Attached; hide Buffer.Valid; hide InDatabase; hide Linked; hide Owned;
    var out := HashesIn(t0.chains, t0.chains.Keys - chains.Keys);
    var forks, left := t0.indices.forkToChild, ix.forkToChild;
    forall k, h | k in left && h in left[k]
      ensures h in Firsts(chains) && ParentOf(h) == k
    {
      assert k in forks && h in forks[k];
      assert h in Firsts(t0.chains) && ParentOf(h) == k;
      var j :| j in t0.chains && t0.chains[j] != [] && t0.chains[j][0].Hash() == h;
      assert Base(t0.chains, j) == k;
      assert j in chains;
    }
    forall h | h in Firsts(chains)
      ensures ParentOf(h) in left && h in left[ParentOf(h)]
    {
      var j :| j in chains && chains[j] != [] && chains[j][0].Hash() == h;
      assert h in Firsts(t0.chains) && Base(t0.chains, j) == ParentOf(h);
    }
  }

  lemma LeftOwners(t0: Tree, done: set<BlockHash>, chains: map<nat, Chain>, ix: Indices)
    requires Consistent(t0)
    requires Purging(t0, done, chains, ix, {})
    ensures Owned(chains, ix.blocksToChain)
    ensures forall h :: h in ix.blocksToChain <==> h in t0.Owner() && t0.Owner()[h] in chains
    ensures Groups(ix.numberToHashes, ix.blocksToChain.Keys, NumberOf)
  {
    hide Groups; hide Buffer.Valid; hide InDatabase; hide Linked; hide Attached;
    var gone := t0.chains.Keys - chains.Keys;
    var out := HashesIn(t0.chains, gone);
    assert FirstsIn(t0.chains, {}) == {};
    forall h ensures h in out <==> h in t0.Owner() && t0.Owner()[h] in gone {
      InHashesIn(t0, gone, h);
    }
    assert ix.blocksToChain == t0.Owner() - out;
    assert ix.blocksToChain.Keys == t0.Owner().Keys - out;
  }

  lemma LeftAttached(t0: Tree, done: set<BlockHash>, chains: map<nat, Chain>, ix: Indices)
    requires Consistent(t0)
    requires Purging(t0, done, chains, ix, {})
    ensures ChainsOk(chains, t0.nextId)
    ensures Attached(chains, ix.blocksToChain, t0.Canon())
  {
    hide Groups; hide Buffer.Valid; hide InDatabase; hide Linked; hide Owned;
    LeftOwners(t0, done, chains, ix);
    var gone := t0.chains.Keys - chains.Keys;
    forall id | id in chains
      ensures chains[id] == t0.chains[id]
      ensures Base(t0.chains, id) in ix.blocksToChain || Base(t0.chains, id) in t0.Canon()
    {
      InHashesIn(t0, gone, Base(t0.chains, id));
    }
  }

  /** A sidechain is removed exactly when its ancestors lead down to a block of `done`. */
  lemma {:induction false} RemovedExactly(t0: Tree, done: set<BlockHash>, chains: map<nat, Chain>, ix: Indices, id: nat)
    requires Consistent(t0) && done <= t0.Canon()
    requires Purging(t0, done, chains, ix, {})
    requires id in t0.chains
    ensures id in chains <==> ForkPoint(t0.Canon(), Base(t0.chains, id)) !in done
    decreases t0.chains[id][0].number
  {
    hide Groups; hide Buffer.Valid; hide InDatabase; hide Linked; hide Owned;
    var base := Base(t0.chains, id);
    var gone := t0.chains.Keys - chains.Keys;
    InHashesIn(t0, gone, base);
    if base !in t0.Canon() {
      var j := t0.Owner()[base];
      SameForkPoint(t0, base);
      RemovedExactly(t0, done, chains, ix, j);
    }
  }

  /** A sidechain block leads down to the same block of any set outside the sidechains as the base of
      its sidechain. */
  lemma SameFork(t: Tree, canon: set<BlockHash>, h: BlockHash)
    requires Filed(t) && t.Owner().Keys !! canon && h in t.Owner()
    ensures var id := t.Owner()[h];
            && id in t.chains && t.chains[id] != [] && t.chains[id][0].number <= NumberOf(h)
            && ForkPoint(canon, h) == ForkPoint(canon, Base(t.chains, id))
  {
    var c := t.chains[t.Owner()[h]];
    InChain(c, h);
    var k := NumberOf(h) - c[0].number + 1;
    SplitHashes(c, k);
    PathOfChain(canon, c[..k]);
  }

  /** A sidechain block leads down to the same canonical block as the base of its sidechain. */
  lemma SameForkPoint(t: Tree, h: BlockHash)
    requires Consistent(t) && h in t.Owner()
    ensures var id := t.Owner()[h];
            && id in t.chains && t.chains[id][0].number <= NumberOf(h)
            && ForkPoint(t.Canon(), h) == ForkPoint(t.Canon(), Base(t.chains, id))
  {
    hide Groups; hide Buffer.Valid; hide InDatabase; hide Attached; hide Owned; hide Linked; hide Hashes;
    SameFork(t, t.Canon(), h);
  }

  /** The tree after finalization: the indices and sidechains left by the removal, the recent
      part of the canonical index, and the buffer without its outdated blocks. */
  ghost predicate Finalized(t0: Tree, n: nat, retain: nat, t: Tree) {
    && Purging(t0, CanonicalBetween(t0.indices.canonical, t0.indices.lastFinalized, n), t.chains, t.indices, {})
    && t.indices.lastFinalized == n
    && t.indices.canonical == (map k | k in t0.indices.canonical && n <= k + retain :: t0.indices.canonical[k])
    && t.buffer.Valid()
    && t.buffer.blocks == t0.buffer.blocks - (set h | h in t0.buffer.blocks && Outdated(t0.buffer.blocks.Keys, n, h))
    && t.db == t0.db && t.nextId == t0.nextId
  }

  lemma DoneIsCanonical(t0: Tree, n: nat)
    requires Consistent(t0)
    ensures CanonicalBetween(t0.indices.canonical, t0.indices.lastFinalized, n) <= t0.Canon()
  {
  }

  /** Finalization restores the agreement of the indices, whatever number it is given. */
  lemma FinalizedConsistent(t0: Tree, n: nat, retain: nat, t: Tree)
    requires Consistent(t0) && Finalized(t0, n, retain, t)
    ensures Consistent(t)
  {
    hide Groups; hide Buffer.Valid; hide Linked; hide Owned; hide Attached; hide Purging;
    var done := CanonicalBetween(t0.indices.canonical, t0.indices.lastFinalized, n);
    DoneIsCanonical(t0, n);
    LeftOwners(t0, done, t.chains, t.indices);
    LeftAttached(t0, done, t.chains, t.indices);
    LeftForks(t0, done, t.chains, t.indices);
  }

  /** In a well-formed tree the sidechains that stay are those that fork at or above `n`. */
  lemma FinalizedKeeps(t0: Tree, n: nat, retain: nat, t: Tree, id: nat)
    requires WellFormed(t0) && Finalized(t0, n, retain, t) && id in t0.chains
    ensures id in t.chains <==> n <= NumberOf(ForkPoint(t0.Canon(), Base(t0.chains, id)))
    ensures id in t.chains ==> t.chains[id] == t0.chains[id]
  {
    hide Groups; hide Buffer.Valid; hide Owned; hide Waiting;
    var done := CanonicalBetween(t0.indices.canonical, t0.indices.lastFinalized, n);
    DoneIsCanonical(t0, n);
    RemovedExactly(t0, done, t.chains, t.indices, id);
    var fork := ForkPoint(t0.Canon(), Base(t0.chains, id));
    ForkIsFinal(t0, id);
    InDb(t0.db, fork);
    if NumberOf(fork) < n {
      assert t0.indices.canonical[NumberOf(fork)] == fork;
    }
    if fork in done {
      var k :| k in t0.indices.canonical && t0.indices.lastFinalized <= k < n && t0.indices.canonical[k] == fork;
      assert t0.db[k].number == k;
    }
  }

  /** Every sidechain traces back to a canonical block that is not below the last finalized one. */
  lemma {:induction false} ForkIsFinal(t: Tree, id: nat)
    requires Consistent(t) && ForksFrom(t.chains, t.Canon(), t.indices.lastFinalized) && id in t.chains
    ensures var fork := ForkPoint(t.Canon(), Base(t.chains, id));
            fork in t.Canon() && t.indices.lastFinalized <= NumberOf(fork) < t.chains[id][0].number
    decreases t.chains[id][0].number
  {
    hide Groups; hide Buffer.Valid; hide Linked; hide Owned; hide InDatabase;
    var base := Base(t.chains, id);
    if base !in t.Canon() {
      SameForkPoint(t, base);
      ForkIsFinal(t, t.Owner()[base]);
    }
  }

  lemma FinalizedWaiting(t0: Tree, n: nat, retain: nat, t: Tree)
    requires WellFormed(t0) && Finalized(t0, n, retain, t)
    ensures Waiting(t.buffer, t.Owner(), t.Canon(), n, {})
  {
    hide Groups; hide Linked; hide Owned; hide Attached; hide Purging; hide InDatabase;
    var done := CanonicalBetween(t0.indices.canonical, t0.indices.lastFinalized, n);
    DoneIsCanonical(t0, n);
    LeftOwners(t0, done, t.chains, t.indices);
    forall h | h in t.buffer.blocks
      ensures n < NumberOf(h) && h in t0.buffer.blocks
    {
      assert t0.buffer.blocks[h].Hash() == h;
    }
  }

  /** Finalization keeps the tree well formed exactly when the canonical index reaches from the
      finalized number to the tip, in particular when that number does not fall. */
  lemma FinalizedWellFormed(t0: Tree, n: nat, retain: nat, t: Tree)
    requires WellFormed(t0) && Finalized(t0, n, retain, t)
    ensures WellFormed(t) <==> CoversFrom(t0.indices.canonical, t0.db, n)
    ensures t0.indices.lastFinalized <= n ==> WellFormed(t)
  {
    hide Groups; hide Linked; hide Owned; hide Attached; hide Purging; hide InDatabase; hide Waiting; hide Buffer.Valid;
    FinalizedConsistent(t0, n, retain, t);
    FinalizedWaiting(t0, n, retain, t);
    assert forall k :: n <= k < |t.db| ==> (k in t.indices.canonical <==> k in t0.indices.canonical);
    forall id | id in t.chains && t.chains[id][0].parentHash in t.Canon()
      ensures n < t.chains[id][0].number
    {
      assert id in t0.chains by { OnlyOld(t0, n, retain, t, id); }
      FinalizedKeeps(t0, n, retain, t, id);
      ForkIsFinal(t0, id);
    }
  }

  lemma OnlyOld(t0: Tree, n: nat, retain: nat, t: Tree, id: nat)
    requires Finalized(t0, n, retain, t) && id in t.chains
    ensures id in t0.chains
  {
  }

  lemma PurgingGroups(t0: Tree, done: set<BlockHash>, chains: map<nat, Chain>, ix: Indices, pending: set<nat>, id: nat)
    requires Consistent(t0) && done <= t0.Canon()
    requires Purging(t0, done, chains, ix, pending) && id in pending
    ensures id in chains
    ensures Groups(ix.numberToHashes, t0.Owner().Keys - HashesIn(t0.chains, t0.chains.Keys - chains.Keys), NumberOf)
    ensures Under(ix.forkToChild, Hashes(chains[id])) !! Hashes(chains[id])
  {
    hide Groups;
    SitterOwners(t0, done, chains, ix, pending, id);
  }
}
