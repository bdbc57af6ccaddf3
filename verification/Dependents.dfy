/** The sidechains that build on a block, directly or through other sidechains. */
module Dependents {
  import opened Blocks
  import opened Chains
  import opened Grouping
  import opened BlockIndexing
  import opened BlockBuffers
  import opened Trees
  import opened Finalization

  /** Every sidechain is numbered from just above the block it names as its parent. */
  ghost predicate Stacked(chains: map<nat, Chain>) {
    forall id :: id in chains && chains[id] != [] ==> chains[id][0].number == NumberOf(chains[id][0].parentHash) + 1
  }

  /** The sidechains and the fork index agree, wherever the bases of the sidechains are: this holds
      between operations and also while blocks taken out of the database are in no collection. */
  ghost predicate Indexed(t: Tree) {
    Filed(t) && Groups(t.indices.forkToChild, Firsts(t.chains), ParentOf) && Stacked(t.chains)
  }

  lemma AttachedIsIndexed(t: Tree, canon: set<BlockHash>)
    requires Filed(t) && Groups(t.indices.forkToChild, Firsts(t.chains), ParentOf) && Attached(t.chains, t.Owner(), canon)
    ensures Indexed(t)
  {
    hide Groups; hide Owned; hide Linked; hide Firsts;
  }

  /** The base of sidechain `id` is the block, or lies in a sidechain that depends on it. */
  ghost predicate Depends(t: Tree, block: BlockHash, id: nat)
    requires Indexed(t) && id in t.chains
    decreases t.chains[id][0].number
  {
    var base := Base(t.chains, id);
    base == block || (base in t.Owner() && (BaseIsLower(t, id); Depends(t, block, t.Owner()[base])))
  }

  lemma BaseIsLower(t: Tree, id: nat)
    requires Indexed(t) && id in t.chains && Base(t.chains, id) in t.Owner()
    ensures var j := t.Owner()[Base(t.chains, id)];
            j in t.chains && t.chains[j] != [] && t.chains[j][0].number < t.chains[id][0].number
  {
    hide Groups;
    var base := Base(t.chains, id);
    InChain(t.chains[t.Owner()[base]], base);
  }

  /** The sidechains in `ids` have been visited and those in `waiting` are to follow: together they are
      the ones that sit on the block or on a visited sidechain. */
  ghost predicate Visiting(t: Tree, block: BlockHash, ids: set<nat>, waiting: set<nat>) {
    && ids + waiting <= t.chains.Keys && ids !! waiting
    && (forall id :: id in t.chains && t.chains[id] != [] ==>
                       (id in ids + waiting <==> Base(t.chains, id) == block || Base(t.chains, id) in HashesIn(t.chains, ids)))
    && (forall id :: id in ids + waiting && t.chains[id] != [] ==> NumberOf(block) < t.chains[id][0].number)
  }

  lemma VisitingStarts(t: Tree, block: BlockHash)
    requires Indexed(t)
    ensures var waiting := SittingOn(t.chains, {block});
            && Visiting(t, block, {}, waiting)
            && (if block in t.indices.forkToChild then t.indices.forkToChild[block] else {}) == FirstsIn(t.chains, waiting)
  {
    hide Groups; hide Owned; hide Linked;
    var waiting := SittingOn(t.chains, {block});
    UnderFirsts(t.chains, t.indices.forkToChild, {block}, waiting);
    UnderMore(t.indices.forkToChild, {}, block);
    assert {} + {block} == {block};
  }

  /** The sidechain whose first block is taken from the worklist is a waiting one, and those that sit
      on it are new. */
  lemma VisitingTakes(t: Tree, block: BlockHash, ids: set<nat>, waiting: set<nat>, first: BlockHash)
    requires Indexed(t) && Visiting(t, block, ids, waiting) && first in FirstsIn(t.chains, waiting)
    ensures first in t.Owner() && t.Owner()[first] in t.chains && t.Owner()[first] in waiting
    ensures var id := t.Owner()[first];
            && SittingOn(t.chains, Hashes(t.chains[id])) !! ids + waiting
            && FirstsIn(t.chains, waiting) - {first} == FirstsIn(t.chains, waiting - {id})
            && Under(t.indices.forkToChild, Hashes(t.chains[id])) == FirstsIn(t.chains, SittingOn(t.chains, Hashes(t.chains[id])))
  {
    hide Groups; hide Owned; hide Linked;
    var id :| id in waiting && id in t.chains && t.chains[id] != [] && t.chains[id][0].Hash() == first;
    OwnedStarts(t, id);
    var hs := Hashes(t.chains[id]);
    UnderFirsts(t.chains, t.indices.forkToChild, hs, SittingOn(t.chains, hs));
    OthersFirst(t, waiting, id);
    forall j | j in SittingOn(t.chains, hs)
      ensures j !in ids + waiting
    {
      SitterIsNew(t, block, ids, waiting, id, j);
    }
  }

  lemma OthersFirst(t: Tree, waiting: set<nat>, id: nat)
    requires Indexed(t) && waiting <= t.chains.Keys && id in waiting
    ensures FirstsIn(t.chains, waiting) - {t.chains[id][0].Hash()} == FirstsIn(t.chains, waiting - {id})
  {
    hide Groups; hide Owned; hide Linked;
    FirstIsDistinct(t, waiting - {id}, id);
  }

  lemma SitterIsNew(t: Tree, block: BlockHash, ids: set<nat>, waiting: set<nat>, id: nat, j: nat)
    requires Indexed(t) && Visiting(t, block, ids, waiting) && id in waiting
    requires j in SittingOn(t.chains, Hashes(t.chains[id]))
    ensures j !in ids + waiting
  {
    hide Groups;
    var base := Base(t.chains, j);
    InHashesIn(t, ids, base);
    InChain(t.chains[id], base);
    assert t.Owner()[base] == id;
  }

  lemma SitterIsAbove(t: Tree, id: nat, j: nat)
    requires Indexed(t) && id in t.chains && j in SittingOn(t.chains, Hashes(t.chains[id]))
    ensures t.chains[id][0].number < t.chains[j][0].number
  {
    hide Groups; hide Owned;
    InChain(t.chains[id], Base(t.chains, j));
  }

  lemma VisitingSteps(t: Tree, block: BlockHash, ids: set<nat>, waiting: set<nat>, id: nat)
    requires Indexed(t) && Visiting(t, block, ids, waiting) && id in waiting
    requires SittingOn(t.chains, Hashes(t.chains[id])) !! ids + waiting
    ensures Visiting(t, block, ids + {id}, waiting - {id} + SittingOn(t.chains, Hashes(t.chains[id])))
  {
    hide Groups; hide Owned; hide Linked; hide Hashes; hide HashesIn;
    HashesInMore(t.chains, ids, id);
    var kids := SittingOn(t.chains, Hashes(t.chains[id]));
    assert ids + {id} + (waiting - {id} + kids) == ids + waiting + kids;
    forall j | j in kids
      ensures t.chains[id][0].number < t.chains[j][0].number
    {
      SitterIsAbove(t, id, j);
    }
  }

  lemma VisitingBounds(t: Tree, block: BlockHash, ids: set<nat>, waiting: set<nat>)
    requires Visiting(t, block, ids, waiting)
    ensures ids <= t.chains.Keys && ids !! waiting
  {
  }

  lemma FirstsOfBoth(chains: map<nat, Chain>, a: set<nat>, b: set<nat>)
    ensures FirstsIn(chains, a + b) == FirstsIn(chains, a) + FirstsIn(chains, b)
  {
  }

  lemma NoneWaiting(t: Tree, block: BlockHash, ids: set<nat>, waiting: set<nat>)
    requires Indexed(t) && Visiting(t, block, ids, waiting) && FirstsIn(t.chains, waiting) == {}
    ensures waiting == {} && ids <= t.chains.Keys
  {
    hide Groups; hide Owned; hide Linked;
    assert forall id :: id in waiting ==> t.chains[id][0].Hash() in FirstsIn(t.chains, waiting);
  }

  /** With nothing waiting, the visited sidechains are exactly those that depend on the block. */
  lemma {:induction false} VisitedDepend(t: Tree, block: BlockHash, ids: set<nat>, id: nat)
    requires Indexed(t) && Visiting(t, block, ids, {}) && id in t.chains
    ensures id in ids <==> Depends(t, block, id)
    decreases t.chains[id][0].number
  {
    hide Groups; hide Owned; hide Linked;
    var base := Base(t.chains, id);
    InHashesIn(t, ids, base);
    if base in t.Owner() {
      BaseIsLower(t, id);
      VisitedDepend(t, block, ids, t.Owner()[base]);
    }
  }

  /** For a block that the sidechains lead down to, those that depend on it are those that fork from it. */
  lemma {:induction false} DependsIsFork(t: Tree, canon: set<BlockHash>, block: BlockHash, id: nat)
    requires Indexed(t) && Attached(t.chains, t.Owner(), canon) && t.Owner().Keys !! canon
    requires block in canon && id in t.chains
    ensures Depends(t, block, id) <==> ForkPoint(canon, Base(t.chains, id)) == block
    decreases t.chains[id][0].number
  {
    hide Groups; hide Owned; hide Linked; hide Firsts;
    var base := Base(t.chains, id);
    if base in t.Owner() {
      BaseIsLower(t, id);
      SameFork(t, canon, base);
      DependsIsFork(t, canon, block, t.Owner()[base]);
    }
  }

  /** The sidechains that lead down to the block. */
  ghost function ForkingFrom(t: Tree, canon: set<BlockHash>, block: BlockHash): set<nat> {
    set id | id in t.chains && t.chains[id] != [] && ForkPoint(canon, Base(t.chains, id)) == block
  }

  lemma DependentsFork(t: Tree, canon: set<BlockHash>, block: BlockHash, ids: set<nat>)
    requires Indexed(t) && Attached(t.chains, t.Owner(), canon) && t.Owner().Keys !! canon && block in canon
    requires ids <= t.chains.Keys && forall id :: id in t.chains ==> (id in ids <==> Depends(t, block, id))
    ensures ids == ForkingFrom(t, canon, block)
  {
    hide Groups; hide Owned; hide Linked; hide Firsts; hide Depends; hide Attached;
    forall id | id in t.chains
      ensures id in ids <==> ForkPoint(canon, Base(t.chains, id)) == block
    {
      DependsIsFork(t, canon, block, id);
    }
  }
}
