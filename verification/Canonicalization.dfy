/** Moving a sidechain block and its ancestors to the canonical chain. */
module Canonicalization {
  import opened Blocks
  import opened Chains
  import opened Grouping
  import opened BlockIndexing
  import opened BlockBuffers
  import opened Trees
  import opened Finalization

  /** The pieces split off so far, listed from the top down, as one chain. */
  function Merged(pieces: seq<Chain>): Chain {
    if pieces == [] then [] else Merged(pieces[1..]) + pieces[0]
  }

  lemma {:induction false} MergedPush(pieces: seq<Chain>, piece: Chain)
    ensures Merged(pieces + [piece]) == piece + Merged(pieces)
  {
    if pieces == [] {
      assert Merged([piece]) == Merged([piece][1..]) + piece;
    } else {
      assert (pieces + [piece])[1..] == pieces[1..] + [piece];
      MergedPush(pieces[1..], piece);
    }
  }

  /** What is merged from the lowest piece up is a lower part of the whole. */
  lemma {:induction false} MergedPrefix(pieces: seq<Chain>, i: nat)
    requires i <= |pieces|
    ensures Merged(pieces[i..]) <= Merged(pieces)
  {
    if i > 0 {
      MergedPrefix(pieces[1..], i - 1);
      assert pieces[i..] == pieces[1..][i - 1..];
    } else {
      assert pieces[0..] == pieces;
    }
  }

  /** How many blocks of each sidechain, from its first block up, have been split off. */
  type Cuts = map<nat, nat>

  ghost predicate InCut(t0: Tree, cuts: Cuts, h: BlockHash) {
    && h in t0.Owner() && t0.Owner()[h] in t0.chains && t0.Owner()[h] in cuts
    && var id := t0.Owner()[h];
       cuts[id] <= |t0.chains[id]| && h in Hashes(t0.chains[id][..cuts[id]])
  }

  ghost predicate CutsOk(t0: Tree, cuts: Cuts) {
    cuts.Keys == t0.chains.Keys && forall id :: id in cuts ==> cuts[id] <= |t0.chains[id]|
  }

  ghost function Remaining(t0: Tree, cuts: Cuts): map<nat, Chain>
    requires CutsOk(t0, cuts)
  {
    map id | id in t0.chains && cuts[id] < |t0.chains[id]| :: t0.chains[id][cuts[id]..]
  }

  /** The blocks split off form the linked `path`; the rest of every cut sidechain stays under
      its id and the indices still file every block of `t0`. */
  ghost predicate Promoting(t0: Tree, cuts: Cuts, path: Chain, t: Tree) {
    && CutsOk(t0, cuts) && t.chains == Remaining(t0, cuts)
    && Linked(path) && (path != [] ==> path[0].number == NumberOf(path[0].parentHash) + 1)
    && (forall h :: h in Hashes(path) <==> InCut(t0, cuts, h))
    && t.Owner() == t0.Owner()
    && Groups(t.indices.numberToHashes, t0.Owner().Keys, NumberOf)
    && Groups(t.indices.forkToChild, Firsts(t0.chains) + Firsts(t.chains), ParentOf)
    && t.indices.canonical == t0.indices.canonical && t.indices.lastFinalized == t0.indices.lastFinalized
    && t.buffer == t0.buffer && t.db == t0.db && t.nextId == t0.nextId
  }

  lemma PromotingStarts(t0: Tree)
    requires Consistent(t0)
    ensures Promoting(t0, map id | id in t0.chains :: 0, [], t0)
  {
    hide Groups; hide Attached; hide InDatabase; hide Buffer.Valid;
    var cuts := map id | id in t0.chains :: 0;
    assert CutsOk(t0, cuts);
    assert Remaining(t0, cuts) == t0.chains;
    assert Firsts(t0.chains) + Firsts(t0.chains) == Firsts(t0.chains);
  }

  /** The next block to promote is the target, or the block the path sits on. */
  ghost predicate Next(t0: Tree, path: Chain, x: BlockHash) {
    x in t0.Owner() && (path != [] ==> x == path[0].parentHash)
  }

  /** The sidechain of the next block is still whole. */
  lemma NextIsUncut(t0: Tree, cuts: Cuts, path: Chain, t: Tree, x: BlockHash)
    requires Consistent(t0) && Promoting(t0, cuts, path, t) && Next(t0, path, x)
    requires path == [] ==> forall id :: id in cuts ==> cuts[id] == 0
    ensures var id := t0.Owner()[x];
            && id in t0.chains && id in t.chains && cuts[id] == 0 && t.chains[id] == t0.chains[id]
            && x in Hashes(t.chains[id])
  {
    hide Groups; hide Attached; hide InDatabase; hide Buffer.Valid;
    var id := t0.Owner()[x];
    var c := t0.chains[id];
    InChain(c, x);
    CutAt(t0, cuts, id, 0);
    if c[0].Hash() in Hashes(path) {
      InChain(path, c[0].Hash());
    }
    assert c[0..] == c;
  }

  /** The tree after the lower `k` blocks of a sidechain are split off and the rest is filed
      again under the same id. */
  ghost predicate SplitOff(t: Tree, id: nat, k: nat, members: set<BlockHash>, firsts: set<BlockHash>, t': Tree) {
    && id in t.chains && 0 < k <= |t.chains[id]|
    && var rest := t.chains[id][k..];
       && t'.chains == (if rest == [] then t.chains - {id} else t.chains[id := rest])
       && t'.Owner() == t.Owner() + (map h | h in Hashes(rest) :: id)
       && Groups(t'.indices.numberToHashes, members + Hashes(rest), NumberOf)
       && Groups(t'.indices.forkToChild, firsts + (if rest == [] then {} else {rest[0].Hash()}), ParentOf)
       && t'.indices.canonical == t.indices.canonical && t'.indices.lastFinalized == t.indices.lastFinalized
       && t'.buffer == t.buffer && t'.db == t.db && t'.nextId == t.nextId
  }

  /** Cutting one more sidechain adds exactly its lower blocks to what is cut. */
  lemma CutMore(t0: Tree, cuts: Cuts, id: nat, k: nat, h: BlockHash)
    requires Consistent(t0) && CutsOk(t0, cuts) && id in cuts && cuts[id] == 0 && k <= |t0.chains[id]|
    ensures InCut(t0, cuts[id := k], h) <==> InCut(t0, cuts, h) || h in Hashes(t0.chains[id][..k])
  {
    hide Groups; hide Attached; hide InDatabase; hide Buffer.Valid; hide Linked;
    var c := t0.chains[id];
    assert forall b :: b in c[..k] ==> b in c;
    if h in Hashes(c[..k]) {
      assert h in Hashes(c);
    }
  }

  /** Cutting a whole sidechain short changes the first blocks only by that of the rest. */
  lemma FirstsOfRest(all: map<nat, Chain>, before: map<nat, Chain>, id: nat, rest: Chain, after: map<nat, Chain>)
    requires id in all && (id in before ==> before[id] == all[id])
    requires after == if rest == [] then before - {id} else before[id := rest]
    ensures Firsts(all) + Firsts(before) + (if rest == [] then {} else {rest[0].Hash()}) == Firsts(all) + Firsts(after)
  {
    var extra := if rest == [] then {} else {rest[0].Hash()};
    var lhs, rhs := Firsts(all) + Firsts(before) + extra, Firsts(all) + Firsts(after);
    forall h | h in lhs ensures h in rhs {
      if h in Firsts(before) {
        var j :| j in before && before[j] != [] && before[j][0].Hash() == h;
        if j != id {
          assert j in after && after[j] == before[j];
        }
      } else if h in extra {
        assert id in after && after[id] == rest;
      }
    }
    forall h | h in rhs ensures h in lhs {
      if h in Firsts(after) {
        var j :| j in after && after[j] != [] && after[j][0].Hash() == h;
        if j != id {
          assert j in before && before[j] == after[j];
        }
      }
    }
  }

  lemma CutFirsts(t0: Tree, cuts: Cuts, id: nat, k: nat, rest: Chain)
    requires Consistent(t0) && CutsOk(t0, cuts) && id in cuts && cuts[id] == 0
    requires 0 < k <= |t0.chains[id]| && rest == t0.chains[id][k..]
    ensures CutsOk(t0, cuts[id := k])
    ensures Firsts(t0.chains) + Firsts(Remaining(t0, cuts)) + (if rest == [] then {} else {rest[0].Hash()})
         == Firsts(t0.chains) + Firsts(Remaining(t0, cuts[id := k]))
    ensures Remaining(t0, cuts[id := k])
         == if rest == [] then Remaining(t0, cuts) - {id} else Remaining(t0, cuts)[id := rest]
  {
    hide Groups; hide Attached; hide InDatabase; hide Buffer.Valid; hide Linked; hide Owned; hide Firsts;
    var before, after := Remaining(t0, cuts), Remaining(t0, cuts[id := k]);
    assert t0.chains[id][0..] == t0.chains[id];
    assert after == if rest == [] then before - {id} else before[id := rest];
    FirstsOfRest(t0.chains, before, id, rest, after);
  }

  lemma PathGrows(c: Chain, k: nat, path: Chain, x: BlockHash)
    requires Linked(c) && 0 < k <= |c| && c[k - 1].Hash() == x
    requires Linked(path) && (path != [] ==> path[0].parentHash == x && path[0].number == NumberOf(x) + 1)
    ensures var grown := c[..k] + path;
            && Linked(grown) && grown != [] && grown[0] == c[0]
            && Hashes(grown) == Hashes(c[..k]) + Hashes(path)
            && Tip(c[..k]).Hash() == x
  {
    SplitHashes(c, k);
    if path == [] {
      assert c[..k] + path == c[..k];
    } else {
      JoinLinked(c[..k], path);
    }
  }

  lemma PromotingSteps(t0: Tree, cuts: Cuts, path: Chain, t: Tree, x: BlockHash, k: nat, t': Tree)
    requires Consistent(t0) && Promoting(t0, cuts, path, t) && Next(t0, path, x)
    requires path == [] ==> forall id :: id in cuts ==> cuts[id] == 0
    requires var id := t0.Owner()[x];
             && id in t.chains && t.chains[id] != [] && NumberOf(x) + 1 == t.chains[id][0].number + k
             && SplitOff(t, id, k, t0.Owner().Keys, Firsts(t0.chains) + Firsts(t.chains), t')
    ensures var id := t0.Owner()[x];
            && t.chains[id] == t0.chains[id] && cuts[id] == 0
            && Promoting(t0, cuts[id := k], t.chains[id][..k] + path, t')
            && Tip(t.chains[id][..k]).Hash() == x
  {
    hide Groups; hide InDatabase; hide Buffer.Valid; hide Remaining; hide Firsts; hide InCut; hide Linked; hide Owned;
    NextIsUncut(t0, cuts, path, t, x);
    var id := t0.Owner()[x];
    var c := t0.chains[id];
    InChain(c, x);
    PathGrows(c, k, path, x);
    CutFirsts(t0, cuts, id, k, c[k..]);
    var path' := c[..k] + path;
    forall h ensures h in Hashes(path') <==> InCut(t0, cuts[id := k], h) {
      CutMore(t0, cuts, id, k, h);
    }
    RestOwners(t0, id, k);
  }

  lemma RestOwners(t0: Tree, id: nat, k: nat)
    requires Consistent(t0) && id in t0.chains && k <= |t0.chains[id]|
    ensures var rest := t0.chains[id][k..];
            && t0.Owner() + (map h | h in Hashes(rest) :: id) == t0.Owner()
            && t0.Owner().Keys + Hashes(rest) == t0.Owner().Keys
  {
    hide Groups; hide InDatabase; hide Buffer.Valid; hide Attached; hide Linked;
    var rest := t0.chains[id][k..];
    forall h | h in Hashes(rest)
      ensures h in t0.Owner() && t0.Owner()[h] == id
    {
      assert h in Hashes(t0.chains[id]);
    }
  }

  /** When the path sits on no sidechain block it is the whole path up to its tip. */
  lemma PathComplete(t0: Tree, cuts: Cuts, path: Chain, t: Tree)
    requires Consistent(t0) && Promoting(t0, cuts, path, t) && path != []
    requires path[0].parentHash !in t0.Owner()
    ensures path[0].parentHash in t0.Canon()
    ensures path == Path(t0.Canon(), Tip(path).Hash())
    ensures path[0].parentHash == ForkPoint(t0.Canon(), Tip(path).Hash())
    ensures Hashes(path) <= t0.Owner().Keys
    ensures NumberOf(path[0].parentHash) < |t0.db| && path[0].number == NumberOf(path[0].parentHash) + 1
  {
    hide Groups; hide InDatabase; hide Buffer.Valid; hide Remaining; hide Firsts; hide Owned; hide Attached; hide Linked;
    BottomIsCanonical(t0, cuts, path, t);
    assert forall x :: x in Hashes(path) ==> InCut(t0, cuts, x);
    PathOfChain(t0.Canon(), path);
    assert Path(t0.Canon(), path[0].parentHash) + path == path;
    InDb(t0.db, path[0].parentHash);
  }

  lemma BottomIsCanonical(t0: Tree, cuts: Cuts, path: Chain, t: Tree)
    requires Consistent(t0) && Promoting(t0, cuts, path, t) && path != []
    requires path[0].parentHash !in t0.Owner()
    ensures path[0].parentHash in t0.Canon()
  {
    hide Groups; hide InDatabase; hide Buffer.Valid; hide Remaining; hide Firsts; hide Owned; hide Attached; hide Linked;
    assert path[0].Hash() in Hashes(path) && InCut(t0, cuts, path[0].Hash());
    ParentConnected(t0, path[0].Hash());
  }

  /** Once the path is canonical the indices file exactly what is left of the sidechains. */
  lemma LeftAfterPromotion(t0: Tree, cuts: Cuts, path: Chain, t: Tree)
    requires Consistent(t0) && Promoting(t0, cuts, path, t)
    ensures ChainsOk(t.chains, t.nextId) && Owned(t.chains, t0.Owner() - Hashes(path))
  {
    hide Groups; hide InDatabase; hide Buffer.Valid; hide Firsts; hide Attached;
    forall id | id in t.chains
      ensures id < t.nextId && t.chains[id] != [] && Linked(t.chains[id])
      ensures forall h :: h in Hashes(t.chains[id]) ==> h in t0.Owner() && t0.Owner()[h] == id && h !in Hashes(path)
    {
      var c, k := t0.chains[id], cuts[id];
      SplitHashes(c, k);
      forall h | h in Hashes(t.chains[id])
        ensures h in t0.Owner() && t0.Owner()[h] == id && h !in Hashes(path)
      {
        assert h in Hashes(c);
      }
    }
    var left := t0.Owner() - Hashes(path);
    forall h | h in left
      ensures left[h] in t.chains && h in Hashes(t.chains[left[h]])
    {
      var id := t0.Owner()[h];
      SplitHashes(t0.chains[id], cuts[id]);
      assert !InCut(t0, cuts, h);
    }
  }

  lemma FirstsAfterPromotion(t0: Tree, cuts: Cuts, path: Chain, t: Tree)
    requires Consistent(t0) && Promoting(t0, cuts, path, t)
    ensures Firsts(t0.chains) + Firsts(t.chains) - Hashes(path) == Firsts(t.chains)
  {
    hide Groups; hide InDatabase; hide Buffer.Valid; hide Attached; hide Linked; hide Promoting;
    LeftAfterPromotion(t0, cuts, path, t);
    forall h | h in Firsts(t0.chains) && h !in Hashes(path)
      ensures h in Firsts(t.chains)
    {
      UncutFirst(t0, cuts, path, t, h);
    }
    forall h | h in Firsts(t.chains)
      ensures h !in Hashes(path)
    {
      var id :| id in t.chains && t.chains[id] != [] && t.chains[id][0].Hash() == h;
      assert h in Hashes(t.chains[id]);
      assert h in t0.Owner() - Hashes(path);
    }
  }

  lemma UncutFirst(t0: Tree, cuts: Cuts, path: Chain, t: Tree, h: BlockHash)
    requires Consistent(t0) && Promoting(t0, cuts, path, t)
    requires h in Firsts(t0.chains) && h !in Hashes(path)
    ensures h in Firsts(t.chains)
  {
    hide Groups; hide InDatabase; hide Buffer.Valid; hide Attached; hide Linked;
    var id :| id in t0.chains && t0.chains[id] != [] && t0.chains[id][0].Hash() == h;
    CutAt(t0, cuts, id, 0);
    assert t0.chains[id][0..] == t0.chains[id];
    assert t.chains[id] == t0.chains[id];
  }

  /** A block is cut exactly when it lies among the lower blocks of its sidechain. */
  lemma CutAt(t0: Tree, cuts: Cuts, id: nat, i: nat)
    requires Consistent(t0) && CutsOk(t0, cuts) && id in t0.chains && i < |t0.chains[id]|
    ensures InCut(t0, cuts, t0.chains[id][i].Hash()) <==> i < cuts[id]
  {
    hide Groups; hide InDatabase; hide Buffer.Valid; hide Attached; hide DbOk;
    var c, h := t0.chains[id], t0.chains[id][i].Hash();
    assert h in Hashes(c);
    if InCut(t0, cuts, h) {
      var j :| 0 <= j < cuts[id] && c[j].Hash() == h;
    }
    if i < cuts[id] {
      assert c[i] in c[..cuts[id]];
    }
  }

  /** What is left of the sidechains sits on sidechain blocks, old canonical blocks or the path. */
  lemma BasesAfterPromotion(t0: Tree, cuts: Cuts, path: Chain, t: Tree)
    requires Consistent(t0) && Promoting(t0, cuts, path, t)
    ensures Attached(t.chains, t0.Owner() - Hashes(path), t0.Canon() + Hashes(path))
    ensures forall id :: id in t.chains && t.chains[id] != [] && t.chains[id][0].parentHash in t0.Canon() ==>
                           id in t0.chains && t.chains[id] == t0.chains[id]
  {
    hide Groups; hide InDatabase; hide Buffer.Valid; hide Firsts;
    forall id | id in t.chains && t.chains[id] != []
      ensures var first := t.chains[id][0];
              && first.number == NumberOf(first.parentHash) + 1
              && (first.parentHash in t0.Owner() - Hashes(path) || first.parentHash in t0.Canon() + Hashes(path))
              && (first.parentHash in t0.Canon() ==> t.chains[id] == t0.chains[id])
    {
      var c, k := t0.chains[id], cuts[id];
      if k > 0 {
        CutAt(t0, cuts, id, k - 1);
        assert c[k - 1].Hash() in Hashes(path);
      } else {
        assert c[0..] == c;
      }
    }
  }

  /** A linked path that starts on block `f` of the database, made of blocks not in it. */
  ghost predicate Extends(db: seq<Block>, f: nat, path: Chain) {
    && DbOk(db) && f < |db|
    && path != [] && Linked(path) && path[0].parentHash == db[f].Hash() && path[0].number == f + 1
  }

  /** The canonical index once the path has replaced everything above block `f`. */
  ghost function Reindexed(canonical: map<nat, BlockHash>, path: Chain): map<nat, BlockHash>
    requires path != []
  {
    (map n | n in canonical && n < path[0].number :: canonical[n]) + HashByNumber(path)
  }

  lemma ReindexedBelow(canonical: map<nat, BlockHash>, path: Chain, n: nat)
    requires path != [] && Linked(path) && n in canonical && n < path[0].number
    ensures n in Reindexed(canonical, path) && Reindexed(canonical, path)[n] == canonical[n]
  {
    HashByNumberOfLinked(path);
  }

  lemma NewDatabase(db: seq<Block>, f: nat, path: Chain)
    requires Extends(db, f, path)
    ensures DbOk(db[..f + 1] + path)
    ensures Hashes(db[..f + 1] + path) == Hashes(db[..f + 1]) + Hashes(path)
    ensures Hashes(db) + Hashes(path) == Hashes(db[..f + 1] + path) + Hashes(db[f + 1..])
    ensures Hashes(db) !! Hashes(path) ==> Hashes(db[..f + 1] + path) !! Hashes(db[f + 1..])
  {
    DbSplit(db, f + 1);
    assert Tip(db[..f + 1]) == db[f];
    JoinLinked(db[..f + 1], path);
  }

  lemma NewIndex(db: seq<Block>, f: nat, path: Chain, canonical: map<nat, BlockHash>, n: nat)
    requires Extends(db, f, path) && InDatabase(canonical, db) && CoversFrom(canonical, db, n) && n <= f + 1
    ensures InDatabase(Reindexed(canonical, path), db[..f + 1] + path)
    ensures CoversFrom(Reindexed(canonical, path), db[..f + 1] + path, n)
  {
    HashByNumberOfLinked(path);
    var db', canonical' := db[..f + 1] + path, Reindexed(canonical, path);
    forall k | k in canonical'
      ensures k < |db'| && canonical'[k] == db'[k].Hash()
    {
    }
    forall k | n <= k < |db'|
      ensures k in canonical'
    {
      if k <= f {
        assert k in canonical;
      }
    }
  }

  /** The indices once the path is out of the sidechains and in the canonical index. */
  ghost predicate PathIndexed(t0: Tree, path: Chain, t: Tree, ix: Indices) {
    && path != []
    && ix.blocksToChain == t.Owner() - Hashes(path)
    && Groups(ix.numberToHashes, t0.Owner().Keys - Hashes(path), NumberOf)
    && Groups(ix.forkToChild, Firsts(t0.chains) + Firsts(t.chains) - Hashes(path), ParentOf)
    && ix.canonical == Reindexed(t.indices.canonical, path)
    && ix.lastFinalized == t.indices.lastFinalized
  }

  /** The tree once the path is in the database, too. */
  ghost predicate PathCommitted(t0: Tree, path: Chain, t: Tree, t': Tree) {
    && PathIndexed(t0, path, t, t'.indices) && NumberOf(path[0].parentHash) < |t0.db|
    && t'.chains == t.chains && t'.nextId == t.nextId && t'.buffer == t.buffer
    && t'.db == t0.db[..NumberOf(path[0].parentHash) + 1] + path
  }

  /** What canonicalizing `h` does: the canonical chain up to the fork, then exactly the path
      to `h`; no block is lost or added; nothing else moves. */
  ghost predicate Canonicalized(t0: Tree, h: BlockHash, t: Tree) {
    var fork, path := NumberOf(ForkPoint(t0.Canon(), h)), Path(t0.Canon(), h);
    && path != [] && fork < |t0.db|
    && t.db == t0.db[..fork + 1] + path
    && t.indices.canonical == Reindexed(t0.indices.canonical, path)
    && t.Owner().Keys + t.Canon() == t0.Owner().Keys + t0.Canon()
    && t.buffer == t0.buffer && t.indices.lastFinalized == t0.indices.lastFinalized
  }

  lemma CommittedExtends(t0: Tree, cuts: Cuts, path: Chain, t: Tree)
    requires WellFormed(t0) && Promoting(t0, cuts, path, t) && path != []
    requires path[0].parentHash !in t0.Owner()
    ensures Extends(t0.db, NumberOf(path[0].parentHash), path)
    ensures t0.indices.lastFinalized <= NumberOf(path[0].parentHash)
    ensures Hashes(t0.db) !! Hashes(path)
  {
    hide Owned; hide Attached; hide Groups; hide InDatabase; hide Buffer.Valid; hide Firsts; hide Linked; hide Waiting;
    PathComplete(t0, cuts, path, t);
    InDb(t0.db, path[0].parentHash);
    assert path[0].Hash() in Hashes(path);
    SameForkPoint(t0, path[0].Hash());
    ForkIsFinal(t0, t0.Owner()[path[0].Hash()]);
    assert ForkPoint(t0.Canon(), path[0].Hash()) == path[0].parentHash;
  }

  lemma CommittedCore(t0: Tree, cuts: Cuts, path: Chain, t: Tree, t': Tree)
    requires WellFormed(t0) && Promoting(t0, cuts, path, t) && path != []
    requires path[0].parentHash !in t0.Owner()
    requires PathCommitted(t0, path, t, t')
    ensures DbOk(t'.db) && ChainsOk(t'.chains, t'.nextId) && Owned(t'.chains, t'.Owner())
    ensures Groups(t'.indices.numberToHashes, t'.Owner().Keys, NumberOf)
    ensures Groups(t'.indices.forkToChild, Firsts(t'.chains), ParentOf)
    ensures InDatabase(t'.indices.canonical, t'.db)
    ensures CoversFrom(t'.indices.canonical, t'.db, t0.indices.lastFinalized)
    ensures var dropped := t0.db[NumberOf(path[0].parentHash) + 1..];
            && t0.Canon() + Hashes(path) == t'.Canon() + Hashes(dropped)
            && t'.Canon() !! Hashes(dropped) && t'.Owner().Keys !! t'.Canon() + Hashes(dropped)
            && Attached(t'.chains, t'.Owner(), t'.Canon() + Hashes(dropped))
            && t'.Owner().Keys + t'.Canon() + Hashes(dropped) == t0.Owner().Keys + t0.Canon()
  {
    hide Owned; hide Attached; hide Groups; hide InDatabase; hide Buffer.Valid; hide Firsts; hide Linked; hide Waiting;
    hide DbOk; hide CoversFrom; hide ForksFrom; hide CutsOk; hide Remaining; hide Reindexed;
    var f := NumberOf(path[0].parentHash);
    PathComplete(t0, cuts, path, t);
    CommittedExtends(t0, cuts, path, t);
    NewDatabase(t0.db, f, path);
    NewIndex(t0.db, f, path, t0.indices.canonical, t0.indices.lastFinalized);
    LeftAfterPromotion(t0, cuts, path, t);
    FirstsAfterPromotion(t0, cuts, path, t);
    BasesAfterPromotion(t0, cuts, path, t);
    assert (t0.Owner() - Hashes(path)).Keys == t0.Owner().Keys - Hashes(path);
  }

  /** No sidechain that is left forks below the last finalized block. */
  lemma ForksAfterCommit(t0: Tree, cuts: Cuts, path: Chain, t: Tree, canon: set<BlockHash>)
    requires WellFormed(t0) && Promoting(t0, cuts, path, t) && path != []
    requires path[0].parentHash !in t0.Owner()
    requires canon <= t0.Canon() + Hashes(path)
    ensures ForksFrom(t.chains, canon, t0.indices.lastFinalized)
  {
    hide Owned; hide Groups; hide InDatabase; hide Buffer.Valid; hide Firsts; hide Linked; hide Waiting;
    hide DbOk; hide CoversFrom; hide CutsOk; hide Remaining;
    CommittedExtends(t0, cuts, path, t);
    BasesAfterPromotion(t0, cuts, path, t);
    forall id | id in t.chains && t.chains[id] != [] && t.chains[id][0].parentHash in canon
      ensures t0.indices.lastFinalized < t.chains[id][0].number
    {
      var base := t.chains[id][0].parentHash;
      if base !in t0.Canon() {
        InChain(path, base);
      }
    }
  }

  lemma WaitingSame(t0: Tree, t: Tree)
    requires WellFormed(t0) && t.buffer == t0.buffer && t.indices.lastFinalized == t0.indices.lastFinalized
    requires t.Owner().Keys + t.Canon() == t0.Owner().Keys + t0.Canon()
    ensures Waiting(t.buffer, t.Owner(), t.Canon(), t.indices.lastFinalized, {})
  {
    hide Owned; hide Groups; hide InDatabase; hide Buffer.Valid; hide Firsts; hide Linked; hide Attached;
    forall h
      ensures h in t.Owner() || h in t.Canon() <==> h in t0.Owner() || h in t0.Canon()
    {
      assert h in t.Owner().Keys + t.Canon() <==> h in t0.Owner().Keys + t0.Canon();
    }
  }

  lemma CommitOnTip(t0: Tree, cuts: Cuts, path: Chain, t: Tree, t': Tree)
    requires WellFormed(t0) && Promoting(t0, cuts, path, t) && path != []
    requires path[0].parentHash !in t0.Owner()
    requires PathCommitted(t0, path, t, t') && NumberOf(path[0].parentHash) == |t0.db| - 1
    ensures WellFormed(t') && Canonicalized(t0, Tip(path).Hash(), t')
  {
    hide Owned; hide Attached; hide Groups; hide InDatabase; hide Firsts; hide Linked; hide Waiting;
    hide DbOk; hide CoversFrom; hide ForksFrom; hide CutsOk; hide Remaining; hide Reindexed; hide Buffer.Valid;
    PathComplete(t0, cuts, path, t);
    CommittedCore(t0, cuts, path, t, t');
    assert Hashes(t0.db[|t0.db|..]) == {};
    assert t'.Canon() + {} == t'.Canon();
    ForksAfterCommit(t0, cuts, path, t, t'.Canon());
    WaitingSame(t0, t');
  }

  /** The replaced part of the canonical chain goes back into the tree as a sidechain. */
  lemma CommitWithReorg(t0: Tree, cuts: Cuts, path: Chain, t: Tree, t1: Tree, t': Tree)
    requires WellFormed(t0) && Promoting(t0, cuts, path, t) && path != []
    requires path[0].parentHash !in t0.Owner()
    requires PathCommitted(t0, path, t, t1) && NumberOf(path[0].parentHash) < |t0.db| - 1
    requires ChainInserted(t1, t0.db[NumberOf(path[0].parentHash) + 1..], t')
    ensures WellFormed(t') && Canonicalized(t0, Tip(path).Hash(), t')
  {
    hide Owned; hide Attached; hide Groups; hide InDatabase; hide Firsts; hide Linked; hide Waiting;
    hide DbOk; hide CoversFrom; hide CutsOk; hide Remaining; hide Reindexed; hide Buffer.Valid;
    PathComplete(t0, cuts, path, t);
    CommittedExtends(t0, cuts, path, t);
    ReorgConsistent(t0, cuts, path, t, t1, t');
    ForksAfterCommit(t0, cuts, path, t, t'.Canon());
    assert t0.db[NumberOf(path[0].parentHash) + 1..][0].number == NumberOf(path[0].parentHash) + 1 by {
      DbSplit(t0.db, NumberOf(path[0].parentHash) + 1);
    }
    WaitingSame(t0, t');
  }

  lemma ReorgConsistent(t0: Tree, cuts: Cuts, path: Chain, t: Tree, t1: Tree, t': Tree)
    requires WellFormed(t0) && Promoting(t0, cuts, path, t) && path != []
    requires path[0].parentHash !in t0.Owner()
    requires PathCommitted(t0, path, t, t1) && NumberOf(path[0].parentHash) < |t0.db| - 1
    requires ChainInserted(t1, t0.db[NumberOf(path[0].parentHash) + 1..], t')
    ensures Consistent(t') && CoversFrom(t'.indices.canonical, t'.db, t0.indices.lastFinalized)
    ensures t'.Owner().Keys + t'.Canon() == t0.Owner().Keys + t0.Canon()
    ensures t'.Canon() <= t0.Canon() + Hashes(path)
  {
    hide Owned; hide Attached; hide Groups; hide InDatabase; hide Firsts; hide Linked; hide Waiting; hide Hashes;
    hide DbOk; hide CoversFrom; hide ForksFrom; hide CutsOk; hide Remaining; hide Reindexed; hide Buffer.Valid; hide Fits;
    var f := NumberOf(path[0].parentHash);
    var dropped := t0.db[f + 1..];
    CommittedExtends(t0, cuts, path, t);
    CommittedCore(t0, cuts, path, t, t1);
    DroppedFits(t0, path, t1, f);
    InsertedConsistent(t1, dropped, t');
  }

  lemma DroppedFits(t0: Tree, path: Chain, t1: Tree, f: nat)
    requires Extends(t0.db, f, path) && f < |t0.db| - 1
    requires t1.db == t0.db[..f + 1] + path
    requires t1.Canon() !! Hashes(t0.db[f + 1..]) && t1.Owner().Keys !! t1.Canon() + Hashes(t0.db[f + 1..])
    ensures Fits(t1, t0.db[f + 1..]) && t0.db[f + 1..][0].number == f + 1
  {
    DbSplit(t0.db, f + 1);
    assert t1.db[f] == t0.db[f];
    assert t1.db[f].Hash() in t1.Canon();
  }

  /** The tree with the canonical chain cut back to `u`. */
  ghost function CutBack(t: Tree, u: nat): Tree
    requires u < |t.db|
  {
    t.(db := t.db[..u + 1],
       indices := t.indices.(canonical := map n | n in t.indices.canonical && n <= u :: t.indices.canonical[n]))
  }

  /** The tree after the canonical chain is cut back to `u` and the rest filed as a sidechain. */
  ghost predicate Unwound(t0: Tree, u: nat, t: Tree) {
    u + 1 < |t0.db| && ChainInserted(CutBack(t0, u), t0.db[u + 1..], t)
  }

  lemma CutBackFits(t0: Tree, u: nat)
    requires Consistent(t0) && u + 1 < |t0.db|
    ensures var mid, dropped := CutBack(t0, u), t0.db[u + 1..];
            && DbOk(mid.db) && InDatabase(mid.indices.canonical, mid.db)
            && Fits(mid, dropped)
            && mid.Canon() + Hashes(dropped) == t0.Canon() && mid.db[u].Hash() in mid.Canon()
            && dropped[0].parentHash == mid.db[u].Hash() && dropped[0].number == u + 1
  {
    hide Owned; hide Groups; hide Firsts; hide Buffer.Valid; hide Attached; hide Linked;
    DbSplit(t0.db, u + 1);
    assert CutBack(t0, u).db[u] in CutBack(t0, u).db;
  }

  lemma UnwoundConsistent(t0: Tree, u: nat, t: Tree)
    requires Consistent(t0) && Unwound(t0, u, t)
    ensures Consistent(t)
    ensures t.Owner().Keys + t.Canon() == t0.Owner().Keys + t0.Canon()
    ensures t.db == t0.db[..u + 1] && t.chains == t0.chains[t0.nextId := t0.db[u + 1..]]
    ensures t.Canon() <= t0.Canon() && t.db[u].Hash() in t.Canon()
    ensures t0.db[u + 1..][0].parentHash == t.db[u].Hash() && t0.db[u + 1..][0].number == u + 1
  {
    hide Owned; hide Groups; hide Firsts; hide Buffer.Valid; hide Attached; hide InDatabase; hide DbOk; hide Linked; hide Hashes;
    var mid := CutBack(t0, u);
    CutBackFits(t0, u);
    InsertedConsistent(mid, t0.db[u + 1..], t);
    assert t.Canon() == mid.Canon();
  }

  /** Unwinding keeps the tree well formed exactly when it does not go below the last finalized block. */
  lemma UnwoundWellFormed(t0: Tree, u: nat, t: Tree)
    requires WellFormed(t0) && Unwound(t0, u, t)
    ensures WellFormed(t) <==> t0.indices.lastFinalized <= u
  {
    hide Owned; hide Groups; hide Firsts; hide Buffer.Valid; hide Attached; hide InDatabase; hide Linked; hide Waiting;
    UnwoundConsistent(t0, u, t);
    WaitingSame(t0, t);
    forall id | id in t0.chains && t0.chains[id] != []
      ensures id in t.chains && t.chains[id] == t0.chains[id]
    {
    }
    assert t.chains[t0.nextId][0].number == u + 1;
  }

  /** A tree over a genesis block and one finalized block. */
  ghost function FinalizedAtOne(block: Block): Tree {
    Tree(0, map[], Indices(1, map[1 := block.Hash()], map[], map[], map[]), Buffer(1, map[], map[], map[], []),
         [Block(Foreign(0), 0, 0), block])
  }

  lemma FinalizedAtOneWellFormed(block: Block)
    requires block == Block(Block(Foreign(0), 0, 0).Hash(), 1, 0)
    ensures WellFormed(FinalizedAtOne(block))
  {
    hide Hashes;
  }

  /** Finalizing a number below those the canonical index still holds leaves that index short. */
  lemma FinalizingLowerNumber() returns (t0: Tree, t: Tree)
    ensures WellFormed(t0) && Finalized(t0, 0, 0, t) && !WellFormed(t)
  {
    hide WellFormed; hide Groups; hide Buffer.Valid;
    var block := Block(Block(Foreign(0), 0, 0).Hash(), 1, 0);
    t0 := FinalizedAtOne(block);
    FinalizedAtOneWellFormed(block);
    FinalizedAtOneParts(block);
    t := t0.(indices := t0.indices.(lastFinalized := 0));
    assert CanonicalBetween(t0.indices.canonical, 1, 0) == {} && HashesIn(t0.chains, {}) == {} && FirstsIn(t0.chains, {}) == {};
    assert t.indices.canonical == map k | k in t0.indices.canonical && 0 <= k + 0 :: t0.indices.canonical[k];
    assert 0 !in t0.indices.canonical;
    FinalizedWellFormed(t0, 0, 0, t);
  }

  lemma FinalizedAtOneParts(block: Block)
    ensures FinalizedAtOne(block).buffer.Valid() && Groups(map[], FinalizedAtOne(block).Owner().Keys, NumberOf)
  {
  }

  lemma SingleGroup<K>(h: BlockHash, key: BlockHash -> K)
    ensures Groups(map[key(h) := {h}], {h}, key)
  {
  }

  /** Unwinding the block just finalized leaves a sidechain that forks below it. */
  lemma UnwindingFinalizedBlock() returns (t0: Tree, t: Tree)
    ensures WellFormed(t0) && Unwound(t0, 0, t) && !WellFormed(t)
  {
    hide Consistent; hide Settled; hide Groups;
    var genesis := Block(Foreign(0), 0, 0);
    var block := Block(genesis.Hash(), 1, 0);
    var h := block.Hash();
    t0 := FinalizedAtOne(block);
    FinalizedAtOneWellFormed(block);
    assert t0.db[1..] == [block] && t0.db[..1] == [genesis] && Hashes([block]) == {h} by {
      assert block in [block];
    }
    t := Tree(1, map[0 := [block]],
              Indices(1, map[], map[genesis.Hash() := {h}], map[1 := {h}], map[h := 0]), t0.buffer, [genesis]);
    assert CutBack(t0, 0).indices.canonical == map[];
    assert t.Owner() == t0.Owner() + (map x | x in Hashes([block]) :: 0);
    assert t0.Owner().Keys + Hashes([block]) == {h} && Firsts(t0.chains) + {h} == {h};
    SingleGroup(h, NumberOf);
    SingleGroup(h, ParentOf);
    UnwoundWellFormed(t0, 0, t);
  }
}
