/** The blockchain tree: a forest of sidechains over the canonical chain. */
module BlockchainTrees {
  import opened Blocks
  import opened Chains
  import opened Grouping
  import opened BlockIndexing
  import opened BlockBuffers
  import opened Trees
  import opened Finalization
  import opened Dependents
  import opened Canonicalization
  import opened ChainQueries
  import opened Insertion

  datatype CanonicalOutcome =
    | AlreadyCanonical(header: Block, tip: NumHash)
    | Committed(head: Block)
    | HashNotFound
    | ChainMissing
    | Unreachable

  datatype Attachment = OnCanonical | OnFork

  datatype Status =
    | Valid(attachment: Attachment)
    | Disconnected(head: NumHash, missing: NumHash)

  datatype InsertError = BelowFinalized(last: nat) | Rejected | ChainInconsistent | BufferingFailed

  datatype InsertResult = NewlyInserted(status: Status) | AlreadySeen(status: Status) | Failed(error: InsertError)

  datatype Op =
    | Insert(block: Block, verdicts: Verdicts)
    | Canonicalize(hash: BlockHash)
    | Finalize(number: nat)
    | UnwindTo(number: nat)

  /** Finalized numbers do not fall, and unwinding does not go below the last of them. */
  ghost predicate Allowed(op: Op, lastFinalized: nat) {
    match op
    case Insert(_, _) => true
    case Canonicalize(_) => true
    case Finalize(n) => lastFinalized <= n
    case UnwindTo(u) => lastFinalized <= u
  }

  ghost predicate AllAllowed(ops: seq<Op>, lastFinalized: nat) {
    ops != [] ==>
      && Allowed(ops[0], lastFinalized)
      && AllAllowed(ops[1..], if ops[0].Finalize? then ops[0].number else lastFinalized)
  }

  /** What an operation does. */
  ghost predicate Did(t: Tree, op: Op, retain: nat, t': Tree) {
    match op
    case Insert(b, v) => if Fresh(t, b) && v.block(b) then Insertion.Inserted(t, v, b, t') else t' == t
    case Canonicalize(h) => if h in t.Owner() then Canonicalized(t, h, t') else t' == t
    case Finalize(n) => Finalization.Finalized(t, n, retain, t')
    case UnwindTo(u) => if u < TipOf(t.indices.canonical).number then Unwound(t, u, t') else t' == t
  }

  /** The trees a run goes through. */
  ghost predicate Trace(trees: seq<Tree>, ops: seq<Op>, retain: nat) {
    |trees| == |ops| + 1 && forall i :: 0 <= i < |ops| ==> Did(trees[i], ops[i], retain, trees[i + 1])
  }

  /** From each tree on, what is finalized is not replaced, and the finalized number does not fall. */
  ghost predicate FinalityHolds(trees: seq<Tree>) {
    forall i, j :: 0 <= i <= j < |trees| ==>
                     && trees[i].indices.lastFinalized <= trees[j].indices.lastFinalized
                     && KeepsUpTo(trees[i].db, trees[j].db, trees[i].indices.lastFinalized)
  }

  lemma FinalityGoesOn(trees: seq<Tree>, t: Tree)
    requires trees != [] && FinalityHolds(trees)
    requires var last := trees[|trees| - 1];
             last.indices.lastFinalized <= t.indices.lastFinalized && KeepsUpTo(last.db, t.db, last.indices.lastFinalized)
    ensures FinalityHolds(trees + [t])
  {
    var last := trees[|trees| - 1];
    forall i | 0 <= i < |trees|
      ensures KeepsUpTo(trees[i].db, t.db, trees[i].indices.lastFinalized)
      ensures trees[i].indices.lastFinalized <= t.indices.lastFinalized
    {
      KeepsOn(trees[i].db, last.db, t.db, trees[i].indices.lastFinalized, last.indices.lastFinalized);
    }
    KeepsAll(t.db, t.indices.lastFinalized);
    hide KeepsUpTo;
  }

  lemma KeepsAll(db: seq<Block>, n: nat)
    ensures KeepsUpTo(db, db, n)
  {
  }

  /** The database keeps its blocks up to number `n`. */
  ghost predicate KeepsUpTo(db: seq<Block>, db': seq<Block>, n: nat) {
    (if n < |db| then db[..n + 1] else db) <= db'
  }

  /** What the tree answers for a block before looking at its contents. */
  ghost function KnownStatus(t: Tree, b: Block): Option<InsertResult> {
    var h := b.Hash();
    if h in t.Canon() then Some(AlreadySeen(Valid(OnCanonical)))
    else if b.number <= t.indices.lastFinalized then Some(Failed(BelowFinalized(t.indices.lastFinalized)))
    else if h in t.Owner() then
      var fork := ForkPoint(t.Canon(), h);
      Some(AlreadySeen(Valid(if NumHash(NumberOf(fork), fork) == TipOf(t.indices.canonical) then OnCanonical else OnFork)))
    else if h in t.buffer.blocks then
      Some(AlreadySeen(Disconnected(TipOf(t.indices.canonical), ParentNumHash(b))))
    else None
  }

  /** The entry is the highest of the index, or the default when there is none. */
  ghost predicate Highest(canonical: map<nat, BlockHash>, tip: NumHash) {
    if canonical == map[] then tip == NumHash(0, Foreign(0))
    else tip.number in canonical && canonical[tip.number] == tip.hash && forall n :: n in canonical ==> n <= tip.number
  }

  /** The number and hash of the last block of the database. */
  ghost function LastOf(db: seq<Block>): NumHash
    requires db != []
  {
    NumHash(|db| - 1, db[|db| - 1].Hash())
  }

  lemma TipOfDatabase(t: Tree)
    requires WellFormed(t)
    ensures Highest(t.indices.canonical, TipOf(t.indices.canonical))
    ensures t.indices.lastFinalized < |t.db| ==> TipOf(t.indices.canonical) == LastOf(t.db)
  {
    hide Owned; hide Attached; hide Groups; hide Waiting; hide ForksFrom; hide Buffer.Valid; hide Firsts; hide Linked;
    assert t.indices.lastFinalized < |t.db| ==> |t.db| - 1 in t.indices.canonical;
  }

  /** A sidechain block lies above the last finalized one, on a fork from a block of the database not below it. */
  lemma OwnedAbove(t: Tree, h: BlockHash)
    requires WellFormed(t) && h in t.Owner()
    ensures h !in t.Canon() && t.indices.lastFinalized < NumberOf(h) && t.indices.lastFinalized < |t.db|
    ensures ForkPoint(t.Canon(), h) in t.Canon() && NumberOf(ForkPoint(t.Canon(), h)) < |t.db|
    ensures t.indices.lastFinalized <= NumberOf(ForkPoint(t.Canon(), h))
  {
    hide Groups; hide Firsts; hide Attached; hide Buffer.Valid; hide Waiting; hide CoversFrom; hide DbOk; hide ForkPoint;
    hide InDatabase;
    SameForkPoint(t, h);
    var id := t.Owner()[h];
    ForkIsFinal(t, id);
    InDb(t.db, ForkPoint(t.Canon(), h));
    InChain(t.chains[id], h);
  }

  /** What the tree answers for a block it holds or that is too old, in terms of the database: a sidechain
      block counts as canonical exactly if its sidechains lead down to the last block. */
  lemma KnownExactly(t: Tree, b: Block)
    requires WellFormed(t)
    ensures var h, k := b.Hash(), KnownStatus(t, b);
            && (h in t.Canon() ==> k == Some(AlreadySeen(Valid(OnCanonical))))
            && (h in t.Owner() ==>
                  k == Some(AlreadySeen(Valid(if ForkPoint(t.Canon(), h) == LastOf(t.db).hash then OnCanonical else OnFork))))
            && (h in t.buffer.blocks ==>
                  && k.Some? && k.value.AlreadySeen? && k.value.status.Disconnected?
                  && k.value.status.missing == NumHash(b.number - 1, b.parentHash)
                  && Highest(t.indices.canonical, k.value.status.head)
                  && (t.indices.lastFinalized < |t.db| ==> k.value.status.head == LastOf(t.db)))
            && (h !in t.Known() && b.number <= t.indices.lastFinalized ==>
                  k == Some(Failed(BelowFinalized(t.indices.lastFinalized))))
  {
    hide Owned; hide Attached; hide Groups; hide ForksFrom; hide Buffer.Valid; hide Firsts; hide Linked; hide TipOf;
    hide CoversFrom; hide InDatabase; hide ForkPoint;
    TipOfDatabase(t);
    if b.Hash() in t.Owner() {
      OwnedAbove(t, b.Hash());
      TipIsLast(t, ForkPoint(t.Canon(), b.Hash()));
    }
  }

  /** A new block that is attached counts as canonical exactly if it sits on the last block of the database,
      or on the end of a sidechain that leads down to it. */
  lemma ExtendsExactly(t: Tree, b: Block)
    requires WellFormed(t) && Fresh(t, b) && t.Connected(b.parentHash) && b.number == NumberOf(b.parentHash) + 1
    ensures ExtendsTip(t, b) <==>
              && ForkPoint(t.Canon(), b.parentHash) == LastOf(t.db).hash
              && (b.parentHash in t.Owner() ==> exists id :: id in t.chains && EndsWith(t.chains[id], b.parentHash))
  {
    hide Groups; hide Firsts; hide Attached; hide Buffer.Valid; hide Waiting; hide CoversFrom; hide ForkPoint;
    hide InDatabase; hide TipOf; hide ForksFrom;
    if b.parentHash in t.Owner() {
      OwnedAbove(t, b.parentHash);
      SideParent(t, b.parentHash);
      forall id | id in t.chains && EndsWith(t.chains[id], b.parentHash)
        ensures t.Owner()[b.parentHash] == id
      {
        assert Tip(t.chains[id]).Hash() in Hashes(t.chains[id]);
      }
    } else {
      InDb(t.db, b.parentHash);
    }
    TipOfDatabase(t);
  }

  ghost predicate EndsWith(chain: Chain, h: BlockHash) {
    chain != [] && Tip(chain).Hash() == h
  }

  /** The block named as missing is held nowhere, and is the parent of the new block or of one it descends from. */
  lemma MissingIsUnknown(t: Tree, v: Verdicts, b: Block, t': Tree)
    requires WellFormed(t) && Fresh(t, b) && !t.Connected(b.parentHash) && Insertion.Inserted(t, v, b, t')
    requires MissingParent(t, v, b, t').NewlyInserted?
    ensures var status := MissingParent(t, v, b, t').status;
            && status.Disconnected? && status.missing.hash !in t'.Known()
            && Highest(t.indices.canonical, status.head)
            && exists low :: low in t'.buffer.blocks && ParentOf(low) == status.missing.hash
                          && (low == b.Hash() || Descends(t'.buffer.blocks.Keys, {low}, b.Hash()))
  {
    hide TipOf; hide WellFormed; hide LowestAncestorOf; hide Descends; hide HeaderFits; hide Grown; hide BufferAfter;
    hide Tree.Known; hide Highest; hide Fresh; hide Tree.Connected;
    TipOfDatabase(t);
    var keys := t'.buffer.blocks.Keys;
    NowBuffered(t, v, b, t');
    LowestAncestorIsRoot(keys, b.Hash());
    BufferOf(t');
    LowestIsBlock(t'.buffer, b.Hash());
    WaitsForUnknown(t', LowestAncestorOf(keys, b.Hash()));
    assert LowestAncestorOf(keys, b.Hash()) in t'.buffer.blocks;
  }

  lemma BufferOf(t: Tree)
    requires WellFormed(t)
    ensures t.buffer.Valid()
  {
    hide Owned; hide Attached; hide Groups; hide Buffer.Valid;
  }

  lemma NowBuffered(t: Tree, v: Verdicts, b: Block, t': Tree)
    requires WellFormed(t) && Fresh(t, b) && !t.Connected(b.parentHash) && Insertion.Inserted(t, v, b, t')
    requires !(b.parentHash in t.buffer.blocks && !HeaderFits(v, b))
    ensures b.Hash() in t'.buffer.blocks
  {
    hide WellFormed; hide Grown; hide Buffer.Evicted; hide HeaderFits; hide Attachables;
    BufferOf(t);
    hide Buffer.Valid;
    BufferKeeps(t.buffer, b);
    assert b.Hash() in BufferAfter(t, v, b);
  }

  lemma WaitsForUnknown(t: Tree, low: BlockHash)
    requires WellFormed(t) && low in t.buffer.blocks && low.HashOf? && low.block.parentHash !in t.buffer.blocks
    ensures ParentOf(low) == low.block.parentHash && ParentOf(low) !in t.Known()
  {
    hide Owned; hide Attached; hide Groups; hide Buffer.Valid; hide InDatabase; hide CoversFrom; hide ForksFrom; hide Linked;
  }

  /** The hashes of the `held` newest blocks. */
  function Newest(db: seq<Block>, held: nat): map<nat, BlockHash> {
    var from := if |db| < held then 0 else |db| - held;
    map n: nat | from <= n < |db| :: db[n].Hash()
  }

  lemma NewestCovers(db: seq<Block>, held: nat, n: nat)
    ensures InDatabase(Newest(db, held), db)
    ensures CoversFrom(Newest(db, held), db, n) <==> (n < |db| ==> |db| <= n + held)
  {
    if n < |db| && |db| > n + held {
      assert n !in Newest(db, held);
    }
  }

  /** What the tree answers for a block whose parent is missing: the parent of its lowest buffered ancestor. */
  ghost function MissingParent(t: Tree, v: Verdicts, b: Block, t': Tree): InsertResult {
    var low := LowestAncestorOf(t'.buffer.blocks.Keys, b.Hash());
    if b.parentHash in t.buffer.blocks && !HeaderFits(v, b) then Failed(Rejected)
    else NewlyInserted(Disconnected(TipOf(t.indices.canonical),
                                    if low.HashOf? then ParentNumHash(low.block) else NumHash(0, low)))
  }

  /** The sidechains and the set of those to remove, as the loop that follows the update sees them. */
  datatype Removal = Removal(chains: map<nat, Chain>, remove: set<nat>)

  /** One round of that loop: the lowest id is looked at, and its sidechain removed if it is there, which
      may disconnect more of them; no id is taken out of the set. */
  ghost predicate Round(r: Removal, r': Removal) {
    exists id, more :: RoundWith(r, r', id, more)
  }

  ghost predicate RoundWith(r: Removal, r': Removal, id: nat, more: set<nat>) {
    && id in r.remove && (forall j :: j in r.remove ==> id <= j)
    && r' == if id in r.chains then Removal(r.chains - {id}, r.remove + more) else r
  }

  /** The loop ends exactly if there is nothing to remove, and then before its first round. */
  lemma {:induction false} RemovalEnds(rounds: seq<Removal>)
    requires rounds != [] && forall i :: 0 < i < |rounds| ==> Round(rounds[i - 1], rounds[i])
    ensures rounds[|rounds| - 1].remove == {} <==> rounds[0].remove == {}
    ensures rounds[0].remove == {} ==> |rounds| == 1
  {
    if |rounds| > 1 {
      var n := |rounds|;
      RemovalEnds(rounds[..n - 1]);
      assert Round(rounds[n - 1 - 1], rounds[n - 1]) && Round(rounds[1 - 1], rounds[1]);
    }
  }

  class BlockchainTree {
    var nextId: nat
    var chains: map<nat, Chain>
    var db: seq<Block>
    const indices: BlockIndices
    const buffer: BlockBuffer
    const retain: nat

    ghost function View(): Tree
      reads this, indices, buffer
    {
      Tree(nextId, chains, indices.View(), buffer.View(), db)
    }

    /** An empty tree over the newest canonical hashes of the database. */
    constructor (db: seq<Block>, lastFinalized: nat, maxReorgDepth: nat, additionalHashes: nat, bufferLimit: nat)
      requires DbOk(db)
      ensures this.db == db && chains == map[] && indices.lastFinalized == lastFinalized
      ensures nextId == 0 && retain == additionalHashes && buffer.limit == bufferLimit && buffer.blocks == map[]
      ensures var held := if maxReorgDepth < additionalHashes then additionalHashes else maxReorgDepth;
              forall n :: n in indices.canonical <==> 0 <= n < |db| <= n + held
      ensures fresh(indices) && fresh(buffer)
      ensures Consistent(View())
      ensures WellFormed(View()) <==>
                var held := if maxReorgDepth < additionalHashes then additionalHashes else maxReorgDepth;
                lastFinalized < |db| ==> |db| <= lastFinalized + held
    {
      var held := if maxReorgDepth < additionalHashes then additionalHashes else maxReorgDepth;
      nextId, chains, retain := 0, map[], additionalHashes;
      this.db := db;
      indices := new BlockIndices(lastFinalized, Newest(db, held));
      buffer := new BlockBuffer(bufferLimit);
      new;
      NewestCovers(db, held, lastFinalized);
    }

    /** Reads the newest canonical hashes from the database again. The loop that follows in the source ends
        at once, because no sidechain is reported for removal: see `RemovalEnds`. */
    method UpdateBlockHashes(held: nat) returns (remove: set<nat>)
      requires Consistent(View())
      modifies indices
      ensures Consistent(View()) && remove == {}
      ensures View() == old(View()).(indices := old(View()).indices.(canonical := Newest(db, held)))
      ensures old(WellFormed(View())) ==>
                (WellFormed(View()) <==> (indices.lastFinalized < |db| ==> |db| <= indices.lastFinalized + held))
    {
      hide Groups; hide Owned; hide Attached; hide Linked; hide Buffer.Valid;
      var added;
      remove, added := indices.UpdateBlockHashes(Newest(db, held));
      NewestCovers(db, held, indices.lastFinalized);
    }

    /** Finalizes up to `n` and removes the sidechains and buffered blocks left behind. */
    method FinalizeBlock(n: nat)
      requires Consistent(View())
      modifies this`chains, indices, buffer
      ensures Finalized(old(View()), n, retain, View())
      ensures forall k :: k in indices.canonical <==> k in old(indices.canonical) && n <= k + retain
      ensures indices.lastFinalized == n && db == old(db)
      ensures forall h :: h in buffer.blocks ==> h in old(buffer.blocks) && n < NumberOf(h)
    {
      hide Purging; hide Consistent; hide Groups; hide Outdated; hide Buffer.Valid;
      hide HashesIn; hide Hashes; hide Under; hide Ids;
      ghost var t0 := View();
      ghost var done := CanonicalBetween(indices.canonical, indices.lastFinalized, n);
      BufferIsValid(t0);
      var remove := indices.FinalizeCanonicalBlocks(n, retain);
      ghost var recent := indices.canonical;
      DoneIsCanonical(t0, n);
      PurgingStarts(t0, done, indices.View(), remove);
      while remove != {}
        invariant Purging(t0, done, chains, indices.View(), remove)
        invariant indices.lastFinalized == n && indices.canonical == recent
        invariant buffer.View() == t0.buffer
        decreases chains.Keys, remove
      {
        ghost var low := MinOf(remove);
        var id :| id in remove && forall j :: j in remove ==> id <= j;
        ghost var ix, pending := indices.View(), remove;
        PurgingGroups(t0, done, chains, ix, pending, id);
        remove := remove - {id};
        if id in chains {
          var chain := chains[id];
          ghost var members := t0.Owner().Keys - HashesIn(t0.chains, t0.chains.Keys - chains.Keys);
          var more := indices.RemoveChain(chain, members);
          PurgingSteps(t0, done, chains, ix, pending, id, indices.View(), more);
          chains := chains - {id};
          remove := remove + more;
        }
      }
      buffer.RemoveOldBlocks(n);
      YoungLeft(t0.buffer, n, buffer.blocks);
    }

    /** The first blocks of the sidechains that fork from a block of the given sidechain. */
    method ForksOf(chain: Chain) returns (firsts: set<BlockHash>)
      ensures firsts == Under(indices.forkToChild, Hashes(chain))
    {
      firsts := {};
      for i := 0 to |chain|
        invariant firsts == Under(indices.forkToChild, Hashes(chain[..i]))
      {
        HashesOfPrefix(chain, i);
        UnderMore(indices.forkToChild, Hashes(chain[..i]), chain[i].Hash());
        if chain[i].Hash() in indices.forkToChild {
          firsts := firsts + indices.forkToChild[chain[i].Hash()];
        }
      }
      assert chain[..|chain|] == chain;
    }

    /** The sidechains that build on the block, directly or through one another. */
    method FindAllDependentChains(block: BlockHash) returns (ids: set<nat>)
      requires Indexed(View())
      ensures ids <= chains.Keys
      ensures forall id :: id in chains ==> (id in ids <==> Depends(View(), block, id))
    {
      hide Indexed; hide Hashes; hide Under; hide Depends;
      ghost var t, waiting := View(), SittingOn(chains, {block});
      VisitingStarts(t, block);
      var work := if block in indices.forkToChild then indices.forkToChild[block] else {};
      ids := {};
      while work != {}
        invariant Visiting(t, block, ids, waiting) && work == FirstsIn(t.chains, waiting)
        decreases chains.Keys - ids
      {
        hide Visiting; hide FirstsIn; hide SittingOn;
        var first :| first in work;
        VisitingTakes(t, block, ids, waiting, first);
        VisitingBounds(t, block, ids, waiting);
        work := work - {first};
        if first !in indices.blocksToChain || indices.blocksToChain[first] !in chains {
          return {};
        }
        var id := indices.blocksToChain[first];
        var firsts := ForksOf(chains[id]);
        VisitingSteps(t, block, ids, waiting, id);
        ghost var kids := SittingOn(chains, Hashes(chains[id]));
        FirstsOfBoth(chains, waiting - {id}, kids);
        work := work + firsts;
        ids := ids + {id};
        waiting := waiting - {id} + kids;
      }
      NoneWaiting(t, block, ids, waiting);
      forall id | id in chains
        ensures id in ids <==> Depends(t, block, id)
      {
        VisitedDepend(t, block, ids, id);
      }
    }

    /** Files a chain taken out of the database. Before that, each of its blocks hands the state that was
        undone with it to the sidechains that fork from it, so no sidechain gets any of it twice. */
    method InsertUnwoundChain(chain: Chain, ghost canon: set<BlockHash>)
      returns (id: Option<nat>, prepended: seq<set<nat>>)
      requires Indexed(View()) && Groups(indices.numberToHashes, indices.blocksToChain.Keys, NumberOf)
      requires Attached(chains, indices.blocksToChain, canon) && indices.blocksToChain.Keys !! canon && Hashes(chain) <= canon
      modifies this`nextId, this`chains, indices
      ensures chain == [] ==> id == None && View() == old(View())
      ensures chain != [] ==> id == Some(old(nextId)) && ChainInserted(old(View()), chain, View())
      ensures |prepended| == |chain|
      ensures forall k :: 0 <= k < |chain| ==> prepended[k] == ForkingFrom(old(View()), canon, chain[k].Hash())
    {
      hide Groups; hide Owned; hide Linked; hide Firsts; hide Depends; hide Attached; hide ForkingFrom; hide ForkPoint;
      ghost var t := View();
      prepended := [];
      for k := 0 to |chain|
        invariant View() == t && |prepended| == k
        invariant forall j :: 0 <= j < k ==> prepended[j] == ForkingFrom(t, canon, chain[j].Hash())
      {
        var dependents := FindAllDependentChains(chain[k].Hash());
        InHashes(chain, k);
        DependentsFork(t, canon, chain[k].Hash(), dependents);
        var rest, bumped := dependents, {};
        while rest != {}
          invariant rest <= dependents <= chains.Keys && bumped == dependents - rest
        {
          var d :| d in rest;
          if d !in chains {
            return None, prepended;
          }
          rest, bumped := rest - {d}, bumped + {d};
        }
        prepended := prepended + [bumped];
      }
      id := InsertChain(chain);
    }

    /** The block with the given hash if it is canonical, looked up in the index and the database. */
    method FindCanonicalHeader(hash: BlockHash) returns (header: Option<Block>)
      requires Consistent(View())
      ensures header == if hash in View().Canon() then Some(hash.block) else None
    {
      hide Groups; hide Attached; hide Buffer.Valid; hide Linked;
      header := None;
      if n :| n in indices.canonical && indices.canonical[n] == hash {
        header := if n < |db| then Some(db[n]) else None;
      }
      if header.None? && hash in indices.blocksToChain {
        return None;
      }
      if header.None? && hash.HashOf? && hash.block in db {
        header := Some(hash.block);
      }
    }

    /** Files a chain of new blocks under a new id. */
    method InsertChain(chain: Chain) returns (id: Option<nat>)
      requires Groups(indices.numberToHashes, indices.blocksToChain.Keys, NumberOf)
      requires Groups(indices.forkToChild, Firsts(chains), ParentOf)
      modifies this`nextId, this`chains, indices
      ensures chain == [] ==> id == None && View() == old(View())
      ensures chain != [] ==> id == Some(old(nextId)) && ChainInserted(old(View()), chain, View())
    {
      hide Groups;
      if chain == [] {
        return None;
      }
      id := Some(nextId);
      nextId := nextId + 1;
      indices.InsertChain(id.value, chain, indices.blocksToChain.Keys, Firsts(chains));
      chains := chains[id.value := chain];
    }

    /** Splits a sidechain after the target block, keeps the upper part under the same id and
        returns the lower part. */
    method RemoveAndSplitChain(id: nat, target: SplitTarget, ghost x: BlockHash,
                               ghost members: set<BlockHash>, ghost firsts: set<BlockHash>)
      returns (lower: Option<Chain>)
      requires id in chains ==>
                 && chains[id] != [] && Linked(chains[id]) && x in Hashes(chains[id])
                 && (target == AtHash(x) || target == AtNumber(NumberOf(x)))
      requires Groups(indices.numberToHashes, members, NumberOf) && Groups(indices.forkToChild, firsts, ParentOf)
      modifies this`chains, indices
      ensures id !in old(chains) ==> lower == None && View() == old(View())
      ensures id in old(chains) ==>
                var chain := old(chains)[id];
                && chain[0].number <= NumberOf(x) <= Tip(chain).number
                && var k := NumberOf(x) - chain[0].number + 1;
                   && lower == Some(chain[..k])
                   && SplitOff(old(View()), id, k, members, firsts, View())
    {
      hide Groups; hide Linked; hide Firsts; hide Hashes;
      if id !in chains {
        return None;
      }
      var chain := chains[id];
      InChain(chain, x);
      ghost var k := NumberOf(x) - chain[0].number + 1;
      chains := chains - {id};
      var split := SplitChain(chain, target);
      assert 0 < k <= |chain| && split == if k == |chain| then NoSplitCanonical(chain) else Split(chain[..k], chain[k..]);
      match split {
        case Split(canonical, pending) =>
          indices.InsertChain(id, pending, members, firsts);
          PutBack(old(chains), id, pending);
          chains := chains[id := pending];
          return Some(canonical);
        case NoSplitCanonical(canonical) =>
          assert chain[..k] == chain;
          NothingLeft(chain, k, indices.blocksToChain, id);
          assert members + {} == members && firsts + {} == firsts;
          return Some(canonical);
        case NoSplitPending(_) =>
          assert false;
      }
    }

    /** Splits one sidechain after the next block of the path and adds the lower part to the pieces. */
    method SplitNext(x: BlockHash, target: SplitTarget, pieces: seq<Chain>, ghost t0: Tree, ghost cuts: Cuts)
      returns (more: seq<Chain>, ghost cuts': Cuts)
      requires Consistent(t0) && Promoting(t0, cuts, Merged(pieces), View()) && Next(t0, Merged(pieces), x)
      requires Merged(pieces) == [] ==> forall id :: id in cuts ==> cuts[id] == 0
      requires target == AtHash(x) || target == AtNumber(NumberOf(x))
      requires pieces == [] || Merged(pieces) != []
      modifies this`chains, indices
      ensures Promoting(t0, cuts', Merged(more), View())
      ensures |more| == |pieces| + 1 && more[..|pieces|] == pieces && more[|pieces|] != []
      ensures Merged(more) == more[|pieces|] + Merged(pieces)
      ensures Tip(more[|pieces|]).Hash() == x && more[|pieces|][0].number <= NumberOf(x)
    {
      hide Owned; hide Attached; hide Groups; hide InDatabase; hide Firsts; hide Linked; hide Hashes; hide DbOk; hide Merged;
      ghost var t, path := View(), Merged(pieces);
      NextIsUncut(t0, cuts, path, t, x);
      var id := indices.blocksToChain[x];
      var lower := RemoveAndSplitChain(id, target, x, t0.Owner().Keys, Firsts(t0.chains) + Firsts(chains));
      ghost var k := NumberOf(x) - t.chains[id][0].number + 1;
      PromotingSteps(t0, cuts, path, t, x, k, View());
      cuts' := cuts[id := k];
      MergedPush(pieces, lower.value);
      more := pieces + [lower.value];
    }

    /** Splits the sidechains that hold the ancestors of the block, from the block down to its canonical fork. */
    method SplitAncestors(hash: BlockHash) returns (pieces: seq<Chain>, ghost cuts: Cuts)
      requires Consistent(View()) && hash in View().Owner()
      modifies this`chains, indices
      ensures Promoting(old(View()), cuts, Merged(pieces), View())
      ensures pieces != [] && (forall p :: p in pieces ==> p != [])
      ensures Merged(pieces) != [] && Tip(Merged(pieces)).Hash() == hash
      ensures Merged(pieces)[0].parentHash !in old(View()).Owner()
    {
      hide Owned; hide Attached; hide Groups; hide InDatabase; hide Firsts; hide Linked; hide Hashes; hide DbOk; hide Merged;
      hide Consistent; hide Remaining; hide InCut;
      ghost var t0 := View();
      PromotingStarts(t0);
      cuts := map id | id in t0.chains :: 0;
      assert Merged([]) == [] by { MergedNone(); }
      pieces, cuts := SplitNext(hash, AtHash(hash), [], t0, cuts);
      var fork := ForkBlock(pieces[0]);
      assert Merged(pieces) == pieces[0];
      while fork.hash in indices.blocksToChain
        invariant Promoting(t0, cuts, Merged(pieces), View())
        invariant pieces != [] && (forall p :: p in pieces ==> p != [])
        invariant Merged(pieces) != [] && Tip(Merged(pieces)).Hash() == hash
        invariant pieces[|pieces| - 1] != []
        invariant Merged(pieces)[0] == pieces[|pieces| - 1][0] && fork == ForkBlock(pieces[|pieces| - 1])
        decreases fork.number
      {
        ghost var path := Merged(pieces);
        assert fork.hash == path[0].parentHash && fork.number == NumberOf(fork.hash);
        var n := |pieces|;
        ghost var before := pieces;
        pieces, cuts := SplitNext(fork.hash, AtNumber(fork.number), pieces, t0, cuts);
        assert pieces == before + [pieces[n]];
        fork := ForkBlock(pieces[n]);
        BottomNumber(t0, cuts, Merged(pieces), View());
      }
    }

    /** Appends the pieces to the lowest of them, one after the other. */
    method MergePieces(pieces: seq<Chain>) returns (merged: Option<Chain>)
      requires pieces != [] && (forall p :: p in pieces ==> p != [])
      requires Linked(Merged(pieces))
      ensures merged == Some(Merged(pieces))
    {
      hide Linked;
      var chain := pieces[|pieces| - 1];
      var i := |pieces| - 1;
      assert chain in pieces;
      assert pieces[i..] == [chain] && Merged([chain]) == chain;
      while i > 0
        invariant 0 <= i < |pieces| && chain == Merged(pieces[i..]) && chain != []
      {
        i := i - 1;
        assert pieces[i..][1..] == pieces[i + 1..] && pieces[i..][0] == pieces[i] && pieces[i] in pieces;
        MergedPrefix(pieces, i);
        LinkedPrefix(Merged(pieces), chain, pieces[i]);
        var joined := AppendChain(chain, pieces[i]);
        if joined.None? {
          return None;
        }
        chain := joined.value;
      }
      assert pieces[0..] == pieces;
      return Some(chain);
    }

    /** Takes the blocks above `revertUntil` out of the database. */
    method RevertCanonical(revertUntil: nat) returns (dropped: Chain)
      modifies this`db
      ensures db == old(db)[..if revertUntil < |old(db)| then revertUntil + 1 else |old(db)|]
      ensures dropped == old(db)[|db|..]
    {
      var keep := if revertUntil < |db| then revertUntil + 1 else |db|;
      dropped := db[keep..];
      db := db[..keep];
    }

    /** Makes the block and its ancestors canonical, putting the blocks they replace back into the tree. */
    method MakeCanonical(hash: BlockHash) returns (outcome: CanonicalOutcome)
      requires WellFormed(View())
      modifies this, indices
      ensures WellFormed(View())
      ensures hash in old(View()).Canon() ==>
                && outcome.AlreadyCanonical? && outcome.header == hash.block && View() == old(View())
                && Highest(old(indices.canonical), outcome.tip)
                && (old(indices.lastFinalized) < |old(db)| ==> outcome.tip == LastOf(old(db)))
      ensures !old(View()).Connected(hash) ==> outcome == HashNotFound && View() == old(View())
      ensures hash in old(View()).Owner() ==> outcome == Committed(hash.block) && Canonicalized(old(View()), hash, View())
    {
      hide Owned; hide Attached; hide Groups; hide InDatabase; hide Firsts; hide Linked; hide Waiting; hide Hashes;
      hide DbOk; hide CoversFrom; hide ForksFrom; hide Buffer.Valid; hide Promoting; hide Merged;
      ghost var t0 := View();
      var header := FindCanonicalHeader(hash);
      if header.Some? {
        TipOfDatabase(t0);
        return AlreadyCanonical(header.value, TipOf(indices.canonical));
      }
      if hash !in indices.blocksToChain {
        return HashNotFound;
      }
      assert hash !in t0.Canon();
      var pieces, cuts := SplitAncestors(hash);
      ghost var t := View();
      PathLinked(t0, cuts, Merged(pieces), t);
      var oldTip := TipOf(indices.canonical);
      var merged := MergePieces(pieces);
      if merged.None? {
        return HashNotFound;
      }
      outcome := CommitPath(merged.value, oldTip, t0, cuts);
    }

    /** Moves the path to the canonical index and the database. */
    method CommitPath(path: Chain, oldTip: NumHash, ghost t0: Tree, ghost cuts: Cuts) returns (outcome: CanonicalOutcome)
      requires WellFormed(t0) && Promoting(t0, cuts, path, View()) && path != []
      requires path[0].parentHash !in t0.Owner() && oldTip == TipOf(t0.indices.canonical)
      modifies this, indices
      ensures outcome == Committed(Tip(path))
      ensures WellFormed(View()) && Canonicalized(t0, Tip(path).Hash(), View())
    {
      hide Owned; hide Attached; hide Groups; hide InDatabase; hide Firsts; hide Linked; hide Waiting; hide Hashes;
      hide DbOk; hide CoversFrom; hide ForksFrom; hide Buffer.Valid; hide Remaining; hide InCut; hide CutsOk; hide TipOf;
      ghost var t := View();
      ghost var f := NumberOf(path[0].parentHash);
      PathComplete(t0, cuts, path, t);
      CommittedExtends(t0, cuts, path, t);
      TipIsLast(t0, path[0].parentHash);
      ReindexedBelow(t0.indices.canonical, path, f);
      indices.CanonicalizeBlocks(path, t0.Owner().Keys, Firsts(t0.chains) + Firsts(t.chains));
      assert PathIndexed(t0, path, t, indices.View());
      hide PathIndexed; hide Reindexed; hide Canonicalized; hide WellFormed;
      var fork := ForkBlock(path);
      if fork.hash == oldTip.hash {
        db := db + path;
        assert t0.db[..f + 1] == t0.db;
        CommitOnTip(t0, cuts, path, t, View());
      } else {
        if fork.number !in indices.canonical || indices.canonical[fork.number] != fork.hash {
          return Unreachable;
        }
        Reorganize(path, t0, cuts, t);
      }
      return Committed(Tip(path));
    }

    /** Replaces the canonical chain above the fork by the path and puts the old blocks into the tree. */
    method Reorganize(path: Chain, ghost t0: Tree, ghost cuts: Cuts, ghost t: Tree)
      requires WellFormed(t0) && Promoting(t0, cuts, path, t) && path != [] && path[0].parentHash !in t0.Owner()
      requires NumberOf(path[0].parentHash) < |t0.db| - 1 && path[0].number == NumberOf(path[0].parentHash) + 1
      requires View() == t.(indices := indices.View()) && db == t0.db && PathIndexed(t0, path, t, indices.View())
      modifies this, indices
      ensures WellFormed(View()) && Canonicalized(t0, Tip(path).Hash(), View())
    {
      hide WellFormed; hide Promoting; hide PathIndexed; hide Canonicalized; hide Groups; hide Hashes; hide Firsts;
      hide Owned; hide Attached; hide DbOk; hide InDatabase; hide CoversFrom; hide ChainsOk;
      var dropped := RevertCanonical(ForkBlock(path).number);
      db := db + path;
      ghost var t1 := View();
      CommittedCore(t0, cuts, path, t, t1);
      ghost var canon := t1.Canon() + Hashes(dropped);
      AttachedIsIndexed(t1, canon);
      var id, _ := InsertUnwoundChain(dropped, canon);
      CommitWithReorg(t0, cuts, path, t, t1, View());
    }

    /** Cuts the canonical chain back to `unwindTo` and puts the rest into the tree. */
    method Unwind(unwindTo: nat)
      requires Consistent(View())
      modifies this, indices
      ensures TipOf(old(indices.canonical)).number <= unwindTo ==> View() == old(View())
      ensures unwindTo < TipOf(old(indices.canonical)).number ==>
                && Unwound(old(View()), unwindTo, View())
                && unwindTo + 1 < |old(db)| && db == old(db)[..unwindTo + 1]
                && (forall b :: b in old(db)[unwindTo + 1..] ==> b.Hash() in View().Owner())
                && (forall n :: n in indices.canonical <==> n in old(indices.canonical) && n <= unwindTo)
    {
      hide Consistent; hide Groups; hide Firsts; hide Attached; hide Hashes; hide Indexed; hide TipOf; hide ChainInserted;
      if TipOf(indices.canonical).number <= unwindTo {
        return;
      }
      ghost var t0 := View();
      TipInDatabase(t0);
      CutBackIsIndexed(t0, unwindTo);
      var dropped := RevertCanonical(unwindTo);
      if dropped != [] {
        indices.UnwindCanonicalChain(unwindTo);
        assert View() == CutBack(t0, unwindTo) && dropped == t0.db[unwindTo + 1..];
        var id, _ := InsertUnwoundChain(dropped, t0.Canon());
        UnwoundParts(t0, unwindTo, View());
      }
    }

    /** The hashes, by number, of a sidechain and of what lies below it down to the canonical chain. */
    method AllChainHashes(chainId: nat) returns (hashes: map<nat, BlockHash>)
      requires Consistent(View())
      ensures chainId in chains ==>
                hashes == HashByNumber(Path(View().Canon(), Tip(chains[chainId]).Hash()))
      ensures chainId !in chains ==> hashes == map[]
    {
      hide Consistent; hide Linked; hide HashByNumber; hide Path; hide Hashes; hide Descending;
      NoNumbers([]);
      hashes := map[];
      if chainId !in chains {
        return;
      }
      var id := chainId;
      DescendingStarts(View(), id);
      ghost var t, tip := View(), Tip(chains[chainId]).Hash();
      ghost var x, tail: Chain := tip, [];
      while true
        invariant Descending(t, tip, id, x, tail) && hashes == HashByNumber(tail)
        invariant id in chains && chains[id] != []
        decreases NumberOf(x)
      {
        DescendingChain(t, tip, id, x, tail);
        DescendingNext(t, tip, id, x, tail);
        var chain := chains[id];
        ghost var lower := UpTo(t, id, x);
        DescendingTail(t, tip, id, x, tail);
        hashes := AddHashes(hashes, chain, tail, |lower|);
        tail := lower + tail;
        var fork := ForkBlock(chain);
        if fork.hash in indices.blocksToChain {
          x := fork.hash;
          id := indices.blocksToChain[fork.hash];
        } else {
          break;
        }
      }
    }

    /** The canonical block a sidechain leads down to, if the canonical index has it. */
    method CanonicalFork(chainId: nat) returns (r: Option<NumHash>)
      requires Consistent(View())
      ensures chainId !in chains ==> r == None
      ensures chainId in chains ==>
                && chains[chainId] != []
                && var fork := ForkPoint(View().Canon(), Tip(chains[chainId]).Hash());
                   r == if NumberOf(fork) in indices.canonical && indices.canonical[NumberOf(fork)] == fork
                        then Some(NumHash(NumberOf(fork), fork)) else None
    {
      hide Consistent; hide Linked; hide Path; hide Hashes; hide Descending; hide ForkPoint;
      if chainId !in chains {
        return None;
      }
      var id := chainId;
      DescendingStarts(View(), id);
      ghost var t, tip := View(), Tip(chains[chainId]).Hash();
      ghost var x, tail: Chain := tip, [];
      var fork := NumHash(0, Foreign(0));
      while true
        invariant Descending(t, tip, id, x, tail)
        invariant id in chains && chains[id] != []
        decreases NumberOf(x)
      {
        DescendingChain(t, tip, id, x, tail);
        DescendingNext(t, tip, id, x, tail);
        fork := ForkBlock(chains[id]);
        if fork.hash in indices.blocksToChain {
          tail := UpTo(t, id, x) + tail;
          x := fork.hash;
          id := indices.blocksToChain[fork.hash];
        } else {
          break;
        }
      }
      if fork.number in indices.canonical && indices.canonical[fork.number] == fork.hash {
        return Some(fork);
      }
      return None;
    }

    /** Starts a sidechain with a block whose parent is in the database. */
    method TryAppendCanonicalChain(b: Block, v: Verdicts) returns (r: InsertResult)
      requires WellFormed(View()) && Fresh(View(), b) && b.parentHash in View().Canon()
      modifies this`nextId, this`chains, indices, buffer
      ensures Insertion.Inserted(old(View()), v, b, View())
      ensures r == if Sound(v, b) then NewlyInserted(Valid(if ExtendsTip(old(View()), b) then OnCanonical else OnFork))
                   else Failed(Rejected)
      ensures r.Failed? ==> View() == old(View())
      decreases |buffer.blocks|, 1
    {
      hide WellFormed; hide Groups; hide TipOf; hide JustAttached; hide ChainInserted; hide Reconnected;
      hide Insertion.Inserted; hide Fresh; hide Sound; hide ForkPoint;
      ghost var t := View();
      CanonicalParent(t, b.parentHash);
      SoundOnParent(v, b);
      var attachment := if b.parentHash == TipOf(indices.canonical).hash then OnCanonical else OnFork;
      if !(HeaderOk(v, b, b.parentHash.block) && v.execution(b)) {
        Unchanged(t, v, b);
        return Failed(Rejected);
      }
      GroupsOf(t);
      var id := InsertChain([b]);
      ghost var t1 := View();
      ForkedOpens(t, b, t1);
      AttachedOpens(t, b, t1);
      TryConnectBufferedBlocks(b.Hash(), v);
      AttachedThenReconnected(t, v, b, t1, View());
      return NewlyInserted(Valid(attachment));
    }

    /** Appends a block to the sidechain that holds its parent, or starts a new one from it. */
    method AttachToSideChain(b: Block, chainId: nat, v: Verdicts) returns (r: InsertResult)
      requires WellFormed(View()) && Fresh(View(), b)
      requires b.parentHash in View().Owner() && View().Owner()[b.parentHash] == chainId
      modifies this`nextId, this`chains, indices
      ensures r == if Sound(v, b) then NewlyInserted(Valid(if ExtendsTip(old(View()), b) then OnCanonical else OnFork))
                   else Failed(Rejected)
      ensures r.Failed? ==> View() == old(View())
      ensures !r.Failed? ==>
                && JustAttached(old(View()), b, View()) && b.Hash() in View().Owner()
                && View().Owner()[b.Hash()] == if Tip(old(chains)[chainId]).Hash() == b.parentHash then chainId else old(nextId)
    {
      hide WellFormed; hide Groups; hide TipOf; hide ChainInserted; hide JustAttached; hide Grown;
      hide Fresh; hide Sound; hide ForkPoint; hide Path; hide HashByNumber; hide Linked; hide Hashes;
      ghost var t := View();
      SideParent(t, b.parentHash);
      ForkIndexed(t, b.parentHash);
      ParentByNumber(v, chains[chainId], b);
      var blockHashes := AllChainHashes(chainId);
      var fork := CanonicalFork(chainId);
      if fork.None? || chainId !in chains {
        return Failed(ChainInconsistent);
      }
      var chain := chains[chainId];
      if Tip(chain).Hash() == b.parentHash {
        SoundOnParent(v, b);
        var attachment := if fork.value.hash == TipOf(indices.canonical).hash then OnCanonical else OnFork;
        if !(HeaderOk(v, b, Tip(chain)) && v.execution(b)) {
          return Failed(Rejected);
        }
        AppendOpens(t, chainId, b);
        chains := chains[chainId := chain + [b]];
        indices.InsertNonForkBlock(b.number, b.Hash(), chainId);
        return NewlyInserted(Valid(attachment));
      }
      var parent := if b.number == 0 then None else BlockAt(chain, b.number - 1);
      if parent.None? || !(HeaderOk(v, b, parent.value) && v.execution(b)) {
        return Failed(Rejected);
      }
      SoundNumber(v, b);
      GroupsOf(t);
      var id := InsertChain([b]);
      ForkedOpens(t, b, View());
      NewOwner(t, b, View());
      return NewlyInserted(Valid(OnFork));
    }

    method TryInsertBlockIntoSideChain(b: Block, chainId: nat, v: Verdicts) returns (r: InsertResult)
      requires WellFormed(View()) && Fresh(View(), b)
      requires b.parentHash in View().Owner() && View().Owner()[b.parentHash] == chainId
      modifies this`nextId, this`chains, indices, buffer
      ensures Insertion.Inserted(old(View()), v, b, View())
      ensures r == if Sound(v, b) then NewlyInserted(Valid(if ExtendsTip(old(View()), b) then OnCanonical else OnFork))
                   else Failed(Rejected)
      ensures r.Failed? ==> View() == old(View())
      ensures !r.Failed? ==>
                && b.Hash() in View().Owner() && chainId in old(chains) && old(chains)[chainId] != []
                && View().Owner()[b.Hash()] == if Tip(old(chains)[chainId]).Hash() == b.parentHash then chainId else old(nextId)
      decreases |buffer.blocks|, 1
    {
      hide WellFormed; hide Groups; hide TipOf; hide Reconnected; hide JustAttached; hide ExtendsTip;
      hide Insertion.Inserted; hide Fresh; hide Sound;
      ghost var t := View();
      SideParent(t, b.parentHash);
      r := AttachToSideChain(b, chainId, v);
      if r.Failed? {
        Unchanged(t, v, b);
        return;
      }
      ghost var t1 := View();
      AttachedOpens(t, b, t1);
      TryConnectBufferedBlocks(b.Hash(), v);
      ReconnectedGrown(t1, b.Hash(), v, View());
      AttachedThenReconnected(t, v, b, t1, View());
    }

    /** Takes the descendants of a connected block out of the buffer and tries each again. */
    method TryConnectBufferedBlocks(root: BlockHash, v: Verdicts)
      requires Opened(View(), root)
      modifies this`nextId, this`chains, indices, buffer
      ensures Reconnected(old(View()), root, v, View())
      decreases |buffer.blocks|, 0
    {
      hide WellFormed; hide Groups; hide Descends; hide NoDuplicates; hide ParentsFirst; hide Connecting; hide Reconnected;
      ghost var t0 := View();
      var list := buffer.RemoveBlockWithChildren(root);
      ConnectingStarts(t0, root, v, list, buffer.View());
      for i := 0 to |list|
        invariant Connecting(t0, root, v, list, i, View())
      {
        ghost var t := View();
        NextIsFresh(t0, root, v, list, i, t);
        assert WellFormed(t) by { ConnectingWellFormed(t0, root, v, list, i, t); }
        var _ := TryInsertValidatedBlock(list[i], v);
        ConnectingSteps(t0, root, v, list, i, t, View());
      }
      ConnectingEnds(t0, root, v, list, View());
    }

    /** Buffers a block whose parent is missing, unless its buffered parent does not fit. */
    method BufferDisconnected(b: Block, v: Verdicts) returns (r: InsertResult)
      requires WellFormed(View()) && Fresh(View(), b) && !View().Connected(b.parentHash)
      modifies buffer
      ensures Insertion.Inserted(old(View()), v, b, View())
      ensures r == MissingParent(old(View()), v, b, View())
      ensures r.Failed? ==> View() == old(View())
    {
      hide WellFormed; hide Groups; hide TipOf; hide Grown; hide Insertion.Inserted; hide Hashes; hide BufferAfter; hide Fresh;
      hide LowestAncestorOf; hide Recency.Without; hide Buffer.Valid; hide Tree.Connected; hide HeaderFits; hide Buffer.Evicted;
      ghost var t := View();
      ConsistentOf(t);
      if b.parentHash in buffer.blocks {
        FitsBuffered(t, v, b);
        if !HeaderOk(v, b, buffer.blocks[b.parentHash]) {
          Unchanged(t, v, b);
          return Failed(Rejected);
        }
      }
      NotBuffered(t, b);
      BufferKeeps(t.buffer, b);
      buffer.InsertBlock(b);
      BufferAfterInsert(t, v, b, buffer.blocks);
      Buffers(t, v, b, buffer.View());
      LowestIsBlock(buffer.View(), b.Hash());
      var lowest := buffer.LowestAncestor(b.Hash());
      if lowest.None? {
        return Failed(BufferingFailed);
      }
      return NewlyInserted(Disconnected(TipOf(indices.canonical), ParentNumHash(lowest.value)));
    }

    /** Attaches a validated block to the tree, or buffers it when its parent is missing. */
    method TryInsertValidatedBlock(b: Block, v: Verdicts) returns (r: InsertResult)
      requires WellFormed(View()) && Fresh(View(), b)
      modifies this`nextId, this`chains, indices, buffer
      ensures Insertion.Inserted(old(View()), v, b, View())
      ensures r.Failed? ==> r == Failed(Rejected) && View() == old(View())
      ensures r == if old(View()).Connected(b.parentHash)
                   then if Sound(v, b) then NewlyInserted(Valid(if ExtendsTip(old(View()), b) then OnCanonical else OnFork))
                        else Failed(Rejected)
                   else MissingParent(old(View()), v, b, View())
      decreases |buffer.blocks|, 2
    {
      hide WellFormed; hide Groups; hide TipOf; hide Grown; hide Insertion.Inserted; hide Sound; hide ForkPoint; hide Hashes;
      hide ExtendsTip; hide LowestAncestorOf; hide HeaderFits;
      ghost var t := View();
      if b.parentHash in indices.blocksToChain {
        r := TryInsertBlockIntoSideChain(b, indices.blocksToChain[b.parentHash], v);
        return;
      }
      ConsistentOf(t);
      var header := FindCanonicalHeader(b.parentHash);
      if header.Some? {
        r := TryAppendCanonicalChain(b, v);
        return;
      }
      r := BufferDisconnected(b, v);
    }

    /** The status of a block the tree or the database already has, or the error for one that is too old. */
    method IsBlockKnown(b: Block) returns (r: Option<InsertResult>)
      requires WellFormed(View())
      ensures r == KnownStatus(View(), b)
    {
      hide WellFormed; hide Groups; hide TipOf; hide ForkPoint; hide Hashes; hide Linked;
      ConsistentOf(View());
      var header := FindCanonicalHeader(b.Hash());
      if header.Some? {
        return Some(AlreadySeen(Valid(OnCanonical)));
      }
      if b.number <= indices.lastFinalized {
        NotStored(db, b);
        return Some(if b in db then AlreadySeen(Valid(OnCanonical)) else Failed(BelowFinalized(indices.lastFinalized)));
      }
      if b.Hash() in indices.blocksToChain {
        ForkIndexed(View(), b.Hash());
        var fork := CanonicalFork(indices.blocksToChain[b.Hash()]);
        if fork.Some? {
          return Some(AlreadySeen(Valid(if fork.value == TipOf(indices.canonical) then OnCanonical else OnFork)));
        }
      }
      if b.Hash() in buffer.blocks {
        var block := buffer.blocks[b.Hash()];
        return Some(AlreadySeen(Disconnected(TipOf(indices.canonical), ParentNumHash(block))));
      }
      return None;
    }

    /** Inserts a block that passes the checks on it alone, unless it is known or too old. */
    method InsertBlock(b: Block, v: Verdicts) returns (r: InsertResult)
      requires WellFormed(View())
      modifies this`nextId, this`chains, indices, buffer
      ensures WellFormed(View())
      ensures KnownStatus(old(View()), b).Some? ==> r == KnownStatus(old(View()), b).value
      ensures KnownStatus(old(View()), b).None? && !v.block(b) ==> r == Failed(Rejected)
      ensures Fresh(old(View()), b) && v.block(b) ==> Insertion.Inserted(old(View()), v, b, View())
      ensures !(Fresh(old(View()), b) && v.block(b)) ==> View() == old(View())
      ensures r.Failed? ==> View() == old(View())
      ensures Fresh(old(View()), b) && v.block(b) ==>
                r == if old(View()).Connected(b.parentHash)
                     then if Sound(v, b) then NewlyInserted(Valid(if ExtendsTip(old(View()), b) then OnCanonical else OnFork))
                          else Failed(Rejected)
                     else MissingParent(old(View()), v, b, View())
    {
      hide WellFormed; hide Groups; hide TipOf; hide ForkPoint; hide Sound; hide ExtendsTip; hide MissingParent;
      hide BufferAfter; hide Grown; hide Attachables;
      KnownOrFresh(View(), b);
      var known := IsBlockKnown(b);
      if known.Some? {
        return known.value;
      }
      if !v.block(b) {
        return Failed(Rejected);
      }
      r := TryInsertValidatedBlock(b, v);
    }

    /** Carries out one operation of a run. */
    method Step(op: Op)
      requires WellFormed(View()) && Allowed(op, indices.lastFinalized)
      modifies this, indices, buffer
      ensures WellFormed(View()) && Did(old(View()), op, retain, View())
      ensures indices.lastFinalized == if op.Finalize? then op.number else old(indices.lastFinalized)
      ensures KeepsUpTo(old(db), db, old(indices.lastFinalized))
    {
      hide WellFormed; hide Insertion.Inserted; hide Fresh; hide Sound; hide ExtendsTip; hide KnownStatus;
      hide Finalization.Finalized; hide Unwound; hide Canonicalized; hide TipOf; hide Attachables;
      ghost var t := View();
      ConsistentOf(t);
      match op {
        case Insert(b, v) =>
          var _ := InsertBlock(b, v);
          InsertKeeps(t, v, b, View());
        case Canonicalize(h) =>
          var _ := MakeCanonical(h);
          CanonicalizeKeeps(t, h, View());
        case Finalize(n) =>
          FinalizeBlock(n);
          FinalizedWellFormed(t, n, retain, View());
          FinalizeKeeps(t, n, retain, View());
        case UnwindTo(u) =>
          Unwind(u);
          UnwindKeeps(t, u, View());
      }
    }

    /** Every run in which finalization does not fall and unwinding stops at the last finalized
        block goes through well-formed trees, and never replaces a block that was finalized. */
    method Run(ops: seq<Op>) returns (ghost trees: seq<Tree>)
      requires WellFormed(View()) && AllAllowed(ops, indices.lastFinalized)
      modifies this, indices, buffer
      ensures Trace(trees, ops, retain) && trees[0] == old(View()) && trees[|ops|] == View()
      ensures forall t :: t in trees ==> WellFormed(t)
      ensures FinalityHolds(trees)
    {
      hide WellFormed; hide Did; hide KeepsUpTo;
      trees := [View()];
      KeepsAll(db, indices.lastFinalized);
      for i := 0 to |ops|
        invariant WellFormed(View()) && forall t :: t in trees ==> WellFormed(t)
        invariant AllAllowed(ops[i..], indices.lastFinalized)
        invariant Trace(trees, ops[..i], retain) && trees[0] == old(View()) && trees[i] == View()
        invariant FinalityHolds(trees)
      {
        assert ops[i..][0] == ops[i] && ops[i..][1..] == ops[i + 1..];
        Step(ops[i]);
        FinalityGoesOn(trees, View());
        TraceGoesOn(trees, ops, i, retain, View());
        trees := trees + [View()];
      }
      assert ops[..|ops|] == ops;
    }
  }

  lemma TraceGoesOn(trees: seq<Tree>, ops: seq<Op>, i: nat, retain: nat, t: Tree)
    requires i < |ops| && Trace(trees, ops[..i], retain) && Did(trees[i], ops[i], retain, t)
    ensures Trace(trees + [t], ops[..i + 1], retain)
  {
    hide Did;
  }

  lemma UnwoundParts(t0: Tree, u: nat, t: Tree)
    requires Unwound(t0, u, t)
    ensures t.db == t0.db[..u + 1]
    ensures forall b :: b in t0.db[u + 1..] ==> b.Hash() in t.Owner()
    ensures forall n :: n in t.indices.canonical <==> n in t0.indices.canonical && n <= u
  {
    hide Groups; hide Firsts;
  }

  lemma YoungLeft(before: Buffer, n: nat, left: map<BlockHash, Block>)
    requires before.Valid()
    requires left == before.blocks - (set h | h in before.blocks && Outdated(before.blocks.Keys, n, h))
    ensures forall h :: h in left ==> h in before.blocks && n < NumberOf(h)
  {
    hide Groups; hide NoDuplicates;
  }

  lemma TipInDatabase(t: Tree)
    requires Consistent(t)
    ensures TipOf(t.indices.canonical).number < |t.db|
  {
    hide Owned; hide Groups; hide Firsts; hide Buffer.Valid; hide Attached; hide Linked;
  }

  /** While the dropped blocks are in no collection, the sidechains still lead down to the old chain. */
  lemma CutBackIsIndexed(t0: Tree, u: nat)
    requires Consistent(t0) && u + 1 < |t0.db|
    ensures var t := CutBack(t0, u);
            && Indexed(t) && Groups(t.indices.numberToHashes, t.Owner().Keys, NumberOf)
            && Attached(t.chains, t.Owner(), t0.Canon()) && t.Owner().Keys !! t0.Canon()
            && Hashes(t0.db[u + 1..]) <= t0.Canon()
  {
    hide Owned; hide Groups; hide Firsts; hide Buffer.Valid; hide Attached; hide Linked; hide Hashes; hide InDatabase;
    CutBackFits(t0, u);
    AttachedIsIndexed(CutBack(t0, u), t0.Canon());
  }

  lemma InHashes(chain: Chain, k: nat)
    requires k < |chain|
    ensures chain[k].Hash() in Hashes(chain)
  {
  }

  lemma PutBack(chains: map<nat, Chain>, id: nat, chain: Chain)
    ensures (chains - {id})[id := chain] == chains[id := chain]
  {
  }

  lemma NothingLeft(chain: Chain, k: nat, owner: map<BlockHash, nat>, id: nat)
    requires k == |chain|
    ensures chain[k..] == [] && Hashes(chain[k..]) == {}
    ensures owner + (map h | h in Hashes(chain[k..]) :: id) == owner
  {
  }

  lemma MergedNone()
    ensures Merged([]) == []
  {
  }

  lemma BottomNumber(t0: Tree, cuts: Cuts, path: Chain, t: Tree)
    requires Promoting(t0, cuts, path, t) && path != []
    ensures path[0].number == NumberOf(path[0].parentHash) + 1
  {
  }

  lemma PathLinked(t0: Tree, cuts: Cuts, path: Chain, t: Tree)
    requires Promoting(t0, cuts, path, t)
    ensures Linked(path) && t.indices.canonical == t0.indices.canonical
  {
  }

  lemma LinkedPrefix(whole: Chain, c: Chain, next: Chain)
    requires Linked(whole) && c + next <= whole && c != [] && next != []
    ensures Tip(c).Hash() == next[0].parentHash
  {
    assert whole[|c|] == (c + next)[|c|] == next[0];
    assert whole[|c| - 1] == (c + next)[|c| - 1] == Tip(c);
  }

  /** The tip of the canonical index is the last block of the database when a sidechain exists. */
  lemma TipIsLast(t: Tree, fork: BlockHash)
    requires WellFormed(t) && fork in t.Canon() && t.indices.lastFinalized <= NumberOf(fork)
    ensures TipOf(t.indices.canonical) == NumHash(|t.db| - 1, t.db[|t.db| - 1].Hash())
    ensures TipOf(t.indices.canonical).hash == fork <==> NumberOf(fork) == |t.db| - 1
    ensures NumberOf(fork) < |t.db| && NumberOf(fork) in t.indices.canonical
    ensures t.indices.canonical[NumberOf(fork)] == fork
  {
    hide Owned; hide Attached; hide Groups; hide Waiting; hide ForksFrom; hide Buffer.Valid; hide Firsts;
    InDb(t.db, fork);
    assert |t.db| - 1 in t.indices.canonical;
  }

  lemma CanonicalParent(t: Tree, h: BlockHash)
    requires WellFormed(t) && h in t.Canon()
    ensures h.HashOf? && ForkPoint(t.Canon(), h) == h && h !in t.Owner()
  {
    hide Groups; hide Owned; hide Attached; hide Waiting; hide Buffer.Valid;
  }

  lemma GroupsOf(t: Tree)
    requires WellFormed(t)
    ensures Groups(t.indices.numberToHashes, t.Owner().Keys, NumberOf)
    ensures Groups(t.indices.forkToChild, Firsts(t.chains), ParentOf)
  {
  }

  lemma ConnectingWellFormed(t0: Tree, root: BlockHash, v: Verdicts, list: seq<Block>, i: nat, t: Tree)
    requires Connecting(t0, root, v, list, i, t)
    ensures WellFormed(t)
  {
  }

  lemma ConsistentOf(t: Tree)
    requires WellFormed(t)
    ensures Consistent(t) && t.buffer.Valid()
  {
  }

  lemma SideParent(t: Tree, h: BlockHash)
    requires WellFormed(t) && h in t.Owner()
    ensures Consistent(t) && t.Connected(h)
    ensures var id := t.Owner()[h];
            && id in t.chains && t.chains[id] != [] && Linked(t.chains[id]) && h in Hashes(t.chains[id])
            && (Tip(t.chains[id]).Hash() == h ==> h.HashOf? && h.block == Tip(t.chains[id]))
  {
    hide Groups; hide Attached; hide Waiting; hide Buffer.Valid; hide InDatabase; hide DbOk;
  }

  lemma SoundNumber(v: Verdicts, b: Block)
    requires Sound(v, b)
    ensures b.number == NumberOf(b.parentHash) + 1
  {
  }

  /** An insertion never evicts the block it inserts. */
  lemma FitsBuffered(t: Tree, v: Verdicts, b: Block)
    requires WellFormed(t) && b.parentHash in t.buffer.blocks
    ensures HeaderOk(v, b, t.buffer.blocks[b.parentHash]) <==> HeaderFits(v, b)
  {
    hide Groups; hide InDatabase; hide Linked; hide Firsts; hide Owned; hide Attached; hide DbOk; hide NoDuplicates;
  }

  lemma NotBuffered(t: Tree, b: Block)
    requires Fresh(t, b)
    ensures b.Hash() !in t.buffer.blocks
  {
  }

  lemma BufferAfterInsert(t: Tree, v: Verdicts, b: Block, blocks: map<BlockHash, Block>)
    requires !t.Connected(b.parentHash) && (b.parentHash in t.buffer.blocks ==> HeaderFits(v, b))
    requires var gone := t.buffer.Evicted(b.Hash());
             blocks == t.buffer.blocks[b.Hash() := b] - (if gone.Some? then {gone.value} else {})
    ensures blocks.Keys == BufferAfter(t, v, b)
  {
    hide HeaderFits; hide Buffer.Evicted; hide Tree.Connected;
  }

  lemma LowestIsBlock(buffer: Buffer, h: BlockHash)
    requires buffer.Valid() && h in buffer.blocks
    ensures LowestAncestorOf(buffer.blocks.Keys, h).HashOf?
  {
    hide Groups; hide NoDuplicates;
    LowestAncestorIsRoot(buffer.blocks.Keys, h);
  }

  lemma BufferKeeps(buffer: Buffer, b: Block)
    requires buffer.Valid() && b.Hash() !in buffer.blocks
    ensures buffer.Evicted(b.Hash()) != Some(b.Hash())
  {
    if buffer.lru != [] {
      assert buffer.lru[0] in buffer.lru;
    }
  }

  lemma AttachedOpens(t: Tree, b: Block, t1: Tree)
    requires JustAttached(t, b, t1)
    ensures Opened(t1, b.Hash()) && t1.buffer == t.buffer
  {
  }

  lemma ReconnectedGrown(t: Tree, root: BlockHash, v: Verdicts, t': Tree)
    requires Reconnected(t, root, v, t')
    ensures Grown(t, t')
  {
  }

  lemma NewOwner(t: Tree, b: Block, t': Tree)
    requires ChainInserted(t, [b], t')
    ensures b.Hash() in t'.Owner() && t'.Owner()[b.Hash()] == t.nextId
  {
    hide Groups;
    assert b in [b] && b.Hash() in Hashes([b]);
  }

  lemma KeepsOn(a: seq<Block>, b: seq<Block>, c: seq<Block>, m: nat, n: nat)
    requires KeepsUpTo(a, b, m) && KeepsUpTo(b, c, n) && m <= n
    ensures KeepsUpTo(a, c, m)
  {
  }

  lemma BufferIsValid(t: Tree)
    requires Consistent(t)
    ensures t.buffer.Valid()
  {
    hide Buffer.Valid; hide Groups; hide Owned; hide Attached;
  }

  lemma NotStored(db: seq<Block>, b: Block)
    requires b.Hash() !in Hashes(db)
    ensures b !in db
  {
  }

  lemma KnownOrFresh(t: Tree, b: Block)
    requires WellFormed(t)
    ensures KnownStatus(t, b).None? <==> Fresh(t, b)
  {
    hide Groups; hide Attached; hide Owned; hide Linked; hide InDatabase;
  }

  lemma InsertKeeps(t: Tree, v: Verdicts, b: Block, t': Tree)
    requires Insertion.Inserted(t, v, b, t') || t' == t
    ensures KeepsUpTo(t.db, t'.db, t.indices.lastFinalized) && t'.indices.lastFinalized == t.indices.lastFinalized
  {
  }

  lemma CanonicalizeKeeps(t: Tree, h: BlockHash, t': Tree)
    requires WellFormed(t)
    requires t' == t || (h in t.Owner() && Canonicalized(t, h, t'))
    ensures KeepsUpTo(t.db, t'.db, t.indices.lastFinalized) && t'.indices.lastFinalized == t.indices.lastFinalized
  {
    hide WellFormed; hide Groups; hide Linked; hide Path; hide Attached; hide Owned; hide ForkPoint;
    if t' != t {
      SideFork(t, h);
    }
  }

  lemma SideFork(t: Tree, h: BlockHash)
    requires WellFormed(t) && h in t.Owner()
    ensures t.indices.lastFinalized <= NumberOf(ForkPoint(t.Canon(), h))
  {
    hide Groups; hide Linked; hide Attached; hide Owned;
    SameForkPoint(t, h);
    ForkIsFinal(t, t.Owner()[h]);
  }

  lemma FinalizeKeeps(t: Tree, n: nat, retain: nat, t': Tree)
    requires Finalization.Finalized(t, n, retain, t')
    ensures KeepsUpTo(t.db, t'.db, t.indices.lastFinalized) && t'.indices.lastFinalized == n
  {
    hide Purging;
  }

  lemma UnwindKeeps(t: Tree, u: nat, t': Tree)
    requires WellFormed(t) && t.indices.lastFinalized <= u
    requires t' == t || Unwound(t, u, t')
    ensures WellFormed(t')
    ensures KeepsUpTo(t.db, t'.db, t.indices.lastFinalized) && t'.indices.lastFinalized == t.indices.lastFinalized
  {
    hide WellFormed; hide Groups;
    if t' != t {
      UnwoundWellFormed(t, u, t');
    }
  }
}
