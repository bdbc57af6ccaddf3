/** The contents of a blockchain tree and what makes them consistent. */
module Trees {
  import opened Blocks
  import opened Chains
  import opened Grouping
  import opened BlockIndexing
  import opened BlockBuffers

  /** The sidechains, the indices over them, the buffer, and the canonical chain in the database. */
  datatype Tree = Tree(nextId: nat, chains: map<nat, Chain>, indices: Indices, buffer: Buffer, db: seq<Block>)
  {
    ghost function Canon(): set<BlockHash> { Hashes(db) }

    ghost function Owner(): map<BlockHash, nat> { indices.blocksToChain }

    ghost predicate Connected(h: BlockHash) { h in Owner() || h in Canon() }

    /** Every block the tree holds, connected or not. */
    ghost function Known(): set<BlockHash> { Owner().Keys + Canon() + buffer.blocks.Keys }
  }

  ghost predicate DbOk(db: seq<Block>) {
    db != [] && Linked(db) && db[0].number == 0
  }

  ghost predicate ChainsOk(chains: map<nat, Chain>, nextId: nat) {
    forall id :: id in chains ==> id < nextId && chains[id] != [] && Linked(chains[id])
  }

  /** `owner` maps exactly the sidechain blocks, each to the chain that holds it. */
  ghost predicate Owned(chains: map<nat, Chain>, owner: map<BlockHash, nat>) {
    && (forall h :: h in owner ==> owner[h] in chains && h in Hashes(chains[owner[h]]))
    && (forall id, h :: id in chains && h in Hashes(chains[id]) ==> h in owner && owner[h] == id)
  }

  /** The sidechains are linked and every block is filed under the one that holds it. */
  ghost predicate Filed(t: Tree) {
    ChainsOk(t.chains, t.nextId) && Owned(t.chains, t.Owner())
  }

  ghost function Firsts(chains: map<nat, Chain>): set<BlockHash> {
    set id | id in chains && chains[id] != [] :: chains[id][0].Hash()
  }

  /** Every sidechain sits on the block just below it, in another sidechain or in the database. */
  ghost predicate Attached(chains: map<nat, Chain>, owner: map<BlockHash, nat>, canon: set<BlockHash>) {
    forall id :: id in chains && chains[id] != [] ==>
                   var first := chains[id][0];
                   && first.number == NumberOf(first.parentHash) + 1
                   && (first.parentHash in owner || first.parentHash in canon)
  }

  ghost predicate InDatabase(canonical: map<nat, BlockHash>, db: seq<Block>) {
    forall n :: n in canonical ==> n < |db| && canonical[n] == db[n].Hash()
  }

  /** The indices agree with the sidechains and the database they speed up. */
  ghost predicate Consistent(t: Tree) {
    && DbOk(t.db) && ChainsOk(t.chains, t.nextId) && Owned(t.chains, t.Owner())
    && Groups(t.indices.numberToHashes, t.Owner().Keys, NumberOf)
    && Groups(t.indices.forkToChild, Firsts(t.chains), ParentOf)
    && Attached(t.chains, t.Owner(), t.Canon())
    && t.Owner().Keys !! t.Canon()
    && InDatabase(t.indices.canonical, t.db)
    && t.buffer.Valid()
  }

  /** The canonical index covers the blocks from `n` to the tip. */
  ghost predicate CoversFrom(canonical: map<nat, BlockHash>, db: seq<Block>, n: nat) {
    forall k :: n <= k < |db| ==> k in canonical
  }

  /** No sidechain forks from the database below `n`. */
  ghost predicate ForksFrom(chains: map<nat, Chain>, canon: set<BlockHash>, n: nat) {
    forall id :: id in chains && chains[id] != [] && chains[id][0].parentHash in canon ==> n < chains[id][0].number
  }

  /** Buffered blocks are not connected, lie above `n`, and wait for a parent that is not
      connected either, except for those waiting for a parent in `open`. */
  ghost predicate Waiting(buffer: Buffer, owner: map<BlockHash, nat>, canon: set<BlockHash>, n: nat, open: set<BlockHash>) {
    forall h :: h in buffer.blocks ==>
                  && h !in owner && h !in canon && n < NumberOf(h)
                  && ((ParentOf(h) in owner || ParentOf(h) in canon) ==> ParentOf(h) in open)
  }

  /** The part of well-formedness that finalization establishes. */
  ghost predicate Settled(t: Tree, open: set<BlockHash>) {
    && CoversFrom(t.indices.canonical, t.db, t.indices.lastFinalized)
    && ForksFrom(t.chains, t.Canon(), t.indices.lastFinalized)
    && Waiting(t.buffer, t.Owner(), t.Canon(), t.indices.lastFinalized, open)
  }

  ghost predicate WellFormed(t: Tree) {
    Consistent(t) && Settled(t, {})
  }

  // ---------------------------------------------------------------- the database

  lemma InDb(db: seq<Block>, h: BlockHash)
    requires DbOk(db) && h in Hashes(db)
    ensures h.HashOf? && NumberOf(h) < |db| && db[NumberOf(h)].Hash() == h
  {
    InChain(db, h);
  }

  lemma DbSplit(db: seq<Block>, k: nat)
    requires DbOk(db) && 0 < k <= |db|
    ensures DbOk(db[..k]) && Linked(db[k..]) && db[k - 1].number == k - 1
    ensures Hashes(db) == Hashes(db[..k]) + Hashes(db[k..]) && Hashes(db[..k]) !! Hashes(db[k..])
    ensures k < |db| ==> db[k..][0].parentHash == db[k - 1].Hash() && db[k..][0].number == k
  {
    SplitHashes(db, k);
  }

  lemma BaseConnected(t: Tree, id: nat)
    requires Consistent(t) && id in t.chains
    ensures var first := t.chains[id][0];
            t.Connected(first.parentHash) && first.number == NumberOf(first.parentHash) + 1
  {
    hide Owned; hide Groups; hide InDatabase; hide Buffer.Valid; hide DbOk; hide Firsts; hide Linked;
  }

  lemma ChainIsOwned(t: Tree, id: nat, h: BlockHash)
    requires Consistent(t)
    ensures id in t.chains && h in Hashes(t.chains[id]) <==> h in t.Owner() && t.Owner()[h] == id
  {
    hide Attached; hide Groups; hide InDatabase; hide Buffer.Valid; hide DbOk; hide Firsts; hide Linked;
  }

  /** Every sidechain block sits on a connected block numbered just below it. */
  lemma ParentConnected(t: Tree, h: BlockHash)
    requires Consistent(t) && h in t.Owner()
    ensures h.HashOf? && t.Connected(h.block.parentHash) && NumberOf(h) == NumberOf(h.block.parentHash) + 1
  {
    hide Owned; hide Attached; hide Groups; hide InDatabase; hide Buffer.Valid; hide DbOk; hide Firsts; hide Linked;
    var id := t.Owner()[h];
    ChainIsOwned(t, id, h);
    ParentInChain(t.chains[id], h);
    ChainIsOwned(t, id, h.block.parentHash);
    BaseConnected(t, id);
  }

  // ---------------------------------------------------------------- adding a sidechain

  /** The tree after `chain` is indexed as a new sidechain. */
  ghost predicate ChainInserted(t: Tree, chain: Chain, t': Tree) {
    && chain != []
    && t'.nextId == t.nextId + 1 && t'.chains == t.chains[t.nextId := chain]
    && t'.db == t.db && t'.buffer == t.buffer
    && t'.indices.lastFinalized == t.indices.lastFinalized && t'.indices.canonical == t.indices.canonical
    && t'.Owner() == t.Owner() + (map h | h in Hashes(chain) :: t.nextId)
    && Groups(t'.indices.numberToHashes, t.Owner().Keys + Hashes(chain), NumberOf)
    && Groups(t'.indices.forkToChild, Firsts(t.chains) + {chain[0].Hash()}, ParentOf)
  }

  /** A linked chain of new blocks on a connected parent. */
  ghost predicate Fits(t: Tree, chain: Chain) {
    && chain != [] && Linked(chain)
    && Hashes(chain) !! t.Owner().Keys && Hashes(chain) !! t.Canon()
    && chain[0].number == NumberOf(chain[0].parentHash) + 1
    && t.Connected(chain[0].parentHash)
  }

  lemma FirstsWith(chains: map<nat, Chain>, id: nat, chain: Chain)
    requires id !in chains && chain != []
    ensures Firsts(chains[id := chain]) == Firsts(chains) + {chain[0].Hash()}
  {
    var after := chains[id := chain];
    forall h | h in Firsts(chains) + {chain[0].Hash()}
      ensures h in Firsts(after)
    {
      if h in Firsts(chains) {
        var j :| j in chains && chains[j] != [] && chains[j][0].Hash() == h;
        assert j in after && after[j] == chains[j];
      } else {
        assert id in after && after[id] == chain;
      }
    }
  }

  lemma OwnedWith(chains: map<nat, Chain>, owner: map<BlockHash, nat>, id: nat, chain: Chain)
    requires Owned(chains, owner) && id !in chains && Hashes(chain) !! owner.Keys
    ensures Owned(chains[id := chain], owner + (map h | h in Hashes(chain) :: id))
  {
  }

  lemma AttachedWith(t: Tree, chain: Chain, t': Tree)
    requires Attached(t.chains, t.Owner(), t.Canon() + Hashes(chain))
    requires Fits(t, chain) && ChainInserted(t, chain, t')
    ensures Attached(t'.chains, t'.Owner(), t'.Canon())
  {
    hide Groups; hide Linked; hide Hashes; hide Firsts;
  }

  lemma InsertedConsistent(t: Tree, chain: Chain, t': Tree)
    requires ChainsOk(t.chains, t.nextId) && Owned(t.chains, t.Owner())
    requires Attached(t.chains, t.Owner(), t.Canon() + Hashes(chain))
    requires Fits(t, chain) && ChainInserted(t, chain, t')
    ensures ChainsOk(t'.chains, t'.nextId) && Owned(t'.chains, t'.Owner())
    ensures Groups(t'.indices.numberToHashes, t'.Owner().Keys, NumberOf)
    ensures Groups(t'.indices.forkToChild, Firsts(t'.chains), ParentOf)
    ensures Attached(t'.chains, t'.Owner(), t'.Canon())
    ensures t'.Owner().Keys == t.Owner().Keys + Hashes(chain)
  {
    hide Groups; hide Linked; hide Attached; hide Hashes; hide Firsts; hide Owned;
    AttachedWith(t, chain, t');
    FirstsWith(t.chains, t.nextId, chain);
    OwnedWith(t.chains, t.Owner(), t.nextId, chain);
    assert t'.Owner().Keys == t.Owner().Keys + Hashes(chain);
  }
}
