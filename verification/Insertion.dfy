/** Attaching new blocks to the tree and reconnecting the buffered blocks above them. */
module Insertion {
  import opened Blocks
  import opened Common
  import opened Chains
  import opened Grouping
  import opened BlockIndexing
  import opened BlockBuffers
  import opened Trees
  import opened Finalization

  /** The answers of consensus and execution: on a block by itself, on its header against the
      parent beyond hash and number, and on executing it. */
  datatype Verdicts = Verdicts(block: Block -> bool, header: Block -> bool, execution: Block -> bool)

  predicate HeaderOk(v: Verdicts, b: Block, parent: Block) {
    parent.number + 1 == b.number && parent.Hash() == b.parentHash && v.header(b)
  }

  /** The header fits on its parent, whichever collection that is found in. */
  ghost predicate HeaderFits(v: Verdicts, b: Block) {
    b.number == NumberOf(b.parentHash) + 1 && v.header(b)
  }

  /** The block is accepted on top of its parent. */
  ghost predicate Sound(v: Verdicts, b: Block) {
    HeaderFits(v, b) && v.execution(b)
  }

  /** `h` is buffered and it and every buffered block between it and the root are accepted. */
  ghost predicate Attachable(buffered: set<BlockHash>, root: BlockHash, v: Verdicts, h: BlockHash)
    decreases h
  {
    && h.HashOf? && h in buffered && Sound(v, h.block)
    && (h.block.parentHash == root || Attachable(buffered, root, v, h.block.parentHash))
  }

  ghost function Attachables(buffered: set<BlockHash>, root: BlockHash, v: Verdicts): set<BlockHash> {
    set h | h in buffered && Attachable(buffered, root, v, h)
  }

  /** `h` goes back into the buffer: a block below it was not accepted, and it fits on its parent if
      that one is back in the buffer, too. */
  ghost predicate Stuck(buffered: set<BlockHash>, root: BlockHash, v: Verdicts, h: BlockHash)
    decreases h
  {
    && h.HashOf? && h in buffered && h.block.parentHash != root
    && Descends(buffered, {root}, h.block.parentHash) && !Attachable(buffered, root, v, h.block.parentHash)
    && (Stuck(buffered, root, v, h.block.parentHash) ==> HeaderFits(v, h.block))
  }

  /** What is buffered after reconnecting: what does not descend from the root, and what is stuck. */
  ghost function StillBuffered(buffered: set<BlockHash>, root: BlockHash, v: Verdicts): set<BlockHash> {
    set h | h in buffered && (!Descends(buffered, {root}, h) || Stuck(buffered, root, v, h))
  }

  lemma {:induction false} AttachableDescends(buffered: set<BlockHash>, root: BlockHash, v: Verdicts, h: BlockHash)
    requires Attachable(buffered, root, v, h)
    ensures Descends(buffered, {root}, h)
    decreases h
  {
    if h.block.parentHash != root {
      AttachableDescends(buffered, root, v, h.block.parentHash);
    }
  }

  lemma {:induction false} NoneDescends(buffered: set<BlockHash>, root: BlockHash, h: BlockHash)
    requires NoneLeft(buffered, root)
    ensures !Descends(buffered, {root}, h)
    decreases h
  {
    if h.HashOf? && h in buffered {
      assert ParentOf(h) != root;
      NoneDescends(buffered, root, h.block.parentHash);
    }
  }

  lemma NoneAttachable(buffered: set<BlockHash>, root: BlockHash, v: Verdicts)
    requires NoneLeft(buffered, root)
    ensures Attachables(buffered, root, v) == {}
  {
    forall h | h in buffered
      ensures !Attachable(buffered, root, v, h)
    {
      if Attachable(buffered, root, v, h) {
        AttachableDescends(buffered, root, v, h);
        NoneDescends(buffered, root, h);
      }
    }
  }

  // ---------------------------------------------------------------- attaching one block

  /** A block that the tree does not hold, above the last finalized block. */
  ghost predicate Fresh(t: Tree, b: Block) {
    b.Hash() !in t.Known() && t.indices.lastFinalized < b.number
  }

  /** The tree with `b` appended to a sidechain. */
  ghost function Appended(t: Tree, id: nat, b: Block): Tree
    requires id in t.chains
  {
    t.(chains := t.chains[id := t.chains[id] + [b]],
       indices := t.indices.(numberToHashes := Add(t.indices.numberToHashes, b.number, b.Hash()),
                             blocksToChain := t.Owner()[b.Hash() := id]))
  }

  lemma AppendLinked(c: Chain, b: Block)
    requires c != [] && Linked(c) && b.parentHash == Tip(c).Hash() && b.number == Tip(c).number + 1
    ensures Linked(c + [b]) && Hashes(c + [b]) == Hashes(c) + {b.Hash()} && (c + [b])[0] == c[0]
  {
    assert Linked([b]);
    JoinLinked(c, [b]);
  }

  lemma AppendedFirsts(chains: map<nat, Chain>, id: nat, c: Chain)
    requires id in chains && chains[id] != [] && c != [] && c[0] == chains[id][0]
    ensures Firsts(chains[id := c]) == Firsts(chains)
  {
    var after := chains[id := c];
    forall h | h in Firsts(chains) ensures h in Firsts(after) {
      var j :| j in chains && chains[j] != [] && chains[j][0].Hash() == h;
      assert j in after && after[j][0] == chains[j][0];
    }
    forall h | h in Firsts(after) ensures h in Firsts(chains) {
      var j :| j in after && after[j] != [] && after[j][0].Hash() == h;
      assert j in chains && chains[j][0] == after[j][0];
    }
  }

  lemma AppendedOwned(chains: map<nat, Chain>, owner: map<BlockHash, nat>, id: nat, b: Block)
    requires Owned(chains, owner) && id in chains && b.Hash() !in owner
    requires Hashes(chains[id] + [b]) == Hashes(chains[id]) + {b.Hash()}
    ensures Owned(chains[id := chains[id] + [b]], owner[b.Hash() := id])
  {
  }

  lemma AppendedConsistent(t: Tree, id: nat, b: Block)
    requires Consistent(t) && id in t.chains && b.Hash() !in t.Owner() && b.Hash() !in t.Canon()
    requires b.parentHash == Tip(t.chains[id]).Hash() && b.number == Tip(t.chains[id]).number + 1
    ensures Consistent(Appended(t, id, b))
    ensures Appended(t, id, b).Owner().Keys == t.Owner().Keys + {b.Hash()}
  {
    hide Groups; hide InDatabase; hide Buffer.Valid; hide Linked; hide Firsts; hide Owned;
    var c := t.chains[id];
    AppendLinked(c, b);
    AppendedFirsts(t.chains, id, c + [b]);
    AppendedOwned(t.chains, t.Owner(), id, b);
    AddKeepsGroups(t.indices.numberToHashes, t.Owner().Keys, NumberOf, b.Hash());
    assert t.Owner()[b.Hash() := id].Keys == t.Owner().Keys + {b.Hash()};
  }

  /** Buffered blocks now wait only for what they waited for, or for the new block. */
  lemma WaitingForNew(t: Tree, t': Tree, b: Block)
    requires Waiting(t.buffer, t.Owner(), t.Canon(), t.indices.lastFinalized, {})
    requires b.Hash() !in t.buffer.blocks
    requires t'.buffer == t.buffer && t'.db == t.db && t'.Owner().Keys == t.Owner().Keys + {b.Hash()}
    ensures Waiting(t'.buffer, t'.Owner(), t'.Canon(), t.indices.lastFinalized, {b.Hash()})
  {
    assert forall h :: h in t'.Owner() <==> h in t.Owner() || h == b.Hash();
  }

  lemma AppendedSettled(t: Tree, id: nat, b: Block)
    requires WellFormed(t) && id in t.chains && Fresh(t, b)
    requires b.parentHash == Tip(t.chains[id]).Hash() && b.number == Tip(t.chains[id]).number + 1
    ensures Consistent(Appended(t, id, b)) && Settled(Appended(t, id, b), {b.Hash()})
  {
    hide Groups; hide InDatabase; hide Buffer.Valid; hide Linked; hide Firsts; hide Owned; hide Attached; hide Waiting;
    AppendedConsistent(t, id, b);
    WaitingForNew(t, Appended(t, id, b), b);
  }

  /** A new sidechain of one block. */
  lemma ForkedSettled(t: Tree, b: Block, t': Tree)
    requires WellFormed(t) && Fresh(t, b) && t.Connected(b.parentHash) && b.number == NumberOf(b.parentHash) + 1
    requires ChainInserted(t, [b], t')
    ensures Consistent(t') && Settled(t', {b.Hash()})
    ensures t'.Owner().Keys == t.Owner().Keys + {b.Hash()}
  {
    hide Groups; hide InDatabase; hide Buffer.Valid; hide Firsts; hide Owned; hide Waiting; hide DbOk;
    assert Hashes([b]) == {b.Hash()};
    assert Fits(t, [b]);
    AttachedMore(t.chains, t.Owner(), t.Canon(), Hashes([b]));
    InsertedConsistent(t, [b], t');
    WaitingForNew(t, t', b);
  }

  lemma AttachedMore(chains: map<nat, Chain>, owner: map<BlockHash, nat>, canon: set<BlockHash>, more: set<BlockHash>)
    requires Attached(chains, owner, canon)
    ensures Attached(chains, owner, canon + more)
  {
  }

  // ---------------------------------------------------------------- reconnecting buffered blocks

  /** The canonical chain is untouched and every sidechain block stays in its sidechain. */
  ghost predicate Grown(t: Tree, t': Tree) {
    && t'.db == t.db && t'.indices.canonical == t.indices.canonical && t'.indices.lastFinalized == t.indices.lastFinalized
    && t.nextId <= t'.nextId && t'.buffer.limit == t.buffer.limit
    && forall h :: h in t.Owner() ==> h in t'.Owner() && t'.Owner()[h] == t.Owner()[h]
  }

  /** What is buffered after inserting a new block. */
  ghost function BufferAfter(t: Tree, v: Verdicts, b: Block): set<BlockHash> {
    var keys, gone := t.buffer.blocks.Keys, t.buffer.Evicted(b.Hash());
    if t.Connected(b.parentHash) then (if Sound(v, b) then StillBuffered(keys, b.Hash(), v) else keys)
    else if b.parentHash in keys && !HeaderFits(v, b) then keys
    else keys + {b.Hash()} - (if gone.Some? then {gone.value} else {})
  }

  /** What inserting a new block does: if its parent is connected and it is accepted, it and
      exactly the buffered blocks that can follow it are attached; otherwise no block is. */
  ghost predicate Inserted(t: Tree, v: Verdicts, b: Block, t': Tree) {
    && WellFormed(t') && Grown(t, t')
    && t'.Owner().Keys == t.Owner().Keys +
       (if t.Connected(b.parentHash) && Sound(v, b)
        then {b.Hash()} + Attachables(t.buffer.blocks.Keys, b.Hash(), v) else {})
    && t'.buffer.blocks.Keys == BufferAfter(t, v, b)
    && |t'.buffer.blocks| <= |t.buffer.blocks| + 1
  }

  /** What reconnecting does: exactly the buffered blocks that can follow `root` are attached. */
  ghost predicate Reconnected(t: Tree, root: BlockHash, v: Verdicts, t': Tree) {
    && WellFormed(t') && Grown(t, t')
    && t'.Owner().Keys == t.Owner().Keys + Attachables(t.buffer.blocks.Keys, root, v)
    && t'.buffer.blocks.Keys == StillBuffered(t.buffer.blocks.Keys, root, v)
    && |t'.buffer.blocks| <= |t.buffer.blocks|
  }

  /** The tree before reconnecting: only children of the connected `root` may be attached. */
  ghost predicate Opened(t: Tree, root: BlockHash) {
    Consistent(t) && Settled(t, {root}) && t.Connected(root)
  }

  /** The blocks taken from the buffer: the descendants of `root`, each once, parents first. */
  ghost predicate Listed(t0: Tree, root: BlockHash, list: seq<Block>) {
    && (forall h :: h in Hashes(list) <==> Descends(t0.buffer.blocks.Keys, {root}, h))
    && NoDuplicates(list) && ParentsFirst(list)
  }

  /** The blocks before `i` have been tried and exactly the attachable ones are attached; those
      from `i` on are nowhere in the tree and nothing buffered waits for them. */
  ghost predicate Connecting(t0: Tree, root: BlockHash, v: Verdicts, list: seq<Block>, i: nat, t: Tree) {
    && i <= |list| && WellFormed(t) && Grown(t0, t)
    && (forall h :: h in t.Owner() <==> h in t0.Owner() || Tried(t0, root, v, list, i, h))
    && (forall h :: h in t.buffer.blocks <==> Buffered(t0, root, v, list, i, h))
    && |t.buffer.blocks| + |list| <= |t0.buffer.blocks| + i
    && (forall j :: i <= j < |list| ==> list[j].Hash() !in t.buffer.blocks && NoneLeft(t.buffer.blocks.Keys, list[j].Hash()))
  }

  ghost predicate Buffered(t0: Tree, root: BlockHash, v: Verdicts, list: seq<Block>, i: nat, h: BlockHash)
    requires i <= |list|
  {
    || (h in t0.buffer.blocks && !Descends(t0.buffer.blocks.Keys, {root}, h))
    || (h in Hashes(list[..i]) && Stuck(t0.buffer.blocks.Keys, root, v, h))
  }

  ghost predicate Tried(t0: Tree, root: BlockHash, v: Verdicts, list: seq<Block>, i: nat, h: BlockHash)
    requires i <= |list|
  {
    h in Hashes(list[..i]) && Attachable(t0.buffer.blocks.Keys, root, v, h)
  }

  lemma ConnectingStarts(t0: Tree, root: BlockHash, v: Verdicts, list: seq<Block>, buffer: Buffer)
    requires Opened(t0, root) && Listed(t0, root, list)
    requires buffer.Valid() && buffer.limit == t0.buffer.limit && buffer.blocks == t0.buffer.blocks - Hashes(list)
    ensures Connecting(t0, root, v, list, 0, t0.(buffer := buffer))
  {
    hide WellFormed; hide Opened; hide Buffer.Valid; hide Attachable; hide Hashes;
    hide NoDuplicates; hide ParentsFirst; hide Descends; hide NoneLeft; hide Waiting;
    NoHashes(list);
    OpenedWithout(t0, root, list, buffer);
    NothingWaits(t0, root, list, buffer);
    FewerBy(t0.buffer.blocks, list, buffer.blocks);
  }

  lemma NoHashes(list: seq<Block>)
    ensures Hashes(list[..0]) == {}
  {
  }

  lemma FewerBy(before: map<BlockHash, Block>, list: seq<Block>, after: map<BlockHash, Block>)
    requires NoDuplicates(list) && Hashes(list) <= before.Keys && after == before - Hashes(list)
    ensures |after| + |list| == |before|
  {
    hide NoDuplicates; hide Hashes;
    ListCount(list);
    assert after.Keys == before.Keys - Hashes(list);
    assert |before.Keys - Hashes(list)| == |before.Keys| - |Hashes(list)|;
  }

  lemma OpenedWithout(t0: Tree, root: BlockHash, list: seq<Block>, buffer: Buffer)
    requires Opened(t0, root) && Listed(t0, root, list)
    requires buffer.Valid() && buffer.blocks == t0.buffer.blocks - Hashes(list)
    ensures WellFormed(t0.(buffer := buffer))
  {
    hide Groups; hide InDatabase; hide Linked; hide Firsts; hide Owned; hide Attached; hide DbOk; hide Buffer.Valid;
    hide Listed; hide Descends; hide Waiting; hide CoversFrom; hide ForksFrom; hide ChainsOk; hide Hashes; hide NoneLeft;
    NothingWaits(t0, root, list, buffer);
  }

  /** With the descendants of `root` out, nothing buffered waits for `root` or for one of them. */
  lemma NothingWaits(t0: Tree, root: BlockHash, list: seq<Block>, buffer: Buffer)
    requires Opened(t0, root) && Listed(t0, root, list)
    requires buffer.blocks == t0.buffer.blocks - Hashes(list)
    ensures Waiting(buffer, t0.Owner(), t0.Canon(), t0.indices.lastFinalized, {})
    ensures forall j :: 0 <= j < |list| ==> list[j].Hash() !in buffer.blocks && NoneLeft(buffer.blocks.Keys, list[j].Hash())
    ensures Hashes(list) <= t0.buffer.blocks.Keys
  {
    hide Groups; hide InDatabase; hide Linked; hide Firsts; hide Owned; hide Attached; hide DbOk;
    hide NoDuplicates; hide ParentsFirst;
    var keys := t0.buffer.blocks.Keys;
    forall h | h in buffer.blocks
      ensures ParentOf(h) != root && ParentOf(h) !in Hashes(list)
    {
      assert t0.buffer.blocks[h].Hash() == h;
      assert Descends(keys, {root}, h) <==> ParentOf(h) == root || Descends(keys, {root}, ParentOf(h));
    }
    forall j | 0 <= j < |list|
      ensures list[j].Hash() !in buffer.blocks && NoneLeft(buffer.blocks.Keys, list[j].Hash())
    {
      assert list[j].Hash() in Hashes(list);
    }
  }

  lemma {:induction false} ListCount(list: seq<Block>)
    requires NoDuplicates(list)
    ensures |Hashes(list)| == |list|
  {
    if list == [] {
      assert Hashes(list) == {};
    } else {
      var front, last := list[..|list| - 1], list[|list| - 1];
      assert list == front + [last];
      ListCount(front);
      assert last !in front && last.Hash() !in Hashes(front);
      assert Hashes(list) == Hashes(front) + {last.Hash()};
    }
  }

  /** The next listed block is new to the tree. */
  lemma NextIsFresh(t0: Tree, root: BlockHash, v: Verdicts, list: seq<Block>, i: nat, t: Tree)
    requires Opened(t0, root) && Listed(t0, root, list) && Connecting(t0, root, v, list, i, t) && i < |list|
    ensures Fresh(t, list[i])
    ensures Descends(t0.buffer.blocks.Keys, {root}, list[i].Hash())
    ensures |t.buffer.blocks| < |t0.buffer.blocks|
  {
    hide Groups; hide InDatabase; hide Linked; hide Firsts; hide Owned; hide Attached; hide DbOk; hide Buffer.Valid;
    var h := list[i].Hash();
    assert h in Hashes(list);
    assert h !in Hashes(list[..i]);
  }

  lemma RootConnected(t0: Tree, root: BlockHash, p: BlockHash)
    requires Opened(t0, root)
    ensures t0.Connected(root) && (p in t0.buffer.blocks ==> !t0.Connected(p))
  {
    hide Groups; hide InDatabase; hide Linked; hide Firsts; hide Owned; hide Attached; hide DbOk; hide Buffer.Valid;
  }

  /** The next block's parent is connected exactly when it is the root or attachable. */
  lemma ParentOfNext(t0: Tree, root: BlockHash, v: Verdicts, list: seq<Block>, i: nat, t: Tree)
    requires Opened(t0, root) && Listed(t0, root, list) && Connecting(t0, root, v, list, i, t) && i < |list|
    ensures var p := list[i].parentHash;
            t.Connected(p) <==> p == root || Attachable(t0.buffer.blocks.Keys, root, v, p)
  {
    hide WellFormed; hide Opened; hide Fresh; hide NoDuplicates;
    var keys, h, p := t0.buffer.blocks.Keys, list[i].Hash(), list[i].parentHash;
    NextIsFresh(t0, root, v, list, i, t);
    RootConnected(t0, root, p);
    if p != root {
      assert Descends(keys, {root}, p);
      var j :| 0 <= j < |list| && list[j].Hash() == p;
      assert j < i;
      assert list[j] in list[..i];
      assert p in t0.buffer.blocks;
    }
  }

  lemma ConnectingSteps(t0: Tree, root: BlockHash, v: Verdicts, list: seq<Block>, i: nat, t: Tree, t': Tree)
    requires Opened(t0, root) && Listed(t0, root, list) && Connecting(t0, root, v, list, i, t) && i < |list|
    requires Inserted(t, v, list[i], t')
    ensures Connecting(t0, root, v, list, i + 1, t')
  {
    hide Groups; hide InDatabase; hide Linked; hide Firsts; hide Owned; hide Attached; hide DbOk; hide Buffer.Valid;
    hide WellFormed; hide Settled; hide Consistent;
    hide NoDuplicates; hide ParentsFirst; hide Descends; hide NoneLeft; hide Attachables; hide Tried; hide Grown; hide Hashes;
    hide Sound; hide Opened; hide Tree.Connected; hide Fresh;
    NextIsFresh(t0, root, v, list, i, t);
    ConnectedOwners(t0, root, v, list, i, t, t');
    NobodyWaits(t0, root, v, list, i, t, t');
    GrownOn(t0, t, t');
    BufferedNext(t0, root, v, list, i, t, t');
  }

  /** Taking out the descendants of a block that nothing waits for leaves the buffer as it is. */
  lemma NoneLeftBuffered(buffered: set<BlockHash>, root: BlockHash, v: Verdicts)
    requires NoneLeft(buffered, root)
    ensures StillBuffered(buffered, root, v) == buffered
  {
    forall h | h in buffered
      ensures !Descends(buffered, {root}, h)
    {
      NoneDescends(buffered, root, h);
    }
  }

  /** While the listed blocks are tried there is room for each of them. */
  lemma RoomForNext(before: Buffer, buffer: Buffer, h: BlockHash)
    requires before.Valid() && buffer.Valid() && buffer.limit == before.limit && |buffer.blocks| < |before.blocks|
    ensures buffer.Evicted(h).None?
  {
    hide Buffer.Valid;
    SizeWithinLimit(before);
    SizeWithinLimit(buffer);
  }

  /** The parent of the next block is back in the buffer exactly when it is stuck. */
  lemma ParentBuffered(t0: Tree, root: BlockHash, v: Verdicts, list: seq<Block>, i: nat, t: Tree)
    requires Opened(t0, root) && Listed(t0, root, list) && Connecting(t0, root, v, list, i, t) && i < |list|
    requires list[i].parentHash != root
    ensures var keys, p := t0.buffer.blocks.Keys, list[i].parentHash;
            Descends(keys, {root}, p) && (p in t.buffer.blocks <==> Stuck(keys, root, v, p))
  {
    hide WellFormed; hide Opened; hide Fresh; hide NoDuplicates; hide Stuck; hide Attachable; hide Tree.Connected; hide Grown;
    var keys, p := t0.buffer.blocks.Keys, list[i].parentHash;
    NextIsFresh(t0, root, v, list, i, t);
    assert Descends(keys, {root}, p);
    var j :| 0 <= j < |list| && list[j].Hash() == p;
    assert j < i;
    assert list[j] in list[..i];
  }

  lemma BufferAfterNext(t0: Tree, root: BlockHash, v: Verdicts, list: seq<Block>, i: nat, t: Tree)
    requires Opened(t0, root) && Listed(t0, root, list) && Connecting(t0, root, v, list, i, t) && i < |list|
    ensures var keys, h := t0.buffer.blocks.Keys, list[i].Hash();
            BufferAfter(t, v, list[i]) == t.buffer.blocks.Keys + (if Stuck(keys, root, v, h) then {h} else {})
  {
    hide WellFormed; hide Listed; hide NoDuplicates; hide ParentsFirst; hide Tree.Connected; hide Grown; hide Hashes;
    hide Attachable; hide StillBuffered; hide Sound; hide Fresh; hide NoneLeft; hide Tried; hide Buffered; hide HeaderFits;
    var keys, b, p := t0.buffer.blocks.Keys, list[i], list[i].parentHash;
    NextIsFresh(t0, root, v, list, i, t);
    ParentOfNext(t0, root, v, list, i, t);
    NoneLeftBuffered(t.buffer.blocks.Keys, b.Hash(), v);
    BuffersAreValid(t0, root, t);
    RoomForNext(t0.buffer, t.buffer, b.Hash());
    if p != root {
      ParentBuffered(t0, root, v, list, i, t);
    }
  }

  lemma BuffersAreValid(t0: Tree, root: BlockHash, t: Tree)
    requires Opened(t0, root) && WellFormed(t) && Grown(t0, t)
    ensures t0.buffer.Valid() && t.buffer.Valid() && t.buffer.limit == t0.buffer.limit
  {
    hide Groups; hide InDatabase; hide Linked; hide Firsts; hide Owned; hide Attached; hide DbOk; hide Buffer.Valid;
  }

  lemma BufferedNext(t0: Tree, root: BlockHash, v: Verdicts, list: seq<Block>, i: nat, t: Tree, t': Tree)
    requires Opened(t0, root) && Listed(t0, root, list) && Connecting(t0, root, v, list, i, t) && i < |list|
    requires Inserted(t, v, list[i], t')
    ensures forall h :: h in t'.buffer.blocks <==> Buffered(t0, root, v, list, i + 1, h)
  {
    hide WellFormed; hide Opened; hide Listed; hide Tree.Connected; hide Grown; hide Hashes; hide BufferAfter;
    hide Attachable; hide Attachables; hide Sound; hide Stuck; hide Descends; hide NoneLeft; hide Tried;
    BufferAfterNext(t0, root, v, list, i, t);
    HashesOfPrefix(list, i);
    forall h
      ensures h in t'.buffer.blocks <==> Buffered(t0, root, v, list, i + 1, h)
    {
      assert h in t'.buffer.blocks.Keys <==> h in t'.buffer.blocks;
      assert h in t.buffer.blocks <==> Buffered(t0, root, v, list, i, h);
    }
  }

  lemma GrownOn(a: Tree, b: Tree, c: Tree)
    requires Grown(a, b) && Grown(b, c)
    ensures Grown(a, c)
  {
  }

  lemma ConnectedOwners(t0: Tree, root: BlockHash, v: Verdicts, list: seq<Block>, i: nat, t: Tree, t': Tree)
    requires Opened(t0, root) && Listed(t0, root, list) && Connecting(t0, root, v, list, i, t) && i < |list|
    requires Inserted(t, v, list[i], t')
    ensures forall h :: h in t'.Owner() <==> h in t0.Owner() || Tried(t0, root, v, list, i + 1, h)
  {
    hide WellFormed; hide Settled; hide Consistent; hide NoDuplicates; hide ParentsFirst; hide Descends; hide Attachable;
    hide Sound; hide Tree.Connected; hide Listed; hide Grown;
    var b, keys := list[i], t0.buffer.blocks.Keys;
    AttachesNext(t0, root, v, list, i, t);
    NoneAttachable(t.buffer.blocks.Keys, b.Hash(), v);
    HashesOfPrefix(list, i);
    forall h
      ensures h in t'.Owner() <==> h in t.Owner() || (h == b.Hash() && Attachable(keys, root, v, b.Hash()))
    {
      assert h in t'.Owner().Keys <==> h in t'.Owner();
    }
  }

  lemma AttachesNext(t0: Tree, root: BlockHash, v: Verdicts, list: seq<Block>, i: nat, t: Tree)
    requires Opened(t0, root) && Listed(t0, root, list) && Connecting(t0, root, v, list, i, t) && i < |list|
    ensures t.Connected(list[i].parentHash) && Sound(v, list[i])
            <==> Attachable(t0.buffer.blocks.Keys, root, v, list[i].Hash())
  {
    hide WellFormed; hide Settled; hide Consistent; hide NoDuplicates; hide ParentsFirst; hide Connecting; hide Listed;
    NextIsFresh(t0, root, v, list, i, t);
    ParentOfNext(t0, root, v, list, i, t);
  }

  lemma NobodyWaits(t0: Tree, root: BlockHash, v: Verdicts, list: seq<Block>, i: nat, t: Tree, t': Tree)
    requires Listed(t0, root, list) && Connecting(t0, root, v, list, i, t) && i < |list|
    requires Inserted(t, v, list[i], t')
    ensures forall j :: i + 1 <= j < |list| ==>
                          list[j].Hash() !in t'.buffer.blocks && NoneLeft(t'.buffer.blocks.Keys, list[j].Hash())
  {
    hide WellFormed; hide Settled; hide Consistent;
    forall j | i + 1 <= j < |list|
      ensures list[j].Hash() !in t'.buffer.blocks && NoneLeft(t'.buffer.blocks.Keys, list[j].Hash())
    {
      assert list[j] != list[i] && list[i].parentHash != list[j].Hash();
    }
  }

  lemma ConnectingEnds(t0: Tree, root: BlockHash, v: Verdicts, list: seq<Block>, t: Tree)
    requires Listed(t0, root, list) && Connecting(t0, root, v, list, |list|, t)
    ensures Reconnected(t0, root, v, t)
  {
    hide Groups; hide InDatabase; hide Linked; hide Firsts; hide Owned; hide Attached; hide DbOk; hide Buffer.Valid;
    hide WellFormed; hide Settled; hide Consistent;
    assert list[..|list|] == list;
    forall h
      ensures Tried(t0, root, v, list, |list|, h) <==> h in Attachables(t0.buffer.blocks.Keys, root, v)
    {
      if Attachable(t0.buffer.blocks.Keys, root, v, h) {
        AttachableDescends(t0.buffer.blocks.Keys, root, v, h);
      }
    }
  }

  lemma AttachedThenReconnected(t: Tree, v: Verdicts, b: Block, t1: Tree, t': Tree)
    requires t.Connected(b.parentHash) && Sound(v, b)
    requires JustAttached(t, b, t1)
    requires Reconnected(t1, b.Hash(), v, t')
    ensures Inserted(t, v, b, t')
  {
    hide WellFormed; hide Attachable; hide Sound; hide Opened;
  }

  lemma Unchanged(t: Tree, v: Verdicts, b: Block)
    requires WellFormed(t)
    requires if t.Connected(b.parentHash) then !Sound(v, b) else b.parentHash in t.buffer.blocks && !HeaderFits(v, b)
    ensures Inserted(t, v, b, t)
  {
    hide WellFormed; hide Sound;
    NothingAttached(t, v, b, t);
  }

  lemma AtMostOneMore(t: Tree, v: Verdicts, b: Block)
    requires !t.Connected(b.parentHash)
    ensures BufferAfter(t, v, b) <= t.buffer.blocks.Keys + {b.Hash()}
  {
    hide HeaderFits; hide Buffer.Evicted; hide Tree.Connected;
  }

  /** Buffering a block whose parent is not connected. */
  lemma Buffers(t: Tree, v: Verdicts, b: Block, buffer: Buffer)
    requires WellFormed(t) && Fresh(t, b) && !t.Connected(b.parentHash)
    requires buffer.Valid() && buffer.limit == t.buffer.limit
    requires buffer.blocks.Keys == BufferAfter(t, v, b)
    ensures Inserted(t, v, b, t.(buffer := buffer))
  {
    hide WellFormed; hide Attachables; hide Sound; hide Buffer.Valid; hide Tree.Connected; hide Fresh; hide BufferAfter;
    AtMostOneMore(t, v, b);
    BuffersWellFormed(t, b, buffer);
    OneMore(t.buffer.blocks, buffer.blocks, b.Hash());
    var t' := t.(buffer := buffer);
    assert Grown(t, t');
    NothingAttached(t, v, b, t');
  }

  lemma NothingAttached(t: Tree, v: Verdicts, b: Block, t': Tree)
    requires WellFormed(t') && Grown(t, t') && t'.Owner() == t.Owner()
    requires !(t.Connected(b.parentHash) && Sound(v, b))
    requires t'.buffer.blocks.Keys == BufferAfter(t, v, b) && |t'.buffer.blocks| <= |t.buffer.blocks| + 1
    ensures Inserted(t, v, b, t')
  {
    hide WellFormed; hide Attachables; hide Sound; hide BufferAfter; hide Tree.Connected; hide Grown;
  }

  lemma OneMore(before: map<BlockHash, Block>, after: map<BlockHash, Block>, h: BlockHash)
    requires after.Keys <= before.Keys + {h}
    ensures |after| <= |before| + 1
  {
    SubsetCount(after.Keys, before.Keys + {h});
    assert |before.Keys + {h}| <= |before.Keys| + 1;
  }

  lemma BuffersWellFormed(t: Tree, b: Block, buffer: Buffer)
    requires WellFormed(t) && Fresh(t, b) && !t.Connected(b.parentHash)
    requires buffer.Valid() && buffer.blocks.Keys <= t.buffer.blocks.Keys + {b.Hash()}
    ensures WellFormed(t.(buffer := buffer))
  {
    hide Groups; hide InDatabase; hide Linked; hide Firsts; hide Owned; hide Attached; hide DbOk; hide Buffer.Valid;
    hide Waiting; hide CoversFrom; hide ForksFrom; hide ChainsOk; hide Hashes;
    BuffersWaiting(t, b, buffer);
  }

  lemma BuffersWaiting(t: Tree, b: Block, buffer: Buffer)
    requires Settled(t, {}) && Fresh(t, b) && !t.Connected(b.parentHash)
    requires buffer.blocks.Keys <= t.buffer.blocks.Keys + {b.Hash()}
    ensures Waiting(buffer, t.Owner(), t.Canon(), t.indices.lastFinalized, {})
  {
    hide CoversFrom; hide ForksFrom;
    forall h | h in buffer.blocks
      ensures h in t.buffer.blocks || h == b.Hash()
    {
      assert h in buffer.blocks.Keys;
    }
  }

  /** A sidechain's canonical fork is in the canonical index, for any of its blocks. */
  lemma ForkIndexed(t: Tree, h: BlockHash)
    requires WellFormed(t) && h in t.Owner()
    ensures var fork := ForkPoint(t.Canon(), h);
            && NumberOf(fork) in t.indices.canonical && t.indices.canonical[NumberOf(fork)] == fork
            && t.Owner()[h] in t.chains && t.chains[t.Owner()[h]] != []
            && fork == ForkPoint(t.Canon(), Tip(t.chains[t.Owner()[h]]).Hash())
  {
    hide Groups; hide Linked; hide Firsts; hide Owned; hide Attached; hide Buffer.Valid; hide Waiting; hide DbOk;
    SameForkPoint(t, h);
    var id := t.Owner()[h];
    ForkIsFinal(t, id);
    InDb(t.db, ForkPoint(t.Canon(), h));
    assert Tip(t.chains[id]).Hash() in Hashes(t.chains[id]);
    ChainIsOwned(t, id, Tip(t.chains[id]).Hash());
    SameForkPoint(t, Tip(t.chains[id]).Hash());
  }

  function BlockAt(c: Chain, n: nat): Option<Block> {
    if c != [] && c[0].number <= n && n - c[0].number < |c| then Some(c[n - c[0].number]) else None
  }

  /** Looking the parent up by number accepts exactly the children of a block of the chain. */
  lemma ParentByNumber(v: Verdicts, c: Chain, b: Block)
    requires c != [] && Linked(c) && b.parentHash in Hashes(c)
    ensures var parent := if b.number == 0 then None else BlockAt(c, b.number - 1);
            Sound(v, b) <==> parent.Some? && HeaderOk(v, b, parent.value) && v.execution(b)
  {
    InChain(c, b.parentHash);
  }

  /** What a new block counts as: it extends the canonical tip when it sits on it, or on the
      end of a sidechain that leads down to it. */
  ghost predicate ExtendsTip(t: Tree, b: Block) {
    && ForkPoint(t.Canon(), b.parentHash) == TipOf(t.indices.canonical).hash
    && (b.parentHash in t.Owner() ==>
          && t.Owner()[b.parentHash] in t.chains && t.chains[t.Owner()[b.parentHash]] != []
          && Tip(t.chains[t.Owner()[b.parentHash]]).Hash() == b.parentHash)
  }

  /** `b` is attached and nothing else has changed; its buffered children may follow. */
  ghost predicate JustAttached(t: Tree, b: Block, t': Tree) {
    && Opened(t', b.Hash()) && Grown(t, t') && t'.buffer == t.buffer
    && t'.Owner().Keys == t.Owner().Keys + {b.Hash()}
  }

  lemma ForkedOpens(t: Tree, b: Block, t': Tree)
    requires WellFormed(t) && Fresh(t, b) && t.Connected(b.parentHash) && b.number == NumberOf(b.parentHash) + 1
    requires ChainInserted(t, [b], t')
    ensures JustAttached(t, b, t')
  {
    hide WellFormed; hide Groups; hide Consistent; hide Settled;
    ForkedSettled(t, b, t');
    assert b.Hash() !in t.Owner();
    assert b.Hash() in t'.Owner().Keys;
  }

  lemma AppendOpens(t: Tree, id: nat, b: Block)
    requires WellFormed(t) && id in t.chains && t.chains[id] != [] && Fresh(t, b)
    requires b.parentHash == Tip(t.chains[id]).Hash() && b.number == Tip(t.chains[id]).number + 1
    ensures JustAttached(t, b, Appended(t, id, b))
  {
    hide WellFormed; hide Groups; hide Consistent; hide Settled;
    AppendedSettled(t, id, b);
    assert b.Hash() !in t.Owner();
    assert b.Hash() in Appended(t, id, b).Owner().Keys;
  }

  lemma SoundOnParent(v: Verdicts, b: Block)
    requires b.parentHash.HashOf?
    ensures Sound(v, b) <==> HeaderOk(v, b, b.parentHash.block) && v.execution(b)
  {
  }
}
