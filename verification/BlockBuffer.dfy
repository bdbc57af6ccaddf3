/** The recency order of a bounded cache, least recently used first. */
module Recency {
  import opened Blocks

  function Without(order: seq<BlockHash>, h: BlockHash): seq<BlockHash> {
    if order == [] then []
    else Without(order[..|order| - 1], h) + (if order[|order| - 1] == h then [] else [order[|order| - 1]])
  }

  /** The members of `keep`, in the order they have in `order`. */
  function Restrict(order: seq<BlockHash>, keep: set<BlockHash>): seq<BlockHash> {
    if order == [] then []
    else Restrict(order[..|order| - 1], keep) + (if order[|order| - 1] in keep then [order[|order| - 1]] else [])
  }

  /** A lookup promotes; a new entry first pushes out the oldest one when the cache is full. */
  function InsertAndGetEvicted(order: seq<BlockHash>, limit: nat, h: BlockHash): (seq<BlockHash>, Option<BlockHash>) {
    if h in order then (Without(order, h) + [h], None)
    else if limit <= |order| && order != [] then (order[1..] + [h], Some(order[0]))
    else (order + [h], None)
  }

  lemma {:induction false} RestrictMembers(order: seq<BlockHash>, keep: set<BlockHash>)
    ensures forall x :: x in Restrict(order, keep) <==> x in order && x in keep
    ensures NoDuplicates(order) ==> NoDuplicates(Restrict(order, keep))
    ensures |Restrict(order, keep)| <= |order|
  {
    if order != [] {
      var front, last := order[..|order| - 1], order[|order| - 1];
      RestrictMembers(front, keep);
      assert order == front + [last];
    }
  }

  lemma {:induction false} RestrictAll(order: seq<BlockHash>, keep: set<BlockHash>)
    requires forall x :: x in order ==> x in keep
    ensures Restrict(order, keep) == order
  {
    if order != [] {
      var front, last := order[..|order| - 1], order[|order| - 1];
      RestrictAll(front, keep);
      assert order == front + [last];
    }
  }

  lemma {:induction false} WithoutIsRestrict(order: seq<BlockHash>, keep: set<BlockHash>, h: BlockHash)
    ensures Without(Restrict(order, keep), h) == Restrict(order, keep - {h})
  {
    if order != [] {
      var front, last := order[..|order| - 1], order[|order| - 1];
      WithoutIsRestrict(front, keep, h);
      var r := Restrict(front, keep);
      if last in keep {
        assert (r + [last])[..|r|] == r;
      } else {
        assert Restrict(order, keep) == r;
      }
    }
  }

  lemma {:induction false} RestrictTwice(order: seq<BlockHash>, a: set<BlockHash>, b: set<BlockHash>)
    ensures Restrict(Restrict(order, a), b) == Restrict(order, a * b)
  {
    if order != [] {
      var front, last := order[..|order| - 1], order[|order| - 1];
      RestrictTwice(front, a, b);
      var r := Restrict(front, a);
      if last in a {
        assert (r + [last])[..|r|] == r;
      } else {
        assert Restrict(order, a) == r;
      }
    }
  }

  lemma WithoutMembers(order: seq<BlockHash>, h: BlockHash)
    requires NoDuplicates(order)
    ensures forall x :: x in Without(order, h) <==> x in order && x != h
    ensures NoDuplicates(Without(order, h))
    ensures h in order ==> |Without(order, h)| == |order| - 1
    ensures h !in order ==> Without(order, h) == order
  {
    hide Without; hide Restrict; hide NoDuplicates;
    var all := set x | x in order;
    RestrictAll(order, all);
    WithoutIsRestrict(order, all, h);
    RestrictMembers(order, all - {h});
    if h in order {
      WithoutLength(order, h);
    } else {
      assert all - {h} == all;
    }
  }

  lemma AppendFresh(order: seq<BlockHash>, h: BlockHash)
    requires NoDuplicates(order) && h !in order
    ensures NoDuplicates(order + [h]) && forall x :: x in order + [h] <==> x in order || x == h
  {
  }

  lemma DropOldest(order: seq<BlockHash>)
    requires NoDuplicates(order) && order != []
    ensures NoDuplicates(order[1..]) && forall x :: x in order[1..] <==> x in order && x != order[0]
  {
    assert order == [order[0]] + order[1..];
    assert forall i :: 0 <= i < |order[1..]| ==> order[1..][i] == order[i + 1];
  }

  lemma InsertKeepsOrder(order: seq<BlockHash>, limit: nat, h: BlockHash)
    requires NoDuplicates(order) && |order| <= if limit == 0 then 1 else limit
    ensures var (after, evicted) := InsertAndGetEvicted(order, limit, h);
            && NoDuplicates(after) && |after| <= (if limit == 0 then 1 else limit)
            && (evicted.Some? <==> h !in order && order != [] && limit <= |order|)
            && (evicted.None? ==> after == Without(order, h) + [h] && forall x :: x in after <==> x in order || x == h)
            && (evicted.Some? ==> order != [] && evicted.value == order[0] != h
                                  && forall x :: x in after <==> (x in order && x != order[0]) || x == h)
  {
    if h in order || limit > |order| || order == [] {
      WithoutMembers(order, h);
      AppendFresh(Without(order, h), h);
    } else {
      DropOldest(order);
      AppendFresh(order[1..], h);
    }
  }

  lemma {:induction false} WithoutLength(order: seq<BlockHash>, h: BlockHash)
    requires NoDuplicates(order)
    ensures |Without(order, h)| == |order| - (if h in order then 1 else 0)
  {
    if order != [] {
      var front, last := order[..|order| - 1], order[|order| - 1];
      WithoutLength(front, h);
      assert order == front + [last];
      if last == h {
        assert h !in front;
      }
    }
  }

  lemma {:induction false} DistinctCount(order: seq<BlockHash>)
    requires NoDuplicates(order)
    ensures |Elements(order)| == |order|
  {
    if order == [] {
      assert Elements(order) == {};
    } else {
      var front, last := order[..|order| - 1], order[|order| - 1];
      DistinctCount(front);
      assert Elements(order) == Elements(front) + {last};
    }
  }
}

/** The buffer of blocks whose parent is missing. */
module BlockBuffers {
  import opened Blocks
  import opened Grouping
  import opened Recency

  /** The contents of a buffer. */
  datatype Buffer = Buffer(
    limit: nat,
    blocks: map<BlockHash, Block>,
    parentToChild: map<BlockHash, set<BlockHash>>,
    earliest: map<nat, set<BlockHash>>,
    lru: seq<BlockHash>)
  {
    /** The collections agree, except that the hashes of `orphans` are missing from
        `parentToChild` and those of `undated` from `earliest`. */
    ghost predicate Agree(orphans: set<BlockHash>, undated: set<BlockHash>) {
      && (forall h :: h in blocks ==> blocks[h].Hash() == h)
      && Groups(parentToChild, blocks.Keys - orphans, ParentOf)
      && Groups(earliest, blocks.Keys - undated, NumberOf)
      && NoDuplicates(lru)
      && (forall h :: h in lru <==> h in blocks)
    }

    ghost predicate Valid() {
      && Agree({}, {})
      && |lru| <= if limit == 0 then 1 else limit
    }

    /** The entry that inserting `h` pushes out. */
    function Evicted(h: BlockHash): Option<BlockHash> {
      if h !in blocks && limit <= |lru| && lru != [] then Some(lru[0]) else None
    }

    /** The contents after the block is taken out of every collection. */
    function Removed(h: BlockHash): Buffer {
      if h !in blocks then this
      else Buffer(limit, blocks - {h}, Remove(parentToChild, blocks[h].parentHash, h),
                  Remove(earliest, blocks[h].number, h), Without(lru, h))
    }
  }

  /** A zero limit still admits one block: the cache drops an entry before it adds one. */
  lemma SizeWithinLimit(buffer: Buffer)
    requires buffer.Valid()
    ensures |buffer.blocks| == |buffer.lru| <= if buffer.limit == 0 then 1 else buffer.limit
  {
    DistinctCount(buffer.lru);
    assert Elements(buffer.lru) == buffer.blocks.Keys;
  }

  lemma RemovedAgrees(buffer: Buffer, h: BlockHash, orphans: set<BlockHash>, undated: set<BlockHash>)
    requires buffer.Agree(orphans, undated) && h in buffer.blocks
    ensures buffer.Removed(h).Agree(orphans - {h}, undated - {h})
    ensures |buffer.Removed(h).lru| == |buffer.lru| - 1
  {
    var keys := buffer.blocks.Keys;
    RemoveKeepsGroups(buffer.earliest, keys - undated, NumberOf, h);
    RemoveKeepsGroups(buffer.parentToChild, keys - orphans, ParentOf, h);
    assert keys - undated - {h} == (keys - {h}) - (undated - {h});
    assert keys - orphans - {h} == (keys - {h}) - (orphans - {h});
    WithoutMembers(buffer.lru, h);
  }

  /** The contents once the new block is in every collection and the cache has dropped `evicted`. */
  function Added(buffer: Buffer, b: Block): Buffer {
    Buffer(buffer.limit, buffer.blocks[b.Hash() := b],
           Add(buffer.parentToChild, b.parentHash, b.Hash()),
           Add(buffer.earliest, b.number, b.Hash()),
           InsertAndGetEvicted(buffer.lru, buffer.limit, b.Hash()).0)
  }

  lemma AddedGroups(buffer: Buffer, b: Block)
    requires buffer.Valid()
    ensures var added := Added(buffer, b);
            && Groups(added.parentToChild, added.blocks.Keys, ParentOf)
            && Groups(added.earliest, added.blocks.Keys, NumberOf)
  {
    var keys := buffer.blocks.Keys;
    assert keys - {} == keys;
    AddKeepsGroups(buffer.parentToChild, keys, ParentOf, b.Hash());
    AddKeepsGroups(buffer.earliest, keys, NumberOf, b.Hash());
    assert Added(buffer, b).blocks.Keys == keys + {b.Hash()};
  }

  lemma AddedWithoutEviction(buffer: Buffer, b: Block)
    requires buffer.Valid() && buffer.Evicted(b.Hash()).None?
    ensures InsertAndGetEvicted(buffer.lru, buffer.limit, b.Hash()).1.None?
    ensures Added(buffer, b).Valid()
    ensures Added(buffer, b).lru == Without(buffer.lru, b.Hash()) + [b.Hash()]
  {
    AddedGroups(buffer, b);
    InsertKeepsOrder(buffer.lru, buffer.limit, b.Hash());
    var keys := Added(buffer, b).blocks.Keys;
    assert keys - {} == keys;
  }

  /** The removal that follows an eviction leaves the collections in agreement again. */
  lemma AddedWithEviction(buffer: Buffer, b: Block)
    requires buffer.Valid() && buffer.Evicted(b.Hash()).Some?
    ensures var gone := buffer.Evicted(b.Hash()).value;
            var left := Added(buffer, b).Removed(gone);
            && InsertAndGetEvicted(buffer.lru, buffer.limit, b.Hash()).1 == Some(gone)
            && gone in Added(buffer, b).blocks
            && left.(parentToChild := Remove(left.parentToChild, ParentOf(gone), gone)).Valid()
            && left.lru == buffer.lru[1..] + [b.Hash()]
  {
    hide Groups; hide Remove; hide Add; hide NoDuplicates; hide Without;
    var gone, added := buffer.lru[0], Added(buffer, b);
    AddedGroups(buffer, b);
    InsertKeepsOrder(buffer.lru, buffer.limit, b.Hash());
    WithoutMembers(added.lru, gone);
    RemovedTwiceFromParent(added, gone);
  }

  lemma RemovedTwiceFromParent(added: Buffer, gone: BlockHash)
    requires gone in added.blocks && added.blocks[gone].Hash() == gone
    requires Groups(added.parentToChild, added.blocks.Keys, ParentOf)
    requires Groups(added.earliest, added.blocks.Keys, NumberOf)
    ensures var left := added.Removed(gone);
            && Groups(Remove(left.parentToChild, ParentOf(gone), gone), left.blocks.Keys - {}, ParentOf)
            && Groups(left.earliest, left.blocks.Keys - {}, NumberOf)
  {
    hide Groups; hide Remove;
    var keys, left := added.blocks.Keys, added.Removed(gone);
    RemoveKeepsGroups(added.earliest, keys, NumberOf, gone);
    RemoveKeepsGroups(added.parentToChild, keys, ParentOf, gone);
    RemoveKeepsGroups(left.parentToChild, keys - {gone}, ParentOf, gone);
    assert left.blocks.Keys - {} == left.blocks.Keys == keys - {gone} == keys - {gone} - {gone};
  }

  /** `h` is buffered and a chain of buffered blocks leads up from it to a child of a root. */
  ghost predicate Descends(buffered: set<BlockHash>, roots: set<BlockHash>, h: BlockHash)
    decreases h
  {
    h.HashOf? && h in buffered &&
    (h.block.parentHash in roots || Descends(buffered, roots, h.block.parentHash))
  }

  /** `h` is buffered and it, or a buffered block that leads up from it, is numbered at most `n`. */
  ghost predicate Outdated(buffered: set<BlockHash>, n: nat, h: BlockHash)
    decreases h
  {
    h.HashOf? && h in buffered && (h.block.number <= n || Outdated(buffered, n, h.block.parentHash))
  }

  /** The last buffered hash on the way up from `h`. */
  ghost function LowestAncestorOf(buffered: set<BlockHash>, h: BlockHash): BlockHash
    decreases h
  {
    if h.HashOf? && h.block.parentHash in buffered then LowestAncestorOf(buffered, h.block.parentHash) else h
  }

  lemma {:induction false} DescendsDeeper(buffered: set<BlockHash>, root: BlockHash, h: BlockHash)
    requires Descends(buffered, {root}, h)
    ensures Depth(root) < Depth(h)
    decreases h
  {
    if h.block.parentHash != root {
      DescendsDeeper(buffered, root, h.block.parentHash);
    }
  }

  /** Taking the root itself out of the buffer first does not change who descends from it. */
  lemma {:induction false} DescendsWithoutRoot(buffered: set<BlockHash>, root: BlockHash, h: BlockHash)
    ensures Descends(buffered - {root}, {root}, h) <==> Descends(buffered, {root}, h)
    decreases h
  {
    if h.HashOf? {
      DescendsWithoutRoot(buffered, root, h.block.parentHash);
      if Descends(buffered, {root}, h) {
        DescendsDeeper(buffered, root, h);
      }
    }
  }

  /** Descending from the outdated blocks, once they are out, is being outdated. */
  lemma {:induction false} DescendsFromOld(buffered: set<BlockHash>, n: nat, aged: set<BlockHash>, h: BlockHash)
    requires forall x :: x in aged <==> x in buffered && NumberOf(x) <= n
    requires forall x :: x in buffered ==> x.HashOf?
    ensures Descends(buffered - aged, aged, h) <==> Outdated(buffered, n, h) && h !in aged
    decreases h
  {
    if h.HashOf? {
      DescendsFromOld(buffered, n, aged, h.block.parentHash);
    }
  }

  /** Going up from a buffered block ends at a buffered block whose parent is missing. */
  lemma {:induction false} LowestAncestorIsRoot(buffered: set<BlockHash>, h: BlockHash)
    requires h in buffered
    ensures var low := LowestAncestorOf(buffered, h);
            && low in buffered
            && (low.HashOf? ==> low.block.parentHash !in buffered)
            && (low == h || Descends(buffered, {low}, h))
    decreases h
  {
    if h.HashOf? && h.block.parentHash in buffered {
      LowestAncestorIsRoot(buffered, h.block.parentHash);
    }
  }

  lemma {:induction false} MinOf(s: set<nat>) returns (k: nat)
    requires s != {}
    ensures k in s && forall k' :: k' in s ==> k <= k'
  {
    var x :| x in s;
    k := x;
    if s != {x} {
      var other := MinOf(s - {x});
      k := if other < x then other else x;
      assert forall k' :: k' in s ==> k' == x || k' in s - {x};
    }
  }

  /** Nothing buffered has the parent `x`. */
  ghost predicate NoneLeft(buffered: set<BlockHash>, x: BlockHash) {
    forall h :: h in buffered ==> ParentOf(h) != x
  }

  /** What the worklist has done so far: `removed` are descendants of the roots, each once and
      parents first, and the rest of the buffer is as it was at the start. */
  ghost predicate Progress(start: Buffer, roots: set<BlockHash>, removed: seq<Block>, now: Buffer) {
    && now.blocks == start.blocks - Hashes(removed)
    && now.lru == Restrict(start.lru, now.blocks.Keys)
    && now.limit == start.limit
    && roots !! start.blocks.Keys
    && (forall b :: b in removed ==> Descends(start.blocks.Keys, roots, b.Hash()) && b.parentHash !in now.blocks)
    && NoDuplicates(removed) && ParentsFirst(removed)
  }

  lemma ProgressStarts(start: Buffer, parents: seq<BlockHash>)
    requires start.Valid() && forall p :: p in parents ==> p !in start.blocks
    ensures Progress(start, Elements(parents), [], start)
    ensures Covered(parents, Elements(parents), Hashes([]), start.blocks.Keys)
  {
    RestrictAll(start.lru, start.blocks.Keys);
    assert start.blocks == start.blocks - Hashes([]);
  }

  lemma Progresses(start: Buffer, roots: set<BlockHash>, removed: seq<Block>, now: Buffer, b: Block)
    requires Progress(start, roots, removed, now)
    requires b.Hash() in now.blocks
    requires b.parentHash in roots || b.parentHash in Hashes(removed)
    ensures Progress(start, roots, removed + [b], now.Removed(b.Hash()))
    ensures Hashes(removed + [b]) == Hashes(removed) + {b.Hash()}
  {
    var hash, after := b.Hash(), removed + [b];
    assert Hashes(after) == Hashes(removed) + {hash};
    assert hash !in Hashes(removed);
    WithoutIsRestrict(start.lru, now.blocks.Keys, hash);
    assert (now.blocks - {hash}).Keys == now.blocks.Keys - {hash};
    assert Descends(start.blocks.Keys, roots, hash);
  }

  /** The children of `parent` outside `rest` are out and listed, those in `rest` are still in. */
  ghost predicate Taking(start: Buffer, roots: set<BlockHash>, before: Buffer, parent: BlockHash, listed: seq<Block>,
                         rest: set<BlockHash>, removed: seq<Block>, order: seq<BlockHash>, now: Buffer)
  {
    && before.Valid() && parent in before.parentToChild
    && (parent in roots || parent in Hashes(listed))
    && rest <= before.parentToChild[parent]
    && now.Agree(rest, {}) && |now.lru| <= |before.lru| && now.limit == before.limit
    && now.blocks == before.blocks - (before.parentToChild[parent] - rest)
    && Progress(start, roots, removed, now)
    && Hashes(removed) == Hashes(listed) + (before.parentToChild[parent] - rest)
    && (forall c :: c in order <==> c in before.parentToChild[parent] - rest)
  }

  lemma TakingStarts(start: Buffer, roots: set<BlockHash>, before: Buffer, parent: BlockHash, listed: seq<Block>)
    requires before.Valid() && parent in before.parentToChild
    requires Progress(start, roots, listed, before)
    requires parent in roots || parent in Hashes(listed)
    ensures Taking(start, roots, before, parent, listed, before.parentToChild[parent], listed, [],
                   before.(parentToChild := before.parentToChild - {parent}))
  {
    var children := before.parentToChild[parent];
    assert before.blocks.Keys - {} == before.blocks.Keys;
    DropKeyKeepsGroups(before.parentToChild, before.blocks.Keys, ParentOf, parent);
    assert before.blocks - (children - children) == before.blocks;
    assert Hashes(listed) + (children - children) == Hashes(listed);
  }

  lemma ChildrenOf(buffer: Buffer, parent: BlockHash)
    requires buffer.Valid() && parent in buffer.parentToChild
    ensures buffer.parentToChild[parent] != {}
    ensures forall h :: h in buffer.parentToChild[parent] <==> h in buffer.blocks && ParentOf(h) == parent
  {
    var keys := buffer.blocks.Keys - {};
    forall h ensures h in buffer.parentToChild[parent] <==> h in buffer.blocks && ParentOf(h) == parent {
      assert h in keys <==> h in buffer.blocks;
    }
  }

  lemma NoChildren(buffer: Buffer, parent: BlockHash)
    requires buffer.Valid() && parent !in buffer.parentToChild
    ensures NoneLeft(buffer.blocks.Keys, parent)
  {
  }

  lemma TakingSteps(start: Buffer, roots: set<BlockHash>, before: Buffer, parent: BlockHash, listed: seq<Block>,
                    rest: set<BlockHash>, removed: seq<Block>, order: seq<BlockHash>, now: Buffer, child: BlockHash)
    requires Taking(start, roots, before, parent, listed, rest, removed, order, now)
    requires child in rest
    ensures child in now.blocks
    ensures Taking(start, roots, before, parent, listed, rest - {child}, removed + [now.blocks[child]], order + [child],
                   now.Removed(child))
  {
    hide Progress; hide Descends; hide Restrict; hide Groups; hide NoDuplicates;
    ChildrenOf(before, parent);
    assert child in now.blocks && now.blocks[child].Hash() == child && now.blocks[child].parentHash == parent;
    assert Hashes(listed) <= Hashes(removed);
    Progresses(start, roots, removed, now, now.blocks[child]);
    RemovedAgrees(now, child, rest, {});
    assert {} - {child} == {};
    var children := before.parentToChild[parent];
    assert children - (rest - {child}) == (children - rest) + {child};
  }

  lemma TakingEnds(start: Buffer, roots: set<BlockHash>, before: Buffer, parent: BlockHash, listed: seq<Block>,
                   removed: seq<Block>, order: seq<BlockHash>, now: Buffer)
    requires Taking(start, roots, before, parent, listed, {}, removed, order, now)
    ensures now.Valid() && Progress(start, roots, removed, now)
    ensures Hashes(removed) == Hashes(listed) + before.parentToChild[parent]
    ensures forall c :: c in order <==> c in before.parentToChild[parent]
    ensures now.blocks == before.blocks - before.parentToChild[parent] && NoneLeft(now.blocks.Keys, parent)
    ensures |now.blocks| < |before.blocks|
  {
    hide Progress; hide Descends; hide Restrict; hide Groups; hide NoDuplicates;
    ChildrenOf(before, parent);
    var children := before.parentToChild[parent];
    assert children - {} == children;
    assert now.blocks.Keys == before.blocks.Keys - children;
    assert |before.blocks.Keys - children| == |before.blocks.Keys| - |children|;
  }

  /** Every root and every removed hash is still listed or has no buffered child left. */
  ghost predicate Covered(stack: seq<BlockHash>, roots: set<BlockHash>, taken: set<BlockHash>, buffered: set<BlockHash>) {
    && (forall x :: x in stack ==> x in roots || x in taken)
    && (forall x :: (x in roots || x in taken) && x !in stack ==> NoneLeft(buffered, x))
  }

  lemma CoveredTop(stack: seq<BlockHash>, roots: set<BlockHash>, taken: set<BlockHash>, buffered: set<BlockHash>)
    requires Covered(stack, roots, taken, buffered) && stack != []
    ensures stack[|stack| - 1] in roots || stack[|stack| - 1] in taken
    ensures stack == stack[..|stack| - 1] + [stack[|stack| - 1]]
  {
  }

  lemma Covers(stack: seq<BlockHash>, parent: BlockHash, order: seq<BlockHash>, roots: set<BlockHash>,
               taken: set<BlockHash>, taken': set<BlockHash>, buffered: set<BlockHash>, buffered': set<BlockHash>)
    requires Covered(stack + [parent], roots, taken, buffered)
    requires buffered' <= buffered && NoneLeft(buffered', parent)
    requires taken <= taken' && forall c :: c in order ==> c in taken'
    requires forall c :: c in taken' - taken ==> c in order
    ensures Covered(stack + order, roots, taken', buffered')
  {
    assert forall x :: x in stack ==> x in stack + [parent];
  }

  lemma {:induction false} ClosedHoldsDescendants(buffered: set<BlockHash>, roots: set<BlockHash>,
                                                  taken: set<BlockHash>, h: BlockHash)
    requires forall x :: x in roots || x in taken ==> NoneLeft(buffered - taken, x)
    requires Descends(buffered, roots, h)
    ensures h in taken
    decreases h
  {
    var p := h.block.parentHash;
    if p !in roots {
      ClosedHoldsDescendants(buffered, roots, taken, p);
    }
    assert NoneLeft(buffered - taken, p);
    assert ParentOf(h) == p;
  }

  /** An empty worklist has taken out exactly the descendants of the roots. */
  lemma WorklistDone(start: Buffer, roots: set<BlockHash>, removed: seq<Block>, now: Buffer)
    requires Progress(start, roots, removed, now)
    requires Covered([], roots, Hashes(removed), now.blocks.Keys)
    ensures forall h :: h in Hashes(removed) <==> Descends(start.blocks.Keys, roots, h)
    ensures now.blocks == start.blocks - Hashes(removed)
    ensures now.lru == Restrict(start.lru, now.blocks.Keys)
    ensures NoDuplicates(removed) && ParentsFirst(removed)
  {
    assert now.blocks.Keys == start.blocks.Keys - Hashes(removed);
    forall h | Descends(start.blocks.Keys, roots, h)
      ensures h in Hashes(removed)
    {
      ClosedHoldsDescendants(start.blocks.Keys, roots, Hashes(removed), h);
    }
  }

  /** A removed root followed by its removed descendants. */
  lemma RootThenDescendants(start: Buffer, root: BlockHash, rest: seq<Block>, now: Buffer)
    requires start.Valid() && root in start.blocks
    requires forall h :: h in Hashes(rest) <==> Descends(start.Removed(root).blocks.Keys, {root}, h)
    requires now.blocks == start.Removed(root).blocks - Hashes(rest)
    requires now.lru == Restrict(start.Removed(root).lru, now.blocks.Keys)
    requires NoDuplicates(rest) && ParentsFirst(rest)
    ensures var removed := [start.blocks[root]] + rest;
            && (forall h :: h in Hashes(removed) <==> h == root || Descends(start.blocks.Keys, {root}, h))
            && now.blocks == start.blocks - Hashes(removed)
            && now.lru == Restrict(start.lru, now.blocks.Keys)
            && NoDuplicates(removed) && ParentsFirst(removed)
  {
    hide NoDuplicates; hide ParentsFirst; hide Groups; hide Without; hide Restrict; hide Descends;
    var first := start.blocks[root];
    var removed := [first] + rest;
    assert Hashes(removed) == {root} + Hashes(rest);
    assert start.Removed(root).blocks.Keys == start.blocks.Keys - {root};
    forall h ensures Descends(start.blocks.Keys - {root}, {root}, h) <==> Descends(start.blocks.Keys, {root}, h) {
      DescendsWithoutRoot(start.blocks.Keys, root, h);
    }
    RootOrder(start.blocks.Keys, first, rest);
    RestrictAfterWithout(start.lru, start.blocks.Keys, root, now.blocks.Keys);
  }

  lemma RestrictAfterWithout(order: seq<BlockHash>, all: set<BlockHash>, h: BlockHash, keep: set<BlockHash>)
    requires forall x :: x in order ==> x in all
    requires keep <= all - {h}
    ensures Restrict(Without(order, h), keep) == Restrict(order, keep)
  {
    RestrictAll(order, all);
    WithoutIsRestrict(order, all, h);
    RestrictTwice(order, all - {h}, keep);
    assert (all - {h}) * keep == keep;
  }

  lemma RootOrder(buffered: set<BlockHash>, first: Block, rest: seq<Block>)
    requires forall h :: h in Hashes(rest) ==> Descends(buffered, {first.Hash()}, h)
    requires NoDuplicates(rest) && ParentsFirst(rest)
    ensures NoDuplicates([first] + rest) && ParentsFirst([first] + rest)
  {
    var removed := [first] + rest;
    forall i | 0 <= i < |rest|
      ensures rest[i] != first && first.parentHash != rest[i].Hash()
    {
      assert rest[i].Hash() in Hashes(rest);
      DescendsDeeper(buffered, first.Hash(), rest[i].Hash());
    }
    assert first.parentHash != first.Hash() by {
      assert Depth(first.parentHash) < Depth(first.Hash());
    }
    forall i, j | 0 <= i < |removed| && 0 <= j < |removed| && removed[j].parentHash == removed[i].Hash()
      ensures i < j
    {
      if i > 0 && j > 0 {
        assert rest[j - 1].parentHash == rest[i - 1].Hash();
      }
    }
  }

  /** `aged` lists hashes whose dates up to `n` have been dropped; every other date is kept. */
  ghost predicate Aging(start: Buffer, n: nat, aged: seq<BlockHash>, earliest: map<nat, set<BlockHash>>) {
    && (forall h :: h in aged ==> h in start.blocks && NumberOf(h) <= n)
    && Groups(earliest, start.blocks.Keys - Elements(aged), NumberOf)
  }

  lemma AgingStarts(start: Buffer, n: nat)
    requires start.Valid()
    ensures Aging(start, n, [], start.earliest)
  {
    assert start.blocks.Keys - Elements([]) == start.blocks.Keys - {};
  }

  lemma AgingSteps(start: Buffer, n: nat, aged: seq<BlockHash>, earliest: map<nat, set<BlockHash>>, k: nat, more: seq<BlockHash>)
    requires Aging(start, n, aged, earliest) && k in earliest && k <= n
    requires forall h :: h in more <==> h in earliest[k]
    ensures Aging(start, n, aged + more, earliest - {k})
  {
    var left := start.blocks.Keys - Elements(aged);
    DropKeyKeepsGroups(earliest, left, NumberOf, k);
    assert forall h :: h in earliest[k] ==> h in left && NumberOf(h) == k;
    assert left - earliest[k] == start.blocks.Keys - Elements(aged + more);
  }

  /** When no date up to `n` is left, the list holds every block numbered up to `n`. */
  lemma AgingEnds(start: Buffer, n: nat, aged: seq<BlockHash>, earliest: map<nat, set<BlockHash>>)
    requires start.Valid() && Aging(start, n, aged, earliest)
    requires forall k :: k in earliest ==> n < k
    ensures forall h :: h in aged <==> h in start.blocks && NumberOf(h) <= n
    ensures start.(earliest := earliest).Agree({}, Elements(aged))
  {
    forall h | h in start.blocks && h !in aged
      ensures n < NumberOf(h)
    {
      assert h in start.blocks.Keys - Elements(aged);
    }
  }

  /** The buffer with the first `i` aged blocks taken out of the remaining collections. */
  ghost predicate Discarding(start: Buffer, aged: seq<BlockHash>, i: nat, now: Buffer) {
    && i <= |aged|
    && now.Agree({}, set h | h in aged && h in now.blocks)
    && now.blocks == start.blocks - Elements(aged[..i])
    && now.lru == Restrict(start.lru, now.blocks.Keys)
    && now.limit == start.limit && |now.lru| <= |start.lru|
  }

  lemma DiscardingStarts(start: Buffer, n: nat, aged: seq<BlockHash>, earliest: map<nat, set<BlockHash>>)
    requires start.Valid() && Aging(start, n, aged, earliest)
    requires forall k :: k in earliest ==> n < k
    ensures Discarding(start, aged, 0, start.(earliest := earliest))
  {
    AgingEnds(start, n, aged, earliest);
    RestrictAll(start.lru, start.blocks.Keys);
    assert start.blocks - Elements(aged[..0]) == start.blocks;
    assert (set h | h in aged && h in start.blocks) == Elements(aged);
  }

  lemma DiscardingSteps(start: Buffer, aged: seq<BlockHash>, i: nat, now: Buffer)
    requires Discarding(start, aged, i, now) && i < |aged|
    ensures Discarding(start, aged, i + 1, now.Removed(aged[i]))
  {
    hide Groups; hide NoDuplicates; hide Without; hide Restrict; hide Remove;
    var h, undated := aged[i], set x | x in aged && x in now.blocks;
    assert Elements(aged[..i + 1]) == Elements(aged[..i]) + {h} by {
      assert aged[..i + 1] == aged[..i] + [h];
    }
    if h in now.blocks {
      RemovedAgrees(now, h, {}, undated);
      assert {} - {h} == {};
      assert undated - {h} == set x | x in aged && x in now.Removed(h).blocks;
      WithoutIsRestrict(start.lru, now.blocks.Keys, h);
      assert now.Removed(h).blocks.Keys == now.blocks.Keys - {h};
    }
    assert now.Removed(h).blocks == start.blocks - Elements(aged[..i + 1]);
  }

  lemma DiscardingEnds(start: Buffer, aged: seq<BlockHash>, now: Buffer)
    requires start.Valid() && Discarding(start, aged, |aged|, now)
    ensures now.Valid() && now.blocks == start.blocks - Elements(aged)
    ensures forall h :: h in aged ==> h !in now.blocks
    ensures now.lru == Restrict(start.lru, now.blocks.Keys)
  {
    assert aged[..|aged|] == aged;
    assert (set h | h in aged && h in now.blocks) == {};
  }

  /** Dropping the blocks up to `n` and then their descendants drops the outdated blocks. */
  lemma OldThenDescendants(start: Buffer, n: nat, aged: seq<BlockHash>, mid: Buffer, rest: seq<Block>, now: Buffer)
    requires start.Valid()
    requires forall h :: h in aged <==> h in start.blocks && NumberOf(h) <= n
    requires mid.blocks == start.blocks - Elements(aged) && mid.lru == Restrict(start.lru, mid.blocks.Keys)
    requires forall h :: h in Hashes(rest) <==> Descends(mid.blocks.Keys, Elements(aged), h)
    requires now.blocks == mid.blocks - Hashes(rest) && now.lru == Restrict(mid.lru, now.blocks.Keys)
    ensures now.blocks == start.blocks - (set h | h in start.blocks && Outdated(start.blocks.Keys, n, h))
    ensures now.lru == Restrict(start.lru, now.blocks.Keys)
  {
    var keys, aging := start.blocks.Keys, Elements(aged);
    assert mid.blocks.Keys == keys - aging;
    forall h | h in start.blocks
      ensures h in now.blocks <==> !Outdated(keys, n, h)
    {
      DescendsFromOld(keys, n, aging, h);
    }
    RestrictTwice(start.lru, mid.blocks.Keys, now.blocks.Keys);
    assert mid.blocks.Keys * now.blocks.Keys == now.blocks.Keys;
  }

  method ListOf(s: set<BlockHash>) returns (list: seq<BlockHash>)
    ensures forall h :: h in list <==> h in s
  {
    var rest := s;
    list := [];
    while rest != {}
      invariant rest <= s
      invariant forall h :: h in list <==> h in s - rest
    {
      var h :| h in rest;
      list := list + [h];
      rest := rest - {h};
    }
  }

  class BlockBuffer {
    const limit: nat
    var blocks: map<BlockHash, Block>
    var parentToChild: map<BlockHash, set<BlockHash>>
    var earliestBlocks: map<nat, set<BlockHash>>
    var lru: seq<BlockHash>

    ghost function View(): Buffer
      reads this
    {
      Buffer(limit, blocks, parentToChild, earliestBlocks, lru)
    }

    constructor (limit: nat)
      ensures View().Valid() && this.limit == limit && blocks == map[]
    {
      this.limit := limit;
      blocks, parentToChild, earliestBlocks, lru := map[], map[], map[], [];
    }

    method LowestAncestor(hash: BlockHash) returns (r: Option<Block>)
      requires View().Valid()
      ensures r.None? <==> hash !in blocks
      ensures r.Some? ==> r.value.Hash() == LowestAncestorOf(blocks.Keys, hash)
    {
      if hash !in blocks {
        return None;
      }
      var current := blocks[hash];
      while current.parentHash in blocks
        invariant current.Hash() in blocks
        invariant LowestAncestorOf(blocks.Keys, current.Hash()) == LowestAncestorOf(blocks.Keys, hash)
        decreases current
      {
        current := blocks[current.parentHash];
      }
      return Some(current);
    }

    method InsertBlock(block: Block)
      requires View().Valid()
      modifies this
      ensures View().Valid()
      ensures var gone := old(View()).Evicted(block.Hash());
              && blocks == old(blocks)[block.Hash() := block] - (if gone.Some? then {gone.value} else {})
              && lru == (if gone.Some? then old(lru)[1..] else Without(old(lru), block.Hash())) + [block.Hash()]
      ensures block.Hash() in blocks && blocks[block.Hash()] == block
      ensures block.Hash() in old(blocks) || |old(lru)| < limit ==> blocks == old(blocks)[block.Hash() := block]
    {
      hide Without; hide InsertAndGetEvicted; hide Groups; hide NoDuplicates; hide Add; hide Remove;
      ghost var before := View();
      var hash := block.Hash();
      parentToChild := Add(parentToChild, block.parentHash, hash);
      earliestBlocks := Add(earliestBlocks, block.number, hash);
      blocks := blocks[hash := block];
      var (order, evicted) := InsertAndGetEvicted(lru, limit, hash);
      lru := order;
      if before.Evicted(hash).Some? {
        AddedWithEviction(before, block);
      } else {
        AddedWithoutEviction(before, block);
      }
      if evicted.Some? {
        var gone := RemoveBlock(evicted.value);
        if gone.Some? {
          parentToChild := Remove(parentToChild, gone.value.parentHash, evicted.value);
        }
      }
    }

    /** Removes a block from every collection that still knows it. */
    method RemoveBlock(hash: BlockHash) returns (removed: Option<Block>)
      modifies this
      ensures View() == old(View()).Removed(hash)
      ensures removed == if hash in old(blocks) then Some(old(blocks)[hash]) else None
    {
      if hash !in blocks {
        return None;
      }
      var block := blocks[hash];
      blocks := blocks - {hash};
      earliestBlocks := Remove(earliestBlocks, block.number, hash);
      parentToChild := Remove(parentToChild, block.parentHash, hash);
      lru := Without(lru, hash);
      return Some(block);
    }

    /** Takes out the buffered children of `parent`, in some order, and appends them to the list. */
    method TakeOutChildren(parent: BlockHash, listed: seq<Block>, ghost start: Buffer, ghost roots: set<BlockHash>)
      returns (removed: seq<Block>, order: seq<BlockHash>)
      requires View().Valid() && parent in parentToChild
      requires Progress(start, roots, listed, View())
      requires parent in roots || parent in Hashes(listed)
      modifies this
      ensures View().Valid()
      ensures Progress(start, roots, removed, View())
      ensures Hashes(removed) == Hashes(listed) + old(parentToChild)[parent]
      ensures forall c :: c in order <==> c in old(parentToChild)[parent]
      ensures blocks == old(blocks) - old(parentToChild)[parent] && NoneLeft(blocks.Keys, parent)
      ensures |blocks| < |old(blocks)|
    {
      hide Buffer.Valid; hide Buffer.Agree; hide Progress; hide Taking; hide Hashes; hide NoneLeft; hide Buffer.Removed;
      var children := parentToChild[parent];
      ghost var before := View();
      TakingStarts(start, roots, before, parent, listed);
      parentToChild := parentToChild - {parent};
      removed, order := listed, [];
      var rest := children;
      while rest != {}
        invariant Taking(start, roots, before, parent, listed, rest, removed, order, View())
        decreases rest
      {
        var child :| child in rest;
        TakingSteps(start, roots, before, parent, listed, rest, removed, order, View(), child);
        var taken := RemoveBlock(child);
        if taken.Some? {
          removed := removed + [taken.value];
        }
        order := order + [child];
        rest := rest - {child};
      }
      TakingEnds(start, roots, before, parent, listed, removed, order, View());
    }

    /** Empties the worklist of parents, taking out the children of each and listing them as parents. */
    method RemoveChildren(parents: seq<BlockHash>) returns (removed: seq<Block>)
      requires View().Valid()
      requires forall p :: p in parents ==> p !in blocks
      modifies this
      ensures View().Valid()
      ensures forall h :: h in Hashes(removed) <==> Descends(old(blocks).Keys, Elements(parents), h)
      ensures blocks == old(blocks) - Hashes(removed)
      ensures lru == Restrict(old(lru), blocks.Keys)
      ensures NoDuplicates(removed) && ParentsFirst(removed)
    {
      hide Buffer.Agree; hide Progress; hide Covered; hide NoDuplicates; hide Descends; hide Restrict;
      ghost var roots := Elements(parents);
      ghost var start := View();
      var stack := parents;
      removed := [];
      ProgressStarts(start, parents);
      while stack != []
        invariant View().Valid()
        invariant Progress(start, roots, removed, View())
        invariant Covered(stack, roots, Hashes(removed), blocks.Keys)
        decreases |blocks|, |stack|
      {
        CoveredTop(stack, roots, Hashes(removed), blocks.Keys);
        var parent := stack[|stack| - 1];
        stack := stack[..|stack| - 1];
        ghost var taken, buffered := Hashes(removed), blocks.Keys;
        if parent in parentToChild {
          var order;
          removed, order := TakeOutChildren(parent, removed, start, roots);
          Covers(stack, parent, order, roots, taken, Hashes(removed), buffered, blocks.Keys);
          stack := stack + order;
        } else {
          assert NoneLeft(blocks.Keys, parent) by { NoChildren(View(), parent); }
          Covers(stack, parent, [], roots, taken, taken, buffered, buffered);
          assert stack + [] == stack;
        }
      }
      WorklistDone(start, roots, removed, View());
    }

    /** Removes the block and every buffered block that descends from it, parents first. */
    method RemoveBlockWithChildren(parent: BlockHash) returns (removed: seq<Block>)
      requires View().Valid()
      modifies this
      ensures View().Valid()
      ensures forall h :: h in Hashes(removed) <==>
                          (h == parent && h in old(blocks)) || Descends(old(blocks).Keys, {parent}, h)
      ensures blocks == old(blocks) - Hashes(removed)
      ensures lru == Restrict(old(lru), blocks.Keys)
      ensures NoDuplicates(removed) && ParentsFirst(removed)
    {
      hide Buffer.Agree; hide Descends; hide Restrict; hide NoDuplicates; hide ParentsFirst; hide Hashes;
      ghost var start := View();
      var first := RemoveBlock(parent);
      assert Elements([parent]) == {parent};
      if first.Some? {
        RemovedAgrees(start, parent, {}, {});
        assert {} - {parent} == {};
        var rest := RemoveChildren([parent]);
        RootThenDescendants(start, parent, rest, View());
        removed := [first.value] + rest;
      } else {
        removed := RemoveChildren([parent]);
      }
    }

    /** Discards every buffered block numbered up to `n`, and what was buffered on top of it. */
    method RemoveOldBlocks(n: nat)
      requires View().Valid()
      modifies this
      ensures View().Valid()
      ensures blocks == old(blocks) - (set h | h in old(blocks) && Outdated(old(blocks).Keys, n, h))
      ensures lru == Restrict(old(lru), blocks.Keys)
    {
      hide Buffer.Agree; hide Descends; hide Restrict; hide NoDuplicates; hide Hashes; hide Groups; hide Outdated;
      ghost var start := View();
      var aged := [];
      AgingStarts(start, n);
      while earliestBlocks != map[]
        invariant Aging(start, n, aged, earliestBlocks)
        invariant View() == start.(earliest := earliestBlocks)
        decreases earliestBlocks.Keys
      {
        ghost var low := MinOf(earliestBlocks.Keys);
        var k :| k in earliestBlocks && forall j :: j in earliestBlocks ==> k <= j;
        if n < k {
          break;
        }
        var hashes := ListOf(earliestBlocks[k]);
        AgingSteps(start, n, aged, earliestBlocks, k, hashes);
        aged := aged + hashes;
        earliestBlocks := earliestBlocks - {k};
      }
      AgingEnds(start, n, aged, earliestBlocks);
      DiscardingStarts(start, n, aged, earliestBlocks);
      for i := 0 to |aged|
        invariant Discarding(start, aged, i, View())
      {
        DiscardingSteps(start, aged, i, View());
        var _ := RemoveBlock(aged[i]);
      }
      DiscardingEnds(start, aged, View());
      ghost var mid := View();
      var rest := RemoveChildren(aged);
      OldThenDescendants(start, n, aged, mid, rest, View());
    }
  }
}
