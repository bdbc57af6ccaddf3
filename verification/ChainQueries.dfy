/** Following a sidechain down through the sidechains it sits on. */
module ChainQueries {
  import opened Blocks
  import opened Chains
  import opened Grouping
  import opened BlockIndexing
  import opened BlockBuffers
  import opened Trees
  import opened Finalization

  /** The path of a hash starts on the canonical block it leads down to. */
  lemma {:induction false} PathStartsAtFork(canon: set<BlockHash>, h: BlockHash)
    ensures Path(canon, h) != [] ==> Path(canon, h)[0].parentHash == ForkPoint(canon, h)
    ensures Path(canon, h) != [] ==> Tip(Path(canon, h)).Hash() == h
    decreases h
  {
    if h !in canon && h.HashOf? {
      PathStartsAtFork(canon, h.block.parentHash);
      assert Path(canon, h) == Path(canon, h.block.parentHash) + [h.block];
      if Path(canon, h.block.parentHash) == [] {
        assert Path(canon, h)[0] == h.block;
      }
    }
  }

  /** Everything above `x` on the way to `tip` is in `tail`; `x` itself is a block of sidechain `id`. */
  ghost predicate Descending(t: Tree, tip: BlockHash, id: nat, x: BlockHash, tail: Chain) {
    && x in t.Owner() && t.Owner()[x] == id
    && Linked(tail) && Path(t.Canon(), tip) == Path(t.Canon(), x) + tail
    && (tail != [] ==> tail[0].parentHash == x && tail[0].number == NumberOf(x) + 1)
    && (tail == [] ==> id in t.chains && t.chains[id] != [] && x == Tip(t.chains[id]).Hash())
  }

  /** The part of sidechain `id` up to `x`. */
  ghost function UpTo(t: Tree, id: nat, x: BlockHash): Chain
    requires id in t.chains && t.chains[id] != []
    requires t.chains[id][0].number <= NumberOf(x) < t.chains[id][0].number + |t.chains[id]|
  {
    t.chains[id][..NumberOf(x) - t.chains[id][0].number + 1]
  }

  lemma DescendingStarts(t: Tree, id: nat)
    requires Consistent(t) && id in t.chains
    ensures t.chains[id] != [] && Descending(t, Tip(t.chains[id]).Hash(), id, Tip(t.chains[id]).Hash(), [])
  {
    hide Groups; hide InDatabase; hide Buffer.Valid; hide Firsts; hide Attached; hide Owned;
    var tip := Tip(t.chains[id]).Hash();
    assert tip in Hashes(t.chains[id]);
    ChainIsOwned(t, id, tip);
    assert Path(t.Canon(), tip) == Path(t.Canon(), tip) + [];
  }

  lemma DescendingTail(t: Tree, tip: BlockHash, id: nat, x: BlockHash, tail: Chain)
    requires Descending(t, tip, id, x, tail)
    ensures Linked(tail)
  {
  }

  /** The part of a sidechain up to one of its blocks is a chain outside the canonical one. */
  lemma UpToIsChain(t: Tree, id: nat, x: BlockHash)
    requires Consistent(t) && x in t.Owner() && t.Owner()[x] == id
    ensures id in t.chains && t.chains[id] != [] && Linked(t.chains[id])
    ensures t.chains[id][0].number <= NumberOf(x) < t.chains[id][0].number + |t.chains[id]|
    ensures var lower := UpTo(t, id, x);
            && Linked(lower) && lower != [] && lower[0] == t.chains[id][0]
            && Tip(lower).Hash() == x && Hashes(lower) !! t.Canon()
    ensures t.chains[id] != [] && x == Tip(t.chains[id]).Hash() ==> UpTo(t, id, x) == t.chains[id]
  {
    hide Groups; hide InDatabase; hide Buffer.Valid; hide Firsts; hide Attached;
    var c := t.chains[id];
    InChain(c, x);
    assert forall h :: h in Hashes(c) ==> h in t.Owner();
    hide Owned; hide Hashes;
    SplitHashes(c, NumberOf(x) - c[0].number + 1);
  }

  lemma DescendingChain(t: Tree, tip: BlockHash, id: nat, x: BlockHash, tail: Chain)
    requires Consistent(t) && Descending(t, tip, id, x, tail)
    ensures id in t.chains && t.chains[id] != [] && Linked(t.chains[id])
    ensures t.chains[id][0].number <= NumberOf(x) < t.chains[id][0].number + |t.chains[id]|
    ensures var lower := UpTo(t, id, x);
            && Linked(lower) && lower != [] && lower[0] == t.chains[id][0]
            && Tip(lower).Hash() == x && Hashes(lower) !! t.Canon()
            && Linked(lower + tail)
            && Path(t.Canon(), tip) == Path(t.Canon(), lower[0].parentHash) + (lower + tail)
    ensures tail == [] ==> UpTo(t, id, x) == t.chains[id]
  {
    hide Consistent; hide Path; hide ForkPoint; hide Hashes; hide Linked;
    UpToIsChain(t, id, x);
    var lower := UpTo(t, id, x);
    PathOfChain(t.Canon(), lower);
    assert Path(t.Canon(), lower[0].parentHash) + lower + tail == Path(t.Canon(), lower[0].parentHash) + (lower + tail);
    if tail == [] {
      assert lower + tail == lower;
    } else {
      JoinLinked(lower, tail);
    }
  }

  /** One sidechain further down. */
  lemma DescendingNext(t: Tree, tip: BlockHash, id: nat, x: BlockHash, tail: Chain)
    requires Consistent(t) && Descending(t, tip, id, x, tail)
    requires id in t.chains && t.chains[id] != []
    requires t.chains[id][0].number <= NumberOf(x) < t.chains[id][0].number + |t.chains[id]|
    ensures var base, lower := t.chains[id][0].parentHash, UpTo(t, id, x);
            && NumberOf(base) + 1 == t.chains[id][0].number
            && (base in t.Owner() ==> Descending(t, tip, t.Owner()[base], base, lower + tail)
                                      && t.Owner()[base] in t.chains && t.chains[t.Owner()[base]] != []
                                      && t.chains[t.Owner()[base]][0].number <= NumberOf(base))
            && (base !in t.Owner() ==> base in t.Canon() && Path(t.Canon(), tip) == lower + tail
                                       && ForkPoint(t.Canon(), tip) == base)
  {
    hide Groups; hide InDatabase; hide Buffer.Valid; hide Firsts; hide Attached; hide Linked; hide Owned;
    DescendingChain(t, tip, id, x, tail);
    BaseConnected(t, id);
    var base := t.chains[id][0].parentHash;
    if base in t.Owner() {
      SameForkPoint(t, base);
    } else {
      var lower := UpTo(t, id, x);
      assert Path(t.Canon(), base) + (lower + tail) == lower + tail;
      PathStartsAtFork(t.Canon(), tip);
    }
  }

  lemma {:induction false} MergeNumbers(lower: Chain, tail: Chain)
    ensures HashByNumber(lower + tail) == HashByNumber(lower) + HashByNumber(tail)
  {
    if tail == [] {
      assert lower + tail == lower;
    } else {
      var front := tail[..|tail| - 1];
      assert (lower + tail)[..|lower + tail| - 1] == lower + front;
      MergeNumbers(lower, front);
    }
  }

  lemma NoNumbers(c: Chain)
    ensures HashByNumber(c[..0]) == map[] && HashByNumber([]) == map[]
  {
  }

  lemma LatestNumber(tail: Chain)
    requires Linked(tail) && tail != []
    ensures HashByNumber(tail) != map[] && TipOf(HashByNumber(tail)).number == Tip(tail).number
  {
    HashByNumberOfLinked(tail);
    assert Tip(tail).number in HashByNumber(tail);
  }

  lemma NextNumber(c: Chain, j: nat)
    requires Linked(c) && j < |c|
    ensures HashByNumber(c[..j + 1]) == HashByNumber(c[..j])[c[j].number := c[j].Hash()]
    ensures c[j].number !in HashByNumber(c[..j])
  {
    SplitHashes(c, j);
    HashByNumberOfLinked(c[..j]);
    assert c[..j + 1][..j] == c[..j];
  }

  /** Adds the hashes of a chain that are not above the highest number held, unless one is held already. */
  method AddHashes(hashes: map<nat, BlockHash>, chain: Chain, ghost tail: Chain, ghost k: nat) returns (r: map<nat, BlockHash>)
    requires chain != [] && Linked(chain) && 0 < k <= |chain|
    requires Linked(tail) && hashes == HashByNumber(tail) && Linked(chain[..k] + tail)
    requires tail == [] ==> k == |chain|
    ensures r == HashByNumber(chain[..k] + tail)
  {
    hide Linked; hide HashByNumber;
    var latest := if hashes == map[] then Tip(chain).number else TipOf(hashes).number;
    SplitHashes(chain, k);
    MergeNumbers(chain[..k], tail);
    TailNumbers(chain, k, tail);
    r := hashes;
    NoNumbers(chain);
    assert map[] + hashes == hashes;
    for j := 0 to |chain|
      invariant r == HashByNumber(chain[..if j < k then j else k]) + hashes
    {
      NextNumber(chain, j);
      var block := chain[j];
      if block.number <= latest && block.number !in r {
        r := r[block.number := block.Hash()];
      }
    }
  }

  lemma TailNumbers(chain: Chain, k: nat, tail: Chain)
    requires chain != [] && Linked(chain) && 0 < k <= |chain| && Linked(tail) && Linked(chain[..k] + tail)
    requires tail == [] ==> k == |chain|
    ensures var latest := if HashByNumber(tail) == map[] then Tip(chain).number else TipOf(HashByNumber(tail)).number;
            forall j :: 0 <= j < |chain| ==>
                          (j < k ==> chain[j].number <= latest && chain[j].number !in HashByNumber(tail))
                          && (k <= j && chain[j].number <= latest ==> chain[j].number in HashByNumber(tail))
  {
    HashByNumberOfLinked(tail);
    if tail != [] {
      LatestNumber(tail);
      assert (chain[..k] + tail)[k] == tail[0];
    }
  }
}
