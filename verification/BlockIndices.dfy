/** The indices that connect blocks, sidechains and the canonical chain. */
module BlockIndexing {
  import opened Blocks
  import opened Chains
  import opened Grouping
  import opened HashDifference

  datatype Indices = Indices(
    lastFinalized: nat,
    canonical: map<nat, BlockHash>,
    forkToChild: map<BlockHash, set<BlockHash>>,
    numberToHashes: map<nat, set<BlockHash>>,
    blocksToChain: map<BlockHash, nat>)

  /** Every hash under the given keys. */
  ghost function Under(index: map<BlockHash, set<BlockHash>>, keys: set<BlockHash>): set<BlockHash> {
    set k, h | k in keys && k in index && h in index[k] :: h
  }

  /** The sidechains of the given hashes. */
  ghost function Ids(blocksToChain: map<BlockHash, nat>, hashes: set<BlockHash>): set<nat> {
    set h | h in hashes && h in blocksToChain :: blocksToChain[h]
  }

  /** The canonical hashes numbered from `from` up to, but excluding, `to`. */
  ghost function CanonicalBetween(canonical: map<nat, BlockHash>, from: nat, to: nat): set<BlockHash> {
    set n | n in canonical && from <= n < to :: canonical[n]
  }

  lemma {:induction false} MaxExists(s: set<nat>) returns (k: nat)
    requires s != {}
    ensures k in s && forall j :: j in s ==> j <= k
  {
    var x :| x in s;
    k := x;
    if s != {x} {
      var other := MaxExists(s - {x});
      k := if other > x then other else x;
      assert forall j :: j in s ==> j == x || j in s - {x};
    }
  }

  /** The highest canonical block, or the default when there is none. */
  function TipOf(canonical: map<nat, BlockHash>): NumHash {
    if canonical == map[] then NumHash(0, Foreign(0))
    else
      MaxWitness(canonical.Keys);
      var n :| n in canonical && forall j :: j in canonical ==> j <= n;
      NumHash(n, canonical[n])
  }

  lemma MaxWitness(s: set<nat>)
    requires s != {}
    ensures exists k :: k in s && forall j :: j in s ==> j <= k
  {
    var k := MaxExists(s);
  }

  lemma HashesOfPrefix(bs: seq<Block>, i: nat)
    requires i < |bs|
    ensures Hashes(bs[..i + 1]) == Hashes(bs[..i]) + {bs[i].Hash()}
  {
    assert bs[..i + 1] == bs[..i] + [bs[i]];
  }

  lemma UnderMore(index: map<BlockHash, set<BlockHash>>, keys: set<BlockHash>, k: BlockHash)
    ensures Under(index, keys + {k}) == Under(index, keys) + (if k in index then index[k] else {})
  {
  }

  lemma OwnedMore(owner: map<BlockHash, nat>, hashes: set<BlockHash>, h: BlockHash, id: nat)
    ensures (owner + (map x | x in hashes :: id))[h := id] == owner + (map x | x in hashes + {h} :: id)
  {
  }

  class BlockIndices {
    var lastFinalized: nat
    var canonical: map<nat, BlockHash>
    var forkToChild: map<BlockHash, set<BlockHash>>
    var numberToHashes: map<nat, set<BlockHash>>
    var blocksToChain: map<BlockHash, nat>

    ghost function View(): Indices
      reads this
    {
      Indices(lastFinalized, canonical, forkToChild, numberToHashes, blocksToChain)
    }

    constructor (lastFinalized: nat, canonical: map<nat, BlockHash>)
      ensures View() == Indices(lastFinalized, canonical, map[], map[], map[])
    {
      this.lastFinalized, this.canonical := lastFinalized, canonical;
      forkToChild, numberToHashes, blocksToChain := map[], map[], map[];
    }

    method InsertNonForkBlock(number: nat, hash: BlockHash, id: nat)
      modifies this
      ensures View() == old(View()).(numberToHashes := Add(old(numberToHashes), number, hash),
                                     blocksToChain := old(blocksToChain)[hash := id])
    {
      numberToHashes := Add(numberToHashes, number, hash);
      blocksToChain := blocksToChain[hash := id];
    }

    method InsertChain(id: nat, chain: Chain, ghost members: set<BlockHash>, ghost firsts: set<BlockHash>)
      requires chain != []
      requires Groups(numberToHashes, members, NumberOf) && Groups(forkToChild, firsts, ParentOf)
      modifies this
      ensures blocksToChain == old(blocksToChain) + map h | h in Hashes(chain) :: id
      ensures Groups(numberToHashes, members + Hashes(chain), NumberOf)
      ensures Groups(forkToChild, firsts + {chain[0].Hash()}, ParentOf)
      ensures lastFinalized == old(lastFinalized) && canonical == old(canonical)
    {
      assert Hashes(chain[..0]) == {};
      hide Groups; hide Add; hide Hashes;
      assert members + Hashes(chain[..0]) == members;
      for i := 0 to |chain|
        invariant blocksToChain == old(blocksToChain) + map h | h in Hashes(chain[..i]) :: id
        invariant Groups(numberToHashes, members + Hashes(chain[..i]), NumberOf)
        invariant lastFinalized == old(lastFinalized) && canonical == old(canonical) && forkToChild == old(forkToChild)
      {
        var block := chain[i];
        HashesOfPrefix(chain, i);
        AddKeepsGroups(numberToHashes, members + Hashes(chain[..i]), NumberOf, block.Hash());
        assert members + Hashes(chain[..i]) + {block.Hash()} == members + Hashes(chain[..i + 1]);
        OwnedMore(old(blocksToChain), Hashes(chain[..i]), block.Hash(), id);
        blocksToChain := blocksToChain[block.Hash() := id];
        numberToHashes := Add(numberToHashes, block.number, block.Hash());
      }
      assert chain[..|chain|] == chain;
      var first := chain[0];
      AddKeepsGroups(forkToChild, firsts, ParentOf, first.Hash());
      forkToChild := Add(forkToChild, first.parentHash, first.Hash());
    }

    /** Takes the hashes out of `blocksToChain` and returns the sidechains they were in. */
    method TakeIds(hashes: set<BlockHash>) returns (ids: set<nat>)
      modifies this`blocksToChain
      ensures blocksToChain == old(blocksToChain) - hashes
      ensures ids == Ids(old(blocksToChain), hashes)
    {
      ids := {};
      var rest := hashes;
      while rest != {}
        invariant rest <= hashes
        invariant blocksToChain == old(blocksToChain) - (hashes - rest)
        invariant ids == Ids(old(blocksToChain), hashes - rest)
      {
        var h :| h in rest;
        if h in blocksToChain {
          ids := ids + {blocksToChain[h]};
          blocksToChain := blocksToChain - {h};
        }
        assert hashes - (rest - {h}) == (hashes - rest) + {h};
        rest := rest - {h};
      }
      assert hashes - rest == hashes;
    }

    method RemoveBlock(number: nat, hash: BlockHash) returns (ids: set<nat>)
      modifies this
      ensures var kids := if hash in old(forkToChild) then old(forkToChild)[hash] else {};
              && View() == old(View()).(numberToHashes := Remove(old(numberToHashes), number, hash),
                                        forkToChild := old(forkToChild) - {hash},
                                        blocksToChain := old(blocksToChain) - {hash} - kids)
              && ids == Ids(old(blocksToChain) - {hash}, kids)
    {
      numberToHashes := Remove(numberToHashes, number, hash);
      blocksToChain := blocksToChain - {hash};
      ids := {};
      if hash in forkToChild {
        var kids := forkToChild[hash];
        forkToChild := forkToChild - {hash};
        ids := TakeIds(kids);
      }
    }

    /** Takes the given blocks out of the indices and returns the sidechains that fork from them. */
    method RemoveBlocks(blocks: seq<NumHash>) returns (ids: set<nat>)
      modifies this
      ensures lastFinalized == old(lastFinalized) && canonical == old(canonical)
      ensures blocks == [] ==> ids == {} && View() == old(View())
    {
      ids := {};
      for i := 0 to |blocks|
        invariant lastFinalized == old(lastFinalized) && canonical == old(canonical)
        invariant i == 0 ==> ids == {} && View() == old(View())
      {
        var more := RemoveBlock(blocks[i].number, blocks[i].hash);
        ids := ids + more;
      }
    }

    /** Replaces the canonical hashes. The hashes they are compared with are read after they are
        replaced, so nothing is found to differ and no sidechain is disconnected, whatever changed. */
    method UpdateBlockHashes(hashes: map<nat, BlockHash>) returns (ids: set<nat>, added: seq<NumHash>)
      modifies this
      ensures View() == old(View()).(canonical := hashes)
      ensures ids == {} && added == []
    {
      canonical := hashes;
      var news := Below(hashes, TipOf(hashes).number + 1);
      var olds := Below(canonical, TipOf(canonical).number + 1);
      var removed;
      removed, added := Compare(olds, news);
      NothingMissing(olds, news);
      ids := RemoveBlocks(removed);
    }

    /** Takes a sidechain out of the indices and returns the sidechains that fork from it. */
    method RemoveChain(chain: Chain, ghost members: set<BlockHash>) returns (ids: set<nat>)
      requires Groups(numberToHashes, members, NumberOf)
      requires Under(forkToChild, Hashes(chain)) !! Hashes(chain)
      modifies this
      ensures var kids := Under(old(forkToChild), Hashes(chain));
              && blocksToChain == old(blocksToChain) - Hashes(chain) - kids
              && ids == Ids(old(blocksToChain), kids)
      ensures forkToChild == old(forkToChild) - Hashes(chain)
      ensures Groups(numberToHashes, members - Hashes(chain), NumberOf)
      ensures lastFinalized == old(lastFinalized) && canonical == old(canonical)
    {
      hide Groups; hide Remove;
      ids := {};
      assert members - Hashes(chain[..0]) == members;
      for i := 0 to |chain|
        invariant blocksToChain == old(blocksToChain) - Hashes(chain[..i]) - Under(old(forkToChild), Hashes(chain[..i]))
        invariant ids == Ids(old(blocksToChain), Under(old(forkToChild), Hashes(chain[..i])))
        invariant forkToChild == old(forkToChild) - Hashes(chain[..i])
        invariant Groups(numberToHashes, members - Hashes(chain[..i]), NumberOf)
        invariant lastFinalized == old(lastFinalized) && canonical == old(canonical)
      {
        var hash := chain[i].Hash();
        HashesOfPrefix(chain, i);
        UnderMore(old(forkToChild), Hashes(chain[..i]), hash);
        RemoveKeepsGroups(numberToHashes, members - Hashes(chain[..i]), NumberOf, hash);
        assert members - Hashes(chain[..i]) - {hash} == members - Hashes(chain[..i + 1]);
        RemoveStep(old(forkToChild), old(blocksToChain), chain, i);
        var more := RemoveBlock(chain[i].number, hash);
        ids := ids + more;
      }
      assert chain[..|chain|] == chain;
    }

    method CanonicalizeBlocks(blocks: Chain, ghost members: set<BlockHash>, ghost firsts: set<BlockHash>)
      requires Groups(numberToHashes, members, NumberOf) && Groups(forkToChild, firsts, ParentOf)
      modifies this
      ensures blocks == [] ==> View() == old(View())
      ensures blocks != [] ==>
                canonical == (map n | n in old(canonical) && n < blocks[0].number :: old(canonical)[n]) + HashByNumber(blocks)
      ensures blocksToChain == old(blocksToChain) - Hashes(blocks)
      ensures Groups(numberToHashes, members - Hashes(blocks), NumberOf)
      ensures Groups(forkToChild, firsts - Hashes(blocks), ParentOf)
      ensures lastFinalized == old(lastFinalized)
    {
      hide Groups; hide Remove;
      assert members - Hashes(blocks[..0]) == members && firsts - Hashes(blocks[..0]) == firsts;
      assert blocks[..|blocks|] == blocks;
      if blocks == [] {
        assert blocksToChain - Hashes(blocks) == blocksToChain;
        return;
      }
      var first := blocks[0].number;
      canonical := map n | n in canonical && n < first :: canonical[n];
      for i := 0 to |blocks|
        invariant blocksToChain == old(blocksToChain) - Hashes(blocks[..i])
        invariant Groups(numberToHashes, members - Hashes(blocks[..i]), NumberOf)
        invariant Groups(forkToChild, firsts - Hashes(blocks[..i]), ParentOf)
        invariant lastFinalized == old(lastFinalized)
        invariant canonical == map n | n in old(canonical) && n < first :: old(canonical)[n]
      {
        var hash := blocks[i].Hash();
        HashesOfPrefix(blocks, i);
        RemoveKeepsGroups(numberToHashes, members - Hashes(blocks[..i]), NumberOf, hash);
        RemoveKeepsGroups(forkToChild, firsts - Hashes(blocks[..i]), ParentOf, hash);
        assert members - Hashes(blocks[..i]) - {hash} == members - Hashes(blocks[..i + 1]);
        assert firsts - Hashes(blocks[..i]) - {hash} == firsts - Hashes(blocks[..i + 1]);
        blocksToChain := blocksToChain - {hash};
        numberToHashes := Remove(numberToHashes, blocks[i].number, hash);
        forkToChild := Remove(forkToChild, blocks[i].parentHash, hash);
      }
      canonical := canonical + HashByNumber(blocks);
    }

    method UnwindCanonicalChain(unwindTo: nat)
      modifies this
      ensures View() == old(View()).(canonical := map n | n in old(canonical) && n <= unwindTo :: old(canonical)[n])
    {
      canonical := map n | n in canonical && n <= unwindTo :: canonical[n];
    }

    /** The canonical hashes from the last finalized block up to, but excluding, `finalized`. */
    method BlocksToFinalize(finalized: nat) returns (blocks: seq<BlockHash>)
      ensures Elements(blocks) == CanonicalBetween(canonical, lastFinalized, finalized)
    {
      blocks := [];
      var n := lastFinalized;
      while n < finalized
        invariant lastFinalized <= n && (n <= finalized || blocks == [])
        invariant Elements(blocks) == CanonicalBetween(canonical, lastFinalized, n)
        decreases finalized - n
      {
        assert CanonicalBetween(canonical, lastFinalized, n + 1)
            == CanonicalBetween(canonical, lastFinalized, n) + (if n in canonical then {canonical[n]} else {});
        if n in canonical {
          assert Elements(blocks + [canonical[n]]) == Elements(blocks) + {canonical[n]};
          blocks := blocks + [canonical[n]];
        }
        n := n + 1;
      }
    }

    /** Disconnects the sidechains that fork from the given blocks and returns them. */
    method DropForks(blocks: seq<BlockHash>) returns (ids: set<nat>)
      modifies this`forkToChild, this`blocksToChain
      ensures forkToChild == old(forkToChild) - Elements(blocks)
      ensures blocksToChain == old(blocksToChain) - Under(old(forkToChild), Elements(blocks))
      ensures ids == Ids(old(blocksToChain), Under(old(forkToChild), Elements(blocks)))
    {
      ids := {};
      for i := 0 to |blocks|
        invariant forkToChild == old(forkToChild) - Elements(blocks[..i])
        invariant blocksToChain == old(blocksToChain) - Under(old(forkToChild), Elements(blocks[..i]))
        invariant ids == Ids(old(blocksToChain), Under(old(forkToChild), Elements(blocks[..i])))
      {
        var hash := blocks[i];
        assert blocks[..i + 1] == blocks[..i] + [hash];
        assert Elements(blocks[..i + 1]) == Elements(blocks[..i]) + {hash};
        UnderMore(old(forkToChild), Elements(blocks[..i]), hash);
        if hash in forkToChild {
          var kids := forkToChild[hash];
          forkToChild := forkToChild - {hash};
          var more := TakeIds(kids);
          ids := ids + more;
        }
      }
      assert blocks[..|blocks|] == blocks;
    }

    /** Moves the finalized block and returns the sidechains that fork from what it leaves behind. */
    method FinalizeCanonicalBlocks(finalized: nat, retain: nat) returns (ids: set<nat>)
      modifies this
      ensures var done := CanonicalBetween(old(canonical), old(lastFinalized), finalized);
              var kids := Under(old(forkToChild), done);
              && ids == Ids(old(blocksToChain), kids)
              && View() == Indices(finalized, map n | n in old(canonical) && finalized <= n + retain :: old(canonical)[n],
                                   old(forkToChild) - done, old(numberToHashes), old(blocksToChain) - kids)
    {
      var blocks := BlocksToFinalize(finalized);
      var removeUntil := if retain <= finalized then finalized - retain else 0;
      canonical := map n | n in canonical && removeUntil <= n :: canonical[n];
      ids := DropForks(blocks);
      lastFinalized := finalized;
    }
  }

  lemma RemoveStep(forks: map<BlockHash, set<BlockHash>>, owner: map<BlockHash, nat>, chain: Chain, i: nat)
    requires i < |chain|
    requires Under(forks, Hashes(chain)) !! Hashes(chain)
    ensures var before, after, hash := Hashes(chain[..i]), Hashes(chain[..i + 1]), chain[i].Hash();
            var kids := if hash in forks - before then forks[hash] else {};
            && owner - before - Under(forks, before) - {hash} - kids == owner - after - Under(forks, after)
            && Ids(owner, Under(forks, before)) + Ids(owner - before - Under(forks, before) - {hash}, kids)
               == Ids(owner, Under(forks, after))
  {
    var before, after, hash := Hashes(chain[..i]), Hashes(chain[..i + 1]), chain[i].Hash();
    HashesOfPrefix(chain, i);
    UnderMore(forks, before, hash);
    var kids := if hash in forks - before then forks[hash] else {};
    var gone := Under(forks, before);
    assert Under(forks, after) == gone + kids;
    assert owner - before - gone - {hash} - kids == owner - after - (gone + kids);
    var left := owner - before - gone - {hash};
    assert after <= Hashes(chain);
    assert kids <= Under(forks, Hashes(chain));
    forall h | h in kids && h in owner
      ensures h in gone || h in left
    {
    }
    assert Ids(left, kids) <= Ids(owner, kids);
    assert Ids(owner, gone + kids) == Ids(owner, gone) + Ids(left, kids);
  }
}
