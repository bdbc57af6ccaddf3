/** Chains of consecutive blocks, in order of their numbers. */
module Chains {
  import opened Blocks

  type Chain = seq<Block>

  /** Consecutive numbers, each block the child of the one before it. */
  ghost predicate Linked(c: Chain) {
    && (forall i :: 0 <= i < |c| ==> c[i].number == c[0].number + i)
    && (forall i :: 0 < i < |c| ==> c[i].parentHash == c[i - 1].Hash())
  }

  function Tip(c: Chain): Block
    requires c != []
  {
    c[|c| - 1]
  }

  /** The block a chain forks from, as (number, hash). */
  function ForkBlock(c: Chain): NumHash
    requires c != []
  {
    ParentNumHash(c[0])
  }

  /** The hashes of a sequence of blocks, by number. */
  function HashByNumber(c: Chain): map<nat, BlockHash> {
    if c == [] then map[] else HashByNumber(c[..|c| - 1])[Tip(c).number := Tip(c).Hash()]
  }

  lemma {:induction false} HashByNumberOfLinked(c: Chain)
    requires Linked(c)
    ensures forall n :: n in HashByNumber(c) <==> c != [] && c[0].number <= n <= Tip(c).number
    ensures forall n :: n in HashByNumber(c) ==> HashByNumber(c)[n] == c[n - c[0].number].Hash()
  {
    if c != [] {
      var front := c[..|c| - 1];
      SplitHashes(c, |c| - 1);
      HashByNumberOfLinked(front);
      assert Tip(c).number == c[0].number + |c| - 1;
      assert front != [] ==> front[0] == c[0] && Tip(front).number == Tip(c).number - 1;
      assert HashByNumber(c) == HashByNumber(front)[Tip(c).number := Tip(c).Hash()];
      hide HashByNumber; hide Linked; hide Hashes;
    }
  }

  datatype SplitTarget = AtHash(hash: BlockHash) | AtNumber(number: nat)

  datatype ChainSplit =
    | Split(canonical: Chain, pending: Chain)
    | NoSplitCanonical(all: Chain)
    | NoSplitPending(all: Chain)

  /** The number of the block with the given hash, if the chain has it. */
  method BlockNumber(c: Chain, hash: BlockHash) returns (r: Option<nat>)
    ensures r.None? <==> hash !in Hashes(c)
    ensures r.Some? ==> r.value == NumberOf(hash)
  {
    for i := 0 to |c|
      invariant forall j :: 0 <= j < i ==> c[j].Hash() != hash
    {
      if c[i].Hash() == hash {
        return Some(c[i].number);
      }
    }
    return None;
  }

  /** Splits a chain after the target block; the lower part becomes canonical. */
  method SplitChain(c: Chain, target: SplitTarget) returns (r: ChainSplit)
    requires c != [] && Linked(c)
    ensures (if target.AtHash? then target.hash !in Hashes(c)
             else target.number < c[0].number || Tip(c).number < target.number) <==> r == NoSplitPending(c)
    ensures r.NoSplitPending? ==> r == NoSplitPending(c)
    ensures !r.NoSplitPending? ==>
              var at := if target.AtHash? then NumberOf(target.hash) else target.number;
              && c[0].number <= at <= Tip(c).number
              && var k := at - c[0].number + 1;
                 r == if k == |c| then NoSplitCanonical(c) else Split(c[..k], c[k..])
  {
    var tip := Tip(c).number;
    var number;
    match target {
      case AtHash(hash) =>
        var found := BlockNumber(c, hash);
        if found.None? {
          return NoSplitPending(c);
        }
        InChain(c, hash);
        if found.value == tip {
          return NoSplitCanonical(c);
        }
        number := found.value;
      case AtNumber(n) =>
        if n > tip {
          return NoSplitPending(c);
        }
        if n == tip {
          return NoSplitCanonical(c);
        }
        if n < c[0].number {
          return NoSplitPending(c);
        }
        number := n;
    }
    var k := 0;
    while k < |c| && c[k].number < number + 1
      invariant 0 <= k <= |c|
      invariant k > 0 ==> c[k - 1].number <= number
    {
      k := k + 1;
    }
    return Split(c[..k], c[k..]);
  }

  /** Appends a chain that starts on the tip of another. */
  method AppendChain(c: Chain, other: Chain) returns (r: Option<Chain>)
    requires c != [] && other != []
    ensures r == if Tip(c).Hash() == other[0].parentHash then Some(c + other) else None
  {
    if Tip(c).Hash() != ForkBlock(other).hash {
      return None;
    }
    return Some(c + other);
  }

  lemma InChain(c: Chain, h: BlockHash)
    requires c != [] && Linked(c) && h in Hashes(c)
    ensures h.HashOf? && c[0].number <= NumberOf(h) <= Tip(c).number
    ensures NumberOf(h) - c[0].number < |c| && c[NumberOf(h) - c[0].number].Hash() == h
  {
    var i :| 0 <= i < |c| && c[i].Hash() == h;
  }

  /** A block of a chain is its first block or sits on another block of it. */
  lemma ParentInChain(c: Chain, h: BlockHash)
    requires c != [] && Linked(c) && h in Hashes(c)
    ensures h == c[0].Hash()
            || (h.HashOf? && h.block.parentHash in Hashes(c) && NumberOf(h) == NumberOf(h.block.parentHash) + 1)
  {
    InChain(c, h);
    var i := NumberOf(h) - c[0].number;
    assert i > 0 ==> c[i - 1] in c;
  }

  lemma SplitHashes(c: Chain, k: nat)
    requires k <= |c| && Linked(c)
    ensures Linked(c[..k]) && Linked(c[k..])
    ensures Hashes(c) == Hashes(c[..k]) + Hashes(c[k..])
    ensures Hashes(c[..k]) !! Hashes(c[k..])
    ensures 0 < k < |c| ==> c[k..][0].parentHash == Tip(c[..k]).Hash()
  {
    assert c == c[..k] + c[k..];
    forall h | h in Hashes(c[..k])
      ensures h !in Hashes(c[k..])
    {
      var i :| 0 <= i < k && c[i].Hash() == h;
    }
  }

  lemma JoinLinked(c: Chain, other: Chain)
    requires Linked(c) && Linked(other) && c != [] && other != []
    requires other[0].parentHash == Tip(c).Hash() && other[0].number == Tip(c).number + 1
    ensures Linked(c + other) && Hashes(c + other) == Hashes(c) + Hashes(other)
  {
    var j := c + other;
    forall i | 0 <= i < |j|
      ensures j[i].number == j[0].number + i
    {
      if i >= |c| {
        assert j[i] == other[i - |c|];
      }
    }
    forall i | 0 < i < |j|
      ensures j[i].parentHash == j[i - 1].Hash()
    {
      if i > |c| {
        assert j[i] == other[i - |c|] && j[i - 1] == other[i - |c| - 1];
      }
    }
  }

  /** The canonical hash that the ancestors of `h` lead down to. */
  ghost function ForkPoint(canon: set<BlockHash>, h: BlockHash): BlockHash
    decreases h
  {
    if h in canon || h.Foreign? then h else ForkPoint(canon, h.block.parentHash)
  }

  /** The blocks from just above that canonical hash up to `h`. */
  ghost function Path(canon: set<BlockHash>, h: BlockHash): Chain
    decreases h
  {
    if h in canon || h.Foreign? then [] else Path(canon, h.block.parentHash) + [h.block]
  }

  lemma PathStep(canon: set<BlockHash>, b: Block)
    requires b.Hash() !in canon
    ensures Path(canon, b.Hash()) == Path(canon, b.parentHash) + [b]
    ensures ForkPoint(canon, b.Hash()) == ForkPoint(canon, b.parentHash)
  {
  }

  /** A linked chain outside the canonical hashes extends the path of the block it sits on. */
  lemma {:induction false} PathOfChain(canon: set<BlockHash>, c: Chain)
    requires c != [] && Linked(c) && Hashes(c) !! canon
    ensures Path(canon, Tip(c).Hash()) == Path(canon, c[0].parentHash) + c
    ensures ForkPoint(canon, Tip(c).Hash()) == ForkPoint(canon, c[0].parentHash)
  {
    assert Tip(c).Hash() in Hashes(c) by { assert Tip(c) in c; }
    hide Path; hide ForkPoint; hide Hashes;
    PathStep(canon, Tip(c));
    var front := c[..|c| - 1];
    assert c == front + [Tip(c)];
    if front == [] {
      assert c == [c[0]];
    } else {
      SplitHashes(c, |c| - 1);
      assert Tip(c).parentHash == Tip(front).Hash() && front[0] == c[0];
      hide Linked;
      PathOfChain(canon, front);
      assert Path(canon, c[0].parentHash) + c == (Path(canon, c[0].parentHash) + front) + [Tip(c)];
    }
  }
}
