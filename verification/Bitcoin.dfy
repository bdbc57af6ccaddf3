/** Bitcoin transactions, blocks and chains as far as the peg depends on them.

    Transaction ids, header hashes, Merkle nodes and tweaked scripts are free
    constructors over what they commit to, so none of them has a collision.
 */
module Bitcoin {
  import opened Blocks

  type Account = nat

  datatype PublicKey = PublicKey(id: nat)

  /** `Gateway` is the taproot script of the aggregate key tweaked with an account, and `Change` that
      of the key on its own. */
  datatype Script = Gateway(key: PublicKey, account: Account) | Change(changeKey: PublicKey) | OtherScript(id: nat)

  datatype TxOut = TxOut(sats: nat, script: Script)

  datatype OutPoint = OutPoint(txid: Txid, vout: nat)

  datatype Tx = Tx(inputs: seq<OutPoint>, outputs: seq<TxOut>, salt: nat)
  {
    function Txid(): Txid { TxidOf(this) }

    predicate IsCoinbase() {
      |inputs| == 1 && inputs[0] == OutPoint(ForeignTxid(0), 0xffff_ffff)
    }
  }

  datatype Txid = TxidOf(tx: Tx) | ForeignTxid(id: nat)

  datatype MerkleNode = TxLeaf(txid: Txid) | Inner(left: MerkleNode, right: MerkleNode) | ForeignNode(id: nat)

  datatype Header = Header(prev: HeaderHash, merkleRoot: MerkleNode, nonce: nat)
  {
    function Hash(): HeaderHash { HeaderHashOf(this) }
  }

  datatype HeaderHash = HeaderHashOf(header: Header) | ForeignHeader(id: nat)

  /** The transactions a Merkle node commits to. */
  ghost function Leaves(node: MerkleNode): set<Txid> {
    match node
    case TxLeaf(txid) => {txid}
    case Inner(left, right) => Leaves(left) + Leaves(right)
    case ForeignNode(_) => {}
  }

  /** A partial Merkle tree: the leaves it proves, and nodes in place of the rest. */
  datatype PartialMerkleTree =
    | Matched(txid: Txid)
    | Pruned(node: MerkleNode)
    | Branch(left: PartialMerkleTree, right: PartialMerkleTree)
    | Malformed

  datatype Extraction = Extraction(root: MerkleNode, txids: seq<Txid>)

  function ExtractMatches(tree: PartialMerkleTree): Option<Extraction> {
    match tree
    case Matched(txid) => Some(Extraction(TxLeaf(txid), [txid]))
    case Pruned(node) => Some(Extraction(node, []))
    case Malformed => None
    case Branch(left, right) =>
      var l, r := ExtractMatches(left), ExtractMatches(right);
      if l.None? || r.None? then None
      else Some(Extraction(Inner(l.value.root, r.value.root), l.value.txids + r.value.txids))
  }

  lemma {:induction false} ExtractedAreLeaves(tree: PartialMerkleTree)
    requires ExtractMatches(tree).Some?
    ensures var x := ExtractMatches(tree).value; forall t :: t in x.txids ==> t in Leaves(x.root)
  {
    if tree.Branch? {
      ExtractedAreLeaves(tree.left);
      ExtractedAreLeaves(tree.right);
    }
  }

  /** A chain of headers from the genesis block, indexed by height. */
  ghost predicate HeaderChain(chain: seq<Header>) {
    && (chain != [] ==> chain[0].prev.ForeignHeader?)
    && (forall i :: 0 < i < |chain| ==> chain[i].prev == chain[i - 1].Hash())
  }

  /** No transaction is in two blocks of the chain. */
  ghost predicate OneHeightPerTx(chain: seq<Header>) {
    forall i, j, t ::
      (0 <= i < |chain| && 0 <= j < |chain| && t in Leaves(chain[i].merkleRoot) && t in Leaves(chain[j].merkleRoot)) ==>
        i == j
  }

  /** Headers that follow one another. */
  ghost predicate LinkedHeaders(headers: seq<Header>) {
    forall i :: 0 <= i < |headers| - 1 ==> headers[i + 1].prev == headers[i].Hash()
  }

  /** Linking back from a block of the chain stays on the chain and cannot pass the genesis block. */
  lemma {:induction false} LinkedBack(chain: seq<Header>, headers: seq<Header>, p: nat, height: nat, k: nat)
    requires HeaderChain(chain) && LinkedHeaders(headers)
    requires p < |headers| && height < |chain| && headers[p] == chain[height] && k <= p
    ensures k <= height && headers[p - k] == chain[height - k]
  {
    if k > 0 {
      LinkedBack(chain, headers, p, height, k - 1);
      assert headers[p - k + 1].prev == headers[p - k].Hash();
    }
  }

  /** The number of blocks below the one with the given hash. */
  ghost function BlocksBelow(hash: HeaderHash): nat
    decreases hash
  {
    match hash
    case HeaderHashOf(header) => 1 + BlocksBelow(header.prev)
    case ForeignHeader(_) => 0
  }

  /** Headers that follow one another are all different. */
  lemma {:induction false} LinkedDistinct(headers: seq<Header>, i: nat, j: nat)
    requires LinkedHeaders(headers) && i < j < |headers|
    ensures BlocksBelow(headers[i].Hash()) < BlocksBelow(headers[j].Hash())
    decreases j
  {
    assert headers[j - 1 + 1].prev == headers[j - 1].Hash();
    if i < j - 1 {
      LinkedDistinct(headers, i, j - 1);
    }
  }
}
