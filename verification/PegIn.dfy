/** Acceptance of peg-in proofs. */
module PegIns {
  import opened Blocks
  import opened Bitcoin
  import opened Common

  const COINBASE_MATURITY := 100
  const SATOSHI_IN_WEI := 10_000_000_000
  const U256 := 0x1_0000_0000_0000_0000_0000_0000_0000_0000_0000_0000_0000_0000_0000_0000_0000_0000

  /** One proof. `refBlock` is the reference block of a version 1 proof. */
  datatype PeginMeta = PeginMeta(
    version: nat,
    merkleProof: PartialMerkleTree,
    outpoint: OutPoint,
    headers: seq<Header>,
    tx: Tx,
    refBlock: Option<nat>)

  datatype PeginData = PeginData(account: Account, amount: nat, height: nat, meta: seq<PeginMeta>)

  /** The newest Bitcoin block a proof may lead up to. */
  datatype Commitment = Commitment(header: Header, height: nat)

  /** The aggregate key, and whether the library accepts it and its tweak by an account. */
  datatype Federation = Federation(key: PublicKey, keyParses: bool, tweaks: Account -> bool)

  datatype PeginError =
    | BadVersion | CommitmentMissing | BadMerkleProof | NotIncluded | WrongMerkleRoot | WrongTxid
    | BadOutputIndex | BadKey | BadTweak | WrongScript | BadHeaderSequence | WrongHeight | ImmatureCoinbase

  /** `Abort` stands for a panic: an index out of range or arithmetic out of its width. */
  datatype Outcome<T> = Ok(value: T) | Err(error: PeginError) | Abort

  // ---------------------------------------------------------------- one proof

  /** The position of the last header with the given hash, or -1. */
  ghost function LastPosition(headers: seq<Header>, hash: HeaderHash): (p: int)
    ensures -1 <= p < |headers|
  {
    if headers == [] then -1
    else if headers[|headers| - 1].Hash() == hash then |headers| - 1
    else LastPosition(headers[..|headers| - 1], hash)
  }

  lemma {:induction false} LastPositionIsLast(headers: seq<Header>, hash: HeaderHash)
    ensures var p := LastPosition(headers, hash);
            && (p >= 0 ==> headers[p].Hash() == hash)
            && (forall k :: p < k < |headers| ==> headers[k].Hash() != hash)
  {
    if headers != [] && headers[|headers| - 1].Hash() != hash {
      LastPositionIsLast(headers[..|headers| - 1], hash);
    }
  }

  /** What the checks of one proof decide, in the order in which they are made. `sum` is the value
      in wei of the proofs before it. */
  ghost function Verdict(sum: nat, m: PeginMeta, account: Account, height: nat, commitment: Commitment, fed: Federation)
    : Outcome<nat>
  {
    var merkle := ExtractMatches(m.merkleProof);
    var p := LastPosition(m.headers, commitment.header.Hash());
    var vout := m.outpoint.vout;
    if m.version != 0 && m.version != 1 then Err(BadVersion)
    else if p < 0 then Err(CommitmentMissing)
    else if merkle.None? then Err(BadMerkleProof)
    else if m.outpoint.txid !in merkle.value.txids then Err(NotIncluded)
    else if m.headers[0].merkleRoot != merkle.value.root then Err(WrongMerkleRoot)
    else if m.tx.Txid() != m.outpoint.txid then Err(WrongTxid)
    else if |m.tx.outputs| < vout then Err(BadOutputIndex)
    else if !fed.keyParses then Err(BadKey)
    else if !fed.tweaks(account) then Err(BadTweak)
    else if |m.tx.outputs| == vout then Abort
    else if m.tx.outputs[vout].script != Gateway(fed.key, account) then Err(WrongScript)
    else if sum + m.tx.outputs[vout].sats * SATOSHI_IN_WEI >= U256 then Abort
    else if !LinkedHeaders(m.headers) then Err(BadHeaderSequence)
    else if commitment.height < p % U32 then Abort
    else if commitment.height - p % U32 != height then Err(WrongHeight)
    else if m.tx.IsCoinbase() && p % U32 < COINBASE_MATURITY then Err(ImmatureCoinbase)
    else Ok(sum + m.tx.outputs[vout].sats * SATOSHI_IN_WEI)
  }

  /** The number of headers left after those behind the last one with the given hash are skipped. */
  method CountUpTo(headers: seq<Header>, hash: HeaderHash) returns (count: nat)
    ensures count == LastPosition(headers, hash) + 1
  {
    count := |headers|;
    assert headers[..count] == headers;
    while count > 0 && headers[count - 1].Hash() != hash
      invariant count <= |headers|
      invariant LastPosition(headers, hash) == LastPosition(headers[..count], hash)
    {
      assert headers[..count][..count - 1] == headers[..count - 1];
      count := count - 1;
    }
  }

  method FollowOneAnother(headers: seq<Header>) returns (linked: bool)
    ensures linked == LinkedHeaders(headers)
  {
    for i := 0 to |headers|
      invariant forall k :: 0 <= k < i && k < |headers| - 1 ==> headers[k + 1].prev == headers[k].Hash()
    {
      if i + 1 < |headers| && headers[i + 1].prev != headers[i].Hash() {
        return false;
      }
    }
    return true;
  }

  method ValidateProof(sum: nat, m: PeginMeta, account: Account, height: nat, commitment: Commitment, fed: Federation)
    returns (r: Outcome<nat>)
    ensures r == Verdict(sum, m, account, height, commitment, fed)
  {
    hide LinkedHeaders; hide LastPosition; hide ExtractMatches;
    var hash := commitment.header.Hash();
    LastPositionIsLast(m.headers, hash);
    if m.version != 0 && m.version != 1 {
      return Err(BadVersion);
    }
    if !exists h :: h in m.headers && h.Hash() == hash {
      return Err(CommitmentMissing);
    }
    var merkle := ExtractMatches(m.merkleProof);
    if merkle.None? {
      return Err(BadMerkleProof);
    }
    if m.outpoint.txid !in merkle.value.txids {
      return Err(NotIncluded);
    }
    if m.headers[0].merkleRoot != merkle.value.root {
      return Err(WrongMerkleRoot);
    }
    if m.tx.Txid() != m.outpoint.txid {
      return Err(WrongTxid);
    }
    if |m.tx.outputs| < m.outpoint.vout {
      return Err(BadOutputIndex);
    }
    if !fed.keyParses {
      return Err(BadKey);
    }
    if !fed.tweaks(account) {
      return Err(BadTweak);
    }
    if m.outpoint.vout >= |m.tx.outputs| {
      return Abort;
    }
    var output := m.tx.outputs[m.outpoint.vout];
    if output.script != Gateway(fed.key, account) {
      return Err(WrongScript);
    }
    var total := sum + output.sats * SATOSHI_IN_WEI;
    if total >= U256 {
      return Abort;
    }
    var linked := FollowOneAnother(m.headers);
    if !linked {
      return Err(BadHeaderSequence);
    }
    var count := CountUpTo(m.headers, hash);
    var diff := (count - 1) % U32;
    if commitment.height < diff {
      return Abort;
    }
    if commitment.height - diff != height {
      return Err(WrongHeight);
    }
    if m.tx.IsCoinbase() && diff < COINBASE_MATURITY {
      return Err(ImmatureCoinbase);
    }
    return Ok(total);
  }

  // ---------------------------------------------------------------- all proofs of a peg-in

  /** What the first `k` proofs decide. */
  ghost function VerdictOn(p: PeginData, commitment: Commitment, fed: Federation, k: nat): Outcome<nat>
    requires k <= |p.meta|
  {
    if k == 0 then Ok(0)
    else
      var before := VerdictOn(p, commitment, fed, k - 1);
      if before.Ok? then Verdict(before.value, p.meta[k - 1], p.account, p.height, commitment, fed) else before
  }

  /** A proof that does not pass decides the outcome. */
  lemma {:induction false} VerdictStops(p: PeginData, commitment: Commitment, fed: Federation, k: nat)
    requires k <= |p.meta| && !VerdictOn(p, commitment, fed, k).Ok?
    ensures VerdictOn(p, commitment, fed, |p.meta|) == VerdictOn(p, commitment, fed, k)
    decreases |p.meta| - k
  {
    if k < |p.meta| {
      VerdictStops(p, commitment, fed, k + 1);
    }
  }

  /** The value of all proofs in wei, or what the first one that fails decides. */
  method Validate(p: PeginData, commitment: Commitment, fed: Federation) returns (r: Outcome<nat>)
    ensures r == VerdictOn(p, commitment, fed, |p.meta|)
  {
    hide Verdict;
    var sum := 0;
    for i := 0 to |p.meta|
      invariant VerdictOn(p, commitment, fed, i) == Ok(sum)
    {
      r := ValidateProof(sum, p.meta[i], p.account, p.height, commitment, fed);
      if !r.Ok? {
        VerdictStops(p, commitment, fed, i + 1);
        return;
      }
      sum := r.value;
    }
    return Ok(sum);
  }

  /** What a proof shows: its output pays the account's gateway script, in a transaction of the
      first header's block, from which the headers lead up to the commitment. */
  ghost predicate Shows(m: PeginMeta, account: Account, height: nat, commitment: Commitment, fed: Federation) {
    && m.version <= 1 && fed.keyParses && fed.tweaks(account)
    && m.outpoint.txid == m.tx.Txid() && m.outpoint.vout < |m.tx.outputs|
    && m.tx.outputs[m.outpoint.vout].script == Gateway(fed.key, account)
    && LinkedHeaders(m.headers) && Proves(m) && LeadsUp(m, height, commitment)
  }

  ghost predicate Proves(m: PeginMeta) {
    var merkle := ExtractMatches(m.merkleProof);
    && merkle.Some? && m.outpoint.txid in merkle.value.txids
    && m.headers != [] && m.headers[0].merkleRoot == merkle.value.root
  }

  ghost predicate LeadsUp(m: PeginMeta, height: nat, commitment: Commitment) {
    exists p :: 0 <= p < |m.headers| && m.headers[p] == commitment.header && height + p == commitment.height
             && (m.tx.IsCoinbase() ==> p >= COINBASE_MATURITY)
  }

  /** The satoshis paid to the outputs proved. */
  ghost function Sats(metas: seq<PeginMeta>): nat {
    if metas == [] then 0
    else
      var last := metas[|metas| - 1];
      Sats(metas[..|metas| - 1]) +
      (if last.outpoint.vout < |last.tx.outputs| then last.tx.outputs[last.outpoint.vout].sats else 0)
  }

  /** The commitment is the only header a linked list can hold it at. */
  lemma OnePosition(headers: seq<Header>, p: nat, header: Header)
    requires LinkedHeaders(headers) && p < |headers| && headers[p] == header
    ensures LastPosition(headers, header.Hash()) == p
  {
    hide LinkedHeaders; hide LastPosition;
    var q := LastPosition(headers, header.Hash());
    LastPositionIsLast(headers, header.Hash());
    if p < q {
      LinkedDistinct(headers, p, q);
    }
  }

  /** The checks accept exactly the proofs that show the payment, whatever the order of the checks. */
  lemma VerdictShows(sum: nat, m: PeginMeta, account: Account, height: nat, commitment: Commitment, fed: Federation)
    requires LastPosition(m.headers, commitment.header.Hash()) < U32
    ensures Verdict(sum, m, account, height, commitment, fed).Ok? <==>
              Shows(m, account, height, commitment, fed) && sum + m.tx.outputs[m.outpoint.vout].sats * SATOSHI_IN_WEI < U256
    ensures Verdict(sum, m, account, height, commitment, fed).Ok? ==>
              Verdict(sum, m, account, height, commitment, fed).value == sum + m.tx.outputs[m.outpoint.vout].sats * SATOSHI_IN_WEI
  {
    hide LinkedHeaders; hide LastPosition; hide ExtractMatches;
    var q := LastPosition(m.headers, commitment.header.Hash());
    LastPositionIsLast(m.headers, commitment.header.Hash());
    if LinkedHeaders(m.headers) && LeadsUp(m, height, commitment) {
      var p :| 0 <= p < |m.headers| && m.headers[p] == commitment.header && height + p == commitment.height
            && (m.tx.IsCoinbase() ==> p >= COINBASE_MATURITY);
      OnePosition(m.headers, p, commitment.header);
    }
    if q >= 0 && height + q == commitment.height && (m.tx.IsCoinbase() ==> q >= COINBASE_MATURITY) {
      assert m.headers[q] == commitment.header;
      assert LeadsUp(m, height, commitment);
    }
  }

  /** What is wrong with a proof that is refused. */
  ghost predicate Wrong(error: PeginError, m: PeginMeta, account: Account, height: nat, c: Commitment, fed: Federation) {
    var merkle := ExtractMatches(m.merkleProof);
    match error
    case BadVersion => m.version > 1
    case CommitmentMissing => c.header !in m.headers
    case BadMerkleProof => merkle.None?
    case NotIncluded => merkle.Some? && m.outpoint.txid !in merkle.value.txids
    case WrongMerkleRoot => m.headers != [] && merkle.Some? && m.headers[0].merkleRoot != merkle.value.root
    case WrongTxid => m.tx.Txid() != m.outpoint.txid
    case BadOutputIndex => |m.tx.outputs| < m.outpoint.vout
    case BadKey => !fed.keyParses
    case BadTweak => !fed.tweaks(account)
    case WrongScript =>
      m.outpoint.vout < |m.tx.outputs| && m.tx.outputs[m.outpoint.vout].script != Gateway(fed.key, account)
    case BadHeaderSequence => !LinkedHeaders(m.headers)
    case WrongHeight => forall p :: 0 <= p < |m.headers| && m.headers[p] == c.header ==> height + p != c.height
    case ImmatureCoinbase =>
      m.tx.IsCoinbase() && forall p :: 0 <= p < |m.headers| && m.headers[p] == c.header ==> p < COINBASE_MATURITY
  }

  /** A proof that is refused is wrong in the way the error says. */
  lemma ErrorMeans(sum: nat, m: PeginMeta, account: Account, height: nat, c: Commitment, fed: Federation)
    requires LastPosition(m.headers, c.header.Hash()) < U32 && Verdict(sum, m, account, height, c, fed).Err?
    ensures Wrong(Verdict(sum, m, account, height, c, fed).error, m, account, height, c, fed)
  {
    hide LinkedHeaders; hide LastPosition; hide ExtractMatches;
    var q := LastPosition(m.headers, c.header.Hash());
    LastPositionIsLast(m.headers, c.header.Hash());
    if LinkedHeaders(m.headers) {
      forall p | 0 <= p < |m.headers| && m.headers[p] == c.header
        ensures p == q
      {
        OnePosition(m.headers, p, c.header);
      }
    }
  }

  ghost predicate AllShow(p: PeginData, commitment: Commitment, fed: Federation, k: nat)
    requires k <= |p.meta|
  {
    forall i :: 0 <= i < k ==> Shows(p.meta[i], p.account, p.height, commitment, fed)
  }

  /** A peg-in passes exactly if every proof shows its payment, and its value is their exact sum. */
  lemma {:induction false} ValidatedExactly(p: PeginData, commitment: Commitment, fed: Federation, k: nat)
    requires k <= |p.meta|
    requires forall m :: m in p.meta ==> LastPosition(m.headers, commitment.header.Hash()) < U32
    ensures VerdictOn(p, commitment, fed, k).Ok? <==>
              AllShow(p, commitment, fed, k) && Sats(p.meta[..k]) * SATOSHI_IN_WEI < U256
    ensures VerdictOn(p, commitment, fed, k).Ok? ==>
              VerdictOn(p, commitment, fed, k).value == Sats(p.meta[..k]) * SATOSHI_IN_WEI
  {
    hide LinkedHeaders; hide Proves; hide LeadsUp; hide Verdict;
    if k > 0 {
      var m := p.meta[k - 1];
      ValidatedExactly(p, commitment, fed, k - 1);
      var before := VerdictOn(p, commitment, fed, k - 1);
      VerdictShows(if before.Ok? then before.value else 0, m, p.account, p.height, commitment, fed);
      assert p.meta[..k][..k - 1] == p.meta[..k - 1];
      assert AllShow(p, commitment, fed, k) <==>
        AllShow(p, commitment, fed, k - 1) && Shows(m, p.account, p.height, commitment, fed);
    }
  }

  ghost predicate OnChain(chain: seq<Header>, commitment: Commitment) {
    HeaderChain(chain) && commitment.height < |chain| && chain[commitment.height] == commitment.header
  }

  /** On a chain whose heights fit in 32 bits the depth of a linked proof cannot exceed the height. */
  lemma DepthFits(chain: seq<Header>, headers: seq<Header>, commitment: Commitment)
    requires OnChain(chain, commitment) && LinkedHeaders(headers)
    ensures var p := LastPosition(headers, commitment.header.Hash());
            p >= 0 ==> p <= commitment.height && headers[0] == chain[commitment.height - p]
  {
    hide LinkedHeaders; hide LastPosition;
    var p := LastPosition(headers, commitment.header.Hash());
    LastPositionIsLast(headers, commitment.header.Hash());
    if p >= 0 {
      LinkedBack(chain, headers, p, commitment.height, p);
    }
  }

  /** An accepted proof pins its block: the first header is the chain's block at the claimed height,
      it holds the transaction, and a coinbase is mature. */
  lemma AcceptedPinsBlock(chain: seq<Header>, sum: nat, m: PeginMeta, account: Account, height: nat,
                          commitment: Commitment, fed: Federation)
    requires OnChain(chain, commitment) && commitment.height < U32
    requires Verdict(sum, m, account, height, commitment, fed).Ok?
    ensures LastPosition(m.headers, commitment.header.Hash()) < U32
    ensures Shows(m, account, height, commitment, fed)
    ensures height <= commitment.height && m.headers[0] == chain[height]
    ensures m.outpoint.txid in Leaves(chain[height].merkleRoot)
    ensures m.tx.IsCoinbase() ==> height + 100 <= commitment.height
  {
    hide LinkedHeaders; hide LastPosition; hide HeaderChain;
    DepthFits(chain, m.headers, commitment);
    VerdictShows(sum, m, account, height, commitment, fed);
    ExtractedAreLeaves(m.merkleProof);
  }

  /** The checks made before the output is looked up. */
  ghost predicate ReachesOutput(m: PeginMeta, account: Account, commitment: Commitment, fed: Federation) {
    && m.version <= 1 && commitment.header in m.headers && Proves(m)
    && m.outpoint.txid == m.tx.Txid() && m.outpoint.vout <= |m.tx.outputs|
    && fed.keyParses && fed.tweaks(account)
  }

  /** Validation panics exactly on an index one past the outputs, or when the sum overflows. */
  lemma AbortsExactly(chain: seq<Header>, sum: nat, m: PeginMeta, account: Account, height: nat,
                      commitment: Commitment, fed: Federation)
    requires OnChain(chain, commitment) && commitment.height < U32
    ensures Verdict(sum, m, account, height, commitment, fed).Abort? <==>
              && ReachesOutput(m, account, commitment, fed)
              && (m.outpoint.vout == |m.tx.outputs|
                  || var output := m.tx.outputs[m.outpoint.vout];
                     output.script == Gateway(fed.key, account) && sum + output.sats * SATOSHI_IN_WEI >= U256)
  {
    hide LinkedHeaders; hide LastPosition; hide HeaderChain; hide ExtractMatches;
    LastPositionIsLast(m.headers, commitment.header.Hash());
    if LinkedHeaders(m.headers) {
      DepthFits(chain, m.headers, commitment);
    }
  }

  /** Such a panic does occur: a proof that is right except that its index is one past the outputs. */
  lemma PanickingProof() returns (chain: seq<Header>, m: PeginMeta, commitment: Commitment, fed: Federation)
    ensures OnChain(chain, commitment) && commitment.height < U32 && m.outpoint.vout == |m.tx.outputs|
    ensures Verdict(0, m, 0, commitment.height, commitment, fed).Abort?
  {
    var key := PublicKey(0);
    var tx := Tx([], [TxOut(1, Gateway(key, 0))], 0);
    var genesis := Header(ForeignHeader(0), ForeignNode(0), 0);
    var block := Header(genesis.Hash(), TxLeaf(tx.Txid()), 0);
    chain, commitment, fed := [genesis, block], Commitment(block, 1), Federation(key, true, _ => true);
    m := PeginMeta(0, Matched(tx.Txid()), OutPoint(tx.Txid(), 1), [block], tx, None);
    AbortsExactly(chain, 0, m, 0, 1, commitment, fed);
  }
}
