/** Minting: the contract's height rule, the checks on its events, and runs of both. */
module Minting {
  import opened Blocks
  import opened Bitcoin
  import opened Common
  import opened PegIns

  const MAX_BITCOIN_BLOCK_HEADERS := 2016

  /** A call of the contract. `inner` are the calls that the account and the refund address make to
      the contract while they are paid, and `paid` says whether both payments succeed. Each chunk of
      the metadata is a proof, or none where it does not decode. */
  datatype MintCall = MintCall(account: Account, amount: nat, height: nat, chunks: seq<Option<PeginMeta>>,
                               baseFee: nat, inner: seq<MintCall>, paid: bool)
  {
    /** What the contract takes the call to cost. */
    function TxCost(): nat { MINT_GAS_USED * baseFee }
  }

  const MINT_GAS_USED := 150_000

  datatype MintLog = MintLog(account: Account, amount: nat, height: nat, chunks: seq<Option<PeginMeta>>)

  /** The commitment of the block being executed, and those of the blocks a proof may refer to. */
  datatype Package = Package(checkpoint: Commitment, fed: Federation, refs: map<nat, Option<Commitment>>)

  datatype CheckResult = Checked(pegin: PeginData) | Rejected | Panicked

  datatype TxResult = Committed | Reverted | Crashed

  /** `burnsParse` says whether every burn event of the transaction parses. */
  datatype Transaction = Transaction(calls: seq<MintCall>, package: Package, burnsParse: bool)

  // ---------------------------------------------------------------- the checks on one event

  ghost predicate Decodes(chunk: Option<PeginMeta>) {
    chunk.Some? && |chunk.value.headers| <= MAX_BITCOIN_BLOCK_HEADERS
  }

  ghost predicate DistinctOutpoints(metas: seq<PeginMeta>) {
    forall i, j :: 0 <= i < j < |metas| ==> metas[i].outpoint != metas[j].outpoint
  }

  ghost predicate Repeats(chunks: seq<Option<PeginMeta>>) {
    exists i, j :: 0 <= i < j < |chunks| && chunks[i].Some? && chunks[j].Some?
                && chunks[i].value.outpoint == chunks[j].value.outpoint
  }

  /** Decodes the proofs one after the other and refuses a repeated outpoint. */
  method ParseProofs(chunks: seq<Option<PeginMeta>>) returns (r: Option<seq<PeginMeta>>)
    ensures r.Some? ==> |r.value| == |chunks| && forall i :: 0 <= i < |chunks| ==> chunks[i] == Some(r.value[i])
    ensures r.Some? ==> DistinctOutpoints(r.value) && forall i :: 0 <= i < |chunks| ==> Decodes(chunks[i])
    ensures r.None? ==> (exists i :: 0 <= i < |chunks| && !Decodes(chunks[i])) || Repeats(chunks)
  {
    var outpoints: set<OutPoint> := {};
    var proofs := [];
    for i := 0 to |chunks|
      invariant |proofs| == i && forall k :: 0 <= k < i ==> Decodes(chunks[k]) && chunks[k] == Some(proofs[k])
      invariant DistinctOutpoints(proofs)
      invariant outpoints == set k | 0 <= k < i :: proofs[k].outpoint
    {
      if chunks[i].None? || |chunks[i].value.headers| > MAX_BITCOIN_BLOCK_HEADERS {
        assert !Decodes(chunks[i]);
        return None;
      }
      var proof := chunks[i].value;
      if proof.outpoint in outpoints {
        var k :| 0 <= k < i && proofs[k].outpoint == proof.outpoint;
        assert Decodes(chunks[k]) && chunks[k].value.outpoint == chunks[i].value.outpoint;
        return None;
      }
      outpoints := outpoints + {proof.outpoint};
      proofs := proofs + [proof];
    }
    return Some(proofs);
  }

  /** The commitment the proofs are checked against: that of the block a version 1 proof refers to. */
  function CheckpointFor(first: PeginMeta, package: Package): Option<Commitment> {
    if first.version == 1 then
      if first.refBlock.None? || first.refBlock.value !in package.refs then None
      else package.refs[first.refBlock.value]
    else if first.version == 0 && first.refBlock.Some? then None
    else Some(package.checkpoint)
  }

  ghost predicate Uniform(metas: seq<PeginMeta>) {
    forall i :: 0 <= i < |metas| ==> metas[i].version == metas[0].version && metas[i].refBlock == metas[0].refBlock
  }

  /** The checks made before the proofs are validated against the commitment they select. */
  ghost predicate WellPosed(p: PeginData, package: Package) {
    && p.meta != [] && Uniform(p.meta) && DistinctOutpoints(p.meta)
    && (forall m :: m in p.meta ==> |m.headers| <= MAX_BITCOIN_BLOCK_HEADERS)
    && var c := CheckpointFor(p.meta[0], package);
       c.Some? && p.height <= c.value.height
  }

  /** The outcome of validating the proofs. */
  ghost function ValueOf(p: PeginData, package: Package): Outcome<nat>
    requires WellPosed(p, package)
  {
    VerdictOn(p, CheckpointFor(p.meta[0], package).value, package.fed, |p.meta|)
  }

  /** The peg-in passes every check against the commitment its proofs select. */
  ghost predicate Passes(p: PeginData, package: Package) {
    WellPosed(p, package) && ValueOf(p, package).Ok? && p.amount < ValueOf(p, package).value
  }

  ghost predicate Panics(p: PeginData, package: Package) {
    WellPosed(p, package) && ValueOf(p, package).Abort?
  }

  /** The peg-in is what the event carries. */
  ghost predicate Carries(log: MintLog, p: PeginData) {
    && p.account == log.account && p.amount == log.amount && p.height == log.height
    && |p.meta| == |log.chunks| && forall i :: 0 <= i < |log.chunks| ==> log.chunks[i] == Some(p.meta[i])
  }

  lemma CarriesOne(log: MintLog, p: PeginData, q: PeginData)
    requires Carries(log, p) && Carries(log, q)
    ensures p == q
  {
    forall i | 0 <= i < |p.meta|
      ensures p.meta[i] == q.meta[i]
    {
      assert log.chunks[i] == Some(p.meta[i]) && log.chunks[i] == Some(q.meta[i]);
    }
  }

  ghost predicate Acceptable(log: MintLog, package: Package) {
    exists p :: Carries(log, p) && Passes(p, package)
  }

  ghost predicate Crashing(log: MintLog, package: Package) {
    exists p :: Carries(log, p) && Panics(p, package)
  }

  lemma DecidedBy(log: MintLog, p: PeginData, package: Package)
    requires Carries(log, p)
    ensures Acceptable(log, package) <==> Passes(p, package)
    ensures Crashing(log, package) <==> Panics(p, package)
  {
    hide Passes; hide Panics;
    forall q | Carries(log, q)
      ensures q == p
    {
      CarriesOne(log, p, q);
    }
  }

  lemma NotParsed(log: MintLog, package: Package)
    requires (exists i :: 0 <= i < |log.chunks| && !Decodes(log.chunks[i])) || Repeats(log.chunks)
    ensures !Acceptable(log, package) && !Crashing(log, package)
  {
    forall p | Carries(log, p)
      ensures !WellPosed(p, package)
    {
      hide Uniform;
    }
  }

  /** The commitment that decides about proofs like this one: for version 1 that of the block it refers to,
      and for version 0, which refers to none, that of the block being executed. */
  ghost predicate Decides(m: PeginMeta, package: Package, c: Commitment) {
    || (m.version == 1 && m.refBlock.Some? && m.refBlock.value in package.refs && package.refs[m.refBlock.value] == Some(c))
    || (m.version == 0 && m.refBlock.None? && c == package.checkpoint)
  }

  /** The proofs are alike, for different outputs and not too long. */
  ghost predicate Presentable(p: PeginData) {
    && p.meta != [] && Uniform(p.meta) && DistinctOutpoints(p.meta)
    && (forall m :: m in p.meta ==> |m.headers| <= 2016)
  }

  /** All proofs show their payment against the commitment, and together they pay more than the amount. */
  ghost predicate Justified(p: PeginData, c: Commitment, fed: Federation) {
    Presentable(p) && AllShow(p, c, fed, |p.meta|) && p.amount < Sats(p.meta) * 10_000_000_000 < U256
  }

  /** A peg-in passes exactly if its proofs justify it against the commitment that decides about them, and
      without one it is rejected. */
  lemma PassesExactly(p: PeginData, package: Package)
    ensures Passes(p, package) <==>
              p.meta != [] && exists c :: Decides(p.meta[0], package, c) && Justified(p, c, package.fed)
    ensures Panics(p, package) <==>
              Presentable(p) && exists c :: Decides(p.meta[0], package, c) && p.height <= c.height
                                         && VerdictOn(p, c, package.fed, |p.meta|).Abort?
  {
    hide VerdictOn; hide Shows; hide Uniform; hide DistinctOutpoints;
    if Presentable(p) {
      forall c
        ensures VerdictOn(p, c, package.fed, |p.meta|).Ok? <==>
                  AllShow(p, c, package.fed, |p.meta|) && Sats(p.meta) * SATOSHI_IN_WEI < U256
        ensures VerdictOn(p, c, package.fed, |p.meta|).Ok? ==>
                  VerdictOn(p, c, package.fed, |p.meta|).value == Sats(p.meta) * SATOSHI_IN_WEI
        ensures AllShow(p, c, package.fed, |p.meta|) ==> p.height <= c.height && p.meta[0].version <= 1
        ensures p.meta[0].version > 1 ==> VerdictOn(p, c, package.fed, |p.meta|).Err?
      {
        ValuesAgainst(p, c, package.fed);
      }
      var chosen := CheckpointFor(p.meta[0], package);
      if chosen.Some? && p.meta[0].version <= 1 {
        assert Decides(p.meta[0], package, chosen.value);
      }
      assert forall c :: Decides(p.meta[0], package, c) ==> chosen == Some(c);
      assert Passes(p, package) ==> Justified(p, chosen.value, package.fed);
    }
  }

  lemma ValuesAgainst(p: PeginData, c: Commitment, fed: Federation)
    requires Presentable(p)
    ensures VerdictOn(p, c, fed, |p.meta|).Ok? <==>
              AllShow(p, c, fed, |p.meta|) && Sats(p.meta) * SATOSHI_IN_WEI < U256
    ensures VerdictOn(p, c, fed, |p.meta|).Ok? ==> VerdictOn(p, c, fed, |p.meta|).value == Sats(p.meta) * SATOSHI_IN_WEI
    ensures AllShow(p, c, fed, |p.meta|) ==> p.height <= c.height && p.meta[0].version <= 1
    ensures p.meta[0].version > 1 ==> VerdictOn(p, c, fed, |p.meta|).Err?
  {
    hide Uniform; hide DistinctOutpoints; hide LinkedHeaders; hide LastPosition; hide ExtractMatches;
    ValidatedExactly(p, c, fed, |p.meta|);
    assert p.meta[..|p.meta|] == p.meta;
    assert AllShow(p, c, fed, |p.meta|) ==> Shows(p.meta[0], p.account, p.height, c, fed);
    if p.meta[0].version > 1 {
      assert VerdictOn(p, c, fed, 0) == Ok(0);
      assert VerdictOn(p, c, fed, 1).Err?;
      VerdictStops(p, c, fed, 1);
    }
  }

  /** So for version 1 proofs the block being executed does not matter, and for version 0 ones the blocks
      that others refer to do not. */
  lemma OnlyOneDecides(p: PeginData, package: Package, package': Package)
    requires p.meta != [] && package.fed == package'.fed
    requires p.meta[0].version == 1 ==> package.refs == package'.refs
    requires p.meta[0].version != 1 ==> package.checkpoint == package'.checkpoint
    ensures Passes(p, package) <==> Passes(p, package')
  {
    hide Passes; hide Justified; hide Panics;
    PassesExactly(p, package);
    PassesExactly(p, package');
    assert forall c :: Decides(p.meta[0], package, c) <==> Decides(p.meta[0], package', c);
  }

  /** An event is accepted exactly if what it carries passes the checks, and its validation panics
      exactly if that of a proof does. */
  method CheckLog(log: MintLog, package: Package) returns (r: CheckResult)
    ensures r.Checked? <==> Acceptable(log, package)
    ensures r.Panicked? <==> Crashing(log, package)
    ensures r.Checked? ==> Carries(log, r.pegin) && Passes(r.pegin, package)
    ensures r.Checked? <==>
              exists p, c :: Carries(log, p) && p.meta != [] && Decides(p.meta[0], package, c) && Justified(p, c, package.fed)
  {
    hide VerdictOn; hide Justified; hide Decides;
    JustifiedLogs(log, package);
    var metas := ParseProofs(log.chunks);
    if metas.None? {
      NotParsed(log, package);
      return Rejected;
    }
    var p := PeginData(log.account, log.amount, log.height, metas.value);
    DecidedBy(log, p, package);
    hide Acceptable; hide Crashing;
    if p.meta == [] {
      return Rejected;
    }
    var c := CheckpointFor(p.meta[0], package);
    if c.None? {
      return Rejected;
    }
    for i := 0 to |p.meta|
      invariant Uniform(p.meta[..i])
    {
      if p.meta[i].version != p.meta[0].version || p.meta[i].refBlock != p.meta[0].refBlock {
        return Rejected;
      }
    }
    if p.height > c.value.height {
      return Rejected;
    }
    var v := Validate(p, c.value, package.fed);
    if v.Abort? {
      return Panicked;
    }
    if v.Err? || p.amount >= v.value {
      return Rejected;
    }
    return Checked(p);
  }

  lemma JustifiedLogs(log: MintLog, package: Package)
    ensures Acceptable(log, package) <==>
              exists p, c :: Carries(log, p) && p.meta != [] && Decides(p.meta[0], package, c) && Justified(p, c, package.fed)
  {
    hide Passes; hide Justified; hide Decides; hide Carries; hide Panics;
    forall p
      ensures Passes(p, package) <==>
                p.meta != [] && exists c :: Decides(p.meta[0], package, c) && Justified(p, c, package.fed)
    {
      PassesExactly(p, package);
    }
  }

  // ---------------------------------------------------------------- the ledger

  function HeightOf(heights: map<Account, nat>, account: Account): nat {
    if account in heights then heights[account] else 0
  }

  /** An event of the contract, with the call it comes from. */
  datatype Emitted = Emitted(log: MintLog, call: MintCall)

  datatype Executed = Executed(heights: map<Account, nat>, events: seq<Emitted>)

  /** The account gets the amount less the cost, which goes to the refund address. */
  function EventOf(call: MintCall): Emitted
    requires call.TxCost() <= call.amount
  {
    Emitted(MintLog(call.account, call.amount - call.TxCost(), call.height, call.chunks), call)
  }

  /** What a sequence of calls does. A call records its height before it pays and emits its event
      after that, so calls made meanwhile see the height and emit first; a call that fails takes
      back everything since it began. */
  function Called(heights: map<Account, nat>, calls: seq<MintCall>): Executed
    decreases calls
  {
    if calls == [] then Executed(heights, [])
    else
      var (before, call) := (Called(heights, calls[..|calls| - 1]), calls[|calls| - 1]);
      var during := Called(before.heights[call.account := call.height], call.inner);
      if call.height <= HeightOf(before.heights, call.account) || call.TxCost() > call.amount || !call.paid then before
      else Executed(during.heights, before.events + during.events + [EventOf(call)])
  }

  /** The effect of any calls: heights only rise, and the events of one account have different
      heights, all above the height before and none above the one recorded after. */
  ghost predicate Distinct(before: map<Account, nat>, events: seq<Emitted>, after: map<Account, nat>) {
    && (forall a :: HeightOf(before, a) <= HeightOf(after, a))
    && (forall i :: 0 <= i < |events| ==>
                      var log := events[i].log; HeightOf(before, log.account) < log.height <= HeightOf(after, log.account))
    && (forall i, j :: 0 <= i < j < |events| && events[i].log.account == events[j].log.account ==>
                         events[i].log.height != events[j].log.height)
  }

  lemma DistinctThen(a: map<Account, nat>, xs: seq<Emitted>, b: map<Account, nat>, ys: seq<Emitted>, c: map<Account, nat>)
    requires Distinct(a, xs, b) && Distinct(b, ys, c)
    ensures Distinct(a, xs + ys, c)
  {
    hide HeightOf;
    var all := xs + ys;
    forall i | 0 <= i < |all|
      ensures var log := all[i].log; HeightOf(a, log.account) < log.height <= HeightOf(c, log.account)
      ensures i < |xs| ==> all[i].log.height <= HeightOf(b, all[i].log.account)
      ensures i >= |xs| ==> HeightOf(b, all[i].log.account) < all[i].log.height
    {
      assert HeightOf(a, all[i].log.account) <= HeightOf(b, all[i].log.account) <= HeightOf(c, all[i].log.account);
    }
  }

  lemma DistinctAround(before: map<Account, nat>, inner: seq<Emitted>, after: map<Account, nat>, e: Emitted)
    requires HeightOf(before, e.log.account) < e.log.height
    requires Distinct(before[e.log.account := e.log.height], inner, after)
    ensures Distinct(before, inner + [e], after)
  {
    var recorded := before[e.log.account := e.log.height];
    assert forall a :: HeightOf(before, a) <= HeightOf(recorded, a);
    hide HeightOf;
  }

  /** Over any tree of calls, the heights emitted for an account are pairwise distinct. */
  lemma {:induction false} CallsAreDistinct(heights: map<Account, nat>, calls: seq<MintCall>)
    ensures Distinct(heights, Called(heights, calls).events, Called(heights, calls).heights)
    decreases calls
  {
    if calls != [] {
      var (before, call) := (Called(heights, calls[..|calls| - 1]), calls[|calls| - 1]);
      CallsAreDistinct(heights, calls[..|calls| - 1]);
      CallsAreDistinct(before.heights[call.account := call.height], call.inner);
      var during := Called(before.heights[call.account := call.height], call.inner);
      if HeightOf(before.heights, call.account) < call.height && call.TxCost() <= call.amount && call.paid {
        DistinctAround(before.heights, during.events, during.heights, EventOf(call));
        DistinctThen(heights, before.events, before.heights, during.events + [EventOf(call)], during.heights);
        assert before.events + during.events + [EventOf(call)] == before.events + (during.events + [EventOf(call)]);
      }
    }
  }

  /** Every event is that of a call whose payments succeeded, with its amount less the cost. */
  ghost predicate FromCalls(events: seq<Emitted>) {
    forall i :: 0 <= i < |events| ==>
                  var (log, call) := (events[i].log, events[i].call);
                  && log.account == call.account && log.height == call.height && log.chunks == call.chunks && call.paid
                  && log.amount + 150_000 * call.baseFee == call.amount
  }

  lemma {:induction false} EventsFromCalls(heights: map<Account, nat>, calls: seq<MintCall>)
    ensures FromCalls(Called(heights, calls).events)
    decreases calls
  {
    if calls != [] {
      var (before, call) := (Called(heights, calls[..|calls| - 1]), calls[|calls| - 1]);
      EventsFromCalls(heights, calls[..|calls| - 1]);
      EventsFromCalls(before.heights[call.account := call.height], call.inner);
    }
  }

  /** A call made during another one emits the higher height first. */
  lemma HigherFirst() returns (calls: seq<MintCall>)
    ensures var events := Called(map[], calls).events;
            |events| == 2 && events[0].log.account == events[1].log.account && events[1].log.height < events[0].log.height
  {
    var inner := MintCall(0, 0, 2, [], 0, [], true);
    var outer := MintCall(0, 0, 1, [], 0, [inner], true);
    calls := [outer];
    assert [inner][..0] == [] && [outer][..0] == [];
    assert Called(map[0 := 1], [inner]) == Executed(map[0 := 2], [EventOf(inner)]);
    assert map[][0 := 1] == map[0 := 1];
  }

  /** The commitments lie on one Bitcoin chain. */
  ghost predicate PackageOnChain(chain: seq<Header>, package: Package) {
    && OnChain(chain, package.checkpoint) && package.checkpoint.height < U32
    && (forall h :: h in package.refs && package.refs[h].Some? ==>
                      OnChain(chain, package.refs[h].value) && package.refs[h].value.height < U32)
  }

  /** Every output minted for is in the block at the claimed height and pays the account. */
  ghost predicate Backed(chain: seq<Header>, p: PeginData) {
    && p.height < |chain| && DistinctOutpoints(p.meta)
    && (forall m :: m in p.meta ==>
                      && m.outpoint.txid == m.tx.Txid() && m.outpoint.vout < |m.tx.outputs|
                      && m.tx.outputs[m.outpoint.vout].script.Gateway?
                      && m.tx.outputs[m.outpoint.vout].script.account == p.account
                      && m.outpoint.txid in Leaves(chain[p.height].merkleRoot))
    && p.amount < Sats(p.meta) * SATOSHI_IN_WEI
  }

  /** A mint that the node has accepted, with the call that made it. */
  datatype Mint = Mint(pegin: PeginData, call: MintCall)

  /** What every run keeps: mints are backed and come from a call, and those of one account are at
      different heights, none of them above the height the contract holds. */
  ghost predicate Sound(chain: seq<Header>, heights: map<Account, nat>, minted: seq<Mint>) {
    && (forall i :: 0 <= i < |minted| ==>
                      && Backed(chain, minted[i].pegin) && PaidBy(minted[i])
                      && minted[i].pegin.height <= HeightOf(heights, minted[i].pegin.account))
    && (forall i, j :: 0 <= i < j < |minted| && minted[i].pegin.account == minted[j].pegin.account ==>
                         minted[i].pegin.height != minted[j].pegin.height)
  }

  /** The call credited the peg-in's amount and paid the rest of its own amount as a refund. */
  ghost predicate PaidBy(m: Mint) {
    m.pegin.amount + m.call.TxCost() == m.call.amount
  }

  ghost predicate AllPass(events: seq<Emitted>, package: Package) {
    forall k :: 0 <= k < |events| ==> Acceptable(events[k].log, package)
  }

  /** The events before `k` are acceptable and event `k` is not: it panics or is rejected. */
  ghost predicate StopsAt(events: seq<Emitted>, package: Package, k: nat, panics: bool) {
    && k < |events| && AllPass(events[..k], package)
    && !Acceptable(events[k].log, package) && panics == Crashing(events[k].log, package)
  }

  /** The mints are what the events carry, pass the checks, and come from the events' calls. */
  ghost predicate Accepts(events: seq<Emitted>, package: Package, mints: seq<Mint>) {
    && |mints| == |events|
    && forall k :: 0 <= k < |events| ==> Accepted(events[k], package, mints[k])
  }

  ghost predicate Accepted(e: Emitted, package: Package, m: Mint) {
    Carries(e.log, m.pegin) && Passes(m.pegin, package) && m.call == e.call
  }

  datatype Ledger = Ledger(heights: map<Account, nat>, minted: seq<Mint>)

  /** What a transaction does: all of its mints if every mint event passes and every burn event
      parses, and otherwise nothing. */
  ghost predicate Transacted(l: Ledger, t: Transaction, l': Ledger) {
    var done := Called(l.heights, t.calls);
    if AllPass(done.events, t.package) && t.burnsParse then
      l'.heights == done.heights && l.minted <= l'.minted && Accepts(done.events, t.package, l'.minted[|l.minted|..])
    else l' == l
  }

  /** The ledgers a run goes through. */
  ghost predicate Trace(ledgers: seq<Ledger>, transactions: seq<Transaction>) {
    |ledgers| == |transactions| + 1
    && forall i :: 0 <= i < |transactions| ==> Transacted(ledgers[i], transactions[i], ledgers[i + 1])
  }

  class MintLedger {
    var heights: map<Account, nat>
    var minted: seq<Mint>

    ghost function View(): Ledger
      reads this
    {
      Ledger(heights, minted)
    }

    constructor ()
      ensures heights == map[] && minted == []
    {
      heights, minted := map[], [];
    }

    /** The contract's `mint`: the height of the account must increase, and is recorded before the
        payments, during which the contract may be called again. */
    method MintOne(call: MintCall) returns (events: seq<Emitted>)
      modifies this`heights
      ensures Executed(heights, events) == Called(old(heights), [call])
      ensures var ok := HeightOf(old(heights), call.account) < call.height && call.TxCost() <= call.amount && call.paid;
              && (ok <==> events != [])
              && (ok ==> events[|events| - 1].call == call && call.height <= HeightOf(heights, call.account))
              && (!ok ==> heights == old(heights))
      decreases call, 0
    {
      var before := heights;
      assert [call][..0] == [];
      if call.height <= HeightOf(heights, call.account) {
        return [];
      }
      heights := heights[call.account := call.height];
      if call.TxCost() > call.amount {
        heights := before;
        return [];
      }
      CallsAreDistinct(heights, call.inner);
      assert HeightOf(heights, call.account) == call.height;
      events := Execute(call.inner);
      if !call.paid {
        heights := before;
        return [];
      }
      events := events + [EventOf(call)];
    }

    /** Executes calls of the contract, keeping the events of those that succeed. */
    method Execute(calls: seq<MintCall>) returns (events: seq<Emitted>)
      modifies this`heights
      ensures Executed(heights, events) == Called(old(heights), calls)
      decreases calls, 1
    {
      events := [];
      for i := 0 to |calls|
        invariant Executed(heights, events) == Called(old(heights), calls[..i])
      {
        assert calls[..i + 1][..i] == calls[..i] && [calls[i]][..0] == [];
        var more := MintOne(calls[i]);
        events := events + more;
      }
      assert calls[..|calls|] == calls;
    }

    /** Executes a transaction and takes all of it back unless every mint event passes the checks and
        every burn event parses. */
    method ExecuteTransaction(t: Transaction, ghost chain: seq<Header>) returns (r: TxResult)
      requires Sound(chain, heights, minted) && PackageOnChain(chain, t.package)
      modifies this
      ensures Sound(chain, heights, minted) && Transacted(old(View()), t, View())
      ensures var events := Called(old(heights), t.calls).events;
              && (r.Committed? <==> AllPass(events, t.package) && t.burnsParse)
              && (r.Crashed? <==> exists k :: StopsAt(events, t.package, k, true))
              && (r.Committed? ==> |minted| == |old(minted)| + |events| && old(minted) <= minted)
      ensures !r.Committed? ==> View() == old(View())
    {
      hide Passes; hide Backed; hide PackageOnChain; hide Carries; hide Acceptable; hide Crashing; hide Called;
      var before := heights;
      var events := Execute(t.calls);
      var mints: seq<Mint> := [];
      for i := 0 to |events|
        invariant minted == old(minted) && Executed(heights, events) == Called(before, t.calls) && |mints| == i
        invariant forall k :: 0 <= k < i ==> Accepted(events[k], t.package, mints[k])
        invariant AllPass(events[..i], t.package)
      {
        var checked := CheckLog(events[i].log, t.package);
        if !checked.Checked? {
          heights := before;
          FirstFailure(events, t.package, i);
          return if checked.Panicked? then Crashed else Reverted;
        }
        mints := mints + [Mint(checked.pegin, events[i].call)];
      }
      assert events[..|events|] == events;
      if !t.burnsParse {
        heights := before;
        return Reverted;
      }
      SoundAfter(chain, before, minted, t, mints);
      assert (minted + mints)[|minted|..] == mints;
      minted := minted + mints;
      return Committed;
    }

    /** Over every run no Bitcoin output is minted for twice, less is credited to accounts than was
        paid in, and with the refunds less is paid out than was paid in and the costs together. */
    method Run(transactions: seq<Transaction>, ghost chain: seq<Header>) returns (ghost ledgers: seq<Ledger>)
      requires minted == [] && HeaderChain(chain) && OneHeightPerTx(chain)
      requires forall t :: t in transactions ==> PackageOnChain(chain, t.package)
      modifies this
      ensures Trace(ledgers, transactions) && ledgers[0] == old(View()) && ledgers[|transactions|] == View()
      ensures forall l :: l in ledgers ==> Sound(chain, l.heights, l.minted)
      ensures forall l :: l in ledgers ==> NoDuplicates(Outpoints(l.minted))
      ensures forall l :: l in ledgers ==> Conserves(l.minted)
    {
      hide Sound; hide PackageOnChain; hide OneHeightPerTx; hide Transacted; hide Conserves;
      NothingMinted(chain, heights);
      ledgers := [View()];
      for i := 0 to |transactions|
        invariant Sound(chain, heights, minted)
        invariant Trace(ledgers, transactions[..i]) && ledgers[0] == old(View()) && ledgers[i] == View()
        invariant forall l :: l in ledgers ==> Sound(chain, l.heights, l.minted)
      {
        var _ := ExecuteTransaction(transactions[i], chain);
        ledgers := ledgers + [View()];
      }
      assert transactions[..|transactions|] == transactions;
      forall l | l in ledgers
        ensures NoDuplicates(Outpoints(l.minted)) && Conserves(l.minted)
      {
        NoDoubleMint(chain, l.heights, l.minted);
        PaidOutIsBounded(chain, l.heights, l.minted);
      }
    }
  }

  lemma NothingMinted(chain: seq<Header>, heights: map<Account, nat>)
    ensures Sound(chain, heights, [])
  {
  }

  lemma {:induction false} VerdictBefore(p: PeginData, c: Commitment, fed: Federation, k: nat, n: nat)
    requires k <= n <= |p.meta| && VerdictOn(p, c, fed, n).Ok?
    ensures VerdictOn(p, c, fed, k).Ok?
    decreases n - k
  {
    hide Verdict;
    if k < n {
      VerdictBefore(p, c, fed, k + 1, n);
    }
  }

  /** A peg-in that passes the checks is backed by outputs on the chain. */
  lemma PassingIsBacked(chain: seq<Header>, p: PeginData, package: Package)
    requires Passes(p, package) && PackageOnChain(chain, package)
    ensures Backed(chain, p)
  {
    hide Verdict; hide VerdictOn; hide LinkedHeaders; hide HeaderChain; hide LeadsUp; hide Proves; hide Sats; hide LastPosition;
    var c := CheckpointFor(p.meta[0], package).value;
    assert OnChain(chain, c) && c.height < U32;
    forall i | 0 <= i < |p.meta|
      ensures Shows(p.meta[i], p.account, p.height, c, package.fed)
      ensures p.height <= c.height && p.meta[i].outpoint.txid in Leaves(chain[p.height].merkleRoot)
    {
      Pinned(chain, p, c, package.fed, i);
    }
    ValidatedExactly(p, c, package.fed, |p.meta|);
    assert p.meta[..|p.meta|] == p.meta;
  }

  lemma Pinned(chain: seq<Header>, p: PeginData, c: Commitment, fed: Federation, i: nat)
    requires OnChain(chain, c) && c.height < U32 && VerdictOn(p, c, fed, |p.meta|).Ok? && i < |p.meta|
    ensures Shows(p.meta[i], p.account, p.height, c, fed)
    ensures p.height <= c.height && p.meta[i].outpoint.txid in Leaves(chain[p.height].merkleRoot)
  {
    hide Verdict; hide Shows; hide HeaderChain;
    VerdictBefore(p, c, fed, i + 1, |p.meta|);
    AcceptedPinsBlock(chain, VerdictOn(p, c, fed, i).value, p.meta[i], p.account, p.height, c, fed);
  }

  /** Only the first event that is not acceptable decides whether the node crashes. */
  lemma FirstFailure(events: seq<Emitted>, package: Package, i: nat)
    requires i < |events| && AllPass(events[..i], package) && !Acceptable(events[i].log, package)
    ensures !AllPass(events, package)
    ensures (exists k :: StopsAt(events, package, k, true)) <==> Crashing(events[i].log, package)
  {
    hide Acceptable; hide Crashing;
    if Crashing(events[i].log, package) {
      assert StopsAt(events, package, i, true);
    }
    forall k: nat | k < |events| && k != i
      ensures !StopsAt(events, package, k, true)
    {
      if k < i {
        assert events[..i][k] == events[k];
      } else {
        assert events[..k][i] == events[i];
      }
    }
  }

  lemma SoundAfter(chain: seq<Header>, before: map<Account, nat>, minted: seq<Mint>, t: Transaction, mints: seq<Mint>)
    requires Sound(chain, before, minted) && PackageOnChain(chain, t.package)
    requires Accepts(Called(before, t.calls).events, t.package, mints)
    ensures Sound(chain, Called(before, t.calls).heights, minted + mints)
  {
    hide Backed; hide Called; hide Passes; hide PackageOnChain;
    var done, all := Called(before, t.calls), minted + mints;
    CallsAreDistinct(before, t.calls);
    EventsFromCalls(before, t.calls);
    forall i | 0 <= i < |mints|
      ensures Backed(chain, mints[i].pegin) && PaidBy(mints[i]) && SameEvent(done.events[i], mints[i])
    {
      assert Accepted(done.events[i], t.package, mints[i]);
      PassingIsBacked(chain, mints[i].pegin, t.package);
    }
    hide Accepted; hide PaidBy;
    SoundWith(chain, before, minted, done.events, mints, done.heights);
  }

  ghost predicate SameEvent(e: Emitted, m: Mint) {
    m.pegin.account == e.log.account && m.pegin.height == e.log.height
  }

  lemma SoundWith(chain: seq<Header>, before: map<Account, nat>, minted: seq<Mint>, events: seq<Emitted>,
                  mints: seq<Mint>, after: map<Account, nat>)
    requires Sound(chain, before, minted) && Distinct(before, events, after) && |mints| == |events|
    requires forall k :: 0 <= k < |mints| ==> Backed(chain, mints[k].pegin) && PaidBy(mints[k]) && SameEvent(events[k], mints[k])
    ensures Sound(chain, after, minted + mints)
  {
    hide Backed; hide PaidBy; hide HeightOf;
    var all := minted + mints;
    forall i | 0 <= i < |all|
      ensures Backed(chain, all[i].pegin) && PaidBy(all[i])
      ensures all[i].pegin.height <= HeightOf(after, all[i].pegin.account)
      ensures i >= |minted| ==> HeightOf(before, all[i].pegin.account) < all[i].pegin.height
      ensures i < |minted| ==> all[i].pegin.height <= HeightOf(before, all[i].pegin.account)
    {
      assert HeightOf(before, all[i].pegin.account) <= HeightOf(after, all[i].pegin.account);
      if i >= |minted| {
        assert SameEvent(events[i - |minted|], mints[i - |minted|]);
      }
    }
    forall i, j | 0 <= i < j < |all| && all[i].pegin.account == all[j].pegin.account
      ensures all[i].pegin.height != all[j].pegin.height
    {
      if i >= |minted| {
        assert SameEvent(events[i - |minted|], mints[i - |minted|]) && SameEvent(events[j - |minted|], mints[j - |minted|]);
      }
    }
  }

  // ---------------------------------------------------------------- what soundness means

  function OutpointsOf(metas: seq<PeginMeta>): seq<OutPoint> {
    seq(|metas|, i requires 0 <= i < |metas| => metas[i].outpoint)
  }

  /** Every outpoint minted for, in order. */
  function Outpoints(minted: seq<Mint>): seq<OutPoint> {
    if minted == [] then [] else Outpoints(minted[..|minted| - 1]) + OutpointsOf(minted[|minted| - 1].pegin.meta)
  }

  lemma {:induction false} OutpointFrom(minted: seq<Mint>, o: OutPoint) returns (i: nat, m: PeginMeta)
    requires o in Outpoints(minted)
    ensures i < |minted| && m in minted[i].pegin.meta && m.outpoint == o
  {
    var last := minted[|minted| - 1].pegin;
    if o in OutpointsOf(last.meta) {
      var k :| 0 <= k < |last.meta| && OutpointsOf(last.meta)[k] == o;
      i, m := |minted| - 1, last.meta[k];
    } else {
      i, m := OutpointFrom(minted[..|minted| - 1], o);
    }
  }

  /** One outpoint cannot back two mints. */
  lemma OneMintPerOutpoint(chain: seq<Header>, heights: map<Account, nat>, minted: seq<Mint>,
                           i: nat, m: PeginMeta, j: nat, n: PeginMeta)
    requires Sound(chain, heights, minted) && OneHeightPerTx(chain)
    requires i < |minted| && j < |minted| && m in minted[i].pegin.meta && n in minted[j].pegin.meta && m.outpoint == n.outpoint
    ensures i == j
  {
    hide Leaves; hide Sats;
    assert Backed(chain, minted[i].pegin) && Backed(chain, minted[j].pegin);
    assert minted[i].pegin.height == minted[j].pegin.height;
    assert m.tx == n.tx && minted[i].pegin.account == minted[j].pegin.account;
  }

  lemma {:induction false} NoDoubleMint(chain: seq<Header>, heights: map<Account, nat>, minted: seq<Mint>)
    requires Sound(chain, heights, minted) && OneHeightPerTx(chain)
    ensures NoDuplicates(Outpoints(minted))
  {
    hide OneHeightPerTx; hide Leaves; hide Sats;
    if minted != [] {
      var init, last := minted[..|minted| - 1], minted[|minted| - 1].pegin;
      NoDoubleMint(chain, heights, init);
      assert Backed(chain, last);
      var (xs, ys) := (Outpoints(init), OutpointsOf(last.meta));
      forall a, b | 0 <= a < |xs| && 0 <= b < |ys|
        ensures xs[a] != ys[b]
      {
        if xs[a] == ys[b] {
          var i, m := OutpointFrom(init, xs[a]);
          OneMintPerOutpoint(chain, heights, minted, i, m, |minted| - 1, last.meta[b]);
        }
      }
    }
  }

  /** What the contract credited to accounts. */
  ghost function Credited(minted: seq<Mint>): nat {
    if minted == [] then 0 else Credited(minted[..|minted| - 1]) + minted[|minted| - 1].pegin.amount
  }

  /** What the contract paid to refund addresses. */
  ghost function Refunded(minted: seq<Mint>): nat {
    if minted == [] then 0 else Refunded(minted[..|minted| - 1]) + minted[|minted| - 1].call.TxCost()
  }

  /** What callers asked for in all. */
  ghost function Asked(minted: seq<Mint>): nat {
    if minted == [] then 0 else Asked(minted[..|minted| - 1]) + minted[|minted| - 1].call.amount
  }

  /** The value in wei of the outputs minted for. */
  ghost function Pegged(minted: seq<Mint>): nat {
    if minted == [] then 0 else Pegged(minted[..|minted| - 1]) + Backing(minted[|minted| - 1])
  }

  ghost function Backing(m: Mint): nat {
    Sats(m.pegin.meta) * SATOSHI_IN_WEI
  }

  ghost function PaidOut(minted: seq<Mint>): nat {
    Credited(minted) + Refunded(minted)
  }

  /** Crediting stays below what was paid in; with the refunds the contract pays out exactly what
      callers asked for, which is less than what was paid in and the refunds together. */
  ghost predicate Conserves(minted: seq<Mint>) {
    && PaidOut(minted) == Asked(minted)
    && (minted != [] ==> Credited(minted) < Pegged(minted) && PaidOut(minted) < Pegged(minted) + Refunded(minted))
  }

  lemma {:induction false} PaidOutIsBounded(chain: seq<Header>, heights: map<Account, nat>, minted: seq<Mint>)
    requires Sound(chain, heights, minted)
    ensures Conserves(minted)
  {
    hide Leaves; hide DistinctOutpoints; hide Sats;
    if minted != [] {
      var last := minted[|minted| - 1];
      PaidOutIsBounded(chain, heights, minted[..|minted| - 1]);
      assert Backed(chain, last.pegin) && PaidBy(last);
    }
  }

  lemma OneMint(m: Mint)
    ensures Credited([m]) == m.pegin.amount && Refunded([m]) == m.call.TxCost() && Pegged([m]) == Backing(m)
  {
    assert [m][..0] == [];
  }

  /** A mint pays out no more than its backing exactly if its call does not ask for more, and then
      so does any run of such mints. */
  lemma {:induction false} WithinBacking(chain: seq<Header>, heights: map<Account, nat>, minted: seq<Mint>)
    requires Sound(chain, heights, minted)
    ensures forall m :: m in minted ==> (PaidOut([m]) <= Backing(m) <==> m.call.amount <= Backing(m))
    ensures (forall m :: m in minted ==> m.call.amount <= Backing(m)) ==> PaidOut(minted) <= Pegged(minted)
  {
    hide Leaves; hide DistinctOutpoints; hide Sats; hide Backed;
    forall m | m in minted
      ensures PaidOut([m]) == m.call.amount
    {
      var i :| 0 <= i < |minted| && minted[i] == m;
      OneMint(m);
    }
    if minted != [] {
      var last := minted[|minted| - 1];
      WithinBacking(chain, heights, minted[..|minted| - 1]);
      assert PaidBy(last);
    }
  }

  /** Paying out more than the backing does occur: one satoshi is paid in, and the event's amount is
      one wei below its value, but the call asked for the refund on top of that. */
  lemma RefundAboveBacking() returns (chain: seq<Header>, t: Transaction, l: Ledger)
    ensures HeaderChain(chain) && OneHeightPerTx(chain) && PackageOnChain(chain, t.package)
    ensures Transacted(Ledger(map[], []), t, l) && PaidOut(l.minted) > Pegged(l.minted)
  {
    var key := PublicKey(0);
    var tx := Tx([], [TxOut(1, Gateway(key, 0))], 0);
    var genesis := Header(ForeignHeader(0), ForeignNode(0), 0);
    var block := Header(genesis.Hash(), TxLeaf(tx.Txid()), 0);
    chain := [genesis, block];
    var meta := PeginMeta(0, Matched(tx.Txid()), OutPoint(tx.Txid(), 0), [block], tx, None);
    var call := MintCall(0, SATOSHI_IN_WEI - 1 + MINT_GAS_USED, 1, [Some(meta)], 1, [], true);
    var package := Package(Commitment(block, 1), Federation(key, true, _ => true), map[]);
    t := Transaction([call], package, true);
    var pegin := PeginData(0, SATOSHI_IN_WEI - 1, 1, [meta]);
    l := Ledger(map[0 := 1], [Mint(pegin, call)]);
    assert [call][..0] == [] && map[][0 := 1] == map[0 := 1];
    assert Called(map[], [call]) == Executed(map[0 := 1], [EventOf(call)]);
    OneProofPasses(pegin, package);
    assert l.minted[0..] == l.minted;
    assert Accepted(EventOf(call), package, l.minted[0]);
    DecidedBy(EventOf(call).log, pegin, package);
    OneMint(l.minted[0]);
  }

  lemma OneProofPasses(p: PeginData, package: Package)
    requires |p.meta| == 1 && |p.meta[0].headers| == 1 && p.meta[0].version == 0 && p.meta[0].refBlock.None?
    requires p.meta[0].headers[0] == package.checkpoint.header && p.height == package.checkpoint.height
    requires Shows(p.meta[0], p.account, p.height, package.checkpoint, package.fed)
    requires p.amount < Sats(p.meta) * SATOSHI_IN_WEI < U256
    ensures Passes(p, package)
  {
    hide Shows; hide Verdict;
    ValidatedExactly(p, package.checkpoint, package.fed, 1);
    assert p.meta[..1] == p.meta;
  }
}
