/** The checks on a pegout transaction before it is signed, and the rule that lets a pegout be retried
    without being paid twice. */
module Pegouts {
  import opened Blocks
  import opened Bitcoin

  type PegoutId = nat

  /** The id an output carries, or one that does not decode. */
  datatype RawId = WellFormed(id: PegoutId) | Undecodable

  /** What a PSBT says about an input: the output it spends, the same output if it comes with the whole
      transaction that made it, the account that tweaks its key, and the signers that have given
      commitments and partial signatures for it. */
  datatype PsbtInput = PsbtInput(prevOut: Option<TxOut>, fromTx: Option<TxOut>, account: Option<Account>,
                                 committed: set<nat>, signed: set<nat>)

  /** An output without an id is change. `extracts` says whether the library gives the transaction out. */
  datatype Psbt = Psbt(inputs: seq<PsbtInput>, outputs: seq<Option<RawId>>, tx: Tx, extracts: bool)
  {
    /** One entry for each input of the transaction, as the format requires. */
    ghost predicate Valid() {
      |inputs| == |tx.inputs|
    }
  }

  /** A signed transaction and the pegouts it pays. */
  datatype SignedTx = SignedTx(tx: Tx, ids: seq<PegoutId>)

  /** A pegout as it was asked for: where it goes, and when it was asked for. */
  datatype Request = Request(script: Script, stamp: Option<nat>)

  /** A transaction that is tracked, with the requests that were pending when it was signed. */
  datatype Record = Record(tx: Tx, requests: map<PegoutId, Request>)

  datatype Utxo = Utxo(output: TxOut, account: Option<Account>)

  datatype PsbtError =
    | NoInputs | NoOutputs | BadPegoutId | NoConflictingInput
    | OutputCountMismatch | MissingKey | SecondChangeOutput | AlreadyFinalized(id: PegoutId) | DuplicateOutputs
    | InvalidChangeOutput | NegativeFee | FeeTooLarge | FeeError | AboveOutputs
    | CommitmentCount | SignatureCount | SignerMismatch | ExtractionFailed
    | AccountMismatch | MissingWitness | OutputMismatch | ShareFailed | TooManyPegouts

  /** The stage a PSBT is validated for. Each one but the last checks what those before it do. */
  datatype Stage = Sanity | Round1 | Round1Done | Round2 | Round2Done

  datatype Result = Ok | Err(error: PsbtError)

  const MAX_SATS := 0xffff_ffff_ffff_ffff

  // ---------------------------------------------------------------- ids and conflicts

  ghost predicate Decodable(psbt: Psbt) {
    forall i :: 0 <= i < |psbt.outputs| && psbt.outputs[i].Some? ==> psbt.outputs[i].value.WellFormed?
  }

  /** The ids of the outputs that carry one, in order. */
  function IdsOf(outputs: seq<Option<RawId>>): seq<PegoutId> {
    if outputs == [] then []
    else
      var last := outputs[|outputs| - 1];
      IdsOf(outputs[..|outputs| - 1]) + (if last.Some? && last.value.WellFormed? then [last.value.id] else [])
  }

  lemma IdsStep(outputs: seq<Option<RawId>>, i: nat)
    requires i < |outputs|
    ensures IdsOf(outputs[..i + 1]) ==
              IdsOf(outputs[..i]) + (if outputs[i].Some? && outputs[i].value.WellFormed? then [outputs[i].value.id] else [])
  {
    assert outputs[..i + 1][..i] == outputs[..i];
  }

  predicate Shares(requests: map<PegoutId, Request>, ids: seq<PegoutId>) {
    exists id :: id in ids && id in requests
  }

  predicate Overlaps(ids: seq<PegoutId>, finalized: set<PegoutId>) {
    exists id :: id in ids && id in finalized
  }

  predicate Conflicts(a: Tx, b: Tx) {
    exists o :: o in a.inputs && o in b.inputs
  }

  /** Every two transactions that pay the pegout spend a common output. */
  ghost predicate Conflicting(txs: seq<SignedTx>, id: PegoutId) {
    forall i, j :: 0 <= i < j < |txs| && id in txs[i].ids && id in txs[j].ids ==> Conflicts(txs[i].tx, txs[j].tx)
  }

  /** No transaction carries an id twice. */
  ghost predicate PaysOnce(txs: seq<SignedTx>) {
    forall i :: 0 <= i < |txs| ==> NoDuplicates(txs[i].ids)
  }

  /** The transaction spends an output of every tracked transaction it shares a pegout with. */
  ghost predicate ConflictsWithAll(tracked: map<Txid, Record>, psbt: Psbt) {
    forall t :: t in tracked && Shares(tracked[t].requests, IdsOf(psbt.outputs)) ==> Conflicts(tracked[t].tx, psbt.tx)
  }

  method HasConflictingInput(tracked: map<Txid, Record>, psbt: Psbt) returns (r: Result)
    ensures r == if !Decodable(psbt) then Err(BadPegoutId)
                 else if !ConflictsWithAll(tracked, psbt) then Err(NoConflictingInput) else Ok
  {
    var ids: seq<PegoutId> := [];
    for i := 0 to |psbt.outputs|
      invariant ids == IdsOf(psbt.outputs[..i])
      invariant forall k :: 0 <= k < i && psbt.outputs[k].Some? ==> psbt.outputs[k].value.WellFormed?
    {
      IdsStep(psbt.outputs, i);
      if psbt.outputs[i].Some? {
        if psbt.outputs[i].value.Undecodable? {
          return Err(BadPegoutId);
        }
        ids := ids + [psbt.outputs[i].value.id];
      }
    }
    assert psbt.outputs[..|psbt.outputs|] == psbt.outputs;
    var todo := tracked.Keys;
    while todo != {}
      invariant todo <= tracked.Keys
      invariant forall t :: t in tracked && t !in todo && Shares(tracked[t].requests, ids) ==> Conflicts(tracked[t].tx, psbt.tx)
    {
      var t :| t in todo;
      if Shares(tracked[t].requests, ids) && !Conflicts(tracked[t].tx, psbt.tx) {
        return Err(NoConflictingInput);
      }
      todo := todo - {t};
    }
    return Ok;
  }

  /** No output is spent by two transactions of the ledger. */
  ghost predicate SpentOnce(ledger: seq<Tx>) {
    forall i, j :: 0 <= i < j < |ledger| ==> !Conflicts(ledger[i], ledger[j])
  }

  /** The ledger's transaction at `i` is a signed one that pays the pegout. */
  ghost predicate Pays(signed: seq<SignedTx>, ledger: seq<Tx>, id: PegoutId, i: int) {
    0 <= i < |ledger| && exists a :: 0 <= a < |signed| && signed[a].tx == ledger[i] && id in signed[a].ids
  }

  ghost predicate HaveInputs(signed: seq<SignedTx>) {
    forall a :: 0 <= a < |signed| ==> signed[a].tx.inputs != []
  }

  /** Of conflicting transactions that pay a pegout, a ledger that spends each output once confirms at
      most one, and that one carries the id once. */
  lemma PaidAtMostOnce(signed: seq<SignedTx>, ledger: seq<Tx>, id: PegoutId, a: nat, b: nat, i: nat, j: nat)
    requires Conflicting(signed, id) && PaysOnce(signed) && HaveInputs(signed) && SpentOnce(ledger)
    requires a < |signed| && b < |signed| && id in signed[a].ids && id in signed[b].ids
    requires i < |ledger| && j < |ledger| && ledger[i] == signed[a].tx && ledger[j] == signed[b].tx
    ensures i == j && signed[a].tx == signed[b].tx
    ensures multiset(signed[a].ids)[id] == 1
  {
    OnceInSequence(signed[a].ids, id);
    assert signed[a].tx.inputs[0] in signed[a].tx.inputs;
    assert Conflicts(ledger[i], ledger[j]) && Conflicts(ledger[j], ledger[i]) by {
      if a != b {
        assert Conflicts(signed[if a < b then a else b].tx, signed[if a < b then b else a].tx);
      }
    }
  }

  /** At most one transaction of the ledger pays the pegout. */
  ghost predicate PaidOnce(signed: seq<SignedTx>, ledger: seq<Tx>, id: PegoutId) {
    forall i, j :: Pays(signed, ledger, id, i) && Pays(signed, ledger, id, j) ==> i == j
  }

  lemma OnePays(signed: seq<SignedTx>, ledger: seq<Tx>, id: PegoutId)
    requires Conflicting(signed, id) && PaysOnce(signed) && HaveInputs(signed) && SpentOnce(ledger)
    ensures PaidOnce(signed, ledger, id)
  {
    hide Conflicting; hide PaysOnce; hide SpentOnce; hide HaveInputs;
    forall i, j | Pays(signed, ledger, id, i) && Pays(signed, ledger, id, j)
      ensures i == j
    {
      var a :| 0 <= a < |signed| && signed[a].tx == ledger[i] && id in signed[a].ids;
      var b :| 0 <= b < |signed| && signed[b].tx == ledger[j] && id in signed[b].ids;
      PaidAtMostOnce(signed, ledger, id, a, b, i, j);
    }
  }

  /** Whatever a ledger confirms, the pegout is paid at most once exactly if all that is signed for it
      is in conflict. */
  lemma PaidOnceExactly(signed: seq<SignedTx>, id: PegoutId)
    requires PaysOnce(signed) && HaveInputs(signed)
    ensures (forall ledger :: SpentOnce(ledger) ==> PaidOnce(signed, ledger, id)) <==> Conflicting(signed, id)
  {
    hide Conflicts; hide PaysOnce; hide HaveInputs;
    if Conflicting(signed, id) {
      hide Conflicting;
      forall ledger | SpentOnce(ledger)
        ensures PaidOnce(signed, ledger, id)
      {
        OnePays(signed, ledger, id);
      }
    } else {
      var i, j :| 0 <= i < j < |signed| && id in signed[i].ids && id in signed[j].ids && !Conflicts(signed[i].tx, signed[j].tx);
      BothPaid(signed, id, i, j);
    }
  }

  /** Two signed transactions for a pegout that do not conflict can both be confirmed. */
  lemma BothPaid(signed: seq<SignedTx>, id: PegoutId, i: nat, j: nat)
    requires i < |signed| && j < |signed| && id in signed[i].ids && id in signed[j].ids
    requires !Conflicts(signed[i].tx, signed[j].tx)
    ensures var ledger := [signed[i].tx, signed[j].tx]; SpentOnce(ledger) && !PaidOnce(signed, ledger, id)
  {
    hide Conflicts;
    var ledger := [signed[i].tx, signed[j].tx];
    assert Pays(signed, ledger, id, 0) && Pays(signed, ledger, id, 1);
  }

  lemma {:induction false} OnceInSequence<T>(s: seq<T>, x: T)
    requires NoDuplicates(s) && x in s
    ensures multiset(s)[x] == 1
  {
    var k :| 0 <= k < |s| && s[k] == x;
    assert s == s[..k] + [x] + s[k + 1..];
    assert x !in s[..k] && x !in s[k + 1..];
  }

  // ---------------------------------------------------------------- outputs

  function Distinct(ids: seq<PegoutId>): set<PegoutId> {
    set id | id in ids
  }

  /** Collecting ids in a set loses some exactly if one occurs twice. */
  lemma {:induction false} DistinctCounts(ids: seq<PegoutId>)
    ensures |Distinct(ids)| <= |ids|
    ensures |Distinct(ids)| == |ids| <==> NoDuplicates(ids)
  {
    if ids != [] {
      var init, last := ids[..|ids| - 1], ids[|ids| - 1];
      DistinctCounts(init);
      assert Distinct(ids) == Distinct(init) + {last};
      if last in init {
        var k :| 0 <= k < |init| && init[k] == last;
        assert ids[k] == ids[|ids| - 1];
      }
    }
  }

  ghost predicate OneChange(outputs: seq<Option<RawId>>) {
    forall i, j :: 0 <= i < j < |outputs| ==> outputs[i].Some? || outputs[j].Some?
  }

  ghost predicate ChangeOk(psbt: Psbt, key: PublicKey)
    requires |psbt.outputs| == |psbt.tx.outputs|
  {
    forall i :: 0 <= i < |psbt.outputs| && psbt.outputs[i].None? ==> psbt.tx.outputs[i].script == Change(key)
  }

  /** Outputs a signer agrees to: each is a pegout not finalized and not repeated, or the one change output. */
  ghost predicate OutputsOk(psbt: Psbt, key: Option<PublicKey>, finalized: set<PegoutId>) {
    && |psbt.outputs| == |psbt.tx.outputs| && key.Some?
    && Decodable(psbt) && OneChange(psbt.outputs)
    && !Overlaps(IdsOf(psbt.outputs), finalized) && NoDuplicates(IdsOf(psbt.outputs))
    && ChangeOk(psbt, key.value)
  }

  /** What each error means. */
  ghost predicate Explains(error: PsbtError, psbt: Psbt, key: Option<PublicKey>, finalized: set<PegoutId>) {
    match error
    case OutputCountMismatch => |psbt.outputs| != |psbt.tx.outputs|
    case MissingKey => key.None?
    case BadPegoutId => !Decodable(psbt)
    case SecondChangeOutput => !OneChange(psbt.outputs)
    case AlreadyFinalized(id) => id in IdsOf(psbt.outputs) && id in finalized
    case DuplicateOutputs => !NoDuplicates(IdsOf(psbt.outputs))
    case InvalidChangeOutput =>
      |psbt.outputs| == |psbt.tx.outputs| && key.Some? && !ChangeOk(psbt, key.value)
    case _ => false
  }

  /** The ids of the outputs and the position of the change output, as far as the outputs are scanned. */
  ghost predicate Scanned(outputs: seq<Option<RawId>>, n: nat, ids: seq<PegoutId>, change: Option<nat>)
    requires n <= |outputs|
  {
    && ids == IdsOf(outputs[..n])
    && (forall k :: 0 <= k < n && outputs[k].Some? ==> outputs[k].value.WellFormed?)
    && (change.Some? ==> change.value < n && outputs[change.value].None?)
    && (forall k :: 0 <= k < n && outputs[k].None? ==> change == Some(k))
  }

  method ScanOutputs(psbt: Psbt) returns (error: Option<PsbtError>, ids: seq<PegoutId>, change: Option<nat>)
    ensures error.None? ==> Scanned(psbt.outputs, |psbt.outputs|, ids, change)
    ensures error.Some? ==> || (error.value == BadPegoutId && !Decodable(psbt))
                            || (error.value == SecondChangeOutput && !OneChange(psbt.outputs))
  {
    error, ids, change := None, [], None;
    for i := 0 to |psbt.outputs|
      invariant Scanned(psbt.outputs, i, ids, change)
    {
      IdsStep(psbt.outputs, i);
      var output := psbt.outputs[i];
      if output.Some? {
        if output.value.Undecodable? {
          error := Some(BadPegoutId);
          return;
        }
        ids := ids + [output.value.id];
      } else {
        if change.Some? {
          assert psbt.outputs[change.value].None?;
          error := Some(SecondChangeOutput);
          return;
        }
        change := Some(i);
      }
    }
  }

  // ---------------------------------------------------------------- inputs

  ghost predicate InputMatches(psbt: Psbt, utxos: map<OutPoint, Utxo>, k: nat)
    requires psbt.Valid() && k < |psbt.inputs| && psbt.tx.inputs[k] in utxos
  {
    var utxo := utxos[psbt.tx.inputs[k]];
    (utxo.account.Some? ==> psbt.inputs[k].account == utxo.account) && psbt.inputs[k].prevOut == Some(utxo.output)
  }

  ghost predicate KnownUpTo(tx: Tx, utxos: map<OutPoint, Utxo>, k: nat)
    requires k < |tx.inputs|
  {
    forall j :: 0 <= j <= k ==> tx.inputs[j] in utxos
  }

  /** The inputs before the first one that is not in the database match it. */
  ghost predicate CheckedInputs(psbt: Psbt, utxos: map<OutPoint, Utxo>)
    requires psbt.Valid()
  {
    forall k :: 0 <= k < |psbt.inputs| && KnownUpTo(psbt.tx, utxos, k) ==> InputMatches(psbt, utxos, k)
  }

  ghost predicate KnownFirst(psbt: Psbt, utxos: map<OutPoint, Utxo>)
    requires psbt.Valid()
  {
    forall j, k :: 0 <= j < k < |psbt.inputs| && psbt.tx.inputs[k] in utxos ==> psbt.tx.inputs[j] in utxos
  }

  ghost predicate AllKnownMatch(psbt: Psbt, utxos: map<OutPoint, Utxo>)
    requires psbt.Valid()
  {
    forall k :: 0 <= k < |psbt.inputs| && psbt.tx.inputs[k] in utxos ==> InputMatches(psbt, utxos, k)
  }

  /** What an error about inputs means: the first wrong one, before any unknown one, is wrong in that way. */
  ghost predicate InputReason(error: PsbtError, psbt: Psbt, utxos: map<OutPoint, Utxo>)
    requires psbt.Valid()
  {
    exists k :: 0 <= k < |psbt.inputs| && KnownUpTo(psbt.tx, utxos, k) && WrongInput(error, psbt, utxos, k)
  }

  ghost predicate WrongInput(error: PsbtError, psbt: Psbt, utxos: map<OutPoint, Utxo>, k: nat)
    requires psbt.Valid() && k < |psbt.inputs| && psbt.tx.inputs[k] in utxos
  {
    var utxo, input := utxos[psbt.tx.inputs[k]], psbt.inputs[k];
    match error
    case AccountMismatch => utxo.account.Some? && input.account != utxo.account
    case MissingWitness => input.prevOut.None?
    case OutputMismatch => input.prevOut.Some? && input.prevOut.value != utxo.output
    case _ => false
  }

  method CheckInputs(psbt: Psbt, utxos: map<OutPoint, Utxo>) returns (r: Result)
    requires psbt.Valid()
    ensures r.Ok? <==> CheckedInputs(psbt, utxos)
    ensures r.Err? ==> InputReason(r.error, psbt, utxos)
  {
    for k := 0 to |psbt.inputs|
      invariant forall j :: 0 <= j < k ==> psbt.tx.inputs[j] in utxos && InputMatches(psbt, utxos, j)
    {
      var outpoint, input := psbt.tx.inputs[k], psbt.inputs[k];
      if outpoint !in utxos {
        return Ok;
      }
      assert KnownUpTo(psbt.tx, utxos, k);
      var utxo := utxos[outpoint];
      if utxo.account.Some? && input.account != utxo.account {
        assert WrongInput(AccountMismatch, psbt, utxos, k);
        return Err(AccountMismatch);
      }
      if input.prevOut.None? {
        assert WrongInput(MissingWitness, psbt, utxos, k);
        return Err(MissingWitness);
      }
      if input.prevOut.value != utxo.output {
        assert WrongInput(OutputMismatch, psbt, utxos, k);
        return Err(OutputMismatch);
      }
    }
    return Ok;
  }

  /** Every known input is checked when the known ones come first. */
  lemma KnownInputsMatch(psbt: Psbt, utxos: map<OutPoint, Utxo>)
    requires psbt.Valid() && KnownFirst(psbt, utxos)
    ensures CheckedInputs(psbt, utxos) <==> AllKnownMatch(psbt, utxos)
  {
    hide InputMatches;
  }

  // ---------------------------------------------------------------- rounds of signing

  ghost predicate EnoughCommitments(psbt: Psbt, signers: nat) {
    forall i :: 0 <= i < |psbt.inputs| ==> signers <= |psbt.inputs[i].committed|
  }

  ghost predicate NotTooManySignatures(psbt: Psbt, signers: nat) {
    forall i :: 0 <= i < |psbt.inputs| ==> |psbt.inputs[i].signed| <= signers
  }

  ghost predicate AllSigned(psbt: Psbt, signers: nat) {
    forall i :: 0 <= i < |psbt.inputs| ==>
                  |psbt.inputs[i].signed| == signers && psbt.inputs[i].committed == psbt.inputs[i].signed
  }

  ghost predicate RoundOk(psbt: Psbt, stage: Stage, signers: nat) {
    && (!stage.Sanity? && !stage.Round1? ==> EnoughCommitments(psbt, signers))
    && (stage.Round2? ==> NotTooManySignatures(psbt, signers))
    && (stage.Round2Done? ==> AllSigned(psbt, signers))
  }

  /** What an error about a round of signing means. */
  ghost predicate RoundReason(error: PsbtError, psbt: Psbt, stage: Stage, signers: nat) {
    match error
    case CommitmentCount =>
      !stage.Sanity? && !stage.Round1? && exists i :: 0 <= i < |psbt.inputs| && |psbt.inputs[i].committed| < signers
    case SignatureCount =>
      || (stage.Round2? && exists i :: 0 <= i < |psbt.inputs| && signers < |psbt.inputs[i].signed|)
      || (stage.Round2Done? && exists i :: 0 <= i < |psbt.inputs| && |psbt.inputs[i].signed| != signers)
    case SignerMismatch =>
      stage.Round2Done? && exists i :: 0 <= i < |psbt.inputs| && psbt.inputs[i].committed != psbt.inputs[i].signed
    case _ => false
  }

  /** The commitments and signatures are as many, and from the same signers, as the stage asks for. */
  method CheckRound(psbt: Psbt, stage: Stage, signers: nat) returns (r: Result)
    ensures r.Ok? <==> RoundOk(psbt, stage, signers)
    ensures r.Err? ==> RoundReason(r.error, psbt, stage, signers)
  {
    if !stage.Sanity? && !stage.Round1? {
      for i := 0 to |psbt.inputs|
        invariant forall k :: 0 <= k < i ==> signers <= |psbt.inputs[k].committed|
      {
        if |psbt.inputs[i].committed| < signers {
          return Err(CommitmentCount);
        }
      }
    }
    if stage.Round2? {
      for i := 0 to |psbt.inputs|
        invariant forall k :: 0 <= k < i ==> |psbt.inputs[k].signed| <= signers
      {
        if |psbt.inputs[i].signed| > signers {
          return Err(SignatureCount);
        }
      }
    }
    if stage.Round2Done? {
      for i := 0 to |psbt.inputs|
        invariant forall k :: 0 <= k < i ==> |psbt.inputs[k].signed| == signers
      {
        if |psbt.inputs[i].signed| != signers {
          return Err(SignatureCount);
        }
      }
      for i := 0 to |psbt.inputs|
        invariant forall k :: 0 <= k < i ==> psbt.inputs[k].committed == psbt.inputs[k].signed
      {
        if psbt.inputs[i].committed != psbt.inputs[i].signed {
          return Err(SignerMismatch);
        }
      }
    }
    return Ok;
  }

  // ---------------------------------------------------------------- fees and acceptance

  /** The sum of the outputs; a sum out of range starts again from zero. */
  function TotalOut(outputs: seq<TxOut>): nat {
    if outputs == [] then 0
    else
      var total := TotalOut(outputs[..|outputs| - 1]) + outputs[|outputs| - 1].sats;
      if total <= MAX_SATS then total else 0
  }

  datatype Fee = FeeOf(sats: nat) | FeeNegative | FeeOverflow | FeeUnknown

  function Funding(input: PsbtInput): Option<TxOut> {
    if input.prevOut.Some? then input.prevOut else input.fromTx
  }

  /** What the inputs bring in, unless one of them is unknown or the sum goes out of range first. */
  function Funds(inputs: seq<PsbtInput>): Fee {
    if inputs == [] then FeeOf(0)
    else
      var init, last := Funds(inputs[..|inputs| - 1]), Funding(inputs[|inputs| - 1]);
      if !init.FeeOf? then init
      else if last.None? then FeeUnknown
      else if init.sats + last.value.sats > MAX_SATS then FeeOverflow
      else FeeOf(init.sats + last.value.sats)
  }

  function SumOut(outputs: seq<TxOut>): nat {
    if outputs == [] then 0 else SumOut(outputs[..|outputs| - 1]) + outputs[|outputs| - 1].sats
  }

  /** What the inputs bring in and the outputs do not take. */
  function FeeFor(psbt: Psbt): Fee {
    var funds, spent := Funds(psbt.inputs), SumOut(psbt.tx.outputs);
    if !funds.FeeOf? then funds
    else if spent > MAX_SATS then FeeOverflow
    else if funds.sats < spent then FeeNegative
    else FeeOf(funds.sats - spent)
  }

  /** What the known outputs spent are worth. */
  ghost function SumIn(inputs: seq<PsbtInput>): nat {
    if inputs == [] then 0
    else
      var last := inputs[|inputs| - 1];
      SumIn(inputs[..|inputs| - 1]) +
      (if last.prevOut.Some? then last.prevOut.value.sats else if last.fromTx.Some? then last.fromTx.value.sats else 0)
  }

  ghost predicate AllFunded(inputs: seq<PsbtInput>) {
    forall i :: 0 <= i < |inputs| ==> inputs[i].prevOut.Some? || inputs[i].fromTx.Some?
  }

  lemma {:induction false} FundsExactly(inputs: seq<PsbtInput>)
    ensures Funds(inputs).FeeOf? <==> AllFunded(inputs) && SumIn(inputs) <= MAX_SATS
    ensures Funds(inputs).FeeOf? ==> Funds(inputs).sats == SumIn(inputs)
    ensures !Funds(inputs).FeeNegative?
  {
    if inputs != [] {
      var init, last := inputs[..|inputs| - 1], inputs[|inputs| - 1];
      FundsExactly(init);
      assert inputs == init + [last];
      assert AllFunded(inputs) <==> AllFunded(init) && (last.prevOut.Some? || last.fromTx.Some?);
    }
  }

  /** The fee is what the outputs leave of the inputs, unless that is unknown, out of range or negative. */
  lemma FeeExactly(psbt: Psbt)
    ensures var known := AllFunded(psbt.inputs) && SumIn(psbt.inputs) <= MAX_SATS && SumOut(psbt.tx.outputs) <= MAX_SATS;
            && (FeeFor(psbt).FeeOf? <==> known && SumOut(psbt.tx.outputs) <= SumIn(psbt.inputs))
            && (FeeFor(psbt).FeeOf? ==> FeeFor(psbt).sats + SumOut(psbt.tx.outputs) == SumIn(psbt.inputs))
            && (FeeFor(psbt).FeeNegative? <==> known && SumIn(psbt.inputs) < SumOut(psbt.tx.outputs))
  {
    hide Funds; hide SumIn; hide SumOut; hide AllFunded;
    FundsExactly(psbt.inputs);
  }

  lemma {:induction false} TotalIsSum(outputs: seq<TxOut>)
    ensures SumOut(outputs) <= MAX_SATS ==> TotalOut(outputs) == SumOut(outputs)
  {
    if outputs != [] {
      TotalIsSum(outputs[..|outputs| - 1]);
    }
  }

  /** A signable PSBT spends no less than it pays, and at most twice as much. */
  lemma FeeIsBounded(s: Store, psbt: Psbt, stage: Stage, signers: nat)
    requires psbt.Valid() && Signable(s, psbt, stage, signers)
    ensures AllFunded(psbt.inputs)
    ensures SumOut(psbt.tx.outputs) <= SumIn(psbt.inputs) <= 2 * SumOut(psbt.tx.outputs)
  {
    hide FeeFor; hide SumIn; hide SumOut; hide TotalOut; hide ConflictsWithAll; hide OutputsOk; hide RoundOk;
    hide CheckedInputs; hide AllFunded;
    FeeExactly(psbt);
    TotalIsSum(psbt.tx.outputs);
  }

  /** What a signer keeps: the transactions it tracks, by id, the ids of finalized pegouts with the time
      they are kept from, and the pegouts that are pending. */
  datatype Store = Store(tracked: map<Txid, Record>, finalized: map<PegoutId, Option<nat>>,
                         pending: map<PegoutId, Request>, key: Option<PublicKey>, utxos: map<OutPoint, Utxo>)

  /** The PSBTs a signer accepts at a stage. */
  ghost predicate Signable(s: Store, psbt: Psbt, stage: Stage, signers: nat)
    requires psbt.Valid()
  {
    && psbt.inputs != [] && psbt.outputs != []
    && ConflictsWithAll(s.tracked, psbt) && OutputsOk(psbt, s.key, s.finalized.Keys)
    && FeeFor(psbt).FeeOf? && FeeFor(psbt).sats <= TotalOut(psbt.tx.outputs)
    && (!stage.Sanity? ==> RoundOk(psbt, stage, signers) && psbt.extracts && CheckedInputs(psbt, s.utxos))
  }

  /** A signable PSBT pays distinct pegouts that are not finalized, with at most one other output, which goes
      back to the signers; past the first checks its known inputs are right if they come first, and it has
      the commitments and signatures that the round needs. */
  lemma SignableMeans(s: Store, psbt: Psbt, stage: Stage, signers: nat)
    requires psbt.Valid() && Signable(s, psbt, stage, signers)
    ensures psbt.tx.inputs != [] && |psbt.outputs| == |psbt.tx.outputs| > 0 && s.key.Some?
    ensures forall i :: 0 <= i < |psbt.outputs| && psbt.outputs[i].Some? ==>
                          psbt.outputs[i].value.WellFormed? && psbt.outputs[i].value.id !in s.finalized
    ensures forall i, j :: 0 <= i < j < |psbt.outputs| ==> psbt.outputs[i] != psbt.outputs[j]
    ensures forall i :: 0 <= i < |psbt.outputs| && psbt.outputs[i].None? ==> psbt.tx.outputs[i].script == Change(s.key.value)
    ensures !stage.Sanity? ==> psbt.extracts && (KnownFirst(psbt, s.utxos) ==> AllKnownMatch(psbt, s.utxos))
    ensures stage.Round1Done? || stage.Round2? || stage.Round2Done? ==>
              forall i :: 0 <= i < |psbt.inputs| ==> signers <= |psbt.inputs[i].committed|
    ensures stage.Round2? ==> forall i :: 0 <= i < |psbt.inputs| ==> |psbt.inputs[i].signed| <= signers
    ensures stage.Round2Done? ==>
              forall i :: 0 <= i < |psbt.inputs| ==>
                            |psbt.inputs[i].signed| == signers && psbt.inputs[i].committed == psbt.inputs[i].signed
  {
    hide IdsOf; hide NoDuplicates; hide CheckedInputs; hide KnownFirst; hide AllKnownMatch; hide FeeFor; hide TotalOut;
    hide ConflictsWithAll;
    if !stage.Sanity? && KnownFirst(psbt, s.utxos) {
      KnownInputsMatch(psbt, s.utxos);
    }
    forall i | 0 <= i < |psbt.outputs| && psbt.outputs[i].Some?
      ensures psbt.outputs[i].value.id in IdsOf(psbt.outputs)
    {
      IdListed(psbt.outputs, i);
    }
    forall i, j | 0 <= i < j < |psbt.outputs|
      ensures psbt.outputs[i] != psbt.outputs[j]
    {
      DistinctOutputs(psbt.outputs, i, j);
    }
  }

  lemma {:induction false} IdListed(outputs: seq<Option<RawId>>, i: nat)
    requires i < |outputs| && outputs[i].Some? && outputs[i].value.WellFormed?
    ensures outputs[i].value.id in IdsOf(outputs)
  {
    if i < |outputs| - 1 {
      IdListed(outputs[..|outputs| - 1], i);
    }
  }

  lemma {:induction false} DistinctOutputs(outputs: seq<Option<RawId>>, i: nat, j: nat)
    requires i < j < |outputs| && NoDuplicates(IdsOf(outputs)) && OneChange(outputs)
    requires forall k :: 0 <= k < |outputs| && outputs[k].Some? ==> outputs[k].value.WellFormed?
    ensures outputs[i] != outputs[j]
  {
    var init, last := outputs[..|outputs| - 1], outputs[|outputs| - 1];
    var ids := IdsOf(init);
    if j < |outputs| - 1 {
      assert IdsOf(outputs)[..|ids|] == ids;
      DistinctOutputs(init, i, j);
    } else if outputs[i].Some? {
      IdListed(init, i);
      if last.Some? {
        LastIsNew(ids, last.value.id);
      }
    }
  }

  lemma LastIsNew(ids: seq<PegoutId>, id: PegoutId)
    requires NoDuplicates(ids + [id])
    ensures id !in ids
  {
    var all := ids + [id];
    assert all[|ids|] == id && forall k :: 0 <= k < |ids| ==> all[k] == ids[k];
  }

  /** What each error means: what is wrong with the PSBT. */
  ghost predicate Reason(error: PsbtError, s: Store, psbt: Psbt, stage: Stage, signers: nat)
    requires psbt.Valid()
  {
    match error
    case NoInputs => psbt.inputs == []
    case NoOutputs => psbt.outputs == []
    case NoConflictingInput => !ConflictsWithAll(s.tracked, psbt)
    case NegativeFee => FeeFor(psbt).FeeNegative?
    case FeeTooLarge => FeeFor(psbt).FeeOverflow?
    case FeeError => FeeFor(psbt).FeeUnknown?
    case AboveOutputs => FeeFor(psbt).FeeOf? && TotalOut(psbt.tx.outputs) < FeeFor(psbt).sats
    case ExtractionFailed => !psbt.extracts
    case CommitmentCount => RoundReason(error, psbt, stage, signers)
    case SignatureCount => RoundReason(error, psbt, stage, signers)
    case SignerMismatch => RoundReason(error, psbt, stage, signers)
    case AccountMismatch => InputReason(error, psbt, s.utxos)
    case MissingWitness => InputReason(error, psbt, s.utxos)
    case OutputMismatch => InputReason(error, psbt, s.utxos)
    case _ => Explains(error, psbt, s.key, s.finalized.Keys)
  }

  /** For any signable PSBT that does not have the known inputs first, there is one that is signable
      although it gives another script for a known input, with the same value. */
  lemma UncheckedInput(s: Store, psbt: Psbt, stage: Stage, signers: nat, j: nat, k: nat) returns (psbt': Psbt)
    requires psbt.Valid() && Signable(s, psbt, stage, signers) && !stage.Sanity?
    requires j < k < |psbt.inputs| && psbt.tx.inputs[j] !in s.utxos && psbt.tx.inputs[k] in s.utxos
    requires psbt.inputs[k].prevOut.Some?
    ensures psbt'.Valid() && psbt' == psbt.(inputs := psbt'.inputs) && Signable(s, psbt', stage, signers)
    ensures psbt'.inputs[k].prevOut.Some? && psbt'.inputs[k].prevOut.value.sats == psbt.inputs[k].prevOut.value.sats
    ensures psbt'.inputs[k].prevOut.value.script != s.utxos[psbt.tx.inputs[k]].output.script
    ensures !AllKnownMatch(psbt', s.utxos)
  {
    hide ConflictsWithAll; hide OutputsOk; hide TotalOut; hide FeeFor;
    var script := s.utxos[psbt.tx.inputs[k]].output.script;
    var other := if script == OtherScript(0) then OtherScript(1) else OtherScript(0);
    var input := psbt.inputs[k];
    psbt' := psbt.(inputs := psbt.inputs[k := input.(prevOut := Some(TxOut(input.prevOut.value.sats, other)))]);
    SameOutputs(s, psbt, psbt');
    SameFunds(psbt.inputs, psbt'.inputs);
    assert FeeFor(psbt') == FeeFor(psbt) by { SameFee(psbt, psbt'); }
    forall i | 0 <= i < |psbt.inputs| && KnownUpTo(psbt'.tx, s.utxos, i)
      ensures InputMatches(psbt', s.utxos, i)
    {
      assert i < k;
      assert KnownUpTo(psbt.tx, s.utxos, i) && InputMatches(psbt, s.utxos, i);
    }
    assert !InputMatches(psbt', s.utxos, k);
  }

  lemma {:induction false} SameFunds(inputs: seq<PsbtInput>, inputs': seq<PsbtInput>)
    requires |inputs| == |inputs'|
    requires forall i :: 0 <= i < |inputs| ==> Funding(inputs[i]).Some? == Funding(inputs'[i]).Some?
    requires forall i :: 0 <= i < |inputs| && Funding(inputs[i]).Some? ==>
                           Funding(inputs[i]).value.sats == Funding(inputs'[i]).value.sats
    ensures Funds(inputs) == Funds(inputs')
  {
    if inputs != [] {
      SameFunds(inputs[..|inputs| - 1], inputs'[..|inputs| - 1]);
    }
  }

  lemma SameFee(psbt: Psbt, psbt': Psbt)
    requires psbt.tx == psbt'.tx && Funds(psbt.inputs) == Funds(psbt'.inputs)
    ensures FeeFor(psbt) == FeeFor(psbt')
  {
  }

  lemma SameOutputs(s: Store, psbt: Psbt, psbt': Psbt)
    requires psbt' == psbt.(inputs := psbt'.inputs)
    ensures ConflictsWithAll(s.tracked, psbt) <==> ConflictsWithAll(s.tracked, psbt')
    ensures OutputsOk(psbt, s.key, s.finalized.Keys) <==> OutputsOk(psbt', s.key, s.finalized.Keys)
  {
    hide IdsOf; hide NoDuplicates; hide Shares; hide Overlaps; hide Conflicts;
  }
}
