/** What a signer keeps of the pegouts it has signed for, and when that rules out paying one twice. */
module PegoutMemory {
  import opened Common
  import opened Blocks
  import opened Bitcoin
  import opened Pegouts

  /** `signers` is the number of signers that a signature takes. */
  datatype Settings = Settings(signers: nat, coordinator: bool)

  /** A hundred pegouts and the change. */
  const MAX_OUTPUTS := 101

  /** The seconds that a finalized id is kept: ninety days. */
  const RETENTION := 90 * 24 * 60 * 60

  // ---------------------------------------------------------------- what is remembered

  /** Everything the first transaction spends, the second one spends. */
  ghost predicate Within(a: Tx, b: Tx) {
    forall o :: o in a.inputs ==> o in b.inputs
  }

  ghost predicate Covers(r: Record, t: SignedTx, id: PegoutId) {
    id in r.requests && Within(r.tx, t.tx)
  }

  ghost predicate Covered(tracked: map<Txid, Record>, t: SignedTx, id: PegoutId) {
    exists k :: k in tracked && Covers(tracked[k], t, id)
  }

  /** The store still rules out another payment of the pegout beside `t`: the id is finalized, or a
      tracked transaction that has a request for it spends only outputs that `t` spends. */
  ghost predicate Remembered(s: Store, t: SignedTx, id: PegoutId) {
    id in s.finalized || Covered(s.tracked, t, id)
  }

  ghost predicate AllRemembered(s: Store, signed: seq<SignedTx>, id: PegoutId) {
    forall i :: 0 <= i < |signed| && id in signed[i].ids ==> Remembered(s, signed[i], id)
  }

  /** While a transaction is remembered, whatever is accepted for the pegout conflicts with it. */
  lemma RememberedConflicts(s: Store, t: SignedTx, id: PegoutId, psbt: Psbt, stage: Stage, signers: nat)
    requires psbt.Valid() && Signable(s, psbt, stage, signers) && id in IdsOf(psbt.outputs) && Remembered(s, t, id)
    ensures Conflicts(t.tx, psbt.tx)
  {
    hide IdsOf; hide CheckedInputs; hide TotalOut; hide RoundOk; hide NoDuplicates; hide ChangeOk; hide Decodable;
    hide FeeFor;
    assert !Overlaps(IdsOf(psbt.outputs), s.finalized.Keys);
    assert id !in s.finalized.Keys;
    var k :| k in s.tracked && Covers(s.tracked[k], t, id);
    assert Shares(s.tracked[k].requests, IdsOf(psbt.outputs));
    assert Conflicts(s.tracked[k].tx, psbt.tx);
  }

  // ---------------------------------------------------------------- signing

  /** The pending requests for the given ids. */
  function Requested(pending: map<PegoutId, Request>, ids: seq<PegoutId>): map<PegoutId, Request> {
    map id | id in pending && id in ids :: pending[id]
  }

  /** The transaction has an output to the script of each of the requests. */
  predicate Serves(tx: Tx, requests: map<PegoutId, Request>) {
    forall id :: id in requests ==> exists i :: 0 <= i < |tx.outputs| && tx.outputs[i].script == requests[id].script
  }

  function SignedFor(psbt: Psbt): SignedTx {
    SignedTx(psbt.tx, IdsOf(psbt.outputs))
  }

  /** A share of the signature is given for the PSBT. `share` says whether the threshold scheme gives one. */
  ghost predicate Signs(s: Store, psbt: Psbt, share: bool, c: Settings) {
    && psbt.Valid() && Signable(s, psbt, Round2, c.signers) && share && |psbt.outputs| <= MAX_OUTPUTS
    && Serves(psbt.tx, Requested(s.pending, IdsOf(psbt.outputs)))
  }

  /** The transaction is tracked with the requests that are pending, in place of what was tracked under
      its id before. Only the coordinator keeps what is pending. */
  function Signing(s: Store, psbt: Psbt, c: Settings): Store {
    var record := Record(psbt.tx, Requested(s.pending, IdsOf(psbt.outputs)));
    s.(tracked := s.tracked[psbt.tx.Txid() := record], pending := if c.coordinator then s.pending else map[])
  }

  /** Each transaction is tracked under its own id. */
  ghost predicate Keyed(tracked: map<Txid, Record>) {
    forall k :: k in tracked ==> tracked[k].tx.Txid() == k
  }

  /** What is remembered after signing: what is finalized, what another record covers, and what the new
      record covers, which has only requests that were pending. */
  ghost predicate KeptBySigning(s: Store, psbt: Psbt, t: SignedTx, id: PegoutId) {
    || id in s.finalized || Covered(s.tracked - {psbt.tx.Txid()}, t, id)
    || (id in IdsOf(psbt.outputs) && id in s.pending && Within(psbt.tx, t.tx))
  }

  lemma SigningKeeps(s: Store, psbt: Psbt, c: Settings, t: SignedTx, id: PegoutId)
    ensures Remembered(Signing(s, psbt, c), t, id) <==> KeptBySigning(s, psbt, t, id)
  {
    hide IdsOf; hide Within;
    var txid, tracked := psbt.tx.Txid(), Signing(s, psbt, c).tracked;
    if k :| k in s.tracked - {txid} && Covers((s.tracked - {txid})[k], t, id) {
      assert Covers(tracked[k], t, id);
    }
    if id in IdsOf(psbt.outputs) && id in s.pending && Within(psbt.tx, t.tx) {
      assert Covers(tracked[txid], t, id);
    }
    if k :| k in tracked && Covers(tracked[k], t, id) {
      if k != txid {
        assert Covers((s.tracked - {txid})[k], t, id);
      }
    }
  }

  /** Signing remembers what it signs exactly if the pegout was pending or another record covers it, and
      forgets an earlier transaction exactly if that rests on the record it replaces alone and the new
      one has no request for the pegout. */
  lemma SigningRemembers(s: Store, psbt: Psbt, share: bool, c: Settings, t: SignedTx, id: PegoutId)
    requires Signs(s, psbt, share, c) && Keyed(s.tracked)
    ensures var s', txid := Signing(s, psbt, c), psbt.tx.Txid();
            && (id in IdsOf(psbt.outputs) ==>
                  (Remembered(s', SignedFor(psbt), id) <==>
                     id in s.pending || Covered(s.tracked - {txid}, SignedFor(psbt), id)))
            && (Remembered(s, t, id) && !Remembered(s', t, id) <==>
                  && id !in s.finalized && txid in s.tracked && Covers(s.tracked[txid], t, id)
                  && !Covered(s.tracked - {txid}, t, id) && !(id in IdsOf(psbt.outputs) && id in s.pending))
  {
    hide IdsOf; hide Serves;
    SigningKeeps(s, psbt, c, t, id);
    SigningKeeps(s, psbt, c, SignedFor(psbt), id);
    NotFinalized(s, psbt, Round2, c.signers, id);
    hide Signable; hide Within;
    assert Within(psbt.tx, psbt.tx) by { SelfWithin(psbt.tx); }
    CoveredBesides(s.tracked, psbt.tx.Txid(), t, id);
  }

  lemma SelfWithin(tx: Tx)
    ensures Within(tx, tx)
  {
  }

  lemma NotFinalized(s: Store, psbt: Psbt, stage: Stage, signers: nat, id: PegoutId)
    requires psbt.Valid() && Signable(s, psbt, stage, signers)
    ensures id in IdsOf(psbt.outputs) ==> id !in s.finalized
  {
    hide IdsOf; hide CheckedInputs; hide TotalOut; hide RoundOk; hide NoDuplicates; hide ChangeOk; hide Decodable;
    hide FeeFor; hide ConflictsWithAll;
    assert id in IdsOf(psbt.outputs) ==> id !in s.finalized.Keys;
  }

  lemma CoveredBesides(tracked: map<Txid, Record>, txid: Txid, t: SignedTx, id: PegoutId)
    ensures Covered(tracked, t, id) <==>
              Covered(tracked - {txid}, t, id) || (txid in tracked && Covers(tracked[txid], t, id))
  {
    hide Covers;
    if k :| k in tracked - {txid} && Covers((tracked - {txid})[k], t, id) {
      assert Covers(tracked[k], t, id);
    }
    if k :| k in tracked && Covers(tracked[k], t, id) {
      if k != txid {
        assert Covers((tracked - {txid})[k], t, id);
      }
    }
  }

  // ---------------------------------------------------------------- what can be signed once it is forgotten

  /** Once a transaction is not remembered, one that pays the pegout and does not conflict with it is signed. */
  lemma ForgottenIsSigned(s: Store, t: SignedTx, id: PegoutId, c: Settings) returns (psbt: Psbt)
    requires s.key.Some? && !Remembered(s, t, id)
    ensures Signs(s, psbt, true, c) && IdsOf(psbt.outputs) == [id] && !Conflicts(t.tx, psbt.tx)
  {
    hide Funds; hide SumOut; hide TotalOut; hide IdsOf; hide Within; hide CheckedInputs; hide OutputsOk;
    var inputs := Unspent(s, t);
    psbt := Retry(s, inputs, id, c.signers);
    OneOutput(s, psbt, id);
    RetryIsFunded(s, inputs, id, c.signers);
    NoneKnown(psbt, s.utxos);
    RetryConflicts(s, t, id, psbt);
    assert Serves(psbt.tx, Requested(s.pending, [id])) by {
      assert id in s.pending ==> psbt.tx.outputs[0].script == s.pending[id].script;
    }
  }

  /** An output nobody knows, and then all that tracked transactions spend and `t` does not. */
  lemma Unspent(s: Store, t: SignedTx) returns (inputs: seq<OutPoint>)
    ensures inputs != [] && inputs[0] !in s.utxos
    ensures forall o :: o in inputs ==> o !in t.tx.inputs
    ensures forall k, o :: k in s.tracked && o in s.tracked[k].tx.inputs && o !in t.tx.inputs ==> o in inputs
  {
    var unused := FreshOutPoint((set o | o in t.tx.inputs) + s.utxos.Keys);
    var spent := set k, i | k in s.tracked && 0 <= i < |s.tracked[k].tx.inputs| :: s.tracked[k].tx.inputs[i];
    var others := Enumerated(set o | o in spent && o !in t.tx.inputs);
    inputs := [unused] + others;
    forall k, o | k in s.tracked && o in s.tracked[k].tx.inputs && o !in t.tx.inputs
      ensures o in inputs
    {
      var i :| 0 <= i < |s.tracked[k].tx.inputs| && s.tracked[k].tx.inputs[i] == o;
      assert o in spent;
      assert o in others;
    }
  }

  /** A transaction for one pegout that spends one satoshi, with commitments from all signers. */
  ghost function Retry(s: Store, inputs: seq<OutPoint>, id: PegoutId, signers: nat): (psbt: Psbt)
    ensures psbt.Valid()
  {
    var script := if id in s.pending then s.pending[id].script else OtherScript(0);
    var committed := Below(signers);
    Psbt(seq(|inputs|, i => PsbtInput(Some(TxOut(if i == 0 then 1 else 0, OtherScript(0))), None, None, committed, {})),
         [Some(WellFormed(id))], Tx(inputs, [TxOut(1, script)], 0), true)
  }

  lemma RetryIsFunded(s: Store, inputs: seq<OutPoint>, id: PegoutId, signers: nat)
    requires inputs != []
    ensures var psbt := Retry(s, inputs, id, signers);
            && FeeFor(psbt) == FeeOf(0) && TotalOut(psbt.tx.outputs) == 1
            && EnoughCommitments(psbt, signers) && NotTooManySignatures(psbt, signers)
  {
    var psbt := Retry(s, inputs, id, signers);
    OneSatoshi(psbt.inputs);
    OneOut(psbt.tx.outputs[0]);
    assert psbt.tx.outputs == [psbt.tx.outputs[0]];
  }

  lemma OneOut(output: TxOut)
    requires output.sats == 1
    ensures SumOut([output]) == 1 && TotalOut([output]) == 1
  {
    assert [output][..0] == [];
    assert SumOut([output][..0]) == 0 && TotalOut([output][..0]) == 0;
  }

  lemma {:induction false} OneSatoshi(inputs: seq<PsbtInput>)
    requires inputs != [] && forall i :: 0 <= i < |inputs| ==> Funding(inputs[i]).Some?
    requires forall i :: 0 <= i < |inputs| ==> Funding(inputs[i]).value.sats == if i == 0 then 1 else 0
    ensures Funds(inputs) == FeeOf(1)
  {
    var init := inputs[..|inputs| - 1];
    if init == [] {
      assert Funds(init) == FeeOf(0);
    } else {
      OneSatoshi(init);
    }
  }

  ghost function Below(n: nat): (r: set<nat>)
    ensures |r| == n && forall i :: i in r ==> i < n
  {
    if n == 0 then {} else Below(n - 1) + {n - 1}
  }

  lemma RetryConflicts(s: Store, t: SignedTx, id: PegoutId, psbt: Psbt)
    requires !Remembered(s, t, id) && IdsOf(psbt.outputs) == [id]
    requires forall o :: o in psbt.tx.inputs ==> o !in t.tx.inputs
    requires forall k, o :: k in s.tracked && o in s.tracked[k].tx.inputs && o !in t.tx.inputs ==> o in psbt.tx.inputs
    ensures ConflictsWithAll(s.tracked, psbt) && !Conflicts(t.tx, psbt.tx)
  {
    forall k | k in s.tracked && Shares(s.tracked[k].requests, [id])
      ensures Conflicts(s.tracked[k].tx, psbt.tx)
    {
      assert !Covers(s.tracked[k], t, id);
      var o :| o in s.tracked[k].tx.inputs && o !in t.tx.inputs;
      assert o in psbt.tx.inputs;
    }
  }

  lemma NoneKnown(psbt: Psbt, utxos: map<OutPoint, Utxo>)
    requires psbt.Valid() && psbt.inputs != [] && psbt.tx.inputs[0] !in utxos
    ensures CheckedInputs(psbt, utxos)
  {
  }

  lemma OneOutput(s: Store, psbt: Psbt, id: PegoutId)
    requires s.key.Some? && id !in s.finalized && psbt.outputs == [Some(WellFormed(id))] && |psbt.tx.outputs| == 1
    ensures IdsOf(psbt.outputs) == [id] && OutputsOk(psbt, s.key, s.finalized.Keys)
  {
    assert psbt.outputs[..0] == [];
  }

  lemma {:induction false} Enumerated(all: set<OutPoint>) returns (s: seq<OutPoint>)
    ensures forall o :: o in s <==> o in all
  {
    s := [];
    if all != {} {
      var x :| x in all;
      s := Enumerated(all - {x});
      s := s + [x];
    }
  }

  lemma FreshOutPoint(used: set<OutPoint>) returns (o: OutPoint)
    ensures o !in used
  {
    var numbers := set x | x in used && x.txid.ForeignTxid? :: x.txid.id;
    var n := FreshNumber(numbers);
    o := OutPoint(ForeignTxid(n), 0);
    assert forall x :: x in used && x.txid.ForeignTxid? ==> x.txid.id in numbers;
  }

  lemma {:induction false} FreshNumber(used: set<nat>) returns (n: nat)
    ensures forall k :: k in used ==> k < n
  {
    n := 0;
    if used != {} {
      var x :| x in used;
      n := FreshNumber(used - {x});
      assert forall k :: k in used ==> k == x || k in used - {x};
      n := if n <= x then x + 1 else n;
    }
  }

  /** Whatever is signed next, all that is signed for the pegout stays in conflict exactly if all of it
      is remembered. */
  lemma NextSigningExactly(s: Store, signed: seq<SignedTx>, id: PegoutId, c: Settings)
    requires s.key.Some? && Conflicting(signed, id)
    ensures (forall psbt :: Signs(s, psbt, true, c) && id in IdsOf(psbt.outputs) ==>
                              Conflicting(signed + [SignedFor(psbt)], id)) <==>
            AllRemembered(s, signed, id)
  {
    hide IdsOf; hide Conflicts; hide Remembered; hide Signable; hide Serves;
    if AllRemembered(s, signed, id) {
      forall psbt | Signs(s, psbt, true, c) && id in IdsOf(psbt.outputs)
        ensures Conflicting(signed + [SignedFor(psbt)], id)
      {
        forall i | 0 <= i < |signed| && id in signed[i].ids
          ensures Conflicts(signed[i].tx, psbt.tx)
        {
          RememberedConflicts(s, signed[i], id, psbt, Round2, c.signers);
        }
      }
    } else {
      var i :| 0 <= i < |signed| && id in signed[i].ids && !Remembered(s, signed[i], id);
      var psbt := ForgottenIsSigned(s, signed[i], id, c);
      var all := signed + [SignedFor(psbt)];
      assert id in all[i].ids && id in all[|signed|].ids && !Conflicts(all[i].tx, all[|signed|].tx);
    }
  }
}
