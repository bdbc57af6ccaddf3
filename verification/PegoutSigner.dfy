/** A signer of pegout transactions. */
module PegoutSigners {
  import opened Blocks
  import opened Bitcoin
  import opened Pegouts
  import opened PegoutMemory
  import opened PegoutRuns

  /** The source panics if a pending request for the transaction has no output. */
  datatype Outcome = Signed | Refused(error: PsbtError) | Panicked

  class Signer {
    var tracked: map<Txid, Record>
    var finalized: map<PegoutId, Option<nat>>
    var pending: map<PegoutId, Request>
    var key: Option<PublicKey>
    var utxos: map<OutPoint, Utxo>
    const settings: Settings

    ghost function View(): Store
      reads this
    {
      Store(tracked, finalized, pending, key, utxos)
    }

    /** Checks the outputs. A pegout found to be finalized is no longer pending. */
    method ValidateOutputs(psbt: Psbt) returns (r: Result)
      modifies this`pending
      ensures r.Ok? <==> OutputsOk(psbt, key, finalized.Keys)
      ensures r.Err? ==> Explains(r.error, psbt, key, finalized.Keys)
      ensures pending == if r.Err? && r.error.AlreadyFinalized? then old(pending) - {r.error.id} else old(pending)
    {
      hide IdsOf; hide Overlaps; hide NoDuplicates;
      if |psbt.outputs| != |psbt.tx.outputs| {
        return Err(OutputCountMismatch);
      }
      if key.None? {
        return Err(MissingKey);
      }
      var error, ids, change := ScanOutputs(psbt);
      if error.Some? {
        return Err(error.value);
      }
      assert psbt.outputs[..|psbt.outputs|] == psbt.outputs;
      assert Decodable(psbt) && OneChange(psbt.outputs);
      var done := FirstFinalized(ids, finalized.Keys);
      if done.Some? {
        pending := pending - {done.value};
        return Err(AlreadyFinalized(done.value));
      }
      DistinctCounts(ids);
      if |Distinct(ids)| != |ids| {
        return Err(DuplicateOutputs);
      }
      if change.Some? && psbt.tx.outputs[change.value].script != Change(key.value) {
        return Err(InvalidChangeOutput);
      }
      return Ok;
    }

    method ValidatePsbt(psbt: Psbt, stage: Stage) returns (r: Result)
      requires psbt.Valid()
      modifies this`pending
      ensures r.Ok? <==> Signable(old(View()), psbt, stage, settings.signers)
      ensures r.Err? ==> Reason(r.error, old(View()), psbt, stage, settings.signers)
      ensures pending == if r.Err? && r.error.AlreadyFinalized? then old(pending) - {r.error.id} else old(pending)
    {
      hide IdsOf; hide ConflictsWithAll; hide OutputsOk; hide CheckedInputs; hide TotalOut; hide RoundOk; hide FeeFor;
      hide Decodable; hide OneChange; hide ChangeOk; hide NoDuplicates;
      if psbt.inputs == [] {
        return Err(NoInputs);
      }
      DecodableOutputs(psbt, key, finalized.Keys);
      r := HasConflictingInput(tracked, psbt);
      if r.Err? {
        return;
      }
      if psbt.outputs == [] {
        return Err(NoOutputs);
      }
      r := ValidateOutputs(psbt);
      if r.Err? {
        return;
      }
      match FeeFor(psbt) {
        case FeeNegative => return Err(NegativeFee);
        case FeeOverflow => return Err(FeeTooLarge);
        case FeeUnknown => return Err(FeeError);
        case FeeOf(sats) =>
          if sats > TotalOut(psbt.tx.outputs) {
            return Err(AboveOutputs);
          }
      }
      if stage.Sanity? {
        return Ok;
      }
      r := CheckRound(psbt, stage, settings.signers);
      if r.Err? {
        return;
      }
      if !psbt.extracts {
        return Err(ExtractionFailed);
      }
      r := CheckInputs(psbt, utxos);
    }

    /** Gives a share of the signature for a PSBT that passes, and tracks its transaction with the requests
        that are pending. */
    method Sign(psbt: Psbt, share: bool) returns (r: Outcome)
      requires psbt.Valid()
      modifies this`pending, this`tracked
      ensures r.Signed? <==> Signs(old(View()), psbt, share, settings)
      ensures r.Signed? ==> View() == Signing(old(View()), psbt, settings)
      ensures r.Signed? ==>
                && pending == (if settings.coordinator then old(pending) else map[])
                && tracked.Keys == old(tracked).Keys + {psbt.tx.Txid()} && tracked[psbt.tx.Txid()].tx == psbt.tx
                && (forall id :: id in tracked[psbt.tx.Txid()].requests <==> id in old(pending) && id in IdsOf(psbt.outputs))
                && (forall id :: id in tracked[psbt.tx.Txid()].requests ==>
                                   tracked[psbt.tx.Txid()].requests[id] == old(pending)[id])
                && (forall t :: t in old(tracked) && t != psbt.tx.Txid() ==> tracked[t] == old(tracked)[t])
      ensures r.Refused? && !r.error.ShareFailed? && !r.error.TooManyPegouts? ==>
                Reason(r.error, old(View()), psbt, Round2, settings.signers)
      ensures r == Refused(ShareFailed) ==> !share
      ensures r == Refused(TooManyPegouts) ==> |psbt.outputs| > 101
      ensures !r.Refused? ==> share && |psbt.outputs| <= 101
      ensures !r.Refused? ==>
                (r.Signed? <==> forall id :: id in old(pending) && id in IdsOf(psbt.outputs) ==>
                                               PaysTo(psbt.tx, old(pending)[id].script))
      ensures r.Refused? ==> Validated(old(View()), psbt, View())
      ensures r.Panicked? ==> View() == old(View())
      ensures r.Panicked? <==> && Signable(old(View()), psbt, Round2, settings.signers) && share
                               && |psbt.outputs| <= MAX_OUTPUTS && !Signs(old(View()), psbt, share, settings)
    {
      hide Signable; hide IdsOf; hide Serves; hide Reason;
      FinalizedReason(View(), psbt, Round2, settings.signers);
      var valid := ValidatePsbt(psbt, Round2);
      if valid.Err? {
        return Refused(valid.error);
      }
      if !share {
        return Refused(ShareFailed);
      }
      if |psbt.outputs| > MAX_OUTPUTS {
        return Refused(TooManyPegouts);
      }
      ServesExactly(psbt.tx, pending, IdsOf(psbt.outputs));
      var requests := Requested(pending, IdsOf(psbt.outputs));
      if !Serves(psbt.tx, requests) {
        return Panicked;
      }
      tracked := tracked[psbt.tx.Txid() := Record(psbt.tx, requests)];
      if !settings.coordinator {
        pending := map[];
      }
      return Signed;
    }

    /** Queues pegouts that are neither finalized nor tracked. */
    method Queue(asked: seq<Asked>)
      modifies this`pending
      ensures View() == Queued(old(View()), asked)
      ensures old(utxos) == map[] && (forall k :: k in tracked ==> tracked[k].tx.inputs == []) ==> View() == old(View())
      ensures old(utxos) != map[] || (exists k :: k in tracked && tracked[k].tx.inputs != []) ==>
                forall id :: id in pending <==>
                               id in old(pending) || (!Handled(old(View()), id) && exists x :: x in asked && x.id == id)
    {
      QueuedKeys(View(), asked);
      hide Firsts;
      if utxos == map[] && forall k :: k in tracked ==> tracked[k].tx.inputs == [] {
        return;
      }
      var handled := finalized.Keys + set k, id | k in tracked && id in tracked[k].requests :: id;
      assert forall id :: id in handled <==> Handled(View(), id);
      hide Handled;
      var left: seq<Asked> := [];
      for i := 0 to |asked|
        invariant left == Unhandled(old(View()), asked[..i])
      {
        assert asked[..i + 1][..i] == asked[..i];
        if asked[i].id !in handled {
          left := left + [asked[i]];
        }
      }
      assert asked[..|asked|] == asked;
      StorePending(left);
    }

    method StorePending(asked: seq<Asked>)
      modifies this`pending
      ensures pending == if |asked| == 1 then old(pending)[asked[0].id := asked[0].request]
                         else Firsts(asked) + old(pending)
    {
      if |asked| == 1 {
        pending := pending[asked[0].id := asked[0].request];
        return;
      }
      for i := 0 to |asked|
        invariant pending == Firsts(asked[..i]) + old(pending)
      {
        assert asked[..i + 1][..i] == asked[..i];
        if asked[i].id !in pending {
          pending := pending[asked[i].id := asked[i].request];
        }
      }
      assert asked[..|asked|] == asked;
    }

    /** Stops tracking a transaction. The source panics if there is no such transaction. */
    method Untrack(txid: Txid) returns (found: bool)
      modifies this`tracked
      ensures found <==> txid in old(tracked)
      ensures View() == Untracked(old(View()), txid)
    {
      found := txid in tracked;
      tracked := tracked - {txid};
    }

    /** A transaction that is no longer in the memory pool, or in a block that is rolled back. */
    method Drop(txid: Txid) returns (found: bool)
      modifies this`tracked, this`pending
      ensures found <==> txid in old(tracked)
      ensures View() == Dropped(old(View()), txid)
      ensures found ==>
                && tracked == old(tracked) - {txid}
                && (forall id :: id in pending <==> id in old(pending) || id in old(tracked)[txid].requests)
                && (forall id :: id in old(pending) ==>
                                   id !in old(tracked)[txid].requests || |old(tracked)[txid].requests| != 1 ==>
                                     pending[id] == old(pending)[id])
                && (forall id :: id in old(tracked)[txid].requests ==>
                                   id !in old(pending) || |old(tracked)[txid].requests| == 1 ==>
                                     pending[id] == old(tracked)[txid].requests[id])
      ensures !found ==> View() == old(View())
    {
      found := txid in tracked;
      if found {
        var requests := tracked[txid].requests;
        found := Untrack(txid);
        pending := PutBack(pending, requests);
      }
    }

    /** The coordinator broadcasts a transaction. */
    method Finish(tx: Tx, ids: seq<PegoutId>, answer: Answer) returns (ok: bool)
      modifies this
      ensures View() == Broadcast(old(View()), tx, ids, answer)
      ensures ok <==> answer.Sent? || answer.AlreadyInChain?
      ensures finalized == old(finalized) && key == old(key)
      ensures pending == if ok then old(pending) - (set id | id in ids) else old(pending)
      ensures tracked == if ok || (answer.InputsGone? && !answer.complete) then old(tracked) else old(tracked) - {tx.Txid()}
      ensures utxos == if answer.InputsGone? then old(utxos) - (set o | o in tx.inputs && o in answer.gone) else old(utxos)
    {
      ok := true;
      match answer {
        case Sent =>
        case AlreadyInChain =>
        case InputsGone(gone, complete) =>
          RemoveSpent(tx, gone);
          if complete {
            var _ := Untrack(tx.Txid());
          }
          return false;
        case Rejected =>
          var _ := Untrack(tx.Txid());
          return false;
      }
      for i := 0 to |ids|
        invariant pending == old(pending) - Distinct(ids[..i])
        invariant tracked == old(tracked) && finalized == old(finalized) && key == old(key) && utxos == old(utxos)
      {
        assert Distinct(ids[..i + 1]) == Distinct(ids[..i]) + {ids[i]};
        pending := pending - {ids[i]};
      }
      assert ids[..|ids|] == ids;
    }

    method RemoveSpent(tx: Tx, gone: set<OutPoint>)
      modifies this`utxos
      ensures utxos == old(utxos) - (set o | o in tx.inputs && o in gone)
    {
      for i := 0 to |tx.inputs|
        invariant utxos == old(utxos) - (set o | o in tx.inputs[..i] && o in gone)
      {
        var input := tx.inputs[i];
        if input in utxos && input in gone {
          utxos := utxos - {input};
        }
      }
      assert tx.inputs[..|tx.inputs|] == tx.inputs;
    }

    /** Puts back the change of the block's transactions and collects their inputs. */
    method CollectInputs(txids: seq<Txid>, change: seq<map<OutPoint, Utxo>>, spent: set<OutPoint>)
      returns (ok: bool, inputs: set<OutPoint>)
      requires |change| == |txids|
      modifies this`utxos
      ensures ok <==> AllTracked(tracked, txids)
      ensures ok ==> utxos == old(utxos) + Joined(change) && inputs == spent + InputsOf(tracked, Listed(txids))
      ensures !ok ==> exists i :: StopsAt(tracked, txids, i) && utxos == old(utxos) + Joined(change[..i])
    {
      hide InputsOf; hide Listed; hide Joined;
      NothingListed(tracked, txids);
      NothingJoined(utxos, change);
      inputs := spent;
      for i := 0 to |txids|
        invariant utxos == old(utxos) + Joined(change[..i])
        invariant inputs == spent + InputsOf(tracked, Listed(txids[..i]))
        invariant AllTracked(tracked, txids[..i])
      {
        if txids[i] !in tracked {
          assert txids[i] in txids && StopsAt(tracked, txids, i);
          return false, inputs;
        }
        ListedMore(txids, i);
        InputsMore(tracked, Listed(txids[..i]), txids[i]);
        JoinedMore(old(utxos), change, i);
        utxos := utxos + change[i];
        inputs := inputs + InputsOf(tracked, {txids[i]});
      }
      assert txids[..|txids|] == txids && change[..|change|] == change;
      return true, inputs;
    }

    /** Moves the ids of the given transactions, as far as they are tracked, to the finalized ones. */
    method FinalizeIds(txids: seq<Txid>, now: nat)
      modifies this`tracked, this`finalized
      ensures tracked == old(tracked) - Listed(txids)
      ensures finalized == FinalizedBy(old(tracked), old(finalized), txids, now)
    {
      hide Recent; hide Stamps;
      assert tracked == tracked - Listed(txids[..0]);
      for i := 0 to |txids|
        invariant tracked == old(tracked) - Listed(txids[..i])
        invariant finalized == FinalizedBy(old(tracked), old(finalized), txids[..i], now)
      {
        var done := txids[..i + 1];
        assert done[..i] == txids[..i];
        ListedMore(txids, i);
        assert Finalizes(old(tracked), done, i) <==> txids[i] in tracked && tracked[txids[i]].requests != map[];
        if txids[i] in tracked {
          if tracked[txids[i]].requests != map[] {
            finalized := Stamps(tracked[txids[i]].requests) + finalized;
            PruneFinalized(now);
          }
          tracked := tracked - {txids[i]};
        }
      }
      assert txids[..|txids|] == txids;
    }

    /** Drops the finalized ids that are too old. One without a time is kept from now on. */
    method PruneFinalized(now: nat)
      modifies this`finalized
      ensures finalized == Recent(old(finalized), now)
      ensures forall id :: id in finalized <==>
                             && id in old(finalized)
                             && (old(finalized)[id].Some? ==> now <= old(finalized)[id].value + 90 * 24 * 60 * 60)
      ensures forall id :: id in finalized ==>
                             finalized[id] == if old(finalized)[id].Some? then old(finalized)[id] else Some(now)
    {
      AgedExactly(now);
      hide Aged;
      var todo := finalized.Keys;
      while todo != {}
        invariant todo <= finalized.Keys
        invariant forall id :: id in finalized <==>
                                 id in old(finalized) && (id in todo || !Aged(old(finalized)[id], now))
        invariant forall id :: id in finalized ==>
                                 finalized[id] ==
                                 if id in todo || old(finalized)[id].Some? then old(finalized)[id] else Some(now)
      {
        var id :| id in todo;
        if Aged(finalized[id], now) {
          finalized := finalized - {id};
        } else if finalized[id].None? {
          finalized := finalized[id := Some(now)];
        }
        todo := todo - {id};
      }
    }

    /** Finalizes a block with the given tracked transactions, their change outputs, which are put back,
        and further inputs that tracked transactions spend. */
    method FinalizeBlock(txids: seq<Txid>, change: seq<map<OutPoint, Utxo>>, spent: set<OutPoint>, now: nat)
      returns (ok: bool)
      requires |change| == |txids|
      modifies this
      ensures ok <==> AllTracked(old(tracked), txids)
      ensures ok ==> View() == BlockFinalized(old(View()), txids, change, spent, now)
      ensures !ok ==> StoppedPartway(old(View()), txids, change, View())
      ensures ok ==>
                && pending == old(pending) && key == old(key)
                && (forall k :: k in tracked <==>
                                  && k in old(tracked) && k !in txids && (forall o :: o in spent ==> o.txid != k)
                                  && (forall t, o :: t in txids && o in old(tracked)[t].tx.inputs ==> o.txid != k))
                && (forall k :: k in tracked ==> tracked[k] == old(tracked)[k])
                && (forall o :: o in utxos <==>
                                  && (o in old(utxos) || exists i :: 0 <= i < |change| && o in change[i]) && o !in spent
                                  && (forall t :: t in txids ==> o !in old(tracked)[t].tx.inputs))
    {
      if AllTracked(tracked, txids) {
        TrackedAfter(View(), txids, change, spent, now);
      }
      hide InputsOf; hide Listed; hide Joined; hide FinalizedBy; hide Parents;
      var inputs;
      ok, inputs := CollectInputs(txids, change, spent);
      if ok {
        tracked := tracked - Parents(inputs);
        utxos := utxos - inputs;
        FinalizeIds(txids, now);
      }
    }

    /** Carries out one action of a run. */
    method Act(a: Action)
      requires a.Valid()
      modifies this
      ensures Acted(old(View()), a, settings, View())
    {
      hide Signs; hide Signing; hide Queued; hide Broadcast; hide Dropped; hide BlockFinalized; hide IdsOf; hide Signable;
      hide Reason;
      match a {
        case Validate(psbt, stage) =>
          FinalizedReason(View(), psbt, stage, settings.signers);
          var _ := ValidatePsbt(psbt, stage);
        case Sign(psbt, share) => var _ := Sign(psbt, share);
        case Queue(asked) => Queue(asked);
        case Finish(tx, ids, answer) => var _ := Finish(tx, ids, answer);
        case Drop(txid) => var _ := Drop(txid);
        case Confirm(txids, change, spent, now) => var _ := FinalizeBlock(txids, change, spent, now);
        case Reset(ids) => finalized := ids;
        case Learn(known) => utxos := known;
      }
    }

    /** Over every run of all that changes the store, a ledger that spends each output once pays each
        pegout at most once that is never forgotten, and so each one that every action is careful about. */
    method Run(actions: seq<Action>, ghost before: seq<SignedTx>, ghost ledger: seq<Tx>) returns (ghost stores: seq<Store>)
      requires Sound(before) && Keyed(tracked) && SpentOnce(ledger) && forall a :: a in actions ==> a.Valid()
      modifies this
      ensures Trace(stores, actions, settings) && stores[0] == old(View()) && stores[|actions|] == View()
      ensures var signed := SignedIn(before, stores, actions, settings, |actions|);
              forall id :: Conflicting(before, id) && NeverForgotten(before, stores, actions, settings, id) ==>
                             PaidOnce(signed, ledger, id)
      ensures forall id :: AllRemembered(old(View()), before, id) && CarefulRun(stores, actions, settings, id) ==>
                             NeverForgotten(before, stores, actions, settings, id)
    {
      hide Acted; hide SpentOnce; hide NeverForgotten; hide PaidOnce; hide Conflicting; hide PaysOnce; hide HaveInputs;
      hide AllRemembered; hide Keyed; hide CarefulRun;
      stores := [View()];
      for n := 0 to |actions|
        invariant Trace(stores, actions[..n], settings) && stores[0] == old(View()) && stores[n] == View()
      {
        Act(actions[n]);
        TraceGoesOn(stores, actions, n, settings, View());
        stores := stores + [View()];
      }
      assert actions[..|actions|] == actions;
      ghost var signed := SignedIn(before, stores, actions, settings, |actions|);
      forall id | Conflicting(before, id) && NeverForgotten(before, stores, actions, settings, id)
        ensures PaidOnce(signed, ledger, id)
      {
        SignedConflict(before, stores, actions, settings, id, |actions|);
        OnePays(signed, ledger, id);
      }
      forall id | AllRemembered(old(View()), before, id) && CarefulRun(stores, actions, settings, id)
        ensures NeverForgotten(before, stores, actions, settings, id)
      {
        CarefulNeverForgets(before, stores, actions, settings, id);
      }
    }
  }

  ghost predicate PaysTo(tx: Tx, script: Script) {
    exists i :: 0 <= i < |tx.outputs| && tx.outputs[i].script == script
  }

  lemma ServesExactly(tx: Tx, pending: map<PegoutId, Request>, ids: seq<PegoutId>)
    ensures Serves(tx, Requested(pending, ids)) <==>
              forall id :: id in pending && id in ids ==> PaysTo(tx, pending[id].script)
  {
    var requests := Requested(pending, ids);
    assert forall id :: id in requests <==> id in pending && id in ids;
  }

  lemma QueuedKeys(s: Store, asked: seq<Asked>)
    ensures s.utxos != map[] || (exists k :: k in s.tracked && s.tracked[k].tx.inputs != []) ==>
              forall id :: id in Queued(s, asked).pending <==>
                             id in s.pending || (!Handled(s, id) && exists x :: x in asked && x.id == id)
  {
    hide Queued; hide Handled;
    if !NothingToSpend(s) {
      forall id
        ensures id in Queued(s, asked).pending <==>
                  id in s.pending || (!Handled(s, id) && exists x :: x in asked && x.id == id)
      {
        QueuedExactly(s, asked, id);
      }
    }
  }

  /** What is tracked and can be spent after a block. */
  lemma TrackedAfter(s: Store, txids: seq<Txid>, change: seq<map<OutPoint, Utxo>>, spent: set<OutPoint>, now: nat)
    requires AllTracked(s.tracked, txids)
    ensures var s' := BlockFinalized(s, txids, change, spent, now);
            && s'.pending == s.pending && s'.key == s.key
            && (forall k :: k in s'.tracked <==>
                              && k in s.tracked && k !in txids && (forall o :: o in spent ==> o.txid != k)
                              && (forall t, o :: t in txids && o in s.tracked[t].tx.inputs ==> o.txid != k))
            && (forall k :: k in s'.tracked ==> s'.tracked[k] == s.tracked[k])
            && (forall o :: o in s'.utxos <==>
                              && (o in s.utxos || exists i :: 0 <= i < |change| && o in change[i]) && o !in spent
                              && (forall t :: t in txids ==> o !in s.tracked[t].tx.inputs))
  {
    hide FinalizedBy; hide Joined;
    var inputs := InputsOf(s.tracked, Listed(txids));
    forall o
      ensures o in inputs <==> exists t :: t in txids && o in s.tracked[t].tx.inputs
    {
      InputOf(s.tracked, txids, o);
    }
    JoinedKeys(change);
    var all := spent + inputs;
    assert forall k :: k in Parents(all) <==> exists o :: o in all && o.txid == k;
  }

  lemma InputOf(tracked: map<Txid, Record>, txids: seq<Txid>, o: OutPoint)
    requires AllTracked(tracked, txids)
    ensures o in InputsOf(tracked, Listed(txids)) <==> exists t :: t in txids && o in tracked[t].tx.inputs
  {
    if t :| t in txids && o in tracked[t].tx.inputs {
      var i :| 0 <= i < |tracked[t].tx.inputs| && tracked[t].tx.inputs[i] == o;
      assert t in Listed(txids);
    }
  }

  lemma {:induction false} JoinedKeys(change: seq<map<OutPoint, Utxo>>)
    ensures forall o :: o in Joined(change) <==> exists i :: 0 <= i < |change| && o in change[i]
  {
    if change != [] {
      JoinedKeys(change[..|change| - 1]);
    }
  }

  /** A PSBT refused for a finalized pegout has an output for it. */
  lemma FinalizedReason(s: Store, psbt: Psbt, stage: Stage, signers: nat)
    requires psbt.Valid()
    ensures forall id :: Reason(AlreadyFinalized(id), s, psbt, stage, signers) ==>
                           id in IdsOf(psbt.outputs) && id in s.finalized
    ensures !Reason(ShareFailed, s, psbt, stage, signers) && !Reason(TooManyPegouts, s, psbt, stage, signers)
  {
    hide IdsOf;
  }

  lemma DecodableOutputs(psbt: Psbt, key: Option<PublicKey>, finalized: set<PegoutId>)
    ensures OutputsOk(psbt, key, finalized) ==> Decodable(psbt)
  {
  }

  /** The first id that is finalized. */
  method FirstFinalized(ids: seq<PegoutId>, finalized: set<PegoutId>) returns (r: Option<PegoutId>)
    ensures r.Some? <==> Overlaps(ids, finalized)
    ensures r.Some? ==> r.value in ids && r.value in finalized
  {
    for i := 0 to |ids|
      invariant forall k :: 0 <= k < i ==> ids[k] !in finalized
    {
      if ids[i] in finalized {
        return Some(ids[i]);
      }
    }
    return None;
  }

  lemma JoinedMore(utxos: map<OutPoint, Utxo>, change: seq<map<OutPoint, Utxo>>, i: nat)
    requires i < |change|
    ensures utxos + Joined(change[..i]) + change[i] == utxos + Joined(change[..i + 1])
  {
    assert change[..i + 1][..i] == change[..i];
  }

  lemma ListedMore(txids: seq<Txid>, i: nat)
    requires i < |txids|
    ensures Listed(txids[..i + 1]) == Listed(txids[..i]) + {txids[i]}
  {
  }

  lemma NothingListed(tracked: map<Txid, Record>, txids: seq<Txid>)
    ensures Listed(txids[..0]) == {} && InputsOf(tracked, {}) == {}
  {
  }

  lemma NothingJoined(utxos: map<OutPoint, Utxo>, change: seq<map<OutPoint, Utxo>>)
    ensures utxos + Joined(change[..0]) == utxos
  {
  }

  lemma InputsMore(tracked: map<Txid, Record>, done: set<Txid>, t: Txid)
    ensures InputsOf(tracked, done) + InputsOf(tracked, {t}) == InputsOf(tracked, done + {t})
  {
  }
}
