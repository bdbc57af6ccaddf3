/** Everything that changes what a signer keeps, and what runs of it rule out. */
module PegoutRuns {
  import opened Common
  import opened Blocks
  import opened Bitcoin
  import opened Pegouts
  import opened PegoutMemory

  // ---------------------------------------------------------------- pending pegouts

  datatype Asked = Asked(id: PegoutId, request: Request)

  /** A single request replaces the one that is pending. */
  function PutBack(pending: map<PegoutId, Request>, requests: map<PegoutId, Request>): map<PegoutId, Request> {
    if |requests| == 1 then pending + requests else requests + pending
  }

  /** The first request for each pegout. */
  function Firsts(asked: seq<Asked>): map<PegoutId, Request> {
    if asked == [] then map[]
    else
      var init, last := Firsts(asked[..|asked| - 1]), asked[|asked| - 1];
      if last.id in init then init else init[last.id := last.request]
  }

  /** Whether a pegout is finalized or tracked. */
  predicate Handled(s: Store, id: PegoutId) {
    id in s.finalized || exists k :: k in s.tracked && id in s.tracked[k].requests
  }

  /** The requests for pegouts that are neither finalized nor tracked. */
  ghost function Unhandled(s: Store, asked: seq<Asked>): (left: seq<Asked>)
    ensures forall x :: x in left <==> x in asked && !Handled(s, x.id)
  {
    if asked == [] then []
    else
      var (init, last) := (asked[..|asked| - 1], asked[|asked| - 1]);
      assert asked == init + [last];
      Unhandled(s, init) + (if Handled(s, last.id) then [] else [last])
  }

  ghost predicate NothingToSpend(s: Store) {
    s.utxos == map[] && forall k :: k in s.tracked ==> s.tracked[k].tx.inputs == []
  }

  /** Without anything to spend nothing is queued. */
  ghost function Queued(s: Store, asked: seq<Asked>): Store {
    if NothingToSpend(s) then s
    else
      var left := Unhandled(s, asked);
      s.(pending := if |left| == 1 then s.pending[left[0].id := left[0].request] else Firsts(left) + s.pending)
  }

  /** Exactly the pegouts asked for that are neither finalized nor tracked become pending. */
  lemma QueuedExactly(s: Store, asked: seq<Asked>, id: PegoutId)
    requires !NothingToSpend(s)
    ensures id in Queued(s, asked).pending <==>
              id in s.pending || (!Handled(s, id) && exists x :: x in asked && x.id == id)
    ensures id in Queued(s, asked).pending && id !in s.pending ==>
              exists i :: IsFirst(asked, id, i) && asked[i].request == Queued(s, asked).pending[id]
    ensures id in s.pending && (|Unhandled(s, asked)| != 1 || Unhandled(s, asked)[0].id != id) ==>
              Queued(s, asked).pending[id] == s.pending[id]
    ensures |Unhandled(s, asked)| == 1 && Unhandled(s, asked)[0].id == id ==>
              Queued(s, asked).pending[id] == Unhandled(s, asked)[0].request
  {
    hide Handled; hide NothingToSpend; hide Firsts;
    var left := Unhandled(s, asked);
    FirstsOf(left, id);
    FirstsOf(asked, id);
    SameFirsts(s, asked, id);
    OneFirst(left);
    if |left| == 1 {
      assert left[0] in left;
      assert forall x :: x in left ==> x == left[0];
    }
    assert (exists x :: x in left && x.id == id) <==> !Handled(s, id) && exists x :: x in asked && x.id == id;
  }

  /** The request at `i` is the first one for the pegout. */
  ghost predicate IsFirst(asked: seq<Asked>, id: PegoutId, i: int) {
    0 <= i < |asked| && asked[i].id == id && forall j :: 0 <= j < i ==> asked[j].id != id
  }

  lemma {:induction false} SameFirsts(s: Store, asked: seq<Asked>, id: PegoutId)
    ensures !Handled(s, id) ==>
              var all, left := Firsts(asked), Firsts(Unhandled(s, asked));
              (id in all <==> id in left) && (id in all ==> all[id] == left[id])
  {
    hide Handled;
    if asked != [] && !Handled(s, id) {
      var init, last := asked[..|asked| - 1], asked[|asked| - 1];
      SameFirsts(s, init, id);
      var left := Unhandled(s, init);
      FirstsMore(init, last);
      FirstsMore(left, last);
      assert asked == init + [last];
      assert Unhandled(s, asked) == left + (if Handled(s, last.id) then [] else [last]);
      assert Handled(s, last.id) ==> Unhandled(s, asked) == left && last.id != id;
    }
  }

  lemma FirstsMore(asked: seq<Asked>, last: Asked)
    ensures var before := Firsts(asked);
            Firsts(asked + [last]) == if last.id in before then before else before[last.id := last.request]
  {
    assert (asked + [last])[..|asked|] == asked;
  }

  lemma OneFirst(asked: seq<Asked>)
    ensures |asked| == 1 ==> Firsts(asked) == map[asked[0].id := asked[0].request]
  {
    if |asked| == 1 {
      assert asked[..0] == [] && Firsts(asked[..0]) == map[];
    }
  }

  lemma {:induction false} FirstsOf(asked: seq<Asked>, id: PegoutId)
    ensures id in Firsts(asked) <==> exists x :: x in asked && x.id == id
    ensures id in Firsts(asked) ==> exists i :: IsFirst(asked, id, i) && asked[i].request == Firsts(asked)[id]
  {
    if asked != [] {
      var init, last := asked[..|asked| - 1], asked[|asked| - 1];
      FirstsOf(init, id);
      assert asked == init + [last];
      assert last in asked;
    }
  }

  // ---------------------------------------------------------------- untracking

  ghost function Untracked(s: Store, txid: Txid): Store {
    s.(tracked := s.tracked - {txid})
  }

  /** The requests of a transaction that is dropped are pending again. */
  ghost function Dropped(s: Store, txid: Txid): Store {
    if txid in s.tracked then Untracked(s, txid).(pending := PutBack(s.pending, s.tracked[txid].requests)) else s
  }

  /** Dropping a transaction makes exactly its requests pending besides those that are. A pegout that is
      pending keeps its own request, unless the transaction has only one. */
  lemma DroppedExactly(s: Store, txid: Txid, id: PegoutId)
    requires txid in s.tracked
    ensures var requests, s' := s.tracked[txid].requests, Dropped(s, txid);
            && s'.tracked == s.tracked - {txid} && s' == s.(tracked := s'.tracked, pending := s'.pending)
            && (id in s'.pending <==> id in s.pending || id in requests)
            && (id in s.pending && (id !in requests || |requests| != 1) ==> s'.pending[id] == s.pending[id])
            && (id in requests && (id !in s.pending || |requests| == 1) ==> s'.pending[id] == requests[id])
  {
  }

  /** What the Bitcoin node says to a transaction. `gone` are the inputs it is known to lack before it
      fails to answer or has answered for all. */
  datatype Answer = Sent | AlreadyInChain | InputsGone(gone: set<OutPoint>, complete: bool) | Rejected

  predicate Untracks(answer: Answer) {
    answer.Rejected? || (answer.InputsGone? && answer.complete)
  }

  ghost function Broadcast(s: Store, tx: Tx, ids: seq<PegoutId>, answer: Answer): Store {
    var utxos := if answer.InputsGone? then s.utxos - (set o | o in tx.inputs && o in answer.gone) else s.utxos;
    if Untracks(answer) then Untracked(s, tx.Txid()).(utxos := utxos)
    else if answer.InputsGone? then s.(utxos := utxos)
    else s.(pending := s.pending - Distinct(ids))
  }

  // ---------------------------------------------------------------- finalizing

  predicate Aged(stamp: Option<nat>, now: nat) {
    stamp.Some? && stamp.value < SatSub(now, RETENTION)
  }

  /** An id is too old exactly if it is older than ninety days. */
  lemma AgedExactly(now: nat)
    ensures forall stamp: Option<nat> :: Aged(stamp, now) <==> stamp.Some? && stamp.value + 90 * 24 * 60 * 60 < now
  {
  }

  /** Drops the ids that are too old. One without a time is kept from now on. */
  function Recent(finalized: map<PegoutId, Option<nat>>, now: nat): map<PegoutId, Option<nat>> {
    map id | id in finalized && !Aged(finalized[id], now) :: if finalized[id].None? then Some(now) else finalized[id]
  }

  function Stamps(requests: map<PegoutId, Request>): map<PegoutId, Option<nat>> {
    map id | id in requests :: requests[id].stamp
  }

  function Listed(txids: seq<Txid>): set<Txid> {
    set t | t in txids
  }

  /** The transaction at `j` is tracked when its turn comes and has requests. */
  predicate Finalizes(left: map<Txid, Record>, txids: seq<Txid>, j: int) {
    0 <= j < |txids| && txids[j] in left && txids[j] !in txids[..j] && left[txids[j]].requests != map[]
  }

  /** The finalized ids after the transactions, one after the other. Each adds the ids of its requests, as
      old as those are, and prunes. */
  function FinalizedBy(left: map<Txid, Record>, finalized: map<PegoutId, Option<nat>>, txids: seq<Txid>, now: nat)
    : map<PegoutId, Option<nat>>
  {
    if txids == [] then finalized
    else
      var n := |txids| - 1;
      var before := FinalizedBy(left, finalized, txids[..n], now);
      if Finalizes(left, txids, n) then Recent(Stamps(left[txids[n]].requests) + before, now) else before
  }

  /** The transaction at `j` makes the id final: its request is not too old, and no old entry for the id
      stands in its way. */
  ghost predicate MakesFinal(left: map<Txid, Record>, finalized: map<PegoutId, Option<nat>>, txids: seq<Txid>, now: nat,
                             id: PegoutId, j: int) {
    && Finalizes(left, txids, j) && id in left[txids[j]].requests && !Aged(left[txids[j]].requests[id].stamp, now)
    && (id !in finalized || exists i :: 0 <= i < j && Finalizes(left, txids, i))
  }

  /** The ids that are final afterwards. */
  ghost predicate Final(left: map<Txid, Record>, finalized: map<PegoutId, Option<nat>>, txids: seq<Txid>, now: nat,
                        id: PegoutId) {
    || (id in finalized && (!Aged(finalized[id], now) || forall j :: !Finalizes(left, txids, j)))
    || exists j :: MakesFinal(left, finalized, txids, now, id, j)
  }

  lemma {:induction false} FinalizedExactly(left: map<Txid, Record>, finalized: map<PegoutId, Option<nat>>,
                                            txids: seq<Txid>, now: nat, id: PegoutId)
    ensures id in FinalizedBy(left, finalized, txids, now) <==> Final(left, finalized, txids, now, id)
    ensures (exists j :: Finalizes(left, txids, j)) && id in FinalizedBy(left, finalized, txids, now) ==>
              !Aged(FinalizedBy(left, finalized, txids, now)[id], now)
    ensures (forall j :: !Finalizes(left, txids, j)) ==> FinalizedBy(left, finalized, txids, now) == finalized
  {
    if txids != [] {
      var n := |txids| - 1;
      FinalizedExactly(left, finalized, txids[..n], now, id);
      SameTurns(left, finalized, txids, now, id);
      NextTurn(left, finalized, txids, now, id);
    }
  }

  /** The step of the induction. */
  lemma NextTurn(left: map<Txid, Record>, finalized: map<PegoutId, Option<nat>>, txids: seq<Txid>, now: nat, id: PegoutId)
    requires txids != []
    requires var init := txids[..|txids| - 1];
             var before := FinalizedBy(left, finalized, init, now);
             && (id in before <==> Final(left, finalized, init, now, id))
             && ((exists j :: Finalizes(left, init, j)) && id in before ==> !Aged(before[id], now))
             && ((forall j :: !Finalizes(left, init, j)) ==> before == finalized)
    ensures id in FinalizedBy(left, finalized, txids, now) <==> Final(left, finalized, txids, now, id)
  {
    hide Aged; hide Finalizes; hide MakesFinal;
    var n := |txids| - 1;
    var init := txids[..n];
    var before := FinalizedBy(left, finalized, init, now);
    SameTurns(left, finalized, txids, now, id);
    Bounds(left, finalized, txids, now, id);
    Bounds(left, finalized, init, now, id);
    if !Finalizes(left, txids, n) {
      assert forall j :: Finalizes(left, txids, j) <==> Finalizes(left, init, j);
    } else if exists i :: Finalizes(left, init, i) {
      var i :| Finalizes(left, init, i);
      LastMakesFinal(left, finalized, txids, now, id);
      assert Finalizes(left, txids, i);
    } else {
      LastMakesFinal(left, finalized, txids, now, id);
      assert forall j :: 0 <= j < n ==> !Finalizes(left, txids, j);
    }
  }

  lemma Bounds(left: map<Txid, Record>, finalized: map<PegoutId, Option<nat>>, txids: seq<Txid>, now: nat, id: PegoutId)
    ensures forall j :: Finalizes(left, txids, j) ==> 0 <= j < |txids|
    ensures forall j :: MakesFinal(left, finalized, txids, now, id, j) ==> Finalizes(left, txids, j)
  {
  }

  lemma LastMakesFinal(left: map<Txid, Record>, finalized: map<PegoutId, Option<nat>>, txids: seq<Txid>, now: nat,
                       id: PegoutId)
    requires txids != [] && Finalizes(left, txids, |txids| - 1)
    ensures var n := |txids| - 1;
            && txids[n] in left
            && (MakesFinal(left, finalized, txids, now, id, n) <==>
                  && id in left[txids[n]].requests && !Aged(left[txids[n]].requests[id].stamp, now)
                  && (id !in finalized || exists i :: 0 <= i < n && Finalizes(left, txids, i)))
  {
  }

  /** Leaving out the last transaction changes nothing for those before it. */
  lemma SameTurns(left: map<Txid, Record>, finalized: map<PegoutId, Option<nat>>, txids: seq<Txid>, now: nat, id: PegoutId)
    requires txids != []
    ensures var init := txids[..|txids| - 1];
            forall j :: 0 <= j < |init| ==>
                          && (Finalizes(left, init, j) <==> Finalizes(left, txids, j))
                          && (MakesFinal(left, finalized, init, now, id, j) <==> MakesFinal(left, finalized, txids, now, id, j))
  {
    var init := txids[..|txids| - 1];
    forall j | 0 <= j < |init|
      ensures Finalizes(left, init, j) <==> Finalizes(left, txids, j)
    {
      assert init[..j] == txids[..j];
    }
  }

  function InputsOf(tracked: map<Txid, Record>, txids: set<Txid>): set<OutPoint> {
    set k, i | k in tracked && k in txids && 0 <= i < |tracked[k].tx.inputs| :: tracked[k].tx.inputs[i]
  }

  function Parents(inputs: set<OutPoint>): set<Txid> {
    set o | o in inputs :: o.txid
  }

  /** What is tracked without the transactions that an input of the block comes from. */
  ghost function Left(s: Store, txids: seq<Txid>, spent: set<OutPoint>): map<Txid, Record> {
    s.tracked - Parents(spent + InputsOf(s.tracked, Listed(txids)))
  }

  ghost function BlockFinalized(s: Store, txids: seq<Txid>, change: seq<map<OutPoint, Utxo>>, spent: set<OutPoint>, now: nat)
    : Store
  {
    var left := Left(s, txids, spent);
    s.(tracked := left - Listed(txids), finalized := FinalizedBy(left, s.finalized, txids, now),
       utxos := s.utxos + Joined(change) - (spent + InputsOf(s.tracked, Listed(txids))))
  }

  ghost function Joined(change: seq<map<OutPoint, Utxo>>): map<OutPoint, Utxo> {
    if change == [] then map[] else Joined(change[..|change| - 1]) + change[|change| - 1]
  }

  ghost predicate AllTracked(tracked: map<Txid, Record>, txids: seq<Txid>) {
    forall t :: t in txids ==> t in tracked
  }

  /** The transaction at `i` is the first that is not tracked. */
  ghost predicate StopsAt(tracked: map<Txid, Record>, txids: seq<Txid>, i: int) {
    0 <= i < |txids| && txids[i] !in tracked && AllTracked(tracked, txids[..i])
  }

  /** Only the change of the transactions before the first unknown one has been put back. */
  ghost predicate StoppedPartway(s: Store, txids: seq<Txid>, change: seq<map<OutPoint, Utxo>>, s': Store) {
    exists i :: StopsAt(s.tracked, txids, i) && i < |change| && s' == s.(utxos := s.utxos + Joined(change[..i]))
  }

  // ---------------------------------------------------------------- actions

  datatype Action =
    | Validate(psbt: Psbt, stage: Stage)
    | Sign(psbt: Psbt, share: bool)
    | Queue(asked: seq<Asked>)
    | Finish(tx: Tx, ids: seq<PegoutId>, answer: Answer)
    | Drop(txid: Txid)
    | Confirm(txids: seq<Txid>, change: seq<map<OutPoint, Utxo>>, spent: set<OutPoint>, now: nat)
    | Reset(finalized: map<PegoutId, Option<nat>>)
    | Learn(utxos: map<OutPoint, Utxo>)
  {
    ghost predicate Valid() {
      (Validate? || Sign? ==> psbt.Valid()) && (Confirm? ==> |change| == |txids|)
    }
  }

  /** Validating changes nothing, except that a finalized pegout it comes upon is no longer pending. */
  ghost predicate Validated(s: Store, psbt: Psbt, s': Store) {
    s' == s || exists id :: id in IdsOf(psbt.outputs) && id in s.finalized && s' == s.(pending := s.pending - {id})
  }

  ghost predicate IsSigned(s: Store, a: Action, c: Settings) {
    a.Sign? && Signs(s, a.psbt, a.share, c)
  }

  /** What an action does to the store. */
  ghost predicate Acted(s: Store, a: Action, c: Settings, s': Store) {
    match a
    case Validate(psbt, _) => Validated(s, psbt, s')
    case Sign(psbt, _) => if IsSigned(s, a, c) then s' == Signing(s, psbt, c) else Validated(s, psbt, s')
    case Queue(asked) => s' == Queued(s, asked)
    case Finish(tx, ids, answer) => s' == Broadcast(s, tx, ids, answer)
    case Drop(txid) => s' == Dropped(s, txid)
    case Confirm(txids, change, spent, now) =>
      if AllTracked(s.tracked, txids) then s' == BlockFinalized(s, txids, change, spent, now)
      else StoppedPartway(s, txids, change, s')
    case Reset(finalized) => s' == s.(finalized := finalized)
    case Learn(utxos) => s' == s.(utxos := utxos)
  }

  /** What is remembered after an action, by what is kept before it. */
  ghost predicate Kept(s: Store, a: Action, c: Settings, t: SignedTx, id: PegoutId) {
    match a
    case Sign(psbt, _) => if IsSigned(s, a, c) then KeptBySigning(s, psbt, t, id) else Remembered(s, t, id)
    case Finish(tx, _, answer) =>
      if Untracks(answer) then id in s.finalized || Covered(s.tracked - {tx.Txid()}, t, id) else Remembered(s, t, id)
    case Drop(txid) => id in s.finalized || Covered(s.tracked - {txid}, t, id)
    case Confirm(txids, _, spent, now) =>
      if AllTracked(s.tracked, txids) then
        var left := Left(s, txids, spent);
        Final(left, s.finalized, txids, now, id) || Covered(left - Listed(txids), t, id)
      else Remembered(s, t, id)
    case Reset(finalized) => id in finalized || Covered(s.tracked, t, id)
    case _ => Remembered(s, t, id)
  }

  lemma RemembersExactly(s: Store, a: Action, c: Settings, s': Store, t: SignedTx, id: PegoutId)
    requires Acted(s, a, c, s')
    ensures Remembered(s', t, id) <==> Kept(s, a, c, t, id)
  {
    hide Signs; hide Covered; hide KeptBySigning; hide Signing; hide Final; hide FinalizedBy; hide Left; hide IdsOf;
    match a
    case Sign(psbt, _) => SigningKeeps(s, psbt, c, t, id);
    case Drop(txid) => if txid !in s.tracked { assert s.tracked - {txid} == s.tracked; }
    case Confirm(txids, _, spent, now) => FinalizedExactly(Left(s, txids, spent), s.finalized, txids, now, id);
    case _ =>
  }

  // ---------------------------------------------------------------- runs

  ghost predicate Trace(stores: seq<Store>, actions: seq<Action>, c: Settings) {
    |stores| == |actions| + 1 && forall i :: 0 <= i < |actions| ==> Acted(stores[i], actions[i], c, stores[i + 1])
  }

  lemma TraceGoesOn(stores: seq<Store>, actions: seq<Action>, n: nat, c: Settings, s: Store)
    requires n < |actions| && Trace(stores, actions[..n], c) && Acted(stores[n], actions[n], c, s)
    ensures Trace(stores + [s], actions[..n + 1], c)
  {
    hide Acted;
  }

  /** What was signed before and in the first `n` actions, whether it is tracked or not. */
  ghost function SignedIn(before: seq<SignedTx>, stores: seq<Store>, actions: seq<Action>, c: Settings, n: nat): seq<SignedTx>
    requires n <= |actions| < |stores|
  {
    if n == 0 then before
    else
      SignedIn(before, stores, actions, c, n - 1) +
      (if IsSigned(stores[n - 1], actions[n - 1], c) then [SignedFor(actions[n - 1].psbt)] else [])
  }

  /** The action is a signing that pays the pegout. */
  ghost predicate SignsFor(s: Store, a: Action, c: Settings, id: PegoutId) {
    IsSigned(s, a, c) && id in IdsOf(a.psbt.outputs)
  }

  /** Whenever something is signed for the pegout, all that was signed for it before is still remembered. */
  ghost predicate NeverForgotten(before: seq<SignedTx>, stores: seq<Store>, actions: seq<Action>, c: Settings, id: PegoutId)
    requires |actions| < |stores|
  {
    forall n :: 0 <= n < |actions| && SignsFor(stores[n], actions[n], c, id) ==>
                  AllRemembered(stores[n], SignedIn(before, stores, actions, c, n), id)
  }

  ghost predicate Sound(signed: seq<SignedTx>) {
    PaysOnce(signed) && HaveInputs(signed)
  }

  /** Then all that is ever signed for the pegout is pairwise in conflict. */
  lemma {:induction false} SignedConflict(before: seq<SignedTx>, stores: seq<Store>, actions: seq<Action>, c: Settings,
                                          id: PegoutId, n: nat)
    requires Trace(stores, actions, c) && NeverForgotten(before, stores, actions, c, id) && n <= |actions|
    requires Conflicting(before, id) && Sound(before)
    ensures var signed := SignedIn(before, stores, actions, c, n); Conflicting(signed, id) && Sound(signed)
  {
    hide Acted; hide Remembered; hide IdsOf; hide NoDuplicates; hide Conflicts; hide Signs;
    if n > 0 {
      SignedConflict(before, stores, actions, c, id, n - 1);
      var s, a := stores[n - 1], actions[n - 1];
      if IsSigned(s, a, c) {
        var signed := SignedIn(before, stores, actions, c, n - 1);
        SignedIsSound(s, a, c);
        forall i | 0 <= i < |signed| && id in signed[i].ids && id in SignedFor(a.psbt).ids
          ensures Conflicts(signed[i].tx, a.psbt.tx)
        {
          assert SignsFor(s, a, c, id);
          ConflictsWithSigned(s, signed[i], a, c, id);
        }
      }
    }
  }

  lemma SignedIsSound(s: Store, a: Action, c: Settings)
    requires IsSigned(s, a, c)
    ensures NoDuplicates(SignedFor(a.psbt).ids) && SignedFor(a.psbt).tx.inputs != []
  {
    hide IdsOf; hide NoDuplicates; hide ConflictsWithAll; hide CheckedInputs; hide RoundOk; hide TotalOut; hide FeeFor;
  }

  lemma ConflictsWithSigned(s: Store, t: SignedTx, a: Action, c: Settings, id: PegoutId)
    requires SignsFor(s, a, c, id) && Remembered(s, t, id)
    ensures Conflicts(t.tx, a.psbt.tx)
  {
    hide Signable; hide Remembered; hide IdsOf; hide Conflicts; hide Serves;
    RememberedConflicts(s, t, id, a.psbt, Round2, c.signers);
  }

  /** The transaction has no tracked request for the pegout. */
  ghost predicate NoRequest(s: Store, txid: Txid, id: PegoutId) {
    txid in s.tracked ==> id !in s.tracked[txid].requests
  }

  /** Conditions on each action that keep a pegout from being forgotten: it is pending whenever something
      is signed for it, what is signed under the id of a tracked transaction for it pays it again, no
      transaction for it is untracked, and no request or entry for it is too old when a block is finalized. */
  ghost predicate Careful(s: Store, a: Action, c: Settings, id: PegoutId) {
    match a
    case Sign(psbt, _) =>
      IsSigned(s, a, c) ==>
        && (id in IdsOf(psbt.outputs) ==> id in s.pending)
        && (id !in IdsOf(psbt.outputs) ==> NoRequest(s, psbt.tx.Txid(), id))
    case Finish(tx, _, answer) => Untracks(answer) ==> NoRequest(s, tx.Txid(), id)
    case Drop(txid) => NoRequest(s, txid, id)
    case Confirm(txids, _, spent, now) =>
      && (id in s.finalized ==> !Aged(s.finalized[id], now))
      && (forall k :: k in s.tracked && k !in Left(s, txids, spent) ==> NoRequest(s, k, id))
      && (forall k :: k in s.tracked && k in txids && id in s.tracked[k].requests ==>
                        !Aged(s.tracked[k].requests[id].stamp, now))
    case Reset(finalized) => id in s.finalized ==> id in finalized
    case _ => true
  }

  ghost predicate CarefulRun(stores: seq<Store>, actions: seq<Action>, c: Settings, id: PegoutId)
    requires |actions| < |stores|
  {
    forall n :: 0 <= n < |actions| ==> Careful(stores[n], actions[n], c, id)
  }

  lemma CarefulKeeps(s: Store, a: Action, c: Settings, s': Store, t: SignedTx, id: PegoutId)
    requires Acted(s, a, c, s') && Careful(s, a, c, id) && Keyed(s.tracked) && Remembered(s, t, id)
    ensures Remembered(s', t, id)
  {
    hide Signs; hide IdsOf; hide Within; hide Acted; hide Left; hide Final; hide Aged;
    RemembersExactly(s, a, c, s', t, id);
    match a
    case Sign(psbt, _) => CoveredBesides(s.tracked, psbt.tx.Txid(), t, id);
    case Finish(tx, _, _) => CoveredBesides(s.tracked, tx.Txid(), t, id);
    case Drop(txid) => CoveredBesides(s.tracked, txid, t, id);
    case Confirm(txids, _, spent, now) => CarefulConfirm(s, a, c, t, id);
    case _ =>
  }

  lemma CarefulConfirm(s: Store, a: Action, c: Settings, t: SignedTx, id: PegoutId)
    requires a.Confirm? && Careful(s, a, c, id) && Remembered(s, t, id)
    ensures Kept(s, a, c, t, id)
  {
    hide Within; hide Aged;
    var left := Left(s, a.txids, a.spent);
    if id !in s.finalized && AllTracked(s.tracked, a.txids) {
      var k :| k in s.tracked && Covers(s.tracked[k], t, id);
      assert k in left && left[k] == s.tracked[k];
      if k in a.txids {
        var j := FirstTurn(a.txids, k);
        assert id in left[k].requests;
        assert MakesFinal(left, s.finalized, a.txids, a.now, id, j);
      } else {
        assert Covers((left - Listed(a.txids))[k], t, id);
      }
    }
  }

  lemma {:induction false} FirstTurn(txids: seq<Txid>, k: Txid) returns (j: nat)
    requires k in txids
    ensures j < |txids| && txids[j] == k && k !in txids[..j]
  {
    var n := |txids| - 1;
    if k in txids[..n] {
      j := FirstTurn(txids[..n], k);
      assert txids[..n][..j] == txids[..j];
    } else {
      j := n;
    }
  }

  lemma KeyedStays(s: Store, a: Action, c: Settings, s': Store)
    requires Acted(s, a, c, s') && Keyed(s.tracked)
    ensures Keyed(s'.tracked)
  {
    hide Signs; hide FinalizedBy; hide Unhandled; hide IdsOf; hide InputsOf; hide Parents;
  }

  /** In a careful run all that is signed for the pegout stays remembered. */
  lemma {:induction false} CarefulRemembers(before: seq<SignedTx>, stores: seq<Store>, actions: seq<Action>, c: Settings,
                                            id: PegoutId, n: nat)
    requires Trace(stores, actions, c) && CarefulRun(stores, actions, c, id) && n <= |actions|
    requires Keyed(stores[0].tracked) && AllRemembered(stores[0], before, id)
    ensures Keyed(stores[n].tracked) && AllRemembered(stores[n], SignedIn(before, stores, actions, c, n), id)
  {
    hide Acted; hide Remembered; hide Careful; hide Keyed; hide IdsOf; hide Signs;
    if n > 0 {
      CarefulRemembers(before, stores, actions, c, id, n - 1);
      var s, a, s' := stores[n - 1], actions[n - 1], stores[n];
      var signed := SignedIn(before, stores, actions, c, n - 1);
      assert Acted(s, a, c, s');
      KeyedStays(s, a, c, s');
      forall i | 0 <= i < |signed| && id in signed[i].ids
        ensures Remembered(s', signed[i], id)
      {
        CarefulKeeps(s, a, c, s', signed[i], id);
      }
      if SignsFor(s, a, c, id) {
        CarefulSigning(s, a, c, s', id);
      }
    }
  }

  lemma CarefulSigning(s: Store, a: Action, c: Settings, s': Store, id: PegoutId)
    requires Acted(s, a, c, s') && Careful(s, a, c, id) && Keyed(s.tracked) && SignsFor(s, a, c, id)
    ensures Remembered(s', SignedFor(a.psbt), id)
  {
    hide Signs; hide IdsOf; hide Remembered; hide Keyed;
    SigningRemembers(s, a.psbt, a.share, c, SignedFor(a.psbt), id);
  }

  lemma CarefulNeverForgets(before: seq<SignedTx>, stores: seq<Store>, actions: seq<Action>, c: Settings, id: PegoutId)
    requires Trace(stores, actions, c) && CarefulRun(stores, actions, c, id)
    requires Keyed(stores[0].tracked) && AllRemembered(stores[0], before, id)
    ensures NeverForgotten(before, stores, actions, c, id)
  {
    hide Acted; hide Careful; hide AllRemembered; hide SignedIn; hide SignsFor; hide Keyed;
    forall n | 0 <= n < |actions| && SignsFor(stores[n], actions[n], c, id)
      ensures AllRemembered(stores[n], SignedIn(before, stores, actions, c, n), id)
    {
      CarefulRemembers(before, stores, actions, c, id, n);
    }
  }

  /** A pegout that is not pending, finalized or tracked can be paid twice with nothing done but signing
      two transactions for it. */
  lemma UnqueuedIsPaidTwice(s: Store, id: PegoutId, c: Settings)
    returns (stores: seq<Store>, actions: seq<Action>, ledger: seq<Tx>)
    requires s.key.Some? && id !in s.pending && !Handled(s, id)
    ensures Trace(stores, actions, c) && stores[0] == s && |actions| == 2
    ensures forall n :: 0 <= n < |actions| ==> SignsFor(stores[n], actions[n], c, id)
    ensures SpentOnce(ledger) && !PaidOnce(SignedIn([], stores, actions, c, 2), ledger, id)
  {
    hide Signs; hide IdsOf; hide Conflicts; hide SpentOnce; hide PaidOnce; hide Signing;
    var first := ForgottenIsSigned(s, SignedTx(Tx([], [], 0), []), id, c);
    var t, s' := SignedFor(first), Signing(s, first, c);
    assert !Remembered(s', t, id) by { SigningKeeps(s, first, c, t, id); }
    assert s'.key.Some? by { SameKey(s, first, c); }
    var second := ForgottenIsSigned(s', t, id, c);
    stores, actions := [s, s', Signing(s', second, c)], [Sign(first, true), Sign(second, true)];
    var signed := SignedIn([], stores, actions, c, 2);
    assert IsSigned(stores[0], actions[0], c) && IsSigned(stores[1], actions[1], c);
    assert SignedIn([], stores, actions, c, 1) == [t];
    assert signed == [t, SignedFor(second)];
    ledger := [t.tx, second.tx];
    BothPaid(signed, id, 0, 1);
  }

  /** A pegout whose request is too old when its transaction is finalized is forgotten at once, and one
      that pays it again is signed. */
  lemma FinalizedTooLate(s: Store, txid: Txid, id: PegoutId, now: nat, c: Settings) returns (s': Store, psbt: Psbt)
    requires s.key.Some? && id !in s.finalized && txid in s.tracked
    requires id in s.tracked[txid].requests && Aged(s.tracked[txid].requests[id].stamp, now)
    requires forall k :: k in s.tracked && k != txid ==> id !in s.tracked[k].requests
    ensures Acted(s, Confirm([txid], [map[]], {}, now), c, s')
    ensures Signs(s', psbt, true, c) && id in IdsOf(psbt.outputs) && !Conflicts(s.tracked[txid].tx, psbt.tx)
  {
    hide Signs; hide IdsOf; hide Conflicts; hide FinalizedBy; hide Aged;
    var a := Confirm([txid], [map[]], {}, now);
    s' := BlockFinalized(s, [txid], [map[]], {}, now);
    var t := SignedTx(s.tracked[txid].tx, [id]);
    RemembersExactly(s, a, c, s', t, id);
    assert [txid][0] == txid;
    psbt := ForgottenIsSigned(s', t, id, c);
  }

  lemma SameKey(s: Store, psbt: Psbt, c: Settings)
    ensures Signing(s, psbt, c).key == s.key
  {
  }
}
