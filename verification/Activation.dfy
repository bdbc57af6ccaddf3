/** Network upgrades: voting on them, proposing them and activating them. */
module Activation {
  import opened Blocks
  import opened Common
  import opened VoteTracker

  const MIN_QUORUM := 67
  const MIN_VALIDATOR_COUNT := 3
  const MAX := 0xffff_ffff_ffff_ffff

  datatype Version = Version(major: nat, minor: nat)
  {
    predicate Below(v: Version) {
      major < v.major || (major == v.major && minor < v.minor)
    }
  }

  /** The vote a proposer includes in a block. */
  datatype Payload = Payload(version: Version, vote: Vote, compliant: bool)

  datatype NetworkUpgrade = NetworkUpgrade(version: Version, quorum: nat, minimum: nat, target: nat,
                                           ourVote: Vote, compliant: bool)

  datatype Conditions = Conditions(compliant: bool, ayes: bool, approvals: bool, height: bool)
  {
    predicate AllPassing() { compliant && ayes && approvals && height }
  }

  datatype PrepareDecision = PrepareDecision(version: Version, vote: Option<Payload>, conditions: Option<Conditions>)

  datatype ProcessDecision =
    | Process(version: Version, conditions: Option<Conditions>)
    | RejectBlock(version: Version, conditions: Option<Conditions>)

  datatype FinalizeDecision = Finalize(version: Version) | RejectBlockDeadEnd(version: Version)

  datatype FinalizedBlock = FinalizedBlock(version: Version, height: nat, proposer: Auth, vote: Option<Payload>)

  datatype Polling = Polling(ayes: nat, nays: nat, abstained: nat, compliant: nat, total: nat)

  datatype Manager = Manager(votes: Votes, retention: nat, active: Version, upgrade: Option<NetworkUpgrade>)

  /** The states the builders construct and every operation keeps. */
  ghost predicate Legal(m: Manager) {
    m.upgrade.Some? ==>
      var u := m.upgrade.value;
      m.active.Below(u.version) && 67 <= u.quorum && 3 <= u.minimum
  }

  // ---------------------------------------------------------------- the operations

  ghost function ConditionsOf(u: NetworkUpgrade, votes: Votes, height: nat): Conditions
    requires 0 < u.minimum
  {
    var total := TotalVotes(votes, u.minimum);
    Conditions(u.compliant,
               u.quorum <= ApprovalRate(|Ayes(votes)|, total),
               u.quorum <= ApprovalRate(|Compliant(votes)|, total),
               u.target <= height)
  }

  /** The share of the votes, or of the minimum if there are fewer, reaches the quorum: in percent it is more
      than one below it. */
  ghost predicate Reaches(group: set<Auth>, votes: Votes, u: NetworkUpgrade) {
    100 * |group| > (u.quorum - 1) * (if |votes| < u.minimum then u.minimum else |votes|)
  }

  /** The upgrade is due: the node accepts it, enough validators are for it, enough comply, and it is time. */
  ghost predicate Due(u: NetworkUpgrade, votes: Votes, height: nat) {
    && u.compliant && u.target <= height
    && Reaches(Ayes(votes), votes, u)
    && Reaches(Compliant(votes), votes, u)
  }

  lemma ConditionsExactly(u: NetworkUpgrade, votes: Votes, height: nat)
    requires 0 < u.minimum && 0 < u.quorum
    ensures var c := ConditionsOf(u, votes, height);
            && c.compliant == u.compliant && c.height == (u.target <= height)
            && c.ayes == Reaches(Ayes(votes), votes, u)
            && c.approvals == Reaches(Compliant(votes), votes, u)
            && (c.AllPassing() <==> Due(u, votes, height))
  {
    hide ApprovalRate;
    var total := if |votes| < u.minimum then u.minimum else |votes|;
    RateReachesQuorum(|Ayes(votes)|, total, u.quorum);
    RateReachesQuorum(|Compliant(votes)|, total, u.quorum);
  }

  ghost function Prepared(m: Manager, height: nat): PrepareDecision
    requires Legal(m)
  {
    if m.upgrade.None? then PrepareDecision(m.active, None, None)
    else
      var u := m.upgrade.value;
      var c := ConditionsOf(u, m.votes, height);
      PrepareDecision(if c.AllPassing() then u.version else m.active,
                      Some(Payload(u.version, u.ourVote, u.compliant)), Some(c))
  }

  ghost function Processed(m: Manager, height: nat, version: Version): ProcessDecision
    requires Legal(m)
  {
    var c := if m.upgrade.Some? then Some(ConditionsOf(m.upgrade.value, m.votes, height)) else None;
    if c.Some? && c.value.AllPassing() && version == m.upgrade.value.version then Process(version, c)
    else if version == m.active then Process(version, c)
    else RejectBlock(version, c)
  }

  /** A vote on another version, or none, counts as an abstention that is not compliant. */
  function Effective(version: Version, b: FinalizedBlock): VoteEntry {
    if b.vote.Some? && b.vote.value.version == version
    then VoteEntry(b.vote.value.vote, b.vote.value.compliant, b.height)
    else VoteEntry(Abstain, false, b.height)
  }

  ghost function Tracked(m: Manager, b: FinalizedBlock): Votes {
    if m.upgrade.None? then m.votes
    else Pruned(Updated(m.votes, b.proposer, Effective(m.upgrade.value.version, b)), SatSub(b.height, m.retention))
  }

  ghost function Finalized(m: Manager, b: FinalizedBlock): (Manager, FinalizeDecision) {
    var votes := Tracked(m, b);
    if !m.active.Below(b.version) then (m.(votes := votes), Finalize(b.version))
    else if m.upgrade.None? then (m.(votes := votes), RejectBlockDeadEnd(b.version))
    else
      var u, left := m.upgrade.value, Pruned(votes, b.height + 1);
      if b.version != u.version then (m.(votes := left), RejectBlockDeadEnd(b.version))
      else if !u.compliant then (m.(votes := left, upgrade := None), RejectBlockDeadEnd(b.version))
      else (m.(votes := left, upgrade := None, active := u.version), Finalize(u.version))
  }

  ghost function Forced(m: Manager, version: Version): (Manager, bool) {
    if m.upgrade.None? || m.upgrade.value.version != version || !m.upgrade.value.compliant then (m, false)
    else (m.(upgrade := None, active := version), true)
  }

  class ActivationManager {
    const retention: nat
    const client: VoteWatcher
    var active: Version
    var upgrade: Option<NetworkUpgrade>

    ghost function View(): Manager
      reads this, client
    {
      Manager(client.votes, retention, active, upgrade)
    }

    /** A node that takes no part in upgrades. */
    constructor Ignore(active: Version, retention: nat)
      ensures fresh(client)
      ensures Legal(View()) && View() == Manager(map[], retention, active, None)
    {
      client := new VoteWatcher();
      this.retention, this.active, upgrade := retention, active, None;
    }

    /** A node that votes on an upgrade it does not accept. */
    constructor Signal(active: Version, retention: nat, version: Version, vote: Vote)
      requires active.Below(version)
      ensures fresh(client)
      ensures Legal(View()) && View().votes == map[] && View().active == active && View().retention == retention
      ensures View().upgrade == Some(NetworkUpgrade(version, MAX, MAX, MAX, vote, false))
    {
      client := new VoteWatcher();
      this.retention, this.active := retention, active;
      upgrade := Some(NetworkUpgrade(version, MAX, MAX, MAX, vote, false));
    }

    /** A node that accepts an upgrade once its conditions are met. */
    constructor Accept(active: Version, retention: nat, version: Version, quorum: nat, minimum: nat, target: nat,
                       vote: Option<Vote>)
      requires active.Below(version) && MIN_QUORUM <= quorum && MIN_VALIDATOR_COUNT <= minimum
      ensures fresh(client)
      ensures Legal(View()) && View().votes == map[] && View().active == active && View().retention == retention
      ensures View().upgrade ==
                Some(NetworkUpgrade(version, quorum, minimum, target, if vote.Some? then vote.value else Aye, true))
    {
      client := new VoteWatcher();
      this.retention, this.active := retention, active;
      upgrade := Some(NetworkUpgrade(version, quorum, minimum, target, if vote.Some? then vote.value else Aye, true));
    }

    /** The counts are taken over the same votes, so both approvals have one total. */
    method ValidateConditions(u: NetworkUpgrade, height: nat) returns (c: Conditions)
      requires 0 < u.minimum
      ensures c == ConditionsOf(u, client.votes, height)
    {
      var ayes, total := client.ApprovalRateAyes(u.minimum);
      var approvals, total2 := client.ApprovalRateCompliance(u.minimum);
      assert total == total2 >= u.minimum;
      return Conditions(u.compliant, ayes >= u.quorum, approvals >= u.quorum, height >= u.target);
    }

    method OnPrepareProposal(height: nat) returns (d: PrepareDecision)
      requires Legal(View())
      ensures d == Prepared(View(), height)
      ensures upgrade.None? ==> d == PrepareDecision(active, None, None)
      ensures upgrade.Some? ==>
                var u := upgrade.value;
                && d.version == (if Due(u, client.votes, height) then u.version else active)
                && d.vote == Some(Payload(u.version, u.ourVote, u.compliant))
    {
      hide ConditionsOf; hide Due;
      var ourVote, conditions := None, None;
      if upgrade.Some? {
        var u := upgrade.value;
        assert u.quorum >= MIN_QUORUM;
        ourVote := Some(Payload(u.version, u.ourVote, u.compliant));
        var c := ValidateConditions(u, height);
        ConditionsExactly(u, client.votes, height);
        if c.AllPassing() {
          return PrepareDecision(u.version, ourVote, Some(c));
        }
        conditions := Some(c);
      }
      return PrepareDecision(active, ourVote, conditions);
    }

    method OnProcessProposal(height: nat, version: Version) returns (d: ProcessDecision)
      requires Legal(View())
      ensures d == Processed(View(), height, version)
      ensures d.version == version
      ensures d.Process? <==> || version == active
                              || (upgrade.Some? && version == upgrade.value.version && Due(upgrade.value, client.votes, height))
    {
      hide ConditionsOf; hide Due;
      var conditions := None;
      if upgrade.Some? {
        var c := ValidateConditions(upgrade.value, height);
        ConditionsExactly(upgrade.value, client.votes, height);
        conditions := Some(c);
        if c.AllPassing() && version == upgrade.value.version {
          return Process(version, conditions);
        }
      }
      if version == active {
        return Process(active, conditions);
      }
      return RejectBlock(version, conditions);
    }

    method TrackVote(b: FinalizedBlock)
      modifies client
      ensures client.votes == Tracked(old(View()), b)
    {
      if upgrade.None? {
        return;
      }
      client.UpdateUpgradingVote(b.proposer, Effective(upgrade.value.version, b));
      var _ := client.RemoveUpgradingVotes(SatSub(b.height, retention));
    }

    method OnFinalizeBlock(b: FinalizedBlock) returns (d: FinalizeDecision)
      requires Legal(View())
      modifies this, client
      ensures Legal(View()) && (View(), d) == Finalized(old(View()), b)
      ensures d.version == b.version
      ensures d.Finalize? <==> || !old(active).Below(b.version)
                               || (Accepting(old(View())) && b.version == old(upgrade).value.version)
      ensures active == if d.Finalize? && old(active).Below(b.version) then b.version else old(active)
      ensures upgrade == if old(upgrade).Some? && b.version == old(upgrade).value.version then None else old(upgrade)
      ensures old(upgrade).None? ==> client.votes == old(client.votes)
      ensures old(upgrade).Some? && old(active).Below(b.version) ==>
                client.votes == map a | a in old(client.votes) && b.height < old(client.votes)[a].height :: old(client.votes)[a]
    {
      hide Tracked; hide Pruned;
      OnlyLater(View(), b);
      TrackVote(b);
      if !active.Below(b.version) {
        return Finalize(b.version);
      }
      if upgrade.Some? {
        var u := upgrade.value;
        var _ := client.RemoveUpgradingVotes(b.height + 1);
        if b.version != u.version {
          return RejectBlockDeadEnd(b.version);
        }
        if !u.compliant {
          upgrade := None;
          return RejectBlockDeadEnd(b.version);
        }
        active := u.version;
        upgrade := None;
        return Finalize(active);
      }
      return RejectBlockDeadEnd(b.version);
    }

    method ForceUpgradeChecked(version: Version) returns (forced: bool)
      requires Legal(View())
      modifies this
      ensures Legal(View()) && (View(), forced) == Forced(old(View()), version)
      ensures forced <==> Accepting(old(View())) && version == old(upgrade).value.version
      ensures forced ==> View() == old(View()).(active := version, upgrade := None)
      ensures !forced ==> View() == old(View())
    {
      if upgrade.None? || upgrade.value.version != version || !upgrade.value.compliant {
        return false;
      }
      upgrade := None;
      active := version;
      return true;
    }

    /** Carries out the operations of a run. */
    method Run(ops: seq<Op>)
      requires Legal(View())
      modifies this, client
      ensures View() == After(old(View()), ops)
      ensures Legal(View()) && Since(old(View()), View())
    {
      hide Finalized; hide Forced; hide Since;
      for i := 0 to |ops|
        invariant Legal(View()) && View() == After(old(View()), ops[..i])
      {
        PrefixStep(old(View()), ops, i);
        match ops[i] {
          case PrepareProposal(height) => var _ := OnPrepareProposal(height);
          case ProcessProposal(height, version) => var _ := OnProcessProposal(height, version);
          case FinalizeBlock(b) => var _ := OnFinalizeBlock(b);
          case ForceUpgrade(version) => var _ := ForceUpgradeChecked(version);
        }
      }
      assert ops[..|ops|] == ops;
      RunStays(old(View()), ops);
    }

    /** The three kinds of vote add up to the total. */
    method GetUpgradePolling() returns (r: Option<(Version, Polling)>)
      ensures r.None? <==> upgrade.None?
      ensures r.Some? ==>
                var (version, p) := r.value;
                && version == upgrade.value.version && p.total == |client.votes| == p.ayes + p.nays + p.abstained
                && p.ayes == |Ayes(client.votes)| && p.nays == |Nays(client.votes)|
                && p.compliant == |Compliant(client.votes)| <= p.total
    {
      if upgrade.None? {
        return None;
      }
      VotesAddUp(client.votes);
      SubsetCount(Compliant(client.votes), client.votes.Keys);
      return Some((upgrade.value.version,
                   Polling(|Ayes(client.votes)|, |Nays(client.votes)|, |Abstained(client.votes)|,
                           |Compliant(client.votes)|, |client.votes|)));
    }
  }

  /** Only votes cast after the block outlast it. */
  lemma OnlyLater(m: Manager, b: FinalizedBlock)
    ensures m.upgrade.Some? ==>
              Pruned(Tracked(m, b), b.height + 1) == map a | a in m.votes && b.height < m.votes[a].height :: m.votes[a]
    ensures m.upgrade.None? ==> Tracked(m, b) == m.votes
  {
  }

  // ---------------------------------------------------------------- runs

  datatype Op =
    | PrepareProposal(height: nat)
    | ProcessProposal(height: nat, version: Version)
    | FinalizeBlock(block: FinalizedBlock)
    | ForceUpgrade(version: Version)

  ghost function Next(m: Manager, op: Op): Manager {
    match op
    case PrepareProposal(_) => m
    case ProcessProposal(_, _) => m
    case FinalizeBlock(b) => Finalized(m, b).0
    case ForceUpgrade(v) => Forced(m, v).0
  }

  ghost function After(m: Manager, ops: seq<Op>): Manager {
    if ops == [] then m else Next(After(m, ops[..|ops| - 1]), ops[|ops| - 1])
  }

  ghost predicate Accepting(m: Manager) {
    m.upgrade.Some? && m.upgrade.value.compliant
  }

  /** How far a node can have come from the state it was built in. */
  ghost predicate Since(start: Manager, m: Manager) {
    || (m.active == start.active && (m.upgrade == start.upgrade || m.upgrade.None?))
    || (Accepting(start) && m.active == start.upgrade.value.version && m.upgrade.None?)
  }

  lemma StepStays(start: Manager, m: Manager, op: Op)
    requires Legal(start) && Since(start, m)
    ensures Legal(m) && Legal(Next(m, op)) && Since(start, Next(m, op))
    ensures Next(m, op).active != m.active ==>
              && Accepting(start) && m.active == start.active && Next(m, op).active == start.upgrade.value.version
    ensures m.upgrade.None? ==> Next(m, op).active == m.active && Next(m, op).upgrade.None?
  {
    hide Tracked; hide Pruned;
  }

  lemma {:induction false} RunStays(start: Manager, ops: seq<Op>)
    requires Legal(start)
    ensures Legal(After(start, ops)) && Since(start, After(start, ops))
  {
    if ops != [] {
      RunStays(start, ops[..|ops| - 1]);
      StepStays(start, After(start, ops[..|ops| - 1]), ops[|ops| - 1]);
    }
  }

  ghost predicate ChangesAt(start: Manager, ops: seq<Op>, i: nat)
    requires i < |ops|
  {
    After(start, ops[..i]).active != After(start, ops[..i + 1]).active
  }

  lemma PrefixStep(start: Manager, ops: seq<Op>, i: nat)
    requires i < |ops|
    ensures After(start, ops[..i + 1]) == Next(After(start, ops[..i]), ops[i])
  {
    assert ops[..i + 1][..i] == ops[..i];
  }

  lemma {:induction false} SettledStays(start: Manager, ops: seq<Op>, i: nat, j: nat)
    requires Legal(start) && i <= j <= |ops| && After(start, ops[..i]).upgrade.None?
    ensures After(start, ops[..j]).upgrade.None? && After(start, ops[..j]).active == After(start, ops[..i]).active
    decreases j
  {
    if i < j {
      SettledStays(start, ops, i, j - 1);
      PrefixStep(start, ops, j - 1);
      RunStays(start, ops[..j - 1]);
      StepStays(start, After(start, ops[..j - 1]), ops[j - 1]);
    }
  }

  /** The active version changes at most once in a run, and only to the tracked version of a node
      that accepts it. */
  lemma ChangesAtMostOnce(start: Manager, ops: seq<Op>, i: nat, j: nat)
    requires Legal(start) && i < |ops| && j < |ops| && ChangesAt(start, ops, i) && ChangesAt(start, ops, j)
    ensures i == j && Accepting(start)
    ensures After(start, ops[..i]).active == start.active
    ensures After(start, ops[..i + 1]).active == start.upgrade.value.version
  {
    hide After; hide Next;
    Change(start, ops, i);
    Change(start, ops, j);
    var (a, b) := if i < j then (i, j) else (j, i);
    if a < b {
      SettledStays(start, ops, a + 1, b);
    }
  }

  lemma Change(start: Manager, ops: seq<Op>, i: nat)
    requires Legal(start) && i < |ops| && ChangesAt(start, ops, i)
    ensures Accepting(start) && After(start, ops[..i]).active == start.active
    ensures After(start, ops[..i + 1]).active == start.upgrade.value.version && After(start, ops[..i + 1]).upgrade.None?
  {
    hide After; hide Next;
    RunStays(start, ops[..i]);
    PrefixStep(start, ops, i);
    StepStays(start, After(start, ops[..i]), ops[i]);
    assert start.active.Below(start.upgrade.value.version);
  }

  /** A node that does not accept an upgrade never proposes, processes or finalizes above the
      version it started with. */
  lemma NeverAbove(start: Manager, ops: seq<Op>, height: nat, version: Version, b: FinalizedBlock)
    requires Legal(start) && !Accepting(start)
    ensures var m := After(start, ops);
            && Legal(m) && Prepared(m, height).version == start.active
            && (Processed(m, height, version).Process? <==> version == start.active)
            && (Finalized(m, b).1.Finalize? <==> !start.active.Below(b.version))
            && !Forced(m, version).1
  {
    hide After; hide ApprovalRate;
    RunStays(start, ops);
  }

  /** Two nodes with the same settings, except for their own vote, and the same votes. */
  ghost predicate SameSettings(m: Manager, n: Manager) {
    && m.active == n.active && m.votes == n.votes && m.upgrade.Some? == n.upgrade.Some?
    && (m.upgrade.Some? ==> m.upgrade.value.(ourVote := n.upgrade.value.ourVote) == n.upgrade.value)
  }

  /** What one node proposes, every node with the same settings and votes processes and finalizes. */
  lemma ProposalsAreAccepted(m: Manager, n: Manager, height: nat, proposer: Auth)
    requires Legal(m) && Legal(n) && SameSettings(m, n)
    ensures var d := Prepared(m, height);
            && Processed(n, height, d.version).Process?
            && var (after, f) := Finalized(n, FinalizedBlock(d.version, height, proposer, d.vote));
               f == Finalize(d.version) && after.active == d.version
  {
    hide ApprovalRate; hide Tracked; hide Pruned;
  }

  /** The tracked version is proposed exactly if the upgrade is due, and otherwise the active one; the
      node's own vote goes with it. */
  lemma PreparedExactly(m: Manager, height: nat)
    requires Legal(m)
    ensures var d := Prepared(m, height);
            && (m.upgrade.Some? ==>
                  var u := m.upgrade.value;
                  && (d.version == u.version <==> Due(u, m.votes, height))
                  && d.vote.Some? && d.vote.value.version == u.version && d.vote.value.vote == u.ourVote
                  && d.vote.value.compliant == u.compliant && d.conditions.Some?)
            && (m.upgrade.None? || !Due(m.upgrade.value, m.votes, height) ==> d.version == m.active)
            && (m.upgrade.None? ==> d.vote.None? && d.conditions.None?)
  {
    hide ConditionsOf; hide Due;
    if m.upgrade.Some? {
      ConditionsExactly(m.upgrade.value, m.votes, height);
    }
  }

  /** A block is processed exactly if it has the active version, or the tracked one once all conditions
      are met; and then more than `2 * quorum - 102` percent voted for it and comply with it. */
  lemma ProcessedExactly(m: Manager, height: nat, version: Version)
    requires Legal(m)
    ensures Processed(m, height, version).Process? <==>
              version == m.active || (m.upgrade.Some? && version == m.upgrade.value.version
                                      && Due(m.upgrade.value, m.votes, height))
    ensures Processed(m, height, version).Process? && m.active.Below(version) ==>
              var u := m.upgrade.value;
              && u.compliant && u.target <= height && u.quorum <= 100
              && 100 * |Ayes(m.votes) * Compliant(m.votes)| > (2 * u.quorum - 102) * TotalVotes(m.votes, u.minimum)
  {
    hide ApprovalRate; hide TotalVotes; hide Due;
    if m.upgrade.Some? {
      ConditionsExactly(m.upgrade.value, m.votes, height);
    }
    if m.upgrade.Some? && ConditionsOf(m.upgrade.value, m.votes, height).AllPassing() {
      var u := m.upgrade.value;
      BothReachQuorum(m.votes, u.minimum, u.quorum);
      if u.quorum > 100 {
        NoQuorumAboveAll(m.votes, u.minimum, Ayes(m.votes), u.quorum);
      }
    }
  }

  // ---------------------------------------------------------------- the vote table and the history

  type History = seq<FinalizedBlock>

  ghost predicate Ascending(history: History) {
    forall i, j :: 0 <= i < j < |history| ==> history[i].height < history[j].height
  }

  ghost predicate NoneAbove(history: History, active: Version) {
    forall i :: 0 <= i < |history| ==> !active.Below(history[i].version)
  }

  ghost function FinalizedAll(m: Manager, history: History): Manager {
    if history == [] then m else Finalized(FinalizedAll(m, history[..|history| - 1]), history[|history| - 1]).0
  }

  /** The index of the proposer's latest block, or -1. */
  ghost function Latest(history: History, a: Auth): (i: int)
    ensures -1 <= i < |history|
    ensures i >= 0 ==> history[i].proposer == a
    ensures forall j :: i < j < |history| ==> history[j].proposer != a
  {
    if history == [] then -1
    else if history[|history| - 1].proposer == a then |history| - 1
    else Latest(history[..|history| - 1], a)
  }

  /** A proposer is in the table exactly if their latest block is not too old, with the vote of that block. */
  ghost predicate EntryOf(votes: Votes, version: Version, oldest: nat, history: History, a: Auth) {
    var i := Latest(history, a);
    if i >= 0 && oldest <= history[i].height then a in votes && votes[a] == Effective(version, history[i])
    else a !in votes
  }

  /** The table is what the history says about every proposer within the retention period. */
  ghost predicate TableOf(votes: Votes, version: Version, retention: nat, history: History) {
    if history == [] then votes == map[]
    else
      var oldest := SatSub(history[|history| - 1].height, retention);
      forall a :: EntryOf(votes, version, oldest, history, a)
  }

  /** The history determines the table. */
  lemma TableUnique(v: Votes, w: Votes, version: Version, retention: nat, history: History)
    requires TableOf(v, version, retention, history) && TableOf(w, version, retention, history)
    ensures v == w
  {
    hide Latest; hide Effective;
    if history != [] {
      var oldest := SatSub(history[|history| - 1].height, retention);
      forall a
        ensures a in v <==> a in w
        ensures a in v ==> v[a] == w[a]
      {
        assert EntryOf(v, version, oldest, history, a) && EntryOf(w, version, oldest, history, a);
      }
    }
  }

  lemma LatestStep(history: History, a: Auth)
    requires history != [] && Ascending(history)
    ensures var init, b := history[..|history| - 1], history[|history| - 1];
            && Latest(history, a) == (if a == b.proposer then |history| - 1 else Latest(init, a))
            && (Latest(init, a) >= 0 ==> init[Latest(init, a)].height < b.height)
  {
  }

  lemma EntryStep(votes: Votes, version: Version, oldest: nat, newest: nat, history: History, a: Auth)
    requires history != [] && Ascending(history) && oldest <= newest <= history[|history| - 1].height
    requires var init := history[..|history| - 1];
             && EntryOf(votes, version, oldest, init, a)
             && EntryOf(votes, version, oldest, init, history[|history| - 1].proposer)
    ensures var b := history[|history| - 1];
            EntryOf(Pruned(Updated(votes, b.proposer, Effective(version, b)), newest), version, newest, history, a)
  {
    hide Ascending; hide Latest;
    LatestStep(history, a);
    LatestStep(history, history[|history| - 1].proposer);
  }

  lemma TableStep(votes: Votes, version: Version, retention: nat, history: History)
    requires history != [] && Ascending(history)
    requires TableOf(votes, version, retention, history[..|history| - 1])
    ensures var b := history[|history| - 1];
            TableOf(Pruned(Updated(votes, b.proposer, Effective(version, b)), SatSub(b.height, retention)),
                    version, retention, history)
  {
    hide EntryOf; hide Pruned; hide Updated; hide Effective;
    var init, b := history[..|history| - 1], history[|history| - 1];
    var newest := SatSub(b.height, retention);
    var oldest := if init == [] then 0 else SatSub(init[|init| - 1].height, retention);
    assert init != [] ==> init[|init| - 1].height < b.height;
    forall a
      ensures EntryOf(Pruned(Updated(votes, b.proposer, Effective(version, b)), newest), version, newest, history, a)
    {
      if init == [] {
        NoEntry(version, oldest, a);
        NoEntry(version, oldest, b.proposer);
      }
      EntryStep(votes, version, oldest, newest, history, a);
    }
  }

  lemma NoEntry(version: Version, oldest: nat, a: Auth)
    ensures EntryOf(map[], version, oldest, [], a)
  {
  }

  /** While no finalized block is above the active version, the table of a node that tracks an upgrade
      is recomputed from the history, in whichever mode the node runs. */
  lemma {:induction false} TableIsHistory(m: Manager, history: History)
    requires m.votes == map[] && m.upgrade.Some? && Ascending(history) && NoneAbove(history, m.active)
    ensures var after := FinalizedAll(m, history);
            && after == m.(votes := after.votes)
            && TableOf(after.votes, m.upgrade.value.version, m.retention, history)
  {
    hide TableOf; hide Pruned; hide Updated; hide Effective;
    if history != [] {
      TableIsHistory(m, history[..|history| - 1]);
      TableStep(FinalizedAll(m, history[..|history| - 1]).votes, m.upgrade.value.version, m.retention, history);
    } else {
      EmptyTable(m.upgrade.value.version, m.retention);
    }
  }

  /** The block is the proposer's latest, and not older than the retention period. */
  ghost predicate Counts(history: History, retention: nat, a: Auth, i: int) {
    && 0 <= i < |history| && history[i].proposer == a
    && (forall j :: i < j < |history| ==> history[j].proposer != a)
    && history[|history| - 1].height <= history[i].height + retention
  }

  /** The block carries a vote on the version. */
  ghost predicate Says(b: FinalizedBlock, version: Version, vote: Vote) {
    b.vote.Some? && b.vote.value.version == version && b.vote.value.vote == vote
  }

  ghost predicate Complies(b: FinalizedBlock, version: Version) {
    b.vote.Some? && b.vote.value.version == version && b.vote.value.compliant
  }

  /** A validator is for, against or compliant exactly if the block that counts for them says so. One whose
      block carries no vote on the version abstains and does not comply; one without such a block is not in
      the table. */
  lemma VotesAreHistory(m: Manager, history: History, a: Auth)
    requires m.votes == map[] && m.upgrade.Some? && Ascending(history) && NoneAbove(history, m.active)
    ensures var votes, v := FinalizedAll(m, history).votes, m.upgrade.value.version;
            && (a in Ayes(votes) <==> exists i :: Counts(history, m.retention, a, i) && Says(history[i], v, Aye))
            && (a in Nays(votes) <==> exists i :: Counts(history, m.retention, a, i) && Says(history[i], v, Nay))
            && (a in Compliant(votes) <==> exists i :: Counts(history, m.retention, a, i) && Complies(history[i], v))
            && (a in Abstained(votes) <==>
                  exists i :: Counts(history, m.retention, a, i) && !Says(history[i], v, Aye) && !Says(history[i], v, Nay))
            && (a in votes <==> exists i :: Counts(history, m.retention, a, i))
  {
    hide FinalizedAll; hide Ascending; hide NoneAbove; hide Latest;
    TableIsHistory(m, history);
    var votes := FinalizedAll(m, history).votes;
    if history != [] {
      var oldest, i := SatSub(history[|history| - 1].height, m.retention), Latest(history, a);
      assert EntryOf(votes, m.upgrade.value.version, oldest, history, a);
      OneCounts(history, m.retention, a);
    }
  }

  lemma OneCounts(history: History, retention: nat, a: Auth)
    requires history != []
    ensures forall i :: Counts(history, retention, a, i) <==>
                          i == Latest(history, a) >= 0 && SatSub(history[|history| - 1].height, retention) <= history[i].height
  {
  }

  lemma EmptyTable(version: Version, retention: nat)
    ensures TableOf(map[], version, retention, [])
  {
  }

  /** So nodes that track one version with one retention period hold the same table. */
  lemma SameTables(m: Manager, n: Manager, history: History)
    requires m.votes == map[] && n.votes == map[] && m.upgrade.Some? && n.upgrade.Some?
    requires m.upgrade.value.version == n.upgrade.value.version && m.retention == n.retention
    requires Ascending(history) && NoneAbove(history, m.active) && NoneAbove(history, n.active)
    ensures FinalizedAll(m, history).votes == FinalizedAll(n, history).votes
  {
    hide TableOf; hide FinalizedAll;
    TableIsHistory(m, history);
    TableIsHistory(n, history);
    TableUnique(FinalizedAll(m, history).votes, FinalizedAll(n, history).votes, m.upgrade.value.version, m.retention, history);
  }
}
