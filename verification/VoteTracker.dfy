/** The last vote of each validator on a network upgrade. */
module VoteTracker {
  import opened Common

  type Auth = nat

  datatype Vote = Aye | Nay | Abstain

  datatype VoteEntry = VoteEntry(vote: Vote, compliant: bool, height: nat)

  type Votes = map<Auth, VoteEntry>

  function Ayes(votes: Votes): set<Auth> {
    set a | a in votes && votes[a].vote == Aye
  }

  function Nays(votes: Votes): set<Auth> {
    set a | a in votes && votes[a].vote == Nay
  }

  function Abstained(votes: Votes): set<Auth> {
    set a | a in votes && votes[a].vote == Abstain
  }

  function Compliant(votes: Votes): set<Auth> {
    set a | a in votes && votes[a].compliant
  }

  /** The table after a vote: a vote replaces only one cast at a lower height. */
  function Updated(votes: Votes, auth: Auth, entry: VoteEntry): Votes {
    if auth in votes && entry.height <= votes[auth].height then votes else votes[auth := entry]
  }

  /** The table without the votes cast below the given height. */
  function Pruned(votes: Votes, height: nat): Votes {
    map a | a in votes && height <= votes[a].height :: votes[a]
  }

  ghost function CastBelow(votes: Votes, height: nat): set<Auth> {
    set a | a in votes && votes[a].height < height
  }

  lemma PrunedAndBelow(votes: Votes, height: nat)
    ensures |votes| == |Pruned(votes, height)| + |CastBelow(votes, height)|
  {
    var left, gone := Pruned(votes, height).Keys, CastBelow(votes, height);
    assert votes.Keys == left + gone;
    assert |left + gone| == |left| + |gone|;
  }

  function TotalVotes(votes: Votes, minimum: nat): nat {
    if |votes| < minimum then minimum else |votes|
  }

  function DivCeil(a: nat, b: nat): nat
    requires b > 0
  {
    (a + b - 1) / b
  }

  /** The approval rate in percent, rounded up. */
  function ApprovalRate(count: nat, total: nat): nat
    requires total > 0
  {
    DivCeil(count * 100, total)
  }

  lemma MultiplyBoth(a: nat, b: nat, c: nat)
    requires a <= b
    ensures a * c <= b * c
  {
  }

  lemma QuotientAndRest(d: nat, r: nat, b: nat, q: nat)
    requires r < b
    ensures d >= q <==> d * b + r >= q * b
  {
    if d >= q {
      MultiplyBoth(q, d, b);
    } else {
      MultiplyBoth(d + 1, q, b);
      assert (d + 1) * b == d * b + b;
    }
  }

  lemma DivisionReaches(x: nat, b: nat, q: nat)
    requires b > 0
    ensures x / b >= q <==> x >= q * b
  {
    assert x == (x / b) * b + x % b;
    QuotientAndRest(x / b, x % b, b, q);
  }

  /** The rounded rate reaches a quorum exactly if the count exceeds one percent less of the total. */
  lemma RateReachesQuorum(count: nat, total: nat, quorum: nat)
    requires total > 0 && quorum > 0
    ensures ApprovalRate(count, total) >= quorum <==> 100 * count > (quorum - 1) * total
  {
    DivisionReaches(count * 100 + total - 1, total, quorum);
    assert quorum * total == (quorum - 1) * total + total;
  }

  /** The rate is the least percentage that the count does not exceed. */
  lemma RoundedUp(count: nat, total: nat)
    requires total > 0
    ensures (ApprovalRate(count, total) - 1) * total < 100 * count <= ApprovalRate(count, total) * total
  {
    var rate := ApprovalRate(count, total);
    RateReachesQuorum(count, total, rate + 1);
    if rate > 0 {
      RateReachesQuorum(count, total, rate);
    } else {
      assert (rate - 1) * total < 0;
    }
  }

  lemma CountBoth<T>(a: set<T>, b: set<T>, all: set<T>)
    requires a <= all && b <= all
    ensures |a| + |b| <= |all| + |a * b|
  {
    SubsetCount(a + b, all);
    assert |a + b| + |a * b| == |a| + |b|;
  }

  /** When ayes and compliant votes both reach a quorum, more than `2 * quorum - 102` percent of the
      total are both. */
  lemma BothReachQuorum(votes: Votes, minimum: nat, quorum: nat)
    requires minimum > 0 && quorum > 0
    requires ApprovalRate(|Ayes(votes)|, TotalVotes(votes, minimum)) >= quorum
    requires ApprovalRate(|Compliant(votes)|, TotalVotes(votes, minimum)) >= quorum
    ensures 100 * |Ayes(votes) * Compliant(votes)| > (2 * quorum - 102) * TotalVotes(votes, minimum)
  {
    var total := TotalVotes(votes, minimum);
    var a, c := Ayes(votes), Compliant(votes);
    RateReachesQuorum(|a|, total, quorum);
    RateReachesQuorum(|c|, total, quorum);
    CountBoth(a, c, votes.Keys);
    assert (2 * quorum - 102) * total == 2 * ((quorum - 1) * total) - 100 * total;
  }

  /** No quorum above 100 percent is ever reached. */
  lemma NoQuorumAboveAll(votes: Votes, minimum: nat, group: set<Auth>, quorum: nat)
    requires minimum > 0 && quorum > 100 && group <= votes.Keys
    ensures ApprovalRate(|group|, TotalVotes(votes, minimum)) < quorum
  {
    var total := TotalVotes(votes, minimum);
    SubsetCount(group, votes.Keys);
    RateReachesQuorum(|group|, total, quorum);
    assert (quorum - 101) * total >= 0;
    assert (quorum - 1) * total == (quorum - 101) * total + 100 * total;
  }

  /** Every vote is an aye, a nay or an abstention. */
  lemma VotesAddUp(votes: Votes)
    ensures |Ayes(votes)| + |Nays(votes)| + |Abstained(votes)| == |votes|
  {
    var a, n, s := Ayes(votes), Nays(votes), Abstained(votes);
    assert a + n + s == votes.Keys;
    assert |a + n| == |a| + |n| && |a + n + s| == |a + n| + |s|;
  }

  /** The vote store kept in memory. */
  class VoteWatcher {
    var votes: Votes

    constructor ()
      ensures votes == map[]
    {
      votes := map[];
    }

    /** A validator's vote is replaced only by one cast at a higher height. */
    method UpdateUpgradingVote(auth: Auth, entry: VoteEntry)
      modifies this
      ensures votes == Updated(old(votes), auth, entry)
      ensures auth in votes && entry.height <= votes[auth].height
      ensures votes[auth] == if auth in old(votes) && entry.height <= old(votes)[auth].height then old(votes)[auth] else entry
      ensures votes - {auth} == old(votes) - {auth}
    {
      if auth in votes && votes[auth].height >= entry.height {
        return;
      }
      votes := votes[auth := entry];
    }

    /** Drops the votes cast below the height and returns how many there were. */
    method RemoveUpgradingVotes(height: nat) returns (removed: nat)
      modifies this
      ensures votes == Pruned(old(votes), height)
      ensures forall a :: a in votes <==> a in old(votes) && height <= old(votes)[a].height
      ensures forall a :: a in votes ==> votes[a] == old(votes)[a]
      ensures removed == |CastBelow(old(votes), height)|
    {
      PrunedAndBelow(votes, height);
      var total := |votes|;
      votes := map a | a in votes && height <= votes[a].height :: votes[a];
      return total - |votes|;
    }

    method ApprovalRateAyes(minimum: nat) returns (rate: nat, total: nat)
      requires minimum > 0
      ensures total == TotalVotes(votes, minimum) && rate == ApprovalRate(|Ayes(votes)|, total)
      ensures |votes| <= total && minimum <= total && (total == |votes| || total == minimum)
      ensures (rate - 1) * total < 100 * |Ayes(votes)| <= rate * total
    {
      total := if |votes| < minimum then minimum else |votes|;
      rate := DivCeil(|Ayes(votes)| * 100, total);
      RoundedUp(|Ayes(votes)|, total);
    }

    method ApprovalRateCompliance(minimum: nat) returns (rate: nat, total: nat)
      requires minimum > 0
      ensures total == TotalVotes(votes, minimum) && rate == ApprovalRate(|Compliant(votes)|, total)
      ensures |votes| <= total && minimum <= total && (total == |votes| || total == minimum)
      ensures (rate - 1) * total < 100 * |Compliant(votes)| <= rate * total
    {
      total := if |votes| < minimum then minimum else |votes|;
      rate := DivCeil(|Compliant(votes)| * 100, total);
      RoundedUp(|Compliant(votes)|, total);
    }
  }
}
