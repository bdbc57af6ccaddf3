/** The window of recent Bitcoin checkpoints and its synchronizer. */
module Checkpoints {
  import opened Blocks
  import opened Bitcoin
  import opened Common

  const USIZE := 0x1_0000_0000_0000_0000

  datatype Checkpoint = Checkpoint(header: Header, height: nat)

  /** The depths kept, from `lowest` to `highest`, and their number. */
  datatype Params = Params(strong: nat, lowest: nat, highest: nat, limit: nat)
  {
    ghost predicate Valid() {
      1 <= lowest <= strong <= highest && limit == highest - lowest + 1
    }
  }

  datatype ParamsError = ZeroStrongDepth | WeakCountTooBig | ParamsTooLarge

  datatype ParamsResult = ParamsOk(params: Params) | ParamsErr(error: ParamsError)

  function TryNew(strong: nat, historical: nat, weak: nat): (r: ParamsResult)
    ensures r.ParamsOk? <==> weak < strong && strong + historical < USIZE && historical + weak + 1 < USIZE
    ensures r.ParamsOk? ==> r.params.Valid() && r.params.strong == strong && r.params.limit == historical + 1 + weak
    ensures r.ParamsOk? ==> r.params.lowest == strong - weak && r.params.highest == strong + historical
    ensures r == ParamsErr(ZeroStrongDepth) <==> strong == 0
    ensures r == ParamsErr(WeakCountTooBig) <==> 0 < strong <= weak
  {
    if strong == 0 then ParamsErr(ZeroStrongDepth)
    else if weak >= strong then ParamsErr(WeakCountTooBig)
    else
      var from, to := strong - weak, strong + historical;
      if to >= USIZE || to - from + 1 >= USIZE then ParamsErr(ParamsTooLarge)
      else ParamsOk(Params(strong, from, to, to - from + 1))
  }

  /** The window after a checkpoint is added. */
  function Pushed(limit: nat, window: seq<Checkpoint>, c: Checkpoint): seq<Checkpoint> {
    (if |window| == limit && window != [] then window[1..] else window) + [c]
  }

  predicate Connects(window: seq<Checkpoint>, header: Header) {
    window == [] || header.prev == window[|window| - 1].header.Hash()
  }

  class BitcoinCheckpointsChain {
    const params: Params
    var checkpoints: seq<Checkpoint>

    constructor (params: Params)
      ensures this.params == params && checkpoints == []
    {
      this.params, checkpoints := params, [];
    }

    /** Adds a checkpoint that connects to the newest one, dropping the oldest one when full. */
    method Push(c: Checkpoint) returns (stale: bool)
      modifies this
      ensures stale == !Connects(old(checkpoints), c.header)
      ensures checkpoints == if stale then old(checkpoints) else Pushed(params.limit, old(checkpoints), c)
    {
      if checkpoints != [] && c.header.prev != checkpoints[|checkpoints| - 1].header.Hash() {
        return true;
      }
      var more := checkpoints;
      if |more| == params.limit && more != [] {
        more := more[1..];
      }
      checkpoints := more + [c];
      return false;
    }

    function GetByConfirmationDepth(depth: nat): Option<Checkpoint>
      reads this
    {
      AtDepth(params, checkpoints, depth)
    }

    function Strong(): Option<Checkpoint>
      reads this
    {
      GetByConfirmationDepth(params.strong)
    }

    method Clear()
      modifies this
      ensures checkpoints == []
    {
      checkpoints := [];
    }
  }

  function AtDepth(p: Params, window: seq<Checkpoint>, depth: nat): Option<Checkpoint> {
    if depth < p.lowest || p.highest < depth || window == [] then None
    else
      var fromBack := depth - p.lowest;
      if fromBack >= |window| then None else Some(window[|window| - 1 - fromBack])
  }

  // ---------------------------------------------------------------- one pass of the synchronizer

  /** What the node answers during a pass: the height of its tip and the header at each height. */
  datatype Node = Node(tip: Option<nat>, header: nat -> Option<Header>)

  datatype State = State(window: seq<Checkpoint>, last: Option<nat>)

  datatype Result = Synced(count: nat) | StaleBlock | RpcFailed

  /** The window after the first `n` heights from `from`, and what stopped the walk there, if anything. */
  datatype Walk = Walk(window: seq<Checkpoint>, stopped: Option<Result>)

  ghost function Walked(limit: nat, window: seq<Checkpoint>, node: Node, from: nat, n: nat): Walk {
    if n == 0 then Walk(window, None)
    else
      var before, height := Walked(limit, window, node, from, n - 1), from + n - 1;
      var answer := node.header(height);
      if before.stopped.Some? then before
      else if answer.None? then Walk(before.window, Some(RpcFailed))
      else if !Connects(before.window, answer.value) then Walk(before.window, Some(StaleBlock))
      else Walk(Pushed(limit, before.window, Checkpoint(answer.value, height % U32)), None)
  }

  function LastOr0(last: Option<nat>): nat {
    if last.Some? then last.value else 0
  }

  datatype Plan = Nothing | Remember | Fetch(from: nat, count: nat)

  /** Which heights a pass fetches, given the last synced height and the tip. */
  function PlanFor(p: Params, last: Option<nat>, tip: nat): Plan
    requires p.Valid()
  {
    if tip <= LastOr0(last) then Nothing
    else if tip < p.lowest then Remember
    else
      var available := tip + 1 - p.lowest;
      var already := SatSub(LastOr0(last) + 1, p.lowest);
      var need := SatSub(available, already);
      if need == 0 then Remember
      else
        var count := if need < p.limit then need else p.limit;
        var top := SatSub(tip, p.lowest - 1);
        var from := SatSub(top, count - 1);
        Fetch(from, top + 1 - from)
  }

  ghost function Passed(p: Params, s: State, node: Node): (State, Result)
    requires p.Valid()
  {
    if node.tip.None? then (s, RpcFailed)
    else
      var plan := PlanFor(p, s.last, node.tip.value);
      match plan
      case Nothing => (s, Synced(0))
      case Remember => (State(s.window, node.tip), Synced(0))
      case Fetch(from, count) =>
        var walk := Walked(p.limit, s.window, node, from, count);
        if walk.stopped.Some? then (State(walk.window, s.last), walk.stopped.value)
        else (State(walk.window, node.tip), Synced(count))
  }

  /** A stale block clears the window and the last synced height; other failures keep both. */
  ghost function Handled(s: State, r: Result): State {
    if r.StaleBlock? then State([], None) else s
  }

  ghost function Step(p: Params, s: State, node: Node): State
    requires p.Valid()
  {
    var (s', r) := Passed(p, s, node);
    Handled(s', r)
  }

  // ---------------------------------------------------------------- what every pass keeps

  /** The height of a block: the number of its ancestors. */
  ghost function Level(header: Header): nat {
    BlocksBelow(header.prev)
  }

  /** A block the node reports at a height has that many ancestors. */
  ghost predicate Truthful(node: Node) {
    forall h :: node.header(h).Some? ==> Level(node.header(h).value) == h
  }

  ghost predicate WindowOk(limit: nat, window: seq<Checkpoint>) {
    && |window| <= limit
    && (forall i :: 0 < i < |window| ==> window[i].header.prev == window[i - 1].header.Hash())
    && (forall i :: 0 <= i < |window| ==> 1 <= Level(window[i].header) && window[i].height == Level(window[i].header) % U32)
  }

  function Min(a: int, b: int): int {
    if a < b then a else b
  }

  /** A window synced up to a tip reaches at least the highest block then confirmed, and is as long
      as the blocks then available allow. */
  ghost predicate Inv(p: Params, s: State) {
    && WindowOk(p.limit, s.window)
    && (s.last.Some? && p.lowest <= s.last.value ==>
          && s.window != [] && s.last.value + 1 - p.lowest <= Level(s.window[|s.window| - 1].header)
          && Min(p.limit, s.last.value + 1 - p.lowest) <= |s.window|)
  }

  lemma PushKeeps(limit: nat, window: seq<Checkpoint>, header: Header)
    requires 1 <= limit && WindowOk(limit, window) && Connects(window, header) && 1 <= Level(header)
    ensures var more := Pushed(limit, window, Checkpoint(header, Level(header) % U32));
            && WindowOk(limit, more) && |more| == Min(limit, |window| + 1) && more[|more| - 1].header == header
    ensures window != [] ==> Level(header) == Level(window[|window| - 1].header) + 1
    ensures |window| <= limit
  {
  }

  /** How a walk leaves the window: still linked, no shorter, and ending in the last block fetched. */
  ghost predicate Grown(limit: nat, window: seq<Checkpoint>, node: Node, from: nat, n: nat, walk: Walk) {
    && WindowOk(limit, walk.window) && |window| <= |walk.window|
    && (window != [] ==> Level(window[|window| - 1].header) <= Level(walk.window[|walk.window| - 1].header))
    && (walk.stopped.None? ==>
          && |walk.window| == Min(limit, |window| + n)
          && (n > 0 ==> walk.window != [] && node.header(from + n - 1) == Some(walk.window[|walk.window| - 1].header)))
  }

  lemma {:induction false} WalkKeeps(limit: nat, window: seq<Checkpoint>, node: Node, from: nat, n: nat)
    requires 1 <= limit && 1 <= from && WindowOk(limit, window) && Truthful(node)
    ensures Grown(limit, window, node, from, n, Walked(limit, window, node, from, n))
  {
    hide WindowOk; hide Truthful; hide Connects; hide Pushed; hide Level;
    if n == 0 {
      WithinLimit(limit, window);
    } else {
      WalkKeeps(limit, window, node, from, n - 1);
      var before, answer := Walked(limit, window, node, from, n - 1), node.header(from + n - 1);
      if before.stopped.None? && answer.Some? && Connects(before.window, answer.value) {
        TruthfulAt(node, from + n - 1);
        PushKeeps(limit, before.window, answer.value);
      }
    }
  }

  lemma WithinLimit(limit: nat, window: seq<Checkpoint>)
    requires WindowOk(limit, window)
    ensures |window| <= limit
  {
  }

  /** The heights fetched end at the highest confirmed block and are those not synced yet, as far
      as the window has room; the branch that has nothing to fetch is only taken below `lowest`. */
  lemma PlanIsNewest(p: Params, last: Option<nat>, tip: nat)
    requires p.Valid() && LastOr0(last) < tip && p.lowest <= tip
    ensures var top := tip + 1 - p.lowest;
            var plan := PlanFor(p, last, tip);
            && plan.Fetch? && 1 <= plan.from && plan.from + plan.count == top + 1
            && plan.count == Min(p.limit, top - SatSub(LastOr0(last) + 1, p.lowest)) >= 1
  {
  }

  lemma PassKeeps(p: Params, s: State, node: Node)
    requires p.Valid() && Inv(p, s) && Truthful(node)
    ensures Inv(p, Step(p, s, node))
  {
    hide WindowOk; hide Walked; hide Truthful;
    if node.tip.Some? && LastOr0(s.last) < node.tip.value && p.lowest <= node.tip.value {
      PlanIsNewest(p, s.last, node.tip.value);
      var plan := PlanFor(p, s.last, node.tip.value);
      WalkKeeps(p.limit, s.window, node, plan.from, plan.count);
      TruthfulAt(node, plan.from + plan.count - 1);
    }
    EmptyOk(p.limit);
  }

  lemma TruthfulAt(node: Node, h: nat)
    requires Truthful(node)
    ensures node.header(h).Some? ==> Level(node.header(h).value) == h
  {
  }

  lemma EmptyOk(limit: nat)
    ensures WindowOk(limit, [])
  {
  }

  // ---------------------------------------------------------------- passes over a stable chain

  /** A node that answers from one chain throughout a pass. */
  ghost function NodeOf(chain: seq<Header>): Node
    requires chain != []
  {
    Node(Some(|chain| - 1), (h: nat) => if h < |chain| then Some(chain[h]) else None)
  }

  lemma {:induction false} LevelIsHeight(chain: seq<Header>, h: nat)
    requires HeaderChain(chain) && h < |chain|
    ensures Level(chain[h]) == h
  {
    if h > 0 {
      LevelIsHeight(chain, h - 1);
    }
  }

  lemma ChainIsTruthful(chain: seq<Header>)
    requires HeaderChain(chain) && chain != []
    ensures Truthful(NodeOf(chain))
  {
    hide HeaderChain; hide Level;
    forall h: nat | h < |chain|
      ensures Level(chain[h]) == h
    {
      LevelIsHeight(chain, h);
    }
  }

  ghost function HeadersOf(window: seq<Checkpoint>): seq<Header> {
    seq(|window|, i requires 0 <= i < |window| => window[i].header)
  }

  /** The window is the `|window|` blocks of the chain up to height `top`. */
  ghost predicate EndsAt(chain: seq<Header>, window: seq<Checkpoint>, top: int) {
    |window| <= top < |chain| && forall i :: 0 <= i < |window| ==>
                                       var h := top - |window| + 1 + i; window[i] == Checkpoint(chain[h], h % U32)
  }

  /** The window holds the newest of the sufficiently confirmed blocks, as many as there is room for. */
  ghost predicate Exact(p: Params, chain: seq<Header>, window: seq<Checkpoint>) {
    var available := if |chain| < p.lowest then 0 else |chain| - p.lowest;
    |window| == Min(p.limit, available) && (window != [] ==> EndsAt(chain, window, available))
  }

  /** A linked window whose newest block is on the chain is a slice of the chain. */
  lemma LinkedIsSlice(limit: nat, window: seq<Checkpoint>, chain: seq<Header>, top: nat)
    requires WindowOk(limit, window) && HeaderChain(chain) && top < |chain|
    requires window != [] && window[|window| - 1].header == chain[top]
    ensures EndsAt(chain, window, top)
  {
    hide HeaderChain; hide Level; hide LinkedHeaders;
    var headers := HeadersOf(window);
    assert LinkedHeaders(headers) by { HeadersLinked(limit, window); }
    var n := |window|;
    LinkedBack(chain, headers, n - 1, top, n - 1);
    LevelIsHeight(chain, top - (n - 1));
    forall i | 0 <= i < n
      ensures var h := top - n + 1 + i; 0 <= h && window[i] == Checkpoint(chain[h], h % U32)
    {
      LinkedBack(chain, headers, n - 1, top, n - 1 - i);
      LevelIsHeight(chain, top - n + 1 + i);
    }
  }

  lemma HeadersLinked(limit: nat, window: seq<Checkpoint>)
    requires WindowOk(limit, window)
    ensures LinkedHeaders(HeadersOf(window))
  {
    hide Level;
    var headers := HeadersOf(window);
    forall i | 0 <= i < |headers| - 1
      ensures headers[i + 1].prev == headers[i].Hash()
    {
      assert window[i + 1].header.prev == window[i + 1 - 1].header.Hash();
    }
  }

  /** The walk over a stable chain stops exactly if its first block does not connect. */
  lemma {:induction false} WalkOverChain(limit: nat, window: seq<Checkpoint>, chain: seq<Header>, from: nat, n: nat)
    requires 1 <= limit && 1 <= from && from + n <= |chain| && WindowOk(limit, window) && HeaderChain(chain) && n > 0
    ensures Walked(limit, window, NodeOf(chain), from, n).stopped ==
              if Connects(window, chain[from]) then None else Some(StaleBlock)
  {
    hide WindowOk; hide Grown; hide Level; hide Truthful;
    if n > 1 {
      WalkOverChain(limit, window, chain, from, n - 1);
      ChainIsTruthful(chain);
      WalkKeeps(limit, window, NodeOf(chain), from, n - 1);
      LastFetched(limit, window, NodeOf(chain), from, n - 1);
      assert chain[from + n - 1].prev == chain[from + n - 2].Hash();
    }
  }

  lemma LastFetched(limit: nat, window: seq<Checkpoint>, node: Node, from: nat, n: nat)
    requires var walk := Walked(limit, window, node, from, n); Grown(limit, window, node, from, n, walk)
    ensures var walk := Walked(limit, window, node, from, n);
            n > 0 && walk.stopped.None? ==>
              walk.window != [] && node.header(from + n - 1) == Some(walk.window[|walk.window| - 1].header)
  {
  }

  /** A pass over a stable chain that syncs leaves exactly the newest blocks, including those it did
      not fetch; it syncs exactly if its first block connects, and is stale otherwise. */
  lemma PassIsExact(p: Params, s: State, chain: seq<Header>)
    requires p.Valid() && Inv(p, s) && HeaderChain(chain) && LastOr0(s.last) + 1 < |chain| && p.lowest < |chain|
    ensures var (s', r) := Passed(p, s, NodeOf(chain));
            var plan := PlanFor(p, s.last, |chain| - 1);
            && plan.Fetch? && 1 <= plan.from < |chain|
            && (Connects(s.window, chain[plan.from]) ==>
                  r == Synced(plan.count) && Exact(p, chain, s'.window) && s'.last == Some(|chain| - 1))
            && (!Connects(s.window, chain[plan.from]) ==> r == StaleBlock)
  {
    hide WindowOk; hide Walked; hide Truthful; hide HeaderChain; hide EndsAt; hide Connects; hide Level;
    PlanIsNewest(p, s.last, |chain| - 1);
    var plan := PlanFor(p, s.last, |chain| - 1);
    var top := |chain| - p.lowest;
    ChainIsTruthful(chain);
    WalkKeeps(p.limit, s.window, NodeOf(chain), plan.from, plan.count);
    WalkOverChain(p.limit, s.window, chain, plan.from, plan.count);
    var walk := Walked(p.limit, s.window, NodeOf(chain), plan.from, plan.count);
    if walk.stopped.None? {
      LinkedIsSlice(p.limit, walk.window, chain, top);
      EndsBelow(chain, walk.window, top);
    }
  }

  lemma EndsBelow(chain: seq<Header>, window: seq<Checkpoint>, top: nat)
    requires EndsAt(chain, window, top)
    ensures |window| <= top
  {
  }

  /** Whatever passes went before, at most two passes over a stable chain that is higher than the last
      synced height and has a confirmed block leave exactly the newest blocks. */
  lemma TwoPassesConverge(p: Params, s: State, chain: seq<Header>)
    requires p.Valid() && Inv(p, s) && HeaderChain(chain) && LastOr0(s.last) + 1 < |chain| && p.lowest < |chain|
    ensures var once := Step(p, s, NodeOf(chain));
            var twice := Step(p, once, NodeOf(chain));
            && (Exact(p, chain, once.window) || once == State([], None))
            && Exact(p, chain, twice.window) && twice.last == Some(|chain| - 1)
  {
    hide Exact; hide WindowOk; hide HeaderChain; hide Walked;
    PassIsExact(p, s, chain);
    EmptyOk(p.limit);
    PassIsExact(p, State([], None), chain);
  }

  lemma FromBack(chain: seq<Header>, window: seq<Checkpoint>, top: int, k: nat)
    requires EndsAt(chain, window, top) && k < |window|
    ensures 1 <= top - k < |chain| && window[|window| - 1 - k] == Checkpoint(chain[top - k], (top - k) % U32)
  {
    var i := |window| - 1 - k;
    assert top - |window| + 1 + i == top - k;
  }

  /** On an exact window, depth `d` is the block at height `tip - d + 1`, for every depth kept that
      the chain is high enough for. */
  lemma DepthIsHeight(p: Params, chain: seq<Header>, window: seq<Checkpoint>, depth: nat)
    requires p.Valid() && Exact(p, chain, window) && chain != []
    ensures var tip := |chain| - 1;
            AtDepth(p, window, depth) ==
              if p.lowest <= depth <= p.highest && depth <= tip
              then Some(Checkpoint(chain[tip - depth + 1], (tip - depth + 1) % U32)) else None
  {
    hide EndsAt;
    if p.lowest <= depth && depth - p.lowest < |window| {
      FromBack(chain, window, |chain| - p.lowest, depth - p.lowest);
      assert |chain| - p.lowest - (depth - p.lowest) == |chain| - 1 - depth + 1;
    }
  }

  /** So the strong checkpoint is there as soon as the chain is high enough. */
  lemma StrongIsAvailable(c: BitcoinCheckpointsChain, chain: seq<Header>)
    requires c.params.Valid() && Exact(c.params, chain, c.checkpoints) && chain != []
    ensures c.Strong() == if c.params.strong < |chain|
                          then Some(Checkpoint(chain[|chain| - c.params.strong], (|chain| - c.params.strong) % U32)) else None
  {
    hide Exact; hide AtDepth;
    DepthIsHeight(c.params, chain, c.checkpoints, c.params.strong);
    assert |chain| - 1 - c.params.strong + 1 == |chain| - c.params.strong;
  }

  /** While the chain only grows, a pass follows it without a reset exactly if it grew by no more
      blocks than the window holds. */
  lemma FollowsGrowth(p: Params, s: State, before: seq<Header>, chain: seq<Header>)
    requires p.Valid() && HeaderChain(chain) && before < chain && p.lowest < |before|
    requires Inv(p, s) && Exact(p, before, s.window) && s.last == Some(|before| - 1)
    ensures Step(p, s, NodeOf(chain)) == State([], None) <==> |chain| - |before| > p.limit
    ensures |chain| - |before| <= p.limit ==> Exact(p, chain, Step(p, s, NodeOf(chain)).window)
  {
    hide WindowOk; hide Walked; hide EndsAt; hide Level;
    PassIsExact(p, s, chain);
    PlanIsNewest(p, s.last, |chain| - 1);
    var from := PlanFor(p, s.last, |chain| - 1).from;
    FromBack(before, s.window, |before| - p.lowest, 0);
    assert chain[|before| - p.lowest] == before[|before| - p.lowest];
    LevelIsHeight(chain, from - 1);
    LevelIsHeight(chain, |before| - p.lowest);
    assert chain[from].prev == chain[from - 1].Hash();
  }

  /** Without a confirmed block nothing is fetched, so blocks that a failed pass left from a longer
      chain stay. */
  lemma NothingConfirmed(p: Params, s: State, chain: seq<Header>)
    requires p.Valid() && chain != [] && |chain| <= p.lowest
    ensures Step(p, s, NodeOf(chain)).window == s.window
    ensures Exact(p, chain, s.window) <==> s.window == []
  {
  }

  /** A chain that is not above the last synced height is not looked at, so the window is right exactly
      if its newest block is the chain's highest confirmed one. */
  lemma NotAbove(p: Params, s: State, chain: seq<Header>)
    requires p.Valid() && Inv(p, s) && HeaderChain(chain) && p.lowest < |chain| <= LastOr0(s.last) + 1
    ensures Step(p, s, NodeOf(chain)) == s
    ensures Exact(p, chain, s.window) <==> Newest(s.window) == Some(chain[|chain| - p.lowest])
  {
    hide WindowOk; hide HeaderChain; hide Level;
    var top := |chain| - p.lowest;
    if Newest(s.window) == Some(chain[top]) {
      WithinLimit(p.limit, s.window);
      LinkedIsSlice(p.limit, s.window, chain, top);
    }
  }

  function Newest(window: seq<Checkpoint>): Option<Header> {
    if window == [] then None else Some(window[|window| - 1].header)
  }

  /** Whether passes over a chain lead to its newest blocks: without a confirmed block the window must
      be empty, and otherwise the chain be above the last synced height or the newest block on it. */
  ghost predicate Heals(p: Params, s: State, chain: seq<Header>)
    requires p.Valid() && chain != []
  {
    if |chain| <= p.lowest then s.window == []
    else LastOr0(s.last) < |chain| - 1 || Newest(s.window) == Some(chain[|chain| - p.lowest])
  }

  /** The state after `n` passes over a stable chain. */
  ghost function Repeated(p: Params, s: State, chain: seq<Header>, n: nat): State
    requires p.Valid() && chain != []
  {
    if n == 0 then s else Step(p, Repeated(p, s, chain, n - 1), NodeOf(chain))
  }

  /** From then on every pass leaves the window as it is. */
  ghost predicate AtRest(p: Params, s: State, chain: seq<Header>) {
    |chain| <= p.lowest || |chain| <= LastOr0(s.last) + 1
  }

  lemma RestStays(p: Params, s: State, chain: seq<Header>)
    requires p.Valid() && chain != [] && AtRest(p, s, chain)
    ensures Step(p, s, NodeOf(chain)).window == s.window && AtRest(p, Step(p, s, NodeOf(chain)), chain)
  {
  }

  /** Self-healing, exactly: from any state, two or more passes over a stable chain leave its newest
      confirmed blocks if and only if `Heals` says so of the state before them. */
  lemma {:induction false} PassesConverge(p: Params, s: State, chain: seq<Header>, n: nat)
    requires p.Valid() && Inv(p, s) && HeaderChain(chain) && chain != [] && n >= 2
    ensures Exact(p, chain, Repeated(p, s, chain, n).window) <==> Heals(p, s, chain)
    ensures AtRest(p, Repeated(p, s, chain, n), chain)
    decreases n
  {
    hide Exact; hide Inv; hide HeaderChain; hide Step; hide Newest;
    if n > 2 {
      PassesConverge(p, s, chain, n - 1);
      RestStays(p, Repeated(p, s, chain, n - 1), chain);
    } else {
      var once := Step(p, s, NodeOf(chain));
      assert Repeated(p, s, chain, 1) == once && Repeated(p, s, chain, 2) == Step(p, once, NodeOf(chain)) by {
        assert Repeated(p, s, chain, 0) == s;
      }
      if |chain| <= p.lowest {
        NothingConfirmed(p, s, chain);
        NothingConfirmed(p, once, chain);
      } else if |chain| <= LastOr0(s.last) + 1 {
        NotAbove(p, s, chain);
      } else {
        TwoPassesConverge(p, s, chain);
      }
    }
  }

  /** A reorganisation that keeps the height is never followed. */
  lemma SameHeightReorganisation() returns (p: Params, before: seq<Header>, chain: seq<Header>)
    ensures p.Valid() && HeaderChain(before) && HeaderChain(chain) && |before| == |chain| == 2
    ensures var s := Step(p, State([], None), NodeOf(before));
            Exact(p, before, s.window) && forall n :: n >= 2 ==> !Exact(p, chain, Repeated(p, s, chain, n).window)
  {
    p := Params(1, 1, 1, 1);
    var genesis := Header(ForeignHeader(0), ForeignNode(0), 0);
    before := [genesis, Header(genesis.Hash(), ForeignNode(1), 0)];
    chain := [genesis, Header(genesis.Hash(), ForeignNode(2), 0)];
    var empty := State([], None);
    var s := Step(p, empty, NodeOf(before));
    ChainIsTruthful(before);
    PassKeeps(p, empty, NodeOf(before));
    PassIsExact(p, empty, before);
    assert Exact(p, before, s.window) && s.last == Some(1);
    hide Step;
    FromBack(before, s.window, 1, 0);
    forall n | n >= 2
      ensures !Exact(p, chain, Repeated(p, s, chain, n).window)
    {
      PassesConverge(p, s, chain, n);
    }
  }

  /** Such blocks do occur: a pass that fails after its first block, then a shorter chain. */
  lemma LeftoverBlock() returns (p: Params, node: Node, chain: seq<Header>)
    ensures p.Valid() && Truthful(node) && HeaderChain(chain) && |chain| == 2
    ensures var s := Step(p, State([], None), node);
            LastOr0(s.last) + 1 < |chain| && !Exact(p, chain, Step(p, Step(p, s, NodeOf(chain)), NodeOf(chain)).window)
  {
    p := Params(2, 2, 3, 2);
    var genesis := Header(ForeignHeader(0), ForeignNode(0), 0);
    var first := Header(genesis.Hash(), ForeignNode(1), 0);
    node := Node(Some(3), (h: nat) => if h == 1 then Some(first) else None);
    chain := [genesis, first];
    var s := Step(p, State([], None), node);
    assert PlanFor(p, None, 3) == Fetch(1, 2);
    assert Walked(2, [], node, 1, 1) == Walk([Checkpoint(first, 1)], None);
    assert Walked(2, [], node, 1, 2) == Walk([Checkpoint(first, 1)], Some(RpcFailed));
    PassKeeps(p, State([], None), node);
    NothingConfirmed(p, s, chain);
    PassKeeps(p, s, NodeOf(chain));
    NothingConfirmed(p, Step(p, s, NodeOf(chain)), chain);
  }

  // ---------------------------------------------------------------- the synchronizer

  datatype Control = WaitForNewBlock | SyncNow

  class Synchronizer {
    const checkpoints: BitcoinCheckpointsChain
    var last: Option<nat>

    ghost function View(): State
      reads this, checkpoints
    {
      State(checkpoints.checkpoints, last)
    }

    /** Starts from an empty chain of checkpoints. */
    constructor (checkpoints: BitcoinCheckpointsChain)
      requires checkpoints.checkpoints == []
      ensures this.checkpoints == checkpoints && View() == State([], None)
      ensures Inv(checkpoints.params, View())
    {
      this.checkpoints, last := checkpoints, None;
    }

    /** Fetches the blocks that have been confirmed since the last pass and adds them. */
    method SyncNewBlocks(node: Node) returns (r: Result)
      requires checkpoints.params.Valid()
      modifies this, checkpoints
      ensures (View(), r) == Passed(checkpoints.params, old(View()), node)
      ensures r.Synced? ==> node.tip.Some? && last == if LastOr0(old(last)) < node.tip.value then node.tip else old(last)
      ensures !r.Synced? ==> last == old(last)
      ensures node.tip.None? ==> r == RpcFailed && View() == old(View())
    {
      hide Connects; hide Pushed;
      if node.tip.None? {
        return RpcFailed;
      }
      var p, tip := checkpoints.params, node.tip.value;
      match PlanFor(p, last, tip) {
        case Nothing => return Synced(0);
        case Remember =>
          last := Some(tip);
          return Synced(0);
        case Fetch(from, count) =>
          ghost var window := checkpoints.checkpoints;
          for n := 0 to count
            invariant Walked(p.limit, window, node, from, n) == Walk(checkpoints.checkpoints, None)
            invariant last == old(last)
          {
            var header := node.header(from + n);
            if header.None? {
              WalkStops(p.limit, window, node, from, n + 1, count);
              return RpcFailed;
            }
            var stale := checkpoints.Push(Checkpoint(header.value, (from + n) % U32));
            if stale {
              WalkStops(p.limit, window, node, from, n + 1, count);
              return StaleBlock;
            }
          }
          last := Some(tip);
          return Synced(count);
      }
    }

    /** Resets everything after a stale block, and decides whether to sync again at once. */
    method HandleResult(r: Result) returns (control: Control)
      modifies this, checkpoints
      ensures View() == Handled(old(View()), r)
      ensures control.WaitForNewBlock? <==> r.Synced?
    {
      match r {
        case Synced(_) => return WaitForNewBlock;
        case StaleBlock =>
          checkpoints.Clear();
          last := None;
          return SyncNow;
        case RpcFailed => return SyncNow;
      }
    }

    /** Passes over whatever the node answers, through reorganisations and failures, and then two passes
        over a stable chain, which lead to its newest blocks exactly if `Heals` says so. */
    method Sync(nodes: seq<Node>, stable: Node, ghost chain: seq<Header>)
      requires checkpoints.params.Valid() && Inv(checkpoints.params, View())
      requires forall node :: node in nodes ==> Truthful(node)
      requires HeaderChain(chain) && chain != [] && stable == NodeOf(chain)
      modifies this, checkpoints
      ensures Inv(checkpoints.params, View())
      ensures View() == Steps(checkpoints.params, old(View()), nodes + [stable, stable])
      ensures Exact(checkpoints.params, chain, checkpoints.checkpoints) <==>
                Heals(checkpoints.params, Steps(checkpoints.params, old(View()), nodes), chain)
    {
      hide Inv; hide Truthful; hide Passed; hide Handled; hide Exact; hide HeaderChain; hide Heals;
      ghost var p := checkpoints.params;
      for i := 0 to |nodes|
        invariant Inv(p, View())
        invariant View() == Steps(p, old(View()), nodes[..i])
      {
        assert nodes[..i + 1][..i] == nodes[..i];
        PassKeeps(p, View(), nodes[i]);
        var r := SyncNewBlocks(nodes[i]);
        var _ := HandleResult(r);
      }
      assert nodes[..|nodes|] == nodes;
      ghost var s := View();
      ChainIsTruthful(chain);
      PassKeeps(p, s, stable);
      PassKeeps(p, Step(p, s, stable), stable);
      PassesConverge(p, s, chain, 2);
      assert Repeated(p, s, chain, 2) == Step(p, Step(p, s, stable), stable) by {
        assert Repeated(p, s, chain, 0) == s && Repeated(p, s, chain, 1) == Step(p, s, stable);
      }
      var r := SyncNewBlocks(stable);
      var _ := HandleResult(r);
      r := SyncNewBlocks(stable);
      var _ := HandleResult(r);
      assert (nodes + [stable])[..|nodes|] == nodes;
      assert (nodes + [stable, stable])[..|nodes| + 1] == nodes + [stable];
    }
  }

  ghost function Steps(p: Params, s: State, nodes: seq<Node>): State
    requires p.Valid()
  {
    if nodes == [] then s else Step(p, Steps(p, s, nodes[..|nodes| - 1]), nodes[|nodes| - 1])
  }

  lemma {:induction false} WalkStops(limit: nat, window: seq<Checkpoint>, node: Node, from: nat, k: nat, n: nat)
    requires k <= n && Walked(limit, window, node, from, k).stopped.Some?
    ensures Walked(limit, window, node, from, n) == Walked(limit, window, node, from, k)
  {
    if k < n {
      WalkStops(limit, window, node, from, k, n - 1);
    }
  }
}
