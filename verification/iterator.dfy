/** The block-range log iterator (lib/eth-log-iterator.js): the cursor, the
    observed chain head, the confirmation lag, the fetch of one safe range per
    cycle with the provider-limit split, the ordered hand-off of every log to
    the callback, and the checkpoint written only after the whole range. */
module LogIterator {
  import opened Common
  import opened Logs
  import opened Filters

  /** The widest range fetched in one cycle, in blocks past the cursor. */
  const MaxBlockRange: nat := 2000

  /** The JSON-RPC error code a provider returns when a query would yield too
      many results ("limit exceeded" in the error table of EIP-1474). */
  const LimitExceeded: int := -32005

  datatype Iterator = Iterator(
    height: nat,          // the cursor: first block not yet processed
    latest: nat,          // the last chain head observed
    confirmations: nat,
    filters: Registry,
    stopped: bool)

  /** The constructor: a missing start height or confirmation count is 0 and
      the observed head starts at '0x0'. */
  function NewIterator(startHeight: Option<nat>, confirmations: Option<nat>): (it: Iterator)
    ensures it.height == (if startHeight.Some? then startHeight.value else 0)
    ensures it.confirmations == (if confirmations.Some? then confirmations.value else 0)
    ensures it.latest == 0 && !it.stopped && it.filters == Empty && Valid(it.filters)
  {
    Iterator(
      if startHeight.Some? then startHeight.value else 0,
      0,
      if confirmations.Some? then confirmations.value else 0,
      Empty,
      false)
  }

  /** The highest block the iterator treats as final. */
  function SafeHead(it: Iterator): int {
    it.latest - it.confirmations
  }

  // ---------------------------------------------------------------------------
  // Deciding what a cycle does.

  datatype Range = Range(from: nat, to: nat)

  datatype Action = Halt | Refresh | Fetch(range: Range)

  function NextAction(it: Iterator): (a: Action)
    ensures a == Halt <==> it.stopped
    ensures a.Refresh? <==> !it.stopped && SafeHead(it) <= it.height
    ensures a.Fetch? ==>
      && a.range.from == it.height
      && a.range.from <= a.range.to <= a.range.from + MaxBlockRange
      && a.range.to <= SafeHead(it)
      && (a.range.to == a.range.from + MaxBlockRange || a.range.to == SafeHead(it))
  {
    if it.stopped then Halt
    else if SafeHead(it) <= it.height then Refresh
    else
      var safe := SafeHead(it);
      Fetch(Range(it.height, if it.height + MaxBlockRange <= safe then it.height + MaxBlockRange else safe))
  }

  /** A worked example: cursor 100, head 2200 and 12 confirmations
      give the range [100, 2100] and then [2101, 2188]. */
  lemma ExampleRanges(filters: Registry)
    ensures NextAction(Iterator(100, 2200, 12, filters, false)) == Fetch(Range(100, 2100))
    ensures NextAction(Iterator(2101, 2200, 12, filters, false)) == Fetch(Range(2101, 2188))
    ensures NextAction(Iterator(2189, 2200, 12, filters, false)) == Refresh
  {
  }

  // ---------------------------------------------------------------------------
  // Fetching one address's logs: `getLogs` with its retry and split rule.

  /** One `eth_getLogs` query: logs of `address` whose topic 0 is one of
      `topics`, in blocks `fromBlock..toBlock`. */
  datatype LogQuery = LogQuery(address: Address, topics: set<Topic>, fromBlock: int, toBlock: int)

  datatype RpcReply = LogsReply(logs: seq<Log>) | ErrorReply(code: int)

  /** The chain node: its reply to a query on a given attempt number. */
  type Provider = (LogQuery, nat) -> RpcReply

  /** The outcome of `getLogs`: the logs, an error that propagates, or still
      retrying when the fuel ran out (the source retries forever). */
  datatype Fetch = Fetched(logs: seq<Log>) | Failed(code: int) | Pending

  /** Where a limit-exceeded query is cut. As written the cut is half the
      upper bound, `Math.floor(toBlock / 2)` (Dafny's `/` on a positive divisor
      is the floor); the intended cut is the midpoint of the range. */
  function SplitPoint(v: Variant, q: LogQuery): (m: int)
    ensures v == Intended && q.fromBlock <= q.toBlock ==> q.fromBlock <= m <= q.toBlock
  {
    match v
    case AsWritten => q.toBlock / 2
    case Intended => q.fromBlock + (q.toBlock - q.fromBlock) / 2
  }

  /** As written every limit-exceeded query is split; intended, a one-block
      query is not split further and the error propagates. */
  predicate MaySplit(v: Variant, q: LogQuery) {
    v == AsWritten || q.fromBlock < q.toBlock
  }

  function Lower(q: LogQuery, m: int): LogQuery { q.(toBlock := m) }
  function Upper(q: LogQuery, m: int): LogQuery { q.(fromBlock := m + 1) }

  function GetLogs(v: Variant, p: Provider, q: LogQuery, attempt: nat, fuel: nat): (r: Fetch)
    ensures r.Failed? ==> v == Intended && r.code == LimitExceeded
    decreases fuel
  {
    if fuel == 0 then Pending
    else match p(q, attempt)
      case LogsReply(logs) => Fetched(logs)
      case ErrorReply(code) =>
        if code == LimitExceeded && MaySplit(v, q) then
          var m := SplitPoint(v, q);
          match GetLogs(v, p, Lower(q, m), 0, fuel - 1)
          case Fetched(a) =>
            (match GetLogs(v, p, Upper(q, m), 0, fuel - 1)
             case Fetched(b) => Fetched(a + b)
             case other => other)
          case other => other
        else if code == LimitExceeded then Failed(code)
        else GetLogs(v, p, q, attempt + 1, fuel - 1)
  }

  // ---------------------------------------------------------------------------
  // What an honest node returns, and what the split rule makes of it.

  predicate Matches(q: LogQuery, l: Log) {
    && l.address == q.address
    && |l.topics| > 0 && l.topics[0] in q.topics
    && q.fromBlock <= l.blockNumber <= q.toBlock
  }

  /** The logs of `chain` a query asks for, in chain order. */
  function Select(chain: seq<Log>, q: LogQuery): (r: seq<Log>)
    ensures forall l :: l in r <==> l in chain && Matches(q, l)
  {
    if chain == [] then []
    else (if Matches(q, chain[0]) then [chain[0]] else []) + Select(chain[1..], q)
  }

  /** A node whose every successful reply is exactly the selection of `chain`
      (it may still fail any query, transiently or with limit exceeded). */
  ghost predicate Honest(p: Provider, chain: seq<Log>) {
    forall q, k :: p(q, k).LogsReply? ==> p(q, k).logs == Select(chain, q)
  }

  /** A cut anywhere keeps every wanted log; a cut inside the range neither
      adds nor repeats any. */
  lemma {:induction false} SelectSplit(chain: seq<Log>, q: LogQuery, m: int)
    ensures multiset(Select(chain, q)) <= multiset(Select(chain, Lower(q, m))) + multiset(Select(chain, Upper(q, m)))
    ensures q.fromBlock <= m + 1 && m <= q.toBlock ==>
      multiset(Select(chain, q)) == multiset(Select(chain, Lower(q, m))) + multiset(Select(chain, Upper(q, m)))
  {
    if chain != [] {
      SelectSplit(chain[1..], q, m);
      SelectCons(chain, q);
      SelectCons(chain, Lower(q, m));
      SelectCons(chain, Upper(q, m));
    }
  }

  lemma SelectCons(chain: seq<Log>, q: LogQuery)
    requires chain != []
    ensures multiset(Select(chain, q))
      == (if Matches(q, chain[0]) then multiset{chain[0]} else multiset{}) + multiset(Select(chain[1..], q))
  {
  }

  /** The intended rule is lossless: whatever it returns is exactly the wanted
      logs, however often the node made it split. */
  lemma {:induction false} GetLogsIntendedExact(p: Provider, chain: seq<Log>, q: LogQuery, attempt: nat, fuel: nat)
    requires Honest(p, chain)
    requires GetLogs(Intended, p, q, attempt, fuel).Fetched?
    ensures multiset(GetLogs(Intended, p, q, attempt, fuel).logs) == multiset(Select(chain, q))
    decreases fuel
  {
    match p(q, attempt)
    case LogsReply(logs) =>
    case ErrorReply(code) =>
      if code == LimitExceeded && MaySplit(Intended, q) {
        var m := SplitPoint(Intended, q);
        GetLogsIntendedExact(p, chain, Lower(q, m), 0, fuel - 1);
        GetLogsIntendedExact(p, chain, Upper(q, m), 0, fuel - 1);
        SelectSplit(chain, q, m);
      } else {
        GetLogsIntendedExact(p, chain, q, attempt + 1, fuel - 1);
      }
  }

  /** As written the split still covers the range: nothing wanted is lost. */
  lemma {:induction false} GetLogsAsWrittenCovers(p: Provider, chain: seq<Log>, q: LogQuery, attempt: nat, fuel: nat)
    requires Honest(p, chain)
    requires GetLogs(AsWritten, p, q, attempt, fuel).Fetched?
    ensures multiset(Select(chain, q)) <= multiset(GetLogs(AsWritten, p, q, attempt, fuel).logs)
    decreases fuel
  {
    match p(q, attempt)
    case LogsReply(logs) =>
    case ErrorReply(code) =>
      if code == LimitExceeded {
        var m := SplitPoint(AsWritten, q);
        GetLogsAsWrittenCovers(p, chain, Lower(q, m), 0, fuel - 1);
        GetLogsAsWrittenCovers(p, chain, Upper(q, m), 0, fuel - 1);
        SelectSplit(chain, q, m);
      } else {
        GetLogsAsWrittenCovers(p, chain, q, attempt + 1, fuel - 1);
      }
  }

  /** The as-written halves are back to back and cover the range, but the
      lower one holds a block only when `2 * fromBlock <= toBlock`, and the
      upper one starts inside the range only when `2 * fromBlock <= toBlock + 2`;
      at the cut `fromBlock - 1` the upper half is the whole range again. */
  lemma SplitAsWrittenHalves(q: LogQuery)
    requires 0 <= q.fromBlock <= q.toBlock
    ensures var m := SplitPoint(AsWritten, q);
      && Lower(q, m).fromBlock == q.fromBlock && Upper(q, m).toBlock == q.toBlock
      && Lower(q, m).toBlock + 1 == Upper(q, m).fromBlock
      && (Lower(q, m).fromBlock <= Lower(q, m).toBlock <==> 2 * q.fromBlock <= q.toBlock)
      && (q.fromBlock <= Upper(q, m).fromBlock <==> 2 * q.fromBlock <= q.toBlock + 2)
      && (m + 1 == q.fromBlock ==> Upper(q, m) == q)
  {
  }

  /** Counterexample: a limit-exceeded reply on [100, 150] is cut at 75, and
      the upper half [76, 150] returns a log of block 80, which lies before
      the range and was already handled by an earlier cycle. */
  lemma AsWrittenSplitReachesBelowRange(early: Log, topics: set<Topic>)
    requires early.blockNumber == 80 && |early.topics| > 0 && early.topics[0] in topics
    ensures var q := LogQuery(early.address, topics, 100, 150);
      var p: Provider := (q', k) => if q' == q then ErrorReply(LimitExceeded) else LogsReply(Select([early], q'));
      && Honest(p, [early])
      && GetLogs(AsWritten, p, q, 0, 2) == Fetched([early])
      && !Matches(q, early)
  {
    var q := LogQuery(early.address, topics, 100, 150);
    var p: Provider := (q', k) => if q' == q then ErrorReply(LimitExceeded) else LogsReply(Select([early], q'));
    assert Select([early], Lower(q, 75)) == [];
    assert Select([early], Upper(q, 75)) == [early];
  }

  /** A node that always answers limit exceeded: as written the iterator keeps
      splitting, even a one-block range, and never returns; intended, the
      one-block query fails at once with the node's error. */
  lemma {:induction false} AsWrittenNeverStopsSplitting(q: LogQuery, attempt: nat, fuel: nat)
    ensures GetLogs(AsWritten, (q', k) => ErrorReply(LimitExceeded), q, attempt, fuel) == Pending
    decreases fuel
  {
    if fuel > 0 {
      var m := SplitPoint(AsWritten, q);
      AsWrittenNeverStopsSplitting(Lower(q, m), 0, fuel - 1);
      AsWrittenNeverStopsSplitting(Upper(q, m), 0, fuel - 1);
    }
  }

  lemma IntendedSingleBlockPropagates(q: LogQuery, attempt: nat)
    requires q.fromBlock == q.toBlock
    ensures GetLogs(Intended, (q', k) => ErrorReply(LimitExceeded), q, attempt, 1) == Failed(LimitExceeded)
  {
  }

  // ---------------------------------------------------------------------------
  // Fetching every registered address (`Promise.all` over the registry, taken
  // in registry order and concatenated).

  function QueryFor(topics: map<Address, set<Topic>>, a: Address, r: Range): LogQuery
    requires a in topics
  {
    LogQuery(a, topics[a], r.from, r.to)
  }

  function FetchAll(v: Variant, p: Provider, topics: map<Address, set<Topic>>, order: seq<Address>, r: Range, fuel: nat): (f: Fetch)
    requires forall a :: a in order ==> a in topics
    ensures f.Failed? ==> v == Intended && f.code == LimitExceeded
  {
    if order == [] then Fetched([])
    else match GetLogs(v, p, QueryFor(topics, order[0], r), 0, fuel)
      case Fetched(first) =>
        (match FetchAll(v, p, topics, order[1..], r, fuel)
         case Fetched(rest) => Fetched(first + rest)
         case other => other)
      case other => other
  }

  /** Every wanted log of every registered address, in registry order. */
  function Wanted(chain: seq<Log>, topics: map<Address, set<Topic>>, order: seq<Address>, r: Range): seq<Log>
    requires forall a :: a in order ==> a in topics
  {
    if order == [] then [] else Select(chain, QueryFor(topics, order[0], r)) + Wanted(chain, topics, order[1..], r)
  }

  lemma {:induction false} FetchAllIntendedExact(p: Provider, chain: seq<Log>, topics: map<Address, set<Topic>>, order: seq<Address>, r: Range, fuel: nat)
    requires Honest(p, chain)
    requires forall a :: a in order ==> a in topics
    requires FetchAll(Intended, p, topics, order, r, fuel).Fetched?
    ensures multiset(FetchAll(Intended, p, topics, order, r, fuel).logs) == multiset(Wanted(chain, topics, order, r))
  {
    if order != [] {
      GetLogsIntendedExact(p, chain, QueryFor(topics, order[0], r), 0, fuel);
      FetchAllIntendedExact(p, chain, topics, order[1..], r, fuel);
    }
  }

  // ---------------------------------------------------------------------------
  // Handing the logs to the callback, one at a time.

  /** What one callback invocation leaves behind: the callback's own state and
      whether it returned normally (false: it threw). */
  datatype Handled<H> = Handled(state: H, ok: bool)

  /** The logs actually passed to the callback, whether every call returned
      normally, and the callback state afterwards. */
  datatype Delivery<H> = Delivery(calls: seq<Log>, ok: bool, state: H)

  /** `for (const log of logs) await this._onlog(log)`: stops at the first
      call that throws. */
  function Deliver<H>(h: H, logs: seq<Log>, handle: (H, Log) -> Handled<H>): (d: Delivery<H>)
    ensures d.calls <= logs
    ensures d.ok ==> d.calls == logs
    ensures !d.ok ==> d.calls != []
  {
    if logs == [] then Delivery([], true, h)
    else
      var first := handle(h, logs[0]);
      if !first.ok then Delivery([logs[0]], false, first.state)
      else
        var rest := Deliver(first.state, logs[1..], handle);
        assert logs == [logs[0]] + logs[1..];
        Delivery([logs[0]] + rest.calls, rest.ok, rest.state)
  }

  // ---------------------------------------------------------------------------
  // One turn of `_loop`.

  /** What the environment supplies to one cycle: the head the retry loop of
      `latestBlockNumber` eventually returns, the node, how many steps the
      retry loops of `getLogs` may take, and whether the checkpoint write
      returns normally. */
  datatype CycleEnv = CycleEnv(head: nat, provider: Provider, fuel: nat, checkpointOk: bool)

  datatype Outcome =
    | Halted                 // the loop condition found `stopped`
    | Polled(slept: bool)    // no safe block: refreshed the head, slept if unchanged
    | Stalled                // a fetch is still retrying
    | Advanced(range: Range) // range processed, checkpoint written, cursor moved
    | Aborted                // a callback, the checkpoint write or a fetch threw

  datatype Step<H> = Step(next: Iterator, outcome: Outcome, calls: seq<Log>, checkpoint: Option<nat>, state: H)

  function Cycle<H>(v: Variant, it: Iterator, env: CycleEnv, h: H, handle: (H, Log) -> Handled<H>): (s: Step<H>)
    requires Valid(it.filters)
    ensures s.next.filters == it.filters && s.next.confirmations == it.confirmations
    ensures s.next.stopped == it.stopped
    ensures s.checkpoint.Some? <==> s.outcome.Advanced?
    ensures !s.outcome.Advanced? ==> s.next.height == it.height
    ensures s.outcome.Advanced? ==>
      var r := s.outcome.range;
      && r.from == it.height && r.from <= r.to <= r.from + MaxBlockRange
      && r.to + it.confirmations <= it.latest
      && s.checkpoint == Some(r.to) && s.next.height == r.to + 1
    ensures s.outcome.Polled? ==>
      && SafeHead(it) <= it.height && s.next.latest == env.head
      && (s.outcome.slept <==> env.head == it.latest)
    ensures s.outcome.Aborted? ==> s.next == it
    ensures s.calls != [] ==> s.outcome.Advanced? || s.outcome.Aborted?
  {
    match NextAction(it)
    case Halt => Step(it, Halted, [], None, h)
    case Refresh => Step(it.(latest := env.head), Polled(env.head == it.latest), [], None, h)
    case Fetch(r) => Process(v, it, r, env, h, handle)
  }

  /** The fetch branch of a cycle: fetch the range, sort, hand the logs over,
      then write the checkpoint and move the cursor. */
  function Process<H>(v: Variant, it: Iterator, r: Range, env: CycleEnv, h: H, handle: (H, Log) -> Handled<H>): (s: Step<H>)
    requires Valid(it.filters)
    requires r.from <= r.to
    ensures s.next.filters == it.filters && s.next.confirmations == it.confirmations
    ensures s.next.stopped == it.stopped && s.next.latest == it.latest
    ensures s.checkpoint.Some? <==> s.outcome.Advanced?
    ensures s.outcome.Advanced? || s.outcome.Aborted? || s.outcome.Stalled?
    ensures !s.outcome.Advanced? ==> s.next == it
    ensures s.outcome.Advanced? ==>
      && s.outcome.range == r && s.checkpoint == Some(r.to) && s.next.height == r.to + 1
      && Ordered(DirectionOf(v), s.calls)
      && FetchAll(v, env.provider, it.filters.topics, it.filters.order, r, env.fuel).Fetched?
      && multiset(s.calls) == multiset(FetchAll(v, env.provider, it.filters.topics, it.filters.order, r, env.fuel).logs)
    ensures s.outcome.Stalled? ==> s.calls == []
  {
    assert forall a :: a in it.filters.order ==> a in it.filters.topics;
    match FetchAll(v, env.provider, it.filters.topics, it.filters.order, r, env.fuel)
    case Pending => Step(it, Stalled, [], None, h)
    case Failed(_) => Step(it, Aborted, [], None, h)
    case Fetched(logs) =>
      var sorted := SortLogs(DirectionOf(v), logs);
      var d := Deliver(h, sorted, handle);
      if d.ok && env.checkpointOk then
        Step(it.(height := r.to + 1), Advanced(r), d.calls, Some(r.to), d.state)
      else
        Step(it, Aborted, d.calls, None, d.state)
  }

  /** A cycle that advanced handed over every log the fetch returned, once
      each, in the sort order. */
  lemma CycleDelivers<H>(v: Variant, it: Iterator, env: CycleEnv, h: H, handle: (H, Log) -> Handled<H>)
    requires Valid(it.filters)
    ensures var s := Cycle(v, it, env, h, handle);
      s.outcome.Advanced? ==>
        var f := FetchAll(v, env.provider, it.filters.topics, it.filters.order, s.outcome.range, env.fuel);
        && f.Fetched?
        && Ordered(DirectionOf(v), s.calls)
        && multiset(s.calls) == multiset(f.logs)
  {
    if NextAction(it).Fetch? {
      var r := NextAction(it).range;
      assert Cycle(v, it, env, h, handle) == Process(v, it, r, env, h, handle);
    }
  }

  /** A callback that throws stops the range: no checkpoint, no cursor move,
      and the logs after it are not passed on. */
  lemma CallbackFailureKeepsCursor<H>(v: Variant, it: Iterator, env: CycleEnv, h: H, handle: (H, Log) -> Handled<H>)
    requires Valid(it.filters)
    requires NextAction(it).Fetch?
    requires var f := FetchAll(v, env.provider, it.filters.topics, it.filters.order, NextAction(it).range, env.fuel);
      f.Fetched? && !Deliver(h, SortLogs(DirectionOf(v), f.logs), handle).ok
    ensures var s := Cycle(v, it, env, h, handle);
      s.outcome == Aborted && s.checkpoint == None && s.next == it
      && |s.calls| <= |SortLogs(DirectionOf(v), FetchAll(v, env.provider, it.filters.topics, it.filters.order, NextAction(it).range, env.fuel).logs)|
  {
  }

  // ---------------------------------------------------------------------------
  // Successive cycles.

  /** `rs` are back-to-back non-empty ranges starting at `start`, after which
      the cursor is `end`. */
  predicate Contiguous(start: nat, rs: seq<Range>, end: nat)
    decreases |rs|
  {
    if rs == [] then end == start
    else rs[0].from == start && rs[0].from <= rs[0].to && Contiguous(rs[0].to + 1, rs[1..], end)
  }

  /** The last block of each range, in order. */
  function Ends(rs: seq<Range>): (e: seq<nat>)
    ensures |e| == |rs|
  {
    if rs == [] then [] else [rs[0].to] + Ends(rs[1..])
  }

  lemma {:induction false} EndsAt(rs: seq<Range>)
    ensures forall i :: 0 <= i < |rs| ==> Ends(rs)[i] == rs[i].to
    decreases |rs|
  {
    if rs != [] {
      EndsAt(rs[1..]);
      forall i | 0 < i < |rs| ensures Ends(rs)[i] == rs[i].to {
        assert rs[i] == rs[1..][i - 1];
      }
    }
  }

  datatype Trace<H> = Trace(final: Iterator, ranges: seq<Range>, checkpoints: seq<nat>, calls: seq<Log>, state: H)

  /** Runs one cycle per environment entry, until the loop halts, aborts or
      stalls, collecting the processed ranges and written checkpoints. */
  function Run<H>(v: Variant, it: Iterator, envs: seq<CycleEnv>, h: H, handle: (H, Log) -> Handled<H>): (t: Trace<H>)
    requires Valid(it.filters)
    ensures t.checkpoints == Ends(t.ranges)
    ensures t.final.filters == it.filters && t.final.confirmations == it.confirmations
    decreases |envs|
  {
    if envs == [] then Trace(it, [], [], [], h)
    else
      var s := Cycle(v, it, envs[0], h, handle);
      match s.outcome
      case Advanced(r) =>
        var rest := Run(v, s.next, envs[1..], s.state, handle);
        Trace(rest.final, [r] + rest.ranges, [s.checkpoint.value] + rest.checkpoints, s.calls + rest.calls, rest.state)
      case Polled(_) =>
        var rest := Run(v, s.next, envs[1..], s.state, handle);
        Trace(rest.final, rest.ranges, rest.checkpoints, s.calls + rest.calls, rest.state)
      case _ => Trace(s.next, [], [], s.calls, s.state)
  }

  /** The ranges of a run are back to back from the starting cursor to the
      cursor the run leaves. */
  lemma {:induction false} RunContiguous<H>(v: Variant, it: Iterator, envs: seq<CycleEnv>, h: H, handle: (H, Log) -> Handled<H>)
    requires Valid(it.filters)
    ensures var t := Run(v, it, envs, h, handle);
      Contiguous(it.height, t.ranges, t.final.height)
    decreases |envs|
  {
    if envs != [] {
      var s := Cycle(v, it, envs[0], h, handle);
      var t := Run(v, it, envs, h, handle);
      if s.outcome.Advanced? || s.outcome.Polled? {
        var rest := Run(v, s.next, envs[1..], s.state, handle);
        RunContiguous(v, s.next, envs[1..], s.state, handle);
        if s.outcome.Advanced? {
          var r := s.outcome.range;
          assert t.ranges == [r] + rest.ranges && t.final == rest.final;
          ContiguousCons(it.height, r, rest.ranges, rest.final.height);
        } else {
          assert t.ranges == rest.ranges && t.final == rest.final;
        }
      } else {
        assert t.ranges == [] && t.final == s.next;
      }
    }
  }

  lemma ContiguousCons(start: nat, r: Range, rs: seq<Range>, end: nat)
    requires r.from == start <= r.to && Contiguous(r.to + 1, rs, end)
    ensures Contiguous(start, [r] + rs, end)
  {
    assert ([r] + rs)[0] == r && ([r] + rs)[1..] == rs;
  }

  /** Successive ranges are disjoint and in block order, so the checkpoints
      strictly increase and the cursor ends past every one of them. */
  lemma {:induction false} ContiguousRangesIncrease(start: nat, rs: seq<Range>, end: nat)
    requires Contiguous(start, rs, end)
    ensures forall i :: 0 <= i < |rs| ==> start <= rs[i].from <= rs[i].to < end
    ensures forall i, j :: 0 <= i < j < |rs| ==> rs[i].to < rs[j].from
    ensures start <= end
    decreases |rs|
  {
    if rs != [] {
      ContiguousRangesIncrease(rs[0].to + 1, rs[1..], end);
      forall i, j | 0 <= i < j < |rs| ensures rs[i].to < rs[j].from {
        assert rs[j] == rs[1..][j - 1];
        if i > 0 { assert rs[i] == rs[1..][i - 1]; }
      }
      forall i | 0 <= i < |rs| ensures start <= rs[i].from <= rs[i].to < end {
        if i > 0 { assert rs[i] == rs[1..][i - 1]; }
      }
    }
  }

  lemma RunCheckpointsIncrease<H>(v: Variant, it: Iterator, envs: seq<CycleEnv>, h: H, handle: (H, Log) -> Handled<H>)
    requires Valid(it.filters)
    ensures var t := Run(v, it, envs, h, handle);
      && (forall i, j :: 0 <= i < j < |t.checkpoints| ==> t.checkpoints[i] < t.checkpoints[j])
      && (forall i :: 0 <= i < |t.checkpoints| ==> it.height <= t.checkpoints[i] < t.final.height)
  {
    var t := Run(v, it, envs, h, handle);
    RunContiguous(v, it, envs, h, handle);
    ContiguousRangesIncrease(it.height, t.ranges, t.final.height);
    EndsAt(t.ranges);
  }
}
