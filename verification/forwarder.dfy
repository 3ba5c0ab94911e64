/** How the process puts the pieces together (index.js and the `EthTail`
    constructor in lib/eth-tail.js): where the cursor starts, which filters are
    registered, which start heights reach the translator, and what the
    translator's numbering looks like over one cycle of the iterator. */
module Forwarder {
  import opened Common
  import opened Logs
  import opened Filters
  import opened LogIterator
  import opened KeyStore
  import opened EthTail

  /** The configuration values the wiring reads. */
  datatype Settings = Settings(
    confirmations: nat,
    erc20BridgeAddress: Address,
    erc20BridgeStartHeight: nat,
    stakingAddress: Address,
    stakingStartHeight: nat)

  function Min(a: nat, b: nat): nat {
    if a <= b then a else b
  }

  /** The first block the iterator reads: the stored checkpoint when there is
      one, else the lower of the two bridges' start heights. The checkpoint is
      the last block fully processed, so as written that block is read and
      forwarded again after every restart; intended, reading resumes at the
      block after it. */
  function InitialHeight(v: Variant, checkpoint: Option<nat>, s: Settings): (h: nat)
    ensures checkpoint.None? ==>
      h <= s.erc20BridgeStartHeight && h <= s.stakingStartHeight
      && (h == s.erc20BridgeStartHeight || h == s.stakingStartHeight)
    ensures checkpoint.Some? && v == AsWritten ==> h == checkpoint.value
    ensures checkpoint.Some? && v == Intended ==> h == checkpoint.value + 1
  {
    match checkpoint
    case None => Min(s.erc20BridgeStartHeight, s.stakingStartHeight)
    case Some(c) => if v == AsWritten then c else c + 1
  }

  /** The translator's configuration. As written the start heights are not
      passed to the constructor, so the translator sees none. */
  function TailConfigOf(v: Variant, s: Settings, ids: EventIds, keypair: KeyPair): (cfg: TailConfig)
    ensures cfg.erc20BridgeAddress == s.erc20BridgeAddress && cfg.stakingAddress == s.stakingAddress
    ensures v == AsWritten ==> cfg.erc20BridgeStartHeight.None? && cfg.stakingStartHeight.None?
    ensures v == Intended ==>
      cfg.erc20BridgeStartHeight == Some(s.erc20BridgeStartHeight)
      && cfg.stakingStartHeight == Some(s.stakingStartHeight)
  {
    TailConfig(ids, keypair, s.erc20BridgeAddress,
      if v == AsWritten then None else Some(s.erc20BridgeStartHeight),
      s.stakingAddress,
      if v == AsWritten then None else Some(s.stakingStartHeight))
  }

  /** The iterator `EthTail` builds: cursor and lag from the settings, and the
      filters of `ContractFilters`. */
  function NewTail(v: Variant, s: Settings, ids: EventIds, checkpoint: Option<nat>): (it: Iterator)
    ensures Valid(it.filters) && !it.stopped
    ensures it.height == InitialHeight(v, checkpoint, s) && it.confirmations == s.confirmations
    ensures it.filters == ContractFilters(s, ids)
  {
    NewIterator(Some(InitialHeight(v, checkpoint, s)), Some(s.confirmations)).(filters := ContractFilters(s, ids))
  }

  /** The bridge registered for its four events, then the staking contract
      for its two. */
  function ContractFilters(s: Settings, ids: EventIds): (r: Registry)
    ensures Valid(r)
  {
    var once := AddFilter(Empty, s.erc20BridgeAddress,
      [ids.assetWithdrawn, ids.assetDeposited, ids.assetListed, ids.assetRemoved]);
    AddFilter(once, s.stakingAddress, [ids.stakeDeposited, ids.stakeRemoved])
  }

  /** With two distinct contracts, the registry holds exactly the bridge's
      four topics and the staking contract's two, in that order. */
  lemma ContractFiltersRegistered(s: Settings, ids: EventIds)
    requires s.erc20BridgeAddress != s.stakingAddress
    ensures var r := ContractFilters(s, ids);
      && TopicsOf(r, s.erc20BridgeAddress)
         == {ids.assetWithdrawn, ids.assetDeposited, ids.assetListed, ids.assetRemoved}
      && TopicsOf(r, s.stakingAddress) == {ids.stakeDeposited, ids.stakeRemoved}
      && r.order == [s.erc20BridgeAddress, s.stakingAddress]
  {
    var bridge, staking := s.erc20BridgeAddress, s.stakingAddress;
    var bridgeList := [ids.assetWithdrawn, ids.assetDeposited, ids.assetListed, ids.assetRemoved];
    var stakingList := [ids.stakeDeposited, ids.stakeRemoved];
    var bridgeTopics := {ids.assetWithdrawn, ids.assetDeposited, ids.assetListed, ids.assetRemoved};
    var stakingTopics := {ids.stakeDeposited, ids.stakeRemoved};
    var once := AddFilter(Empty, bridge, bridgeList);
    assert once == Registry([bridge], map[bridge := bridgeTopics]) by {
      AddFresh(Empty, bridge, bridgeList);
      ElementsOfFour(ids.assetWithdrawn, ids.assetDeposited, ids.assetListed, ids.assetRemoved);
    }
    assert ContractFilters(s, ids)
      == Registry([bridge, staking], map[bridge := bridgeTopics, staking := stakingTopics]) by {
      AddFresh(once, staking, stakingList);
      ElementsOfTwo(ids.stakeDeposited, ids.stakeRemoved);
    }
  }

  lemma ElementsOfFour<T>(a: T, b: T, c: T, d: T)
    ensures (set t | t in [a, b, c, d]) == {a, b, c, d}
  {
  }

  lemma ElementsOfTwo<T>(a: T, b: T)
    ensures (set t | t in [a, b]) == {a, b}
  {
  }

  /** As wired, the translator's start-height gate never applies, whatever the
      log. */
  lemma StartHeightsNeverReachTranslator(s: Settings, ids: EventIds, keypair: KeyPair, log: Log)
    ensures !BeforeStart(TailConfigOf(AsWritten, s, ids, keypair), log)
  {
  }

  /** The last range of a run ends just before the cursor the run leaves. */
  lemma {:induction false} ContiguousEnd(start: nat, rs: seq<Range>, end: nat)
    requires Contiguous(start, rs, end) && rs != []
    ensures end == rs[|rs| - 1].to + 1
    decreases |rs|
  {
    if |rs| > 1 {
      ContiguousEnd(rs[0].to + 1, rs[1..], end);
      assert rs[1..][|rs| - 2] == rs[|rs| - 1];
    }
  }

  /** After a run that wrote checkpoints, a restart from the last one: as
      written it starts one block early, inside the range already processed,
      so that block's logs are forwarded a second time; intended, it starts
      exactly where the run stopped. */
  lemma RestartAfterRun<H>(s: Settings, ids: EventIds, v: Variant, it: Iterator, envs: seq<CycleEnv>, h: H,
                           handle: (H, Log) -> Handled<H>)
    requires Valid(it.filters)
    requires Run(v, it, envs, h, handle).checkpoints != []
    ensures var t := Run(v, it, envs, h, handle);
      var last := t.checkpoints[|t.checkpoints| - 1];
      && NewTail(Intended, s, ids, Some(last)).height == t.final.height
      && NewTail(AsWritten, s, ids, Some(last)).height + 1 == t.final.height
      && t.ranges[|t.ranges| - 1].from <= NewTail(AsWritten, s, ids, Some(last)).height
  {
    var t := Run(v, it, envs, h, handle);
    RunContiguous(v, it, envs, h, handle);
    EndsAt(t.ranges);
    ContiguousEnd(it.height, t.ranges, t.final.height);
    ContiguousRangesIncrease(it.height, t.ranges, t.final.height);
  }

  /** Over one cycle of the iterator with the translator as its callback, as
      written: every log passed on takes one nonce, and a cycle that advanced
      submitted one event per log, numbered consecutively in processing order. */
  lemma CycleNumbersEvents(it: Iterator, env: CycleEnv, cfg: TailConfig, tail: TailEnv, st: TailState)
    requires Valid(it.filters)
    ensures var step := Cycle(AsWritten, it, env, st, Handle(AsWritten, cfg, tail));
      && step.state.nonce == st.nonce + |step.calls|
      && |step.state.sent| >= |st.sent| && step.state.sent[..|st.sent|] == st.sent
      && (step.outcome.Advanced? ==> NumberedFrom(step.state.sent[|st.sent|..], st.nonce, step.calls))
  {
    var handle := Handle(AsWritten, cfg, tail);
    var step := Cycle(AsWritten, it, env, st, handle);
    if NextAction(it).Fetch? {
      var r := NextAction(it).range;
      var f := FetchAll(AsWritten, env.provider, it.filters.topics, it.filters.order, r, env.fuel);
      if f.Fetched? {
        NoncesFollowDelivery(cfg, tail, st, SortLogs(DirectionOf(AsWritten), f.logs));
      }
    }
  }
}
