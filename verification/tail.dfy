/** The event translator and forwarder (lib/eth-tail.js): the `onlog`
    callback that numbers each log, decodes it by its topic 0 into a chain
    event following the "Events" section of the Solidity contract ABI
    specification, signs the serialised event and submits it. */
module EthTail {
  import opened Common
  import opened Bytes
  import opened Logs
  import opened Filters
  import opened KeyStore
  import opened LogIterator

  /** The event signature hashes the translator compares topic 0 with. The
      event table of the source defines no `ERC20AssetRemoved` entry; the
      switch names it anyway (see `Dispatch`). */
  datatype EventIds = EventIds(
    assetWithdrawn: Topic,
    assetDeposited: Topic,
    assetListed: Topic,
    assetRemoved: Topic,
    stakeDeposited: Topic,
    stakeRemoved: Topic)

  /** The six signature hashes differ from one another. */
  predicate Distinct(ids: EventIds) {
    && ids.assetWithdrawn !in {ids.assetDeposited, ids.assetListed, ids.assetRemoved, ids.stakeDeposited, ids.stakeRemoved}
    && ids.assetDeposited !in {ids.assetListed, ids.assetRemoved, ids.stakeDeposited, ids.stakeRemoved}
    && ids.assetListed !in {ids.assetRemoved, ids.stakeDeposited, ids.stakeRemoved}
    && ids.assetRemoved !in {ids.stakeDeposited, ids.stakeRemoved}
    && ids.stakeDeposited != ids.stakeRemoved
  }

  // ---------------------------------------------------------------------------
  // Chain events.

  datatype Erc20Action =
    | Withdrawal(vegaAssetId: string, targetEthereumAddress: Bytes, referenceNonce: string)
    | Deposit(vegaAssetId: string, sourceEthereumAddress: Bytes, targetPartyId: string, amount: nat)
    | AssetList(vegaAssetId: string)
    | AssetDelist(vegaAssetId: string)

  datatype StakingAction =
    | StakeDeposited(ethereumAddress: Bytes, vegaPublicKey: string, amount: nat, blockTime: nat)
    | StakeRemoved(ethereumAddress: Bytes, vegaPublicKey: string, amount: nat, blockTime: nat)

  datatype Payload =
    | NoPayload
    | Erc20(block: nat, index: nat, erc20: Erc20Action)
    | Staking(block: nat, index: nat, staking: StakingAction)

  datatype ChainEvent = ChainEvent(txId: string, nonce: nat, payload: Payload)

  /** The auxiliary chain reads: `eth_call` of `get_vega_asset_id` on the
      bridge (keyed by the topic passed as its argument, answering the
      returned bytes) and the timestamp of the block `eth_getBlockByHash`
      returns. Each is a single request with no retry: `None` is a rejected
      call, or for the block lookup a missing block, and the handler throws. */
  datatype ChainReads = ChainReads(vegaAssetIdOf: Bytes -> Option<Bytes>, blockTimeOf: string -> Option<nat>)

  /** The text of an `eth_call` result as the node returns it. */
  function CallResultText(b: Bytes): string {
    "0x" + Hex(b)
  }

  /** An Ethereum address held in a 32-byte topic: the low 20 bytes. */
  function TopicAddress(topic: Bytes): Bytes {
    Drop(topic, 12)
  }

  // ---------------------------------------------------------------------------
  // Dispatch on topic 0.

  datatype Handler =
    | OnAssetWithdrawn | OnAssetDeposited | OnAssetListed | OnErc20AssetRemoved
    | OnStakeDeposited | OnStakeRemoved | NoHandler

  /** The `switch (log.topics[0])`. As written its fourth case names
      `EthEvents.ERC20AssetRemoved`, which is undefined: no topic matches it,
      and only a log with no topics at all (whose topic 0 is also undefined)
      reaches the delist handler. Intended, the case is `AssetRemoved`. */
  function Dispatch(v: Variant, ids: EventIds, log: Log): (h: Handler)
    ensures v == Intended && |log.topics| == 0 ==> h == NoHandler
    ensures Distinct(ids) && |log.topics| > 0 && log.topics[0] == ids.assetRemoved ==>
      (h == OnErc20AssetRemoved <==> v == Intended)
  {
    if |log.topics| == 0 then (if v == AsWritten then OnErc20AssetRemoved else NoHandler)
    else
      var t0 := log.topics[0];
      if t0 == ids.assetWithdrawn then OnAssetWithdrawn
      else if t0 == ids.assetDeposited then OnAssetDeposited
      else if t0 == ids.assetListed then OnAssetListed
      else if v == Intended && t0 == ids.assetRemoved then OnErc20AssetRemoved
      else if t0 == ids.stakeDeposited then OnStakeDeposited
      else if t0 == ids.stakeRemoved then OnStakeRemoved
      else NoHandler
  }

  /** Why a handler throws: a topic it reads is missing, or an auxiliary chain
      read failed. */
  datatype TranslateError = MissingTopic(index: nat) | LookupFailed

  function TopicAt(log: Log, i: nat): (r: Result<Bytes, TranslateError>)
    ensures r.Ok? <==> i < |log.topics|
    ensures r.Ok? ==> r.value == log.topics[i]
  {
    if i < |log.topics| then Ok(log.topics[i]) else Err(MissingTopic(i))
  }

  /** The topic the staking handlers read the vega public key from: topic 1
      as written, topic 2 (the indexed `bytes32` argument) intended. */
  function VegaKeyTopic(v: Variant): nat {
    match v
    case AsWritten => 1
    case Intended => 2
  }

  function StakingFields(v: Variant, chain: ChainReads, log: Log): Result<(Bytes, string, nat, nat), TranslateError> {
    match TopicAt(log, 1)
    case Err(e) => Err(e)
    case Ok(t1) =>
      match TopicAt(log, VegaKeyTopic(v))
      case Err(e) => Err(e)
      case Ok(key) =>
        match chain.blockTimeOf(log.blockHash)
        case None => Err(LookupFailed)
        case Some(time) => Ok((TopicAddress(t1), Hex(key), BigEndian(log.data), time))
  }

  /** The handler bodies: pure field extraction from topics and data, plus the
      auxiliary reads. A topic index the log does not have is an error (the
      source's `parse.bytes(undefined)` throws), and so is a failed read. The
      topics are checked before the read is issued; the source issues some
      reads first, but either way the handler throws. */
  function Decode(v: Variant, handler: Handler, chain: ChainReads, log: Log): (r: Result<Payload, TranslateError>)
    requires handler != NoHandler
    ensures r.Ok? ==> r.value != NoPayload
    ensures r.Ok? && r.value.Erc20? ==> r.value.block == log.blockNumber && r.value.index == log.logIndex
    ensures r.Ok? && r.value.Staking? ==> r.value.block == log.blockNumber && r.value.index == log.logIndex
  {
    var block, index := log.blockNumber, log.logIndex;
    match handler
    case OnAssetWithdrawn =>
      (match (TopicAt(log, 1), TopicAt(log, 2))
       case (Ok(t1), Ok(t2)) =>
         (match chain.vegaAssetIdOf(t2)
          case None => Err(LookupFailed)
          case Some(id) => Ok(Erc20(block, index, Withdrawal(Hex(id), TopicAddress(t1), Hex(Drop(log.data, 32))))))
       case _ => Err(MissingTopic(if |log.topics| < 2 then 1 else 2)))
    case OnAssetDeposited =>
      (match (TopicAt(log, 1), TopicAt(log, 2))
       case (Ok(t1), Ok(t2)) =>
         (match chain.vegaAssetIdOf(t2)
          case None => Err(LookupFailed)
          case Some(id) => Ok(Erc20(block, index, Deposit(
            CallResultText(id), TopicAddress(t1), Hex(Drop(log.data, 32)), BigEndian(Take(log.data, 32))))))
       case _ => Err(MissingTopic(if |log.topics| < 2 then 1 else 2)))
    case OnAssetListed =>
      (match TopicAt(log, 2)
       case Ok(t2) => Ok(Erc20(block, index, AssetList(Hex(t2))))
       case Err(e) => Err(e))
    case OnErc20AssetRemoved =>
      (match TopicAt(log, 1)
       case Ok(t1) =>
         (match chain.vegaAssetIdOf(t1)
          case None => Err(LookupFailed)
          case Some(id) => Ok(Erc20(block, index, AssetDelist(CallResultText(id)))))
       case Err(e) => Err(e))
    case OnStakeDeposited =>
      (match StakingFields(v, chain, log)
       case Ok((address, key, amount, time)) => Ok(Staking(block, index, StakeDeposited(address, key, amount, time)))
       case Err(e) => Err(e))
    case OnStakeRemoved =>
      (match StakingFields(v, chain, log)
       case Ok((address, key, amount, time)) => Ok(Staking(block, index, StakeRemoved(address, key, amount, time)))
       case Err(e) => Err(e))
  }

  /** `onlog`'s switch: a log no case matches keeps the bare event; otherwise
      the handler fills in the payload or throws. */
  function Translate(v: Variant, ids: EventIds, chain: ChainReads, log: Log, event: ChainEvent): (r: Result<ChainEvent, TranslateError>)
    requires event.payload == NoPayload
    ensures r.Ok? ==> r.value.txId == event.txId && r.value.nonce == event.nonce
    ensures r.Ok? && r.value.payload.Erc20? ==>
      r.value.payload.block == log.blockNumber && r.value.payload.index == log.logIndex
    ensures r.Ok? && r.value.payload.Staking? ==>
      r.value.payload.block == log.blockNumber && r.value.payload.index == log.logIndex
    ensures Dispatch(v, ids, log) == NoHandler ==> r == Ok(event)
    ensures Dispatch(v, ids, log) != NoHandler && r.Ok? ==> r.value.payload != NoPayload
  {
    var handler := Dispatch(v, ids, log);
    if handler == NoHandler then Ok(event)
    else
      match Decode(v, handler, chain, log)
      case Ok(payload) => Ok(event.(payload := payload))
      case Err(e) => Err(e)
  }

  // ---------------------------------------------------------------------------
  // The `onlog` callback.

  datatype TailConfig = TailConfig(
    ids: EventIds,
    keypair: KeyPair,
    erc20BridgeAddress: Address,
    erc20BridgeStartHeight: Option<nat>,
    stakingAddress: Address,
    stakingStartHeight: Option<nat>)

  /** The `PropagateChainEventRequest` submitted for one event. */
  datatype PropagateRequest = PropagateRequest(pubKey: string, signature: Bytes, event: Bytes)

  datatype Reply = Replied(success: bool) | CallFailed

  /** The collaborators of `onlog`: the crypto primitives, the auxiliary chain
      reads, protobuf `serializeBinary`, and the destination's reply. */
  datatype TailEnv = TailEnv(
    primitives: Primitives,
    chain: ChainReads,
    serialize: ChainEvent -> Bytes,
    propagate: PropagateRequest -> Reply)

  /** The per-process nonce and the events submitted so far, in order. */
  datatype TailState = TailState(nonce: nat, sent: seq<ChainEvent>)

  const Fresh: TailState := TailState(0, [])

  /** A log older than its bridge's configured start height. A start height
      that was never configured compares false, as `n < undefined` does. */
  predicate BeforeStart(cfg: TailConfig, log: Log) {
    || (log.address == cfg.erc20BridgeAddress && cfg.erc20BridgeStartHeight.Some?
        && log.blockNumber < cfg.erc20BridgeStartHeight.value)
    || (log.address == cfg.stakingAddress && cfg.stakingStartHeight.Some?
        && log.blockNumber < cfg.stakingStartHeight.value)
  }

  /** Build, sign and submit the request for a translated event. */
  function Submit(env: TailEnv, keypair: KeyPair, event: ChainEvent): (r: Option<PropagateRequest>)
    ensures r.Some? <==> |keypair.secretKey| == SecretKeyBytes
    ensures r.Some? ==> r.value.event == env.serialize(event) && r.value.pubKey == Hex(keypair.publicKey)
  {
    var bytes := env.serialize(event);
    match Sign(env.primitives, bytes, keypair.secretKey)
    case Ok(signature) => Some(PropagateRequest(Hex(keypair.publicKey), signature, bytes))
    case Err(_) => None
  }

  /** One `onlog` call. As written the start-height checks only log, so every
      log is numbered and forwarded; intended, a log before its bridge's start
      height is dropped. The nonce is taken and incremented before decoding,
      so a call that throws still uses one up. */
  function OnLog(v: Variant, cfg: TailConfig, env: TailEnv, st: TailState, log: Log): (h: Handled<TailState>)
    ensures v == AsWritten || !BeforeStart(cfg, log) ==> h.state.nonce == st.nonce + 1
    ensures v == Intended && BeforeStart(cfg, log) ==> h == Handled(st, true)
    ensures h.state.sent == st.sent
         || (|h.state.sent| == |st.sent| + 1 && h.state.sent[..|st.sent|] == st.sent)
    ensures |h.state.sent| > |st.sent| ==>
      h.state.sent[|st.sent|].nonce == st.nonce && h.state.sent[|st.sent|].txId == log.transactionHash
    ensures h.ok && h.state.nonce != st.nonce ==> |h.state.sent| == |st.sent| + 1
  {
    if v == Intended && BeforeStart(cfg, log) then Handled(st, true)
    else
      var event := ChainEvent(log.transactionHash, st.nonce, NoPayload);
      var next := st.(nonce := st.nonce + 1);
      match Translate(v, cfg.ids, env.chain, log, event)
      case Err(_) => Handled(next, false)
      case Ok(decoded) =>
        match Submit(env, cfg.keypair, decoded)
        case None => Handled(next, false)
        case Some(request) =>
          Handled(next.(sent := st.sent + [decoded]), env.propagate(request) == Replied(true))
  }

  /** The callback as the iterator sees it. */
  function Handle(v: Variant, cfg: TailConfig, env: TailEnv): (TailState, Log) -> Handled<TailState> {
    (st, log) => OnLog(v, cfg, env, st, log)
  }

  /** A log past the start-height gate takes a nonce; a translation error
      throws and submits nothing; otherwise the event, a bare one when no case
      matched, is serialised, signed over its digest and submitted, and the
      call returns normally exactly when the destination reports success. */
  lemma OnLogOutcome(v: Variant, cfg: TailConfig, env: TailEnv, st: TailState, log: Log)
    requires v == AsWritten || !BeforeStart(cfg, log)
    requires |cfg.keypair.secretKey| == SecretKeyBytes
    ensures var event := ChainEvent(log.transactionHash, st.nonce, NoPayload);
      var t := Translate(v, cfg.ids, env.chain, log, event);
      var h := OnLog(v, cfg, env, st, log);
      && h.state.nonce == st.nonce + 1
      && (t.Err? ==> !h.ok && h.state.sent == st.sent)
      && (Dispatch(v, cfg.ids, log) == NoHandler ==> t == Ok(event))
      && (t.Ok? ==>
            var bytes := env.serialize(t.value);
            var signature := env.primitives.signDetached(env.primitives.sha3(bytes), cfg.keypair.secretKey);
            && h.state.sent == st.sent + [t.value]
            && (h.ok <==> env.propagate(PropagateRequest(Hex(cfg.keypair.publicKey), signature, bytes)) == Replied(true)))
  {
  }

  // ---------------------------------------------------------------------------
  // The logs the contracts emit: indexed arguments as 32-byte topics after the
  // signature hash, the others as consecutive 32-byte words of data (an
  // address left-padded with 12 zero bytes, a uint256 big-endian).

  function AddressWord(a: Bytes): (w: Bytes)
    requires |a| == 20
    ensures |w| == 32 && TopicAddress(w) == a
  {
    seq(12, _ => 0) + a
  }

  function Uint256Word(n: nat): (w: Bytes)
    requires n < Pow256(32)
    ensures |w| == 32 && BigEndian(w) == n
  {
    BigEndianRoundTrip(n, 32);
    ToBigEndian(n, 32)
  }

  /** The two halves of a two-word data payload. */
  lemma SplitWords(first: Bytes, second: Bytes)
    requires |first| == 32
    ensures Take(first + second, 32) == first && Drop(first + second, 32) == second
  {
    var s := first + second;
    assert Take(s, 32) <= s && |Take(s, 32)| == 32;
    assert Take(s, 32) == s[..32] == first;
    if |second| > 0 {
      assert forall i :: 0 <= i < |second| ==> Drop(s, 32)[i] == s[32 + i] == second[i];
    }
  }

  /** `Asset_Deposited(user, asset_source, amount, vega_public_key)`: the
      source address is topic 1's low 20 bytes, the amount the value of the
      first data word (for a word written by `Uint256Word(n)` that is `n`), the
      party the hex of the second, and the asset id the text of the `eth_call`
      answer for topic 2; when that call fails the handler throws. */
  lemma DepositRoundTrip(v: Variant, ids: EventIds, chain: ChainReads, log: Log, event: ChainEvent,
                         user: Bytes, assetSource: Bytes, amountWord: Bytes, vegaKey: Bytes)
    requires Distinct(ids) && event.payload == NoPayload
    requires |user| == 20 && |assetSource| == 20 && |amountWord| == 32 && |vegaKey| == 32
    requires log.topics == [ids.assetDeposited, AddressWord(user), AddressWord(assetSource)]
    requires log.data == amountWord + vegaKey
    ensures Translate(v, ids, chain, log, event) ==
      match chain.vegaAssetIdOf(AddressWord(assetSource))
      case None => Err(LookupFailed)
      case Some(id) => Ok(event.(payload := Erc20(log.blockNumber, log.logIndex,
        Deposit(CallResultText(id), user, Hex(vegaKey), BigEndian(amountWord)))))
  {
    assert Dispatch(v, ids, log) == OnAssetDeposited;
    DepositFields(v, chain, log, user, assetSource, amountWord, vegaKey);
  }

  lemma DepositFields(v: Variant, chain: ChainReads, log: Log, user: Bytes, assetSource: Bytes, amountWord: Bytes, vegaKey: Bytes)
    requires |user| == 20 && |assetSource| == 20 && |amountWord| == 32 && |vegaKey| == 32
    requires |log.topics| == 3 && log.topics[1] == AddressWord(user) && log.topics[2] == AddressWord(assetSource)
    requires log.data == amountWord + vegaKey
    ensures Decode(v, OnAssetDeposited, chain, log) ==
      match chain.vegaAssetIdOf(AddressWord(assetSource))
      case None => Err(LookupFailed)
      case Some(id) => Ok(Erc20(log.blockNumber, log.logIndex,
        Deposit(CallResultText(id), user, Hex(vegaKey), BigEndian(amountWord))))
  {
    DecodeTwoTopics(v, chain, log);
    SplitWords(amountWord, vegaKey);
  }

  /** The field sources of the two handlers that read topics 1 and 2. */
  lemma DecodeTwoTopics(v: Variant, chain: ChainReads, log: Log)
    requires |log.topics| >= 3
    ensures Decode(v, OnAssetDeposited, chain, log) ==
      match chain.vegaAssetIdOf(log.topics[2])
      case None => Err(LookupFailed)
      case Some(id) => Ok(Erc20(log.blockNumber, log.logIndex,
        Deposit(CallResultText(id), TopicAddress(log.topics[1]), Hex(Drop(log.data, 32)), BigEndian(Take(log.data, 32)))))
    ensures Decode(v, OnAssetWithdrawn, chain, log) ==
      match chain.vegaAssetIdOf(log.topics[2])
      case None => Err(LookupFailed)
      case Some(id) => Ok(Erc20(log.blockNumber, log.logIndex,
        Withdrawal(Hex(id), TopicAddress(log.topics[1]), Hex(Drop(log.data, 32)))))
  {
    assert TopicAt(log, 1) == Ok(log.topics[1]) && TopicAt(log, 2) == Ok(log.topics[2]);
  }

  /** `Asset_Withdrawn(user, asset_source, amount, nonce)`: the target is topic
      1's low 20 bytes, the reference nonce the hex of the second data word,
      and the asset id the hex of the `eth_call` answer for topic 2; when that
      call fails the handler throws. */
  lemma WithdrawalRoundTrip(v: Variant, ids: EventIds, chain: ChainReads, log: Log, event: ChainEvent,
                            user: Bytes, assetSource: Bytes, amountWord: Bytes, nonce: Bytes)
    requires event.payload == NoPayload
    requires |user| == 20 && |assetSource| == 20 && |amountWord| == 32 && |nonce| == 32
    requires log.topics == [ids.assetWithdrawn, AddressWord(user), AddressWord(assetSource)]
    requires log.data == amountWord + nonce
    ensures Translate(v, ids, chain, log, event) ==
      match chain.vegaAssetIdOf(AddressWord(assetSource))
      case None => Err(LookupFailed)
      case Some(id) => Ok(event.(payload := Erc20(log.blockNumber, log.logIndex, Withdrawal(Hex(id), user, Hex(nonce)))))
  {
    assert Dispatch(v, ids, log) == OnAssetWithdrawn;
    WithdrawalFields(v, chain, log, user, assetSource, amountWord, nonce);
  }

  lemma WithdrawalFields(v: Variant, chain: ChainReads, log: Log, user: Bytes, assetSource: Bytes, amountWord: Bytes, nonce: Bytes)
    requires |user| == 20 && |assetSource| == 20 && |amountWord| == 32 && |nonce| == 32
    requires |log.topics| == 3 && log.topics[1] == AddressWord(user) && log.topics[2] == AddressWord(assetSource)
    requires log.data == amountWord + nonce
    ensures Decode(v, OnAssetWithdrawn, chain, log) ==
      match chain.vegaAssetIdOf(AddressWord(assetSource))
      case None => Err(LookupFailed)
      case Some(id) => Ok(Erc20(log.blockNumber, log.logIndex, Withdrawal(Hex(id), user, Hex(nonce))))
  {
    DecodeTwoTopics(v, chain, log);
    SplitWords(amountWord, nonce);
  }

  /** `Asset_Listed(asset_source, vega_asset_id, nonce)`: the asset id is topic
      2 itself, with no chain read. */
  lemma AssetListedRoundTrip(v: Variant, ids: EventIds, chain: ChainReads, log: Log, event: ChainEvent,
                             assetSource: Bytes, vegaAssetId: Bytes)
    requires Distinct(ids) && event.payload == NoPayload
    requires |assetSource| == 20
    requires log.topics == [ids.assetListed, AddressWord(assetSource), vegaAssetId]
    ensures Translate(v, ids, chain, log, event)
      == Ok(event.(payload := Erc20(log.blockNumber, log.logIndex, AssetList(Hex(vegaAssetId)))))
  {
    assert Dispatch(v, ids, log) == OnAssetListed;
  }

  /** `Asset_Removed(asset_source, nonce)`: as written no case matches, so the
      event is submitted with only its transaction id and nonce; intended, it
      becomes a delisting of the asset the bridge maps topic 1 to, and the
      handler throws when that call fails. */
  lemma AssetRemovedRoundTrip(v: Variant, ids: EventIds, chain: ChainReads, log: Log, event: ChainEvent,
                              assetSource: Bytes)
    requires Distinct(ids) && event.payload == NoPayload
    requires |assetSource| == 20
    requires log.topics == [ids.assetRemoved, AddressWord(assetSource)]
    ensures v == AsWritten ==> Translate(v, ids, chain, log, event) == Ok(event)
    ensures v == Intended ==>
      Translate(v, ids, chain, log, event) ==
        match chain.vegaAssetIdOf(AddressWord(assetSource))
        case None => Err(LookupFailed)
        case Some(id) => Ok(event.(payload := Erc20(log.blockNumber, log.logIndex, AssetDelist(CallResultText(id)))))
  {
    assert Dispatch(v, ids, log) == if v == AsWritten then NoHandler else OnErc20AssetRemoved;
  }

  /** `Stake_Deposited` / `Stake_Removed(user, amount, vega_public_key)`: the
      address is topic 1's low 20 bytes, the amount the whole data payload and
      the block time the timestamp of the log's block; when that block cannot
      be read the handler throws. The vega public key is topic 2 intended; as
      written it is topic 1 again. */
  lemma StakingRoundTrip(v: Variant, ids: EventIds, chain: ChainReads, log: Log, event: ChainEvent,
                         removed: bool, user: Bytes, vegaKey: Bytes)
    requires Distinct(ids) && event.payload == NoPayload
    requires |user| == 20
    requires log.topics == [if removed then ids.stakeRemoved else ids.stakeDeposited, AddressWord(user), vegaKey]
    ensures var key := Hex(if v == Intended then vegaKey else AddressWord(user));
      var amount := BigEndian(log.data);
      Translate(v, ids, chain, log, event) ==
        match chain.blockTimeOf(log.blockHash)
        case None => Err(LookupFailed)
        case Some(time) => Ok(event.(payload := Staking(log.blockNumber, log.logIndex,
          if removed then StakeRemoved(user, key, amount, time) else StakeDeposited(user, key, amount, time))))
  {
    var handler := if removed then OnStakeRemoved else OnStakeDeposited;
    assert Dispatch(v, ids, log) == handler;
    StakingFieldsOf(v, chain, log, user, vegaKey);
  }

  lemma StakingFieldsOf(v: Variant, chain: ChainReads, log: Log, user: Bytes, vegaKey: Bytes)
    requires |user| == 20
    requires |log.topics| == 3 && log.topics[1] == AddressWord(user) && log.topics[2] == vegaKey
    ensures StakingFields(v, chain, log) ==
      match chain.blockTimeOf(log.blockHash)
      case None => Err(LookupFailed)
      case Some(time) => Ok((user, Hex(if v == Intended then vegaKey else AddressWord(user)), BigEndian(log.data), time))
  {
    assert TopicAt(log, 1) == Ok(AddressWord(user));
    assert TopicAt(log, VegaKeyTopic(v)) == Ok(if v == Intended then vegaKey else AddressWord(user));
  }

  /** A deposit whose `get_vega_asset_id` call fails: the handler throws after
      the nonce was taken, so the nonce is used up, nothing is submitted, and
      `onlog` throws (which stops the iterator's cycle before its checkpoint). */
  lemma FailedReadThrows(v: Variant, cfg: TailConfig, env: TailEnv, st: TailState, log: Log,
                         user: Bytes, assetSource: Bytes, amountWord: Bytes, vegaKey: Bytes)
    requires Distinct(cfg.ids) && (v == AsWritten || !BeforeStart(cfg, log))
    requires |user| == 20 && |assetSource| == 20 && |amountWord| == 32 && |vegaKey| == 32
    requires log.topics == [cfg.ids.assetDeposited, AddressWord(user), AddressWord(assetSource)]
    requires log.data == amountWord + vegaKey
    requires env.chain.vegaAssetIdOf(AddressWord(assetSource)) == None
    ensures var h := OnLog(v, cfg, env, st, log);
      !h.ok && h.state.nonce == st.nonce + 1 && h.state.sent == st.sent
  {
    var event := ChainEvent(log.transactionHash, st.nonce, NoPayload);
    DepositRoundTrip(v, cfg.ids, env.chain, log, event, user, assetSource, amountWord, vegaKey);
  }

  /** As written the forwarded vega public key differs from the one the
      contract emitted whenever that key is not the user's padded address. */
  lemma StakingKeyMisread(ids: EventIds, chain: ChainReads, log: Log, event: ChainEvent,
                          removed: bool, user: Bytes, vegaKey: Bytes)
    requires Distinct(ids) && event.payload == NoPayload
    requires |user| == 20
    requires log.topics == [if removed then ids.stakeRemoved else ids.stakeDeposited, AddressWord(user), vegaKey]
    requires vegaKey != AddressWord(user)
    ensures var r := Translate(AsWritten, ids, chain, log, event);
      chain.blockTimeOf(log.blockHash).Some? ==>
        r.Ok? && r.value.payload.Staking? && r.value.payload.staking.vegaPublicKey != Hex(vegaKey)
  {
    StakingRoundTrip(AsWritten, ids, chain, log, event, removed, user, vegaKey);
    if Hex(AddressWord(user)) == Hex(vegaKey) {
      HexInjective(AddressWord(user), vegaKey);
    }
  }

  /** A log with no topics: as written its undefined topic 0 equals the
      undefined `ERC20AssetRemoved` case and the delist handler fails on the
      missing topic 1; intended, it matches nothing. */
  lemma NoTopics(v: Variant, ids: EventIds, chain: ChainReads, log: Log, event: ChainEvent)
    requires event.payload == NoPayload && log.topics == []
    ensures v == AsWritten ==> Translate(v, ids, chain, log, event) == Err(MissingTopic(1))
    ensures v == Intended ==> Translate(v, ids, chain, log, event) == Ok(event)
  {
  }

  // ---------------------------------------------------------------------------
  // Numbering.

  /** `sent` are the events of `logs`, numbered consecutively from `base`. */
  predicate NumberedFrom(sent: seq<ChainEvent>, base: nat, logs: seq<Log>) {
    && |sent| == |logs|
    && forall i :: 0 <= i < |sent| ==> sent[i].nonce == base + i && sent[i].txId == logs[i].transactionHash
  }

  /** As written, every log handed to the callback takes one nonce, whatever
      becomes of it, and the events already submitted stay as they were. */
  lemma {:induction false} DeliveryTakesNonces(cfg: TailConfig, env: TailEnv, st: TailState, logs: seq<Log>)
    ensures var d := Deliver(st, logs, Handle(AsWritten, cfg, env));
      && d.state.nonce == st.nonce + |d.calls|
      && |d.state.sent| >= |st.sent| && d.state.sent[..|st.sent|] == st.sent
    decreases |logs|
  {
    if logs != [] {
      var handle := Handle(AsWritten, cfg, env);
      var first := OnLog(AsWritten, cfg, env, st, logs[0]);
      assert handle(st, logs[0]) == first;
      if first.ok {
        var rest := Deliver(first.state, logs[1..], handle);
        DeliveryTakesNonces(cfg, env, first.state, logs[1..]);
        assert Deliver(st, logs, handle) == Delivery([logs[0]] + rest.calls, rest.ok, rest.state);
        PrefixOfPrefix(st.sent, first.state.sent, rest.state.sent);
      }
    }
  }

  lemma PrefixOfPrefix<T>(a: seq<T>, b: seq<T>, c: seq<T>)
    requires |a| <= |b| <= |c| && b[..|a|] == a && c[..|b|] == b
    ensures c[..|a|] == a
  {
    assert c[..|a|] == c[..|b|][..|a|];
  }

  /** Numbering one more event in front of a numbered run. */
  lemma NumberedCons(s: seq<ChainEvent>, n: nat, base: nat, logs: seq<Log>)
    requires n < |s| && logs != []
    requires s[n].nonce == base && s[n].txId == logs[0].transactionHash
    requires NumberedFrom(s[n + 1..], base + 1, logs[1..])
    ensures NumberedFrom(s[n..], base, logs)
  {
    forall i | 1 <= i < |s[n..]|
      ensures s[n..][i].nonce == base + i && s[n..][i].txId == logs[i].transactionHash
    {
      assert s[n..][i] == s[n + 1..][i - 1];
      assert logs[i] == logs[1..][i - 1];
    }
  }

  /** As written, when the whole batch succeeds one event per log was
      submitted, in order, carrying consecutive nonces. */
  lemma {:induction false} DeliveryNumbers(cfg: TailConfig, env: TailEnv, st: TailState, logs: seq<Log>)
    ensures var d := Deliver(st, logs, Handle(AsWritten, cfg, env));
      d.ok ==> |d.state.sent| >= |st.sent| && NumberedFrom(d.state.sent[|st.sent|..], st.nonce, logs)
    decreases |logs|
  {
    var handle := Handle(AsWritten, cfg, env);
    if logs == [] {
      assert Deliver(st, logs, handle).state == st;
    } else {
      var first := OnLog(AsWritten, cfg, env, st, logs[0]);
      assert handle(st, logs[0]) == first;
      if first.ok {
        var n := |st.sent|;
        var rest := Deliver(first.state, logs[1..], handle);
        assert Deliver(st, logs, handle) == Delivery([logs[0]] + rest.calls, rest.ok, rest.state);
        if rest.ok {
          DeliveryNumbers(cfg, env, first.state, logs[1..]);
          DeliveryTakesNonces(cfg, env, first.state, logs[1..]);
          assert |first.state.sent| == n + 1;
          assert rest.state.sent[n] == rest.state.sent[..n + 1][n] == first.state.sent[n];
          NumberedCons(rest.state.sent, n, st.nonce, logs);
        }
      }
    }
  }

  /** Both facts together, in the form the iterator's cycle uses. */
  lemma NoncesFollowDelivery(cfg: TailConfig, env: TailEnv, st: TailState, logs: seq<Log>)
    ensures var d := Deliver(st, logs, Handle(AsWritten, cfg, env));
      && d.state.nonce == st.nonce + |d.calls|
      && |d.state.sent| >= |st.sent| && d.state.sent[..|st.sent|] == st.sent
      && (d.ok ==> NumberedFrom(d.state.sent[|st.sent|..], st.nonce, logs))
  {
    DeliveryTakesNonces(cfg, env, st, logs);
    DeliveryNumbers(cfg, env, st, logs);
  }

  /** From a fresh process, the submitted events carry nonces 0, 1, 2, ... in
      processing order. */
  lemma NoncesFromZero(cfg: TailConfig, env: TailEnv, logs: seq<Log>)
    ensures var d := Deliver(Fresh, logs, Handle(AsWritten, cfg, env));
      d.ok ==> |d.state.sent| == |logs| && forall i :: 0 <= i < |logs| ==> d.state.sent[i].nonce == i
  {
    NoncesFollowDelivery(cfg, env, Fresh, logs);
  }

  /** As written the start-height checks do not filter: a log before its
      bridge's start height takes a nonce and is submitted like any other.
      Intended, it is dropped and takes no nonce. */
  lemma StartHeightDoesNotFilter(cfg: TailConfig, env: TailEnv, st: TailState, log: Log)
    requires BeforeStart(cfg, log)
    ensures OnLog(AsWritten, cfg, env, st, log).state.nonce == st.nonce + 1
    ensures OnLog(Intended, cfg, env, st, log) == Handled(st, true)
  {
  }
}
