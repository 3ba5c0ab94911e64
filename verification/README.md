# Ethereum event forwarder — a Dafny model

The forwarder follows two Ethereum contracts: the ERC-20 bridge and the
staking contract. It turns the logs they emit into Vega chain events,
numbers them, signs them and submits them to a Vega node. This project
models its core in Dafny and proves properties of that model.

- **Log iterator** (`LogIterator`, `Filters`, `Logs`): the cursor, the
  observed chain head and the confirmation lag. Each cycle fetches one safe
  range of at most 2000 blocks past the cursor, for every registered contract
  address. A node's "limit exceeded" reply (JSON-RPC code -32005) makes the
  fetch split the range. The merged batch is sorted and handed to the
  callback one log at a time. The checkpoint is written only after the
  whole range. The filter registry maps an address to its topic set, in
  insertion order.
- **Translator** (`EthTail`): the `onlog` callback. It takes a nonce,
  dispatches on topic 0 and decodes the bridge and staking events from
  their 32-byte topics and data words. It then signs the serialised event
  and submits it; a failed reply makes the callback throw.
- **Key store** (`KeyStore`): reading a key file as a 32-byte seed or a
  64-byte Ed25519 secret key, the exclusive-create write, the
  read-or-generate fallback, and signing the SHA3-256 digest.
- **Bloom test** (`Bloom`): three 11-bit indices cut from a digest, as in the
  M3:2048 bloom of section 4.3.1 of the Ethereum Yellow Paper. Also the
  membership loop over the topics.
- **JSON-RPC builder** (`NanoEth`): the parameter list each `eth_*` method
  builds, the lazy `Request` that reaches the transport at most once, and the
  hex/number helpers.
- **Wiring** (`Forwarder`): the start block chosen at start-up, the filters
  the translator registers, and the configuration it receives.

Byte strings are `seq<Byte>` with `Byte = 0..255`. Hex text is modelled as
Node's `Buffer` hex codec does it.

Where the code does something it evidently did not intend, the model
has both versions, selected by `Variant`: `AsWritten` is the code, and
`Intended` is the correction. The rest of the model uses the corrected one
only where it says so.

Everything outside the process is a parameter:
- the chain node;
- the auxiliary chain reads;
- the hash and signature primitives;
- protobuf serialisation;
- the Vega node's reply;
- the file system.

Retry loops that never give up are modelled in two ways. One becomes its
eventual answer. The other, `getLogs`, takes a step budget and reports
`Pending` when the budget runs out. The asset-id and block-time reads are
single requests, so each is an optional answer whose failure makes the
handler throw.

## Model

| member | source | states |
|---|---|---|
| Bytes.Drop | lib/eth-tail.js:117-118 | `Buffer#slice(n)`: empty when the buffer is not longer than `n`, otherwise the bytes from offset `n` on |
| Bytes.TakeDropSplit | lib/eth-tail.js:125-126 | the first data word and the bytes after it make up the whole payload |
| Bytes.ByteAt | lib/eth-bloom.js:19 | a byte read past the end of a buffer acts as 0 in a bitwise operation |
| Bytes.DecodeHexOfHex | lib/crypto.js:26 | `Buffer.from(text, 'hex')` gives back exactly the bytes `toString('hex')` wrote |
| Bytes.DecodeHexStopsAtGarbage | lib/crypto.js:26 | hex decoding stops at the first pair that is not two hex digits; what follows is ignored |
| Bytes.HexInjective | lib/eth-tail.js:177 | two byte strings with the same hex text are equal |
| Bytes.BigEndianRoundTrip | lib/eth-tail.js:125 | `parse.bigint` of a value's `len`-byte big-endian encoding is that value |
| Bytes.BigEndianLeadingZeros | lib/eth-tail.js:178 | leading zero bytes do not change the value `parse.bigint` reads |
| Logs.SourceComparatorIsDescending | lib/eth-log-iterator.js:145-151 | the comparator puts `a` first exactly when `a`'s (block, transaction index, log index) key is the larger, and ties only equal keys |
| Logs.SortLogs | lib/eth-log-iterator.js:80 | the processed batch is a permutation of the fetched logs, ordered in the chosen direction |
| Logs.OrderedPermutationsEqual | lib/eth-log-iterator.js:80 | two ordered arrangements of the same logs are identical when keys identify logs |
| Logs.SortIgnoresArrivalOrder | lib/eth-log-iterator.js:69-80 | the processing order does not depend on the order in which the per-address results arrived |
| Logs.NewestFirstAsWritten | lib/eth-log-iterator.js:148-150 | as written, of logs from two blocks the newer is handed over first; the intended order hands the older first |
| Filters.AddFilter | lib/eth-log-iterator.js:38-42 | `addFilter` unions the topics into the address's set, leaves every other address alone, appends a new address to the order, and keeps the registry invariant |
| Filters.AddFresh | lib/eth-log-iterator.js:39-41 | a new address with topics gets an entry holding exactly those topics, at the end of the order |
| Filters.DeleteFilter | lib/eth-log-iterator.js:44-50 | `deleteFilter` on an unknown address changes nothing; otherwise it removes exactly the listed topics of that address, leaves every other address alone, and keeps the invariant |
| Filters.AddFilterIdempotent | lib/eth-log-iterator.js:38-42 | adding the same topics twice equals adding them once |
| Filters.DeleteUndoesAdd | lib/eth-log-iterator.js:38-50 | deleting the topics just added for a new address restores the registry |
| LogIterator.NewIterator | lib/eth-log-iterator.js:13-31 | a missing start height or confirmation count defaults to 0, the observed head starts at 0, the registry is empty |
| LogIterator.NextAction | lib/eth-log-iterator.js:53-66 | halt exactly when stopped; refresh the head exactly when head − confirmations ≤ cursor; otherwise fetch from the cursor up to min(cursor + 2000, head − confirmations) |
| LogIterator.ExampleRanges | lib/eth-log-iterator.js:54-66 | cursor 100, head 2200 and 12 confirmations give [100, 2100], then [2101, 2188], then a refresh |
| LogIterator.SplitPoint | lib/eth-log-iterator.js:117 | the intended cut lies inside the range |
| LogIterator.GetLogs | lib/eth-log-iterator.js:103-126 | a fetch fails only when the intended rule meets a limit-exceeded one-block query, and then with that code; other errors are retried |
| LogIterator.Select | lib/eth-log-iterator.js:109-114 | an honest node's answer holds exactly the chain's logs of that address, topic 0 and block range |
| LogIterator.SelectSplit | lib/eth-log-iterator.js:116-121 | the two halves of any cut hold every wanted log; for a cut inside the range they hold exactly the wanted logs |
| LogIterator.GetLogsIntendedExact | lib/eth-log-iterator.js:116-121 | with the intended cut, a completed fetch returns exactly the wanted logs, however often the node forced a split |
| LogIterator.GetLogsAsWrittenCovers | lib/eth-log-iterator.js:116-121 | with the cut as written, a completed fetch still returns every wanted log |
| LogIterator.SplitAsWrittenHalves | lib/eth-log-iterator.js:117-120 | the halves `[from, ⌊to/2⌋]` and `[⌊to/2⌋+1, to]` are back to back; the lower one is non-empty only when `2·from ≤ to`, the upper one starts inside the range only when `2·from ≤ to + 2`, and when `⌊to/2⌋+1 = from` it is the whole range again |
| LogIterator.AsWrittenSplitReachesBelowRange | lib/eth-log-iterator.js:117-120 | a split of [100, 150] returns a log of block 80, outside the range |
| LogIterator.AsWrittenNeverStopsSplitting | lib/eth-log-iterator.js:106-122 | against a node that always answers limit exceeded, the fetch as written never completes, whatever the budget |
| LogIterator.IntendedSingleBlockPropagates | lib/eth-log-iterator.js:116-122 | with the intended rule, a one-block limit-exceeded query fails at once with the node's code |
| LogIterator.FetchAll | lib/eth-log-iterator.js:69-80 | fetching every registered address fails only in the intended one-block case |
| LogIterator.FetchAllIntendedExact | lib/eth-log-iterator.js:69-80 | with the intended rule, the merged batch holds exactly the wanted logs of every registered address |
| LogIterator.Deliver | lib/eth-log-iterator.js:82-84 | the callback sees a prefix of the batch, in batch order; when no call throws it has seen the whole batch; a failed delivery made at least one call |
| LogIterator.Cycle | lib/eth-log-iterator.js:53-88 | one loop turn: a fetched range starts at the cursor, spans at most 2000 blocks past it and ends at or below head − confirmations; a checkpoint is written exactly when the range completed, and it is `maxHeight` with the cursor moved to `maxHeight + 1`; a refresh sleeps exactly when the head did not change and neither moves the cursor; an abort leaves the iterator unchanged |
| LogIterator.Process | lib/eth-log-iterator.js:66-87 | the fetch branch either advances, aborts or stalls, and only an advance moves anything; an advance covers exactly the requested range, writes its last block and hands over exactly the fetched logs, ordered in the variant's direction |
| LogIterator.CycleDelivers | lib/eth-log-iterator.js:80-87 | a cycle that advanced had fetched its range and handed over exactly the fetched logs (as a multiset), ordered in the variant's direction |
| LogIterator.CallbackFailureKeepsCursor | lib/eth-log-iterator.js:82-87 | a callback that throws leaves the cursor unmoved and writes no checkpoint |
| LogIterator.Run | lib/eth-log-iterator.js:52-88 | over successive cycles the written checkpoints are the last blocks of the processed ranges; filters and lag never change |
| LogIterator.RunContiguous | lib/eth-log-iterator.js:86-87 | the processed ranges are back to back from the starting cursor to the final one |
| LogIterator.ContiguousRangesIncrease | lib/eth-log-iterator.js:86-87 | back-to-back ranges are disjoint, in block order, and all before the final cursor |
| LogIterator.RunCheckpointsIncrease | lib/eth-log-iterator.js:86-87 | checkpoints strictly increase, lie at or after the starting cursor, and lie before the final cursor |
| KeyStore.ReadKey | lib/crypto.js:23-41 | a missing file fails to read; reading succeeds exactly when the file decodes to 32 or 64 bytes; a 32-byte payload gives the seed's key pair, a 64-byte payload gives that secret key unchanged with its derived public key; any other decoded length fails, naming that length |
| KeyStore.WriteKey | lib/crypto.js:42-50 | the write succeeds exactly for a 64-byte key and a new path; it adds that path and changes no other file; an existing path is refused |
| KeyStore.EnsureKey | lib/crypto.js:51-61 | a readable key is returned without writing; an existing unreadable file makes it fail and is left as it was; no existing file is ever changed |
| KeyStore.Sign | lib/crypto.js:62-74 | signing succeeds exactly for a 64-byte secret key; any other key is refused by the argument check |
| KeyStore.WriteThenRead | lib/crypto.js:26-49 | after a successful `writeKey(p, sk)`, `readKey(p)` returns `sk` with its derived public key |
| KeyStore.ReadSecretKeyFile | lib/crypto.js:26-40 | a file whose text decodes to a 64-byte secret key reads as that key unchanged, with its derived public key |
| KeyStore.ReadSeedFile | lib/crypto.js:26-31 | a file whose text decodes to a 32-byte seed reads as the pair derived from that seed |
| KeyStore.ReadKeyWithTrailer | lib/crypto.js:26 | the hex of a key followed by text that does not start with a hex digit, such as a newline, reads as that key |
| KeyStore.ReadOtherLengthFails | lib/crypto.js:33-35 | a file of any other decoded length is refused, naming that length |
| KeyStore.EnsureKeyCreates | lib/crypto.js:55-58 | with no file, the generated pair is returned and written, and the file reads back as it |
| KeyStore.EnsureKeyStable | lib/crypto.js:51-60 | a second `ensureKey` writes nothing and returns the first key |
| KeyStore.SignsTheDigest | lib/crypto.js:67-71 | messages with the same SHA3-256 digest get the same signature |
| Bloom.Index | lib/eth-bloom.js:6-8 | every index lies in 0..2047 |
| Bloom.IndexIsBitwise | lib/eth-bloom.js:6-8 | `(h[k] & 7) << 8 \| h[k+1]` on the two bytes equals `(h[k] mod 8)·256 + h[k+1]` |
| Bloom.Bits | lib/eth-bloom.js:3-11 | `bits` gives exactly three indices, each below 2048 |
| Bloom.ProbeIsMask | lib/eth-bloom.js:19 | `filter[i >> 3] & (1 << (i & 7))` is non-zero exactly when bit `i mod 8` of byte `i / 8` is set |
| Bloom.StripFirst0x | lib/eth-bloom.js:14 | `replace('0x', '')` leaves text without "0x" unchanged and removes a leading "0x" |
| Bloom.StripRemovesFirst | lib/eth-bloom.js:14 | the occurrence removed is the first one, wherever it is |
| Bloom.FilterText | lib/eth-bloom.js:14 | the "0x"-prefixed hex of a filter decodes back to that filter |
| Bloom.BloomMatch | lib/eth-bloom.js:13-24 | an empty topic list answers false |
| Bloom.FirstPositiveExists | lib/eth-bloom.js:16-23 | returning at the first positive verdict answers whether any verdict is positive |
| Bloom.IntendedMatch | lib/eth-bloom.js:13-24 | intended: true exactly when some topic's digest has all three bits set in the filter |
| Bloom.AsWrittenMatch | lib/eth-bloom.js:16-20 | as written: true exactly when there is a topic and bit 0 of the filter's first byte is set, whatever the topics and the hash |
| Bloom.AsWrittenMissesMember | lib/eth-bloom.js:16-20 | a filter holding exactly a topic's bits, none of them bit 0: the intended test says present, the test as written says absent |
| NanoEth.Params | lib/nanoeth/index.js:37-199 | fixed methods send their first `n` arguments; an optional trailing block tag is sent only when truthy; block lookups send two parameters, the flag defaulting to `false` |
| NanoEth.Build | lib/nanoeth/index.js:37-199 | building a request sends nothing, names the `eth_*` method and passes `opts` through |
| NanoEth.OptionalFromParams | lib/nanoeth/index.js:45-118 | `call`, `estimateGas`, `getBalance`, `getCode` and `getTransactionCount` send `[obj, from]` when `from` is truthy, else `[obj]` |
| NanoEth.StorageAtParams | lib/nanoeth/index.js:101-103 | `getStorageAt` sends `[addr, pos, from]` when `from` is truthy, else `[addr, pos]` |
| NanoEth.BlockParams | lib/nanoeth/index.js:69-75 | `getBlockByHash` and `getBlockByNumber` always send two parameters, the second `false` unless a truthy flag was given |
| NanoEth.Consume | lib/nanoeth/index.js:11-24 | `then`/`catch`/`finally` issue the call only if it was not yet issued, and otherwise reuse the request's promise |
| NanoEth.SentAtMostOnce | lib/nanoeth/index.js:1-24 | however many handlers are attached, the call reaches the transport once, and not at all with none; all handlers share one promise |
| NanoEth.End | lib/nanoeth/index.js:201-203 | `end()` resolves at once exactly when the transport has no `end` |
| NanoEth.HexDigitsOf | lib/nanoeth/index.js:217-219 | `toString(16)` gives at least one lower-case hex digit, with no leading zero except for 0 itself |
| NanoEth.IntegerLiteral | lib/nanoeth/index.js:213-215 | the empty text is 0; a `0x` literal has its hex value; a `-` literal is not positive |
| NanoEth.HexDigitsValue | lib/nanoeth/index.js:217-219 | the digits `toString(16)` writes are hex digits and have the value written |
| NanoEth.BigIntRoundTrip | lib/nanoeth/index.js:213-219 | `hexToBigInt(bigIntToHex(n)) = n` for every natural `n` |
| NanoEth.NumberRoundTrip | lib/nanoeth/index.js:221-227 | `hexToNumber(numberToHex(n)) = n` up to 2^53 − 1; above 2^53 − 1 the model does not compute the double |
| NanoEth.NegativeDoesNotRoundTrip | lib/nanoeth/index.js:213-227 | a negative value's text `0x-…` is rejected by `BigInt` and is NaN for `Number` |
| NanoEth.BigIntToHexInjective | lib/nanoeth/index.js:217-219 | distinct naturals get distinct texts |
| EthTail.Dispatch | lib/eth-tail.js:70-78 | with distinct event ids, an asset-removed log reaches the delist handler exactly in the intended version; intended, a log with no topics reaches no handler |
| EthTail.TopicAt | lib/eth-tail.js:116-117 | reading a topic the log does not have is an error |
| EthTail.Decode | lib/eth-tail.js:108-198 | a decoded event has a payload whose block and index are the log's block number and log index; a missing topic or a failed chain read is an error |
| EthTail.Translate | lib/eth-tail.js:66-78 | the event keeps its transaction id and nonce; a log no case matches keeps the bare event; a matched one gets a payload with the log's block and index |
| EthTail.Submit | lib/eth-tail.js:80-85 | a request is built exactly for a 64-byte secret key and carries the serialised event and the hex public key |
| EthTail.OnLog | lib/eth-tail.js:58-89 | every call takes one nonce (intended: unless the log is before its start height); at most one event is appended, carrying that nonce and the log's transaction hash; a normal return with a nonce taken means one was submitted |
| EthTail.OnLogOutcome | lib/eth-tail.js:66-88 | a translation error throws and submits nothing; otherwise the event is submitted signed over its digest, unmatched logs bare; the call returns normally exactly when the reply reports success |
| EthTail.DepositRoundTrip | lib/eth-tail.js:123-140 | for an `Asset_Deposited` log: source = topic 1's low 20 bytes, amount = value of the first data word, party = hex of the second, asset id = the `0x` text of the bridge's answer for topic 2; when that `eth_call` fails the handler throws |
| EthTail.WithdrawalRoundTrip | lib/eth-tail.js:108-121 | for an `Asset_Withdrawn` log: target = topic 1's low 20 bytes, reference nonce = hex of the second data word, asset id = hex of the bridge's answer for topic 2; when that `eth_call` fails the handler throws |
| EthTail.AssetListedRoundTrip | lib/eth-tail.js:142-153 | for an `Asset_Listed` log the asset id is the hex of topic 2 itself |
| EthTail.AssetRemovedRoundTrip | lib/eth-tail.js:70-78 | as written an `Asset_Removed` log is forwarded with only its transaction id and nonce; intended it becomes a delisting of the asset mapped from topic 1, and the handler throws when that `eth_call` fails |
| EthTail.StakingRoundTrip | lib/eth-tail.js:168-198 | for stake logs: address = topic 1's low 20 bytes, amount = value of the whole data, block time = the block's timestamp, and the handler throws when the block cannot be read; the key is topic 2 intended, topic 1 as written |
| EthTail.StakingKeyMisread | lib/eth-tail.js:177 | as written, once the block is read, the forwarded vega key differs from the emitted one whenever that is not the padded user address |
| EthTail.FailedReadThrows | lib/eth-tail.js:123-140 | a deposit whose `get_vega_asset_id` call fails uses up its nonce, submits nothing and makes `onlog` throw |
| EthTail.NoTopics | lib/eth-tail.js:70-74 | as written a log with no topics reaches the delist handler and fails; intended it matches nothing |
| EthTail.DeliveryTakesNonces | lib/eth-tail.js:66-68 | every log handed over takes exactly one nonce, and submitted events are never changed |
| EthTail.DeliveryNumbers | lib/eth-tail.js:66-68 | a batch handed over without a throw submitted one event per log, in order, with consecutive nonces |
| EthTail.NoncesFollowDelivery | lib/eth-tail.js:66-68 | both facts together |
| EthTail.NoncesFromZero | lib/eth-tail.js:43-68 | from a fresh process the submitted events carry nonces 0, 1, 2, … in processing order |
| EthTail.StartHeightDoesNotFilter | lib/eth-tail.js:59-64 | as written a log before its bridge's start height takes a nonce like any other; intended it is dropped |
| Forwarder.InitialHeight | index.js:48-52 | with no checkpoint the cursor starts at the lower bridge start height; with one it starts at the checkpoint as written, at the block after it intended |
| Forwarder.TailConfigOf | index.js:55-65 | the translator gets both addresses; as written no start heights |
| Forwarder.NewTail | lib/eth-tail.js:53-57 | the iterator starts at the chosen block with the configured lag and the contract filters |
| Forwarder.ContractFiltersRegistered | lib/eth-tail.js:95-105 | the bridge is registered for its four events and the staking contract for its two, in that order |
| Forwarder.StartHeightsNeverReachTranslator | index.js:55-65 | as wired the translator's start-height check never applies |
| Forwarder.RestartAfterRun | index.js:48-52 | after a run, restarting from its last checkpoint starts one block early, inside the range already processed; intended it starts where the run stopped |
| Forwarder.CycleNumbersEvents | lib/eth-tail.js:66-68 | over one iterator cycle, nonces advance by the number of logs handed over; a cycle that advanced submitted one event per log with consecutive nonces |

## Left out

- lib/nanoeth/http.js, the HTTP transport, is not part of this model. A node reply is a datatype holding the logs or the JSON-RPC error code.
- lib/promisify-callback.js is callback plumbing with no logic of its own.
- lib/eth-events.js holds the event signature hashes. They are opaque `EventIds`. Distinctness is a hypothesis where it matters.
- The `Promise.all` fetches run in parallel in the source. They are modelled as sequential calls concatenated in registry order, which is the order `Promise.all` returns them in.
- The interruptible six-second sleep, `stop()`, `start()`, opening the database and waiting for the gRPC channel are left out. Only the `stopped` flag that guards the loop is kept.
- `latestBlockNumber` retries forever. It is modelled as the head it eventually returns, one per cycle.
- The asset-id `eth_call` and `eth_getBlockByHash` are single requests with no retry. Each is an optional answer: a rejected call and a missing block are both `None`, and the handler throws. The reason for the failure is not kept.
- LogIterator.GetLogs: the source's endless retry loop is modelled with a step budget, and `Pending` means "still retrying". The warning every fifth retry is logging.
- `_latestHeight !== oldHeight` compares the node's hex texts. The model compares the numbers, which agree for the canonical quantities a node returns.
- `parse.number` and `parse.bigint` from eth-helpers are modelled on decoded values. Log numbers are naturals. A data word is read as a big-endian unsigned integer, and an empty word reads as 0. `format.address` is the raw 20 bytes rather than checksummed text.
- Block heights and nonces are unbounded naturals. JavaScript numbers lose precision beyond 2^53, which the iterator's arithmetic never reaches in practice.
- Ed25519 (libsodium), SHA3-256, key generation, protobuf `serializeBinary` and the gRPC call are parameters. Generation is the key pair it produced.
- The file system is a map from path to text. `fs.mkdir`, file permissions and I/O errors other than a missing file are left out.
- The `typeof path === 'string'` assertions are not modelled, because paths are strings by type.
- NanoEth: `subscribe`, `destroy` and the `destroyed` getter only forward to the transport.
- NanoEth.NumberRoundTrip: above 2^53 − 1 it states only that the value is beyond the safe range, because the model does not compute doubles.
- NanoEth: `Number(s)` and `BigInt(s)` on texts that are not integer literals are not evaluated. This covers fractions, exponents, `Infinity` and surrounding white space. Such values are the opaque `Other`, and integers beyond 2^53 − 1 are `Unsafe`, without computing their double.
- Bloom: the intended test hashes a topic as the byte string the caller passes. The source's input encoding of a topic (hex text or bytes) is a choice of its callers.
- Timers and time-outs (the 6 s sleep, the 13 s HTTP time-out and the 5 s gRPC deadline) and all logging are left out.
- The health-check HTTP server, configuration loading and the process signal handlers in index.js are left out.
- EthTail.Decode: its contract states only the block, the index and a non-empty payload. When a handler issues its chain read before reading a topic, the model checks the topic first; either way the handler throws, but the error value can differ. The field sources are stated by the per-event round-trip lemmas, for logs shaped as the contracts emit them (all topics present, 32-byte words).
- LogIterator.GetLogsAsWrittenCovers: under the split as written, completeness is stated as a multiset inclusion only. The extra logs it may return are shown by LogIterator.AsWrittenSplitReachesBelowRange.

## Findings

| source | as written | input that shows it | evidently intended | confidence | as-written member | corrected member |
|---|---|---|---|---|---|---|
| lib/eth-log-iterator.js:148-150 | the comparator subtracts `a`'s key from `b`'s, so each batch is processed newest log first | logs from blocks 1 and 2 are handed over block 2 first; their nonces run against chain order | oldest first, so nonces follow chain order | not executed | Logs.NewestFirstAsWritten | Logs.SortLogs (ascending direction), LogIterator.CycleDelivers (Intended) |
| lib/eth-log-iterator.js:117-120 | a limit-exceeded range is cut at `⌊toBlock/2⌋` | [100, 150] is cut at 75 and the upper half [76, 150] returns a log of block 80; a one-block range is split again forever | cut at the midpoint of `[fromBlock, toBlock]` and let a one-block error propagate | not executed | LogIterator.AsWrittenSplitReachesBelowRange, LogIterator.AsWrittenNeverStopsSplitting | LogIterator.GetLogsIntendedExact, LogIterator.IntendedSingleBlockPropagates |
| lib/eth-tail.js:74 | the case names `EthEvents.ERC20AssetRemoved`, which lib/eth-events.js does not define | an `Asset_Removed` log is forwarded with no payload; a log with no topics reaches the delist handler and fails | `case EthEvents.AssetRemoved` | not executed | EthTail.AssetRemovedRoundTrip (AsWritten), EthTail.NoTopics (AsWritten) | EthTail.AssetRemovedRoundTrip (Intended), EthTail.NoTopics (Intended) |
| lib/eth-tail.js:177,193 | the staking vega public key is read from topic 1, the user's padded address | a `Stake_Deposited` log with key topic K ≠ the padded user address forwards the padded address as the key | read topic 2, the indexed key | not executed | EthTail.StakingKeyMisread | EthTail.StakingRoundTrip (Intended) |
| lib/eth-tail.js:59-64 | the start-height checks only log, and index.js:55-65 does not pass the heights | a bridge log below the bridge's start height is numbered and forwarded | skip logs before their bridge's start height | not executed | EthTail.StartHeightDoesNotFilter, Forwarder.StartHeightsNeverReachTranslator | EthTail.OnLog (Intended), Forwarder.TailConfigOf (Intended) |
| lib/eth-bloom.js:16-19 | `for…in` binds the array indices, and `b[0]` on a number is undefined, so every probe reads bit 0 of byte 0 | a digest whose three indices are all 257, and a filter with only bit 257 set: the topic is reported absent | `for…of` over the topics, probing each index itself | not executed | Bloom.AsWrittenMatch, Bloom.AsWrittenMissesMember | Bloom.IntendedMatch |
| index.js:48-52 | the cursor restarts at the stored checkpoint, which is the last block already processed | after a run whose last checkpoint is block c, a restart reads block c again and forwards its logs a second time | restart at checkpoint + 1 | not executed | Forwarder.RestartAfterRun (AsWritten) | Forwarder.RestartAfterRun (Intended), Forwarder.InitialHeight |
