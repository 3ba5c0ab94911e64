/** The JSON-RPC request builder (lib/nanoeth/index.js): one `Request` per
    `eth_*` method, sent lazily and at most once through the transport, the
    parameter list each method builds from its arguments, and the static hex
    helpers. The transport itself (HTTP, JSON, promises) is a record of the
    calls it was asked to make. */
module NanoEth {
  import opened Common
  import opened Bytes

  // ---------------------------------------------------------------------------
  // Arguments.

  /** The JavaScript values a caller passes; numbers are integers here. */
  datatype Json = Undefined | Null | Bool(b: bool) | Num(n: int) | Str(s: string) | Obj(id: nat)

  /** JavaScript truthiness. */
  predicate Truthy(x: Json) {
    match x
    case Undefined => false
    case Null => false
    case Bool(b) => b
    case Num(n) => n != 0
    case Str(s) => s != ""
    case Obj(_) => true
  }

  /** The `i`-th argument of a call, `undefined` when not supplied. */
  function Arg(args: seq<Json>, i: nat): Json {
    if i < |args| then args[i] else Undefined
  }

  /** How a method turns its arguments into `params`:
      `Fixed(n)` sends its first `n` arguments as they are;
      `OptionalLast(n)` sends its first `n` and then the next one only when it
      is truthy (`from ? [obj, from] : [obj]`);
      `FlagLast` sends two, the second replaced by `false` when falsy
      (`[hash, tx || false]`). */
  datatype Shape = Fixed(n: nat) | OptionalLast(n: nat) | FlagLast

  /** The number of declared parameters before the trailing `opts`. */
  function Arity(shape: Shape): nat {
    match shape
    case Fixed(n) => n
    case OptionalLast(n) => n + 1
    case FlagLast => 2
  }

  function Params(shape: Shape, args: seq<Json>): (p: seq<Json>)
    ensures shape.Fixed? ==> p == seq(shape.n, i requires 0 <= i < shape.n => Arg(args, i))
    ensures shape.OptionalLast? ==>
      (|p| == (if Truthy(Arg(args, shape.n)) then shape.n + 1 else shape.n)
       && (forall i :: 0 <= i < |p| ==> p[i] == Arg(args, i)))
    ensures shape.FlagLast? ==>
      (|p| == 2 && p[0] == Arg(args, 0) && p[1] == (if Truthy(Arg(args, 1)) then Arg(args, 1) else Bool(false)))
  {
    match shape
    case Fixed(n) => seq(n, i requires 0 <= i < n => Arg(args, i))
    case OptionalLast(n) =>
      var required := seq(n, i requires 0 <= i < n => Arg(args, i));
      if Truthy(Arg(args, n)) then required + [Arg(args, n)] else required
    case FlagLast => [Arg(args, 0), if Truthy(Arg(args, 1)) then Arg(args, 1) else Bool(false)]
  }

  // ---------------------------------------------------------------------------
  // The methods of `ETH`.

  datatype EthMethod =
    | Accounts | BlockNumber | Call | ChainId | Coinbase | EstimateGas | GasPrice | GetBalance
    | GetBlockByHash | GetBlockByNumber | GetBlockTransactionCountByHash | GetBlockTransactionCountByNumber
    | GetCode | GetFilterChanges | GetFilterLogs | GetLogs | GetStorageAt
    | GetTransactionByBlockHashAndIndex | GetTransactionByBlockNumberAndIndex | GetTransactionByHash
    | GetTransactionCount | GetTransactionReceipt | GetUncleByBlockHashAndIndex | GetUncleByBlockNumberAndIndex
    | GetUncleCountByBlockHash | GetUncleCountByBlockNumber | GetWork | Hashrate | Mining
    | NewBlockFilter | NewFilter | NewPendingTransactionFilter | ProtocolVersion
    | SendRawTransaction | SendTransaction | Sign | SignTransaction | SubmitHashrate | SubmitWork
    | Syncing | UninstallFilter

  function MethodName(m: EthMethod): string {
    match m
    case Accounts => "eth_accounts"
    case BlockNumber => "eth_blockNumber"
    case Call => "eth_call"
    case ChainId => "eth_chainId"
    case Coinbase => "eth_coinbase"
    case EstimateGas => "eth_estimateGas"
    case GasPrice => "eth_gasPrice"
    case GetBalance => "eth_getBalance"
    case GetBlockByHash => "eth_getBlockByHash"
    case GetBlockByNumber => "eth_getBlockByNumber"
    case GetBlockTransactionCountByHash => "eth_getBlockTransactionCountByHash"
    case GetBlockTransactionCountByNumber => "eth_getBlockTransactionCountByNumber"
    case GetCode => "eth_getCode"
    case GetFilterChanges => "eth_getFilterChanges"
    case GetFilterLogs => "eth_getFilterLogs"
    case GetLogs => "eth_getLogs"
    case GetStorageAt => "eth_getStorageAt"
    case GetTransactionByBlockHashAndIndex => "eth_getTransactionByBlockHashAndIndex"
    case GetTransactionByBlockNumberAndIndex => "eth_getTransactionByBlockNumberAndIndex"
    case GetTransactionByHash => "eth_getTransactionByHash"
    case GetTransactionCount => "eth_getTransactionCount"
    case GetTransactionReceipt => "eth_getTransactionReceipt"
    case GetUncleByBlockHashAndIndex => "eth_getUncleByBlockHashAndIndex"
    case GetUncleByBlockNumberAndIndex => "eth_getUncleByBlockNumberAndIndex"
    case GetUncleCountByBlockHash => "eth_getUncleCountByBlockHash"
    case GetUncleCountByBlockNumber => "eth_getUncleCountByBlockNumber"
    case GetWork => "eth_getWork"
    case Hashrate => "eth_hashrate"
    case Mining => "eth_mining"
    case NewBlockFilter => "eth_newBlockFilter"
    case NewFilter => "eth_newFilter"
    case NewPendingTransactionFilter => "eth_newPendingTransactionFilter"
    case ProtocolVersion => "eth_protocolVersion"
    case SendRawTransaction => "eth_sendRawTransaction"
    case SendTransaction => "eth_sendTransaction"
    case Sign => "eth_sign"
    case SignTransaction => "eth_signTransaction"
    case SubmitHashrate => "eth_submitHashrate"
    case SubmitWork => "eth_submitWork"
    case Syncing => "eth_syncing"
    case UninstallFilter => "eth_uninstallFilter"
  }

  function ShapeOf(m: EthMethod): Shape {
    match m
    case Call | EstimateGas | GetBalance | GetCode | GetTransactionCount => OptionalLast(1)
    case GetStorageAt => OptionalLast(2)
    case GetBlockByHash | GetBlockByNumber => FlagLast
    case Accounts | BlockNumber | ChainId | Coinbase | GasPrice | GetWork | Hashrate | Mining
       | NewBlockFilter | NewPendingTransactionFilter | ProtocolVersion | Syncing => Fixed(0)
    case GetTransactionByBlockHashAndIndex | GetTransactionByBlockNumberAndIndex
       | GetUncleByBlockHashAndIndex | GetUncleByBlockNumberAndIndex | Sign | SubmitHashrate => Fixed(2)
    case SubmitWork => Fixed(3)
    case _ => Fixed(1)
  }

  /** What `rpc.request(method, args, opts)` is eventually called with. */
  datatype RpcCall = RpcCall(name: string, params: seq<Json>, opts: Json)

  /** A `Request`: the call it stands for and, once sent, the number of the
      promise the transport returned for it. */
  datatype Request = Request(call: RpcCall, promise: Option<nat>)

  /** `eth.<method>(...args)`: builds the request and sends nothing. */
  function Build(m: EthMethod, args: seq<Json>): (r: Request)
    ensures r.promise == None
    ensures r.call.name == MethodName(m)
    ensures r.call.opts == Arg(args, Arity(ShapeOf(m)))
    ensures |r.call.params| <= Arity(ShapeOf(m))
  {
    Request(RpcCall(MethodName(m), Params(ShapeOf(m), args), Arg(args, Arity(ShapeOf(m)))), None)
  }

  /** The methods with an optional block tag send it only when it is truthy. */
  lemma OptionalFromParams(m: EthMethod, obj: Json, from: Json, opts: Json)
    requires m in {Call, EstimateGas, GetBalance, GetCode, GetTransactionCount}
    ensures Build(m, [obj, from, opts]).call.params == if Truthy(from) then [obj, from] else [obj]
    ensures Build(m, [obj, from, opts]).call.opts == opts
  {
  }

  lemma StorageAtParams(addr: Json, pos: Json, from: Json, opts: Json)
    ensures Build(GetStorageAt, [addr, pos, from, opts]).call.params
      == if Truthy(from) then [addr, pos, from] else [addr, pos]
  {
  }

  /** Block lookups always send two parameters, the second `false` unless a
      truthy flag was given. */
  lemma BlockParams(m: EthMethod, block: Json, tx: Json)
    requires m in {GetBlockByHash, GetBlockByNumber}
    ensures Build(m, [block, tx]).call.params == [block, if Truthy(tx) then tx else Bool(false)]
    ensures Build(m, [block]).call.params == [block, Bool(false)]
  {
  }

  // ---------------------------------------------------------------------------
  // Lazy, memoised sending.

  /** The transport as far as the builder can tell: the calls it has been
      asked to make, in order (the `k`-th answered by promise `k`), and whether
      it has an `end` method. */
  datatype Transport = Transport(issued: seq<RpcCall>, hasEnd: bool)

  /** `then`, `catch` and `finally` all send the request the same way. */
  datatype Consumer = Then | Catch | Finally

  /** A request's promise, when it has one, is the transport's answer to it. */
  predicate Sent(r: Request, t: Transport) {
    r.promise.Some? ==> r.promise.value < |t.issued| && t.issued[r.promise.value] == r.call
  }

  datatype Consumed = Consumed(request: Request, transport: Transport, promise: nat)

  /** One of `then` / `catch` / `finally`: sends the call if it has not been
      sent, and chains onto the request's one promise. */
  function Consume(r: Request, t: Transport, c: Consumer): (out: Consumed)
    requires Sent(r, t)
    ensures r.promise.None? ==> out.transport.issued == t.issued + [r.call] && out.promise == |t.issued|
    ensures r.promise.Some? ==> out.transport == t && out.promise == r.promise.value
    ensures out.request == r.(promise := Some(out.promise)) && Sent(out.request, out.transport)
    ensures out.transport.hasEnd == t.hasEnd
  {
    match r.promise
    case Some(p) => Consumed(r, t, p)
    case None =>
      var p := |t.issued|;
      Consumed(r.(promise := Some(p)), t.(issued := t.issued + [r.call]), p)
  }

  datatype Consumers = Consumers(request: Request, transport: Transport, promises: seq<nat>)

  function ConsumeAll(r: Request, t: Transport, cs: seq<Consumer>): (out: Consumers)
    requires Sent(r, t)
    ensures |out.promises| == |cs|
    decreases |cs|
  {
    if cs == [] then Consumers(r, t, [])
    else
      var first := Consume(r, t, cs[0]);
      var rest := ConsumeAll(first.request, first.transport, cs[1..]);
      Consumers(rest.request, rest.transport, [first.promise] + rest.promises)
  }

  /** However many handlers are attached, a new request reaches the transport
      exactly once, on the first of them, and every handler chains onto that
      one promise; with none attached nothing is sent. */
  lemma {:induction false} SentAtMostOnce(r: Request, t: Transport, cs: seq<Consumer>)
    requires Sent(r, t)
    ensures var out := ConsumeAll(r, t, cs);
      && (r.promise.None? && cs == [] ==> out.transport.issued == t.issued)
      && (r.promise.None? && cs != [] ==> out.transport.issued == t.issued + [r.call])
      && (r.promise.Some? ==> out.transport.issued == t.issued)
      && (forall i :: 0 <= i < |cs| ==> out.promises[i] == if r.promise.Some? then r.promise.value else |t.issued|)
    decreases |cs|
  {
    if cs != [] {
      var first := Consume(r, t, cs[0]);
      SentAtMostOnce(first.request, first.transport, cs[1..]);
    }
  }

  datatype EndOutcome = TransportEnded | ResolvedAtOnce

  /** `end()`: delegates to the transport's `end` when it has one, otherwise
      resolves immediately; it sends nothing. */
  function End(t: Transport): (r: (EndOutcome, Transport))
    ensures r.1 == t
    ensures r.0 == ResolvedAtOnce <==> !t.hasEnd
  {
    (if t.hasEnd then TransportEnded else ResolvedAtOnce, t)
  }

  // ---------------------------------------------------------------------------
  // Hex helpers.

  /** The lower-case hex digits of `n`, most significant first, without
      leading zeros (`Number#toString(16)`, `BigInt#toString(16)`). */
  function HexDigitsOf(n: nat): (r: string)
    ensures |r| >= 1
    ensures forall i :: 0 <= i < |r| ==> r[i] in HexChars
    ensures r[0] == '0' ==> n == 0
    decreases n
  {
    if n < 16 then [HexDigit(n)] else HexDigitsOf(n / 16) + [HexDigit(n % 16)]
  }

  /** `'0x' + n.toString(16)`: a negative value keeps its sign after the
      prefix. */
  function ToHexText(n: int): string {
    if n < 0 then "0x-" + HexDigitsOf(-n) else "0x" + HexDigitsOf(n)
  }

  /** The value of a digit character in radices up to 36. */
  function DigitOf(c: char): nat {
    if '0' <= c <= '9' then (c - '0') as nat
    else if 'a' <= c <= 'z' then (c - 'a') as nat + 10
    else if 'A' <= c <= 'Z' then (c - 'A') as nat + 10
    else 36
  }

  predicate AllDigits(s: string, radix: nat) {
    forall i :: 0 <= i < |s| ==> DigitOf(s[i]) < radix
  }

  /** The value of a digit string in `radix`, most significant digit first. */
  function ValueOf(s: string, radix: nat): nat
    decreases |s|
  {
    if s == [] then 0 else ValueOf(s[..|s| - 1], radix) * radix + DigitOf(s[|s| - 1])
  }

  /** The integer literals the JavaScript string-to-number conversions accept:
      the empty text (zero), a `0x`/`0o`/`0b` prefix (either case) before at
      least one digit of that radix, or an optionally signed run of decimal
      digits. Surrounding white space is not modelled. */
  function IntegerLiteral(s: string): (r: Option<int>)
    ensures s == "" ==> r == Some(0)
    ensures |s| > 2 && s[..2] in {"0x", "0X"} && AllDigits(s[2..], 16) ==> r == Some(ValueOf(s[2..], 16))
    ensures |s| > 0 && s[0] == '-' && r.Some? ==> r.value <= 0
  {
    if s == "" then Some(0)
    else if |s| >= 2 && s[0] == '0' && s[1] in "xXoObB" then
      var radix := if s[1] in "xX" then 16 else if s[1] in "oO" then 8 else 2;
      var digits := s[2..];
      if digits != "" && AllDigits(digits, radix) then Some(ValueOf(digits, radix)) else None
    else if s[0] in "+-" then
      var digits := s[1..];
      if digits != "" && AllDigits(digits, 10) then
        Some(if s[0] == '-' then 0 - ValueOf(digits, 10) as int else ValueOf(digits, 10))
      else None
    else if AllDigits(s, 10) then Some(ValueOf(s, 10))
    else None
  }

  datatype SyntaxError = SyntaxError

  /** `BigInt(s, 16)`: the radix argument is ignored; a text that is not an
      integer literal throws. */
  function HexToBigInt(s: string): Result<int, SyntaxError> {
    match IntegerLiteral(s)
    case Some(n) => Ok(n)
    case None => Err(SyntaxError)
  }

  /** `bigIntToHex(n)`. */
  function BigIntToHex(n: int): string {
    ToHexText(n)
  }

  /** The largest integer a double holds together with all smaller ones. */
  const MaxSafeInteger: nat := 0x1F_FFFF_FFFF_FFFF

  /** A JavaScript number as far as the model follows it: an integer in the
      safe range, an integer beyond it (whose double, exact or not, the model
      does not compute), or anything else: NaN, or a decimal form with a
      fraction, an exponent or `Infinity` that the model does not evaluate. */
  datatype Number = Exact(value: int) | Unsafe(value: int) | Other

  function ToNumber(n: int): Number {
    if -(MaxSafeInteger as int) <= n <= MaxSafeInteger then Exact(n) else Unsafe(n)
  }

  /** `Number(s, 16)`: the radix argument is ignored. */
  function HexToNumber(s: string): Number {
    match IntegerLiteral(s)
    case Some(n) => ToNumber(n)
    case None => Other
  }

  /** `numberToHex(n)` on an integer. */
  function NumberToHex(n: int): string {
    ToHexText(n)
  }

  lemma {:induction false} HexDigitsValue(n: nat)
    ensures AllDigits(HexDigitsOf(n), 16) && ValueOf(HexDigitsOf(n), 16) == n
    decreases n
  {
    var r := HexDigitsOf(n);
    if n < 16 {
      assert r[..0] == [];
    } else {
      HexDigitsValue(n / 16);
      assert r[..|r| - 1] == HexDigitsOf(n / 16);
    }
    forall i | 0 <= i < |r| ensures DigitOf(r[i]) < 16 {
      assert r[i] in HexChars;
    }
  }

  /** For every natural number, `hexToBigInt(bigIntToHex(n)) == n`. */
  lemma BigIntRoundTrip(n: nat)
    ensures HexToBigInt(BigIntToHex(n)) == Ok(n)
  {
    var text := BigIntToHex(n);
    HexDigitsValue(n);
    assert text[..2] == "0x" && text[2..] == HexDigitsOf(n);
  }

  /** For every natural number up to 2^53 - 1, `hexToNumber(numberToHex(n))`
      is `n` exactly; above that the model does not compute the double. */
  lemma NumberRoundTrip(n: nat)
    ensures n <= MaxSafeInteger ==> HexToNumber(NumberToHex(n)) == Exact(n)
    ensures n > MaxSafeInteger ==> HexToNumber(NumberToHex(n)).Unsafe?
  {
    var text := NumberToHex(n);
    HexDigitsValue(n);
    assert text[..2] == "0x" && text[2..] == HexDigitsOf(n);
  }

  /** A negative value does not come back: its text `0x-…` is not a literal. */
  lemma NegativeDoesNotRoundTrip(n: int)
    requires n < 0
    ensures HexToBigInt(BigIntToHex(n)) == Err(SyntaxError)
    ensures HexToNumber(NumberToHex(n)) == Other
  {
    var text := ToHexText(n);
    assert text[2] == '-' && DigitOf(text[2]) == 36;
  }

  /** Distinct naturals get distinct texts. */
  lemma BigIntToHexInjective(a: nat, b: nat)
    requires BigIntToHex(a) == BigIntToHex(b)
    ensures a == b
  {
    BigIntRoundTrip(a);
    BigIntRoundTrip(b);
  }
}
