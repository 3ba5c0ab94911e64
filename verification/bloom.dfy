/** The log-bloom membership test (lib/eth-bloom.js): each topic is hashed,
    three 11-bit indices are cut from the digest as in the M3:2048 bloom of
    section 4.3.1 of the Ethereum Yellow Paper, and a topic is reported
    present when all three bits are set in the filter. The digest function
    (SHA3-256 here, where the Yellow Paper uses Keccak-256) is a parameter. */
module Bloom {
  import opened Common
  import opened Bytes

  /** The width of the filter in bits. */
  const FilterBits: nat := 2048

  /** One 11-bit index: the low three bits of digest byte `k` above the whole
      of byte `k + 1`. */
  function Index(h: Bytes, k: nat): (i: nat)
    ensures i < FilterBits
  {
    (ByteAt(h, k) % 8) * 256 + ByteAt(h, k + 1)
  }

  /** The source's `(h[k] & 0b111) << 8 | h[k + 1]`, evaluated on the two
      bytes held in 16 bits, is that index. */
  lemma IndexIsBitwise(h: Bytes, k: nat, hi: bv16, lo: bv16)
    requires hi as nat == ByteAt(h, k) && lo as nat == ByteAt(h, k + 1)
    ensures (((hi & 7) << 8) | lo) as nat == Index(h, k)
  {
    Below256(hi);
    Below256(lo);
    var top := hi & 7;
    LowBitsOfByte(hi);
    var r := (top << 8) | lo;
    PlaceHighByte(top, lo);
    SplitHalves(r);
  }

  lemma Below256(b: bv16)
    requires b as nat < 256
    ensures b < 256
  {
  }

  lemma LowBitsOfByte(b: bv16)
    requires b < 256
    ensures (b & 7) as nat == b as nat % 8 && b & 7 < 8
  {
  }

  lemma PlaceHighByte(a: bv16, b: bv16)
    requires a < 8 && b < 256
    ensures ((a << 8) | b) >> 8 == a && ((a << 8) | b) & 255 == b
  {
  }

  lemma SplitHalves(r: bv16)
    ensures r as nat == (r >> 8) as nat * 256 + (r & 255) as nat
  {
  }

  /** `bits`: the three indices of a digest. */
  function Bits(h: Bytes): (r: seq<nat>)
    ensures |r| == 3
    ensures forall i :: 0 <= i < |r| ==> r[i] < FilterBits
  {
    [Index(h, 0), Index(h, 2), Index(h, 4)]
  }

  function Pow2(k: nat): (p: nat)
    ensures p >= 1
  {
    if k == 0 then 1 else 2 * Pow2(k - 1)
  }

  /** Bit `i % 8`, counted from the least significant end, of byte `i / 8` is
      set; a byte past the end of the filter reads as absent. */
  predicate Probe(filter: Bytes, i: nat) {
    (ByteAt(filter, i / 8) / Pow2(i % 8)) % 2 == 1
  }

  /** The source's `filter[i >> 3] & (1 << (i & 0b111))`, evaluated on the
      byte held in 8 bits, is non-zero exactly when the probe succeeds. */
  lemma ProbeIsMask(filter: Bytes, i: nat, byte: bv8)
    requires byte as nat == ByteAt(filter, i / 8)
    ensures Probe(filter, i) <==> byte & (1 << (i % 8)) != 0
  {
    MaskedBit(byte, i % 8);
  }

  lemma MaskedBit(b: bv8, k: nat)
    requires k < 8
    ensures b & (1 << k) != 0 <==> (b as nat / Pow2(k)) % 2 == 1
  {
    MaskIsShift(b, k);
    LowBit(b >> k);
    ShiftIsDivision(b, k);
  }

  lemma MaskIsShift(b: bv8, k: nat)
    requires k < 8
    ensures b & (1 << k) != 0 <==> (b >> k) & 1 != 0
  {
  }

  lemma LowBit(c: bv8)
    ensures c & 1 != 0 <==> c as nat % 2 == 1
  {
  }

  /** A right shift by `k` divides by 2^k. */
  lemma {:induction false} ShiftIsDivision(b: bv8, k: nat)
    requires k <= 8
    ensures (b >> k) as nat == b as nat / Pow2(k)
  {
    if k > 0 {
      ShiftIsDivision(b, k - 1);
      ShiftAgain(b, k);
      HalveByte(b >> (k - 1));
      DivDiv(b as nat, Pow2(k - 1));
    }
  }

  lemma ShiftAgain(b: bv8, k: nat)
    requires 0 < k <= 8
    ensures b >> k == (b >> (k - 1)) >> 1
  {
  }

  lemma HalveByte(c: bv8)
    ensures (c >> 1) as nat == c as nat / 2
  {
  }

  lemma DivUnique(x: int, d: int, q: int, r: int)
    requires d > 0 && x == q * d + r && 0 <= r < d
    ensures x / d == q
  {
    var q' := x / d;
    assert (q' - q) * d == r - x % d;
    ProductBelow(q' - q, d, r - x % d);
  }

  lemma ProductBelow(a: int, d: int, e: int)
    requires d > 0 && a * d == e && -d < e < d
    ensures a == 0
  {
    if a > 0 {
      Grow(a, d);
      assert false;
    } else if a < 0 {
      Grow(-a, d);
      assert false;
    }
  }

  lemma Grow(a: int, d: int)
    requires a >= 1 && d > 0
    ensures a * d >= d
  {
  }

  lemma DivDiv(x: nat, a: nat)
    requires a > 0
    ensures x / a / 2 == x / (2 * a)
  {
    var q, r := x / a, x % a;
    var q2, r2 := q / 2, q % 2;
    assert x == q2 * (2 * a) + (r2 * a + r) by {
      assert q == 2 * q2 + r2;
      assert x == q * a + r;
      assert q * a == (2 * q2 + r2) * a == q2 * (2 * a) + r2 * a;
    }
    assert 0 <= r2 * a + r < 2 * a by {
      assert r2 * a <= a;
    }
    DivUnique(x, 2 * a, q2, r2 * a + r);
  }

  // ---------------------------------------------------------------------------
  // The exported test.

  /** "0x" occurs in `s` at position `k`. */
  predicate PrefixAt(s: string, k: nat) {
    k + 1 < |s| && s[k] == '0' && s[k + 1] == 'x'
  }

  /** `bloomfilter.replace('0x', '')`: removes the first occurrence of "0x",
      wherever it is, and nothing when there is none. */
  function StripFirst0x(s: string): (r: string)
    ensures (forall k :: 0 <= k < |s| ==> !PrefixAt(s, k)) ==> r == s
    ensures PrefixAt(s, 0) ==> r == s[2..]
  {
    if |s| < 2 then s
    else if PrefixAt(s, 0) then s[2..]
    else
      assert forall k :: 0 <= k < |s| - 1 ==> (PrefixAt(s[1..], k) <==> PrefixAt(s, k + 1));
      [s[0]] + StripFirst0x(s[1..])
  }

  /** The occurrence removed is the first one. */
  lemma {:induction false} StripRemovesFirst(s: string, k: nat)
    requires PrefixAt(s, k)
    requires forall j :: 0 <= j < k ==> !PrefixAt(s, j)
    ensures StripFirst0x(s) == s[..k] + s[k + 2..]
  {
    if k > 0 {
      var t := s[1..];
      assert PrefixAt(t, k - 1);
      forall j | 0 <= j < k - 1 ensures !PrefixAt(t, j) {
        assert !PrefixAt(s, j + 1);
      }
      StripRemovesFirst(t, k - 1);
      assert s[..k] + s[k + 2..] == [s[0]] + (t[..k - 1] + t[k + 1..]);
    }
  }

  /** The decimal text of an array index, as `for...in` yields it, in ASCII. */
  function DecimalText(n: nat): (r: Bytes)
    ensures |r| >= 1
    ensures forall i :: 0 <= i < |r| ==> 48 <= r[i] < 58
  {
    if n < 10 then [48 + n] else DecimalText(n / 10) + [48 + n % 10]
  }

  /** What gets hashed for the `k`-th topic: as written `for (const topic in
      topics)` binds the index, so the decimal text of `k`; intended, the
      topic itself. */
  function HashInput(v: Variant, topics: seq<Bytes>, k: nat): Bytes
    requires k < |topics|
  {
    match v
    case AsWritten => DecimalText(k)
    case Intended => topics[k]
  }

  /** The index actually probed for the index `b`: as written the probe reads
      `b[0]`, which is undefined on a number and is taken as 0 by the shift
      and the mask. */
  function ProbedIndex(v: Variant, b: nat): nat {
    match v
    case AsWritten => 0
    case Intended => b
  }

  /** `high.every(...)`: all three probes positive. */
  predicate AllProbes(v: Variant, filter: Bytes, high: seq<nat>) {
    forall j :: 0 <= j < |high| ==> Probe(filter, ProbedIndex(v, high[j]))
  }

  predicate TopicPositive(v: Variant, sha3: Bytes -> Bytes, filter: Bytes, topics: seq<Bytes>, k: nat)
    requires k < |topics|
  {
    AllProbes(v, filter, Bits(sha3(HashInput(v, topics, k))))
  }

  /** Each topic's verdict, in list order. */
  function Verdicts(v: Variant, sha3: Bytes -> Bytes, filter: Bytes, topics: seq<Bytes>): (r: seq<bool>)
    ensures |r| == |topics|
    ensures forall k :: 0 <= k < |r| ==> r[k] == TopicPositive(v, sha3, filter, topics, k)
  {
    seq(|topics|, k requires 0 <= k < |topics| => TopicPositive(v, sha3, filter, topics, k))
  }

  /** The `for` loop from position `k` on: true at the first positive
      verdict, false when the list runs out. */
  function FirstPositive(verdicts: seq<bool>, k: nat): bool
    requires k <= |verdicts|
    decreases |verdicts| - k
  {
    if k == |verdicts| then false
    else if verdicts[k] then true
    else FirstPositive(verdicts, k + 1)
  }

  /** The exported function on the filter text and the topic list (an absent
      list being the empty one). */
  function BloomMatch(v: Variant, sha3: Bytes -> Bytes, bloomfilter: string, topics: seq<Bytes>): (r: bool)
    ensures topics == [] ==> !r
  {
    FirstPositive(Verdicts(v, sha3, DecodeHex(StripFirst0x(bloomfilter)), topics), 0)
  }

  /** Returning at the first positive verdict answers whether any is. */
  lemma {:induction false} FirstPositiveExists(verdicts: seq<bool>, k: nat)
    requires k <= |verdicts|
    ensures FirstPositive(verdicts, k) <==> exists j :: k <= j < |verdicts| && verdicts[j]
    decreases |verdicts| - k
  {
    if k < |verdicts| {
      FirstPositiveExists(verdicts, k + 1);
      if verdicts[k] {
        assert k <= k < |verdicts| && verdicts[k];
      }
    }
  }

  /** The three bits of a digest are all set in the filter. */
  predicate HasBits(filter: Bytes, digest: Bytes) {
    forall j :: 0 <= j < 3 ==> Probe(filter, Bits(digest)[j])
  }

  /** Intended: the filter answers true exactly when some topic has all three
      of its bits set. */
  lemma IntendedMatch(sha3: Bytes -> Bytes, bloomfilter: string, topics: seq<Bytes>)
    ensures var filter := DecodeHex(StripFirst0x(bloomfilter));
      (BloomMatch(Intended, sha3, bloomfilter, topics) <==>
         exists k :: 0 <= k < |topics| && HasBits(filter, sha3(topics[k])))
  {
    var filter := DecodeHex(StripFirst0x(bloomfilter));
    var verdicts := Verdicts(Intended, sha3, filter, topics);
    FirstPositiveExists(verdicts, 0);
    forall k | 0 <= k < |topics| ensures verdicts[k] <==> HasBits(filter, sha3(topics[k])) {
      var high := Bits(sha3(topics[k]));
      assert verdicts[k] == AllProbes(Intended, filter, high);
      assert forall j :: 0 <= j < |high| ==> ProbedIndex(Intended, high[j]) == high[j];
    }
  }

  /** As written the answer does not depend on the topics' contents or on the
      hash: it is true exactly when there is a topic and the lowest bit of the
      filter's first byte is set. */
  lemma AsWrittenMatch(sha3: Bytes -> Bytes, bloomfilter: string, topics: seq<Bytes>)
    ensures var filter := DecodeHex(StripFirst0x(bloomfilter));
      BloomMatch(AsWritten, sha3, bloomfilter, topics) <==> |topics| > 0 && ByteAt(filter, 0) % 2 == 1
  {
    var filter := DecodeHex(StripFirst0x(bloomfilter));
    FirstPositiveExists(Verdicts(AsWritten, sha3, filter, topics), 0);
    forall k | 0 <= k < |topics|
      ensures TopicPositive(AsWritten, sha3, filter, topics, k) <==> Probe(filter, 0)
    {
      var high := Bits(sha3(HashInput(AsWritten, topics, k)));
      assert ProbedIndex(AsWritten, high[0]) == 0;
    }
    if |topics| > 0 {
      assert Verdicts(AsWritten, sha3, filter, topics)[0] == Probe(filter, 0);
    }
  }

  /** The "0x"-prefixed hex text of a filter decodes back to the filter. */
  lemma FilterText(filter: Bytes)
    ensures DecodeHex(StripFirst0x("0x" + Hex(filter))) == filter
  {
    var text := "0x" + Hex(filter);
    assert PrefixAt(text, 0) && text[2..] == Hex(filter);
    DecodeHexOfHex(filter);
  }

  /** A filter holding exactly the bits of a topic, none of them bit 0: the
      intended test finds the topic, the test as written answers false. */
  lemma AsWrittenMissesMember()
    ensures var sha3 := (_: Bytes) => seq(32, _ => 1);
      var filter := seq(32, _ => 0) + [2];
      var topics := [seq(32, _ => 7)];
      && BloomMatch(Intended, sha3, "0x" + Hex(filter), topics)
      && !BloomMatch(AsWritten, sha3, "0x" + Hex(filter), topics)
  {
    var ones: Bytes := seq(32, _ => 1);
    var sha3 := (_: Bytes) => ones;
    var filter: Bytes := seq(32, _ => 0) + [2];
    var topics := [seq(32, _ => 7)];
    var text := "0x" + Hex(filter);
    FilterText(filter);
    assert ByteAt(ones, 0) == 1 && ByteAt(ones, 1) == 1 && ByteAt(ones, 2) == 1
      && ByteAt(ones, 3) == 1 && ByteAt(ones, 4) == 1 && ByteAt(ones, 5) == 1;
    assert Bits(ones) == [257, 257, 257];
    assert ByteAt(filter, 32) == 2 && ByteAt(filter, 0) == 0;
    assert Probe(filter, 257);
    assert HasBits(filter, sha3(topics[0]));
    assert BloomMatch(Intended, sha3, text, topics) by {
      IntendedMatch(sha3, text, topics);
    }
    assert !BloomMatch(AsWritten, sha3, text, topics) by {
      AsWrittenMatch(sha3, text, topics);
    }
  }
}
