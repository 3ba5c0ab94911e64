/** Byte sequences, the hex text form used by Node's `Buffer#toString('hex')`
    and `Buffer.from(s, 'hex')`, and big-endian unsigned integers. */
module Bytes {

  /** One byte, 0..255, as `Buffer` and `Uint8Array` hold it. */
  type Byte = x: int | 0 <= x < 256
  type Bytes = seq<Byte>

  // ---------------------------------------------------------------------------
  // Slicing as `Buffer#slice` does it: out-of-range bounds are clamped.

  function Drop(s: Bytes, n: nat): (r: Bytes)
    ensures |s| <= n ==> r == []
    ensures n < |s| ==> |r| == |s| - n && forall i :: 0 <= i < |r| ==> r[i] == s[n + i]
  {
    if |s| <= n then [] else s[n..]
  }

  function Take(s: Bytes, n: nat): (r: Bytes)
    ensures |r| == if |s| <= n then |s| else n
    ensures r <= s
  {
    if |s| <= n then s else s[..n]
  }

  lemma TakeDropSplit(s: Bytes, n: nat)
    ensures Take(s, n) + Drop(s, n) == s
  {
  }

  /** The byte at `i`, or 0 where JavaScript reads `undefined` and then uses
      it in a bitwise operator (which converts it to 0). */
  function ByteAt(s: Bytes, i: int): (b: Byte)
    ensures 0 <= i < |s| ==> b == s[i]
    ensures (i < 0 || |s| <= i) ==> b == 0
  {
    if 0 <= i < |s| then s[i] else 0
  }

  // ---------------------------------------------------------------------------
  // Hex digits.

  const HexChars: string := "0123456789abcdef"

  predicate IsHexChar(c: char) {
    ('0' <= c <= '9') || ('a' <= c <= 'f') || ('A' <= c <= 'F')
  }

  function HexValue(c: char): (v: nat)
    requires IsHexChar(c)
    ensures v < 16
  {
    if '0' <= c <= '9' then (c - '0') as nat
    else if 'a' <= c <= 'f' then (c - 'a') as nat + 10
    else (c - 'A') as nat + 10
  }

  function HexDigit(v: nat): (c: char)
    requires v < 16
    ensures IsHexChar(c) && HexValue(c) == v
    ensures c == HexChars[v]
  {
    HexChars[v]
  }

  // ---------------------------------------------------------------------------
  // `Buffer#toString('hex')`: two lower-case digits per byte.

  function Hex(s: Bytes): (r: string)
    ensures |r| == 2 * |s|
    ensures forall i :: 0 <= i < |r| ==> IsHexChar(r[i])
  {
    if s == [] then ""
    else [HexDigit(s[0] / 16), HexDigit(s[0] % 16)] + Hex(s[1..])
  }

  lemma {:induction false} HexAppend(a: Bytes, b: Bytes)
    ensures Hex(a + b) == Hex(a) + Hex(b)
  {
    if a == [] {
      assert a + b == b;
    } else {
      assert (a + b)[0] == a[0];
      assert (a + b)[1..] == a[1..] + b;
      HexAppend(a[1..], b);
    }
  }

  /** Hex is injective: two byte strings with the same text are equal. */
  lemma {:induction false} HexInjective(a: Bytes, b: Bytes)
    requires Hex(a) == Hex(b)
    ensures a == b
  {
    if a != [] && b != [] {
      var ha, hb := Hex(a), Hex(b);
      assert ha[0] == hb[0] && ha[1] == hb[1];
      DigitsDetermineByte(a[0], b[0]);
      assert ha[2..] == Hex(a[1..]) && hb[2..] == Hex(b[1..]);
      HexInjective(a[1..], b[1..]);
      assert a == [a[0]] + a[1..] && b == [b[0]] + b[1..];
    }
  }

  lemma DigitsDetermineByte(x: Byte, y: Byte)
    requires HexDigit(x / 16) == HexDigit(y / 16) && HexDigit(x % 16) == HexDigit(y % 16)
    ensures x == y
  {
    assert x / 16 == y / 16 && x % 16 == y % 16;
  }

  /** `Buffer.from(s, 'hex')`: decodes digit pairs from the front and stops at
      the first pair that is not two hex digits; an odd trailing digit is
      dropped. It never fails. */
  function DecodeHex(s: string): (r: Bytes)
    ensures |r| <= |s| / 2
  {
    if |s| < 2 || !IsHexChar(s[0]) || !IsHexChar(s[1]) then []
    else [HexValue(s[0]) * 16 + HexValue(s[1])] + DecodeHex(s[2..])
  }

  /** Reading back what `Hex` wrote gives the same bytes. */
  lemma {:induction false} DecodeHexOfHex(s: Bytes)
    ensures DecodeHex(Hex(s)) == s
  {
    if s != [] {
      var h := Hex(s);
      assert h[2..] == Hex(s[1..]);
      DecodeHexOfHex(s[1..]);
      ByteDigits(s[0]);
    }
  }

  lemma ByteDigits(x: Byte)
    ensures HexValue(HexDigit(x / 16)) * 16 + HexValue(HexDigit(x % 16)) == x
  {
  }

  /** Anything after the first non-hex pair is ignored. */
  lemma {:induction false} DecodeHexStopsAtGarbage(s: Bytes, tail: string)
    requires |tail| >= 1 && !IsHexChar(tail[0])
    ensures DecodeHex(Hex(s) + tail) == s
  {
    if s == [] {
      assert Hex(s) + tail == tail;
    } else {
      var hi, lo := HexDigit(s[0] / 16), HexDigit(s[0] % 16);
      var rest := Hex(s[1..]) + tail;
      var first := HexValue(hi) * 16 + HexValue(lo);
      calc {
        DecodeHex(Hex(s) + tail);
        { HexCons(s, tail); }
        DecodeHex([hi, lo] + rest);
        { DecodeHexPair(hi, lo, rest); }
        [first] + DecodeHex(rest);
        { DecodeHexStopsAtGarbage(s[1..], tail); ByteDigits(s[0]); }
        [s[0]] + s[1..];
      }
      assert [s[0]] + s[1..] == s;
    }
  }

  lemma HexCons(s: Bytes, tail: string)
    requires s != []
    ensures Hex(s) + tail == [HexDigit(s[0] / 16), HexDigit(s[0] % 16)] + (Hex(s[1..]) + tail)
  {
    var pair := [HexDigit(s[0] / 16), HexDigit(s[0] % 16)];
    assert Hex(s) == pair + Hex(s[1..]);
    assert (pair + Hex(s[1..])) + tail == pair + (Hex(s[1..]) + tail);
  }

  lemma DecodeHexPair(hi: char, lo: char, rest: string)
    requires IsHexChar(hi) && IsHexChar(lo)
    ensures DecodeHex([hi, lo] + rest) == [HexValue(hi) * 16 + HexValue(lo)] + DecodeHex(rest)
  {
    assert ([hi, lo] + rest)[2..] == rest;
  }

  // ---------------------------------------------------------------------------
  // Big-endian unsigned integers (`parse.bigint` of a byte string, and the
  // uint256 words of the Solidity contract ABI).

  function BigEndian(s: Bytes): (n: nat)
    ensures n < Pow256(|s|)
  {
    if s == [] then 0 else BigEndian(s[..|s| - 1]) * 256 + s[|s| - 1]
  }

  function Pow256(k: nat): (p: nat)
    ensures p >= 1
  {
    if k == 0 then 1 else 256 * Pow256(k - 1)
  }

  /** The `len`-byte big-endian encoding of `n`, as an ABI word when `len` is 32. */
  function ToBigEndian(n: nat, len: nat): (r: Bytes)
    requires n < Pow256(len)
    ensures |r| == len
  {
    if len == 0 then [] else ToBigEndian(n / 256, len - 1) + [n % 256]
  }

  lemma {:induction false} BigEndianRoundTrip(n: nat, len: nat)
    requires n < Pow256(len)
    ensures BigEndian(ToBigEndian(n, len)) == n
  {
    if len > 0 {
      var q, m := n / 256, n % 256;
      var r := ToBigEndian(n, len);
      assert r == ToBigEndian(q, len - 1) + [m];
      assert r[..len - 1] == ToBigEndian(q, len - 1);
      BigEndianRoundTrip(q, len - 1);
      assert BigEndian(r) == BigEndian(r[..len - 1]) * 256 + r[len - 1];
    }
  }

  /** Leading zero bytes do not change the value. */
  lemma {:induction false} BigEndianLeadingZeros(k: nat, s: Bytes)
    ensures BigEndian(seq(k, _ => 0) + s) == BigEndian(s)
    decreases |s|
  {
    var z: Bytes := seq(k, _ => 0);
    if s == [] {
      assert z + s == z;
      AllZero(k);
    } else {
      var t := z + s;
      assert t[..|t| - 1] == z + s[..|s| - 1];
      BigEndianLeadingZeros(k, s[..|s| - 1]);
    }
  }

  lemma {:induction false} AllZero(k: nat)
    ensures BigEndian(seq(k, _ => 0)) == 0
  {
    if k > 0 {
      var z: Bytes := seq(k, _ => 0);
      assert z[..k - 1] == seq(k - 1, _ => 0);
      AllZero(k - 1);
    }
  }
}
