/** Log records as `eth_getLogs` returns them, and the order in which the
    iterator hands them to its callback (lib/eth-log-iterator.js, `sortLogs`). */
module Logs {
  import opened Bytes
  import opened Common

  /** A contract address in the text form used as the filter registry key. */
  type Address = string

  /** One emitted contract event. Topics and data are the decoded bytes of the
      hex strings the node returns; block number, transaction index and log
      index are the numbers `parse.number` reads from their hex quantities. */
  datatype Log = Log(
    address: Address,
    topics: seq<Bytes>,
    data: Bytes,
    blockNumber: nat,
    transactionHash: string,
    transactionIndex: nat,
    logIndex: nat,
    blockHash: string)

  // ---------------------------------------------------------------------------
  // The ordering key.

  /** (blockNumber, transactionIndex, logIndex) of `a` is lexicographically at
      most that of `b`. */
  predicate KeyLe(a: Log, b: Log) {
    || a.blockNumber < b.blockNumber
    || (a.blockNumber == b.blockNumber && a.transactionIndex < b.transactionIndex)
    || (a.blockNumber == b.blockNumber && a.transactionIndex == b.transactionIndex
        && a.logIndex <= b.logIndex)
  }

  predicate SameKey(a: Log, b: Log) {
    a.blockNumber == b.blockNumber && a.transactionIndex == b.transactionIndex
    && a.logIndex == b.logIndex
  }

  /** The numeric `||` of JavaScript: the left operand unless it is 0. */
  function OrElse(x: int, y: int): int {
    if x != 0 then x else y
  }

  /** The source's comparator: negative when `a` is to be placed before `b`. */
  function SourceComparator(a: Log, b: Log): int {
    OrElse(b.blockNumber - a.blockNumber,
      OrElse(b.transactionIndex - a.transactionIndex, b.logIndex - a.logIndex))
  }

  /** The comparator places `a` strictly first exactly when `a`'s key is the
      LARGER one: the source sorts newest first. */
  lemma SourceComparatorIsDescending(a: Log, b: Log)
    ensures SourceComparator(a, b) < 0 <==> (KeyLe(b, a) && !SameKey(a, b))
    ensures SourceComparator(a, b) == 0 <==> SameKey(a, b)
  {
  }

  datatype Direction = Ascending | Descending

  /** The source sorts descending; the evidently intended processing order
      (oldest log first, so that nonces follow chain order) is ascending. */
  function DirectionOf(v: Variant): (d: Direction)
    ensures v == AsWritten <==> d == Descending
  {
    match v
    case AsWritten => Descending
    case Intended => Ascending
  }

  /** `a` may come before `b` in direction `d`. */
  predicate InOrder(d: Direction, a: Log, b: Log) {
    match d
    case Ascending => KeyLe(a, b)
    case Descending => KeyLe(b, a)
  }

  predicate Ordered(d: Direction, s: seq<Log>) {
    forall i, j :: 0 <= i < j < |s| ==> InOrder(d, s[i], s[j])
  }

  /** Logs that share a key are the same log (true of any one chain, where a
      block's log indices are unique). */
  predicate KeysIdentify(s: seq<Log>) {
    forall x, y :: x in s && y in s && SameKey(x, y) ==> x == y
  }

  // ---------------------------------------------------------------------------
  // Sorting (`Array#sort` with the comparator).

  lemma InOrderTotal(d: Direction, a: Log, b: Log)
    ensures InOrder(d, a, b) || InOrder(d, b, a)
  {
  }

  lemma InOrderTransitive(d: Direction, a: Log, b: Log, c: Log)
    requires InOrder(d, a, b) && InOrder(d, b, c)
    ensures InOrder(d, a, c)
  {
  }

  lemma InOrderAntisymmetric(d: Direction, a: Log, b: Log)
    requires InOrder(d, a, b) && InOrder(d, b, a)
    ensures SameKey(a, b)
  {
  }

  lemma OrderedTail(d: Direction, s: seq<Log>)
    requires Ordered(d, s) && s != []
    ensures Ordered(d, s[1..])
  {
    forall i, j | 0 <= i < j < |s| - 1 ensures InOrder(d, s[1..][i], s[1..][j]) {
      assert s[1..][i] == s[i + 1] && s[1..][j] == s[j + 1];
    }
  }

  /** Placing `x` in front of an ordered sequence whose head it may precede. */
  lemma OrderedCons(d: Direction, x: Log, s: seq<Log>)
    requires Ordered(d, s)
    requires forall y :: y in s ==> InOrder(d, x, y)
    ensures Ordered(d, [x] + s)
  {
    var r := [x] + s;
    forall i, j | 0 <= i < j < |r| ensures InOrder(d, r[i], r[j]) {
      assert r[j] == s[j - 1];
      if i > 0 {
        assert r[i] == s[i - 1];
      } else {
        assert s[j - 1] in s;
      }
    }
  }

  function Insert(d: Direction, x: Log, s: seq<Log>): (r: seq<Log>)
    requires Ordered(d, s)
    ensures Ordered(d, r)
    ensures multiset(r) == multiset(s) + multiset{x}
  {
    if s == [] then [x]
    else if InOrder(d, x, s[0]) then
      assert forall y :: y in s ==> InOrder(d, x, y) by {
        forall y | y in s ensures InOrder(d, x, y) {
          var j :| 0 <= j < |s| && s[j] == y;
          if j > 0 { InOrderTransitive(d, x, s[0], y); }
        }
      }
      OrderedCons(d, x, s);
      [x] + s
    else
      OrderedTail(d, s);
      var t := Insert(d, x, s[1..]);
      assert s == [s[0]] + s[1..];
      assert forall y :: y in t ==> InOrder(d, s[0], y) by {
        forall y | y in t ensures InOrder(d, s[0], y) {
          assert y in multiset(t);
          if y == x {
            InOrderTotal(d, x, s[0]);
          } else {
            assert y in multiset(s[1..]);
            var j :| 0 <= j < |s[1..]| && s[1..][j] == y;
            assert s[j + 1] == y;
          }
        }
      }
      OrderedCons(d, s[0], t);
      [s[0]] + t
  }

  /** The merged batch in processing order: a permutation of the input that is
      ordered in direction `d`. */
  function SortLogs(d: Direction, s: seq<Log>): (r: seq<Log>)
    ensures Ordered(d, r)
    ensures multiset(r) == multiset(s)
    ensures |r| == |s|
  {
    if s == [] then []
    else
      assert s == [s[0]] + s[1..];
      Insert(d, s[0], SortLogs(d, s[1..]))
  }

  lemma MultisetTail(a: seq<Log>, b: seq<Log>)
    requires a != [] && b != [] && a[0] == b[0]
    requires multiset(a) == multiset(b)
    ensures multiset(a[1..]) == multiset(b[1..])
  {
    assert a == [a[0]] + a[1..] && b == [b[0]] + b[1..];
    assert multiset(a[1..]) == multiset(a) - multiset{a[0]};
    assert multiset(b[1..]) == multiset(b) - multiset{b[0]};
  }

  /** The first element of an ordered arrangement is determined by its contents. */
  lemma OrderedHeadsEqual(d: Direction, a: seq<Log>, b: seq<Log>)
    requires Ordered(d, a) && Ordered(d, b)
    requires multiset(a) == multiset(b)
    requires KeysIdentify(a)
    requires a != []
    ensures b != [] && a[0] == b[0]
  {
    assert a[0] in multiset(b);
    assert b != [];
    assert b[0] in multiset(a);
    var j :| 0 <= j < |a| && a[j] == b[0];
    var k :| 0 <= k < |b| && b[k] == a[0];
    assert InOrder(d, a[0], b[0]) by {
      if j != 0 { assert InOrder(d, a[0], a[j]); }
    }
    assert InOrder(d, b[0], a[0]) by {
      if k != 0 { assert InOrder(d, b[0], b[k]); }
    }
    InOrderAntisymmetric(d, a[0], b[0]);
    assert a[0] in a && b[0] in a;
  }

  /** Two orderings of the same logs agree when keys identify logs: the
      processing order does not depend on the order the batch arrived in. */
  lemma {:induction false} OrderedPermutationsEqual(d: Direction, a: seq<Log>, b: seq<Log>)
    requires Ordered(d, a) && Ordered(d, b)
    requires multiset(a) == multiset(b)
    requires KeysIdentify(a)
    ensures a == b
  {
    assert |a| == |multiset(a)| == |multiset(b)| == |b|;
    if a != [] {
      OrderedHeadsEqual(d, a, b);
      MultisetTail(a, b);
      assert KeysIdentify(a[1..]) by {
        forall x, y | x in a[1..] && y in a[1..] && SameKey(x, y) ensures x == y {
          assert x in a && y in a;
        }
      }
      OrderedTail(d, a);
      OrderedTail(d, b);
      OrderedPermutationsEqual(d, a[1..], b[1..]);
      assert a == [a[0]] + a[1..] && b == [b[0]] + b[1..];
    }
  }

  /** Reordering the fetched batch does not change the processing order. */
  lemma SortIgnoresArrivalOrder(d: Direction, a: seq<Log>, b: seq<Log>)
    requires multiset(a) == multiset(b)
    requires KeysIdentify(a)
    ensures SortLogs(d, a) == SortLogs(d, b)
  {
    var sa, sb := SortLogs(d, a), SortLogs(d, b);
    assert KeysIdentify(sa) by {
      forall x, y | x in sa && y in sa && SameKey(x, y) ensures x == y {
        assert x in multiset(sa) && y in multiset(sa);
        assert x in multiset(a) && y in multiset(a);
      }
    }
    OrderedPermutationsEqual(d, sa, sb);
  }

  /** As written, of two logs from successive blocks the newer one is handed
      to the callback first; the intended order hands the older one first. */
  lemma NewestFirstAsWritten(older: Log, newer: Log)
    requires older.blockNumber < newer.blockNumber
    ensures SortLogs(DirectionOf(AsWritten), [older, newer]) == [newer, older]
    ensures SortLogs(DirectionOf(Intended), [newer, older]) == [older, newer]
  {
    var d := DirectionOf(AsWritten);
    assert SortLogs(d, [newer]) == [newer];
    assert [older, newer][1..] == [newer];
    var e := DirectionOf(Intended);
    assert SortLogs(e, [older]) == [older];
    assert [newer, older][1..] == [older];
  }
}
