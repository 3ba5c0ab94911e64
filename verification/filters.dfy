/** The filter registry of the log iterator: contract address -> set of topic-0
    values of interest (lib/eth-log-iterator.js, `addFilter` / `deleteFilter`).
    The source keeps it in an insertion-ordered map whose entries disappear
    when their topic set becomes empty; `order` records the insertion order,
    which is the order in which the per-address fetches are concatenated. */
module Filters {
  import opened Bytes
  import opened Logs

  type Topic = Bytes

  datatype Registry = Registry(order: seq<Address>, topics: map<Address, set<Topic>>)

  /** The representation invariant: `order` lists every key once and no key
      maps to an empty set. */
  predicate Valid(r: Registry) {
    && (forall i, j :: 0 <= i < j < |r.order| ==> r.order[i] != r.order[j])
    && (forall a :: a in r.topics ==> a in r.order)
    && (forall i :: 0 <= i < |r.order| ==> r.order[i] in r.topics)
    && (forall a :: a in r.topics ==> r.topics[a] != {})
  }

  const Empty: Registry := Registry([], map[])

  /** The topics registered for `a` (none when it is not a key). */
  function TopicsOf(r: Registry, a: Address): set<Topic> {
    if a in r.topics then r.topics[a] else {}
  }

  function Without(s: seq<Address>, a: Address): (t: seq<Address>)
    ensures forall x :: x in t <==> x in s && x != a
    ensures (forall i, j :: 0 <= i < j < |s| ==> s[i] != s[j])
        ==> (forall i, j :: 0 <= i < j < |t| ==> t[i] != t[j])
  {
    if s == [] then []
    else if s[0] == a then Without(s[1..], a)
    else
      var t := Without(s[1..], a);
      assert forall x :: x in s[1..] ==> x in s;
      assert (forall i, j :: 0 <= i < j < |s| ==> s[i] != s[j]) ==> s[0] !in t;
      [s[0]] + t
  }

  /** `addFilter(address, topics)`: unions `topics` into the address's set,
      creating the entry (at the end of the order) when it is new. */
  function AddFilter(r: Registry, address: Address, topics: seq<Topic>): (r': Registry)
    ensures Valid(r) ==> Valid(r')
    ensures TopicsOf(r', address) == TopicsOf(r, address) + set t | t in topics
    ensures forall a :: a != address ==> TopicsOf(r', a) == TopicsOf(r, a)
    ensures forall a :: a != address ==> (a in r'.topics <==> a in r.topics)
    ensures Valid(r) && address in r.topics ==> r'.order == r.order
    ensures Valid(r) && address !in r.topics && topics != [] ==> r'.order == r.order + [address]
  {
    var added := set t | t in topics;
    assert topics != [] ==> topics[0] in added;
    if address in r.topics then
      Registry(r.order, r.topics[address := r.topics[address] + added])
    else if added == {} then
      r
    else
      Registry(r.order + [address], r.topics[address := added])
  }

  /** Registering topics for an address not yet in the registry appends it. */
  lemma AddFresh(r: Registry, address: Address, topics: seq<Topic>)
    requires address !in r.topics && topics != []
    ensures AddFilter(r, address, topics) == Registry(r.order + [address], r.topics[address := set t | t in topics])
  {
    var added := set t | t in topics;
    assert topics[0] in added;
    assert AddFilter(r, address, topics) == Registry(r.order + [address], r.topics[address := added]);
  }

  /** `deleteFilter(address, topics)`: nothing for an unknown address;
      otherwise removes exactly the listed topics of that address, and the
      entry with them when none is left. */
  function DeleteFilter(r: Registry, address: Address, topics: seq<Topic>): (r': Registry)
    ensures address !in r.topics ==> r' == r
    ensures Valid(r) ==> Valid(r')
    ensures TopicsOf(r', address) == TopicsOf(r, address) - set t | t in topics
    ensures forall a :: a != address ==> TopicsOf(r', a) == TopicsOf(r, a)
    ensures forall a :: a != address ==> (a in r'.topics <==> a in r.topics)
  {
    if address !in r.topics then r
    else
      var rest := r.topics[address] - set t | t in topics;
      if rest == {} then
        var order := Without(r.order, address);
        assert forall i :: 0 <= i < |order| ==> order[i] in order;
        Registry(order, r.topics - {address})
      else Registry(r.order, r.topics[address := rest])
  }

  /** Adding the same topics twice is the same as adding them once. */
  lemma AddFilterIdempotent(r: Registry, address: Address, topics: seq<Topic>)
    requires Valid(r)
    ensures AddFilter(AddFilter(r, address, topics), address, topics) == AddFilter(r, address, topics)
  {
    var once := AddFilter(r, address, topics);
    var added := set t | t in topics;
    if address in once.topics {
      var grown := once.topics[address] + added;
      assert grown == once.topics[address];
      SameUpdate(once.topics, address);
      assert AddFilter(once, address, topics) == Registry(once.order, once.topics[address := grown]);
    } else {
      assert added == {} by {
        assert TopicsOf(once, address) == TopicsOf(r, address) + added;
      }
      assert AddFilter(once, address, topics) == once;
    }
  }

  lemma RemoveAdded<K, V>(m: map<K, V>, k: K, v: V)
    requires k !in m
    ensures m[k := v] - {k} == m
  {
  }

  lemma SameUpdate<K, V>(m: map<K, V>, k: K)
    requires k in m
    ensures m[k := m[k]] == m
  {
  }

  /** Deleting what a fresh address was just given restores the registry. */
  lemma DeleteUndoesAdd(r: Registry, address: Address, topics: seq<Topic>)
    requires Valid(r) && address !in r.topics
    ensures DeleteFilter(AddFilter(r, address, topics), address, topics) == r
  {
    var added := set t | t in topics;
    if added != {} {
      var once := Registry(r.order + [address], r.topics[address := added]);
      assert AddFilter(r, address, topics) == once;
      assert once.topics[address] - added == {};
      assert DeleteFilter(once, address, topics) == Registry(Without(once.order, address), once.topics - {address});
      assert Without(once.order, address) == r.order by {
        assert address !in r.order;
        WithoutAppended(r.order, address);
      }
      RemoveAdded(r.topics, address, added);
    } else {
      assert AddFilter(r, address, topics) == r;
    }
  }

  lemma {:induction false} WithoutAppended(s: seq<Address>, a: Address)
    requires a !in s
    ensures Without(s + [a], a) == s
  {
    if s == [] {
      assert [a][1..] == [];
    } else {
      assert (s + [a])[1..] == s[1..] + [a];
      WithoutAppended(s[1..], a);
      assert s == [s[0]] + s[1..];
    }
  }
}
