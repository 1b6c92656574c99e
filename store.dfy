/** The DynamoDB table the registry talks to, reduced to what the registry
    uses: batched put, delete, get and a key-condition query. Marshalling is
    the identity, so a stored item is the record that was put. Whether a call
    fails is decided by the service, so every operation takes the reply as a
    parameter; a call that fails changes nothing. Queries are strongly
    consistent and see all earlier writes; a get is eventually consistent
    and may see an earlier state of its key. */
module Store {
  import opened Keys
  import opened Types
  import opened Errors

  datatype Item = ServiceItem(service: DDBService) | NodeItem(node: DDBNode)

  /** The primary key of an item, taken from its Type and Name attributes. */
  function KeyOf(it: Item): Key
  {
    match it
    case ServiceItem(s) => (s.typ, s.name)
    case NodeItem(n) => (n.typ, n.name)
  }

  function TtlOf(it: Item): Int64
  {
    match it
    case ServiceItem(s) => s.ttl
    case NodeItem(n) => n.ttl
  }

  /** Unmarshalling an item into a service record. Attributes are matched by
      name, so a node item yields its Type, Name, Metadata and TTL and
      leaves the other fields empty. */
  function AsService(it: Item): (s: DDBService)
    ensures (s.typ, s.name) == KeyOf(it)
    ensures it.ServiceItem? ==> s == it.service
  {
    match it
    case ServiceItem(s) => s
    case NodeItem(n) => DDBService(n.typ, n.name, "", n.metadata, [], n.ttl)
  }

  /** Unmarshalling an item into a node record, by attribute name. */
  function AsNode(it: Item): (n: DDBNode)
    ensures (n.typ, n.name) == KeyOf(it)
    ensures it.NodeItem? ==> n == it.node
  {
    match it
    case ServiceItem(s) => DDBNode(s.typ, s.name, "", "", "", 0, s.metadata, s.ttl)
    case NodeItem(n) => n
  }

  datatype WriteRequest = PutRequest(item: Item)

  /** The reply of a simple call: it succeeds or fails with a message. */
  datatype Reply = Ok | Fail(text: string)

  /** The reply of a batched write: the call fails as a whole, or it is
      accepted and the requests whose positions are in `unprocessed` are
      left unwritten. */
  /** The reply of an eventually consistent read: the key's current item
      (`Latest`), an earlier state of the key that the service still
      serves (`Stale`, none when the key was absent then), or a failure. */
  datatype ReadReply = Latest | Stale(item: Option<Item>) | ReadFails(text: string)

  /** A stale reply for `key` carries, if anything, an item stored under `key`. */
  predicate ReadsKey(key: Key, reply: ReadReply)
  {
    reply.Stale? && reply.item.Some? ==> KeyOf(reply.item.value) == key
  }

  datatype BatchReply = BatchFails(text: string) | BatchAccepts(unprocessed: set<nat>)

  /** UnprocessedItems of a batched write, per table name. */
  datatype BatchWriteOutput = BatchWriteOutput(unprocessedItems: map<string, seq<WriteRequest>>)

  /** The items of `reqs` put one after another into `m`: a later put to a
      key overwrites an earlier one. */
  function PutAll(m: map<Key, Item>, reqs: seq<WriteRequest>): map<Key, Item>
    decreases |reqs|
  {
    if reqs == [] then m
    else
      var last := reqs[|reqs| - 1].item;
      PutAll(m, reqs[..|reqs| - 1])[KeyOf(last) := last]
  }

  /** The requests among the first n of `reqs` whose position is in `u`
      (when `inU`) or not in `u` (otherwise), in their order. */
  function Select(reqs: seq<WriteRequest>, u: set<nat>, n: nat, inU: bool): (r: seq<WriteRequest>)
    requires n <= |reqs|
    ensures |r| <= n
    ensures forall x :: x in r ==> x in reqs[..n]
  {
    if n == 0 then []
    else Select(reqs, u, n - 1, inU) + (if ((n - 1) in u) == inU then [reqs[n - 1]] else [])
  }

  function Processed(reqs: seq<WriteRequest>, u: set<nat>): seq<WriteRequest>
  {
    Select(reqs, u, |reqs|, false)
  }

  function Unprocessed(reqs: seq<WriteRequest>, u: set<nat>): seq<WriteRequest>
  {
    Select(reqs, u, |reqs|, true)
  }

  /** Every item sits under its own key. */
  ghost predicate WellKeyed(m: map<Key, Item>)
  {
    forall k :: k in m ==> KeyOf(m[k]) == k
  }

  /** The keys the batch writes. */
  function KeysOf(reqs: seq<WriteRequest>): set<Key>
  {
    set i | 0 <= i < |reqs| :: KeyOf(reqs[i].item)
  }

  /** A batch leaves every key it does not write as it was; every key it
      writes holds an item of the batch stored under its own key. */
  lemma {:induction false} PutAllFrame(m: map<Key, Item>, reqs: seq<WriteRequest>)
    ensures forall k :: k !in KeysOf(reqs) ==>
      (k in PutAll(m, reqs) <==> k in m) && (k in m ==> PutAll(m, reqs)[k] == m[k])
    ensures forall k :: k in KeysOf(reqs) ==>
      k in PutAll(m, reqs) && KeyOf(PutAll(m, reqs)[k]) == k && PutRequest(PutAll(m, reqs)[k]) in reqs
    ensures WellKeyed(m) ==> WellKeyed(PutAll(m, reqs))
    decreases |reqs|
  {
    if reqs != [] {
      var init := reqs[..|reqs| - 1];
      PutAllFrame(m, init);
      assert KeysOf(reqs) == KeysOf(init) + {KeyOf(reqs[|reqs| - 1].item)} by {
        forall k | k in KeysOf(reqs) ensures k in KeysOf(init) + {KeyOf(reqs[|reqs| - 1].item)} {
          var i :| 0 <= i < |reqs| && k == KeyOf(reqs[i].item);
          if i < |reqs| - 1 { assert reqs[i] == init[i]; }
        }
        forall k | k in KeysOf(init) ensures k in KeysOf(reqs) {
          var i :| 0 <= i < |init| && k == KeyOf(init[i].item);
          assert init[i] == reqs[i];
        }
      }
      forall x | x in init ensures x in reqs { }
    }
  }

  /** Last writer wins: a key holds the item of the last request that
      writes it. */
  lemma {:induction false} PutAllLastWriter(m: map<Key, Item>, reqs: seq<WriteRequest>, i: nat)
    requires i < |reqs|
    requires forall j :: i < j < |reqs| ==> KeyOf(reqs[j].item) != KeyOf(reqs[i].item)
    ensures KeyOf(reqs[i].item) in PutAll(m, reqs)
    ensures PutAll(m, reqs)[KeyOf(reqs[i].item)] == reqs[i].item
    decreases |reqs|
  {
    if i < |reqs| - 1 {
      var init := reqs[..|reqs| - 1];
      assert init[i] == reqs[i];
      PutAllLastWriter(m, init, i);
    }
  }

  /** No two items of `found` share a key. */
  ghost predicate DistinctKeys(found: seq<Item>)
  {
    forall i, j :: 0 <= i < j < |found| ==> KeyOf(found[i]) != KeyOf(found[j])
  }

  /** `found` lists the items of `m` at the keys of `done`, each once: every
      listed item is the one stored under its key, no key is listed twice,
      and every key of `done` is listed. */
  ghost predicate Listed(m: map<Key, Item>, found: seq<Item>, done: set<Key>)
  {
    && (forall i :: 0 <= i < |found| ==>
          KeyOf(found[i]) in done && KeyOf(found[i]) in m && m[KeyOf(found[i])] == found[i])
    && DistinctKeys(found)
    && (forall k :: k in done ==> exists i :: 0 <= i < |found| && KeyOf(found[i]) == k)
  }

  /** Listing one more key of a well-keyed map keeps the listing exact. */
  lemma ListedStep(m: map<Key, Item>, found: seq<Item>, done: set<Key>, k: Key)
    requires WellKeyed(m) && k in m && k !in done
    requires Listed(m, found, done)
    ensures Listed(m, found + [m[k]], done + {k})
  {
    var found' := found + [m[k]];
    assert KeyOf(found'[|found|]) == k;
    forall i | 0 <= i < |found'|
      ensures KeyOf(found'[i]) in done + {k} && KeyOf(found'[i]) in m && m[KeyOf(found'[i])] == found'[i]
    {
      if i < |found| {
        assert found'[i] == found[i];
      }
    }
    forall i, j | 0 <= i < j < |found'| ensures KeyOf(found'[i]) != KeyOf(found'[j]) {
      assert found'[i] == found[i];
      if j < |found| {
        assert found'[j] == found[j];
      }
    }
    forall k' | k' in done + {k}
      ensures exists i :: 0 <= i < |found'| && KeyOf(found'[i]) == k'
    {
      if k' != k {
        var i :| 0 <= i < |found| && KeyOf(found[i]) == k';
        assert found'[i] == found[i];
      }
    }
  }

  class Table {
    const name: string
    var items: map<Key, Item>

    ghost predicate Valid()
      reads this
    {
      WellKeyed(items)
    }

    constructor (name: string, items: map<Key, Item>)
      requires WellKeyed(items)
      ensures Valid() && this.name == name && this.items == items
    {
      this.name := name;
      this.items := items;
    }

    /** BatchWriteItem with put requests for this table. */
    method BatchWriteItem(reqs: seq<WriteRequest>, reply: BatchReply) returns (r: Result<BatchWriteOutput>)
      requires Valid()
      modifies this
      ensures Valid()
      ensures reply.BatchFails? ==> r == Failure(StoreError(reply.text)) && items == old(items)
      ensures reply.BatchAccepts? ==>
        var left := Unprocessed(reqs, reply.unprocessed);
        && items == PutAll(old(items), Processed(reqs, reply.unprocessed))
        && r == Success(BatchWriteOutput(if left == [] then map[] else map[name := left]))
    {
      if reply.BatchFails? {
        return Failure(StoreError(reply.text));
      }
      PutAllFrame(items, Processed(reqs, reply.unprocessed));
      items := PutAll(items, Processed(reqs, reply.unprocessed));
      var left := Unprocessed(reqs, reply.unprocessed);
      r := Success(BatchWriteOutput(if left == [] then map[] else map[name := left]));
    }

    /** DeleteItem: removing an absent key succeeds and changes nothing. */
    method DeleteItem(key: Key, reply: Reply) returns (err: Option<Error>)
      requires Valid()
      modifies this
      ensures Valid()
      ensures reply.Fail? ==> err == Some(StoreError(reply.text)) && items == old(items)
      ensures reply.Ok? ==> err == None && items == old(items) - {key}
    {
      if reply.Fail? {
        return Some(StoreError(reply.text));
      }
      items := items - {key};
      err := None;
    }

    /** GetItem without ConsistentRead: the reply decides whether the
        current item or an earlier state of the key is read. */
    method GetItem(key: Key, reply: ReadReply) returns (r: Result<Option<Item>>)
      requires ReadsKey(key, reply)
      ensures reply.ReadFails? ==> r == Failure(StoreError(reply.text))
      ensures reply.Latest? ==> r == Success(if key in items then Some(items[key]) else None)
      ensures reply.Stale? ==> r == Success(reply.item)
      ensures Valid() && r.Success? && r.value.Some? ==> KeyOf(r.value.value) == key
    {
      if reply.ReadFails? {
        return Failure(StoreError(reply.text));
      }
      if reply.Stale? {
        return Success(reply.item);
      }
      r := Success(if key in items then Some(items[key]) else None);
    }

    /** The keys a query with `Type EQ typ` and, when given, `Name BEGINS_WITH p` selects. */
    ghost function Selected(typ: string, beginsWith: Option<string>): set<Key>
      reads this
    {
      set k | k in items && k.0 == typ && (beginsWith.Some? ==> beginsWith.value <= k.1)
    }

    /** Query with a key condition. The items come back in some order,
        each selected item exactly once. */
    method Query(typ: string, beginsWith: Option<string>, reply: Reply) returns (r: Result<seq<Item>>)
      requires Valid()
      ensures reply.Fail? ==> r == Failure(StoreError(reply.text))
      ensures reply.Ok? ==> r.Success?
      ensures r.Success? ==>
        && |r.value| == |Selected(typ, beginsWith)|
        && (forall i :: 0 <= i < |r.value| ==>
              KeyOf(r.value[i]) in Selected(typ, beginsWith) && items[KeyOf(r.value[i])] == r.value[i])
        && DistinctKeys(r.value)
        && (forall k :: k in Selected(typ, beginsWith) ==>
              exists i :: 0 <= i < |r.value| && KeyOf(r.value[i]) == k)
    {
      if reply.Fail? {
        return Failure(StoreError(reply.text));
      }
      ghost var all := Selected(typ, beginsWith);
      var remaining := set k | k in items && k.0 == typ && (beginsWith.Some? ==> beginsWith.value <= k.1);
      var found: seq<Item> := [];
      while remaining != {}
        invariant remaining <= all
        invariant |found| + |remaining| == |all|
        invariant Listed(items, found, all - remaining)
        decreases remaining
      {
        var k :| k in remaining;
        ListedStep(items, found, all - remaining, k);
        assert all - (remaining - {k}) == (all - remaining) + {k};
        found := found + [items[k]];
        remaining := remaining - {k};
      }
      assert all - remaining == all;
      r := Success(found);
    }
  }
}
