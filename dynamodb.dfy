/** The DynamoDB-backed registry: Register, Deregister, GetService,
    ListServices and Watch over one table. Services live at
    ("service", service name) and nodes at ("node", node id); the nodes of a
    service are found by a BEGINS_WITH query of the node ids on the service
    name. The clock is the `now` parameter (Unix seconds); every reply of the
    table is a parameter. */
module DynamoDB {
  import opened Registry
  import opened Errors
  import opened Keys
  import opened Types
  import opened Store

  const ErrRegisterNoNodes := "Require at least one node to register service"
  const ErrDeregisterNoNodes := "Require at least one node to deregister"
  const CtxDeregisterNode := "DynamoDB registry deregister node error"
  const CtxDeregisterService := "DynamoDB registry deregister service error"
  const CtxGetService := "DynamoDB registry GetService error"
  const CtxListServices := "DynamoDB registry ListServices error"
  const WatchPanic := "implement me"

  const Two64 := 0x1_0000_0000_0000_0000

  /** Go's int64 addition, which wraps around. */
  function AddInt64(a: Int64, b: Int64): (r: Int64)
    ensures -0x8000_0000_0000_0000 <= a + b < 0x8000_0000_0000_0000 ==> r == a + b
    ensures (a + b - r) % Two64 == 0
  {
    var s := a + b;
    if s >= 0x8000_0000_0000_0000 then s - Two64
    else if s < -0x8000_0000_0000_0000 then s + Two64
    else s
  }

  /** The TTL attribute of every item of one registration. */
  function StampedTtl(ttl: Int64, now: Int64): Int64
  {
    if ttl > 0 then AddInt64(ttl, now) else 0
  }

  function ServiceRecord(s: Service, ttl: Int64, now: Int64): DDBService
  {
    NewDDBService(s).(ttl := StampedTtl(ttl, now))
  }

  function NodeRecord(n: Node, ttl: Int64, now: Int64): DDBNode
  {
    NewDDBNode(n).(ttl := StampedTtl(ttl, now))
  }

  /** The put requests of one Register call: the service item first, then
      one node item per node in the given order, all with the same TTL. */
  function RegisterRequests(s: Service, ttl: Int64, now: Int64): (reqs: seq<WriteRequest>)
    ensures |reqs| == 1 + |s.nodes|
    ensures KeyOf(reqs[0].item) == ServiceKey(s.name) && reqs[0].item.ServiceItem?
    ensures forall i :: 0 <= i < |s.nodes| ==>
      KeyOf(reqs[i + 1].item) == NodeKey(s.nodes[i].id) && reqs[i + 1].item.NodeItem?
    ensures forall i :: 0 <= i < |reqs| ==> TtlOf(reqs[i].item) == StampedTtl(ttl, now)
    ensures ttl > 0 ==> forall i :: 0 <= i < |reqs| ==> TtlOf(reqs[i].item) == AddInt64(ttl, now)
    ensures ttl <= 0 ==> forall i :: 0 <= i < |reqs| ==> TtlOf(reqs[i].item) == 0
  {
    [PutRequest(ServiceItem(ServiceRecord(s, ttl, now)))]
      + seq(|s.nodes|, i requires 0 <= i < |s.nodes| => PutRequest(NodeItem(NodeRecord(s.nodes[i], ttl, now))))
  }

  /** Register's construction of its batch: the marshalled items, then one
      put request per item. */
  method RegisterBatch(service: Service, ttl: Int64, now: Int64) returns (writeRequests: seq<WriteRequest>)
    ensures writeRequests == RegisterRequests(service, ttl, now)
  {
    var expiry := AddInt64(ttl, now);
    var items: seq<Item> := [];
    var s := NewDDBService(service);
    if ttl > 0 {
      s := s.(ttl := expiry);
    }
    items := items + [ServiceItem(s)];
    for i := 0 to |service.nodes|
      invariant |items| == 1 + i
      invariant items[0] == ServiceItem(ServiceRecord(service, ttl, now))
      invariant forall j :: 0 <= j < i ==> items[j + 1] == NodeItem(NodeRecord(service.nodes[j], ttl, now))
    {
      var n := NewDDBNode(service.nodes[i]);
      if ttl > 0 {
        n := n.(ttl := expiry);
      }
      items := items + [NodeItem(n)];
    }
    writeRequests := [];
    for i := 0 to |items|
      invariant |writeRequests| == i
      invariant forall j :: 0 <= j < i ==> writeRequests[j] == PutRequest(items[j])
    {
      writeRequests := writeRequests + [PutRequest(items[i])];
    }
    forall j | 0 <= j < |writeRequests|
      ensures writeRequests[j] == RegisterRequests(service, ttl, now)[j]
    {
      RegisterRequestAt(service, ttl, now, j);
    }
  }

  /** The request at position j of a registration's batch. */
  lemma RegisterRequestAt(s: Service, ttl: Int64, now: Int64, j: nat)
    requires j <= |s.nodes|
    ensures j == 0 ==> RegisterRequests(s, ttl, now)[j] == PutRequest(ServiceItem(ServiceRecord(s, ttl, now)))
    ensures j > 0 ==> RegisterRequests(s, ttl, now)[j] == PutRequest(NodeItem(NodeRecord(s.nodes[j - 1], ttl, now)))
  {
    var head := [PutRequest(ServiceItem(ServiceRecord(s, ttl, now)))];
    var tail := seq(|s.nodes|, i requires 0 <= i < |s.nodes| => PutRequest(NodeItem(NodeRecord(s.nodes[i], ttl, now))));
    assert RegisterRequests(s, ttl, now) == head + tail;
    if j > 0 {
      assert (head + tail)[j] == tail[j - 1];
    }
  }

  /** The keys a query with `Type EQ typ` selects, restricted, when given,
      to `Name BEGINS_WITH p`. */
  ghost function QueryKeys(m: map<Key, Item>, typ: string, beginsWith: Option<string>): set<Key>
  {
    set k | k in m && k.0 == typ && (beginsWith.Some? ==> beginsWith.value <= k.1)
  }

  /** The node keys GetService(name) collects: every node whose id starts
      with `name`, whichever service registered it. */
  ghost function NodeKeysWithPrefix(m: map<Key, Item>, name: string): set<Key>
  {
    QueryKeys(m, TypeNode, Some(name))
  }

  function NodeView(it: Item): Node
  {
    DDBNodeToRegistryValue(AsNode(it))
  }

  function ServiceView(it: Item): Service
  {
    ToRegistryService(AsService(it))
  }

  /** `ks` lists every key of `keys` exactly once, in some order. */
  ghost predicate Enumerates(keys: set<Key>, ks: seq<Key>)
  {
    && |ks| == |keys|
    && (forall i :: 0 <= i < |ks| ==> ks[i] in keys)
    && (forall i, j :: 0 <= i < j < |ks| ==> ks[i] != ks[j])
    && (forall k :: k in keys ==> k in ks)
  }

  /** The service item GetService(name) reads from table `m` under `reply`:
      the current one, or the earlier state a stale read serves. */
  function ServiceRead(m: map<Key, Item>, name: string, reply: ReadReply): Option<Item>
  {
    match reply
    case Stale(item) => item
    case _ => if ServiceKey(name) in m then Some(m[ServiceKey(name)]) else None
  }

  /** `svc` is what GetService(name) assembles from table `m` after reading
      the service item `srv`: that item converted back, with exactly one node
      per node item whose id starts with `name` (in some order). */
  ghost predicate IsLookup(m: map<Key, Item>, name: string, srv: Item, svc: Service)
  {
    && svc.(nodes := []) == ServiceView(srv)
    && |svc.nodes| == |NodeKeysWithPrefix(m, name)|
    && exists ks :: Enumerates(NodeKeysWithPrefix(m, name), ks) && |ks| == |svc.nodes| &&
         forall i :: 0 <= i < |ks| ==> svc.nodes[i] == NodeView(m[ks[i]])
  }

  /** `services` is what ListServices builds from table `m`: one node-less
      service per service item (in some order). */
  ghost predicate IsListing(m: map<Key, Item>, services: seq<Service>)
  {
    && |services| == |QueryKeys(m, TypeSrv, None)|
    && (forall i :: 0 <= i < |services| ==>
          services[i].nodes == [] &&
          exists k :: k in QueryKeys(m, TypeSrv, None) && services[i] == ServiceView(m[k]))
    && (forall k :: k in QueryKeys(m, TypeSrv, None) ==> ServiceView(m[k]) in services)
  }

  class DynamoDBRegistry {
    const client: Table

    ghost predicate Valid()
      reads this, client
    {
      client.Valid()
    }

    constructor (client: Table)
      requires client.Valid()
      ensures this.client == client && Valid()
    {
      this.client := client;
    }

    method Register(service: Service, ttl: Int64, now: Int64, reply: BatchReply) returns (err: Option<Error>)
      requires Valid()
      modifies client
      ensures Valid()
      ensures |service.nodes| == 0 ==>
        err == Some(Message(ErrRegisterNoNodes)) && client.items == old(client.items)
      ensures |service.nodes| > 0 && reply.BatchFails? ==>
        err == Some(StoreError(reply.text)) && client.items == old(client.items)
      ensures |service.nodes| > 0 && reply.BatchAccepts? ==>
        var reqs := RegisterRequests(service, ttl, now);
        && client.items == PutAll(old(client.items), Processed(reqs, reply.unprocessed))
        && err == (if Unprocessed(reqs, reply.unprocessed) == [] then None else Some(NotRegistered(1)))
      ensures err == None ==>
        client.items == PutAll(old(client.items), RegisterRequests(service, ttl, now))
    {
      if |service.nodes| == 0 {
        return Some(Message(ErrRegisterNoNodes));
      }
      var writeRequests := RegisterBatch(service, ttl, now);
      var result := client.BatchWriteItem(writeRequests, reply);
      if result.Failure? {
        return Some(result.error);
      }
      ghost var left := Unprocessed(writeRequests, reply.unprocessed);
      assert result.value.unprocessedItems == if left == [] then map[] else map[client.name := left];
      assert |result.value.unprocessedItems| == if left == [] then 0 else 1;
      if |result.value.unprocessedItems| > 0 {
        return Some(NotRegistered(|result.value.unprocessedItems|));
      }
      AllProcessed(writeRequests, reply.unprocessed, |writeRequests|);
      assert writeRequests[..|writeRequests|] == writeRequests;
      assert Processed(writeRequests, reply.unprocessed) == writeRequests;
      err := None;
    }

    method Deregister(service: Service, deleteNodeReply: Reply, getReply: ReadReply, queryReply: Reply,
                      deleteServiceReply: Reply) returns (err: Option<Error>)
      requires Valid() && ReadsKey(ServiceKey(service.name), getReply)
      modifies client
      ensures Valid()
      ensures |service.nodes| == 0 ==>
        err == Some(Message(ErrDeregisterNoNodes)) && client.items == old(client.items)
      ensures |service.nodes| > 0 && deleteNodeReply.Fail? ==>
        err == Some(Wrapped(CtxDeregisterNode, StoreError(deleteNodeReply.text)))
        && client.items == old(client.items)
      ensures |service.nodes| > 0 && deleteNodeReply.Ok? ==>
        var afterNode := old(client.items) - {NodeKey(service.nodes[0].id)};
        var read := !getReply.ReadFails? && ServiceRead(afterNode, service.name, getReply).Some?;
        var orphan := read && NodeKeysWithPrefix(afterNode, service.name) == {};
        && (getReply.ReadFails? ==> err == Some(Panic(StoreError(getReply.text))))
        && (!getReply.ReadFails? && !read ==> err == Some(Panic(NotFound)))
        && (read && queryReply.Fail? ==>
              err == Some(Panic(Wrapped(CtxGetService, StoreError(queryReply.text)))))
        && (read && queryReply.Ok? && !orphan ==> err == None)
        && (orphan && queryReply.Ok? && deleteServiceReply.Fail? ==>
              err == Some(Panic(Wrapped(CtxDeregisterService, StoreError(deleteServiceReply.text)))))
        && (orphan && queryReply.Ok? && deleteServiceReply.Ok? ==> err == None)
        && client.items ==
             if orphan && queryReply.Ok? && deleteServiceReply.Ok?
             then afterNode - {ServiceKey(service.name)}
             else afterNode
    {
      if |service.nodes| == 0 {
        return Some(Message(ErrDeregisterNoNodes));
      }
      var e := client.DeleteItem(NodeKey(service.nodes[0].id), deleteNodeReply);
      if e.Some? {
        return Some(Wrapped(CtxDeregisterNode, e.value));
      }
      var srv := GetService(service.name, getReply, queryReply);
      if srv.Failure? {
        // A panic inside GetService propagates unchanged.
        return Some(if srv.error.Panic? then srv.error else Panic(srv.error));
      }
      if |srv.value[0].nodes| == 0 {
        e := client.DeleteItem(ServiceKey(service.name), deleteServiceReply);
        if e.Some? {
          return Some(Panic(Wrapped(CtxDeregisterService, e.value)));
        }
      } else {
        assert NodeKeysWithPrefix(client.items, service.name) != {};
      }
      err := None;
    }

    method GetService(serviceName: string, getReply: ReadReply, queryReply: Reply) returns (r: Result<seq<Service>>)
      requires Valid() && ReadsKey(ServiceKey(serviceName), getReply)
      ensures getReply.ReadFails? ==> r == Failure(Panic(StoreError(getReply.text)))
      ensures !getReply.ReadFails? && ServiceRead(client.items, serviceName, getReply).None? ==>
        r == Failure(NotFound)
      ensures !getReply.ReadFails? && ServiceRead(client.items, serviceName, getReply).Some? && queryReply.Fail? ==>
        r == Failure(Wrapped(CtxGetService, StoreError(queryReply.text)))
      ensures !getReply.ReadFails? && ServiceRead(client.items, serviceName, getReply).Some? && queryReply.Ok? ==>
        r.Success? && |r.value| == 1 &&
        IsLookup(client.items, serviceName, ServiceRead(client.items, serviceName, getReply).value, r.value[0])
      ensures getReply.Latest? ==> (r == Failure(NotFound) <==> ServiceKey(serviceName) !in client.items)
      ensures r.Success? ==>
        !getReply.ReadFails? && queryReply.Ok? && ServiceRead(client.items, serviceName, getReply).Some?
    {
      var got := client.GetItem(ServiceKey(serviceName), getReply);
      if got.Failure? {
        return Failure(Panic(got.error));
      }
      if got.value.None? {
        return Failure(NotFound);
      }
      var ddbService := AsService(got.value.value);
      var query := client.Query(TypeNode, Some(serviceName), queryReply);
      if query.Failure? {
        return Failure(Wrapped(CtxGetService, query.error));
      }
      var found := query.value;
      var ddbNodes: seq<DDBNode> := [];
      for i := 0 to |found|
        invariant |ddbNodes| == i
        invariant forall j :: 0 <= j < i ==> ddbNodes[j] == AsNode(found[j])
      {
        ddbNodes := ddbNodes + [AsNode(found[i])];
      }
      var service := ToRegistryService(ddbService);
      var nodes: seq<Node> := [];
      for i := 0 to |ddbNodes|
        invariant |nodes| == i
        invariant forall j :: 0 <= j < i ==> nodes[j] == DDBNodeToRegistryValue(ddbNodes[j])
      {
        nodes := nodes + [DDBNodeToRegistryValue(ddbNodes[i])];
      }
      service := service.(nodes := nodes);
      ghost var keys := NodeKeysWithPrefix(client.items, serviceName);
      assert keys == client.Selected(TypeNode, Some(serviceName));
      LookupOfQuery(client.items, serviceName, got.value.value, found, nodes);
      r := Success([service]);
    }

    method ListServices(queryReply: Reply) returns (r: Result<seq<Service>>)
      requires Valid()
      ensures queryReply.Fail? ==> r == Failure(Wrapped(CtxListServices, StoreError(queryReply.text)))
      ensures queryReply.Ok? ==> r.Success? && IsListing(client.items, r.value)
      ensures r.Success? && QueryKeys(client.items, TypeSrv, None) == {} ==> r.value == []
    {
      var query := client.Query(TypeSrv, None, queryReply);
      if query.Failure? {
        return Failure(Wrapped(CtxListServices, query.error));
      }
      var found := query.value;
      ghost var keys := QueryKeys(client.items, TypeSrv, None);
      assert keys == client.Selected(TypeSrv, None);
      if |found| == 0 {
        return Success([]);
      }
      var services: seq<Service> := [];
      for i := 0 to |found|
        invariant |services| == i
        invariant forall j :: 0 <= j < i ==> services[j] == ToRegistryService(AsService(found[j]))
      {
        services := services + [ToRegistryService(AsService(found[i]))];
      }
      ListingOfQuery(client.items, found, services);
      r := Success(services);
    }

    /** Watching is not implemented: the source panics. */
    method Watch() returns (r: Result<()>)
      ensures r == Failure(Panic(Message(WatchPanic)))
    {
      r := Failure(Panic(Message(WatchPanic)));
    }
  }

  /** The nodes GetService converts from the items of its node query make,
      with the stored service, a lookup of `name`. */
  lemma LookupOfQuery(m: map<Key, Item>, name: string, srv: Item, found: seq<Item>, nodes: seq<Node>)
    requires |found| == |NodeKeysWithPrefix(m, name)|
    requires forall i :: 0 <= i < |found| ==>
      KeyOf(found[i]) in NodeKeysWithPrefix(m, name) && m[KeyOf(found[i])] == found[i]
    requires DistinctKeys(found)
    requires forall k :: k in NodeKeysWithPrefix(m, name) ==>
      exists i :: 0 <= i < |found| && KeyOf(found[i]) == k
    requires |nodes| == |found|
    requires forall j :: 0 <= j < |found| ==> nodes[j] == NodeView(found[j])
    ensures IsLookup(m, name, srv, ServiceView(srv).(nodes := nodes))
  {
    var sv := ServiceView(srv);
    assert sv.(nodes := nodes).(nodes := []) == sv;
    var ks := seq(|found|, i requires 0 <= i < |found| => KeyOf(found[i]));
    QueryEnumerates(NodeKeysWithPrefix(m, name), found, ks);
    assert forall i :: 0 <= i < |ks| ==> nodes[i] == NodeView(m[ks[i]]);
  }

  /** The keys of a query's items, in order, list each selected key once. */
  lemma QueryEnumerates(keys: set<Key>, found: seq<Item>, ks: seq<Key>)
    requires |found| == |keys|
    requires forall i :: 0 <= i < |found| ==> KeyOf(found[i]) in keys
    requires DistinctKeys(found)
    requires forall k :: k in keys ==> exists i :: 0 <= i < |found| && KeyOf(found[i]) == k
    requires |ks| == |found| && forall i :: 0 <= i < |found| ==> ks[i] == KeyOf(found[i])
    ensures Enumerates(keys, ks)
  {
    forall k | k in keys ensures k in ks {
      var i :| 0 <= i < |found| && KeyOf(found[i]) == k;
      assert ks[i] == k;
    }
  }

  /** The services ListServices converts from the items of its query are a
      listing of the table. */
  lemma ListingOfQuery(m: map<Key, Item>, found: seq<Item>, services: seq<Service>)
    requires |found| == |QueryKeys(m, TypeSrv, None)|
    requires forall i :: 0 <= i < |found| ==>
      KeyOf(found[i]) in QueryKeys(m, TypeSrv, None) && m[KeyOf(found[i])] == found[i]
    requires forall k :: k in QueryKeys(m, TypeSrv, None) ==>
      exists i :: 0 <= i < |found| && KeyOf(found[i]) == k
    requires |services| == |found|
    requires forall j :: 0 <= j < |found| ==> services[j] == ServiceView(found[j])
    ensures IsListing(m, services)
  {
    var keys := QueryKeys(m, TypeSrv, None);
    forall k | k in keys ensures ServiceView(m[k]) in services {
      var i :| 0 <= i < |found| && KeyOf(found[i]) == k;
      assert services[i] == ServiceView(m[k]);
    }
    forall i | 0 <= i < |services|
      ensures services[i].nodes == [] && exists k :: k in keys && services[i] == ServiceView(m[k])
    {
      var k := KeyOf(found[i]);
      assert k in keys && services[i] == ServiceView(m[k]);
    }
  }

  /** When no request is left unprocessed, every request was written. */
  lemma {:induction false} AllProcessed(reqs: seq<WriteRequest>, u: set<nat>, n: nat)
    requires n <= |reqs|
    ensures Select(reqs, u, n, true) == [] <==> forall i :: 0 <= i < n ==> i !in u
    ensures Select(reqs, u, n, true) == [] ==> Select(reqs, u, n, false) == reqs[..n]
  {
    if n > 0 {
      AllProcessed(reqs, u, n - 1);
      assert reqs[..n] == reqs[..n - 1] + [reqs[n - 1]];
    }
  }

  /** The table after a fully processed registration. */
  function Registered(m: map<Key, Item>, s: Service, ttl: Int64, now: Int64): map<Key, Item>
  {
    PutAll(m, RegisterRequests(s, ttl, now))
  }

  /** What a fully processed registration leaves in the table: the service
      item at ("service", name), a node item at ("node", id) for every node,
      every other key as it was; a node with no later node of the same id
      owns its key (last writer wins). */
  lemma RegisterEffect(m: map<Key, Item>, s: Service, ttl: Int64, now: Int64)
    ensures ServiceKey(s.name) in Registered(m, s, ttl, now)
    ensures Registered(m, s, ttl, now)[ServiceKey(s.name)] == ServiceItem(ServiceRecord(s, ttl, now))
    ensures forall i :: 0 <= i < |s.nodes| ==> NodeKey(s.nodes[i].id) in Registered(m, s, ttl, now)
    ensures forall i :: 0 <= i < |s.nodes| && (forall j :: i < j < |s.nodes| ==> s.nodes[j].id != s.nodes[i].id) ==>
      Registered(m, s, ttl, now)[NodeKey(s.nodes[i].id)] == NodeItem(NodeRecord(s.nodes[i], ttl, now))
    ensures forall k :: k != ServiceKey(s.name) && (forall i :: 0 <= i < |s.nodes| ==> k != NodeKey(s.nodes[i].id)) ==>
      (k in Registered(m, s, ttl, now) <==> k in m) && (k in m ==> Registered(m, s, ttl, now)[k] == m[k])
  {
    RegisterServiceItem(m, s, ttl, now);
    RegisterNodesPresent(m, s, ttl, now);
    forall i | 0 <= i < |s.nodes| && (forall j :: i < j < |s.nodes| ==> s.nodes[j].id != s.nodes[i].id)
      ensures Registered(m, s, ttl, now)[NodeKey(s.nodes[i].id)] == NodeItem(NodeRecord(s.nodes[i], ttl, now))
    {
      RegisterNodeOwner(m, s, ttl, now, i);
    }
    RegisterFrame(m, s, ttl, now);
  }

  /** The service item of a registration sits at the service's key. */
  lemma RegisterServiceItem(m: map<Key, Item>, s: Service, ttl: Int64, now: Int64)
    ensures ServiceKey(s.name) in Registered(m, s, ttl, now)
    ensures Registered(m, s, ttl, now)[ServiceKey(s.name)] == ServiceItem(ServiceRecord(s, ttl, now))
  {
    var reqs := RegisterRequests(s, ttl, now);
    forall j | 0 < j < |reqs| ensures KeyOf(reqs[j].item) != KeyOf(reqs[0].item) {
      assert KeyOf(reqs[j].item) == NodeKey(s.nodes[j - 1].id);
    }
    PutAllLastWriter(m, reqs, 0);
  }

  /** Every registered node has an item at its key. */
  lemma RegisterNodesPresent(m: map<Key, Item>, s: Service, ttl: Int64, now: Int64)
    ensures forall i :: 0 <= i < |s.nodes| ==> NodeKey(s.nodes[i].id) in Registered(m, s, ttl, now)
  {
    var reqs := RegisterRequests(s, ttl, now);
    RegisterKeys(s, ttl, now);
    PutAllFrame(m, reqs);
    forall i | 0 <= i < |s.nodes| ensures NodeKey(s.nodes[i].id) in Registered(m, s, ttl, now) {
      assert NodeKey(s.nodes[i].id) in KeysOf(reqs);
    }
  }

  /** A registration leaves every key other than the service's and its
      nodes' as it was. */
  lemma RegisterFrame(m: map<Key, Item>, s: Service, ttl: Int64, now: Int64)
    ensures forall k :: k != ServiceKey(s.name) && (forall i :: 0 <= i < |s.nodes| ==> k != NodeKey(s.nodes[i].id)) ==>
      (k in Registered(m, s, ttl, now) <==> k in m) && (k in m ==> Registered(m, s, ttl, now)[k] == m[k])
  {
    var reqs := RegisterRequests(s, ttl, now);
    RegisterKeys(s, ttl, now);
    PutAllFrame(m, reqs);
    forall k | k != ServiceKey(s.name) && (forall i :: 0 <= i < |s.nodes| ==> k != NodeKey(s.nodes[i].id))
      ensures (k in Registered(m, s, ttl, now) <==> k in m) && (k in m ==> Registered(m, s, ttl, now)[k] == m[k])
    {
      assert k !in KeysOf(reqs);
    }
  }

  /** The keys one registration writes. */
  lemma RegisterKeys(s: Service, ttl: Int64, now: Int64)
    ensures KeysOf(RegisterRequests(s, ttl, now)) ==
      {ServiceKey(s.name)} + set i | 0 <= i < |s.nodes| :: NodeKey(s.nodes[i].id)
  {
  }

  /** The last node with a given id owns that id's key after registration. */
  lemma RegisterNodeOwner(m: map<Key, Item>, s: Service, ttl: Int64, now: Int64, i: nat)
    requires i < |s.nodes|
    requires forall j :: i < j < |s.nodes| ==> s.nodes[j].id != s.nodes[i].id
    ensures NodeKey(s.nodes[i].id) in PutAll(m, RegisterRequests(s, ttl, now))
    ensures PutAll(m, RegisterRequests(s, ttl, now))[NodeKey(s.nodes[i].id)] ==
      NodeItem(NodeRecord(s.nodes[i], ttl, now))
  {
    var reqs := RegisterRequests(s, ttl, now);
    forall j | i + 1 < j < |reqs| ensures KeyOf(reqs[j].item) != KeyOf(reqs[i + 1].item) {
      assert KeyOf(reqs[j].item) == NodeKey(s.nodes[j - 1].id);
    }
    PutAllLastWriter(m, reqs, i + 1);
  }

  /** A registration as GetService and ListServices then see it: the
      service reads back with its name, version, metadata and endpoints;
      every node whose id starts with a looked-up name is among the nodes
      found for that name, whichever service it was registered for; and a
      node that owns its key reads back with an empty id and no metadata,
      keeping only its address and port. */
  lemma RegisteredServiceLookup(m: map<Key, Item>, s: Service, ttl: Int64, now: Int64)
    ensures var m' := Registered(m, s, ttl, now);
      && ServiceKey(s.name) in m'
      && ServiceKey(s.name) in QueryKeys(m', TypeSrv, None)
      && ServiceView(m'[ServiceKey(s.name)]) == s.(nodes := [])
      && (forall i, name :: 0 <= i < |s.nodes| && name <= s.nodes[i].id ==>
            NodeKey(s.nodes[i].id) in NodeKeysWithPrefix(m', name))
      && (forall i :: 0 <= i < |s.nodes| && (forall j :: i < j < |s.nodes| ==> s.nodes[j].id != s.nodes[i].id) ==>
            NodeKey(s.nodes[i].id) in m' &&
            NodeView(m'[NodeKey(s.nodes[i].id)]) == Node("", s.nodes[i].address, s.nodes[i].port, map[]))
  {
    RegisterEffect(m, s, ttl, now);
    var d := NewDDBService(s);
    assert ToRegistryService(d.(ttl := StampedTtl(ttl, now))) == ToRegistryService(d);
  }
}
