/** The table layout: one table keyed by the pair of attributes
    (Type, Name); services and nodes are told apart by Type. */
module Keys {

  const TypeNode := "node"
  const TypeSrv := "service"

  /** A primary key: (value of the Type attribute, value of the Name attribute). */
  type Key = (string, string)

  /** Where the record of the service called `name` lives. */
  function ServiceKey(name: string): (k: Key)
    ensures k.0 == TypeSrv && k.1 == name
  {
    (TypeSrv, name)
  }

  /** Where the record of the node with id `id` lives. */
  function NodeKey(id: string): (k: Key)
    ensures k.0 == TypeNode && k.1 == id
    ensures forall name :: k != ServiceKey(name)
  {
    (TypeNode, id)
  }

  /** Every service name and every node id has a key of its own, and no
      service shares a key with a node: a put of one never overwrites
      another. */
  lemma KeysDistinct(a: string, b: string)
    ensures ServiceKey(a) == ServiceKey(b) <==> a == b
    ensures NodeKey(a) == NodeKey(b) <==> a == b
    ensures ServiceKey(a) != NodeKey(b)
  {
  }

  type Int64 = x: int | -0x8000_0000_0000_0000 <= x < 0x8000_0000_0000_0000
}

/** The records stored in the table and the conversions between them and
    the registry's domain descriptors. */
module Types {
  import opened Registry
  import opened Keys

  datatype DDBValue = DDBValue(name: string, typ: string, values: seq<DDBValue>)

  datatype DDBEndpoint = DDBEndpoint(
    name: string,
    request: DDBValue,
    response: DDBValue,
    metadata: Metadata)

  datatype DDBService = DDBService(
    typ: string,
    name: string,
    version: string,
    metadata: Metadata,
    endpoints: seq<DDBEndpoint>,
    ttl: Int64)

  datatype DDBNode = DDBNode(
    typ: string,
    name: string,
    serviceName: string,
    serviceVersion: string,
    address: string,
    port: int,
    metadata: Metadata,
    ttl: Int64)

  // ---------------------------------------------------------------------
  // Values

  /** Storing a schema tree: reading the record back gives the same tree. */
  function NewDBBValue(v: Value): (r: DDBValue)
    ensures DDBValueToRegistryValue(r) == v
    decreases v
  {
    var r := DDBValue(v.name, v.typ,
      seq(|v.values|, i requires 0 <= i < |v.values| => NewDBBValue(v.values[i])));
    assert DDBValueToRegistryValue(r).values == v.values;
    r
  }

  /** Reading a stored schema tree: the tree has the record's name and type
      at the root and the record's shape throughout. */
  function DDBValueToRegistryValue(d: DDBValue): (r: Value)
    ensures r.name == d.name && r.typ == d.typ
    ensures SameShape(r, d)
    decreases d
  {
    Value(d.name, d.typ,
      seq(|d.values|, i requires 0 <= i < |d.values| => DDBValueToRegistryValue(d.values[i])))
  }

  /** Reading a stored schema tree and storing it again gives the same record. */
  lemma {:induction false} ValueRecordRoundTrip(d: DDBValue)
    ensures NewDBBValue(DDBValueToRegistryValue(d)) == d
    decreases d
  {
    var v := DDBValueToRegistryValue(d);
    forall i | 0 <= i < |d.values|
      ensures NewDBBValue(v.values[i]) == d.values[i]
    {
      ValueRecordRoundTrip(d.values[i]);
    }
    assert NewDBBValue(v).values == d.values;
  }

  /** Two trees have the same shape: the same number of children at every node. */
  ghost predicate SameShape(v: Value, d: DDBValue)
    decreases v
  {
    && |v.values| == |d.values|
    && forall i :: 0 <= i < |v.values| ==> SameShape(v.values[i], d.values[i])
  }

  /** Number of nodes of a schema tree. */
  function Size(v: Value): nat
    decreases v, 1
  {
    1 + ChildrenSize(v, |v.values|)
  }

  /** Number of nodes in the first n subtrees of v. */
  function ChildrenSize(v: Value, n: nat): nat
    requires n <= |v.values|
    decreases v, 0, n
  {
    if n == 0 then 0 else ChildrenSize(v, n - 1) + Size(v.values[n - 1])
  }

  function DDBSize(d: DDBValue): nat
    decreases d, 1
  {
    1 + DDBChildrenSize(d, |d.values|)
  }

  function DDBChildrenSize(d: DDBValue, n: nat): nat
    requires n <= |d.values|
    decreases d, 0, n
  {
    if n == 0 then 0 else DDBChildrenSize(d, n - 1) + DDBSize(d.values[n - 1])
  }

  /** Converting a schema tree keeps its shape and its node count. */
  lemma {:induction false} ValueShapePreserved(v: Value)
    ensures SameShape(v, NewDBBValue(v))
    ensures DDBSize(NewDBBValue(v)) == Size(v)
    decreases v, 1
  {
    var d := NewDBBValue(v);
    forall i | 0 <= i < |v.values|
      ensures SameShape(v.values[i], d.values[i])
    {
      ValueShapePreserved(v.values[i]);
    }
    ChildrenSizePreserved(v, |v.values|);
  }

  lemma {:induction false} ChildrenSizePreserved(v: Value, n: nat)
    requires n <= |v.values|
    ensures DDBChildrenSize(NewDBBValue(v), n) == ChildrenSize(v, n)
    decreases v, 0, n
  {
    if n > 0 {
      ChildrenSizePreserved(v, n - 1);
      ValueShapePreserved(v.values[n - 1]);
    }
  }

  // ---------------------------------------------------------------------
  // Endpoints

  function NewDDBEndpoint(e: Endpoint): (r: DDBEndpoint)
    ensures r.name == e.name && r.metadata == e.metadata
    ensures DDBValueToRegistryValue(r.request) == e.request
    ensures DDBValueToRegistryValue(r.response) == e.response
  {
    DDBEndpoint(e.name, NewDBBValue(e.request), NewDBBValue(e.response), e.metadata)
  }

  /** The children of a stored value, converted one by one in order. */
  function ToRegistryValues(dv: seq<DDBValue>): (r: seq<Value>)
    ensures |r| == |dv|
    ensures forall i :: 0 <= i < |dv| ==> NewDBBValue(r[i]) == dv[i]
  {
    var r := seq(|dv|, i requires 0 <= i < |dv| => DDBValueToRegistryValue(dv[i]));
    assert forall i :: 0 <= i < |dv| ==> NewDBBValue(r[i]) == dv[i] by {
      forall i | 0 <= i < |dv| ensures NewDBBValue(r[i]) == dv[i] {
        ValueRecordRoundTrip(dv[i]);
      }
    }
    r
  }

  /** The endpoint that ToRegistryService builds field by field from a
      stored endpoint; its request and response are the stored values
      converted back. */
  function ToRegistryEndpoint(e: DDBEndpoint): (r: Endpoint)
    ensures r.name == e.name && r.metadata == e.metadata
    ensures r.request == DDBValueToRegistryValue(e.request)
    ensures r.response == DDBValueToRegistryValue(e.response)
    ensures NewDDBEndpoint(r) == e
  {
    ValueRecordRoundTrip(e.request);
    ValueRecordRoundTrip(e.response);
    Endpoint(
      e.name,
      Value(e.request.name, e.request.typ, ToRegistryValues(e.request.values)),
      Value(e.response.name, e.response.typ, ToRegistryValues(e.response.values)),
      e.metadata)
  }

  // ---------------------------------------------------------------------
  // Services

  function ToRegistryService(d: DDBService): (r: Service)
    ensures r.name == d.name && r.version == d.version && r.metadata == d.metadata
    ensures |r.endpoints| == |d.endpoints|
    ensures forall i :: 0 <= i < |d.endpoints| ==> r.endpoints[i] == ToRegistryEndpoint(d.endpoints[i])
    ensures forall i :: 0 <= i < |d.endpoints| ==> NewDDBEndpoint(r.endpoints[i]) == d.endpoints[i]
    ensures r.nodes == []
  {
    Service(d.name, d.version, d.metadata,
      seq(|d.endpoints|, i requires 0 <= i < |d.endpoints| => ToRegistryEndpoint(d.endpoints[i])),
      [])
  }

  function NewDDBService(s: Service): (r: DDBService)
    ensures r.typ == TypeSrv && r.name == s.name && r.version == s.version
    ensures r.metadata == s.metadata && r.ttl == 0
    ensures |r.endpoints| == |s.endpoints|
    ensures forall i :: 0 <= i < |s.endpoints| ==> r.endpoints[i] == NewDDBEndpoint(s.endpoints[i])
    ensures ToRegistryService(r) == s.(nodes := [])
  {
    var r := DDBService(TypeSrv, s.name, s.version, s.metadata,
      seq(|s.endpoints|, i requires 0 <= i < |s.endpoints| => NewDDBEndpoint(s.endpoints[i])),
      0);
    assert ToRegistryService(r).endpoints == s.endpoints;
    r
  }

  /** Reading a stored service and storing it again recovers the record,
      except its type tag and TTL, which a domain service does not carry. */
  lemma ServiceRecordRoundTrip(d: DDBService)
    ensures NewDDBService(ToRegistryService(d)) == d.(typ := TypeSrv, ttl := 0)
  {
  }

  // ---------------------------------------------------------------------
  // Nodes

  /** A stored node comes back with its id read from ServiceName, not from
      Name, so the record's key never reaches the domain node. */
  function DDBNodeToRegistryValue(d: DDBNode): (r: Node)
    ensures r.id == d.serviceName
    ensures r.address == d.address && r.port == d.port && r.metadata == d.metadata
  {
    Node(d.serviceName, d.address, d.port, d.metadata)
  }

  function NewDDBNode(n: Node): (r: DDBNode)
    ensures r.typ == TypeNode && r.name == n.id
    ensures r.address == n.address && r.port == n.port
    ensures r.serviceName == "" && r.serviceVersion == "" && r.metadata == map[] && r.ttl == 0
    ensures DDBNodeToRegistryValue(r) == Node("", n.address, n.port, map[])
    ensures DDBNodeToRegistryValue(r) == n <==> n.id == "" && n.metadata == map[]
  {
    DDBNode(TypeNode, n.id, "", "", n.address, n.port, map[], 0)
  }

  /** Reading a stored node and storing it again loses the record's own
      Name: the new record is named after the old one's ServiceName, and
      its service fields and metadata are empty. */
  lemma NodeRecordRoundTrip(d: DDBNode)
    ensures NewDDBNode(DDBNodeToRegistryValue(d)) ==
      DDBNode(TypeNode, d.serviceName, "", "", d.address, d.port, map[], 0)
  {
  }
}
