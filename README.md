# DynamoDB service registry — a Dafny model

This project models the DynamoDB backend of a go-micro service registry. It
covers two parts:

- **The entity mapper** (`registry/dynamodb/types.go`). It converts the
  registry's domain descriptors to the records stored in the table and back.
  A service becomes a `DDBService`, a node a `DDBNode`, an endpoint a
  `DDBEndpoint`, and a recursive request/response schema a `DDBValue`.
- **The registry engine** (`registry/dynamodb/dynamodb.go`). It runs
  `Register`, `Deregister`, `GetService`, `ListServices` and `Watch` against
  one table.

The table is keyed by the pair (`Type`, `Name`):

- A service lives at `("service", service name)`.
- A node lives at `("node", node id)`.
- `GetService(name)` finds the nodes of a service with a `BEGINS_WITH name`
  query on the node ids.

The sort key is the bare service name or the bare node id. A second
`Register` of the same service name therefore overwrites the first service
item, whatever its version, and a node registered again under the same id
overwrites the earlier node item.

The table is the class `Store.Table`, holding a `map<Key, Item>`:

- Batched put is last-writer-wins overwrite.
- `DeleteItem` is map removal.
- A query returns every item of one `Type` whose `Name` starts with a given
  prefix, in some order. Dafny's `p <= name` is that prefix test.

The two queries in the source ask for strongly consistent results, so a
query sees every earlier write. The `GetItem` that reads the service item
does not set `ConsistentRead`, so it is an eventually consistent read: it
may return the current item or an earlier state of the key, which can be an
overwritten item or no item at all. Whether a call to the table fails, and
which state a get sees, is up to the service. So every table operation takes
its reply as a parameter (`Reply`, `ReadReply`, `BatchReply`), and a failed
call changes nothing. A `Stale` read reply carries the earlier item the
service serves. The clock is the `now` parameter (Unix seconds).

What the proofs establish:

- A schema value round-trips in both directions and keeps its shape. A service
  round-trips except for its nodes.
- A node does **not** round-trip. `DDBNode.ToRegistryValue` reads the id from
  `ServiceName`, which `NewDDBNode` leaves empty. So every node comes back
  from the table with id `""` and no metadata. Only the address and port
  survive.
- `Register` submits one batch of exactly `1 + |nodes|` puts: the service
  first, then the nodes in order, all with one TTL. The TTL is the TTL
  duration's raw count added to `now`, with int64 wrap-around. That count is
  in nanoseconds and `now` is in seconds, as the code is written. A partial
  failure is reported as `NotRegistered(1)`, because the code counts entries
  of the per-table map, not items.
- `Deregister` deletes only the first node's key. It then deletes the service
  item exactly when the read of that item finds one and no node id starts
  with the service name. When the read finds none it panics with `NotFound`.
  Because the read may be stale, this can happen right after a `Register`,
  and a service item that is already gone can still be read.
- `GetService` returns `NotFound` when its read finds no service item.
  Otherwise it returns exactly one service. That service carries every node
  whose id starts with the name, including nodes registered for other
  services whose names extend it (for example "foobar" for "foo").
  `ListServices` returns one node-less service per service item. Each
  service keeps its item's name, so the listing is exact up to order.

Modules: `Registry` and `Errors` (the domain types and errors,
`registry.dfy`), `Keys` and `Types` (`types.dfy`), `Store` (`store.dfy`) and
`DynamoDB` (`dynamodb.dfy`). The source's panics are modelled as
`Error.Panic` results.

## Model

| member | source | states |
|---|---|---|
| Keys.KeysDistinct | registry/dynamodb/dynamodb.go:140-146 | services and nodes are keyed by ("service", bare name) and ("node", bare id): two services share a key iff they share a name, two nodes iff they share an id, and no service shares a key with a node |
| Keys.NodeKey | registry/dynamodb/dynamodb.go:99-105 | a node's item key has partition "node" and sort key the bare node id, and never equals a service key |
| Types.NewDBBValue | registry/dynamodb/types.go:123-133 | storing a schema tree and reading the record back gives the same name, type and children, in order, at every level |
| Types.DDBValueToRegistryValue | registry/dynamodb/types.go:135-146 | reading a stored schema tree keeps the record's name and type and its number of children at every level |
| Types.ValueRecordRoundTrip | registry/dynamodb/types.go:123-146 | reading a stored schema tree and storing it again gives the same record |
| Types.ValueShapePreserved | registry/dynamodb/types.go:123-133 | conversion keeps the child count at every node of the tree and the total node count |
| Types.NewDDBEndpoint | registry/dynamodb/types.go:108-115 | the record keeps the endpoint's name and metadata, and its request and response read back as the endpoint's own |
| Types.ToRegistryValues | registry/dynamodb/types.go:40-46 | one domain value per stored child, each of which stores back to that child |
| Types.ToRegistryEndpoint | registry/dynamodb/types.go:35-60 | the endpoint built inline equals converting request and response back, and storing it again gives the record |
| Types.ToRegistryService | registry/dynamodb/types.go:30-70 | keeps name, version and metadata and has no nodes; each endpoint is the stored one converted back, in order, and stores back to that stored endpoint |
| Types.NewDDBService | registry/dynamodb/types.go:14-28 | type "service", name, version and metadata copied, TTL 0, one endpoint record per endpoint in order; reading it back gives the service without its nodes |
| Types.ServiceRecordRoundTrip | registry/dynamodb/types.go:14-70 | reading a service record and storing it again gives the record with type "service" and TTL 0 |
| Types.NodeRecordRoundTrip | registry/dynamodb/types.go:83-99 | reading a node record and storing it again gives a record named after the old ServiceName, with the old Name lost and service fields, metadata and TTL empty |
| Types.NewDDBNode | registry/dynamodb/types.go:83-90 | type "node", Name the node id, address and port copied, other fields empty; reading it back gives id "" and no metadata, so a node round-trips iff its id and metadata are empty |
| Store.AsService | registry/dynamodb/dynamodb.go:158-161 | unmarshalling keeps the item's key attributes and gives back a stored service record unchanged |
| Store.AsNode | registry/dynamodb/dynamodb.go:190-197 | unmarshalling keeps the item's key attributes and gives back a stored node record unchanged |
| Store.PutAllFrame | registry/dynamodb/dynamodb.go:76-80 | a batch leaves every key it does not write unchanged, and puts at every key it writes an item of the batch keyed by that key |
| Store.PutAllLastWriter | registry/dynamodb/dynamodb.go:76-80 | a key holds the item of the last request in the batch that writes it |
| Store.Table.BatchWriteItem | registry/dynamodb/dynamodb.go:76-80 | a failed call writes nothing; an accepted one writes the processed requests in order and returns the unprocessed ones under the table's name |
| Store.Table.DeleteItem | registry/dynamodb/dynamodb.go:99-108 | a failed call changes nothing; otherwise the key is removed and nothing else changes |
| Store.Table.GetItem | registry/dynamodb/dynamodb.go:140-156 | an eventually consistent read: the item at the key or none when it is absent, or an earlier state of the key served by the table, always an item stored under that key; or the call's error |
| Store.Table.Query | registry/dynamodb/dynamodb.go:163-184 | returns every item of the given Type whose Name starts with the prefix, each once, in some order |
| DynamoDB.AddInt64 | registry/dynamodb/dynamodb.go:45 | int64 addition: the exact sum when it fits, otherwise the sum wrapped modulo 2^64 |
| DynamoDB.RegisterRequests | registry/dynamodb/dynamodb.go:45-74 | 1 + nodes requests, service key first, then each node's key in input order; every item's TTL is TTL + now when TTL > 0 and 0 otherwise |
| DynamoDB.RegisterBatch | registry/dynamodb/dynamodb.go:45-74 | the two loops of Register build exactly the requests of RegisterRequests |
| DynamoDB.AllProcessed | registry/dynamodb/dynamodb.go:86-90 | nothing is left unprocessed iff no request position was rejected, and then the batch was written in full |
| DynamoDB.DynamoDBRegistry.Register | registry/dynamodb/dynamodb.go:35-91 | no nodes: error and no write; a failed batch: its error and no write; otherwise the processed requests are written and the result is success iff none was left unprocessed, else a count of 1 |
| DynamoDB.DynamoDBRegistry.Deregister | registry/dynamodb/dynamodb.go:93-135 | no nodes: error and no change; only ("node", first node id) is deleted; then the service item is deleted exactly when the read of it finds an item (the current one, or an earlier one on a stale read) and no node id starts with the name; a service item the read does not find, or a failed lookup, panics |
| DynamoDB.DynamoDBRegistry.GetService | registry/dynamodb/dynamodb.go:137-209 | NotFound when the read of the service item finds none, which on a read of the current state is exactly when the table holds none; otherwise exactly one service: the item read (current or stale) converted back with exactly one node per node item whose id starts with the name, in some order; a failed get panics, a failed query is a wrapped error |
| DynamoDB.DynamoDBRegistry.ListServices | registry/dynamodb/dynamodb.go:211-246 | one node-less service per service item, empty and no error when there are none; a failed query is a wrapped error |
| DynamoDB.DynamoDBRegistry.Watch | registry/dynamodb/dynamodb.go:248-250 | always fails: the source panics |
| DynamoDB.RegisterEffect | registry/dynamodb/dynamodb.go:48-80 | a fully processed registration puts the service item and every node item at their keys, the last node per id winning, and leaves all other keys unchanged |
| DynamoDB.RegisteredServiceLookup | registry/dynamodb/dynamodb.go:137-245 | after registration the service is listed and looks up with its name, version, metadata and endpoints; every node whose id starts with a looked-up name is found for that name; each node comes back with id "" and no metadata |

## Left out

- Connection setup is not modelled: `NewRegistry`, `newClient`, the session
  and `init` are AWS plumbing. `String` only returns the constant
  "dynamodb".
- `registry/dynamodb/options.go` and `getTableName` are not modelled. They
  pass the table name through a context value. The table's name is a
  constant field of `Store.Table` instead.
- Marshalling is the identity, so the unmarshal-failure branches of
  `GetService` and `ListServices` are not modelled. In the source these
  branches wrap the `err` of the preceding call, which is nil there, and
  `errors.Wrap(nil, …)` is nil. So they return no services and no error. Unmarshalling an item of the other
  kind matches attributes by name (`AsService`, `AsNode`).
- Register options other than the TTL are not modelled. The TTL is passed
  in as its raw int64 count.
- The `fmt.Printf` and `fmt.Println` logging in `GetService` is not modelled.
- `Deregister`'s `len(srv) == 0` check is not modelled. It is reached only
  when an unmarshal in `GetService` fails, which then returns no services
  and no error, and `Deregister` returns nil without deleting the service
  item. The identity codec rules this out.
- Query pagination is not modelled. DynamoDB returns at most one page per
  call, and the source reads only the first page. The model returns every
  match.
- The service's own rejections of a batch are not modelled. For example, a
  batch of more than 25 requests, or one with duplicate keys, is rejected.
  These cases are covered by the `BatchFails` reply, which the caller
  chooses.
- Which earlier state a stale `GetItem` serves is not modelled. A `Stale`
  reply may carry any item stored under the key, or none. The model keeps
  no history of the table to tie it to a state the key really had.
- The table's own expiry of items whose TTL has passed is not modelled. The
  table never drops an item by itself. So `RegisteredServiceLookup` holds
  only until the table removes an expired item.
- Concurrency is not modelled. This includes the race between the check and
  the delete in `Deregister`. The model is sequential.
- Nil pointers are not modelled, nor the difference between a nil slice and
  an empty one. Domain descriptors are values. A nil request or response
  would make the source panic.
- `registry/awsdiscovery/route53.go` is not part of this model. It is a
  thin wrapper over another AWS service.
- The order in which a query returns its items is not modelled. The
  nodes of `GetService` and the services of `ListServices` come back in
  some order.
