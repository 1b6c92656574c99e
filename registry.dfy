/** The domain descriptors of the go-micro `registry` package that a
    registry stores and hands back: services, their endpoints with
    request/response schemas, and the nodes that serve them. */
module Registry {

  type Metadata = map<string, string>

  /** A request or response schema: a tree of named, typed values whose
      children are ordered. */
  datatype Value = Value(name: string, typ: string, values: seq<Value>)

  datatype Endpoint = Endpoint(name: string, request: Value, response: Value, metadata: Metadata)

  datatype Node = Node(id: string, address: string, port: int, metadata: Metadata)

  datatype Service = Service(
    name: string,
    version: string,
    metadata: Metadata,
    endpoints: seq<Endpoint>,
    nodes: seq<Node>)
}

/** Errors surfaced by the registry, and the panics of the source modelled
    as error results. */
module Errors {

  datatype Option<T> = None | Some(value: T)

  datatype Error =
    | Message(text: string)            // errors.New with a fixed text
    | NotFound                         // registry.ErrNotFound
    | NotRegistered(count: nat)        // "%d items were not registered"
    | StoreError(text: string)         // an error returned by the table client
    | Wrapped(context: string, cause: Error)  // errors.Wrap(cause, context)
    | Panic(cause: Error)              // the source panics with cause

  datatype Result<T> = Success(value: T) | Failure(error: Error)
}
