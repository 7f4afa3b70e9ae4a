/**
 * Query extension (anydb-sql.js, `extendedTable`'s query methods and
 * `extendedQuery`): every builder operation reached through an extended
 * table or an extended query returns an extended query, and a result that is
 * already extended is passed through rather than wrapped a second time.
 */
module Queries {
  import opened Wrappers
  import opened Schema
  import opened Naming

  /** The builder operations the extension re-exposes. */
  datatype QueryMethod = Select | From | Insert | Update | Delete | Create | Drop | Alter | Where | Indexes

  /** An argument handed to a builder operation: text, or a list of projections. */
  datatype BuilderArg = Text(text: string) | Columns(projections: seq<Projection>)

  /** One builder operation call. */
  datatype Call = Call(op: QueryMethod, args: seq<BuilderArg>)

  /**
   * A query node: the builder's own node, given by its call chain, or an
   * extension layer around another query. Extension layers carry the
   * `__extQuery` mark, which anything derived from them inherits.
   */
  datatype Query = Node(chain: seq<Call>) | Ext(base: Query)

  /** The number of extension layers around the builder's node. */
  function Layers(q: Query): nat
  {
    if q.Ext? then 1 + Layers(q.base) else 0
  }

  /** `extendedQuery` unless the query is already extended. */
  function Wrap(q: Query): (r: Query)
    ensures r.Ext?
    ensures q.Ext? ==> r == q
    ensures !q.Ext? ==> r.base == q
  {
    if q.Ext? then q else Ext(q)
  }

  /** Wrapping twice is wrapping once. */
  lemma WrapIdempotent(q: Query)
    ensures Wrap(Wrap(q)) == Wrap(q)
    ensures Layers(Wrap(q)) == if q.Ext? then Layers(q) else 1
  {
  }

  /**
   * An extended query's builder operation: the builder runs on the wrapped
   * query, and its result is wrapped unless it is already extended.
   */
  function Forward(q: Query, c: Call, builder: (Query, Call) -> Query): (r: Query)
    requires q.Ext?
    ensures r.Ext?
    ensures Layers(r) == if builder(q.base, c).Ext? then Layers(builder(q.base, c)) else 1
  {
    Wrap(builder(q.base, c))
  }

  /** A chain of builder operations on an extended query. */
  function Chain(q: Query, calls: seq<Call>, builder: (Query, Call) -> Query): (r: Query)
    requires q.Ext?
    ensures r.Ext?
    decreases |calls|
  {
    if calls == [] then q
    else Forward(Chain(q, calls[..|calls| - 1], builder), calls[|calls| - 1], builder)
  }

  /**
   * As long as the builder never returns a doubly extended query, however
   * long a chain is, its result carries exactly one extension layer.
   */
  lemma {:induction false} ChainSingleLayer(q: Query, calls: seq<Call>, builder: (Query, Call) -> Query)
    requires Layers(q) == 1
    requires forall x, c :: Layers(builder(x, c)) <= 1
    ensures Layers(Chain(q, calls, builder)) == 1
  {
    if calls != [] {
      ChainSingleLayer(q, calls[..|calls| - 1], builder);
    }
  }

  /** An extended table's builder operation: the table's own result is always wrapped. */
  function TableCall(t: Table, c: Call, builder: (Table, Call) -> Query): (r: Query)
    ensures r.Ext? && r.base == builder(t, c)
    ensures !builder(t, c).Ext? ==> Layers(r) == 1
  {
    Ext(builder(t, c))
  }

  /**
   * `selectDeep(...args)`: `select` with the projection list of `allOf(...args)`;
   * it fails exactly when `allOf` rejects one of the arguments.
   */
  function SelectDeep(q: Query, args: seq<Argument>, builder: (Query, Call) -> Query): (r: Result<Query, NamingError>)
    requires q.Ext?
    ensures r.Ok? <==> Supported(args)
    ensures r.Ok? ==> r.value == Forward(q, Call(Select, [Columns(AllOf(args).value)]), builder)
    ensures r.Err? ==> r.error == AllOf(args).error
  {
    match AllOf(args)
    case Err(e) => Err(e)
    case Ok(projections) => Ok(Forward(q, Call(Select, [Columns(projections)]), builder))
  }
}
