# anydb-sql: a Dafny model of the extension layer

anydb-sql sits between a SQL statement builder and an any-db connection pool.
Tables defined through it become *models*: builder operations on them return
*extended queries*, which can be executed against the pool and whose rows can
be shaped into keyed objects; declared relations (`has`) become properties
that resolve their target model lazily, by name, through the registry
`db.models`. This project models that layer, all of it in `anydb-sql.js`:

- `dialect.dfy` — `extractDialect`: the URL scheme without its `:`, with
  `sqlite3` renamed `sqlite`.
- `schema.dfy` — table, column and relation descriptors, and JavaScript's
  `alias || name` fallback (an empty alias counts as absent).
- `naming.dfy` — `columnName` (the `##` primary-key marker) and `db.allOf`,
  the flat, ordered projection list for several tables and aggregate columns.
  An argument that is neither is an error naming its position.
- `shaping.dfy` — rows as JavaScript objects, the `(err, rows)` pair that
  `execWithin` hands to a callback, `get`, and `allObject` with its four mapper
  kinds and its filter. The imperative loops of `allObject` and of the
  mappers are methods proved against specification functions.
- `relation.dfy` — the extended table as a class. It holds the per-relation
  cache of resolved targets, and a relation getter looks the target up only
  while nothing is cached.
- `queries.dfy` — wrapping builder results into extended queries without
  double wrapping, and `selectDeep`.
- `database.dfy` — the `db` object as a class. It has the pool handle with its
  `open`/`close` lifecycle and the `db.models` registry that `define` fills.
  The last definition of a name wins.

The model follows the code's exact behaviour, including these less obvious points:

- A relation getter caches only the resolved *target* (anydb-sql.js:82-86).
  The alias is rebuilt from the owner's name on every access (line 87); it is
  not cached with the target.
- A mapper given as the empty string is falsy, so `allObject` uses the default
  mapper for it (line 149). It does not read the column named `""`.
- The scheme `sqlite:` also yields the dialect `sqlite`, by plain pass-through.
- `allObject` keys are JavaScript property keys, so a numeric key `1` and a
  string key `"1"` land on the same entry.
- A column that is not a primary key but whose alias or name already ends in
  `##` gets an output name that reads as marked (`x##` splits back to `x` and
  "primary key"); `Naming.ColumnNameMarkerCollision` exhibits it. So the `##`
  marker identifies primary keys only among names that do not end in `##`.
- `allOf` given an argument of another kind yields `undefined` or throws,
  depending on its position (lines 235-247). The model reports an error naming
  the first such argument.

Values the source takes from outside are parameters of the model: the statement
builder's operations (`(Query, Call) -> Query`), the row normalizer
(`Row -> Row`), the connection's reply to a statement, whether the sqlite pool
module can be loaded, whether any-db's `createPool` succeeds, and the already
parsed URL scheme.

## Model

| member | source | states |
|---|---|---|
| Dialect.ExtractDialect | anydb-sql.js:16-22 | the dialect is `sqlite` exactly for the schemes `sqlite3:` and `sqlite:`; every other scheme comes back without its trailing `:` and otherwise unchanged |
| Naming.ColumnNameMarksKeys | anydb-sql.js:226-231 | a column's output name starts with its alias-or-name and ends in `##` exactly when the column is a primary key, provided the alias-or-name does not itself end in `##` |
| Naming.ColumnNameMarkerCollision | anydb-sql.js:226-231 | a non-key column named `x##` gets an output name ending in `##`, which splits back to `x` and a primary-key flag |
| Naming.ColumnNameRoundTrip | anydb-sql.js:226-231 | splitting the `##` marker off an output name gives back the alias-or-name and the primary-key flag |
| Naming.SupportedMeansNoOther | anydb-sql.js:237-246 | the arguments `allOf` can handle are exactly those in which no argument is of another kind |
| Naming.AllOf | anydb-sql.js:233-248 | `allOf` succeeds exactly when every argument is a table or an aggregate column; otherwise its error names the first argument of another kind |
| Naming.AllOfSnoc | anydb-sql.js:235-246 | one more table or aggregate argument appends exactly its projections to the result |
| Naming.AllOfConcat | anydb-sql.js:235-247 | `allOf` of two argument lists is the concatenation of their results |
| Naming.AllOfSegment | anydb-sql.js:235-247 | argument `k`'s projections sit between those of the arguments before it and those after it, so arguments keep their order |
| Naming.AllOfLength | anydb-sql.js:235-247 | the result has exactly as many projections as the table arguments have columns, plus one per aggregate (`TotalWidth` sums `Width`: a table's column count, 1 for an aggregate) |
| Naming.AllOfTable | anydb-sql.js:236-240 | for one table there is one projection per column, in declaration order, aliased `<table alias or name>.<column name>` |
| Naming.AllOfAggregate | anydb-sql.js:241-246 | an aggregate column gives one projection aliased after its owning table |
| Shaping.Put | anydb-sql.js:158 | assigning a property keeps an object well formed and sets that one property |
| Shaping.Pick | anydb-sql.js:155-160 | the object built from a column list has exactly the listed keys, each with the row's value (`undefined` if absent) |
| Shaping.PickColumns | anydb-sql.js:157-158 | the copy loop builds exactly that object |
| Shaping.OtherKeys | anydb-sql.js:163-165 | the non-key columns are exactly the row's keys other than the key column, each still listed once |
| Shaping.ShapeRow | anydb-sql.js:149-175 | running the chosen mapper on a row yields the value `Shape` specifies for it |
| Shaping.DefaultShapeNoOthers | anydb-sql.js:167 | the default mapper yields `null` when the row has no column besides the key |
| Shaping.DefaultShapeOneOther | anydb-sql.js:168 | the default mapper yields the value of the only other column |
| Shaping.DefaultShapeManyOthers | anydb-sql.js:169-174 | with several other columns, the default mapper yields an object with exactly those columns and their values |
| Shaping.KeyedSnoc | anydb-sql.js:181-185 | one more row stores its shaped value under its key if the filter accepts it, and changes nothing otherwise |
| Shaping.KeyedDomain | anydb-sql.js:180-185 | the result has a key exactly when some accepted row carries that key |
| Shaping.KeyedLastWins | anydb-sql.js:183 | under a shared key the result holds the shaped value of the last accepted row |
| Shaping.DefaultFilterKeepsAll | anydb-sql.js:147 | without a filter, every row's key is in the result |
| Shaping.Deliver | anydb-sql.js:104-117 | the callback gets an error exactly when the driver reported one, and that error carries the statement text and parameters; rows, when present, are the driver's rows normalized one by one |
| Shaping.GetFirst | anydb-sql.js:124-128 | `get` passes the error on and yields the first row, or nothing when there are no rows |
| Shaping.AllObject | anydb-sql.js:146-189 | on an error only the error is passed and nothing is built; otherwise the result is the keyed object of the accepted rows |
| Relation.RelationAliasShape | anydb-sql.js:78-88 | a relation's alias is `<owner>.<relation>`, followed by `[]` exactly when the relation is many-valued |
| Relation.RelationAliasInjective | anydb-sql.js:87-88 | two relations of one owner with the same multiplicity get the same alias only if they have the same name |
| Relation.Remember | anydb-sql.js:82-86 | a cached target is kept; otherwise a direct target is stored, and a named one is stored only if the registry has it |
| Relation.RememberIsStable | anydb-sql.js:82-86 | once a target is cached, later accesses keep it whatever the registry holds |
| Relation.Model.constructor | anydb-sql.js:51-71 | a new extended table has no relation resolved yet |
| Relation.Model.As | anydb-sql.js:64-66 | `as` yields a fresh extended table over the aliased table, with relations of its own and none resolved |
| Relation.Model.Relation | anydb-sql.js:74-93 | the getter resolves at most once and returns the target aliased `<owner>.<relation>[[]]`; an unregistered name is an error and leaves the cache empty so the next access retries |
| Queries.Wrap | anydb-sql.js:191-197 | the result is extended; an extended query is returned unchanged, and any other query gets exactly one layer |
| Queries.WrapIdempotent | anydb-sql.js:191-197 | wrapping twice is wrapping once |
| Queries.Forward | anydb-sql.js:191-197 | an extended query's builder operation returns an extended query with no layer added to an already extended result |
| Queries.Chain | anydb-sql.js:191-197 | any chain of builder operations on an extended query yields an extended query |
| Queries.ChainSingleLayer | anydb-sql.js:191-197 | if the builder never returns a doubly extended query, no chain of operations ever produces one |
| Queries.TableCall | anydb-sql.js:56-60 | an extended table's builder operation always wraps the table's result once |
| Queries.SelectDeep | anydb-sql.js:199-201 | `selectDeep` succeeds exactly when `allOf` accepts its arguments, and then it is `select` over `allOf`'s projections |
| Database.Opened | anydb-sql.js:32-45 | an existing pool is kept; otherwise `sqlite` gets the sqlite pool and every other dialect the generic pool, from the URL and connection settings; when the chosen pool cannot be loaded or created the result is its error and no pool |
| Database.OpenedIdempotent | anydb-sql.js:32-45 | opening twice leaves the same pool as opening once |
| Database.RegisterLastWins | anydb-sql.js:209-213 | a name is registered exactly when it was before or some definition uses it, and it then maps to the extended table of the last definition using it |
| Database.Db.constructor | anydb-sql.js:24-30 | the dialect is extracted from the URL scheme; there is no pool yet and no model |
| Database.Db.Connect | anydb-sql.js:24-49 | setting up fails exactly when the pool for the dialect cannot be set up (the sqlite pool cannot be loaded, or `createPool` throws), with that error; otherwise the instance is open with an empty registry |
| Database.Db.Open | anydb-sql.js:32-45 | the new pool and the error are those `Opened` gives for the old pool |
| Database.Db.Close | anydb-sql.js:216-220 | the pool that was open, if any, is the one closed, and afterwards there is no pool |
| Database.Db.Define | anydb-sql.js:209-213 | a fresh extended table over the definition is returned, and the registry maps its name to that same extended table, replacing an earlier entry |

## Left out

- Rendering SQL (`toQuery`) and the builder's own `define`, `as` and
  operations: the builder is a function parameter. The model treats it as
  returning a new node. Whether the builder updates a node in place is not
  modelled.
- The any-db and sqlite pool drivers: a pool is an opaque handle. Its
  `query`, `begin` and `close` are not modelled, and neither are the
  arguments `close` passes on to the pool.
- `exec`, `all` and `execWithin` as calls: the connection context, the pool
  value `exec` captures when the query is created, and `db.query`/`db.begin`
  bound to the first pool. Only what the callback receives is modelled
  (`Deliver`), so the use of a pool after `close` is not modelled. The same
  holds for `exec` without a callback, which returns the context's own result.
- Shaping.Deliver: keeps the driver's message, the statement text and the
  parameters. It does not model the rewriting of the message with
  `substr` and `JSON.stringify` (lines 110-115), which is string formatting.
- The row normalizer: it is a parameter `Row -> Row`, because its source is
  not part of this model.
- `url.parse` (the scheme is given already parsed, so its lower-casing is not
  modelled), the per-table `EventEmitter`, and prototype inheritance between
  tables and queries.
- Callback timing and the ordering of concurrent executions.
- Mapper and filter arguments of other JavaScript types: a non-array object,
  a number, or a filter returning a non-boolean. The mapper is a closed
  datatype and the filter returns `bool`.
- Values: floating-point numbers, arrays, dates and buffers. Numbers are the
  integers a double holds exactly (magnitude below 2^53), whose property keys
  are their plain decimal form; larger integers, which JavaScript rounds and
  from 10^21 on writes in exponent notation, are not modelled. Property keys
  are modelled for these integers, strings, booleans, `null`, `undefined` and
  plain objects.
- Shaping.Get, Shaping.Put, Shaping.Keyed: names inherited from
  `Object.prototype` are not modelled for rows or for the `allObject` result.
  Reading `row["constructor"]` or `row["toString"]` in the source yields a
  function where the model yields `undefined`, and assigning under the key
  `__proto__` creates no own property where the model stores an ordinary key.
- Object key order: objects keep keys in insertion order. JavaScript
  enumerates integer-like keys first, in ascending order. The keyed result of
  `allObject` is a map, so its key order is not modelled.
- Shaping.AllObject: a reply with neither error nor rows makes the source
  throw a `TypeError` inside the callback. The model reports this as
  `RowsMissing`.
- Relation.Model.Relation: returns the aliased target table. The fresh
  extended table that `as` builds around it is `Relation.Model.As`. Registry
  lookups of names inherited from `Object.prototype` (such as `constructor`)
  are not modelled. Because nothing renames an extended table in place, the
  owner's name is read from its table at each access.
