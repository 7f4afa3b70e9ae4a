/**
 * The database object (anydb-sql.js, module function): the dialect chosen
 * from the URL, the connection pool with its open/close lifecycle, and the
 * registry `db.models` that `define` fills.
 */
module Database {
  import opened Wrappers
  import opened Schema
  import opened Dialect
  import Relation

  /** The options the module is called with; the URL's scheme is given already parsed. */
  datatype Options = Options(url: string, protocol: Protocol, connections: nat)

  /** A pool handle: the sqlite pool or the generic any-db pool, created from the URL and pool settings. */
  datatype Pool = SqlitePool(url: string, connections: nat) | GenericPool(url: string, connections: nat)

  /**
   * Why `open` failed: the sqlite pool module could not be loaded (the error
   * `open` throws), or the any-db pool could not be created (the error
   * `createPool` throws, which `open` passes on unchanged).
   */
  datatype InitError = UnableToLoadSqlitePool | PoolCreationFailed

  /**
   * The pool after `open`, and the error it throws if any. An existing pool
   * is kept; otherwise the sqlite dialect gets the sqlite pool and every
   * other dialect the generic pool, and either fails, leaving no pool, when
   * it cannot be set up.
   */
  function Opened(pool: Option<Pool>, dialect: string, options: Options, sqliteLoads: bool, genericCreates: bool): (r: (Option<Pool>, Option<InitError>))
    ensures pool.Some? ==> r == (pool, None)
    ensures r.1.Some? <==> pool.None? && (if dialect == "sqlite" then !sqliteLoads else !genericCreates)
    ensures r.1.Some? ==> r.0 == None && (r.1.value.UnableToLoadSqlitePool? <==> dialect == "sqlite")
    ensures pool.None? && r.1.None? ==>
      r.0.Some? && r.0.value.url == options.url && r.0.value.connections == options.connections
      && (r.0.value.SqlitePool? <==> dialect == "sqlite")
  {
    if pool.Some? then (pool, None)
    else if dialect == "sqlite" then
      if sqliteLoads then (Some(SqlitePool(options.url, options.connections)), None)
      else (None, Some(UnableToLoadSqlitePool))
    else if genericCreates then (Some(GenericPool(options.url, options.connections)), None)
    else (None, Some(PoolCreationFailed))
  }

  /** Opening twice is opening once. */
  lemma OpenedIdempotent(pool: Option<Pool>, dialect: string, options: Options, sqliteLoads: bool, genericCreates: bool)
    ensures var once := Opened(pool, dialect, options, sqliteLoads, genericCreates);
      Opened(once.0, dialect, options, sqliteLoads, genericCreates).0 == once.0
  {
  }

  /** The registry after each definition `(name, model)` in turn: a later definition of a name replaces an earlier one. */
  function Register<M>(models: map<string, M>, defs: seq<(string, M)>): map<string, M>
  {
    if defs == [] then models
    else
      var d := defs[|defs| - 1];
      Register(models, defs[..|defs| - 1])[d.0 := d.1]
  }

  /**
   * A name is registered exactly when it was registered before or some
   * definition uses it, and it then maps to the last definition using it.
   */
  lemma {:induction false} RegisterLastWins<M>(models: map<string, M>, defs: seq<(string, M)>, name: string)
    ensures name in Register(models, defs) <==> name in models || exists i :: 0 <= i < |defs| && defs[i].0 == name
    ensures forall i :: 0 <= i < |defs| && defs[i].0 == name && (forall j :: i < j < |defs| ==> defs[j].0 != name) ==>
      Register(models, defs)[name] == defs[i].1
    ensures (forall i :: 0 <= i < |defs| ==> defs[i].0 != name) && name in models ==>
      Register(models, defs)[name] == models[name]
  {
    if defs != [] {
      var init := defs[..|defs| - 1];
      RegisterLastWins(models, init, name);
      assert forall i :: 0 <= i < |init| ==> init[i] == defs[i];
    }
  }

  /** The state of one `anydb-sql` instance. */
  class Db {
    const options: Options
    const dialect: string
    var pool: Option<Pool>
    var models: map<string, Relation.Model>

    /** The instance before `open` runs: dialect chosen, no pool, no models. */
    constructor (options: Options)
      ensures this.options == options && dialect == ExtractDialect(options.protocol)
      ensures pool == None && models == map[]
    {
      this.options := options;
      dialect := ExtractDialect(options.protocol);
      pool := None;
      models := map[];
    }

    /** The module function: set up the instance and open it, failing if the pool cannot be set up. */
    static method Connect(options: Options, sqliteLoads: bool, genericCreates: bool) returns (r: Result<Db, InitError>)
      ensures r.Err? <==> if ExtractDialect(options.protocol) == "sqlite" then !sqliteLoads else !genericCreates
      ensures r.Err? ==> r == Err(Opened(None, ExtractDialect(options.protocol), options, sqliteLoads, genericCreates).1.value)
      ensures r.Ok? ==>
        && fresh(r.value) && r.value.options == options
        && r.value.dialect == ExtractDialect(options.protocol)
        && r.value.pool == Opened(None, r.value.dialect, options, sqliteLoads, genericCreates).0
        && r.value.pool.Some? && r.value.models == map[]
    {
      var db := new Db(options);
      var err := db.Open(sqliteLoads, genericCreates);
      if err.Some? {
        return Err(err.value);
      }
      return Ok(db);
    }

    /** `db.open()`: creates a pool if there is none. */
    method Open(sqliteLoads: bool, genericCreates: bool) returns (err: Option<InitError>)
      modifies this`pool
      ensures (pool, err) == Opened(old(pool), dialect, options, sqliteLoads, genericCreates)
    {
      err := None;
      if pool.Some? {
        return;
      }
      if dialect == "sqlite" {
        if sqliteLoads {
          pool := Some(SqlitePool(options.url, options.connections));
        } else {
          err := Some(UnableToLoadSqlitePool);
        }
      } else if genericCreates {
        pool := Some(GenericPool(options.url, options.connections));
      } else {
        err := Some(PoolCreationFailed);
      }
    }

    /** `db.close()`: closes the pool, if there is one, and forgets it; returns the pool that was closed. */
    method Close() returns (closed: Option<Pool>)
      modifies this`pool
      ensures closed == old(pool) && pool == None
    {
      closed := pool;
      pool := None;
    }

    /**
     * The registry as the relation getters consult it: each registered
     * extended table's descriptor, under its registered name.
     */
    function Descriptors(): (r: map<string, Table>)
      reads this
      ensures r.Keys == models.Keys
      ensures forall n :: n in r ==> r[n] == models[n].table
    {
      map n | n in models :: models[n].table
    }

    /** `db.define(opt)`: extends the table and registers that extended table under its name, replacing any earlier one. */
    method Define(t: Table) returns (m: Relation.Model)
      modifies this`models
      ensures fresh(m) && m.table == t && m.resolved == map[] && m.Valid()
      ensures models == Register(old(models), [(t.name, m)])
      ensures Descriptors() == old(Descriptors())[t.name := t]
    {
      m := new Relation.Model(t);
      models := models[t.name := m];
      assert [(t.name, m)][..0] == [];
    }
  }
}
