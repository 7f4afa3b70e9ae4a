/**
 * Extended tables and their lazily resolved relations (anydb-sql.js,
 * `extendedTable` and `defineProperties`). Each declared relation is a
 * property whose getter resolves its target on first use, either directly or
 * by name through the model registry, remembers that target, and on every
 * access returns it aliased after the owner and the relation.
 */
module Relation {
  import opened Wrappers
  import opened Schema

  /** A relation names a model that is not in the registry when it is first used. */
  datatype RelationError = ReferenceNotFound(model: string)

  /** The alias a relation's target takes: `<owner>.<relation>`, with `[]` when many-valued. */
  function RelationAlias(ownerName: string, name: string, many: bool): string
  {
    ownerName + "." + name + (if many then "[]" else "")
  }

  /** A many-valued relation's alias ends in `[]`; a single-valued one is exactly `<owner>.<relation>`. */
  lemma RelationAliasShape(ownerName: string, name: string, many: bool)
    ensures var a := RelationAlias(ownerName, name, many);
      && (many ==> |a| >= 2 && a[|a| - 2..] == "[]" && a[..|a| - 2] == ownerName + "." + name)
      && (!many ==> a == ownerName + "." + name)
  {
    if many {
      var a := RelationAlias(ownerName, name, many);
      assert a == (ownerName + "." + name) + "[]";
    }
  }

  /** Two relations of one owner with the same multiplicity get the same alias only if they have the same name. */
  lemma RelationAliasInjective(ownerName: string, n1: string, n2: string, many: bool)
    requires RelationAlias(ownerName, n1, many) == RelationAlias(ownerName, n2, many)
    ensures n1 == n2
  {
    var suffix := if many then "[]" else "";
    var a1 := RelationAlias(ownerName, n1, many);
    var p := |ownerName| + 1;
    assert a1 == (ownerName + ".") + n1 + suffix;
    assert RelationAlias(ownerName, n2, many) == (ownerName + ".") + n2 + suffix;
    assert |n1| == |n2|;
    assert a1[p..p + |n1|] == n1;
    assert RelationAlias(ownerName, n2, many)[p..p + |n2|] == n2;
  }

  /** Where a relation's target comes from: the table itself, or the registry entry of that name. */
  function Resolve(from: Target, models: map<string, Table>): Option<Table>
  {
    match from
    case Direct(t) => Some(t)
    case Named(n) => if n in models then Some(models[n]) else None
  }

  /**
   * The relation caches after one access to relation `name`: a cached target
   * stays; otherwise the lookup result is stored, if it found anything.
   */
  function Remember(resolved: map<string, Table>, name: string, from: Target, models: map<string, Table>): (r: map<string, Table>)
    ensures name in resolved ==> r == resolved
    ensures name !in resolved && from.Direct? ==> r == resolved[name := from.table]
    ensures name !in resolved && from.Named? ==>
      r == if from.model in models then resolved[name := models[from.model]] else resolved
  {
    if name in resolved then resolved
    else match Resolve(from, models)
      case Some(t) => resolved[name := t]
      case None => resolved
  }

  /** Once a relation has resolved its target, later accesses keep it whatever the registry then holds. */
  lemma RememberIsStable(resolved: map<string, Table>, name: string, from: Target, m1: map<string, Table>, m2: map<string, Table>)
    requires name in Remember(resolved, name, from, m1)
    ensures Remember(Remember(resolved, name, from, m1), name, from, m2) == Remember(resolved, name, from, m1)
  {
  }

  /**
   * An extended table: the builder's table plus one lazily resolved property
   * per declared relation. `resolved` holds, per relation name, the target its
   * getter has cached so far.
   */
  class Model {
    const table: Table
    var resolved: map<string, Table>

    /** Only declared relations are cached, and a relation declared with a table caches that very table. */
    ghost predicate Valid()
      reads this
    {
      && resolved.Keys <= table.has.Keys
      && (forall n :: n in resolved && table.has[n].from.Direct? ==> resolved[n] == table.has[n].from.table)
    }

    /** `extendedTable(table, opt)`: no relation has been resolved yet. */
    constructor (table: Table)
      ensures this.table == table && resolved == map[] && Valid()
    {
      this.table := table;
      resolved := map[];
    }

    /** `as(alias)`: a new extended table over the aliased table, with relations of its own, none resolved. */
    method As(alias: string) returns (m: Model)
      ensures fresh(m) && m.table == Schema.As(table, alias) && m.resolved == map[] && m.Valid()
    {
      m := new Model(Schema.As(table, alias));
    }

    /**
     * Reading relation property `name`. The target is looked up only while
     * none is cached; the alias is built from the owner's name at this access.
     * `models` is the registry `db.models`, each extended table given by its
     * descriptor (`Database.Db.Descriptors`).
     */
    method Relation(name: string, models: map<string, Table>) returns (r: Result<Table, RelationError>)
      requires Valid() && name in table.has
      modifies this
      ensures Valid()
      ensures resolved == Remember(old(resolved), name, table.has[name].from, models)
      ensures name in resolved ==>
        r == Ok(Schema.As(resolved[name], RelationAlias(TableName(table), name, table.has[name].many)))
      ensures name !in resolved ==>
        table.has[name].from.Named? && table.has[name].from.model !in models
        && r == Err(ReferenceNotFound(table.has[name].from.model))
    {
      var spec := table.has[name];
      if name !in resolved {
        match spec.from
        case Direct(t) =>
          resolved := resolved[name := t];
        case Named(n) =>
          if n in models {
            resolved := resolved[name := models[n]];
          }
      }
      if name in resolved {
        var ownerName := TableName(table);
        r := Ok(Schema.As(resolved[name], RelationAlias(ownerName, name, spec.many)));
      } else {
        r := Err(ReferenceNotFound(spec.from.model));
      }
    }
  }
}
