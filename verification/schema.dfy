/**
 * Table and column descriptors as the statement builder hands them to the
 * extension layer, together with the relation declarations (`has`) a model
 * is defined with.
 */
module Schema {
  import opened Wrappers

  /** A column: optional alias, name, and whether it is (part of) the primary key. */
  datatype Column = Column(alias: Option<string>, name: string, primaryKey: bool)

  /**
   * A table descriptor: optional alias, the table's own `_name`, its columns in
   * declaration order, and the relations declared on it by name.
   */
  datatype Table = Table(alias: Option<string>, name: string, columns: seq<Column>, has: map<string, RelationSpec>)

  /** One entry of `has`: where the target comes from and whether it is many-valued. */
  datatype RelationSpec = RelationSpec(from: Target, many: bool)

  /** A relation target is either a table given directly or a model name looked up later. */
  datatype Target = Direct(table: Table) | Named(model: string)

  /** JavaScript's `alias || name`: an absent or empty alias falls back to the name. */
  function AliasOrName(alias: Option<string>, name: string): string
  {
    if alias.Some? && alias.value != "" then alias.value else name
  }

  /** The name a table is referred to by in generated aliases: `table.alias || table._name`. */
  function TableName(t: Table): string
  {
    AliasOrName(t.alias, t.name)
  }

  /** The builder's `table.as(alias)`: the same table, columns and relations under a new alias. */
  function As(t: Table, alias: string): Table
  {
    t.(alias := Some(alias))
  }
}
