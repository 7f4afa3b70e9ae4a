/**
 * The column-naming policy for multi-table projections (anydb-sql.js,
 * `columnName` and `db.allOf`): every table column, or a single aggregate
 * column, becomes one projection aliased `<table>.<column>`, with `##`
 * appended to primary-key columns so that the row normalizer can find them.
 */
module Naming {
  import opened Wrappers
  import opened Schema

  /** An argument of `allOf`: a whole table, one aggregate column with its owning table, or anything else. */
  datatype Argument = TableArg(table: Table) | Aggregate(column: Column, owner: Table) | Other

  /** The builder's `column.as(alias)`: the column projected under an output alias. */
  datatype Projection = Projection(column: Column, alias: string)

  /** `allOf` handles neither tables nor aggregates: the offending argument's position. */
  datatype NamingError = UnsupportedArgument(index: nat)

  /** The name a column is known by before the key marker: `c.alias || c.name`. */
  function BaseName(c: Column): string
  {
    AliasOrName(c.alias, c.name)
  }

  /** Whether a name ends in the primary-key marker `##`. */
  predicate HasKeyMarker(s: string)
  {
    |s| >= 2 && s[|s| - 2..] == "##"
  }

  /** The output name of a column: its alias or name, marked with `##` when it is a primary-key column. */
  function ColumnName(c: Column): string
  {
    if c.primaryKey then BaseName(c) + "##" else BaseName(c)
  }

  /**
   * The marker identifies primary-key columns exactly, unless the alias or
   * name itself already ends in `##`; the unmarked part is the alias or name.
   */
  lemma ColumnNameMarksKeys(c: Column)
    ensures !HasKeyMarker(BaseName(c)) ==> (HasKeyMarker(ColumnName(c)) <==> c.primaryKey)
    ensures ColumnName(c)[..|BaseName(c)|] == BaseName(c)
  {
    var name := BaseName(c);
    if c.primaryKey {
      assert (name + "##")[|name + "##"| - 2..] == "##";
    }
  }

  /**
   * The premise above is needed: a column that is not a primary key but whose
   * name already ends in `##` gets an output name that reads as marked.
   */
  lemma ColumnNameMarkerCollision()
    ensures var c := Column(None, "x##", false);
      !c.primaryKey && HasKeyMarker(ColumnName(c)) && SplitKeyMarker(ColumnName(c)) == ("x", true)
  {
    var c := Column(None, "x##", false);
    assert ColumnName(c) == "x##";
    assert ColumnName(c)[1..] == "##" && ColumnName(c)[..1] == "x";
  }

  /** Splits the key marker off an output name: the inverse of `ColumnName`. */
  function SplitKeyMarker(s: string): (string, bool)
  {
    if HasKeyMarker(s) then (s[..|s| - 2], true) else (s, false)
  }

  /** A column's output name gives back its alias-or-name and its key flag. */
  lemma ColumnNameRoundTrip(c: Column)
    requires !HasKeyMarker(BaseName(c))
    ensures SplitKeyMarker(ColumnName(c)) == (BaseName(c), c.primaryKey)
  {
    ColumnNameMarksKeys(c);
  }

  /** The projections one argument contributes, in column declaration order. */
  function Entries(arg: Argument): seq<Projection>
  {
    match arg
    case TableArg(t) =>
      seq(|t.columns|, i requires 0 <= i < |t.columns| =>
        Projection(t.columns[i], TableName(t) + "." + ColumnName(t.columns[i])))
    case Aggregate(c, owner) => [Projection(c, TableName(owner) + "." + ColumnName(c))]
    case Other => []
  }

  /** Every argument is a table or an aggregate column. */
  predicate Supported(args: seq<Argument>)
  {
    args == [] || (Supported(args[..|args| - 1]) && !args[|args| - 1].Other?)
  }

  /** `Supported` says that no argument is of an unhandled kind. */
  lemma {:induction false} SupportedMeansNoOther(args: seq<Argument>)
    ensures Supported(args) <==> forall k :: 0 <= k < |args| ==> !args[k].Other?
  {
    if args != [] {
      var init := args[..|args| - 1];
      SupportedMeansNoOther(init);
      assert forall k :: 0 <= k < |init| ==> init[k] == args[k];
    }
  }

  /** The number of projections one argument stands for: a table's column count, one for an aggregate. */
  function Width(arg: Argument): nat
  {
    match arg
    case TableArg(t) => |t.columns|
    case Aggregate(_, _) => 1
    case Other => 0
  }

  /** The number of projections the arguments stand for together. */
  function TotalWidth(args: seq<Argument>): nat
  {
    if args == [] then 0 else TotalWidth(args[..|args| - 1]) + Width(args[|args| - 1])
  }

  /**
   * `db.allOf(...args)`: the left-to-right concatenation of every argument's
   * projections. Any argument that is neither a table nor an aggregate makes
   * the reduction yield nothing usable; that is an error naming the first such
   * argument.
   */
  function AllOf(args: seq<Argument>): (r: Result<seq<Projection>, NamingError>)
    ensures r.Ok? <==> Supported(args)
    ensures r.Err? ==> r.error.index < |args| && args[r.error.index].Other? && Supported(args[..r.error.index])
  {
    if args == [] then Ok([])
    else
      var init, last := args[..|args| - 1], args[|args| - 1];
      assert init[..|init|] == init;
      assert forall j :: 0 <= j <= |init| ==> init[..j] == args[..j];
      match AllOf(init)
      case Err(e) => Err(e)
      case Ok(all) =>
        if last.Other? then Err(UnsupportedArgument(|args| - 1)) else Ok(all + Entries(last))
  }

  /** Appending one supported argument appends its projections. */
  lemma AllOfSnoc(args: seq<Argument>, x: Argument)
    requires AllOf(args).Ok? && !x.Other?
    ensures AllOf(args + [x]) == Ok(AllOf(args).value + Entries(x))
  {
    var xs := args + [x];
    assert xs[..|xs| - 1] == args;
  }

  /** `allOf` distributes over concatenation of its argument lists. */
  lemma {:induction false} AllOfConcat(a: seq<Argument>, b: seq<Argument>)
    requires AllOf(a).Ok? && AllOf(b).Ok?
    ensures AllOf(a + b) == Ok(AllOf(a).value + AllOf(b).value)
  {
    if b == [] {
      assert a + b == a;
      assert AllOf(b) == Ok([]);
      assert AllOf(a).value + [] == AllOf(a).value;
    } else {
      var b', last := b[..|b| - 1], b[|b| - 1];
      SnocSplit(a, b);
      assert AllOf(b').Ok? && !last.Other?;
      AllOfConcat(a, b');
      AllOfSnoc(b', last);
      AllOfSnoc(a + b', last);
      Associative(AllOf(a).value, AllOf(b').value, Entries(last));
    }
  }

  /** Splitting off the last element of the second part of a concatenation. */
  lemma SnocSplit<T>(a: seq<T>, b: seq<T>)
    requires b != []
    ensures b == b[..|b| - 1] + [b[|b| - 1]]
    ensures a + b == (a + b[..|b| - 1]) + [b[|b| - 1]]
  {
  }

  /** Concatenation is associative. */
  lemma Associative<T>(a: seq<T>, b: seq<T>, c: seq<T>)
    ensures (a + b) + c == a + (b + c)
  {
  }

  /** A sequence is its prefix, its `k`-th element and its suffix. */
  lemma SplitAt<T>(s: seq<T>, k: nat)
    requires k < |s|
    ensures s == (s[..k] + [s[k]]) + s[k + 1..]
  {
  }

  /**
   * Argument `k`'s projections sit between those of the arguments before it
   * and those of the arguments after it: arguments appear in order, and each
   * table's columns in declaration order.
   */
  lemma AllOfSegment(args: seq<Argument>, k: nat)
    requires AllOf(args).Ok? && k < |args|
    ensures AllOf(args[..k]).Ok? && AllOf(args[k + 1..]).Ok?
    ensures AllOf(args).value == AllOf(args[..k]).value + Entries(args[k]) + AllOf(args[k + 1..]).value
  {
    var pre, post := args[..k], args[k + 1..];
    var upto := pre + [args[k]];
    SplitAt(args, k);
    SupportedMeansNoOther(args);
    SupportedMeansNoOther(pre);
    SupportedMeansNoOther(post);
    assert AllOf(pre).Ok? && AllOf(post).Ok?;
    AllOfSnoc(pre, args[k]);
    AllOfConcat(upto, post);
  }

  /** `allOf` yields one projection per column of each table argument plus one per aggregate. */
  lemma {:induction false} AllOfLength(args: seq<Argument>)
    requires AllOf(args).Ok?
    ensures |AllOf(args).value| == TotalWidth(args)
  {
    if args != [] {
      var init := args[..|args| - 1];
      assert args == init + [args[|args| - 1]];
      AllOfLength(init);
      AllOfSnoc(init, args[|args| - 1]);
    }
  }

  /** For a single table: one projection per column, aliased `<table>.<column>`, in declaration order. */
  lemma AllOfTable(t: Table)
    ensures AllOf([TableArg(t)]).Ok?
    ensures |AllOf([TableArg(t)]).value| == |t.columns|
    ensures forall i :: 0 <= i < |t.columns| ==>
      AllOf([TableArg(t)]).value[i] == Projection(t.columns[i], TableName(t) + "." + ColumnName(t.columns[i]))
  {
    assert [TableArg(t)][..0] == [];
    assert AllOf([]) == Ok([]);
  }

  /** An aggregate column contributes exactly one projection, named after its owning table. */
  lemma AllOfAggregate(c: Column, owner: Table)
    ensures AllOf([Aggregate(c, owner)]) == Ok([Projection(c, TableName(owner) + "." + ColumnName(c))])
  {
    var args := [Aggregate(c, owner)];
    assert args[..0] == [];
    assert AllOf(args[..0]) == Ok([]);
    assert AllOf(args) == Ok([] + Entries(args[0]));
    assert Entries(args[0]) == [Projection(c, TableName(owner) + "." + ColumnName(c))];
    assert [] + Entries(args[0]) == Entries(args[0]);
  }
}
