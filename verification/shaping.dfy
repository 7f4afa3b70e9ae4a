/**
 * Executing an extended query and shaping its rows (anydb-sql.js,
 * `execWithin`, `get` and `allObject`): the driver's reply becomes the
 * `(error, rows)` pair of the callback, `get` keeps the first row, and
 * `allObject` turns the rows into an object keyed by one column whose values
 * are shaped by a mapper.
 */
module Shaping {
  import opened Wrappers

  /**
   * The integers a JavaScript number holds exactly: magnitude below 2^53.
   * Their decimal form is also the one `String(n)` gives, since they stay
   * below 10^21, where JavaScript switches to exponent notation.
   */
  type SafeInt = n: int | -0x20_0000_0000_0000 < n < 0x20_0000_0000_0000

  /** The JavaScript values a row can hold. Objects keep their keys in insertion order. */
  datatype Value = Undefined | Null | Num(n: SafeInt) | Str(s: string) | Bool(b: bool) | Obj(o: Object)

  /** A plain object: its keys in enumeration order and its properties. */
  datatype Object = Object(keys: seq<string>, fields: map<string, Value>)

  /** A result row is a plain object from column name to value. */
  type Row = Object

  predicate Distinct(s: seq<string>)
  {
    forall i, j :: 0 <= i < j < |s| ==> s[i] != s[j]
  }

  /** Every property is listed exactly once among the keys, and nothing else is. */
  predicate WellFormed(o: Object)
  {
    && Distinct(o.keys)
    && (forall k :: k in o.fields ==> k in o.keys)
    && (forall k :: k in o.keys ==> k in o.fields)
  }

  /** `o[k]`: a missing property reads as `undefined`. */
  function Get(o: Object, k: string): Value
  {
    if k in o.fields then o.fields[k] else Undefined
  }

  /** `o[k] = v`: a new key is enumerated last; an existing one keeps its place. */
  function Put(o: Object, k: string, v: Value): (r: Object)
    ensures WellFormed(o) ==> WellFormed(r)
    ensures r.fields == o.fields[k := v]
  {
    Object(if k in o.fields then o.keys else o.keys + [k], o.fields[k := v])
  }

  /**
   * The object `{}` after `obj[cols[j]] = row[cols[j]]` for every `j` in
   * order: exactly the listed columns, each with the row's value for it.
   */
  function Pick(row: Row, cols: seq<string>): (r: Object)
    decreases |cols|
    ensures WellFormed(r)
    ensures forall k :: k in r.fields <==> k in cols
    ensures forall k :: k in r.fields ==> r.fields[k] == Get(row, k)
  {
    if cols == [] then Object([], map[])
    else
      var last := cols[|cols| - 1];
      Put(Pick(row, cols[..|cols| - 1]), last, Get(row, last))
  }

  /** The loop that copies the listed columns of a row into a fresh object. */
  method PickColumns(row: Row, cols: seq<string>) returns (obj: Object)
    ensures obj == Pick(row, cols)
  {
    obj := Object([], map[]);
    var j := 0;
    while j < |cols|
      invariant 0 <= j <= |cols|
      invariant obj == Pick(row, cols[..j])
    {
      assert cols[..j + 1][..j] == cols[..j];
      obj := Put(obj, cols[j], Get(row, cols[j]));
      j := j + 1;
    }
    assert cols[..|cols|] == cols;
  }

  /** `Object.keys(row).filter(key => key != keyColumn)`: the other columns, in row order. */
  function OtherKeys(keys: seq<string>, keyColumn: string): (r: seq<string>)
    ensures forall k :: k in r <==> k in keys && k != keyColumn
    ensures Distinct(keys) ==> Distinct(r)
  {
    if keys == [] then []
    else
      var rest := OtherKeys(keys[1..], keyColumn);
      if keys[0] == keyColumn then rest
      else
        assert Distinct(keys) ==> keys[0] !in keys[1..];
        assert Distinct(keys) ==> Distinct(keys[1..]);
        [keys[0]] + rest
  }

  /**
   * How `allObject` turns a row into a value. A string mapper reads that
   * column, but the empty string is falsy and selects the default mapper;
   * an array mapper picks the listed columns; a function mapper is applied.
   */
  datatype Mapper = Default | ByColumn(column: string) | ByColumnList(columns: seq<string>) | ByFunction(f: Row -> Value)

  /** The default mapper: every column other than the key column. */
  function DefaultShape(row: Row, keyColumn: string): Value
  {
    var others := OtherKeys(row.keys, keyColumn);
    if |others| == 0 then Null
    else if |others| == 1 then Get(row, others[0])
    else Obj(Pick(row, others))
  }

  /** The value `allObject` stores for a row. */
  function Shape(mapper: Mapper, keyColumn: string, row: Row): Value
  {
    match mapper
    case Default => DefaultShape(row, keyColumn)
    case ByColumn(c) => if c == "" then DefaultShape(row, keyColumn) else Get(row, c)
    case ByColumnList(cs) => Obj(Pick(row, cs))
    case ByFunction(f) => f(row)
  }

  /** The mapper body, with its loops, as `allObject` runs it on one row. */
  method ShapeRow(mapper: Mapper, keyColumn: string, row: Row) returns (v: Value)
    ensures v == Shape(mapper, keyColumn, row)
  {
    var useDefault := mapper.Default? || (mapper.ByColumn? && mapper.column == "");
    if useDefault {
      var others := OtherKeys(row.keys, keyColumn);
      if |others| == 0 {
        v := Null;
      } else if |others| == 1 {
        v := Get(row, others[0]);
      } else {
        var obj := PickColumns(row, others);
        v := Obj(obj);
      }
    } else {
      match mapper
      case ByColumn(c) =>
        v := Get(row, c);
      case ByColumnList(cs) =>
        var obj := PickColumns(row, cs);
        v := Obj(obj);
      case ByFunction(f) =>
        v := f(row);
    }
  }

  /** A set of distinct elements has as many members as the sequence. */
  lemma {:induction false} DistinctCardinality(s: seq<string>)
    requires Distinct(s)
    ensures |set k | k in s| == |s|
  {
    if s != [] {
      var rest := s[1..];
      assert Distinct(rest);
      DistinctCardinality(rest);
      assert (set k | k in s) == {s[0]} + (set k | k in rest);
      assert s[0] !in (set k | k in rest);
    }
  }

  /** The other columns of a well-formed row are listed once each by `OtherKeys`. */
  lemma OtherKeysCount(row: Row, keyColumn: string)
    requires WellFormed(row)
    ensures (set k | k in OtherKeys(row.keys, keyColumn)) == row.fields.Keys - {keyColumn}
    ensures |OtherKeys(row.keys, keyColumn)| == |row.fields.Keys - {keyColumn}|
  {
    var ks := OtherKeys(row.keys, keyColumn);
    assert (set k | k in ks) == row.fields.Keys - {keyColumn};
    DistinctCardinality(ks);
  }

  /** The default mapper gives `null` for a well-formed row with no column besides the key. */
  lemma DefaultShapeNoOthers(row: Row, keyColumn: string)
    requires WellFormed(row) && row.fields.Keys - {keyColumn} == {}
    ensures DefaultShape(row, keyColumn) == Null
  {
    OtherKeysCount(row, keyColumn);
  }

  /** The default mapper gives the value of the only column besides the key. */
  lemma DefaultShapeOneOther(row: Row, keyColumn: string, k: string)
    requires WellFormed(row) && row.fields.Keys - {keyColumn} == {k}
    ensures DefaultShape(row, keyColumn) == row.fields[k]
  {
    var ks := OtherKeys(row.keys, keyColumn);
    OtherKeysCount(row, keyColumn);
    assert ks[0] in (set x | x in ks);
  }

  /**
   * With several columns besides the key, the default mapper gives an object
   * with exactly those columns and their values.
   */
  lemma DefaultShapeManyOthers(row: Row, keyColumn: string)
    requires WellFormed(row) && |row.fields.Keys - {keyColumn}| > 1
    ensures DefaultShape(row, keyColumn).Obj?
    ensures forall k :: k in DefaultShape(row, keyColumn).o.fields <==> k in row.fields && k != keyColumn
    ensures forall k :: k in DefaultShape(row, keyColumn).o.fields ==> DefaultShape(row, keyColumn).o.fields[k] == row.fields[k]
  {
    OtherKeysCount(row, keyColumn);
  }

  /** The property key a value becomes when it indexes an object (JavaScript's ToString). */
  function PropertyKey(v: Value): string
  {
    match v
    case Undefined => "undefined"
    case Null => "null"
    case Num(n) => if n < 0 then "-" + Decimal(-n) else Decimal(n)
    case Str(s) => s
    case Bool(b) => if b then "true" else "false"
    case Obj(_) => "[object Object]"
  }

  /** The decimal digits of a natural number. */
  function Decimal(n: nat): string
  {
    if n < 10 then ["0123456789"[n]] else Decimal(n / 10) + ["0123456789"[n % 10]]
  }

  /** The key a row is stored under: `row[keyColumn]`, as a property key. */
  function KeyOf(row: Row, keyColumn: string): string
  {
    PropertyKey(Get(row, keyColumn))
  }

  /** The filter argument: absent (falsy) means accept every row. */
  function Accept(filter: Option<Row -> bool>): Row -> bool
  {
    match filter
    case None => (_ => true)
    case Some(f) => f
  }

  /**
   * The object `allObject` builds: each accepted row, in order, stores its
   * shaped value under its key, overwriting whatever an earlier row stored.
   */
  function Keyed(rows: seq<Row>, keyColumn: string, mapper: Mapper, accept: Row -> bool): map<string, Value>
  {
    if rows == [] then map[]
    else
      var m := Keyed(rows[..|rows| - 1], keyColumn, mapper, accept);
      var row := rows[|rows| - 1];
      if accept(row) then m[KeyOf(row, keyColumn) := Shape(mapper, keyColumn, row)] else m
  }

  /** One more row updates the object as `allObject`'s loop body does. */
  lemma KeyedSnoc(rows: seq<Row>, row: Row, keyColumn: string, mapper: Mapper, accept: Row -> bool)
    ensures Keyed(rows + [row], keyColumn, mapper, accept)
         == if accept(row) then Keyed(rows, keyColumn, mapper, accept)[KeyOf(row, keyColumn) := Shape(mapper, keyColumn, row)]
            else Keyed(rows, keyColumn, mapper, accept)
  {
    assert (rows + [row])[..|rows|] == rows;
  }

  /** A key is present exactly when some accepted row carries it. */
  lemma {:induction false} KeyedDomain(rows: seq<Row>, keyColumn: string, mapper: Mapper, accept: Row -> bool, k: string)
    ensures k in Keyed(rows, keyColumn, mapper, accept)
        <==> exists i :: 0 <= i < |rows| && accept(rows[i]) && KeyOf(rows[i], keyColumn) == k
  {
    if rows != [] {
      var init := rows[..|rows| - 1];
      KeyedDomain(init, keyColumn, mapper, accept, k);
      assert forall i :: 0 <= i < |init| ==> init[i] == rows[i];
    }
  }

  /** The value under a key is the shaped value of the last accepted row carrying that key. */
  lemma {:induction false} KeyedLastWins(rows: seq<Row>, keyColumn: string, mapper: Mapper, accept: Row -> bool, i: nat)
    requires i < |rows| && accept(rows[i])
    requires forall j :: i < j < |rows| && accept(rows[j]) ==> KeyOf(rows[j], keyColumn) != KeyOf(rows[i], keyColumn)
    ensures KeyOf(rows[i], keyColumn) in Keyed(rows, keyColumn, mapper, accept)
    ensures Keyed(rows, keyColumn, mapper, accept)[KeyOf(rows[i], keyColumn)] == Shape(mapper, keyColumn, rows[i])
  {
    if i < |rows| - 1 {
      var init := rows[..|rows| - 1];
      assert init[i] == rows[i];
      KeyedLastWins(init, keyColumn, mapper, accept, i);
    }
  }

  /** With no filter every row's key is present. */
  lemma DefaultFilterKeepsAll(rows: seq<Row>, keyColumn: string, mapper: Mapper)
    ensures forall i :: 0 <= i < |rows| ==> KeyOf(rows[i], keyColumn) in Keyed(rows, keyColumn, mapper, Accept(None))
  {
    forall i | 0 <= i < |rows|
      ensures KeyOf(rows[i], keyColumn) in Keyed(rows, keyColumn, mapper, Accept(None))
    {
      KeyedDomain(rows, keyColumn, mapper, Accept(None), KeyOf(rows[i], keyColumn));
    }
  }

  /** A failed query: the driver's message with the statement and parameters it was running. */
  datatype QueryError = QueryError(message: string, text: string, params: seq<Value>)

  /** What the connection reports: an error, if any, and the rows, if the result carried any. */
  datatype Reply = Reply(err: Option<string>, rows: Option<seq<Row>>)

  /** The `(err, rows)` pair an extended query hands to its callback. */
  datatype Delivery = Delivery(err: Option<QueryError>, rows: Option<seq<Row>>)

  /**
   * `execWithin` with a callback: a driver error becomes a query error that
   * names the statement, and the rows, when present, are normalized one by one.
   */
  function Deliver(text: string, params: seq<Value>, reply: Reply, normalize: Row -> Row): (d: Delivery)
    ensures d.err.Some? <==> reply.err.Some?
    ensures d.err.Some? ==> d.err.value.message == reply.err.value && d.err.value.text == text && d.err.value.params == params
    ensures d.rows.Some? <==> reply.rows.Some?
    ensures d.rows.Some? ==> |d.rows.value| == |reply.rows.value|
                             && forall i :: 0 <= i < |d.rows.value| ==> d.rows.value[i] == normalize(reply.rows.value[i])
  {
    Delivery(
      if reply.err.Some? then Some(QueryError(reply.err.value, text, params)) else None,
      if reply.rows.Some? then
        Some(seq(|reply.rows.value|, i requires 0 <= i < |reply.rows.value| => normalize(reply.rows.value[i])))
      else None)
  }

  /** `get`: the callback receives the error unchanged and the first row, or nothing when there is none. */
  function GetFirst(d: Delivery): (r: (Option<QueryError>, Option<Row>))
    ensures r.0 == d.err
    ensures r.1.Some? <==> d.rows.Some? && |d.rows.value| > 0
    ensures r.1.Some? ==> r.1.value == d.rows.value[0]
  {
    (d.err, if d.rows.Some? && |d.rows.value| > 0 then Some(d.rows.value[0]) else None)
  }

  /** What the `allObject` callback receives; `RowsMissing` is the crash on a reply without rows and without error. */
  datatype KeyedOutcome = Failed(error: QueryError) | RowsMissing | Built(result: map<string, Value>)

  /**
   * `allObject(keyColumn, callback, mapper, filter)` once the query has run:
   * on an error only the error is passed on and nothing is built; otherwise
   * every row passing the filter stores its shaped value under its key.
   */
  method AllObject(d: Delivery, keyColumn: string, mapper: Mapper, filter: Option<Row -> bool>) returns (out: KeyedOutcome)
    ensures d.err.Some? ==> out == Failed(d.err.value)
    ensures d.err.None? && d.rows.None? ==> out == RowsMissing
    ensures d.err.None? && d.rows.Some? ==> out == Built(Keyed(d.rows.value, keyColumn, mapper, Accept(filter)))
  {
    if d.err.Some? {
      return Failed(d.err.value);
    }
    if d.rows.None? {
      return RowsMissing;
    }
    var data := d.rows.value;
    var accept := Accept(filter);
    var result: map<string, Value> := map[];
    var i := 0;
    while i < |data|
      invariant 0 <= i <= |data|
      invariant result == Keyed(data[..i], keyColumn, mapper, accept)
    {
      KeyedSnoc(data[..i], data[i], keyColumn, mapper, accept);
      assert data[..i + 1] == data[..i] + [data[i]];
      if accept(data[i]) {
        var v := ShapeRow(mapper, keyColumn, data[i]);
        result := result[KeyOf(data[i], keyColumn) := v];
      }
      i := i + 1;
    }
    assert data[..|data|] == data;
    out := Built(result);
  }
}
