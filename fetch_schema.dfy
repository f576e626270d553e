/**
 * The offline schema builder: it reads (table_name, column_name) metadata rows
 * from the database, groups them into a map from table name to the list of
 * its column names, and saves that map to the schema file.
 *
 * The database query is an input (`QueryResult`); the schema file is the
 * `SchemaFile` object, whose content is `None` while the file does not exist.
 */
module FetchSchema {
  import opened JsRuntime

  /** One cell of a metadata row, as the driver returns it: `{name, value}`. */
  datatype Cell = Cell(name: string, value: Json)

  type Row = seq<Cell>

  /** Table name to column names, in the order the rows listed them. */
  type Schema = map<string, seq<string>>

  /** What `database.run` gave back: it threw, or it returned `rows` (possibly `undefined`). */
  datatype QueryResult = QueryFailed | QueryRows(rows: Option<seq<Row>>)

  /** How one run of the builder ended. */
  datatype FetchOutcome =
    | Failed              // an exception reached the outer catch; it is only logged
    | NoRows              // no metadata rows came back
    | EmptySchema         // rows came back, but none of them was usable
    | Saved(schema: Schema)  // the schema was built and handed to the file write

  /**
   * Names every plain JavaScript object already answers through its prototype.
   * For such a table name `schema[tableName]` is truthy but is not an array,
   * so the `push` that follows throws a TypeError.
   */
  const InheritedNames: set<string> := {
    "constructor", "__proto__", "hasOwnProperty", "isPrototypeOf",
    "propertyIsEnumerable", "toLocaleString", "toString", "valueOf",
    "__defineGetter__", "__defineSetter__", "__lookupGetter__", "__lookupSetter__"
  }

  // ---------------------------------------------------------------------------
  // Reading one row
  // ---------------------------------------------------------------------------

  /** `row.find(item => item.name === name)`. */
  function Find(row: Row, name: string): (r: Option<Cell>)
    ensures r.None? <==> forall i :: 0 <= i < |row| ==> row[i].name != name
    ensures r.Some? ==> r.value in row && r.value.name == name
  {
    if row == [] then None
    else if row[0].name == name then Some(row[0])
    else Find(row[1..], name)
  }

  /** The first cell named `name` wins: cells after it, whatever their names, are never looked at. */
  lemma {:induction false} FindTakesFirstMatch(before: Row, c: Cell, after: Row, name: string)
    requires forall i :: 0 <= i < |before| ==> before[i].name != name
    requires c.name == name
    ensures Find(before + [c] + after, name) == Some(c)
  {
    if before != [] {
      assert (before + [c] + after)[1..] == before[1..] + [c] + after;
      FindTakesFirstMatch(before[1..], c, after, name);
    }
  }

  /** `row.find(...)?.value` when it is a string, and `None` otherwise. */
  function StringField(row: Row, name: string): (r: Option<string>)
    ensures r.Some? <==> Find(row, name).Some? && Find(row, name).value.value.JStr?
    ensures r.Some? ==> r.value == Find(row, name).value.value.s
  {
    match Find(row, name)
    case Some(Cell(_, JStr(s))) => Some(s)
    case _ => None
  }

  /** A row passes the `typeof ... !== "string"` guard. */
  predicate IsValidRow(row: Row) {
    StringField(row, "table_name").Some? && StringField(row, "column_name").Some?
  }

  function TableName(row: Row): string
    requires IsValidRow(row)
  {
    StringField(row, "table_name").value
  }

  function ColumnName(row: Row): string
    requires IsValidRow(row)
  {
    StringField(row, "column_name").value
  }

  // ---------------------------------------------------------------------------
  // The grouping, as a function of the rows
  // ---------------------------------------------------------------------------

  /** One iteration of the `forEach` body, for a table name the schema object owns or can create. */
  function AddRow(schema: Schema, row: Row): Schema {
    if !IsValidRow(row) then schema
    else
      var t := TableName(row);
      schema[t := (if t in schema then schema[t] else []) + [ColumnName(row)]]
  }

  /** The schema object after the `forEach` has visited all of `rows`. */
  function Grouped(rows: seq<Row>): (schema: Schema)
    ensures forall t :: t in schema ==> schema[t] != []
  {
    if rows == [] then map[] else AddRow(Grouped(rows[..|rows| - 1]), rows[|rows| - 1])
  }

  /** The rows that pass the guard, in order. */
  function ValidRows(rows: seq<Row>): (v: seq<Row>)
    ensures |v| <= |rows|
    ensures forall i :: 0 <= i < |v| ==> IsValidRow(v[i]) && v[i] in rows
    ensures (forall i :: 0 <= i < |rows| ==> IsValidRow(rows[i])) ==> v == rows
  {
    if rows == [] then []
    else
      var last := rows[|rows| - 1];
      ValidRows(rows[..|rows| - 1]) + (if IsValidRow(last) then [last] else [])
  }

  /** Every usable row is kept as often as it occurs, and no other row is kept. */
  lemma {:induction false} ValidRowsCounts(rows: seq<Row>)
    ensures forall r :: multiset(ValidRows(rows))[r] == if IsValidRow(r) then multiset(rows)[r] else 0
  {
    if rows != [] {
      var init := rows[..|rows| - 1];
      var last := rows[|rows| - 1];
      ValidRowsCounts(init);
      assert rows == init + [last];
      assert multiset(rows) == multiset(init) + multiset{last};
    }
  }

  /** The table names of the rows that pass the guard. */
  function TableNames(rows: seq<Row>): set<string> {
    set i | 0 <= i < |rows| && IsValidRow(rows[i]) :: TableName(rows[i])
  }

  /** The column names listed for table `t`, front to back. */
  function ColumnsOf(rows: seq<Row>, t: string): seq<string> {
    if rows == [] then []
    else
      (if IsValidRow(rows[0]) && TableName(rows[0]) == t then [ColumnName(rows[0])] else [])
      + ColumnsOf(rows[1..], t)
  }

  /** Some usable row names a table that the schema object inherits from its prototype. */
  predicate HitsInheritedName(rows: seq<Row>) {
    exists i :: 0 <= i < |rows| && IsValidRow(rows[i]) && TableName(rows[i]) in InheritedNames
  }

  // ---------------------------------------------------------------------------
  // Properties of the grouping
  // ---------------------------------------------------------------------------

  /** Rows that fail the guard contribute nothing to the schema. */
  lemma {:induction false} GroupedIgnoresInvalidRows(rows: seq<Row>)
    ensures Grouped(rows) == Grouped(ValidRows(rows))
  {
    if rows != [] {
      var init, last := rows[..|rows| - 1], rows[|rows| - 1];
      var v := ValidRows(init);
      GroupedIgnoresInvalidRows(init);
      assert Grouped(rows) == AddRow(Grouped(init), last);
      if IsValidRow(last) {
        assert ValidRows(rows) == v + [last];
        assert (v + [last])[..|v + [last]| - 1] == v;
        assert Grouped(v + [last]) == AddRow(Grouped(v), last);
      } else {
        assert ValidRows(rows) == v;
      }
    }
  }

  /** The schema's tables are exactly the table names of the usable rows, and none has an empty column list. */
  lemma {:induction false} GroupedKeys(rows: seq<Row>)
    ensures Grouped(rows).Keys == TableNames(rows)
    ensures forall t :: t in Grouped(rows) ==> Grouped(rows)[t] != []
  {
    if rows != [] {
      var init, last := rows[..|rows| - 1], rows[|rows| - 1];
      GroupedKeys(init);
      assert forall i :: 0 <= i < |init| ==> init[i] == rows[i];
      if IsValidRow(last) {
        assert TableNames(rows) == TableNames(init) + {TableName(last)};
      } else {
        assert TableNames(rows) == TableNames(init);
      }
    }
  }

  lemma {:induction false} ColumnsOfSnoc(rows: seq<Row>, row: Row, t: string)
    ensures ColumnsOf(rows + [row], t)
         == ColumnsOf(rows, t) + (if IsValidRow(row) && TableName(row) == t then [ColumnName(row)] else [])
  {
    if rows != [] {
      assert (rows + [row])[1..] == rows[1..] + [row];
      ColumnsOfSnoc(rows[1..], row, t);
    } else {
      assert [row][1..] == [];
    }
  }

  /** The column list of table `t`, empty when the schema has no such table. */
  function ColumnsIn(s: Schema, t: string): seq<string> {
    if t in s then s[t] else []
  }

  lemma AddRowColumns(s: Schema, row: Row, t: string)
    ensures ColumnsIn(AddRow(s, row), t)
         == ColumnsIn(s, t) + (if IsValidRow(row) && TableName(row) == t then [ColumnName(row)] else [])
  {
  }

  /** A table's column list holds the column names of its rows in row order, duplicates included. */
  lemma {:induction false} GroupedColumns(rows: seq<Row>, t: string)
    ensures ColumnsIn(Grouped(rows), t) == ColumnsOf(rows, t)
  {
    if rows != [] {
      var init, last := rows[..|rows| - 1], rows[|rows| - 1];
      GroupedColumns(init, t);
      ColumnsOfSnoc(init, last, t);
      AddRowColumns(Grouped(init), last, t);
      assert init + [last] == rows;
    }
  }

  // Total number of column entries in a schema.

  ghost function PickTable(s: Schema): (t: string)
    requires s != map[]
    ensures t in s
  {
    var t :| t in s; t
  }

  ghost function TotalColumns(s: Schema): nat
    decreases |s|
  {
    if s == map[] then 0
    else
      var t := PickTable(s);
      assert |(s - {t}).Keys| < |s.Keys| by {
        assert (s - {t}).Keys == s.Keys - {t};
      }
      |s[t]| + TotalColumns(s - {t})
  }

  lemma {:induction false} TotalColumnsRemove(s: Schema, t: string)
    requires t in s
    ensures TotalColumns(s) == |s[t]| + TotalColumns(s - {t})
    decreases |s|
  {
    var p := PickTable(s);
    if p != t {
      assert (s - {p}).Keys == s.Keys - {p};
      assert (s - {t}).Keys == s.Keys - {t};
      TotalColumnsRemove(s - {p}, t);
      TotalColumnsRemove(s - {t}, p);
      assert s - {p} - {t} == s - {t} - {p};
    }
  }

  lemma TotalColumnsAddRow(s: Schema, row: Row)
    requires IsValidRow(row)
    ensures TotalColumns(AddRow(s, row)) == TotalColumns(s) + 1
  {
    var t := TableName(row);
    var s' := AddRow(s, row);
    TotalColumnsRemove(s', t);
    if t in s {
      TotalColumnsRemove(s, t);
      assert s' - {t} == s - {t};
    } else {
      assert s' - {t} == s;
    }
  }

  /** Duplicates are kept: the schema lists exactly as many columns as there are usable rows. */
  lemma {:induction false} TotalColumnsIsValidRowCount(rows: seq<Row>)
    ensures TotalColumns(Grouped(rows)) == |ValidRows(rows)|
  {
    if rows != [] {
      var init, last := rows[..|rows| - 1], rows[|rows| - 1];
      TotalColumnsIsValidRowCount(init);
      if IsValidRow(last) {
        TotalColumnsAddRow(Grouped(init), last);
      }
    }
  }

  /** The schema is empty exactly when no row passes the guard. */
  lemma GroupedEmptyIffNoValidRow(rows: seq<Row>)
    ensures Grouped(rows) == map[] <==> ValidRows(rows) == []
  {
    TotalColumnsIsValidRowCount(rows);
  }

  // ---------------------------------------------------------------------------
  // The builder's decisions and the schema file
  // ---------------------------------------------------------------------------

  /** How `fetchAndSaveSchema` ends for a given query result. */
  function FetchOutcomeOf(result: QueryResult): (r: FetchOutcome)
    ensures r == NoRows <==> result == QueryRows(None) || result == QueryRows(Some([]))
    ensures r == Failed <==> result.QueryFailed? || (result.rows.Some? && HitsInheritedName(result.rows.value))
    ensures r.Saved? ==> result.QueryRows? && result.rows.Some? && r.schema == Grouped(result.rows.value)
                         && r.schema != map[]
  {
    match result
    case QueryFailed => Failed
    case QueryRows(None) => NoRows
    case QueryRows(Some(rows)) =>
      if rows == [] then NoRows
      else if HitsInheritedName(rows) then Failed
      else if Grouped(rows) == map[] then EmptySchema
      else Saved(Grouped(rows))
  }

  /** A saved schema is the grouping of the rows: never empty, no empty column list, no inherited table name. */
  lemma SavedSchemaIsGrouping(result: QueryResult)
    requires FetchOutcomeOf(result).Saved?
    ensures var s := FetchOutcomeOf(result).schema;
            && result.QueryRows? && result.rows.Some?
            && s == Grouped(result.rows.value)
            && s != map[]
            && (forall t :: t in s ==> s[t] != [] && t !in InheritedNames)
  {
    var rows := result.rows.value;
    GroupedKeys(rows);
    forall t | t in Grouped(rows) ensures t !in InheritedNames {
      var i :| 0 <= i < |rows| && IsValidRow(rows[i]) && TableName(rows[i]) == t;
    }
  }

  /** When every row fails the guard, nothing is saved. */
  /** A run with a usable row and no inherited table name saves the grouping. */
  lemma UsableRowIsSaved(rows: seq<Row>)
    requires exists i :: 0 <= i < |rows| && IsValidRow(rows[i])
    requires !HitsInheritedName(rows)
    ensures FetchOutcomeOf(QueryRows(Some(rows))) == Saved(Grouped(rows))
  {
    GroupedKeys(rows);
    var i :| 0 <= i < |rows| && IsValidRow(rows[i]);
    assert TableName(rows[i]) in TableNames(rows);
  }

  lemma AllInvalidRowsSaveNothing(rows: seq<Row>)
    requires rows != []
    requires forall i :: 0 <= i < |rows| ==> !IsValidRow(rows[i])
    ensures FetchOutcomeOf(QueryRows(Some(rows))) == EmptySchema
  {
    GroupedIgnoresInvalidRows(rows);
    ValidRowsOfInvalid(rows);
  }

  lemma {:induction false} ValidRowsOfInvalid(rows: seq<Row>)
    requires forall i :: 0 <= i < |rows| ==> !IsValidRow(rows[i])
    ensures ValidRows(rows) == []
  {
    if rows != [] {
      ValidRowsOfInvalid(rows[..|rows| - 1]);
    }
  }

  /** The content the schema file has after `ensureSchemaFileExists`. */
  function WithEmptyDefault(content: Option<Schema>): (r: Option<Schema>)
    ensures content.Some? ==> r == content
    ensures content.None? ==> r == Some(map[])
  {
    if content.None? then Some(map[]) else content
  }

  /** Ensuring the file twice is the same as ensuring it once. */
  lemma EnsureIsIdempotent(content: Option<Schema>)
    ensures WithEmptyDefault(WithEmptyDefault(content)) == WithEmptyDefault(content)
  {
  }

  /** The schema file on disk. */
  class SchemaFile {
    /** The saved schema, or `None` while the file does not exist. */
    var content: Option<Schema>

    constructor (initial: Option<Schema>)
      ensures content == initial
    {
      content := initial;
    }

    /** `ensureSchemaFileExists`: writes `{}` when, and only when, there is no file. */
    method EnsureExists()
      modifies this
      ensures content == WithEmptyDefault(old(content))
    {
      if content.None? {
        content := Some(map[]);
      }
    }

    /**
     * `fetchAndSaveSchema`, given what the metadata query returned and whether
     * the final write succeeds. The file is only ever replaced by a non-empty
     * grouping of the rows; on every other path it keeps what `EnsureExists` left.
     */
    method FetchAndSave(result: QueryResult, writeSucceeds: bool) returns (outcome: FetchOutcome)
      modifies this
      ensures outcome == FetchOutcomeOf(result)
      ensures content == if outcome.Saved? && writeSucceeds then Some(outcome.schema)
                         else WithEmptyDefault(old(content))
    {
      EnsureExists();
      if result.QueryFailed? {
        outcome := Failed;
        return;
      }
      if result.rows.None? || result.rows.value == [] {
        outcome := NoRows;
        return;
      }
      var rows := result.rows.value;
      var schema: Schema := map[];
      var i := 0;
      while i < |rows|
        invariant 0 <= i <= |rows|
        invariant schema == Grouped(rows[..i])
        invariant !HitsInheritedName(rows[..i])
        invariant forall t :: t in schema ==> t !in InheritedNames
      {
        assert rows[..i + 1][..i] == rows[..i];
        var row := rows[i];
        var tableName := StringField(row, "table_name");
        var columnName := StringField(row, "column_name");
        if tableName.Some? && columnName.Some? {
          var t := tableName.value;
          if t !in schema {
            if t in InheritedNames {
              // `schema[t]` is an inherited member, not an array: `push` throws.
              assert IsValidRow(rows[i]) && TableName(rows[i]) in InheritedNames;
              outcome := Failed;
              return;
            }
            schema := schema[t := []];
          }
          schema := schema[t := schema[t] + [columnName.value]];
        }
        assert IsValidRow(row) ==> TableName(row) !in InheritedNames;
        i := i + 1;
        assert !HitsInheritedName(rows[..i]) by {
          forall j | 0 <= j < i && IsValidRow(rows[..i][j])
            ensures TableName(rows[..i][j]) !in InheritedNames
          {
            if j < i - 1 {
              assert rows[..i][j] == rows[..i - 1][j];
            } else {
              assert rows[..i][j] == row;
            }
          }
        }
      }
      assert rows[..|rows|] == rows;
      if schema == map[] {
        outcome := EmptySchema;
        return;
      }
      outcome := Saved(schema);
      if writeSucceeds {
        content := Some(schema);
      }
    }
  }
}
