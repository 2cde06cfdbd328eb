/**
 The planner's two inputs: table definitions from a release's DDL, and the metadata rows
 that the live server lists.
*/
module MigrationInput {
  import opened Results
  import opened Schema
  import opened Migration
  import opened MigrationRun

  // ---------------------------------------------------------------- DDL

  /** One clause of a CREATE TABLE body, after its text has been recognised. */
  datatype Definition =
    | ColumnClause(name: string, colType: SqlType, notNull: bool, default: Option<string>, extra: string,
                   charset: Option<string>, collation: Option<string>)
    | IndexClause(index: Index)
    | ForeignClause(name: string, foreignKey: ForeignKey)
    | UnknownClause

  function ParsedColumn(c: Definition): Result<Column, SchemaError>
    requires c.ColumnClause?
  {
    match NormalizeType(c.colType)
    case Failure(e) => Failure(e)
    case Success(t) =>
      Success(Column(c.name, t, !c.notNull, NormalizeDefault(c.default), NormalizeExtra(c.extra), c.charset, c.collation))
  }

  /** Assigning to a dictionary: a repeated name keeps its place and takes the new value. */
  function PutIndex(indexes: seq<Index>, x: Index): seq<Index> {
    if indexes == [] then [x]
    else if indexes[0].name == x.name then [x] + indexes[1..]
    else [indexes[0]] + PutIndex(indexes[1..], x)
  }

  function AddClause(t: TableDef, c: Definition, schema: string): Result<TableDef, SchemaError> {
    match c
    case ColumnClause(name, _, _, _, _, _, _) =>
      var column := ParsedColumn(c);
      if name in ColumnNames(t) then Failure(DuplicateColumn)
      else if column.Failure? then Failure(column.error)
      else Success(t.(columns := t.columns + [column.value]))
    case IndexClause(x) => Success(t.(indexes := PutIndex(t.indexes, x)))
    case ForeignClause(name, fk) =>
      if fk.refSchema != schema then Failure(CrossSchemaForeignKey)
      else Success(t.(foreignKeys := t.foreignKeys[name := fk]))
    case UnknownClause => Failure(UnsupportedDefinition)
  }

  /** What the loop over the clauses of one table must return. */
  function Parsed(name: string, clauses: seq<Definition>, schema: string): Result<TableDef, SchemaError> {
    if clauses == [] then Success(TableDef(name, [], [], map[]))
    else match Parsed(name, clauses[..|clauses| - 1], schema)
      case Failure(e) => Failure(e)
      case Success(t) => AddClause(t, clauses[|clauses| - 1], schema)
  }

  lemma {:induction false} ParsedFails(name: string, clauses: seq<Definition>, schema: string, n: nat)
    requires n <= |clauses| && Parsed(name, clauses[..n], schema).Failure?
    ensures Parsed(name, clauses, schema) == Parsed(name, clauses[..n], schema)
  {
    if n < |clauses| {
      assert clauses[..|clauses| - 1][..n] == clauses[..n];
      ParsedFails(name, clauses[..|clauses| - 1], schema, n);
    } else {
      assert clauses[..n] == clauses;
    }
  }

  method ParseTable(name: string, clauses: seq<Definition>, schema: string) returns (r: Result<TableDef, SchemaError>)
    ensures r == Parsed(name, clauses, schema)
  {
    var table := TableDef(name, [], [], map[]);
    for i := 0 to |clauses|
      invariant Parsed(name, clauses[..i], schema) == Success(table)
    {
      var next := AddClause(table, clauses[i], schema);
      assert clauses[..i + 1][..i] == clauses[..i];
      if next.Failure? {
        ParsedFails(name, clauses, schema, i + 1);
        return next;
      }
      table := next.value;
    }
    assert clauses[..|clauses|] == clauses;
    return Success(table);
  }

  lemma {:induction false} PutIndexKeepsNames(indexes: seq<Index>, x: Index)
    requires forall i, j :: 0 <= i < j < |indexes| ==> indexes[i].name != indexes[j].name
    ensures var r := PutIndex(indexes, x);
            && (forall i, j :: 0 <= i < j < |r| ==> r[i].name != r[j].name)
            && (forall i :: 0 <= i < |r| ==> r[i] == x || r[i] in indexes)
            && x in r
            && (forall i :: 0 <= i < |indexes| && indexes[i].name != x.name ==> indexes[i] in r)
  {
    if indexes != [] && indexes[0].name != x.name {
      PutIndexKeepsNames(indexes[1..], x);
      var r := PutIndex(indexes[1..], x);
      assert PutIndex(indexes, x) == [indexes[0]] + r;
      assert forall i :: 0 <= i < |r| ==> r[i].name != indexes[0].name;
    }
  }

  /** Whatever the parser accepts has unique names and is what the planner's laws require. */
  lemma {:induction false} ParsedTablesAreWellFormed(name: string, clauses: seq<Definition>, schema: string)
    requires forall i :: 0 <= i < |clauses| && clauses[i].IndexClause? ==> clauses[i].index.columns != []
    requires Parsed(name, clauses, schema).Success?
    ensures WellFormedTable(Parsed(name, clauses, schema).value)
    ensures forall n :: n in Parsed(name, clauses, schema).value.foreignKeys ==>
              Parsed(name, clauses, schema).value.foreignKeys[n].refSchema == schema
  {
    if clauses != [] {
      var n := |clauses| - 1;
      ParsedTablesAreWellFormed(name, clauses[..n], schema);
      var t := Parsed(name, clauses[..n], schema).value;
      var c := clauses[n];
      if c.IndexClause? {
        PutIndexKeepsNames(t.indexes, c.index);
      } else if c.ColumnClause? {
        assert forall i :: 0 <= i < |t.columns| ==> t.columns[i].name in ColumnNames(t);
      }
    }
  }

  /** A server that reports a column as it was declared satisfies the planner's comparison. */
  lemma ParsedColumnCanBeReported(c: Definition) returns (row: LiveColumn)
    requires c.ColumnClause? && ParsedColumn(c).Success?
    ensures Reports(ParsedColumn(c).value, row)
  {
    var extra := if NormalizeExtra(c.extra) == NormalizeExtra("auto_increment") then "auto_increment" else c.extra;
    row := LiveColumn(c.colType, !c.notNull, c.default, extra, c.charset, c.collation);
  }

  // ---------------------------------------------------------------- metadata rows

  datatype MetadataRow =
    | TableRow(key: Key, engine: Option<string>)
    | ColumnRow(key: Key, name: string, column: LiveColumn)
    | IndexEntry(key: Key, name: string, entry: IndexRow)
    | FkEntry(key: Key, name: string, reference: FkRow)

  const EMPTY := LiveTable(None, map[], map[], map[])

  function TableOf(db: Database, key: Key): LiveTable {
    if key in db then db[key] else EMPTY
  }

  function RowsAt<T>(m: map<string, seq<T>>, name: string): seq<T> {
    if name in m then m[name] else []
  }

  function AddRow(db: Database, row: MetadataRow): Database {
    var t := TableOf(db, row.key);
    var t' := match row
      case TableRow(_, engine) => t.(engine := engine)
      case ColumnRow(_, name, column) => t.(columns := t.columns[name := column])
      case IndexEntry(_, name, entry) => t.(indexes := t.indexes[name := RowsAt(t.indexes, name) + [entry]])
      case FkEntry(_, name, r) => t.(foreignKeys := t.foreignKeys[name := RowsAt(t.foreignKeys, name) + [r]]);
    db[row.key := t']
  }

  function Gathered(rows: seq<MetadataRow>): Database {
    if rows == [] then map[] else AddRow(Gathered(rows[..|rows| - 1]), rows[|rows| - 1])
  }

  method GatherMetadata(rows: seq<MetadataRow>) returns (current: Database)
    ensures current == Gathered(rows) && AllListed(current)
  {
    current := map[];
    for i := 0 to |rows|
      invariant current == Gathered(rows[..i]) && AllListed(current)
    {
      assert rows[..i + 1][..i] == rows[..i];
      current := AddRow(current, rows[i]);
    }
    assert rows[..|rows|] == rows;
  }

  /** The rows of one index, in listing order. */
  function IndexListing(rows: seq<MetadataRow>, key: Key, name: string): seq<IndexRow> {
    if rows == [] then []
    else
      var last := rows[|rows| - 1];
      IndexListing(rows[..|rows| - 1], key, name)
      + if last.IndexEntry? && last.key == key && last.name == name then [last.entry] else []
  }

  function FkListing(rows: seq<MetadataRow>, key: Key, name: string): seq<FkRow> {
    if rows == [] then []
    else
      var last := rows[|rows| - 1];
      FkListing(rows[..|rows| - 1], key, name)
      + if last.FkEntry? && last.key == key && last.name == name then [last.reference] else []
  }

  /** `rows` is a listing of `db`: any order that keeps the rows of one index or key in order. */
  ghost predicate Lists(rows: seq<MetadataRow>, db: Database) {
    && (forall r :: r in rows ==> r.key in db)
    && (forall r :: r in rows && r.TableRow? ==> db[r.key].engine == r.engine)
    && (forall r :: r in rows && r.ColumnRow? ==>
          r.name in db[r.key].columns && db[r.key].columns[r.name] == r.column)
    && (forall k :: k in db ==> TableRow(k, db[k].engine) in rows)
    && (forall k, n :: k in db && n in db[k].columns ==> ColumnRow(k, n, db[k].columns[n]) in rows)
    && (forall k, n :: k in db ==> IndexListing(rows, k, n) == RowsAt(db[k].indexes, n))
    && (forall k, n :: k in db ==> FkListing(rows, k, n) == RowsAt(db[k].foreignKeys, n))
  }

  lemma {:induction false} GatheredIndexes(rows: seq<MetadataRow>, k: Key, n: string)
    ensures RowsAt(TableOf(Gathered(rows), k).indexes, n) == IndexListing(rows, k, n)
    ensures RowsAt(TableOf(Gathered(rows), k).foreignKeys, n) == FkListing(rows, k, n)
  {
    if rows != [] {
      GatheredIndexes(rows[..|rows| - 1], k, n);
    }
  }

  lemma AddRowKeys(db: Database, row: MetadataRow)
    ensures AddRow(db, row).Keys == db.Keys + {row.key}
  {}

  lemma {:induction false} GatheredTables(rows: seq<MetadataRow>, k: Key)
    ensures k in Gathered(rows) <==> exists r :: r in rows && r.key == k
  {
    hide AddRow;
    if rows != [] {
      var n := |rows| - 1;
      GatheredTables(rows[..n], k);
      AddRowKeys(Gathered(rows[..n]), rows[n]);
      assert rows == rows[..n] + [rows[n]];
    }
  }

  lemma {:induction false} GatheredIsListed(rows: seq<MetadataRow>)
    ensures AllListed(Gathered(rows))
  {
    if rows != [] {
      GatheredIsListed(rows[..|rows| - 1]);
    }
  }

  lemma AddRowValues(db: Database, row: MetadataRow, k: Key)
    ensures var t, t' := TableOf(db, k), TableOf(AddRow(db, row), k);
            && t'.engine == (if row.TableRow? && row.key == k then row.engine else t.engine)
            && t'.columns == (if row.ColumnRow? && row.key == k then t.columns[row.name := row.column] else t.columns)
  {}

  /** The engine seen so far is that of the last row naming it. */
  lemma {:induction false} GatheredEngine(rows: seq<MetadataRow>, db: Database, k: Key)
    requires forall r :: r in rows && r.TableRow? && r.key == k ==> k in db && db[k].engine == r.engine
    ensures (exists r :: r in rows && r.TableRow? && r.key == k) ==> TableOf(Gathered(rows), k).engine == db[k].engine
  {
    hide AddRow, TableOf;
    if rows != [] {
      var n := |rows| - 1;
      assert rows == rows[..n] + [rows[n]];
      GatheredEngine(rows[..n], db, k);
      AddRowValues(Gathered(rows[..n]), rows[n], k);
    }
  }

  /** The columns seen so far are those of the last rows naming them. */
  lemma {:induction false} GatheredColumns(rows: seq<MetadataRow>, db: Database, k: Key)
    requires forall r :: r in rows && r.ColumnRow? && r.key == k ==>
               k in db && r.name in db[k].columns && db[k].columns[r.name] == r.column
    ensures forall n :: n in TableOf(Gathered(rows), k).columns <==>
              exists r :: r in rows && r.ColumnRow? && r.key == k && r.name == n
    ensures forall n :: n in TableOf(Gathered(rows), k).columns ==>
              TableOf(Gathered(rows), k).columns[n] == db[k].columns[n]
  {
    if rows != [] {
      hide AddRow, TableOf;
      var n := |rows| - 1;
      assert rows == rows[..n] + [rows[n]];
      GatheredColumns(rows[..n], db, k);
      AddRowValues(Gathered(rows[..n]), rows[n], k);
    }
  }

  /** Whatever order the server lists its metadata in, the planner sees the live schema itself. */
  lemma GatheringRestoresTheSchema(rows: seq<MetadataRow>, db: Database)
    requires AllListed(db) && Lists(rows, db)
    ensures Gathered(rows) == db
  {
    forall k
      ensures k in Gathered(rows) <==> k in db
      ensures k in db ==> Gathered(rows)[k] == db[k]
    {
      GatheredTables(rows, k);
      GatheredIsListed(rows);
      if k in db {
        var row := TableRow(k, db[k].engine);
        assert row in rows && row.key == k;
        GatheredEngine(rows, db, k);
        GatheredColumns(rows, db, k);
        SameTable(rows, db, k);
      }
    }
  }

  lemma SameTable(rows: seq<MetadataRow>, db: Database, k: Key)
    requires AllListed(db) && Lists(rows, db) && k in db && k in Gathered(rows) && AllListed(Gathered(rows))
    requires Gathered(rows)[k].engine == db[k].engine
    requires forall n :: n in Gathered(rows)[k].columns <==>
               exists r :: r in rows && r.ColumnRow? && r.key == k && r.name == n
    requires forall n :: n in Gathered(rows)[k].columns ==> Gathered(rows)[k].columns[n] == db[k].columns[n]
    ensures Gathered(rows)[k] == db[k]
  {
    var t, u := Gathered(rows)[k], db[k];
    forall n
      ensures n in t.columns <==> n in u.columns
    {
      if n in u.columns {
        var row := ColumnRow(k, n, u.columns[n]);
        assert row in rows && row.key == k && row.name == n;
      }
    }
    assert t.columns == u.columns;
    forall n
      ensures RowsAt(t.indexes, n) == RowsAt(u.indexes, n) && RowsAt(t.foreignKeys, n) == RowsAt(u.foreignKeys, n)
    {
      GatheredIndexes(rows, k, n);
    }
    SameRows(t.indexes, u.indexes);
    SameRows(t.foreignKeys, u.foreignKeys);
  }

  lemma SameRows<T>(m: map<string, seq<T>>, m': map<string, seq<T>>)
    requires forall n :: n in m ==> m[n] != []
    requires forall n :: n in m' ==> m'[n] != []
    requires forall n :: RowsAt(m, n) == RowsAt(m', n)
    ensures m == m'
  {
    assert forall n :: n in m <==> RowsAt(m, n) != [];
    assert forall n :: n in m' <==> RowsAt(m', n) != [];
    assert forall n :: n in m ==> m[n] == RowsAt(m, n) == RowsAt(m', n) == m'[n];
  }
}
