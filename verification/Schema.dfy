/**
 Database schemas as the migration tool sees them: the definitions parsed from a release's
 DDL, and the metadata rows that a live server reports.
*/
module Schema {
  import opened Results
  import opened Texts

  // ---------------------------------------------------------------- text

  predicate IsLetter(c: char) { 'a' <= c <= 'z' || 'A' <= c <= 'Z' || c == '_' }

  predicate IsIdentifier(s: string) {
    s != [] && IsLetter(s[0]) && forall i :: 1 <= i < |s| ==> IsLetter(s[i]) || '0' <= s[i] <= '9'
  }

  // ---------------------------------------------------------------- column types

  datatype SqlType =
    | Varchar(width: nat)
    | Integer(name: string, display: Option<nat>, unsigned: bool)
    | Text(size: Option<nat>)
    | TinyText
    | MediumText
    | LongText
    | Other(text: string)

  datatype SchemaError =
    | UnsupportedTextSize
    | NotInitialized
    | NotInnoDb
    | RequiredColumn
    | ValueRulesDiffer
    | AttributeDiffers
    | IncompatibleTypes
    | UnsupportedCharacterSet
    | ExtraRequiredColumn
    | MissingUniqueKey
    | IndexDiffers
    | ExtraUniqueKey
    | ForeignKeysDiffer
    | DuplicateColumn
    | CrossSchemaForeignKey
    | UnsupportedDefinition

  /** TEXT(n) gets the storage class of its byte length; integers lose their display width. */
  function NormalizeType(t: SqlType): Result<SqlType, SchemaError> {
    match t
    case Text(Some(n)) =>
      var size := n * 3;
      if size <= 255 then Success(TinyText)
      else if size <= 65535 then Success(Text(None))
      else if size <= 16777215 then Success(MediumText)
      else if size <= 4294967295 then Success(LongText)
      else Failure(UnsupportedTextSize)
    case Integer(name, _, unsigned) => Success(Integer(name, None, unsigned))
    case Other(text) => Success(Other(Lower(text)))
    case _ => Success(t)
  }

  function NormalizeExtra(value: string): string {
    ReplaceAll(Lower(value), "current_timestamp()", "current_timestamp")
  }

  function NormalizeDefault(value: Option<string>): Option<string> {
    if value.None? || Lower(value.value) == "null" then None
    else if "'" <= value.value then value
    else Some(NormalizeExtra(value.value))
  }

  /** utf8 and utf8mb3 name the same character set. */
  function Canonical(name: Option<string>): string {
    if name.Some? then ReplaceAll(name.value, "utf8mb3", "utf8") else ""
  }

  // ---------------------------------------------------------------- release definitions

  datatype Column = Column(
    name: string, colType: SqlType, nullable: bool, default: Option<string>, extra: string,
    charset: Option<string>, collation: Option<string>)

  datatype IndexColumn = IndexColumn(name: string, prefix: Option<nat>, descending: bool)

  datatype Index = Index(name: string, unique: bool, columns: seq<IndexColumn>)

  datatype ForeignKey = ForeignKey(
    columns: seq<string>, refSchema: string, refTable: string, refColumns: seq<string>,
    onDelete: string, onUpdate: string)

  datatype TableDef = TableDef(
    name: string, columns: seq<Column>, indexes: seq<Index>, foreignKeys: map<string, ForeignKey>)

  datatype SchemaDef = SchemaDef(name: string, tables: seq<TableDef>)

  predicate WellFormedTable(t: TableDef) {
    && (forall i, j :: 0 <= i < j < |t.columns| ==> t.columns[i].name != t.columns[j].name)
    && (forall i, j :: 0 <= i < j < |t.indexes| ==> t.indexes[i].name != t.indexes[j].name)
    && (forall i :: 0 <= i < |t.indexes| ==> t.indexes[i].columns != [])
  }

  predicate WellFormedTables(tables: seq<TableDef>) {
    && (forall i, j :: 0 <= i < j < |tables| ==> tables[i].name != tables[j].name)
    && (forall i :: 0 <= i < |tables| ==> WellFormedTable(tables[i]))
  }

  /** What the parser guarantees about a release: names are keys of its dictionaries. */
  predicate WellFormed(targets: seq<SchemaDef>) {
    && (forall i, j :: 0 <= i < j < |targets| ==> targets[i].name != targets[j].name)
    && (forall i :: 0 <= i < |targets| ==> WellFormedTables(targets[i].tables))
  }

  // ---------------------------------------------------------------- live metadata

  datatype LiveColumn = LiveColumn(
    colType: SqlType, nullable: bool, default: Option<string>, extra: string,
    charset: Option<string>, collation: Option<string>)

  datatype IndexRow = IndexRow(unique: bool, column: IndexColumn)

  datatype FkRow = FkRow(
    column: string, refSchema: string, refTable: string, refColumn: string,
    onDelete: string, onUpdate: string)

  datatype LiveTable = LiveTable(
    engine: Option<string>, columns: map<string, LiveColumn>,
    indexes: map<string, seq<IndexRow>>, foreignKeys: map<string, seq<FkRow>>)

  datatype Key = Key(schema: string, table: string)

  type Database = map<Key, LiveTable>

  /** Index and foreign-key entries are made by appending a row, so none is empty. */
  predicate Listed(t: LiveTable) {
    && (forall n :: n in t.indexes ==> t.indexes[n] != [])
    && (forall n :: n in t.foreignKeys ==> t.foreignKeys[n] != [])
  }

  predicate AllListed(db: Database) { forall k :: k in db ==> Listed(db[k]) }

  function IndexColumns(rows: seq<IndexRow>): seq<IndexColumn> {
    seq(|rows|, i requires 0 <= i < |rows| => rows[i].column)
  }

  function NormalizeRule(rule: string): string {
    if rule == "NO ACTION" then "RESTRICT" else rule
  }

  function NormalizeFk(fk: ForeignKey): ForeignKey {
    fk.(onDelete := NormalizeRule(fk.onDelete), onUpdate := NormalizeRule(fk.onUpdate))
  }

  function FkOfRows(rows: seq<FkRow>): ForeignKey
    requires rows != []
  {
    ForeignKey(
      seq(|rows|, i requires 0 <= i < |rows| => rows[i].column), rows[0].refSchema, rows[0].refTable,
      seq(|rows|, i requires 0 <= i < |rows| => rows[i].refColumn), rows[0].onDelete, rows[0].onUpdate)
  }
}
