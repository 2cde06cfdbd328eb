/**
 What a migration does to the database, statement by statement: an interrupted run can be
 planned again, a finished one leaves an empty plan, and earlier releases keep working.
*/
module MigrationRun {
  import opened Results
  import opened Schema
  import opened Migration

  // ---------------------------------------------------------------- the server

  /** `row` is a possible report of a column declared as `c`. */
  predicate Reports(c: Column, row: LiveColumn) {
    && NormalizeType(row.colType) == Success(c.colType)
    && row.nullable == c.nullable
    && NormalizeDefault(row.default) == c.default
    && NormalizeExtra(row.extra) == c.extra
    && (NormalizeExtra(row.extra) == NormalizeExtra("auto_increment") ==> row.extra == "auto_increment")
    && SameAttribute(c.charset, row.charset)
    && SameAttribute(c.collation, row.collation)
  }

  predicate ReportsIndex(x: Index, rows: seq<IndexRow>) {
    rows != [] && rows[0].unique == x.unique && IndexColumns(rows) == x.columns
  }

  /** The server may add non-unique indexes of its own, as it does for foreign keys. */
  predicate Realizes(def: TableDef, live: LiveTable) {
    && Listed(live)
    && live.engine == Some("InnoDB")
    && live.columns.Keys == ColumnNames(def)
    && (forall i :: 0 <= i < |def.columns| ==> Reports(def.columns[i], live.columns[def.columns[i].name]))
    && (forall i :: 0 <= i < |def.indexes| ==>
          def.indexes[i].name in live.indexes && ReportsIndex(def.indexes[i], live.indexes[def.indexes[i].name]))
    && (forall n :: n in live.indexes && n !in IndexNames(def) ==> !live.indexes[n][0].unique)
    && LiveForeignKeys(live) == WantedForeignKeys(def)
  }

  /** The server accepts `s` in `db` and reports `after` from then on. */
  predicate Effect(s: Statement, db: Database, after: Database) {
    s.key in after &&
    match s
    case CreateTable(key, def) =>
      if key in db then after == db
      else Realizes(def, after[key]) && after == db[key := after[key]]
    case AddColumn(key, c) =>
      && key in db && c.name !in db[key].columns
      && c.name in after[key].columns && Reports(c, after[key].columns[c.name])
      && after == db[key := db[key].(columns := db[key].columns[c.name := after[key].columns[c.name]])]
    case ModifyColumn(key, c) =>
      && key in db && c.name in db[key].columns
      && c.name in after[key].columns && Reports(c, after[key].columns[c.name])
      && after == db[key := db[key].(columns := db[key].columns[c.name := after[key].columns[c.name]])]
    case AddIndex(key, x) =>
      && key in db && x.name !in db[key].indexes
      && x.name in after[key].indexes && ReportsIndex(x, after[key].indexes[x.name])
      && after == db[key := db[key].(indexes := db[key].indexes[x.name := after[key].indexes[x.name]])]
  }

  /** The databases seen while the statements run one after the other. */
  predicate Run(statements: seq<Statement>, states: seq<Database>) {
    && |states| == |statements| + 1
    && forall i :: 0 <= i < |statements| ==> Effect(statements[i], states[i], states[i + 1])
  }

  // ---------------------------------------------------------------- planned statements

  /** What makes a statement safe: it only adds, and only what earlier releases tolerate. */
  predicate Safe(s: Statement, db: Database) {
    match s
    case CreateTable(key, def) => key !in db
    case AddColumn(key, c) =>
      key in db && c.name !in db[key].columns && (c.nullable || c.default.Some?) && c.extra == ""
    case ModifyColumn(key, c) =>
      && key in db && c.name in db[key].columns
      && var row := db[key].columns[c.name];
         && row.nullable == c.nullable
         && NormalizeDefault(row.default) == c.default
         && NormalizeExtra(row.extra) == c.extra
         && c.charset == row.charset && c.charset.Some?
         && c.collation == row.collation && c.collation.Some?
         && c.colType.Varchar?
         && NormalizeType(row.colType).Success?
         && NormalizeType(row.colType).value.Varchar?
         && NormalizeType(row.colType).value.width < c.colType.width
    case AddIndex(key, x) => key in db && x.name !in db[key].indexes && !x.unique
  }

  /** What a statement or an item is about; used to tell the items of a release apart. */
  datatype Spot = Spot(key: Key, kind: nat, name: string)

  function SpotOf(s: Statement): Spot {
    match s
    case CreateTable(key, _) => Spot(key, 0, "")
    case AddColumn(key, c) => Spot(key, 1, c.name)
    case ModifyColumn(key, c) => Spot(key, 1, c.name)
    case AddIndex(key, x) => Spot(key, 3, x.name)
  }

  function ItemSpot(x: Item): Spot {
    match x
    case Initialized(schema) => Spot(Key(schema, ""), 6, "")
    case Table(key, _) => Spot(key, 0, "")
    case HasColumn(key, c) => Spot(key, 1, c.name)
    case NoExtraColumns(key, _) => Spot(key, 2, "")
    case HasIndex(key, i) => Spot(key, 3, i.name)
    case NoExtraKeys(key, _) => Spot(key, 4, "")
    case SameForeignKeys(key, _) => Spot(key, 5, "")
  }

  lemma ItemPlansSafely(x: Item, db: Database)
    requires AllListed(db) && PlanItem(x, db).Success? && PlanItem(x, db).value != []
    ensures |PlanItem(x, db).value| == 1
    ensures var s := PlanItem(x, db).value[0]; Safe(s, db) && SpotOf(s) == ItemSpot(x)
  {
  }

  lemma PlannedBy(x: Item, db: Database) returns (s: Statement)
    requires AllListed(db) && PlanItem(x, db).Success? && PlanItem(x, db).value != []
    ensures PlanItem(x, db) == Success([s]) && Safe(s, db) && SpotOf(s) == ItemSpot(x)
  {
    ItemPlansSafely(x, db);
    s := PlanItem(x, db).value[0];
  }

  lemma EffectKeepsListed(s: Statement, db: Database, after: Database)
    requires AllListed(db) && Effect(s, db, after)
    ensures AllListed(after)
  {
  }

  // ---------------------------------------------------------------- one statement, one item

  const NOTHING: Plan := Success([])

  predicate Fulfilled(x: Item, db: Database)
    requires AllListed(db)
  {
    PlanItem(x, db) == NOTHING
  }

  /** A widened column stays acceptable to whoever accepted it before. */
  lemma WidenedColumnStays(key: Key, c: Column, s: Statement, db: Database, after: Database)
    requires AllListed(db) && AllListed(after) && Safe(s, db) && Effect(s, db, after)
    requires s.ModifyColumn? && s.key == key && s.column.name == c.name
    requires key in db && PlanColumn(key, c, db[key]) == NOTHING
    ensures key in after && PlanColumn(key, c, after[key]) == NOTHING
  {
    var row, row' := db[key].columns[c.name], after[key].columns[c.name];
    assert Reports(s.column, row') && c.name in db[key].columns;
    assert SameAttribute(c.charset, row.charset) && SameAttribute(c.collation, row.collation);
    assert SameAttribute(c.charset, row'.charset) && SameAttribute(c.collation, row'.collation);
  }

  lemma ColumnStays(key: Key, c: Column, s: Statement, db: Database, after: Database)
    requires AllListed(db) && AllListed(after) && Safe(s, db) && Effect(s, db, after)
    requires key in db && PlanColumn(key, c, db[key]) == NOTHING
    ensures key in after && PlanColumn(key, c, after[key]) == NOTHING
  {
    hide NormalizeType, NormalizeDefault, NormalizeExtra, Reports, ReportsIndex, Safe, Realizes;
    if s.ModifyColumn? && s.key == key && s.column.name == c.name {
      WidenedColumnStays(key, c, s, db, after);
    } else {
      assert c.name in db[key].columns;
      assert c.name in after[key].columns && after[key].columns[c.name] == db[key].columns[c.name];
    }
  }

  /** A statement changes one table at most, and never one that it was to create. */
  lemma UntouchedTable(k: Key, s: Statement, db: Database, after: Database)
    requires Effect(s, db, after) && k in db && (k != s.key || s.CreateTable?)
    ensures k in after && after[k] == db[k]
  {
  }

  /** A column that an added or widened definition describes never blocks an older release's writes. */
  lemma TolerantColumn(c: Column, row: LiveColumn)
    requires Reports(c, row) && (c.nullable || c.default.Some? || c.extra == NormalizeExtra("auto_increment"))
    ensures !BlocksWrites(row)
  {
    hide NormalizeType, NormalizeDefault, NormalizeExtra;
  }

  /** What was tolerated before it was widened is tolerated after. */
  lemma WidenedColumnTolerates(c: Column, row: LiveColumn, row': LiveColumn)
    requires Reports(c, row') && row.nullable == c.nullable && NormalizeDefault(row.default) == c.default
    requires NormalizeExtra(row.extra) == c.extra && !BlocksWrites(row)
    ensures !BlocksWrites(row')
  {
    hide NormalizeType, NormalizeDefault, NormalizeExtra;
  }

  lemma ExtraColumnsStay(key: Key, def: TableDef, s: Statement, db: Database, after: Database)
    requires AllListed(db) && AllListed(after) && Safe(s, db) && Effect(s, db, after)
    requires key in db && s.key == key && !s.CreateTable?
    requires Fulfilled(NoExtraColumns(key, def), db)
    ensures Fulfilled(NoExtraColumns(key, def), after)
  {
    hide NormalizeType, NormalizeDefault, NormalizeExtra, Reports, ReportsIndex, Realizes, BlocksWrites;
    forall n | n in after[key].columns && n !in ColumnNames(def)
      ensures !BlocksWrites(after[key].columns[n])
    {
      if s.AddColumn? && n == s.column.name {
        TolerantColumn(s.column, after[key].columns[n]);
      } else if s.ModifyColumn? && n == s.column.name {
        WidenedColumnTolerates(s.column, db[key].columns[n], after[key].columns[n]);
      } else {
        assert after[key].columns[n] == db[key].columns[n];
      }
    }
  }

  lemma IndexStays(key: Key, x: Index, s: Statement, db: Database, after: Database)
    requires AllListed(db) && AllListed(after) && Safe(s, db) && Effect(s, db, after)
    requires key in db && s.key == key && !s.CreateTable?
    requires PlanIndex(key, x, db[key]) == NOTHING
    ensures PlanIndex(key, x, after[key]) == NOTHING
  {
  }

  lemma ExtraKeysStay(key: Key, def: TableDef, s: Statement, db: Database, after: Database)
    requires AllListed(db) && AllListed(after) && Safe(s, db) && Effect(s, db, after)
    requires key in db && s.key == key && !s.CreateTable?
    requires Fulfilled(NoExtraKeys(key, def), db)
    ensures Fulfilled(NoExtraKeys(key, def), after)
  {
    hide NormalizeType, NormalizeDefault, NormalizeExtra, Reports, Realizes, BlocksWrites;
    forall n | n in after[key].indexes && n !in IndexNames(def)
      ensures !after[key].indexes[n][0].unique
    {
      assert n in db[key].indexes ==> !db[key].indexes[n][0].unique;
    }
  }

  lemma FulfilledStays(x: Item, s: Statement, db: Database, after: Database)
    requires AllListed(db) && AllListed(after) && Safe(s, db) && Effect(s, db, after)
    requires Fulfilled(x, db) && (x.Initialized? || x.key in db)
    ensures Fulfilled(x, after) && (x.Initialized? || x.key in after)
  {
    hide NormalizeType, NormalizeDefault, NormalizeExtra, Reports, ReportsIndex, Realizes, BlocksWrites, Safe,
         PlanColumn, PlanIndex;
    if x.Initialized? {
      var k :| k in db && k.schema == x.schema;
      assert k in after;
    } else if x.key != s.key || s.CreateTable? {
      UntouchedTable(x.key, s, db, after);
    } else {
      match x {
        case HasColumn(key, c) => ColumnStays(key, c, s, db, after);
        case NoExtraColumns(key, def) => ExtraColumnsStay(key, def, s, db, after);
        case HasIndex(key, i) => IndexStays(key, i, s, db, after);
        case NoExtraKeys(key, def) => ExtraKeysStay(key, def, s, db, after);
        case SameForeignKeys(key, def) => assert after[key].foreignKeys == db[key].foreignKeys;
        case Table(key, def) =>
      }
    }
  }

  lemma ReportedColumn(key: Key, c: Column, live: LiveTable)
    requires c.name in live.columns && Reports(c, live.columns[c.name])
    ensures PlanColumn(key, c, live) == NOTHING
  {
  }

  lemma ReportedIndex(key: Key, x: Index, live: LiveTable)
    requires Listed(live) && x.name in live.indexes && ReportsIndex(x, live.indexes[x.name])
    ensures PlanIndex(key, x, live) == NOTHING
  {
  }

  /** The two statements that a column can ask for. */
  lemma ColumnStatement(key: Key, c: Column, live: LiveTable, s: Statement)
    requires PlanColumn(key, c, live) == Success([s])
    ensures || (s == AddColumn(key, c) && c.name !in live.columns)
            || (c.name in live.columns
                && var row := live.columns[c.name];
                   s == ModifyColumn(key, c.(charset := row.charset, collation := row.collation))
                   && SameAttribute(c.charset, row.charset) && SameAttribute(c.collation, row.collation)
                   && row.charset.Some? && row.collation.Some?)
  {
  }

  /** A report of the widened column is one of the column as the release declares it. */
  lemma WidenedReport(c: Column, charset: Option<string>, collation: Option<string>, row: LiveColumn)
    requires Reports(c.(charset := charset, collation := collation), row) && charset.Some? && collation.Some?
    requires SameAttribute(c.charset, charset) && SameAttribute(c.collation, collation)
    ensures Reports(c, row)
  {
    hide NormalizeType, NormalizeDefault, NormalizeExtra;
  }

  lemma AddedColumnFulfills(key: Key, c: Column, s: Statement, db: Database, after: Database)
    requires AllListed(db) && AllListed(after) && Effect(s, db, after)
    requires key in db && PlanColumn(key, c, db[key]) == Success([s])
    ensures key in after && PlanColumn(key, c, after[key]) == NOTHING
  {
    hide PlanColumn, Reports, ReportsIndex, Realizes, SameAttribute;
    ColumnStatement(key, c, db[key], s);
    if s.ModifyColumn? {
      var row := db[key].columns[c.name];
      WidenedReport(c, row.charset, row.collation, after[key].columns[c.name]);
    }
    ReportedColumn(key, c, after[key]);
  }

  lemma IndexStatement(key: Key, x: Index, live: LiveTable, s: Statement)
    requires Listed(live) && PlanIndex(key, x, live) == Success([s])
    ensures s == AddIndex(key, x)
  {
  }

  lemma StatementFulfills(x: Item, s: Statement, db: Database, after: Database)
    requires AllListed(db) && AllListed(after) && Effect(s, db, after)
    requires PlanItem(x, db) == Success([s])
    ensures Fulfilled(x, after)
  {
    hide PlanColumn, PlanIndex, Reports, ReportsIndex, Safe;
    ItemPlansSafely(x, db);
    match x {
      case HasColumn(key, c) => AddedColumnFulfills(key, c, s, db, after);
      case HasIndex(key, i) =>
        IndexStatement(key, i, db[key], s);
        ReportedIndex(key, i, after[key]);
      case Table(key, def) => assert after[key].engine == Some("InnoDB");
    }
  }

  lemma PendingColumnStays(key: Key, c: Column, s: Statement, db: Database, after: Database)
    requires AllListed(db) && AllListed(after) && Effect(s, db, after)
    requires key in db && s.key == key && !s.CreateTable? && SpotOf(s) != Spot(key, 1, c.name)
    ensures PlanColumn(key, c, after[key]) == PlanColumn(key, c, db[key])
  {
    hide NormalizeType, NormalizeDefault, NormalizeExtra, Reports, ReportsIndex;
    assert c.name in after[key].columns <==> c.name in db[key].columns;
  }

  lemma PendingIndexStays(key: Key, x: Index, s: Statement, db: Database, after: Database)
    requires AllListed(db) && AllListed(after) && Effect(s, db, after)
    requires key in db && s.key == key && !s.CreateTable? && SpotOf(s) != Spot(key, 3, x.name)
    ensures PlanIndex(key, x, after[key]) == PlanIndex(key, x, db[key])
  {
    assert x.name in after[key].indexes <==> x.name in db[key].indexes;
  }

  lemma PendingStays(x: Item, t: Statement, s: Statement, db: Database, after: Database)
    requires AllListed(db) && AllListed(after) && Safe(s, db) && Effect(s, db, after)
    requires PlanItem(x, db) == Success([t]) && SpotOf(s) != SpotOf(t)
    ensures PlanItem(x, after) == Success([t])
  {
    ItemPlansSafely(x, db);
    if x.Table? {
      assert x.key !in after;
    } else if x.key != s.key || s.CreateTable? {
      UntouchedTable(x.key, s, db, after);
    } else if x.HasColumn? {
      PendingColumnStays(x.key, x.column, s, db, after);
    } else {
      PendingIndexStays(x.key, x.index, s, db, after);
    }
  }

  lemma TableItemCases(x: Item, key: Key, def: TableDef)
    ensures x in TableItems(key, def) <==>
            || x == Table(key, def)
            || (exists i :: 0 <= i < |def.columns| && x == HasColumn(key, def.columns[i]))
            || x == NoExtraColumns(key, def)
            || (exists i :: 0 <= i < |def.indexes| && x == HasIndex(key, def.indexes[i]))
            || x == NoExtraKeys(key, def)
            || x == SameForeignKeys(key, def)
  {
    var a, b := ColumnItems(key, def.columns), IndexItems(key, def.indexes);
    assert x in TableItems(key, def) <==>
           (x == Table(key, def) || x in a || x == NoExtraColumns(key, def)
            || x in b || x == NoExtraKeys(key, def) || x == SameForeignKeys(key, def));
    assert forall i :: 0 <= i < |def.columns| ==> a[i] == HasColumn(key, def.columns[i]);
    assert forall i :: 0 <= i < |def.indexes| ==> b[i] == HasIndex(key, def.indexes[i]);
  }

  lemma CreatedTableFulfills(x: Item, key: Key, def: TableDef, after: Database)
    requires AllListed(after) && key in after && Realizes(def, after[key])
    requires x in TableItems(key, def)
    ensures Fulfilled(x, after)
  {
    TableItemCases(x, key, def);
    if x.HasColumn? {
      ReportedColumn(key, x.column, after[key]);
    } else if x.HasIndex? {
      ReportedIndex(key, x.index, after[key]);
    }
  }
}
