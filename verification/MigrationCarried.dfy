/**
 That the laws of migration speak of something: exactly when an accepted plan can be carried out
 by a server.
*/
module MigrationCarried {
  import opened Results
  import opened Schema
  import opened Migration
  import opened MigrationRun
  import opened MigrationLaws
  import opened MigrationInput

  // ---------------------------------------------------------------- what a server can take

  ghost predicate ColumnFits(c: Column) { exists row :: Reports(c, row) }

  /** A key refers to one column for each of its own. */
  predicate KeyFits(fk: ForeignKey) { |fk.columns| == |fk.refColumns| > 0 }

  predicate KeysFit(def: TableDef) { forall n :: n in def.foreignKeys ==> KeyFits(def.foreignKeys[n]) }

  ghost predicate TableFits(def: TableDef) {
    WellFormedTable(def) && forall i :: 0 <= i < |def.columns| ==> ColumnFits(def.columns[i])
  }

  ghost predicate AllFit(targets: seq<SchemaDef>) {
    forall s, t :: 0 <= s < |targets| && 0 <= t < |targets[s].tables| ==> TableFits(targets[s].tables[t])
  }

  ghost predicate ItemFits(x: Item) {
    match x
    case Table(_, def) => TableFits(def)
    case HasColumn(_, c) => ColumnFits(c)
    case HasIndex(_, index) => index.columns != []
    case _ => true
  }

  /** The columns of an accepted table can be reported as they were declared. */
  lemma {:induction false} ParsedTablesFit(name: string, clauses: seq<Definition>, schema: string)
    requires forall i :: 0 <= i < |clauses| && clauses[i].IndexClause? ==> clauses[i].index.columns != []
    requires Parsed(name, clauses, schema).Success?
    ensures TableFits(Parsed(name, clauses, schema).value)
  {
    hide Reports;
    ParsedTablesAreWellFormed(name, clauses, schema);
    if clauses != [] {
      var n := |clauses| - 1;
      ParsedTablesFit(name, clauses[..n], schema);
      if clauses[n].ColumnClause? && ParsedColumn(clauses[n]).Success? {
        var row := ParsedColumnCanBeReported(clauses[n]);
      }
    }
  }

  // ---------------------------------------------------------------- the tables a server would make

  ghost function RowFor(def: TableDef, name: string): LiveColumn
    requires TableFits(def) && name in ColumnNames(def)
  {
    var i :| 0 <= i < |def.columns| && def.columns[i].name == name;
    var row :| Reports(def.columns[i], row);
    row
  }

  function RowsOfIndex(x: Index): seq<IndexRow> {
    seq(|x.columns|, i requires 0 <= i < |x.columns| => IndexRow(x.unique, x.columns[i]))
  }

  ghost function RowsFor(def: TableDef, name: string): seq<IndexRow>
    requires name in IndexNames(def)
  {
    var i :| 0 <= i < |def.indexes| && def.indexes[i].name == name;
    RowsOfIndex(def.indexes[i])
  }

  function RowsOfKey(fk: ForeignKey): seq<FkRow>
    requires KeyFits(fk)
  {
    seq(|fk.columns|, i requires 0 <= i < |fk.columns| =>
      FkRow(fk.columns[i], fk.refSchema, fk.refTable, fk.refColumns[i], fk.onDelete, fk.onUpdate))
  }

  lemma RowsOfIndexReport(x: Index)
    requires x.columns != []
    ensures ReportsIndex(x, RowsOfIndex(x))
  {
    assert IndexColumns(RowsOfIndex(x)) == x.columns;
  }

  lemma RowsOfKeyReport(fk: ForeignKey)
    requires KeyFits(fk)
    ensures RowsOfKey(fk) != [] && FkOfRows(RowsOfKey(fk)) == fk
  {
    assert FkOfRows(RowsOfKey(fk)).columns == fk.columns && FkOfRows(RowsOfKey(fk)).refColumns == fk.refColumns;
  }

  ghost function Made(def: TableDef): LiveTable
    requires TableFits(def) && KeysFit(def)
  {
    LiveTable(Some("InnoDB"),
              map n | n in ColumnNames(def) :: RowFor(def, n),
              map n | n in IndexNames(def) :: RowsFor(def, n),
              map n | n in def.foreignKeys :: RowsOfKey(def.foreignKeys[n]))
  }

  lemma MadeColumns(def: TableDef, i: nat)
    requires TableFits(def) && KeysFit(def) && i < |def.columns|
    ensures def.columns[i].name in Made(def).columns && Reports(def.columns[i], Made(def).columns[def.columns[i].name])
  {
    hide Reports;
    assert def.columns[i].name in ColumnNames(def);
  }

  lemma MadeIndexes(def: TableDef, i: nat)
    requires TableFits(def) && KeysFit(def) && i < |def.indexes|
    ensures def.indexes[i].name in Made(def).indexes && ReportsIndex(def.indexes[i], Made(def).indexes[def.indexes[i].name])
  {
    hide Reports, ColumnFits;
    assert def.indexes[i].name in IndexNames(def);
    RowsOfIndexReport(def.indexes[i]);
  }

  lemma MadeKeys(def: TableDef)
    requires TableFits(def) && KeysFit(def)
    ensures Listed(Made(def)) && LiveForeignKeys(Made(def)) == WantedForeignKeys(def)
  {
    hide Reports, ColumnFits;
    forall n | n in def.foreignKeys
      ensures RowsOfKey(def.foreignKeys[n]) != [] && FkOfRows(RowsOfKey(def.foreignKeys[n])) == def.foreignKeys[n]
    {
      RowsOfKeyReport(def.foreignKeys[n]);
    }
    forall n | n in IndexNames(def)
      ensures RowsFor(def, n) != []
    {
    }
  }

  /** A server can make any table that fits. */
  lemma MadeRealizes(def: TableDef)
    requires TableFits(def) && KeysFit(def)
    ensures Realizes(def, Made(def))
  {
    hide Reports, ReportsIndex;
    MadeKeys(def);
    forall i | 0 <= i < |def.columns|
      ensures Reports(def.columns[i], Made(def).columns[def.columns[i].name])
    {
      MadeColumns(def, i);
    }
    forall i | 0 <= i < |def.indexes|
      ensures def.indexes[i].name in Made(def).indexes && ReportsIndex(def.indexes[i], Made(def).indexes[def.indexes[i].name])
    {
      MadeIndexes(def, i);
    }
  }

  // ---------------------------------------------------------------- one statement

  lemma WidenedColumnFits(c: Column, charset: Option<string>, collation: Option<string>)
    requires ColumnFits(c)
    ensures ColumnFits(c.(charset := charset, collation := collation))
  {
    var row :| Reports(c, row);
    assert Reports(c.(charset := charset, collation := collation), row.(charset := charset, collation := collation));
  }

  /** The column that is added or widened can be reported. */
  lemma PlannedColumnFits(x: Item, s: Statement, db: Database)
    requires AllListed(db) && PlanItem(x, db) == Success([s]) && ItemFits(x) && (s.AddColumn? || s.ModifyColumn?)
    ensures ColumnFits(s.column)
  {
    hide ColumnFits;
    if s.ModifyColumn? {
      WidenedColumnFits(x.column, s.column.charset, s.column.collation);
    }
  }

  lemma PlannedTableFits(x: Item, s: Statement, db: Database)
    requires AllListed(db) && PlanItem(x, db) == Success([s]) && ItemFits(x)
    ensures s.CreateTable? ==> TableFits(s.def)
    ensures s.AddIndex? ==> s.index.columns != []
  {
    hide TableFits, ColumnFits;
  }

  /** A planned statement can be carried out. */
  lemma PlannedStatementRuns(x: Item, s: Statement, db: Database) returns (after: Database)
    requires AllListed(db) && PlanItem(x, db) == Success([s]) && ItemFits(x)
    requires s.CreateTable? ==> KeysFit(s.def)
    ensures Effect(s, db, after)
  {
    hide Reports, ReportsIndex, Realizes, PlanItem, TableFits, NormalizeType, NormalizeDefault, NormalizeExtra, IndexColumns;
    var _ := PlannedBy(x, db);
    PlannedTableFits(x, s, db);
    match s {
      case CreateTable(key, def) =>
        MadeRealizes(def);
        after := db[key := Made(def)];
      case AddIndex(key, index) =>
        RowsOfIndexReport(index);
        after := db[key := db[key].(indexes := db[key].indexes[index.name := RowsOfIndex(index)])];
      case _ =>
        PlannedColumnFits(x, s, db);
        var row :| Reports(s.column, row);
        after := db[s.key := db[s.key].(columns := db[s.key].columns[s.column.name := row])];
    }
  }

  lemma PlannedItemFits(x: Item, targets: seq<SchemaDef>)
    requires AllFit(targets) && x in Items(targets)
    ensures ItemFits(x)
  {
    hide Items, TableItems, ColumnFits, KeyFits;
    ItemOfSomeSchema(x, targets);
    var s :| 0 <= s < |targets| && x in SchemaItems(targets[s]);
    if x in TablesItems(targets[s].name, targets[s].tables) {
      ItemOfSomeTable(x, targets[s].tables, targets[s].name);
      var t :| 0 <= t < |targets[s].tables|
               && x in TableItems(Key(targets[s].name, targets[s].tables[t].name), targets[s].tables[t]);
      TableItemFits(x, Key(targets[s].name, targets[s].tables[t].name), targets[s].tables[t]);
    }
  }

  lemma TableItemFits(x: Item, key: Key, def: TableDef)
    requires TableFits(def) && x in TableItems(key, def)
    ensures ItemFits(x)
  {
    hide ColumnFits, KeyFits;
    TableItemCases(x, key, def);
  }

  // ---------------------------------------------------------------- whole plans

  lemma RunGoesOn(plan: seq<Statement>, k: nat, states: seq<Database>, after: Database)
    requires k < |plan| && |states| == k + 1 && Run(plan[..k], states) && Effect(plan[k], states[k], after)
    ensures Run(plan[..k + 1], states + [after])
  {
    hide Effect;
    forall j | 0 <= j < k + 1
      ensures Effect(plan[..k + 1][j], (states + [after])[j], (states + [after])[j + 1])
    {
      if j < k {
        assert plan[..k + 1][j] == plan[..k][j];
      }
    }
  }

  lemma NextStatementRuns(targets: seq<SchemaDef>, plan: seq<Statement>, k: nat, db: Database) returns (after: Database)
    requires AllFit(targets) && AllListed(db) && k < |plan| && PlanFor(targets, db) == Success(plan[k..])
    requires plan[k].CreateTable? ==> KeysFit(plan[k].def)
    ensures Effect(plan[k], db, after)
  {
    hide Effect, Items, Collect, AllFit;
    var i := SourceOf(Items(targets), db, 0);
    assert plan[k..][0] == plan[k];
    PlannedItemFits(Items(targets)[i], targets);
    after := PlannedStatementRuns(Items(targets)[i], plan[k], db);
  }

  predicate NewKeysFit(plan: seq<Statement>) {
    forall i :: 0 <= i < |plan| && plan[i].CreateTable? ==> KeysFit(plan[i].def)
  }

  lemma {:induction false} PrefixRuns(targets: seq<SchemaDef>, plan: seq<Statement>, db: Database, k: nat)
      returns (states: seq<Database>)
    requires WellFormed(targets) && AllFit(targets) && AllListed(db) && PlanFor(targets, db) == Success(plan)
    requires k <= |plan| && NewKeysFit(plan)
    ensures |states| == k + 1 && states[0] == db && Run(plan[..k], states)
  {
    if k == 0 {
      states := [db];
    } else {
      hide Effect, Run, PlanFor, WellFormed, AllFit;
      var before := PrefixRuns(targets, plan, db, k - 1);
      MigrationResumes(targets, plan, k - 1, before);
      var after := NextStatementRuns(targets, plan, k - 1, before[k - 1]);
      RunGoesOn(plan, k - 1, before, after);
      states := before + [after];
    }
  }

  /** A table can only be made if its foreign keys fit. */
  lemma RealizedKeysFit(def: TableDef, live: LiveTable)
    requires Realizes(def, live)
    ensures KeysFit(def)
  {
    hide Reports, ReportsIndex;
    forall n | n in def.foreignKeys ensures KeyFits(def.foreignKeys[n]) {
      assert n in WantedForeignKeys(def) && n in LiveForeignKeys(live);
      var fk := FkOfRows(live.foreignKeys[n]);
      assert NormalizeFk(fk) == NormalizeFk(def.foreignKeys[n]);
    }
  }

  lemma CarriedKeysFit(targets: seq<SchemaDef>, plan: seq<Statement>, states: seq<Database>, k: nat)
    requires WellFormed(targets) && |states| > 0 && AllListed(states[0])
    requires PlanFor(targets, states[0]) == Success(plan) && Run(plan, states)
    requires k < |plan| && plan[k].CreateTable?
    ensures KeysFit(plan[k].def)
  {
    hide Realizes, KeysFit, PlanFor, WellFormed, Items;
    assert Run(plan[..k], states[..k + 1]);
    MigrationResumes(targets, plan, k, states[..k + 1]);
    NewTableIsAbsent(targets, plan[k..], states[k]);
    assert Effect(plan[k], states[k], states[k + 1]);
    RealizedKeysFit(plan[k].def, states[k + 1][plan[k].key]);
  }

  lemma NewTableIsAbsent(targets: seq<SchemaDef>, plan: seq<Statement>, db: Database)
    requires AllListed(db) && PlanFor(targets, db) == Success(plan) && plan != [] && plan[0].CreateTable?
    ensures plan[0].key !in db
  {
    hide Items, Collect, PlanItem;
    var i := SourceOf(Items(targets), db, 0);
    var _ := PlannedBy(Items(targets)[i], db);
  }

  /**
   An accepted plan can be carried out, statement by statement, exactly when the tables it makes have
   foreign keys that refer to as many columns as they have.
  */
  lemma AcceptedPlanRunsIff(targets: seq<SchemaDef>, plan: seq<Statement>, db: Database)
    requires WellFormed(targets) && AllFit(targets) && AllListed(db) && PlanFor(targets, db) == Success(plan)
    ensures (exists states :: states != [] && states[0] == db && Run(plan, states)) <==> NewKeysFit(plan)
  {
    hide Run, AllFit, WellFormed, PlanFor, KeysFit;
    if states :| states != [] && states[0] == db && Run(plan, states) {
      forall k | 0 <= k < |plan| && plan[k].CreateTable? ensures KeysFit(plan[k].def) {
        CarriedKeysFit(targets, plan, states, k);
      }
    }
    if NewKeysFit(plan) {
      var states := PrefixRuns(targets, plan, db, |plan|);
      assert plan[..|plan|] == plan;
    }
  }
}
