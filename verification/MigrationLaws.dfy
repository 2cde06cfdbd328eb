/**
 The laws of whole migrations that `switch` relies on: it plans, may be interrupted, plans
 again, and demands an empty plan before it replaces the server images.
*/
module MigrationLaws {
  import opened Results
  import opened Schema
  import opened Migration
  import opened MigrationRun

  // ---------------------------------------------------------------- the items of a release

  predicate DistinctSpots(items: seq<Item>) {
    forall i, j :: 0 <= i < j < |items| ==> ItemSpot(items[i]) != ItemSpot(items[j])
  }

  lemma DistinctConcat(a: seq<Item>, b: seq<Item>)
    requires DistinctSpots(a) && DistinctSpots(b)
    requires forall i, j :: 0 <= i < |a| && 0 <= j < |b| ==> ItemSpot(a[i]) != ItemSpot(b[j])
    ensures DistinctSpots(a + b)
  {
  }

  lemma TableItemsDistinct(key: Key, def: TableDef)
    requires WellFormedTable(def)
    ensures DistinctSpots(TableItems(key, def))
    ensures forall i :: 0 <= i < |TableItems(key, def)| ==>
              ItemSpot(TableItems(key, def)[i]).key == key && ItemSpot(TableItems(key, def)[i]).kind < 6
  {
    var c, x := ColumnItems(key, def.columns), IndexItems(key, def.indexes);
    assert DistinctSpots(c) && DistinctSpots(x);
    var tail := [NoExtraKeys(key, def), SameForeignKeys(key, def)];
    DistinctConcat([Table(key, def)], c);
    DistinctConcat([Table(key, def)] + c, [NoExtraColumns(key, def)]);
    DistinctConcat([Table(key, def)] + c + [NoExtraColumns(key, def)], x);
    DistinctConcat([Table(key, def)] + c + [NoExtraColumns(key, def)] + x, tail);
  }

  lemma {:induction false} TablesItemsDistinct(schema: string, tables: seq<TableDef>)
    requires WellFormedTables(tables)
    ensures DistinctSpots(TablesItems(schema, tables))
    ensures forall i :: 0 <= i < |TablesItems(schema, tables)| ==>
              var s := ItemSpot(TablesItems(schema, tables)[i]);
              s.kind < 6 && s.key.schema == schema && exists k :: 0 <= k < |tables| && tables[k].name == s.key.table
  {
    if tables != [] {
      var n := |tables| - 1;
      TablesItemsDistinct(schema, tables[..n]);
      TableItemsDistinct(Key(schema, tables[n].name), tables[n]);
      DistinctConcat(TablesItems(schema, tables[..n]), TableItems(Key(schema, tables[n].name), tables[n]));
      forall i | 0 <= i < |TablesItems(schema, tables[..n])|
        ensures exists k :: 0 <= k < |tables| && tables[k].name == ItemSpot(TablesItems(schema, tables[..n])[i]).key.table
      {
        var k :| 0 <= k < n && tables[..n][k].name == ItemSpot(TablesItems(schema, tables[..n])[i]).key.table;
        assert tables[k] == tables[..n][k];
      }
    }
  }

  lemma SchemaItemsDistinct(target: SchemaDef)
    requires WellFormedTables(target.tables)
    ensures DistinctSpots(SchemaItems(target))
    ensures forall i :: 0 <= i < |SchemaItems(target)| ==> ItemSpot(SchemaItems(target)[i]).key.schema == target.name
  {
    hide TablesItems, WellFormedTables;
    TablesItemsDistinct(target.name, target.tables);
    DistinctConcat([Initialized(target.name)], TablesItems(target.name, target.tables));
  }

  lemma NoItemsDistinct()
    ensures DistinctSpots([])
  {}

  lemma {:induction false} ItemsDistinct(targets: seq<SchemaDef>)
    requires WellFormed(targets)
    ensures DistinctSpots(Items(targets))
    ensures forall i :: 0 <= i < |Items(targets)| ==>
              exists k :: 0 <= k < |targets| && targets[k].name == ItemSpot(Items(targets)[i]).key.schema
  {
    hide SchemaItems, DistinctSpots, ItemSpot, WellFormedTables;
    if targets != [] {
      var n := |targets| - 1;
      var last := targets[n];
      ItemsDistinct(targets[..n]);
      SchemaItemsDistinct(last);
      forall i | 0 <= i < |Items(targets[..n])|
        ensures exists k :: 0 <= k < n && targets[k].name == ItemSpot(Items(targets[..n])[i]).key.schema
      {
        var k :| 0 <= k < n && targets[..n][k].name == ItemSpot(Items(targets[..n])[i]).key.schema;
        assert targets[k] == targets[..n][k];
      }
      DistinctConcat(Items(targets[..n]), SchemaItems(last));
    } else {
      NoItemsDistinct();
    }
  }

  lemma {:induction false} ItemOfSomeTable(x: Item, tables: seq<TableDef>, schema: string)
    requires x in TablesItems(schema, tables)
    ensures exists k :: 0 <= k < |tables| && x in TableItems(Key(schema, tables[k].name), tables[k])
  {
    var n := |tables| - 1;
    if x !in TableItems(Key(schema, tables[n].name), tables[n]) {
      ItemOfSomeTable(x, tables[..n], schema);
      var k :| 0 <= k < n && x in TableItems(Key(schema, tables[..n][k].name), tables[..n][k]);
      assert tables[k] == tables[..n][k];
    }
  }

  lemma {:induction false} ItemOfSomeSchema(x: Item, targets: seq<SchemaDef>)
    requires x in Items(targets)
    ensures exists k :: 0 <= k < |targets| && x in SchemaItems(targets[k])
  {
    var n := |targets| - 1;
    if x !in SchemaItems(targets[n]) {
      ItemOfSomeSchema(x, targets[..n]);
      var k :| 0 <= k < n && x in SchemaItems(targets[..n][k]);
      assert targets[k] == targets[..n][k];
    }
  }

  lemma TableItemKey(x: Item, key: Key, def: TableDef)
    requires x in TableItems(key, def)
    ensures !x.Initialized? && x.key == key && (x.Table? ==> x.def == def)
  {
    TableItemCases(x, key, def);
  }

  /** All items of one table come from its one definition. */
  lemma ItemsOfOneTable(x: Item, key: Key, def: TableDef, targets: seq<SchemaDef>)
    requires WellFormed(targets)
    requires x in Items(targets) && Table(key, def) in Items(targets) && !x.Initialized? && x.key == key
    ensures x in TableItems(key, def)
  {
    hide Items, TableItems;
    ItemOfSomeSchema(x, targets);
    ItemOfSomeSchema(Table(key, def), targets);
    var s :| 0 <= s < |targets| && x in SchemaItems(targets[s]);
    var s' :| 0 <= s' < |targets| && Table(key, def) in SchemaItems(targets[s']);
    ItemOfSomeTable(x, targets[s].tables, targets[s].name);
    ItemOfSomeTable(Table(key, def), targets[s'].tables, targets[s'].name);
    var t :| 0 <= t < |targets[s].tables|
             && x in TableItems(Key(targets[s].name, targets[s].tables[t].name), targets[s].tables[t]);
    var t' :| 0 <= t' < |targets[s'].tables|
              && Table(key, def) in TableItems(Key(targets[s'].name, targets[s'].tables[t'].name), targets[s'].tables[t']);
    TableItemKey(x, Key(targets[s].name, targets[s].tables[t].name), targets[s].tables[t]);
    TableItemKey(Table(key, def), Key(targets[s'].name, targets[s'].tables[t'].name), targets[s'].tables[t']);
    assert s == s' && t == t';
  }

  // ---------------------------------------------------------------- one statement, one plan

  function PlanAll(items: seq<Item>, db: Database): (plans: seq<Plan>)
    requires AllListed(db)
    ensures |plans| == |items| && forall i :: 0 <= i < |items| ==> plans[i] == PlanItem(items[i], db)
  {
    seq(|items|, i requires 0 <= i < |items| => PlanItem(items[i], db))
  }

  /** The answers of several items one after the other. */
  function Chain(plans: seq<Plan>): Plan {
    if plans == [] then NOTHING
    else
      var before, last := Chain(plans[..|plans| - 1]), plans[|plans| - 1];
      if before.Failure? then before
      else if last.Failure? then last
      else Success(before.value + last.value)
  }

  lemma {:induction false} CollectIsChain(items: seq<Item>, db: Database)
    requires AllListed(db)
    ensures Collect(items, db) == Chain(PlanAll(items, db))
  {
    if items != [] {
      var n := |items| - 1;
      CollectIsChain(items[..n], db);
      assert PlanAll(items, db)[..n] == PlanAll(items[..n], db);
    }
  }

  lemma {:induction false} EmptyChain(plans: seq<Plan>)
    ensures Chain(plans) == NOTHING <==> forall i :: 0 <= i < |plans| ==> plans[i] == NOTHING
  {
    if plans != [] {
      var n := |plans| - 1;
      EmptyChain(plans[..n]);
      assert forall i :: 0 <= i < n ==> plans[..n][i] == plans[i];
      var none: seq<Statement> := [];
      assert none + none == none;
    }
  }

  /** Where a statement of the chain comes from. */
  lemma {:induction false} ChainSource(plans: seq<Plan>, k: nat) returns (i: nat)
    requires Chain(plans).Success? && k < |Chain(plans).value|
    ensures i < |plans| && plans[i].Success? && Chain(plans).value[k] in plans[i].value
    ensures k == 0 ==> Chain(plans).value[0] == plans[i].value[0]
    ensures k == 0 ==> forall j :: 0 <= j < i ==> plans[j] == NOTHING
  {
    var n := |plans| - 1;
    var before := Chain(plans[..n]).value;
    if k < |before| {
      i := ChainSource(plans[..n], k);
    } else {
      i := n;
      EmptyChain(plans[..n]);
      assert forall j :: 0 <= j < n ==> plans[..n][j] == plans[j];
    }
  }

  /** When the first statement is done and all else is as before, the rest of the chain remains. */
  lemma {:induction false} ChainStep(plans: seq<Plan>, plans': seq<Plan>, i: nat, s: Statement)
    requires i < |plans| == |plans'| && Chain(plans).Success?
    requires forall j :: 0 <= j < i ==> plans[j] == NOTHING
    requires plans[i] == Success([s]) && plans'[i] == NOTHING
    requires forall j :: 0 <= j < |plans| && j != i ==> plans'[j] == plans[j]
    ensures Chain(plans).value != [] && Chain(plans') == Success(Chain(plans).value[1..])
  {
    var n := |plans| - 1;
    if i < n {
      ChainStep(plans[..n], plans'[..n], i, s);
      var before, last := Chain(plans[..n]).value, plans[n].value;
      assert (before + last)[1..] == before[1..] + last;
    } else {
      EmptyChain(plans[..n]);
      EmptyChain(plans');
      assert [] + [s] == [s] && [s][1..] == [];
    }
  }

  /** An accepted plan is empty exactly when every item is fulfilled. */
  lemma EmptyPlan(items: seq<Item>, db: Database)
    requires AllListed(db)
    ensures Collect(items, db) == NOTHING <==> forall x :: x in items ==> Fulfilled(x, db)
  {
    CollectIsChain(items, db);
    EmptyChain(PlanAll(items, db));
    if Collect(items, db) == NOTHING {
      forall x | x in items
        ensures Fulfilled(x, db)
      {
        var i :| 0 <= i < |items| && items[i] == x;
        assert PlanAll(items, db)[i] == NOTHING;
      }
    } else {
      var i :| 0 <= i < |items| && PlanAll(items, db)[i] != NOTHING;
      assert items[i] in items && !Fulfilled(items[i], db);
    }
  }

  lemma SourceOf(items: seq<Item>, db: Database, k: nat) returns (i: nat)
    requires AllListed(db) && Collect(items, db).Success? && k < |Collect(items, db).value|
    ensures i < |items| && PlanItem(items[i], db) == Success([Collect(items, db).value[k]])
    ensures k == 0 ==> forall j :: 0 <= j < i ==> Fulfilled(items[j], db)
  {
    CollectIsChain(items, db);
    i := ChainSource(PlanAll(items, db), k);
    ItemPlansSafely(items[i], db);
  }

  /** No item is left behind when its table appears: the creating statement satisfies it. */
  predicate AbsentTablesFollow(items: seq<Item>, db: Database, after: Database)
    requires AllListed(db) && AllListed(after)
  {
    forall x :: x in items && !x.Initialized? && !x.Table? && x.key !in db ==> Fulfilled(x, after)
  }

  lemma StillFulfilled(items: seq<Item>, s: Statement, db: Database, after: Database)
    requires AllListed(db) && AllListed(after) && Safe(s, db) && Effect(s, db, after)
    requires AbsentTablesFollow(items, db, after) && Collect(items, db) == NOTHING
    ensures Collect(items, after) == NOTHING
  {
    EmptyPlan(items, db);
    forall x | x in items
      ensures Fulfilled(x, after)
    {
      if x.Initialized? || x.key in db {
        FulfilledStays(x, s, db, after);
      }
    }
    EmptyPlan(items, after);
  }

  /** Items about other things answer as before. */
  lemma OtherItem(x: Item, s: Statement, db: Database, after: Database)
    requires AllListed(db) && AllListed(after) && Safe(s, db) && Effect(s, db, after)
    requires PlanItem(x, db).Success? && ItemSpot(x) != SpotOf(s)
    requires AbsentTablesFollow([x], db, after)
    ensures PlanItem(x, after) == PlanItem(x, db)
  {
    assert x in [x];
    if PlanItem(x, db) != NOTHING {
      var t := PlannedBy(x, db);
      PendingStays(x, t, s, db, after);
    } else if x.Initialized? || x.key in db {
      FulfilledStays(x, s, db, after);
    }
  }

  lemma {:induction false} ChainSucceeds(plans: seq<Plan>, j: nat)
    requires Chain(plans).Success? && j < |plans|
    ensures plans[j].Success?
  {
    if j < |plans| - 1 {
      ChainSucceeds(plans[..|plans| - 1], j);
    }
  }

  /** Carrying out the first statement of a plan leaves the rest of it as the new plan. */
  lemma StepOfPlan(items: seq<Item>, s: Statement, db: Database, after: Database)
    requires AllListed(db) && AllListed(after) && DistinctSpots(items)
    requires Collect(items, db).Success? && Collect(items, db).value != [] && Collect(items, db).value[0] == s
    requires Safe(s, db) && Effect(s, db, after) && AbsentTablesFollow(items, db, after)
    ensures Collect(items, after) == Success(Collect(items, db).value[1..])
  {
    var i := SourceOf(items, db, 0);
    ItemPlansSafely(items[i], db);
    StatementFulfills(items[i], s, db, after);
    CollectIsChain(items, db);
    CollectIsChain(items, after);
    var plans, plans' := PlanAll(items, db), PlanAll(items, after);
    forall j | 0 <= j < |items| && j != i
      ensures plans'[j] == plans[j]
    {
      ChainSucceeds(plans, j);
      assert ItemSpot(items[j]) != ItemSpot(items[i]);
      OtherItem(items[j], s, db, after);
    }
    ChainStep(plans, plans', i, s);
  }

  lemma CreationSource(x: Item, s: Statement, db: Database)
    requires AllListed(db) && PlanItem(x, db) == Success([s]) && s.CreateTable?
    ensures x == Table(s.key, s.def)
  {
  }

  lemma NothingAskedOfAbsent(x: Item, db: Database)
    requires AllListed(db) && !x.Initialized? && !x.Table? && x.key !in db
    ensures Fulfilled(x, db)
  {
  }

  lemma CreationFollows(targets: seq<SchemaDef>, s: Statement, db: Database, after: Database)
    requires AllListed(db) && AllListed(after) && WellFormed(targets)
    requires PlanFor(targets, db).Success? && PlanFor(targets, db).value != [] && PlanFor(targets, db).value[0] == s
    requires Effect(s, db, after)
    ensures AbsentTablesFollow(Items(targets), db, after)
  {
    hide Items, TableItems, PlanItem, Collect, Realizes, Safe;
    var items := Items(targets);
    var i := SourceOf(items, db, 0);
    forall x | x in items && !x.Initialized? && !x.Table? && x.key !in db
      ensures Fulfilled(x, after)
    {
      if x.key !in after {
        NothingAskedOfAbsent(x, after);
      } else {
        ItemPlansSafely(items[i], db);
        assert s == CreateTable(x.key, s.def);
        CreationSource(items[i], s, db);
        ItemsOfOneTable(x, x.key, s.def, targets);
        CreatedTableFulfills(x, x.key, s.def, after);
      }
    }
  }

  // ---------------------------------------------------------------- the laws

  /**
   An interrupted migration can be rerun: after any number of its statements, in whatever way
   the server carried them out, planning again yields exactly the statements still missing.
  */
  lemma {:induction false} MigrationResumes(targets: seq<SchemaDef>, plan: seq<Statement>, k: nat, states: seq<Database>)
    requires WellFormed(targets) && |states| > 0 && AllListed(states[0])
    requires PlanFor(targets, states[0]) == Success(plan)
    requires k <= |plan| && Run(plan[..k], states)
    ensures AllListed(states[k]) && PlanFor(targets, states[k]) == Success(plan[k..])
  {
    if k == 0 {
      assert plan[0..] == plan;
    } else {
      var db, after := states[k - 1], states[k];
      assert Run(plan[..k - 1], states[..k]) by {
        assert forall i :: 0 <= i < k - 1 ==> plan[..k - 1][i] == plan[..k][i];
      }
      MigrationResumes(targets, plan, k - 1, states[..k]);
      var s := plan[k - 1];
      assert s == plan[..k][k - 1] == plan[k - 1..][0];
      EffectKeepsListed(s, db, after);
      var i := SourceOf(Items(targets), db, 0);
      var _ := PlannedBy(Items(targets)[i], db);
      ItemsDistinct(targets);
      CreationFollows(targets, s, db, after);
      StepOfPlan(Items(targets), s, db, after);
      assert plan[k - 1..][1..] == plan[k..];
    }
  }

  /** Once the whole plan is carried out, the verification plan is empty and `switch` goes on. */
  lemma MigrationConverges(targets: seq<SchemaDef>, plan: seq<Statement>, states: seq<Database>)
    requires WellFormed(targets) && |states| > 0 && AllListed(states[0])
    requires PlanFor(targets, states[0]) == Success(plan) && Run(plan, states)
    ensures AllListed(states[|plan|]) && PlanFor(targets, states[|plan|]) == NOTHING
  {
    assert plan[..|plan|] == plan;
    MigrationResumes(targets, plan, |plan|, states);
  }

  // ---------------------------------------------------------------- what an empty plan means

  /** The live column serves the release: same rules, and the same type or a wider VARCHAR. */
  predicate ColumnServes(c: Column, row: LiveColumn) {
    && row.nullable == c.nullable
    && NormalizeDefault(row.default) == c.default
    && NormalizeExtra(row.extra) == c.extra
    && SameAttribute(c.charset, row.charset)
    && SameAttribute(c.collation, row.collation)
    && NormalizeType(row.colType).Success?
    && var t := NormalizeType(row.colType).value;
       t == c.colType || (t.Varchar? && c.colType.Varchar? && t.width >= c.colType.width)
  }

  predicate TableServes(def: TableDef, live: LiveTable)
    requires Listed(live)
  {
    && live.engine == Some("InnoDB")
    && (forall i :: 0 <= i < |def.columns| ==>
          def.columns[i].name in live.columns && ColumnServes(def.columns[i], live.columns[def.columns[i].name]))
    && (forall n :: n in live.columns && n !in ColumnNames(def) ==> !BlocksWrites(live.columns[n]))
    && (forall i :: 0 <= i < |def.indexes| ==>
          def.indexes[i].name in live.indexes && ReportsIndex(def.indexes[i], live.indexes[def.indexes[i].name]))
    && (forall n :: n in live.indexes && n !in IndexNames(def) ==> !live.indexes[n][0].unique)
    && LiveForeignKeys(live) == WantedForeignKeys(def)
  }

  /** The schema is there, with every table of the release in a form that serves it. */
  predicate SchemaServes(s: SchemaDef, db: Database)
    requires AllListed(db)
  {
    && (exists k :: k in db && k.schema == s.name)
    && forall t :: 0 <= t < |s.tables| ==>
         Key(s.name, s.tables[t].name) in db && TableServes(s.tables[t], db[Key(s.name, s.tables[t].name)])
  }

  predicate Serves(targets: seq<SchemaDef>, db: Database)
    requires AllListed(db)
  {
    forall s :: 0 <= s < |targets| ==> SchemaServes(targets[s], db)
  }

  lemma ColumnServesIffSilent(key: Key, c: Column, live: LiveTable)
    ensures PlanColumn(key, c, live) == NOTHING <==> c.name in live.columns && ColumnServes(c, live.columns[c.name])
  {
  }

  lemma IndexServesIffSilent(key: Key, x: Index, live: LiveTable)
    requires Listed(live)
    ensures PlanIndex(key, x, live) == NOTHING <==> x.name in live.indexes && ReportsIndex(x, live.indexes[x.name])
  {
  }

  lemma TableFulfilledParts(key: Key, def: TableDef, db: Database)
    requires AllListed(db)
    ensures (forall x :: x in TableItems(key, def) ==> Fulfilled(x, db)) <==>
            && Fulfilled(Table(key, def), db)
            && (forall i :: 0 <= i < |def.columns| ==> Fulfilled(HasColumn(key, def.columns[i]), db))
            && Fulfilled(NoExtraColumns(key, def), db)
            && (forall i :: 0 <= i < |def.indexes| ==> Fulfilled(HasIndex(key, def.indexes[i]), db))
            && Fulfilled(NoExtraKeys(key, def), db)
            && Fulfilled(SameForeignKeys(key, def), db)
  {
    hide PlanItem;
    forall x
      ensures x in TableItems(key, def) <==>
              || x == Table(key, def)
              || (exists i :: 0 <= i < |def.columns| && x == HasColumn(key, def.columns[i]))
              || x == NoExtraColumns(key, def)
              || (exists i :: 0 <= i < |def.indexes| && x == HasIndex(key, def.indexes[i]))
              || x == NoExtraKeys(key, def)
              || x == SameForeignKeys(key, def)
    {
      TableItemCases(x, key, def);
    }
  }

  /** What the items that are neither columns nor indexes ask of a table that is there. */
  lemma ChecksServe(key: Key, def: TableDef, db: Database)
    requires AllListed(db) && key in db
    ensures Fulfilled(Table(key, def), db) <==> db[key].engine == Some("InnoDB")
    ensures Fulfilled(NoExtraColumns(key, def), db) <==>
            forall n :: n in db[key].columns && n !in ColumnNames(def) ==> !BlocksWrites(db[key].columns[n])
    ensures Fulfilled(NoExtraKeys(key, def), db) <==>
            forall n :: n in db[key].indexes && n !in IndexNames(def) ==> !db[key].indexes[n][0].unique
    ensures Fulfilled(SameForeignKeys(key, def), db) <==> LiveForeignKeys(db[key]) == WantedForeignKeys(def)
  {
    hide BlocksWrites, ColumnNames, IndexNames, LiveForeignKeys, WantedForeignKeys;
  }

  lemma PartServes(x: Item, db: Database)
    requires AllListed(db) && (x.HasColumn? || x.HasIndex?) && x.key in db
    ensures Fulfilled(x, db) <==>
            if x.HasColumn? then x.column.name in db[x.key].columns && ColumnServes(x.column, db[x.key].columns[x.column.name])
            else x.index.name in db[x.key].indexes && ReportsIndex(x.index, db[x.key].indexes[x.index.name])
  {
    hide ColumnServes, ReportsIndex, PlanColumn, PlanIndex;
    if x.HasColumn? {
      ColumnServesIffSilent(x.key, x.column, db[x.key]);
    } else {
      IndexServesIffSilent(x.key, x.index, db[x.key]);
    }
  }

  lemma TableServesIffFulfilled(key: Key, def: TableDef, db: Database)
    requires AllListed(db)
    ensures (forall x :: x in TableItems(key, def) ==> Fulfilled(x, db)) <==> key in db && TableServes(def, db[key])
  {
    hide Fulfilled, TableItems, ColumnServes, ReportsIndex, BlocksWrites, ColumnNames, IndexNames;
    TableFulfilledParts(key, def, db);
    if key in db {
      ChecksServe(key, def, db);
      forall i | 0 <= i < |def.columns|
        ensures Fulfilled(HasColumn(key, def.columns[i]), db) <==>
                def.columns[i].name in db[key].columns
                && ColumnServes(def.columns[i], db[key].columns[def.columns[i].name])
      {
        PartServes(HasColumn(key, def.columns[i]), db);
      }
      forall i | 0 <= i < |def.indexes|
        ensures Fulfilled(HasIndex(key, def.indexes[i]), db) <==>
                def.indexes[i].name in db[key].indexes
                && ReportsIndex(def.indexes[i], db[key].indexes[def.indexes[i].name])
      {
        PartServes(HasIndex(key, def.indexes[i]), db);
      }
    } else {
      AbsentTableAsks(key, def, db);
    }
  }

  lemma AbsentTableAsks(key: Key, def: TableDef, db: Database)
    requires AllListed(db) && key !in db
    ensures !Fulfilled(Table(key, def), db)
  {
  }

  lemma {:induction false} TableItemsListed(x: Item, schema: string, tables: seq<TableDef>, t: nat)
    requires t < |tables| && x in TableItems(Key(schema, tables[t].name), tables[t])
    ensures x in TablesItems(schema, tables)
  {
    if t < |tables| - 1 {
      TableItemsListed(x, schema, tables[..|tables| - 1], t);
    }
  }

  lemma FulfilledTableServes(targets: seq<SchemaDef>, db: Database, s: nat, t: nat)
    requires AllListed(db) && (forall x :: x in Items(targets) ==> Fulfilled(x, db))
    requires s < |targets| && t < |targets[s].tables|
    ensures var key := Key(targets[s].name, targets[s].tables[t].name);
            key in db && TableServes(targets[s].tables[t], db[key])
  {
    hide Fulfilled, TableServes, TableItems;
    var key := Key(targets[s].name, targets[s].tables[t].name);
    forall x | x in TableItems(key, targets[s].tables[t])
      ensures Fulfilled(x, db)
    {
      TableItemsListed(x, targets[s].name, targets[s].tables, t);
      SchemaIsListed(x, targets, s);
    }
    TableServesIffFulfilled(key, targets[s].tables[t], db);
  }

  lemma SchemaIsThereIff(name: string, db: Database)
    requires AllListed(db)
    ensures Fulfilled(Initialized(name), db) <==> exists k :: k in db && k.schema == name
  {
  }

  lemma FulfilledSchemaServes(targets: seq<SchemaDef>, db: Database, s: nat)
    requires AllListed(db) && (forall x :: x in Items(targets) ==> Fulfilled(x, db)) && s < |targets|
    ensures SchemaServes(targets[s], db)
  {
    hide Fulfilled, TableServes, TableItems, Items;
    assert Initialized(targets[s].name) == SchemaItems(targets[s])[0];
    SchemaIsListed(Initialized(targets[s].name), targets, s);
    SchemaIsThereIff(targets[s].name, db);
    forall t | 0 <= t < |targets[s].tables|
      ensures Key(targets[s].name, targets[s].tables[t].name) in db
              && TableServes(targets[s].tables[t], db[Key(targets[s].name, targets[s].tables[t].name)])
    {
      FulfilledTableServes(targets, db, s, t);
    }
  }

  lemma ServedItemIsFulfilled(targets: seq<SchemaDef>, db: Database, x: Item)
    requires AllListed(db) && Serves(targets, db) && x in Items(targets)
    ensures Fulfilled(x, db)
  {
    hide Fulfilled, TableServes, TableItems, Items;
    ItemOfSomeSchema(x, targets);
    var s :| 0 <= s < |targets| && x in SchemaItems(targets[s]);
    if x in TablesItems(targets[s].name, targets[s].tables) {
      ItemOfSomeTable(x, targets[s].tables, targets[s].name);
      var t :| 0 <= t < |targets[s].tables|
               && x in TableItems(Key(targets[s].name, targets[s].tables[t].name), targets[s].tables[t]);
      TableServesIffFulfilled(Key(targets[s].name, targets[s].tables[t].name), targets[s].tables[t], db);
    } else {
      SchemaIsThereIff(targets[s].name, db);
    }
  }

  /** The planner's silence is exact: it has nothing to say precisely when the database serves the release. */
  lemma EmptyPlanIffServes(targets: seq<SchemaDef>, db: Database)
    requires AllListed(db)
    ensures PlanFor(targets, db) == NOTHING <==> Serves(targets, db)
  {
    hide Fulfilled, TableServes, TableItems, Items, Collect;
    EmptyPlan(Items(targets), db);
    if forall x :: x in Items(targets) ==> Fulfilled(x, db) {
      forall s | 0 <= s < |targets| ensures SchemaServes(targets[s], db) {
        FulfilledSchemaServes(targets, db, s);
      }
    }
    if Serves(targets, db) {
      forall x | x in Items(targets)
        ensures Fulfilled(x, db)
      {
        ServedItemIsFulfilled(targets, db, x);
      }
    }
  }

  // ---------------------------------------------------------------- earlier releases

  /** A column that has at most become wider; `Canonical` names make utf8 and utf8mb3 the same. */
  predicate KeepsColumn(row: LiveColumn, row': LiveColumn) {
    && row'.nullable == row.nullable
    && NormalizeDefault(row'.default) == NormalizeDefault(row.default)
    && NormalizeExtra(row'.extra) == NormalizeExtra(row.extra)
    && Canonical(row'.charset) == Canonical(row.charset)
    && Canonical(row'.collation) == Canonical(row.collation)
    && (NormalizeType(row'.colType) == NormalizeType(row.colType)
        || (&& NormalizeType(row.colType).Success? && NormalizeType(row'.colType).Success?
            && NormalizeType(row.colType).value.Varchar? && NormalizeType(row'.colType).value.Varchar?
            && NormalizeType(row.colType).value.width <= NormalizeType(row'.colType).value.width))
  }

  /** Nothing is dropped, narrowed or redefined between the two databases. */
  predicate Extends(db: Database, after: Database) {
    forall k :: k in db ==>
      && k in after
      && after[k].engine == db[k].engine
      && (forall c :: c in db[k].columns ==>
            c in after[k].columns && KeepsColumn(db[k].columns[c], after[k].columns[c]))
      && (forall n :: n in db[k].indexes ==> n in after[k].indexes && after[k].indexes[n] == db[k].indexes[n])
      && after[k].foreignKeys == db[k].foreignKeys
  }

  /** A planned widening keeps the column but for its width. */
  lemma WideningKeeps(c: Column, row: LiveColumn, row': LiveColumn)
    requires Reports(c, row') && row.nullable == c.nullable
    requires NormalizeDefault(row.default) == c.default && NormalizeExtra(row.extra) == c.extra
    requires c.charset == row.charset && c.charset.Some? && c.collation == row.collation && c.collation.Some?
    requires c.colType.Varchar? && NormalizeType(row.colType).Success? && NormalizeType(row.colType).value.Varchar?
    requires NormalizeType(row.colType).value.width < c.colType.width
    ensures KeepsColumn(row, row')
  {
    hide NormalizeType, NormalizeDefault, NormalizeExtra;
  }

  lemma SameColumnKeeps(row: LiveColumn)
    ensures KeepsColumn(row, row)
  {
  }

  lemma ColumnKept(s: Statement, db: Database, after: Database, k: Key, n: string)
    requires Safe(s, db) && Effect(s, db, after) && k in db && n in db[k].columns
    ensures k in after && n in after[k].columns && KeepsColumn(db[k].columns[n], after[k].columns[n])
  {
    hide NormalizeType, NormalizeDefault, NormalizeExtra, Reports, ReportsIndex, Realizes, KeepsColumn;
    if s.ModifyColumn? && k == s.key && n == s.column.name {
      WideningKeeps(s.column, db[k].columns[n], after[k].columns[n]);
    } else {
      assert after[k].columns[n] == db[k].columns[n];
      SameColumnKeeps(db[k].columns[n]);
    }
  }

  lemma RestKept(s: Statement, db: Database, after: Database, k: Key)
    requires Safe(s, db) && Effect(s, db, after) && k in db
    ensures k in after && after[k].engine == db[k].engine && after[k].foreignKeys == db[k].foreignKeys
    ensures forall n :: n in db[k].indexes ==> n in after[k].indexes && after[k].indexes[n] == db[k].indexes[n]
  {
    hide NormalizeType, NormalizeDefault, NormalizeExtra, Reports, ReportsIndex, Realizes;
    if k != s.key || s.CreateTable? {
      UntouchedTable(k, s, db, after);
    }
  }

  lemma SafeStatementExtends(s: Statement, db: Database, after: Database)
    requires Safe(s, db) && Effect(s, db, after)
    ensures Extends(db, after)
  {
    hide Safe, Effect, KeepsColumn;
    forall k | k in db
      ensures k in after && after[k].engine == db[k].engine && after[k].foreignKeys == db[k].foreignKeys
      ensures forall n :: n in db[k].indexes ==> n in after[k].indexes && after[k].indexes[n] == db[k].indexes[n]
    {
      RestKept(s, db, after, k);
    }
    forall k, n | k in db && n in db[k].columns
      ensures k in after && n in after[k].columns && KeepsColumn(db[k].columns[n], after[k].columns[n])
    {
      ColumnKept(s, db, after, k, n);
    }
  }

  lemma KeepsTransitive(a: LiveColumn, b: LiveColumn, c: LiveColumn)
    requires KeepsColumn(a, b) && KeepsColumn(b, c)
    ensures KeepsColumn(a, c)
  {
    hide NormalizeType, NormalizeDefault, NormalizeExtra, Canonical;
  }

  lemma ExtendsTransitive(a: Database, b: Database, c: Database)
    requires Extends(a, b) && Extends(b, c)
    ensures Extends(a, c)
  {
    hide KeepsColumn;
    forall k, n | k in a && n in a[k].columns
      ensures k in c && n in c[k].columns && KeepsColumn(a[k].columns[n], c[k].columns[n])
    {
      assert n in b[k].columns;
      KeepsTransitive(a[k].columns[n], b[k].columns[n], c[k].columns[n]);
    }
    forall k, n | k in a && n in a[k].indexes
      ensures k in c && n in c[k].indexes && c[k].indexes[n] == a[k].indexes[n]
    {
      assert n in b[k].indexes;
    }
  }

  lemma {:induction false} TableIsListed(schema: string, tables: seq<TableDef>, t: nat)
    requires t < |tables|
    ensures Table(Key(schema, tables[t].name), tables[t]) in TablesItems(schema, tables)
  {
    var n := |tables| - 1;
    if t == n {
      assert TableItems(Key(schema, tables[n].name), tables[n])[0] == Table(Key(schema, tables[n].name), tables[n]);
    } else {
      TableIsListed(schema, tables[..n], t);
    }
  }

  lemma {:induction false} SchemaIsListed(x: Item, targets: seq<SchemaDef>, s: nat)
    requires s < |targets| && x in SchemaItems(targets[s])
    ensures x in Items(targets)
  {
    if s < |targets| - 1 {
      SchemaIsListed(x, targets[..|targets| - 1], s);
    }
  }

  /** A release with an empty plan has all its tables. */
  lemma TablesPresent(targets: seq<SchemaDef>, db: Database)
    requires AllListed(db) && PlanFor(targets, db) == NOTHING
    ensures forall x :: x in Items(targets) && !x.Initialized? ==> x.key in db
  {
    hide Collect, Items, TableItems, Fulfilled;
    EmptyPlan(Items(targets), db);
    forall x | x in Items(targets) && !x.Initialized?
      ensures x.key in db
    {
      ItemOfSomeSchema(x, targets);
      var s :| 0 <= s < |targets| && x in SchemaItems(targets[s]);
      ItemOfSomeTable(x, targets[s].tables, targets[s].name);
      var t :| 0 <= t < |targets[s].tables|
               && x in TableItems(Key(targets[s].name, targets[s].tables[t].name), targets[s].tables[t]);
      TableIsListed(targets[s].name, targets[s].tables, t);
      var table := Table(Key(targets[s].name, targets[s].tables[t].name), targets[s].tables[t]);
      SchemaIsListed(table, targets, s);
      TableItemKey(x, table.key, table.def);
      if table.key !in db {
        AbsentTableAsks(table.key, table.def, db);
      }
    }
  }

  lemma ExtendsItself(db: Database)
    ensures Extends(db, db)
  {
  }

  /** With all its tables there, nothing of a release waits for one to appear. */
  lemma NothingAwaited(targets: seq<SchemaDef>, db: Database, after: Database)
    requires AllListed(db) && AllListed(after)
    requires forall x :: x in Items(targets) && !x.Initialized? ==> x.key in db
    ensures AbsentTablesFollow(Items(targets), db, after)
  {
    hide PlanItem;
  }

  /**
   Upgrading to another release keeps the earlier one usable: whatever part of the accepted
   plan has been carried out, the earlier release still has an empty plan, and nothing it
   could have relied on was dropped or narrowed.
  */
  lemma {:induction false} UpgradeKeepsEarlierRelease(
      earlier: seq<SchemaDef>, release: seq<SchemaDef>, plan: seq<Statement>, k: nat, states: seq<Database>)
    requires WellFormed(release) && |states| > 0 && AllListed(states[0])
    requires PlanFor(earlier, states[0]) == NOTHING
    requires PlanFor(release, states[0]) == Success(plan)
    requires k <= |plan| && Run(plan[..k], states)
    ensures AllListed(states[k]) && PlanFor(earlier, states[k]) == NOTHING && Extends(states[0], states[k])
  {
    hide Effect, Safe, PlanItem, Collect, Items, Extends, WellFormed;
    if k == 0 {
      ExtendsItself(states[0]);
    } else {
      var db, after := states[k - 1], states[k];
      assert Run(plan[..k - 1], states[..k]) by {
        assert forall i :: 0 <= i < k - 1 ==> plan[..k - 1][i] == plan[..k][i];
      }
      UpgradeKeepsEarlierRelease(earlier, release, plan, k - 1, states[..k]);
      MigrationResumes(release, plan, k - 1, states[..k]);
      var s := plan[k - 1];
      assert s == plan[..k][k - 1] == plan[k - 1..][0];
      EffectKeepsListed(s, db, after);
      var i := SourceOf(Items(release), db, 0);
      ItemPlansSafely(Items(release)[i], db);
      EmptyPlan(Items(earlier), db);
      TablesPresent(earlier, db);
      NothingAwaited(earlier, db, after);
      StillFulfilled(Items(earlier), s, db, after);
      SafeStatementExtends(s, db, after);
      ExtendsTransitive(states[0], db, after);
    }
  }
}
