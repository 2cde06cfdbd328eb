/**
 When the planner accepts a release and which statements it then plans, in terms of the release's
 definitions and the live schema alone.
*/
module MigrationAccepts {
  import opened Results
  import opened Schema
  import opened Migration
  import opened MigrationRun
  import opened MigrationLaws

  // ---------------------------------------------------------------- what is acceptable

  /** The live column obeys the same rules as the release's, whatever its type. */
  predicate SameRules(c: Column, row: LiveColumn) {
    && row.nullable == c.nullable
    && NormalizeDefault(row.default) == c.default
    && NormalizeExtra(row.extra) == c.extra
    && (c.charset.Some? ==> Canonical(row.charset) == Canonical(c.charset))
    && (c.collation.Some? ==> Canonical(row.collation) == Canonical(c.collation))
  }

  /** The same rules, and the same type or a wider VARCHAR. */
  predicate ColumnFits(c: Column, row: LiveColumn) {
    && SameRules(c, row)
    && NormalizeType(row.colType).Success?
    && var t := NormalizeType(row.colType).value;
       t == c.colType || (t.Varchar? && c.colType.Varchar? && c.colType.width <= t.width)
  }

  /** A narrower VARCHAR with the same rules, in a character set and collation with plain names. */
  predicate ColumnWidens(c: Column, row: LiveColumn) {
    && SameRules(c, row)
    && NormalizeType(row.colType).Success?
    && NormalizeType(row.colType).value.Varchar? && c.colType.Varchar?
    && NormalizeType(row.colType).value.width < c.colType.width
    && row.charset.Some? && IsIdentifier(row.charset.value)
    && row.collation.Some? && IsIdentifier(row.collation.value)
  }

  /** A missing column can be added when rows that do not mention it get a value. */
  predicate ColumnAcceptable(c: Column, live: LiveTable) {
    if c.name !in live.columns then (c.nullable || c.default.Some?) && c.extra == ""
    else ColumnFits(c, live.columns[c.name]) || ColumnWidens(c, live.columns[c.name])
  }

  predicate IndexAgrees(x: Index, rows: seq<IndexRow>) {
    && |rows| > 0 && rows[0].unique == x.unique && |rows| == |x.columns|
    && forall i :: 0 <= i < |rows| ==> rows[i].column == x.columns[i]
  }

  /** A missing index can be added when it rejects nothing. */
  predicate IndexAcceptable(x: Index, live: LiveTable) {
    if x.name !in live.indexes then !x.unique else IndexAgrees(x, live.indexes[x.name])
  }

  /** NO ACTION and RESTRICT both check at once. */
  predicate RulesAgree(a: string, b: string) {
    a == b || (a in ["NO ACTION", "RESTRICT"] && b in ["NO ACTION", "RESTRICT"])
  }

  predicate ForeignKeyAgrees(fk: ForeignKey, rows: seq<FkRow>)
    requires rows != []
  {
    && |rows| == |fk.columns| == |fk.refColumns|
    && (forall i :: 0 <= i < |rows| ==> rows[i].column == fk.columns[i] && rows[i].refColumn == fk.refColumns[i])
    && rows[0].refSchema == fk.refSchema && rows[0].refTable == fk.refTable
    && RulesAgree(rows[0].onDelete, fk.onDelete) && RulesAgree(rows[0].onUpdate, fk.onUpdate)
  }

  /** Rows that do not mention the column get a value. */
  predicate FillsItself(row: LiveColumn) {
    row.nullable || NormalizeDefault(row.default).Some? || row.extra == "auto_increment"
  }

  predicate HasColumnNamed(def: TableDef, n: string) { exists i :: 0 <= i < |def.columns| && def.columns[i].name == n }

  predicate HasIndexNamed(def: TableDef, n: string) { exists i :: 0 <= i < |def.indexes| && def.indexes[i].name == n }

  predicate TableAcceptable(def: TableDef, live: LiveTable)
    requires Listed(live)
  {
    && live.engine == Some("InnoDB")
    && (forall i :: 0 <= i < |def.columns| ==> ColumnAcceptable(def.columns[i], live))
    && (forall n :: n in live.columns ==> HasColumnNamed(def, n) || FillsItself(live.columns[n]))
    && (forall i :: 0 <= i < |def.indexes| ==> IndexAcceptable(def.indexes[i], live))
    && (forall n :: n in live.indexes ==> HasIndexNamed(def, n) || !live.indexes[n][0].unique)
    && live.foreignKeys.Keys == def.foreignKeys.Keys
    && (forall n :: n in live.foreignKeys ==> ForeignKeyAgrees(def.foreignKeys[n], live.foreignKeys[n]))
  }

  /** The schema is there, and each of its tables is absent or acceptable. */
  predicate Acceptable(s: SchemaDef, db: Database)
    requires AllListed(db)
  {
    && (exists k :: k in db && k.schema == s.name)
    && forall t :: 0 <= t < |s.tables| ==>
         Key(s.name, s.tables[t].name) in db ==> TableAcceptable(s.tables[t], db[Key(s.name, s.tables[t].name)])
  }

  // ---------------------------------------------------------------- what is asked for

  /** The statement makes up for what one table lacks, and for nothing else. */
  predicate TableLacks(key: Key, def: TableDef, db: Database, s: Statement) {
    if key !in db then s == CreateTable(key, def)
    else
      || (exists i :: 0 <= i < |def.columns| && def.columns[i].name !in db[key].columns && s == AddColumn(key, def.columns[i]))
      || (exists i :: 0 <= i < |def.columns| && def.columns[i].name in db[key].columns
            && ColumnWidens(def.columns[i], db[key].columns[def.columns[i].name])
            && s == ModifyColumn(key, Widened(def.columns[i], db[key].columns[def.columns[i].name])))
      || (exists i :: 0 <= i < |def.indexes| && def.indexes[i].name !in db[key].indexes && s == AddIndex(key, def.indexes[i]))
  }

  /** The release's column in the live character set and collation. */
  function Widened(c: Column, row: LiveColumn): Column {
    Column(c.name, c.colType, c.nullable, c.default, c.extra, row.charset, row.collation)
  }

  predicate Lacks(targets: seq<SchemaDef>, db: Database, s: Statement) {
    exists k, t :: 0 <= k < |targets| && 0 <= t < |targets[k].tables|
                   && TableLacks(Key(targets[k].name, targets[k].tables[t].name), targets[k].tables[t], db, s)
  }

  // ---------------------------------------------------------------- one item

  lemma ColumnPlan(key: Key, c: Column, live: LiveTable)
    ensures PlanColumn(key, c, live).Success? <==> ColumnAcceptable(c, live)
    ensures forall s :: PlanColumn(key, c, live) == Success([s]) <==>
              && ColumnAcceptable(c, live)
              && if c.name !in live.columns then s == AddColumn(key, c)
                 else ColumnWidens(c, live.columns[c.name]) && s == ModifyColumn(key, Widened(c, live.columns[c.name]))
  {
  }

  lemma IndexPlan(key: Key, x: Index, live: LiveTable)
    requires Listed(live)
    ensures PlanIndex(key, x, live).Success? <==> IndexAcceptable(x, live)
    ensures forall s :: PlanIndex(key, x, live) == Success([s]) <==>
              IndexAcceptable(x, live) && x.name !in live.indexes && s == AddIndex(key, x)
  {
    if x.name in live.indexes {
      var rows := live.indexes[x.name];
      assert IndexColumns(rows) == x.columns <==> |rows| == |x.columns| && forall i :: 0 <= i < |rows| ==> rows[i].column == x.columns[i];
    }
  }

  // ---------------------------------------------------------------- one table

  lemma TableAllSucceed(key: Key, def: TableDef, db: Database)
    requires AllListed(db)
    ensures (forall x :: x in TableItems(key, def) ==> PlanItem(x, db).Success?) <==>
            && PlanItem(Table(key, def), db).Success?
            && (forall i :: 0 <= i < |def.columns| ==> PlanItem(HasColumn(key, def.columns[i]), db).Success?)
            && PlanItem(NoExtraColumns(key, def), db).Success?
            && (forall i :: 0 <= i < |def.indexes| ==> PlanItem(HasIndex(key, def.indexes[i]), db).Success?)
            && PlanItem(NoExtraKeys(key, def), db).Success?
            && PlanItem(SameForeignKeys(key, def), db).Success?
  {
    hide PlanItem;
    forall x
      ensures x in TableItems(key, def) <==>
              || x == Table(key, def)
              || (exists i :: 0 <= i < |def.columns| && x == HasColumn(key, def.columns[i]))
              || x == NoExtraColumns(key, def)
              || (exists i :: 0 <= i < |def.indexes| && x == HasIndex(key, def.indexes[i]))
              || x == NoExtraKeys(key, def)
              || x == SameForeignKeys(key, def)
    {
      TableItemCases(x, key, def);
    }
  }

  lemma CheckItems(key: Key, def: TableDef, db: Database)
    requires AllListed(db) && key in db
    ensures PlanItem(Table(key, def), db).Success? <==> db[key].engine == Some("InnoDB")
    ensures PlanItem(NoExtraColumns(key, def), db).Success? <==>
            forall n :: n in db[key].columns ==> HasColumnNamed(def, n) || FillsItself(db[key].columns[n])
    ensures PlanItem(NoExtraKeys(key, def), db).Success? <==>
            forall n :: n in db[key].indexes ==> HasIndexNamed(def, n) || !db[key].indexes[n][0].unique
    ensures PlanItem(SameForeignKeys(key, def), db).Success? <==>
            && db[key].foreignKeys.Keys == def.foreignKeys.Keys
            && forall n :: n in db[key].foreignKeys ==> ForeignKeyAgrees(def.foreignKeys[n], db[key].foreignKeys[n])
  {
    var live := db[key];
    NamesAre(def);
    forall n | n in live.columns ensures BlocksWrites(live.columns[n]) <==> !FillsItself(live.columns[n]) {
    }
    ForeignKeysAgree(def, live);
    hide BlocksWrites, FillsItself, ColumnNames, IndexNames, LiveForeignKeys, WantedForeignKeys, ForeignKeyAgrees, HasColumnNamed, HasIndexNamed;
  }

  lemma NamesAre(def: TableDef)
    ensures forall n :: n in ColumnNames(def) <==> HasColumnNamed(def, n)
    ensures forall n :: n in IndexNames(def) <==> HasIndexNamed(def, n)
  {
  }

  lemma NormalFormsAgreeIff(fk: ForeignKey, rows: seq<FkRow>)
    requires rows != []
    ensures NormalizeFk(FkOfRows(rows)) == NormalizeFk(fk) <==> ForeignKeyAgrees(fk, rows)
  {
    var reported := FkOfRows(rows);
    assert reported.columns == fk.columns <==> |rows| == |fk.columns| && forall i :: 0 <= i < |rows| ==> rows[i].column == fk.columns[i];
    assert reported.refColumns == fk.refColumns <==>
           |rows| == |fk.refColumns| && forall i :: 0 <= i < |rows| ==> rows[i].refColumn == fk.refColumns[i];
  }

  lemma ForeignKeysAgree(def: TableDef, live: LiveTable)
    requires Listed(live)
    ensures LiveForeignKeys(live) == WantedForeignKeys(def) <==>
            && live.foreignKeys.Keys == def.foreignKeys.Keys
            && forall n :: n in live.foreignKeys ==> ForeignKeyAgrees(def.foreignKeys[n], live.foreignKeys[n])
  {
    hide ForeignKeyAgrees, NormalizeFk, FkOfRows;
    var reported, wanted := LiveForeignKeys(live), WantedForeignKeys(def);
    assert reported.Keys == live.foreignKeys.Keys && wanted.Keys == def.foreignKeys.Keys;
    forall n | n in live.foreignKeys && n in def.foreignKeys
      ensures reported[n] == wanted[n] <==> ForeignKeyAgrees(def.foreignKeys[n], live.foreignKeys[n])
    {
      NormalFormsAgreeIff(def.foreignKeys[n], live.foreignKeys[n]);
    }
    if reported == wanted {
      forall n | n in live.foreignKeys ensures ForeignKeyAgrees(def.foreignKeys[n], live.foreignKeys[n]) {
        assert n in reported && n in wanted;
      }
    }
  }

  lemma PartItem(x: Item, db: Database)
    requires AllListed(db) && (x.HasColumn? || x.HasIndex?) && x.key in db
    ensures PlanItem(x, db) == if x.HasColumn? then PlanColumn(x.key, x.column, db[x.key]) else PlanIndex(x.key, x.index, db[x.key])
  {
    hide PlanColumn, PlanIndex;
  }

  lemma AbsentItem(x: Item, db: Database)
    requires AllListed(db) && !x.Initialized? && x.key !in db
    ensures PlanItem(x, db) == if x.Table? then Success([CreateTable(x.key, x.def)]) else NOTHING
  {
  }

  lemma TableSucceedsIff(key: Key, def: TableDef, db: Database)
    requires AllListed(db)
    ensures (forall x :: x in TableItems(key, def) ==> PlanItem(x, db).Success?) <==>
            (key in db ==> TableAcceptable(def, db[key]))
  {
    hide PlanItem, TableItems, PlanColumn, PlanIndex, ColumnAcceptable, IndexAcceptable, FillsItself, HasColumnNamed, HasIndexNamed,
         ForeignKeyAgrees;
    TableAllSucceed(key, def, db);
    if key in db {
      CheckItems(key, def, db);
      forall i | 0 <= i < |def.columns|
        ensures PlanItem(HasColumn(key, def.columns[i]), db).Success? <==> ColumnAcceptable(def.columns[i], db[key])
      {
        PartItem(HasColumn(key, def.columns[i]), db);
        ColumnPlan(key, def.columns[i], db[key]);
      }
      forall i | 0 <= i < |def.indexes|
        ensures PlanItem(HasIndex(key, def.indexes[i]), db).Success? <==> IndexAcceptable(def.indexes[i], db[key])
      {
        PartItem(HasIndex(key, def.indexes[i]), db);
        IndexPlan(key, def.indexes[i], db[key]);
      }
    } else {
      forall x | x in TableItems(key, def) ensures PlanItem(x, db).Success? {
        TableItemKey(x, key, def);
        AbsentItem(x, db);
      }
    }
  }

  /** Some item of the table plans the statement. */
  predicate PlannedIn(items: seq<Item>, db: Database, s: Statement)
    requires AllListed(db)
  {
    exists x :: x in items && PlanItem(x, db) == Success([s])
  }

  lemma ItemLacks(x: Item, key: Key, def: TableDef, db: Database, s: Statement)
    requires AllListed(db) && x in TableItems(key, def) && PlanItem(x, db) == Success([s])
    ensures TableLacks(key, def, db, s)
  {
    hide TableItems, PlanColumn, PlanIndex, ColumnWidens, ColumnAcceptable, IndexAcceptable;
    TableItemCases(x, key, def);
    if key !in db {
      AbsentItem(x, db);
    } else if x.HasColumn? {
      PartItem(x, db);
      ColumnPlan(key, x.column, db[key]);
    } else if x.HasIndex? {
      PartItem(x, db);
      IndexPlan(key, x.index, db[key]);
    }
  }

  lemma ColumnIsPlanned(key: Key, def: TableDef, db: Database, i: nat, s: Statement)
    requires AllListed(db) && key in db && i < |def.columns| && ColumnAcceptable(def.columns[i], db[key])
    requires var c := def.columns[i];
             if c.name !in db[key].columns then s == AddColumn(key, c)
             else ColumnWidens(c, db[key].columns[c.name]) && s == ModifyColumn(key, Widened(c, db[key].columns[c.name]))
    ensures PlannedIn(TableItems(key, def), db, s)
  {
    hide TableItems, PlanColumn, ColumnWidens, ColumnAcceptable;
    var x := HasColumn(key, def.columns[i]);
    TableItemCases(x, key, def);
    PartItem(x, db);
    ColumnPlan(key, def.columns[i], db[key]);
  }

  lemma IndexIsPlanned(key: Key, def: TableDef, db: Database, i: nat)
    requires AllListed(db) && key in db && i < |def.indexes| && IndexAcceptable(def.indexes[i], db[key])
    requires def.indexes[i].name !in db[key].indexes
    ensures PlannedIn(TableItems(key, def), db, AddIndex(key, def.indexes[i]))
  {
    hide TableItems, PlanIndex, IndexAcceptable;
    var x := HasIndex(key, def.indexes[i]);
    TableItemCases(x, key, def);
    PartItem(x, db);
    IndexPlan(key, def.indexes[i], db[key]);
  }

  lemma TablePlansIff(key: Key, def: TableDef, db: Database, s: Statement)
    requires AllListed(db) && (key in db ==> TableAcceptable(def, db[key]))
    ensures PlannedIn(TableItems(key, def), db, s) <==> TableLacks(key, def, db, s)
  {
    hide TableItems, PlanItem, ColumnWidens, ColumnAcceptable, IndexAcceptable;
    if PlannedIn(TableItems(key, def), db, s) {
      var x :| x in TableItems(key, def) && PlanItem(x, db) == Success([s]);
      ItemLacks(x, key, def, db, s);
    }
    if TableLacks(key, def, db, s) {
      if key !in db {
        TableItemCases(Table(key, def), key, def);
        AbsentItem(Table(key, def), db);
      } else if s.AddIndex? {
        var i :| 0 <= i < |def.indexes| && def.indexes[i].name !in db[key].indexes && s == AddIndex(key, def.indexes[i]);
        IndexIsPlanned(key, def, db, i);
      } else if s.AddColumn? {
        var i :| 0 <= i < |def.columns| && def.columns[i].name !in db[key].columns && s == AddColumn(key, def.columns[i]);
        ColumnIsPlanned(key, def, db, i, s);
      } else {
        var i :| 0 <= i < |def.columns| && def.columns[i].name in db[key].columns
                 && ColumnWidens(def.columns[i], db[key].columns[def.columns[i].name])
                 && s == ModifyColumn(key, Widened(def.columns[i], db[key].columns[def.columns[i].name]));
        ColumnIsPlanned(key, def, db, i, s);
      }
    }
  }

  // ---------------------------------------------------------------- lists of items

  lemma {:induction false} CollectSucceedsIff(items: seq<Item>, db: Database)
    requires AllListed(db)
    ensures Collect(items, db).Success? <==> forall x :: x in items ==> PlanItem(x, db).Success?
  {
    hide PlanItem;
    if items != [] {
      var n := |items| - 1;
      CollectSucceedsIff(items[..n], db);
      assert items == items[..n] + [items[n]];
    }
  }

  lemma ItemPlansAtMostOne(x: Item, db: Database, s: Statement)
    requires AllListed(db) && PlanItem(x, db).Success?
    ensures s in PlanItem(x, db).value <==> PlanItem(x, db) == Success([s])
    ensures s in PlanItem(x, db).value ==> SpotOf(s) == ItemSpot(x)
  {
    if PlanItem(x, db).value != [] {
      ItemPlansSafely(x, db);
    }
  }

  lemma {:induction false} CollectedIff(items: seq<Item>, db: Database, s: Statement)
    requires AllListed(db) && Collect(items, db).Success?
    ensures s in Collect(items, db).value <==> PlannedIn(items, db, s)
  {
    hide PlanItem;
    if items != [] {
      var n := |items| - 1;
      CollectedIff(items[..n], db, s);
      ItemPlansAtMostOne(items[n], db, s);
      assert items == items[..n] + [items[n]];
    }
  }

  /** Each thing of a release gets at most one statement. */
  lemma {:induction false} SpotsOfPlan(items: seq<Item>, db: Database)
    requires AllListed(db) && Collect(items, db).Success? && DistinctSpots(items)
    ensures forall i, j :: 0 <= i < j < |Collect(items, db).value| ==>
              SpotOf(Collect(items, db).value[i]) != SpotOf(Collect(items, db).value[j])
  {
    hide PlanItem, SpotOf, ItemSpot;
    if items != [] {
      var n := |items| - 1;
      SpotsOfPlan(items[..n], db);
      var before, more := Collect(items[..n], db).value, PlanItem(items[n], db).value;
      if more != [] {
        var s := more[0];
        assert s in more;
        ItemPlansAtMostOne(items[n], db, s);
        forall i | 0 <= i < |before| ensures SpotOf(before[i]) != SpotOf(s) {
          assert before[i] in before;
          CollectedIff(items[..n], db, before[i]);
          var x :| x in items[..n] && PlanItem(x, db) == Success([before[i]]);
          ItemPlansAtMostOne(x, db, before[i]);
        }
      }
    }
  }

  // ---------------------------------------------------------------- whole releases

  lemma ItemOfRelease(x: Item, targets: seq<SchemaDef>)
    ensures x in Items(targets) <==>
            exists k :: 0 <= k < |targets|
              && (x == Initialized(targets[k].name)
                  || exists t :: 0 <= t < |targets[k].tables|
                       && x in TableItems(Key(targets[k].name, targets[k].tables[t].name), targets[k].tables[t]))
  {
    hide TableItems, Items;
    if x in Items(targets) {
      ItemOfSomeSchema(x, targets);
      var k :| 0 <= k < |targets| && x in SchemaItems(targets[k]);
      if x != Initialized(targets[k].name) {
        ItemOfSomeTable(x, targets[k].tables, targets[k].name);
      }
    }
    forall k, t | 0 <= k < |targets| && 0 <= t < |targets[k].tables|
                  && x in TableItems(Key(targets[k].name, targets[k].tables[t].name), targets[k].tables[t])
      ensures x in Items(targets)
    {
      TableItemsListed(x, targets[k].name, targets[k].tables, t);
      SchemaIsListed(x, targets, k);
    }
    forall k | 0 <= k < |targets| && x == Initialized(targets[k].name) ensures x in Items(targets) {
      assert x == SchemaItems(targets[k])[0];
      SchemaIsListed(x, targets, k);
    }
  }

  lemma SchemaItemSucceeds(name: string, db: Database)
    requires AllListed(db)
    ensures PlanItem(Initialized(name), db).Success? <==> exists k :: k in db && k.schema == name
    ensures forall s :: PlanItem(Initialized(name), db) != Success([s])
  {
  }

  /**
   Planning succeeds exactly when each schema is there and each of its tables is absent or acceptable.
  */
  lemma PlanAcceptedIff(targets: seq<SchemaDef>, db: Database)
    requires AllListed(db)
    ensures PlanFor(targets, db).Success? <==> forall k :: 0 <= k < |targets| ==> Acceptable(targets[k], db)
  {
    hide PlanItem, TableItems, Items, TableAcceptable, Collect;
    CollectSucceedsIff(Items(targets), db);
    if forall x :: x in Items(targets) ==> PlanItem(x, db).Success? {
      forall k | 0 <= k < |targets| ensures Acceptable(targets[k], db) {
        ItemOfRelease(Initialized(targets[k].name), targets);
        SchemaItemSucceeds(targets[k].name, db);
        forall t | 0 <= t < |targets[k].tables|
          ensures Key(targets[k].name, targets[k].tables[t].name) in db ==>
                    TableAcceptable(targets[k].tables[t], db[Key(targets[k].name, targets[k].tables[t].name)])
        {
          var key := Key(targets[k].name, targets[k].tables[t].name);
          forall x | x in TableItems(key, targets[k].tables[t]) ensures PlanItem(x, db).Success? {
            ItemOfRelease(x, targets);
          }
          TableSucceedsIff(key, targets[k].tables[t], db);
        }
      }
    }
    if forall k :: 0 <= k < |targets| ==> Acceptable(targets[k], db) {
      forall x | x in Items(targets) ensures PlanItem(x, db).Success? {
        AcceptableItem(x, targets, db);
      }
    }
  }

  lemma AcceptableItem(x: Item, targets: seq<SchemaDef>, db: Database)
    requires AllListed(db) && x in Items(targets) && forall k :: 0 <= k < |targets| ==> Acceptable(targets[k], db)
    ensures PlanItem(x, db).Success?
  {
    hide PlanItem, TableItems, Items, TableAcceptable;
    ItemOfRelease(x, targets);
    var k :| 0 <= k < |targets|
             && (x == Initialized(targets[k].name)
                 || exists t :: 0 <= t < |targets[k].tables|
                      && x in TableItems(Key(targets[k].name, targets[k].tables[t].name), targets[k].tables[t]));
    if x == Initialized(targets[k].name) {
      SchemaItemSucceeds(targets[k].name, db);
    } else {
      var t :| 0 <= t < |targets[k].tables|
               && x in TableItems(Key(targets[k].name, targets[k].tables[t].name), targets[k].tables[t]);
      TableSucceedsIff(Key(targets[k].name, targets[k].tables[t].name), targets[k].tables[t], db);
    }
  }

  /**
   An accepted plan holds exactly the statements that make up for what the live schema lacks: one for each
   missing table, and in a table that is there for each missing column, narrower column and missing index.
  */
  lemma PlanHoldsWhatIsLacking(targets: seq<SchemaDef>, db: Database, s: Statement)
    requires AllListed(db) && PlanFor(targets, db).Success?
    ensures s in PlanFor(targets, db).value <==> Lacks(targets, db, s)
  {
    hide PlanItem, TableItems, Items, TableAcceptable, Collect, TableLacks;
    CollectedIff(Items(targets), db, s);
    PlanAcceptedIff(targets, db);
    if PlannedIn(Items(targets), db, s) {
      var x :| x in Items(targets) && PlanItem(x, db) == Success([s]);
      ItemOfRelease(x, targets);
      var k :| 0 <= k < |targets|
               && (x == Initialized(targets[k].name)
                   || exists t :: 0 <= t < |targets[k].tables|
                        && x in TableItems(Key(targets[k].name, targets[k].tables[t].name), targets[k].tables[t]));
      SchemaItemSucceeds(targets[k].name, db);
      var t :| 0 <= t < |targets[k].tables|
               && x in TableItems(Key(targets[k].name, targets[k].tables[t].name), targets[k].tables[t]);
      assert Acceptable(targets[k], db);
      TablePlansIff(Key(targets[k].name, targets[k].tables[t].name), targets[k].tables[t], db, s);
    }
    if Lacks(targets, db, s) {
      var k, t :| 0 <= k < |targets| && 0 <= t < |targets[k].tables|
                  && TableLacks(Key(targets[k].name, targets[k].tables[t].name), targets[k].tables[t], db, s);
      assert Acceptable(targets[k], db);
      TablePlansIff(Key(targets[k].name, targets[k].tables[t].name), targets[k].tables[t], db, s);
      var x :| x in TableItems(Key(targets[k].name, targets[k].tables[t].name), targets[k].tables[t]) && PlanItem(x, db) == Success([s]);
      ItemOfRelease(x, targets);
    }
  }

  /** No table, column or index gets two statements. */
  lemma PlanRepeatsNothing(targets: seq<SchemaDef>, db: Database)
    requires AllListed(db) && WellFormed(targets) && PlanFor(targets, db).Success?
    ensures var plan := PlanFor(targets, db).value;
            forall i, j :: 0 <= i < j < |plan| ==> SpotOf(plan[i]) != SpotOf(plan[j])
  {
    hide Items, Collect;
    ItemsDistinct(targets);
    SpotsOfPlan(Items(targets), db);
  }
}
