/**
 The additive schema-migration planner: it compares a release's definitions with the live
 metadata and emits only statements that an earlier release can live with.
*/
module Migration {
  import opened Results
  import opened Schema

  datatype Statement =
    | CreateTable(key: Key, def: TableDef)
    | AddColumn(key: Key, column: Column)
    | ModifyColumn(key: Key, column: Column)
    | AddIndex(key: Key, index: Index)

  type Plan = Result<seq<Statement>, SchemaError>

  // ---------------------------------------------------------------- one requirement at a time

  /** One thing a release asks of the database, in the order the planner looks at them. */
  datatype Item =
    | Initialized(schema: string)
    | Table(key: Key, def: TableDef)
    | HasColumn(key: Key, column: Column)
    | NoExtraColumns(key: Key, def: TableDef)
    | HasIndex(key: Key, index: Index)
    | NoExtraKeys(key: Key, def: TableDef)
    | SameForeignKeys(key: Key, def: TableDef)

  predicate SameAttribute(wanted: Option<string>, live: Option<string>) {
    wanted.Some? ==> Canonical(wanted) == Canonical(live)
  }

  function PlanColumn(key: Key, column: Column, live: LiveTable): Plan {
    if column.name !in live.columns then
      if (!column.nullable && column.default.None?) || column.extra != "" then Failure(RequiredColumn)
      else Success([AddColumn(key, column)])
    else
      var actual := live.columns[column.name];
      if actual.nullable != column.nullable
         || NormalizeDefault(actual.default) != column.default
         || NormalizeExtra(actual.extra) != column.extra then Failure(ValueRulesDiffer)
      else if !SameAttribute(column.charset, actual.charset) || !SameAttribute(column.collation, actual.collation)
        then Failure(AttributeDiffers)
      else match NormalizeType(actual.colType)
        case Failure(e) => Failure(e)
        case Success(actualType) =>
          if actualType == column.colType then Success([])
          else if !column.colType.Varchar? || !actualType.Varchar? then Failure(IncompatibleTypes)
          else if actualType.width >= column.colType.width then Success([])
          else if actual.charset.Some? && IsIdentifier(actual.charset.value)
                  && actual.collation.Some? && IsIdentifier(actual.collation.value) then
            // The live character set is retained when a column is widened.
            Success([ModifyColumn(key, column.(charset := actual.charset, collation := actual.collation))])
          else Failure(UnsupportedCharacterSet)
  }

  function ColumnNames(def: TableDef): set<string> {
    set i | 0 <= i < |def.columns| :: def.columns[i].name
  }

  function IndexNames(def: TableDef): set<string> {
    set i | 0 <= i < |def.indexes| :: def.indexes[i].name
  }

  /** A column an older release never fills in: it would reject that release's writes. */
  predicate BlocksWrites(row: LiveColumn) {
    !row.nullable && NormalizeDefault(row.default).None? && row.extra != "auto_increment"
  }

  function PlanIndex(key: Key, index: Index, live: LiveTable): Plan
    requires Listed(live)
  {
    if index.name !in live.indexes then
      if index.unique then Failure(MissingUniqueKey) else Success([AddIndex(key, index)])
    else if live.indexes[index.name][0].unique != index.unique
            || IndexColumns(live.indexes[index.name]) != index.columns then Failure(IndexDiffers)
    else Success([])
  }

  function LiveForeignKeys(live: LiveTable): map<string, ForeignKey>
    requires Listed(live)
  {
    map n | n in live.foreignKeys :: NormalizeFk(FkOfRows(live.foreignKeys[n]))
  }

  function WantedForeignKeys(def: TableDef): map<string, ForeignKey> {
    map n | n in def.foreignKeys :: NormalizeFk(def.foreignKeys[n])
  }

  function Require(ok: bool, e: SchemaError): Plan { if ok then Success([]) else Failure(e) }

  function PlanItem(x: Item, db: Database): Plan
    requires AllListed(db)
  {
    if x.Initialized? then Require(exists k :: k in db && k.schema == x.schema, NotInitialized)
    else if x.Table? then
      if x.key !in db then Success([CreateTable(x.key, x.def)])
      else Require(db[x.key].engine == Some("InnoDB"), NotInnoDb)
    else if x.key !in db then Success([])
    else
      var live := db[x.key];
      match x
      case HasColumn(key, column) => PlanColumn(key, column, live)
      case NoExtraColumns(_, def) =>
        Require(forall n :: n in live.columns && n !in ColumnNames(def) ==> !BlocksWrites(live.columns[n]),
                ExtraRequiredColumn)
      case HasIndex(key, index) => PlanIndex(key, index, live)
      case NoExtraKeys(_, def) =>
        Require(forall n :: n in live.indexes && n !in IndexNames(def) ==> !live.indexes[n][0].unique,
                ExtraUniqueKey)
      case SameForeignKeys(_, def) => Require(LiveForeignKeys(live) == WantedForeignKeys(def), ForeignKeysDiffer)
  }

  /** The statements of all items in order, or the first error. */
  function Collect(items: seq<Item>, db: Database): Plan
    requires AllListed(db)
  {
    if items == [] then Success([])
    else
      var n := |items| - 1;
      match Collect(items[..n], db)
      case Failure(e) => Failure(e)
      case Success(before) =>
        match PlanItem(items[n], db)
        case Failure(e) => Failure(e)
        case Success(more) => Success(before + more)
  }

  function ColumnItems(key: Key, columns: seq<Column>): seq<Item> {
    seq(|columns|, i requires 0 <= i < |columns| => HasColumn(key, columns[i]))
  }

  function IndexItems(key: Key, indexes: seq<Index>): seq<Item> {
    seq(|indexes|, i requires 0 <= i < |indexes| => HasIndex(key, indexes[i]))
  }

  function TableItems(key: Key, def: TableDef): seq<Item> {
    [Table(key, def)] + ColumnItems(key, def.columns) + [NoExtraColumns(key, def)]
    + IndexItems(key, def.indexes) + [NoExtraKeys(key, def), SameForeignKeys(key, def)]
  }

  function TablesItems(schema: string, tables: seq<TableDef>): seq<Item> {
    if tables == [] then []
    else
      var n := |tables| - 1;
      TablesItems(schema, tables[..n]) + TableItems(Key(schema, tables[n].name), tables[n])
  }

  function SchemaItems(s: SchemaDef): seq<Item> {
    [Initialized(s.name)] + TablesItems(s.name, s.tables)
  }

  function Items(targets: seq<SchemaDef>): seq<Item> {
    if targets == [] then []
    else
      var n := |targets| - 1;
      Items(targets[..n]) + SchemaItems(targets[n])
  }

  /** What the planner must answer. */
  function PlanFor(targets: seq<SchemaDef>, db: Database): Plan
    requires AllListed(db)
  {
    Collect(Items(targets), db)
  }

  // ---------------------------------------------------------------- the planner

  lemma {:induction false} CollectConcat(a: seq<Item>, b: seq<Item>, db: Database)
    requires AllListed(db)
    ensures Collect(a + b, db) ==
              if Collect(a, db).Failure? then Collect(a, db)
              else if Collect(b, db).Failure? then Collect(b, db)
              else Success(Collect(a, db).value + Collect(b, db).value)
  {
    hide PlanItem;
    if b == [] {
      assert a + b == a;
      assert Collect(a, db).Success? ==> Collect(a, db).value + [] == Collect(a, db).value;
    } else {
      var n := |b| - 1;
      CollectConcat(a, b[..n], db);
      assert (a + b)[..|a + b| - 1] == a + b[..n];
      if Collect(a, db).Success? && Collect(b, db).Success? {
        var sa, sb, sx := Collect(a, db).value, Collect(b[..n], db).value, PlanItem(b[n], db).value;
        assert (sa + sb) + sx == sa + (sb + sx);
      }
    }
  }

  lemma CollectOne(x: Item, db: Database)
    requires AllListed(db)
    ensures Collect([x], db) == PlanItem(x, db)
  {
    assert [x][..0] == [];
    if PlanItem(x, db).Success? {
      assert [] + PlanItem(x, db).value == PlanItem(x, db).value;
    }
  }

  lemma CollectSnoc(a: seq<Item>, x: Item, db: Database)
    requires AllListed(db)
    ensures Collect(a + [x], db) ==
              if Collect(a, db).Failure? then Collect(a, db)
              else if PlanItem(x, db).Failure? then PlanItem(x, db)
              else Success(Collect(a, db).value + PlanItem(x, db).value)
  {
    assert (a + [x])[..|a|] == a;
  }

  /** A failed prefix decides the whole plan. */
  lemma CollectFails(a: seq<Item>, x: Item, b: seq<Item>, db: Database)
    requires AllListed(db) && Collect(a, db).Success? && PlanItem(x, db).Failure?
    ensures Collect(a + [x] + b, db) == PlanItem(x, db)
  {
    CollectSnoc(a, x, db);
    CollectConcat(a + [x], b, db);
  }

  lemma ColumnItemsSnoc(key: Key, columns: seq<Column>, n: nat)
    requires n < |columns|
    ensures ColumnItems(key, columns[..n + 1]) == ColumnItems(key, columns[..n]) + [HasColumn(key, columns[n])]
    ensures ColumnItems(key, columns) == ColumnItems(key, columns[..n + 1]) + ColumnItems(key, columns[n + 1..])
  {
  }

  lemma IndexItemsSnoc(key: Key, indexes: seq<Index>, n: nat)
    requires n < |indexes|
    ensures IndexItems(key, indexes[..n + 1]) == IndexItems(key, indexes[..n]) + [HasIndex(key, indexes[n])]
    ensures IndexItems(key, indexes) == IndexItems(key, indexes[..n + 1]) + IndexItems(key, indexes[n + 1..])
  {
  }

  method PlanColumns(key: Key, columns: seq<Column>, live: LiveTable, ghost db: Database) returns (r: Plan)
    requires AllListed(db) && key in db && db[key] == live
    ensures r == Collect(ColumnItems(key, columns), db)
  {
    var statements := [];
    for i := 0 to |columns|
      invariant Collect(ColumnItems(key, columns[..i]), db) == Success(statements)
    {
      var step := PlanColumn(key, columns[i], live);
      ColumnItemsSnoc(key, columns, i);
      CollectSnoc(ColumnItems(key, columns[..i]), HasColumn(key, columns[i]), db);
      if step.Failure? {
        CollectFails(ColumnItems(key, columns[..i]), HasColumn(key, columns[i]), ColumnItems(key, columns[i + 1..]), db);
        return step;
      }
      statements := statements + step.value;
    }
    assert columns[..|columns|] == columns;
    return Success(statements);
  }

  method PlanIndexes(key: Key, indexes: seq<Index>, live: LiveTable, ghost db: Database) returns (r: Plan)
    requires AllListed(db) && key in db && db[key] == live
    ensures r == Collect(IndexItems(key, indexes), db)
  {
    var statements := [];
    for i := 0 to |indexes|
      invariant Collect(IndexItems(key, indexes[..i]), db) == Success(statements)
    {
      var step := PlanIndex(key, indexes[i], live);
      IndexItemsSnoc(key, indexes, i);
      CollectSnoc(IndexItems(key, indexes[..i]), HasIndex(key, indexes[i]), db);
      if step.Failure? {
        CollectFails(IndexItems(key, indexes[..i]), HasIndex(key, indexes[i]), IndexItems(key, indexes[i + 1..]), db);
        return step;
      }
      statements := statements + step.value;
    }
    assert indexes[..|indexes|] == indexes;
    return Success(statements);
  }

  /** Looks for a column of the live table that would block the release's writes. */
  method FindBlockingColumn(def: TableDef, live: LiveTable) returns (found: bool)
    ensures found <==> exists n :: n in live.columns && n !in ColumnNames(def) && BlocksWrites(live.columns[n])
  {
    var names := live.columns.Keys;
    while names != {}
      invariant names <= live.columns.Keys
      invariant forall n :: n in live.columns && n !in names && n !in ColumnNames(def) ==> !BlocksWrites(live.columns[n])
    {
      var n :| n in names;
      if n !in ColumnNames(def) && BlocksWrites(live.columns[n]) {
        return true;
      }
      names := names - {n};
    }
    return false;
  }

  lemma {:induction false} TableAbsent(items: seq<Item>, key: Key, db: Database)
    requires AllListed(db) && key !in db
    requires forall i :: 0 <= i < |items| ==> !items[i].Initialized? && !items[i].Table? && items[i].key == key
    ensures Collect(items, db) == Success([])
  {
    if items != [] {
      var n := |items| - 1;
      TableAbsent(items[..n], key, db);
      var none: seq<Statement> := [];
      assert PlanItem(items[n], db) == Success(none) && none + none == none;
    }
  }

  /** The items that only check add no statement to a table that is there. */
  lemma ChecksPlanNothing(key: Key, def: TableDef, db: Database)
    requires AllListed(db) && key in db
    ensures forall x :: (x in [Table(key, def), NoExtraColumns(key, def), NoExtraKeys(key, def), SameForeignKeys(key, def)]
                         && PlanItem(x, db).Success?) ==> PlanItem(x, db).value == []
  {
  }

  lemma AbsentTablePlan(key: Key, def: TableDef, db: Database)
    requires AllListed(db) && key !in db
    ensures Collect(TableItems(key, def), db) == Success([CreateTable(key, def)])
  {
    hide Collect;
    var a, rest := [Table(key, def)], TableItems(key, def)[1..];
    assert TableItems(key, def) == a + rest;
    CollectOne(Table(key, def), db);
    forall i | 0 <= i < |rest|
      ensures !rest[i].Initialized? && !rest[i].Table? && rest[i].key == key
    {
      assert rest == ColumnItems(key, def.columns) + [NoExtraColumns(key, def)]
             + IndexItems(key, def.indexes) + [NoExtraKeys(key, def), SameForeignKeys(key, def)];
    }
    TableAbsent(rest, key, db);
    CollectConcat(a, rest, db);
    assert [CreateTable(key, def)] + [] == [CreateTable(key, def)];
  }

  lemma PresentTablePlan(key: Key, def: TableDef, db: Database)
    requires AllListed(db) && key in db
    ensures var head := PlanItem(Table(key, def), db);
            var columns := Collect(ColumnItems(key, def.columns), db);
            var extra := PlanItem(NoExtraColumns(key, def), db);
            var indexes := Collect(IndexItems(key, def.indexes), db);
            var keys := PlanItem(NoExtraKeys(key, def), db);
            var fks := PlanItem(SameForeignKeys(key, def), db);
            Collect(TableItems(key, def), db) ==
              if head.Failure? then head
              else if columns.Failure? then columns
              else if extra.Failure? then extra
              else if indexes.Failure? then indexes
              else if keys.Failure? then keys
              else if fks.Failure? then fks
              else Success(columns.value + indexes.value)
  {
    hide PlanItem, Collect, ColumnItems, IndexItems;
    var a := [Table(key, def)];
    var b := a + ColumnItems(key, def.columns);
    var c := b + [NoExtraColumns(key, def)];
    var d := c + IndexItems(key, def.indexes);
    var e := d + [NoExtraKeys(key, def)];
    assert TableItems(key, def) == e + [SameForeignKeys(key, def)];
    CollectOne(Table(key, def), db);
    ChecksPlanNothing(key, def, db);
    CollectConcat(a, ColumnItems(key, def.columns), db);
    CollectSnoc(b, NoExtraColumns(key, def), db);
    CollectConcat(c, IndexItems(key, def.indexes), db);
    CollectSnoc(d, NoExtraKeys(key, def), db);
    CollectSnoc(e, SameForeignKeys(key, def), db);
    var columns, indexes := Collect(ColumnItems(key, def.columns), db), Collect(IndexItems(key, def.indexes), db);
    if columns.Success? {
      assert [] + columns.value == columns.value == columns.value + [];
      if indexes.Success? {
        assert (columns.value + indexes.value) + [] == columns.value + indexes.value;
      }
    }
  }

  method PlanTable(key: Key, target: TableDef, db: Database) returns (r: Plan)
    requires AllListed(db)
    ensures r == Collect(TableItems(key, target), db)
  {
    hide Collect, TableItems, ColumnItems, IndexItems;
    if key !in db {
      AbsentTablePlan(key, target, db);
      return Success([CreateTable(key, target)]);
    }
    PresentTablePlan(key, target, db);
    var live := db[key];
    if live.engine != Some("InnoDB") {
      return Failure(NotInnoDb);
    }
    var columns := PlanColumns(key, target.columns, live, db);
    if columns.Failure? {
      return columns;
    }
    var blocked := FindBlockingColumn(target, live);
    if blocked {
      return Failure(ExtraRequiredColumn);
    }
    var indexes := PlanIndexes(key, target.indexes, live, db);
    if indexes.Failure? {
      return indexes;
    }
    if exists n :: n in live.indexes && n !in IndexNames(target) && live.indexes[n][0].unique {
      return Failure(ExtraUniqueKey);
    }
    if LiveForeignKeys(live) != WantedForeignKeys(target) {
      return Failure(ForeignKeysDiffer);
    }
    return Success(columns.value + indexes.value);
  }

  lemma {:induction false} TablesItemsSplit(schema: string, tables: seq<TableDef>, n: nat)
    requires n < |tables|
    ensures exists rest :: TablesItems(schema, tables) ==
              TablesItems(schema, tables[..n]) + TableItems(Key(schema, tables[n].name), tables[n]) + rest
  {
    hide TableItems;
    var last := |tables| - 1;
    var here := TablesItems(schema, tables[..n]) + TableItems(Key(schema, tables[n].name), tables[n]);
    if n == last {
      assert TablesItems(schema, tables) == here + [];
    } else {
      TablesItemsSplit(schema, tables[..last], n);
      assert tables[..last][..n] == tables[..n];
      var rest :| TablesItems(schema, tables[..last]) == here + rest;
      var more := TableItems(Key(schema, tables[last].name), tables[last]);
      assert (here + rest) + more == here + (rest + more);
    }
  }

  method PlanTables(schema: string, tables: seq<TableDef>, db: Database) returns (r: Plan)
    requires AllListed(db)
    ensures r == Collect(TablesItems(schema, tables), db)
  {
    var statements := [];
    for i := 0 to |tables|
      invariant Collect(TablesItems(schema, tables[..i]), db) == Success(statements)
    {
      var key := Key(schema, tables[i].name);
      var step := PlanTable(key, tables[i], db);
      var before, here := TablesItems(schema, tables[..i]), TableItems(key, tables[i]);
      assert tables[..i + 1][..i] == tables[..i];
      CollectConcat(before, here, db);
      if step.Failure? {
        TablesItemsSplit(schema, tables, i);
        ghost var rest :| TablesItems(schema, tables) == before + here + rest;
        CollectConcat(before + here, rest, db);
        return step;
      }
      statements := statements + step.value;
    }
    assert tables[..|tables|] == tables;
    return Success(statements);
  }

  lemma {:induction false} ItemsSplit(targets: seq<SchemaDef>, n: nat)
    requires n < |targets|
    ensures exists rest :: Items(targets) == Items(targets[..n]) + SchemaItems(targets[n]) + rest
  {
    hide SchemaItems;
    var last := |targets| - 1;
    var here := Items(targets[..n]) + SchemaItems(targets[n]);
    if n == last {
      assert Items(targets) == here + [];
    } else {
      ItemsSplit(targets[..last], n);
      assert targets[..last][..n] == targets[..n];
      var rest :| Items(targets[..last]) == here + rest;
      assert (here + rest) + SchemaItems(targets[last]) == here + (rest + SchemaItems(targets[last]));
    }
  }

  method PlanOneSchema(target: SchemaDef, db: Database) returns (r: Plan)
    requires AllListed(db)
    ensures r == Collect(SchemaItems(target), db)
  {
    var head := Initialized(target.name);
    CollectOne(head, db);
    CollectConcat([head], TablesItems(target.name, target.tables), db);
    if !exists k :: k in db && k.schema == target.name {
      return Failure(NotInitialized);
    }
    r := PlanTables(target.name, target.tables, db);
    assert r.Success? ==> [] + r.value == r.value;
  }

  method PlanSchema(targets: seq<SchemaDef>, db: Database) returns (r: Plan)
    requires AllListed(db)
    ensures r == PlanFor(targets, db)
  {
    var statements := [];
    for i := 0 to |targets|
      invariant Collect(Items(targets[..i]), db) == Success(statements)
    {
      var step := PlanOneSchema(targets[i], db);
      ghost var before, here := Items(targets[..i]), SchemaItems(targets[i]);
      assert targets[..i + 1][..i] == targets[..i];
      CollectConcat(before, here, db);
      if step.Failure? {
        ItemsSplit(targets, i);
        ghost var rest :| Items(targets) == before + here + rest;
        CollectConcat(before + here, rest, db);
        return step;
      }
      statements := statements + step.value;
    }
    assert targets[..|targets|] == targets;
    return Success(statements);
  }
}
