/** Which tables the parser accepts and what an accepted table holds, clause by clause. */
module MigrationParsed {
  import opened Results
  import opened Schema
  import opened Migration
  import opened MigrationInput

  predicate IsColumn(clauses: seq<Definition>, i: int) { 0 <= i < |clauses| && clauses[i].ColumnClause? }

  /** The type is supported, and no clause before it has the column's name. */
  predicate ColumnParses(clauses: seq<Definition>, i: int)
    requires IsColumn(clauses, i)
  {
    && NormalizeType(clauses[i].colType).Success?
    && forall j :: 0 <= j < i && IsColumn(clauses, j) ==> clauses[j].name != clauses[i].name
  }

  predicate ClauseParses(clauses: seq<Definition>, i: int, schema: string)
    requires 0 <= i < |clauses|
  {
    match clauses[i]
    case ColumnClause(_, _, _, _, _, _, _) => ColumnParses(clauses, i)
    case IndexClause(_) => true
    case ForeignClause(_, fk) => fk.refSchema == schema
    case UnknownClause => false
  }

  /** The column of a clause: its name and attributes as they stand, its rules in the form in which they are compared. */
  predicate IsColumnOf(c: Column, clause: Definition)
    requires clause.ColumnClause?
  {
    && c.name == clause.name && NormalizeType(clause.colType) == Success(c.colType)
    && (c.nullable <==> !clause.notNull)
    && c.default == NormalizeDefault(clause.default) && c.extra == NormalizeExtra(clause.extra)
    && c.charset == clause.charset && c.collation == clause.collation
  }

  function ColumnsBefore(clauses: seq<Definition>, i: int): nat
    requires 0 <= i <= |clauses|
  {
    if i == 0 then 0 else ColumnsBefore(clauses, i - 1) + if clauses[i - 1].ColumnClause? then 1 else 0
  }

  /** The columns are those of the column clauses, in their order. */
  ghost predicate HoldsColumns(t: TableDef, clauses: seq<Definition>) {
    && |t.columns| == ColumnsBefore(clauses, |clauses|)
    && forall i :: IsColumn(clauses, i) ==>
         ColumnsBefore(clauses, i) < |t.columns| && IsColumnOf(t.columns[ColumnsBefore(clauses, i)], clauses[i])
  }

  /** Of the index clauses with one name the last counts. */
  predicate LastIndex(clauses: seq<Definition>, x: Index) {
    exists i :: 0 <= i < |clauses| && clauses[i] == IndexClause(x)
      && forall j :: i < j < |clauses| && clauses[j].IndexClause? ==> clauses[j].index.name != x.name
  }

  predicate LastForeign(clauses: seq<Definition>, name: string, fk: ForeignKey) {
    exists i :: 0 <= i < |clauses| && clauses[i] == ForeignClause(name, fk)
      && forall j :: i < j < |clauses| && clauses[j].ForeignClause? ==> clauses[j].name != name
  }

  ghost predicate Holds(t: TableDef, clauses: seq<Definition>) {
    && HoldsColumns(t, clauses)
    && (forall i, j :: 0 <= i < j < |t.indexes| ==> t.indexes[i].name != t.indexes[j].name)
    && (forall x :: x in t.indexes <==> LastIndex(clauses, x))
    && (forall n, fk :: n in t.foreignKeys && t.foreignKeys[n] == fk <==> LastForeign(clauses, n, fk))
  }

  // ---------------------------------------------------------------- one more clause

  lemma {:induction false} ColumnsOfPrefix(clauses: seq<Definition>, n: nat, i: nat)
    requires i <= n <= |clauses|
    ensures ColumnsBefore(clauses[..n], i) == ColumnsBefore(clauses, i)
    ensures ColumnsBefore(clauses, i) <= ColumnsBefore(clauses, n)
    ensures i < n && clauses[i].ColumnClause? ==> ColumnsBefore(clauses, i) < ColumnsBefore(clauses, n)
    decreases n + i
  {
    if i > 0 {
      ColumnsOfPrefix(clauses, n, i - 1);
    }
    if i < n {
      ColumnsOfPrefix(clauses, n - 1, i);
    }
  }

  lemma ColumnsSnoc(t: TableDef, t': TableDef, clauses: seq<Definition>, c: Definition)
    requires HoldsColumns(t, clauses)
    requires if c.ColumnClause? then |t'.columns| == |t.columns| + 1 && t'.columns[..|t.columns|] == t.columns && IsColumnOf(t'.columns[|t.columns|], c)
             else t'.columns == t.columns
    ensures HoldsColumns(t', clauses + [c])
  {
    hide IsColumnOf;
    var more, n := clauses + [c], |clauses|;
    assert more[..n] == clauses;
    ColumnsOfPrefix(more, n, n);
    forall i | IsColumn(more, i)
      ensures ColumnsBefore(more, i) < |t'.columns| && IsColumnOf(t'.columns[ColumnsBefore(more, i)], more[i])
    {
      if i < n {
        ColumnsOfPrefix(more, n, i);
        assert IsColumn(clauses, i);
        assert t'.columns[ColumnsBefore(more, i)] == t.columns[ColumnsBefore(more, i)];
      }
    }
  }

  lemma LastIndexSnoc(clauses: seq<Definition>, c: Definition, x: Index)
    ensures LastIndex(clauses + [c], x) <==>
            c == IndexClause(x) || (LastIndex(clauses, x) && !(c.IndexClause? && c.index.name == x.name))
  {
    var more, n := clauses + [c], |clauses|;
    assert more[n] == c && forall i :: 0 <= i < n ==> more[i] == clauses[i];
    if LastIndex(more, x) && c != IndexClause(x) {
      var i :| 0 <= i < |more| && more[i] == IndexClause(x)
               && forall j :: i < j < |more| && more[j].IndexClause? ==> more[j].index.name != x.name;
      assert i < n && clauses[i] == IndexClause(x);
    }
    if LastIndex(clauses, x) && !(c.IndexClause? && c.index.name == x.name) {
      var i :| 0 <= i < n && clauses[i] == IndexClause(x)
               && forall j :: i < j < n && clauses[j].IndexClause? ==> clauses[j].index.name != x.name;
      assert more[i] == IndexClause(x);
    }
  }

  lemma LastForeignSnoc(clauses: seq<Definition>, c: Definition, name: string, fk: ForeignKey)
    ensures LastForeign(clauses + [c], name, fk) <==>
            c == ForeignClause(name, fk) || (LastForeign(clauses, name, fk) && !(c.ForeignClause? && c.name == name))
  {
    var more, n := clauses + [c], |clauses|;
    assert more[n] == c && forall i :: 0 <= i < n ==> more[i] == clauses[i];
    if LastForeign(more, name, fk) && c != ForeignClause(name, fk) {
      var i :| 0 <= i < |more| && more[i] == ForeignClause(name, fk)
               && forall j :: i < j < |more| && more[j].ForeignClause? ==> more[j].name != name;
      assert i < n && clauses[i] == ForeignClause(name, fk);
    }
    if LastForeign(clauses, name, fk) && !(c.ForeignClause? && c.name == name) {
      var i :| 0 <= i < n && clauses[i] == ForeignClause(name, fk)
               && forall j :: i < j < n && clauses[j].ForeignClause? ==> clauses[j].name != name;
      assert more[i] == ForeignClause(name, fk);
    }
  }

  /** Assigning to the dictionary of indexes puts the new one in and takes the old one of its name out. */
  lemma {:induction false} PutIndexMembers(indexes: seq<Index>, x: Index, y: Index)
    requires forall i, j :: 0 <= i < j < |indexes| ==> indexes[i].name != indexes[j].name
    ensures y in PutIndex(indexes, x) <==> y == x || (y in indexes && y.name != x.name)
  {
    if indexes != [] {
      assert indexes == [indexes[0]] + indexes[1..];
      if indexes[0].name == x.name {
        assert forall z :: z in indexes[1..] ==> z.name != x.name;
      } else {
        PutIndexMembers(indexes[1..], x, y);
      }
    }
  }

  lemma NamesOfColumns(t: TableDef, clauses: seq<Definition>, name: string)
    requires HoldsColumns(t, clauses)
    ensures (exists i :: IsColumn(clauses, i) && clauses[i].name == name) ==> name in ColumnNames(t)
  {
    if i :| IsColumn(clauses, i) && clauses[i].name == name {
      assert t.columns[ColumnsBefore(clauses, i)].name == name;
    }
  }

  lemma {:induction false} ClauseOfColumn(clauses: seq<Definition>, n: nat, k: nat) returns (i: nat)
    requires n <= |clauses| && k < ColumnsBefore(clauses, n)
    ensures i < n && IsColumn(clauses, i) && ColumnsBefore(clauses, i) == k
  {
    if clauses[n - 1].ColumnClause? && k == ColumnsBefore(clauses, n - 1) {
      i := n - 1;
    } else {
      i := ClauseOfColumn(clauses, n - 1, k);
    }
  }

  lemma ColumnNamesAre(t: TableDef, clauses: seq<Definition>, name: string)
    requires HoldsColumns(t, clauses)
    ensures name in ColumnNames(t) <==> exists i :: IsColumn(clauses, i) && clauses[i].name == name
  {
    NamesOfColumns(t, clauses, name);
    if k :| 0 <= k < |t.columns| && t.columns[k].name == name {
      var i := ClauseOfColumn(clauses, |clauses|, k);
    }
  }

  lemma ClauseIsAdded(t: TableDef, clauses: seq<Definition>, c: Definition, schema: string)
    requires Holds(t, clauses)
    ensures AddClause(t, c, schema).Success? <==> ClauseParses(clauses + [c], |clauses|, schema)
    ensures AddClause(t, c, schema).Success? ==>
              AddClause(t, c, schema).value.name == t.name && Holds(AddClause(t, c, schema).value, clauses + [c])
  {
    var more, n := clauses + [c], |clauses|;
    assert more[n] == c;
    if c.ColumnClause? {
      AddedColumnParses(t, clauses, c);
    }
    if AddClause(t, c, schema).Success? {
      var t' := AddClause(t, c, schema).value;
      hide HoldsColumns, LastIndex, LastForeign, ClauseParses;
      ColumnsSnoc(t, t', clauses, c);
      forall x ensures x in t'.indexes <==> LastIndex(more, x) {
        LastIndexSnoc(clauses, c, x);
        if c.IndexClause? {
          PutIndexMembers(t.indexes, c.index, x);
        }
      }
      if c.IndexClause? {
        PutIndexKeepsNames(t.indexes, c.index);
      }
      forall name, fk ensures name in t'.foreignKeys && t'.foreignKeys[name] == fk <==> LastForeign(more, name, fk) {
        LastForeignSnoc(clauses, c, name, fk);
      }
    }
  }

  lemma AddedColumnParses(t: TableDef, clauses: seq<Definition>, c: Definition)
    requires HoldsColumns(t, clauses) && c.ColumnClause?
    ensures ColumnParses(clauses + [c], |clauses|) <==> NormalizeType(c.colType).Success? && c.name !in ColumnNames(t)
  {
    hide HoldsColumns, ColumnNames;
    var more, n := clauses + [c], |clauses|;
    ColumnNamesAre(t, clauses, c.name);
    assert forall i :: 0 <= i < n ==> more[i] == clauses[i];
    assert forall i :: 0 <= i < n ==> (IsColumn(more, i) <==> IsColumn(clauses, i));
    assert more[n] == c;
  }

  lemma ParsesInPrefix(clauses: seq<Definition>, n: nat, i: nat, schema: string)
    requires i < n <= |clauses|
    ensures ClauseParses(clauses[..n], i, schema) <==> ClauseParses(clauses, i, schema)
  {
    assert forall j :: 0 <= j <= i ==> clauses[..n][j] == clauses[j];
    assert forall j :: 0 <= j <= i ==> (IsColumn(clauses[..n], j) <==> IsColumn(clauses, j));
  }

  // ---------------------------------------------------------------- whole tables

  lemma NothingHolds(name: string)
    ensures Holds(TableDef(name, [], [], map[]), [])
  {
  }

  /**
   The parser accepts a table exactly when every clause is known, every column has a supported type and a name of its
   own, and every foreign key stays in the schema; and then the table holds what the clauses say, and nothing else.
  */
  lemma {:induction false} TableIsItsClauses(name: string, clauses: seq<Definition>, schema: string)
    ensures Parsed(name, clauses, schema).Success? <==>
            forall i :: 0 <= i < |clauses| ==> ClauseParses(clauses, i, schema)
    ensures Parsed(name, clauses, schema).Success? ==>
              Parsed(name, clauses, schema).value.name == name && Holds(Parsed(name, clauses, schema).value, clauses)
  {
    hide AddClause, ClauseParses, Holds;
    if clauses == [] {
      NothingHolds(name);
    } else {
      var n := |clauses| - 1;
      var before, c := clauses[..n], clauses[n];
      assert clauses == before + [c];
      TableIsItsClauses(name, before, schema);
      forall i | 0 <= i < n ensures ClauseParses(before, i, schema) <==> ClauseParses(clauses, i, schema) {
        ParsesInPrefix(clauses, n, i, schema);
      }
      if Parsed(name, before, schema).Success? {
        ClauseIsAdded(Parsed(name, before, schema).value, before, c, schema);
      }
    }
  }
}
