/** What each catalog rewrite changes and what it must leave alone, table by table and field by
    field. */
module DdlFrames {
  import opened Order
  import opened DdlRewrite

  /** The table at `i` is the first of that name. */
  predicate FirstNamed(tables: seq<Table>, name: string, i: nat) {
    i < |tables| && tables[i].name == name && forall j :: 0 <= j < i ==> tables[j].name != name
  }

  predicate FirstColumn(columns: seq<Column>, name: string, i: nat) {
    i < |columns| && columns[i].name == name && forall j :: 0 <= j < i ==> columns[j].name != name
  }

  /** `kept` is what of `all` satisfies `keep`, in order: `at` lists the places. */
  ghost predicate FilteredAt<T(!new)>(all: seq<T>, kept: seq<T>, keep: T -> bool, at: seq<nat>) {
    && |at| == |kept|
    && (forall k :: 0 <= k < |at| ==> at[k] < |all| && keep(all[at[k]]) && kept[k] == all[at[k]])
    && (forall k, l :: 0 <= k < l < |at| ==> at[k] < at[l])
    && (forall i :: 0 <= i < |all| && keep(all[i]) ==> i in at)
  }

  ghost predicate Filtered<T(!new)>(all: seq<T>, kept: seq<T>, keep: T -> bool) {
    exists at :: FilteredAt(all, kept, keep, at)
  }

  lemma Passed<T(!new)>(all: seq<T>, kept: seq<T>, keep: T -> bool, x: T, at: seq<nat>)
    requires FilteredAt(all, kept, keep, at) && !keep(x)
    ensures FilteredAt(all + [x], kept, keep, at)
  {
    var more := all + [x];
    assert forall i :: 0 <= i < |all| ==> more[i] == all[i];
  }

  lemma Taken<T(!new)>(all: seq<T>, kept: seq<T>, keep: T -> bool, x: T, at: seq<nat>)
    requires FilteredAt(all, kept, keep, at) && keep(x)
    ensures FilteredAt(all + [x], kept + [x], keep, at + [|all|])
  {
    var more, now := all + [x], at + [|all|];
    assert forall i :: 0 <= i < |all| ==> more[i] == all[i];
    forall i | 0 <= i < |more| && keep(more[i]) ensures i in now {
      if i < |all| {
        var k :| 0 <= k < |at| && at[k] == i;
        assert now[k] == i;
      } else {
        assert now[|at|] == |all|;
      }
    }
    forall k | 0 <= k < |now| ensures now[k] < |more| && keep(more[now[k]]) && (kept + [x])[k] == more[now[k]] {
      if k < |at| { assert now[k] == at[k]; }
    }
  }

  /** One more element. */
  lemma FilteredSnoc<T(!new)>(all: seq<T>, x: T, before: seq<T>, after: seq<T>, keep: T -> bool)
    requires Filtered(all, before, keep) && after == if keep(x) then before + [x] else before
    ensures Filtered(all + [x], after, keep)
  {
    var at :| FilteredAt(all, before, keep, at);
    if keep(x) { Taken(all, before, keep, x, at); } else { Passed(all, before, keep, x, at); }
  }

  lemma LastSplit<T>(s: seq<T>)
    requires s != []
    ensures s == s[..|s| - 1] + [s[|s| - 1]]
  {
  }

  lemma NothingAdded<T>(s: seq<T>)
    ensures s + [] == s
  {
  }

  lemma FilteredNone<T(!new)>(keep: T -> bool)
    ensures Filtered([], [], keep)
  {
    var at: seq<nat> := [];
    assert FilteredAt([], [], keep, at);
  }

  function NotColumn(name: string): Column -> bool {
    (c: Column) => c.name != name
  }

  function NotIndexing(name: string): IndexDef -> bool {
    (d: IndexDef) => name !in d.columns
  }

  function NotOn(name: string): SideIndex -> bool {
    (d: SideIndex) => d.column != name
  }

  lemma {:induction false} ColumnsKept(columns: seq<Column>, name: string)
    ensures Filtered(columns, KeepColumns(columns, name), NotColumn(name))
  {
    if columns == [] {
      FilteredNone(NotColumn(name));
    } else {
      var init, x := columns[..|columns| - 1], columns[|columns| - 1];
      ColumnsKept(init, name);
      NothingAdded(KeepColumns(init, name));
      FilteredSnoc(init, x, KeepColumns(init, name), KeepColumns(columns, name), NotColumn(name));
      LastSplit(columns);
    }
  }

  lemma {:induction false} IndexesKept(ds: seq<IndexDef>, name: string)
    ensures Filtered(ds, KeepIndexes(ds, name), NotIndexing(name))
  {
    if ds == [] {
      FilteredNone(NotIndexing(name));
    } else {
      var init, x := ds[..|ds| - 1], ds[|ds| - 1];
      IndexesKept(init, name);
      NothingAdded(KeepIndexes(init, name));
      FilteredSnoc(init, x, KeepIndexes(init, name), KeepIndexes(ds, name), NotIndexing(name));
      LastSplit(ds);
    }
  }

  lemma {:induction false} SidesKept(ds: seq<SideIndex>, name: string)
    ensures Filtered(ds, KeepSides(ds, name), NotOn(name))
  {
    if ds == [] {
      FilteredNone(NotOn(name));
    } else {
      var init, x := ds[..|ds| - 1], ds[|ds| - 1];
      SidesKept(init, name);
      NothingAdded(KeepSides(init, name));
      FilteredSnoc(init, x, KeepSides(init, name), KeepSides(ds, name), NotOn(name));
      LastSplit(ds);
    }
  }

  /** Only the first column of that name is renamed, and nothing else about it changes. */
  lemma {:induction false} ColumnsRenamed(columns: seq<Column>, from: string, to: string)
    ensures var r := RenameFirst(columns, from, to);
            && |r| == |columns|
            && forall i :: 0 <= i < |r| ==>
                 r[i] == if FirstColumn(columns, from, i) then Column(to, columns[i].details) else columns[i]
  {
    if columns != [] && columns[0].name != from {
      var rest := columns[1..];
      ColumnsRenamed(rest, from, to);
      forall i | 0 < i < |columns|
        ensures FirstColumn(columns, from, i) <==> FirstColumn(rest, from, i - 1)
      {
        assert forall j :: 0 < j <= i ==> columns[j] == rest[j - 1];
        assert forall j :: 0 <= j < i ==> rest[j] == columns[j + 1];
      }
    }
  }

  /** An index with a column renamed: every mention and only those, the first repeated. */
  predicate IndexFollows(d: IndexDef, r: IndexDef, from: string, to: string) {
    && r.unique == d.unique && |r.columns| == |d.columns|
    && (forall i :: 0 <= i < |d.columns| ==> r.columns[i] == if d.columns[i] == from then to else d.columns[i])
    && r.column == if |d.columns| == 0 then d.column else r.columns[0]
  }

  predicate SideFollows(d: SideIndex, r: SideIndex, from: string, to: string) {
    r == SideIndex(if d.column == from then to else d.column, d.details)
  }

  predicate SidesFollow(ds: seq<SideIndex>, rs: seq<SideIndex>, from: string, to: string) {
    |rs| == |ds| && forall i :: 0 <= i < |ds| ==> SideFollows(ds[i], rs[i], from, to)
  }

  /** What becomes of the table a rewrite is about. */
  ghost predicate Rewritten(rw: Rewrite, t: Table, r: Table) {
    match rw
    case NoRewrite => r == t
    case RenameTable(_, to) =>
      r == Table(to, t.columns, t.indexes, t.vectorIndexes, t.textIndexes, t.epoch, t.identityKeyed)
    case RenameColumn(_, from, to) => (
      && r.name == t.name && r.epoch == t.epoch && r.identityKeyed == t.identityKeyed
      && |r.columns| == |t.columns|
      && (forall i :: 0 <= i < |t.columns| ==>
            r.columns[i] == if FirstColumn(t.columns, from, i) then Column(to, t.columns[i].details) else t.columns[i])
      && |r.indexes| == |t.indexes|
      && (forall i :: 0 <= i < |t.indexes| ==> IndexFollows(t.indexes[i], r.indexes[i], from, to))
      && SidesFollow(t.vectorIndexes, r.vectorIndexes, from, to)
      && SidesFollow(t.textIndexes, r.textIndexes, from, to))
    case DropColumn(_, column) => (
      && r.name == t.name && r.epoch == t.epoch && r.identityKeyed == t.identityKeyed
      && Filtered(t.columns, r.columns, NotColumn(column))
      && Filtered(t.indexes, r.indexes, NotIndexing(column))
      && Filtered(t.vectorIndexes, r.vectorIndexes, NotOn(column))
      && Filtered(t.textIndexes, r.textIndexes, NotOn(column)))
    case RekeyByIdentity =>
      r == Table(t.name, t.columns, t.indexes, t.vectorIndexes, t.textIndexes, t.epoch,
                 exists i :: 0 <= i < |t.columns| && t.columns[i].name == "id")
  }

  /** Whether the table at `i` is one a rewrite is about. */
  predicate Concerns(rw: Rewrite, tables: seq<Table>, i: nat) {
    match rw
    case NoRewrite => false
    case RenameTable(from, _) => FirstNamed(tables, from, i)
    case RenameColumn(table, _, _) => FirstNamed(tables, table, i)
    case DropColumn(table, _) => FirstNamed(tables, table, i)
    case RekeyByIdentity => true
  }

  lemma ColumnRenamed(t: Table, table: string, from: string, to: string)
    ensures Rewritten(RenameColumn(table, from, to), t, RewriteTable(RenameColumn(table, from, to), t))
  {
    ColumnsRenamed(t.columns, from, to);
  }

  lemma ColumnDropped(t: Table, table: string, column: string)
    ensures Rewritten(DropColumn(table, column), t, RewriteTable(DropColumn(table, column), t))
  {
    ColumnsKept(t.columns, column);
    IndexesKept(t.indexes, column);
    SidesKept(t.vectorIndexes, column);
    SidesKept(t.textIndexes, column);
  }

  lemma TableRewritten(rw: Rewrite, t: Table)
    ensures Rewritten(rw, t, RewriteTable(rw, t))
  {
    match rw
    case RenameColumn(table, from, to) => ColumnRenamed(t, table, from, to);
    case DropColumn(table, column) => ColumnDropped(t, table, column);
    case _ =>
  }

  lemma ApplyOnlyThere(rw: Rewrite, tables: seq<Table>, i: nat)
    requires i < |tables|
    ensures |Apply(rw, tables)| == |tables|
    ensures Apply(rw, tables)[i] == if Concerns(rw, tables, i) then RewriteTable(rw, tables[i]) else tables[i]
  {
  }

  /** The same place afterwards: changed as the rewrite says, or not at all. */
  ghost predicate Framed(rw: Rewrite, tables: seq<Table>, r: seq<Table>, i: nat)
    requires i < |tables| && |r| == |tables|
  {
    if Concerns(rw, tables, i) then Rewritten(rw, tables[i], r[i]) else r[i] == tables[i]
  }

  /** A rewrite keeps the tables in their places, changes those it is about exactly as it says
      and leaves every other one as it is. */
  lemma ApplyFrames(rw: Rewrite, tables: seq<Table>)
    ensures |Apply(rw, tables)| == |tables|
    ensures forall i :: 0 <= i < |tables| ==> Framed(rw, tables, Apply(rw, tables), i)
  {
    if tables != [] { ApplyOnlyThere(rw, tables, 0); }
    forall i | 0 <= i < |tables| ensures Framed(rw, tables, Apply(rw, tables), i) {
      ApplyOnlyThere(rw, tables, i);
      TableRewritten(rw, tables[i]);
    }
  }
}
