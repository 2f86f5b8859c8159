/** Schema changes that survive interruption: the catalog rewrite and the protocol of the
    durable intent around it. */
module DdlRewrite {
  import opened Order

  /* ---- the catalog ---- */

  datatype Column = Column(name: string, details: string)

  /** `column` repeats the first of `columns` for older readers. */
  datatype IndexDef = IndexDef(column: string, columns: seq<string>, unique: bool)

  /** A vector or text index. */
  datatype SideIndex = SideIndex(column: string, details: string)

  datatype Table = Table(
    name: string,
    columns: seq<Column>,
    indexes: seq<IndexDef>,
    vectorIndexes: seq<SideIndex>,
    textIndexes: seq<SideIndex>,
    epoch: nat,
    identityKeyed: bool)

  datatype Rewrite =
    | NoRewrite
    | RenameTable(from: string, to: string)
    | RenameColumn(table: string, from: string, to: string)
    | DropColumn(table: string, column: string)
    | RekeyByIdentity

  predicate HasColumn(columns: seq<Column>, name: string) {
    exists i :: 0 <= i < |columns| && columns[i].name == name
  }

  predicate HasTable(tables: seq<Table>, name: string) {
    exists i :: 0 <= i < |tables| && tables[i].name == name
  }

  predicate HasImplicitId(t: Table) {
    !HasColumn(t.columns, "id")
  }

  /** The name a table's entries are written under after the rewrite. */
  function OutputTable(rw: Rewrite, table: string): string {
    if rw.RenameTable? && rw.from == table then rw.to else table
  }

  /* ---- what a rewrite makes of a catalog ---- */

  function Renamed(name: string, from: string, to: string): string {
    if name == from then to else name
  }

  /** Rename the first column of that name. */
  function RenameFirst(columns: seq<Column>, from: string, to: string): (r: seq<Column>)
    ensures |r| == |columns|
  {
    if columns == [] then []
    else if columns[0].name == from then [columns[0].(name := to)] + columns[1..]
    else [columns[0]] + RenameFirst(columns[1..], from, to)
  }

  function RenameNames(names: seq<string>, from: string, to: string): (r: seq<string>)
    ensures |r| == |names| && forall i :: 0 <= i < |r| ==> r[i] == Renamed(names[i], from, to)
  {
    if names == [] then [] else [Renamed(names[0], from, to)] + RenameNames(names[1..], from, to)
  }

  function RenameIndex(d: IndexDef, from: string, to: string): IndexDef {
    var columns := RenameNames(d.columns, from, to);
    IndexDef(if columns == [] then d.column else columns[0], columns, d.unique)
  }

  function RenameIndexes(ds: seq<IndexDef>, from: string, to: string): (r: seq<IndexDef>)
    ensures |r| == |ds| && forall i :: 0 <= i < |r| ==> r[i] == RenameIndex(ds[i], from, to)
  {
    if ds == [] then [] else [RenameIndex(ds[0], from, to)] + RenameIndexes(ds[1..], from, to)
  }

  function RenameSides(ds: seq<SideIndex>, from: string, to: string): (r: seq<SideIndex>)
    ensures |r| == |ds| && forall i :: 0 <= i < |r| ==> r[i] == ds[i].(column := Renamed(ds[i].column, from, to))
  {
    if ds == [] then [] else [ds[0].(column := Renamed(ds[0].column, from, to))] + RenameSides(ds[1..], from, to)
  }

  function KeepColumns(columns: seq<Column>, name: string): seq<Column> {
    if columns == [] then []
    else KeepColumns(columns[..|columns| - 1], name)
         + if columns[|columns| - 1].name != name then [columns[|columns| - 1]] else []
  }

  function KeepIndexes(ds: seq<IndexDef>, name: string): seq<IndexDef> {
    if ds == [] then []
    else KeepIndexes(ds[..|ds| - 1], name) + if name !in ds[|ds| - 1].columns then [ds[|ds| - 1]] else []
  }

  function KeepSides(ds: seq<SideIndex>, name: string): seq<SideIndex> {
    if ds == [] then []
    else KeepSides(ds[..|ds| - 1], name) + if ds[|ds| - 1].column != name then [ds[|ds| - 1]] else []
  }

  function RewriteTable(rw: Rewrite, t: Table): Table {
    match rw
    case NoRewrite => t
    case RenameTable(_, to) => t.(name := to)
    case RenameColumn(_, from, to) =>
      t.(columns := RenameFirst(t.columns, from, to), indexes := RenameIndexes(t.indexes, from, to),
         vectorIndexes := RenameSides(t.vectorIndexes, from, to), textIndexes := RenameSides(t.textIndexes, from, to))
    case DropColumn(_, column) =>
      t.(columns := KeepColumns(t.columns, column), indexes := KeepIndexes(t.indexes, column),
         vectorIndexes := KeepSides(t.vectorIndexes, column), textIndexes := KeepSides(t.textIndexes, column))
    case RekeyByIdentity => t.(identityKeyed := !HasImplicitId(t))
  }

  /** The first table of that name, or the number of tables. */
  function Find(tables: seq<Table>, name: string): (i: nat)
    ensures i <= |tables| && (i < |tables| ==> tables[i].name == name)
    ensures forall j :: 0 <= j < i ==> tables[j].name != name
  {
    if tables == [] then 0 else if tables[0].name == name then 0 else 1 + Find(tables[1..], name)
  }

  /** The table a rewrite is about. */
  function Target(rw: Rewrite): Option<string> {
    match rw
    case RenameTable(from, _) => Some(from)
    case RenameColumn(table, _, _) => Some(table)
    case DropColumn(table, _) => Some(table)
    case _ => None
  }

  function RewriteAll(rw: Rewrite, tables: seq<Table>): (r: seq<Table>)
    ensures |r| == |tables| && forall i :: 0 <= i < |r| ==> r[i] == RewriteTable(rw, tables[i])
  {
    if tables == [] then [] else [RewriteTable(rw, tables[0])] + RewriteAll(rw, tables[1..])
  }

  function Apply(rw: Rewrite, tables: seq<Table>): seq<Table> {
    if Target(rw) == None then RewriteAll(rw, tables)
    else
      var i := Find(tables, Target(rw).value);
      if i == |tables| then tables else tables[i := RewriteTable(rw, tables[i])]
  }

  /* ---- well-formed catalogs ---- */

  predicate Unique(columns: seq<Column>) {
    forall i, j :: 0 <= i < j < |columns| ==> columns[i].name != columns[j].name
  }

  predicate GoodIndex(d: IndexDef, columns: seq<Column>) {
    && d.columns != [] && d.column == d.columns[0]
    && forall i :: 0 <= i < |d.columns| ==> HasColumn(columns, d.columns[i])
  }

  /** Every index names only existing columns. */
  predicate IndexesExist(t: Table) {
    && (forall i :: 0 <= i < |t.indexes| ==> GoodIndex(t.indexes[i], t.columns))
    && (forall i :: 0 <= i < |t.vectorIndexes| ==> HasColumn(t.columns, t.vectorIndexes[i].column))
    && (forall i :: 0 <= i < |t.textIndexes| ==> HasColumn(t.columns, t.textIndexes[i].column))
  }

  predicate GoodTable(t: Table) {
    Unique(t.columns) && IndexesExist(t)
  }

  predicate UniqueTables(tables: seq<Table>) {
    forall i, j :: 0 <= i < j < |tables| ==> tables[i].name != tables[j].name
  }

  predicate GoodTables(tables: seq<Table>) {
    forall i :: 0 <= i < |tables| ==> GoodTable(tables[i])
  }

  predicate WellFormed(tables: seq<Table>) {
    UniqueTables(tables) && GoodTables(tables)
  }

  /* ---- renaming a column ---- */

  lemma {:induction false} RenameFirstMeans(columns: seq<Column>, from: string, to: string)
    requires Unique(columns)
    ensures forall i :: 0 <= i < |columns| ==>
              RenameFirst(columns, from, to)[i] == columns[i].(name := Renamed(columns[i].name, from, to))
  {
    if columns != [] && columns[0].name != from {
      var rest := columns[1..];
      RenameFirstMeans(rest, from, to);
      forall i | 0 < i < |columns|
        ensures RenameFirst(columns, from, to)[i] == columns[i].(name := Renamed(columns[i].name, from, to))
      {
        assert columns[i] == rest[i - 1];
      }
    }
  }

  lemma {:induction false} RenameKeepsNamed(columns: seq<Column>, name: string, from: string, to: string)
    requires Unique(columns) && HasColumn(columns, name)
    ensures HasColumn(RenameFirst(columns, from, to), Renamed(name, from, to))
  {
    RenameFirstMeans(columns, from, to);
    var i :| 0 <= i < |columns| && columns[i].name == name;
    assert RenameFirst(columns, from, to)[i].name == Renamed(name, from, to);
  }

  /** Indexes follow the renamed column. */
  lemma RenameKeepsIndexes(rw: Rewrite, t: Table)
    requires rw.RenameColumn? && GoodTable(t)
    ensures IndexesExist(RewriteTable(rw, t))
  {
    var r := RewriteTable(rw, t);
    forall i | 0 <= i < |r.indexes| ensures GoodIndex(r.indexes[i], r.columns) {
      var d := t.indexes[i];
      forall j | 0 <= j < |d.columns| ensures HasColumn(r.columns, r.indexes[i].columns[j]) {
        RenameKeepsNamed(t.columns, d.columns[j], rw.from, rw.to);
      }
    }
    forall i | 0 <= i < |r.vectorIndexes| ensures HasColumn(r.columns, r.vectorIndexes[i].column) {
      RenameKeepsNamed(t.columns, t.vectorIndexes[i].column, rw.from, rw.to);
    }
    forall i | 0 <= i < |r.textIndexes| ensures HasColumn(r.columns, r.textIndexes[i].column) {
      RenameKeepsNamed(t.columns, t.textIndexes[i].column, rw.from, rw.to);
    }
  }

  /** Names stay distinct exactly when the new one was free. */
  lemma {:induction false} RenameKeepsUnique(columns: seq<Column>, from: string, to: string)
    requires Unique(columns)
    ensures Unique(RenameFirst(columns, from, to)) <==>
      !HasColumn(columns, from) || from == to || !HasColumn(columns, to)
  {
    RenameFirstMeans(columns, from, to);
    if HasColumn(columns, from) && from != to && HasColumn(columns, to) {
      var i :| 0 <= i < |columns| && columns[i].name == from;
      var j :| 0 <= j < |columns| && columns[j].name == to;
      var r := RenameFirst(columns, from, to);
      assert r[i].name == to == r[j].name;
    }
  }

  predicate ColumnOnce(columns: seq<Column>, name: string) {
    forall i, j :: 0 <= i < j < |columns| ==> columns[i].name != name || columns[j].name != name
  }

  /** Renaming a column a second time does nothing exactly when there was no second one. */
  lemma RenameTwice(rw: Rewrite, t: Table)
    requires rw.RenameColumn?
    ensures RewriteTable(rw, RewriteTable(rw, t)) == RewriteTable(rw, t) <==>
              rw.from == rw.to || ColumnOnce(t.columns, rw.from)
  {
    RenameFirstTwice(t.columns, rw.from, rw.to);
    RenameIndexesTwice(t.indexes, rw.from, rw.to);
    RenameSidesTwice(t.vectorIndexes, rw.from, rw.to);
    RenameSidesTwice(t.textIndexes, rw.from, rw.to);
  }

  lemma {:induction false} RenameFirstTwice(columns: seq<Column>, from: string, to: string)
    ensures var r := RenameFirst(columns, from, to);
            RenameFirst(r, from, to) == r <==> from == to || ColumnOnce(columns, from)
  {
    if columns != [] {
      var rest := columns[1..];
      var r := RenameFirst(columns, from, to);
      RenameNothing(rest, from, to);
      if columns[0].name == from {
        assert r[1..] == rest;
        if HasColumn(rest, from) {
          var j :| 0 <= j < |rest| && rest[j].name == from;
          assert columns[j + 1].name == from;
        }
      } else {
        RenameFirstTwice(rest, from, to);
        assert r[1..] == RenameFirst(rest, from, to);
        assert RenameFirst(r, from, to)[1..] == RenameFirst(r[1..], from, to);
        OnceBehind(columns, from);
      }
    }
  }

  lemma OnceBehind(columns: seq<Column>, name: string)
    requires columns != [] && columns[0].name != name
    ensures ColumnOnce(columns, name) <==> ColumnOnce(columns[1..], name)
  {
    var rest := columns[1..];
    assert forall i :: 0 < i < |columns| ==> columns[i] == rest[i - 1];
    assert forall i :: 0 <= i < |rest| ==> rest[i] == columns[i + 1];
  }

  lemma {:induction false} RenameIndexesTwice(ds: seq<IndexDef>, from: string, to: string)
    ensures var r := RenameIndexes(ds, from, to); RenameIndexes(r, from, to) == r
  {
    var r := RenameIndexes(ds, from, to);
    forall i | 0 <= i < |r| ensures RenameIndex(r[i], from, to) == r[i] {
      RenameIndexTwice(ds[i], from, to);
    }
  }

  lemma {:induction false} RenameIndexTwice(d: IndexDef, from: string, to: string)
    ensures var r := RenameIndex(d, from, to); RenameIndex(r, from, to) == r
  {
    var names := RenameNames(d.columns, from, to);
    assert RenameNames(names, from, to) == names;
  }

  lemma {:induction false} RenameSidesTwice(ds: seq<SideIndex>, from: string, to: string)
    ensures var r := RenameSides(ds, from, to); RenameSides(r, from, to) == r
  {
  }

  lemma {:induction false} RenameNothing(columns: seq<Column>, from: string, to: string)
    ensures RenameFirst(columns, from, to) == columns <==> from == to || !HasColumn(columns, from)
  {
    if columns != [] {
      var rest := columns[1..];
      assert RenameFirst(columns, from, to)[0] == columns[0].(name := Renamed(columns[0].name, from, to));
      if columns[0].name != from {
        RenameNothing(rest, from, to);
        assert RenameFirst(columns, from, to)[1..] == RenameFirst(rest, from, to);
        assert forall i :: 0 < i < |columns| ==> columns[i] == rest[i - 1];
        assert forall i :: 0 <= i < |rest| ==> rest[i] == columns[i + 1];
      }
    }
  }

  /* ---- dropping a column ---- */

  lemma {:induction false} KeepColumnsMeans(columns: seq<Column>, name: string)
    ensures forall i :: 0 <= i < |KeepColumns(columns, name)| ==> KeepColumns(columns, name)[i].name != name
    ensures forall n :: n != name ==> (HasColumn(KeepColumns(columns, name), n) <==> HasColumn(columns, n))
  {
    if columns != [] {
      var before, last := columns[..|columns| - 1], columns[|columns| - 1];
      KeepColumnsMeans(before, name);
      var kept := KeepColumns(before, name);
      assert columns == before + [last];
      forall n | n != name ensures HasColumn(KeepColumns(columns, name), n) <==> HasColumn(columns, n) {
        HasColumnSnoc(before, last, n);
        HasColumnSnoc(kept, last, n);
        assert KeepColumns(columns, name) == if last.name != name then kept + [last] else kept;
      }
    }
  }

  lemma HasColumnSnoc(columns: seq<Column>, last: Column, n: string)
    ensures HasColumn(columns + [last], n) <==> HasColumn(columns, n) || last.name == n
  {
    var all := columns + [last];
    if HasColumn(columns, n) {
      var i :| 0 <= i < |columns| && columns[i].name == n;
      assert all[i].name == n;
    }
    if last.name == n { assert all[|columns|].name == n; }
  }

  lemma {:induction false} KeepColumnsUnique(columns: seq<Column>, name: string)
    requires Unique(columns)
    ensures Unique(KeepColumns(columns, name))
  {
    if columns != [] {
      var before, last := columns[..|columns| - 1], columns[|columns| - 1];
      KeepColumnsUnique(before, name);
      KeepColumnsMeans(before, name);
      if last.name != name {
        assert !HasColumn(before, last.name);
        assert !HasColumn(KeepColumns(before, name), last.name);
      }
    }
  }

  lemma {:induction false} KeepIndexesMeans(ds: seq<IndexDef>, name: string)
    ensures forall i :: 0 <= i < |KeepIndexes(ds, name)| ==>
      KeepIndexes(ds, name)[i] in ds && name !in KeepIndexes(ds, name)[i].columns
  {
    if ds != [] { KeepIndexesMeans(ds[..|ds| - 1], name); }
  }

  lemma {:induction false} KeepSidesMeans(ds: seq<SideIndex>, name: string)
    ensures forall i :: 0 <= i < |KeepSides(ds, name)| ==>
      KeepSides(ds, name)[i] in ds && KeepSides(ds, name)[i].column != name
  {
    if ds != [] { KeepSidesMeans(ds[..|ds| - 1], name); }
  }

  lemma {:induction false} KeepAgain(columns: seq<Column>, name: string)
    requires forall i :: 0 <= i < |columns| ==> columns[i].name != name
    ensures KeepColumns(columns, name) == columns
  {
    if columns != [] { KeepAgain(columns[..|columns| - 1], name); }
  }

  lemma {:induction false} KeepIndexesAgain(ds: seq<IndexDef>, name: string)
    requires forall i :: 0 <= i < |ds| ==> name !in ds[i].columns
    ensures KeepIndexes(ds, name) == ds
  {
    if ds != [] { KeepIndexesAgain(ds[..|ds| - 1], name); }
  }

  lemma {:induction false} KeepSidesAgain(ds: seq<SideIndex>, name: string)
    requires forall i :: 0 <= i < |ds| ==> ds[i].column != name
    ensures KeepSides(ds, name) == ds
  {
    if ds != [] { KeepSidesAgain(ds[..|ds| - 1], name); }
  }

  lemma DropTwice(rw: Rewrite, t: Table)
    requires rw.DropColumn?
    ensures RewriteTable(rw, RewriteTable(rw, t)) == RewriteTable(rw, t)
  {
    KeepColumnsMeans(t.columns, rw.column);
    KeepAgain(KeepColumns(t.columns, rw.column), rw.column);
    KeepIndexesMeans(t.indexes, rw.column);
    KeepIndexesAgain(KeepIndexes(t.indexes, rw.column), rw.column);
    KeepSidesMeans(t.vectorIndexes, rw.column);
    KeepSidesAgain(KeepSides(t.vectorIndexes, rw.column), rw.column);
    KeepSidesMeans(t.textIndexes, rw.column);
    KeepSidesAgain(KeepSides(t.textIndexes, rw.column), rw.column);
  }

  /** The indexes left over name only columns left over. */
  lemma DropKeepsGood(rw: Rewrite, t: Table)
    requires rw.DropColumn? && GoodTable(t)
    ensures GoodTable(RewriteTable(rw, t))
  {
    var r := RewriteTable(rw, t);
    KeepColumnsUnique(t.columns, rw.column);
    KeepColumnsMeans(t.columns, rw.column);
    KeepIndexesMeans(t.indexes, rw.column);
    KeepSidesMeans(t.vectorIndexes, rw.column);
    KeepSidesMeans(t.textIndexes, rw.column);
    forall i | 0 <= i < |r.indexes| ensures GoodIndex(r.indexes[i], r.columns) {
      var d := r.indexes[i];
      var k :| 0 <= k < |t.indexes| && t.indexes[k] == d;
      forall j | 0 <= j < |d.columns| ensures HasColumn(r.columns, d.columns[j]) {
        assert d.columns[j] != rw.column && HasColumn(t.columns, d.columns[j]);
      }
    }
  }

  /* ---- whole catalogs ---- */

  predicate TableOnce(tables: seq<Table>, name: string) {
    forall i, j :: 0 <= i < j < |tables| ==> tables[i].name != name || tables[j].name != name
  }

  /** The name a rename looks up occurs at most once where it is looked up. */
  predicate NameOnce(rw: Rewrite, tables: seq<Table>) {
    match rw
    case RenameTable(from, to) => from == to || TableOnce(tables, from)
    case RenameColumn(table, from, to) =>
      var i := Find(tables, table);
      i == |tables| || from == to || ColumnOnce(tables[i].columns, from)
    case _ => true
  }

  /** Applying a change that is already present does nothing, for any catalog at all, exactly
      when a rename has no second object to find. */
  lemma ApplyTwice(rw: Rewrite, tables: seq<Table>)
    ensures Apply(rw, Apply(rw, tables)) == Apply(rw, tables) <==> NameOnce(rw, tables)
  {
    match rw
    case NoRewrite =>
    case RekeyByIdentity =>
    case RenameTable(from, to) => RenameTableTwice(from, to, tables);
    case RenameColumn(_, _, _) => OneTableTwice(rw, tables);
    case DropColumn(_, _) => OneTableTwice(rw, tables);
  }

  lemma RenameTableTwice(from: string, to: string, tables: seq<Table>)
    ensures var rw := RenameTable(from, to);
            Apply(rw, Apply(rw, tables)) == Apply(rw, tables) <==> from == to || TableOnce(tables, from)
  {
    var rw := RenameTable(from, to);
    var i := Find(tables, from);
    if i < |tables| && from != to {
      var once := Apply(rw, tables);
      var k := Find(once, from);
      if k < |once| {
        assert tables[k].name == from && once[k].name == from && Apply(rw, once)[k].name == to;
      } else {
        assert forall j :: 0 <= j < |tables| && j != i ==> once[j] == tables[j] && tables[j].name != from;
      }
    }
  }

  /** A rewrite that keeps the table's name finds the same table again. */
  lemma OneTableTwice(rw: Rewrite, tables: seq<Table>)
    requires rw.RenameColumn? || rw.DropColumn?
    ensures Apply(rw, Apply(rw, tables)) == Apply(rw, tables) <==> NameOnce(rw, tables)
  {
    var i := Find(tables, rw.table);
    if i < |tables| {
      var once := Apply(rw, tables);
      FindIs(once, rw.table, i);
      if rw.RenameColumn? { RenameTwice(rw, tables[i]); } else { DropTwice(rw, tables[i]); }
      assert once[i := RewriteTable(rw, once[i])][i] == RewriteTable(rw, RewriteTable(rw, tables[i]));
    }
  }

  /** A catalog without repeated names meets that condition for every rewrite. */
  lemma ApplyIdempotent(rw: Rewrite, tables: seq<Table>)
    requires UniqueTables(tables) && forall i :: 0 <= i < |tables| ==> Unique(tables[i].columns)
    ensures Apply(rw, Apply(rw, tables)) == Apply(rw, tables)
  {
    ApplyTwice(rw, tables);
  }

  /** The new name is free, or nothing is renamed. */
  predicate NoClash(rw: Rewrite, tables: seq<Table>) {
    match rw
    case RenameTable(from, to) => !HasTable(tables, from) || from == to || !HasTable(tables, to)
    case RenameColumn(table, from, to) =>
      var i := Find(tables, table);
      i < |tables| ==> !HasColumn(tables[i].columns, from) || from == to || !HasColumn(tables[i].columns, to)
    case _ => true
  }

  /** Every index still names only existing columns, with `column` its first one. */
  lemma ApplyKeepsIndexes(rw: Rewrite, tables: seq<Table>, i: nat)
    requires WellFormed(tables) && i < |tables|
    ensures IndexesExist(Apply(rw, tables)[i])
  {
    TableKeepsIndexes(rw, tables[i]);
    AppliedAt(rw, tables, i);
  }

  lemma AppliedAt(rw: Rewrite, tables: seq<Table>, i: nat)
    requires i < |tables|
    ensures |Apply(rw, tables)| == |tables|
    ensures Apply(rw, tables)[i] == tables[i] || Apply(rw, tables)[i] == RewriteTable(rw, tables[i])
  {
  }

  lemma TableKeepsIndexes(rw: Rewrite, t: Table)
    requires GoodTable(t)
    ensures IndexesExist(RewriteTable(rw, t))
  {
    if rw.RenameColumn? { RenameKeepsIndexes(rw, t); }
    if rw.DropColumn? { DropKeepsGood(rw, t); }
  }

  lemma TablesUniqueAfter(rw: Rewrite, tables: seq<Table>)
    requires UniqueTables(tables)
    ensures UniqueTables(Apply(rw, tables)) <==> !rw.RenameTable? || NoClash(rw, tables)
  {
    var next := Apply(rw, tables);
    if rw.RenameTable? {
      var i := Find(tables, rw.from);
      if i < |tables| && rw.from != rw.to && HasTable(tables, rw.to) {
        var j :| 0 <= j < |tables| && tables[j].name == rw.to;
        assert next[i].name == rw.to == next[j].name;
      }
    } else {
      assert forall i :: 0 <= i < |tables| ==> next[i].name == tables[i].name;
    }
  }

  lemma TableGoodAfter(rw: Rewrite, t: Table)
    requires GoodTable(t)
    ensures GoodTable(RewriteTable(rw, t)) <==>
              !rw.RenameColumn? || !HasColumn(t.columns, rw.from) || rw.from == rw.to || !HasColumn(t.columns, rw.to)
  {
    if rw.RenameColumn? {
      RenameKeepsIndexes(rw, t);
      RenameKeepsUnique(t.columns, rw.from, rw.to);
    }
    if rw.DropColumn? { DropKeepsGood(rw, t); }
  }

  lemma OneTableGood(tables: seq<Table>, i: nat, t: Table)
    requires GoodTables(tables) && i < |tables|
    ensures GoodTables(tables[i := t]) <==> GoodTable(t)
  {
    assert tables[i := t][i] == t;
  }

  /** A rewrite keeps a catalog well-formed exactly when the new name is free. */
  lemma WellFormedAfter(rw: Rewrite, tables: seq<Table>)
    requires WellFormed(tables)
    ensures WellFormed(Apply(rw, tables)) <==> NoClash(rw, tables)
  {
    TablesUniqueAfter(rw, tables);
    if Target(rw) == None {
      forall i | 0 <= i < |tables| ensures GoodTable(RewriteTable(rw, tables[i])) {
        TableGoodAfter(rw, tables[i]);
      }
    } else {
      var i := Find(tables, Target(rw).value);
      if i < |tables| {
        TableGoodAfter(rw, tables[i]);
        OneTableGood(tables, i, RewriteTable(rw, tables[i]));
      }
    }
  }

  /** Renaming onto a taken name leaves two tables of one name. */
  lemma ClashExample(a: Table, b: Table)
    requires GoodTable(a) && GoodTable(b) && a.name == "a" && b.name == "b"
    ensures WellFormed([a, b]) && !WellFormed(Apply(RenameTable("a", "b"), [a, b]))
  {
    assert [a, b][0].name == "a" && [a, b][1].name == "b" && "a" != "b";
    assert HasTable([a, b], "a") && HasTable([a, b], "b");
    WellFormedAfter(RenameTable("a", "b"), [a, b]);
  }

  /** With two columns of one name each replay renames another one. */
  lemma DuplicatesAreNotIdempotent(t: Table, c: Column)
    requires t.columns == [c, c] && c.name == "x"
    ensures var rw := RenameColumn(t.name, "x", "y"); Apply(rw, Apply(rw, [t])) != Apply(rw, [t])
  {
    var rw := RenameColumn(t.name, "x", "y");
    assert t.columns[0].name == t.columns[1].name == "x" && "x" != "y";
    assert [t][0] == t && Find([t], t.name) == 0;
    ApplyTwice(rw, [t]);
  }

  /* ---- the catalog in place ---- */

  /** The column of every index can be recomputed from its list. */
  predicate IndexesNonEmpty(tables: seq<Table>) {
    forall i, j :: 0 <= i < |tables| && 0 <= j < |tables[i].indexes| ==> tables[i].indexes[j].columns != []
  }

  class Catalog {
    var tables: seq<Table>

    constructor (tables: seq<Table>)
      ensures this.tables == tables
    {
      this.tables := tables;
    }

    /** The catalog half of a rewrite. */
    method ApplyToCatalog(rw: Rewrite)
      requires IndexesNonEmpty(tables)
      modifies this
      ensures tables == Apply(rw, old(tables))
    {
      match rw {
        case NoRewrite =>
          assert RewriteAll(rw, tables) == tables;
        case RekeyByIdentity =>
          ghost var before := tables;
          for i := 0 to |tables|
            invariant |tables| == |before|
            invariant forall k :: 0 <= k < |before| ==>
              tables[k] == if k < i then RewriteTable(rw, before[k]) else before[k]
          {
            tables := tables[i := tables[i].(identityKeyed := !HasImplicitId(tables[i]))];
          }
        case RenameTable(from, to) =>
          var i := Position(tables, from);
          if i < |tables| { tables := tables[i := tables[i].(name := to)]; }
        case RenameColumn(table, from, to) =>
          var i := Position(tables, table);
          if i < |tables| {
            var t := RenameColumnIn(tables[i], from, to);
            tables := tables[i := t];
          }
        case DropColumn(table, column) =>
          var i := Position(tables, table);
          if i < |tables| {
            var t := DropColumnIn(tables[i], column);
            tables := tables[i := t];
          }
      }
    }
  }

  method Position(tables: seq<Table>, name: string) returns (i: nat)
    ensures i == Find(tables, name)
  {
    i := 0;
    while i < |tables| && tables[i].name != name
      invariant i <= |tables| && forall j :: 0 <= j < i ==> tables[j].name != name
    {
      i := i + 1;
    }
    FindIs(tables, name, i);
  }

  lemma {:induction false} FindIs(tables: seq<Table>, name: string, i: nat)
    requires i <= |tables| && (forall j :: 0 <= j < i ==> tables[j].name != name)
    requires i == |tables| || tables[i].name == name
    ensures Find(tables, name) == i
  {
  }

  method RenameColumnIn(t: Table, from: string, to: string) returns (r: Table)
    requires forall i :: 0 <= i < |t.indexes| ==> t.indexes[i].columns != []
    ensures r == RewriteTable(RenameColumn(t.name, from, to), t)
  {
    var columns := RenameFirstColumn(t.columns, from, to);
    var indexes := RenameIndexList(t.indexes, from, to);
    var vectors := RenameSideList(t.vectorIndexes, from, to);
    var texts := RenameSideList(t.textIndexes, from, to);
    r := t.(columns := columns, indexes := indexes, vectorIndexes := vectors, textIndexes := texts);
  }

  method RenameFirstColumn(columns: seq<Column>, from: string, to: string) returns (r: seq<Column>)
    ensures r == RenameFirst(columns, from, to)
  {
    var i := 0;
    while i < |columns| && columns[i].name != from
      invariant i <= |columns| && forall j :: 0 <= j < i ==> columns[j].name != from
    {
      i := i + 1;
    }
    RenameFirstAt(columns, from, to, i);
    r := if i < |columns| then columns[i := columns[i].(name := to)] else columns;
  }

  lemma {:induction false} RenameFirstAt(columns: seq<Column>, from: string, to: string, i: nat)
    requires i <= |columns| && (forall j :: 0 <= j < i ==> columns[j].name != from)
    requires i == |columns| || columns[i].name == from
    ensures RenameFirst(columns, from, to) == if i < |columns| then columns[i := columns[i].(name := to)] else columns
  {
    if i > 0 {
      var rest := columns[1..];
      RenameFirstAt(rest, from, to, i - 1);
      if i < |columns| { UpdateBehind(columns[0], rest, i - 1, columns[i].(name := to)); }
      assert columns == [columns[0]] + rest;
    }
  }

  lemma UpdateBehind(first: Column, rest: seq<Column>, i: nat, c: Column)
    requires i < |rest|
    ensures [first] + rest[i := c] == ([first] + rest)[i + 1 := c]
  {
  }

  method RenameNameList(names: seq<string>, from: string, to: string) returns (r: seq<string>)
    ensures r == RenameNames(names, from, to)
  {
    r := names;
    for j := 0 to |names|
      invariant |r| == |names|
      invariant forall k :: 0 <= k < |r| ==> r[k] == if k < j then Renamed(names[k], from, to) else names[k]
    {
      if r[j] == from { r := r[j := to]; }
    }
  }

  method RenameIndexList(ds: seq<IndexDef>, from: string, to: string) returns (r: seq<IndexDef>)
    requires forall i :: 0 <= i < |ds| ==> ds[i].columns != []
    ensures r == RenameIndexes(ds, from, to)
  {
    r := ds;
    for i := 0 to |ds|
      invariant |r| == |ds|
      invariant forall k :: 0 <= k < |r| ==> r[k] == if k < i then RenameIndex(ds[k], from, to) else ds[k]
    {
      var columns := RenameNameList(r[i].columns, from, to);
      r := r[i := IndexDef(columns[0], columns, r[i].unique)];
    }
  }

  method RenameSideList(ds: seq<SideIndex>, from: string, to: string) returns (r: seq<SideIndex>)
    ensures r == RenameSides(ds, from, to)
  {
    r := ds;
    for i := 0 to |ds|
      invariant |r| == |ds|
      invariant forall k :: 0 <= k < |r| ==>
        r[k] == if k < i then ds[k].(column := Renamed(ds[k].column, from, to)) else ds[k]
    {
      if r[i].column == from { r := r[i := r[i].(column := to)]; }
    }
  }

  method DropColumnIn(t: Table, column: string) returns (r: Table)
    ensures r == RewriteTable(DropColumn(t.name, column), t)
  {
    var columns: seq<Column> := [];
    for i := 0 to |t.columns|
      invariant columns == KeepColumns(t.columns[..i], column)
    {
      assert t.columns[..i + 1][..i] == t.columns[..i];
      if t.columns[i].name != column { columns := columns + [t.columns[i]]; }
    }
    var indexes: seq<IndexDef> := [];
    for i := 0 to |t.indexes|
      invariant indexes == KeepIndexes(t.indexes[..i], column)
    {
      assert t.indexes[..i + 1][..i] == t.indexes[..i];
      if column !in t.indexes[i].columns { indexes := indexes + [t.indexes[i]]; }
    }
    var vectors := KeepSideList(t.vectorIndexes, column);
    var texts := KeepSideList(t.textIndexes, column);
    assert t.columns[..|t.columns|] == t.columns && t.indexes[..|t.indexes|] == t.indexes;
    r := t.(columns := columns, indexes := indexes, vectorIndexes := vectors, textIndexes := texts);
  }

  method KeepSideList(ds: seq<SideIndex>, column: string) returns (r: seq<SideIndex>)
    ensures r == KeepSides(ds, column)
  {
    r := [];
    for i := 0 to |ds|
      invariant r == KeepSides(ds[..i], column)
    {
      assert ds[..i + 1][..i] == ds[..i];
      if ds[i].column != column { r := r + [ds[i]]; }
    }
    assert ds[..|ds|] == ds;
  }
}
