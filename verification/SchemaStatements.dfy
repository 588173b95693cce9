/**
 A database schema and the statements a migration sends to it, one at a time
 (the SeaORM schema manager as used by src/lymaille/migration.rs).
 */
module SchemaStatements {

  datatype ColumnType = IntegerColumn | TextColumn | JsonColumn | TimestampColumn

  datatype Column = Column(name: string, kind: ColumnType, notNull: bool, unique: bool, autoKey: bool)

  datatype TableDef = TableDef(columns: seq<Column>, primaryKey: seq<string>)

  datatype IndexDef = IndexDef(table: string, columns: seq<string>, unique: bool)

  datatype Schema = Schema(tables: map<string, TableDef>, indexes: map<string, IndexDef>)

  datatype Statement =
    | CreateTable(name: string, def: TableDef)        // IF NOT EXISTS
    | CreateIndex(name: string, index: IndexDef)      // IF NOT EXISTS
    | DropTableIfExists(name: string)
    | EnsureColumn(name: string, column: Column)      // has_column, then ALTER TABLE ADD COLUMN
    | DropTable(name: string)                         // strict
    | DropColumn(name: string, columnName: string)    // strict

  predicate HasColumn(def: TableDef, name: string)
  {
    exists i | 0 <= i < |def.columns| :: def.columns[i].name == name
  }

  function WithoutColumn(columns: seq<Column>, name: string): seq<Column>
  {
    if columns == [] then []
    else (if columns[0].name == name then [] else [columns[0]]) + WithoutColumn(columns[1..], name)
  }

  /** Dropping a table drops its indexes. */
  function Without(s: Schema, names: set<string>): Schema
  {
    Schema(s.tables - names, map n | n in s.indexes && s.indexes[n].table !in names :: s.indexes[n])
  }

  /** The schema after one statement, and whether it succeeded; a failed statement does nothing. */
  function Exec(s: Schema, st: Statement): (Schema, bool)
  {
    match st
    case CreateTable(name, def) =>
      (if name in s.tables then s else s.(tables := s.tables[name := def]), true)
    case CreateIndex(name, index) =>
      if name in s.indexes then (s, true)
      else if index.table !in s.tables then (s, false)
      else if exists c | c in index.columns :: !HasColumn(s.tables[index.table], c) then (s, false)
      else (s.(indexes := s.indexes[name := index]), true)
    case DropTableIfExists(name) =>
      (if name in s.tables then Without(s, {name}) else s, true)
    case EnsureColumn(name, column) =>
      if name !in s.tables then (s, false)
      else if HasColumn(s.tables[name], column.name) then (s, true)
      else (s.(tables := s.tables[name := s.tables[name].(columns := s.tables[name].columns + [column])]), true)
    case DropTable(name) =>
      if name in s.tables then (Without(s, {name}), true) else (s, false)
    case DropColumn(name, column) =>
      if name !in s.tables || !HasColumn(s.tables[name], column) then (s, false)
      else if exists n | n in s.indexes :: s.indexes[n].table == name && column in s.indexes[n].columns then (s, false)
      else
        var rest := WithoutColumn(s.tables[name].columns, column);
        (s.(tables := s.tables[name := s.tables[name].(columns := rest)]), true)
  }

  lemma {:induction false} WithoutColumnKeepsTheRest(columns: seq<Column>, name: string, column: Column)
    ensures column in WithoutColumn(columns, name) <==> column in columns && column.name != name
  {
    if columns != [] {
      WithoutColumnKeepsTheRest(columns[1..], name, column);
    }
  }

  /** When a statement succeeds. */
  lemma WhenStatementsSucceed(s: Schema, st: Statement)
    ensures Exec(s, st).1 <==>
            match st
            case CreateTable(_, _) => true
            case CreateIndex(name, index) =>
              name in s.indexes ||
              (index.table in s.tables &&
               forall c | c in index.columns ::
                 exists i | 0 <= i < |s.tables[index.table].columns| :: s.tables[index.table].columns[i].name == c)
            case DropTableIfExists(_) => true
            case EnsureColumn(name, _) => name in s.tables
            case DropTable(name) => name in s.tables
            case DropColumn(name, column) =>
              name in s.tables &&
              (exists i | 0 <= i < |s.tables[name].columns| :: s.tables[name].columns[i].name == column) &&
              forall n | n in s.indexes && s.indexes[n].table == name :: column !in s.indexes[n].columns
  {
  }

  /** What the strict statements leave: the table and its indexes gone, the column gone, and nothing
      else. */
  lemma WhatStrictStatementsLeave(s: Schema, name: string, column: string)
    ensures var (s', ok) := Exec(s, DropTable(name));
            if ok then
              && (forall n :: n in s'.tables <==> n in s.tables && n != name)
              && (forall n | n in s'.tables :: s'.tables[n] == s.tables[n])
              && (forall n :: n in s'.indexes <==> n in s.indexes && s.indexes[n].table != name)
              && (forall n | n in s'.indexes :: s'.indexes[n] == s.indexes[n])
            else s' == s
    ensures var (s', ok) := Exec(s, DropColumn(name, column));
            if ok then
              && s'.indexes == s.indexes && s'.tables.Keys == s.tables.Keys
              && (forall n | n in s.tables && n != name :: s'.tables[n] == s.tables[n])
              && s'.tables[name].primaryKey == s.tables[name].primaryKey
              && (forall c :: c in s'.tables[name].columns <==> c in s.tables[name].columns && c.name != column)
            else s' == s
  {
    if Exec(s, DropColumn(name, column)).1 {
      forall c ensures c in WithoutColumn(s.tables[name].columns, column) <==>
                       c in s.tables[name].columns && c.name != column
      {
        WithoutColumnKeepsTheRest(s.tables[name].columns, column, c);
      }
    }
  }

  /** A list of statements, stopped at the first failure. */
  function Run(s: Schema, sts: seq<Statement>): (Schema, bool)
    decreases |sts|
  {
    if sts == [] then (s, true)
    else
      var (s', ok) := Exec(s, sts[0]);
      if ok then Run(s', sts[1..]) else (s', false)
  }

  lemma {:induction false} RunAppend(s: Schema, a: seq<Statement>, b: seq<Statement>)
    ensures Run(s, a + b) == if Run(s, a).1 then Run(Run(s, a).0, b) else Run(s, a)
    decreases |a|
  {
    if a == [] {
      assert a + b == b;
    } else {
      assert (a + b)[1..] == a[1..] + b;
      RunAppend(Exec(s, a[0]).0, a[1..], b);
    }
  }

  // ---------------------------------------------------------------------------------------------
  // Resumption
  // ---------------------------------------------------------------------------------------------

  /** What a statement of an `up` establishes. */
  predicate Holds(s: Schema, st: Statement)
  {
    match st
    case CreateTable(name, _) => name in s.tables
    case CreateIndex(name, _) => name in s.indexes
    case DropTableIfExists(name) => name !in s.tables
    case EnsureColumn(name, column) => name in s.tables && HasColumn(s.tables[name], column.name)
    case _ => false
  }

  /** `later` keeps what `earlier` established: nothing is dropped but by the opening drops, and no
      dropped table is created again. */
  predicate Compatible(earlier: Statement, later: Statement)
  {
    match later
    case CreateTable(name, _) => earlier.DropTableIfExists? ==> earlier.name != name
    case DropTableIfExists(_) => earlier.DropTableIfExists?
    case DropTable(_) => false
    case DropColumn(_, _) => false
    case _ => true
  }

  predicate Resumable(sts: seq<Statement>)
  {
    && (forall i | 0 <= i < |sts| :: !sts[i].DropTable? && !sts[i].DropColumn?)
    && (forall i, j | 0 <= i < j < |sts| :: Compatible(sts[i], sts[j]))
  }

  lemma EstablishedIsKept(s: Schema, earlier: Statement, later: Statement)
    requires Holds(s, earlier) && Compatible(earlier, later)
    ensures Holds(Exec(s, later).0, earlier)
  {
    if later.EnsureColumn? && earlier.EnsureColumn? && later.name == earlier.name && earlier.name in s.tables {
      var i :|
        0 <= i < |s.tables[earlier.name].columns| && s.tables[earlier.name].columns[i].name == earlier.column.name;
      assert (s.tables[earlier.name].columns + [later.column])[i].name == earlier.column.name;
    }
  }

  lemma ExecEstablishes(s: Schema, st: Statement)
    requires !st.DropTable? && !st.DropColumn?
    ensures Exec(s, st).1 ==> Holds(Exec(s, st).0, st)
    ensures Holds(s, st) ==> Exec(s, st) == (s, true)
  {
    if st.EnsureColumn? && st.name in s.tables {
      var columns := s.tables[st.name].columns + [st.column];
      assert columns[|columns| - 1].name == st.column.name;
    }
  }

  lemma {:induction false} PrefixEstablished(s: Schema, sts: seq<Statement>, p: nat)
    requires Resumable(sts) && p <= |sts| && Run(s, sts[..p]).1
    ensures forall i | 0 <= i < p :: Holds(Run(s, sts[..p]).0, sts[i])
    decreases p
  {
    if p > 0 {
      assert sts[..p] == sts[..p - 1] + [sts[p - 1]];
      RunAppend(s, sts[..p - 1], [sts[p - 1]]);
      var t := Run(s, sts[..p - 1]).0;
      assert [sts[p - 1]][1..] == [];
      assert Run(t, [sts[p - 1]]) == Exec(t, sts[p - 1]);
      PrefixEstablished(s, sts, p - 1);
      ExecEstablishes(t, sts[p - 1]);
      forall i | 0 <= i < p - 1 ensures Holds(Run(s, sts[..p]).0, sts[i]) {
        EstablishedIsKept(t, sts[i], sts[p - 1]);
      }
    }
  }

  lemma {:induction false} EstablishedIsSkipped(s: Schema, sts: seq<Statement>, p: nat)
    requires Resumable(sts) && p <= |sts| && forall i | 0 <= i < p :: Holds(s, sts[i])
    ensures Run(s, sts[..p]) == (s, true)
    decreases p
  {
    if p > 0 {
      assert sts[..p] == sts[..p - 1] + [sts[p - 1]];
      RunAppend(s, sts[..p - 1], [sts[p - 1]]);
      assert [sts[p - 1]][1..] == [];
      EstablishedIsSkipped(s, sts, p - 1);
      ExecEstablishes(s, sts[p - 1]);
    }
  }

  lemma {:induction false} SucceedingPrefix(s: Schema, sts: seq<Statement>, p: nat)
    requires Resumable(sts) && p <= |sts| && Run(s, sts[..p]).1
    ensures Run(Run(s, sts[..p]).0, sts) == Run(s, sts)
  {
    var t := Run(s, sts[..p]).0;
    PrefixEstablished(s, sts, p);
    EstablishedIsSkipped(t, sts, p);
    assert sts == sts[..p] + sts[p..];
    RunAppend(s, sts[..p], sts[p..]);
    RunAppend(t, sts[..p], sts[p..]);
  }

  /** Resumption: from any schema, any prefix of the statements, be it stopped there or by a
      failing statement, followed by the whole list, ends like the whole list: the same schema,
      the same success or failure. With the prefix whole, the list is idempotent. */
  lemma {:induction false} PrefixThenWhole(s: Schema, sts: seq<Statement>, p: nat)
    requires Resumable(sts) && p <= |sts|
    ensures Run(Run(s, sts[..p]).0, sts) == Run(s, sts)
    decreases p
  {
    if Run(s, sts[..p]).1 {
      SucceedingPrefix(s, sts, p);
    } else {
      assert sts[..p] == sts[..p - 1] + [sts[p - 1]];
      RunAppend(s, sts[..p - 1], [sts[p - 1]]);
      PrefixThenWhole(s, sts, p - 1);
    }
  }

  // ---------------------------------------------------------------------------------------------
  // Creation and strict removal
  // ---------------------------------------------------------------------------------------------

  /** No index without its table. */
  predicate SchemaOk(s: Schema)
  {
    forall n | n in s.indexes :: s.indexes[n].table in s.tables
  }

  predicate Distinct<T(==)>(items: seq<T>)
  {
    forall i, j | 0 <= i < j < |items| :: items[i] != items[j]
  }

  /** Strict drops of distinct tables, all present, remove them and their indexes, whatever the
      order. */
  lemma {:induction false} DropsRemove(s: Schema, names: seq<string>)
    requires Distinct(names) && forall i | 0 <= i < |names| :: names[i] in s.tables
    ensures Run(s, seq(|names|, i requires 0 <= i < |names| => DropTable(names[i]))) ==
            (Without(s, set n | n in names), true)
    decreases |names|
  {
    var sts := seq(|names|, i requires 0 <= i < |names| => DropTable(names[i]));
    if names == [] {
      assert Without(s, set n | n in names) == s;
    } else {
      var rest := names[1..];
      var s' := Without(s, {names[0]});
      assert sts[1..] == seq(|rest|, i requires 0 <= i < |rest| => DropTable(rest[i]));
      assert forall i | 0 <= i < |rest| :: rest[i] == names[i + 1];
      DropsRemove(s', rest);
      assert (set n | n in names) == {names[0]} + set n | n in rest;
      assert Without(s', set n | n in rest) == Without(s, set n | n in names);
    }
  }

  lemma CreatedNamesSplit(creates: seq<Statement>)
    requires creates != [] && forall i | 0 <= i < |creates| :: creates[i].CreateTable?
    ensures (set i | 0 <= i < |creates| :: creates[i].name) ==
            {creates[0].name} + (set i | 0 <= i < |creates[1..]| :: creates[1..][i].name)
  {
    var rest := creates[1..];
    forall i | 0 <= i < |rest| ensures rest[i].name in set j | 0 <= j < |creates| :: creates[j].name {
      assert creates[i + 1].name == rest[i].name;
    }
    forall i | 0 < i < |creates| ensures creates[i].name in set i | 0 <= i < |rest| :: rest[i].name {
      assert creates[i] == rest[i - 1];
    }
  }

  /** Creations of tables that are all absent, and distinct, add them as they are. */
  lemma {:induction false} CreatesAdd(s: Schema, creates: seq<Statement>)
    requires forall i | 0 <= i < |creates| :: creates[i].CreateTable? && creates[i].name !in s.tables
    requires forall i, j | 0 <= i < j < |creates| :: creates[i].name != creates[j].name
    ensures var (s', ok) := Run(s, creates);
            && ok && s'.indexes == s.indexes
            && s'.tables.Keys == s.tables.Keys + (set i | 0 <= i < |creates| :: creates[i].name)
            && (forall n | n in s.tables :: s'.tables[n] == s.tables[n])
            && (forall i | 0 <= i < |creates| :: s'.tables[creates[i].name] == creates[i].def)
    decreases |creates|
  {
    if creates != [] {
      var rest := creates[1..];
      assert forall i | 0 <= i < |rest| :: rest[i] == creates[i + 1];
      var s1 := Exec(s, creates[0]).0;
      assert s1.tables.Keys == s.tables.Keys + {creates[0].name};
      CreatesAdd(s1, rest);
      CreatedNamesSplit(creates);
      var s' := Run(s1, rest).0;
      forall i | 0 <= i < |creates|
        ensures creates[i].name in s'.tables && s'.tables[creates[i].name] == creates[i].def
      {
        if i > 0 {
          assert creates[i] == rest[i - 1];
        }
      }
    }
  }

  /** Creations of indexes whose names are absent and whose columns exist add indexes, all on the
      tables they name, and touch no table. */
  lemma {:induction false} IndexesAdd(s: Schema, creates: seq<Statement>)
    requires forall i | 0 <= i < |creates| ::
               && creates[i].CreateIndex? && creates[i].index.table in s.tables
               && forall c | c in creates[i].index.columns :: HasColumn(s.tables[creates[i].index.table], c)
    ensures var (s', ok) := Run(s, creates);
            && ok && s'.tables == s.tables && s.indexes.Keys <= s'.indexes.Keys
            && (forall i | 0 <= i < |creates| :: creates[i].name in s'.indexes)
            && (forall n | n in s.indexes :: s'.indexes[n] == s.indexes[n])
            && (forall n | n in s'.indexes && n !in s.indexes ::
                  exists i | 0 <= i < |creates| :: creates[i].name == n && creates[i].index == s'.indexes[n])
    decreases |creates|
  {
    if creates != [] {
      var rest := creates[1..];
      assert forall i | 0 <= i < |rest| :: rest[i] == creates[i + 1];
      var s1 := Exec(s, creates[0]).0;
      IndexesAdd(s1, rest);
      var s' := Run(s, creates).0;
      forall n | n in s'.indexes && n !in s.indexes
        ensures exists i | 0 <= i < |creates| :: creates[i].name == n && creates[i].index == s'.indexes[n]
      {
        if n in s1.indexes {
          assert creates[0].name == n;
        } else {
          var i :| 0 <= i < |rest| && rest[i].name == n && rest[i].index == s'.indexes[n];
          assert creates[i + 1].name == n;
        }
      }
    }
  }

  /** Strict removals never bring a table back, nor an index. */
  lemma {:induction false} RemovalsOnlyRemove(s: Schema, sts: seq<Statement>)
    requires forall i | 0 <= i < |sts| :: sts[i].DropTable? || sts[i].DropColumn?
    ensures Run(s, sts).0.tables.Keys <= s.tables.Keys && Run(s, sts).0.indexes.Keys <= s.indexes.Keys
    decreases |sts|
  {
    if sts != [] {
      RemovalsOnlyRemove(Exec(s, sts[0]).0, sts[1..]);
    }
  }
}
