/**
 The two migrations of the lymaille module (src/lymaille/migration.rs): their tables and indexes,
 the loops of `up` and `down`, and what resuming and undoing them gives.
 */
module LymailleMigration {
  import opened SchemaStatements

  const TABLE_PREFIX := "miryad_lymaille_"

  function TableName(suffix: string): string { TABLE_PREFIX + suffix }

  // The column helpers.
  const ID := Column("id", IntegerColumn, true, false, true)
  function TextOf(name: string): Column { Column(name, TextColumn, true, false, false) }
  function UniqueText(name: string): Column { Column(name, TextColumn, true, true, false) }
  function OptText(name: string): Column { Column(name, TextColumn, false, false, false) }
  function Number(name: string): Column { Column(name, IntegerColumn, true, false, false) }
  function OptNumber(name: string): Column { Column(name, IntegerColumn, false, false, false) }
  function JsonOf(name: string): Column { Column(name, JsonColumn, true, false, false) }
  function OptJson(name: string): Column { Column(name, JsonColumn, false, false, false) }
  function Timestamp(name: string): Column { Column(name, TimestampColumn, true, false, false) }

  datatype TableSpec = TableSpec(table: string, columns: seq<Column>, primaryKey: seq<string>)

  datatype IndexSpec = IndexSpec(name: string, table: string, columns: seq<string>)

  /** One migration's tables, named unique indexes and search indexes, in the order of its `up`. */
  datatype Lot = Lot(tables: seq<TableSpec>, unique: seq<IndexSpec>, search: seq<IndexSpec>)

  const LOT1: seq<TableSpec> := [
    TableSpec(TableName("catalog_agents"),
              [ID, UniqueText("agent_id"), TextOf("kind"), TextOf("profile"), JsonOf("definition"),
               Timestamp("created_at")], []),
    TableSpec(TableName("agents"),
              [ID, Number("owner_id"), TextOf("agent_id"), TextOf("kind"), TextOf("profile"), JsonOf("definition"),
               Timestamp("created_at")], []),
    TableSpec(TableName("catalog_toolsets"),
              [ID, UniqueText("toolset_id"), TextOf("version"), OptJson("active"), OptJson("draft"),
               Timestamp("created_at")], []),
    TableSpec(TableName("toolsets"),
              [ID, Number("owner_id"), TextOf("toolset_id"), TextOf("version"), OptJson("active"), OptJson("draft"),
               Timestamp("created_at")], []),
    TableSpec(TableName("profiles"), [ID, UniqueText("name"), JsonOf("profile"), Timestamp("created_at")], []),
    TableSpec(TableName("providers"),
              [ID, UniqueText("name"), TextOf("kind"), TextOf("level"), JsonOf("provider"),
               Timestamp("created_at")], []),
    TableSpec(TableName("sessions"),
              [TextOf("subject"), TextOf("session_id"), TextOf("kind"), TextOf("state"), Timestamp("updated_at")],
              ["subject", "session_id"]),
    TableSpec(TableName("memories"),
              [TextOf("subject"), TextOf("level"), TextOf("reference"), TextOf("memory_id"), JsonOf("memory")],
              ["subject", "level", "reference", "memory_id"])]

  const LOT1_UNIQUE: seq<IndexSpec> := [
    IndexSpec("uq_miryad_lymaille_agents_owner_agent", TableName("agents"), ["owner_id", "agent_id"]),
    IndexSpec("uq_miryad_lymaille_toolsets_owner_toolset", TableName("toolsets"), ["owner_id", "toolset_id"])]

  const LOT1_INDEXES: seq<IndexSpec> := [
    IndexSpec("idx_miryad_lymaille_sessions_subject_updated", TableName("sessions"), ["subject", "updated_at"])]

  const REPLACED: seq<string> := [TableName("context_types"), TableName("contexts")]

  const LOT2: seq<TableSpec> := [
    TableSpec(TableName("catalog_context_types"),
              [ID, UniqueText("name"), TextOf("version"), JsonOf("allowed_agents"), OptJson("active"), OptJson("draft"),
               Timestamp("created_at")], []),
    TableSpec(TableName("catalog_contexts"),
              [ID, UniqueText("name"), JsonOf("context"), OptText("context_type"), Timestamp("created_at")], []),
    TableSpec(TableName("user_contexts"),
              [ID, Number("owner_id"), TextOf("name"), OptText("context_type"), JsonOf("context"),
               Timestamp("created_at")], []),
    TableSpec(TableName("mcp_servers"),
              [ID, UniqueText("name"), TextOf("url"), Number("request_timeout_secs"), Number("connect_timeout_secs"),
               TextOf("auth_mode"), OptText("auth_ref"), JsonOf("allowed_groups"), Timestamp("created_at")], []),
    TableSpec(TableName("write_journal"),
              [TextOf("run_key"), TextOf("step_key"), TextOf("op_key"), JsonOf("result"), Timestamp("created_at")],
              ["run_key", "step_key", "op_key"]),
    TableSpec(TableName("script_errors"),
              [ID, OptText("subject"), OptText("session_id"), OptNumber("turn"), OptText("class"), OptText("text"),
               Timestamp("at")], []),
    TableSpec(TableName("matrix_links"), [TextOf("mxid"), TextOf("subject"), Timestamp("created_at")], ["mxid"]),
    TableSpec(TableName("matrix_link_codes"),
              [TextOf("code_hash"), TextOf("subject"), Timestamp("expires_at")], ["code_hash"]),
    TableSpec(TableName("matrix_rooms"),
              [TextOf("room_id"), OptText("subject"), OptText("session_id"), OptText("agent_id"),
               Timestamp("updated_at")],
              ["room_id"]),
    TableSpec(TableName("matrix_events"), [TextOf("event_id"), Timestamp("seen_at")], ["event_id"])]

  const LOT2_UNIQUE: seq<IndexSpec> := [
    IndexSpec("uq_miryad_lymaille_user_contexts_owner_name", TableName("user_contexts"), ["owner_id", "name"])]

  const LOT2_INDEXES: seq<IndexSpec> := [
    IndexSpec("idx_miryad_lymaille_script_errors_session", TableName("script_errors"), ["session_id"]),
    IndexSpec("idx_miryad_lymaille_matrix_links_subject", TableName("matrix_links"), ["subject"]),
    IndexSpec("idx_miryad_lymaille_matrix_link_codes_subject", TableName("matrix_link_codes"), ["subject"]),
    IndexSpec("idx_miryad_lymaille_matrix_events_seen_at", TableName("matrix_events"), ["seen_at"])]

  const SESSIONS := TableName("sessions")
  const ADDED := OptText("context")

  const FIRST_LOT := Lot(LOT1, LOT1_UNIQUE, LOT1_INDEXES)
  const SECOND_LOT := Lot(LOT2, LOT2_UNIQUE, LOT2_INDEXES)

  // ---------------------------------------------------------------------------------------------
  // The statements
  // ---------------------------------------------------------------------------------------------

  function Create(spec: TableSpec): Statement
  {
    CreateTable(spec.table, TableDef(spec.columns, spec.primaryKey))
  }

  function Index(spec: IndexSpec, unique: bool): Statement
  {
    CreateIndex(spec.name, IndexDef(spec.table, spec.columns, unique))
  }

  function Creates(specs: seq<TableSpec>): seq<Statement>
  {
    seq(|specs|, i requires 0 <= i < |specs| => Create(specs[i]))
  }

  function Indexes(specs: seq<IndexSpec>, unique: bool): seq<Statement>
  {
    seq(|specs|, i requires 0 <= i < |specs| => Index(specs[i], unique))
  }

  function CleanUps(replaced: seq<string>): seq<Statement>
  {
    seq(|replaced|, i requires 0 <= i < |replaced| => DropTableIfExists(replaced[i]))
  }

  /** The tables of a lot, in the order of its `down`. */
  function Reversed(specs: seq<TableSpec>): seq<string>
  {
    seq(|specs|, i requires 0 <= i < |specs| => specs[|specs| - 1 - i].table)
  }

  function DropsOf(names: seq<string>): seq<Statement>
  {
    seq(|names|, i requires 0 <= i < |names| => DropTable(names[i]))
  }

  function Additions(lot: Lot): seq<Statement>
  {
    Creates(lot.tables) + Indexes(lot.unique, true) + Indexes(lot.search, false)
  }

  function Up1(): seq<Statement> { Additions(FIRST_LOT) }

  function Down1(): seq<Statement> { DropsOf(Reversed(LOT1)) }

  function ReplacingUp(replaced: seq<string>, lot: Lot): seq<Statement>
  {
    CleanUps(replaced) + (Additions(lot) + [EnsureColumn(SESSIONS, ADDED)])
  }

  function Up2(): seq<Statement> { ReplacingUp(REPLACED, SECOND_LOT) }

  function ReplacingDown(tables: seq<TableSpec>): seq<Statement>
  {
    [DropColumn(SESSIONS, "context")] + DropsOf(Reversed(tables))
  }

  function Down2(): seq<Statement> { ReplacingDown(LOT2) }

  // ---------------------------------------------------------------------------------------------
  // The migrations as they run
  // ---------------------------------------------------------------------------------------------

  class SchemaManager {
    var schema: Schema

    constructor (schema: Schema)
      ensures this.schema == schema
    {
      this.schema := schema;
    }

    method Execute(st: Statement) returns (ok: bool)
      modifies this
      ensures (schema, ok) == Exec(old(schema), st)
    {
      var r := Exec(schema, st);
      schema := r.0;
      ok := r.1;
    }

    method CreateTables(specs: seq<TableSpec>) returns (ok: bool)
      modifies this
      ensures (schema, ok) == Run(old(schema), Creates(specs))
    {
      var i := 0;
      while i < |specs|
        invariant 0 <= i <= |specs|
        invariant Run(old(schema), Creates(specs)) == Run(schema, Creates(specs)[i..])
      {
        ok := Execute(CreateTable(specs[i].table, TableDef(specs[i].columns, specs[i].primaryKey)));
        if !ok {
          return;
        }
        i := i + 1;
      }
      ok := true;
    }

    method CreateIndexes(specs: seq<IndexSpec>, unique: bool) returns (ok: bool)
      modifies this
      ensures (schema, ok) == Run(old(schema), Indexes(specs, unique))
    {
      var i := 0;
      while i < |specs|
        invariant 0 <= i <= |specs|
        invariant Run(old(schema), Indexes(specs, unique)) == Run(schema, Indexes(specs, unique)[i..])
      {
        ok := Execute(CreateIndex(specs[i].name, IndexDef(specs[i].table, specs[i].columns, unique)));
        if !ok {
          return;
        }
        i := i + 1;
      }
      ok := true;
    }

    /** The tables of the lot in the reverse order of their creation. */
    method DropTables(specs: seq<TableSpec>) returns (ok: bool)
      modifies this
      ensures (schema, ok) == Run(old(schema), DropsOf(Reversed(specs)))
    {
      var i := |specs|;
      ghost var sts := DropsOf(Reversed(specs));
      while i > 0
        invariant 0 <= i <= |specs|
        invariant Run(old(schema), sts) == Run(schema, sts[|specs| - i..])
      {
        i := i - 1;
        assert sts[|specs| - i - 1] == DropTable(specs[i].table);
        ok := Execute(DropTable(specs[i].table));
        if !ok {
          return;
        }
      }
      ok := true;
    }

    method Add(lot: Lot) returns (ok: bool)
      modifies this
      ensures (schema, ok) == Run(old(schema), Additions(lot))
    {
      RunAppend(schema, Creates(lot.tables) + Indexes(lot.unique, true), Indexes(lot.search, false));
      RunAppend(schema, Creates(lot.tables), Indexes(lot.unique, true));
      ok := CreateTables(lot.tables);
      if !ok {
        return;
      }
      ok := CreateIndexes(lot.unique, true);
      if !ok {
        return;
      }
      ok := CreateIndexes(lot.search, false);
    }

    method MigrateUp1() returns (ok: bool)
      modifies this
      ensures (schema, ok) == Run(old(schema), Up1())
    {
      ok := Add(FIRST_LOT);
    }

    method MigrateDown1() returns (ok: bool)
      modifies this
      ensures (schema, ok) == Run(old(schema), Down1())
    {
      ok := DropTables(LOT1);
    }

    method CleanUp(replaced: seq<string>) returns (ok: bool)
      modifies this
      ensures (schema, ok) == Run(old(schema), CleanUps(replaced))
    {
      var i := 0;
      while i < |replaced|
        invariant 0 <= i <= |replaced|
        invariant Run(old(schema), CleanUps(replaced)) == Run(schema, CleanUps(replaced)[i..])
      {
        ok := Execute(DropTableIfExists(replaced[i]));
        if !ok {
          return;
        }
        i := i + 1;
      }
      ok := true;
    }

    method ReplaceAndAdd(replaced: seq<string>, lot: Lot) returns (ok: bool)
      modifies this
      ensures (schema, ok) == Run(old(schema), ReplacingUp(replaced, lot))
    {
      ghost var last := [EnsureColumn(SESSIONS, ADDED)];
      RunAppend(schema, CleanUps(replaced), Additions(lot) + last);
      ok := CleanUp(replaced);
      if !ok {
        return;
      }
      RunAppend(schema, Additions(lot), last);
      ok := Add(lot);
      if !ok {
        return;
      }
      assert last[1..] == [];
      ok := Execute(EnsureColumn(SESSIONS, ADDED));
    }

    method MigrateUp2() returns (ok: bool)
      modifies this
      ensures (schema, ok) == Run(old(schema), Up2())
    {
      ok := ReplaceAndAdd(REPLACED, SECOND_LOT);
    }

    method MigrateDown2() returns (ok: bool)
      modifies this
      ensures (schema, ok) == Run(old(schema), Down2())
    {
      ghost var sts := Down2();
      assert sts[0] == DropColumn(SESSIONS, "context") && sts[1..] == DropsOf(Reversed(LOT2));
      ok := Execute(DropColumn(SESSIONS, "context"));
      if !ok {
        return;
      }
      ok := DropTables(LOT2);
    }
  }

  // ---------------------------------------------------------------------------------------------
  // What the declarations are
  // ---------------------------------------------------------------------------------------------

  lemma TableNameInjective(a: string, b: string)
    ensures TableName(a) == TableName(b) <==> a == b
  {
    assert TableName(a)[|TABLE_PREFIX|..] == a;
    assert TableName(b)[|TABLE_PREFIX|..] == b;
  }

  predicate TablesDistinct(specs: seq<TableSpec>)
  {
    forall i, j | 0 <= i < j < |specs| :: specs[i].table != specs[j].table
  }

  /** The index's table is one of the lot, has its columns, and is not covered on `context`. */
  ghost predicate Indexable(specs: seq<TableSpec>, index: IndexSpec)
  {
    && "context" !in index.columns
    && exists i | 0 <= i < |specs| ::
         && specs[i].table == index.table
         && forall c | c in index.columns :: HasColumn(TableDef(specs[i].columns, specs[i].primaryKey), c)
  }

  ghost predicate LotOk(lot: Lot)
  {
    && TablesDistinct(lot.tables)
    && (forall k | 0 <= k < |lot.unique| :: Indexable(lot.tables, lot.unique[k]))
    && (forall k | 0 <= k < |lot.search| :: Indexable(lot.tables, lot.search[k]))
  }

  function Names(specs: seq<TableSpec>): set<string>
  {
    set i | 0 <= i < |specs| :: specs[i].table
  }

  function ReplacedNames(replaced: seq<string>): set<string>
  {
    set i | 0 <= i < |replaced| :: replaced[i]
  }

  lemma At(specs: seq<TableSpec>, i: nat, index: IndexSpec, a: nat, b: nat)
    requires i < |specs| && specs[i].table == index.table && 1 <= |index.columns| <= 2 && "context" !in index.columns
    requires a < |specs[i].columns| && specs[i].columns[a].name == index.columns[0]
    requires |index.columns| == 2 ==> b < |specs[i].columns| && specs[i].columns[b].name == index.columns[1]
    ensures Indexable(specs, index)
  {
    var def := TableDef(specs[i].columns, specs[i].primaryKey);
    assert def.columns[a].name == index.columns[0];
    if |index.columns| == 2 {
      assert def.columns[b].name == index.columns[1];
    }
    forall c | c in index.columns ensures HasColumn(def, c) {
    }
  }

  /** The suffixes of the first lot's tables, of the second lot's, and of the replaced ones. */
  const SUFFIXES: seq<string> := [
    "catalog_agents", "agents", "catalog_toolsets", "toolsets", "profiles", "providers", "sessions", "memories",
    "catalog_context_types", "catalog_contexts", "user_contexts", "mcp_servers", "write_journal", "script_errors",
    "matrix_links", "matrix_link_codes", "matrix_rooms", "matrix_events",
    "context_types", "contexts"]

  lemma SuffixesDiffer(i: nat, j: nat)
    requires i < j < |SUFFIXES|
    ensures TableName(SUFFIXES[i]) != TableName(SUFFIXES[j])
  {
    TableNameInjective(SUFFIXES[i], SUFFIXES[j]);
  }

  lemma SuffixesNameTheTables()
    ensures |LOT1| == 8 && forall i | 0 <= i < 8 :: LOT1[i].table == TableName(SUFFIXES[i])
    ensures |LOT2| == 10 && forall i | 0 <= i < 10 :: LOT2[i].table == TableName(SUFFIXES[i + 8])
    ensures |REPLACED| == 2 && forall i | 0 <= i < 2 :: REPLACED[i] == TableName(SUFFIXES[i + 18])
  {
  }

  lemma TablesDiffer()
    ensures TablesDistinct(LOT1) && TablesDistinct(LOT2)
    ensures forall i, j | 0 <= i < |LOT1| && 0 <= j < |LOT2| :: LOT1[i].table != LOT2[j].table
    ensures forall i, j | 0 <= i < |LOT1| && 0 <= j < |REPLACED| :: LOT1[i].table != REPLACED[j]
    ensures forall i, j | 0 <= i < |LOT2| && 0 <= j < |REPLACED| :: LOT2[i].table != REPLACED[j]
  {
    SuffixesNameTheTables();
    forall i: nat, j: nat | i < j < |SUFFIXES| ensures TableName(SUFFIXES[i]) != TableName(SUFFIXES[j]) {
      SuffixesDiffer(i, j);
    }
  }

  lemma Lot1Unique()
    ensures forall k | 0 <= k < |LOT1_UNIQUE| :: Indexable(LOT1, LOT1_UNIQUE[k])
  {
    At(LOT1, 1, LOT1_UNIQUE[0], 1, 2);
    At(LOT1, 3, LOT1_UNIQUE[1], 1, 2);
  }

  lemma Lot1Search()
    ensures forall k | 0 <= k < |LOT1_INDEXES| :: Indexable(LOT1, LOT1_INDEXES[k])
  {
    At(LOT1, 6, LOT1_INDEXES[0], 0, 4);
  }

  lemma Lot1Ok()
    ensures LotOk(FIRST_LOT)
  {
    TablesDiffer();
    Lot1Unique();
    Lot1Search();
  }

  lemma Lot2Unique()
    ensures forall k | 0 <= k < |LOT2_UNIQUE| :: Indexable(LOT2, LOT2_UNIQUE[k])
  {
    At(LOT2, 2, LOT2_UNIQUE[0], 1, 2);
  }

  lemma Lot2SearchEarlier()
    ensures Indexable(LOT2, LOT2_INDEXES[0]) && Indexable(LOT2, LOT2_INDEXES[1])
  {
    At(LOT2, 5, LOT2_INDEXES[0], 2, 0);
    At(LOT2, 6, LOT2_INDEXES[1], 1, 0);
  }

  lemma Lot2SearchLater()
    ensures Indexable(LOT2, LOT2_INDEXES[2]) && Indexable(LOT2, LOT2_INDEXES[3])
  {
    At(LOT2, 7, LOT2_INDEXES[2], 1, 0);
    At(LOT2, 9, LOT2_INDEXES[3], 1, 0);
  }

  lemma Lot2Ok()
    ensures LotOk(SECOND_LOT)
  {
    TablesDiffer();
    Lot2Unique();
    Lot2SearchEarlier();
    Lot2SearchLater();
    assert |LOT2_INDEXES| == 4;
  }

  /** The two lots and the replaced tables have no name in common. */
  lemma LotsAreApart()
    ensures Names(LOT1) !! Names(LOT2)
    ensures Names(LOT1) !! ReplacedNames(REPLACED) && Names(LOT2) !! ReplacedNames(REPLACED)
  {
    TablesDiffer();
  }

  // ---------------------------------------------------------------------------------------------
  // Resumption
  // ---------------------------------------------------------------------------------------------

  lemma AdditionsResumable(lot: Lot)
    ensures Resumable(Additions(lot))
  {
  }

  lemma ReplacingUpResumable(replaced: seq<string>, lot: Lot)
    requires Names(lot.tables) !! ReplacedNames(replaced)
    ensures Resumable(ReplacingUp(replaced, lot))
  {
    var sts := ReplacingUp(replaced, lot);
    forall i, j | 0 <= i < j < |sts| ensures Compatible(sts[i], sts[j]) {
      if sts[i].DropTableIfExists? && sts[j].CreateTable? {
        assert sts[i].name == replaced[i] && sts[i].name in ReplacedNames(replaced);
        var k := j - |replaced|;
        assert sts[j] == Create(lot.tables[k]) && sts[j].name in Names(lot.tables);
      }
    }
  }

  /** From any schema, an `up` of either lot interrupted after any of its statements, or stopped by
      a failing one, and run again, ends as one uninterrupted `up` would. */
  lemma UpResumes(s: Schema, p: nat)
    ensures p <= |Up1()| ==> Run(Run(s, Up1()[..p]).0, Up1()) == Run(s, Up1())
    ensures p <= |Up2()| ==> Run(Run(s, Up2()[..p]).0, Up2()) == Run(s, Up2())
  {
    LotsAreApart();
    AdditionsResumable(FIRST_LOT);
    ReplacingUpResumable(REPLACED, SECOND_LOT);
    if p <= |Up1()| {
      PrefixThenWhole(s, Up1(), p);
    }
    if p <= |Up2()| {
      PrefixThenWhole(s, Up2(), p);
    }
  }

  // ---------------------------------------------------------------------------------------------
  // Undoing
  // ---------------------------------------------------------------------------------------------

  /** `after` is `before` with the tables of `specs`, as declared, and indexes on them that leave
      the column `context` alone. */
  ghost predicate Extended(before: Schema, after: Schema, specs: seq<TableSpec>)
  {
    && after.tables.Keys == before.tables.Keys + Names(specs)
    && (forall n | n in before.tables :: after.tables[n] == before.tables[n])
    && (forall i | 0 <= i < |specs| ::
          specs[i].table in after.tables &&
          after.tables[specs[i].table] == TableDef(specs[i].columns, specs[i].primaryKey))
    && (forall n | n in before.indexes :: n in after.indexes && after.indexes[n] == before.indexes[n])
    && (forall n | n in after.indexes && n !in before.indexes ::
          after.indexes[n].table in Names(specs) && "context" !in after.indexes[n].columns)
  }

  /** Taking the added tables away gives the start back. */
  lemma RemovingUndoesExtending(before: Schema, after: Schema, specs: seq<TableSpec>)
    requires SchemaOk(before) && Extended(before, after, specs) && Names(specs) !! before.tables.Keys
    ensures Without(after, Names(specs)) == before && SchemaOk(after)
  {
    assert Without(after, Names(specs)).tables == before.tables;
    assert Without(after, Names(specs)).indexes == before.indexes;
  }

  lemma CreatedNames(specs: seq<TableSpec>)
    ensures (set i | 0 <= i < |Creates(specs)| :: Creates(specs)[i].name) == Names(specs)
  {
    var creates := Creates(specs);
    assert forall i | 0 <= i < |specs| :: creates[i].name == specs[i].table;
    forall n | n in Names(specs) ensures exists i | 0 <= i < |creates| :: creates[i].name == n {
      var i :| 0 <= i < |specs| && specs[i].table == n;
      assert creates[i].name == n;
    }
  }

  /** The creations of one lot, on a schema that has none of its tables. */
  lemma CreatesExtend(s: Schema, specs: seq<TableSpec>)
    requires Names(specs) !! s.tables.Keys && TablesDistinct(specs)
    ensures Run(s, Creates(specs)).1 && Extended(s, Run(s, Creates(specs)).0, specs)
  {
    var creates := Creates(specs);
    forall i | 0 <= i < |creates| ensures creates[i].name == specs[i].table && creates[i].name !in s.tables {
      assert specs[i].table in Names(specs);
    }
    CreatesAdd(s, creates);
    CreatedNames(specs);
    var s' := Run(s, creates).0;
    forall i | 0 <= i < |specs|
      ensures s'.tables[specs[i].table] == TableDef(specs[i].columns, specs[i].primaryKey)
    {
      assert s'.tables[creates[i].name] == creates[i].def;
    }
  }

  lemma IndexesExtend(before: Schema, s: Schema, specs: seq<TableSpec>, indexes: seq<IndexSpec>, unique: bool)
    requires Extended(before, s, specs)
    requires forall k | 0 <= k < |indexes| :: Indexable(specs, indexes[k])
    ensures Run(s, Indexes(indexes, unique)).1 && Extended(before, Run(s, Indexes(indexes, unique)).0, specs)
  {
    var creates := Indexes(indexes, unique);
    forall k | 0 <= k < |creates|
      ensures creates[k].index.table in s.tables && creates[k].index.table in Names(specs)
      ensures forall c | c in creates[k].index.columns :: HasColumn(s.tables[creates[k].index.table], c)
    {
      var i :| 0 <= i < |specs| && specs[i].table == indexes[k].table &&
        forall c | c in indexes[k].columns :: HasColumn(TableDef(specs[i].columns, specs[i].primaryKey), c);
      assert s.tables[specs[i].table] == TableDef(specs[i].columns, specs[i].primaryKey);
    }
    IndexesAdd(s, creates);
    var s' := Run(s, creates).0;
    forall n | n in s'.indexes && n !in s.indexes
      ensures s'.indexes[n].table in Names(specs) && "context" !in s'.indexes[n].columns
    {
      var k :| 0 <= k < |creates| && creates[k].name == n && creates[k].index == s'.indexes[n];
      assert s'.indexes[n].columns == indexes[k].columns && Indexable(specs, indexes[k]);
    }
  }

  /** The additions of a lot succeed on a schema that has none of its tables, and extend it. */
  lemma AdditionsExtend(s: Schema, lot: Lot)
    requires LotOk(lot) && Names(lot.tables) !! s.tables.Keys
    ensures Run(s, Additions(lot)).1 && Extended(s, Run(s, Additions(lot)).0, lot.tables)
  {
    CreatesExtend(s, lot.tables);
    var a := Run(s, Creates(lot.tables)).0;
    IndexesExtend(s, a, lot.tables, lot.unique, true);
    var b := Run(a, Indexes(lot.unique, true)).0;
    IndexesExtend(s, b, lot.tables, lot.search, false);
    RunAppend(s, Creates(lot.tables) + Indexes(lot.unique, true), Indexes(lot.search, false));
    RunAppend(s, Creates(lot.tables), Indexes(lot.unique, true));
  }

  /** Each index of a list of distinct, new names is made as declared, unique or not as asked. */
  lemma IndexesAreMade(s: Schema, indexes: seq<IndexSpec>, unique: bool, k: nat)
    requires k < |indexes| && indexes[k].name !in s.indexes
    requires NamesDiffer(indexes)
    requires forall i | 0 <= i < |indexes| ::
               && indexes[i].table in s.tables
               && forall c | c in indexes[i].columns :: HasColumn(s.tables[indexes[i].table], c)
    ensures var s' := Run(s, Indexes(indexes, unique)).0;
            indexes[k].name in s'.indexes &&
            s'.indexes[indexes[k].name] == IndexDef(indexes[k].table, indexes[k].columns, unique)
  {
    var creates := Indexes(indexes, unique);
    IndexesAdd(s, creates);
    assert creates[k].name == indexes[k].name;
    var i :| 0 <= i < |creates| && creates[i].name == indexes[k].name &&
      creates[i].index == Run(s, creates).0.indexes[indexes[k].name];
    assert creates[i].name == indexes[i].name;
  }

  lemma {:induction false} CleanUpsRemove(s: Schema, replaced: seq<string>)
    requires SchemaOk(s)
    ensures Run(s, CleanUps(replaced)) == (Without(s, ReplacedNames(replaced)), true)
    decreases |replaced|
  {
    if replaced == [] {
      assert Without(s, {}) == s;
      assert ReplacedNames(replaced) == {};
    } else {
      var rest := replaced[1..];
      var first := replaced[0];
      assert CleanUps(replaced)[1..] == CleanUps(rest);
      assert Exec(s, DropTableIfExists(first)).0 == Without(s, {first});
      CleanUpsRemove(Without(s, {first}), rest);
      forall n | n in ReplacedNames(replaced) ensures n in {first} + ReplacedNames(rest) {
        var i :| 0 <= i < |replaced| && replaced[i] == n;
        if i > 0 {
          assert n == rest[i - 1];
        }
      }
      forall n | n in ReplacedNames(rest) ensures n in ReplacedNames(replaced) {
        var i :| 0 <= i < |rest| && rest[i] == n;
        assert n == replaced[i + 1];
      }
      assert ReplacedNames(replaced) == {first} + ReplacedNames(rest);
      assert Without(Without(s, {first}), ReplacedNames(rest)) == Without(s, ReplacedNames(replaced));
    }
  }

  /** The table `sessions` is there, without the column the second lot adds, and no index of the
      schema covers that column. */
  predicate ReadyForColumn(s: Schema)
  {
    && SESSIONS in s.tables
    && (forall i | 0 <= i < |s.tables[SESSIONS].columns| :: s.tables[SESSIONS].columns[i].name != "context")
    && (forall n | n in s.indexes && s.indexes[n].table == SESSIONS :: "context" !in s.indexes[n].columns)
  }

  function WithColumn(s: Schema): Schema
    requires SESSIONS in s.tables
  {
    s.(tables := s.tables[SESSIONS := s.tables[SESSIONS].(columns := s.tables[SESSIONS].columns + [ADDED])])
  }

  lemma {:induction false} AddedColumnComesOff(columns: seq<Column>, column: Column)
    requires forall i | 0 <= i < |columns| :: columns[i].name != column.name
    ensures WithoutColumn(columns + [column], column.name) == columns
  {
    if columns == [] {
      assert [column][1..] == [];
      assert columns + [column] == [column];
    } else {
      assert (columns + [column])[1..] == columns[1..] + [column];
      AddedColumnComesOff(columns[1..], column);
    }
  }

  /** Adding the column, then dropping it strictly, is nothing. */
  lemma ColumnRoundTrip(s: Schema)
    requires ReadyForColumn(s)
    ensures Exec(s, EnsureColumn(SESSIONS, ADDED)) == (WithColumn(s), true)
    ensures Exec(WithColumn(s), DropColumn(SESSIONS, "context")) == (s, true)
  {
    var columns := s.tables[SESSIONS].columns;
    AddedColumnComesOff(columns, ADDED);
    assert (columns + [ADDED])[|columns|].name == "context";
    var def := s.tables[SESSIONS];
    assert TableDef(WithoutColumn(columns + [ADDED], "context"), def.primaryKey) == def;
    assert HasColumn(WithColumn(s).tables[SESSIONS], "context");
    assert WithColumn(s).tables[SESSIONS := def] == s.tables;
  }

  /** The second `up`: clean up, extend by the lot, add the column. */
  lemma ReplacingUpResult(s: Schema, replaced: seq<string>, lot: Lot) returns (e: Schema)
    requires SchemaOk(s) && LotOk(lot)
    requires var c := Without(s, ReplacedNames(replaced));
             ReadyForColumn(c) && Names(lot.tables) !! c.tables.Keys
    ensures var c := Without(s, ReplacedNames(replaced));
            Extended(c, e, lot.tables) && ReadyForColumn(e) && e == Run(c, Additions(lot)).0
    ensures Run(s, ReplacingUp(replaced, lot)) == (WithColumn(e), true)
  {
    var c := Without(s, ReplacedNames(replaced));
    var last := [EnsureColumn(SESSIONS, ADDED)];
    CleanUpsRemove(s, replaced);
    AdditionsExtend(c, lot);
    e := Run(c, Additions(lot)).0;
    ColumnRoundTrip(e);
    assert last[1..] == [];
    assert Run(e, last) == Exec(e, last[0]);
    RunAppend(c, Additions(lot), last);
    RunAppend(s, CleanUps(replaced), Additions(lot) + last);
  }

  lemma DropsLot(s: Schema, specs: seq<TableSpec>)
    requires Names(specs) <= s.tables.Keys && TablesDistinct(specs)
    ensures Run(s, DropsOf(Reversed(specs))) == (Without(s, Names(specs)), true)
  {
    var names := Reversed(specs);
    forall i, j | 0 <= i < j < |names| ensures names[i] != names[j] {
    }
    forall i | 0 <= i < |names| ensures names[i] in Names(specs) {
      assert names[i] == specs[|specs| - 1 - i].table;
    }
    DropsRemove(s, names);
    assert DropsOf(names) == seq(|names|, i requires 0 <= i < |names| => DropTable(names[i]));
    forall n | n in Names(specs) ensures n in names {
      var i :| 0 <= i < |specs| && n == specs[i].table;
      assert names[|specs| - 1 - i] == n;
    }
    assert (set n | n in names) == Names(specs);
  }

  /** The second `down` takes the column and the lot's tables off again. */
  lemma ReplacingDownUndoes(c: Schema, e: Schema, specs: seq<TableSpec>)
    requires SchemaOk(c) && Names(specs) !! c.tables.Keys && TablesDistinct(specs)
    requires Extended(c, e, specs) && ReadyForColumn(e)
    ensures Run(WithColumn(e), ReplacingDown(specs)) == (c, true)
  {
    var sts := ReplacingDown(specs);
    ColumnRoundTrip(e);
    assert sts[0] == DropColumn(SESSIONS, "context") && sts[1..] == DropsOf(Reversed(specs));
    DropsLot(e, specs);
    RemovingUndoesExtending(c, e, specs);
  }

  lemma SessionsOfLot1(s: Schema, s1: Schema)
    requires SchemaOk(s) && Names(LOT1) !! s.tables.Keys && Extended(s, s1, LOT1)
    ensures ReadyForColumn(Without(s1, ReplacedNames(REPLACED)))
  {
    LotsAreApart();
    assert LOT1[6].table == SESSIONS;
    assert SESSIONS in Names(LOT1);
    assert s1.tables[SESSIONS].columns == LOT1[6].columns;
  }

  /** From a schema with none of the eighteen tables: both `up`s succeed, the second `down` leaves
      what the first lot made without the two replaced tables, `up` again restores the second lot
      as it was, and both `down`s, in reverse, give the start back, without the two replaced
      tables; so exactly the start when it had neither. */
  lemma UpThenDown(s: Schema)
    requires SchemaOk(s) && Names(LOT1) !! s.tables.Keys && Names(LOT2) !! s.tables.Keys
    ensures var (s1, up1) := Run(s, Up1());
            var (s2, up2) := Run(s1, Up2());
            var (s3, down2) := Run(s2, Down2());
            && up1 && up2 && down2
            && s3 == Without(s1, ReplacedNames(REPLACED))
            && Run(s3, Up2()) == (s2, true)
            && Run(s3, Down1()) == (Without(s, ReplacedNames(REPLACED)), true)
    ensures ReplacedNames(REPLACED) !! s.tables.Keys ==> Without(s, ReplacedNames(REPLACED)) == s
  {
    Lot1Ok();
    Lot2Ok();
    LotsAreApart();
    AdditionsExtend(s, FIRST_LOT);
    var s1 := Run(s, Up1()).0;
    SessionsOfLot1(s, s1);
    RemovingUndoesExtending(s, s1, LOT1);
    UpThenDownFrom(s1, REPLACED, SECOND_LOT);
    FirstDownUndoes(s, s1, LOT1, REPLACED);
    WithoutTwice(s, ReplacedNames(REPLACED), {});
  }

  /** What both `up`s make of a table of the second lot, on a schema with none of the tables. */
  lemma TableOfLot2(s: Schema, i: nat)
    requires SchemaOk(s) && Names(LOT1) !! s.tables.Keys && Names(LOT2) !! s.tables.Keys
    requires i < |LOT2| && LOT2[i].table != SESSIONS
    ensures var s2 := Run(Run(s, Up1()).0, Up2()).0;
            LOT2[i].table in s2.tables && s2.tables[LOT2[i].table] == TableDef(LOT2[i].columns, LOT2[i].primaryKey)
  {
    Lot1Ok();
    Lot2Ok();
    LotsAreApart();
    AdditionsExtend(s, FIRST_LOT);
    var s1 := Run(s, Up1()).0;
    SessionsOfLot1(s, s1);
    RemovingUndoesExtending(s, s1, LOT1);
    TableOfReplacingUp(s1, REPLACED, SECOND_LOT, i);
  }

  lemma TableOfReplacingUp(s: Schema, replaced: seq<string>, lot: Lot, i: nat)
    requires SchemaOk(s) && LotOk(lot) && i < |lot.tables| && lot.tables[i].table != SESSIONS
    requires var c := Without(s, ReplacedNames(replaced));
             ReadyForColumn(c) && Names(lot.tables) !! c.tables.Keys
    ensures var s2, spec := Run(s, ReplacingUp(replaced, lot)).0, lot.tables[i];
            spec.table in s2.tables && s2.tables[spec.table] == TableDef(spec.columns, spec.primaryKey)
  {
    var e := ReplacingUpResult(s, replaced, lot);
  }

  /** The table of the journal has one row a run, step and call: that is its primary key, of three texts
      that are never null. */
  predicate KeyedByCall(s: Schema)
  {
    "miryad_lymaille_write_journal" in s.tables &&
    var journal := s.tables["miryad_lymaille_write_journal"];
    && journal.primaryKey == ["run_key", "step_key", "op_key"]
    && |journal.columns| >= 3
    && forall i | 0 <= i < 3 ::
         && journal.columns[i].name == journal.primaryKey[i] && journal.columns[i].kind == TextColumn
         && journal.columns[i].notNull
  }

  lemma JournalIsDeclared(s: Schema)
    requires LOT2[4].table in s.tables
    requires s.tables[LOT2[4].table] == TableDef(LOT2[4].columns, LOT2[4].primaryKey)
    ensures KeyedByCall(s)
  {
    assert LOT2[4].table == "miryad_lymaille_write_journal";
  }

  lemma JournalIsNotSessions()
    ensures LOT2[4].table != SESSIONS
  {
    SuffixesNameTheTables();
    SuffixesDiffer(6, 12);
  }

  /** Both `up`s make such a journal, on a schema with none of the tables. */
  lemma JournalHasOneRowPerCall(s: Schema)
    requires SchemaOk(s) && Names(LOT1) !! s.tables.Keys && Names(LOT2) !! s.tables.Keys
    ensures KeyedByCall(Run(Run(s, Up1()).0, Up2()).0)
  {
    JournalIsNotSessions();
    TableOfLot2(s, 4);
    JournalIsDeclared(Run(Run(s, Up1()).0, Up2()).0);
  }

  predicate NamesDiffer(indexes: seq<IndexSpec>)
  {
    forall i, j | 0 <= i < j < |indexes| :: indexes[i].name != indexes[j].name
  }

  /** The additions of a lot, in their three parts. */
  lemma AdditionsInParts(s: Schema, lot: Lot) returns (a: Schema, b: Schema)
    requires LotOk(lot) && Names(lot.tables) !! s.tables.Keys
    ensures a == Run(s, Creates(lot.tables)).0 && b == Run(a, Indexes(lot.unique, true)).0
    ensures Extended(s, a, lot.tables) && Extended(s, b, lot.tables) && a.indexes == s.indexes
    ensures Run(s, Additions(lot)) == Run(b, Indexes(lot.search, false))
  {
    CreatesExtend(s, lot.tables);
    a := Run(s, Creates(lot.tables)).0;
    IndexesExtend(s, a, lot.tables, lot.unique, true);
    b := Run(a, Indexes(lot.unique, true)).0;
    SameIndexes(s, lot.tables);
    RunAppend(s, Creates(lot.tables) + Indexes(lot.unique, true), Indexes(lot.search, false));
    RunAppend(s, Creates(lot.tables), Indexes(lot.unique, true));
  }

  /** They make each named index as declared, unique. */
  lemma UniqueIndexesAreMade(s: Schema, lot: Lot, k: nat)
    requires LotOk(lot) && Names(lot.tables) !! s.tables.Keys && NamesDiffer(lot.unique)
    requires k < |lot.unique| && lot.unique[k].name !in s.indexes
    ensures var s', index := Run(s, Additions(lot)).0, lot.unique[k];
            index.name in s'.indexes && s'.indexes[index.name] == IndexDef(index.table, index.columns, true)
  {
    var a, b := AdditionsInParts(s, lot);
    MadeOn(s, a, lot.tables, lot.unique);
    IndexesAreMade(a, lot.unique, true, k);
    MadeOn(s, b, lot.tables, lot.search);
    IndexesStay(b, lot.search, lot.unique[k].name);
  }

  /** And each index for search as declared, not unique. */
  lemma SearchIndexesAreMade(s: Schema, lot: Lot, k: nat)
    requires LotOk(lot) && Names(lot.tables) !! s.tables.Keys && NamesDiffer(lot.search)
    requires k < |lot.search| && lot.search[k].name !in s.indexes
    requires forall i | 0 <= i < |lot.unique| :: lot.unique[i].name != lot.search[k].name
    ensures var s', index := Run(s, Additions(lot)).0, lot.search[k];
            index.name in s'.indexes && s'.indexes[index.name] == IndexDef(index.table, index.columns, false)
  {
    var a, b := AdditionsInParts(s, lot);
    MadeOn(s, a, lot.tables, lot.unique);
    StillAbsent(a, lot.unique, lot.search[k].name);
    MadeOn(s, b, lot.tables, lot.search);
    IndexesAreMade(b, lot.search, false, k);
  }

  lemma IndexesStay(s: Schema, indexes: seq<IndexSpec>, name: string)
    requires name in s.indexes
    requires forall i | 0 <= i < |indexes| ::
               && indexes[i].table in s.tables
               && forall c | c in indexes[i].columns :: HasColumn(s.tables[indexes[i].table], c)
    ensures var s' := Run(s, Indexes(indexes, false)).0; name in s'.indexes && s'.indexes[name] == s.indexes[name]
  {
    IndexesAdd(s, Indexes(indexes, false));
  }

  lemma SameIndexes(s: Schema, specs: seq<TableSpec>)
    requires Names(specs) !! s.tables.Keys && TablesDistinct(specs)
    ensures Run(s, Creates(specs)).0.indexes == s.indexes
  {
    var creates := Creates(specs);
    forall i | 0 <= i < |creates| ensures creates[i].name == specs[i].table && creates[i].name !in s.tables {
      assert specs[i].table in Names(specs);
    }
    CreatesAdd(s, creates);
  }

  lemma StillAbsent(s: Schema, indexes: seq<IndexSpec>, name: string)
    requires name !in s.indexes && forall i | 0 <= i < |indexes| :: indexes[i].name != name
    requires forall i | 0 <= i < |indexes| ::
               && indexes[i].table in s.tables
               && forall c | c in indexes[i].columns :: HasColumn(s.tables[indexes[i].table], c)
    ensures name !in Run(s, Indexes(indexes, true)).0.indexes
  {
    var creates := Indexes(indexes, true);
    forall i | 0 <= i < |creates| ensures creates[i].name != name {
      assert creates[i].name == indexes[i].name;
    }
    IndexesAdd(s, creates);
  }

  /** The columns of a lot's indexes are there once its tables are. */
  lemma MadeOn(before: Schema, s: Schema, specs: seq<TableSpec>, indexes: seq<IndexSpec>)
    requires Extended(before, s, specs) && forall k | 0 <= k < |indexes| :: Indexable(specs, indexes[k])
    ensures forall k | 0 <= k < |indexes| ::
              && indexes[k].table in s.tables
              && forall c | c in indexes[k].columns :: HasColumn(s.tables[indexes[k].table], c)
  {
    forall k | 0 <= k < |indexes|
      ensures indexes[k].table in s.tables
      ensures forall c | c in indexes[k].columns :: HasColumn(s.tables[indexes[k].table], c)
    {
      assert Indexable(specs, indexes[k]);
      var i :| 0 <= i < |specs| && specs[i].table == indexes[k].table &&
        forall c | c in indexes[k].columns :: HasColumn(TableDef(specs[i].columns, specs[i].primaryKey), c);
      assert s.tables[specs[i].table] == TableDef(specs[i].columns, specs[i].primaryKey);
    }
  }

  /** An owner's agents, and toolsets, are told apart by unique indexes. */
  lemma OwnersIndexesAreUnique(s: Schema, k: nat)
    requires Names(LOT1) !! s.tables.Keys && k < 2 && LOT1_UNIQUE[k].name !in s.indexes
    ensures var s1, index := Run(s, Up1()).0, LOT1_UNIQUE[k];
            index.name in s1.indexes && s1.indexes[index.name] == IndexDef(index.table, index.columns, true)
    ensures LOT1_UNIQUE[0] == IndexSpec("uq_miryad_lymaille_agents_owner_agent", TableName("agents"),
                                        ["owner_id", "agent_id"])
    ensures LOT1_UNIQUE[1] == IndexSpec("uq_miryad_lymaille_toolsets_owner_toolset", TableName("toolsets"),
                                        ["owner_id", "toolset_id"])
  {
    Lot1Ok();
    assert LOT1_UNIQUE[0].name[19] != LOT1_UNIQUE[1].name[19];
    UniqueIndexesAreMade(s, FIRST_LOT, k);
  }

  lemma WithoutTwice(s: Schema, a: set<string>, b: set<string>)
    ensures Without(Without(s, a), b) == Without(s, a + b)
    ensures SchemaOk(s) ==> SchemaOk(Without(s, a))
    ensures SchemaOk(s) && a !! s.tables.Keys ==> Without(s, a) == s
  {
    assert Without(Without(s, a), b).tables == Without(s, a + b).tables;
    assert Without(Without(s, a), b).indexes == Without(s, a + b).indexes;
    if SchemaOk(s) && a !! s.tables.Keys {
      assert Without(s, a).tables == s.tables;
      assert Without(s, a).indexes == s.indexes;
    }
  }

  /** The first `down` after the second: it leaves the start, less the replaced tables. */
  lemma FirstDownUndoes(s: Schema, s1: Schema, specs: seq<TableSpec>, replaced: seq<string>)
    requires SchemaOk(s) && TablesDistinct(specs) && Extended(s, s1, specs)
    requires Names(specs) !! s.tables.Keys && Names(specs) !! ReplacedNames(replaced)
    ensures Run(Without(s1, ReplacedNames(replaced)), DropsOf(Reversed(specs))) ==
            (Without(s, ReplacedNames(replaced)), true)
  {
    var r, n := ReplacedNames(replaced), Names(specs);
    DropsLot(Without(s1, r), specs);
    RemovingUndoesExtending(s, s1, specs);
    WithoutTwice(s1, r, n);
    WithoutTwice(s1, n, r);
    assert r + n == n + r;
  }

  lemma UpThenDownFrom(s1: Schema, replaced: seq<string>, lot: Lot)
    requires var c := Without(s1, ReplacedNames(replaced));
             SchemaOk(s1) && LotOk(lot) && Names(lot.tables) !! c.tables.Keys && ReadyForColumn(c)
    ensures var (s2, up2) := Run(s1, ReplacingUp(replaced, lot));
            var (s3, down2) := Run(s2, ReplacingDown(lot.tables));
            && up2 && down2
            && s3 == Without(s1, ReplacedNames(replaced))
            && Run(s3, ReplacingUp(replaced, lot)) == (s2, true)
  {
    var r := ReplacedNames(replaced);
    var c := Without(s1, r);
    WithoutTwice(s1, r, r);
    assert r + r == r;
    var e := ReplacingUpResult(s1, replaced, lot);
    ReplacingDownUndoes(c, e, lot.tables);
    var e' := ReplacingUpResult(c, replaced, lot);
  }

  /** Whatever the schema, no `down` of either lot, even one that fails midway, brings back a table
      that was not there: in particular not the two replaced ones. */
  lemma DownsNeverRecreate(s: Schema)
    ensures Run(s, Down1()).0.tables.Keys <= s.tables.Keys && Run(s, Down2()).0.tables.Keys <= s.tables.Keys
  {
    RemovalsOnlyRemove(s, DropsOf(Reversed(LOT1)));
    RemovalsOnlyRemove(s, ReplacingDown(LOT2));
  }

  /** `down` is strict: on a schema without its last table, the first lot's `down` fails at once and
      changes nothing; so does the second lot's without the added column. */
  lemma DownsAreStrict(s: Schema)
    ensures TableName("memories") !in s.tables ==> Run(s, Down1()) == (s, false)
    ensures SESSIONS in s.tables && !HasColumn(s.tables[SESSIONS], "context") ==> Run(s, Down2()) == (s, false)
  {
    assert Down1()[0] == DropTable(TableName("memories"));
  }
}
