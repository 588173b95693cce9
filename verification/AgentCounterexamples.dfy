/**
 Batches the journal does not protect, a row it lets double, and a recovered row its caller may not
 read (src/lymaille/resource_module.rs).
 */
module AgentCounterexamples {
  import opened Wrappers
  import opened JsonValues
  import opened Rbac
  import opened RestCore
  import opened Listing
  import opened CanonicalText
  import opened AgentWrites
  import opened AgentRecovery
  import opened AgentRecoveryCases
  import opened AgentAttempts
  import opened AgentDuplicates
  import opened AgentReads

  const NOTES := Entity(
    {"id"}, "id", None, None, Access(Public, Public, None), {},
    (body: Row) => Some(body),
    (model: Row, subject: string) => Ok(model),
    (model: Row, existing: Row, subject: string) => Ok(model),
    (existing: Row, subject: string) => Ok(()))

  const NOTES_SESSION := Session(
    Env(map["notes" := Entry(NOTES, true)], map["alice" := 1],
        (u: UserId, g: string) => Ok(false), (r: Double) => "0.0"),
    "alice", Some(Scope("run", "step")))

  const UPDATE_NOTE := UpdateCall("notes", 1, Obj(map["id" := Int(1)]))
  const CREATE_NOTE := CreateCall("notes", Obj(map["id" := Int(0)]))

  /** Update row 1, which does not exist yet, and go on; then create a row, which becomes row 1. */
  function UpdateThenCreate(replies: seq<Reply>): Option<Call>
  {
    if |replies| == 0 then Some(UPDATE_NOTE)
    else if |replies| == 1 then Some(CREATE_NOTE)
    else None
  }

  const NO_NOTES := Db(map["notes" := Table([], 1)], map[])

  const NOTE: Row := map["id" := Int(1)]

  /** The database once the creation has written, and once it is recorded. */
  const UNRECORDED := Db(map["notes" := Table([NOTE], 2)], map[])
  const ONE_NOTE := UNRECORDED.(journal := map[Key(Scope("run", "step"), CREATE_NOTE) := Obj(NOTE)])

  /** The text of a note with a one-digit key is far below the bound. */
  lemma NoteFits(note: Row, digit: i64)
    requires 0 < digit < 10 && note == map["id" := Int(digit)]
    ensures !TooLarge(NOTES_SESSION.env, Obj(note))
  {
    var float := NOTES_SESSION.env.float;
    OneKey("id");
    assert note.Keys == {"id"} && ["id"][1..] == [] && MoreFields(float, Obj(note), []) == "}";
    assert note["id"] == Int(digit) && Canonical(float, Int(digit)) == Whole(digit);
    assert Escape("id") == "id" && |Whole(digit)| == 1;
    var text := Canonical(float, Obj(note));
    assert text == "{" + (Field(float, Obj(note), "id") + "}");
    FewBytes(text);
  }

  const ALICE := Admitted(1, NOTES)

  lemma NoteIsInserted()
    ensures var w := Write(NOTES_SESSION, ALICE, Table([], 1), CREATE_NOTE);
            w.Ok? && w.value.1 == Obj(NOTE) && w.value.0.rows == [NOTE]
  {
    var stored: Row := CREATE_NOTE.body.fields["id" := Int(1)];
    assert stored == NOTE;
  }

  lemma NoteIsUpdated(t: Table)
    requires t.rows == [NOTE]
    ensures var w := Write(NOTES_SESSION, ALICE, t, UPDATE_NOTE); w.Ok? && w.value.1 == Obj(NOTE)
  {
    assert HasId(NOTES, NOTE, 1);
    assert NOTE["id" := Int(1)] == NOTE;
  }

  lemma NoteIsCreated(before: nat)
    requires before < MAX_WRITES_PER_RUN
    ensures Apply(NOTES_SESSION, NO_NOTES, before, CREATE_NOTE) ==
            Passage([NO_NOTES, UNRECORDED, ONE_NOTE], Ok(Obj(NOTE)))
    ensures Sends(NOTES_SESSION, NO_NOTES, before, CREATE_NOTE, AtRecord)
  {
    NoteFits(NOTE, 1);
    NoteIsInserted();
    assert NO_NOTES.tables["notes" := Table([NOTE], 2)] == UNRECORDED.tables;
    assert NO_NOTES.journal[Key(Scope("run", "step"), CREATE_NOTE) := Obj(NOTE)] == ONE_NOTE.journal;
  }

  lemma NoteIsFoundLater()
    ensures Apply(NOTES_SESSION, NO_NOTES, 0, UPDATE_NOTE) == Passage([NO_NOTES], Err(NoSuchRow))
    ensures Apply(NOTES_SESSION, ONE_NOTE, 0, UPDATE_NOTE).reply.Ok?
  {
    NoteFits(NOTE, 1);
    NoteIsUpdated(ONE_NOTE.tables["notes"]);
  }

  lemma OneCrash<C(!new)>(m: Machine<C>, script: Script<C>, db: Db, limit: nat, c: Crash)
    ensures History(m, script, db, limit, [c]) == CrashedRun(m, script, db, [], limit, c)
  {
    var left := CrashedRun(m, script, db, [], limit, c);
    assert [c][1..] == [];
    assert History(m, script, db, limit, [c]) == History(m, script, left, limit, []);
  }

  /** A run of two acts, the first of which changes nothing; and the crash after the second. */
  lemma QuietThenAct<C(!new)>(m: Machine<C>, acts: Script<C>, db: Db)
    requires acts([]).Some? && m.step(db, 0, acts([]).value).trace == [db]
    requires acts([m.step(db, 0, acts([]).value).reply]).Some?
    ensures var first := m.step(db, 0, acts([]).value).reply;
            var o := m.step(db, 1, acts([first]).value);
            && Run(m, acts, db, [], 2).0 == Last(o)
            && (|o.trace| == 3 ==> CrashedRun(m, acts, db, [], 2, Crash(1, 2)) == Last(o))
  {
    var first := m.step(db, 0, acts([]).value).reply;
    assert [] + [first] == [first];
    var o := m.step(db, 1, acts([first]).value);
    assert Run(m, acts, db, [first], 2) == Run(m, acts, Last(o), [first] + [o.reply], 2);
  }

  /** Distinct keys, only creates and updates, hooks that store the body: and yet the rerun after a
      crash answers otherwise, because a failed call is not journaled and here succeeds later.
      So `Resumable` must ask that failures repeat. */
  lemma FailedUpdateDoesNotConverge()
    ensures !Converges(MachineOf(NOTES_SESSION), UpdateThenCreate, NO_NOTES, 2)
  {
    var m := MachineOf(NOTES_SESSION);
    var c := Crash(1, 2);
    NoteIsCreated(1);
    NoteIsFoundLater();
    QuietThenAct(m, UpdateThenCreate, NO_NOTES);
    FirstAnswer(m, UpdateThenCreate, NO_NOTES, [], 2);
    FirstAnswer(m, UpdateThenCreate, ONE_NOTE, [], 2);
    OneCrash(m, UpdateThenCreate, NO_NOTES, 2, c);
    assert Run(m, UpdateThenCreate, ONE_NOTE, [], 2) != Run(m, UpdateThenCreate, NO_NOTES, [], 2);
  }

  // ---------------------------------------------------------------------------------------------
  // A second row without a crash
  // ---------------------------------------------------------------------------------------------

  /** Create the note; whatever the answer, create it again. */
  function CreateTwice(replies: seq<Reply>): Option<Call>
  {
    if |replies| < 2 then Some(CREATE_NOTE) else None
  }

  /** The first record fails, and no crash comes. */
  const RECORD_FAILS := Attempt(CreateTwice, Crash(2, 0), (i: nat) => if i == 0 then AtRecord else NoFault)

  lemma RecordFails()
    ensures ApplyWith(NOTES_SESSION, NO_NOTES, 0, CREATE_NOTE, AtRecord) ==
            Passage([NO_NOTES, UNRECORDED], Err(Internal))
    ensures RecordRefused(NOTES_SESSION, RECORD_FAILS, NO_NOTES, 0, CREATE_NOTE)
  {
    NoteIsCreated(0);
  }

  const SECOND: Row := map["id" := Int(2)]

  lemma SecondNoteIsInserted()
    ensures RowCount(Last(Apply(NOTES_SESSION, UNRECORDED, 1, CREATE_NOTE)), "notes") == 2
    ensures !RecordRefused(NOTES_SESSION, RECORD_FAILS, UNRECORDED, 1, CREATE_NOTE)
  {
    var w := Write(NOTES_SESSION, ALICE, Table([NOTE], 2), CREATE_NOTE);
    var stored: Row := CREATE_NOTE.body.fields["id" := Int(2)];
    assert stored == SECOND;
    assert w == Ok((Table([NOTE] + [SECOND], 3), Obj(SECOND)));
    NoteFits(SECOND, 2);
  }

  const FAILED: seq<Reply> := [Err(Internal)]

  /** The second call of that attempt. */
  lemma SecondCall()
    ensures var s, a := NOTES_SESSION, RECORD_FAILS;
            && RowsAdded(s, a, UNRECORDED, FAILED, 2, CREATE_NOTE) == 1
            && !CrashedInWindow(s, a, UNRECORDED, FAILED, 2, CREATE_NOTE)
            && Refused(s, a, UNRECORDED, FAILED, 2, CREATE_NOTE) == 0
  {
    SecondNoteIsInserted();
  }

  /** An entity without a unique label, answers far below the bound and no crash: a script that
      catches the failure of a record and creates again leaves two rows under one key. */
  lemma FailedRecordMakesASecondRow()
    ensures var s, a := NOTES_SESSION, RECORD_FAILS;
            && RowsAdded(s, a, NO_NOTES, [], 2, CREATE_NOTE) == 2
            && !CrashedInWindow(s, a, NO_NOTES, [], 2, CREATE_NOTE)
            && Refused(s, a, NO_NOTES, [], 2, CREATE_NOTE) == 1
  {
    RecordFails();
    SecondCall();
    assert [] + FAILED == FAILED;
    assert CallOf(NOTES_SESSION, RECORD_FAILS, NO_NOTES, 0, CREATE_NOTE) ==
           Passage([NO_NOTES, UNRECORDED], Err(Internal));
  }

  // ---------------------------------------------------------------------------------------------
  // A read that answers otherwise
  // ---------------------------------------------------------------------------------------------

  const LIST_NOTES := ListRows("notes", "", -1, -1)
  const NONE_LISTED: Reply := Ok(PageJson(Paged([], 1, 20, 0, 0)))
  const CREATE_BLANK := CreateCall("notes", Obj(map[]))

  /** List the notes; if there are none, create a note, else a blank one. */
  function ListThenCreate(replies: seq<Reply>): Option<Act>
  {
    if |replies| == 0 then Some(Ask(LIST_NOTES))
    else if |replies| == 1 then Some(Issue(if replies[0] == NONE_LISTED then CREATE_NOTE else CREATE_BLANK))
    else None
  }

  lemma NotesAreListed()
    ensures Answer(NOTES_SESSION, NO_NOTES, LIST_NOTES) == NONE_LISTED
    ensures Answer(NOTES_SESSION, ONE_NOTE, LIST_NOTES) != NONE_LISTED
  {
    assert AgentPagination(-1, -1) == Pagination(1, 20);
    assert Select(Unrestricted, [NOTE]) == [NOTE] by {
      assert [NOTE][1..] == [];
    }
    assert Filtered(NOTES, None, [NOTE]) == [NOTE] by {
      assert [NOTE][1..] == [];
    }
    var paged := AgentList(NOTES_SESSION.env.members, NOTES, 1, ONE_NOTE.tables["notes"], -1, -1, "").value;
    assert PageJson(paged).fields["total_items"] == Int(1);
  }

  lemma BlankIsInserted()
    ensures RowCount(Last(Apply(NOTES_SESSION, ONE_NOTE, 0, CREATE_BLANK)), "notes") == 2
  {
    var stored: Row := CREATE_BLANK.body.fields["id" := Int(2)];
    assert "id" in CREATE_NOTE.body.fields && CREATE_BLANK != CREATE_NOTE;
    assert Write(NOTES_SESSION, ALICE, ONE_NOTE.tables["notes"], CREATE_BLANK) ==
           Ok((Table([NOTE] + [stored], 3), Obj(stored)));
  }

  lemma ReadThenCall(s: Session, script: Script<Act>, db: Db, query: Query, call: Call)
    requires script([]) == Some(Ask(query)) && script([Answer(s, db, query)]) == Some(Issue(call))
    ensures var m, acts, o := MachineOfActs(s), Numbered(script), Apply(s, db, 0, call);
            && Run(m, acts, db, [], 2).0 == Last(o)
            && (|o.trace| == 3 ==> CrashedRun(m, acts, db, [], 2, Crash(1, 2)) == Last(o))
  {
    var first := Answer(s, db, query);
    assert [first][..|[first]| - 1] == [] && !Charges(script, []);
    assert Writes(script, [first]) == Writes(script, []) == 0;
    assert Numbered(script)([]) == Some((0, Ask(query))) && Numbered(script)([first]) == Some((0, Issue(call)));
    QuietThenAct(MachineOfActs(s), Numbered(script), db);
  }

  /** What the script does from either database. */
  lemma FirstRun()
    ensures var m, acts := MachineOfActs(NOTES_SESSION), Numbered(ListThenCreate);
            && CrashedRun(m, acts, NO_NOTES, [], 2, Crash(1, 2)) == ONE_NOTE
            && Run(m, acts, NO_NOTES, [], 2).0 == ONE_NOTE
  {
    NotesAreListed();
    NoteIsCreated(0);
    ReadThenCall(NOTES_SESSION, ListThenCreate, NO_NOTES, LIST_NOTES, CREATE_NOTE);
  }

  lemma Rerun()
    ensures var m, acts := MachineOfActs(NOTES_SESSION), Numbered(ListThenCreate);
            RowCount(Run(m, acts, ONE_NOTE, [], 2).0, "notes") == 2
  {
    NotesAreListed();
    BlankIsInserted();
    ReadThenCall(NOTES_SESSION, ListThenCreate, ONE_NOTE, LIST_NOTES, CREATE_BLANK);
  }

  /** A crash after the creation, and the rerun lists a note and creates another: two rows, where the
      uninterrupted run leaves one. So reads must repeat too. */
  lemma ListThenCreateDoesNotConverge()
    ensures var m, acts := MachineOfActs(NOTES_SESSION), Numbered(ListThenCreate);
            && RowCount(Run(m, acts, NO_NOTES, [], 2).0, "notes") == 1
            && RowCount(Run(m, acts, History(m, acts, NO_NOTES, 2, [Crash(1, 2)]), [], 2).0, "notes") == 2
            && !Converges(m, acts, NO_NOTES, 2)
  {
    FirstRun();
    Rerun();
    OneCrash(MachineOfActs(NOTES_SESSION), Numbered(ListThenCreate), NO_NOTES, 2, Crash(1, 2));
  }

  // ---------------------------------------------------------------------------------------------
  // A recovered row the caller may not read
  // ---------------------------------------------------------------------------------------------

  /** Private recipes, titled uniquely; the owner has a default, so a body need not carry it. */
  const RECIPES := Entity(
    {"id", "title", "owner_id"}, "id", Some("title"), None, Access(OwnerOnly, OwnerOnly, Some("owner_id")), {{"title"}},
    (body: Row) => Some(body),
    (model: Row, subject: string) => Ok(model),
    (model: Row, existing: Row, subject: string) => Ok(model),
    (existing: Row, subject: string) => Ok(()))

  const BOBS: Row := map["id" := Int(1), "title" := Text("soup"), "owner_id" := Int(2)]
  const SOUP: Json := Obj(map["title" := Text("soup")])

  const SHELF := Table([BOBS], 2)

  lemma BobsIsRecovered()
    ensures Write(NOTES_SESSION, Admitted(1, RECIPES), SHELF, CreateCall("recipes", SOUP)) == Ok((SHELF, Obj(BOBS)))
  {
    var asked := NewRow(RECIPES, 1, "alice", SOUP.fields).value;
    assert asked["title"] == Text("soup");
    assert Collide(RECIPES, SHELF.rows[0], asked["id" := Null]) by {
      assert {"title"} in RECIPES.unique && AgreeOn({"title"}, SHELF.rows[0], asked["id" := Null]);
    }
    assert RecoveryMatch(RECIPES, Text("soup"), SOUP.fields, BOBS);
  }

  lemma BobsIsHidden()
    ensures Get(NOTES_SESSION.env.members, RECIPES, 1, SHELF, 1) == Err(RestForbidden)
  {
    assert HasId(RECIPES, BOBS, 1);
  }

  /** Alice, account 1, creates a recipe with the title of one of Bob's: the answer is Bob's row,
      which she may not `get`. */
  lemma RecoveredRowMayBeHidden()
    ensures Write(NOTES_SESSION, Admitted(1, RECIPES), SHELF, CreateCall("recipes", SOUP)) == Ok((SHELF, Obj(BOBS)))
    ensures Get(NOTES_SESSION.env.members, RECIPES, 1, SHELF, 1) == Err(RestForbidden)
  {
    BobsIsRecovered();
    BobsIsHidden();
  }
}
