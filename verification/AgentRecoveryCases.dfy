/**
 What makes each verb safe to rerun after a crash (src/lymaille/resource_module.rs).
 */
module AgentRecoveryCases {
  import opened Wrappers
  import opened JsonValues
  import opened Rbac
  import opened RestCore
  import opened AgentWrites
  import opened AgentRecovery

  /** The database holds the entry that answers this call in this scope. */
  predicate Journaled(s: Session, db: Db, before: nat, call: Call, reply: Reply)
  {
    && s.scope.Some? && reply.Ok? && Admit(s, before, call).Ok?
    && Key(s.scope.value, call) in db.journal && db.journal[Key(s.scope.value, call)] == reply.value
  }

  /** The agent's calls as a machine of `AgentRecovery`. */
  function MachineOf(s: Session): Machine<Call>
  {
    Machine((db: Db, before: nat, call: Call) => Apply(s, db, before, call),
            (db: Db, before: nat, call: Call, reply: Reply) => Journaled(s, db, before, call, reply),
            (call: Call) => false)
  }

  /** A journaled call changes nothing and answers its entry. */
  lemma JournaledCallReplays(s: Session, db: Db, before: nat, call: Call)
    requires s.scope.Some? && Admit(s, before, call).Ok?
    requires Key(s.scope.value, call) in db.journal
    ensures Apply(s, db, before, call) == Passage([db], Ok(db.journal[Key(s.scope.value, call)]))
  {
  }

  /** A call never removes or overwrites a journal entry, in any of its states; a success leaves
      its answer journaled. */
  lemma CallKeepsJournal(s: Session, db: Db, before: nat, call: Call)
    requires s.scope.Some?
    ensures forall t, key | t in Apply(s, db, before, call).trace && key in db.journal ::
              key in t.journal && t.journal[key] == db.journal[key]
    ensures var o := Apply(s, db, before, call);
            o.reply.Ok? ==> Journaled(s, Last(o), before, call, o.reply)
  {
  }

  /** The write calls of a batch step obey the laws of the journal: the first entry under a key is
      never overwritten or lost, a success always leaves its entry, a journaled call replays it. */
  lemma AgentCallsJournal(s: Session)
    requires s.scope.Some?
    ensures Journals(MachineOf(s))
  {
    var m := MachineOf(s);
    forall db, i, c | m.step(db, i, c).reply.Ok?
      ensures m.journaled(Last(m.step(db, i, c)), i, c, m.step(db, i, c).reply)
    {
      CallKeepsJournal(s, db, i, c);
    }
    forall db, i, c, r | m.journaled(db, i, c, r) ensures m.step(db, i, c) == Passage([db], r) {
      JournaledCallReplays(s, db, i, c);
    }
    forall db, i, c, r, j, d, t | m.journaled(db, i, c, r) && t in m.step(db, j, d).trace
      ensures m.journaled(t, i, c, r)
    {
      CallKeepsJournal(s, db, j, d);
    }
  }

  /** When a call ends where it began, it went through no other state. */
  lemma NoNetEffectNoEffect(s: Session, db: Db, before: nat, call: Call)
    requires s.scope.Some? && Last(Apply(s, db, before, call)) == db
    ensures forall t | t in Apply(s, db, before, call).trace :: t == db
  {
  }

  /** When it ends with the tables it began with, it went through no other state but its last. */
  lemma NoNewTablesNoNewState(s: Session, db: Db, before: nat, call: Call)
    requires s.scope.Some? && Last(Apply(s, db, before, call)).tables == db.tables
    ensures forall t | t in Apply(s, db, before, call).trace :: t == db || t == Last(Apply(s, db, before, call))
  {
  }

  /** The states of a call are its first, its last, and one with the last one's tables. */
  lemma MiddleHasLastTables(s: Session, db: Db, before: nat, call: Call, t: Db)
    requires t in Apply(s, db, before, call).trace && t != db
    ensures t.tables == Last(Apply(s, db, before, call)).tables
  {
  }

  /** Restarted from one of its own states and ending alike, a call goes through no new state. */
  lemma RestartVisitsNothingNew(s: Session, db: Db, before: nat, call: Call, t: Db)
    requires s.scope.Some? && t in Apply(s, db, before, call).trace
    requires Last(Apply(s, t, before, call)) == Last(Apply(s, db, before, call))
    ensures forall u | u in Apply(s, t, before, call).trace :: u in Apply(s, db, before, call).trace
  {
    if t != db {
      MiddleHasLastTables(s, db, before, call, t);
      NoNewTablesNoNewState(s, t, before, call);
      assert Last(Apply(s, db, before, call)) in Apply(s, db, before, call).trace;
    }
  }

  lemma AgentCallsRestartQuietly(s: Session)
    requires s.scope.Some?
    ensures RestartsQuietly(MachineOf(s))
  {
    var m := MachineOf(s);
    forall db, i, c, t | Last(m.step(db, i, c)) == db && t in m.step(db, i, c).trace ensures t == db {
      NoNetEffectNoEffect(s, db, i, c);
    }
    forall db, i, c, t, u |
      t in m.step(db, i, c).trace && Last(m.step(t, i, c)) == Last(m.step(db, i, c)) && u in m.step(t, i, c).trace
      ensures u in m.step(db, i, c).trace
    {
      RestartVisitsNothingNew(s, db, i, c, t);
    }
  }

  /** The call is admitted, not journaled yet, and its table exists: it will write. */
  predicate Fresh(s: Session, db: Db, before: nat, call: Call)
  {
    && s.scope.Some? && Admit(s, before, call).Ok?
    && Key(s.scope.value, call) !in db.journal
    && call.resource in db.tables
  }

  /** The call would write an answer too large for the journal. */
  predicate Overflows(s: Session, db: Db, before: nat, call: Call)
  {
    && Fresh(s, db, before, call)
    && Write(s, Admit(s, before, call).value, db.tables[call.resource], call).Ok?
    && TooLarge(s.env, Write(s, Admit(s, before, call).value, db.tables[call.resource], call).value.1)
  }

  /** A failed call of a batch has had an effect exactly when its write succeeded and its answer was
      too large for the journal. The row is then there, no entry is left, and the same call will
      write again. */
  lemma OnlyOversizedFailsDirty(s: Session, db: Db, before: nat, call: Call)
    requires s.scope.Some? && Apply(s, db, before, call).reply.Err?
    ensures var o := Apply(s, db, before, call);
            && Last(o).journal == db.journal
            && (o.trace != [db] <==> Overflows(s, db, before, call))
            && (o.trace != [db] ==> o.reply == Err(Internal) && Fresh(s, Last(o), before, call))
  {
    var o := Apply(s, db, before, call);
    if o.trace != [db] {
      assert |o.trace| == 2;
    }
  }

  /** Issued again in a state the uninterrupted run goes through, no earlier call would write an
      answer too large for the journal. */
  ghost predicate AnswersFit(s: Session, script: Script<Call>, db: Db, limit: nat)
  {
    forall k: nat | k < limit && Continues(script, Run(MachineOf(s), script, db, [], k).1, limit) &&
                    |Run(MachineOf(s), script, db, [], k).1| == k ::
      var (at, replies) := Run(MachineOf(s), script, db, [], k);
      forall t | t in Apply(s, at, k, script(replies).value).trace :: EarlierFit(s, script, replies, t)
  }

  predicate EarlierFit(s: Session, script: Script<Call>, replies: seq<Reply>, t: Db)
  {
    forall i | 0 <= i < |replies| && script(replies[..i]).Some? :: !Overflows(s, t, i, script(replies[..i]).value)
  }

  lemma EarlierFitIsClean(s: Session, script: Script<Call>, replies: seq<Reply>, t: Db)
    requires s.scope.Some?
    ensures EarlierFit(s, script, replies, t) <==> FailsCleanlyOn(MachineOf(s), script, replies, t)
  {
    forall i | 0 <= i < |replies| && script(replies[..i]).Some?
      ensures var o := Apply(s, t, i, script(replies[..i]).value);
              (o.reply.Err? ==> o.trace == [t]) <==> !Overflows(s, t, i, script(replies[..i]).value)
    {
      var o := Apply(s, t, i, script(replies[..i]).value);
      if o.reply.Err? {
        OnlyOversizedFailsDirty(s, t, i, script(replies[..i]).value);
      }
    }
  }

  /** Along a run, failing calls have no effect exactly where answers fit. */
  lemma AnswersFitIsClean(s: Session, script: Script<Call>, db: Db, limit: nat)
    requires s.scope.Some?
    ensures AnswersFit(s, script, db, limit) <==> FailsCleanly(MachineOf(s), script, db, limit)
  {
    forall replies, t ensures EarlierFit(s, script, replies, t) <==> FailsCleanlyOn(MachineOf(s), script, replies, t) {
      EarlierFitIsClean(s, script, replies, t);
    }
  }

  /** The exact condition: where answers fit, every prefix of an agent's batch script converges
      under every history of crashes if and only if, in every state the uninterrupted run goes
      through, the call in progress resumes and earlier failures repeat. */
  lemma AgentCrashSafety(s: Session, script: Script<Call>, db: Db, limit: nat)
    requires s.scope.Some? && AnswersFit(s, script, db, limit)
    ensures (forall n: nat | n <= limit :: Converges(MachineOf(s), script, db, n)) <==>
            Resumable(MachineOf(s), script, db, limit)
  {
    AgentCallsJournal(s);
    AgentCallsRestartQuietly(s);
    AnswersFitIsClean(s, script, db, limit);
    CrashSafety(MachineOf(s), script, db, limit);
  }

  /** The database rows of every registered resource keep their keys distinct. */
  ghost predicate DbOk(s: Session, db: Db)
  {
    forall r | r in s.env.registry ::
      WellFormed(s.env.registry[r].entity) &&
      (r in db.tables ==> TableOk(s.env.registry[r].entity, db.tables[r]))
  }

  /** The row a creation asks for, under the key the table hands out next. */
  function OwnRow(e: Entity, t: Table, user: UserId, subject: string, body: Json): Option<Row>
  {
    if ModelFromJson(e, body).Err? then None
    else
      match NewRow(e, user, subject, ModelFromJson(e, body).value)
      case Err(_) => None
      case Ok(row) => if t.next > I32_MAX then None else Some(row[e.pk := Int(t.next)])
  }

  /** Once inserted, the row would be what a second attempt finds: no column of some UNIQUE
      constraint is null in it, so the second insert is refused; the body carries a label; the row has
      that label and agrees with the body; and no row there before it does. Decidable before the
      call. */
  predicate FindsItself(e: Entity, t: Table, user: UserId, subject: string, body: Json)
  {
    var own := OwnRow(e, t, user, subject, body);
    && own.Some? && Collide(e, own.value, own.value)
    && LabelValue(e, body).Some?
    && RecoveryMatch(e, LabelValue(e, body).value, body.fields, own.value)
    && forall i | 0 <= i < |t.rows| :: !RecoveryMatch(e, LabelValue(e, body).value, body.fields, t.rows[i])
  }

  /** The recovery read can recognise what this creation stores: the label is UNIQUE by itself, the
      body carries it as a text or a number, and the row requested of the database, after hook and owner,
      agrees with the body. Decidable without the table. */
  predicate Recognisable(e: Entity, user: UserId, subject: string, body: Json)
  {
    && e.labelColumn.Some? && {e.labelColumn.value} in e.unique
    && LabelValue(e, body).Some?
    && ModelFromJson(e, body).Ok?
    && NewRow(e, user, subject, ModelFromJson(e, body).value).Ok?
    && Agrees(e, NewRow(e, user, subject, ModelFromJson(e, body).value).value, body.fields)
  }

  /** The creation `call` inserts a row in table `t`. */
  predicate Inserts(s: Session, a: Admitted, t: Table, call: Call)
  {
    && call.CreateCall? && ModelFromJson(a.entity, call.body).Ok?
    && RestCore.Create(s.env.members, a.entity, a.user, s.subject, t, ModelFromJson(a.entity, call.body).value).Ok?
  }

  lemma {:induction false} FirstMatchSplits(e: Entity, wanted: Json, body: Row, a: seq<Row>, b: seq<Row>)
    ensures FirstMatch(e, wanted, body, a + b) ==
            if FirstMatch(e, wanted, body, a).Some? then FirstMatch(e, wanted, body, a)
            else FirstMatch(e, wanted, body, b)
    decreases |a|
  {
    if a == [] {
      assert a + b == b;
    } else {
      assert (a + b)[1..] == a[1..] + b;
      FirstMatchSplits(e, wanted, body, a[1..], b);
    }
  }

  /** The recovery read finds a row appended last exactly when it matches and no earlier one does. */
  lemma LastIsFound(e: Entity, wanted: Json, body: Row, rows: seq<Row>, row: Row)
    requires row !in rows
    ensures FirstMatch(e, wanted, body, rows + [row]) == Some(row) <==>
            RecoveryMatch(e, wanted, body, row) &&
            forall i | 0 <= i < |rows| :: !RecoveryMatch(e, wanted, body, rows[i])
  {
    FirstMatchSplits(e, wanted, body, rows, [row]);
    assert [row][1..] == [];
    if FirstMatch(e, wanted, body, rows).Some? {
      assert FirstMatch(e, wanted, body, rows).value in rows;
    } else {
      assert forall i | 0 <= i < |rows| :: rows[i] in rows;
    }
  }

  /** What a creation that inserted leaves. */
  lemma InsertsOwnRow(s: Session, a: Admitted, t: Table, call: Call)
    requires Inserts(s, a, t, call) && TableOk(a.entity, t)
    ensures var own := OwnRow(a.entity, t, a.user, s.subject, call.body);
            && own.Some? && own.value !in t.rows && a.entity.pk in own.value
            && Write(s, a, t, call) == Ok((Table(t.rows + [own.value], t.next + 1), Obj(own.value)))
            && !CollidesWithAny(a.entity, t.rows, own.value[a.entity.pk := Null])
  {
    var own := OwnRow(a.entity, t, a.user, s.subject, call.body).value;
    assert forall i | 0 <= i < |t.rows| :: t.rows[i][a.entity.pk].n < own[a.entity.pk].n;
  }

  /** Written once more on the table it left, a creation answers the row it inserted, and inserts
      nothing, exactly when that row finds itself; and for a UNIQUE label, exactly when the row is
      recognisable, whatever other UNIQUE constraints there are. */
  lemma CreateWrittenAgain(s: Session, a: Admitted, t: Table, call: Call)
    requires s.scope.Some? && WellFormed(a.entity) && TableOk(a.entity, t) && Inserts(s, a, t, call)
    ensures var (t', value) := Write(s, a, t, call).value;
            Write(s, a, t', call) == Ok((t', value)) <==> FindsItself(a.entity, t, a.user, s.subject, call.body)
  {
    var e := a.entity;
    var asked := NewRow(e, a.user, s.subject, ModelFromJson(e, call.body).value).value;
    InsertsOwnRow(s, a, t, call);
    var own := OwnRow(e, t, a.user, s.subject, call.body).value;
    var t' := Table(t.rows + [own], t.next + 1);
    if !Collide(e, own, own) {
      SecondInsertDiffers(e, t, t', own, asked);
    } else {
      assert t'.rows[|t.rows|] == own;
      SelfCollision(e, t', own, asked);
      if LabelValue(e, call.body).Some? {
        LastIsFound(e, LabelValue(e, call.body).value, call.body.fields, t.rows, own);
      }
    }
  }

  lemma LabelDecides(s: Session, a: Admitted, t: Table, call: Call)
    requires WellFormed(a.entity) && TableOk(a.entity, t) && Inserts(s, a, t, call)
    requires a.entity.labelColumn.Some? && {a.entity.labelColumn.value} in a.entity.unique
    ensures FindsItself(a.entity, t, a.user, s.subject, call.body) <==>
            Recognisable(a.entity, a.user, s.subject, call.body)
  {
    var e := a.entity;
    InsertsOwnRow(s, a, t, call);
    var own := OwnRow(e, t, a.user, s.subject, call.body).value;
    if Recognisable(e, a.user, s.subject, call.body) {
      assert own[e.labelColumn.value] == LabelValue(e, call.body).value;
      forall i | 0 <= i < |t.rows|
        ensures !RecoveryMatch(e, LabelValue(e, call.body).value, call.body.fields, t.rows[i])
      {
        assert !Collide(e, t.rows[i], own[e.pk := Null]);
      }
    }
  }

  /** A creation that inserted a row and answered it survives a crash before its journal entry
      exactly when its row finds itself; for a UNIQUE label, exactly when it is recognisable. In
      particular a body whose owner is not the caller never is: the owner is forced at the insert,
      so the recovery read finds a disagreement and answers `conflict`. */
  lemma CreateResumes(s: Session, db: Db, before: nat, call: Call)
    requires Fresh(s, db, before, call) && DbOk(s, db) && Apply(s, db, before, call).reply.Ok?
    requires Inserts(s, Admit(s, before, call).value, db.tables[call.resource], call)
    ensures var a := Admit(s, before, call).value;
            Resumes(MachineOf(s), db, before, call) <==>
            FindsItself(a.entity, db.tables[call.resource], a.user, s.subject, call.body)
    ensures var a := Admit(s, before, call).value;
            a.entity.labelColumn.Some? && {a.entity.labelColumn.value} in a.entity.unique ==>
              (Resumes(MachineOf(s), db, before, call) <==> Recognisable(a.entity, a.user, s.subject, call.body))
  {
    var a := Admit(s, before, call).value;
    CreateWrittenAgain(s, a, db.tables[call.resource], call);
    WrittenAgainIsResumed(s, db, before, call);
    if a.entity.labelColumn.Some? && {a.entity.labelColumn.value} in a.entity.unique {
      LabelDecides(s, a, db.tables[call.resource], call);
    }
  }

  /** The database between the write of a call and its record. */
  function AfterWrite(s: Session, db: Db, before: nat, call: Call): Db
    requires Fresh(s, db, before, call)
    requires Write(s, Admit(s, before, call).value, db.tables[call.resource], call).Ok?
  {
    db.(tables := db.tables[call.resource :=
                              Write(s, Admit(s, before, call).value, db.tables[call.resource], call).value.0])
  }

  lemma FreshCallWrites(s: Session, db: Db, before: nat, call: Call)
    requires Fresh(s, db, before, call)
    ensures Apply(s, db, before, call) ==
            match Write(s, Admit(s, before, call).value, db.tables[call.resource], call)
            case Err(f) => Passage([db], Err(f))
            case Ok((t, value)) => Finished(s, db, call, t, value, NoFault)
  {
  }

  /** The three states of a call that wrote and answered; restarted from the last, it replays. */
  lemma ThreeStates(s: Session, db: Db, before: nat, call: Call)
    requires Fresh(s, db, before, call) && Apply(s, db, before, call).reply.Ok?
    ensures Write(s, Admit(s, before, call).value, db.tables[call.resource], call).Ok?
    ensures var o := Apply(s, db, before, call);
            o.trace == [db, AfterWrite(s, db, before, call), Last(o)] &&
            Apply(s, Last(o), before, call) == Passage([Last(o)], o.reply)
  {
    FreshCallWrites(s, db, before, call);
    var o := Apply(s, db, before, call);
    assert o.trace == [db, AfterWrite(s, db, before, call), Last(o)];
    JournaledCallReplays(s, Last(o), before, call);
  }

  lemma ResumesFromStates(m: Machine<Call>, db: Db, before: nat, call: Call, mid: Db, end: Db)
    requires m.step(db, before, call).trace == [db, mid, end]
    requires m.step(end, before, call) == Passage([end], m.step(db, before, call).reply)
    ensures var o, p := m.step(db, before, call), m.step(mid, before, call);
            Resumes(m, db, before, call) <==> Last(p) == Last(o) && p.reply == o.reply
  {
    var o := m.step(db, before, call);
    assert mid in o.trace;
    assert forall t | t in o.trace :: t == db || t == mid || t == end;
  }

  /** A call that wrote and answered can only have been crashed before its record. */
  lemma OnlyTheWindowMatters(s: Session, db: Db, before: nat, call: Call)
    requires Fresh(s, db, before, call) && Apply(s, db, before, call).reply.Ok?
    ensures Write(s, Admit(s, before, call).value, db.tables[call.resource], call).Ok?
    ensures var o, p := Apply(s, db, before, call), Apply(s, AfterWrite(s, db, before, call), before, call);
            Resumes(MachineOf(s), db, before, call) <==> Last(p) == Last(o) && p.reply == o.reply
  {
    ThreeStates(s, db, before, call);
    var o := Apply(s, db, before, call);
    ResumesFromStates(MachineOf(s), db, before, call, AfterWrite(s, db, before, call), Last(o));
  }

  /** Finishing again, on the database an answered call left before its record, ends alike exactly
      with the same table and the same value. */
  lemma FinishedAlike(s: Session, db: Db, call: Call, t: Table, value: Json, t': Table, value': Json)
    requires s.scope.Some? && Key(s.scope.value, call) !in db.journal
    requires Finished(s, db, call, t, value, NoFault).reply.Ok?
    ensures var mid := db.(tables := db.tables[call.resource := t]);
            var o, p := Finished(s, db, call, t, value, NoFault), Finished(s, mid, call, t', value', NoFault);
            Last(p) == Last(o) && p.reply == o.reply <==> t' == t && value' == value
  {
    var mid := db.(tables := db.tables[call.resource := t]);
    if t' == t {
      assert mid.tables[call.resource := t'] == mid.tables;
    } else {
      var o, p := Finished(s, db, call, t, value, NoFault), Finished(s, mid, call, t', value', NoFault);
      assert Last(p).tables[call.resource] == t' != t == Last(o).tables[call.resource];
    }
  }

  /** A call that wrote resumes exactly when writing it again, on the table it left, would answer
      the same and leave that table. */
  lemma WrittenAgainIsResumed(s: Session, db: Db, before: nat, call: Call)
    requires Fresh(s, db, before, call) && Apply(s, db, before, call).reply.Ok?
    ensures var a := Admit(s, before, call).value;
            var (t', value) := Write(s, a, db.tables[call.resource], call).value;
            Resumes(MachineOf(s), db, before, call) <==> Write(s, a, t', call) == Ok((t', value))
  {
    var a := Admit(s, before, call).value;
    OnlyTheWindowMatters(s, db, before, call);
    var (t', value) := Write(s, a, db.tables[call.resource], call).value;
    var mid := AfterWrite(s, db, before, call);
    FreshCallWrites(s, db, before, call);
    FreshCallWrites(s, mid, before, call);
    var again := Write(s, a, t', call);
    if again.Ok? {
      FinishedAlike(s, db, call, t', value, again.value.0, again.value.1);
    }
  }

  /** A row that collides with nothing, itself included, is inserted once more. */
  lemma SecondInsertDiffers(e: Entity, t: Table, t': Table, row: Row, asked: Row)
    requires WellFormed(e) && Insert(e, t, asked) == Ok((t', row)) && !Collide(e, row, row)
    ensures !CollidesWithAny(e, t'.rows, asked[e.pk := Null])
  {
    forall i | 0 <= i < |t'.rows| ensures !Collide(e, t'.rows[i], asked[e.pk := Null]) {
      if i < |t.rows| {
        assert t'.rows[i] == t.rows[i];
      } else {
        assert t'.rows[i] == row;
      }
    }
  }

  lemma SelfCollision(e: Entity, t': Table, row: Row, asked: Row)
    requires WellFormed(e) && row in t'.rows && e.pk in row && row == asked[e.pk := row[e.pk]] && Collide(e, row, row)
    ensures CollidesWithAny(e, t'.rows, asked[e.pk := Null])
  {
    var i :| 0 <= i < |t'.rows| && t'.rows[i] == row;
    assert Collide(e, t'.rows[i], asked[e.pk := Null]);
  }

  /** The caller of a successful update still reaches the row it left, at the same place. */
  lemma UpdatedRowIsReached(members: Members, e: Entity, user: UserId, subject: string, t: Table, id: i64, model: Row)
    requires WellFormed(e) && TableOk(e, t) && RestCore.Update(members, e, user, subject, t, id, model).Ok?
    ensures var t' := RestCore.Update(members, e, user, subject, t, id, model).value.0;
            Reach(members, e, e.access.write, user, t', id) == Reach(members, e, e.access.write, user, t, id)
  {
    var (t', row) := RestCore.Update(members, e, user, subject, t, id, model).value;
    var i := Reach(members, e, e.access.write, user, t, id).value;
    UpdateKeepsKeys(members, e, user, subject, t, id, model);
    assert t'.rows[i] == row && row[e.pk] == Int(id);
    FindUnique(e, t', i);
    assert t.rows[i][e.pk] == Int(id);
    FindUnique(e, t, i);
  }

  /** The row an update leaves. */
  function RowLeft(s: Session, a: Admitted, t: Table, call: Call): Row
    requires call.UpdateCall? && ModelFromJson(a.entity, call.body).Ok?
    requires RestCore.Update(s.env.members, a.entity, a.user, s.subject, t, call.id,
                             ModelFromJson(a.entity, call.body).value).Ok?
  {
    var model := ModelFromJson(a.entity, call.body).value;
    RestCore.Update(s.env.members, a.entity, a.user, s.subject, t, call.id, model).value.1
  }

  /** Written again on the table it left, an update changes nothing exactly when updating the row it
      left gives that row. */
  lemma UpdateWrittenAgain(s: Session, a: Admitted, t: Table, call: Call)
    requires call.UpdateCall? && WellFormed(a.entity) && TableOk(a.entity, t) && Write(s, a, t, call).Ok?
    ensures var (t', value) := Write(s, a, t, call).value;
            var row := RowLeft(s, a, t, call);
            Write(s, a, t', call) == Ok((t', value)) <==>
            UpdatedRow(a.entity, s.subject, row, call.id, ModelFromJson(a.entity, call.body).value) == Ok(row)
  {
    var e := a.entity;
    var model := ModelFromJson(e, call.body).value;
    var (t', row) := RestCore.Update(s.env.members, e, a.user, s.subject, t, call.id, model).value;
    UpdatedRowIsReached(s.env.members, e, a.user, s.subject, t, call.id, model);
    var i := Reach(s.env.members, e, e.access.write, a.user, t, call.id).value;
    assert t'.rows == t.rows[i := row] && t'.rows[i] == row;
    assert t'.rows[..i] + t'.rows[i + 1..] == t.rows[..i] + t.rows[i + 1..];
    if UpdatedRow(e, s.subject, row, call.id, model) == Ok(row) {
      assert t'.rows[i := row] == t'.rows;
    }
  }

  /** An update that succeeded survives a crash before its journal entry exactly when updating
      the row it left, once more, leaves that row: a hook that reads the existing row may not. */
  lemma UpdateResumes(s: Session, db: Db, before: nat, call: Call)
    requires call.UpdateCall? && Fresh(s, db, before, call) && DbOk(s, db) && Apply(s, db, before, call).reply.Ok?
    ensures Write(s, Admit(s, before, call).value, db.tables[call.resource], call).Ok?
    ensures var a := Admit(s, before, call).value;
            var row := RowLeft(s, a, db.tables[call.resource], call);
            Resumes(MachineOf(s), db, before, call) <==>
            UpdatedRow(a.entity, s.subject, row, call.id, ModelFromJson(a.entity, call.body).value) == Ok(row)
  {
    WrittenAgainIsResumed(s, db, before, call);
    UpdateWrittenAgain(s, Admit(s, before, call).value, db.tables[call.resource], call);
  }

  /** A delete that succeeded never survives the crash: the rerun answers `not found`, and the
      row stays deleted. */
  lemma DeleteNeverResumes(s: Session, db: Db, before: nat, call: Call)
    requires call.DeleteCall? && Fresh(s, db, before, call) && DbOk(s, db)
    requires Apply(s, db, before, call).reply.Ok?
    ensures var o := Apply(s, db, before, call);
            |o.trace| == 3 && Apply(s, o.trace[1], before, call) == Passage([o.trace[1]], Err(NoSuchRow))
    ensures !Resumes(MachineOf(s), db, before, call)
  {
    var a := Admit(s, before, call).value;
    var o := Apply(s, db, before, call);
    DeleteKeepsKeys(s.env.members, a.entity, a.user, s.subject, db.tables[call.resource], call.id);
    assert o.trace[1] in o.trace;
    assert MachineOf(s).step(db, before, call) == o;
    assert MachineOf(s).step(o.trace[1], before, call).reply != o.reply;
  }

  // ---------------------------------------------------------------------------------------------
  // What a recovered row shows
  // ---------------------------------------------------------------------------------------------

  /** What the recovery answered: a row of the table, agreeing with the body. */
  lemma RescuedRow(s: Session, a: Admitted, t: Table, call: Call) returns (i: nat)
    requires s.scope.Some? && call.CreateCall? && !Inserts(s, a, t, call) && Write(s, a, t, call).Ok?
    ensures i < |t.rows| && Write(s, a, t, call).value == (t, Obj(t.rows[i]))
    ensures call.body.Obj? && Agrees(a.entity, t.rows[i], call.body.fields)
  {
    var row := RereadMatching(a.entity, t, call.body).value;
    i :| 0 <= i < |t.rows| && t.rows[i] == row;
  }

  /** The recovery read asks for no access decision. The row it answers is one the caller may `get`
      exactly when `can_read` allows it; and where the owner column is among the body's, that is
      decided by the body: the policy alone allows, or it is OwnerOnly and the body names the caller. */
  lemma RescuedRowIsReadable(s: Session, a: Admitted, t: Table, call: Call)
    requires s.scope.Some? && WellFormed(a.entity) && TableOk(a.entity, t) && call.CreateCall?
    requires !Inserts(s, a, t, call) && Write(s, a, t, call).Ok?
    ensures var e, value := a.entity, Write(s, a, t, call).value.1;
            && value.Obj? && value.fields in t.rows
            && var row := value.fields;
               && (Get(s.env.members, e, a.user, t, row[e.pk].n) == Ok(row) <==>
                   CanRead(s.env.members, e.access, a.user, row) == Ok(true))
               && (e.access.owner.Some? && e.access.owner.value in call.body.fields ==>
                     (CanRead(s.env.members, e.access, a.user, row) == Ok(true) <==>
                      StaticVerdict(s.env.members, e.access.read, a.user) == Ok(Some(true)) ||
                      (StaticVerdict(s.env.members, e.access.read, a.user) == Ok(None) &&
                       call.body.fields[e.access.owner.value] == Int(a.user))))
  {
    var i := RescuedRow(s, a, t, call);
    FindUnique(a.entity, t, i);
  }
}
