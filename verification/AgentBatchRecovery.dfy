/**
 Whole batches: which can be crashed and rerun at any point, told from the calls and the registry
 (src/lymaille/resource_module.rs).
 */
module AgentBatchRecovery {
  import opened Wrappers
  import opened JsonValues
  import opened Rbac
  import opened RestCore
  import opened AgentWrites
  import opened AgentRecovery
  import opened AgentRecoveryCases

  lemma WriteKeepsTableOk(s: Session, a: Admitted, t: Table, call: Call)
    requires WellFormed(a.entity) && TableOk(a.entity, t)
    ensures Write(s, a, t, call).Ok? ==> TableOk(a.entity, Write(s, a, t, call).value.0)
  {
    match call
    case CreateCall(_, body) =>
      if ModelFromJson(a.entity, body).Ok? {
        CreateKeepsKeys(s.env.members, a.entity, a.user, s.subject, t, ModelFromJson(a.entity, body).value);
      }
    case UpdateCall(_, id, body) =>
      if ModelFromJson(a.entity, body).Ok? {
        UpdateKeepsKeys(s.env.members, a.entity, a.user, s.subject, t, id, ModelFromJson(a.entity, body).value);
      }
    case DeleteCall(_, id) =>
      DeleteKeepsKeys(s.env.members, a.entity, a.user, s.subject, t, id);
  }

  /** Calls keep the keys of every table distinct, in each state they go through. */
  lemma CallKeepsDbOk(s: Session, db: Db, before: nat, call: Call)
    requires DbOk(s, db)
    ensures forall t | t in Apply(s, db, before, call).trace :: DbOk(s, t)
  {
    if Admit(s, before, call).Ok? && call.resource in db.tables {
      WriteKeepsTableOk(s, Admit(s, before, call).value, db.tables[call.resource], call);
    }
  }

  lemma {:induction false} RunKeepsDbOk(s: Session, script: Script<Call>, db: Db, replies: seq<Reply>, limit: nat)
    requires DbOk(s, db)
    ensures DbOk(s, Run(MachineOf(s), script, db, replies, limit).0)
    decreases limit - |replies|
  {
    if |replies| < limit && script(replies).Some? {
      CallKeepsDbOk(s, db, |replies|, script(replies).value);
      var o := Apply(s, db, |replies|, script(replies).value);
      assert Last(o) in o.trace;
      RunKeepsDbOk(s, script, Last(o), replies + [o.reply], limit);
    }
  }

  // ---------------------------------------------------------------------------------------------
  // Safe calls
  // ---------------------------------------------------------------------------------------------

  /** The update hook stores the body as it is. */
  ghost predicate HookKeepsBody(e: Entity, subject: string)
  {
    forall model: Row, existing: Row :: e.beforeUpdate(model, existing, subject) == Ok(model)
  }

  /** The calls a batch may safely make: recognisable creations, and updates whose hook stores
      the body. Read off the registry and the call, before anything runs. */
  ghost predicate SafeCall(s: Session, call: Call)
  {
    && call.resource in s.env.registry && s.subject in s.env.accounts
    && var e, user := s.env.registry[call.resource].entity, s.env.accounts[s.subject];
       match call
       case CreateCall(_, body) => Recognisable(e, user, s.subject, body)
       case UpdateCall(_, _, _) => HookKeepsBody(e, s.subject)
       case DeleteCall(_, _) => false
  }

  /** With such a hook, updating twice is updating once. */
  lemma StoredBodyIsStable(e: Entity, subject: string, existing: Row, id: i64, model: Row)
    requires HookKeepsBody(e, subject) && WellFormed(e)
    ensures var first := UpdatedRow(e, subject, existing, id, model);
            first.Ok? && UpdatedRow(e, subject, first.value, id, model) == first
  {
    assert e.beforeUpdate(model, existing, subject) == Ok(model);
    var row := UpdatedRow(e, subject, existing, id, model).value;
    assert e.beforeUpdate(model, row, subject) == Ok(model);
    if e.access.owner.Some? && e.access.owner.value in row {
      assert model[e.pk := Int(id)][e.access.owner.value := row[e.access.owner.value]] == row;
    }
  }

  lemma SafeUpdateResumes(s: Session, db: Db, before: nat, call: Call)
    requires DbOk(s, db) && call.UpdateCall? && SafeCall(s, call)
    requires Fresh(s, db, before, call) && Apply(s, db, before, call).reply.Ok?
    ensures Resumes(MachineOf(s), db, before, call)
  {
    var a := Admit(s, before, call).value;
    var t := db.tables[call.resource];
    UpdateResumes(s, db, before, call);
    var existing := t.rows[Reach(s.env.members, a.entity, a.entity.access.write, a.user, t, call.id).value];
    StoredBodyIsStable(a.entity, s.subject, existing, call.id, ModelFromJson(a.entity, call.body).value);
  }

  /** A creation answered by the recovery read leaves its table as it was. */
  lemma RescueChangesNothing(s: Session, a: Admitted, t: Table, call: Call)
    requires call.CreateCall? && !Inserts(s, a, t, call) && Write(s, a, t, call).Ok?
    ensures Write(s, a, t, call).value.0 == t
  {
  }

  lemma FreshSuccessWrites(s: Session, db: Db, before: nat, call: Call)
    requires Fresh(s, db, before, call) && Apply(s, db, before, call).reply.Ok?
    ensures Write(s, Admit(s, before, call).value, db.tables[call.resource], call).Ok?
  {
  }

  lemma SafeCreateResumes(s: Session, db: Db, before: nat, call: Call)
    requires DbOk(s, db) && call.CreateCall? && SafeCall(s, call)
    requires Fresh(s, db, before, call) && Apply(s, db, before, call).reply.Ok?
    ensures Resumes(MachineOf(s), db, before, call)
  {
    var a := Admit(s, before, call).value;
    if Inserts(s, a, db.tables[call.resource], call) {
      CreateResumes(s, db, before, call);
    } else {
      FreshSuccessWrites(s, db, before, call);
      RescueChangesNothing(s, a, db.tables[call.resource], call);
      WrittenAgainIsResumed(s, db, before, call);
    }
  }

  lemma SafeCallResumes(s: Session, db: Db, before: nat, call: Call)
    requires s.scope.Some? && DbOk(s, db)
    requires SafeCall(s, call) && Apply(s, db, before, call).reply.Ok?
    ensures Resumes(MachineOf(s), db, before, call)
  {
    if Key(s.scope.value, call) in db.journal {
      JournaledCallReplays(s, db, before, call);
    } else if call.UpdateCall? {
      SafeUpdateResumes(s, db, before, call);
    } else {
      SafeCreateResumes(s, db, before, call);
    }
  }

  // ---------------------------------------------------------------------------------------------
  // Calls refused whatever the tables hold
  // ---------------------------------------------------------------------------------------------

  /** The policy refuses, or a query it needs fails, before any row is read. */
  predicate PolicyRefuses(members: Members, policy: Policy, user: UserId)
  {
    var verdict := StaticVerdict(members, policy, user);
    verdict.Err? || verdict == Ok(Some(false))
  }

  /** Refused by the cap, the account, the id or the registry; or, once admitted, by its body, by the
      policy alone or by the creation hook. Told without the database. */
  predicate RefusedOutright(s: Session, before: nat, call: Call)
  {
    match Admit(s, before, call)
    case Err(_) => true
    case Ok(a) => RefusedUnread(s, a, call)
  }

  predicate RefusedUnread(s: Session, a: Admitted, call: Call)
  {
    match call
    case CreateCall(_, body) =>
      || ModelFromJson(a.entity, body).Err?
      || CanCreate(s.env.members, a.entity.access, a.user) != Ok(true)
      || NewRow(a.entity, a.user, s.subject, ModelFromJson(a.entity, body).value).Err?
    case UpdateCall(_, _, body) =>
      ModelFromJson(a.entity, body).Err? || PolicyRefuses(s.env.members, a.entity.access.write, a.user)
    case DeleteCall(_, _) => PolicyRefuses(s.env.members, a.entity.access.write, a.user)
  }

  lemma RefusedUnreadOnAnyTable(s: Session, a: Admitted, t: Table, u: Table, call: Call)
    requires RefusedUnread(s, a, call)
    ensures Write(s, a, t, call).Err? && Write(s, a, u, call) == Write(s, a, t, call)
  {
  }

  /** A call adds no table; and an entry only of its own, when it succeeds. */
  lemma CallAddsOwnEntry(s: Session, db: Db, before: nat, call: Call, t: Db)
    requires s.scope.Some? && t in Apply(s, db, before, call).trace
    ensures t.tables.Keys == db.tables.Keys
    ensures t.journal != db.journal ==>
              && Fresh(s, db, before, call) && Apply(s, db, before, call).reply.Ok?
              && t.journal == db.journal[Key(s.scope.value, call) := Apply(s, db, before, call).reply.value]
              && Write(s, Admit(s, before, call).value, db.tables[call.resource], call).Ok?
              && Write(s, Admit(s, before, call).value, db.tables[call.resource], call).value.1
                 == Apply(s, db, before, call).reply.value
  {
  }

  /** A call that changes tables replaces its own by what its write gave. */
  lemma CallReplacesTable(s: Session, db: Db, before: nat, call: Call, t: Db)
    requires t in Apply(s, db, before, call).trace && t.tables != db.tables
    ensures Admit(s, before, call).Ok? && call.resource in db.tables
    ensures var w := Write(s, Admit(s, before, call).value, db.tables[call.resource], call);
            w.Ok? && t.tables == db.tables[call.resource := w.value.0]
  {
  }

  /** On `t`, the call is answered as on `db`, and leaves `t` as it is. */
  ghost predicate SameOn(s: Session, db: Db, before: nat, call: Call, t: Db)
  {
    Apply(s, t, before, call).reply == Apply(s, db, before, call).reply && Last(Apply(s, t, before, call)) == t
  }

  /** A failing call is not journaled, and no other call of its scope can journal it where it would
      fail. */
  lemma FailingStaysUnjournaled(s: Session, db: Db, i: nat, c: Call, k: nat, d: Call, t: Db)
    requires s.scope.Some? && t in Apply(s, db, k, d).trace
    requires Admit(s, i, c).Ok? && Apply(s, db, i, c).reply.Err?
    ensures Key(s.scope.value, c) !in t.journal
  {
    CallAddsOwnEntry(s, db, k, d, t);
  }

  lemma RefusalStands(s: Session, db: Db, i: nat, c: Call, k: nat, d: Call, t: Db)
    requires s.scope.Some? && t in Apply(s, db, k, d).trace
    requires RefusedOutright(s, i, c) && Apply(s, db, i, c).reply.Err?
    ensures SameOn(s, db, i, c, t)
  {
    CallAddsOwnEntry(s, db, k, d, t);
    if Admit(s, i, c).Ok? {
      FailingStaysUnjournaled(s, db, i, c, k, d, t);
      if c.resource in db.tables {
        RefusedUnreadOnAnyTable(s, Admit(s, i, c).value, db.tables[c.resource], t.tables[c.resource], c);
      }
    }
  }

  /** A call refused outright goes through one state only. */
  lemma RefusedIsStill(s: Session, db: Db, before: nat, call: Call)
    requires s.scope.Some? && RefusedOutright(s, before, call)
    ensures Apply(s, db, before, call).trace == [db]
  {
    if Admit(s, before, call).Ok? && call.resource in db.tables {
      var t := db.tables[call.resource];
      RefusedUnreadOnAnyTable(s, Admit(s, before, call).value, t, t, call);
    }
  }

  lemma RefusedResumes(s: Session, db: Db, before: nat, call: Call)
    requires s.scope.Some? && RefusedOutright(s, before, call)
    ensures Resumes(MachineOf(s), db, before, call)
  {
    RefusedIsStill(s, db, before, call);
  }

  /** What the run answers up to its call number k. */
  lemma PrefixOfRun(s: Session, script: Script<Call>, db: Db, limit: nat, k: nat)
    requires k < limit && Continues(script, Run(MachineOf(s), script, db, [], k).1, limit)
    requires |Run(MachineOf(s), script, db, [], k).1| == k
    ensures var (at, replies) := Run(MachineOf(s), script, db, [], k);
            var all := Run(MachineOf(s), script, db, [], limit).1;
            && k < |all| && all[..k] == replies && all[k] == Apply(s, at, k, script(replies).value).reply
            && forall i | 0 <= i < k :: all[..i] == replies[..i] && all[i] == replies[i]
  {
    var (at, replies) := Run(MachineOf(s), script, db, [], k);
    RunSplits(MachineOf(s), script, db, [], k, limit);
    FirstAnswer(MachineOf(s), script, at, replies, limit);
  }

  /** Every call of the run is refused outright, or succeeds and is safe. */
  ghost predicate SafeBatch(s: Session, script: Script<Call>, replies: seq<Reply>)
  {
    forall i | 0 <= i < |replies| ::
      && script(replies[..i]).Some?
      && var call := script(replies[..i]).value;
         RefusedOutright(s, i, call) || (replies[i].Ok? && SafeCall(s, call))
  }

  lemma SafeStep(s: Session, script: Script<Call>, db: Db, limit: nat, k: nat)
    requires s.scope.Some? && DbOk(s, db)
    requires SafeBatch(s, script, Run(MachineOf(s), script, db, [], limit).1)
    requires k < limit && Continues(script, Run(MachineOf(s), script, db, [], k).1, limit)
    requires |Run(MachineOf(s), script, db, [], k).1| == k
    ensures var (at, replies) := Run(MachineOf(s), script, db, [], k);
            && Resumes(MachineOf(s), at, k, script(replies).value)
            && forall i | 0 <= i < k && replies[i].Err? ::
                 script(replies[..i]).Some? && RefusedOutright(s, i, script(replies[..i]).value)
  {
    var (at, replies) := Run(MachineOf(s), script, db, [], k);
    var all := Run(MachineOf(s), script, db, [], limit).1;
    PrefixOfRun(s, script, db, limit, k);
    RunKeepsDbOk(s, script, db, [], k);
    var call := script(replies).value;
    if RefusedOutright(s, k, call) {
      RefusedResumes(s, at, k, call);
    } else {
      SafeCallResumes(s, at, k, call);
    }
    forall i | 0 <= i < k && replies[i].Err?
      ensures script(replies[..i]).Some? && RefusedOutright(s, i, script(replies[..i]).value)
    {
      assert all[i].Err? && script(all[..i]).Some?;
    }
  }

  /** Crash-resume refinement for batches: if each call of the uninterrupted run is refused outright
      (by the cap, the account, the registry, the id, its body, the policy or the hook), or is a safe
      create or update that succeeds, then after any number of crashes at any point the final rerun
      ends with the same tables, journal and answers as that run. */
  lemma SafeBatchConverges(s: Session, script: Script<Call>, db: Db, limit: nat)
    requires s.scope.Some? && DbOk(s, db)
    requires SafeBatch(s, script, Run(MachineOf(s), script, db, [], limit).1)
    ensures Converges(MachineOf(s), script, db, limit)
  {
    var m := MachineOf(s);
    forall k: nat | k < limit && Continues(script, Run(m, script, db, [], k).1, limit) &&
                    |Run(m, script, db, [], k).1| == k
      ensures var (at, replies) := Run(m, script, db, [], k);
              && Resumes(m, at, k, script(replies).value)
              && (UnkeptRepeat(m, script, replies, at) ==>
                    forall t | t in m.step(at, k, script(replies).value).trace :: UnkeptRepeat(m, script, replies, t))
    {
      var (at, replies) := Run(m, script, db, [], k);
      SafeStep(s, script, db, limit, k);
      if UnkeptRepeat(m, script, replies, at) {
        forall t, i | t in Apply(s, at, k, script(replies).value).trace && 0 <= i < k && Unkept(m, script, replies, i)
          ensures Settled(m, script, replies, i, t)
        {
          assert Settled(m, script, replies, i, at);
          RefusalStands(s, at, i, script(replies[..i]).value, k, script(replies).value, t);
        }
      }
    }
    CallByCallConverges(s, script, db, limit);
  }

  lemma CallByCallConverges(s: Session, script: Script<Call>, db: Db, limit: nat)
    requires s.scope.Some? && ResumableByCall(MachineOf(s), script, db, limit)
    ensures Converges(MachineOf(s), script, db, limit)
  {
    AgentCallsJournal(s);
    AgentCallsRestartQuietly(s);
    CallByCallIsResumable(MachineOf(s), script, db, limit);
    ResumableConverges(MachineOf(s), script, db, limit);
  }

  // ---------------------------------------------------------------------------------------------
  // Batches of creates
  // ---------------------------------------------------------------------------------------------

  /** The body carries every column of every UNIQUE constraint. */
  predicate CarriesUnique(e: Entity, body: Row)
  {
    forall key, c | key in e.unique && c in key :: c in body
  }

  /** A creation that can never be mistaken: the label of its entity is UNIQUE by itself, its body
      carries the label and every column of every other UNIQUE constraint, and the row it asks for
      agrees with the body. Told from the registry, the account and the body. */
  predicate SelfIdentifying(s: Session, call: Call)
  {
    call.CreateCall? &&
    (call.resource in s.env.registry && s.subject in s.env.accounts ==>
       var e, user := s.env.registry[call.resource].entity, s.env.accounts[s.subject];
       && e.labelColumn.Some? && {e.labelColumn.value} in e.unique
       && LabelValue(e, call.body).Some? && CarriesUnique(e, call.body.fields)
       && (ModelFromJson(e, call.body).Ok? && NewRow(e, user, s.subject, ModelFromJson(e, call.body).value).Ok? ==>
             Agrees(e, NewRow(e, user, s.subject, ModelFromJson(e, call.body).value).value, call.body.fields)))
  }

  /** A write of a self-identifying creation that changes nothing does the same once another row is
      in: a conflict persists, and so does a row found. */
  lemma ConflictPersists(s: Session, a: Admitted, t: Table, row: Row, call: Call)
    requires s.scope.Some? && SelfIdentifying(s, call) && Admit(s, 0, call) == Ok(a) && WellFormed(a.entity)
    requires t.next <= I32_MAX && !CollidesWithAny(a.entity, t.rows, row[a.entity.pk := Null])
    requires var w := Write(s, a, t, call); w.Ok? ==> w.value.0 == t
    ensures var t' := Table(t.rows + [row], t.next + 1);
            Write(s, a, t', call) ==
            match Write(s, a, t, call) case Err(f) => Err(f) case Ok((_, value)) => Ok((t', value))
  {
    var e := a.entity;
    if !RefusedUnread(s, a, call) {
      var t' := Table(t.rows + [row], t.next + 1);
      var asked := NewRow(e, a.user, s.subject, ModelFromJson(e, call.body).value).value;
      assert CollidesWithAny(e, t.rows, asked[e.pk := Null]);
      SameReread(e, t, row, asked, call.body);
    }
  }

  lemma SameReread(e: Entity, t: Table, row: Row, asked: Row, body: Json)
    requires WellFormed(e) && LabelValue(e, body).Some? && CarriesUnique(e, body.fields)
    requires Agrees(e, asked, body.fields)
    requires CollidesWithAny(e, t.rows, asked[e.pk := Null]) && !CollidesWithAny(e, t.rows, row[e.pk := Null])
    ensures CollidesWithAny(e, t.rows + [row], asked[e.pk := Null])
    ensures FirstMatch(e, LabelValue(e, body).value, body.fields, t.rows + [row]) ==
            FirstMatch(e, LabelValue(e, body).value, body.fields, t.rows)
  {
    var i :| 0 <= i < |t.rows| && Collide(e, t.rows[i], asked[e.pk := Null]);
    NoNewMatch(e, t.rows[i], row, asked, LabelValue(e, body).value, body.fields);
    OneRowMore(e, t.rows, row, LabelValue(e, body).value, body.fields);
    assert (t.rows + [row])[i] == t.rows[i];
  }

  lemma OneRowMore(e: Entity, rows: seq<Row>, row: Row, wanted: Json, body: Row)
    requires !RecoveryMatch(e, wanted, body, row)
    ensures FirstMatch(e, wanted, body, rows + [row]) == FirstMatch(e, wanted, body, rows)
  {
    FirstMatchSplits(e, wanted, body, rows, [row]);
    assert [row][1..] == [];
  }

  /** What collides with a row the table keeps out does not agree with the body that carries every
      column of every UNIQUE constraint. */
  lemma NoNewMatch(e: Entity, there: Row, row: Row, asked: Row, wanted: Json, body: Row)
    requires WellFormed(e) && CarriesUnique(e, body) && Agrees(e, asked, body)
    requires Collide(e, there, asked[e.pk := Null]) && !Collide(e, there, row[e.pk := Null])
    ensures !RecoveryMatch(e, wanted, body, row)
  {
    var key :| key in e.unique && AgreeOn(key, there, asked[e.pk := Null]);
    assert !AgreeOn(key, there, row[e.pk := Null]);
    var c :|
      c in key && !(c in there && c in row[e.pk := Null] && there[c] == row[e.pk := Null][c] && there[c] != Null);
    assert c != e.pk && body[c] == there[c];
  }

  /** What one call does to the tables, when it is a creation: nothing, or one row more in one. */
  lemma CreateAddsOneRow(s: Session, db: Db, before: nat, call: Call, t: Db)
    requires call.CreateCall? && t in Apply(s, db, before, call).trace && t.tables != db.tables && DbOk(s, db)
    ensures call.resource in db.tables && call.resource in s.env.registry
    ensures var e, table := s.env.registry[call.resource].entity, db.tables[call.resource];
            table.next <= I32_MAX &&
            exists row :: !CollidesWithAny(e, table.rows, row[e.pk := Null]) &&
              t.tables == db.tables[call.resource := Table(table.rows + [row], table.next + 1)]
  {
    var a := Admit(s, before, call).value;
    var table := db.tables[call.resource];
    if Inserts(s, a, table, call) {
      InsertsOwnRow(s, a, table, call);
      var own := OwnRow(a.entity, table, a.user, s.subject, call.body).value;
      assert t.tables == db.tables[call.resource := Table(table.rows + [own], table.next + 1)];
    }
  }

  /** A failure without effect of one creation stands through any other creation. */
  lemma FailureStands(s: Session, db: Db, i: nat, c: Call, k: nat, d: Call, t: Db)
    requires s.scope.Some? && DbOk(s, db) && SelfIdentifying(s, c) && d.CreateCall?
    requires t in Apply(s, db, k, d).trace
    requires Apply(s, db, i, c).reply.Err? && Last(Apply(s, db, i, c)) == db
    ensures SameOn(s, db, i, c, t)
  {
    CallAddsOwnEntry(s, db, k, d, t);
    if Admit(s, i, c).Ok? {
      FailingStaysUnjournaled(s, db, i, c, k, d, t);
      if c.resource in db.tables {
        FailureOnTable(s, db, i, c, k, d, t);
      }
    }
  }

  /** The same write, failing or without effect, gives the same failing call. */
  lemma SameWriteSameCall(s: Session, db: Db, before: nat, call: Call, t: Db)
    requires Fresh(s, db, before, call) && Fresh(s, t, before, call)
    requires var a := Admit(s, before, call).value;
             Write(s, a, t.tables[call.resource], call) ==
             match Write(s, a, db.tables[call.resource], call)
             case Err(f) => Err(f)
             case Ok((_, value)) => Ok((t.tables[call.resource], value))
    requires Apply(s, db, before, call).reply.Err?
    ensures SameOn(s, db, before, call, t)
  {
    assert t.tables[call.resource := t.tables[call.resource]] == t.tables;
  }

  /** Its table grown by another creation, the failing write is the same. */
  lemma SameWriteOnGrown(s: Session, db: Db, a: Admitted, c: Call, k: nat, d: Call, t: Db)
    requires s.scope.Some? && DbOk(s, db) && SelfIdentifying(s, c) && d.CreateCall?
    requires t in Apply(s, db, k, d).trace && Admit(s, 0, c) == Ok(a)
    requires c.resource in db.tables && c.resource in t.tables && t.tables[c.resource] != db.tables[c.resource]
    requires var w := Write(s, a, db.tables[c.resource], c); w.Ok? ==> w.value.0 == db.tables[c.resource]
    ensures Write(s, a, t.tables[c.resource], c) ==
            match Write(s, a, db.tables[c.resource], c)
            case Err(f) => Err(f)
            case Ok((_, value)) => Ok((t.tables[c.resource], value))
  {
    var table := db.tables[c.resource];
    CreateAddsOneRow(s, db, k, d, t);
    var row :| !CollidesWithAny(s.env.registry[d.resource].entity, db.tables[d.resource].rows,
                                row[s.env.registry[d.resource].entity.pk := Null]) &&
      t.tables == db.tables[d.resource := Table(db.tables[d.resource].rows + [row], db.tables[d.resource].next + 1)];
    ConflictPersists(s, a, table, row, c);
  }

  lemma FailureOnTable(s: Session, db: Db, i: nat, c: Call, k: nat, d: Call, t: Db)
    requires s.scope.Some? && DbOk(s, db) && SelfIdentifying(s, c) && d.CreateCall?
    requires t in Apply(s, db, k, d).trace && Fresh(s, db, i, c) && Fresh(s, t, i, c)
    requires Apply(s, db, i, c).reply.Err? && Last(Apply(s, db, i, c)) == db
    ensures SameOn(s, db, i, c, t)
  {
    EffectlessWrite(s, db, i, c);
    if t.tables[c.resource] != db.tables[c.resource] {
      SameWriteOnGrown(s, db, Admit(s, i, c).value, c, k, d, t);
    }
    SameWriteSameCall(s, db, i, c, t);
  }

  lemma EffectlessWrite(s: Session, db: Db, before: nat, call: Call)
    requires Fresh(s, db, before, call) && Last(Apply(s, db, before, call)) == db
    ensures var w := Write(s, Admit(s, before, call).value, db.tables[call.resource], call);
            w.Ok? ==> w.value.0 == db.tables[call.resource]
  {
    var w := Write(s, Admit(s, before, call).value, db.tables[call.resource], call);
    if w.Ok? {
      assert Last(Apply(s, db, before, call)).tables[call.resource] == w.value.0;
    }
  }

  /** An answer too large for the journal is found again, too large again. */
  lemma OverflowResumes(s: Session, db: Db, before: nat, call: Call)
    requires Overflows(s, db, before, call)
    requires var a := Admit(s, before, call).value;
             var (t, value) := Write(s, a, db.tables[call.resource], call).value;
             Write(s, a, t, call) == Ok((t, value))
    ensures Resumes(MachineOf(s), db, before, call)
  {
    var o := Apply(s, db, before, call);
    var t := Write(s, Admit(s, before, call).value, db.tables[call.resource], call).value.0;
    var written := db.(tables := db.tables[call.resource := t]);
    assert o == Passage([db, written], Err(Internal));
    WrittenOverflows(s, written, before, call);
  }

  lemma WrittenOverflows(s: Session, db: Db, before: nat, call: Call)
    requires Overflows(s, db, before, call)
    requires Write(s, Admit(s, before, call).value, db.tables[call.resource], call).value.0 == db.tables[call.resource]
    ensures Apply(s, db, before, call).reply == Err(Internal) && Last(Apply(s, db, before, call)) == db
  {
    assert db.tables[call.resource := db.tables[call.resource]] == db.tables;
  }

  /** Written on a table that already holds its row, or another it finds, a self-identifying creation
      gives the same again. */
  lemma SelfIdentifyingRepeats(s: Session, db: Db, before: nat, call: Call)
    requires s.scope.Some? && DbOk(s, db) && SelfIdentifying(s, call) && Fresh(s, db, before, call)
    requires Write(s, Admit(s, before, call).value, db.tables[call.resource], call).Ok?
    ensures var a := Admit(s, before, call).value;
            var (t, value) := Write(s, a, db.tables[call.resource], call).value;
            Write(s, a, t, call) == Ok((t, value))
  {
    var a := Admit(s, before, call).value;
    var table := db.tables[call.resource];
    if Inserts(s, a, table, call) {
      CreateWrittenAgain(s, a, table, call);
      LabelDecides(s, a, table, call);
    }
  }

  /** So it resumes, whatever its answer. */
  lemma SelfIdentifyingResumes(s: Session, db: Db, before: nat, call: Call)
    requires s.scope.Some? && DbOk(s, db) && SelfIdentifying(s, call)
    ensures Resumes(MachineOf(s), db, before, call)
  {
    var o := Apply(s, db, before, call);
    if Fresh(s, db, before, call) && Write(s, Admit(s, before, call).value, db.tables[call.resource], call).Ok? {
      SelfIdentifyingRepeats(s, db, before, call);
      if Overflows(s, db, before, call) {
        OverflowResumes(s, db, before, call);
      } else {
        WrittenAgainIsResumed(s, db, before, call);
      }
    } else {
      assert o.trace == [db];
    }
  }
}
