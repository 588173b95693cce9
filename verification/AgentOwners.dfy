/**
 Who owns the rows and whose rights they are under, over whole histories (src/rest/core.rs,
 src/rbac.rs).
 */
module AgentOwners {
  import opened Wrappers
  import opened JsonValues
  import opened Rbac
  import opened RestCore
  import opened AgentWrites
  import opened AgentRecovery
  import opened AgentRecoveryCases
  import opened AgentBatchRecovery
  import opened AgentAttempts
  import opened AgentEffects

  /** Every row of `after` is one of `before`, with the owner it had, or a new one of the user's. */
  ghost predicate OwnersKept(e: Entity, user: UserId, before: Table, after: Table)
    requires e.access.owner.Some? && TableOk(e, before) && TableOk(e, after)
  {
    && before.next <= after.next
    && forall i | 0 <= i < |after.rows| ::
         || (after.rows[i][e.pk].n >= before.next && OwnerOf(e, after.rows[i]) == Int(user))
         || exists j | 0 <= j < |before.rows| ::
              before.rows[j][e.pk] == after.rows[i][e.pk] && OwnerOf(e, before.rows[j]) == OwnerOf(e, after.rows[i])
  }

  lemma OwnersKeptOnwards(e: Entity, user: UserId, a: Table, b: Table, c: Table)
    requires e.access.owner.Some? && TableOk(e, a) && TableOk(e, b) && TableOk(e, c)
    requires OwnersKept(e, user, a, b) && OwnersKept(e, user, b, c)
    ensures OwnersKept(e, user, a, c)
  {
    forall i | 0 <= i < |c.rows|
      ensures (c.rows[i][e.pk].n >= a.next && OwnerOf(e, c.rows[i]) == Int(user)) ||
              exists j | 0 <= j < |a.rows| ::
                a.rows[j][e.pk] == c.rows[i][e.pk] && OwnerOf(e, a.rows[j]) == OwnerOf(e, c.rows[i])
    {
      if c.rows[i][e.pk].n < b.next || OwnerOf(e, c.rows[i]) != Int(user) {
        var j :|
          0 <= j < |b.rows| && b.rows[j][e.pk] == c.rows[i][e.pk] && OwnerOf(e, b.rows[j]) == OwnerOf(e, c.rows[i]);
        if b.rows[j][e.pk].n < a.next || OwnerOf(e, b.rows[j]) != Int(user) {
          var l :|
            0 <= l < |a.rows| && a.rows[l][e.pk] == b.rows[j][e.pk] && OwnerOf(e, a.rows[l]) == OwnerOf(e, b.rows[j]);
        }
      }
    }
  }

  lemma UpdateKeepsOwners(s: Session, a: Admitted, t: Table, id: i64, model: Row)
    requires WellFormed(a.entity) && a.entity.access.owner.Some? && TableOk(a.entity, t)
    requires RestCore.Update(s.env.members, a.entity, a.user, s.subject, t, id, model).Ok?
    ensures TableOk(a.entity, RestCore.Update(s.env.members, a.entity, a.user, s.subject, t, id, model).value.0)
    ensures OwnersKept(a.entity, a.user, t,
                       RestCore.Update(s.env.members, a.entity, a.user, s.subject, t, id, model).value.0)
  {
    var e := a.entity;
    UpdateKeepsKeys(s.env.members, e, a.user, s.subject, t, id, model);
    OwnerIsTheCreator(s.env.members, e, a.user, s.subject, t, id, model);
    var i := Reach(s.env.members, e, e.access.write, a.user, t, id).value;
    var t' := RestCore.Update(s.env.members, e, a.user, s.subject, t, id, model).value.0;
    assert forall k | 0 <= k < |t.rows| && k != i :: t'.rows[k] == t.rows[k];
    assert t'.rows[i][e.pk] == t.rows[i][e.pk];
  }

  lemma CreateKeepsOwners(s: Session, a: Admitted, t: Table, call: Call)
    requires WellFormed(a.entity) && a.entity.access.owner.Some? && TableOk(a.entity, t) && Inserts(s, a, t, call)
    ensures TableOk(a.entity, Write(s, a, t, call).value.0)
    ensures OwnersKept(a.entity, a.user, t, Write(s, a, t, call).value.0)
  {
    WriteKeepsTableOk(s, a, t, call);
    InsertsOwnRow(s, a, t, call);
    var t' := Write(s, a, t, call).value.0;
    assert forall i | 0 <= i < |t.rows| :: t'.rows[i] == t.rows[i];
  }

  lemma RemovalKeepsOwners(e: Entity, user: UserId, t: Table, i: nat)
    requires e.access.owner.Some? && TableOk(e, t) && i < |t.rows|
    ensures var t' := t.(rows := t.rows[..i] + t.rows[i + 1..]); TableOk(e, t') && OwnersKept(e, user, t, t')
  {
    RemovalKeepsKeys(e, t, i);
    var rows := t.rows[..i] + t.rows[i + 1..];
    assert forall k | 0 <= k < i :: rows[k] == t.rows[k];
    assert forall k | i <= k < |rows| :: rows[k] == t.rows[k + 1];
  }

  lemma WriteKeepsOwners(s: Session, a: Admitted, t: Table, call: Call)
    requires WellFormed(a.entity) && a.entity.access.owner.Some? && TableOk(a.entity, t) && Write(s, a, t, call).Ok?
    ensures TableOk(a.entity, Write(s, a, t, call).value.0)
    ensures OwnersKept(a.entity, a.user, t, Write(s, a, t, call).value.0)
  {
    match call
    case CreateCall(_, body) =>
      if Inserts(s, a, t, call) {
        CreateKeepsOwners(s, a, t, call);
      } else {
        RescueChangesNothing(s, a, t, call);
      }
    case UpdateCall(_, id, body) =>
      UpdateKeepsOwners(s, a, t, id, ModelFromJson(a.entity, body).value);
    case DeleteCall(_, id) =>
      RemovalKeepsOwners(a.entity, a.user, t,
                         Reach(s.env.members, a.entity, a.entity.access.write, a.user, t, id).value);
  }

  /** A registered entity with an owner column, and the session's account. */
  predicate Owned(s: Session, resource: string)
  {
    resource in s.env.registry && s.subject in s.env.accounts && s.env.registry[resource].entity.access.owner.Some?
  }

  ghost predicate OwnersOf(s: Session, resource: string, db: Db, t: Db)
    requires Owned(s, resource) && DbOk(s, db) && DbOk(s, t)
  {
    resource in db.tables ==>
      && resource in t.tables
      && OwnersKept(s.env.registry[resource].entity, s.env.accounts[s.subject], db.tables[resource], t.tables[resource])
  }

  lemma CallKeepsOwners(s: Session, resource: string, db: Db, before: nat, call: Call, t: Db)
    requires DbOk(s, db) && Owned(s, resource) && t in Apply(s, db, before, call).trace
    ensures DbOk(s, t) && OwnersOf(s, resource, db, t)
  {
    CallKeepsDbOk(s, db, before, call);
    if t.tables != db.tables {
      CallReplacesTable(s, db, before, call, t);
      if call.resource == resource {
        WriteKeepsOwners(s, Admit(s, before, call).value, db.tables[resource], call);
      }
    }
  }

  lemma OwnersOnwards(s: Session, resource: string, a: Db, b: Db, c: Db)
    requires Owned(s, resource) && DbOk(s, a) && DbOk(s, b) && DbOk(s, c)
    requires OwnersOf(s, resource, a, b) && OwnersOf(s, resource, b, c)
    ensures OwnersOf(s, resource, a, c)
  {
    if resource in a.tables {
      OwnersKeptOnwards(s.env.registry[resource].entity, s.env.accounts[s.subject],
                        a.tables[resource], b.tables[resource], c.tables[resource]);
    }
  }

  lemma {:induction false} AttemptKeepsOwners(s: Session, resource: string, db: Db, replies: seq<Reply>, limit: nat,
                                              a: Attempt)
    requires DbOk(s, db) && Owned(s, resource)
    ensures DbOk(s, CrashedRun(MachineWith(s, a.faults), a.script, db, replies, limit, a.crash))
    ensures OwnersOf(s, resource, db, CrashedRun(MachineWith(s, a.faults), a.script, db, replies, limit, a.crash))
    decreases limit - |replies|
  {
    if |replies| < limit && a.script(replies).Some? {
      var call := a.script(replies).value;
      var o := ApplyWith(s, db, |replies|, call, a.faults(|replies|));
      FaultyCall(s, db, |replies|, call, a.faults(|replies|));
      var left := CrashedRun(MachineWith(s, a.faults), a.script, db, replies, limit, a.crash);
      if |replies| == a.crash.call {
        assert left in o.trace;
        CallKeepsOwners(s, resource, db, |replies|, call, left);
      } else {
        assert Last(o) in o.trace;
        CallKeepsOwners(s, resource, db, |replies|, call, Last(o));
        AttemptKeepsOwners(s, resource, Last(o), replies + [o.reply], limit, a);
        OwnersOnwards(s, resource, db, Last(o), left);
      }
    }
  }

  /** Over any history of attempts, whatever fails in them and whatever bodies and hooks say: a row
      that was there keeps its owner, and every row made is the session's own account's. */
  lemma {:induction false} OwnersNeverMove(s: Session, resource: string, db: Db, limit: nat, attempts: seq<Attempt>)
    requires DbOk(s, db) && Owned(s, resource)
    ensures DbOk(s, AfterAll(s, db, limit, attempts))
    ensures OwnersOf(s, resource, db, AfterAll(s, db, limit, attempts))
    decreases |attempts|
  {
    if attempts != [] {
      var left := After(s, db, limit, attempts[0]);
      AttemptKeepsOwners(s, resource, db, [], limit, attempts[0]);
      OwnersNeverMove(s, resource, left, limit, attempts[1..]);
      OwnersOnwards(s, resource, db, left, AfterAll(s, db, limit, attempts));
    }
  }

  // ---------------------------------------------------------------------------------------------
  // Rights
  // ---------------------------------------------------------------------------------------------

  /** Each row the user may not write is still there, as it was; and a user who may not create has
      added no row. */
  ghost predicate Spared(members: Members, e: Entity, user: UserId, before: Table, after: Table)
  {
    && (forall row | row in before.rows && CanWrite(members, e.access, user, row) != Ok(true) :: row in after.rows)
    && (CanCreate(members, e.access, user) != Ok(true) ==> |after.rows| <= |before.rows|)
  }

  lemma ReplacedSpares(members: Members, e: Entity, user: UserId, t: Table, t': Table, i: nat)
    requires i < |t.rows| == |t'.rows| && CanWrite(members, e.access, user, t.rows[i]) == Ok(true)
    requires forall j | 0 <= j < |t.rows| && j != i :: t'.rows[j] == t.rows[j]
    ensures Spared(members, e, user, t, t')
  {
    forall row | row in t.rows && CanWrite(members, e.access, user, row) != Ok(true) ensures row in t'.rows {
      var j :| 0 <= j < |t.rows| && t.rows[j] == row;
      assert t'.rows[j] == row;
    }
  }

  lemma RemovedSpares(members: Members, e: Entity, user: UserId, id: i64, t: Table, t': Table, i: nat)
    requires Removed(e, id, t, t', i) && CanWrite(members, e.access, user, t.rows[i]) == Ok(true)
    ensures Spared(members, e, user, t, t')
  {
    forall row | row in t.rows && CanWrite(members, e.access, user, row) != Ok(true) ensures row in t'.rows {
      var j :| 0 <= j < |t.rows| && t.rows[j] == row;
      assert t'.rows[if j < i then j else j - 1] == row;
    }
  }

  lemma WriteSpares(s: Session, a: Admitted, t: Table, call: Call)
    requires WellFormed(a.entity) && Write(s, a, t, call).Ok?
    ensures Spared(s.env.members, a.entity, a.user, t, Write(s, a, t, call).value.0)
  {
    match call
    case CreateCall(resource, body) =>
      CreateAnswers(s, a, t, resource, body);
      CreateInserts(s.env.members, a.entity, a.user, s.subject, t, ModelFromJson(a.entity, body).value);
    case UpdateCall(_, id, body) =>
      var model := ModelFromJson(a.entity, body).value;
      var i := UpdateReplaces(s.env.members, a.entity, a.user, s.subject, t, id, model);
      ReplacedSpares(s.env.members, a.entity, a.user, t, Write(s, a, t, call).value.0, i);
    case DeleteCall(_, id) =>
      var i := DeleteRemoves(s.env.members, a.entity, a.user, s.subject, t, id);
      RemovedSpares(s.env.members, a.entity, a.user, id, t, Write(s, a, t, call).value.0, i);
  }

  /** The resource is registered and has a table, and the session an account. */
  predicate Served(s: Session, resource: string, db: Db)
  {
    resource in s.env.registry && s.subject in s.env.accounts && resource in db.tables
  }

  ghost predicate SparedIn(s: Session, resource: string, db: Db, t: Db)
    requires Served(s, resource, db)
  {
    && resource in t.tables
    && Spared(s.env.members, s.env.registry[resource].entity, s.env.accounts[s.subject],
              db.tables[resource], t.tables[resource])
  }

  lemma SparedOnwards(s: Session, resource: string, a: Db, b: Db, c: Db)
    requires Served(s, resource, a) && SparedIn(s, resource, a, b) && SparedIn(s, resource, b, c)
    ensures SparedIn(s, resource, a, c)
  {
  }

  lemma CallSpares(s: Session, resource: string, db: Db, before: nat, call: Call, t: Db)
    requires Served(s, resource, db) && KeyIsNoOwner(s, resource) && t in Apply(s, db, before, call).trace
    ensures SparedIn(s, resource, db, t)
  {
    if t.tables != db.tables {
      CallReplacesTable(s, db, before, call, t);
      if call.resource == resource {
        WriteSpares(s, Admit(s, before, call).value, db.tables[resource], call);
      }
    }
  }

  lemma {:induction false} AttemptSpares(s: Session, resource: string, db: Db, replies: seq<Reply>, limit: nat,
                                         a: Attempt)
    requires Served(s, resource, db) && KeyIsNoOwner(s, resource)
    ensures SparedIn(s, resource, db, CrashedRun(MachineWith(s, a.faults), a.script, db, replies, limit, a.crash))
    decreases limit - |replies|
  {
    if |replies| < limit && a.script(replies).Some? {
      var call := a.script(replies).value;
      var o := ApplyWith(s, db, |replies|, call, a.faults(|replies|));
      FaultyCall(s, db, |replies|, call, a.faults(|replies|));
      var left := CrashedRun(MachineWith(s, a.faults), a.script, db, replies, limit, a.crash);
      if |replies| == a.crash.call {
        assert left in o.trace;
        CallSpares(s, resource, db, |replies|, call, left);
      } else {
        assert Last(o) in o.trace;
        CallSpares(s, resource, db, |replies|, call, Last(o));
        AttemptSpares(s, resource, Last(o), replies + [o.reply], limit, a);
        SparedOnwards(s, resource, db, Last(o), left);
      }
    }
  }

  /** Over any history of attempts, whatever fails in them: a row the account may not write is never
      changed nor removed, and an account that may not create never adds a row. */
  lemma {:induction false} RightsAreKept(s: Session, resource: string, db: Db, limit: nat, attempts: seq<Attempt>)
    requires Served(s, resource, db) && KeyIsNoOwner(s, resource)
    ensures SparedIn(s, resource, db, AfterAll(s, db, limit, attempts))
    decreases |attempts|
  {
    if attempts != [] {
      var left := After(s, db, limit, attempts[0]);
      AttemptSpares(s, resource, db, [], limit, attempts[0]);
      RightsAreKept(s, resource, left, limit, attempts[1..]);
      SparedOnwards(s, resource, db, left, AfterAll(s, db, limit, attempts));
    }
  }
}
