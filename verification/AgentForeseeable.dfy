/**
 Batches that survive crashes whatever their answers, told before the first call from the script, the
 registry and the tables (src/lymaille/resource_module.rs).
 */
module AgentForeseeable {
  import opened Wrappers
  import opened JsonValues
  import opened Rbac
  import opened RestCore
  import opened AgentWrites
  import opened AgentRecovery
  import opened AgentRecoveryCases
  import opened AgentBatchRecovery

  // ---------------------------------------------------------------------------------------------
  // Updates that keep keys and owners
  // ---------------------------------------------------------------------------------------------

  predicate SameOwner(e: Entity, a: Row, b: Row)
  {
    e.access.owner.Some? ==> OwnerOf(e, a) == OwnerOf(e, b)
  }

  /** Row for row, the keys and the owners are the same. */
  ghost predicate Steady(e: Entity, a: Table, b: Table)
    requires TableOk(e, a) && TableOk(e, b)
  {
    && a.next == b.next && |a.rows| == |b.rows|
    && forall i | 0 <= i < |a.rows| :: a.rows[i][e.pk] == b.rows[i][e.pk] && SameOwner(e, a.rows[i], b.rows[i])
  }

  lemma SteadyFind(e: Entity, a: Table, b: Table, id: int)
    requires TableOk(e, a) && TableOk(e, b) && Steady(e, a, b)
    ensures Find(e, a.rows, id) == Find(e, b.rows, id)
  {
    match Find(e, a.rows, id)
    case Some(i) => FindUnique(e, b, i);
    case None =>
      if Find(e, b.rows, id).Some? {
        FindUnique(e, a, Find(e, b.rows, id).value);
      }
  }

  /** So an operation reaches the same row of both, or fails alike. */
  lemma SteadyReach(members: Members, e: Entity, policy: Policy, user: UserId, a: Table, b: Table, id: int)
    requires TableOk(e, a) && TableOk(e, b) && Steady(e, a, b)
    ensures Reach(members, e, policy, user, a, id) == Reach(members, e, policy, user, b, id)
  {
    SteadyFind(e, a, b, id);
    if Find(e, a.rows, id).Some? {
      var i := Find(e, a.rows, id).value;
      assert SameOwner(e, a.rows[i], b.rows[i]);
    }
  }

  /** An update with such a hook, on an entity without UNIQUE constraints, does the same on both: it
      fails alike, or answers alike. */
  lemma SteadyWrite(s: Session, a: Admitted, t: Table, u: Table, call: Call)
    requires call.UpdateCall? && HookKeepsBody(a.entity, s.subject) && a.entity.unique == {}
    requires TableOk(a.entity, t) && TableOk(a.entity, u) && Steady(a.entity, t, u)
    ensures Write(s, a, t, call).Ok? <==> Write(s, a, u, call).Ok?
    ensures Write(s, a, t, call).Err? ==> Write(s, a, u, call) == Write(s, a, t, call)
    ensures Write(s, a, t, call).Ok? ==> Write(s, a, u, call).value.1 == Write(s, a, t, call).value.1
  {
    var e := a.entity;
    SteadyReach(s.env.members, e, e.access.write, a.user, t, u, call.id);
    var r := Reach(s.env.members, e, e.access.write, a.user, t, call.id);
    if ModelFromJson(e, call.body).Ok? && r.Ok? {
      var model := ModelFromJson(e, call.body).value;
      assert e.beforeUpdate(model, t.rows[r.value], s.subject) == Ok(model);
      assert e.beforeUpdate(model, u.rows[r.value], s.subject) == Ok(model);
      assert SameOwner(e, t.rows[r.value], u.rows[r.value]);
    }
  }

  lemma UpdateIsSteady(s: Session, a: Admitted, t: Table, call: Call)
    requires call.UpdateCall? && WellFormed(a.entity) && TableOk(a.entity, t) && Write(s, a, t, call).Ok?
    ensures TableOk(a.entity, Write(s, a, t, call).value.0) && Steady(a.entity, t, Write(s, a, t, call).value.0)
  {
    var e, model := a.entity, ModelFromJson(a.entity, call.body).value;
    var t' := Write(s, a, t, call).value.0;
    UpdateKeepsKeys(s.env.members, e, a.user, s.subject, t, call.id, model);
    if e.access.owner.Some? {
      OwnerIsTheCreator(s.env.members, e, a.user, s.subject, t, call.id, model);
    }
    var i := Reach(s.env.members, e, e.access.write, a.user, t, call.id).value;
    assert forall k | 0 <= k < |t.rows| && k != i :: t'.rows[k] == t.rows[k];
  }

  lemma SteadyOnwards(e: Entity, a: Table, b: Table, c: Table)
    requires TableOk(e, a) && TableOk(e, b) && TableOk(e, c) && Steady(e, a, b) && Steady(e, b, c)
    ensures Steady(e, a, c)
  {
  }

  // ---------------------------------------------------------------------------------------------
  // Databases
  // ---------------------------------------------------------------------------------------------

  /** The resource is registered, without UNIQUE constraints. */
  predicate Unconstrained(s: Session, resource: string)
  {
    resource in s.env.registry && s.env.registry[resource].entity.unique == {}
  }

  ghost predicate DbSteady(s: Session, db: Db, t: Db)
    requires DbOk(s, db) && DbOk(s, t)
  {
    && t.tables.Keys == db.tables.Keys
    && forall r | r in db.tables && Unconstrained(s, r) ::
         Steady(s.env.registry[r].entity, db.tables[r], t.tables[r])
  }

  /** An update whose hook stores the body, on an entity without UNIQUE constraints, of a row that, in
      the starting tables, is not there or gives an answer the journal holds. */
  ghost predicate PlainUpdate(s: Session, start: Db, call: Call)
  {
    call.UpdateCall? &&
    (call.resource in s.env.registry && s.subject in s.env.accounts ==>
       var e := s.env.registry[call.resource].entity;
       && e.unique == {} && HookKeepsBody(e, s.subject)
       && (call.resource in start.tables && ModelFromJson(e, call.body).Ok? ==>
             AnswerFits(s, e, start.tables[call.resource], call.id, ModelFromJson(e, call.body).value)))
  }

  predicate AnswerFits(s: Session, e: Entity, t: Table, id: i64, model: Row)
  {
    match Find(e, t.rows, id)
    case None => true
    case Some(i) =>
      var row := UpdatedRow(e, s.subject, t.rows[i], id, model);
      row.Ok? ==> !TooLarge(s.env, Obj(row.value))
  }

  /** A call told safe before the batch. */
  ghost predicate ForeseenCall(s: Session, start: Db, before: nat, call: Call)
  {
    RefusedOutright(s, before, call) || SelfIdentifying(s, call) || PlainUpdate(s, start, call)
  }

  /** Whatever the answers, the script only makes such calls. */
  ghost predicate Foreseeable(s: Session, script: Script<Call>, start: Db)
  {
    forall replies: seq<Reply> | script(replies).Some? :: ForeseenCall(s, start, |replies|, script(replies).value)
  }

  /** What a foreseen call writes to an unconstrained table leaves it steady: it is an update. */
  lemma WriteIsSteady(s: Session, start: Db, db: Db, before: nat, call: Call)
    requires DbOk(s, db) && ForeseenCall(s, start, before, call) && !RefusedOutright(s, before, call)
    requires call.resource in db.tables && Unconstrained(s, call.resource)
    requires Write(s, Admit(s, before, call).value, db.tables[call.resource], call).Ok?
    ensures var a, t := Admit(s, before, call).value, db.tables[call.resource];
            TableOk(a.entity, Write(s, a, t, call).value.0) && Steady(a.entity, t, Write(s, a, t, call).value.0)
  {
    UpdateIsSteady(s, Admit(s, before, call).value, db.tables[call.resource], call);
  }

  lemma SameTablesSteady(s: Session, db: Db, t: Db)
    requires DbOk(s, db) && t.tables == db.tables
    ensures DbOk(s, t) && DbSteady(s, db, t)
  {
  }

  lemma ReplacedIsSteady(s: Session, db: Db, t: Db, resource: string, table: Table)
    requires DbOk(s, db) && DbOk(s, t) && resource in db.tables && t.tables == db.tables[resource := table]
    requires Unconstrained(s, resource) ==> Steady(s.env.registry[resource].entity, db.tables[resource], table)
    ensures DbSteady(s, db, t)
  {
  }

  /** A foreseen call leaves the unconstrained tables steady, in each of its states. */
  lemma CallIsSteady(s: Session, start: Db, db: Db, before: nat, call: Call, t: Db)
    requires s.scope.Some? && DbOk(s, db) && ForeseenCall(s, start, before, call)
    requires t in Apply(s, db, before, call).trace
    ensures DbOk(s, t) && DbSteady(s, db, t)
  {
    CallKeepsDbOk(s, db, before, call);
    if t.tables == db.tables {
      SameTablesSteady(s, db, t);
    } else if RefusedOutright(s, before, call) {
      RefusedIsStill(s, db, before, call);
    } else {
      CallReplacesTable(s, db, before, call, t);
      if Unconstrained(s, call.resource) {
        WriteIsSteady(s, start, db, before, call);
      }
      ReplacedIsSteady(s, db, t, call.resource, t.tables[call.resource]);
    }
  }

  lemma DbSteadyOnwards(s: Session, a: Db, b: Db, c: Db)
    requires DbOk(s, a) && DbOk(s, b) && DbOk(s, c) && DbSteady(s, a, b) && DbSteady(s, b, c)
    ensures DbSteady(s, a, c)
  {
    forall r | r in a.tables && Unconstrained(s, r)
      ensures Steady(s.env.registry[r].entity, a.tables[r], c.tables[r])
    {
      SteadyOnwards(s.env.registry[r].entity, a.tables[r], b.tables[r], c.tables[r]);
    }
  }

  lemma {:induction false} RunIsSteady(s: Session, script: Script<Call>, start: Db, db: Db, replies: seq<Reply>,
                                       limit: nat)
    requires s.scope.Some? && DbOk(s, start) && DbOk(s, db) && DbSteady(s, start, db) && Foreseeable(s, script, start)
    ensures DbOk(s, Run(MachineOf(s), script, db, replies, limit).0)
    ensures DbSteady(s, start, Run(MachineOf(s), script, db, replies, limit).0)
    decreases limit - |replies|
  {
    if |replies| < limit && script(replies).Some? {
      var o := Apply(s, db, |replies|, script(replies).value);
      assert Last(o) in o.trace;
      CallIsSteady(s, start, db, |replies|, script(replies).value, Last(o));
      DbSteadyOnwards(s, start, db, Last(o));
      RunIsSteady(s, script, start, Last(o), replies + [o.reply], limit);
    }
  }

  // ---------------------------------------------------------------------------------------------
  // Plain updates
  // ---------------------------------------------------------------------------------------------

  /** What an update writes is what it would have written on the starting table; so it never
      overflows. */
  lemma PlainUpdateFits(s: Session, start: Db, db: Db, before: nat, call: Call)
    requires DbOk(s, start) && DbOk(s, db) && DbSteady(s, start, db) && PlainUpdate(s, start, call)
    ensures !Overflows(s, db, before, call)
  {
    if Fresh(s, db, before, call) {
      var a := Admit(s, before, call).value;
      var e, t, u := a.entity, start.tables[call.resource], db.tables[call.resource];
      SteadyWrite(s, a, t, u, call);
      if Write(s, a, u, call).Ok? {
        var i := Reach(s.env.members, e, e.access.write, a.user, t, call.id).value;
        FindUnique(e, t, i);
        assert Find(e, t.rows, call.id) == Some(i);
      }
    }
  }

  lemma PlainUpdateResumes(s: Session, start: Db, db: Db, before: nat, call: Call)
    requires s.scope.Some? && DbOk(s, start) && DbOk(s, db) && DbSteady(s, start, db) && PlainUpdate(s, start, call)
    ensures Resumes(MachineOf(s), db, before, call)
  {
    PlainUpdateFits(s, start, db, before, call);
    if Apply(s, db, before, call).reply.Ok? {
      SafeCallResumes(s, db, before, call);
    } else {
      OnlyOversizedFailsDirty(s, db, before, call);
    }
  }

  /** A failing plain update fails alike after any foreseen call. */
  lemma UpdateFailureStands(s: Session, start: Db, db: Db, i: nat, c: Call, k: nat, d: Call, t: Db)
    requires s.scope.Some? && DbOk(s, start) && DbOk(s, db) && DbSteady(s, start, db)
    requires PlainUpdate(s, start, c) && ForeseenCall(s, start, k, d) && t in Apply(s, db, k, d).trace
    requires Apply(s, db, i, c).reply.Err?
    ensures SameOn(s, db, i, c, t)
  {
    CallIsSteady(s, start, db, k, d, t);
    if Admit(s, i, c).Ok? {
      FailingStaysUnjournaled(s, db, i, c, k, d, t);
      if c.resource in db.tables {
        PlainUpdateFits(s, start, db, i, c);
        FreshCallWrites(s, db, i, c);
        FreshCallWrites(s, t, i, c);
        SteadyWrite(s, Admit(s, i, c).value, db.tables[c.resource], t.tables[c.resource], c);
      }
    }
  }

  /** A creation's failure without effect stands beside an update: they never share a table. */
  lemma CreateFailureBesideUpdate(s: Session, start: Db, db: Db, i: nat, c: Call, k: nat, d: Call, t: Db)
    requires s.scope.Some? && SelfIdentifying(s, c) && PlainUpdate(s, start, d) && t in Apply(s, db, k, d).trace
    requires Apply(s, db, i, c).reply.Err? && Last(Apply(s, db, i, c)) == db
    ensures SameOn(s, db, i, c, t)
  {
    CallAddsOwnEntry(s, db, k, d, t);
    if Admit(s, i, c).Ok? {
      FailingStaysUnjournaled(s, db, i, c, k, d, t);
      if c.resource in db.tables {
        EffectlessWrite(s, db, i, c);
        if t.tables != db.tables {
          CallReplacesTable(s, db, k, d, t);
          assert c.resource != d.resource;
        }
        SameWriteSameCall(s, db, i, c, t);
      }
    }
  }

  // ---------------------------------------------------------------------------------------------
  // The theorem
  // ---------------------------------------------------------------------------------------------

  lemma ForeseenResumes(s: Session, start: Db, db: Db, before: nat, call: Call)
    requires s.scope.Some? && DbOk(s, start) && DbOk(s, db) && DbSteady(s, start, db)
    requires ForeseenCall(s, start, before, call)
    ensures Resumes(MachineOf(s), db, before, call)
  {
    if RefusedOutright(s, before, call) {
      RefusedResumes(s, db, before, call);
    } else if SelfIdentifying(s, call) {
      SelfIdentifyingResumes(s, db, before, call);
    } else {
      PlainUpdateResumes(s, start, db, before, call);
    }
  }

  /** A failure without effect of one foreseen call stands through another. */
  lemma ForeseenFailureStands(s: Session, start: Db, db: Db, i: nat, c: Call, k: nat, d: Call, t: Db)
    requires s.scope.Some? && DbOk(s, start) && DbOk(s, db) && DbSteady(s, start, db)
    requires ForeseenCall(s, start, i, c) && ForeseenCall(s, start, k, d) && t in Apply(s, db, k, d).trace
    requires Apply(s, db, i, c).reply.Err? && Last(Apply(s, db, i, c)) == db
    ensures SameOn(s, db, i, c, t)
  {
    if RefusedOutright(s, k, d) {
      RefusedIsStill(s, db, k, d);
    } else if RefusedOutright(s, i, c) {
      RefusalStands(s, db, i, c, k, d, t);
    } else if PlainUpdate(s, start, c) {
      UpdateFailureStands(s, start, db, i, c, k, d, t);
    } else if SelfIdentifying(s, d) {
      FailureStands(s, db, i, c, k, d, t);
    } else {
      CreateFailureBesideUpdate(s, start, db, i, c, k, d, t);
    }
  }

  /** Crash-resume refinement with no hypothesis on the answers: a script whose every call is refused
      outright, a self-identifying creation, or a body-storing update on an entity without UNIQUE
      constraints whose answer fits, converges under any history of crashes, whatever fails in it.
      Rows and keys only come, owners never move, a conflict persists, a creation whose answer was too
      large finds its own row, and no refusal looks at anything else. */
  lemma ForeseeableConverges(s: Session, script: Script<Call>, db: Db, limit: nat)
    requires s.scope.Some? && DbOk(s, db) && Foreseeable(s, script, db)
    ensures Converges(MachineOf(s), script, db, limit)
  {
    var m := MachineOf(s);
    forall k: nat | k < limit && Continues(script, Run(m, script, db, [], k).1, limit) &&
                    |Run(m, script, db, [], k).1| == k
      ensures var (at, replies) := Run(m, script, db, [], k);
              && Resumes(m, at, k, script(replies).value)
              && (UnkeptRepeat(m, script, replies, at) ==>
                    forall t | t in m.step(at, k, script(replies).value).trace :: UnkeptRepeat(m, script, replies, t))
    {
      var (at, replies) := Run(m, script, db, [], k);
      SameTablesSteady(s, db, db);
      RunIsSteady(s, script, db, db, [], k);
      ForeseenResumes(s, db, at, k, script(replies).value);
      if UnkeptRepeat(m, script, replies, at) {
        forall t, i | t in Apply(s, at, k, script(replies).value).trace && 0 <= i < k && Unkept(m, script, replies, i)
          ensures Settled(m, script, replies, i, t)
        {
          assert Settled(m, script, replies, i, at);
          ForeseenFailureStands(s, db, at, i, script(replies[..i]).value, k, script(replies).value, t);
        }
      }
    }
    CallByCallConverges(s, script, db, limit);
  }

  /** Whatever the answers and the tables, the script only creates rows, self-identifying. */
  ghost predicate OnlyCreates(s: Session, script: Script<Call>)
  {
    forall replies: seq<Reply> | script(replies).Some? ::
      SelfIdentifying(s, script(replies).value) || RefusedOutright(s, |replies|, script(replies).value)
  }

  /** In particular, whatever the tables, a script that only makes self-identifying creations. */
  lemma CreatesConverge(s: Session, script: Script<Call>, db: Db, limit: nat)
    requires s.scope.Some? && DbOk(s, db) && OnlyCreates(s, script)
    ensures Converges(MachineOf(s), script, db, limit)
  {
    ForeseeableConverges(s, script, db, limit);
  }
}
