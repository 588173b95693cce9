/**
 What a write call of an agent leaves and answers, told in rows and keys: of the row written, of every
 other row, table and journal entry (src/lymaille/resource_module.rs over src/rest/core.rs).
 */
module AgentEffects {
  import opened Wrappers
  import opened JsonValues
  import opened Rbac
  import opened RestCore
  import opened CanonicalText
  import opened AgentWrites

  // ---------------------------------------------------------------------------------------------
  // The recovery read
  // ---------------------------------------------------------------------------------------------

  /** The row has the body's label, a text or a signed number, and every field of the body but the
      key. */
  predicate Recognises(e: Entity, body: Json, row: Row)
  {
    && body.Obj? && e.labelColumn.Some?
    && var column := e.labelColumn.value;
       && column in body.fields && (body.fields[column].Text? || body.fields[column].Int?)
       && column in row && row[column] == body.fields[column]
       && forall k | k in body.fields && k != e.pk :: k in row && row[k] == body.fields[k]
  }

  lemma MatchIsRecognition(e: Entity, body: Json, row: Row)
    requires LabelValue(e, body).Some?
    ensures RecoveryMatch(e, LabelValue(e, body).value, body.fields, row) <==> Recognises(e, body, row)
  {
  }

  lemma {:induction false} FirstIsFirst(e: Entity, wanted: Json, body: Row, rows: seq<Row>)
    ensures var r := FirstMatch(e, wanted, body, rows);
            r.Some? ==> exists i | 0 <= i < |rows| ::
              rows[i] == r.value && forall j | 0 <= j < i :: !RecoveryMatch(e, wanted, body, rows[j])
  {
    if rows != [] && !RecoveryMatch(e, wanted, body, rows[0]) && FirstMatch(e, wanted, body, rows).Some? {
      FirstIsFirst(e, wanted, body, rows[1..]);
      var r := FirstMatch(e, wanted, body, rows).value;
      var i :| 0 <= i < |rows[1..]| && rows[1..][i] == r &&
        forall j | 0 <= j < i :: !RecoveryMatch(e, wanted, body, rows[1..][j]);
      assert rows[i + 1] == r;
      forall j | 0 <= j < i + 1 ensures !RecoveryMatch(e, wanted, body, rows[j]) {
        if j > 0 {
          assert rows[j] == rows[1..][j - 1];
        }
      }
    }
  }

  /** The recovery read answers the first row that has the body's label and all its other fields, and
      nothing exactly when no row has. */
  lemma RereadFinds(e: Entity, t: Table, body: Json)
    ensures var r := RereadMatching(e, t, body);
            && (r.None? <==> forall row | row in t.rows :: !Recognises(e, body, row))
            && (r.Some? ==>
                  exists i | 0 <= i < |t.rows| ::
                    t.rows[i] == r.value && Recognises(e, body, r.value) &&
                    forall j | 0 <= j < i :: !Recognises(e, body, t.rows[j]))
  {
    if LabelValue(e, body).Some? {
      var wanted := LabelValue(e, body).value;
      forall row ensures RecoveryMatch(e, wanted, body.fields, row) <==> Recognises(e, body, row) {
        MatchIsRecognition(e, body, row);
      }
      FirstIsFirst(e, wanted, body.fields, t.rows);
    }
  }

  // ---------------------------------------------------------------------------------------------
  // Before the write
  // ---------------------------------------------------------------------------------------------

  /** Who gets as far as the journal, and the one cause of each refusal before it, in their order. */
  lemma AdmissionRule(s: Session, before: nat, call: Call)
    ensures var r := Admit(s, before, call);
            var known := s.subject in s.env.accounts;
            var admin := if known then s.env.members(s.env.accounts[s.subject], "admin") else Ok(false);
            var ranged := call.CreateCall? || -0x8000_0000 <= call.id <= 0x7FFF_FFFF;
            var open := call.resource in s.env.registry && s.env.registry[call.resource].writable;
            && (before >= 100 ==> r == Err(WriteLimit))
            && (before < 100 && !known ==> r == Err(UnknownSubject))
            && (before < 100 && known && (admin.Err? || !ranged) ==> r == Err(Internal))
            && (before < 100 && known && admin.Ok? && ranged && !open ==> r == Err(UnknownResource(call.resource)))
            && (before < 100 && known && admin.Ok? && ranged && open ==>
                  r == Ok(Admitted(s.env.accounts[s.subject], s.env.registry[call.resource].entity)))
  {
  }

  /** A body reads as a row when it is an object of columns that the entity's type accepts. */
  lemma BodyRule(e: Entity, body: Json)
    ensures ModelFromJson(e, body) ==
            if body.Obj? && (forall k | k in body.fields :: k in e.columns) && e.decode(body.fields).Some?
            then Ok(e.decode(body.fields).value) else Err(InvalidBody)
  {
  }

  // ---------------------------------------------------------------------------------------------
  // Answers
  // ---------------------------------------------------------------------------------------------

  /** What a refusal of the core becomes. */
  predicate Becomes(error: RestError, f: Failure)
  {
    || (error == NotFound && f == NoSuchRow)
    || (error == RestForbidden && f == Denied)
    || (error.Application? && f == HookRefused(error.message))
    || (error == Database && f == Internal)
  }

  /** The write of a creation: the row inserted; on a unique violation in a batch, the first row
      recognised, and `conflict` exactly when there is none; `conflict` outside a batch. */
  lemma CreateAnswers(s: Session, a: Admitted, t: Table, resource: string, body: Json)
    requires ModelFromJson(a.entity, body).Ok?
    ensures var w := Write(s, a, t, CreateCall(resource, body));
            var c := RestCore.Create(s.env.members, a.entity, a.user, s.subject, t,
                                     ModelFromJson(a.entity, body).value);
            && (c.Ok? ==> w == Ok((c.value.0, Obj(c.value.1))))
            && (c.Err? && c.error != UniqueViolation ==> w.Err? && Becomes(c.error, w.error))
            && (c == Err(UniqueViolation) ==>
                  && (w == Err(Conflict) <==>
                        s.scope.None? || forall row | row in t.rows :: !Recognises(a.entity, body, row))
                  && (w != Err(Conflict) ==>
                        exists i | 0 <= i < |t.rows| ::
                          w == Ok((t, Obj(t.rows[i]))) && Recognises(a.entity, body, t.rows[i]) &&
                          forall j | 0 <= j < i :: !Recognises(a.entity, body, t.rows[j])))
  {
    RereadFinds(a.entity, t, body);
  }

  /** The write of an update answers the row it left, and that of a deletion that it is deleted. */
  lemma UpdateAndDeleteAnswer(s: Session, a: Admitted, t: Table, resource: string, id: i64, body: Json)
    requires ModelFromJson(a.entity, body).Ok?
    ensures var w := Write(s, a, t, UpdateCall(resource, id, body));
            var u := RestCore.Update(s.env.members, a.entity, a.user, s.subject, t, id,
                                     ModelFromJson(a.entity, body).value);
            (u.Ok? ==> w == Ok((u.value.0, Obj(u.value.1)))) && (u.Err? ==> w.Err? && Becomes(u.error, w.error))
    ensures var w := Write(s, a, t, DeleteCall(resource, id));
            var d := RestCore.Delete(s.env.members, a.entity, a.user, s.subject, t, id);
            && (d.Ok? ==> w == Ok((d.value, Obj(map["deleted" := Bool(true)]))))
            && (d.Err? ==> w.Err? && Becomes(d.error, w.error))
  {
  }

  /** The journal refuses 65537 bytes and takes 65536: a text of one-byte characters with its two
      quotes; and whatever its characters, no longer one. */
  lemma TooLargeIsOverTheBound(env: Env, s: string)
    ensures Plain(s) ==> (TooLarge(env, Text(s)) <==> |s| + 2 > 65536)
    ensures |s| + 2 > 65536 ==> TooLarge(env, Text(s))
  {
    EscapeIsNoShorter(s);
    BytesAdd("\"" + Escape(s), "\"");
    BytesAdd("\"", Escape(s));
    BytesAdd(Escape(s), "");
    BytesOfOne('\"');
    if Plain(s) {
      PlainIsWrittenAsItIs(s);
    }
  }

  // ---------------------------------------------------------------------------------------------
  // Effects
  // ---------------------------------------------------------------------------------------------

  /** The journal answers the call. */
  predicate Replayed(s: Session, db: Db, call: Call)
  {
    s.scope.Some? && Key(s.scope.value, call) in db.journal
  }

  /** Outside the call's own table and entry nothing is changed; the entry, in a batch, is the answer. */
  predicate Kept(s: Session, db: Db, db': Db, call: Call, value: Json)
  {
    && db'.tables.Keys == db.tables.Keys && call.resource in db.tables
    && (forall r | r in db.tables && r != call.resource :: db'.tables[r] == db.tables[r])
    && db'.journal == if s.scope.Some? then db.journal[Key(s.scope.value, call) := value] else db.journal
  }

  /** Two columns of the entity, not one, are the key and the owner's. */
  predicate KeyIsNoOwner(s: Session, resource: string)
  {
    resource in s.env.registry ==> WellFormed(s.env.registry[resource].entity)
  }

  /** From `db` to `db'` a row was created from the body, by the session's account: inserted, or in a
      batch recognised, and answered. */
  ghost predicate Created(s: Session, db: Db, db': Db, resource: string, body: Json, value: Json)
  {
    && Kept(s, db, db', CreateCall(resource, body), value)
    && resource in s.env.registry && s.subject in s.env.accounts && body.Obj? && value.Obj?
    && var e, user, t, t' :=
         s.env.registry[resource].entity, s.env.accounts[s.subject], db.tables[resource], db'.tables[resource];
       && e.decode(body.fields).Some? && CanCreate(s.env.members, e.access, user) == Ok(true)
       && var hooked := e.beforeCreate(e.decode(body.fields).value, s.subject);
          && hooked.Ok?
          && (|| Inserted(e, user, hooked.value, t, t', value.fields)
              || (s.scope.Some? && t' == t && value.fields in t.rows && Recognises(e, body, value.fields)))
  }

  /** The row of that key was replaced by the hook's, for the body. */
  ghost predicate Updated(s: Session, db: Db, db': Db, resource: string, id: i64, body: Json, value: Json)
  {
    && Kept(s, db, db', UpdateCall(resource, id, body), value)
    && resource in s.env.registry && s.subject in s.env.accounts && body.Obj? && value.Obj?
    && var e, user, t, t' :=
         s.env.registry[resource].entity, s.env.accounts[s.subject], db.tables[resource], db'.tables[resource];
       && e.decode(body.fields).Some?
       && exists i | 0 <= i < |t.rows| ::
            && CanWrite(s.env.members, e.access, user, t.rows[i]) == Ok(true)
            && var hooked := e.beforeUpdate(e.decode(body.fields).value, t.rows[i], s.subject);
               hooked.Ok? && Replaced(e, hooked.value, id, t, t', i, value.fields)
  }

  /** The row of that key was removed. */
  ghost predicate Deleted(s: Session, db: Db, db': Db, resource: string, id: i64, value: Json)
  {
    && Kept(s, db, db', DeleteCall(resource, id), value) && value == Obj(map["deleted" := Bool(true)])
    && resource in s.env.registry && s.subject in s.env.accounts
    && var e, user, t, t' :=
         s.env.registry[resource].entity, s.env.accounts[s.subject], db.tables[resource], db'.tables[resource];
       exists i | 0 <= i < |t.rows| ::
         && CanWrite(s.env.members, e.access, user, t.rows[i]) == Ok(true)
         && e.beforeDelete(t.rows[i], s.subject).Ok? && Removed(e, id, t, t', i)
  }

  /** What a call that succeeds without the journal has done. */
  lemma SuccessKeeps(s: Session, db: Db, before: nat, call: Call, fault: Fault)
    requires ApplyWith(s, db, before, call, fault).reply.Ok? && !Replayed(s, db, call)
    ensures Admit(s, before, call).Ok? && call.resource in db.tables
    ensures var o := ApplyWith(s, db, before, call, fault);
            var w := Write(s, Admit(s, before, call).value, db.tables[call.resource], call);
            && w.Ok? && w.value.1 == o.reply.value
            && Last(o).tables == db.tables[call.resource := w.value.0] && Kept(s, db, Last(o), call, w.value.1)
  {
    FaultIsACrash(s, db, before, call, fault);
  }

  /** Whichever query fails: a creation that succeeds has created the row it answers; one the journal
      answers changes nothing; one refused, but for an internal error, changes nothing. */
  lemma CreateCreates(s: Session, db: Db, before: nat, resource: string, body: Json, fault: Fault)
    requires KeyIsNoOwner(s, resource)
    ensures var o := ApplyWith(s, db, before, CreateCall(resource, body), fault);
            o.reply.Ok? && !Replayed(s, db, CreateCall(resource, body)) ==>
              Created(s, db, Last(o), resource, body, o.reply.value)
  {
    var call := CreateCall(resource, body);
    if ApplyWith(s, db, before, call, fault).reply.Ok? && !Replayed(s, db, call) {
      SuccessKeeps(s, db, before, call, fault);
      var a := Admit(s, before, call).value;
      var model := ModelFromJson(a.entity, body).value;
      CreateAnswers(s, a, db.tables[resource], resource, body);
      CreateInserts(s.env.members, a.entity, a.user, s.subject, db.tables[resource], model);
    }
  }

  lemma UpdateUpdates(s: Session, db: Db, before: nat, resource: string, id: i64, body: Json, fault: Fault)
    requires KeyIsNoOwner(s, resource)
    ensures var o := ApplyWith(s, db, before, UpdateCall(resource, id, body), fault);
            o.reply.Ok? && !Replayed(s, db, UpdateCall(resource, id, body)) ==>
              Updated(s, db, Last(o), resource, id, body, o.reply.value)
  {
    var call := UpdateCall(resource, id, body);
    if ApplyWith(s, db, before, call, fault).reply.Ok? && !Replayed(s, db, call) {
      SuccessKeeps(s, db, before, call, fault);
      var a := Admit(s, before, call).value;
      var model := ModelFromJson(a.entity, body).value;
      UpdateAndDeleteAnswer(s, a, db.tables[resource], resource, id, body);
      var i := UpdateReplaces(s.env.members, a.entity, a.user, s.subject, db.tables[resource], id, model);
    }
  }

  lemma DeleteDeletes(s: Session, db: Db, before: nat, resource: string, id: i64, fault: Fault)
    ensures var o := ApplyWith(s, db, before, DeleteCall(resource, id), fault);
            o.reply.Ok? && !Replayed(s, db, DeleteCall(resource, id)) ==>
              Deleted(s, db, Last(o), resource, id, o.reply.value)
  {
    var call := DeleteCall(resource, id);
    if ApplyWith(s, db, before, call, fault).reply.Ok? && !Replayed(s, db, call) {
      SuccessKeeps(s, db, before, call, fault);
      var a := Admit(s, before, call).value;
      var i := DeleteRemoves(s.env.members, a.entity, a.user, s.subject, db.tables[resource], id);
    }
  }

  /** What the journal answers changes nothing; nor does a refusal, an internal error aside, which may
      hide a write whose record failed. */
  lemma RefusalsChangeNothing(s: Session, db: Db, before: nat, call: Call, fault: Fault)
    ensures var o := ApplyWith(s, db, before, call, fault);
            && (Replayed(s, db, call) ==>
                  o.trace == [db] && (o.reply.Ok? ==> o.reply == Ok(db.journal[Key(s.scope.value, call)])))
            && (o.reply.Err? && o.reply.error != Internal ==> o.trace == [db])
  {
    FaultIsACrash(s, db, before, call, fault);
  }
}
