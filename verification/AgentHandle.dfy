/**
 The agent write module as it runs: handles that share one store and one write counter
 (src/lymaille/resource_module.rs, `Handle`). Every method is proved to take the store through
 exactly the states of `AgentWrites.Apply`, which the recovery theorems are about.
 */
module AgentHandle {
  import opened Wrappers
  import opened JsonValues
  import opened Rbac
  import opened RestCore
  import opened CanonicalText
  import opened AgentWrites
  import opened AgentEffects

  /** The database as the module sees it. */
  class Store {
    var tables: map<string, Table>
    var journal: map<Key, Json>

    constructor (tables: map<string, Table>, journal: map<Key, Json>)
      ensures Snapshot() == Db(tables, journal)
    {
      this.tables, this.journal := tables, journal;
    }

    function Snapshot(): Db
      reads this
    {
      Db(tables, journal)
    }
  }

  /** The shared atomic counter. */
  class Counter {
    var writes: nat

    constructor ()
      ensures writes == 0
    {
      writes := 0;
    }

    method FetchAdd() returns (before: nat)
      modifies this
      ensures before == old(writes) && writes == old(writes) + 1
    {
      before := writes;
      writes := writes + 1;
    }
  }

  /** The recovery read: the first row carrying the body's label and agreeing with the body. */
  method RereadRows(e: Entity, t: Table, body: Json) returns (found: Option<Row>)
    ensures found == RereadMatching(e, t, body)
    ensures found.Some? ==>
              && body.Obj? && found.value in t.rows
              && forall k | k in body.fields && k != e.pk :: k in found.value && found.value[k] == body.fields[k]
    ensures found.None? ==> forall row | row in t.rows :: !Recognises(e, body, row)
  {
    RereadFinds(e, t, body);
    var wanted := LabelValue(e, body);
    if wanted.None? {
      return None;
    }
    var i := 0;
    while i < |t.rows|
      invariant 0 <= i <= |t.rows|
      invariant FirstMatch(e, wanted.value, body.fields, t.rows) ==
                FirstMatch(e, wanted.value, body.fields, t.rows[i..])
    {
      if RecoveryMatch(e, wanted.value, body.fields, t.rows[i]) {
        return Some(t.rows[i]);
      }
      assert t.rows[i..][1..] == t.rows[i + 1..];
      i := i + 1;
    }
    found := None;
  }

  class Handle {
    const env: Env
    const subject: string
    const scope: Option<Scope>
    const store: Store
    const counter: Counter

    /** A module instance starts with a fresh counter. */
    constructor (env: Env, subject: string, scope: Option<Scope>, store: Store)
      ensures this.env == env && this.subject == subject && this.scope == scope && this.store == store
      ensures fresh(counter) && counter.writes == 0
    {
      this.env, this.subject, this.scope, this.store := env, subject, scope, store;
      var c := new Counter();
      this.counter := c;
    }

    /** A clone shares the store and the counter: the clones of one module draw on one cap. */
    constructor Clone(handle: Handle)
      ensures env == handle.env && subject == handle.subject && scope == handle.scope
      ensures store == handle.store && counter == handle.counter
    {
      env, subject, scope := handle.env, handle.subject, handle.scope;
      store, counter := handle.store, handle.counter;
    }

    function Context(): Session
    {
      Session(env, subject, scope)
    }

    method ChargeWrite() returns (charge: Option<Failure>)
      modifies counter
      ensures counter.writes == old(counter.writes) + 1
      ensures charge == if old(counter.writes) < MAX_WRITES_PER_RUN then None else Some(WriteLimit)
    {
      var before := counter.FetchAdd();
      charge := if before >= MAX_WRITES_PER_RUN then Some(WriteLimit) else None;
    }

    /** The journaled value of this call in this scope, if there is one. */
    method Replay(call: Call, fault: Fault) returns (journaled: Result<Option<Json>, Failure>)
      ensures journaled.Err? <==> scope.Some? && fault == AtReplay
      ensures journaled.Err? ==> journaled.error == Internal
      ensures journaled.Ok? ==>
                journaled.value == if scope.Some? && Key(scope.value, call) in store.journal
                                   then Some(store.journal[Key(scope.value, call)]) else None
    {
      if scope.None? {
        return Ok(None);
      }
      if fault == AtReplay {
        return Err(Internal);
      }
      var key := Key(scope.value, call);
      journaled := Ok(if key in store.journal then Some(store.journal[key]) else None);
    }

    /** Inserts with ON CONFLICT DO NOTHING; refuses a value over 64 KiB; does nothing in an
        interactive session. */
    method RecordWrite(call: Call, value: Json, fault: Fault) returns (failed: bool)
      modifies store`journal
      ensures failed <==> scope.Some? && (TooLarge(env, value) || fault == AtRecord)
      ensures store.journal == if scope.None? || failed then old(store.journal)
                               else Record(old(store.journal), Key(scope.value, call), value)
    {
      if scope.None? {
        return false;
      }
      var text := WriteCanonical(env.float, value);
      if Bytes(text) > MAX_RESULT_BYTES || fault == AtRecord {
        return true;
      }
      var key := Key(scope.value, call);
      if key !in store.journal {
        store.journal := store.journal[key := value];
      }
      failed := false;
    }

    /** The tail every verb shares once its write has succeeded: keep the table, journal, answer. */
    method Finish(call: Call, t: Table, value: Json, fault: Fault) returns (reply: Reply, ghost trace: seq<Db>)
      requires scope.Some? ==> Key(scope.value, call) !in store.journal
      modifies store
      ensures Passage(trace, reply) == Finished(Context(), old(store.Snapshot()), call, t, value, fault)
      ensures store.Snapshot() == trace[|trace| - 1]
    {
      trace := [store.Snapshot()];
      store.tables := store.tables[call.resource := t];
      trace := trace + [store.Snapshot()];
      var failed := RecordWrite(call, value, fault);
      if failed {
        return Err(Internal), trace;
      }
      if scope.Some? {
        trace := trace + [store.Snapshot()];
      }
      reply := Ok(value);
    }

    /** The recovery query, then the loop over its rows; no query without a label value. */
    method Reread(e: Entity, t: Table, body: Json, fault: Fault) returns (found: Result<Option<Row>, Failure>)
      ensures found == if LabelValue(e, body).Some? && fault == AtReread then Err(Internal)
                       else Ok(RereadMatching(e, t, body))
    {
      var wanted := LabelValue(e, body);
      if wanted.Some? && fault == AtReread {
        return Err(Internal);
      }
      var row := RereadRows(e, t, body);
      found := Ok(row);
    }

    /** What every verb does before its write, in this order: charge, principal, range of the id,
        writer, replay. */
    method Prepare(call: Call, fault: Fault) returns (prepared: Result<Admitted, Reply>)
      modifies counter
      ensures counter.writes == old(counter.writes) + 1
      ensures prepared.Err? ==>
                ApplyWith(Context(), store.Snapshot(), old(counter.writes), call, fault) ==
                Passage([store.Snapshot()], prepared.error)
      ensures prepared.Ok? ==>
                && Admit(Context(), old(counter.writes), call) == Ok(prepared.value)
                && (scope.Some? ==> Key(scope.value, call) !in store.journal)
                && call.resource in store.tables
                && fault != AtPrincipal && (fault == AtReplay ==> scope.None?)
    {
      var charge := ChargeWrite();
      if charge.Some? {
        return Err(Err(charge.value));
      }
      if fault == AtPrincipal {
        return Err(Err(Internal));
      }
      var principal := Principal(Context());
      if principal.Err? {
        return Err(Err(principal.error));
      }
      if !call.CreateCall? && !InI32(call.id) {
        return Err(Err(Internal));
      }
      var writer := WriterOf(Context(), call.resource);
      if writer.Err? {
        return Err(Err(writer.error));
      }
      var journaled := Replay(call, fault);
      if journaled.Err? {
        return Err(Err(journaled.error));
      }
      if journaled.value.Some? {
        return Err(Ok(journaled.value.value));
      }
      if call.resource !in store.tables {
        return Err(Err(Internal));
      }
      prepared := Ok(Admitted(principal.value, writer.value));
    }

    /** The answer of a creation, once the insert has been tried: a unique violation in a batch is
        settled by the recovery read. */
    method Settle(call: Call, e: Entity, t: Table, created: Result<(Table, Row), RestError>, fault: Fault)
      returns (reply: Reply, ghost trace: seq<Db>)
      requires call.CreateCall? && (scope.Some? ==> Key(scope.value, call) !in store.journal)
      modifies store
      ensures var db := old(store.Snapshot());
              Passage(trace, reply) ==
              match created
              case Ok((t', row)) => Finished(Context(), db, call, t', Obj(row), fault)
              case Err(UniqueViolation) =>
                (if scope.None? then Passage([db], Err(Conflict))
                 else if LabelValue(e, call.body).Some? && fault == AtReread then Passage([db], Err(Internal))
                 else
                   match RereadMatching(e, t, call.body)
                   case None => Passage([db], Err(Conflict))
                   case Some(row) => Finished(Context(), db, call, t, Obj(row), fault))
              case Err(error) => Passage([db], Err(FromRest(error)))
      ensures store.Snapshot() == trace[|trace| - 1]
    {
      trace := [store.Snapshot()];
      match created {
        case Ok((t', row)) =>
          reply, trace := Finish(call, t', Obj(row), fault);
        case Err(UniqueViolation) =>
          if scope.None? {
            return Err(Conflict), trace;
          }
          var found := Reread(e, t, call.body, fault);
          if found.Err? {
            return Err(found.error), trace;
          }
          if found.value.None? {
            return Err(Conflict), trace;
          }
          reply, trace := Finish(call, t, Obj(found.value.value), fault);
        case Err(error) =>
          return Err(FromRest(error)), trace;
      }
    }

    // The calls, statement by statement.

    method CreateByStatements(resource: string, body: Json, fault: Fault) returns (reply: Reply, ghost trace: seq<Db>)
      modifies store, counter
      ensures counter.writes == old(counter.writes) + 1
      ensures Passage(trace, reply) ==
              ApplyWith(Context(), old(store.Snapshot()), old(counter.writes), CreateCall(resource, body), fault)
      ensures store.Snapshot() == trace[|trace| - 1]
    {
      trace := [store.Snapshot()];
      var call := CreateCall(resource, body);
      var prepared := Prepare(call, fault);
      if prepared.Err? {
        return prepared.error, trace;
      }
      var e, t := prepared.value.entity, store.tables[resource];
      var model := ModelFromJson(e, body);
      if model.Err? {
        return Err(model.error), trace;
      }
      WriteDecides(Context(), store.Snapshot(), old(counter.writes), call, fault);
      if fault == AtWrite {
        return Err(Internal), trace;
      }
      var created := RestCore.Create(env.members, e, prepared.value.user, subject, t, model.value);
      reply, trace := Settle(call, e, t, created, fault);
    }

    method UpdateByStatements(resource: string, id: i64, body: Json, fault: Fault) returns (reply: Reply,
                              ghost trace: seq<Db>)
      modifies store, counter
      ensures counter.writes == old(counter.writes) + 1
      ensures Passage(trace, reply) ==
              ApplyWith(Context(), old(store.Snapshot()), old(counter.writes), UpdateCall(resource, id, body), fault)
      ensures store.Snapshot() == trace[|trace| - 1]
    {
      trace := [store.Snapshot()];
      var call := UpdateCall(resource, id, body);
      var prepared := Prepare(call, fault);
      if prepared.Err? {
        return prepared.error, trace;
      }
      var e, t := prepared.value.entity, store.tables[resource];
      var model := ModelFromJson(e, body);
      if model.Err? {
        return Err(model.error), trace;
      }
      WriteDecides(Context(), store.Snapshot(), old(counter.writes), call, fault);
      if fault == AtWrite {
        return Err(Internal), trace;
      }
      var updated := RestCore.Update(env.members, e, prepared.value.user, subject, t, id, model.value);
      if updated.Err? {
        return Err(FromRest(updated.error)), trace;
      }
      reply, trace := Finish(call, updated.value.0, Obj(updated.value.1), fault);
    }

    method DeleteByStatements(resource: string, id: i64, fault: Fault) returns (reply: Reply, ghost trace: seq<Db>)
      modifies store, counter
      ensures counter.writes == old(counter.writes) + 1
      ensures Passage(trace, reply) ==
              ApplyWith(Context(), old(store.Snapshot()), old(counter.writes), DeleteCall(resource, id), fault)
      ensures store.Snapshot() == trace[|trace| - 1]
    {
      trace := [store.Snapshot()];
      var call := DeleteCall(resource, id);
      var prepared := Prepare(call, fault);
      if prepared.Err? {
        return prepared.error, trace;
      }
      WriteDecides(Context(), store.Snapshot(), old(counter.writes), call, fault);
      if fault == AtWrite {
        return Err(Internal), trace;
      }
      var t := store.tables[resource];
      var deleted := RestCore.Delete(env.members, prepared.value.entity, prepared.value.user, subject, t, id);
      if deleted.Err? {
        return Err(FromRest(deleted.error)), trace;
      }
      reply, trace := Finish(call, deleted.value, DELETED, fault);
    }

    /** The states a creation goes through and its answer, and what those amount to: when it succeeds
        without the journal it has created the row it answers; when the journal answers it, or it is
        refused, it has changed nothing, internal errors aside. */
    method Create(resource: string, body: Json, fault: Fault) returns (reply: Reply, ghost trace: seq<Db>)
      modifies store, counter
      ensures counter.writes == old(counter.writes) + 1
      ensures Passage(trace, reply) ==
              ApplyWith(Context(), old(store.Snapshot()), old(counter.writes), CreateCall(resource, body), fault)
      ensures store.Snapshot() == trace[|trace| - 1]
      ensures reply.Ok? && !Replayed(Context(), old(store.Snapshot()), CreateCall(resource, body)) ==>
                (KeyIsNoOwner(Context(), resource) ==>
                 Created(Context(), old(store.Snapshot()), store.Snapshot(), resource, body, reply.value))
      ensures Replayed(Context(), old(store.Snapshot()), CreateCall(resource, body)) ||
              (reply.Err? && reply.error != Internal) ==>
                store.Snapshot() == old(store.Snapshot())
    {
      RefusalsChangeNothing(Context(), store.Snapshot(), counter.writes, CreateCall(resource, body), fault);
      if KeyIsNoOwner(Context(), resource) {
        CreateCreates(Context(), store.Snapshot(), counter.writes, resource, body, fault);
      }
      reply, trace := CreateByStatements(resource, body, fault);
    }

    /** The same for an update: it has replaced the row of that key by the one it answers, the hook's. */
    method Update(resource: string, id: i64, body: Json, fault: Fault) returns (reply: Reply, ghost trace: seq<Db>)
      modifies store, counter
      ensures counter.writes == old(counter.writes) + 1
      ensures Passage(trace, reply) ==
              ApplyWith(Context(), old(store.Snapshot()), old(counter.writes), UpdateCall(resource, id, body), fault)
      ensures store.Snapshot() == trace[|trace| - 1]
      ensures reply.Ok? && !Replayed(Context(), old(store.Snapshot()), UpdateCall(resource, id, body)) ==>
                (KeyIsNoOwner(Context(), resource) ==>
                 Updated(Context(), old(store.Snapshot()), store.Snapshot(), resource, id, body, reply.value))
      ensures Replayed(Context(), old(store.Snapshot()), UpdateCall(resource, id, body)) ||
              (reply.Err? && reply.error != Internal) ==>
                store.Snapshot() == old(store.Snapshot())
    {
      RefusalsChangeNothing(Context(), store.Snapshot(), counter.writes, UpdateCall(resource, id, body), fault);
      if KeyIsNoOwner(Context(), resource) {
        UpdateUpdates(Context(), store.Snapshot(), counter.writes, resource, id, body, fault);
      }
      reply, trace := UpdateByStatements(resource, id, body, fault);
    }

    /** The same for a deletion: it has removed the row of that key, and no other. */
    method Delete(resource: string, id: i64, fault: Fault) returns (reply: Reply, ghost trace: seq<Db>)
      modifies store, counter
      ensures counter.writes == old(counter.writes) + 1
      ensures Passage(trace, reply) ==
              ApplyWith(Context(), old(store.Snapshot()), old(counter.writes), DeleteCall(resource, id), fault)
      ensures store.Snapshot() == trace[|trace| - 1]
      ensures reply.Ok? && !Replayed(Context(), old(store.Snapshot()), DeleteCall(resource, id)) ==>
                Deleted(Context(), old(store.Snapshot()), store.Snapshot(), resource, id, reply.value)
      ensures Replayed(Context(), old(store.Snapshot()), DeleteCall(resource, id)) ||
              (reply.Err? && reply.error != Internal) ==>
                store.Snapshot() == old(store.Snapshot())
    {
      RefusalsChangeNothing(Context(), store.Snapshot(), counter.writes, DeleteCall(resource, id), fault);
      DeleteDeletes(Context(), store.Snapshot(), counter.writes, resource, id, fault);
      reply, trace := DeleteByStatements(resource, id, fault);
    }
  }
}
