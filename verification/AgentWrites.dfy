/**
 One write call of an agent script, as the sequence of database states it goes through
 (src/lymaille/resource_module.rs, src/lymaille/store/write_journal.rs).
 */
module AgentWrites {
  import opened Wrappers
  import opened JsonValues
  import opened Rbac
  import opened RestCore
  import opened CanonicalText

  const MAX_WRITES_PER_RUN := 100
  const MAX_RESULT_BYTES := 64 * 1024

  datatype Failure =
    | UnknownResource(name: string)
    | UnknownSubject
    | NoSuchRow
    | Denied
    | InvalidBody
    | Conflict
    | HookRefused(message: string)
    | WriteLimit
    | Internal

  type Reply = Result<Json, Failure>

  datatype Call =
    | CreateCall(resource: string, body: Json)
    | UpdateCall(resource: string, id: i64, body: Json)
    | DeleteCall(resource: string, id: i64)

  /** The run and step a batch session belongs to. */
  datatype Scope = Scope(run: string, step: string)

  /** The content-derived key of a call inside its scope. The stored key is a digest of a text that
      tells any two calls apart (`OpKey.KeyTextIsTheCall`); the digest is taken to be collision-free. */
  datatype Key = Key(scope: Scope, call: Call)

  datatype Db = Db(tables: map<string, Table>, journal: map<Key, Json>)

  datatype Entry = Entry(entity: Entity, writable: bool)

  /** What a session reads and never changes: the registry, the local accounts, memberships and how
      a float prints. */
  datatype Env = Env(
    registry: map<string, Entry>,
    accounts: map<string, UserId>,
    members: Members,
    float: FloatText)

  datatype Session = Session(env: Env, subject: string, scope: Option<Scope>)

  function FromRest(error: RestError): Failure
  {
    match error
    case NotFound => NoSuchRow
    case RestForbidden => Denied
    case Application(message) => HookRefused(message)
    case UniqueViolation => Internal
    case Database => Internal
  }

  /** `charge_write`: decided by the number of calls charged before this one. */
  predicate Charged(before: nat) { before < MAX_WRITES_PER_RUN }

  /** `resolve_principal`: the account behind the session's subject, re-read on each call, then
      its admin membership. */
  function Principal(s: Session): Result<UserId, Failure>
  {
    if s.subject !in s.env.accounts then Err(UnknownSubject)
    else if IsAdmin(s.env.members, s.env.accounts[s.subject]).Err? then Err(Internal)
    else Ok(s.env.accounts[s.subject])
  }

  /** `writer_of`: a resource registered read-only is as unknown as an absent one. */
  function WriterOf(s: Session, resource: string): Result<Entity, Failure>
  {
    if resource in s.env.registry && s.env.registry[resource].writable
    then Ok(s.env.registry[resource].entity)
    else Err(UnknownResource(resource))
  }

  predicate InI32(id: int) { I32_MIN <= id <= I32_MAX }

  datatype Admitted = Admitted(user: UserId, entity: Entity)

  /** Everything decided before the journal and the tables are looked at, in the order of the
      source. It depends on the call and on how many calls were charged, not on the database. */
  function Admit(s: Session, before: nat, call: Call): Result<Admitted, Failure>
  {
    if !Charged(before) then Err(WriteLimit)
    else
      match Principal(s)
      case Err(f) => Err(f)
      case Ok(user) =>
        if !call.CreateCall? && !InI32(call.id) then Err(Internal)
        else
          match WriterOf(s, call.resource)
          case Err(f) => Err(f)
          case Ok(entity) => Ok(Admitted(user, entity))
  }

  /** `model_from_json`: an object whose every key is a column, and which serde accepts. */
  function ModelFromJson(e: Entity, body: Json): Result<Row, Failure>
  {
    if !body.Obj? then Err(InvalidBody)
    else if !(body.fields.Keys <= e.columns) then Err(InvalidBody)
    else
      match e.decode(body.fields)
      case None => Err(InvalidBody)
      case Some(model) => Ok(model)
  }

  /** The value the recovery read filters on: a text, or a number of the signed 64-bit range. */
  function LabelValue(e: Entity, body: Json): Option<Json>
  {
    if e.labelColumn.None? || !body.Obj? || e.labelColumn.value !in body.fields then None
    else
      var v := body.fields[e.labelColumn.value];
      if v.Text? || v.Int? then Some(v) else None
  }

  /** A row and a body agree on every key of the body but the primary key. */
  predicate Agrees(e: Entity, row: Row, body: Row)
  {
    forall k | k in body && k != e.pk :: k in row && row[k] == body[k]
  }

  predicate RecoveryMatch(e: Entity, wanted: Json, body: Row, row: Row)
  {
    e.labelColumn.Some? && SqlEquals(row, e.labelColumn.value, wanted) == True && Agrees(e, row, body)
  }

  function FirstMatch(e: Entity, wanted: Json, body: Row, rows: seq<Row>): (r: Option<Row>)
    ensures r.Some? ==> r.value in rows && RecoveryMatch(e, wanted, body, r.value)
    ensures r.None? ==> forall row | row in rows :: !RecoveryMatch(e, wanted, body, row)
  {
    if rows == [] then None
    else if RecoveryMatch(e, wanted, body, rows[0]) then Some(rows[0])
    else FirstMatch(e, wanted, body, rows[1..])
  }

  function RereadMatching(e: Entity, t: Table, body: Json): Option<Row>
  {
    match LabelValue(e, body)
    case None => None
    case Some(wanted) => FirstMatch(e, wanted, body.fields, t.rows)
  }

  const DELETED := Obj(map["deleted" := Bool(true)])

  /** The write itself: the new table and the value it answers. In a batch session a unique
      violation is turned into the row already there when that row agrees with the body. */
  function Write(s: Session, a: Admitted, t: Table, call: Call): Result<(Table, Json), Failure>
  {
    match call
    case CreateCall(_, body) =>
      (match ModelFromJson(a.entity, body)
       case Err(f) => Err(f)
       case Ok(model) =>
         match RestCore.Create(s.env.members, a.entity, a.user, s.subject, t, model)
         case Ok((t', row)) => Ok((t', Obj(row)))
         case Err(UniqueViolation) =>
           if s.scope.None? then Err(Conflict)
           else
             (match RereadMatching(a.entity, t, body)
              case Some(row) => Ok((t, Obj(row)))
              case None => Err(Conflict))
         case Err(error) => Err(FromRest(error)))
    case UpdateCall(_, id, body) =>
      (match ModelFromJson(a.entity, body)
       case Err(f) => Err(f)
       case Ok(model) =>
         match RestCore.Update(s.env.members, a.entity, a.user, s.subject, t, id, model)
         case Ok((t', row)) => Ok((t', Obj(row)))
         case Err(error) => Err(FromRest(error)))
    case DeleteCall(_, id) =>
      match RestCore.Delete(s.env.members, a.entity, a.user, s.subject, t, id)
      case Ok(t') => Ok((t', DELETED))
      case Err(error) => Err(FromRest(error))
  }

  /** The text of a result is over the journal's bound. */
  predicate TooLarge(env: Env, value: Json)
  {
    Bytes(Canonical(env.float, value)) > MAX_RESULT_BYTES
  }

  /** The journal insert: the first entry under a key wins, a later one changes nothing. */
  function Record(journal: map<Key, Json>, key: Key, value: Json): map<Key, Json>
  {
    if key in journal then journal else journal[key := value]
  }

  /** A finished call: the database states it went through, in order, and its answer. A crash
      leaves the database in one of these states. */
  datatype Passage = Passage(trace: seq<Db>, reply: Reply)

  type Outcome = p: Passage | p.trace != [] witness Passage([Db(map[], map[])], Err(Internal))

  function Last(o: Outcome): Db
  {
    o.trace[|o.trace| - 1]
  }

  /** A query of the call that the database fails. */
  datatype Fault = NoFault | AtPrincipal | AtReplay | AtWrite | AtReread | AtRecord

  /** What a call whose write succeeded goes through, and its answer. */
  function Finished(s: Session, db: Db, call: Call, t: Table, value: Json, fault: Fault): (o: Outcome)
    ensures 2 <= |o.trace| <= 3 && o.trace[0] == db
  {
    var written := db.(tables := db.tables[call.resource := t]);
    var failed := s.scope.Some? && (TooLarge(s.env, value) || fault == AtRecord);
    var reply := if failed then Err(Internal) else Ok(value);
    if s.scope.None? || failed then Passage([db, written], reply)
    else Passage([db, written, written.(journal := Record(db.journal, Key(s.scope.value, call), value))], reply)
  }

  function Apply(s: Session, db: Db, before: nat, call: Call): (o: Outcome)
    ensures 1 <= |o.trace| <= 3 && o.trace[0] == db
  {
    match Admit(s, before, call)
    case Err(f) => Passage([db], Err(f))
    case Ok(a) =>
      if s.scope.Some? && Key(s.scope.value, call) in db.journal
      then Passage([db], Ok(db.journal[Key(s.scope.value, call)]))
      else if call.resource !in db.tables then Passage([db], Err(Internal))
      else
        match Write(s, a, db.tables[call.resource], call)
        case Err(f) => Passage([db], Err(f))
        case Ok((t', value)) => Finished(s, db, call, t', value, NoFault)
  }

  /** The call gets as far as its write: it is admitted, not journaled, on a known table, and its
      body reads as a row. */
  predicate ReachesWrite(s: Session, db: Db, before: nat, call: Call)
  {
    && Admit(s, before, call).Ok?
    && (s.scope.Some? ==> Key(s.scope.value, call) !in db.journal)
    && call.resource in db.tables
    && (call.DeleteCall? || ModelFromJson(Admit(s, before, call).value.entity, call.body).Ok?)
  }

  /** The call sends the query. */
  predicate Sends(s: Session, db: Db, before: nat, call: Call, query: Fault)
  {
    match query
    case NoFault => false
    case AtPrincipal => Charged(before)
    case AtReplay => s.scope.Some? && Admit(s, before, call).Ok?
    case AtWrite => ReachesWrite(s, db, before, call)
    case AtReread =>
      && ReachesWrite(s, db, before, call) && s.scope.Some? && call.CreateCall?
      && var a := Admit(s, before, call).value;
         && RestCore.Create(s.env.members, a.entity, a.user, s.subject, db.tables[call.resource],
                            ModelFromJson(a.entity, call.body).value) == Err(UniqueViolation)
         && LabelValue(a.entity, call.body).Some?
    case AtRecord =>
      && ReachesWrite(s, db, before, call) && s.scope.Some?
      && var w := Write(s, Admit(s, before, call).value, db.tables[call.resource], call);
         w.Ok? && !TooLarge(s.env, w.value.1)
  }

  /** The call when one of its queries may fail: it stops there and answers an internal error. */
  function ApplyWith(s: Session, db: Db, before: nat, call: Call, fault: Fault): (o: Outcome)
  {
    if !Sends(s, db, before, call, fault) then Apply(s, db, before, call)
    else if fault != AtRecord then Passage([db], Err(Internal))
    else Passage(Apply(s, db, before, call).trace[..2], Err(Internal))
  }

  /** The write decides what a call that reaches it does. */
  lemma WriteDecides(s: Session, db: Db, before: nat, call: Call, fault: Fault)
    requires ReachesWrite(s, db, before, call) && fault != AtPrincipal && (fault == AtReplay ==> s.scope.None?)
    ensures ApplyWith(s, db, before, call, fault) ==
            if fault == AtWrite || (fault == AtReread && Sends(s, db, before, call, fault))
            then Passage([db], Err(Internal))
            else
              match Write(s, Admit(s, before, call).value, db.tables[call.resource], call)
              case Err(f) => Passage([db], Err(f))
              case Ok((t, value)) => Finished(s, db, call, t, value, fault)
  {
  }

  /** A database failure ends a call as a crash would, in one of the states the call goes through
      anyway; and a failure the call does not meet changes nothing. */
  lemma FaultIsACrash(s: Session, db: Db, before: nat, call: Call, fault: Fault)
    ensures var o, p := Apply(s, db, before, call), ApplyWith(s, db, before, call, fault);
            && p.trace <= o.trace
            && (p == o || p.reply == Err(Internal))
            && (p != o ==> Sends(s, db, before, call, fault))
  {
  }
}
