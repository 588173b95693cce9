/**
 API tokens as a table that any number of calls share (src/auth/token.rs). Each call runs as the
 separate statements of the source; any interleaving of statements, of any number of calls, is a
 run. Token ids are never handed out twice.

 A token appears only as its fingerprint: the peppered HMAC is a function of the secret.
 */
module ApiTokens {
  import opened Wrappers

  type Time = int

  datatype Row = Row(
    subject: string, name: string, hash: string,
    created: Time, expires: Option<Time>, lastUsed: Option<Time>)

  datatype Table = Table(rows: map<nat, Row>, next: nat)

  datatype AuthError = InvalidToken | TokenExpired | TokenHashConflict | DatabaseError

  datatype Answer = Principal(subject: string, id: nat) | Issued(id: nat) | Fine | Refused(error: AuthError)

  /** A call, at the statement it will run next. */
  datatype Task =
    | Issue(subject: string, name: string, hash: string, expires: Option<Time>)
    | ValidateRead(hash: string)
    | ValidateClock(hash: string, id: nat, row: Row)
    | ValidateStamp(hash: string, id: nat, row: Row)
    | EnsureRead(subject: string, name: string, hash: string, expires: Option<Time>)
    | EnsureInsert(subject: string, name: string, hash: string, expires: Option<Time>)
    | Revoke(id: nat)
    | Done(answer: Answer)

  datatype State = State(table: Table, tasks: seq<Task>)

  /** One event of a run: a new call arrives, or a call runs its next statement at a time of its
      machine's clock. `fault` is a database failure of that statement. */
  datatype Event = Arrive(task: Task) | Run(who: nat, now: Time, fault: bool)

  /** A call arrives at its first statement. */
  predicate AtStart(task: Task)
  {
    task.Issue? || task.ValidateRead? || task.EnsureRead? || task.Revoke?
  }

  ghost predicate Inv(t: Table)
  {
    && (forall id | id in t.rows :: id < t.next)
    && (forall a, b | a in t.rows && b in t.rows && t.rows[a].hash == t.rows[b].hash :: a == b)
  }

  predicate HashTaken(t: Table, hash: string)
  {
    exists id | id in t.rows :: t.rows[id].hash == hash
  }

  ghost function FindHash(t: Table, hash: string): (r: Option<nat>)
    ensures r.Some? ==> r.value in t.rows && t.rows[r.value].hash == hash
    ensures r.None? <==> !HashTaken(t, hash)
  {
    if HashTaken(t, hash) then
      var id :| id in t.rows && t.rows[id].hash == hash; Some(id)
    else None
  }

  /** The insert of a new row under the UNIQUE fingerprint. */
  function Insert(t: Table, row: Row): Option<Table>
  {
    if HashTaken(t, row.hash) then None
    else Some(Table(t.rows[t.next := row], t.next + 1))
  }

  predicate Expired(row: Row, now: Time)
  {
    row.expires.Some? && row.expires.value <= now
  }

  /** One statement of one call. */
  ghost function Statement(t: Table, task: Task, now: Time, fault: bool): (Table, Task)
  {
    match task
    case Issue(subject, name, hash, expires) =>
      if fault then (t, Done(Refused(DatabaseError)))
      else
        (match Insert(t, Row(subject, name, hash, now, expires, None))
         case None => (t, Done(Refused(DatabaseError)))
         case Some(t') => (t', Done(Issued(t.next))))
    case ValidateRead(hash) =>
      if fault then (t, Done(Refused(DatabaseError)))
      else
        (match FindHash(t, hash)
         case None => (t, Done(Refused(InvalidToken)))
         case Some(id) => (t, ValidateClock(hash, id, t.rows[id])))
    case ValidateClock(hash, id, row) =>
      (t, if Expired(row, now) then Done(Refused(TokenExpired)) else ValidateStamp(hash, id, row))
    case ValidateStamp(hash, id, row) =>
      // a failure other than "no such row" is absorbed: the stamp is best-effort
      if fault then (t, Done(Principal(row.subject, id)))
      else if id !in t.rows then (t, Done(Refused(InvalidToken)))
      else (t.(rows := t.rows[id := t.rows[id].(lastUsed := Some(now))]), Done(Principal(row.subject, id)))
    case EnsureRead(subject, name, hash, expires) =>
      if fault then (t, Done(Refused(DatabaseError)))
      else
        (match FindHash(t, hash)
         case Some(id) =>
           (t, Done(if t.rows[id].subject != subject then Refused(TokenHashConflict) else Fine))
         case None => (t, EnsureInsert(subject, name, hash, expires)))
    case EnsureInsert(subject, name, hash, expires) =>
      if fault then (t, Done(Refused(DatabaseError)))
      else
        (match Insert(t, Row(subject, name, hash, now, expires, None))
         case None => (t, Done(Refused(DatabaseError)))
         case Some(t') => (t', Done(Fine)))
    case Revoke(id) =>
      if fault then (t, Done(Refused(DatabaseError)))
      else (t.(rows := t.rows - {id}), Done(Fine))
    case Done(_) => (t, task)
  }

  ghost function Next(s: State, e: Event): State
  {
    match e
    case Arrive(task) => if AtStart(task) then s.(tasks := s.tasks + [task]) else s
    case Run(who, now, fault) =>
      if who >= |s.tasks| then s
      else
        var (t', task') := Statement(s.table, s.tasks[who], now, fault);
        State(t', s.tasks[who := task'])
  }

  // ---------------------------------------------------------------------------------------------
  // The service
  // ---------------------------------------------------------------------------------------------

  class TokenService {
    var rows: map<nat, Row>
    var next: nat
    var tasks: seq<Task>

    constructor ()
      ensures Snapshot() == State(Table(map[], 0), []) && Inv(Snapshot().table)
    {
      rows, next, tasks := map[], 0, [];
    }

    function Snapshot(): State
      reads this
    {
      State(Table(rows, next), tasks)
    }

    method FindByHash(hash: string) returns (found: Option<nat>)
      requires Inv(Snapshot().table)
      ensures found == FindHash(Snapshot().table, hash)
    {
      found := None;
      if exists id | id in rows :: rows[id].hash == hash {
        var id :| id in rows && rows[id].hash == hash;
        found := Some(id);
      }
    }

    method InsertRow(row: Row) returns (inserted: bool)
      modifies this`rows, this`next
      ensures inserted <==> !HashTaken(old(Snapshot().table), row.hash)
      ensures Snapshot() == if inserted then old(Snapshot()).(table := Insert(old(Snapshot().table), row).value)
                            else old(Snapshot())
    {
      inserted := !(exists id | id in rows :: rows[id].hash == row.hash);
      if inserted {
        rows, next := rows[next := row], next + 1;
      }
    }

    method Arrive(task: Task)
      requires AtStart(task)
      modifies this`tasks
      ensures Snapshot() == Next(old(Snapshot()), Event.Arrive(task))
    {
      tasks := tasks + [task];
    }

    /** The next statement of `validate_token`. */
    method StepValidate(who: nat, now: Time, fault: bool)
      requires who < |tasks| && (tasks[who].ValidateRead? || tasks[who].ValidateClock? || tasks[who].ValidateStamp?)
      requires Inv(Snapshot().table)
      modifies this
      ensures Snapshot() == Next(old(Snapshot()), Run(who, now, fault))
    {
      match tasks[who] {
        case ValidateRead(hash) =>
          if fault {
            tasks := tasks[who := Done(Refused(DatabaseError))];
          } else {
            var found := FindByHash(hash);
            tasks := tasks[who := if found.None? then Done(Refused(InvalidToken))
                                  else ValidateClock(hash, found.value, rows[found.value])];
          }
        case ValidateClock(hash, id, row) =>
          tasks := tasks[who := if row.expires.Some? && row.expires.value <= now then Done(Refused(TokenExpired))
                                else ValidateStamp(hash, id, row)];
        case ValidateStamp(_, id, row) =>
          if fault {
            tasks := tasks[who := Done(Principal(row.subject, id))];
          } else if id !in rows {
            tasks := tasks[who := Done(Refused(InvalidToken))];
          } else {
            rows := rows[id := rows[id].(lastUsed := Some(now))];
            tasks := tasks[who := Done(Principal(row.subject, id))];
          }
        case _ =>
      }
    }

    /** The next statement of `ensure_token`. */
    method StepEnsure(who: nat, now: Time, fault: bool)
      requires who < |tasks| && (tasks[who].EnsureRead? || tasks[who].EnsureInsert?)
      requires Inv(Snapshot().table)
      modifies this
      ensures Snapshot() == Next(old(Snapshot()), Run(who, now, fault))
    {
      match tasks[who] {
        case EnsureRead(subject, name, hash, expires) =>
          if fault {
            tasks := tasks[who := Done(Refused(DatabaseError))];
          } else {
            var found := FindByHash(hash);
            if found.None? {
              tasks := tasks[who := EnsureInsert(subject, name, hash, expires)];
            } else if rows[found.value].subject != subject {
              tasks := tasks[who := Done(Refused(TokenHashConflict))];
            } else {
              tasks := tasks[who := Done(Fine)];
            }
          }
        case EnsureInsert(subject, name, hash, expires) =>
          var inserted := false;
          if !fault {
            inserted := InsertRow(Row(subject, name, hash, now, expires, None));
          }
          tasks := tasks[who := Done(if inserted then Fine else Refused(DatabaseError))];
        case _ =>
      }
    }

    /** The single statement of `issue_token` and of `revoke_token`. */
    method StepOnce(who: nat, now: Time, fault: bool)
      requires who < |tasks| && (tasks[who].Issue? || tasks[who].Revoke?)
      modifies this
      ensures Snapshot() == Next(old(Snapshot()), Run(who, now, fault))
    {
      match tasks[who] {
        case Issue(subject, name, hash, expires) =>
          var id := next;
          var inserted := false;
          if !fault {
            inserted := InsertRow(Row(subject, name, hash, now, expires, None));
          }
          tasks := tasks[who := Done(if inserted then Issued(id) else Refused(DatabaseError))];
        case Revoke(id) =>
          if fault {
            tasks := tasks[who := Done(Refused(DatabaseError))];
          } else {
            rows := rows - {id};
            tasks := tasks[who := Done(Fine)];
          }
        case _ =>
      }
    }
  }

  // ---------------------------------------------------------------------------------------------
  // Runs
  // ---------------------------------------------------------------------------------------------

  /** The states of a run, from a table in order and no call in progress. */
  ghost predicate Execution(states: seq<State>, events: seq<Event>)
  {
    && |states| == |events| + 1
    && Inv(states[0].table) && states[0].tasks == []
    && forall k | 0 <= k < |events| :: states[k + 1] == Next(states[k], events[k])
  }

  /** What no statement may change in a row: everything but its last use. */
  predicate SameToken(a: Row, b: Row)
  {
    a.(lastUsed := None) == b.(lastUsed := None)
  }

  /** The row with this fingerprint, if there is one. */
  predicate Holds(t: Table, id: nat, hash: string)
  {
    id in t.rows && t.rows[id].hash == hash
  }

  lemma TakenIsHeld(t: Table, hash: string)
    ensures HashTaken(t, hash) <==> exists id :: Holds(t, id, hash)
  {
    if HashTaken(t, hash) {
      var id :| id in t.rows && t.rows[id].hash == hash;
      assert Holds(t, id, hash);
    }
  }

  /** What an insert of a token leaves: one new row, with the next id, never used, holding what was
      asked. */
  predicate Added(t: Table, t': Table, subject: string, name: string, hash: string, now: Time, expires: Option<Time>)
  {
    t'.next == t.next + 1 && t'.rows == t.rows[t.next := Row(subject, name, hash, now, expires, None)]
  }

  /** `issue_token` adds its token exactly when the database answers and no row has the fingerprint;
      it changes nothing otherwise. */
  lemma IssueAdds(t: Table, now: Time, fault: bool, subject: string, name: string, hash: string, expires: Option<Time>)
    ensures var (t', task) := Statement(t, Issue(subject, name, hash, expires), now, fault);
            if !fault && forall id :: !Holds(t, id, hash)
            then task == Done(Issued(t.next)) && Added(t, t', subject, name, hash, now, expires)
            else task == Done(Refused(DatabaseError)) && t' == t
  {
    TakenIsHeld(t, hash);
  }

  /** `ensure_token` finds the fingerprint its own, or another subject's, and changes nothing; or finds
      no row, and then adds its token unless one has come in between. */
  lemma EnsureAdds(t: Table, now: Time, fault: bool, subject: string, name: string, hash: string, expires: Option<Time>)
    requires Inv(t)
    ensures var (t', task) := Statement(t, EnsureRead(subject, name, hash, expires), now, fault);
            && t' == t
            && (fault ==> task == Done(Refused(DatabaseError)))
            && (!fault ==>
                  && (forall id | Holds(t, id, hash) ::
                        task == Done(if t.rows[id].subject == subject then Fine else Refused(TokenHashConflict)))
                  && ((forall id :: !Holds(t, id, hash)) ==> task == EnsureInsert(subject, name, hash, expires)))
    ensures var (t', task) := Statement(t, EnsureInsert(subject, name, hash, expires), now, fault);
            if !fault && forall id :: !Holds(t, id, hash)
            then task == Done(Fine) && Added(t, t', subject, name, hash, now, expires)
            else task == Done(Refused(DatabaseError)) && t' == t
  {
    TakenIsHeld(t, hash);
  }

  /** The three statements of `validate_token`: the row of the fingerprint, or InvalidToken; expired
      from its `expires_at` on; and a stamp that touches the last use of that row and nothing else. */
  lemma ValidateReads(t: Table, now: Time, fault: bool, hash: string, id: nat, row: Row)
    requires Inv(t)
    ensures var (t', task) := Statement(t, ValidateRead(hash), now, fault);
            && t' == t
            && (fault ==> task == Done(Refused(DatabaseError)))
            && (!fault ==>
                  && (task == Done(Refused(InvalidToken)) <==> forall i :: !Holds(t, i, hash))
                  && (forall i | Holds(t, i, hash) :: task == ValidateClock(hash, i, t.rows[i])))
    ensures Statement(t, ValidateClock(hash, id, row), now, fault) ==
            (t, if row.expires.Some? && row.expires.value <= now then Done(Refused(TokenExpired))
                else ValidateStamp(hash, id, row))
    ensures var (t', task) := Statement(t, ValidateStamp(hash, id, row), now, fault);
            && task == Done(if fault || id in t.rows then Principal(row.subject, id) else Refused(InvalidToken))
            && t'.next == t.next && t'.rows.Keys == t.rows.Keys
            && (forall i | i in t.rows && i != id :: t'.rows[i] == t.rows[i])
            && (id in t.rows ==>
                  t'.rows[id] == if fault then t.rows[id] else t.rows[id].(lastUsed := Some(now)))
  {
    TakenIsHeld(t, hash);
  }

  /** `revoke_token` removes the row of its id and no other, and answers Ok whether it was there. */
  lemma RevokeRemoves(t: Table, now: Time, fault: bool, id: nat)
    ensures var (t', task) := Statement(t, Revoke(id), now, fault);
            && task == Done(if fault then Refused(DatabaseError) else Fine) && t'.next == t.next
            && (forall i :: i in t'.rows <==> i in t.rows && (fault || i != id))
            && (forall i | i in t'.rows :: t'.rows[i] == t.rows[i])
  {
  }

  /** What every statement keeps: fingerprints stay unique, ids below the counter, which never goes
      back; an old row is still the same token, or gone. */
  lemma StatementKeepsInv(t: Table, task: Task, now: Time, fault: bool)
    requires Inv(t)
    ensures var t' := Statement(t, task, now, fault).0;
            && Inv(t') && t.next <= t'.next
            && forall id | id in t'.rows && id < t.next :: id in t.rows && SameToken(t.rows[id], t'.rows[id])
  {
  }

  lemma NextKeepsInv(s: State, e: Event)
    requires Inv(s.table)
    ensures Inv(Next(s, e).table) && s.table.next <= Next(s, e).table.next
    ensures forall id | id in Next(s, e).table.rows && id < s.table.next ::
              id in s.table.rows && SameToken(s.table.rows[id], Next(s, e).table.rows[id])
    ensures |Next(s, e).tasks| >= |s.tasks|
  {
    if e.Run? && e.who < |s.tasks| {
      StatementKeepsInv(s.table, s.tasks[e.who], e.now, e.fault);
    }
  }

  /** In every state of every run, no two rows share a fingerprint. Between any two states, a row
      with an id already handed out is an old row, its subject, fingerprint, name, creation and
      expiry unchanged: a revoked id never comes back. */
  lemma {:induction false} RowsOnlyLeave(states: seq<State>, events: seq<Event>, i: nat, k: nat)
    requires Execution(states, events) && i <= k < |states|
    ensures Inv(states[i].table) && Inv(states[k].table) && states[i].table.next <= states[k].table.next
    ensures forall id | id in states[k].table.rows && id < states[i].table.next ::
              id in states[i].table.rows && SameToken(states[i].table.rows[id], states[k].table.rows[id])
    decreases k
  {
    if i < k {
      RowsOnlyLeave(states, events, i, k - 1);
      NextKeepsInv(states[k - 1], events[k - 1]);
    } else if k > 0 {
      RowsOnlyLeave(states, events, k - 1, k - 1);
      NextKeepsInv(states[k - 1], events[k - 1]);
    }
  }

  /** Where a validation waiting for its clock check read its row. */
  lemma {:induction false} ReadOf(states: seq<State>, events: seq<Event>, who: nat, k: nat) returns (i: nat)
    requires Execution(states, events) && k < |states| && who < |states[k].tasks|
    requires states[k].tasks[who].ValidateClock?
    ensures var task := states[k].tasks[who];
            && i < k && events[i].Run? && events[i].who == who && who < |states[i].tasks|
            && states[i].tasks[who] == ValidateRead(task.hash)
            && task.id in states[i].table.rows && states[i].table.rows[task.id] == task.row
            && task.row.hash == task.hash
    decreases k
  {
    if who < |states[k - 1].tasks| && states[k - 1].tasks[who] == states[k].tasks[who] {
      i := ReadOf(states, events, who, k - 1);
    } else {
      i := k - 1;
    }
  }

  /** Where a validation waiting for its stamp read its row and checked the clock. */
  lemma {:induction false} ClockOf(states: seq<State>, events: seq<Event>, who: nat, k: nat) returns (i: nat, c: nat)
    requires Execution(states, events) && k < |states| && who < |states[k].tasks|
    requires states[k].tasks[who].ValidateStamp?
    ensures var task := states[k].tasks[who];
            && i < c < k && events[i].Run? && events[c].Run? && events[i].who == who == events[c].who
            && who < |states[i].tasks| && states[i].tasks[who] == ValidateRead(task.hash)
            && task.id in states[i].table.rows && states[i].table.rows[task.id] == task.row
            && task.row.hash == task.hash
            && !(task.row.expires.Some? && task.row.expires.value <= events[c].now)
    decreases k
  {
    if who < |states[k - 1].tasks| && states[k - 1].tasks[who] == states[k].tasks[who] {
      i, c := ClockOf(states, events, who, k - 1);
    } else {
      c := k - 1;
      i := ReadOf(states, events, who, k - 1);
    }
  }

  /** In any interleaving: when a validation's stamp statement runs, at step j, there are an earlier
      read i and clock check c of the same call such that the row read carried the presented
      fingerprint and was unexpired at the clock check; and, database failures of the stamp aside,
      the call answers that row's subject and id exactly when the row, the same token, stayed in
      the table from the read to the stamp, and InvalidToken otherwise. A failure of the stamp is
      absorbed, even when it hides a revocation. */
  lemma ValidationAnswer(states: seq<State>, events: seq<Event>, j: nat) returns (i: nat, c: nat)
    requires Execution(states, events) && j < |events| && events[j].Run?
    requires events[j].who < |states[j].tasks| && states[j].tasks[events[j].who].ValidateStamp?
    ensures var who := events[j].who;
            var task := states[j].tasks[who];
            && i < c < j && states[i].tasks != [] && who < |states[i].tasks|
            && states[i].tasks[who] == ValidateRead(task.hash)
            && events[c].Run? && !(task.row.expires.Some? && task.row.expires.value <= events[c].now)
            && task.id in states[i].table.rows && states[i].table.rows[task.id] == task.row
            && task.row.hash == task.hash
    ensures var who := events[j].who;
            var task := states[j].tasks[who];
            var stayed := forall k | i <= k <= j ::
                            task.id in states[k].table.rows && SameToken(states[k].table.rows[task.id], task.row);
            states[j + 1].tasks[who] ==
              Done(if events[j].fault || stayed then Principal(task.row.subject, task.id) else Refused(InvalidToken))
  {
    var who := events[j].who;
    var task := states[j].tasks[who];
    i, c := ClockOf(states, events, who, j);
    RowsOnlyLeave(states, events, i, i);
    if task.id in states[j].table.rows {
      forall k | i <= k <= j
        ensures task.id in states[k].table.rows && SameToken(states[k].table.rows[task.id], task.row)
      {
        RowsOnlyLeave(states, events, i, k);
        RowsOnlyLeave(states, events, k, j);
      }
    }
  }

  /** Step k is a successful `revoke_token` of row `id`. */
  ghost predicate Revokes(states: seq<State>, events: seq<Event>, k: nat, id: nat)
    requires |states| == |events| + 1 && k < |events|
  {
    && events[k].Run? && !events[k].fault && events[k].who < |states[k].tasks|
    && states[k].tasks[events[k].who] == Revoke(id)
  }

  /** A revocation removes its row for good and no other: from the next state on, the id, handed out by
      then, is in no state of the run, and the step changes nothing else. */
  lemma RevocationRemoves(states: seq<State>, events: seq<Event>, k: nat, j: nat, id: nat)
    requires Execution(states, events) && k < j < |states| && Revokes(states, events, k, id)
    requires id < states[k].table.next
    ensures id !in states[j].table.rows
    ensures var (t, t') := (states[k].table, states[k + 1].table);
            && t'.next == t.next
            && (forall i :: i in t'.rows <==> i in t.rows && i != id)
            && (forall i | i in t'.rows :: t'.rows[i] == t.rows[i])
  {
    assert states[k + 1] == Next(states[k], events[k]);
    RevokeRemoves(states[k].table, events[k].now, false, id);
    RowsOnlyLeave(states, events, k + 1, j);
  }

  /** Step k adds a token of this fingerprint. */
  ghost predicate Adds(states: seq<State>, events: seq<Event>, k: nat, hash: string)
    requires |states| == |events| + 1 && k < |events|
  {
    exists id :: Holds(states[k + 1].table, id, hash) && id !in states[k].table.rows
  }

  /** A fingerprint that no row has stays so until one is added. */
  lemma {:induction false} AbsentUntilAdded(states: seq<State>, events: seq<Event>, i: nat, j: nat, hash: string)
    requires Execution(states, events) && i <= j < |states|
    requires forall id :: !Holds(states[i].table, id, hash)
    requires forall k | i <= k < j :: !Adds(states, events, k, hash)
    ensures forall id :: !Holds(states[j].table, id, hash)
    decreases j
  {
    if i < j {
      AbsentUntilAdded(states, events, i, j - 1, hash);
      RowsOnlyLeave(states, events, j - 1, j);
      forall id ensures !Holds(states[j].table, id, hash) {
        assert !Adds(states, events, j - 1, hash);
        assert !Holds(states[j - 1].table, id, hash);
      }
    }
  }

  /** Step j reads the row of this fingerprint for a validation, and the database answers. */
  ghost predicate Reads(states: seq<State>, events: seq<Event>, j: nat, hash: string)
    requires |states| == |events| + 1 && j < |events|
  {
    && events[j].Run? && !events[j].fault && events[j].who < |states[j].tasks|
    && states[j].tasks[events[j].who] == ValidateRead(hash)
  }

  /** A revoked token is invalid: whoever presents it after its revocation is answered InvalidToken, in
      every interleaving, as long as no token of its fingerprint has been added since. */
  lemma RevokedTokenIsInvalid(states: seq<State>, events: seq<Event>, k: nat, j: nat, id: nat, hash: string)
    requires Execution(states, events) && k < j < |events| && Revokes(states, events, k, id)
    requires Holds(states[k].table, id, hash) && Reads(states, events, j, hash)
    requires forall m | k < m < j :: !Adds(states, events, m, hash)
    ensures states[j + 1].tasks[events[j].who] == Done(Refused(InvalidToken)) && states[j + 1].table == states[j].table
  {
    RowsOnlyLeave(states, events, k, k);
    RevocationRemoves(states, events, k, k + 1, id);
    AbsentUntilAdded(states, events, k + 1, j, hash);
    RowsOnlyLeave(states, events, j, j);
    ValidateReads(states[j].table, events[j].now, false, hash, 0, Row("", "", "", 0, None, None));
    assert states[j + 1] == Next(states[j], events[j]);
  }

  /** A token that is not revoked stays valid: a validation of it reads its row, the subject, the
      expiry and the rest as they were when it was issued. */
  lemma UnrevokedTokenIsRead(states: seq<State>, events: seq<Event>, i: nat, j: nat, id: nat, hash: string)
    requires Execution(states, events) && i <= j < |events| && Holds(states[i].table, id, hash)
    requires forall k | i <= k < j :: !Revokes(states, events, k, id)
    requires Reads(states, events, j, hash)
    ensures id in states[j].table.rows && SameToken(states[i].table.rows[id], states[j].table.rows[id])
    ensures states[j + 1].tasks[events[j].who] == ValidateClock(hash, id, states[j].table.rows[id])
  {
    if id !in states[j].table.rows {
      OnlyRevocationRemoves(states, events, i, j, id);
      assert false;
    }
    RowsOnlyLeave(states, events, i, i);
    RowsOnlyLeave(states, events, i, j);
    assert Holds(states[j].table, id, hash);
    ValidateReads(states[j].table, events[j].now, false, hash, id, states[j].table.rows[id]);
    assert states[j + 1] == Next(states[j], events[j]);
  }

  /** A row leaves the table only by a revocation of its id. */
  lemma {:induction false} OnlyRevocationRemoves(states: seq<State>, events: seq<Event>, i: nat, j: nat, id: nat)
    requires Execution(states, events) && i <= j < |states|
    requires id in states[i].table.rows && id !in states[j].table.rows
    ensures exists k | i <= k < j :: Revokes(states, events, k, id) && id in states[k].table.rows
    decreases j
  {
    if id !in states[j - 1].table.rows {
      OnlyRevocationRemoves(states, events, i, j - 1, id);
    } else {
      assert states[j] == Next(states[j - 1], events[j - 1]);
      assert Revokes(states, events, j - 1, id);
    }
  }

  /** Step i answers Ok to an `ensure_token` of this fingerprint for this subject. */
  ghost predicate EnsuresOk(states: seq<State>, events: seq<Event>, i: nat, subject: string, hash: string)
    requires |states| == |events| + 1 && i < |events|
  {
    && events[i].Run? && events[i].who < |states[i].tasks|
    && (states[i].tasks[events[i].who].EnsureRead? || states[i].tasks[events[i].who].EnsureInsert?)
    && states[i].tasks[events[i].who].subject == subject && states[i].tasks[events[i].who].hash == hash
    && events[i].who < |states[i + 1].tasks| && states[i + 1].tasks[events[i].who] == Done(Fine)
  }

  /** Ok means that the fingerprint is, right after that step, the subject's own. */
  lemma EnsureOkMeansOwned(states: seq<State>, events: seq<Event>, i: nat, subject: string,
                           hash: string) returns (id: nat)
    requires Execution(states, events) && i < |events| && EnsuresOk(states, events, i, subject, hash)
    ensures id in states[i + 1].table.rows
    ensures states[i + 1].table.rows[id].hash == hash && states[i + 1].table.rows[id].subject == subject
  {
    assert states[i + 1] == Next(states[i], events[i]);
    if states[i].tasks[events[i].who].EnsureRead? {
      id := FindHash(states[i].table, hash).value;
    } else {
      id := states[i].table.next;
    }
  }

  /** Two `ensure_token` calls on one secret for different subjects cannot both answer Ok unless the
      first subject's row is revoked between the two answers. */
  lemma FingerprintHasOneOwner(states: seq<State>, events: seq<Event>, i: nat, j: nat,
                               first: string, second: string, hash: string)
    requires Execution(states, events) && i < j < |events| && first != second
    requires EnsuresOk(states, events, i, first, hash) && EnsuresOk(states, events, j, second, hash)
    ensures exists k, id | i < k < j ::
              && Revokes(states, events, k, id) && id in states[k].table.rows
              && states[k].table.rows[id].hash == hash && states[k].table.rows[id].subject == first
  {
    var x := EnsureOkMeansOwned(states, events, i, first, hash);
    var y := EnsureOkMeansOwned(states, events, j, second, hash);
    RowsOnlyLeave(states, events, i + 1, j + 1);
    if x in states[j + 1].table.rows {
      assert false;
    } else {
      OnlyRevocationRemoves(states, events, i + 1, j + 1, x);
      var k :| i + 1 <= k < j + 1 && Revokes(states, events, k, x) && x in states[k].table.rows;
      RowsOnlyLeave(states, events, i + 1, k);
    }
  }
}
