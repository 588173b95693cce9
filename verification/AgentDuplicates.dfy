/**
 How many rows crashes and database failures can make of one creation
 (src/lymaille/resource_module.rs).
 */
module AgentDuplicates {
  import opened RestCore
  import opened AgentWrites
  import opened AgentRecovery
  import opened AgentRecoveryCases
  import opened AgentBatchRecovery
  import opened AgentAttempts

  function RowCount(db: Db, resource: string): nat
  {
    if resource in db.tables then |db.tables[resource].rows| else 0
  }

  /** Call number `done` of the attempt. */
  function CallOf(s: Session, a: Attempt, db: Db, done: nat, call: Call): Outcome
  {
    ApplyWith(s, db, done, call, a.faults(done))
  }

  /** Where it leaves the database. */
  function LeftBy(s: Session, a: Attempt, db: Db, done: nat, call: Call): Db
  {
    var o := CallOf(s, a, db, done, call);
    if done == a.crash.call && a.crash.effects < |o.trace| then o.trace[a.crash.effects] else Last(o)
  }

  /** The rows added by the executions of `wanted` in one attempt. */
  function RowsAdded(s: Session, a: Attempt, db: Db, replies: seq<Reply>, limit: nat, wanted: Call): int
    decreases limit - |replies|
  {
    if |replies| >= limit || a.script(replies).None? then 0
    else
      var call := a.script(replies).value;
      var left := LeftBy(s, a, db, |replies|, call);
      var here := if call == wanted then RowCount(left, wanted.resource) - RowCount(db, wanted.resource) else 0;
      if |replies| == a.crash.call then here
      else here + RowsAdded(s, a, left, replies + [CallOf(s, a, db, |replies|, call).reply], limit, wanted)
  }

  /** An execution of `wanted` from `db` to `left` wrote, and left no journal entry. */
  predicate Unrecorded(s: Session, db: Db, left: Db, wanted: Call)
    requires s.scope.Some?
  {
    left.tables != db.tables && Key(s.scope.value, wanted) !in left.journal
  }

  /** How many executions of `wanted` went unrecorded in the attempt. */
  function Windows(s: Session, a: Attempt, db: Db, replies: seq<Reply>, limit: nat, wanted: Call): nat
    requires s.scope.Some?
    decreases limit - |replies|
  {
    if |replies| >= limit || a.script(replies).None? then 0
    else
      var call := a.script(replies).value;
      var left := LeftBy(s, a, db, |replies|, call);
      var here := if call == wanted && Unrecorded(s, db, left, wanted) then 1 else 0;
      if |replies| == a.crash.call then here
      else here + Windows(s, a, left, replies + [CallOf(s, a, db, |replies|, call).reply], limit, wanted)
  }

  function HistoryRowsAdded(s: Session, db: Db, limit: nat, attempts: seq<Attempt>, wanted: Call): int
    decreases |attempts|
  {
    if |attempts| == 0 then 0
    else RowsAdded(s, attempts[0], db, [], limit, wanted) +
         HistoryRowsAdded(s, After(s, db, limit, attempts[0]), limit, attempts[1..], wanted)
  }

  function HistoryWindows(s: Session, db: Db, limit: nat, attempts: seq<Attempt>, wanted: Call): nat
    requires s.scope.Some?
    decreases |attempts|
  {
    if |attempts| == 0 then 0
    else Windows(s, attempts[0], db, [], limit, wanted) +
         HistoryWindows(s, After(s, db, limit, attempts[0]), limit, attempts[1..], wanted)
  }

  function Entry01(s: Session, db: Db, wanted: Call): nat
    requires s.scope.Some?
  {
    if Key(s.scope.value, wanted) in db.journal then 1 else 0
  }

  lemma CreateWritesOneRow(s: Session, a: Admitted, t: Table, call: Call)
    requires call.CreateCall? && Write(s, a, t, call).Ok?
    ensures |Write(s, a, t, call).value.0.rows| <= |t.rows| + 1
  {
  }

  /** One execution of a creation adds at most a row, and only while its key is not journaled. */
  lemma OneCreateOneRow(s: Session, db: Db, before: nat, wanted: Call, t: Db)
    requires s.scope.Some? && wanted.CreateCall? && t in Apply(s, db, before, wanted).trace
    ensures RowCount(t, wanted.resource) - RowCount(db, wanted.resource) + Entry01(s, db, wanted)
            <= (if Unrecorded(s, db, t, wanted) then 1 else 0) + Entry01(s, t, wanted)
  {
    CallKeepsJournal(s, db, before, wanted);
    if t.tables != db.tables {
      CallReplacesTable(s, db, before, wanted, t);
      CreateWritesOneRow(s, Admit(s, before, wanted).value, db.tables[wanted.resource], wanted);
      if Key(s.scope.value, wanted) in db.journal {
        JournaledCallReplays(s, db, before, wanted);
      }
    }
  }

  /** One call of the attempt: what it adds, counted against what it leaves. */
  lemma StepRows(s: Session, a: Attempt, db: Db, done: nat, call: Call, wanted: Call)
    requires s.scope.Some? && wanted.CreateCall?
    ensures var left := LeftBy(s, a, db, done, call);
            (if call == wanted then RowCount(left, wanted.resource) - RowCount(db, wanted.resource) else 0)
            + Entry01(s, db, wanted)
            <= (if call == wanted && Unrecorded(s, db, left, wanted) then 1 else 0) + Entry01(s, left, wanted)
  {
    FaultyCall(s, db, done, call, a.faults(done));
    assert LeftBy(s, a, db, done, call) in CallOf(s, a, db, done, call).trace;
    if call == wanted {
      OneCreateOneRow(s, db, done, wanted, LeftBy(s, a, db, done, call));
    } else {
      CallKeepsJournal(s, db, done, call);
    }
  }

  lemma {:induction false} AttemptRows(s: Session, a: Attempt, db: Db, replies: seq<Reply>, limit: nat, wanted: Call)
    requires s.scope.Some? && wanted.CreateCall?
    ensures RowsAdded(s, a, db, replies, limit, wanted) + Entry01(s, db, wanted) <=
            Windows(s, a, db, replies, limit, wanted) +
            Entry01(s, CrashedRun(MachineWith(s, a.faults), a.script, db, replies, limit, a.crash), wanted)
    decreases limit - |replies|
  {
    if |replies| < limit && a.script(replies).Some? {
      var call := a.script(replies).value;
      StepRows(s, a, db, |replies|, call, wanted);
      if |replies| != a.crash.call {
        var o := CallOf(s, a, db, |replies|, call);
        AttemptRows(s, a, Last(o), replies + [o.reply], limit, wanted);
      }
    }
  }

  /** Whatever the entity and whatever fails, the rows all the executions of one creation added, over
      any history of attempts, are at most one more than the executions that went unrecorded; once
      the key is journaled, there are no more at all. */
  lemma {:induction false} DuplicatesAreCounted(s: Session, db: Db, limit: nat, attempts: seq<Attempt>, wanted: Call)
    requires s.scope.Some? && wanted.CreateCall?
    ensures HistoryRowsAdded(s, db, limit, attempts, wanted) <=
            HistoryWindows(s, db, limit, attempts, wanted) + 1 - Entry01(s, db, wanted)
    ensures HistoryRowsAdded(s, db, limit, attempts, wanted) <=
            HistoryWindows(s, db, limit, attempts, wanted)
            + Entry01(s, AfterAll(s, db, limit, attempts), wanted) - Entry01(s, db, wanted)
    decreases |attempts|
  {
    if attempts != [] {
      AttemptRows(s, attempts[0], db, [], limit, wanted);
      DuplicatesAreCounted(s, After(s, db, limit, attempts[0]), limit, attempts[1..], wanted);
    }
  }

  // ---------------------------------------------------------------------------------------------
  // What leaves an execution unrecorded
  // ---------------------------------------------------------------------------------------------

  /** The attempt crashed in `wanted`, after its write and before its record. */
  predicate CrashedInWindow(s: Session, a: Attempt, db: Db, replies: seq<Reply>, limit: nat, wanted: Call)
    decreases limit - |replies|
  {
    |replies| < limit && a.script(replies).Some? &&
    var o := CallOf(s, a, db, |replies|, a.script(replies).value);
    if |replies| == a.crash.call then a.script(replies).value == wanted && a.crash.effects == 1 && |o.trace| == 3
    else CrashedInWindow(s, a, Last(o), replies + [o.reply], limit, wanted)
  }

  /** The call wrote, and its record was refused for its size or failed in the database. */
  predicate RecordRefused(s: Session, a: Attempt, db: Db, done: nat, call: Call)
  {
    || (Overflows(s, db, done, call) && CallOf(s, a, db, done, call) == Apply(s, db, done, call))
    || (a.faults(done) == AtRecord && Sends(s, db, done, call, AtRecord))
  }

  /** How many executions of `wanted` in the attempt had their record refused. */
  function Refused(s: Session, a: Attempt, db: Db, replies: seq<Reply>, limit: nat, wanted: Call): nat
    decreases limit - |replies|
  {
    if |replies| >= limit || a.script(replies).None? then 0
    else
      var call := a.script(replies).value;
      var here := if call == wanted && RecordRefused(s, a, db, |replies|, call) then 1 else 0;
      if |replies| == a.crash.call then here
      else here + Refused(s, a, LeftBy(s, a, db, |replies|, call),
                          replies + [CallOf(s, a, db, |replies|, call).reply], limit, wanted)
  }

  /** One execution goes unrecorded only by a crash right after its write, or by a refused record. */
  lemma UnrecordedOnce(s: Session, a: Attempt, db: Db, done: nat, call: Call)
    requires s.scope.Some? && Unrecorded(s, db, LeftBy(s, a, db, done, call), call)
    ensures RecordRefused(s, a, db, done, call) ||
            (done == a.crash.call && a.crash.effects == 1 && |CallOf(s, a, db, done, call).trace| == 3)
  {
  }

  /** An attempt has at most one window, where its crash falls in that very call after one effect. */
  lemma {:induction false} WindowsAreCrashes(s: Session, a: Attempt, db: Db, replies: seq<Reply>, limit: nat,
                                             wanted: Call)
    requires s.scope.Some? && |replies| <= a.crash.call
    ensures Windows(s, a, db, replies, limit, wanted) <=
            (if CrashedInWindow(s, a, db, replies, limit, wanted) then 1 else 0) +
            Refused(s, a, db, replies, limit, wanted)
    decreases limit - |replies|
  {
    if |replies| < limit && a.script(replies).Some? {
      var call := a.script(replies).value;
      var left := LeftBy(s, a, db, |replies|, call);
      if call == wanted && Unrecorded(s, db, left, wanted) {
        UnrecordedOnce(s, a, db, |replies|, call);
      }
      if |replies| != a.crash.call {
        WindowsAreCrashes(s, a, left, replies + [CallOf(s, a, db, |replies|, call).reply], limit, wanted);
      }
    }
  }

  /** How many attempts crashed between the write of `wanted` and its record. */
  function CrashWindows(s: Session, db: Db, limit: nat, attempts: seq<Attempt>, wanted: Call): nat
    decreases |attempts|
  {
    if |attempts| == 0 then 0
    else (if CrashedInWindow(s, attempts[0], db, [], limit, wanted) then 1 else 0) +
         CrashWindows(s, After(s, db, limit, attempts[0]), limit, attempts[1..], wanted)
  }

  /** How many executions of `wanted` in the history had their record refused. */
  function HistoryRefused(s: Session, db: Db, limit: nat, attempts: seq<Attempt>, wanted: Call): nat
    decreases |attempts|
  {
    if |attempts| == 0 then 0
    else Refused(s, attempts[0], db, [], limit, wanted) +
         HistoryRefused(s, After(s, db, limit, attempts[0]), limit, attempts[1..], wanted)
  }

  lemma {:induction false} WindowsOfHistory(s: Session, db: Db, limit: nat, attempts: seq<Attempt>, wanted: Call)
    requires s.scope.Some?
    ensures HistoryWindows(s, db, limit, attempts, wanted) <=
            CrashWindows(s, db, limit, attempts, wanted)
            + HistoryRefused(s, db, limit, attempts, wanted)
    ensures CrashWindows(s, db, limit, attempts, wanted) <= |attempts|
    decreases |attempts|
  {
    if attempts != [] {
      WindowsAreCrashes(s, attempts[0], db, [], limit, wanted);
      WindowsOfHistory(s, After(s, db, limit, attempts[0]), limit, attempts[1..], wanted);
    }
  }

  /** Unique label or not, over any history, whatever fails in its attempts: the rows all the
      executions of one creation add are at most one more than the crashes that fell between its write
      and its record, one per attempt at most, and the executions whose record was refused, for the
      size of their answer or by the database; so where no crash fell there and no record was refused,
      at most one. */
  lemma OneRowPerCrash(s: Session, db: Db, limit: nat, attempts: seq<Attempt>, wanted: Call)
    requires s.scope.Some? && wanted.CreateCall?
    ensures HistoryRowsAdded(s, db, limit, attempts, wanted) <=
            1 + CrashWindows(s, db, limit, attempts, wanted)
              + HistoryRefused(s, db, limit, attempts, wanted)
    ensures CrashWindows(s, db, limit, attempts, wanted) <= |attempts|
  {
    DuplicatesAreCounted(s, db, limit, attempts, wanted);
    WindowsOfHistory(s, db, limit, attempts, wanted);
  }
}
