/**
 Attempts of a batch step in which queries fail as well (src/lymaille/resource_module.rs): any query
 of any call, as often as it likes; the call answers an internal error, which the script may catch
 and go on; and a crash may end the attempt anywhere.
 */
module AgentAttempts {
  import opened AgentWrites
  import opened AgentRecovery
  import opened AgentRecoveryCases
  import opened AgentBatchRecovery

  /** The agent's calls when the database fails query `faults(i)` of call number i. */
  function MachineWith(s: Session, faults: nat -> Fault): Machine<Call>
  {
    MachineOf(s).(step := (db: Db, before: nat, call: Call) => ApplyWith(s, db, before, call, faults(before)))
  }

  /** An attempt: the calls it makes, chosen from their answers; which queries fail; and where it
      crashes, past its end when it finishes. Attempts need not follow one script: what a script reads
      between its calls may differ from one to the next (`AgentReads.ReadingIsAnAttempt`). */
  datatype Attempt = Attempt(script: Script<Call>, crash: Crash, faults: nat -> Fault)

  /** The database an attempt leaves. */
  function After(s: Session, db: Db, limit: nat, a: Attempt): Db
  {
    CrashedRun(MachineWith(s, a.faults), a.script, db, [], limit, a.crash)
  }

  /** The database a history of attempts leaves. */
  function AfterAll(s: Session, db: Db, limit: nat, attempts: seq<Attempt>): Db
    decreases |attempts|
  {
    if |attempts| == 0 then db
    else AfterAll(s, After(s, db, limit, attempts[0]), limit, attempts[1..])
  }

  /** The database attempt number `p` starts on. */
  function Start(s: Session, db: Db, limit: nat, attempts: seq<Attempt>, p: nat): Db
    requires p <= |attempts|
  {
    AfterAll(s, db, limit, attempts[..p])
  }

  /** A failing query adds no state to those of the call, and what succeeds is as without it. */
  lemma FaultyCall(s: Session, db: Db, before: nat, call: Call, fault: Fault)
    ensures var o, p := Apply(s, db, before, call), ApplyWith(s, db, before, call, fault);
            && (forall t | t in p.trace :: t in o.trace)
            && p.trace[0] == db && (p.reply.Ok? ==> p == o)
  {
    FaultIsACrash(s, db, before, call, fault);
  }

  /** Failing queries break none of the laws they can: the entries and their answers stand. */
  lemma FaultyCallsKeep(s: Session, faults: nat -> Fault)
    requires s.scope.Some?
    ensures Keeps(MachineWith(s, faults))
  {
    var m := MachineWith(s, faults);
    AgentCallsJournal(s);
    forall db, i, c, r, j, d, t | m.journaled(db, i, c, r) && t in m.step(db, j, d).trace
      ensures m.journaled(t, i, c, r)
    {
      FaultyCall(s, db, j, d, faults(j));
      CallKeepsJournal(s, db, j, d);
    }
    forall db, i, c | m.step(db, i, c).reply.Ok?
      ensures m.journaled(Last(m.step(db, i, c)), i, c, m.step(db, i, c).reply)
    {
      FaultyCall(s, db, i, c, faults(i));
      CallKeepsJournal(s, db, i, c);
    }
    forall db, i, c ensures m.step(db, i, c).trace[0] == db {
      FaultyCall(s, db, i, c, faults(i));
    }
  }

  // ---------------------------------------------------------------------------------------------
  // Histories
  // ---------------------------------------------------------------------------------------------

  lemma {:induction false} AfterAllSplits(s: Session, db: Db, limit: nat, a: seq<Attempt>, b: seq<Attempt>)
    ensures AfterAll(s, db, limit, a + b) == AfterAll(s, AfterAll(s, db, limit, a), limit, b)
    decreases |a|
  {
    if a == [] {
      assert a + b == b;
    } else {
      assert (a + b)[1..] == a[1..] + b;
      AfterAllSplits(s, After(s, db, limit, a[0]), limit, a[1..], b);
    }
  }

  lemma AfterAllEnds(s: Session, db: Db, limit: nat, attempts: seq<Attempt>)
    requires attempts != []
    ensures var n := |attempts| - 1;
            AfterAll(s, db, limit, attempts) ==
            After(s, Start(s, db, limit, attempts, n), limit, attempts[n])
  {
    var n := |attempts| - 1;
    var before := Start(s, db, limit, attempts, n);
    assert attempts == attempts[..n] + [attempts[n]] && [attempts[n]][1..] == [];
    AfterAllSplits(s, db, limit, attempts[..n], [attempts[n]]);
    assert AfterAll(s, before, limit, [attempts[n]]) ==
           AfterAll(s, After(s, before, limit, attempts[n]), limit, []);
  }

  lemma {:induction false} AttemptKeepsDbOk(s: Session, db: Db, replies: seq<Reply>, limit: nat, a: Attempt)
    requires DbOk(s, db)
    ensures DbOk(s, CrashedRun(MachineWith(s, a.faults), a.script, db, replies, limit, a.crash))
    decreases limit - |replies|
  {
    if |replies| < limit && a.script(replies).Some? {
      var call := a.script(replies).value;
      CallKeepsDbOk(s, db, |replies|, call);
      FaultyCall(s, db, |replies|, call, a.faults(|replies|));
      var o := ApplyWith(s, db, |replies|, call, a.faults(|replies|));
      assert forall i | 0 <= i < |o.trace| :: o.trace[i] in o.trace;
      if |replies| != a.crash.call {
        AttemptKeepsDbOk(s, Last(o), replies + [o.reply], limit, a);
      }
    }
  }

  /** Every history of attempts keeps the keys of every table distinct, ascending and below the
      counter that hands them out. */
  lemma {:induction false} HistoryKeepsDbOk(s: Session, db: Db, limit: nat, attempts: seq<Attempt>)
    requires DbOk(s, db)
    ensures DbOk(s, AfterAll(s, db, limit, attempts))
    decreases |attempts|
  {
    if attempts != [] {
      AttemptKeepsDbOk(s, db, [], limit, attempts[0]);
      HistoryKeepsDbOk(s, After(s, db, limit, attempts[0]), limit, attempts[1..]);
    }
  }

  // ---------------------------------------------------------------------------------------------
  // Attempts that are crashes
  // ---------------------------------------------------------------------------------------------

  /** The attempt is abandoned in the first call that meets a failure, if not before. */
  predicate Abandoned(a: Attempt)
  {
    forall i: nat | i < a.crash.call :: a.faults(i) == NoFault
  }

  /** Such an attempt leaves what some attempt without failures leaves that crashes there. */
  lemma {:induction false} AbandonedIsACrash(s: Session, db: Db, replies: seq<Reply>, limit: nat, a: Attempt)
    requires Abandoned(a) && |replies| <= a.crash.call
    ensures exists c: Crash ::
              CrashedRun(MachineWith(s, a.faults), a.script, db, replies, limit, a.crash) ==
              CrashedRun(MachineOf(s), a.script, db, replies, limit, c) && c.call == a.crash.call
    decreases limit - |replies|
  {
    var left := CrashedRun(MachineWith(s, a.faults), a.script, db, replies, limit, a.crash);
    if |replies| < limit && a.script(replies).Some? {
      var call := a.script(replies).value;
      var o, p := Apply(s, db, |replies|, call), ApplyWith(s, db, |replies|, call, a.faults(|replies|));
      FaultIsACrash(s, db, |replies|, call, a.faults(|replies|));
      if |replies| == a.crash.call {
        var e := if a.crash.effects < |p.trace| then a.crash.effects else |p.trace| - 1;
        assert left == CrashedRun(MachineOf(s), a.script, db, replies, limit, Crash(a.crash.call, e));
      } else {
        AbandonedIsACrash(s, Last(o), replies + [o.reply], limit, a);
        var c: Crash :| left == CrashedRun(MachineOf(s), a.script, Last(o), replies + [o.reply], limit, c) &&
          c.call == a.crash.call;
        assert left == CrashedRun(MachineOf(s), a.script, db, replies, limit, c);
      }
    } else {
      assert left == CrashedRun(MachineOf(s), a.script, db, replies, limit, a.crash);
    }
  }

  lemma {:induction false} AbandonedAreCrashes(s: Session, script: Script<Call>, db: Db, limit: nat,
                                               attempts: seq<Attempt>)
    returns (crashes: seq<Crash>)
    requires forall a | a in attempts :: a.script == script && Abandoned(a)
    ensures AfterAll(s, db, limit, attempts) == History(MachineOf(s), script, db, limit, crashes)
    decreases |attempts|
  {
    crashes := [];
    if attempts != [] {
      AbandonedIsACrash(s, db, [], limit, attempts[0]);
      var c: Crash :| After(s, db, limit, attempts[0]) == CrashedRun(MachineOf(s), script, db, [], limit, c);
      var rest := AbandonedAreCrashes(s, script, After(s, db, limit, attempts[0]), limit, attempts[1..]);
      crashes := [c] + rest;
      assert crashes[1..] == rest;
    }
  }

  /** So a script that converges under crashes converges under database failures too, as long as no
      attempt goes on after one. */
  lemma AbandonedConverges(s: Session, script: Script<Call>, db: Db, limit: nat, attempts: seq<Attempt>)
    requires Converges(MachineOf(s), script, db, limit)
    requires forall a | a in attempts :: a.script == script && Abandoned(a)
    ensures Run(MachineOf(s), script, AfterAll(s, db, limit, attempts), [], limit) ==
            Run(MachineOf(s), script, db, [], limit)
  {
    var crashes := AbandonedAreCrashes(s, script, db, limit, attempts);
  }
}
