/**
 The write cap over whole runs, whichever queries fail (src/lymaille/resource_module.rs).
 */
module AgentCap {
  import opened AgentWrites
  import opened AgentRecovery
  import opened AgentAttempts
  import opened Wrappers

  lemma CapDecidesAlone(s: Session, db: Db, before: nat, call: Call, fault: Fault)
    ensures ApplyWith(s, db, before, call, fault).reply == Err(WriteLimit) <==> before >= MAX_WRITES_PER_RUN
  {
  }

  /** Refusals by the cap fall exactly on the calls numbered 100 and up. */
  predicate CapHolds(replies: seq<Reply>)
  {
    forall i | 0 <= i < |replies| :: replies[i] == Err(WriteLimit) <==> i >= MAX_WRITES_PER_RUN
  }

  /** They do in every run, whatever the database, the failing queries and the mix of calls, replays
      included: a rerun is refused where the first run was. */
  lemma {:induction false} CapIsPositional(s: Session, faults: nat -> Fault, script: Script<Call>, db: Db,
                                           replies: seq<Reply>, limit: nat)
    requires CapHolds(replies)
    ensures CapHolds(Run(MachineWith(s, faults), script, db, replies, limit).1)
    decreases limit - |replies|
  {
    if |replies| < limit && script(replies).Some? {
      var o := ApplyWith(s, db, |replies|, script(replies).value, faults(|replies|));
      CapDecidesAlone(s, db, |replies|, script(replies).value, faults(|replies|));
      CapIsPositional(s, faults, script, Last(o), replies + [o.reply], limit);
    }
  }

  lemma {:induction false} NothingPastTheCap(s: Session, faults: nat -> Fault, script: Script<Call>, db: Db,
                                             replies: seq<Reply>, limit: nat)
    requires |replies| >= MAX_WRITES_PER_RUN
    ensures Run(MachineWith(s, faults), script, db, replies, limit).0 == db
    decreases limit - |replies|
  {
    if |replies| < limit && script(replies).Some? {
      var o := ApplyWith(s, db, |replies|, script(replies).value, faults(|replies|));
      NothingPastTheCap(s, faults, script, Last(o), replies + [o.reply], limit);
    }
  }

  /** The database a run leaves is the one its first 100 calls leave. */
  lemma CapFreezesTheDatabase(s: Session, faults: nat -> Fault, script: Script<Call>, db: Db, limit: nat)
    requires limit >= MAX_WRITES_PER_RUN
    ensures Run(MachineWith(s, faults), script, db, [], limit).0 ==
            Run(MachineWith(s, faults), script, db, [], MAX_WRITES_PER_RUN).0
  {
    var m := MachineWith(s, faults);
    RunSplits(m, script, db, [], MAX_WRITES_PER_RUN, limit);
    EndedRun(m, script, db, [], MAX_WRITES_PER_RUN);
    var (at, replies) := Run(m, script, db, [], MAX_WRITES_PER_RUN);
    if |replies| == MAX_WRITES_PER_RUN {
      NothingPastTheCap(s, faults, script, at, replies, limit);
    }
  }

  /** How many calls of the run change a table. */
  function TableChanges(s: Session, faults: nat -> Fault, script: Script<Call>, db: Db, replies: seq<Reply>,
                        limit: nat): nat
    decreases limit - |replies|
  {
    if |replies| >= limit || script(replies).None? then 0
    else
      var o := ApplyWith(s, db, |replies|, script(replies).value, faults(|replies|));
      (if Last(o).tables != db.tables then 1 else 0) +
      TableChanges(s, faults, script, Last(o), replies + [o.reply], limit)
  }

  /** At most 100 of them do. */
  lemma {:induction false} FewCallsWrite(s: Session, faults: nat -> Fault, script: Script<Call>, db: Db,
                                         replies: seq<Reply>, limit: nat)
    ensures TableChanges(s, faults, script, db, replies, limit) <=
            if |replies| < MAX_WRITES_PER_RUN then MAX_WRITES_PER_RUN - |replies| else 0
    decreases limit - |replies|
  {
    if |replies| < limit && script(replies).Some? {
      var o := ApplyWith(s, db, |replies|, script(replies).value, faults(|replies|));
      FewCallsWrite(s, faults, script, Last(o), replies + [o.reply], limit);
    }
  }
}
