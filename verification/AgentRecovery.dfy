/**
 Crash and rerun of a journaled script (src/lymaille/resource_module.rs, the batch steps; the
 protocol of src/lymaille/store/write_journal.rs: replay, else write, then record).

 A script is adaptive: it chooses its next call from the answers so far. An attempt may crash
 in any call, in any database state that call goes through; the next attempt starts the script
 over, with a fresh counter, on the database the crash left. No other writer is modelled.

 What a call does is a value here, `Machine`, of which only the laws of the journal are used;
 `AgentRecoveryCases` shows that the agent's calls obey them.
 */
module AgentRecovery {
  import opened Wrappers
  import opened AgentWrites

  type Script<C> = seq<Reply> -> Option<C>

  /** What a call does, given the database and its position in the script; whether the database holds
      the journal entry that answers it; and which calls only read. */
  datatype Machine<!C> = Machine(
    step: (Db, nat, C) -> Outcome,
    journaled: (Db, nat, C, Reply) -> bool,
    looks: C -> bool)

  /** What no failure of a query can break: a call starts where it starts; no state of a call loses an
      entry; a read changes nothing; the success of any other call leaves its entry. */
  ghost predicate Keeps<C(!new)>(m: Machine<C>)
  {
    && (forall db, i, c :: m.step(db, i, c).trace[0] == db)
    && (forall db, i, c, r, j, d, t ::
          m.journaled(db, i, c, r) && t in m.step(db, j, d).trace ==> m.journaled(t, i, c, r))
    && (forall db, i, c :: m.looks(c) ==> m.step(db, i, c).trace == [db])
    && (forall db, i, c ::
          !m.looks(c) && m.step(db, i, c).reply.Ok? ==>
            m.journaled(Last(m.step(db, i, c)), i, c, m.step(db, i, c).reply))
  }

  /** The protocol's laws: those, and a journaled call changes nothing and answers its entry. */
  ghost predicate Journals<C(!new)>(m: Machine<C>)
  {
    && Keeps(m)
    && (forall db, i, c, r :: m.journaled(db, i, c, r) ==> m.step(db, i, c) == Passage([db], r))
  }

  /** And two laws on what a restarted call goes through: nothing, when it ends where it began;
      no new state, when it restarts from a state of the call and ends like it. */
  ghost predicate RestartsQuietly<C(!new)>(m: Machine<C>)
  {
    && (forall db, i, c, t ::
          Last(m.step(db, i, c)) == db && t in m.step(db, i, c).trace ==> t == db)
    && (forall db, i, c, t, u ::
          t in m.step(db, i, c).trace && Last(m.step(t, i, c)) == Last(m.step(db, i, c)) && u in m.step(t, i, c).trace
          ==> u in m.step(db, i, c).trace)
  }

  /** Where an attempt crashes: in its call number `call`, after `effects` of its effects. */
  datatype Crash = Crash(call: nat, effects: nat)

  /** An uninterrupted attempt of at most `limit` calls, `replies` being the answers so far. */
  function Run<C(!new)>(m: Machine<C>, script: Script<C>, db: Db, replies: seq<Reply>, limit: nat): (r: (Db,
                 seq<Reply>))
    ensures |replies| <= |r.1| && r.1[..|replies|] == replies
    ensures |r.1| <= limit || r.1 == replies
    decreases limit - |replies|
  {
    if |replies| >= limit || script(replies).None? then (db, replies)
    else
      var o := m.step(db, |replies|, script(replies).value);
      Run(m, script, Last(o), replies + [o.reply], limit)
  }

  /** The database an attempt leaves when it crashes; a crash placed after the end is no crash. */
  function CrashedRun<C(!new)>(m: Machine<C>, script: Script<C>, db: Db, replies: seq<Reply>, limit: nat, c: Crash): Db
    decreases limit - |replies|
  {
    if |replies| >= limit || script(replies).None? then db
    else
      var o := m.step(db, |replies|, script(replies).value);
      if |replies| == c.call then o.trace[if c.effects < |o.trace| then c.effects else |o.trace| - 1]
      else CrashedRun(m, script, Last(o), replies + [o.reply], limit, c)
  }

  /** The database after a whole history of crashed attempts. */
  function History<C(!new)>(m: Machine<C>, script: Script<C>, db: Db, limit: nat, crashes: seq<Crash>): Db
    decreases |crashes|
  {
    if crashes == [] then db
    else History(m, script, CrashedRun(m, script, db, [], limit, crashes[0]), limit, crashes[1..])
  }

  /** Whatever the crashes, a final attempt ends in the same tables, the same journal and the
      same answers as one uninterrupted attempt. */
  ghost predicate Converges<C(!new)>(m: Machine<C>, script: Script<C>, db: Db, limit: nat)
  {
    forall crashes: seq<Crash> ::
      Run(m, script, History(m, script, db, limit, crashes), [], limit) == Run(m, script, db, [], limit)
  }

  /** The call that follows `replies`, issued on `db`, would be answered and would leave the
      database exactly as in the uninterrupted run, from each state it goes through. */
  ghost predicate Resumes<C(!new)>(m: Machine<C>, db: Db, before: nat, call: C)
  {
    var o := m.step(db, before, call);
    forall t | t in o.trace ::
      Last(m.step(t, before, call)) == Last(o) && m.step(t, before, call).reply == o.reply
  }

  /** On `db`, the call number `i` of the script is answered as it was and changes nothing. */
  ghost predicate Settled<C(!new)>(m: Machine<C>, script: Script<C>, replies: seq<Reply>, i: nat, db: Db)
    requires i < |replies|
  {
    script(replies[..i]).Some? &&
    var o := m.step(db, i, script(replies[..i]).value);
    Last(o) == db && o.reply == replies[i]
  }

  /** The journal keeps no answer of the call number `i`: it failed, or it was a read. */
  predicate Unkept<C(!new)>(m: Machine<C>, script: Script<C>, replies: seq<Reply>, i: nat)
    requires i < |replies|
  {
    replies[i].Err? || (script(replies[..i]).Some? && m.looks(script(replies[..i]).value))
  }

  /** Each earlier call that failed or read is answered alike, and without effect, on `db`. */
  ghost predicate UnkeptRepeat<C(!new)>(m: Machine<C>, script: Script<C>, replies: seq<Reply>, db: Db)
  {
    forall i | 0 <= i < |replies| && Unkept(m, script, replies, i) :: Settled(m, script, replies, i, db)
  }

  /** The script's call after `replies` exists within `limit`. */
  predicate Continues<C(!new)>(script: Script<C>, replies: seq<Reply>, limit: nat)
  {
    |replies| < limit && script(replies).Some?
  }

  /** The condition on the uninterrupted run: in every state it goes through, the call in progress
      resumes and the calls that failed before it fail again. */
  ghost predicate Resumable<C(!new)>(m: Machine<C>, script: Script<C>, db: Db, limit: nat)
  {
    forall k: nat | k < limit && Continues(script, Run(m, script, db, [], k).1, limit) &&
                    |Run(m, script, db, [], k).1| == k ::
      var (at, replies) := Run(m, script, db, [], k);
      var call := script(replies).value;
      && Resumes(m, at, k, call)
      && forall t | t in m.step(at, k, call).trace :: UnkeptRepeat(m, script, replies, t)
  }

  /** Issued again on `t`, an earlier call that fails has no effect. */
  ghost predicate FailsCleanlyOn<C(!new)>(m: Machine<C>, script: Script<C>, replies: seq<Reply>, t: Db)
  {
    forall i | 0 <= i < |replies| && script(replies[..i]).Some? ::
      var o := m.step(t, i, script(replies[..i]).value);
      o.reply.Err? ==> o.trace == [t]
  }

  /** So it is in every state the uninterrupted run goes through. */
  ghost predicate FailsCleanly<C(!new)>(m: Machine<C>, script: Script<C>, db: Db, limit: nat)
  {
    forall k: nat | k < limit && Continues(script, Run(m, script, db, [], k).1, limit) &&
                    |Run(m, script, db, [], k).1| == k ::
      var (at, replies) := Run(m, script, db, [], k);
      forall t | t in m.step(at, k, script(replies).value).trace :: FailsCleanlyOn(m, script, replies, t)
  }

  // ---------------------------------------------------------------------------------------------
  // Runs
  // ---------------------------------------------------------------------------------------------

  /** The run so far is recorded: every successful earlier call is journaled with its answer. */
  ghost predicate Recorded<C(!new)>(m: Machine<C>, script: Script<C>, replies: seq<Reply>, db: Db)
  {
    forall i | 0 <= i < |replies| ::
      && script(replies[..i]).Some?
      && (!Unkept(m, script, replies, i) ==> m.journaled(db, i, script(replies[..i]).value, replies[i]))
  }

  lemma RecordedStep<C(!new)>(m: Machine<C>, script: Script<C>, replies: seq<Reply>, db: Db)
    requires Keeps(m) && Recorded(m, script, replies, db) && script(replies).Some?
    ensures var o := m.step(db, |replies|, script(replies).value);
            && (forall t | t in o.trace :: Recorded(m, script, replies, t))
            && Recorded(m, script, replies + [o.reply], Last(o))
  {
    var call := script(replies).value;
    var o := m.step(db, |replies|, call);
    var next := replies + [o.reply];
    assert forall i | 0 <= i <= |replies| :: next[..i] == replies[..i];
    assert next[..|replies|] == replies;
  }

  lemma {:induction false} RunRecorded<C(!new)>(m: Machine<C>, script: Script<C>, db: Db, replies: seq<Reply>,
                                         limit: nat)
    requires Keeps(m) && Recorded(m, script, replies, db)
    ensures var (end, all) := Run(m, script, db, replies, limit); Recorded(m, script, all, end)
    decreases limit - |replies|
  {
    if |replies| < limit && script(replies).Some? {
      RecordedStep(m, script, replies, db);
      var o := m.step(db, |replies|, script(replies).value);
      RunRecorded(m, script, Last(o), replies + [o.reply], limit);
    }
  }

  /** A run cut at `k` calls, then continued, is the whole run. */
  lemma {:induction false} RunSplits<C(!new)>(m: Machine<C>, script: Script<C>, db: Db, replies: seq<Reply>, k: nat,
                                       limit: nat)
    requires k <= limit
    ensures var (at, upTo) := Run(m, script, db, replies, k);
            Run(m, script, db, replies, limit) == Run(m, script, at, upTo, limit)
    decreases k - |replies|
  {
    if |replies| < k && script(replies).Some? {
      var o := m.step(db, |replies|, script(replies).value);
      RunSplits(m, script, Last(o), replies + [o.reply], k, limit);
    }
  }

  /** A run cut at k + 1 calls is the run cut at k and one call more. */
  lemma RunSteps<C(!new)>(m: Machine<C>, script: Script<C>, db: Db, k: nat)
    ensures var (at, replies) := Run(m, script, db, [], k);
            Run(m, script, db, [], k + 1) ==
            if Continues(script, replies, k + 1)
            then (Last(m.step(at, |replies|, script(replies).value)),
                  replies + [m.step(at, |replies|, script(replies).value).reply])
            else (at, replies)
  {
    RunSplits(m, script, db, [], k, k + 1);
    var (at, replies) := Run(m, script, db, [], k);
    if Continues(script, replies, k + 1) {
      var o := m.step(at, |replies|, script(replies).value);
      assert |replies + [o.reply]| <= k + 1;
      EndedRun(m, script, db, [], k);
      assert |replies| == k;
    }
  }

  /** A run stops short of its limit only where the script stops. */
  lemma {:induction false} EndedRun<C(!new)>(m: Machine<C>, script: Script<C>, db: Db, replies: seq<Reply>, limit: nat)
    requires |replies| <= limit
    ensures var (end, all) := Run(m, script, db, replies, limit); |all| == limit || script(all).None?
    decreases limit - |replies|
  {
    if |replies| < limit && script(replies).Some? {
      var o := m.step(db, |replies|, script(replies).value);
      EndedRun(m, script, Last(o), replies + [o.reply], limit);
    }
  }

  /** On a database where all the earlier calls are settled, starting over skips to the present. */
  lemma {:induction false} SettledCallsAreSkipped<C(!new)>(m: Machine<C>, script: Script<C>, replies: seq<Reply>,
                                                    db: Db, done: nat, limit: nat)
    requires done <= |replies| <= limit
    requires forall i | 0 <= i < |replies| :: Settled(m, script, replies, i, db)
    ensures Run(m, script, db, replies[..done], limit) == Run(m, script, db, replies, limit)
    decreases |replies| - done
  {
    if done == |replies| {
      assert replies[..done] == replies;
    } else {
      assert Settled(m, script, replies, done, db);
      assert replies[..done] + [replies[done]] == replies[..done + 1];
      SettledCallsAreSkipped(m, script, replies, db, done + 1, limit);
    }
  }

  /** The same for a run that crashes: in a settled call it leaves the database alone. */
  lemma {:induction false} SettledCrash<C(!new)>(m: Machine<C>, script: Script<C>, replies: seq<Reply>, db: Db,
                                          done: nat, limit: nat, c: Crash)
    requires Journals(m) && RestartsQuietly(m) && done <= |replies| <= limit && done <= c.call
    requires forall i | 0 <= i < |replies| :: Settled(m, script, replies, i, db)
    ensures CrashedRun(m, script, db, replies[..done], limit, c) ==
            if c.call < |replies| then db else CrashedRun(m, script, db, replies, limit, c)
    decreases |replies| - done
  {
    if done == |replies| {
      assert replies[..done] == replies;
    } else {
      assert Settled(m, script, replies, done, db);
      var call := script(replies[..done]).value;
      var o := m.step(db, done, call);
      if c.call == done {
        assert o.trace[if c.effects < |o.trace| then c.effects else |o.trace| - 1] in o.trace;
      } else {
        assert replies[..done] + [replies[done]] == replies[..done + 1];
        SettledCrash(m, script, replies, db, done + 1, limit, c);
      }
    }
  }

  lemma AllSettled<C(!new)>(m: Machine<C>, script: Script<C>, replies: seq<Reply>, db: Db)
    requires Journals(m) && Recorded(m, script, replies, db) && UnkeptRepeat(m, script, replies, db)
    ensures forall i | 0 <= i < |replies| :: Settled(m, script, replies, i, db)
  {
    forall i | 0 <= i < |replies| ensures Settled(m, script, replies, i, db) {
      if !Unkept(m, script, replies, i) {
        assert m.journaled(db, i, script(replies[..i]).value, replies[i]);
      }
    }
  }

  // ---------------------------------------------------------------------------------------------
  // Sufficiency
  // ---------------------------------------------------------------------------------------------

  /** A state the uninterrupted run goes through in its call number k. */
  ghost predicate Visited<C(!new)>(m: Machine<C>, script: Script<C>, db: Db, limit: nat, k: nat, t: Db)
  {
    var (at, replies) := Run(m, script, db, [], k);
    && k <= limit && |replies| == k
    && if Continues(script, replies, limit) then t in m.step(at, k, script(replies).value).trace else t == at
  }

  /** On a visited state every earlier call is settled. */
  lemma VisitedIsSettled<C(!new)>(m: Machine<C>, script: Script<C>, db: Db, limit: nat, k: nat, t: Db,
                           replies: seq<Reply>)
    requires Journals(m) && Resumable(m, script, db, limit) && Visited(m, script, db, limit, k, t)
    requires replies == Run(m, script, db, [], k).1
    ensures forall i | 0 <= i < |replies| :: Settled(m, script, replies, i, t)
  {
    var at := Run(m, script, db, [], k).0;
    RunRecorded(m, script, db, [], k);
    if Continues(script, replies, limit) {
      RecordedStep(m, script, replies, at);
    } else {
      LastRunUnkeptRepeat(m, script, db, limit, k);
    }
    AllSettled(m, script, replies, t);
  }

  /** From a visited state, a rerun ends like the uninterrupted run. */
  lemma VisitedRunsAlike<C(!new)>(m: Machine<C>, script: Script<C>, db: Db, limit: nat, k: nat, t: Db)
    requires Journals(m) && Resumable(m, script, db, limit) && Visited(m, script, db, limit, k, t)
    ensures Run(m, script, t, [], limit) == Run(m, script, db, [], limit)
  {
    var (at, replies) := Run(m, script, db, [], k);
    RunSplits(m, script, db, [], k, limit);
    VisitedIsSettled(m, script, db, limit, k, t, replies);
    assert replies[..0] == [];
    SettledCallsAreSkipped(m, script, replies, t, 0, limit);
    if Continues(script, replies, limit) {
      assert Resumes(m, at, k, script(replies).value);
    }
  }

  /** And a crash of that rerun leaves a visited state again. */
  lemma VisitedStatesAreClosed<C(!new)>(m: Machine<C>, script: Script<C>, db: Db, limit: nat, k: nat, t: Db, c: Crash)
    requires Journals(m) && RestartsQuietly(m) && Resumable(m, script, db, limit) && Visited(m, script, db, limit, k, t)
    ensures exists k' :: Visited(m, script, db, limit, k', CrashedRun(m, script, t, [], limit, c))
  {
    var (at, replies) := Run(m, script, db, [], k);
    var left := CrashedRun(m, script, t, [], limit, c);
    VisitedIsSettled(m, script, db, limit, k, t, replies);
    assert replies[..0] == [];
    SettledCrash(m, script, replies, t, 0, limit, c);
    if c.call < k || !Continues(script, replies, limit) {
      assert Visited(m, script, db, limit, k, left);
    } else {
      var call := script(replies).value;
      assert Resumes(m, at, k, call);
      if c.call == k {
        assert left in m.step(t, k, call).trace;
        assert Visited(m, script, db, limit, k, left);
      } else {
        RunSteps(m, script, db, k);
        CrashAhead(m, script, db, limit, k + 1, c);
      }
    }
  }

  /** A crash ahead of the present leaves a visited state. */
  lemma {:induction false} CrashAhead<C(!new)>(m: Machine<C>, script: Script<C>, db: Db, limit: nat, k: nat, c: Crash)
    requires k <= limit && k <= c.call && |Run(m, script, db, [], k).1| == k
    ensures var (at, replies) := Run(m, script, db, [], k);
            exists k' :: Visited(m, script, db, limit, k', CrashedRun(m, script, at, replies, limit, c))
    decreases limit - k
  {
    var (at, replies) := Run(m, script, db, [], k);
    var left := CrashedRun(m, script, at, replies, limit, c);
    if Continues(script, replies, limit) && c.call != k {
      RunSteps(m, script, db, k);
      CrashAhead(m, script, db, limit, k + 1, c);
    } else {
      assert Visited(m, script, db, limit, k, left);
    }
  }

  /** The failures of the whole run repeat in its last state. */
  lemma LastRunUnkeptRepeat<C(!new)>(m: Machine<C>, script: Script<C>, db: Db, limit: nat, k: nat)
    requires Journals(m) && Resumable(m, script, db, limit) && k <= limit
    requires |Run(m, script, db, [], k).1| == k
    ensures var (at, replies) := Run(m, script, db, [], k); UnkeptRepeat(m, script, replies, at)
  {
    if k > 0 {
      RunSteps(m, script, db, k - 1);
      var (at, replies) := Run(m, script, db, [], k);
      var (at0, replies0) := Run(m, script, db, [], k - 1);
      EndedRun(m, script, db, [], k - 1);
      var call := script(replies0).value;
      var o := m.step(at0, k - 1, call);
      assert Last(o) in o.trace;
      forall i | 0 <= i < |replies| && Unkept(m, script, replies, i) ensures Settled(m, script, replies, i, at) {
        assert replies[..i] == replies0[..i];
        if i < k - 1 {
          assert Settled(m, script, replies0, i, at);
        }
      }
    }
  }

  lemma {:induction false} HistoryStaysVisited<C(!new)>(m: Machine<C>, script: Script<C>, db: Db, limit: nat, k: nat,
                                                 t: Db, crashes: seq<Crash>)
    requires Journals(m) && RestartsQuietly(m) && Resumable(m, script, db, limit) && Visited(m, script, db, limit, k, t)
    ensures Run(m, script, History(m, script, t, limit, crashes), [], limit) == Run(m, script, db, [], limit)
    decreases |crashes|
  {
    if crashes == [] {
      VisitedRunsAlike(m, script, db, limit, k, t);
    } else {
      VisitedStatesAreClosed(m, script, db, limit, k, t, crashes[0]);
      var left := CrashedRun(m, script, t, [], limit, crashes[0]);
      var k' :| Visited(m, script, db, limit, k', left);
      HistoryStaysVisited(m, script, db, limit, k', left, crashes[1..]);
    }
  }

  /** Crash-resume refinement: a resumable script converges under any number of crashes. */
  lemma ResumableConverges<C(!new)>(m: Machine<C>, script: Script<C>, db: Db, limit: nat)
    requires Journals(m) && RestartsQuietly(m) && Resumable(m, script, db, limit)
    ensures Converges(m, script, db, limit)
  {
    assert Visited(m, script, db, limit, 0, db);
    forall crashes: seq<Crash>
      ensures Run(m, script, History(m, script, db, limit, crashes), [], limit) == Run(m, script, db, [], limit)
    {
      HistoryStaysVisited(m, script, db, limit, 0, db, crashes);
    }
  }

  /** Call by call: in every state of the uninterrupted run the call in progress resumes, and an
      earlier failure that was settled before the call is settled in each state of it. */
  ghost predicate ResumableByCall<C(!new)>(m: Machine<C>, script: Script<C>, db: Db, limit: nat)
  {
    forall k: nat | k < limit && Continues(script, Run(m, script, db, [], k).1, limit) &&
                    |Run(m, script, db, [], k).1| == k ::
      var (at, replies) := Run(m, script, db, [], k);
      && Resumes(m, at, k, script(replies).value)
      && (UnkeptRepeat(m, script, replies, at) ==>
            forall t | t in m.step(at, k, script(replies).value).trace :: UnkeptRepeat(m, script, replies, t))
  }

  /** The failures before call number k are settled before it. */
  lemma {:induction false} FailuresAreSettled<C(!new)>(m: Machine<C>, script: Script<C>, db: Db, limit: nat, k: nat)
    requires ResumableByCall(m, script, db, limit) && k <= limit && |Run(m, script, db, [], k).1| == k
    ensures UnkeptRepeat(m, script, Run(m, script, db, [], k).1, Run(m, script, db, [], k).0)
    decreases k
  {
    if k > 0 {
      RunSteps(m, script, db, k - 1);
      EndedRun(m, script, db, [], k - 1);
      var (at, replies) := Run(m, script, db, [], k - 1);
      FailuresAreSettled(m, script, db, limit, k - 1);
      assert Continues(script, replies, limit);
      var o := m.step(at, k - 1, script(replies).value);
      assert Last(o) in o.trace;
      OneMoreSettled(m, script, replies, at);
    }
  }

  lemma OneMoreSettled<C(!new)>(m: Machine<C>, script: Script<C>, replies: seq<Reply>, at: Db)
    requires script(replies).Some?
    requires var o := m.step(at, |replies|, script(replies).value);
             Last(o) in o.trace && UnkeptRepeat(m, script, replies, Last(o))
    requires Resumes(m, at, |replies|, script(replies).value)
    ensures var o := m.step(at, |replies|, script(replies).value);
            UnkeptRepeat(m, script, replies + [o.reply], Last(o))
  {
    var o := m.step(at, |replies|, script(replies).value);
    var all := replies + [o.reply];
    forall i | 0 <= i < |all| && Unkept(m, script, all, i) ensures Settled(m, script, all, i, Last(o)) {
      assert all[..i] == replies[..i];
      if i < |replies| {
        assert Settled(m, script, replies, i, Last(o));
      }
    }
  }

  /** Going call by call is enough. */
  lemma CallByCallIsResumable<C(!new)>(m: Machine<C>, script: Script<C>, db: Db, limit: nat)
    requires ResumableByCall(m, script, db, limit)
    ensures Resumable(m, script, db, limit)
  {
    forall k: nat | k < limit && Continues(script, Run(m, script, db, [], k).1, limit) &&
                    |Run(m, script, db, [], k).1| == k
      ensures var (at, replies) := Run(m, script, db, [], k);
              && Resumes(m, at, k, script(replies).value)
              && forall t | t in m.step(at, k, script(replies).value).trace :: UnkeptRepeat(m, script, replies, t)
    {
      FailuresAreSettled(m, script, db, limit, k);
    }
  }

  // ---------------------------------------------------------------------------------------------
  // Necessity
  // ---------------------------------------------------------------------------------------------

  /** The first call of a run that makes one: its answer is where the run says it is. */
  lemma FirstAnswer<C(!new)>(m: Machine<C>, script: Script<C>, db: Db, replies: seq<Reply>, limit: nat)
    requires |replies| < |Run(m, script, db, replies, limit).1|
    ensures Continues(script, replies, limit)
    ensures var o := m.step(db, |replies|, script(replies).value);
            && Run(m, script, db, replies, limit) == Run(m, script, Last(o), replies + [o.reply], limit)
            && Run(m, script, db, replies, limit).1[|replies|] == o.reply
  {
    var o := m.step(db, |replies|, script(replies).value);
    var whole := Run(m, script, Last(o), replies + [o.reply], limit);
    assert whole.1[..|replies| + 1][|replies|] == (replies + [o.reply])[|replies|];
  }

  /** A call answered again as it was, when its success is journaled and failures have no effect,
      leaves the database alone. */
  lemma SameAnswerNoEffect<C(!new)>(m: Machine<C>, script: Script<C>, replies: seq<Reply>, t: Db, i: nat)
    requires Journals(m) && FailsCleanlyOn(m, script, replies, t) && i < |replies|
    requires Recorded(m, script, replies, t) && script(replies[..i]).Some?
    requires m.step(t, i, script(replies[..i]).value).reply == replies[i]
    ensures Settled(m, script, replies, i, t)
  {
    if !Unkept(m, script, replies, i) {
      assert m.journaled(t, i, script(replies[..i]).value, replies[i]);
    }
  }

  /** When a restart on `t` gives the same answers, every earlier call left `t` as it was. */
  lemma {:induction false} SameAnswersMeanSettled<C(!new)>(m: Machine<C>, script: Script<C>, replies: seq<Reply>,
                                                    t: Db, done: nat, limit: nat)
    requires Journals(m) && FailsCleanlyOn(m, script, replies, t) && Recorded(m, script, replies, t)
    requires done <= |replies|
    requires replies <= Run(m, script, t, replies[..done], limit).1
    ensures forall i | done <= i < |replies| :: Settled(m, script, replies, i, t)
    ensures Run(m, script, t, replies[..done], limit) == Run(m, script, t, replies, limit)
    decreases |replies| - done
  {
    if done == |replies| {
      assert replies[..done] == replies;
    } else {
      FirstAnswer(m, script, t, replies[..done], limit);
      SameAnswerNoEffect(m, script, replies, t, done);
      assert replies[..done] + [replies[done]] == replies[..done + 1];
      SameAnswersMeanSettled(m, script, replies, t, done + 1, limit);
    }
  }

  /** A crash in call number k or later goes through the run's state before that call. */
  lemma {:induction false} CrashReaches<C(!new)>(m: Machine<C>, script: Script<C>, db: Db, replies: seq<Reply>,
                                          k: nat, limit: nat, c: Crash)
    requires |replies| <= k <= c.call && k <= limit
    requires |Run(m, script, db, replies, k).1| == k
    ensures var (at, upTo) := Run(m, script, db, replies, k);
            CrashedRun(m, script, db, replies, limit, c) == CrashedRun(m, script, at, upTo, limit, c)
    decreases k - |replies|
  {
    if |replies| < k {
      var o := m.step(db, |replies|, script(replies).value);
      CrashReaches(m, script, Last(o), replies + [o.reply], k, limit, c);
    }
  }

  /** Each state of the call after `replies` is where some crash of the prefix ending there leaves
      the database, so a converging prefix runs from it as from the start. */
  lemma EachStateIsACrash<C(!new)>(m: Machine<C>, script: Script<C>, db: Db, at: Db, replies: seq<Reply>, t: Db)
    requires Run(m, script, db, [], |replies|) == (at, replies) && script(replies).Some?
    requires t in m.step(at, |replies|, script(replies).value).trace
    requires Converges(m, script, db, |replies| + 1)
    ensures Run(m, script, t, [], |replies| + 1) == Run(m, script, db, [], |replies| + 1)
  {
    var k := |replies|;
    var trace := m.step(at, k, script(replies).value).trace;
    var e :| 0 <= e < |trace| && trace[e] == t;
    var c := Crash(k, e);
    CrashReaches(m, script, db, [], k, k + 1, c);
    assert CrashedRun(m, script, db, [], k + 1, c) == t;
    assert [c][1..] == [];
    assert History(m, script, db, k + 1, [c]) == History(m, script, t, k + 1, []) == t;
  }

  /** The last call of a run that makes one more call than `replies`. */
  lemma OneCallLeft<C(!new)>(m: Machine<C>, script: Script<C>, db: Db, replies: seq<Reply>)
    requires script(replies).Some?
    ensures var o := m.step(db, |replies|, script(replies).value);
            Run(m, script, db, replies, |replies| + 1) == (Last(o), replies + [o.reply])
  {
  }

  /** Restarted on `t`, the prefix answers as before: so the earlier calls were settled on `t`,
      and the last one ended alike. */
  lemma SameRunSameLastCall<C(!new)>(m: Machine<C>, script: Script<C>, at: Db, replies: seq<Reply>, t: Db)
    requires Journals(m) && FailsCleanlyOn(m, script, replies, t)
    requires script(replies).Some? && Recorded(m, script, replies, t)
    requires Run(m, script, t, [], |replies| + 1) == Run(m, script, at, replies, |replies| + 1)
    ensures var o, p := m.step(at, |replies|, script(replies).value), m.step(t, |replies|, script(replies).value);
            Last(p) == Last(o) && p.reply == o.reply
    ensures UnkeptRepeat(m, script, replies, t)
  {
    OneCallLeft(m, script, at, replies);
    OneCallLeft(m, script, t, replies);
    assert replies[..0] == [];
    SameAnswersMeanSettled(m, script, replies, t, 0, |replies| + 1);
    var last := Run(m, script, t, replies, |replies| + 1).1[|replies|];
    assert last == m.step(t, |replies|, script(replies).value).reply;
  }

  /** Convergence of the prefix that ends with the call after `replies`, read at one of its states. */
  lemma ConvergenceAtState<C(!new)>(m: Machine<C>, script: Script<C>, db: Db, at: Db, replies: seq<Reply>, t: Db)
    requires Journals(m) && FailsCleanlyOn(m, script, replies, t) && Converges(m, script, db, |replies| + 1)
    requires Run(m, script, db, [], |replies|) == (at, replies) && script(replies).Some?
    requires t in m.step(at, |replies|, script(replies).value).trace
    ensures var call := script(replies).value;
            var o, p := m.step(at, |replies|, call), m.step(t, |replies|, call);
            Last(p) == Last(o) && p.reply == o.reply
    ensures UnkeptRepeat(m, script, replies, t)
  {
    RunRecorded(m, script, db, [], |replies|);
    RecordedStep(m, script, replies, at);
    EachStateIsACrash(m, script, db, at, replies, t);
    RunSplits(m, script, db, [], |replies|, |replies| + 1);
    SameRunSameLastCall(m, script, at, replies, t);
  }

  /** The condition is also necessary: a script whose every prefix converges is resumable. */
  lemma ConvergingIsResumable<C(!new)>(m: Machine<C>, script: Script<C>, db: Db, limit: nat)
    requires Journals(m) && FailsCleanly(m, script, db, limit)
    requires forall n: nat | n <= limit :: Converges(m, script, db, n)
    ensures Resumable(m, script, db, limit)
  {
    forall k: nat | k < limit && Continues(script, Run(m, script, db, [], k).1, limit) &&
                    |Run(m, script, db, [], k).1| == k
      ensures var (at, replies) := Run(m, script, db, [], k);
              var call := script(replies).value;
              && Resumes(m, at, k, call)
              && forall t | t in m.step(at, k, call).trace :: UnkeptRepeat(m, script, replies, t)
    {
      var (at, replies) := Run(m, script, db, [], k);
      var o := m.step(at, k, script(replies).value);
      forall t | t in o.trace
        ensures Last(m.step(t, k, script(replies).value)) == Last(o)
        ensures m.step(t, k, script(replies).value).reply == o.reply
        ensures UnkeptRepeat(m, script, replies, t)
      {
        assert FailsCleanlyOn(m, script, replies, t);
        ConvergenceAtState(m, script, db, at, replies, t);
      }
    }
  }

  /** The exact condition, where failing calls have no effect: every prefix of the script converges
      under every history of crashes if and only if the uninterrupted run is resumable. */
  lemma CrashSafety<C(!new)>(m: Machine<C>, script: Script<C>, db: Db, limit: nat)
    requires Journals(m) && RestartsQuietly(m) && FailsCleanly(m, script, db, limit)
    ensures (forall n: nat | n <= limit :: Converges(m, script, db, n)) <==> Resumable(m, script, db, limit)
  {
    if Resumable(m, script, db, limit) {
      forall n: nat | n <= limit ensures Converges(m, script, db, n) {
        forall k: nat | k < n && Continues(script, Run(m, script, db, [], k).1, n) &&
                        |Run(m, script, db, [], k).1| == k
          ensures Continues(script, Run(m, script, db, [], k).1, limit)
        {
        }
        ResumableConverges(m, script, db, n);
      }
    }
    if forall n: nat | n <= limit :: Converges(m, script, db, n) {
      ConvergingIsResumable(m, script, db, limit);
    }
  }
}
