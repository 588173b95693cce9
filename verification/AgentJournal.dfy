/**
 Where journal entries come from, that they stay, and when the journal is invisible
 (src/lymaille/resource_module.rs, src/lymaille/store/write_journal.rs).
 */
module AgentJournal {
  import opened Wrappers
  import opened JsonValues
  import opened AgentWrites
  import opened AgentRecovery
  import opened AgentRecoveryCases
  import opened AgentBatchRecovery
  import opened AgentAttempts

  ghost predicate Extends(before: map<Key, Json>, after: map<Key, Json>)
  {
    forall k | k in before :: k in after && after[k] == before[k]
  }

  lemma {:induction false} AttemptKeepsJournal(s: Session, faults: nat -> Fault, script: Script<Call>, db: Db,
                                               replies: seq<Reply>, limit: nat, c: Crash)
    requires s.scope.Some?
    ensures Extends(db.journal, CrashedRun(MachineWith(s, faults), script, db, replies, limit, c).journal)
    decreases limit - |replies|
  {
    if |replies| < limit && script(replies).Some? {
      var o := ApplyWith(s, db, |replies|, script(replies).value, faults(|replies|));
      FaultyCall(s, db, |replies|, script(replies).value, faults(|replies|));
      CallKeepsJournal(s, db, |replies|, script(replies).value);
      assert Last(o) in o.trace;
      if |replies| == c.call {
        assert o.trace[if c.effects < |o.trace| then c.effects else |o.trace| - 1] in o.trace;
      } else {
        AttemptKeepsJournal(s, faults, script, Last(o), replies + [o.reply], limit, c);
      }
    }
  }

  /** No history of attempts loses or overwrites a journal entry. */
  lemma {:induction false} HistoryKeepsJournal(s: Session, db: Db, limit: nat, attempts: seq<Attempt>)
    requires s.scope.Some?
    ensures Extends(db.journal, AfterAll(s, db, limit, attempts).journal)
    decreases |attempts|
  {
    if attempts != [] {
      AttemptKeepsJournal(s, attempts[0].faults, attempts[0].script, db, [], limit, attempts[0].crash);
      HistoryKeepsJournal(s, After(s, db, limit, attempts[0]), limit, attempts[1..]);
    }
  }

  /** The place `c` in an attempt does not lie after `d`. */
  predicate NotAfter(c: Crash, d: Crash)
  {
    c.call < d.call || (c.call == d.call && c.effects <= d.effects)
  }

  /** Only the last state of a call may have a journal of its own. */
  lemma RecordComesLast(s: Session, db: Db, before: nat, call: Call, i: nat)
    requires i + 1 < |Apply(s, db, before, call).trace|
    ensures Apply(s, db, before, call).trace[i].journal == db.journal
  {
  }

  lemma CallExtends(s: Session, db: Db, before: nat, call: Call, fault: Fault, i: nat, j: nat)
    requires s.scope.Some? && i <= j < |ApplyWith(s, db, before, call, fault).trace|
    ensures var o := ApplyWith(s, db, before, call, fault); Extends(o.trace[i].journal, o.trace[j].journal)
  {
    if i < j {
      var o, p := Apply(s, db, before, call).trace, ApplyWith(s, db, before, call, fault).trace;
      FaultIsACrash(s, db, before, call, fault);
      RecordComesLast(s, db, before, call, i);
      CallKeepsJournal(s, db, before, call);
      assert p[i] == o[i] && p[j] == o[j] && o[j] in o;
    }
  }

  /** Within an attempt entries only come. */
  lemma {:induction false} AttemptExtends(s: Session, faults: nat -> Fault, script: Script<Call>, db: Db,
                                          replies: seq<Reply>, limit: nat, c: Crash, d: Crash)
    requires s.scope.Some? && |replies| <= c.call && NotAfter(c, d)
    ensures var m := MachineWith(s, faults);
            Extends(CrashedRun(m, script, db, replies, limit, c).journal,
                    CrashedRun(m, script, db, replies, limit, d).journal)
    decreases limit - |replies|
  {
    if |replies| < limit && script(replies).Some? {
      var call := script(replies).value;
      var o := ApplyWith(s, db, |replies|, call, faults(|replies|));
      var i := if c.effects < |o.trace| then c.effects else |o.trace| - 1;
      var j := if d.effects < |o.trace| then d.effects else |o.trace| - 1;
      if |replies| < c.call {
        AttemptExtends(s, faults, script, Last(o), replies + [o.reply], limit, c, d);
      } else if |replies| == d.call {
        CallExtends(s, db, |replies|, call, faults(|replies|), i, j);
      } else {
        CallExtends(s, db, |replies|, call, faults(|replies|), i, |o.trace| - 1);
        AttemptKeepsJournal(s, faults, script, Last(o), replies + [o.reply], limit, d);
      }
    }
  }

  /** An entry of any state the history goes through, in any attempt, stays to its end. */
  lemma EntriesAreForever(s: Session, db: Db, limit: nat, attempts: seq<Attempt>, p: nat, c: Crash)
    requires s.scope.Some? && p < |attempts| && NotAfter(c, attempts[p].crash)
    ensures var m, start := MachineWith(s, attempts[p].faults), Start(s, db, limit, attempts, p);
            Extends(CrashedRun(m, attempts[p].script, start, [], limit, c).journal,
                    AfterAll(s, db, limit, attempts).journal)
  {
    var start := Start(s, db, limit, attempts, p);
    var rest := attempts[p..];
    AttemptExtends(s, attempts[p].faults, attempts[p].script, start, [], limit, c, attempts[p].crash);
    assert attempts == attempts[..p] + rest && rest[0] == attempts[p];
    AfterAllSplits(s, db, limit, attempts[..p], rest);
    HistoryKeepsJournal(s, After(s, start, limit, attempts[p]), limit, rest[1..]);
  }

  /** Each of these answers is the entry under its call's key. */
  ghost predicate AnswersAreIn(s: Session, script: Script<Call>, replies: seq<Reply>, journal: map<Key, Json>)
    requires s.scope.Some?
  {
    forall i | 0 <= i < |replies| && replies[i].Ok? ::
      && script(replies[..i]).Some?
      && var key := Key(s.scope.value, script(replies[..i]).value);
         key in journal && journal[key] == replies[i].value
  }

  lemma RecordedIsIn(s: Session, faults: nat -> Fault, script: Script<Call>, replies: seq<Reply>, at: Db,
                     journal: map<Key, Json>)
    requires s.scope.Some? && Recorded(MachineWith(s, faults), script, replies, at) && Extends(at.journal, journal)
    ensures AnswersAreIn(s, script, replies, journal)
  {
    forall i | 0 <= i < |replies| && replies[i].Ok?
      ensures script(replies[..i]).Some?
      ensures var key := Key(s.scope.value, script(replies[..i]).value);
              key in journal && journal[key] == replies[i].value
    {
      assert Journaled(s, at, i, script(replies[..i]).value, replies[i]);
    }
  }

  /** Crashing before call number k leaves what the calls before it leave. */
  lemma {:induction false} CrashBeforeCall(m: Machine<Call>, script: Script<Call>, db: Db, replies: seq<Reply>,
                                           limit: nat, k: nat)
    requires Keeps(m) && |replies| <= k <= limit
    ensures CrashedRun(m, script, db, replies, limit, Crash(k, 0)) == Run(m, script, db, replies, k).0
    decreases limit - |replies|
  {
    if |replies| < k && script(replies).Some? {
      var o := m.step(db, |replies|, script(replies).value);
      CrashBeforeCall(m, script, Last(o), replies + [o.reply], limit, k);
    }
  }

  /** In every history, every call that completes successfully, in whichever attempt and whatever
      failed before it, answers the entry the journal holds under its key at the end: so an entry is
      what the first completed call with its key answered, what each later one answers, and it is
      never overwritten. */
  lemma EntriesAreAnswers(s: Session, db: Db, limit: nat, attempts: seq<Attempt>, p: nat, k: nat)
    requires s.scope.Some? && p < |attempts| && k <= limit && k <= attempts[p].crash.call
    ensures var m, start := MachineWith(s, attempts[p].faults), Start(s, db, limit, attempts, p);
            AnswersAreIn(s, attempts[p].script, Run(m, attempts[p].script, start, [], k).1,
                         AfterAll(s, db, limit, attempts).journal)
  {
    var m, start := MachineWith(s, attempts[p].faults), Start(s, db, limit, attempts, p);
    FaultyCallsKeep(s, attempts[p].faults);
    RunRecorded(m, attempts[p].script, start, [], k);
    CrashBeforeCall(m, attempts[p].script, start, [], limit, k);
    EntriesAreForever(s, db, limit, attempts, p, Crash(k, 0));
    var (at, replies) := Run(m, attempts[p].script, start, [], k);
    RecordedIsIn(s, attempts[p].faults, attempts[p].script, replies, at, AfterAll(s, db, limit, attempts).journal);
  }

  /** Call number k of the attempt from `db` has this key, and its write, there, answered `value`. */
  ghost predicate WritesEntry(s: Session, faults: nat -> Fault, script: Script<Call>, db: Db, replies: seq<Reply>,
                              limit: nat, k: nat, key: Key, value: Json)
    requires s.scope.Some?
  {
    var (at, done) := Run(MachineWith(s, faults), script, db, replies, k);
    && |done| == k && Continues(script, done, limit) && key == Key(s.scope.value, script(done).value)
    && Fresh(s, at, k, script(done).value)
    && var w := Write(s, Admit(s, k, script(done).value).value, at.tables[key.call.resource], script(done).value);
       w.Ok? && w.value.1 == value
  }

  lemma {:induction false} AttemptWritesEntries(s: Session, faults: nat -> Fault, script: Script<Call>, db: Db,
                                                replies: seq<Reply>, limit: nat, c: Crash, key: Key)
    requires s.scope.Some? && |replies| <= c.call && key !in db.journal
    requires key in CrashedRun(MachineWith(s, faults), script, db, replies, limit, c).journal
    ensures exists k | |replies| <= k <= c.call ::
              WritesEntry(s, faults, script, db, replies, limit, k, key,
                          CrashedRun(MachineWith(s, faults), script, db, replies, limit, c).journal[key])
    decreases limit - |replies|
  {
    var left := CrashedRun(MachineWith(s, faults), script, db, replies, limit, c);
    if |replies| < limit && script(replies).Some? {
      var call := script(replies).value;
      var o := ApplyWith(s, db, |replies|, call, faults(|replies|));
      FaultyCall(s, db, |replies|, call, faults(|replies|));
      var here := if |replies| == c.call then left else Last(o);
      assert here in o.trace;
      CallAddsOwnEntry(s, db, |replies|, call, here);
      if key in here.journal {
        if |replies| < c.call {
          AttemptKeepsJournal(s, faults, script, Last(o), replies + [o.reply], limit, c);
        }
        assert WritesEntry(s, faults, script, db, replies, limit, |replies|, key, left.journal[key]);
      } else {
        AttemptWritesEntries(s, faults, script, Last(o), replies + [o.reply], limit, c, key);
        var k :| |replies| + 1 <= k <= c.call &&
          WritesEntry(s, faults, script, Last(o), replies + [o.reply], limit, k, key, left.journal[key]);
        assert WritesEntry(s, faults, script, db, replies, limit, k, key, left.journal[key]);
      }
    }
  }

  /** An attempt of the history, not after its crash, has a call whose write gave the entry. */
  ghost predicate Written(s: Session, db: Db, limit: nat, attempts: seq<Attempt>, key: Key, value: Json)
    requires s.scope.Some?
  {
    exists p, k | 0 <= p < |attempts| && 0 <= k <= attempts[p].crash.call ::
      WritesEntry(s, attempts[p].faults, attempts[p].script, Start(s, db, limit, attempts, p), [], limit, k, key, value)
  }

  lemma WrittenEarlier(s: Session, db: Db, limit: nat, attempts: seq<Attempt>, key: Key, value: Json)
    requires s.scope.Some? && attempts != []
    requires Written(s, db, limit, attempts[..|attempts| - 1], key, value)
    ensures Written(s, db, limit, attempts, key, value)
  {
    var init := attempts[..|attempts| - 1];
    var p, k :| 0 <= p < |init| && 0 <= k <= init[p].crash.call &&
      WritesEntry(s, init[p].faults, init[p].script, Start(s, db, limit, init, p), [], limit, k, key, value);
    assert init[..p] == attempts[..p] && init[p] == attempts[p];
    assert WritesEntry(s, attempts[p].faults, attempts[p].script, Start(s, db, limit, attempts, p), [], limit, k, key,
                       value);
  }

  lemma WrittenLast(s: Session, db: Db, limit: nat, attempts: seq<Attempt>, key: Key)
    requires s.scope.Some? && attempts != []
    requires key !in Start(s, db, limit, attempts, |attempts| - 1).journal
    requires key in AfterAll(s, db, limit, attempts).journal
    ensures Written(s, db, limit, attempts, key, AfterAll(s, db, limit, attempts).journal[key])
  {
    var n := |attempts| - 1;
    AfterAllEnds(s, db, limit, attempts);
    AttemptWritesEntries(s, attempts[n].faults, attempts[n].script, Start(s, db, limit, attempts, n), [], limit,
                         attempts[n].crash, key);
  }

  /** Every entry a history makes, that of a call that crashed before it could answer included, holds
      what the write of a call with its key gave, in one of the attempts and not after its crash. */
  lemma {:induction false} EntriesAreWrites(s: Session, db: Db, limit: nat, attempts: seq<Attempt>, key: Key)
    requires s.scope.Some? && key !in db.journal
    requires key in AfterAll(s, db, limit, attempts).journal
    ensures Written(s, db, limit, attempts, key, AfterAll(s, db, limit, attempts).journal[key])
    decreases |attempts|
  {
    var n := |attempts| - 1;
    var before := Start(s, db, limit, attempts, n);
    if key in before.journal {
      AfterAllEnds(s, db, limit, attempts);
      AttemptKeepsJournal(s, attempts[n].faults, attempts[n].script, before, [], limit, attempts[n].crash);
      EntriesAreWrites(s, db, limit, attempts[..n], key);
      WrittenEarlier(s, db, limit, attempts, key, before.journal[key]);
    } else {
      WrittenLast(s, db, limit, attempts, key);
    }
  }

  /** The calls an interactive session makes in this script are pairwise distinct, succeed with
      answers a journal would hold, and are not journaled yet. */
  ghost predicate DistinctSuccesses(s: Session, script: Script<Call>, journal: map<Key, Json>, all: seq<Reply>,
                                    from: nat)
    requires s.scope.Some?
  {
    && (forall i | from <= i < |all| ::
          && all[i].Ok? && !TooLarge(s.env, all[i].value)
          && script(all[..i]).Some? && Key(s.scope.value, script(all[..i]).value) !in journal)
    && (forall i, j | from <= i < j < |all| :: script(all[..i]) != script(all[..j]))
  }

  /** The answers of the interactive session from `plain` on. */
  function PlainReplies(s: Session, script: Script<Call>, plain: Db, replies: seq<Reply>, limit: nat): seq<Reply>
  {
    Run(MachineOf(s.(scope := None)), script, plain, replies, limit).1
  }

  /** One call more leaves the two sessions in step, and the later calls still distinct. */
  lemma InvisibleStep(s: Session, script: Script<Call>, batch: Db, plain: Db, replies: seq<Reply>, limit: nat)
    requires s.scope.Some? && batch.tables == plain.tables && Continues(script, replies, limit)
    requires DistinctSuccesses(s, script, batch.journal, PlainReplies(s, script, plain, replies, limit), |replies|)
    ensures var b := Apply(s, batch, |replies|, script(replies).value);
            var o := Apply(s.(scope := None), plain, |replies|, script(replies).value);
            && b.reply == o.reply && Last(b).tables == Last(o).tables && Last(o).journal == plain.journal
            && PlainReplies(s, script, plain, replies, limit) ==
               PlainReplies(s, script, Last(o), replies + [o.reply], limit)
            && DistinctSuccesses(s, script, Last(b).journal,
                                 PlainReplies(s, script, Last(o), replies + [o.reply], limit), |replies| + 1)
  {
    var call := script(replies).value;
    var o := Apply(s.(scope := None), plain, |replies|, call);
    var all := PlainReplies(s, script, plain, replies, limit);
    FirstAnswer(MachineOf(s.(scope := None)), script, plain, replies, limit);
    assert all[..|replies|] == replies && all[|replies|] == o.reply;
    CallIsAsPlain(s, batch, plain, |replies|, call);
    LaterCallsStayDistinct(s, script, batch.journal, Last(Apply(s, batch, |replies|, call)).journal, all, |replies|);
  }

  /** The journal is invisible to a script whose calls are pairwise distinct: the batch step leaves
      the tables and gives the answers an interactive session would. Equal calls are what it
      changes: they collapse into one. */
  lemma {:induction false} JournalIsInvisible(s: Session, script: Script<Call>, batch: Db, plain: Db,
                                              replies: seq<Reply>, limit: nat)
    requires s.scope.Some? && batch.tables == plain.tables
    requires DistinctSuccesses(s, script, batch.journal, PlainReplies(s, script, plain, replies, limit), |replies|)
    ensures var b, p := Run(MachineOf(s), script, batch, replies, limit),
                        Run(MachineOf(s.(scope := None)), script, plain, replies, limit);
            b.0.tables == p.0.tables && b.1 == p.1 && p.0.journal == plain.journal
    decreases limit - |replies|
  {
    if Continues(script, replies, limit) {
      InvisibleStep(s, script, batch, plain, replies, limit);
      var b := Apply(s, batch, |replies|, script(replies).value);
      var o := Apply(s.(scope := None), plain, |replies|, script(replies).value);
      JournalIsInvisible(s, script, Last(b), Last(o), replies + [o.reply], limit);
    }
  }

  lemma LaterCallsStayDistinct(s: Session, script: Script<Call>, before: map<Key, Json>, after: map<Key, Json>,
                               all: seq<Reply>, from: nat)
    requires s.scope.Some? && from < |all| && DistinctSuccesses(s, script, before, all, from)
    requires after.Keys == before.Keys + {Key(s.scope.value, script(all[..from]).value)}
    ensures DistinctSuccesses(s, script, after, all, from + 1)
  {
    forall i | from + 1 <= i < |all| ensures Key(s.scope.value, script(all[..i]).value) !in after {
      assert script(all[..from]) != script(all[..i]);
    }
  }

  /** A call that would succeed without a journal, and is not in it, succeeds alike with it. */
  lemma CallIsAsPlain(s: Session, batch: Db, plain: Db, before: nat, call: Call)
    requires s.scope.Some? && batch.tables == plain.tables
    requires Key(s.scope.value, call) !in batch.journal
    requires var r := Apply(s.(scope := None), plain, before, call).reply; r.Ok? && !TooLarge(s.env, r.value)
    ensures var b, p := Apply(s, batch, before, call), Apply(s.(scope := None), plain, before, call);
            && b.reply == p.reply && Last(b).tables == Last(p).tables && Last(p).journal == plain.journal
            && Last(b).journal == batch.journal[Key(s.scope.value, call) := p.reply.value]
  {
    var a := Admit(s, before, call).value;
    assert Admit(s.(scope := None), before, call) == Admit(s, before, call);
    var t := batch.tables[call.resource];
    assert Write(s, a, t, call) == Write(s.(scope := None), a, t, call);
  }
}
