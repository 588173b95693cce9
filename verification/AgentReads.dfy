/**
 Scripts that read between their writes: the `get` and `list` of the agent module
 (src/lymaille/resource_module.rs). A read charges nothing and is not journaled, so a rerun asks
 again and may be answered otherwise.
 */
module AgentReads {
  import opened Wrappers
  import opened JsonValues
  import opened Rbac
  import opened RestCore
  import opened Listing
  import opened AgentWrites
  import opened AgentRecovery
  import opened AgentRecoveryCases
  import opened AgentBatchRecovery
  import opened AgentAttempts
  import opened AgentForeseeable

  /** A negative page or size is an absent one. */
  datatype Query =
    | GetRow(resource: string, id: i64)
    | ListRows(resource: string, filter: string, page: i64, perPage: i64)

  datatype Act = Issue(call: Call) | Ask(query: Query)

  /** An act and how many calls were charged before it. */
  type Counted = (nat, Act)

  // ---------------------------------------------------------------------------------------------
  // Answers
  // ---------------------------------------------------------------------------------------------

  /** A count as serde writes it; no table has rows enough to leave the range. */
  function Count(n: nat): Json
  {
    if n <= I64_MAX then Int(n) else Big(Min(n, U64_MAX))
  }

  function PageJson(p: Paged): Json
  {
    Obj(map[
      "items" := Arr(seq(|p.items|, i requires 0 <= i < |p.items| => Obj(p.items[i]))),
      "page" := Count(p.page),
      "per_page" := Count(p.perPage),
      "total_items" := Count(p.totalItems),
      "total_pages" := Count(p.totalPages)])
  }

  function AnswerFrom(s: Session, user: UserId, e: Entity, t: Table, q: Query): Reply
  {
    match q
    case GetRow(_, id) =>
      (match Get(s.env.members, e, user, t, id)
       case Err(error) => Err(FromRest(error))
       case Ok(row) => Ok(Obj(row)))
    case ListRows(_, filter, page, perPage) =>
      match AgentList(s.env.members, e, user, t, page, perPage, filter)
      case Err(error) => Err(FromRest(error))
      case Ok(paged) => Ok(PageJson(paged))
  }

  /** The principal, the registry, the range of the id, then the table. */
  function Answer(s: Session, db: Db, q: Query): Reply
  {
    match Principal(s)
    case Err(f) => Err(f)
    case Ok(user) =>
      if q.resource !in s.env.registry then Err(UnknownResource(q.resource))
      else if q.GetRow? && !InI32(q.id) then Err(Internal)
      else if q.resource !in db.tables then Err(Internal)
      else AnswerFrom(s, user, s.env.registry[q.resource].entity, db.tables[q.resource], q)
  }

  /** The session has an account and its admin membership could be read. */
  predicate Known(s: Session)
  {
    s.subject in s.env.accounts && s.env.members(s.env.accounts[s.subject], "admin").Ok?
  }

  /** `get` answers the row of that key to an account that may read it, and nothing else. */
  lemma GetAnswersTheRow(s: Session, db: Db, resource: string, id: i64, row: Row)
    requires DbOk(s, db)
    ensures Answer(s, db, GetRow(resource, id)) == Ok(Obj(row)) <==>
            && Known(s) && resource in s.env.registry && resource in db.tables && -0x8000_0000 <= id <= 0x7FFF_FFFF
            && var e := s.env.registry[resource].entity;
               && row in db.tables[resource].rows && row[e.pk] == Int(id)
               && CanRead(s.env.members, e.access, s.env.accounts[s.subject], row) == Ok(true)
  {
    if Known(s) && resource in s.env.registry && resource in db.tables && InI32(id) {
      GetFinds(s.env.members, s.env.registry[resource].entity, s.env.accounts[s.subject], db.tables[resource], id, row);
    }
  }

  /** `list` answers the page, under its five names. */
  lemma ListAnswersThePage(s: Session, db: Db, resource: string, filter: string, page: i64, perPage: i64)
    requires Known(s) && resource in s.env.registry && resource in db.tables
    ensures var e, user := s.env.registry[resource].entity, s.env.accounts[s.subject];
            var r := AgentList(s.env.members, e, user, db.tables[resource], page, perPage, filter);
            var answer := Answer(s, db, ListRows(resource, filter, page, perPage));
            && (answer.Ok? <==> r.Ok?) && (r == Err(RestForbidden) ==> answer == Err(Denied))
            && (r.Ok? ==>
                  && answer.value.Obj?
                  && answer.value.fields.Keys == {"items", "page", "per_page", "total_items", "total_pages"}
                  && answer.value.fields["items"].Arr? && |answer.value.fields["items"].items| == |r.value.items|
                  && (forall i | 0 <= i < |r.value.items| ::
                        answer.value.fields["items"].items[i] == Obj(r.value.items[i]))
                  && (r.value.page <= I64_MAX ==> answer.value.fields["page"] == Int(r.value.page))
                  && (r.value.perPage <= I64_MAX ==> answer.value.fields["per_page"] == Int(r.value.perPage))
                  && (r.value.totalItems <= I64_MAX ==> answer.value.fields["total_items"] == Int(r.value.totalItems))
                  && (r.value.totalPages <= I64_MAX ==> answer.value.fields["total_pages"] == Int(r.value.totalPages)))
  {
  }

  // ---------------------------------------------------------------------------------------------
  // The machine
  // ---------------------------------------------------------------------------------------------

  predicate Charges(script: Script<Act>, replies: seq<Reply>)
  {
    script(replies).Some? && script(replies).value.Issue?
  }

  /** How many calls the script has had charged. */
  function Writes(script: Script<Act>, replies: seq<Reply>): nat
    decreases |replies|
  {
    if |replies| == 0 then 0
    else
      var before := replies[..|replies| - 1];
      Writes(script, before) + if Charges(script, before) then 1 else 0
  }

  function Numbered(script: Script<Act>): Script<Counted>
  {
    (replies: seq<Reply>) =>
      if script(replies).None? then None else Some((Writes(script, replies), script(replies).value))
  }

  function Perform(s: Session, db: Db, a: Counted): Outcome
  {
    match a.1
    case Issue(call) => Apply(s, db, a.0, call)
    case Ask(query) => Passage([db], Answer(s, db, query))
  }

  /** Calls and reads as a machine of `AgentRecovery`. */
  function MachineOfActs(s: Session): Machine<Counted>
  {
    Machine((db: Db, i: nat, a: Counted) => Perform(s, db, a),
            (db: Db, i: nat, a: Counted, reply: Reply) => a.1.Issue? && Journaled(s, db, a.0, a.1.call, reply),
            (a: Counted) => a.1.Ask?)
  }

  lemma PerformKeepsJournal(s: Session, db: Db, a: Counted, d: Counted, r: Reply, t: Db)
    requires s.scope.Some? && a.1.Issue? && Journaled(s, db, a.0, a.1.call, r) && t in Perform(s, db, d).trace
    ensures Journaled(s, t, a.0, a.1.call, r)
  {
    if d.1.Issue? {
      CallKeepsJournal(s, db, d.0, d.1.call);
    }
  }

  /** Calls and reads obey the laws of the journal; a read changes nothing and leaves no entry. */
  lemma ActsJournal(s: Session)
    requires s.scope.Some?
    ensures Journals(MachineOfActs(s))
  {
    var m := MachineOfActs(s);
    forall db, i, a, r, j, d, t | m.journaled(db, i, a, r) && t in m.step(db, j, d).trace
      ensures m.journaled(t, i, a, r)
    {
      PerformKeepsJournal(s, db, a, d, r, t);
    }
    forall db, i, a | !m.looks(a) && m.step(db, i, a).reply.Ok?
      ensures m.journaled(Last(m.step(db, i, a)), i, a, m.step(db, i, a).reply)
    {
      CallKeepsJournal(s, db, a.0, a.1.call);
    }
    forall db, i, a, r | m.journaled(db, i, a, r) ensures m.step(db, i, a) == Passage([db], r) {
      JournaledCallReplays(s, db, a.0, a.1.call);
    }
  }

  lemma ActsRestartQuietly(s: Session)
    requires s.scope.Some?
    ensures RestartsQuietly(MachineOfActs(s))
  {
    var m := MachineOfActs(s);
    forall db, i, a, t | Last(m.step(db, i, a)) == db && t in m.step(db, i, a).trace ensures t == db {
      if a.1.Issue? {
        NoNetEffectNoEffect(s, db, a.0, a.1.call);
      }
    }
    forall db, i, a, t, u |
      t in m.step(db, i, a).trace && Last(m.step(t, i, a)) == Last(m.step(db, i, a)) && u in m.step(t, i, a).trace
      ensures u in m.step(db, i, a).trace
    {
      if a.1.Issue? {
        RestartVisitsNothingNew(s, db, a.0, a.1.call, t);
      }
    }
  }

  // ---------------------------------------------------------------------------------------------
  // The exact condition
  // ---------------------------------------------------------------------------------------------

  /** Issued again on `t`, no earlier call would write an answer too large for the journal. */
  predicate EarlierActsFit(s: Session, script: Script<Act>, replies: seq<Reply>, t: Db)
  {
    forall i | 0 <= i < |replies| && Charges(script, replies[..i]) ::
      !Overflows(s, t, Writes(script, replies[..i]), script(replies[..i]).value.call)
  }

  /** Nor in any state the uninterrupted run goes through. */
  ghost predicate ActsFit(s: Session, script: Script<Act>, db: Db, limit: nat)
  {
    var m, acts := MachineOfActs(s), Numbered(script);
    forall k: nat | k < limit && Continues(acts, Run(m, acts, db, [], k).1, limit) &&
                    |Run(m, acts, db, [], k).1| == k ::
      var (at, replies) := Run(m, acts, db, [], k);
      forall t | t in Perform(s, at, acts(replies).value).trace :: EarlierActsFit(s, script, replies, t)
  }

  lemma EarlierActsAreClean(s: Session, script: Script<Act>, replies: seq<Reply>, t: Db)
    requires s.scope.Some? && EarlierActsFit(s, script, replies, t)
    ensures FailsCleanlyOn(MachineOfActs(s), Numbered(script), replies, t)
  {
    forall i | 0 <= i < |replies| && script(replies[..i]).Some?
      ensures var o := Perform(s, t, (Writes(script, replies[..i]), script(replies[..i]).value));
              o.reply.Err? ==> o.trace == [t]
    {
      var n, act := Writes(script, replies[..i]), script(replies[..i]).value;
      if act.Issue? && Apply(s, t, n, act.call).reply.Err? {
        OnlyOversizedFailsDirty(s, t, n, act.call);
      }
    }
  }

  /** The exact condition for scripts that read: where answers fit, every prefix of the script
      converges under every history of crashes if and only if, in every state the uninterrupted run
      goes through, the act in progress resumes and everything unjournaled before it, each failure and
      each read, is answered as it was. */
  lemma ReadingCrashSafety(s: Session, script: Script<Act>, db: Db, limit: nat)
    requires s.scope.Some? && ActsFit(s, script, db, limit)
    ensures (forall n: nat | n <= limit :: Converges(MachineOfActs(s), Numbered(script), db, n)) <==>
            Resumable(MachineOfActs(s), Numbered(script), db, limit)
  {
    ActsJournal(s);
    ActsRestartQuietly(s);
    forall replies, t | EarlierActsFit(s, script, replies, t)
      ensures FailsCleanlyOn(MachineOfActs(s), Numbered(script), replies, t)
    {
      EarlierActsAreClean(s, script, replies, t);
    }
    CrashSafety(MachineOfActs(s), Numbered(script), db, limit);
  }

  // ---------------------------------------------------------------------------------------------
  // The cap
  // ---------------------------------------------------------------------------------------------

  /** Refusals by the cap fall exactly on the calls that come after 100 others. */
  predicate CapCounts(script: Script<Act>, replies: seq<Reply>)
  {
    forall i | 0 <= i < |replies| ::
      replies[i] == Err(WriteLimit) <==>
      Charges(script, replies[..i]) && Writes(script, replies[..i]) >= MAX_WRITES_PER_RUN
  }

  lemma OneMoreCounts(s: Session, script: Script<Act>, db: Db, replies: seq<Reply>)
    requires CapCounts(script, replies) && script(replies).Some?
    ensures CapCounts(script, replies + [Perform(s, db, Numbered(script)(replies).value).reply])
  {
    var all := replies + [Perform(s, db, Numbered(script)(replies).value).reply];
    assert all[..|replies|] == replies && forall i | 0 <= i < |replies| :: all[..i] == replies[..i];
  }

  /** Reads are free: in every run, whatever its reads, the cap refuses exactly those. */
  lemma {:induction false} ReadsAreFree(s: Session, script: Script<Act>, db: Db, replies: seq<Reply>, limit: nat)
    requires CapCounts(script, replies)
    ensures CapCounts(script, Run(MachineOfActs(s), Numbered(script), db, replies, limit).1)
    decreases limit - |replies|
  {
    if |replies| < limit && script(replies).Some? {
      OneMoreCounts(s, script, db, replies);
      var o := Perform(s, db, Numbered(script)(replies).value);
      ReadsAreFree(s, script, Last(o), replies + [o.reply], limit);
    }
  }

  // ---------------------------------------------------------------------------------------------
  // Batches told safe before they run
  // ---------------------------------------------------------------------------------------------

  /** After `replies`, the script makes no call on this resource, whatever the answers. */
  ghost predicate NoMoreWrites(script: Script<Act>, replies: seq<Reply>, resource: string)
  {
    forall later | replies <= later && Charges(script, later) :: script(later).value.call.resource != resource
  }

  /** The act after `replies` is a foreseen call, or reads what is not written any more. */
  ghost predicate ForeseenAct(s: Session, script: Script<Act>, start: Db, replies: seq<Reply>)
    requires script(replies).Some?
  {
    match script(replies).value
    case Issue(call) => ForeseenCall(s, start, Writes(script, replies), call)
    case Ask(query) => NoMoreWrites(script, replies, query.resource)
  }

  /** Whatever the answers, the script only does such things. */
  ghost predicate ForeseeableActs(s: Session, script: Script<Act>, start: Db)
  {
    forall replies: seq<Reply> | script(replies).Some? :: ForeseenAct(s, script, start, replies)
  }

  /** A call leaves the other tables alone, and their reads. */
  lemma OtherReadsStand(s: Session, db: Db, before: nat, call: Call, t: Db, q: Query)
    requires t in Apply(s, db, before, call).trace && call.resource != q.resource
    ensures Answer(s, t, q) == Answer(s, db, q)
  {
    if t.tables != db.tables {
      CallReplacesTable(s, db, before, call, t);
    }
  }

  lemma {:induction false} RunOfActsIsSteady(s: Session, script: Script<Act>, start: Db, db: Db, replies: seq<Reply>,
                                             limit: nat)
    requires s.scope.Some? && DbOk(s, start) && DbOk(s, db) && DbSteady(s, start, db)
    requires ForeseeableActs(s, script, start)
    ensures DbOk(s, Run(MachineOfActs(s), Numbered(script), db, replies, limit).0)
    ensures DbSteady(s, start, Run(MachineOfActs(s), Numbered(script), db, replies, limit).0)
    decreases limit - |replies|
  {
    if |replies| < limit && script(replies).Some? {
      var a := Numbered(script)(replies).value;
      var o := Perform(s, db, a);
      assert Last(o) in o.trace;
      if a.1.Issue? {
        CallIsSteady(s, start, db, a.0, a.1.call, Last(o));
        DbSteadyOnwards(s, start, db, Last(o));
      }
      RunOfActsIsSteady(s, script, start, Last(o), replies + [o.reply], limit);
    }
  }

  lemma CallResumesAsAct(s: Session, db: Db, i: nat, before: nat, call: Call)
    requires Resumes(MachineOf(s), db, before, call)
    ensures Resumes(MachineOfActs(s), db, i, (before, Issue(call)))
  {
    var o := Apply(s, db, before, call);
    forall t | t in o.trace
      ensures Last(Apply(s, t, before, call)) == Last(o) && Apply(s, t, before, call).reply == o.reply
    {
      assert MachineOf(s).step(t, before, call) == Apply(s, t, before, call);
    }
  }

  lemma ActResumes(s: Session, script: Script<Act>, start: Db, db: Db, replies: seq<Reply>)
    requires s.scope.Some? && DbOk(s, start) && DbOk(s, db) && DbSteady(s, start, db)
    requires script(replies).Some? && ForeseenAct(s, script, start, replies)
    ensures Resumes(MachineOfActs(s), db, |replies|, Numbered(script)(replies).value)
  {
    match script(replies).value
    case Issue(call) =>
      ForeseenResumes(s, start, db, Writes(script, replies), call);
      CallResumesAsAct(s, db, |replies|, Writes(script, replies), call);
    case Ask(query) =>
      assert Perform(s, db, Numbered(script)(replies).value).trace == [db];
  }

  /** What is unjournaled, and was answered on `db` as in the run, is so in each state of the next
      act. */
  lemma UnkeptStands(s: Session, script: Script<Act>, start: Db, db: Db, replies: seq<Reply>, i: nat, t: Db)
    requires s.scope.Some? && DbOk(s, start) && DbOk(s, db) && DbSteady(s, start, db)
    requires ForeseeableActs(s, script, start) && script(replies).Some? && i < |replies|
    requires t in Perform(s, db, Numbered(script)(replies).value).trace
    requires Unkept(MachineOfActs(s), Numbered(script), replies, i)
    requires Settled(MachineOfActs(s), Numbered(script), replies, i, db)
    ensures Settled(MachineOfActs(s), Numbered(script), replies, i, t)
  {
    var a, b := Numbered(script)(replies[..i]).value, Numbered(script)(replies).value;
    if b.1.Issue? {
      if a.1.Ask? {
        assert replies[..i] <= replies;
        OtherReadsStand(s, db, b.0, b.1.call, t, a.1.query);
      } else {
        ForeseenFailureStands(s, start, db, a.0, a.1.call, b.0, b.1.call, t);
      }
    }
  }

  /** A script whose every call is foreseen, and that never again writes a resource it has read,
      converges under any history of crashes, its reads' answers included. */
  lemma ForeseeableActsConverge(s: Session, script: Script<Act>, db: Db, limit: nat)
    requires s.scope.Some? && DbOk(s, db) && ForeseeableActs(s, script, db)
    ensures Converges(MachineOfActs(s), Numbered(script), db, limit)
  {
    var m, acts := MachineOfActs(s), Numbered(script);
    forall k: nat | k < limit && Continues(acts, Run(m, acts, db, [], k).1, limit) &&
                    |Run(m, acts, db, [], k).1| == k
      ensures var (at, replies) := Run(m, acts, db, [], k);
              && Resumes(m, at, k, acts(replies).value)
              && (UnkeptRepeat(m, acts, replies, at) ==>
                    forall t | t in m.step(at, k, acts(replies).value).trace :: UnkeptRepeat(m, acts, replies, t))
    {
      var (at, replies) := Run(m, acts, db, [], k);
      SameTablesSteady(s, db, db);
      RunOfActsIsSteady(s, script, db, db, [], k);
      ActResumes(s, script, db, at, replies);
      if UnkeptRepeat(m, acts, replies, at) {
        forall t, i | t in Perform(s, at, acts(replies).value).trace && 0 <= i < k && Unkept(m, acts, replies, i)
          ensures Settled(m, acts, replies, i, t)
        {
          assert Settled(m, acts, replies, i, at);
          UnkeptStands(s, script, db, at, replies, i, t);
        }
      }
    }
    ActsJournal(s);
    ActsRestartQuietly(s);
    CallByCallIsResumable(m, acts, db, limit);
    ResumableConverges(m, acts, db, limit);
  }

  // ---------------------------------------------------------------------------------------------
  // Attempts that read
  // ---------------------------------------------------------------------------------------------

  /** An attempt of a script that reads: query `faults(n)` of call number n fails, and the reads at
      the positions `failing`. */
  datatype Reading = Reading(script: Script<Act>, crash: Crash, faults: nat -> Fault, failing: nat -> bool)

  function PerformWith(s: Session, faults: nat -> Fault, failing: nat -> bool, db: Db, i: nat, a: Counted): Outcome
  {
    match a.1
    case Issue(call) => ApplyWith(s, db, a.0, call, faults(a.0))
    case Ask(query) => Passage([db], if failing(i) then Err(Internal) else Answer(s, db, query))
  }

  function MachineOfReading(s: Session, faults: nat -> Fault, failing: nat -> bool): Machine<Counted>
  {
    MachineOfActs(s).(step := (db: Db, i: nat, a: Counted) => PerformWith(s, faults, failing, db, i, a))
  }

  function AfterReading(s: Session, db: Db, limit: nat, r: Reading): Db
  {
    CrashedRun(MachineOfReading(s, r.faults, r.failing), Numbered(r.script), db, [], limit, r.crash)
  }

  function AfterReadings(s: Session, db: Db, limit: nat, readings: seq<Reading>): Db
    decreases |readings|
  {
    if |readings| == 0 then db else AfterReadings(s, AfterReading(s, db, limit, readings[0]), limit, readings[1..])
  }

  /** The call number `n` of the run that stands at `db` after `replies`. */
  function CallNumber(m: Machine<Counted>, script: Script<Act>, db: Db, replies: seq<Reply>, limit: nat, n: nat)
    : Option<Call>
    decreases limit - |replies|
  {
    if |replies| >= limit || script(replies).None? then None
    else if Charges(script, replies) && Writes(script, replies) == n then Some(script(replies).value.call)
    else
      var o := m.step(db, |replies|, Numbered(script)(replies).value);
      CallNumber(m, script, Last(o), replies + [o.reply], limit, n)
  }

  /** The calls of that run, without its reads. */
  function Calls(m: Machine<Counted>, script: Script<Act>, db: Db, limit: nat): Script<Call>
  {
    (answers: seq<Reply>) => CallNumber(m, script, db, [], limit, |answers|)
  }

  /** From here on, `calls` makes the calls of the run. */
  ghost predicate Follows(m: Machine<Counted>, script: Script<Act>, calls: Script<Call>, db: Db, replies: seq<Reply>,
                          limit: nat)
  {
    forall answers: seq<Reply> | |answers| >= Writes(script, replies) ::
      calls(answers) == CallNumber(m, script, db, replies, limit, |answers|)
  }

  lemma {:induction false} FewerWrites(script: Script<Act>, replies: seq<Reply>)
    ensures Writes(script, replies) <= |replies|
    decreases |replies|
  {
    if replies != [] {
      FewerWrites(script, replies[..|replies| - 1]);
    }
  }

  lemma OneMoreWrite(script: Script<Act>, replies: seq<Reply>, reply: Reply)
    ensures Writes(script, replies + [reply]) == Writes(script, replies) + if Charges(script, replies) then 1 else 0
  {
    assert (replies + [reply])[..|replies|] == replies;
  }

  /** One act further, `calls` still follows. */
  lemma StillFollows(m: Machine<Counted>, script: Script<Act>, calls: Script<Call>, db: Db, replies: seq<Reply>,
                     limit: nat)
    requires Follows(m, script, calls, db, replies, limit) && Continues(script, replies, limit)
    ensures var o := m.step(db, |replies|, Numbered(script)(replies).value);
            Follows(m, script, calls, Last(o), replies + [o.reply], limit)
  {
    var o := m.step(db, |replies|, Numbered(script)(replies).value);
    OneMoreWrite(script, replies, o.reply);
  }

  lemma CrashBetweenCalls(s: Session, faults: nat -> Fault, calls: Script<Call>, db: Db, answers: seq<Reply>,
                          limit: nat)
    ensures CrashedRun(MachineWith(s, faults), calls, db, answers, limit, Crash(|answers|, 0)) == db
  {
    if |answers| < limit && calls(answers).Some? {
      FaultyCall(s, db, |answers|, calls(answers).value, faults(|answers|));
    }
  }

  /** In the act that crashes, or past the last one. */
  lemma CallCrashesAlike(s: Session, r: Reading, calls: Script<Call>, db: Db, replies: seq<Reply>,
                         answers: seq<Reply>, limit: nat)
    returns (d: Crash)
    requires |answers| == Writes(r.script, replies)
    requires Follows(MachineOfReading(s, r.faults, r.failing), r.script, calls, db, replies, limit)
    requires Continues(r.script, replies, limit) ==> |replies| == r.crash.call
    ensures d.call == |answers| && (d.effects == r.crash.effects || d.effects == 0)
    ensures CrashedRun(MachineWith(s, r.faults), calls, db, answers, limit, d) ==
            CrashedRun(MachineOfReading(s, r.faults, r.failing), Numbered(r.script), db, replies, limit, r.crash)
  {
    FewerWrites(r.script, replies);
    if Continues(r.script, replies, limit) && r.script(replies).value.Issue? {
      d := Crash(|answers|, r.crash.effects);
    } else {
      d := Crash(|answers|, 0);
      CrashBetweenCalls(s, r.faults, calls, db, answers, limit);
    }
  }

  /** Wherever the attempt crashes, its calls alone can crash alike. */
  lemma {:induction false} CallsCrashAlike(s: Session, r: Reading, calls: Script<Call>, db: Db, replies: seq<Reply>,
                                           answers: seq<Reply>, limit: nat)
    returns (d: Crash)
    requires |answers| == Writes(r.script, replies) && |replies| <= r.crash.call
    requires Follows(MachineOfReading(s, r.faults, r.failing), r.script, calls, db, replies, limit)
    ensures d.call >= |answers| && (d.effects == r.crash.effects || d.effects == 0)
    ensures CrashedRun(MachineWith(s, r.faults), calls, db, answers, limit, d) ==
            CrashedRun(MachineOfReading(s, r.faults, r.failing), Numbered(r.script), db, replies, limit, r.crash)
    decreases limit - |replies|
  {
    if !Continues(r.script, replies, limit) || |replies| == r.crash.call {
      d := CallCrashesAlike(s, r, calls, db, replies, answers, limit);
    } else {
      var m := MachineOfReading(s, r.faults, r.failing);
      var o := m.step(db, |replies|, Numbered(r.script)(replies).value);
      StillFollows(m, r.script, calls, db, replies, limit);
      OneMoreWrite(r.script, replies, o.reply);
      FewerWrites(r.script, replies);
      var more := if Charges(r.script, replies) then answers + [o.reply] else answers;
      d := CallsCrashAlike(s, r, calls, Last(o), replies + [o.reply], more, limit);
    }
  }

  /** To the database, an attempt that reads is an attempt of the calls it makes: the same queries of
      them fail, the crash falls in the same call, and a crash in a read is one before the next call.
      So what holds over all histories of attempts holds for scripts that read, though a rerun may
      read otherwise. */
  lemma ReadingIsAnAttempt(s: Session, db: Db, limit: nat, r: Reading) returns (a: Attempt)
    ensures After(s, db, limit, a) == AfterReading(s, db, limit, r)
    ensures a.script == Calls(MachineOfReading(s, r.faults, r.failing), r.script, db, limit)
    ensures a.faults == r.faults && (a.crash.effects == r.crash.effects || a.crash.effects == 0)
  {
    var m := MachineOfReading(s, r.faults, r.failing);
    var calls := Calls(m, r.script, db, limit);
    var d := CallsCrashAlike(s, r, calls, db, [], [], limit);
    a := Attempt(calls, d, r.faults);
  }

  lemma {:induction false} ReadingsAreAttempts(s: Session, db: Db, limit: nat, readings: seq<Reading>)
    returns (attempts: seq<Attempt>)
    ensures |attempts| == |readings| && AfterAll(s, db, limit, attempts) == AfterReadings(s, db, limit, readings)
    decreases |readings|
  {
    attempts := [];
    if readings != [] {
      var a := ReadingIsAnAttempt(s, db, limit, readings[0]);
      var rest := ReadingsAreAttempts(s, AfterReading(s, db, limit, readings[0]), limit, readings[1..]);
      attempts := [a] + rest;
      assert attempts[1..] == rest;
    }
  }
}
