/**
 A script run through the functions of one module: cloned handles that share one store and one write
 counter (src/lymaille/resource_module.rs, `resources_module`).
 */
module AgentScript {
  import opened Wrappers
  import opened AgentWrites
  import opened AgentHandle
  import opened AgentRecovery
  import opened AgentAttempts
  import opened AgentCap

  /** Handles of one module: one context, one store, one counter. */
  ghost predicate OneModule(handles: seq<Handle>)
  {
    |handles| > 0 &&
    forall i | 0 <= i < |handles| ::
      && handles[i].Context() == handles[0].Context()
      && handles[i].store == handles[0].store && handles[i].counter == handles[0].counter
  }

  /** The module's handle and a clone for each of its functions. */
  method OpenModule(env: Env, subject: string, scope: Option<Scope>, store: Store, functions: nat)
    returns (handles: seq<Handle>)
    ensures OneModule(handles) && |handles| == functions + 1
    ensures handles[0].Context() == Session(env, subject, scope) && handles[0].store == store
    ensures fresh(handles[0].counter) && handles[0].counter.writes == 0
  {
    var handle := new Handle(env, subject, scope, store);
    handles := [handle];
    for i := 0 to functions
      invariant |handles| == i + 1 && handles[0] == handle && OneModule(handles)
      invariant fresh(handle.counter) && handle.counter.writes == 0
    {
      var clone := new Handle.Clone(handle);
      handles := handles + [clone];
    }
  }

  /** Makes one call through a handle; the database may fail one of its queries. */
  method Make(handle: Handle, call: Call, fault: Fault) returns (reply: Reply)
    modifies handle.store, handle.counter
    ensures handle.counter.writes == old(handle.counter.writes) + 1
    ensures var o := ApplyWith(handle.Context(), old(handle.store.Snapshot()), old(handle.counter.writes), call, fault);
            reply == o.reply && handle.store.Snapshot() == Last(o)
  {
    ghost var trace: seq<Db>;
    match call {
      case CreateCall(resource, body) =>
        reply, trace := handle.Create(resource, body, fault);
      case UpdateCall(resource, id, body) =>
        reply, trace := handle.Update(resource, id, body, fault);
      case DeleteCall(resource, id) =>
        reply, trace := handle.Delete(resource, id, fault);
    }
  }

  /** The calls of a script, each through whichever handle `choose` picks, while the database fails
      query `faults(i)` of call number i and the script goes on. The counter the handles share is what
      numbers the calls: from a counter that stands at the answers already given, the store and the
      answers end as the run that numbers calls by position, whatever the choice. So exactly the first
      100 charged calls pass the cap, and from a new module at most 100 calls change a table. */
  method Drive(handles: seq<Handle>, faults: nat -> Fault, script: Script<Call>, choose: nat -> nat,
               given: seq<Reply>, limit: nat)
    returns (replies: seq<Reply>)
    requires OneModule(handles) && handles[0].counter.writes == |given| && CapHolds(given)
    modifies handles[0].store, handles[0].counter
    ensures (handles[0].store.Snapshot(), replies) ==
            Run(MachineWith(handles[0].Context(), faults), script, old(handles[0].store.Snapshot()), given, limit)
    ensures handles[0].counter.writes == |replies|
    ensures forall i | 0 <= i < |replies| :: replies[i] == Err(WriteLimit) <==> i >= MAX_WRITES_PER_RUN
    ensures TableChanges(handles[0].Context(), faults, script, old(handles[0].store.Snapshot()), given, limit) + |given|
            <= if |given| < MAX_WRITES_PER_RUN then MAX_WRITES_PER_RUN else |given|
  {
    replies := given;
    ghost var start := handles[0].store.Snapshot();
    ghost var s := handles[0].Context();
    while |replies| < limit && script(replies).Some?
      invariant handles[0].counter.writes == |replies|
      invariant Run(MachineWith(s, faults), script, start, given, limit) ==
                Run(MachineWith(s, faults), script, handles[0].store.Snapshot(), replies, limit)
      decreases limit - |replies|
    {
      var handle := handles[choose(|replies|) % |handles|];
      var reply := Make(handle, script(replies).value, faults(|replies|));
      replies := replies + [reply];
    }
    CapIsPositional(s, faults, script, start, given, limit);
    FewCallsWrite(s, faults, script, start, given, limit);
  }
}
