/** Serving and shutting down the daemon, as all interleavings of the lifecycle
    task, the listeners and the connection tasks. */
module Lifecycle {
  import opened Orders
  import opened Admission

  datatype Listener = Unix | Tcp | Http

  /** A listener that has admitted a stream holds its permit until it spawns. */
  datatype ListenerState = NotStarted | Accepting | Admitted | Ended

  type TaskId = nat

  /** Tasks in the connection tracker. A child serves an upgraded HTTP connection. */
  datatype Task =
    | RpcReading
    | RpcChecked
    | RpcBlocking
    | RpcReplying
    | HttpServing
    | HttpBlocking
    | HttpDraining
    | HttpChild(parent: TaskId)

  /** Where the lifecycle task is. */
  datatype Phase =
    | Starting
    | Running
    | CloseConnections | CloseBlocking | Cancel
    | JoinUnix | JoinTcp | JoinSampler | JoinHttp
    | RepeatConnections | RepeatBlocking | RepeatCancel
    | Draining
    | ShuttingDown
    | Exited

  function Rank(p: Phase): nat {
    match p
    case Starting => 0 case Running => 1
    case CloseConnections => 2 case CloseBlocking => 3 case Cancel => 4
    case JoinUnix => 5 case JoinTcp => 6 case JoinSampler => 7 case JoinHttp => 8
    case RepeatConnections => 9 case RepeatBlocking => 10 case RepeatCancel => 11
    case Draining => 12 case ShuttingDown => 13 case Exited => 14
  }

  datatype State = State(
    phase: Phase, connections: Gate, blocking: Gate, cancelled: bool,
    listeners: map<Listener, ListenerState>, sampler: bool, tasks: map<TaskId, Task>)

  predicate IsStart(s: State) {
    && s.phase == Starting && !s.cancelled && !s.sampler && s.tasks == map[]
    && s.connections == NewGate(s.connections.limit) && s.blocking == NewGate(s.blocking.limit)
    && s.listeners == map[Unix := NotStarted, Tcp := NotStarted, Http := NotStarted]
  }

  predicate Alive(s: State, l: Listener) {
    l in s.listeners && (s.listeners[l].Accepting? || s.listeners[l].Admitted?)
  }

  datatype Step =
    | StartUp(tcp: bool, http: bool, sampler: bool)
    | FailToStart
    | StopServing                       // cancelled, signalled, or a listener ended
    | Advance                           // the next statement of the lifecycle task
    | CancelToken                       // someone else cancels the shutdown token
    | SamplerEnds
    | Admit(l: Listener)                // accept, then try_acquire on the connection gate
    | Reject(l: Listener)
    | Spawn(l: Listener, id: TaskId)
    | ListenerEnds(l: Listener)         // sees the cancellation, fails to accept, or is aborted
    | RpcCheck(id: TaskId)              // the shutdown check of a request that was read
    | RpcAcquire(id: TaskId)            // try_acquire on the blocking gate, then the closure starts
    | RpcClosureEnds(id: TaskId)        // the awaited closure returned; its permit is dropped
    | RpcReplies(id: TaskId)            // the response is written; the task ends
    | HttpAcquire(id: TaskId)
    | HttpClosureEnds(id: TaskId)
    | HttpStops(id: TaskId)             // the connection future ends or is dropped
    | HttpEnds(id: TaskId)              // its children are done
    | SpawnChild(parent: TaskId, id: TaskId)
    | ChildEnds(id: TaskId)

  function Reply(s: State, id: TaskId): State {
    s.(tasks := s.tasks[id := RpcReplying])
  }

  predicate Is(s: State, id: TaskId, t: Task) {
    id in s.tasks && s.tasks[id] == t
  }

  predicate NoChildOf(s: State, id: TaskId) {
    forall c :: c in s.tasks ==> s.tasks[c] != HttpChild(id)
  }

  /** The lifecycle task's own statements after it stopped serving. */
  predicate Advances(s: State, s': State) {
    match s.phase
    case CloseConnections => s' == s.(phase := CloseBlocking, connections := Shut(s.connections))
    case CloseBlocking => s' == s.(phase := Cancel, blocking := Shut(s.blocking))
    case Cancel => s' == s.(phase := JoinUnix, cancelled := true)
    case JoinUnix => !Alive(s, Unix) && s' == s.(phase := JoinTcp)
    case JoinTcp => !Alive(s, Tcp) && s' == s.(phase := JoinSampler)
    case JoinSampler => !s.sampler && s' == s.(phase := JoinHttp)
    case JoinHttp => !Alive(s, Http) && s' == s.(phase := RepeatConnections)
    case RepeatConnections => s' == s.(phase := RepeatBlocking, connections := Shut(s.connections))
    case RepeatBlocking => s' == s.(phase := RepeatCancel, blocking := Shut(s.blocking))
    case RepeatCancel => s' == s.(phase := Draining, cancelled := true)
    case Draining => s.tasks == map[] && s' == s.(phase := ShuttingDown)
    case ShuttingDown => s' == s.(phase := Exited)
    case _ => false
  }

  predicate Next(s: State, step: Step, s': State) {
    match step
    case StartUp(tcp, http, sampler) =>
      && s.phase == Starting
      && s' == s.(phase := Running, sampler := sampler,
                  listeners := map[Unix := Accepting, Tcp := if tcp then Accepting else NotStarted,
                                   Http := if http then Accepting else NotStarted])
    case FailToStart => s.phase == Starting && s' == s.(phase := RepeatConnections)
    case StopServing => s.phase == Running && s' == s.(phase := CloseConnections)
    case Advance => Advances(s, s')
    case CancelToken => s' == s.(cancelled := true)
    case SamplerEnds => s.sampler && s.cancelled && s' == s.(sampler := false)
    case Admit(l) =>
      && l in s.listeners && s.listeners[l] == Accepting && Refusal(s.connections).None?
      && s' == s.(connections := Entered(s.connections), listeners := s.listeners[l := Admitted])
    case Reject(l) => l in s.listeners && s.listeners[l] == Accepting && Refusal(s.connections).Some? && s' == s
    case Spawn(l, id) =>
      && l in s.listeners && s.listeners[l] == Admitted && id !in s.tasks
      && s' == s.(listeners := s.listeners[l := Accepting],
                  tasks := s.tasks[id := if l.Http? then HttpServing else RpcReading])
    case ListenerEnds(l) =>
      && l in s.listeners && s.listeners[l] == Accepting && (!l.Http? || s.cancelled)
      && s' == s.(listeners := s.listeners[l := Ended])
    case RpcCheck(id) =>
      && Is(s, id, RpcReading)
      && (s' == Reply(s, id) || (!s.cancelled && !s.blocking.closed && s' == s.(tasks := s.tasks[id := RpcChecked])))
    case RpcAcquire(id) =>
      && Is(s, id, RpcChecked)
      && (if Refusal(s.blocking).Some? then s' == Reply(s, id)
          else || s' == Reply(s, id) // a request that needs no blocking closure
               || s' == s.(blocking := Entered(s.blocking), tasks := s.tasks[id := RpcBlocking]))
    case RpcClosureEnds(id) =>
      Is(s, id, RpcBlocking) && s' == Reply(s, id).(blocking := Left(s.blocking))
    case RpcReplies(id) =>
      Is(s, id, RpcReplying) && s' == s.(tasks := s.tasks - {id}, connections := Left(s.connections))
    case HttpAcquire(id) =>
      && Is(s, id, HttpServing) && Refusal(s.blocking).None?
      && s' == s.(blocking := Entered(s.blocking), tasks := s.tasks[id := HttpBlocking])
    case HttpClosureEnds(id) =>
      Is(s, id, HttpBlocking) && s' == s.(blocking := Left(s.blocking), tasks := s.tasks[id := HttpServing])
    case HttpStops(id) =>
      && (Is(s, id, HttpServing) || Is(s, id, HttpBlocking))
      && s' == s.(blocking := if Is(s, id, HttpBlocking) then Left(s.blocking) else s.blocking,
                  tasks := s.tasks[id := HttpDraining])
    case HttpEnds(id) =>
      && Is(s, id, HttpDraining) && NoChildOf(s, id)
      && s' == s.(tasks := s.tasks - {id}, connections := Left(s.connections))
    case SpawnChild(parent, id) =>
      && Is(s, parent, HttpServing) && id !in s.tasks
      && s' == s.(tasks := s.tasks[id := HttpChild(parent)])
    case ChildEnds(id) =>
      id in s.tasks && s.tasks[id].HttpChild? && s' == s.(tasks := s.tasks - {id})
  }

  ghost predicate IsRun(states: seq<State>, steps: seq<Step>) {
    && |states| == |steps| + 1 && IsStart(states[0])
    && forall i :: 0 <= i < |steps| ==> Next(states[i], steps[i], states[i + 1])
  }

  // ---- permits ------------------------------------------------------------------------

  predicate HoldsConnection(t: Task) {
    !t.HttpChild?
  }

  predicate HoldsBlocking(t: Task) {
    t.RpcBlocking? || t.HttpBlocking?
  }

  ghost function ConnectionHolders(tasks: map<TaskId, Task>): set<TaskId> {
    set id | id in tasks && HoldsConnection(tasks[id])
  }

  ghost function BlockingHolders(tasks: map<TaskId, Task>): set<TaskId> {
    set id | id in tasks && HoldsBlocking(tasks[id])
  }

  ghost function Admitting(listeners: map<Listener, ListenerState>): set<Listener> {
    set l | l in listeners && listeners[l].Admitted?
  }

  /** Every permit is available, with a task, or with a listener about to spawn one. */
  ghost predicate PermitsConserved(s: State) {
    && s.connections.available + |ConnectionHolders(s.tasks)| + |Admitting(s.listeners)| == s.connections.limit
    && s.blocking.available + |BlockingHolders(s.tasks)| == s.blocking.limit
  }

  function One(b: bool): nat {
    if b then 1 else 0
  }

  lemma SetChanged<T>(before: set<T>, x: T, after: set<T>)
    requires after == before + {x} || after == before - {x}
    ensures |after| + One(x in before) == |before| + One(x in after)
  {
    if (x in before) == (x in after) {
      assert after == before;
    } else if x in after {
      assert after == before + {x};
    } else {
      assert before == after + {x};
    }
  }

  lemma TaskChanged(tasks: map<TaskId, Task>, id: TaskId, after: map<TaskId, Task>)
    requires after == tasks - {id} || (id in after && after == tasks[id := after[id]])
    ensures |ConnectionHolders(after)| + One(id in ConnectionHolders(tasks)) ==
            |ConnectionHolders(tasks)| + One(id in ConnectionHolders(after))
    ensures |BlockingHolders(after)| + One(id in BlockingHolders(tasks)) ==
            |BlockingHolders(tasks)| + One(id in BlockingHolders(after))
  {
    assert ConnectionHolders(after) - {id} == ConnectionHolders(tasks) - {id};
    assert BlockingHolders(after) - {id} == BlockingHolders(tasks) - {id};
    HoldersChanged(ConnectionHolders(tasks), id, ConnectionHolders(after));
    HoldersChanged(BlockingHolders(tasks), id, BlockingHolders(after));
  }

  lemma HoldersChanged(before: set<TaskId>, id: TaskId, after: set<TaskId>)
    requires after - {id} == before - {id}
    ensures |after| + One(id in before) == |before| + One(id in after)
  {
    if id in after {
      assert after == (after - {id}) + {id};
      assert before + {id} == (before - {id}) + {id};
    } else {
      assert after == after - {id};
    }
    SetChanged(before, id, after);
  }

  lemma ListenerChanged(listeners: map<Listener, ListenerState>, l: Listener, x: ListenerState)
    ensures |Admitting(listeners[l := x])| + One(l in listeners && listeners[l].Admitted?) ==
            |Admitting(listeners)| + One(x.Admitted?)
  {
    var before, after := Admitting(listeners), Admitting(listeners[l := x]);
    assert l in before <==> l in listeners && listeners[l].Admitted?;
    assert l in after <==> x.Admitted?;
    assert forall m :: m != l ==> (m in after <==> m in before);
    OneMemberChanged(before, l, after);
  }

  lemma OneMemberChanged(before: set<Listener>, l: Listener, after: set<Listener>)
    requires forall m :: m != l ==> (m in after <==> m in before)
    ensures |after| + One(l in before) == |before| + One(l in after)
  {
    if l in after {
      assert after == before + {l};
    } else {
      assert after == before - {l};
    }
    SetChanged(before, l, after);
  }

  lemma ListenerStepConserves(s: State, step: Step, s': State)
    requires Next(s, step, s') && PermitsConserved(s)
    requires step.Admit? || step.Spawn? || step.ListenerEnds?
    ensures PermitsConserved(s')
  {
    ListenerChanged(s.listeners, step.l, s'.listeners[step.l]);
    if step.Spawn? {
      TaskChanged(s.tasks, step.id, s'.tasks);
    }
  }

  lemma RpcStepConserves(s: State, step: Step, s': State)
    requires Next(s, step, s') && PermitsConserved(s)
    requires step.RpcCheck? || step.RpcAcquire? || step.RpcClosureEnds? || step.RpcReplies?
    ensures PermitsConserved(s')
  {
    TaskChanged(s.tasks, step.id, s'.tasks);
  }

  lemma HttpStepConserves(s: State, step: Step, s': State)
    requires Next(s, step, s') && PermitsConserved(s)
    requires || step.HttpAcquire? || step.HttpClosureEnds? || step.HttpStops? || step.HttpEnds?
             || step.SpawnChild? || step.ChildEnds?
    ensures PermitsConserved(s')
  {
    TaskChanged(s.tasks, step.id, s'.tasks);
  }

  lemma StepConservesPermits(s: State, step: Step, s': State)
    requires Next(s, step, s') && PermitsConserved(s) && Ordered(s)
    ensures PermitsConserved(s')
  {
    if step.Admit? || step.Spawn? || step.ListenerEnds? {
      ListenerStepConserves(s, step, s');
    } else if step.RpcCheck? || step.RpcAcquire? || step.RpcClosureEnds? || step.RpcReplies? {
      RpcStepConserves(s, step, s');
    } else if step.HttpAcquire? || step.HttpClosureEnds? || step.HttpStops? || step.HttpEnds?
              || step.SpawnChild? || step.ChildEnds? {
      HttpStepConserves(s, step, s');
    } else if step.StartUp? {
      StartUpConserves(s, step, s');
    } else {
      QuietStepConserves(s, step, s');
    }
  }

  lemma StartUpConserves(s: State, step: Step, s': State)
    requires Next(s, step, s') && PermitsConserved(s) && Ordered(s) && step.StartUp?
    ensures PermitsConserved(s')
  {
    forall l ensures !Alive(s, l) { match l { case Unix => case Tcp => case Http => } }
    NoneAdmitting(s);
    NoneAdmitting(s');
  }

  /** The steps that leave tasks, listeners and permits as they are. */
  lemma QuietStepConserves(s: State, step: Step, s': State)
    requires Next(s, step, s') && PermitsConserved(s)
    requires || step.FailToStart? || step.StopServing? || step.Advance? || step.CancelToken? || step.SamplerEnds?
             || step.Reject?
    ensures PermitsConserved(s')
  {
    if step.Advance? {
      AdvanceMovesOn(s, s');
      AdvanceKeepsPermits(s, s');
    } else {
      assert s'.tasks == s.tasks && s'.listeners == s.listeners;
      assert s'.connections == s.connections && s'.blocking == s.blocking;
    }
  }

  lemma AdvanceKeepsPermits(s: State, s': State)
    requires Advances(s, s')
    ensures s'.connections.limit == s.connections.limit && s'.connections.available == s.connections.available
    ensures s'.blocking.limit == s.blocking.limit && s'.blocking.available == s.blocking.available
  {
  }

  lemma NoneAdmitting(s: State)
    requires forall l :: l in s.listeners && s.listeners[l].Admitted? ==> !Alive(s, l)
    ensures Admitting(s.listeners) == {}
  {
    forall l | l in Admitting(s.listeners) ensures false {
      assert Alive(s, l);
    }
  }

  /** A gate grants a permit only while it is open, and never opens again. */
  lemma NoPermitAfterClose(s: State, step: Step, s': State)
    requires Next(s, step, s')
    ensures s.connections.closed ==> s'.connections.closed && s'.connections.available >= s.connections.available
    ensures s.blocking.closed ==> s'.blocking.closed && s'.blocking.available >= s.blocking.available
  {
    if OfTask(step) {
      TaskStepGrantsNone(s, step, s');
    } else {
      OtherStepGrantsNone(s, step, s');
    }
  }

  predicate OfTask(step: Step) {
    || step.RpcCheck? || step.RpcAcquire? || step.RpcClosureEnds? || step.RpcReplies? || step.HttpAcquire?
    || step.HttpClosureEnds? || step.HttpStops? || step.HttpEnds? || step.SpawnChild? || step.ChildEnds?
  }

  lemma TaskStepGrantsNone(s: State, step: Step, s': State)
    requires Next(s, step, s') && OfTask(step)
    ensures s.connections.closed ==> s'.connections.closed && s'.connections.available >= s.connections.available
    ensures s.blocking.closed ==> s'.blocking.closed && s'.blocking.available >= s.blocking.available
  {
  }

  lemma OtherStepGrantsNone(s: State, step: Step, s': State)
    requires Next(s, step, s') && !OfTask(step)
    ensures s.connections.closed ==> s'.connections.closed && s'.connections.available >= s.connections.available
    ensures s.blocking.closed ==> s'.blocking.closed && s'.blocking.available >= s.blocking.available
  {
  }

  // ---- order ---------------------------------------------------------------------------

  /** What the lifecycle task has achieved by where it is. */
  ghost predicate Ordered(s: State) {
    var r := Rank(s.phase);
    && (r == 0 ==> !s.sampler && !Alive(s, Unix) && !Alive(s, Tcp) && !Alive(s, Http))
    && (r > 2 && r != 9 ==> s.connections.closed)
    && (r > 3 && r != 9 && r != 10 ==> s.blocking.closed)
    && (r > 4 && r != 9 && r != 10 && r != 11 ==> s.cancelled)
    && (r > 5 ==> !Alive(s, Unix))
    && (r > 6 ==> !Alive(s, Tcp))
    && (r > 7 ==> !s.sampler)
    && (r > 8 ==> !Alive(s, Http))
    && (r > 12 ==> s.tasks == map[])
  }

  /** A step that is not the lifecycle task's own undoes nothing it has achieved. */
  lemma OthersUndoNothing(s: State, step: Step, s': State)
    requires Next(s, step, s') && s'.phase == s.phase
    ensures (s.cancelled ==> s'.cancelled) && (!s.sampler ==> !s'.sampler)
    ensures forall l :: Alive(s', l) ==> Alive(s, l)
    ensures s.tasks == map[] && (forall l :: !Alive(s, l)) ==> s'.tasks == map[]
  {
    if OfTask(step) {
      TaskStepUndoesNothing(s, step, s');
    } else {
      OtherStepUndoesNothing(s, step, s');
    }
  }

  lemma TaskStepUndoesNothing(s: State, step: Step, s': State)
    requires Next(s, step, s') && OfTask(step)
    ensures s'.cancelled == s.cancelled && s'.sampler == s.sampler && s'.listeners == s.listeners
    ensures s.tasks != map[]
  {
  }

  lemma OtherStepUndoesNothing(s: State, step: Step, s': State)
    requires Next(s, step, s') && !OfTask(step) && s'.phase == s.phase
    ensures (s.cancelled ==> s'.cancelled) && (!s.sampler ==> !s'.sampler)
    ensures forall l :: Alive(s', l) ==> Alive(s, l)
    ensures s.tasks == map[] && (forall l :: !Alive(s, l)) ==> s'.tasks == map[]
  {
    if step.Spawn? {
      assert Alive(s, step.l);
    }
  }

  lemma AllEnded(s: State)
    requires Ordered(s) && Rank(s.phase) > 8
    ensures forall l :: !Alive(s, l)
  {
    forall l ensures !Alive(s, l) { match l { case Unix => case Tcp => case Http => } }
  }

  /** The lifecycle task's own steps. */
  lemma OwnStepKeepsOrder(s: State, step: Step, s': State)
    requires Next(s, step, s') && Ordered(s) && s'.phase != s.phase
    ensures Ordered(s') && Rank(s.phase) <= Rank(s'.phase)
  {
    if step.Advance? {
      AdvanceKeepsOrder(s, s');
    }
  }

  lemma AdvanceKeepsOrder(s: State, s': State)
    requires Advances(s, s') && Ordered(s)
    ensures Ordered(s') && Rank(s.phase) <= Rank(s'.phase)
  {
    AdvanceMovesOn(s, s');
    AdvanceRanks(s, s');
    AdvanceCloses(s, s');
    AdvanceWaited(s, s');
  }

  lemma AdvanceMovesOn(s: State, s': State)
    requires Advances(s, s')
    ensures s'.listeners == s.listeners && s'.tasks == s.tasks && s'.sampler == s.sampler
  {
  }

  lemma AdvanceRanks(s: State, s': State)
    requires Advances(s, s')
    ensures Rank(s'.phase) == Rank(s.phase) + 1
  {
  }

  lemma AdvanceCloses(s: State, s': State)
    requires Advances(s, s')
    ensures s'.connections.closed == (s.connections.closed || s.phase.CloseConnections? || s.phase.RepeatConnections?)
    ensures s'.blocking.closed == (s.blocking.closed || s.phase.CloseBlocking? || s.phase.RepeatBlocking?)
    ensures s'.cancelled == (s.cancelled || s.phase.Cancel? || s.phase.RepeatCancel?)
  {
  }

  lemma AdvanceWaited(s: State, s': State)
    requires Advances(s, s')
    ensures (s.phase.JoinUnix? ==> !Alive(s, Unix)) && (s.phase.JoinTcp? ==> !Alive(s, Tcp))
    ensures (s.phase.JoinSampler? ==> !s.sampler) && (s.phase.JoinHttp? ==> !Alive(s, Http))
    ensures s.phase.Draining? ==> s.tasks == map[]
  {
  }

  lemma StepKeepsOrder(s: State, step: Step, s': State)
    requires Next(s, step, s') && Ordered(s)
    ensures Ordered(s') && Rank(s.phase) <= Rank(s'.phase)
  {
    if s'.phase == s.phase {
      NoPermitAfterClose(s, step, s');
      OthersUndoNothing(s, step, s');
      if Rank(s.phase) > 8 {
        AllEnded(s);
      }
    } else {
      OwnStepKeepsOrder(s, step, s');
    }
  }

  lemma {:induction false} RunInvariant(states: seq<State>, steps: seq<Step>, n: nat)
    requires IsRun(states, steps) && n < |states|
    ensures PermitsConserved(states[n]) && Ordered(states[n])
  {
    if n == 0 {
      assert ConnectionHolders(states[0].tasks) == {} && BlockingHolders(states[0].tasks) == {};
      assert Admitting(states[0].listeners) == {};
    } else {
      RunInvariant(states, steps, n - 1);
      assert Next(states[n - 1], steps[n - 1], states[n]);
      StepConservesPermits(states[n - 1], steps[n - 1], states[n]);
      StepKeepsOrder(states[n - 1], steps[n - 1], states[n]);
    }
  }

  /** The runtime is shut down only when, and stays shut down while, both gates are
      closed, the token is cancelled, no listener and no sampler is alive, every
      tracked task has ended, so that no RPC closure runs, and every permit is back. */
  lemma ShutdownIsLast(states: seq<State>, steps: seq<Step>, n: nat)
    requires IsRun(states, steps) && n < |states|
    requires states[n].phase.ShuttingDown? || states[n].phase.Exited?
    ensures var s := states[n];
            && s.connections.closed && s.blocking.closed && s.cancelled
            && (forall l :: !Alive(s, l)) && !s.sampler && s.tasks == map[]
            && s.connections.available == s.connections.limit && s.blocking.available == s.blocking.limit
  {
    RunInvariant(states, steps, n);
    var s := states[n];
    assert ConnectionHolders(s.tasks) == {} && BlockingHolders(s.tasks) == {};
    forall l ensures !Alive(s, l) {
      match l { case Unix => case Tcp => case Http => }
    }
    assert Admitting(s.listeners) == {} by {
      forall l | l in Admitting(s.listeners) ensures false {
        assert Alive(s, l);
      }
    }
  }

  /** Once the gates are closed for good, at most what was admitted before is served:
      no task starts its blocking closure any more. */
  lemma {:induction false} NoDispatchAfterClose(states: seq<State>, steps: seq<Step>, i: nat, n: nat)
    requires IsRun(states, steps) && i <= n < |states| && states[i].blocking.closed
    ensures states[n].blocking.closed
    ensures forall id :: Is(states[n], id, RpcBlocking) ==> Is(states[i], id, RpcBlocking)
    decreases n
  {
    if i < n {
      NoDispatchAfterClose(states, steps, i, n - 1);
      assert Next(states[n - 1], steps[n - 1], states[n]);
      NoPermitAfterClose(states[n - 1], steps[n - 1], states[n]);
      forall id | Is(states[n], id, RpcBlocking) ensures Is(states[n - 1], id, RpcBlocking) {
        ClosedStartsNothing(states[n - 1], steps[n - 1], states[n], id);
      }
    }
  }

  lemma ClosedStartsNothing(s: State, step: Step, s': State, id: TaskId)
    requires Next(s, step, s') && s.blocking.closed && Is(s', id, RpcBlocking)
    ensures Is(s, id, RpcBlocking)
  {
  }

  /** A request passes its shutdown check only before the shutdown begins: once the token
      is cancelled or the blocking gate closed, none does any more. */
  lemma {:induction false} NoRequestPassesAfterShutdown(states: seq<State>, steps: seq<Step>, i: nat, n: nat)
    requires IsRun(states, steps) && i <= n < |states| && (states[i].cancelled || states[i].blocking.closed)
    ensures states[n].cancelled || states[n].blocking.closed
    ensures forall id :: Is(states[n], id, RpcChecked) ==> Is(states[i], id, RpcChecked)
    decreases n
  {
    if i < n {
      NoRequestPassesAfterShutdown(states, steps, i, n - 1);
      assert Next(states[n - 1], steps[n - 1], states[n]);
      NoPermitAfterClose(states[n - 1], steps[n - 1], states[n]);
      if states[n - 1].cancelled {
        CancelledStays(states[n - 1], steps[n - 1], states[n]);
      }
      forall id | Is(states[n], id, RpcChecked) ensures Is(states[n - 1], id, RpcChecked) {
        NoneChecked(states[n - 1], steps[n - 1], states[n], id);
      }
    }
  }

  lemma CancelledStays(s: State, step: Step, s': State)
    requires Next(s, step, s') && s.cancelled
    ensures s'.cancelled
  {
    if step.Advance? {
      AdvanceCloses(s, s');
    } else if OfTask(step) {
      TaskStepUndoesNothing(s, step, s');
    }
  }

  lemma NoneChecked(s: State, step: Step, s': State, id: TaskId)
    requires Next(s, step, s') && (s.cancelled || s.blocking.closed) && Is(s', id, RpcChecked)
    ensures Is(s, id, RpcChecked)
  {
  }
}
