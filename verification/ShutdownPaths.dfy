/** No state of the daemon is stuck: from every reachable state some steps lead to the
    end of the shutdown. */
module ShutdownPaths {
  import opened Admission
  import opened Lifecycle

  /** Steps from `states[0]` on, not necessarily from the start. */
  ghost predicate IsPath(states: seq<State>, steps: seq<Step>) {
    |states| == |steps| + 1 && forall i :: 0 <= i < |steps| ==> Next(states[i], steps[i], states[i + 1])
  }

  // ---- what is still to be done -------------------------------------------------------

  /** Steps a listener still needs to end. */
  function Pending(listeners: map<Listener, ListenerState>, l: Listener): nat {
    if l !in listeners then 0
    else match listeners[l]
      case Admitted => 2
      case Accepting => 1
      case _ => 0
  }

  function ListenersPending(s: State): nat {
    Pending(s.listeners, Unix) + Pending(s.listeners, Tcp) + Pending(s.listeners, Http)
  }

  /** Tasks that have more to do than to end. */
  ghost function Busy(tasks: map<TaskId, Task>): set<TaskId> {
    set id | id in tasks && !tasks[id].RpcReplying? && !tasks[id].HttpDraining? && !tasks[id].HttpChild?
  }

  /** `s'` is closer to the end than `s`: a later phase, or else the sampler has ended, or
      else less is left of the listeners, or else of the tasks. */
  ghost predicate Closer(s: State, s': State) {
    if Rank(s.phase) != Rank(s'.phase) then Rank(s.phase) < Rank(s'.phase)
    else if s.sampler != s'.sampler then s.sampler
    else if ListenersPending(s) != ListenersPending(s') then ListenersPending(s') < ListenersPending(s)
    else if |s.tasks.Keys| != |s'.tasks.Keys| then |s'.tasks.Keys| < |s.tasks.Keys|
    else |Busy(s'.tasks)| < |Busy(s.tasks)|
  }

  // ---- one step closer ------------------------------------------------------------------

  lemma FreshId(tasks: set<TaskId>) returns (id: TaskId)
    ensures id !in tasks
  {
    id := UpperBound(tasks);
    assert id in tasks ==> id < id;
  }

  lemma {:induction false} UpperBound(ids: set<TaskId>) returns (bound: nat)
    ensures forall id :: id in ids ==> id < bound
    decreases |ids|
  {
    if ids == {} {
      bound := 0;
    } else {
      var id :| id in ids;
      var rest := UpperBound(ids - {id});
      bound := if id < rest then rest else id + 1;
      forall x | x in ids ensures x < bound {
        assert x == id || x in ids - {id};
      }
    }
  }

  /** A live listener can spawn what it has admitted, and can end once the token is
      cancelled. */
  lemma ListenerStep(s: State, l: Listener) returns (step: Step, s': State)
    requires Alive(s, l) && s.cancelled
    ensures Next(s, step, s') && Closer(s, s')
  {
    if s.listeners[l].Admitted? {
      var id := FreshId(s.tasks.Keys);
      step := Spawn(l, id);
      s' := s.(listeners := s.listeners[l := Accepting],
               tasks := s.tasks[id := if l.Http? then HttpServing else RpcReading]);
    } else {
      step, s' := ListenerEnds(l), s.(listeners := s.listeners[l := Ended]);
    }
    OneListener(s.listeners, l, s'.listeners[l]);
  }

  lemma OneListener(listeners: map<Listener, ListenerState>, l: Listener, x: ListenerState)
    ensures forall m: Listener :: m != l ==> Pending(listeners[l := x], m) == Pending(listeners, m)
  {
  }

  lemma FewerBusy(tasks: map<TaskId, Task>, id: TaskId, t: Task)
    requires id in Busy(tasks) && (t.RpcReplying? || t.HttpDraining?)
    ensures tasks[id := t].Keys == tasks.Keys && |Busy(tasks[id := t])| < |Busy(tasks)|
  {
    assert Busy(tasks[id := t]) == Busy(tasks) - {id};
  }

  lemma FewerTasks(tasks: map<TaskId, Task>, id: TaskId)
    requires id in tasks
    ensures |(tasks - {id}).Keys| < |tasks.Keys|
  {
    assert (tasks - {id}).Keys == tasks.Keys - {id};
  }

  /** A busy task can reply or drain. */
  lemma BusyStep(s: State, id: TaskId) returns (step: Step, s': State)
    requires id in Busy(s.tasks)
    ensures Next(s, step, s') && Closer(s, s')
  {
    match s.tasks[id] {
      case RpcReading => step, s' := RpcCheck(id), Reply(s, id);
      case RpcChecked => step, s' := RpcAcquire(id), Reply(s, id);
      case RpcBlocking => step, s' := RpcClosureEnds(id), Reply(s, id).(blocking := Left(s.blocking));
      case _ =>
        step := HttpStops(id);
        s' := s.(blocking := if Is(s, id, HttpBlocking) then Left(s.blocking) else s.blocking,
                 tasks := s.tasks[id := HttpDraining]);
    }
    FewerBusy(s.tasks, id, s'.tasks[id]);
  }

  /** A task that has nothing more to do can end, an upgraded connection first. */
  lemma IdleStep(s: State) returns (step: Step, s': State)
    requires s.tasks != map[] && Busy(s.tasks) == {}
    ensures Next(s, step, s') && Closer(s, s')
  {
    var id :| id in s.tasks;
    assert id !in Busy(s.tasks);
    if child :| child in s.tasks && s.tasks[child].HttpChild? {
      step, s' := ChildEnds(child), s.(tasks := s.tasks - {child});
      FewerTasks(s.tasks, child);
    } else {
      step := if s.tasks[id].RpcReplying? then RpcReplies(id) else HttpEnds(id);
      s' := s.(tasks := s.tasks - {id}, connections := Left(s.connections));
      FewerTasks(s.tasks, id);
    }
  }

  function Following(p: Phase): Phase {
    match p
    case Starting => RepeatConnections
    case Running => CloseConnections
    case CloseConnections => CloseBlocking
    case CloseBlocking => Cancel
    case Cancel => JoinUnix
    case JoinUnix => JoinTcp
    case JoinTcp => JoinSampler
    case JoinSampler => JoinHttp
    case JoinHttp => RepeatConnections
    case RepeatConnections => RepeatBlocking
    case RepeatBlocking => RepeatCancel
    case RepeatCancel => Draining
    case Draining => ShuttingDown
    case _ => Exited
  }

  /** The lifecycle task's own next statement, where it does not wait. */
  function NextPhase(s: State): State {
    s.(phase := Following(s.phase),
       connections := if s.phase.CloseConnections? || s.phase.RepeatConnections? then Shut(s.connections) else s.connections,
       blocking := if s.phase.CloseBlocking? || s.phase.RepeatBlocking? then Shut(s.blocking) else s.blocking,
       cancelled := s.cancelled || s.phase.Cancel? || s.phase.RepeatCancel?)
  }

  /** What the lifecycle task waits for where it is. */
  ghost predicate Waits(s: State) {
    match s.phase
    case JoinUnix => Alive(s, Unix)
    case JoinTcp => Alive(s, Tcp)
    case JoinSampler => s.sampler
    case JoinHttp => Alive(s, Http)
    case Draining => s.tasks != map[]
    case _ => false
  }

  lemma NextPhaseAdvances(s: State)
    requires !Waits(s) && Rank(s.phase) >= 2 && !s.phase.Exited?
    ensures Advances(s, NextPhase(s))
  {
  }

  lemma FollowingIsLater(p: Phase)
    requires !p.Exited?
    ensures Rank(p) < Rank(Following(p))
  {
  }

  lemma OwnStep(s: State) returns (step: Step, s': State)
    requires !Waits(s) && !s.phase.Exited?
    ensures Next(s, step, s') && Closer(s, s')
  {
    s' := NextPhase(s);
    FollowingIsLater(s.phase);
    if s.phase.Starting? {
      step := FailToStart;
    } else if s.phase.Running? {
      step := StopServing;
    } else {
      step := Advance;
      NextPhaseAdvances(s);
    }
  }

  /** What it waits for can always come closer. */
  lemma AwaitedStep(s: State) returns (step: Step, s': State)
    requires Ordered(s) && Waits(s)
    ensures Next(s, step, s') && Closer(s, s')
  {
    match s.phase {
      case JoinUnix => step, s' := ListenerStep(s, Unix);
      case JoinTcp => step, s' := ListenerStep(s, Tcp);
      case JoinHttp => step, s' := ListenerStep(s, Http);
      case JoinSampler => step, s' := SamplerEnds, s.(sampler := false);
      case _ =>
        if id :| id in Busy(s.tasks) {
          step, s' := BusyStep(s, id);
        } else {
          step, s' := IdleStep(s);
        }
    }
  }

  // ---- all the way ------------------------------------------------------------------------

  lemma {:induction false} PathToExit(s: State) returns (states: seq<State>, steps: seq<Step>)
    requires Ordered(s)
    ensures IsPath(states, steps) && states[0] == s && states[|steps|].phase.Exited?
    decreases 14 - Rank(s.phase), One(s.sampler), ListenersPending(s), |s.tasks.Keys|, |Busy(s.tasks)|
  {
    if s.phase.Exited? {
      states, steps := [s], [];
    } else {
      var step, s';
      if Waits(s) {
        step, s' := AwaitedStep(s);
      } else {
        step, s' := OwnStep(s);
      }
      StepKeepsOrder(s, step, s');
      var rest, more := PathToExit(s');
      states, steps := [s] + rest, [step] + more;
      PathPrepended(s, step, rest, more);
    }
  }

  lemma PathPrepended(s: State, step: Step, states: seq<State>, steps: seq<Step>)
    requires IsPath(states, steps) && Next(s, step, states[0])
    ensures IsPath([s] + states, [step] + steps)
  {
    var longer, all := [s] + states, [step] + steps;
    forall i | 0 <= i < |all| ensures Next(longer[i], all[i], longer[i + 1]) {
      if i > 0 {
        assert longer[i] == states[i - 1] && all[i] == steps[i - 1] && longer[i + 1] == states[i];
      }
    }
  }

  /** No reachable state is stuck: every run so far can be continued to one in which the
      runtime has been shut down and the daemon has exited. */
  lemma EveryRunCanExit(states: seq<State>, steps: seq<Step>) returns (more: seq<State>, next: seq<Step>)
    requires IsRun(states, steps)
    ensures IsRun(states + more, steps + next) && |more| == |next|
    ensures (states + more)[|steps + next|].phase.Exited?
  {
    RunInvariant(states, steps, |steps|);
    var path;
    path, next := PathToExit(states[|steps|]);
    more := path[1..];
    RunContinues(states, steps, path, next);
  }

  lemma RunContinues(states: seq<State>, steps: seq<Step>, path: seq<State>, next: seq<Step>)
    requires IsRun(states, steps) && IsPath(path, next) && path[0] == states[|steps|]
    ensures IsRun(states + path[1..], steps + next)
    ensures (states + path[1..])[|steps + next|] == path[|next|]
  {
    var longer, all := states + path[1..], steps + next;
    assert forall k :: 0 <= k < |path| ==> longer[|steps| + k] == path[k];
    forall i | 0 <= i < |all| ensures Next(longer[i], all[i], longer[i + 1]) {
      if i >= |steps| {
        var k := i - |steps|;
        assert longer[|steps| + k] == path[k] && longer[|steps| + (k + 1)] == path[k + 1];
        assert Next(path[k], next[k], path[k + 1]);
      }
    }
  }
}
