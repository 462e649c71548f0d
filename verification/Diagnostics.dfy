/** The diagnostic tracker: sustained-threshold windows, cooldown and the single
    capture slot. */
module Diagnostics {
  import opened Orders
  import Artifact

  const MAX_ERROR_BYTES := 512

  datatype RequestClass = LegacyCgroup | Topology | DaemonSelf

  type Classes = set<RequestClass>

  datatype Point = Point(time: U64, cpu: Option<U64>, classes: Classes)

  datatype Evidence = Evidence(union: Classes, intersection: Classes)

  datatype Window = Window(started: U64, cpu: Option<U64>, activity: Evidence)

  datatype Trigger = Cpu | AnonymousMemory | ExitedUnreapedHolder

  datatype Config = Config(
    enabled: bool, cpuThreshold: real, memoryThreshold: U64, sustainedMs: U64, cooldownMs: U64)

  /** One metrics request: what it sampled of the process and of ownership. */
  datatype Observation = Observation(
    time: U64, cpu: Option<U64>, anonymousMemory: Option<U64>, exitedUnreaped: Option<nat>, request: RequestClass)

  datatype CpuInterval = CpuInterval(elapsedMs: U64, deltaUs: Option<U64>, percent: Option<real>)

  datatype Pending = Pending(sequence: U64, trigger: Trigger, classes: Classes, interval: CpuInterval)

  type Summary = string

  datatype State = State(
    previous: Option<Point>, cpuWindow: Option<Window>, memoryWindow: Option<Window>, triggerCount: U64,
    cooldownUntil: Option<U64>, inFlight: Option<U64>, nextSequence: U64, latest: Option<Summary>,
    lastError: Option<Artifact.Utf8>)

  const INITIAL := State(None, None, None, 0, None, None, 1, None, None)

  // ---- parts of one step ------------------------------------------------------------

  function MaxOptional(a: Option<U64>, b: Option<U64>): Option<U64> {
    match (a, b)
    case (Some(x), Some(y)) => Some(if x < y then y else x)
    case (Some(_), None) => a
    case (None, _) => b
  }

  function NewEvidence(c: Classes): Evidence {
    Evidence(c, c)
  }

  function Observed(e: Evidence, c: Classes): Evidence {
    Evidence(e.union + c, e.intersection * c)
  }

  function IncludedEqual(w: Option<Window>, c: Classes): Option<Window> {
    if w.None? then None
    else Some(w.value.(activity := Evidence(w.value.activity.union + c, w.value.activity.intersection + c)))
  }

  function Resolved(e: Evidence): Classes {
    if e.intersection == {} then e.union else e.intersection
  }

  function UpdatedWindow(w: Option<Window>, above: bool, now: U64, cpu: Option<U64>, c: Classes): Option<Window> {
    if !above then None
    else if w.None? then Some(Window(now, cpu, NewEvidence(c)))
    else Some(w.value.(activity := Observed(w.value.activity, c)))
  }

  /** The share of one core used between two points. */
  function IntervalOf(previous: Point, current: Point): Option<CpuInterval> {
    if current.time <= previous.time then None
    else
      var elapsed := current.time - previous.time;
      var delta := if previous.cpu.Some? && current.cpu.Some? && previous.cpu.value <= current.cpu.value
                   then Some(current.cpu.value - previous.cpu.value) else None;
      var percent := if delta.None? then None
                     else Some(delta.value as real * 100.0 / (elapsed as real * 1000.0));
      Some(CpuInterval(elapsed, delta, percent))
  }

  function WindowInterval(w: Window, current: Point): CpuInterval {
    var i := IntervalOf(Point(w.started, w.cpu, Resolved(w.activity)), current);
    if i.Some? then i.value else CpuInterval(0, None, None)
  }

  function PointOf(o: Observation): Point {
    Point(o.time, o.cpu, {o.request})
  }

  predicate CpuHigh(config: Config, previous: Option<Point>, o: Observation) {
    && previous.Some?
    && var i := IntervalOf(previous.value, PointOf(o));
       i.Some? && i.value.percent.Some? && i.value.percent.value > config.cpuThreshold
  }

  predicate MemoryHigh(config: Config, o: Observation) {
    o.anonymousMemory.Some? && o.anonymousMemory.value > config.memoryThreshold
  }

  function IntervalClasses(previous: Option<Point>, o: Observation): Classes {
    if previous.Some? then previous.value.classes + {o.request} else {o.request}
  }

  predicate Sustained(config: Config, now: U64, w: Option<Window>) {
    w.Some? && (if now < w.value.started then 0 else now - w.value.started) >= config.sustainedMs
  }

  /** The interval tells how long, how much CPU time, and which share of one core: the
      share times the elapsed time, in microseconds, is a hundred times the CPU time. */
  predicate Measures(i: CpuInterval, from: U64, cpuFrom: Option<U64>, to: U64, cpuTo: Option<U64>) {
    var known := from < to && cpuFrom.Some? && cpuTo.Some? && cpuFrom.value <= cpuTo.value;
    && i.elapsedMs == (if from < to then to - from else 0)
    && i.deltaUs == (if known then Some(cpuTo.value - cpuFrom.value) else None)
    && (i.percent.Some? <==> known)
    && (known ==> i.percent.value * ((to - from) * 1000) as real == ((cpuTo.value - cpuFrom.value) * 100) as real)
  }

  lemma Divided(a: real, b: real)
    requires b > 0.0
    ensures a / b * b == a
  {
  }

  lemma Larger(a: real, b: real, c: real)
    requires b > 0.0
    ensures a > c <==> a * b > c * b
  {
  }

  lemma IntervalMeasures(p: Point, q: Point)
    ensures IntervalOf(p, q).Some? <==> p.time < q.time
    ensures IntervalOf(p, q).Some? ==> Measures(IntervalOf(p, q).value, p.time, p.cpu, q.time, q.cpu)
  {
    var i := IntervalOf(p, q);
    if i.Some? && i.value.deltaUs.Some? {
      var elapsed: int, delta: int := q.time - p.time, i.value.deltaUs.value;
      assert elapsed as real * 1000.0 == (elapsed * 1000) as real && delta as real * 100.0 == (delta * 100) as real;
      Divided(delta as real * 100.0, elapsed as real * 1000.0);
    }
  }

  lemma WindowMeasures(w: Window, o: Observation)
    ensures Measures(WindowInterval(w, PointOf(o)), w.started, w.cpu, o.time, o.cpu)
  {
    IntervalMeasures(Point(w.started, w.cpu, Resolved(w.activity)), PointOf(o));
  }

  /** CPU is high exactly when time advances, both counters are known and do not go back,
      and a hundred times the CPU time exceeds the threshold times the elapsed
      microseconds. */
  lemma CpuHighExactly(config: Config, p: Point, o: Observation)
    ensures CpuHigh(config, Some(p), o) <==>
            && p.time < o.time && p.cpu.Some? && o.cpu.Some? && p.cpu.value <= o.cpu.value
            && ((o.cpu.value - p.cpu.value) * 100) as real > config.cpuThreshold * ((o.time - p.time) * 1000) as real
  {
    IntervalMeasures(p, PointOf(o));
    var i := IntervalOf(p, PointOf(o));
    if i.Some? && i.value.percent.Some? {
      Larger(i.value.percent.value, ((o.time - p.time) * 1000) as real, config.cpuThreshold);
    }
  }

  /** One core busy throughout is exactly a hundred percent. */
  lemma BusyCoreIsHundred(p: Point, o: Observation)
    requires p.time < o.time && p.cpu.Some? && o.cpu.Some? && o.cpu.value - p.cpu.value == 1000 * (o.time - p.time)
    ensures IntervalOf(p, PointOf(o)).value.percent == Some(100.0)
  {
    IntervalMeasures(p, PointOf(o));
    HundredOf(IntervalOf(p, PointOf(o)).value.percent.value, (o.time - p.time) * 1000);
  }

  lemma HundredOf(share: real, elapsed: int)
    requires elapsed > 0 && share * elapsed as real == (elapsed * 100) as real
    ensures share == 100.0
  {
    var b := elapsed as real;
    assert (elapsed * 100) as real == 100.0 * b;
    Larger(share, b, 100.0);
    Larger(100.0, b, share);
  }

  /** The trigger that is due, with the window that makes it due. */
  function ReadyTrigger(config: Config, cpu: Option<Window>, memory: Option<Window>, o: Observation)
    : Option<(Trigger, Window)>
  {
    if o.exitedUnreaped.Some? && o.exitedUnreaped.value > 0 then
      Some((ExitedUnreapedHolder, Window(o.time, None, NewEvidence({o.request}))))
    else
      var cpuDue, memoryDue := Sustained(config, o.time, cpu), Sustained(config, o.time, memory);
      if cpuDue && memoryDue && memory.value.started < cpu.value.started then Some((AnonymousMemory, memory.value))
      else if cpuDue then Some((Cpu, cpu.value))
      else if memoryDue then Some((AnonymousMemory, memory.value))
      else None
  }

  /** Which trigger is due: an exited holder first; otherwise a sustained window, of two
      the one that started earlier, and the CPU window if both started together. */
  lemma EarliestWindowIsDue(config: Config, cpu: Option<Window>, memory: Option<Window>, o: Observation)
    ensures var due := ReadyTrigger(config, cpu, memory, o);
            var exited := o.exitedUnreaped.Some? && o.exitedUnreaped.value > 0;
            var cpuDue, memoryDue := Sustained(config, o.time, cpu), Sustained(config, o.time, memory);
            && (due.None? <==> !exited && !cpuDue && !memoryDue)
            && (exited <==> due.Some? && due.value.0.ExitedUnreapedHolder?)
            && (due.Some? && due.value.0.Cpu? ==>
                  cpuDue && due.value.1 == cpu.value && (memoryDue ==> cpu.value.started <= memory.value.started))
            && (due.Some? && due.value.0.AnonymousMemory? ==>
                  memoryDue && due.value.1 == memory.value && (cpuDue ==> memory.value.started < cpu.value.started))
  {
  }

  // ---- the two atomic steps -----------------------------------------------------------

  predicate OutOfOrder(s: State, o: Observation) {
    s.previous.Some? && o.time < s.previous.value.time
  }

  predicate SameTime(s: State, o: Observation) {
    s.previous.Some? && o.time == s.previous.value.time
  }

  /** An accepted sample that moves time forward. */
  predicate Advances(s: State, o: Observation) {
    !OutOfOrder(s, o) && !SameTime(s, o)
  }

  function MergedSameTime(s: State, o: Observation): State
    requires SameTime(s, o)
  {
    var p := s.previous.value;
    s.(previous := Some(Point(p.time, MaxOptional(p.cpu, o.cpu), p.classes + {o.request})),
       cpuWindow := IncludedEqual(s.cpuWindow, {o.request}),
       memoryWindow := IncludedEqual(s.memoryWindow, {o.request}))
  }

  /** The windows after an advancing sample. */
  function Tracked(config: Config, s: State, o: Observation): State {
    s.(cpuWindow := UpdatedWindow(s.cpuWindow, CpuHigh(config, s.previous, o), o.time, o.cpu, IntervalClasses(s.previous, o)),
       memoryWindow := UpdatedWindow(s.memoryWindow, MemoryHigh(config, o), o.time, o.cpu, {o.request}),
       previous := Some(PointOf(o)))
  }

  predicate MayCapture(s: State, now: U64) {
    s.inFlight.None? && !(s.cooldownUntil.Some? && now < s.cooldownUntil.value)
  }

  /** `prepare_capture`. */
  function Prepare(config: Config, s: State, o: Observation): (State, Option<Pending>) {
    if OutOfOrder(s, o) then (s, None)
    else if SameTime(s, o) then (MergedSameTime(s, o), None)
    else if !config.enabled then (s.(previous := Some(PointOf(o))), None)
    else
      var t := Tracked(config, s, o);
      var due := ReadyTrigger(config, t.cpuWindow, t.memoryWindow, o);
      if due.None? || !MayCapture(s, o.time) then (t, None)
      else
        var (trigger, window) := due.value;
        var current := if s.previous.Some? then IntervalOf(s.previous.value, PointOf(o)) else None;
        var interval := if !trigger.ExitedUnreapedHolder? then WindowInterval(window, PointOf(o))
                        else if current.Some? then current.value
                        else CpuInterval(0, None, None);
        (t.(nextSequence := SaturatingAdd(s.nextSequence, 1), inFlight := Some(s.nextSequence),
            cooldownUntil := Some(SaturatingAdd(o.time, config.cooldownMs)),
            cpuWindow := None, memoryWindow := None),
         Some(Pending(s.nextSequence, trigger, Resolved(window.activity), interval)))
  }

  /** `finish_capture`. */
  function Finish(s: State, sequence: U64, result: Result<Summary, Artifact.Utf8>): State {
    if s.inFlight != Some(sequence) then s
    else match result
      case Ok(summary) =>
        s.(inFlight := None, triggerCount := SaturatingAdd(s.triggerCount, 1), latest := Some(summary), lastError := None)
      case Err(error) => s.(inFlight := None, lastError := Some(Artifact.Truncated(error, MAX_ERROR_BYTES)))
  }

  class Tracker {
    const config: Config
    var previous: Option<Point>
    var cpuWindow: Option<Window>
    var memoryWindow: Option<Window>
    var triggerCount: U64
    var cooldownUntil: Option<U64>
    var inFlight: Option<U64>
    var nextSequence: U64
    var latest: Option<Summary>
    var lastError: Option<Artifact.Utf8>

    function Current(): State
      reads this
    {
      State(previous, cpuWindow, memoryWindow, triggerCount, cooldownUntil, inFlight, nextSequence, latest, lastError)
    }

    constructor (config: Config)
      ensures this.config == config && Current() == INITIAL
    {
      this.config := config;
      previous, cpuWindow, memoryWindow := None, None, None;
      triggerCount, cooldownUntil, inFlight, nextSequence := 0, None, None, 1;
      latest, lastError := None, None;
    }

    method PrepareCapture(o: Observation) returns (pending: Option<Pending>)
      modifies this
      ensures (Current(), pending) == Prepare(config, old(Current()), o)
    {
      var now := o.time;
      if previous.Some? {
        if now < previous.value.time {
          return None;
        }
        if now == previous.value.time {
          previous := Some(Point(now, MaxOptional(previous.value.cpu, o.cpu), previous.value.classes + {o.request}));
          cpuWindow := IncludedEqual(cpuWindow, {o.request});
          memoryWindow := IncludedEqual(memoryWindow, {o.request});
          return None;
        }
      }
      if !config.enabled {
        previous := Some(PointOf(o));
        return None;
      }
      pending := TrackAndTrigger(o);
    }

    /** The part of `prepare_capture` that only an advancing sample reaches. */
    method TrackAndTrigger(o: Observation) returns (pending: Option<Pending>)
      requires config.enabled && Advances(Current(), o)
      modifies this
      ensures (Current(), pending) == Prepare(config, old(Current()), o)
    {
      var now := o.time;
      var interval := if previous.Some? then IntervalOf(previous.value, PointOf(o)) else None;
      var cpuHigh := interval.Some? && interval.value.percent.Some? && interval.value.percent.value > config.cpuThreshold;
      cpuWindow := UpdatedWindow(cpuWindow, cpuHigh, now, o.cpu, IntervalClasses(previous, o));
      memoryWindow := UpdatedWindow(memoryWindow, MemoryHigh(config, o), now, o.cpu, {o.request});
      var due := ReadyTrigger(config, cpuWindow, memoryWindow, o);
      var inCooldown := cooldownUntil.Some? && now < cooldownUntil.value;
      pending := None;
      if due.Some? && inFlight.None? && !inCooldown {
        var (trigger, window) := due.value;
        var reported := if !trigger.ExitedUnreapedHolder? then WindowInterval(window, PointOf(o))
                        else if interval.Some? then interval.value
                        else CpuInterval(0, None, None);
        pending := Some(Pending(nextSequence, trigger, Resolved(window.activity), reported));
        inFlight := Some(nextSequence);
        nextSequence := SaturatingAdd(nextSequence, 1);
        cooldownUntil := Some(SaturatingAdd(now, config.cooldownMs));
        cpuWindow, memoryWindow := None, None;
      }
      previous := Some(PointOf(o));
    }

    method FinishCapture(sequence: U64, result: Result<Summary, Artifact.Utf8>)
      modifies this
      ensures Current() == Finish(old(Current()), sequence, result)
    {
      if inFlight != Some(sequence) {
        return;
      }
      inFlight := None;
      match result {
        case Ok(summary) =>
          triggerCount := SaturatingAdd(triggerCount, 1);
          latest := Some(summary);
          lastError := None;
        case Err(error) =>
          var text := Artifact.TruncateUtf8(error, MAX_ERROR_BYTES);
          lastError := Some(text);
      }
    }
  }
}
