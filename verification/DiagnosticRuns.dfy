/** All interleavings of threads that observe, write their artifact unlocked, and
    finish: capture exclusion, cooldown, counting, and soundness of the windows. */
module DiagnosticRuns {
  import opened Orders
  import opened Diagnostics
  import Artifact

  type Thread = nat

  datatype Step =
    | Observe(thread: Thread, o: Observation)
    | FinishWrite(thread: Thread, result: Result<Summary, Artifact.Utf8>)

  /** `writers` maps each thread that is between prepare and finish, and may so be
      writing the shared temporary file, to the sequence number it carries. */
  datatype System = System(tracker: State, writers: map<Thread, U64>)

  const START := System(INITIAL, map[])

  function Outcome(config: Config, s: System, step: Step): (System, Option<Pending>) {
    match step
    case Observe(t, o) =>
      var (tracker, pending) := Prepare(config, s.tracker, o);
      (System(tracker, if pending.Some? then s.writers[t := pending.value.sequence] else s.writers), pending)
    case FinishWrite(t, result) =>
      if t !in s.writers then (s, None)
      else (System(Finish(s.tracker, s.writers[t], result), s.writers - {t}), None)
  }

  /** A thread observes when it is not writing and finishes when it is. */
  predicate Enabled(s: System, step: Step) {
    if step.Observe? then step.thread !in s.writers else step.thread in s.writers
  }

  ghost predicate IsRun(config: Config, states: seq<System>, steps: seq<Step>) {
    && |states| == |steps| + 1 && states[0] == START
    && forall i :: 0 <= i < |steps| ==>
         Enabled(states[i], steps[i]) && states[i + 1] == Outcome(config, states[i], steps[i]).0
  }

  /** The capture, if any, that step `i` prepares. */
  ghost function Capture(config: Config, states: seq<System>, steps: seq<Step>, i: nat): Option<Pending>
    requires i < |steps| && |states| == |steps| + 1
  {
    Outcome(config, states[i], steps[i]).1
  }

  // ---- exclusion ------------------------------------------------------------------------

  /** The slot is taken exactly while one thread writes, and by that thread. */
  ghost predicate OneWriter(s: System) {
    if s.tracker.inFlight.None? then s.writers == map[]
    else exists t :: s.writers == map[t := s.tracker.inFlight.value]
  }

  lemma StepKeepsOneWriter(config: Config, s: System, step: Step)
    requires OneWriter(s) && Enabled(s, step)
    ensures OneWriter(Outcome(config, s, step).0)
  {
    var s' := Outcome(config, s, step).0;
    if step.FinishWrite? {
      var t :| s.writers == map[t := s.tracker.inFlight.value];
      assert step.thread == t;
      assert s'.writers == map[];
    } else {
      var pending := Outcome(config, s, step).1;
      if pending.Some? {
        assert s'.writers == map[step.thread := pending.value.sequence];
      } else {
        assert s'.tracker.inFlight == s.tracker.inFlight && s'.writers == s.writers;
      }
    }
  }

  lemma {:induction false} AtMostOneWriter(config: Config, states: seq<System>, steps: seq<Step>, n: nat)
    requires IsRun(config, states, steps) && n < |states|
    ensures OneWriter(states[n]) && |states[n].writers| <= 1
  {
    if n > 0 {
      AtMostOneWriter(config, states, steps, n - 1);
      StepKeepsOneWriter(config, states[n - 1], steps[n - 1]);
    }
    if states[n].tracker.inFlight.Some? {
      var t :| states[n].writers == map[t := states[n].tracker.inFlight.value];
      assert states[n].writers.Keys == {t};
      assert |states[n].writers| == |states[n].writers.Keys|;
    }
  }

  /** The guard against a stale sequence number never turns a finish away, not even
      once the sequence has saturated. */
  lemma FinishIsNeverStale(config: Config, states: seq<System>, steps: seq<Step>, i: nat)
    requires IsRun(config, states, steps) && i < |steps| && steps[i].FinishWrite?
    ensures var s := states[i];
            s.tracker.inFlight == Some(s.writers[steps[i].thread]) && states[i + 1].tracker.inFlight == None
  {
    AtMostOneWriter(config, states, steps, i);
    var s := states[i];
    assert Enabled(s, steps[i]);
    var t :| s.writers == map[t := s.tracker.inFlight.value];
    assert steps[i].thread == t;
  }

  // ---- counting --------------------------------------------------------------------------

  function Successes(steps: seq<Step>): nat {
    if steps == [] then 0
    else
      var last := steps[|steps| - 1];
      Successes(steps[..|steps| - 1]) + if last.FinishWrite? && last.result.Ok? then 1 else 0
  }

  function LastSummary(steps: seq<Step>): Option<Summary> {
    if steps == [] then None
    else
      var last := steps[|steps| - 1];
      if last.FinishWrite? && last.result.Ok? then Some(last.result.value) else LastSummary(steps[..|steps| - 1])
  }

  /** The text of the last finish, if that failed, cut to its limit. */
  function LastError(steps: seq<Step>): Option<Artifact.Utf8> {
    if steps == [] then None
    else
      var last := steps[|steps| - 1];
      if last.Observe? then LastError(steps[..|steps| - 1])
      else if last.result.Ok? then None
      else Some(Artifact.Truncated(last.result.error, MAX_ERROR_BYTES))
  }

  /** The counter is the number of captures that finished well, saturating; the latest
      summary is that of the last of them; the error is that of the last finish. */
  lemma {:induction false} CountsSuccesses(config: Config, states: seq<System>, steps: seq<Step>, n: nat)
    requires IsRun(config, states, steps) && n < |states|
    ensures var count := Successes(steps[..n]);
            && states[n].tracker.triggerCount == (if count < U64_MAX then count else U64_MAX)
            && states[n].tracker.latest == LastSummary(steps[..n])
            && states[n].tracker.lastError == LastError(steps[..n])
  {
    if n > 0 {
      CountsSuccesses(config, states, steps, n - 1);
      assert steps[..n][..n - 1] == steps[..n - 1];
      assert Enabled(states[n - 1], steps[n - 1]) && states[n] == Outcome(config, states[n - 1], steps[n - 1]).0;
      if steps[n - 1].FinishWrite? {
        FinishIsNeverStale(config, states, steps, n - 1);
        FinishCounts(states[n - 1].tracker, states[n - 1].writers[steps[n - 1].thread], steps[n - 1].result);
      } else {
        ObservingCountsNothing(config, states[n - 1].tracker, steps[n - 1].o);
      }
    }
  }

  lemma ObservingCountsNothing(config: Config, s: State, o: Observation)
    ensures var s' := Prepare(config, s, o).0;
            s'.triggerCount == s.triggerCount && s'.latest == s.latest && s'.lastError == s.lastError
  {
  }

  lemma FinishCounts(s: State, sequence: U64, result: Result<Summary, Artifact.Utf8>)
    requires s.inFlight == Some(sequence)
    ensures var s' := Finish(s, sequence, result);
            && s'.triggerCount == (if result.Ok? then SaturatingAdd(s.triggerCount, 1) else s.triggerCount)
            && s'.latest == (if result.Ok? then Some(result.value) else s.latest)
            && s'.lastError == (if result.Ok? then None else Some(Artifact.Truncated(result.error, MAX_ERROR_BYTES)))
  {
  }

  // ---- time ------------------------------------------------------------------------------

  /** The system after `steps`. */
  function After(config: Config, steps: seq<Step>): System {
    if steps == [] then START
    else Outcome(config, After(config, steps[..|steps| - 1]), steps[|steps| - 1]).0
  }

  /** The captures that `steps` prepare, in order. */
  function Captures(config: Config, steps: seq<Step>): seq<Pending> {
    if steps == [] then []
    else
      var before := steps[..|steps| - 1];
      var pending := Outcome(config, After(config, before), steps[|steps| - 1]).1;
      Captures(config, before) + if pending.Some? then [pending.value] else []
  }

  ghost predicate AllEnabled(config: Config, steps: seq<Step>) {
    forall i :: 0 <= i < |steps| ==> Enabled(After(config, steps[..i]), steps[i])
  }

  predicate Late(s: System, step: Step) {
    step.Observe? && OutOfOrder(s.tracker, step.o)
  }

  /** `steps` without the samples that are older than one accepted before. */
  function InOrder(config: Config, steps: seq<Step>): seq<Step> {
    if steps == [] then []
    else
      var before, last := steps[..|steps| - 1], steps[|steps| - 1];
      InOrder(config, before) + if Late(After(config, before), last) then [] else [last]
  }

  ghost predicate TimesInOrder(steps: seq<Step>) {
    forall i, j :: 0 <= i < j < |steps| && steps[i].Observe? && steps[j].Observe? ==> steps[i].o.time <= steps[j].o.time
  }

  ghost predicate NoneAfter(steps: seq<Step>, s: System) {
    forall i :: 0 <= i < |steps| && steps[i].Observe? ==> Reached(s, steps[i].o.time)
  }

  lemma {:induction false} RunIsAfter(config: Config, states: seq<System>, steps: seq<Step>, n: nat)
    requires IsRun(config, states, steps) && n <= |steps|
    ensures states[n] == After(config, steps[..n]) && AllEnabled(config, steps[..n])
  {
    if n > 0 {
      var before, last := steps[..n - 1], steps[n - 1];
      RunIsAfter(config, states, steps, n - 1);
      assert Enabled(states[n - 1], last) && states[n] == Outcome(config, states[n - 1], last).0;
      OneMoreStep(config, before, last);
      EnabledOneMore(config, before, last);
      assert steps[..n] == before + [last];
    }
  }

  lemma OneMoreStep(config: Config, before: seq<Step>, last: Step)
    ensures After(config, before + [last]) == Outcome(config, After(config, before), last).0
    ensures Captures(config, before + [last]) ==
            Captures(config, before) +
            var p := Outcome(config, After(config, before), last).1; if p.Some? then [p.value] else []
  {
    assert (before + [last])[..|before|] == before;
  }

  lemma EnabledOneMore(config: Config, before: seq<Step>, last: Step)
    requires AllEnabled(config, before) && Enabled(After(config, before), last)
    ensures AllEnabled(config, before + [last])
  {
    var steps := before + [last];
    forall i | 0 <= i < |steps| ensures Enabled(After(config, steps[..i]), steps[i]) {
      assert steps[..i] == before[..i];
      assert i == |before| ==> before[..i] == before;
    }
  }

  lemma StepReaches(config: Config, s: System, step: Step, time: U64)
    requires !Late(s, step)
    ensures Reached(s, time) ==> Reached(Outcome(config, s, step).0, time)
    ensures step.Observe? ==> Reached(Outcome(config, s, step).0, step.o.time)
  {
  }

  /** `kept` is a run of its own, with times in order, that prepares the captures of
      `steps` and ends in the same state. */
  ghost predicate Mirrors(config: Config, kept: seq<Step>, steps: seq<Step>) {
    && After(config, kept) == After(config, steps) && Captures(config, kept) == Captures(config, steps)
    && AllEnabled(config, kept) && TimesInOrder(kept) && NoneAfter(kept, After(config, kept))
  }

  lemma MirrorsDropped(config: Config, kept: seq<Step>, before: seq<Step>, last: Step)
    requires Mirrors(config, kept, before) && Late(After(config, before), last)
    ensures Mirrors(config, kept, before + [last])
  {
    OneMoreStep(config, before, last);
  }

  lemma MirrorsKept(config: Config, kept: seq<Step>, before: seq<Step>, last: Step)
    requires Mirrors(config, kept, before) && !Late(After(config, before), last) && Enabled(After(config, before), last)
    ensures Mirrors(config, kept + [last], before + [last])
  {
    OneMoreStep(config, before, last);
    OneMoreStep(config, kept, last);
    EnabledOneMore(config, kept, last);
    InOrderExtends(config, kept, After(config, before), last);
  }

  lemma EnabledBefore(config: Config, before: seq<Step>, last: Step)
    requires AllEnabled(config, before + [last])
    ensures AllEnabled(config, before) && Enabled(After(config, before), last)
  {
    var steps := before + [last];
    assert steps[..|before|] == before && steps[|before|] == last;
    forall i | 0 <= i < |before| ensures Enabled(After(config, before[..i]), before[i]) {
      assert before[..i] == steps[..i] && before[i] == steps[i];
    }
  }

  lemma MirrorsOneMore(config: Config, before: seq<Step>, last: Step)
    requires Mirrors(config, InOrder(config, before), before) && Enabled(After(config, before), last)
    ensures Mirrors(config, InOrder(config, before + [last]), before + [last])
  {
    var steps, kept := before + [last], InOrder(config, before);
    assert steps[..|steps| - 1] == before;
    if Late(After(config, before), last) {
      MirrorsDropped(config, kept, before, last);
      assert InOrder(config, steps) == kept;
    } else {
      MirrorsKept(config, kept, before, last);
      assert InOrder(config, steps) == kept + [last];
    }
  }

  /** Late samples are invisible: whatever the threads do, the steps without the samples
      that came out of order are a run of their own, with times in order, that prepares
      the same captures and ends in the same state. */
  lemma {:induction false} LateSamplesAreInvisible(config: Config, steps: seq<Step>)
    requires AllEnabled(config, steps)
    ensures Mirrors(config, InOrder(config, steps), steps)
  {
    if steps != [] {
      var before, last := steps[..|steps| - 1], steps[|steps| - 1];
      assert steps == before + [last];
      EnabledBefore(config, before, last);
      LateSamplesAreInvisible(config, before);
      MirrorsOneMore(config, before, last);
    }
  }

  lemma InOrderExtends(config: Config, kept: seq<Step>, s: System, last: Step)
    requires TimesInOrder(kept) && NoneAfter(kept, s) && !Late(s, last)
    ensures TimesInOrder(kept + [last]) && NoneAfter(kept + [last], Outcome(config, s, last).0)
  {
    var more := kept + [last];
    forall i | 0 <= i < |more| && more[i].Observe? ensures Reached(Outcome(config, s, last).0, more[i].o.time) {
      StepReaches(config, s, last, more[i].o.time);
    }
  }

  /** Accepted times never go back. */
  ghost predicate Reached(s: System, time: U64) {
    s.tracker.previous.Some? && s.tracker.previous.value.time >= time
  }

  lemma {:induction false} TimeAdvances(config: Config, states: seq<System>, steps: seq<Step>, time: U64, i: nat, n: nat)
    requires IsRun(config, states, steps) && i <= n < |states| && Reached(states[i], time)
    ensures Reached(states[n], time)
  {
    if i < n {
      TimeAdvances(config, states, steps, time, i, n - 1);
      assert states[n] == Outcome(config, states[n - 1], steps[n - 1]).0;
    }
  }

  /** When the last of the first `n` steps that prepared a capture did so. */
  ghost function LastCapture(config: Config, states: seq<System>, steps: seq<Step>, n: nat): Option<U64>
    requires n <= |steps| && |states| == |steps| + 1
  {
    if n == 0 then None
    else if Capture(config, states, steps, n - 1).Some? then Some(steps[n - 1].o.time)
    else LastCapture(config, states, steps, n - 1)
  }

  /** The cooldown is always that of the last capture. */
  lemma {:induction false} CooldownIsOfLastCapture(config: Config, states: seq<System>, steps: seq<Step>, n: nat)
    requires IsRun(config, states, steps) && n < |states|
    ensures var last := LastCapture(config, states, steps, n);
            && states[n].tracker.cooldownUntil ==
               (if last.None? then None else Some(SaturatingAdd(last.value, config.cooldownMs)))
            && (last.Some? ==> Reached(states[n], last.value))
  {
    if n > 0 {
      CooldownIsOfLastCapture(config, states, steps, n - 1);
      assert states[n] == Outcome(config, states[n - 1], steps[n - 1]).0;
    }
  }

  lemma {:induction false} LastCaptureGrows(config: Config, states: seq<System>, steps: seq<Step>, i: nat, n: nat)
    requires IsRun(config, states, steps) && i < n < |states| && Capture(config, states, steps, i).Some?
    ensures var last := LastCapture(config, states, steps, n);
            last.Some? && last.value >= steps[i].o.time
  {
    if i < n - 1 {
      LastCaptureGrows(config, states, steps, i, n - 1);
      CooldownIsOfLastCapture(config, states, steps, n - 1);
      LastCaptureStep(config, states, steps, n, LastCapture(config, states, steps, n - 1).value);
    }
  }

  lemma LastCaptureStep(config: Config, states: seq<System>, steps: seq<Step>, n: nat, time: U64)
    requires |states| == |steps| + 1 && 0 < n <= |steps|
    requires LastCapture(config, states, steps, n - 1) == Some(time) && Reached(states[n - 1], time)
    ensures var last := LastCapture(config, states, steps, n);
            last.Some? && last.value >= time
  {
    if Capture(config, states, steps, n - 1).Some? {
      CaptureIsLater(config, states[n - 1], steps[n - 1], time);
    }
  }

  lemma CaptureIsLater(config: Config, s: System, step: Step, time: U64)
    requires Reached(s, time) && Outcome(config, s, step).1.Some?
    ensures step.Observe? && step.o.time >= time
  {
  }

  /** A sample may start a capture exactly when no thread is writing one and the last
      one started at least the cooldown earlier, saturating. */
  lemma MayCaptureExactly(config: Config, states: seq<System>, steps: seq<Step>, n: nat, now: U64)
    requires IsRun(config, states, steps) && n < |states|
    ensures var last := LastCapture(config, states, steps, n);
            MayCapture(states[n].tracker, now) <==>
            states[n].writers == map[] && (last.None? || now >= SaturatingAdd(last.value, config.cooldownMs))
  {
    AtMostOneWriter(config, states, steps, n);
    CooldownIsOfLastCapture(config, states, steps, n);
    if states[n].tracker.inFlight.Some? {
      var t :| states[n].writers == map[t := states[n].tracker.inFlight.value];
      assert t in states[n].writers;
    }
  }

  /** Any two captures start at least the cooldown apart, saturating. */
  lemma CapturesAreApart(config: Config, states: seq<System>, steps: seq<Step>, i: nat, j: nat)
    requires IsRun(config, states, steps) && i < j < |steps|
    requires Capture(config, states, steps, i).Some? && Capture(config, states, steps, j).Some?
    ensures steps[j].o.time >= SaturatingAdd(steps[i].o.time, config.cooldownMs)
  {
    LastCaptureGrows(config, states, steps, i, j);
    MayCaptureExactly(config, states, steps, j, steps[j].o.time);
  }

  // ---- windows ---------------------------------------------------------------------------

  function WindowFor(s: State, k: Trigger): Option<Window> {
    if k.Cpu? then s.cpuWindow else s.memoryWindow
  }

  /** The sample is above the threshold: for CPU, more CPU time since the previous point
      than the threshold, in percent of one core, allows; for memory, more bytes. */
  predicate High(config: Config, s: State, o: Observation, k: Trigger) {
    if k.Cpu? then
      && s.previous.Some? && s.previous.value.cpu.Some? && o.cpu.Some?
      && s.previous.value.time < o.time && s.previous.value.cpu.value <= o.cpu.value
      && ((o.cpu.value - s.previous.value.cpu.value) * 100) as real >
         config.cpuThreshold * ((o.time - s.previous.value.time) * 1000) as real
    else o.anonymousMemory.Some? && o.anonymousMemory.value > config.memoryThreshold
  }

  /** That is what the windows track. */
  lemma TracksWhatIsHigh(config: Config, s: State, o: Observation, k: Trigger)
    ensures var classes := {o.request} + if k.Cpu? && s.previous.Some? then s.previous.value.classes else {};
            WindowFor(Tracked(config, s, o), k) ==
            UpdatedWindow(WindowFor(s, k), High(config, s, o, k), o.time, o.cpu, classes)
  {
    if s.previous.Some? {
      CpuHighExactly(config, s.previous.value, o);
      assert s.previous.value.classes + {o.request} == {o.request} + s.previous.value.classes;
    }
    assert {o.request} + {} == {o.request};
  }

  ghost predicate Advancing(states: seq<System>, steps: seq<Step>, i: nat)
    requires i < |steps| < |states|
  {
    steps[i].Observe? && Advances(states[i].tracker, steps[i].o)
  }

  /** Every advancing sample of steps `j` to `i` was above the threshold of `k`, and
      no capture was prepared from step `j` on before step `i`. */
  ghost predicate AboveThroughout(config: Config, states: seq<System>, steps: seq<Step>, k: Trigger, j: nat, i: nat)
    requires j <= i < |steps| && |states| == |steps| + 1
  {
    && Advancing(states, steps, j)
    && (forall m :: j <= m <= i && Advancing(states, steps, m) ==> High(config, states[m].tracker, steps[m].o, k))
    && (forall m :: j <= m < i ==> Capture(config, states, steps, m).None?)
  }

  // ---- activity classes ---------------------------------------------------------------------

  /** The classes that an advancing step shows to a window: those of its own request and,
      for CPU, which is measured over intervals, those of the previous point. */
  function ShownClasses(s: System, step: Step, k: Trigger): Classes
    requires step.Observe?
  {
    {step.o.request} + if k.Cpu? && s.tracker.previous.Some? then s.tracker.previous.value.classes else {}
  }

  ghost predicate Repeats(states: seq<System>, steps: seq<Step>, m: nat)
    requires m < |steps| < |states|
  {
    steps[m].Observe? && SameTime(states[m].tracker, steps[m].o)
  }

  /** Step `m` shows class `c`: as an advancing sample, or as another one of the same time. */
  ghost predicate Shows(states: seq<System>, steps: seq<Step>, k: Trigger, m: nat, c: RequestClass)
    requires m < |steps| < |states|
  {
    || (Advancing(states, steps, m) && c in ShownClasses(states[m], steps[m], k))
    || (Repeats(states, steps, m) && steps[m].o.request == c)
  }

  /** Step `m` brings `c` into a window that step `j` opened: by opening it, or by a further
      sample of the same time. */
  ghost predicate Brings(states: seq<System>, steps: seq<Step>, k: Trigger, j: nat, m: nat, c: RequestClass)
    requires m < |steps| < |states|
  {
    if m == j then Advancing(states, steps, m) && c in ShownClasses(states[m], steps[m], k)
    else Repeats(states, steps, m) && steps[m].o.request == c
  }

  /** Every advancing sample after step `m` shows `c` too. */
  ghost predicate KeptSince(states: seq<System>, steps: seq<Step>, k: Trigger, m: nat, i: nat, c: RequestClass)
    requires i < |steps| < |states|
  {
    forall n :: m < n <= i && Advancing(states, steps, n) ==> c in ShownClasses(states[n], steps[n], k)
  }

  ghost predicate EverShown(states: seq<System>, steps: seq<Step>, k: Trigger, j: nat, i: nat, c: RequestClass)
    requires i < |steps| < |states|
  {
    exists m :: j <= m <= i && Shows(states, steps, k, m, c)
  }

  ghost predicate StillThere(states: seq<System>, steps: seq<Step>, k: Trigger, j: nat, i: nat, c: RequestClass)
    requires i < |steps| < |states|
  {
    exists m :: j <= m <= i && Brings(states, steps, k, j, m, c) && KeptSince(states, steps, k, m, i, c)
  }

  /** The evidence of a window from step `j` to step `i`: the union holds what was ever
      shown, the intersection what was brought in and then shown by every advancing
      sample. */
  ghost predicate EvidenceIs(states: seq<System>, steps: seq<Step>, k: Trigger, e: Evidence, j: nat, i: nat)
    requires i < |steps| < |states|
  {
    && (forall c :: c in e.union <==> EverShown(states, steps, k, j, i, c))
    && (forall c :: c in e.intersection <==> StillThere(states, steps, k, j, i, c))
  }

  lemma EvidenceOpens(states: seq<System>, steps: seq<Step>, k: Trigger, j: nat)
    requires j < |steps| < |states| && Advancing(states, steps, j)
    ensures EvidenceIs(states, steps, k, NewEvidence(ShownClasses(states[j], steps[j], k)), j, j)
  {
    forall c ensures EverShown(states, steps, k, j, j, c) <==> c in ShownClasses(states[j], steps[j], k) {
      assert Shows(states, steps, k, j, c) <==> c in ShownClasses(states[j], steps[j], k);
    }
    forall c ensures StillThere(states, steps, k, j, j, c) <==> c in ShownClasses(states[j], steps[j], k) {
      assert KeptSince(states, steps, k, j, j, c);
      assert Brings(states, steps, k, j, j, c) <==> c in ShownClasses(states[j], steps[j], k);
    }
  }

  lemma ShownOneMore(states: seq<System>, steps: seq<Step>, k: Trigger, j: nat, i: nat, c: RequestClass)
    requires j < i < |steps| < |states|
    ensures EverShown(states, steps, k, j, i, c) <==> EverShown(states, steps, k, j, i - 1, c) || Shows(states, steps, k, i, c)
  {
  }

  lemma ThereOneMore(states: seq<System>, steps: seq<Step>, k: Trigger, j: nat, i: nat, c: RequestClass)
    requires j < i < |steps| < |states|
    ensures StillThere(states, steps, k, j, i, c) <==>
            || (Repeats(states, steps, i) && steps[i].o.request == c)
            || (StillThere(states, steps, k, j, i - 1, c) &&
                (Advancing(states, steps, i) ==> c in ShownClasses(states[i], steps[i], k)))
  {
    forall m: nat | m < i
      ensures KeptSince(states, steps, k, m, i, c) <==>
              KeptSince(states, steps, k, m, i - 1, c) &&
              (Advancing(states, steps, i) ==> c in ShownClasses(states[i], steps[i], k))
    {
      KeptOneMore(states, steps, k, m, i, c);
    }
    assert KeptSince(states, steps, k, i, i, c);
    assert Brings(states, steps, k, j, i, c) <==> Repeats(states, steps, i) && steps[i].o.request == c;
    if StillThere(states, steps, k, j, i - 1, c) {
      var m :| j <= m <= i - 1 && Brings(states, steps, k, j, m, c) && KeptSince(states, steps, k, m, i - 1, c);
      assert KeptSince(states, steps, k, m, i, c) <==>
             (Advancing(states, steps, i) ==> c in ShownClasses(states[i], steps[i], k));
    }
    if StillThere(states, steps, k, j, i, c) && !(Repeats(states, steps, i) && steps[i].o.request == c) {
      var m :| j <= m <= i && Brings(states, steps, k, j, m, c) && KeptSince(states, steps, k, m, i, c);
      assert m < i;
    }
  }

  lemma KeptOneMore(states: seq<System>, steps: seq<Step>, k: Trigger, m: nat, i: nat, c: RequestClass)
    requires m < i < |steps| < |states|
    ensures KeptSince(states, steps, k, m, i, c) <==>
            KeptSince(states, steps, k, m, i - 1, c) &&
            (Advancing(states, steps, i) ==> c in ShownClasses(states[i], steps[i], k))
  {
  }

  /** An advancing sample joins the union with what it shows and cuts the intersection. */
  lemma EvidenceAdvances(states: seq<System>, steps: seq<Step>, k: Trigger, e: Evidence, j: nat, i: nat)
    requires j < i < |steps| < |states| && EvidenceIs(states, steps, k, e, j, i - 1) && Advancing(states, steps, i)
    ensures EvidenceIs(states, steps, k, Observed(e, ShownClasses(states[i], steps[i], k)), j, i)
  {
    forall c ensures EverShown(states, steps, k, j, i, c) <==> c in e.union || c in ShownClasses(states[i], steps[i], k) {
      ShownOneMore(states, steps, k, j, i, c);
    }
    forall c ensures StillThere(states, steps, k, j, i, c) <==> c in e.intersection && c in ShownClasses(states[i], steps[i], k) {
      ThereOneMore(states, steps, k, j, i, c);
    }
  }

  /** A further sample of the same time joins both; any other step changes neither. */
  lemma EvidenceRepeats(states: seq<System>, steps: seq<Step>, k: Trigger, e: Evidence, j: nat, i: nat)
    requires j < i < |steps| < |states| && EvidenceIs(states, steps, k, e, j, i - 1) && !Advancing(states, steps, i)
    ensures EvidenceIs(states, steps, k, AfterOther(states[i], steps[i], e), j, i)
  {
    forall c ensures EverShown(states, steps, k, j, i, c) <==> c in AfterOther(states[i], steps[i], e).union {
      ShownOneMore(states, steps, k, j, i, c);
    }
    forall c ensures StillThere(states, steps, k, j, i, c) <==> c in AfterOther(states[i], steps[i], e).intersection {
      ThereOneMore(states, steps, k, j, i, c);
    }
  }

  /** The evidence after a step that does not advance time. */
  function AfterOther(s: System, step: Step, e: Evidence): Evidence {
    if step.Observe? && SameTime(s.tracker, step.o) then
      Evidence(e.union + {step.o.request}, e.intersection + {step.o.request})
    else e
  }

  // ---- where windows come from -------------------------------------------------------------------

  /** `w` is a window that step `j` opened and that step `i` last looked at. */
  ghost predicate Spans(config: Config, states: seq<System>, steps: seq<Step>, k: Trigger, w: Window, j: nat, i: nat)
    requires |states| == |steps| + 1
  {
    && j <= i < |steps|
    && AboveThroughout(config, states, steps, k, j, i)
    && w.started == steps[j].o.time && w.cpu == steps[j].o.cpu
    && EvidenceIs(states, steps, k, w.activity, j, i)
  }

  /** The window an advancing sample leaves before any capture. */
  lemma {:induction false} TrackedOrigin(config: Config, states: seq<System>, steps: seq<Step>, k: Trigger, i: nat)
    returns (j: nat)
    requires IsRun(config, states, steps) && i < |steps| && config.enabled && Advancing(states, steps, i)
    requires WindowFor(Tracked(config, states[i].tracker, steps[i].o), k).Some?
    ensures Spans(config, states, steps, k, WindowFor(Tracked(config, states[i].tracker, steps[i].o), k).value, j, i)
    decreases i, 1
  {
    var s, o := states[i].tracker, steps[i].o;
    TracksWhatIsHigh(config, s, o, k);
    if WindowFor(s, k).None? {
      j := i;
      EvidenceOpens(states, steps, k, i);
    } else {
      j := WindowOrigin(config, states, steps, k, i);
      SpanAdvances(config, states, steps, k, WindowFor(s, k).value, j, i);
    }
  }

  /** An advancing sample above the threshold carries a window on. */
  lemma SpanAdvances(config: Config, states: seq<System>, steps: seq<Step>, k: Trigger, w: Window, j: nat, i: nat)
    requires |states| == |steps| + 1 && 0 < i < |steps| && Spans(config, states, steps, k, w, j, i - 1)
    requires Advancing(states, steps, i) && High(config, states[i].tracker, steps[i].o, k)
    requires Capture(config, states, steps, i - 1).None?
    ensures Spans(config, states, steps, k,
                  w.(activity := Observed(w.activity, ShownClasses(states[i], steps[i], k))), j, i)
  {
    EvidenceAdvances(states, steps, k, w.activity, j, i);
    AboveOneMore(config, states, steps, k, j, i);
  }

  lemma AboveOneMore(config: Config, states: seq<System>, steps: seq<Step>, k: Trigger, j: nat, i: nat)
    requires |states| == |steps| + 1 && j < i < |steps| && AboveThroughout(config, states, steps, k, j, i - 1)
    requires Advancing(states, steps, i) ==> High(config, states[i].tracker, steps[i].o, k)
    requires Capture(config, states, steps, i - 1).None?
    ensures AboveThroughout(config, states, steps, k, j, i)
  {
  }

  /** A step that does not advance time adds at most its own class to a window. */
  lemma SpanExtends(
    config: Config, states: seq<System>, steps: seq<Step>, k: Trigger, w: Window, w': Window, j: nat, i: nat)
    requires IsRun(config, states, steps) && 0 < i < |steps| && Spans(config, states, steps, k, w, j, i - 1)
    requires !Advancing(states, steps, i) && Capture(config, states, steps, i - 1).None?
    requires w' == w.(activity := AfterOther(states[i], steps[i], w.activity))
    ensures Spans(config, states, steps, k, w', j, i)
  {
    EvidenceRepeats(states, steps, k, w.activity, j, i);
    AboveOneMore(config, states, steps, k, j, i);
  }

  /** An advancing sample leaves the window it tracked, unless it prepares a capture. */
  lemma TrackedWindowKept(config: Config, s: System, step: Step, k: Trigger)
    requires step.Observe? && Advances(s.tracker, step.o) && config.enabled
    ensures var (s', pending) := Outcome(config, s, step);
            if pending.Some? then WindowFor(s'.tracker, k).None?
            else WindowFor(s'.tracker, k) == WindowFor(Tracked(config, s.tracker, step.o), k)
  {
  }

  /** Any other step prepares no capture and opens no window; it adds at most its own
      class to the one there is. */
  lemma OtherStepKeepsWindow(config: Config, s: System, step: Step, k: Trigger)
    requires !(step.Observe? && Advances(s.tracker, step.o) && config.enabled)
    ensures var (s', pending) := Outcome(config, s, step);
            var before, after := WindowFor(s.tracker, k), WindowFor(s'.tracker, k);
            && pending.None?
            && after == if before.None? then None
                        else Some(before.value.(activity := AfterOther(s, step, before.value.activity)))
  {
  }

  /** The window a state carries. */
  lemma {:induction false} WindowOrigin(config: Config, states: seq<System>, steps: seq<Step>, k: Trigger, n: nat)
    returns (j: nat)
    requires IsRun(config, states, steps) && n < |states|
    requires WindowFor(states[n].tracker, k).Some?
    ensures config.enabled && n > 0 && Capture(config, states, steps, n - 1).None?
    ensures Spans(config, states, steps, k, WindowFor(states[n].tracker, k).value, j, n - 1)
    decreases n, 0
  {
    assert n > 0;
    var before, step := states[n - 1], steps[n - 1];
    assert states[n] == Outcome(config, before, step).0;
    if step.Observe? && Advances(before.tracker, step.o) && config.enabled {
      TrackedWindowKept(config, before, step, k);
      j := TrackedOrigin(config, states, steps, k, n - 1);
    } else {
      OtherStepKeepsWindow(config, before, step, k);
      j := WindowOrigin(config, states, steps, k, n - 1);
      SpanExtends(config, states, steps, k, WindowFor(before.tracker, k).value, WindowFor(states[n].tracker, k).value, j, n - 1);
    }
  }

  /** Soundness of the sustained windows: when a CPU or memory capture is prepared,
      some accepted sample at least the configured time earlier opened a stretch in
      which every advancing sample was above the threshold and no capture was
      prepared. The interval reported measures that stretch. The classes reported are
      those brought in and then shown by every advancing sample of it, or, if there are
      none, all that were ever shown in it; there is always one. */
  lemma CaptureIsSustained(config: Config, states: seq<System>, steps: seq<Step>, i: nat) returns (j: nat)
    requires IsRun(config, states, steps) && i < |steps|
    requires Capture(config, states, steps, i).Some? && !Capture(config, states, steps, i).value.trigger.ExitedUnreapedHolder?
    ensures j <= i && steps[j].Observe?
    ensures AboveThroughout(config, states, steps, Capture(config, states, steps, i).value.trigger, j, i)
    ensures steps[i].o.time - steps[j].o.time >= config.sustainedMs
    ensures var pending := Capture(config, states, steps, i).value;
            Measures(pending.interval, steps[j].o.time, steps[j].o.cpu, steps[i].o.time, steps[i].o.cpu)
    ensures var pending := Capture(config, states, steps, i).value;
            var all := exists c :: StillThere(states, steps, pending.trigger, j, i, c);
            && pending.classes != {}
            && forall c :: c in pending.classes <==>
                 if all then StillThere(states, steps, pending.trigger, j, i, c)
                 else EverShown(states, steps, pending.trigger, j, i, c)
  {
    var pending := Capture(config, states, steps, i).value;
    var w := WindowFor(Tracked(config, states[i].tracker, steps[i].o), pending.trigger);
    CaptureComesFromWindow(config, states[i].tracker, steps[i].o);
    j := TrackedOrigin(config, states, steps, pending.trigger, i);
    SpanStartsEarlier(config, states, steps, j, i);
    WindowMeasures(w.value, steps[i].o);
    ResolvedIs(states, steps, pending.trigger, w.value.activity, j, i);
  }

  lemma ResolvedIs(states: seq<System>, steps: seq<Step>, k: Trigger, e: Evidence, j: nat, i: nat)
    requires j <= i < |steps| < |states| && EvidenceIs(states, steps, k, e, j, i) && Advancing(states, steps, j)
    ensures var all := exists c :: StillThere(states, steps, k, j, i, c);
            && Resolved(e) != {}
            && forall c :: c in Resolved(e) <==>
                 if all then StillThere(states, steps, k, j, i, c) else EverShown(states, steps, k, j, i, c)
  {
    assert Shows(states, steps, k, j, steps[j].o.request);
    assert steps[j].o.request in e.union;
    if e.intersection != {} {
      var c :| c in e.intersection;
      assert StillThere(states, steps, k, j, i, c);
    }
  }

  /** A CPU or memory capture is that of its window, which is due. */
  lemma CaptureComesFromWindow(config: Config, s: State, o: Observation)
    requires Prepare(config, s, o).1.Some? && !Prepare(config, s, o).1.value.trigger.ExitedUnreapedHolder?
    ensures config.enabled && Advances(s, o)
    ensures var pending, t := Prepare(config, s, o).1.value, Tracked(config, s, o);
            var w := WindowFor(t, pending.trigger);
            && w.Some? && Sustained(config, o.time, w) && pending.classes == Resolved(w.value.activity)
            && pending.interval == WindowInterval(w.value, PointOf(o))
            && ReadyTrigger(config, t.cpuWindow, t.memoryWindow, o) == Some((pending.trigger, w.value))
  {
  }

  lemma {:induction false} WindowReachesBack(
    config: Config, states: seq<System>, steps: seq<Step>, k: Trigger, j: nat, i: nat)
    requires IsRun(config, states, steps) && j <= i < |steps| && config.enabled && Advancing(states, steps, i)
    requires AboveThroughout(config, states, steps, k, j, i)
    ensures var w := WindowFor(Tracked(config, states[i].tracker, steps[i].o), k);
            w.Some? && w.value.started <= steps[j].o.time
    decreases i, 1
  {
    assert High(config, states[i].tracker, steps[i].o, k);
    TracksWhatIsHigh(config, states[i].tracker, steps[i].o, k);
    if j == i {
      var origin := TrackedOrigin(config, states, steps, k, i);
      SpanStartsEarlier(config, states, steps, origin, i);
    } else {
      CarriedWindow(config, states, steps, k, j, i);
    }
  }

  lemma SpanStartsEarlier(config: Config, states: seq<System>, steps: seq<Step>, j: nat, i: nat)
    requires IsRun(config, states, steps) && j <= i < |steps| && Advancing(states, steps, j) && Advancing(states, steps, i)
    ensures steps[j].o.time <= steps[i].o.time
  {
    if j < i {
      assert states[j + 1] == Outcome(config, states[j], steps[j]).0;
      TimeAdvances(config, states, steps, steps[j].o.time, j + 1, i);
    }
  }

  /** Between the first and the last sample of such a stretch, the state carries a
      window that reaches back to the first. */
  lemma {:induction false} CarriedWindow(
    config: Config, states: seq<System>, steps: seq<Step>, k: Trigger, j: nat, n: nat)
    requires IsRun(config, states, steps) && j < n < |steps| && config.enabled
    requires AboveThroughout(config, states, steps, k, j, n)
    ensures WindowFor(states[n].tracker, k).Some? && WindowFor(states[n].tracker, k).value.started <= steps[j].o.time
    decreases n, 0
  {
    assert Capture(config, states, steps, n - 1).None?;
    assert states[n] == Outcome(config, states[n - 1], steps[n - 1]).0;
    if j == n - 1 {
      WindowReachesBack(config, states, steps, k, j, j);
    } else {
      CarriedWindow(config, states, steps, k, j, n - 1);
      if Advancing(states, steps, n - 1) {
        assert High(config, states[n - 1].tracker, steps[n - 1].o, k);
        TracksWhatIsHigh(config, states[n - 1].tracker, steps[n - 1].o, k);
      }
    }
  }

  /** Completeness: such a stretch, once it is long enough, is captured by its next
      advancing sample unless a thread is still writing or the cooldown runs. */
  lemma SustainedIsCaptured(config: Config, states: seq<System>, steps: seq<Step>, k: Trigger, j: nat, i: nat)
    requires IsRun(config, states, steps) && j <= i < |steps| && config.enabled && Advancing(states, steps, i)
    requires AboveThroughout(config, states, steps, k, j, i) && !k.ExitedUnreapedHolder?
    requires steps[i].o.time - steps[j].o.time >= config.sustainedMs && states[i].writers == map[]
    requires var last := LastCapture(config, states, steps, i);
             last.Some? ==> steps[i].o.time >= SaturatingAdd(last.value, config.cooldownMs)
    ensures Capture(config, states, steps, i).Some?
  {
    MayCaptureExactly(config, states, steps, i, steps[i].o.time);
    WindowReachesBack(config, states, steps, k, j, i);
  }

  /** Of several stretches that are long enough, the capture reports one that began first:
      it opened no later than any other, and a memory stretch opened before any of CPU. */
  lemma OldestStretchIsReported(
    config: Config, states: seq<System>, steps: seq<Step>, i: nat, other: Trigger, m: nat) returns (j: nat)
    requires IsRun(config, states, steps) && m <= i < |steps|
    requires Capture(config, states, steps, i).Some? && !Capture(config, states, steps, i).value.trigger.ExitedUnreapedHolder?
    requires AboveThroughout(config, states, steps, other, m, i) && !other.ExitedUnreapedHolder?
    requires steps[i].o.time - steps[m].o.time >= config.sustainedMs
    ensures var k := Capture(config, states, steps, i).value.trigger;
            && j <= i && AboveThroughout(config, states, steps, k, j, i) && steps[j].o.time <= steps[i].o.time
            && Measures(Capture(config, states, steps, i).value.interval,
                        steps[j].o.time, steps[j].o.cpu, steps[i].o.time, steps[i].o.cpu)
            && steps[j].o.time <= steps[m].o.time
            && (k.AnonymousMemory? && other.Cpu? ==> steps[j].o.time < steps[m].o.time)
  {
    var k := Capture(config, states, steps, i).value.trigger;
    var t := Tracked(config, states[i].tracker, steps[i].o);
    CaptureComesFromWindow(config, states[i].tracker, steps[i].o);
    j := TrackedOrigin(config, states, steps, k, i);
    SpanStartsEarlier(config, states, steps, j, i);
    WindowMeasures(WindowFor(t, k).value, steps[i].o);
    WindowReachesBack(config, states, steps, other, m, i);
    EarliestWindowIsDue(config, t.cpuWindow, t.memoryWindow, steps[i].o);
  }

  /** An exited holder that was not reaped is reported by the first advancing sample that
      sees it, before any window, unless a thread is still writing or the cooldown runs;
      with the class of its own request and the interval since the previous point. */
  lemma ExitedHolderIsCaptured(config: Config, states: seq<System>, steps: seq<Step>, i: nat)
    requires IsRun(config, states, steps) && i < |steps| && config.enabled && Advancing(states, steps, i)
    requires steps[i].o.exitedUnreaped.Some? && steps[i].o.exitedUnreaped.value > 0 && states[i].writers == map[]
    requires var last := LastCapture(config, states, steps, i);
             last.Some? ==> steps[i].o.time >= SaturatingAdd(last.value, config.cooldownMs)
    ensures Capture(config, states, steps, i).Some?
    ensures var pending, previous := Capture(config, states, steps, i).value, states[i].tracker.previous;
            && pending.trigger.ExitedUnreapedHolder? && pending.classes == {steps[i].o.request}
            && (previous.None? ==> pending.interval == CpuInterval(0, None, None))
            && (previous.Some? ==>
                  Measures(pending.interval, previous.value.time, previous.value.cpu, steps[i].o.time, steps[i].o.cpu))
  {
    MayCaptureExactly(config, states, steps, i, steps[i].o.time);
    if states[i].tracker.previous.Some? {
      IntervalMeasures(states[i].tracker.previous.value, PointOf(steps[i].o));
    }
  }

  /** The number of a capture is how many there have been, saturating. */
  lemma {:induction false} CapturesAreNumbered(config: Config, steps: seq<Step>)
    ensures var captures := Captures(config, steps);
            && After(config, steps).tracker.nextSequence == Numbered(|captures|)
            && forall n :: 0 <= n < |captures| ==> captures[n].sequence == Numbered(n)
  {
    if steps != [] {
      CapturesAreNumbered(config, steps[..|steps| - 1]);
      StepNumbers(config, After(config, steps[..|steps| - 1]), steps[|steps| - 1]);
    }
  }

  function Numbered(n: nat): U64 {
    if n + 1 < U64_MAX then n + 1 else U64_MAX
  }

  lemma StepNumbers(config: Config, s: System, step: Step)
    ensures var (s', pending) := Outcome(config, s, step);
            && (pending.None? ==> s'.tracker.nextSequence == s.tracker.nextSequence)
            && (pending.Some? ==> pending.value.sequence == s.tracker.nextSequence
                                  && s'.tracker.nextSequence == SaturatingAdd(s.tracker.nextSequence, 1))
  {
  }

  // ---- the previous point ---------------------------------------------------------------------------

  predicate AtTime(steps: seq<Step>, i: int, time: U64) {
    0 <= i < |steps| && steps[i].Observe? && steps[i].o.time == time
  }

  /** `p` sums up the newest samples of `steps`: their time, the classes of all of them, and
      the highest counter among them. */
  ghost predicate SumsUpNewest(steps: seq<Step>, p: Point) {
    && (exists i :: AtTime(steps, i, p.time))
    && (forall i :: 0 <= i < |steps| && steps[i].Observe? ==> steps[i].o.time <= p.time)
    && (forall c :: c in p.classes <==> exists i :: AtTime(steps, i, p.time) && steps[i].o.request == c)
    && (p.cpu.Some? ==> exists i :: AtTime(steps, i, p.time) && steps[i].o.cpu == p.cpu)
    && (forall i :: AtTime(steps, i, p.time) && steps[i].o.cpu.Some? ==>
          p.cpu.Some? && steps[i].o.cpu.value <= p.cpu.value)
  }

  /** In every run, the previous point sums up the newest of all samples so far, whatever
      came late in between. */
  lemma {:induction false} PreviousSumsUpNewest(config: Config, steps: seq<Step>)
    ensures var previous := After(config, steps).tracker.previous;
            && (previous.None? <==> forall i :: 0 <= i < |steps| ==> !steps[i].Observe?)
            && (previous.Some? ==> SumsUpNewest(steps, previous.value))
  {
    if steps != [] {
      var before, last := steps[..|steps| - 1], steps[|steps| - 1];
      PreviousSumsUpNewest(config, before);
      PreviousAfter(config, After(config, before), last);
      assert forall i :: 0 <= i < |before| ==> steps[i] == before[i];
      var was := After(config, before).tracker.previous;
      if last.Observe? {
        if was.Some? && last.o.time <= was.value.time {
          SumOneMore(before, was.value, last.o, steps);
        } else {
          SumAnew(before, last.o, steps);
        }
      } else if was.Some? {
        SumStays(before, was.value, steps);
      }
    }
  }

  lemma PreviousAfter(config: Config, s: System, step: Step)
    ensures var was, now := s.tracker.previous, Outcome(config, s, step).0.tracker.previous;
            if step.FinishWrite? then now == was
            else if was.Some? && step.o.time < was.value.time then now == was
            else if was.Some? && step.o.time == was.value.time then
              now == Some(Point(was.value.time, MaxOptional(was.value.cpu, step.o.cpu), was.value.classes + {step.o.request}))
            else now == Some(PointOf(step.o))
  {
  }

  lemma SumStays(before: seq<Step>, p: Point, steps: seq<Step>)
    requires SumsUpNewest(before, p) && before <= steps && |steps| == |before| + 1 && !steps[|before|].Observe?
    ensures SumsUpNewest(steps, p)
  {
    assert forall i, t :: AtTime(steps, i, t) <==> AtTime(before, i, t);
  }

  lemma SumAnew(before: seq<Step>, o: Observation, steps: seq<Step>)
    requires before <= steps && |steps| == |before| + 1 && steps[|before|].Observe? && steps[|before|].o == o
    requires forall i :: 0 <= i < |before| && before[i].Observe? ==> before[i].o.time < o.time
    ensures SumsUpNewest(steps, PointOf(o))
  {
    assert forall i :: AtTime(steps, i, o.time) <==> i == |before|;
  }

  lemma SumOneMore(before: seq<Step>, p: Point, o: Observation, steps: seq<Step>)
    requires SumsUpNewest(before, p) && o.time <= p.time
    requires before <= steps && |steps| == |before| + 1 && steps[|before|].Observe? && steps[|before|].o == o
    ensures SumsUpNewest(steps, if o.time < p.time then p
                                else Point(p.time, MaxOptional(p.cpu, o.cpu), p.classes + {o.request}))
  {
    assert forall i :: AtTime(steps, i, p.time) <==> AtTime(before, i, p.time) || (i == |before| && o.time == p.time);
    var i :| AtTime(before, i, p.time);
    assert AtTime(steps, i, p.time);
    if p.cpu.Some? {
      var m :| AtTime(before, m, p.time) && before[m].o.cpu == p.cpu;
      assert AtTime(steps, m, p.time) && steps[m].o.cpu == p.cpu;
    }
    if o.time == p.time {
      assert AtTime(steps, |before|, p.time);
    }
    forall c | c in p.classes ensures exists m :: AtTime(steps, m, p.time) && steps[m].o.request == c {
      var m :| AtTime(before, m, p.time) && before[m].o.request == c;
      assert AtTime(steps, m, p.time) && steps[m].o.request == c;
    }
  }
}
