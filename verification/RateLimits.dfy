/** How far overlapping executions can overrun a rate limit, and that they do. */
module RateLimits {
  import opened Wrappers
  import opened Actions
  import opened BlastRadius
  import opened Gates
  import opened AgentRuns

  function InFlight(s: State, cls: ActionType): set<nat> {
    set id | id in s.tasks && s.tasks[id].cls == cls && s.tasks[id].phase == Executing(true)
  }

  /** At no point of the run do more than `m` executions of the class overlap. */
  ghost predicate OverlapAtMost(cfg: Config, s: State, steps: seq<Step>, cls: ActionType, m: nat)
    requires Runs(cfg, s, steps)
  {
    && |InFlight(After(cfg, s, steps), cls)| <= m
    && (|steps| > 0 ==> OverlapAtMost(cfg, s, steps[..|steps| - 1], cls, m))
  }

  function InWindow(s: State, cls: ActionType, limit: RateLimit): nat {
    CountAfter(Times(s.notes, cls), s.now - limit.window)
  }

  lemma SetChange(before: set<nat>, after: set<nat>, id: nat)
    requires after == before - {id}
    ensures id in before ==> |after| == |before| - 1
    ensures id !in before ==> |after| == |before|
  {
    if id !in before {
      assert after == before;
    }
  }

  lemma LeftFlight(s: State, s': State, id: nat, cls: ActionType)
    requires id in s.tasks && id in s'.tasks && s'.tasks == s.tasks[id := s'.tasks[id]] && s'.tasks[id].phase.Done?
    ensures |InFlight(s', cls)| == |InFlight(s, cls)| - if id in InFlight(s, cls) then 1 else 0
  {
    assert InFlight(s', cls) == InFlight(s, cls) - {id};
    SetChange(InFlight(s, cls), InFlight(s', cls), id);
  }

  lemma OneMoreCounted(times: seq<real>, now: real, start: real)
    ensures CountAfter(times + [now], start) <= CountAfter(times, start) + 1
  {
    CountSplit(times, [now], start);
  }

  /** Completing or aborting takes an execution out of flight and records at most one time. */
  lemma LeavingFlight(s: State, s': State, id: nat, cls: ActionType, limit: RateLimit)
    requires id in s.tasks && id in s'.tasks && s'.tasks == s.tasks[id := s'.tasks[id]] && s'.tasks[id].phase.Done? && s'.now == s.now
    requires Times(s'.notes, cls) == Times(s.notes, cls)
             || (Times(s'.notes, cls) == Times(s.notes, cls) + [s.now] && id in InFlight(s, cls))
    ensures InWindow(s', cls, limit) + |InFlight(s', cls)| <= InWindow(s, cls, limit) + |InFlight(s, cls)|
  {
    LeftFlight(s, s', id, cls);
    OneMoreCounted(Times(s.notes, cls), s.now, s.now - limit.window);
  }

  lemma AdmittedByLimiter(cfg: Config, s: State, id: nat, f: Facts, c: Clock, cls: ActionType)
    requires Enabled(cfg, s, Gate(id, f, c)) && s.tasks[id].cls == cls
    requires Gated(cfg, s, id, f, c).tasks[id].phase == Executing(true)
    ensures AllowsAt(DefaultLimit(cls), Of(s.gates.history, cls), s.now)
  {
    assert cls in cfg.allowList;
    assert Authorize(s.gates, cfg.allowList, cls, s.tasks[id].basis, f, c) == Admit;
  }

  /** Entering flight needs the limiter's leave, which counts everything ever recorded. */
  lemma EnteringFlight(cfg: Config, s: State, id: nat, f: Facts, c: Clock, cls: ActionType)
    requires Balanced(s, cls) && Enabled(cfg, s, Gate(id, f, c))
    requires DefaultLimit(cls).Some? && DefaultLimit(cls).value.maxPerWindow <= KEEP_AFTER_TRIM
    requires s.tasks[id].cls == cls && Gated(cfg, s, id, f, c).tasks[id].phase == Executing(true)
    ensures InWindow(s, cls, DefaultLimit(cls).value) < DefaultLimit(cls).value.maxPerWindow
  {
    AdmittedByLimiter(cfg, s, id, f, c, cls);
    LimiterCountsAll(DefaultLimit(cls).value, Times(s.notes, cls), s.now);
  }

  lemma LimiterCountsAll(limit: RateLimit, times: seq<real>, now: real)
    requires Sorted(times) && limit.maxPerWindow <= KEEP_AFTER_TRIM && WithinLimit(limit, Kept(times), now)
    ensures CountAfter(times, now - limit.window) < limit.maxPerWindow
  {
    KeptIsKept(times);
    TrimmingIsHarmless(limit, Kept(times), times, now);
  }

  /** One task moved without entering or leaving flight leaves the flight alone. */
  lemma OneTaskMoved(s: State, s': State, k: nat, cls: ActionType)
    requires k in s'.tasks && s'.tasks == s.tasks[k := s'.tasks[k]]
    requires k !in InFlight(s, cls) && k !in InFlight(s', cls)
    ensures InFlight(s', cls) == InFlight(s, cls)
  {
  }

  lemma GateFlightUnchanged(cfg: Config, s: State, k: nat, f: Facts, c: Clock, cls: ActionType)
    requires Enabled(cfg, s, Gate(k, f, c))
    requires !(Gated(cfg, s, k, f, c).tasks[k].phase == Executing(true) && s.tasks[k].cls == cls)
    ensures InFlight(Gated(cfg, s, k, f, c), cls) == InFlight(s, cls)
  {
    var d := Authorize(s.gates, cfg.allowList, s.tasks[k].cls, s.tasks[k].basis, f, c);
    assert d.Admit? || d.Refuse?;
    OneTaskMoved(s, Gated(cfg, s, k, f, c), k, cls);
  }

  lemma FlightUnchanged(cfg: Config, s: State, step: Step, cls: ActionType)
    requires Enabled(cfg, s, step) && !step.Complete? && !step.Abort?
    requires cls != ConfigRestore && (step.ConfigRead? ==> Traced(cfg, s, step.id))
    requires step.Gate? ==> !(Next(cfg, s, step).tasks[step.id].phase == Executing(true) && s.tasks[step.id].cls == cls)
    ensures InFlight(Next(cfg, s, step), cls) == InFlight(s, cls)
  {
    match step
    case Tick(_) =>
    case Heartbeat(_, _) =>
    case Spawn(id, _, _, _) => OneTaskMoved(s, Next(cfg, s, step), id, cls);
    case Gate(id, f, c) => GateFlightUnchanged(cfg, s, id, f, c, cls);
    case ConfigRead(id, _) => OneTaskMoved(s, Next(cfg, s, step), id, cls);
  }

  lemma StepKeepsBound(cfg: Config, s: State, step: Step, cls: ActionType, m: nat)
    requires Balanced(s, cls) && Enabled(cfg, s, step) && (step.ConfigRead? ==> Traced(cfg, s, step.id))
    requires DefaultLimit(cls).Some? && 1 <= DefaultLimit(cls).value.maxPerWindow <= KEEP_AFTER_TRIM
    requires InWindow(s, cls, DefaultLimit(cls).value) + |InFlight(s, cls)| <= DefaultLimit(cls).value.maxPerWindow - 1 + m
    requires |InFlight(Next(cfg, s, step), cls)| <= m
    ensures InWindow(Next(cfg, s, step), cls, DefaultLimit(cls).value) + |InFlight(Next(cfg, s, step), cls)|
            <= DefaultLimit(cls).value.maxPerWindow - 1 + m
  {
    var limit := DefaultLimit(cls).value;
    var s' := Next(cfg, s, step);
    if step.Complete? {
      CompletionCounts(s, step.id, step.result, Record, cls);
      LeavingFlight(s, s', step.id, cls, limit);
    } else {
      OtherStepsKeepBooks(cfg, s, step);
      CountShrinks(Times(s.notes, cls), s.now - limit.window, s'.now - limit.window);
      if step.Gate? && s'.tasks[step.id].phase == Executing(true) && s.tasks[step.id].cls == cls {
        EnteringFlight(cfg, s, step.id, step.facts, step.clock, cls);
      } else if step.Abort? {
        LeavingFlight(s, s', step.id, cls, limit);
      } else {
        FlightUnchanged(cfg, s, step, cls);
      }
    }
  }

  /** Records of a class in any window never exceed limit - 1 + m when at most m executions of the
      class overlap. */
  lemma {:induction false} OverlapBoundsRecords(cfg: Config, steps: seq<Step>, cls: ActionType, m: nat)
    requires Runs(cfg, Start(), steps) && OverlapAtMost(cfg, Start(), steps, cls, m)
    requires DefaultLimit(cls).Some? && 1 <= DefaultLimit(cls).value.maxPerWindow <= KEEP_AFTER_TRIM
    ensures InWindow(After(cfg, Start(), steps), cls, DefaultLimit(cls).value) + |InFlight(After(cfg, Start(), steps), cls)|
            <= DefaultLimit(cls).value.maxPerWindow - 1 + m
  {
    if |steps| == 0 {
      assert InFlight(Start(), cls) == {};
    } else {
      var before := steps[..|steps| - 1];
      var step := steps[|steps| - 1];
      OverlapBoundsRecords(cfg, before, cls, m);
      BooksBalance(cfg, before, cls);
      if step.ConfigRead? {
        EveryTaskTraced(cfg, before, step.id);
      }
      StepKeepsBound(cfg, After(cfg, Start(), before), step, cls, m);
    }
  }

  ghost predicate OneCycle(s: State) {
    forall j, k :: j in s.tasks && k in s.tasks && !s.tasks[j].directed && !s.tasks[k].directed && Active(s, j) && Active(s, k) ==> j == k
  }

  lemma {:induction false} CyclesDoNotOverlap(cfg: Config, steps: seq<Step>)
    requires Runs(cfg, Start(), steps)
    ensures OneCycle(After(cfg, Start(), steps))
  {
    if |steps| > 0 {
      var before := steps[..|steps| - 1];
      CyclesDoNotOverlap(cfg, before);
      var s, step := After(cfg, Start(), before), steps[|steps| - 1];
      forall id | id in s.tasks {
        StepKeepsTask(cfg, s, step, id);
      }
      StepAddsOnlySpawned(cfg, s, step);
    }
  }

  lemma StepAddsOnlySpawned(cfg: Config, s: State, step: Step)
    requires Enabled(cfg, s, step)
    ensures Next(cfg, s, step).tasks.Keys == s.tasks.Keys + if step.Spawn? then {step.id} else {}
    ensures step.Spawn? ==> Next(cfg, s, step).tasks == s.tasks[step.id := Task(step.cls, step.basis, step.directed, Waiting)]
  {
    if step.Gate? {
      var d := Authorize(s.gates, cfg.allowList, s.tasks[step.id].cls, s.tasks[step.id].basis, step.facts, step.clock);
    }
  }

  lemma AtMostOne(ids: set<nat>)
    requires forall j, k :: j in ids && k in ids ==> j == k
    ensures |ids| <= 1
  {
    if ids != {} {
      var j :| j in ids;
      assert ids == {j};
    }
  }

  lemma {:induction false} NoDirectiveNoOverlap(cfg: Config, steps: seq<Step>, cls: ActionType)
    requires Runs(cfg, Start(), steps)
    requires forall id :: id in After(cfg, Start(), steps).tasks && After(cfg, Start(), steps).tasks[id].cls == cls
                          ==> !After(cfg, Start(), steps).tasks[id].directed
    ensures OverlapAtMost(cfg, Start(), steps, cls, 1)
  {
    var s := After(cfg, Start(), steps);
    CyclesDoNotOverlap(cfg, steps);
    AtMostOne(InFlight(s, cls));
    if |steps| > 0 {
      var before := steps[..|steps| - 1];
      forall id | id in After(cfg, Start(), before).tasks {
        StepKeepsTask(cfg, After(cfg, Start(), before), steps[|steps| - 1], id);
      }
      NoDirectiveNoOverlap(cfg, before, cls);
    }
  }

  /** While no directive asks for a class, the poll loop alone never exceeds its limit. */
  lemma PollLoopAloneRespectsLimit(cfg: Config, steps: seq<Step>, cls: ActionType)
    requires Runs(cfg, Start(), steps)
    requires DefaultLimit(cls).Some? && 1 <= DefaultLimit(cls).value.maxPerWindow <= KEEP_AFTER_TRIM
    requires forall id :: id in After(cfg, Start(), steps).tasks && After(cfg, Start(), steps).tasks[id].cls == cls
                          ==> !After(cfg, Start(), steps).tasks[id].directed
    ensures InWindow(After(cfg, Start(), steps), cls, DefaultLimit(cls).value) <= DefaultLimit(cls).value.maxPerWindow
  {
    NoDirectiveNoOverlap(cfg, steps, cls);
    OverlapBoundsRecords(cfg, steps, cls, 1);
  }

  // ---- the bound is reached --------------------------------------------------------------------

  /** The limited classes that are ever admitted, and are not limited to 999. */
  predicate Repeatable(cls: ActionType) {
    cls == FanReset || cls == BmcReset || cls == PowerCapAdjust
  }

  function LimitOf(cls: ActionType): RateLimit
    requires Repeatable(cls)
  {
    DefaultLimit(cls).value
  }

  const HUMAN := "human_approval"
  const ALARMED := Facts(3, 0, false, true, false, Unknown, None, None)

  function Only(cls: ActionType): Config {
    Config({cls}, true)
  }

  function Driving(cls: ActionType): Task {
    Task(cls, HUMAN, true, Executing(true))
  }

  /** Directives `lo` up to `hi` of the class are driving the device; those before are recorded. */
  ghost predicate Working(s: State, cls: ActionType, lo: nat, hi: nat) {
    && lo <= hi && s.gates.lease.None? && !s.gates.budgetStop && s.now >= 0.0
    && (forall id: nat :: id in s.tasks <==> id < hi)
    && (forall id: nat :: lo <= id < hi ==> s.tasks[id] == Driving(cls))
    && (forall id: nat :: id < lo ==> s.tasks[id].phase.Done?)
    && |Times(s.notes, cls)| == lo
    && (forall i :: 0 <= i < lo ==> Times(s.notes, cls)[i] >= 0.0)
  }

  lemma {:induction false} RangeSize(ids: set<nat>, lo: nat, hi: nat)
    requires lo <= hi && forall id :: id in ids <==> lo <= id < hi
    ensures |ids| == hi - lo
    decreases hi
  {
    if lo == hi {
      assert ids == {};
    } else {
      RangeSize(ids - {hi - 1}, lo, hi - 1);
    }
  }

  lemma WorkingFlight(s: State, cls: ActionType, lo: nat, hi: nat)
    requires Working(s, cls, lo, hi)
    ensures |InFlight(s, cls)| == hi - lo
  {
    RangeSize(InFlight(s, cls), lo, hi);
  }

  /** A run of directives for the class alone in which at most `m` overlap. */
  ghost predicate Overlapping(steps: seq<Step>, cls: ActionType, m: nat) {
    Runs(Only(cls), Start(), steps) && OverlapAtMost(Only(cls), Start(), steps, cls, m)
  }

  lemma ExtendOverlap(steps: seq<Step>, step: Step, cls: ActionType, m: nat)
    requires Overlapping(steps, cls, m) && Enabled(Only(cls), After(Only(cls), Start(), steps), step)
    requires |InFlight(Next(Only(cls), After(Only(cls), Start(), steps), step), cls)| <= m
    ensures Overlapping(steps + [step], cls, m)
    ensures After(Only(cls), Start(), steps + [step]) == Next(Only(cls), After(Only(cls), Start(), steps), step)
  {
    Extend(Only(cls), Start(), steps, step);
    assert (steps + [step])[..|steps|] == steps;
  }

  /** The limiter's leave for one more, before the limit is reached and outside the cooldown. */
  predicate MayStart(s: State, cls: ActionType)
    requires Repeatable(cls)
  {
    var times := Times(s.notes, cls);
    |times| < LimitOf(cls).maxPerWindow && (times != [] ==> s.now - times[|times| - 1] >= LimitOf(cls).cooldown)
  }

  lemma LimiterAllows(s: State, cls: ActionType)
    requires Repeatable(cls) && Balanced(s, cls) && MayStart(s, cls)
    ensures AllowsAt(DefaultLimit(cls), Of(s.gates.history, cls), s.now)
  {
    KeptUntrimmed(Times(s.notes, cls));
  }

  /** A directive has come in and waits for the gate. */
  ghost predicate Spawned(s: State, cls: ActionType, lo: nat, hi: nat, before: State) {
    && Working(before, cls, lo, hi)
    && s == before.(tasks := before.tasks[hi := Task(cls, HUMAN, true, Waiting)])
  }

  lemma SpawnWorks(s: State, cls: ActionType, lo: nat, hi: nat) returns (spawn: Step)
    requires Working(s, cls, lo, hi)
    ensures Enabled(Only(cls), s, spawn) && Spawned(Next(Only(cls), s, spawn), cls, lo, hi, s)
    ensures InFlight(Next(Only(cls), s, spawn), cls) == InFlight(s, cls)
  {
    spawn := Spawn(hi, cls, HUMAN, true);
    OneTaskMoved(s, Next(Only(cls), s, spawn), hi, cls);
  }

  lemma AlarmedIsAdmitted(g: Gates, cls: ActionType, now: real)
    requires Repeatable(cls) && g.lease.None? && !g.budgetStop && AllowsAt(DefaultLimit(cls), Of(g.history, cls), now)
    ensures Authorize(g, {cls}, cls, HUMAN, ALARMED, Clock(now, now, now)) == Admit
  {
  }

  lemma GateWorks(s: State, cls: ActionType, lo: nat, hi: nat, before: State) returns (gate: Step)
    requires Repeatable(cls) && Spawned(s, cls, lo, hi, before) && Balanced(before, cls) && MayStart(before, cls)
    ensures Enabled(Only(cls), s, gate)
    ensures var s' := Next(Only(cls), s, gate); Working(s', cls, lo, hi + 1) && s'.notes == s.notes && s'.now == s.now
  {
    var c := Clock(s.now, s.now, s.now);
    gate := Gate(hi, ALARMED, c);
    LimiterAllows(before, cls);
    AlarmedIsAdmitted(s.gates, cls, s.now);
    assert Next(Only(cls), s, gate) == Decided(Only(cls), s, hi, Admit, Admission(s.gates, ALARMED, c));
  }

  lemma DirectOne(steps: seq<Step>, cls: ActionType, lo: nat, hi: nat, m: nat) returns (more: seq<Step>)
    requires Repeatable(cls) && Overlapping(steps, cls, m) && hi + 1 - lo <= m
    requires var s := After(Only(cls), Start(), steps); Working(s, cls, lo, hi) && MayStart(s, cls)
    ensures Overlapping(more, cls, m)
    ensures var s, s' := After(Only(cls), Start(), steps), After(Only(cls), Start(), more);
            Working(s', cls, lo, hi + 1) && s'.notes == s.notes && s'.now == s.now
  {
    var s := After(Only(cls), Start(), steps);
    BooksBalance(Only(cls), steps, cls);
    WorkingFlight(s, cls, lo, hi);
    var spawn := SpawnWorks(s, cls, lo, hi);
    ExtendOverlap(steps, spawn, cls, m);
    var s1 := Next(Only(cls), s, spawn);
    var gate := GateWorks(s1, cls, lo, hi, s);
    WorkingFlight(Next(Only(cls), s1, gate), cls, lo, hi + 1);
    ExtendOverlap(steps + [spawn], gate, cls, m);
    more := steps + [spawn] + [gate];
  }

  lemma RecordOne(steps: seq<Step>, cls: ActionType, lo: nat, hi: nat, m: nat) returns (more: seq<Step>)
    requires Repeatable(cls) && Overlapping(steps, cls, m) && lo < hi && hi - lo <= m
    requires Working(After(Only(cls), Start(), steps), cls, lo, hi)
    ensures Overlapping(more, cls, m)
    ensures var s, s' := After(Only(cls), Start(), steps), After(Only(cls), Start(), more);
            Working(s', cls, lo + 1, hi) && Times(s'.notes, cls) == Times(s.notes, cls) + [s.now] && s'.now == s.now
  {
    var s := After(Only(cls), Start(), steps);
    var step := Complete(lo, Succeeded);
    CompletionCounts(s, lo, Succeeded, Record, cls);
    WorkingFlight(Next(Only(cls), s, step), cls, lo + 1, hi);
    ExtendOverlap(steps, step, cls, m);
    more := steps + [step];
  }

  lemma WaitCooldown(steps: seq<Step>, cls: ActionType, k: nat, m: nat) returns (more: seq<Step>)
    requires Repeatable(cls) && Overlapping(steps, cls, m) && Working(After(Only(cls), Start(), steps), cls, k, k)
    ensures Overlapping(more, cls, m)
    ensures var s, s' := After(Only(cls), Start(), steps), After(Only(cls), Start(), more);
            Working(s', cls, k, k) && s'.notes == s.notes && s'.now == s.now + LimitOf(cls).cooldown
  {
    var s := After(Only(cls), Start(), steps);
    var step := Tick(LimitOf(cls).cooldown);
    WorkingFlight(Next(Only(cls), s, step), cls, k, k);
    ExtendOverlap(steps, step, cls, m);
    more := steps + [step];
  }

  function Elapsed(cls: ActionType, k: nat): real
    requires Repeatable(cls)
  {
    if k == 0 then 0.0 else Elapsed(cls, k - 1) + LimitOf(cls).cooldown
  }

  /** One execution after another, a cooldown apart, up to one below the limit. */
  lemma {:induction false} OneByOne(cls: ActionType, k: nat, m: nat) returns (steps: seq<Step>)
    requires Repeatable(cls) && k < LimitOf(cls).maxPerWindow && m >= 1
    ensures Overlapping(steps, cls, m)
    ensures var s := After(Only(cls), Start(), steps);
            Working(s, cls, k, k) && MayStart(s, cls) && s.now == Elapsed(cls, k)
  {
    if k == 0 {
      steps := [];
      assert InFlight(Start(), cls) == {};
    } else {
      steps := OneByOne(cls, k - 1, m);
      steps := DirectOne(steps, cls, k - 1, k - 1, m);
      steps := RecordOne(steps, cls, k - 1, k, m);
      steps := WaitCooldown(steps, cls, k, m);
    }
  }

  lemma {:induction false} DirectMany(cls: ActionType, lo: nat, k: nat, m: nat) returns (steps: seq<Step>)
    requires Repeatable(cls) && lo == LimitOf(cls).maxPerWindow - 1 && k <= m && m >= 1
    ensures Overlapping(steps, cls, m)
    ensures var s := After(Only(cls), Start(), steps);
            Working(s, cls, lo, lo + k) && MayStart(s, cls) && s.now == Elapsed(cls, lo)
  {
    if k == 0 {
      steps := OneByOne(cls, lo, m);
    } else {
      steps := DirectMany(cls, lo, k - 1, m);
      steps := DirectOne(steps, cls, lo, lo + k - 1, m);
    }
  }

  lemma {:induction false} RecordMany(cls: ActionType, lo: nat, k: nat, m: nat) returns (steps: seq<Step>)
    requires Repeatable(cls) && lo == LimitOf(cls).maxPerWindow - 1 && k <= m && m >= 1
    ensures Overlapping(steps, cls, m)
    ensures var s := After(Only(cls), Start(), steps); Working(s, cls, lo + k, lo + m) && s.now == Elapsed(cls, lo)
  {
    if k == 0 {
      steps := DirectMany(cls, lo, m, m);
    } else {
      steps := RecordMany(cls, lo, k - 1, m);
      steps := RecordOne(steps, cls, lo + k - 1, lo + m, m);
    }
  }

  lemma AllInWindow(cls: ActionType)
    requires Repeatable(cls)
    ensures LimitOf(cls).maxPerWindow >= 1 && Elapsed(cls, LimitOf(cls).maxPerWindow - 1) < LimitOf(cls).window
  {
    assert Elapsed(cls, 0) == 0.0 && Elapsed(cls, 1) == LimitOf(cls).cooldown;
    assert Elapsed(cls, 2) == LimitOf(cls).cooldown + LimitOf(cls).cooldown;
  }

  /** The bound is reached for every such class and every overlap: limit - 1 executions a cooldown
      apart, then `m` at once, leave limit - 1 + m records in one window. */
  lemma OverlapBoundIsReached(cls: ActionType, m: nat) returns (steps: seq<Step>)
    requires Repeatable(cls) && m >= 1
    ensures Runs(Only(cls), Start(), steps) && OverlapAtMost(Only(cls), Start(), steps, cls, m)
    ensures InWindow(After(Only(cls), Start(), steps), cls, LimitOf(cls)) == LimitOf(cls).maxPerWindow - 1 + m
  {
    AllInWindow(cls);
    steps := RecordMany(cls, LimitOf(cls).maxPerWindow - 1, m, m);
    var s := After(Only(cls), Start(), steps);
    CountAll(Times(s.notes, cls), s.now - LimitOf(cls).window);
  }
}
