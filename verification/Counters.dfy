/** The local budget counters over whole runs: what they count, and that nothing depends on them. */
module Counters {
  import opened Wrappers
  import opened Actions
  import opened Lease
  import opened Gates
  import opened AgentRuns

  /** The class has a counter that a success takes from. */
  predicate Limited(budget: map<ActionType, BudgetEntry>, cls: ActionType) {
    cls in budget && budget[cls].remaining != -1
  }

  /** No lease installed by the run lifts the class's limit. */
  predicate KeepsLimited(step: Step, cls: ActionType) {
    step.Heartbeat? && Installs(step.ack, step.identity) ==>
      var remaining := step.ack.value.lease.budgetRemaining; cls in remaining ==> remaining[cls] != -1
  }

  function Consumptions(s: State, cls: ActionType): nat {
    CountOf(s.notes, Consumption, cls)
  }

  function Used(s: State, cls: ActionType): nat
    requires cls in s.gates.budget
  {
    s.gates.budget[cls].used
  }

  /** Usage and consumptions move together while limited, and usage never moves alone. */
  ghost predicate CountsUse(s: State, s': State, cls: ActionType, kept: bool) {
    && Consumptions(s, cls) <= Consumptions(s', cls)
    && (cls in s.gates.budget ==>
          && cls in s'.gates.budget
          && Used(s', cls) - Used(s, cls) <= Consumptions(s', cls) - Consumptions(s, cls))
    && (cls !in s.gates.budget && cls in s'.gates.budget ==> Used(s', cls) == 0)
    && (Limited(s.gates.budget, cls) && kept ==>
          && Limited(s'.gates.budget, cls)
          && Used(s', cls) - Used(s, cls) == Consumptions(s', cls) - Consumptions(s, cls))
  }

  lemma ConsumingCounts(b: map<ActionType, BudgetEntry>, t: ActionType, cls: ActionType)
    ensures var b' := Consumed(b, t);
            && (cls in b <==> cls in b')
            && (cls in b ==> b[cls].used <= b'[cls].used <= b[cls].used + if t == cls then 1 else 0)
            && (Limited(b, cls) ==> Limited(b', cls) && b'[cls].used == b[cls].used + if t == cls then 1 else 0)
  {
  }

  lemma CompletionCountsUse(s: State, id: nat, result: Result, cls: ActionType, kept: bool)
    requires id in s.tasks
    ensures CountsUse(s, AgentRuns.Completed(s, id, result), cls, kept)
  {
    var s' := AgentRuns.Completed(s, id, result);
    CompletionCounts(s, id, result, Consumption, cls);
    ConsumingCounts(s.gates.budget, s.tasks[id].cls, cls);
    if result == Succeeded {
      assert s'.gates.budget == Consumed(s.gates.budget, s.tasks[id].cls);
    } else {
      assert s'.gates.budget == s.gates.budget && Consumption !in Noted(result);
    }
  }

  lemma StepCountsUse(cfg: Config, s: State, step: Step, cls: ActionType)
    requires Enabled(cfg, s, step)
    ensures CountsUse(s, Next(cfg, s, step), cls, KeepsLimited(step, cls))
  {
    if step.Complete? {
      CompletionCountsUse(s, step.id, step.result, cls, KeepsLimited(step, cls));
    } else {
      OtherStepsKeepBooks(cfg, s, step);
      OtherStepsKeepUse(cfg, s, step, cls);
    }
  }

  lemma OtherStepsKeepUse(cfg: Config, s: State, step: Step, cls: ActionType)
    requires Enabled(cfg, s, step) && !step.Complete?
    ensures var b, b' := s.gates.budget, Next(cfg, s, step).gates.budget;
            && (cls in b ==> cls in b' && b'[cls].used == b[cls].used)
            && (cls !in b && cls in b' ==> b'[cls].used == 0)
            && (Limited(b, cls) && KeepsLimited(step, cls) ==> Limited(b', cls))
  {
    if step.Gate? {
      var t := s.tasks[step.id];
      var d := Authorize(s.gates, cfg.allowList, t.cls, t.basis, step.facts, step.clock);
    }
  }

  /** While a class stays limited its usage grows by exactly the consumptions noted, from any state
      and over any run. */
  lemma {:induction false} UsedCountsConsumptions(cfg: Config, s: State, steps: seq<Step>, cls: ActionType)
    requires Runs(cfg, s, steps) && Limited(s.gates.budget, cls)
    requires forall i :: 0 <= i < |steps| ==> KeepsLimited(steps[i], cls)
    ensures var s' := After(cfg, s, steps);
            && Limited(s'.gates.budget, cls)
            && Used(s', cls) - Used(s, cls) == Consumptions(s', cls) - Consumptions(s, cls)
  {
    if |steps| > 0 {
      var n := |steps| - 1;
      UsedCountsConsumptions(cfg, s, steps[..n], cls);
      StepCountsUse(cfg, After(cfg, s, steps[..n]), steps[n], cls);
    }
  }

  /** Over any run of the agent a counter never shows more use than was consumed. */
  lemma {:induction false} UsedAtMostConsumed(cfg: Config, steps: seq<Step>, cls: ActionType)
    requires Runs(cfg, Start(), steps)
    ensures var s := After(cfg, Start(), steps); cls in s.gates.budget ==> Used(s, cls) <= Consumptions(s, cls)
  {
    if |steps| > 0 {
      var n := |steps| - 1;
      UsedAtMostConsumed(cfg, steps[..n], cls);
      StepCountsUse(cfg, After(cfg, Start(), steps[..n]), steps[n], cls);
    }
  }

  /** Two states that differ in nothing but the budget counters, here and in the admission log. */
  ghost predicate SameButCounters(s: State, s': State) {
    && s'.now == s.now && s'.tasks == s.tasks && s'.dispatched == s.dispatched && s'.refused == s.refused && s'.notes == s.notes
    && s'.admitted.Keys == s.admitted.Keys
    && s'.gates == s.gates.(budget := s'.gates.budget)
  }

  lemma DecisionIgnoresCounters(cfg: Config, s: State, s': State, id: nat, d: Decision, a: Admission, a': Admission)
    requires SameButCounters(s, s') && id in s.tasks
    ensures SameButCounters(Decided(cfg, s, id, d, a), Decided(cfg, s', id, d, a'))
  {
  }

  lemma GateIgnoresCounters(cfg: Config, s: State, s': State, id: nat, f: Facts, c: Clock)
    requires SameButCounters(s, s') && id in s.tasks
    ensures SameButCounters(Gated(cfg, s, id, f, c), Gated(cfg, s', id, f, c))
  {
    var t := s.tasks[id];
    LocalCountersGateNothing(s.gates, s'.gates.budget, cfg.allowList, t.cls, t.basis, f, c);
    var d := Authorize(s.gates, cfg.allowList, t.cls, t.basis, f, c);
    DecisionIgnoresCounters(cfg, s, s', id, d, Admission(s.gates, f, c), Admission(s'.gates, f, c));
  }

  lemma HeartbeatIgnoresCounters(g: Gates, g': Gates, ack: Option<LeaseBytes>, identity: bool)
    requires g' == g.(budget := g'.budget)
    ensures var a, a' := Acknowledged(g, ack, identity), Acknowledged(g', ack, identity); a' == a.(budget := a'.budget)
  {
  }

  lemma CompleteIgnoresCounters(s: State, s': State, id: nat, result: Result)
    requires SameButCounters(s, s') && id in s.tasks
    ensures SameButCounters(AgentRuns.Completed(s, id, result), AgentRuns.Completed(s', id, result))
  {
  }

  lemma StepIgnoresCounters(cfg: Config, s: State, s': State, step: Step)
    requires SameButCounters(s, s') && Enabled(cfg, s, step)
    ensures Enabled(cfg, s', step) && SameButCounters(Next(cfg, s, step), Next(cfg, s', step))
  {
    match step
    case Gate(id, f, c) => GateIgnoresCounters(cfg, s, s', id, f, c);
    case Heartbeat(ack, identity) => HeartbeatIgnoresCounters(s.gates, s'.gates, ack, identity);
    case Complete(id, result) => CompleteIgnoresCounters(s, s', id, result);
    case _ =>
  }

  /** The counters decide nothing, over any run: change them and the same steps are possible, with the
      same decisions, starts, refusals and notes. */
  lemma {:induction false} CountersNeverMatter(cfg: Config, s: State, s': State, steps: seq<Step>)
    requires SameButCounters(s, s') && Runs(cfg, s, steps)
    ensures Runs(cfg, s', steps) && SameButCounters(After(cfg, s, steps), After(cfg, s', steps))
  {
    if |steps| > 0 {
      var n := |steps| - 1;
      CountersNeverMatter(cfg, s, s', steps[..n]);
      StepIgnoresCounters(cfg, After(cfg, s, steps[..n]), After(cfg, s', steps[..n]), steps[n]);
    }
  }
}
