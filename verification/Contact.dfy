/** What an agent knows of the Site Manager, from the acknowledgements of its run, and what an approved
    action therefore does at its gate. */
module Contact {
  import opened Wrappers
  import opened Actions
  import opened Lease
  import opened BlastRadius
  import opened Gates
  import opened AgentRuns

  predicate IsInstall(step: Step) {
    step.Heartbeat? && Installs(step.ack, step.identity)
  }

  predicate LastHeartbeat(steps: seq<Step>, i: nat) {
    i < |steps| && steps[i].Heartbeat? && forall j :: i < j < |steps| ==> !steps[j].Heartbeat?
  }

  predicate LastInstall(steps: seq<Step>, i: nat) {
    i < |steps| && IsInstall(steps[i]) && forall j :: i < j < |steps| ==> !IsInstall(steps[j])
  }

  /** The agent is in contact exactly when its last heartbeat was acknowledged. */
  ghost predicate InContact(steps: seq<Step>) {
    exists i: nat :: LastHeartbeat(steps, i) && steps[i].ack.Some?
  }

  /** The lease of the last acknowledgement that installed one. */
  ghost predicate Held(steps: seq<Step>, l: Lease) {
    exists i: nat :: LastInstall(steps, i) && steps[i].ack.value.lease == l
  }

  ghost predicate Knows(s: State, steps: seq<Step>) {
    && (s.gates.connected <==> InContact(steps))
    && (forall l :: s.gates.lease == Some(l) <==> Held(steps, l))
    && (s.gates.budgetStop <==> s.gates.lease.Some? && s.gates.lease.value.stopSwitch)
  }

  lemma OtherStepsKeepContact(cfg: Config, s: State, step: Step)
    requires Enabled(cfg, s, step) && !step.Heartbeat?
    ensures var g, g' := s.gates, Next(cfg, s, step).gates;
            g'.connected == g.connected && g'.lease == g.lease && g'.budgetStop == g.budgetStop
  {
    if step.Gate? {
      var t := s.tasks[step.id];
      var d := Authorize(s.gates, cfg.allowList, t.cls, t.basis, step.facts, step.clock);
    }
  }

  lemma LastHeartbeatExtended(before: seq<Step>, step: Step, i: nat)
    ensures step.Heartbeat? ==> (LastHeartbeat(before + [step], i) <==> i == |before|)
    ensures !step.Heartbeat? ==> (LastHeartbeat(before + [step], i) <==> LastHeartbeat(before, i))
    ensures IsInstall(step) ==> (LastInstall(before + [step], i) <==> i == |before|)
    ensures !IsInstall(step) ==> (LastInstall(before + [step], i) <==> LastInstall(before, i))
  {
    var steps := before + [step];
    assert steps[|before|] == step;
    assert forall j :: 0 <= j < |before| ==> steps[j] == before[j];
  }

  lemma InContactExtended(before: seq<Step>, step: Step)
    ensures InContact(before + [step]) <==> if step.Heartbeat? then step.ack.Some? else InContact(before)
  {
    var steps := before + [step];
    assert steps[|before|] == step;
    forall i: nat
      ensures step.Heartbeat? ==> (LastHeartbeat(steps, i) <==> i == |before|)
      ensures !step.Heartbeat? ==> (LastHeartbeat(steps, i) <==> LastHeartbeat(before, i))
    {
      LastHeartbeatExtended(before, step, i);
    }
    assert step.Heartbeat? ==> LastHeartbeat(steps, |before|);
    if !step.Heartbeat? && InContact(before) {
      var i: nat :| LastHeartbeat(before, i) && before[i].ack.Some?;
      assert LastHeartbeat(steps, i) && steps[i] == before[i];
    }
  }

  lemma HeldExtended(before: seq<Step>, step: Step, l: Lease)
    ensures Held(before + [step], l) <==> if IsInstall(step) then step.ack.value.lease == l else Held(before, l)
  {
    var steps := before + [step];
    assert steps[|before|] == step;
    forall i: nat
      ensures IsInstall(step) ==> (LastInstall(steps, i) <==> i == |before|)
      ensures !IsInstall(step) ==> (LastInstall(steps, i) <==> LastInstall(before, i))
    {
      LastHeartbeatExtended(before, step, i);
    }
    assert IsInstall(step) ==> LastInstall(steps, |before|);
    if !IsInstall(step) && Held(before, l) {
      var i: nat :| LastInstall(before, i) && before[i].ack.value.lease == l;
      assert LastInstall(steps, i) && steps[i] == before[i];
    }
  }

  lemma StepKeepsKnowledge(cfg: Config, s: State, before: seq<Step>, step: Step)
    requires Knows(s, before) && Enabled(cfg, s, step)
    ensures Knows(Next(cfg, s, step), before + [step])
  {
    var s' := Next(cfg, s, step);
    InContactExtended(before, step);
    if !step.Heartbeat? {
      OtherStepsKeepContact(cfg, s, step);
    }
    forall l ensures s'.gates.lease == Some(l) <==> Held(before + [step], l) {
      HeldExtended(before, step, l);
      assert s.gates.lease == Some(l) <==> Held(before, l);
    }
  }

  /** Over every run the agent is in contact exactly when its last heartbeat was acknowledged, and holds,
      with its stop switch mirrored, exactly the lease installed last. */
  lemma {:induction false} KnowsTheLast(cfg: Config, steps: seq<Step>)
    requires Runs(cfg, Start(), steps)
    ensures Knows(After(cfg, Start(), steps), steps)
  {
    if |steps| > 0 {
      var n := |steps| - 1;
      KnowsTheLast(cfg, steps[..n]);
      StepKeepsKnowledge(cfg, After(cfg, Start(), steps[..n]), steps[..n], steps[n]);
      assert steps[..n] + [steps[n]] == steps;
    }
  }

  /** The class is not rate limited, by everything it has recorded. */
  predicate Spaced(s: State, cls: ActionType) {
    Unlimited(cls) || AllowsAt(DefaultLimit(cls), Times(s.notes, cls), s.now)
  }

  lemma SpacedIff(cfg: Config, steps: seq<Step>, cls: ActionType)
    requires Runs(cfg, Start(), steps)
    ensures var s := After(cfg, Start(), steps);
            AllowsAt(DefaultLimit(cls), Of(s.gates.history, cls), s.now) <==> Spaced(s, cls)
  {
    var s := After(cfg, Start(), steps);
    BooksBalance(cfg, steps, cls);
    DefaultTable(cls, Times(s.notes, cls), s.now);
  }

  /** What a lease leaves to a human approval. */
  predicate LetsApproved(l: Lease, t: ActionType, c: Clock) {
    && !l.stopSwitch
    && (c.expiry < l.graceExpiry || (c.verdict < l.graceExpiry && (l.expiry <= c.verdict || t in l.classes)))
  }

  /** What a lease leaves to the autonomy grant. */
  predicate LetsGranted(l: Lease, t: ActionType, connected: bool, c: Clock) {
    && !l.stopSwitch && c.verdict < l.expiry && c.verdict < l.graceExpiry && t in l.classes && HasBudget(l, t)
    && (connected || t !in RISKY)
  }

  /** Whether the gate lets the task through, by the events of the run so far. */
  ghost predicate LetThrough(steps: seq<Step>, s: State, t: Task, f: Facts, c: Clock) {
    && PreconditionsPass(t.cls, f) && Spaced(s, t.cls)
    && forall l :: Held(steps, l) ==>
         if t.basis == "autonomous_grant" then LetsGranted(l, t.cls, InContact(steps), c) else LetsApproved(l, t.cls, c)
  }

  lemma AdmittedIffLetThrough(cfg: Config, steps: seq<Step>, id: nat, f: Facts, c: Clock)
    requires Runs(cfg, Start(), steps)
    requires var s := After(cfg, Start(), steps); Enabled(cfg, s, Gate(id, f, c)) && s.tasks[id].cls in cfg.allowList
    ensures var s := After(cfg, Start(), steps); var t := s.tasks[id];
            Authorize(s.gates, cfg.allowList, t.cls, t.basis, f, c) == Admit <==> LetThrough(steps, s, t, f, c)
  {
    var s := After(cfg, Start(), steps);
    var t := s.tasks[id];
    KnowsTheLast(cfg, steps);
    SpacedIff(cfg, steps, t.cls);
    assert s.gates.lease.Some? ==> Held(steps, s.gates.lease.value);
    if t.basis == "autonomous_grant" {
      GrantAdmittedIff(s.gates, cfg.allowList, t.cls, f, c);
    } else {
      ApprovalAdmittedIff(s.gates, cfg.allowList, t.cls, t.basis, f, c);
    }
  }

  /** In every reachable state the gate step of a listed task starts its action exactly when the events of
      the run let it through: evidence, the class's records, and the lease installed last. Otherwise it
      ends refused. A CONFIG_RESTORE goes on to read the configuration instead. */
  lemma GateStepStartsIff(cfg: Config, steps: seq<Step>, id: nat, f: Facts, c: Clock)
    requires Runs(cfg, Start(), steps)
    requires var s := After(cfg, Start(), steps); Enabled(cfg, s, Gate(id, f, c)) && s.tasks[id].cls in cfg.allowList
    ensures var s := After(cfg, Start(), steps); var t := s.tasks[id]; var s' := Next(cfg, s, Gate(id, f, c));
            && (LetThrough(steps, s, t, f, c) && t.cls != ConfigRestore <==> id in s'.dispatched)
            && (LetThrough(steps, s, t, f, c) && t.cls == ConfigRestore <==> s'.tasks[id].phase == ReadingConfig)
            && (!LetThrough(steps, s, t, f, c) <==> id in s'.refused)
  {
    AdmittedIffLetThrough(cfg, steps, id, f, c);
    EveryTaskTraced(cfg, steps, id);
  }
}
