/** What the stop switch stops, from the acknowledgement that sets it until another lease comes. */
module StopWindow {
  import opened Wrappers
  import opened Lease
  import opened Gates
  import opened AgentRuns

  /** No acknowledgement of the run installs a lease; anything else may arrive. */
  predicate NoInstall(steps: seq<Step>) {
    forall i :: 0 <= i < |steps| && steps[i].Heartbeat? ==> !Installs(steps[i].ack, steps[i].identity)
  }

  /** An admitted CONFIG_RESTORE whose playbook still has its device write ahead of it. */
  predicate WritePending(cfg: Config, s: State, id: nat) {
    id in s.tasks && s.tasks[id].phase == ReadingConfig && s.tasks[id].cls in cfg.allowList && !cfg.dryRun
  }

  /** What the stop window allows for one task. */
  ghost predicate Halted(cfg: Config, s: State, s': State, id: nat) {
    && s'.gates.lease == s.gates.lease && s'.gates.budgetStop == s.gates.budgetStop
    && (id in s.tasks ==> id in s'.tasks && s'.tasks[id].cls == s.tasks[id].cls)
    && (id in s'.tasks && s'.tasks[id].phase == ReadingConfig && s'.tasks[id].cls in cfg.allowList ==>
          id in s.tasks && s.tasks[id].phase == ReadingConfig)
    && (id in s'.dispatched ==> id in s.dispatched || WritePending(cfg, s, id))
    && (id in s'.admitted && id !in s.admitted ==> id in s'.tasks && s'.tasks[id].cls !in cfg.allowList)
  }

  lemma GateStaysHalted(cfg: Config, s: State, s': State, k: nat, f: Facts, c: Clock, id: nat)
    requires Stopped(s.gates) && Halted(cfg, s, s', id) && Enabled(cfg, s', Gate(k, f, c))
    ensures Halted(cfg, s, Gated(cfg, s', k, f, c), id)
  {
    var t := s'.tasks[k];
    assert t.cls in cfg.allowList ==> Authorize(s'.gates, cfg.allowList, t.cls, t.basis, f, c).Refuse?;
  }

  lemma StepStaysHalted(cfg: Config, s: State, s': State, step: Step, id: nat)
    requires Stopped(s.gates) && Halted(cfg, s, s', id) && Enabled(cfg, s', step)
    requires step.Heartbeat? ==> !Installs(step.ack, step.identity)
    ensures Halted(cfg, s, Next(cfg, s', step), id)
  {
    if step.Gate? {
      GateStaysHalted(cfg, s, s', step.id, step.facts, step.clock, id);
    }
  }

  /** From a stopped state, until a lease is installed, no allow-listed action is admitted on either
      path, and nothing starts driving the device except a configuration write already admitted. */
  lemma {:induction false} StopSwitchHalts(cfg: Config, s: State, steps: seq<Step>, id: nat)
    requires Stopped(s.gates) && Runs(cfg, s, steps) && NoInstall(steps)
    ensures Halted(cfg, s, After(cfg, s, steps), id)
  {
    if |steps| > 0 {
      var before, step := steps[..|steps| - 1], steps[|steps| - 1];
      assert forall i :: 0 <= i < |before| ==> before[i] == steps[i];
      StopSwitchHalts(cfg, s, before, id);
      StepStaysHalted(cfg, s, After(cfg, s, before), step, id);
    }
  }

  /** Some run under the stop switch starts a device action that was not started before. */
  ghost predicate SomethingStarts(cfg: Config, s: State) {
    exists steps, id :: Runs(cfg, s, steps) && NoInstall(steps) && id in After(cfg, s, steps).dispatched && id !in s.dispatched
  }

  /** The stop switch is complete exactly when no admitted CONFIG_RESTORE is still reading the
      device configuration: the playbook awaits that read after the gate and does not ask again. */
  lemma StopIsCompleteIffNoPendingWrite(cfg: Config, s: State)
    requires Stopped(s.gates)
    ensures SomethingStarts(cfg, s) <==> exists id :: WritePending(cfg, s, id) && id !in s.dispatched
  {
    if SomethingStarts(cfg, s) {
      var steps, id :| Runs(cfg, s, steps) && NoInstall(steps) && id in After(cfg, s, steps).dispatched && id !in s.dispatched;
      StopSwitchHalts(cfg, s, steps, id);
      assert WritePending(cfg, s, id);
    }
    if id :| WritePending(cfg, s, id) && id !in s.dispatched {
      Extend(cfg, s, [], ConfigRead(id, true));
      var steps := [] + [ConfigRead(id, true)];
      assert Runs(cfg, s, steps) && NoInstall(steps) && id in After(cfg, s, steps).dispatched;
    }
  }

  lemma InstallStops(g: Gates, l: Lease)
    requires l.stopSwitch
    ensures Stopped(Acknowledged(g, Some(Parsed(l)), true))
  {
  }

  /** From the step at which an acknowledgement installs a lease with its stop switch set, whatever was
      going on before it, until another lease is installed. */
  lemma InstalledStopHalts(cfg: Config, s: State, l: Lease, steps: seq<Step>, id: nat)
    requires l.stopSwitch && NoInstall(steps)
    requires Runs(cfg, Next(cfg, s, Heartbeat(Some(Parsed(l)), true)), steps)
    ensures var stopped := Next(cfg, s, Heartbeat(Some(Parsed(l)), true));
            Halted(cfg, stopped, After(cfg, stopped, steps), id)
  {
    InstallStops(s.gates, l);
    StopSwitchHalts(cfg, Next(cfg, s, Heartbeat(Some(Parsed(l)), true)), steps, id);
  }
}
