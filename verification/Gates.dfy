/** The autonomy gate chain in front of every execution: preconditions, stop switch, lease,
    blast radius (`Agent._authorize_execution`), and the state it reads. */
module Gates {
  import opened Wrappers
  import opened Actions
  import opened Lease
  import opened BlastRadius

  // ---- preconditions --------------------------------------------------------------------------

  datatype Health = Ok | Degraded | Unknown

  /** What `_precondition_states` can honestly observe. Facts nothing observes (event-log fill,
      host heartbeat, interface tables, counter snapshots) have no field: they stay at the
      fail-closed defaults below. */
  datatype Facts = Facts(
    pollFailures: nat,
    alivePeers: nat,
    selForwarded: bool,
    thermalEvent: bool,
    powerEvent: bool,
    health: Health,
    capPolicy: Option<(int, int)>,
    targetWatts: Option<int>)

  const SEL_PERCENT_FULL := 0
  const OS_HEARTBEAT_ABSENT_SECONDS := 0

  predicate PreconditionsPass(t: ActionType, f: Facts) {
    match t
    case SelClear => f.selForwarded && SEL_PERCENT_FULL >= 80
    case BmcReset => f.pollFailures >= 3
    case PowerCycle => f.alivePeers >= 2 && OS_HEARTBEAT_ABSENT_SECONDS >= 300
    case PowerCapAdjust =>
      && (f.thermalEvent || f.powerEvent)
      && (f.targetWatts.Some? && f.capPolicy.Some? && f.capPolicy.value.1 > 0 ==>
            f.capPolicy.value.0 <= f.targetWatts.value <= f.capPolicy.value.1)
    case FirmwareUpdate => f.health == Ok
    case InterfaceDisable | InterfaceReset | InterfaceEnable => false // no target interface is ever supplied
    case ClearCounters => false // no counter snapshot is ever recorded
    case _ => true
  }

  // ---- the chain ------------------------------------------------------------------------------

  /** The gate-relevant part of the agent. */
  datatype Gates = Gates(
    lease: Option<Lease>,
    budget: map<ActionType, BudgetEntry>,
    budgetStop: bool,
    connected: bool,
    history: History)

  datatype Refusal = Preconditions | StopSwitch | LeaseExpired | LeaseRefuses(verdict: Verdict) | RateLimited

  datatype Decision = Admit | Refuse(why: Refusal)

  const AUTONOMOUS_GRANT := "autonomous_grant"

  predicate Stopped(g: Gates) {
    (g.lease.Some? && g.lease.value.stopSwitch) || g.budgetStop
  }

  /** The clock reads of one decision: wall time for the lease verdict, wall time for the expiry
      check, monotonic time for the limiter. */
  datatype Clock = Clock(verdict: real, expiry: real, limiter: real)

  /** Wall time does not step back between the two reads. */
  predicate Ordered(c: Clock) {
    c.verdict <= c.expiry
  }

  /** The lease's say for a class that passed everything before it. */
  function LeaseGate(g: Gates, t: ActionType, basis: string, c: Clock): Option<Refusal> {
    if g.lease.None? then None
    else
      var verdict := AllowsAction(g.lease.value, t, g.connected, c.verdict);
      if verdict == Deny && FullyExpired(g.lease.value, c.expiry) then Some(LeaseExpired)
      else if verdict != Execute && basis == AUTONOMOUS_GRANT then Some(LeaseRefuses(verdict))
      else None
  }

  function Authorize(g: Gates, allowList: set<ActionType>, t: ActionType, basis: string, f: Facts, c: Clock): Decision {
    if t !in allowList then Admit // the executor refuses it, and that refusal is the audit event
    else if !PreconditionsPass(t, f) then Refuse(Preconditions)
    else if Stopped(g) then Refuse(StopSwitch)
    else
      match LeaseGate(g, t, basis, c)
      case Some(why) => Refuse(why)
      case None => if AllowsAt(DefaultLimit(t), Of(g.history, t), c.limiter) then Admit else Refuse(RateLimited)
  }

  // ---- what the chain guarantees --------------------------------------------------------------

  /** What holds at the instant an allow-listed action is admitted, whoever asked. */
  predicate GatesHeld(g: Gates, t: ActionType, basis: string, f: Facts, c: Clock) {
    && PreconditionsPass(t, f)
    && !Stopped(g)
    && (g.lease.Some? ==> !FullyExpired(g.lease.value, c.verdict))
    && (basis == AUTONOMOUS_GRANT && g.lease.Some? ==> AllowsAction(g.lease.value, t, g.connected, c.verdict) == Execute)
    && AllowsAt(DefaultLimit(t), Of(g.history, t), c.limiter)
  }

  lemma AdmittedMeansGatesHeld(g: Gates, allowList: set<ActionType>, t: ActionType, basis: string, f: Facts, c: Clock)
    requires t in allowList && Ordered(c)
    requires Authorize(g, allowList, t, basis, f, c) == Admit
    ensures GatesHeld(g, t, basis, f, c)
  {
    if g.lease.Some? {
      assert LeaseGate(g, t, basis, c) == None;
    }
  }

  /** What every admission of a listed class needs, whoever asked: evidence, no stop, no rate limit. */
  predicate Ungated(g: Gates, t: ActionType, f: Facts, c: Clock) {
    && PreconditionsPass(t, f)
    && !g.budgetStop && (g.lease.Some? ==> !g.lease.value.stopSwitch)
    && AllowsAt(DefaultLimit(t), Of(g.history, t), c.limiter)
  }

  /** A human approval satisfies the lease: a listed action that carries one is admitted exactly when
      nothing but the lease could refuse it, and no lease is held or the held one has not ended by the
      second clock read, or had not denied the class at the first. */
  lemma ApprovalAdmittedIff(g: Gates, allowList: set<ActionType>, t: ActionType, basis: string, f: Facts, c: Clock)
    requires t in allowList && basis != "autonomous_grant"
    ensures Authorize(g, allowList, t, basis, f, c) == Admit <==>
            && Ungated(g, t, f, c)
            && (g.lease.Some? ==>
                  var l := g.lease.value;
                  c.expiry < l.graceExpiry || (c.verdict < l.graceExpiry && (l.expiry <= c.verdict || t in l.classes)))
  {
    if g.lease.Some? {
      VerdictIff(g.lease.value, t, g.connected, c.verdict);
    }
  }

  /** The autonomy grant alone does not: the lease, if held, must itself run, name the class, leave it
      budget, and the class must be of low risk or the Site Manager connected. */
  lemma GrantAdmittedIff(g: Gates, allowList: set<ActionType>, t: ActionType, f: Facts, c: Clock)
    requires t in allowList
    ensures Authorize(g, allowList, t, "autonomous_grant", f, c) == Admit <==>
            && Ungated(g, t, f, c)
            && (g.lease.Some? ==>
                  var l := g.lease.value;
                  && c.verdict < l.expiry && c.verdict < l.graceExpiry && t in l.classes && HasBudget(l, t)
                  && (g.connected || t !in RISKY))
  {
    if g.lease.Some? {
      VerdictIff(g.lease.value, t, g.connected, c.verdict);
    }
  }

  /** A refusal names the first gate that failed, in the order of the chain; a lease's verdict refuses
      nothing but the grant. */
  lemma RefusalNamesTheFirstGate(g: Gates, allowList: set<ActionType>, t: ActionType, basis: string, f: Facts, c: Clock)
    ensures var d := Authorize(g, allowList, t, basis, f, c);
            && (t !in allowList ==> d == Admit)
            && (d == Refuse(Preconditions) <==> t in allowList && !PreconditionsPass(t, f))
            && (d == Refuse(StopSwitch) <==> t in allowList && PreconditionsPass(t, f) && Stopped(g))
            && (d.Refuse? && d.why.LeaseRefuses? ==>
                  && basis == "autonomous_grant" && PreconditionsPass(t, f) && !Stopped(g) && g.lease.Some?
                  && d.why.verdict == AllowsAction(g.lease.value, t, g.connected, c.verdict) != Execute)
            && (d == Refuse(LeaseExpired) ==>
                  PreconditionsPass(t, f) && !Stopped(g) && g.lease.Some? && g.lease.value.graceExpiry <= c.expiry)
            && (d == Refuse(RateLimited) ==>
                  PreconditionsPass(t, f) && !Stopped(g) && !AllowsAt(DefaultLimit(t), Of(g.history, t), c.limiter))
  {
  }

  /** A named approval is never weaker than the autonomy grant, and the two differ exactly when
      a held, unexpired-by-denial lease does not say "execute". */
  lemma ApprovalCoversGrant(g: Gates, allowList: set<ActionType>, t: ActionType, approval: string, f: Facts, c: Clock)
    requires approval != AUTONOMOUS_GRANT
    ensures Authorize(g, allowList, t, AUTONOMOUS_GRANT, f, c) == Admit ==> Authorize(g, allowList, t, approval, f, c) == Admit
    ensures (Authorize(g, allowList, t, approval, f, c) == Admit && Authorize(g, allowList, t, AUTONOMOUS_GRANT, f, c) != Admit)
            <==> Authorize(g, allowList, t, approval, f, c) == Admit && t in allowList && g.lease.Some?
                 && AllowsAction(g.lease.value, t, g.connected, c.verdict) != Execute
  {
  }

  /** The local budget counters gate nothing: only its stop switch is read. The lease's own copy of
      the budget, which local executions never decrement, is what can refuse. */
  lemma LocalCountersGateNothing(g: Gates, entries: map<ActionType, BudgetEntry>, allowList: set<ActionType>,
                                 t: ActionType, basis: string, f: Facts, c: Clock)
    ensures Authorize(g.(budget := entries), allowList, t, basis, f, c) == Authorize(g, allowList, t, basis, f, c)
  {
  }

  const UNOBSERVABLE: set<ActionType> :=
    {SelClear, PowerCycle, ClearCounters, InterfaceReset, InterfaceDisable, InterfaceEnable}

  /** Some state admits the class, allow-listed, on the autonomy grant alone. */
  ghost predicate GrantAdmits(t: ActionType) {
    exists g, f, c :: Ordered(c) && Authorize(g, {t}, t, AUTONOMOUS_GRANT, f, c) == Admit
  }

  /** Some state admits the class, allow-listed, whatever it rests on. */
  ghost predicate SomethingAdmits(t: ActionType) {
    exists g, basis, f, c :: Ordered(c) && Authorize(g, {t}, t, basis, f, c) == Admit
  }

  /** Six allow-listed classes are refused in every state, because a fact they need is never
      observed; every other class is admitted in some state even on the autonomy grant. */
  lemma AdmissibleClasses(t: ActionType)
    ensures t in UNOBSERVABLE <==> !SomethingAdmits(t)
    ensures t !in UNOBSERVABLE <==> GrantAdmits(t)
  {
    if t in UNOBSERVABLE {
      forall g, basis, f, c ensures Authorize(g, {t}, t, basis, f, c) == Refuse(Preconditions) {
      }
    } else {
      var g := Gates(None, map[], false, true, map[]);
      var f := Facts(3, 2, true, true, true, Ok, None, None);
      var c := Clock(0.0, 0.0, 0.0);
      assert AllowsAt(DefaultLimit(t), [], 0.0);
      assert Ordered(c) && Authorize(g, {t}, t, AUTONOMOUS_GRANT, f, c) == Admit;
    }
  }

  /** Some state of the gates admits the class, allow-listed, with these facts. */
  ghost predicate AdmittedOn(t: ActionType, f: Facts) {
    exists g, basis, c :: Ordered(c) && Authorize(g, {t}, t, basis, f, c) == Admit
  }

  const UNCONDITIONAL: set<ActionType> := {IdentifyLed, CollectDiagnostics, FanReset, ConfigRestore, FirmwareRollback}

  /** The evidence each admissible class needs, and that nothing observed can stand in for it. */
  lemma AdmittedOnEvidenceIff(t: ActionType, f: Facts)
    ensures t in UNCONDITIONAL ==> AdmittedOn(t, f)
    ensures t == BmcReset ==> (AdmittedOn(t, f) <==> f.pollFailures > 2)
    ensures t == FirmwareUpdate ==> (AdmittedOn(t, f) <==> f.health.Ok?)
    ensures t == PowerCapAdjust ==>
            (AdmittedOn(t, f) <==>
             && (f.thermalEvent || f.powerEvent)
             && !(exists target, low, high :: f.targetWatts == Some(target) && f.capPolicy == Some((low, high))
                                              && high > 0 && (target < low || target > high)))
  {
    var g := Gates(None, map[], false, true, map[]);
    var c := Clock(0.0, 0.0, 0.0);
    assert AllowsAt(DefaultLimit(t), [], 0.0);
    if PreconditionsPass(t, f) {
      assert Ordered(c) && Authorize(g, {t}, t, AUTONOMOUS_GRANT, f, c) == Admit;
    }
    forall g, basis, c | Authorize(g, {t}, t, basis, f, c) == Admit ensures PreconditionsPass(t, f) {
    }
    if t == PowerCapAdjust && f.targetWatts.Some? && f.capPolicy.Some? {
      assert f.capPolicy == Some((f.capPolicy.value.0, f.capPolicy.value.1));
    }
  }

  // ---- how the state changes ------------------------------------------------------------------

  /** The lease bytes of a heartbeat acknowledgement, after parsing. */
  datatype LeaseBytes = Empty | Invalid | Parsed(lease: Lease)

  /** The acknowledgement step; `identity` says whether a valid agent identity is held. */
  function Acknowledged(g: Gates, ack: Option<LeaseBytes>, identity: bool): Gates {
    if ack.None? then g.(connected := false)
    else if ack.value.Parsed? && identity then
      var l := ack.value.lease;
      Gates(Some(l), Refreshed(g.budget, l.budgetRemaining, l.budgetRemaining.Keys), l.stopSwitch, true, g.history)
    else g.(connected := true)
  }

  predicate Installs(ack: Option<LeaseBytes>, identity: bool) {
    ack.Some? && ack.value.Parsed? && identity
  }

  /** Budget consumption and blast-radius record, the two halves of one accounting step. */
  function Accounted(g: Gates, t: ActionType, now: real): Gates {
    g.(budget := Consumed(g.budget, t), history := g.history[t := Recorded(Of(g.history, t), now)])
  }

  /** One action in the pipeline; `outcome` is the recorded success flag, if any. */
  class Action {
    const cls: ActionType
    var status: Status
    var outcome: Option<bool>

    constructor (cls: ActionType, status: Status)
      ensures this.cls == cls && this.status == status && outcome == None
    {
      this.cls, this.status, outcome := cls, status, None;
    }
  }

  /** The agent object: the same steps, in place, through its two collaborators. */
  class Agent {
    var currentLease: Option<Lease>
    var connected: bool
    const budget: Budget
    const limiter: Limiter
    const allowList: set<ActionType>

    constructor (allowList: set<ActionType>)
      ensures View() == Gates(None, map[], false, false, map[])
      ensures this.allowList == allowList && fresh(budget) && fresh(limiter)
    {
      currentLease, connected := None, false;
      budget := new Budget();
      limiter := new Limiter();
      this.allowList := allowList;
    }

    function View(): Gates
      reads this, budget, limiter
    {
      Gates(currentLease, budget.entries, budget.stopSwitch, connected, limiter.history)
    }

    method ProcessHeartbeatAck(ack: Option<LeaseBytes>, identity: bool)
      modifies this, budget
      ensures View() == Acknowledged(old(View()), ack, identity)
    {
      if ack.None? {
        connected := false;
        return;
      }
      connected := true;
      if ack.value.Empty? || !identity {
        return;
      }
      if ack.value.Parsed? {
        currentLease := Some(ack.value.lease);
        budget.UpdateFromLease(ack.value.lease.budgetRemaining, ack.value.lease.stopSwitch);
      }
    }

    /** The lease's part of the chain; with no lease held there is none. */
    method AskLease(t: ActionType, basis: string, c: Clock) returns (why: Option<Refusal>)
      ensures why == LeaseGate(View(), t, basis, c)
    {
      if currentLease.None? {
        return None;
      }
      var verdict := AllowsAction(currentLease.value, t, connected, c.verdict);
      if verdict == Deny && FullyExpired(currentLease.value, c.expiry) {
        return Some(LeaseExpired);
      }
      if verdict != Execute && basis == AUTONOMOUS_GRANT {
        return Some(LeaseRefuses(verdict));
      }
      return None;
    }

    method AuthorizeExecution(t: ActionType, basis: string, f: Facts, c: Clock) returns (d: Decision)
      ensures d == Authorize(View(), allowList, t, basis, f, c)
    {
      if t !in allowList {
        return Admit;
      }
      if !PreconditionsPass(t, f) {
        return Refuse(Preconditions);
      }
      if (currentLease.Some? && currentLease.value.stopSwitch) || budget.stopSwitch {
        return Refuse(StopSwitch);
      }
      var refusal := AskLease(t, basis, c);
      if refusal.Some? {
        return Refuse(refusal.value);
      }
      var ok := limiter.Allows(t, c.limiter);
      return if ok then Admit else Refuse(RateLimited);
    }

    method Account(t: ActionType, now: real)
      modifies budget, limiter
      ensures View() == Accounted(old(View()), t, now)
    {
      budget.Consume(t);
      limiter.Record(t, now);
    }

    /** The step of `_execute_gated` up to the executor: a refusal is terminal at once, an admission
        leaves the action for the executor. */
    method BeginGated(action: Action, basis: string, f: Facts, c: Clock) returns (d: Decision)
      modifies action
      ensures d == Authorize(View(), allowList, action.cls, basis, f, c)
      ensures d.Refuse? ==> action.status == Failed && action.outcome == Some(false)
      ensures d.Admit? ==> unchanged(action)
    {
      d := AuthorizeExecution(action.cls, basis, f, c);
      if d.Refuse? {
        action.status := Failed;
        action.outcome := Some(false);
      }
    }

    /** The step after the executor returned: only a success is accounted. */
    method FinishGated(action: Action, now: real)
      modifies budget, limiter
      ensures View() == if action.outcome == Some(true) then Accounted(old(View()), action.cls, now) else old(View())
    {
      if action.outcome == Some(true) {
        Account(action.cls, now);
      }
    }
  }
}
