/** The signed authorization lease and the local budget that mirrors it (spec A2.2). */
module Lease {
  import opened Actions

  datatype Lease = Lease(
    classes: set<ActionType>,
    budgetRemaining: map<ActionType, int>,
    expiry: real,
    graceExpiry: real,
    stopSwitch: bool)

  datatype Verdict = Execute | Propose | Deny

  predicate FullyExpired(l: Lease, now: real) {
    now >= l.graceExpiry
  }

  function AllowsAction(l: Lease, t: ActionType, connected: bool, now: real): Verdict {
    if l.stopSwitch then Deny
    else if FullyExpired(l, now) then Deny
    else if l.expiry <= now < l.graceExpiry then Propose
    else if !(now < l.expiry) then Propose
    else if t !in l.classes then Deny
    else if (if t in l.budgetRemaining then l.budgetRemaining[t] else 0) == 0 then Propose
    else if !connected && RiskRank(t) >= 2 then Propose
    else Execute
  }

  /** The classes of medium and high risk. */
  const RISKY: set<ActionType> :=
    {PowerCycle, PowerCapAdjust, ConfigRestore, FirmwareUpdate, FirmwareRollback, InterfaceReset, InterfaceDisable}

  /** The lease leaves the class something to spend; -1 is no limit. */
  predicate HasBudget(l: Lease, t: ActionType) {
    t in l.budgetRemaining && l.budgetRemaining[t] != 0
  }

  /** The verdict by the lease's fields, whatever order they are tested in: execution needs every one
      of them, and denial is for a stopped or ended lease and for a class a running lease leaves out. */
  lemma VerdictIff(l: Lease, t: ActionType, connected: bool, now: real)
    ensures AllowsAction(l, t, connected, now) == Execute <==>
            && !l.stopSwitch && now < l.expiry && now < l.graceExpiry && t in l.classes && HasBudget(l, t)
            && (connected || t !in RISKY)
    ensures AllowsAction(l, t, connected, now) == Deny <==>
            l.stopSwitch || l.graceExpiry <= now || (now < l.expiry && t !in l.classes)
  {
  }

  /** The verdicts at the three stages of a lease that is not stopped: running, in grace, over. A class
      with budget left executes until the expiry, is proposed until the grace ends, and is then denied. */
  lemma StagesOfALease(l: Lease, t: ActionType, connected: bool, now: real)
    requires !l.stopSwitch && l.expiry <= l.graceExpiry && t in l.classes && HasBudget(l, t) && (connected || t !in RISKY)
    ensures AllowsAction(l, t, connected, now) == if now < l.expiry then Execute else if now < l.graceExpiry then Propose else Deny
  {
    VerdictIff(l, t, connected, now);
  }

  /** Authority only decays: a lease that executes a class now executed it at every earlier moment
      of the same contact, and at every moment with the Site Manager connected. */
  lemma AuthorityDecays(l: Lease, t: ActionType, connected: bool, early: real, late: real)
    requires early <= late
    requires AllowsAction(l, t, connected, late) == Execute
    ensures AllowsAction(l, t, connected, early) == Execute
    ensures AllowsAction(l, t, true, late) == Execute
  {
  }

  datatype BudgetEntry = BudgetEntry(remaining: int, used: nat)

  /** `AgentBudgetEnforcer`: refreshed from each lease, decremented after each success. */
  class Budget {
    var entries: map<ActionType, BudgetEntry>
    var stopSwitch: bool

    constructor ()
      ensures entries == map[] && !stopSwitch
    {
      entries, stopSwitch := map[], false;
    }

    /** Classes the lease does not name keep their entry; named ones keep their usage count. */
    method UpdateFromLease(remaining: map<ActionType, int>, stop: bool)
      modifies this
      ensures stopSwitch == stop
      ensures entries == Refreshed(old(entries), remaining, remaining.Keys)
    {
      stopSwitch := stop;
      entries := RefreshAll(entries, remaining);
    }

    method Consume(t: ActionType)
      modifies this
      ensures stopSwitch == old(stopSwitch)
      ensures entries == Consumed(old(entries), t)
    {
      if t !in entries || entries[t].remaining == -1 {
        return;
      }
      var left := if entries[t].remaining - 1 > 0 then entries[t].remaining - 1 else 0;
      entries := entries[t := BudgetEntry(left, entries[t].used + 1)];
    }
  }

  method RefreshAll(start: map<ActionType, BudgetEntry>, remaining: map<ActionType, int>) returns (entries: map<ActionType, BudgetEntry>)
    ensures entries == Refreshed(start, remaining, remaining.Keys)
  {
    entries := start;
    var reached: set<ActionType> := {};
    assert entries == Refreshed(start, remaining, {});
    while reached != remaining.Keys
      invariant reached <= remaining.Keys
      invariant entries == Refreshed(start, remaining, reached)
      decreases remaining.Keys - reached
    {
      assert remaining.Keys - reached != {};
      var t :| t in remaining.Keys - reached;
      RefreshStep(start, remaining, reached, t);
      entries := entries[t := BudgetEntry(remaining[t], if t in entries then entries[t].used else 0)];
      reached := reached + {t};
    }
  }

  /** The entries once the classes in `reached` took their figure from the lease. */
  function Refreshed(entries: map<ActionType, BudgetEntry>, remaining: map<ActionType, int>, reached: set<ActionType>): map<ActionType, BudgetEntry>
    requires reached <= remaining.Keys
  {
    map t | t in entries.Keys + reached ::
      if t in reached
      then BudgetEntry(remaining[t], if t in entries then entries[t].used else 0)
      else entries[t]
  }

  lemma RefreshStep(entries: map<ActionType, BudgetEntry>, remaining: map<ActionType, int>, reached: set<ActionType>, t: ActionType)
    requires reached <= remaining.Keys && t in remaining && t !in reached
    ensures var r := Refreshed(entries, remaining, reached);
            Refreshed(entries, remaining, reached + {t}) == r[t := BudgetEntry(remaining[t], if t in r then r[t].used else 0)]
  {
  }

  /** A class's figure after `n` successes. */
  function ConsumedTimes(entries: map<ActionType, BudgetEntry>, t: ActionType, n: nat): map<ActionType, BudgetEntry> {
    if n == 0 then entries else Consumed(ConsumedTimes(entries, t, n - 1), t)
  }

  /** Consumption counts a limited class down to zero and no further, counts every use, and leaves an
      unlimited class and every other class alone. */
  lemma {:induction false} ConsumedCountsDown(entries: map<ActionType, BudgetEntry>, t: ActionType, n: nat)
    requires t in entries
    ensures var after := ConsumedTimes(entries, t, n);
            && after.Keys == entries.Keys && (forall k :: k in entries && k != t ==> after[k] == entries[k])
            && (entries[t].remaining == -1 ==> after == entries)
            && (entries[t].remaining != -1 && n > 0 ==>
                  after[t] == BudgetEntry(if n <= entries[t].remaining then entries[t].remaining - n else 0, entries[t].used + n))
  {
    if n > 0 {
      ConsumedCountsDown(entries, t, n - 1);
    }
  }

  function Consumed(entries: map<ActionType, BudgetEntry>, t: ActionType): map<ActionType, BudgetEntry> {
    if t !in entries || entries[t].remaining == -1 then entries
    else entries[t := BudgetEntry(if entries[t].remaining > 1 then entries[t].remaining - 1 else 0, entries[t].used + 1)]
  }
}
