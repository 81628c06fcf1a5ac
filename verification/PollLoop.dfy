/** The seven-state machine, one poll cycle, and the loop that recovers from failed cycles. */
module PollLoop {

  datatype AgentState = Booting | Observing | Evaluating | Deciding | AwaitingAuth | Acting | Reporting

  function Transitions(s: AgentState): set<AgentState> {
    match s
    case Booting => {Observing}
    case Observing => {Evaluating}
    case Evaluating => {Deciding}
    case Deciding => {Observing, AwaitingAuth}
    case AwaitingAuth => {Acting, Reporting}
    case Acting => {Reporting}
    case Reporting => {Observing}
  }

  /** The states entered one after another, each legal from the one before. */
  predicate LegalWalk(from: AgentState, path: seq<AgentState>) {
    && (|path| > 0 ==> CanGo(from, path[0]))
    && (forall i :: 0 < i < |path| ==> CanGo(path[i - 1], path[i]))
  }

  predicate CanGo(a: AgentState, b: AgentState) {
    b in Transitions(a)
  }

  function End(from: AgentState, path: seq<AgentState>): AgentState {
    if |path| == 0 then from else path[|path| - 1]
  }

  lemma WalkConcat(from: AgentState, a: seq<AgentState>, b: seq<AgentState>)
    requires LegalWalk(from, a) && LegalWalk(End(from, a), b)
    ensures LegalWalk(from, a + b) && End(from, a + b) == End(End(from, a), b)
  {
    var ab := a + b;
    forall i | 0 < i < |ab|
      ensures CanGo(ab[i - 1], ab[i])
    {
      if i > |a| {
        assert CanGo(b[i - |a| - 1], b[i - |a|]);
      }
    }
  }

  // ---- recovery ------------------------------------------------------------------------------

  predicate MidCycle(s: AgentState) {
    s !in {Booting, Observing}
  }

  /** The recovery table: the next state on the way back. */
  function RecoveryStep(s: AgentState): AgentState
    requires MidCycle(s)
  {
    match s
    case Evaluating => Deciding
    case Deciding => Observing
    case AwaitingAuth => Reporting
    case Acting => Reporting
    case Reporting => Observing
  }

  /** How many recovery steps are left. */
  function Distance(s: AgentState): nat {
    match s
    case Booting => 1
    case Observing => 0
    case Deciding | Reporting => 1
    case Evaluating | AwaitingAuth | Acting => 2
  }

  function RecoveryPath(s: AgentState): (path: seq<AgentState>)
    ensures LegalWalk(s, path) && |path| <= 2
    ensures MidCycle(s) ==> End(s, path) == Observing && |path| == Distance(s)
    ensures !MidCycle(s) ==> path == []
    decreases Distance(s)
  {
    if MidCycle(s) then [RecoveryStep(s)] + RecoveryPath(RecoveryStep(s)) else []
  }

  lemma {:induction false} NoShorterWay(s: AgentState, path: seq<AgentState>)
    requires LegalWalk(s, path) && End(s, path) == Observing
    ensures |path| >= Distance(s)
    decreases |path|
  {
    if |path| > 0 {
      assert CanGo(s, path[0]);
      assert |path| > 1 ==> CanGo(path[0], path[1]);
      assert forall i :: 0 < i < |path[1..]| ==> CanGo(path[i], path[i + 1]);
      NoShorterWay(path[0], path[1..]);
    }
  }

  /** The table's claim: from every mid-cycle state the recovery is a legal walk to OBSERVING, and no
      legal walk from there is shorter. */
  lemma RecoveryIsShortest(s: AgentState, path: seq<AgentState>)
    requires MidCycle(s)
    ensures LegalWalk(s, RecoveryPath(s)) && End(s, RecoveryPath(s)) == Observing
    ensures LegalWalk(s, path) && End(s, path) == Observing ==> |path| >= |RecoveryPath(s)|
  {
    if LegalWalk(s, path) && End(s, path) == Observing {
      NoShorterWay(s, path);
    }
  }

  // ---- one cycle -----------------------------------------------------------------------------

  /** What an await did: returned, raised something the loop catches (HarkenIQError or
      RuntimeError), or raised something else. */
  datatype Fault = Returned | Caught | Escaped

  /** What one cycle meets at its awaits. */
  datatype Cycle = Cycle(
    poll: Fault,
    evaluate: Fault,
    checkpoint: bool,
    load: Fault,
    propose: Fault,
    proposed: nat,
    executions: seq<Fault>, // one per approved action
    save: Fault,
    due: bool,
    write: Fault)

  function FirstFault(faults: seq<Fault>): (f: Fault)
    ensures f == Returned <==> forall i :: 0 <= i < |faults| ==> faults[i] == Returned
  {
    if |faults| == 0 then Returned
    else if faults[0] != Returned then faults[0]
    else FirstFault(faults[1..])
  }

  predicate Pipeline(c: Cycle) {
    c.proposed > 0 || |c.executions| > 0
  }

  /** The awaits of a cycle in order, with what each one did. */
  function Awaits(c: Cycle): seq<Fault> {
    [c.poll, c.evaluate]
    + (if c.checkpoint then [c.load] else [])
    + [c.propose]
    + c.executions
    + (if Pipeline(c) && c.checkpoint then [c.save] else [])
    + (if c.checkpoint && c.due then [c.write] else [])
  }

  /** How a cycle ends, branch by branch. */
  function CycleEnd(c: Cycle): Fault {
    if c.poll != Returned then c.poll
    else if c.evaluate != Returned then c.evaluate
    else if c.checkpoint && c.load != Returned then c.load
    else if c.propose != Returned then c.propose
    else if FirstFault(c.executions) != Returned then FirstFault(c.executions)
    else if Pipeline(c) && c.checkpoint && c.save != Returned then c.save
    else if c.checkpoint && c.due then c.write
    else Returned
  }

  /** ... which is the first of its awaits that did not return. */
  lemma CycleEndsAtFirstFault(c: Cycle)
    ensures CycleEnd(c) == FirstFault(Awaits(c))
  {
    var load := if c.checkpoint then [c.load] else [];
    var save := if Pipeline(c) && c.checkpoint then [c.save] else [];
    var write := if c.checkpoint && c.due then [c.write] else [];
    FaultConcat([c.poll, c.evaluate] + load + [c.propose] + c.executions + save, write);
    FaultConcat([c.poll, c.evaluate] + load + [c.propose] + c.executions, save);
    FaultConcat([c.poll, c.evaluate] + load + [c.propose], c.executions);
    FaultConcat([c.poll, c.evaluate] + load, [c.propose]);
    FaultConcat([c.poll, c.evaluate], load);
    FaultConcat([c.poll], [c.evaluate]);
    assert [c.poll, c.evaluate] == [c.poll] + [c.evaluate];
  }

  /** The states a cycle enters, from OBSERVING. */
  function Path(c: Cycle): seq<AgentState> {
    if c.poll != Returned then []
    else if c.evaluate != Returned then [Evaluating]
    else if (c.checkpoint && c.load != Returned) || c.propose != Returned then [Evaluating, Deciding]
    else if !Pipeline(c) then [Evaluating, Deciding, Observing]
    else if FirstFault(c.executions) != Returned then [Evaluating, Deciding, AwaitingAuth, Acting]
    else
      var acted := if |c.executions| > 0 then [Evaluating, Deciding, AwaitingAuth, Acting, Reporting]
                   else [Evaluating, Deciding, AwaitingAuth, Reporting];
      if c.checkpoint && c.save != Returned then acted else acted + [Observing]
  }

  lemma PathIsLegal(c: Cycle)
    ensures LegalWalk(Observing, Path(c)) && End(Observing, Path(c)) != Booting
    ensures CycleEnd(c) == Returned ==> End(Observing, Path(c)) == Observing
  {
  }

  /** The state each await of a cycle is made in. */
  function AwaitStates(c: Cycle): (states: seq<AgentState>)
    ensures |states| == |Awaits(c)|
  {
    [Observing, Evaluating]
    + (if c.checkpoint then [Deciding] else [])
    + [Deciding]
    + seq(|c.executions|, i => Acting)
    + (if Pipeline(c) && c.checkpoint then [Reporting] else [])
    + (if c.checkpoint && c.due then [Observing] else [])
  }

  /** Where the awaits of a cycle stand in the list. */
  lemma AwaitPositions(c: Cycle)
    ensures var a, n := Awaits(c), if c.checkpoint then 3 else 2;
            && a[0] == c.poll && a[1] == c.evaluate && (c.checkpoint ==> a[2] == c.load) && a[n] == c.propose
            && (forall k :: 0 <= k < |c.executions| ==> a[n + 1 + k] == c.executions[k])
            && (Pipeline(c) && c.checkpoint ==> a[n + 1 + |c.executions|] == c.save)
  {
    var n := if c.checkpoint then 3 else 2;
    var front := [c.poll, c.evaluate] + (if c.checkpoint then [c.load] else []) + [c.propose];
    assert |front| == n + 1 && front[n] == c.propose;
    assert front + c.executions <= Awaits(c);
  }

  /** A failed cycle stops in the state its failing await was made in: that is where recovery starts. */
  lemma FailsWhereItAwaits(c: Cycle, i: nat)
    requires i < |Awaits(c)| && Awaits(c)[i] != Returned && forall k :: 0 <= k < i ==> Awaits(c)[k] == Returned
    ensures End(Observing, Path(c)) == AwaitStates(c)[i]
  {
    AwaitPositions(c);
    var n := if c.checkpoint then 3 else 2;
    assert i > n && i <= n + |c.executions| ==> c.executions[i - n - 1] != Returned;
    assert i > n + |c.executions| ==> forall k :: 0 <= k < |c.executions| ==> c.executions[k] == Awaits(c)[n + 1 + k];
  }

  /** Recovery goes only where the normal cycle goes. */
  lemma RecoveryUsesNormalTransitions(s: AgentState)
    requires MidCycle(s)
    ensures exists c, i :: CycleEnd(c) == Returned && 0 <= i < |Path(c)| - 1
                           && Path(c)[i] == s && Path(c)[i + 1] == RecoveryStep(s)
  {
    var idle := Cycle(Returned, Returned, false, Returned, Returned, 0, [], Returned, false, Returned);
    var waiting := idle.(proposed := 1);
    var acting := idle.(executions := [Returned]);
    assert Path(idle) == [Evaluating, Deciding, Observing];
    assert Path(waiting) == [Evaluating, Deciding, AwaitingAuth, Reporting, Observing];
    assert Path(acting) == [Evaluating, Deciding, AwaitingAuth, Acting, Reporting, Observing];
    match s
    case Evaluating => assert Path(idle)[0] == s && Path(idle)[0 + 1] == Deciding;
    case Deciding => assert Path(idle)[1] == s && Path(idle)[1 + 1] == Observing;
    case AwaitingAuth => assert Path(waiting)[2] == s && Path(waiting)[2 + 1] == Reporting;
    case Acting => assert Path(acting)[3] == s && Path(acting)[3 + 1] == Reporting;
    case Reporting => assert Path(waiting)[3] == s && Path(waiting)[3 + 1] == Observing;
  }

  // ---- whole runs ----------------------------------------------------------------------------

  /** The trailing run of failed cycles. */
  function TrailingFailures(ends: seq<Fault>): nat {
    if |ends| == 0 || ends[|ends| - 1] == Returned then 0
    else 1 + TrailingFailures(ends[..|ends| - 1])
  }

  function Ends(cycles: seq<Cycle>): seq<Fault> {
    seq(|cycles|, i requires 0 <= i < |cycles| => CycleEnd(cycles[i]))
  }

  /** Everything the machine enters while the loop runs `cycles`, none of which lets an exception
      escape: a failed cycle is followed by its recovery. */
  function LoopPath(cycles: seq<Cycle>): seq<AgentState> {
    if |cycles| == 0 then []
    else
      var c := cycles[|cycles| - 1];
      LoopPath(cycles[..|cycles| - 1]) + CycleWalk(c)
  }

  /** A cycle with the recovery it needs. */
  function CycleWalk(c: Cycle): seq<AgentState> {
    Path(c) + if CycleEnd(c) == Returned then [] else RecoveryPath(End(Observing, Path(c)))
  }

  lemma OneMore(cycles: seq<Cycle>, n: nat)
    requires n < |cycles|
    ensures Ends(cycles[..n + 1])[n] == CycleEnd(cycles[n])
    ensures LoopPath(cycles[..n + 1]) == LoopPath(cycles[..n]) + CycleWalk(cycles[n])
    ensures TrailingFailures(Ends(cycles[..n + 1])) ==
            if CycleEnd(cycles[n]) == Returned then 0 else 1 + TrailingFailures(Ends(cycles[..n]))
  {
    assert cycles[..n + 1][..n] == cycles[..n];
    assert Ends(cycles[..n + 1])[..n] == Ends(cycles[..n]);
  }

  /** However the awaits fail, the machine is in OBSERVING at every loop head. */
  lemma {:induction false} ObservingAtEveryHead(cycles: seq<Cycle>)
    ensures LegalWalk(Observing, LoopPath(cycles)) && End(Observing, LoopPath(cycles)) == Observing
  {
    if |cycles| > 0 {
      var c := cycles[|cycles| - 1];
      var before := LoopPath(cycles[..|cycles| - 1]);
      ObservingAtEveryHead(cycles[..|cycles| - 1]);
      PathIsLegal(c);
      var back := if CycleEnd(c) == Returned then [] else RecoveryPath(End(Observing, Path(c)));
      WalkConcat(Observing, Path(c), back);
      WalkConcat(Observing, before, CycleWalk(c));
    }
  }

  class Poller {
    var state: AgentState
    var entered: seq<AgentState>
    var failures: nat
    var guardFired: bool

    constructor ()
      ensures state == Booting && entered == [] && failures == 0 && !guardFired
    {
      state, entered, failures, guardFired := Booting, [], 0, false;
    }

    /** A transition the table does not allow raises; nothing changes then. */
    method Transition(to: AgentState) returns (ok: bool)
      modifies this`state, this`entered
      ensures ok == (to in Transitions(old(state)))
      ensures ok ==> state == to && entered == old(entered) + [to]
      ensures !ok ==> state == old(state) && entered == old(entered)
    {
      ok := to in Transitions(state);
      if ok {
        state := to;
        entered := entered + [to];
      }
    }

    method RecoverToObserving()
      modifies this`state, this`entered
      ensures entered == old(entered) + RecoveryPath(old(state))
      ensures state == if MidCycle(old(state)) then Observing else old(state)
    {
      ghost var start, walked: seq<AgentState> := state, [];
      assert [] + RecoveryPath(start) == RecoveryPath(start);
      while MidCycle(state)
        invariant entered == old(entered) + walked
        invariant RecoveryPath(start) == walked + RecoveryPath(state)
        invariant MidCycle(start) ==> MidCycle(state) || state == Observing
        invariant !MidCycle(start) ==> state == start
        decreases Distance(state)
      {
        walked := walked + [RecoveryStep(state)];
        var ok := Transition(RecoveryStep(state));
      }
    }

    /** One cycle; the result is how its last await ended, or Caught when the guard fires. */
    method PollAndEvaluate(c: Cycle) returns (end: Fault)
      modifies this`state, this`entered, this`guardFired
      ensures old(state) != Observing ==> end == Caught && guardFired && state == old(state) && entered == old(entered)
      ensures old(state) == Observing ==>
                && guardFired == old(guardFired)
                && end == CycleEnd(c)
                && entered == old(entered) + Path(c)
                && state == End(Observing, Path(c))
    {
      if state != Observing {
        guardFired := true;
        return Caught;
      }
      if c.poll != Returned {
        return c.poll;
      }
      var ok := Transition(Evaluating);
      if c.evaluate != Returned {
        return c.evaluate;
      }
      ok := Transition(Deciding);
      if c.checkpoint && c.load != Returned {
        return c.load;
      }
      if c.propose != Returned {
        return c.propose;
      }
      if Pipeline(c) {
        end := DriveApproved(c);
        if end != Returned {
          return;
        }
      } else {
        ok := Transition(Observing);
      }
      return if c.checkpoint && c.due then c.write else Returned;
    }

    /** The approval pipeline of a cycle, from DECIDING. */
    method DriveApproved(c: Cycle) returns (end: Fault)
      requires state == Deciding && Pipeline(c)
      requires c.poll == c.evaluate == c.propose == Returned && (c.checkpoint ==> c.load == Returned)
      modifies this`state, this`entered
      ensures old(entered) + Path(c)[2..] == entered && state == End(Observing, Path(c))
      ensures end == if FirstFault(c.executions) != Returned then FirstFault(c.executions)
                     else if c.checkpoint then c.save else Returned
    {
      var ok := Transition(AwaitingAuth);
      if |c.executions| > 0 {
        ok := Transition(Acting);
        for i := 0 to |c.executions|
          invariant forall k :: 0 <= k < i ==> c.executions[k] == Returned
        {
          if c.executions[i] != Returned {
            FirstFaultAt(c.executions, i);
            return c.executions[i];
          }
        }
      }
      ok := Transition(Reporting);
      if c.checkpoint && c.save != Returned {
        return c.save;
      }
      ok := Transition(Observing);
      return Returned;
    }

    /** One iteration of the loop body: count and recover unless the exception escapes. */
    method Iterate(c: Cycle) returns (end: Fault)
      requires state == Observing
      modifies this
      ensures end == CycleEnd(c) && guardFired == old(guardFired)
      ensures end != Escaped ==>
                && state == Observing
                && entered == old(entered) + CycleWalk(c)
                && failures == if end == Returned then 0 else old(failures) + 1
      ensures end == Escaped ==> failures == old(failures)
    {
      PathIsLegal(c);
      end := PollAndEvaluate(c);
      if end == Returned {
        assert CycleWalk(c) == Path(c);
        failures := 0;
      } else if end == Caught {
        failures := failures + 1;
        ghost var walked := entered;
        RecoverToObserving();
        assert entered == old(entered) + CycleWalk(c);
      }
    }

    /** The loop over any sequence of cycles, until shutdown or until an exception escapes. */
    method Loop(cycles: seq<Cycle>) returns (ran: nat)
      requires state == Observing && failures == 0 && !guardFired
      modifies this
      ensures ran <= |cycles|
      ensures !guardFired
      ensures forall i :: 0 <= i < ran ==> CycleEnd(cycles[i]) != Escaped
      ensures ran == |cycles| || CycleEnd(cycles[ran]) == Escaped
      ensures failures == TrailingFailures(Ends(cycles[..ran]))
      ensures ran == |cycles| ==> state == Observing && entered == old(entered) + LoopPath(cycles)
    {
      ran := 0;
      ghost var start := entered;
      while ran < |cycles|
        invariant ran <= |cycles| && !guardFired
        invariant state == Observing
        invariant RanSoFar(cycles, ran, start, entered, failures)
      {
        ghost var before, count := entered, failures;
        var end := Iterate(cycles[ran]);
        if end == Escaped {
          return;
        }
        RanOneMore(cycles, ran, start, before, count);
        ran := ran + 1;
      }
      assert cycles[..ran] == cycles;
    }
  }

  /** Where the loop stands after `ran` cycles. */
  ghost predicate RanSoFar(cycles: seq<Cycle>, ran: nat, start: seq<AgentState>, entered: seq<AgentState>, failures: nat)
    requires ran <= |cycles|
  {
    && entered == start + LoopPath(cycles[..ran])
    && (forall i :: 0 <= i < ran ==> CycleEnd(cycles[i]) != Escaped)
    && failures == TrailingFailures(Ends(cycles[..ran]))
  }

  lemma RanOneMore(cycles: seq<Cycle>, ran: nat, start: seq<AgentState>, entered: seq<AgentState>, failures: nat)
    requires ran < |cycles| && RanSoFar(cycles, ran, start, entered, failures)
    requires CycleEnd(cycles[ran]) != Escaped
    ensures RanSoFar(cycles, ran + 1, start, entered + CycleWalk(cycles[ran]),
                     if CycleEnd(cycles[ran]) == Returned then 0 else failures + 1)
  {
    OneMore(cycles, ran);
    Associate(start, LoopPath(cycles[..ran]), CycleWalk(cycles[ran]));
  }

  lemma Associate(a: seq<AgentState>, b: seq<AgentState>, c: seq<AgentState>)
    ensures a + (b + c) == a + b + c
  {
  }

  lemma {:induction false} FaultConcat(a: seq<Fault>, b: seq<Fault>)
    ensures FirstFault(a + b) == if FirstFault(a) != Returned then FirstFault(a) else FirstFault(b)
  {
    if a == [] {
      assert a + b == b;
    } else {
      assert (a + b)[1..] == a[1..] + b;
      FaultConcat(a[1..], b);
    }
  }

  lemma {:induction false} FirstFaultAt(faults: seq<Fault>, i: nat)
    requires i < |faults| && faults[i] != Returned && forall k :: 0 <= k < i ==> faults[k] == Returned
    ensures FirstFault(faults) == faults[i]
  {
    if i > 0 {
      FirstFaultAt(faults[1..], i - 1);
    }
  }
}
