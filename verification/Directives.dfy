/** At-most-once dispatch: the idempotency key, the Site Manager that answers a repeated key with
    the directive it holds, and the node that starts one task per directive id. */
module Directives {
  import opened Wrappers
  import opened Text

  const KEY_PREFIX := "proposal:"
  const REPLAY_REASON := "idempotent_replay"

  function IdempotencyKey(proposal: string): Option<string> {
    var id := Strip(proposal);
    if id == "" then None else Some(KEY_PREFIX + id)
  }

  /** Two proposals share a key exactly when they differ in surrounding whitespace only; a blank
      proposal id has none. */
  lemma KeysIdentifyProposals(p: string, q: string)
    ensures IdempotencyKey(p).None? <==> Blank(p)
    ensures IdempotencyKey(p).Some? ==> (IdempotencyKey(p) == IdempotencyKey(q) <==> Strip(p) == Strip(q))
  {
    StripTrims(p);
    StripTrims(q);
    if IdempotencyKey(p).Some? && IdempotencyKey(p) == IdempotencyKey(q) {
      assert (KEY_PREFIX + Strip(p))[|KEY_PREFIX|..] == Strip(p);
      assert (KEY_PREFIX + Strip(q))[|KEY_PREFIX|..] == Strip(q);
    }
  }

  /** The work a dispatch asks for. */
  datatype Work = Work(device: string, action: string)

  datatype Directive = Directive(key: Option<string>, work: Work, proposal: string)

  type Id = nat

  datatype Ack = Ack(accepted: bool, id: Option<Id>, reason: string)

  predicate IsReplay(ack: Ack) {
    ack.accepted && ack.reason == REPLAY_REASON
  }

  datatype Phase = Created | Ran | Reported | Cancelled

  datatype World = World(
    keys: map<string, Id>,           // the unique index
    directives: map<Id, Directive>,
    inFlight: set<Id>,               // the node's, never emptied while the process lives
    tasks: map<Id, Phase>,
    executions: seq<Id>,
    reports: seq<Id>)

  datatype Step =
    | Dispatch(proposal: string, work: Work, newId: Id) // the ack may be lost: nothing depends on it
    | Poll(batch: seq<Id>)                              // any directives, again or for the first time
    | Execute(id: Id)                                   // whatever it does, including raising
    | Report(id: Id)
    | Cancel(id: Id)

  function Start(): World {
    World(map[], map[], {}, map[], [], [])
  }

  predicate Enabled(w: World, step: Step) {
    match step
    case Dispatch(_, _, newId) => newId !in w.directives
    case Poll(batch) => forall i :: 0 <= i < |batch| ==> batch[i] in w.directives
    case Execute(id) => id in w.tasks && w.tasks[id] == Created
    case Report(id) => id in w.tasks && w.tasks[id] == Ran
    case Cancel(id) => id in w.tasks && w.tasks[id] in {Created, Ran}
  }

  /** The Site Manager's answer, and the directives it holds afterwards. */
  function Dispatched(w: World, proposal: string, work: Work, newId: Id): (World, Ack) {
    var key := IdempotencyKey(proposal);
    var directive := Directive(key, work, proposal);
    if key.Some? && key.value in w.keys then
      var held := w.keys[key.value];
      if held in w.directives && w.directives[held].work == work
      then (w, Ack(true, Some(held), REPLAY_REASON))
      else (w, Ack(false, None, "different work"))
    else
      (w.(
         keys := if key.Some? then w.keys[key.value := newId] else w.keys,
         directives := w.directives[newId := directive]),
       Ack(true, Some(newId), ""))
  }

  /** The ids of a batch that are new to the node, each once, in the order they first appear. */
  function NewIn(batch: seq<Id>, known: set<Id>): (ids: seq<Id>)
    ensures forall id :: id in ids <==> id in batch && id !in known
  {
    if |batch| == 0 then []
    else
      var before := NewIn(batch[..|batch| - 1], known);
      var last := batch[|batch| - 1];
      assert batch == batch[..|batch| - 1] + [last];
      if last in known || last in batch[..|batch| - 1] then before else before + [last]
  }

  lemma {:induction false} NewInOnce(batch: seq<Id>, known: set<Id>)
    ensures forall i, j :: 0 <= i < j < |NewIn(batch, known)| ==> NewIn(batch, known)[i] != NewIn(batch, known)[j]
  {
    if |batch| > 0 {
      NewInOnce(batch[..|batch| - 1], known);
    }
  }

  /** A new task for every id. */
  function NewTasks(ids: seq<Id>): (tasks: map<Id, Phase>)
    ensures forall id :: id in tasks <==> id in ids
  {
    map id | id in ids :: Created
  }

  function Polled(w: World, batch: seq<Id>): World {
    w.(
      inFlight := w.inFlight + (set id | id in batch),
      tasks := w.tasks + NewTasks(NewIn(batch, w.inFlight)))
  }

  function Next(w: World, step: Step): World
    requires Enabled(w, step)
  {
    match step
    case Dispatch(proposal, work, newId) => Dispatched(w, proposal, work, newId).0
    case Poll(batch) => Polled(w, batch)
    case Execute(id) => w.(tasks := w.tasks[id := Ran], executions := w.executions + [id])
    case Report(id) => w.(tasks := w.tasks[id := Reported], reports := w.reports + [id])
    case Cancel(id) => w.(tasks := w.tasks[id := Cancelled])
  }

  function After(w: World, steps: seq<Step>): World
  {
    if |steps| == 0 then w
    else
      var before := After(w, steps[..|steps| - 1]);
      if Enabled(before, steps[|steps| - 1]) then Next(before, steps[|steps| - 1]) else before
  }

  /** The node's poll: every directive not yet in flight is put in flight and starts a task. */
  class Node {
    var inFlight: set<Id>
    var started: seq<Id>

    constructor ()
      ensures inFlight == {} && started == []
    {
      inFlight, started := {}, [];
    }

    method ProcessDirectives(batch: seq<Id>)
      modifies this
      ensures inFlight == old(inFlight) + (set id | id in batch)
      ensures started == old(started) + NewIn(batch, old(inFlight))
    {
      ghost var known, before := inFlight, started;
      for i := 0 to |batch|
        invariant inFlight == known + (set id | id in batch[..i])
        invariant started == before + NewIn(batch[..i], known)
      {
        var id := batch[i];
        assert batch[..i + 1][..i] == batch[..i] && batch[..i + 1] == batch[..i] + [id];
        if id !in inFlight {
          inFlight := inFlight + {id};
          started := started + [id];
          assert started == before + (NewIn(batch[..i], known) + [id]);
        }
      }
      assert batch[..|batch|] == batch;
    }
  }

  // ---- at most once --------------------------------------------------------------------------

  /** One directive per key, one task per directive, one execution and one report per task. */
  ghost predicate Inv(w: World) {
    && (forall k :: k in w.keys ==> w.keys[k] in w.directives && w.directives[w.keys[k]].key == Some(k))
    && (forall id :: id in w.directives && w.directives[id].key.Some? ==>
          w.directives[id].key.value in w.keys && w.keys[w.directives[id].key.value] == id)
    && (forall id :: id in w.directives ==> w.directives[id].key == IdempotencyKey(w.directives[id].proposal))
    && w.tasks.Keys == w.inFlight <= w.directives.Keys
    && (forall id :: TaskCounts(w, id))
  }

  ghost predicate TaskCounts(w: World, id: Id) {
    && (id !in w.tasks || w.tasks[id] == Created ==> multiset(w.executions)[id] == multiset(w.reports)[id] == 0)
    && (id in w.tasks && w.tasks[id] == Ran ==> multiset(w.executions)[id] == 1 && multiset(w.reports)[id] == 0)
    && (id in w.tasks && w.tasks[id] == Reported ==> multiset(w.executions)[id] == 1 && multiset(w.reports)[id] == 1)
    && (id in w.tasks && w.tasks[id] == Cancelled ==> multiset(w.executions)[id] <= 1 && multiset(w.reports)[id] == 0)
  }

  lemma DispatchKeepsInv(w: World, proposal: string, work: Work, newId: Id)
    requires Inv(w) && newId !in w.directives
    ensures Inv(Dispatched(w, proposal, work, newId).0)
  {
    var w' := Dispatched(w, proposal, work, newId).0;
    forall id
      ensures TaskCounts(w', id)
    {
      assert TaskCounts(w, id);
    }
  }

  lemma PollKeepsInv(w: World, batch: seq<Id>)
    requires Inv(w) && Enabled(w, Poll(batch))
    ensures Inv(Polled(w, batch))
  {
    var w' := Polled(w, batch);
    assert w'.tasks.Keys == w'.inFlight;
    forall id
      ensures TaskCounts(w', id)
    {
      assert TaskCounts(w, id);
    }
  }

  /** Executing, reporting and cancelling leave directives and in-flight ids alone. */
  lemma TaskKeepsInv(w: World, step: Step)
    requires Inv(w) && Enabled(w, step) && (step.Execute? || step.Report? || step.Cancel?)
    ensures Inv(Next(w, step))
  {
    var w' := Next(w, step);
    forall id
      ensures TaskCounts(w', id)
    {
      assert TaskCounts(w, id);
    }
  }

  lemma StepKeepsInv(w: World, step: Step)
    requires Inv(w) && Enabled(w, step)
    ensures Inv(Next(w, step))
  {
    match step
    case Dispatch(proposal, work, newId) => DispatchKeepsInv(w, proposal, work, newId);
    case Poll(batch) => PollKeepsInv(w, batch);
    case _ => TaskKeepsInv(w, step);
  }

  lemma {:induction false} InvHolds(steps: seq<Step>)
    ensures Inv(After(Start(), steps))
  {
    if |steps| > 0 {
      InvHolds(steps[..|steps| - 1]);
      var before := After(Start(), steps[..|steps| - 1]);
      if Enabled(before, steps[|steps| - 1]) {
        StepKeepsInv(before, steps[|steps| - 1]);
      }
    }
  }

  predicate SameProposal(p: string, q: string) {
    Strip(p) == Strip(q)
  }

  /** Positions of the execution log that executed `proposal`. */
  predicate ExecutesAt(w: World, i: nat, proposal: string) {
    i < |w.executions| && w.executions[i] in w.directives && SameProposal(w.directives[w.executions[i]].proposal, proposal)
  }

  lemma Repeats<T>(s: seq<T>, i: nat, j: nat)
    requires i < j < |s| && s[i] == s[j]
    ensures multiset(s)[s[i]] >= 2
  {
    assert s == s[..j] + s[j..];
    assert s[..j][i] == s[i] && s[j..][0] == s[i];
    assert s[i] in s[..j] && s[i] in s[j..];
  }

  /** Over every run -- lost acks, dispatch retries, replicas, re-delivered directives -- a proposal
      with an id is executed at most once. */
  lemma ExecutedAtMostOnce(steps: seq<Step>, proposal: string, i: nat, j: nat)
    requires !Blank(proposal)
    requires ExecutesAt(After(Start(), steps), i, proposal) && ExecutesAt(After(Start(), steps), j, proposal)
    ensures i == j
  {
    InvHolds(steps);
    var w := After(Start(), steps);
    var a, b := w.executions[i], w.executions[j];
    KeysIdentifyProposals(w.directives[a].proposal, proposal);
    KeysIdentifyProposals(w.directives[b].proposal, proposal);
    StripTrims(proposal);
    StripTrims(w.directives[a].proposal);
    assert a == b;
    assert TaskCounts(w, a);
    if i < j { Repeats(w.executions, i, j); }
    if j < i { Repeats(w.executions, j, i); }
  }

  ghost predicate AtMostOnce(proposal: string) {
    forall steps, i, j :: ExecutesAt(After(Start(), steps), i, proposal) && ExecutesAt(After(Start(), steps), j, proposal) ==> i == j
  }

  lemma Extend(steps: seq<Step>, step: Step)
    requires Enabled(After(Start(), steps), step)
    ensures After(Start(), steps + [step]) == Next(After(Start(), steps), step)
  {
    assert (steps + [step])[..|steps|] == steps;
  }

  /** Two directives are held for the proposal and nothing has been delivered. */
  ghost predicate HeldTwice(w: World, proposal: string) {
    && w.directives.Keys == {0, 1} && w.directives[0].proposal == w.directives[1].proposal == proposal
    && w.inFlight == {} && w.tasks == map[] && w.executions == []
  }

  const WORK := Work("device", "action")

  lemma BlankHeldTwice(proposal: string) returns (steps: seq<Step>)
    requires Blank(proposal)
    ensures HeldTwice(After(Start(), steps), proposal)
  {
    StripTrims(proposal);
    assert IdempotencyKey(proposal) == None;
    assert After(Start(), []) == Start();
    Extend([], Dispatch(proposal, WORK, 0));
    steps := [] + [Dispatch(proposal, WORK, 0)];
    Extend(steps, Dispatch(proposal, WORK, 1));
    steps := steps + [Dispatch(proposal, WORK, 1)];
  }

  lemma OneNew(id: Id, known: set<Id>)
    requires id !in known
    ensures NewIn([id], known) == [id] && (set k | k in [id]) == {id}
  {
    assert [id][..0] == [];
  }

  lemma OneTask(tasks: map<Id, Phase>, id: Id)
    ensures tasks + NewTasks([id]) == tasks[id := Created]
  {
  }

  lemma PollOne(w: World, id: Id)
    requires id !in w.inFlight && id in w.directives
    ensures Enabled(w, Poll([id]))
    ensures Polled(w, [id]) == w.(inFlight := w.inFlight + {id}, tasks := w.tasks[id := Created])
  {
    OneNew(id, w.inFlight);
    OneTask(w.tasks, id);
  }

  lemma ExecuteBoth(w: World)
    requires w.tasks == map[0 := Created, 1 := Created] && w.executions == []
    ensures Enabled(w, Execute(0)) && Enabled(Next(w, Execute(0)), Execute(1))
    ensures Next(Next(w, Execute(0)), Execute(1)).executions == [0, 1]
  {
  }

  lemma BlankRunsTwice(proposal: string) returns (steps: seq<Step>)
    requires Blank(proposal)
    ensures ExecutesAt(After(Start(), steps), 0, proposal) && ExecutesAt(After(Start(), steps), 1, proposal)
  {
    steps := BlankHeldTwice(proposal);
    var w := After(Start(), steps);
    PollOne(w, 0);
    Extend(steps, Poll([0]));
    steps := steps + [Poll([0])];
    PollOne(Polled(w, [0]), 1);
    Extend(steps, Poll([1]));
    steps := steps + [Poll([1])];
    ExecuteBoth(Polled(Polled(w, [0]), [1]));
    Extend(steps, Execute(0));
    steps := steps + [Execute(0)];
    Extend(steps, Execute(1));
    steps := steps + [Execute(1)];
  }

  /** The guarantee covers exactly the dispatches that carry a proposal id. */
  lemma AtMostOnceIffKeyed(proposal: string)
    ensures AtMostOnce(proposal) <==> !Blank(proposal)
  {
    if !Blank(proposal) {
      forall steps, i: nat, j: nat | ExecutesAt(After(Start(), steps), i, proposal) && ExecutesAt(After(Start(), steps), j, proposal)
        ensures i == j
      {
        ExecutedAtMostOnce(steps, proposal, i, j);
      }
    } else {
      var steps := BlankRunsTwice(proposal);
    }
  }

  /** A task that ends without being cancelled has executed once and reported once; no directive
      reports twice. */
  lemma EveryTaskReportsOnce(steps: seq<Step>, id: Id)
    ensures var w := After(Start(), steps);
            && multiset(w.executions)[id] <= 1 && multiset(w.reports)[id] <= 1
            && (id in w.tasks && w.tasks[id] == Reported <==> multiset(w.reports)[id] == 1)
            && (id in w.tasks && w.tasks[id] in {Ran, Reported} ==> multiset(w.executions)[id] == 1)
  {
    InvHolds(steps);
    assert TaskCounts(After(Start(), steps), id);
  }

  /** An accepted repeat names the directive already held, for the same work, and says so; nothing
      else reads as a replay. */
  lemma ReplayNamesTheHeldDirective(steps: seq<Step>, proposal: string, work: Work, newId: Id)
    requires newId !in After(Start(), steps).directives
    ensures var w := After(Start(), steps);
            var (w', ack) := Dispatched(w, proposal, work, newId);
            && (IsReplay(ack) <==> exists id :: id in w.directives && w.directives[id].work == work
                                       && !Blank(proposal) && SameProposal(w.directives[id].proposal, proposal))
            && (IsReplay(ack) ==> w' == w && ack.id.value in w.directives && SameProposal(w.directives[ack.id.value].proposal, proposal))
            && (ack.accepted && !IsReplay(ack) ==> w'.directives.Keys == w.directives.Keys + {newId} && ack.id == Some(newId))
  {
    InvHolds(steps);
    var w := After(Start(), steps);
    forall id | id in w.directives
      ensures !Blank(proposal) ==> (SameProposal(w.directives[id].proposal, proposal) <==> w.directives[id].key == IdempotencyKey(proposal))
    {
      KeysIdentifyProposals(proposal, w.directives[id].proposal);
    }
    KeysIdentifyProposals(proposal, proposal);
  }

  /** The task was cancelled, and `ran` and `told` are what it had done by then. */
  ghost predicate CancelledAfter(w: World, id: Id, ran: nat, told: nat) {
    && id in w.tasks && w.tasks[id] == Cancelled && id in w.inFlight
    && multiset(w.executions)[id] == ran && multiset(w.reports)[id] == told
  }

  lemma StepKeepsCancelled(w: World, step: Step, id: Id, ran: nat, told: nat)
    requires CancelledAfter(w, id, ran, told) && Enabled(w, step)
    ensures CancelledAfter(Next(w, step), id, ran, told)
  {
  }

  lemma {:induction false} CancelledStays(w: World, steps: seq<Step>, id: Id, ran: nat, told: nat)
    requires CancelledAfter(w, id, ran, told)
    ensures CancelledAfter(After(w, steps), id, ran, told)
  {
    if |steps| > 0 {
      CancelledStays(w, steps[..|steps| - 1], id, ran, told);
      var before := After(w, steps[..|steps| - 1]);
      if Enabled(before, steps[|steps| - 1]) {
        StepKeepsCancelled(before, steps[|steps| - 1], id, ran, told);
      }
    }
  }

  /** A cancelled task is over: no later delivery, however often it comes, executes or reports it. */
  lemma CancelIsFinal(steps: seq<Step>, id: Id, later: seq<Step>)
    requires Enabled(After(Start(), steps), Cancel(id))
    ensures var w := After(Start(), steps);
            var end := After(Next(w, Cancel(id)), later);
            && multiset(end.executions)[id] == multiset(w.executions)[id] <= 1
            && multiset(end.reports)[id] == 0
  {
    InvHolds(steps);
    var w := After(Start(), steps);
    assert TaskCounts(w, id);
    CancelledStays(Next(w, Cancel(id)), later, id, multiset(w.executions)[id], 0);
  }

  /** A directive is held for the proposal. */
  predicate Holds(w: World, proposal: string, id: Id) {
    id in w.directives && !Blank(proposal) && SameProposal(w.directives[id].proposal, proposal)
  }

  /** The answer to a dispatch, in every reachable state: with nothing held for the proposal the work is
      queued, as asked, under the new id, and the ack names it; with a directive held for the same work
      nothing is queued and the ack names that one; with one held for other work it is refused. */
  lemma DispatchAnswers(steps: seq<Step>, proposal: string, work: Work, newId: Id)
    requires newId !in After(Start(), steps).directives
    ensures var w := After(Start(), steps);
            var (w', ack) := Dispatched(w, proposal, work, newId);
            && ((forall id :: !Holds(w, proposal, id)) ==>
                  && ack == Ack(true, Some(newId), "")
                  && w'.directives.Keys == w.directives.Keys + {newId}
                  && w'.directives[newId].work == work && w'.directives[newId].proposal == proposal)
            && (forall id :: Holds(w, proposal, id) ==>
                  && w' == w
                  && (ack.accepted <==> w.directives[id].work == work)
                  && (ack.accepted ==> ack.id == Some(id) && IsReplay(ack))
                  && (!ack.accepted ==> ack.id == None))
            && (forall id :: id in w.directives ==> id in w'.directives && w'.directives[id] == w.directives[id])
            && w' == w.(keys := w'.keys, directives := w'.directives)
  {
    InvHolds(steps);
    var w := After(Start(), steps);
    KeysIdentifyProposals(proposal, proposal);
    forall id | id in w.directives
      ensures Holds(w, proposal, id) <==> IdempotencyKey(proposal).Some? && w.directives[id].key == IdempotencyKey(proposal)
    {
      KeysIdentifyProposals(proposal, w.directives[id].proposal);
    }
  }

  /** Dispatch, delivery, execution. */
  function Delivery(proposal: string, work: Work, newId: Id): seq<Step> {
    [Dispatch(proposal, work, newId), Poll([newId]), Execute(newId)]
  }

  lemma ExtendThree(steps: seq<Step>, a: Step, b: Step, c: Step)
    requires var w := After(Start(), steps);
             Enabled(w, a) && Enabled(Next(w, a), b) && Enabled(Next(Next(w, a), b), c)
    ensures After(Start(), steps + [a, b, c]) == Next(Next(Next(After(Start(), steps), a), b), c)
  {
    Extend(steps, a);
    Extend(steps + [a], b);
    Extend(steps + [a] + [b], c);
    assert steps + [a, b, c] == steps + [a] + [b] + [c];
  }

  /** A proposal nothing is held for can be dispatched, delivered and executed from every reachable
      state, and its execution is of the work it asked for. */
  lemma NewProposalRuns(steps: seq<Step>, proposal: string, work: Work, newId: Id)
    requires newId !in After(Start(), steps).directives
    requires forall id :: !Holds(After(Start(), steps), proposal, id)
    ensures var w, w' := After(Start(), steps), After(Start(), steps + Delivery(proposal, work, newId));
            && w'.executions == w.executions + [newId]
            && newId in w'.directives && w'.directives[newId].work == work && w'.directives[newId].proposal == proposal
  {
    InvHolds(steps);
    var w := After(Start(), steps);
    DispatchAnswers(steps, proposal, work, newId);
    var queued := Dispatched(w, proposal, work, newId).0;
    PollOne(queued, newId);
    ExtendThree(steps, Dispatch(proposal, work, newId), Poll([newId]), Execute(newId));
  }

  /** So every keyed proposal has a run that executes it, and no run executes it twice. */
  lemma KeyedRunsExactlyOnce(proposal: string, work: Work)
    requires !Blank(proposal)
    ensures var w := After(Start(), Delivery(proposal, work, 0));
            ExecutesAt(w, 0, proposal) && w.directives[w.executions[0]].work == work && AtMostOnce(proposal)
  {
    assert After(Start(), []) == Start();
    NewProposalRuns([], proposal, work, 0);
    assert [] + Delivery(proposal, work, 0) == Delivery(proposal, work, 0);
    AtMostOnceIffKeyed(proposal);
  }
}
