/** Who decides an action, and what the checkpoint remembers of it.

    The agent keeps Action objects in a queue; the checkpoint table is shared with the command line.
    Loading the table puts NEW objects into the queue, so an object that a poll cycle is executing
    can stop being the one the queue will save. Objects are therefore explicit references here. */
module Decisions {
  import opened Actions

  type Id = string

  /** One in-memory Action object: its id and the load (or proposal) that created it. */
  datatype Ref = Ref(id: Id, made: nat)

  datatype Decision = Decision(id: Id, approve: bool)

  datatype World = World(
    heap: map<Ref, Status>,
    queue: map<Id, Ref>,
    disk: map<Id, Status>,
    made: nat,
    batch: set<Ref>,       // what the running cycle found approved
    inCycle: bool,
    starts: seq<Id>,       // executions begun
    decided: seq<Decision>) // decisions that took effect

  /** Every queued id has an object. */
  ghost predicate Valid(w: World) {
    && (forall id :: id in w.queue ==> w.queue[id].id == id && w.queue[id] in w.heap)
    && (forall r :: r in w.heap ==> r.made < w.made)
    && (forall r :: r in w.batch ==> r in w.heap)
    && (w.inCycle || w.batch == {})
  }

  function StatusOf(approve: bool): Status {
    if approve then Approved else Denied
  }

  /** What a load reads: an action found executing crashed, and is recorded as failed. */
  function Loaded(disk: map<Id, Status>): map<Id, Status> {
    map id | id in disk :: if disk[id] == Running then Failed else disk[id]
  }

  /** Load the table and replace every listed action by a new object. */
  function Restored(w: World): World {
    var disk := Loaded(w.disk);
    w.(
      disk := disk,
      heap := w.heap + (map r: Ref | r in (set id | id in disk :: Ref(id, w.made)) :: disk[r.id]),
      queue := w.queue + (map id | id in disk :: Ref(id, w.made)),
      made := w.made + 1)
  }

  function SavedAll(w: World): World
    requires Valid(w)
  {
    w.(disk := w.disk + (map id | id in w.queue :: w.heap[w.queue[id]]))
  }

  /** `approve` and `deny` are defined on PENDING actions only. */
  predicate Takes(w: World, d: Decision)
    requires Valid(w)
  {
    d.id in w.queue && w.heap[w.queue[d.id]] == Pending
  }

  function Taken(w: World, d: Decision): World
    requires Valid(w)
  {
    if Takes(w, d)
    then w.(heap := w.heap[w.queue[d.id] := StatusOf(d.approve)], decided := w.decided + [d])
    else w
  }

  function AllTaken(w: World, ds: seq<Decision>): (w': World)
    requires Valid(w)
    ensures Valid(w') && w'.queue == w.queue && w'.disk == w.disk && w'.made == w.made
  {
    if |ds| == 0 then w else Taken(AllTaken(w, ds[..|ds| - 1]), ds[|ds| - 1])
  }

  /** The new objects hold what the table shows, and the old ones stay as they are. */
  lemma RestoredHeap(w: World)
    requires Valid(w)
    ensures var heap, disk := Restored(w).heap, Loaded(w.disk);
            && (forall id :: id in disk ==> Ref(id, w.made) in heap && heap[Ref(id, w.made)] == disk[id])
            && (forall r :: r in w.heap ==> r in heap && heap[r] == w.heap[r])
            && (forall r :: r in heap ==> r.made <= w.made)
  {
    var disk := Loaded(w.disk);
    forall id | id in disk
      ensures Ref(id, w.made) in Restored(w).heap && Restored(w).heap[Ref(id, w.made)] == disk[id]
    {
      assert Ref(id, w.made) in (set k | k in disk :: Ref(k, w.made));
    }
  }

  /** Every action of the table is queued as its new object; the others keep theirs. */
  lemma RestoredQueue(w: World)
    ensures var queue := Restored(w).queue;
            && queue.Keys == w.queue.Keys + w.disk.Keys
            && forall id :: id in queue ==> queue[id] == if id in w.disk then Ref(id, w.made) else w.queue[id]
  {
  }

  lemma RestoredStaysValid(w: World)
    requires Valid(w)
    ensures Valid(Restored(w))
  {
    RestoredHeap(w);
    RestoredQueue(w);
  }

  lemma RestoredIsValid(w: World)
    requires Valid(w)
    ensures Valid(Restored(w))
    ensures forall id :: id in w.disk ==> id in Restored(w).queue && Restored(w).heap[Restored(w).queue[id]] == Loaded(w.disk)[id]
    ensures forall id :: id in w.queue && id !in w.disk ==> Restored(w).queue[id] == w.queue[id]
    ensures Restored(w).queue.Keys == w.queue.Keys + w.disk.Keys
    ensures forall r :: r in w.heap ==> r in Restored(w).heap && Restored(w).heap[r] == w.heap[r]
  {
    RestoredStaysValid(w);
    RestoredHeap(w);
    RestoredQueue(w);
  }

  // ---- the steps -----------------------------------------------------------------------------

  datatype Step =
    | Cli(decision: Decision)            // load, decide, save that action: one process run
    | Sync(decisions: seq<Decision>)     // the report loop's decision pass
    | Propose(id: Id)
    | Load                               // a cycle loads the table and collects the approved
    | Begin(ref: Ref)                    // the gate admitted it and the executor started
    | Refuse(ref: Ref)                   // the gate refused it
    | Finish(ref: Ref, ok: bool)
    | Save                               // the cycle's end
    | Abort                              // an exception ends the cycle before its save

  predicate Enabled(w: World, step: Step)
    requires Valid(w)
  {
    match step
    case Cli(_) | Sync(_) => true
    case Propose(id) => id !in w.queue && id !in w.disk
    case Load => !w.inCycle
    case Begin(r) => r in w.batch && w.heap[r] == Approved
    case Refuse(r) => r in w.batch && w.heap[r] == Approved
    case Finish(r, _) => r in w.batch && w.heap[r] == Running
    case Save => w.inCycle && forall r :: r in w.batch ==> w.heap[r] in {Completed, Failed}
    case Abort => w.inCycle
  }

  /** The command line works on its own copy of the table. */
  function CliDecided(w: World, d: Decision): World {
    var disk := Loaded(w.disk);
    if d.id in disk && disk[d.id] == Pending
    then w.(disk := disk[d.id := StatusOf(d.approve)], decided := w.decided + [d])
    else w.(disk := disk)
  }

  /** Nothing is loaded unless there are decisions; nothing is saved unless one took effect. */
  function Synced(w: World, ds: seq<Decision>): World
    requires Valid(w)
  {
    if ds == [] then w
    else
      RestoredIsValid(w);
      var w' := AllTaken(Restored(w), ds);
      if w'.decided == w.decided then w' else SavedAll(w')
  }

  function ApprovedRefs(w: World): set<Ref>
    requires Valid(w)
  {
    set id | id in w.queue && w.heap[w.queue[id]] == Approved :: w.queue[id]
  }

  function CycleLoaded(w: World): (w': World)
    requires Valid(w)
    ensures Valid(w')
  {
    RestoredIsValid(w);
    Restored(w).(batch := ApprovedRefs(Restored(w)), inCycle := true)
  }

  function Next(w: World, step: Step): World
    requires Valid(w) && Enabled(w, step)
  {
    match step
    case Cli(d) => CliDecided(w, d)
    case Sync(ds) => Synced(w, ds)
    case Propose(id) => w.(heap := w.heap[Ref(id, w.made) := Pending], queue := w.queue[id := Ref(id, w.made)], made := w.made + 1)
    case Load => CycleLoaded(w)
    case Begin(r) => w.(heap := w.heap[r := Running], starts := w.starts + [r.id])
    case Refuse(r) => w.(heap := w.heap[r := Failed])
    case Finish(r, ok) => w.(heap := w.heap[r := if ok then Completed else Failed])
    case Save => SavedAll(w).(batch := {}, inCycle := false)
    case Abort => w.(batch := {}, inCycle := false)
  }

  lemma {:induction false} AllTakenKeeps(w: World, ds: seq<Decision>)
    requires Valid(w)
    ensures AllTaken(w, ds).batch == w.batch && AllTaken(w, ds).inCycle == w.inCycle && AllTaken(w, ds).starts == w.starts
    ensures w.decided <= AllTaken(w, ds).decided
    ensures forall r :: r in w.heap ==> r in AllTaken(w, ds).heap && (w.heap[r] != Pending ==> AllTaken(w, ds).heap[r] == w.heap[r])
  {
    if |ds| > 0 {
      AllTakenKeeps(w, ds[..|ds| - 1]);
    }
  }

  lemma NextIsValid(w: World, step: Step)
    requires Valid(w) && Enabled(w, step)
    ensures Valid(Next(w, step))
  {
    match step
    case Sync(ds) =>
      RestoredIsValid(w);
      AllTakenKeeps(Restored(w), ds);
    case Load => RestoredIsValid(w);
    case _ =>
  }

  // ---- the class -----------------------------------------------------------------------------

  /** The agent's side: its queue of objects and the table it shares. */
  class Store {
    var w: World

    constructor (disk: map<Id, Status>)
      ensures w == World(map[], map[], disk, 0, {}, false, [], []) && Valid(w)
    {
      w := World(map[], map[], disk, 0, {}, false, [], []);
    }

    /** `_sync_actions` after the reports: load first, then apply each decision whose action is
        still pending, then save everything if anything was applied. */
    method SyncDecisions(ds: seq<Decision>)
      requires Valid(w)
      modifies this
      ensures Valid(w) && w == Synced(old(w), ds)
    {
      if ds == [] {
        return;
      }
      RestoredIsValid(w);
      w := Restored(w);
      var applied := ApplyEach(ds);
      if applied {
        w := SavedAll(w);
      }
    }

    /** Each decision in turn, skipping actions no longer pending; was any applied? */
    method ApplyEach(ds: seq<Decision>) returns (applied: bool)
      requires Valid(w)
      modifies this
      ensures Valid(w) && w == AllTaken(old(w), ds)
      ensures applied <==> w.decided != old(w).decided
    {
      ghost var loaded := w;
      applied := false;
      for i := 0 to |ds|
        invariant Valid(w) && w == AllTaken(loaded, ds[..i])
        invariant applied <==> |w.decided| > |loaded.decided|
        invariant loaded.decided <= w.decided
      {
        TakeOneMore(loaded, ds, i);
        var d := ds[i];
        if d.id in w.queue && w.heap[w.queue[d.id]] == Pending {
          w := w.(heap := w.heap[w.queue[d.id] := StatusOf(d.approve)], decided := w.decided + [d]);
          applied := true;
        }
      }
      assert ds[..|ds|] == ds;
    }
  }

  lemma TakeOneMore(w: World, ds: seq<Decision>, i: nat)
    requires Valid(w) && i < |ds|
    ensures AllTaken(w, ds[..i + 1]) == Taken(AllTaken(w, ds[..i]), ds[i])
  {
    assert ds[..i + 1][..i] == ds[..i];
  }

  // ---- first decider wins --------------------------------------------------------------------

  /** The decisions on record for one action. */
  function For(ds: seq<Decision>, id: Id): seq<Decision> {
    if |ds| == 0 then []
    else
      var before := For(ds[..|ds| - 1], id);
      if ds[|ds| - 1].id == id then before + [ds[|ds| - 1]] else before
  }

  lemma ForAppended(ds: seq<Decision>, d: Decision, id: Id)
    ensures For(ds + [d], id) == if d.id == id then For(ds, id) + [d] else For(ds, id)
  {
    assert (ds + [d])[..|ds|] == ds;
  }

  /** At most one decision took effect, the table shows it, and memory either agrees with the
      table or has not heard yet. */
  ghost predicate DecidedOnce(w: World, id: Id) {
    && Valid(w)
    && |For(w.decided, id)| <= 1
    && (For(w.decided, id) != [] ==> id in w.disk && w.disk[id] == StatusOf(For(w.decided, id)[0].approve))
    && (For(w.decided, id) == [] ==> (id in w.disk ==> w.disk[id] == Pending) && (id in w.queue ==> w.heap[w.queue[id]] == Pending))
    && (id in w.queue ==> w.heap[w.queue[id]] == Pending || (id in w.disk && w.heap[w.queue[id]] == w.disk[id]))
  }

  lemma {:induction false} BatchDecidesOnce(w: World, ds: seq<Decision>, id: Id)
    requires Valid(w)
    ensures For(AllTaken(w, ds).decided, id) == For(w.decided, id)
            || (id in w.queue && w.heap[w.queue[id]] == Pending
                && |For(AllTaken(w, ds).decided, id)| == |For(w.decided, id)| + 1
                && For(AllTaken(w, ds).decided, id)[..|For(w.decided, id)|] == For(w.decided, id)
                && AllTaken(w, ds).heap[w.queue[id]] == StatusOf(For(AllTaken(w, ds).decided, id)[|For(w.decided, id)|].approve))
    ensures For(AllTaken(w, ds).decided, id) == For(w.decided, id) && id in w.queue ==>
            AllTaken(w, ds).heap[w.queue[id]] == w.heap[w.queue[id]]
  {
    if |ds| > 0 {
      var mid, d := AllTaken(w, ds[..|ds| - 1]), ds[|ds| - 1];
      BatchDecidesOnce(w, ds[..|ds| - 1], id);
      ForAppended(mid.decided, d, id);
    }
  }

  /** Right after a load, memory shows what the table shows. */
  ghost predicate Fresh(w: World, id: Id) {
    Valid(w) && (id in w.disk ==> id in w.queue && w.heap[w.queue[id]] == w.disk[id])
  }

  lemma LoadDecidesOnce(w: World, id: Id)
    requires DecidedOnce(w, id)
    ensures DecidedOnce(Restored(w), id) && Fresh(Restored(w), id)
  {
    RestoredIsValid(w);
  }

  lemma BatchThenSaveDecidesOnce(w: World, ds: seq<Decision>, id: Id)
    requires DecidedOnce(w, id) && Fresh(w, id)
    ensures var w' := AllTaken(w, ds);
            && (w'.decided == w.decided ==> DecidedOnce(w', id))
            && DecidedOnce(SavedAll(w'), id)
            && For(w.decided, id) <= For(w'.decided, id)
  {
    BatchDecidesOnce(w, ds, id);
    var w' := AllTaken(w, ds);
    if id in w.queue {
      assert id in SavedAll(w').disk && SavedAll(w').disk[id] == w'.heap[w'.queue[id]];
    }
  }

  lemma SyncDecidesOnce(w: World, ds: seq<Decision>, id: Id)
    requires DecidedOnce(w, id)
    ensures DecidedOnce(Synced(w, ds), id)
    ensures For(w.decided, id) <= For(Synced(w, ds).decided, id)
  {
    if ds != [] {
      LoadDecidesOnce(w, id);
      BatchThenSaveDecidesOnce(Restored(w), ds, id);
    }
  }

  lemma CliDecidesOnce(w: World, d: Decision, id: Id)
    requires DecidedOnce(w, id)
    ensures DecidedOnce(CliDecided(w, d), id)
    ensures For(w.decided, id) <= For(CliDecided(w, d).decided, id)
  {
    ForAppended(w.decided, d, id);
  }

  predicate DecisionPass(step: Step) {
    step.Cli? || step.Sync? || step.Propose?
  }

  /** The world after a run; a step that is not enabled where it comes does not happen. */
  function After(w: World, steps: seq<Step>): (w': World)
    requires Valid(w)
    ensures Valid(w')
  {
    if |steps| == 0 then w
    else
      var before := After(w, steps[..|steps| - 1]);
      var step := steps[|steps| - 1];
      if Enabled(before, step) then NextIsValid(before, step); Next(before, step) else before
  }

  /** At most one decision took effect; a decided action is not pending in the table, and inside a
      cycle not in memory either, so no save can undo the decision. */
  ghost predicate Settled(w: World, id: Id) {
    && Valid(w)
    && |For(w.decided, id)| <= 1
    && (For(w.decided, id) != [] ==>
          && id in w.disk && w.disk[id] != Pending
          && (w.inCycle ==> id in w.queue && w.heap[w.queue[id]] != Pending))
  }

  /** Settled, and the queue has been loaded from the table. */
  ghost predicate SettledFresh(w: World, id: Id) {
    Settled(w, id) && (For(w.decided, id) != [] ==> id in w.queue && w.heap[w.queue[id]] != Pending)
  }

  lemma LoadSettles(w: World, id: Id)
    requires Settled(w, id)
    ensures SettledFresh(Restored(w), id)
  {
    RestoredIsValid(w);
  }

  lemma BatchSettles(w: World, ds: seq<Decision>, id: Id)
    requires SettledFresh(w, id)
    ensures For(w.decided, id) <= For(AllTaken(w, ds).decided, id)
    ensures For(w.decided, id) != [] ==> For(AllTaken(w, ds).decided, id) == For(w.decided, id)
    ensures AllTaken(w, ds).decided == w.decided ==> Settled(AllTaken(w, ds), id)
    ensures Settled(SavedAll(AllTaken(w, ds)), id)
  {
    AllTakenKeeps(w, ds);
    BatchDecidesOnce(w, ds, id);
    var w' := AllTaken(w, ds);
    assert id in w'.queue ==> SavedAll(w').disk[id] == w'.heap[w'.queue[id]];
  }

  lemma SyncSettles(w: World, ds: seq<Decision>, id: Id)
    requires Settled(w, id)
    ensures Settled(Synced(w, ds), id)
    ensures For(w.decided, id) <= For(Synced(w, ds).decided, id)
    ensures For(w.decided, id) != [] ==> For(Synced(w, ds).decided, id) == For(w.decided, id)
  {
    if ds != [] {
      LoadSettles(w, id);
      BatchSettles(Restored(w), ds, id);
    }
  }

  lemma CliSettles(w: World, d: Decision, id: Id)
    requires Settled(w, id) && !w.inCycle
    ensures Settled(CliDecided(w, d), id)
    ensures For(w.decided, id) <= For(CliDecided(w, d).decided, id)
    ensures For(w.decided, id) != [] ==> For(CliDecided(w, d).decided, id) == For(w.decided, id)
  {
    ForAppended(w.decided, d, id);
  }

  lemma SaveSettles(w: World, id: Id)
    requires Settled(w, id) && Enabled(w, Save)
    ensures Settled(Next(w, Save), id)
  {
    assert id in w.queue ==> SavedAll(w).disk[id] == w.heap[w.queue[id]];
  }

  lemma CycleSettles(w: World, step: Step, id: Id)
    requires Settled(w, id) && Enabled(w, step) && (step.Begin? || step.Refuse? || step.Finish?)
    ensures Settled(Next(w, step), id)
  {
    NextIsValid(w, step);
  }

  lemma OtherSettles(w: World, step: Step, id: Id)
    requires Settled(w, id) && Enabled(w, step) && (step.Propose? || step.Abort?)
    ensures Settled(Next(w, step), id)
  {
    NextIsValid(w, step);
  }

  lemma StepSettles(w: World, step: Step, id: Id)
    requires Settled(w, id) && Enabled(w, step) && (step.Cli? ==> !w.inCycle)
    ensures Settled(Next(w, step), id)
    ensures For(w.decided, id) <= For(Next(w, step).decided, id)
    ensures For(w.decided, id) != [] ==> For(Next(w, step).decided, id) == For(w.decided, id)
  {
    match step
    case Cli(d) => CliSettles(w, d, id);
    case Sync(ds) => SyncSettles(w, ds, id);
    case Load => LoadSettles(w, id);
    case Save => SaveSettles(w, id);
    case Begin(_) | Refuse(_) | Finish(_, _) => CycleSettles(w, step, id);
    case Propose(_) | Abort => OtherSettles(w, step, id);
  }

  /** No command-line decision of the run falls between a cycle's load and its end. */
  ghost predicate CliOutsideCycles(w: World, steps: seq<Step>)
    requires Valid(w)
  {
    |steps| > 0 ==>
      && CliOutsideCycles(w, steps[..|steps| - 1])
      && (steps[|steps| - 1].Cli? ==> !After(w, steps[..|steps| - 1]).inCycle)
  }

  /** First decider wins: over any run, cycles, loads and saves included, in which no command-line
      decision falls inside a cycle, an action takes at most one decision and keeps the first. */
  lemma {:induction false} FirstDeciderWins(w: World, steps: seq<Step>, id: Id)
    requires Settled(w, id) && CliOutsideCycles(w, steps)
    ensures Settled(After(w, steps), id)
    ensures For(w.decided, id) <= For(After(w, steps).decided, id)
    ensures For(w.decided, id) != [] ==> For(After(w, steps).decided, id) == For(w.decided, id)
  {
    if |steps| > 0 {
      var before := After(w, steps[..|steps| - 1]);
      FirstDeciderWins(w, steps[..|steps| - 1], id);
      if Enabled(before, steps[|steps| - 1]) {
        StepSettles(before, steps[|steps| - 1], id);
      }
    }
  }

  /** While no cycle executes anything, the table also goes on showing the one decision as it was taken. */
  lemma {:induction false} DecisionStaysOnTable(w: World, steps: seq<Step>, id: Id)
    requires DecidedOnce(w, id) && forall i :: 0 <= i < |steps| ==> DecisionPass(steps[i])
    ensures DecidedOnce(After(w, steps), id)
    ensures For(w.decided, id) <= For(After(w, steps).decided, id)
    ensures For(w.decided, id) != [] ==> For(After(w, steps).decided, id) == For(w.decided, id)
  {
    if |steps| > 0 {
      var before := After(w, steps[..|steps| - 1]);
      var step := steps[|steps| - 1];
      DecisionStaysOnTable(w, steps[..|steps| - 1], id);
      if Enabled(before, step) {
        match step
        case Cli(d) => CliDecidesOnce(before, d, id);
        case Sync(ds) => SyncDecidesOnce(before, ds, id);
        case Propose(k) =>
      }
    }
  }

  // ---- a cycle between its load and its save --------------------------------------------------

  /** What may happen while a cycle is executing its batch. */
  predicate WindowStep(step: Step) {
    !step.Load? && !step.Save? && !step.Abort?
  }

  /** A decision pass that found decisions, and so reloaded the table into the queue. */
  predicate Reloads(step: Step) {
    step.Sync? && step.decisions != []
  }

  predicate AnyReload(steps: seq<Step>) {
    exists i :: 0 <= i < |steps| && Reloads(steps[i])
  }

  predicate Window(steps: seq<Step>) {
    forall i :: 0 <= i < |steps| ==> WindowStep(steps[i])
  }

  lemma WindowPrefix(steps: seq<Step>)
    requires |steps| > 0 && Window(steps)
    ensures Window(steps[..|steps| - 1]) && WindowStep(steps[|steps| - 1])
    ensures AnyReload(steps) <==> AnyReload(steps[..|steps| - 1]) || Reloads(steps[|steps| - 1])
  {
    var before := steps[..|steps| - 1];
    if AnyReload(steps) && !Reloads(steps[|steps| - 1]) {
      var i :| 0 <= i < |steps| && Reloads(steps[i]);
      assert Reloads(before[i]);
    }
    if AnyReload(before) {
      var i :| 0 <= i < |before| && Reloads(before[i]);
      assert Reloads(steps[i]);
    }
  }

  /** An action of the batch, loaded as `r`: the queue holds `r` until a reload, and after one holds
      another object that still reads APPROVED. */
  ghost predicate Detached(w: World, r: Ref, reloaded: bool) {
    && Valid(w) && w.inCycle
    && r in w.batch && r.id in w.disk && w.disk[r.id] == Approved && r.id in w.queue
    && (!reloaded ==> w.queue[r.id] == r)
    && (reloaded ==> w.queue[r.id] !in w.batch && w.heap[w.queue[r.id]] == Approved)
  }

  lemma LoadDetaches(w: World, r: Ref, reloaded: bool)
    requires Detached(w, r, reloaded)
    ensures Detached(Restored(w), r, true)
  {
    RestoredIsValid(w);
    assert Restored(w).queue[r.id] == Ref(r.id, w.made);
  }

  lemma BatchKeepsDetached(w: World, ds: seq<Decision>, r: Ref)
    requires Detached(w, r, true)
    ensures Detached(AllTaken(w, ds), r, true) && Detached(SavedAll(AllTaken(w, ds)), r, true)
  {
    AllTakenKeeps(w, ds);
    var w' := AllTaken(w, ds);
    assert SavedAll(w').disk[r.id] == w'.heap[w'.queue[r.id]];
  }

  lemma ReloadDetaches(w: World, ds: seq<Decision>, r: Ref, reloaded: bool)
    requires Detached(w, r, reloaded) && ds != []
    ensures Detached(Synced(w, ds), r, true)
  {
    LoadDetaches(w, r, reloaded);
    BatchKeepsDetached(Restored(w), ds, r);
  }

  lemma StepDetaches(w: World, step: Step, r: Ref, reloaded: bool)
    requires Detached(w, r, reloaded) && WindowStep(step) && Enabled(w, step)
    ensures Detached(Next(w, step), r, reloaded || Reloads(step))
  {
    NextIsValid(w, step);
    match step
    case Sync(ds) => if ds != [] { ReloadDetaches(w, ds, r, reloaded); }
    case _ =>
  }

  lemma {:induction false} WindowDetaches(w: World, steps: seq<Step>, r: Ref)
    requires Detached(w, r, false) && Window(steps)
    ensures Detached(After(w, steps), r, AnyReload(steps))
  {
    if |steps| > 0 {
      WindowPrefix(steps);
      var before, step := After(w, steps[..|steps| - 1]), steps[|steps| - 1];
      WindowDetaches(w, steps[..|steps| - 1], r);
      if Enabled(before, step) {
        StepDetaches(before, step, r, AnyReload(steps[..|steps| - 1]));
      }
    }
  }

  lemma DetachedAtTheEnd(w: World, r: Ref, reloaded: bool)
    requires Detached(w, r, reloaded)
    ensures Enabled(w, Abort) && r.id in Next(w, Abort).disk && Next(w, Abort).disk[r.id] == Approved
    ensures Enabled(w, Save) ==> r.id in Next(w, Save).disk && (Next(w, Save).disk[r.id] == Approved <==> reloaded)
  {
    assert w.heap[w.queue[r.id]] == SavedAll(w).disk[r.id];
  }

  lemma ApprovedIsBegunAgain(w: World, id: Id)
    requires Valid(w) && !w.inCycle && id in w.disk && w.disk[id] == Approved
    ensures var again := CycleLoaded(w); Valid(again) && id in again.queue && Enabled(again, Begin(again.queue[id]))
    ensures Detached(CycleLoaded(w), CycleLoaded(w).queue[id], false)
  {
    RestoredIsValid(w);
    var again := Restored(w);
    assert again.queue[id] in ApprovedRefs(again);
  }

  /** An action executed by a cycle is still APPROVED in the table after the cycle's save -- and will
      be executed again by the next one -- exactly when a decision pass that found decisions ran
      between the cycle's load and its save. A cycle that raises before its save always leaves it
      APPROVED. */
  lemma ExecutedAgainIffReloaded(w: World, steps: seq<Step>, id: Id)
    requires Valid(w) && !w.inCycle && id in w.disk && w.disk[id] == Approved && Window(steps)
    ensures var w1 := After(CycleLoaded(w), steps);
            && Enabled(w1, Abort) && id in Next(w1, Abort).disk && Next(w1, Abort).disk[id] == Approved
            && (Enabled(w1, Save) ==>
                  id in Next(w1, Save).disk && (Next(w1, Save).disk[id] == Approved <==> AnyReload(steps)))
    ensures var w1 := After(CycleLoaded(w), steps);
            Enabled(w1, Save) && AnyReload(steps) ==>
              Valid(Next(w1, Save)) &&
              var again := CycleLoaded(Next(w1, Save));
              Valid(again) && id in again.queue && Enabled(again, Begin(again.queue[id]))
  {
    ApprovedIsBegunAgain(w, id);
    var w0 := CycleLoaded(w);
    var r := w0.queue[id];
    WindowDetaches(w0, steps, r);
    var w1 := After(w0, steps);
    DetachedAtTheEnd(w1, r, AnyReload(steps));
    if Enabled(w1, Save) {
      NextIsValid(w1, Save);
      if AnyReload(steps) {
        ApprovedIsBegunAgain(Next(w1, Save), id);
      }
    }
  }

  lemma Extend(w: World, steps: seq<Step>, step: Step)
    requires Valid(w) && Enabled(After(w, steps), step)
    ensures After(w, steps + [step]) == Next(After(w, steps), step)
  {
    assert (steps + [step])[..|steps|] == steps;
  }

  ghost predicate Reaches(w: World, w': World) {
    Valid(w) && exists steps :: After(w, steps) == w'
  }

  lemma ReachStep(w: World, w1: World, step: Step) returns (w2: World)
    requires Reaches(w, w1) && Valid(w1) && Enabled(w1, step)
    ensures w2 == Next(w1, step) && Reaches(w, w2) && Valid(w2)
  {
    var steps :| After(w, steps) == w1;
    Extend(w, steps, step);
    NextIsValid(w1, step);
    w2 := Next(w1, step);
  }

  /** A decision for an unknown action still reloads the table. */
  lemma UnknownDecisionOnlyReloads(w: World, other: Id)
    requires Valid(w) && other !in w.queue && other !in w.disk
    ensures Synced(w, [Decision(other, true)]) == Restored(w)
  {
    RestoredIsValid(w);
    assert [Decision(other, true)][..0] == [];
    assert AllTaken(Restored(w), []) == Restored(w);
  }

  /** The batch's one action runs to completion while a decision for another action arrives. */
  lemma FirstStart(w: World, w0: World, r: Ref, other: Id) returns (w3: World)
    requires Reaches(w, w0) && Detached(w0, r, false) && w0.batch == {r} && w0.heap[r] == Approved
    requires other !in w0.queue && other !in w0.disk
    ensures Reaches(w, w3) && Detached(w3, r, true) && w3.batch == {r} && w3.heap[r] == Completed
    ensures w3.starts == w0.starts + [r.id]
  {
    var w1 := ReachStep(w, w0, Begin(r));
    StepDetaches(w0, Begin(r), r, false);
    var w2 := ReachStep(w, w1, Sync([Decision(other, true)]));
    StepDetaches(w1, Sync([Decision(other, true)]), r, false);
    UnknownDecisionOnlyReloads(w1, other);
    RestoredIsValid(w1);
    w3 := ReachStep(w, w2, Finish(r, true));
    StepDetaches(w2, Finish(r, true), r, true);
  }

  lemma SecondStart(w: World, w3: World, r: Ref) returns (w6: World)
    requires Reaches(w, w3) && Detached(w3, r, true) && w3.batch == {r} && w3.heap[r] == Completed
    ensures Reaches(w, w6) && w6.starts == w3.starts + [r.id]
  {
    DetachedAtTheEnd(w3, r, true);
    var w4 := ReachStep(w, w3, Save);
    ApprovedIsBegunAgain(w4, r.id);
    var w5 := ReachStep(w, w4, Load);
    w6 := ReachStep(w, w5, Begin(w5.queue[r.id]));
  }

  /** It does happen: one approved action, one decision for some other action while it runs, and the
      next cycle executes it a second time. */
  lemma ExecutedTwice(id: Id, other: Id) returns (twice: World)
    requires id != other
    ensures Reaches(World(map[], map[], map[id := Approved], 0, {}, false, [], []), twice) && twice.starts == [id, id]
  {
    var w := World(map[], map[], map[id := Approved], 0, {}, false, [], []);
    assert After(w, []) == w;
    OneApproved(w, id);
    var w0 := ReachStep(w, w, Load);
    twice := TwiceFrom(w, w0, w0.queue[id], other);
  }

  lemma TwiceFrom(w: World, w0: World, r: Ref, other: Id) returns (twice: World)
    requires Reaches(w, w0) && Detached(w0, r, false) && w0.batch == {r} && w0.heap[r] == Approved
    requires other !in w0.queue && other !in w0.disk
    ensures Reaches(w, twice) && twice.starts == w0.starts + [r.id] + [r.id]
  {
    var w3 := FirstStart(w, w0, r, other);
    twice := SecondStart(w, w3, r);
  }

  /** The first cycle over a table with one approved action. */
  lemma OneApproved(w: World, id: Id)
    requires w == World(map[], map[], map[id := Approved], 0, {}, false, [], [])
    ensures Valid(w)
    ensures var w0 := CycleLoaded(w);
            && w0.queue.Keys == {id} && w0.disk.Keys == {id} && w0.batch == {w0.queue[id]} && w0.starts == []
            && w0.queue[id].id == id && w0.heap[w0.queue[id]] == Approved && Detached(w0, w0.queue[id], false)
  {
    ApprovedIsBegunAgain(w, id);
    RestoredIsValid(w);
  }

  // ---- command-line decisions taken inside the window -----------------------------------------

  /** Undecided actions are pending on both sides, and a batch holds no pending object. */
  ghost predicate Undecided(w: World, id: Id) {
    && Valid(w) && w.inCycle
    && (forall r :: r in w.batch ==> w.heap[r] != Pending)
    && (id in w.disk && w.disk[id] == Pending ==> id in w.queue && w.heap[w.queue[id]] == Pending)
  }

  lemma LoadKeepsUndecided(w: World, id: Id)
    requires Undecided(w, id)
    ensures Undecided(Restored(w), id)
  {
    RestoredIsValid(w);
  }

  lemma BatchKeepsUndecided(w: World, ds: seq<Decision>, id: Id)
    requires Undecided(w, id)
    ensures AllTaken(w, ds).decided == w.decided ==> Undecided(AllTaken(w, ds), id)
    ensures Undecided(SavedAll(AllTaken(w, ds)), id)
  {
    AllTakenKeeps(w, ds);
    BatchDecidesOnce(w, ds, id);
    var w' := AllTaken(w, ds);
    assert id in w'.queue ==> SavedAll(w').disk[id] == w'.heap[w'.queue[id]];
  }

  lemma ReloadKeepsUndecided(w: World, ds: seq<Decision>, id: Id)
    requires Undecided(w, id) && ds != []
    ensures Undecided(Synced(w, ds), id)
  {
    LoadKeepsUndecided(w, id);
    BatchKeepsUndecided(Restored(w), ds, id);
  }

  lemma StepKeepsUndecided(w: World, step: Step, id: Id)
    requires Undecided(w, id) && WindowStep(step) && Enabled(w, step)
    ensures Undecided(Next(w, step), id)
  {
    NextIsValid(w, step);
    match step
    case Sync(ds) => if ds != [] { ReloadKeepsUndecided(w, ds, id); }
    case _ =>
  }

  lemma {:induction false} WindowKeepsUndecided(w: World, steps: seq<Step>, id: Id)
    requires Undecided(w, id) && Window(steps)
    ensures Undecided(After(w, steps), id)
  {
    if |steps| > 0 {
      WindowPrefix(steps);
      WindowKeepsUndecided(w, steps[..|steps| - 1], id);
      if Enabled(After(w, steps[..|steps| - 1]), steps[|steps| - 1]) {
        StepKeepsUndecided(After(w, steps[..|steps| - 1]), steps[|steps| - 1], id);
      }
    }
  }

  /** The table holds a decision the queue has heard of only after a reload. */
  ghost predicate Unheard(w: World, d: Decision, reloaded: bool) {
    && Valid(w) && w.inCycle
    && d.id in w.disk && w.disk[d.id] == StatusOf(d.approve)
    && d.id in w.queue && w.queue[d.id] !in w.batch
    && w.heap[w.queue[d.id]] == if reloaded then StatusOf(d.approve) else Pending
  }

  lemma LoadHears(w: World, d: Decision, reloaded: bool)
    requires Unheard(w, d, reloaded)
    ensures Unheard(Restored(w), d, true)
  {
    RestoredIsValid(w);
    assert Restored(w).queue[d.id] == Ref(d.id, w.made) && Ref(d.id, w.made) !in w.heap;
  }

  lemma ReloadHears(w: World, ds: seq<Decision>, d: Decision, reloaded: bool)
    requires Unheard(w, d, reloaded) && ds != []
    ensures Unheard(Synced(w, ds), d, true)
  {
    LoadHears(w, d, reloaded);
    BatchKeepsHeard(Restored(w), ds, d);
  }

  lemma BatchKeepsHeard(w: World, ds: seq<Decision>, d: Decision)
    requires Unheard(w, d, true)
    ensures Unheard(AllTaken(w, ds), d, true) && Unheard(SavedAll(AllTaken(w, ds)), d, true)
  {
    AllTakenKeeps(w, ds);
    var w2 := AllTaken(w, ds);
    assert SavedAll(w2).disk[d.id] == w2.heap[w2.queue[d.id]];
  }

  lemma StepKeepsUnheard(w: World, step: Step, d: Decision, reloaded: bool)
    requires Unheard(w, d, reloaded) && WindowStep(step) && Enabled(w, step)
    ensures Unheard(Next(w, step), d, reloaded || Reloads(step))
  {
    NextIsValid(w, step);
    match step
    case Sync(ds) => if ds != [] { ReloadHears(w, ds, d, reloaded); }
    case _ =>
  }

  lemma {:induction false} WindowKeepsUnheard(w: World, steps: seq<Step>, d: Decision)
    requires Unheard(w, d, false) && Window(steps)
    ensures Unheard(After(w, steps), d, AnyReload(steps))
  {
    if |steps| > 0 {
      WindowPrefix(steps);
      WindowKeepsUnheard(w, steps[..|steps| - 1], d);
      if Enabled(After(w, steps[..|steps| - 1]), steps[|steps| - 1]) {
        StepKeepsUnheard(After(w, steps[..|steps| - 1]), steps[|steps| - 1], d, AnyReload(steps[..|steps| - 1]));
      }
    }
  }

  /** A command-line decision taken while a cycle is executing survives the cycle's save exactly when
      a decision pass reloads the table after it; otherwise the action is PENDING again and the
      opposite decision is accepted later. */
  lemma DecisionInWindowSurvivesIffReloaded(w: World, before: seq<Step>, d: Decision, after: seq<Step>)
    requires Valid(w) && !w.inCycle && Window(before) && Window(after)
    requires var wa := After(CycleLoaded(w), before); d.id in wa.disk && wa.disk[d.id] == Pending
    requires Enabled(After(CliDecided(After(CycleLoaded(w), before), d), after), Save)
    ensures var saved := Next(After(CliDecided(After(CycleLoaded(w), before), d), after), Save);
            && d.id in saved.disk
            && (saved.disk[d.id] == StatusOf(d.approve) <==> AnyReload(after))
            && (!AnyReload(after) ==>
                  saved.disk[d.id] == Pending && Valid(saved) &&
                  CliDecided(saved, Decision(d.id, !d.approve)).disk[d.id] == StatusOf(!d.approve))
  {
    UndecidedAtLoad(w, d.id);
    WindowKeepsUndecided(CycleLoaded(w), before, d.id);
    var wa := After(CycleLoaded(w), before);
    CliLeavesUnheard(wa, d);
    WindowKeepsUnheard(CliDecided(wa, d), after, d);
    SaveAfterUnheard(After(CliDecided(wa, d), after), d, AnyReload(after));
  }

  lemma UndecidedAtLoad(w: World, id: Id)
    requires Valid(w) && !w.inCycle
    ensures Undecided(CycleLoaded(w), id)
  {
    RestoredIsValid(w);
  }

  lemma CliLeavesUnheard(w: World, d: Decision)
    requires Undecided(w, d.id) && d.id in w.disk && w.disk[d.id] == Pending
    ensures Unheard(CliDecided(w, d), d, false)
  {
    NextIsValid(w, Cli(d));
  }

  lemma SaveAfterUnheard(w: World, d: Decision, reloaded: bool)
    requires Unheard(w, d, reloaded) && Enabled(w, Save)
    ensures var saved := Next(w, Save);
            && Valid(saved) && d.id in saved.disk
            && (saved.disk[d.id] == StatusOf(d.approve) <==> reloaded)
            && (!reloaded ==> saved.disk[d.id] == Pending
                              && CliDecided(saved, Decision(d.id, !d.approve)).disk[d.id] == StatusOf(!d.approve))
  {
    NextIsValid(w, Save);
    assert SavedAll(w).disk[d.id] == w.heap[w.queue[d.id]];
  }

  // ---- at most once, when nothing reloads inside a cycle ---------------------------------------

  /** Decision passes with decisions fall between cycles, and every cycle reaches its save. */
  predicate Clean(w: World, step: Step) {
    (Reloads(step) ==> !w.inCycle) && !step.Abort?
  }

  ghost predicate CleanRun(w: World, steps: seq<Step>)
    requires Valid(w)
  {
    |steps| == 0 || (CleanRun(w, steps[..|steps| - 1]) && Clean(After(w, steps[..|steps| - 1]), steps[|steps| - 1]))
  }

  const SETTLED := {Completed, Failed}

  /** A started action is settled in the table, or is one of the objects the running cycle saves. */
  ghost predicate StartedOnce(w: World, id: Id) {
    && Valid(w)
    && multiset(w.starts)[id] <= 1
    && (forall r :: r in w.batch ==> r.id in w.queue && w.queue[r.id] == r)
    && (id in w.starts ==>
          && id in w.queue && w.heap[w.queue[id]] in SETTLED + {Running}
          && (w.queue[id] in w.batch || (id in w.disk && w.disk[id] in SETTLED && w.heap[w.queue[id]] in SETTLED)))
  }

  lemma LoadKeepsStarts(w: World, id: Id)
    requires StartedOnce(w, id) && !w.inCycle
    ensures StartedOnce(Restored(w), id)
  {
    RestoredIsValid(w);
  }

  lemma BatchKeepsStarts(w: World, ds: seq<Decision>, id: Id)
    requires StartedOnce(w, id) && !w.inCycle
    ensures StartedOnce(AllTaken(w, ds), id) && StartedOnce(SavedAll(AllTaken(w, ds)), id)
  {
    AllTakenKeeps(w, ds);
    var w' := AllTaken(w, ds);
    assert id in w'.queue ==> SavedAll(w').disk[id] == w'.heap[w'.queue[id]];
  }

  lemma ReloadKeepsStarts(w: World, ds: seq<Decision>, id: Id)
    requires StartedOnce(w, id) && !w.inCycle && ds != []
    ensures StartedOnce(Synced(w, ds), id)
  {
    LoadKeepsStarts(w, id);
    BatchKeepsStarts(Restored(w), ds, id);
  }

  lemma SaveKeepsStarts(w: World, id: Id)
    requires StartedOnce(w, id) && Enabled(w, Save)
    ensures StartedOnce(Next(w, Save), id)
  {
    assert id in w.queue ==> SavedAll(w).disk[id] == w.heap[w.queue[id]];
  }

  lemma CycleKeepsStarts(w: World, step: Step, id: Id)
    requires StartedOnce(w, id) && Enabled(w, step) && (step.Begin? || step.Refuse? || step.Finish?)
    ensures StartedOnce(Next(w, step), id)
  {
    NextIsValid(w, step);
  }

  lemma CliKeepsStarts(w: World, d: Decision, id: Id)
    requires StartedOnce(w, id)
    ensures StartedOnce(CliDecided(w, d), id)
  {
  }

  lemma ProposalKeepsStarts(w: World, k: Id, id: Id)
    requires StartedOnce(w, id) && Enabled(w, Propose(k))
    ensures StartedOnce(Next(w, Propose(k)), id)
  {
    NextIsValid(w, Propose(k));
  }

  lemma StepStartsOnce(w: World, step: Step, id: Id)
    requires StartedOnce(w, id) && Enabled(w, step) && Clean(w, step)
    ensures StartedOnce(Next(w, step), id)
  {
    match step
    case Sync(ds) => if ds != [] { ReloadKeepsStarts(w, ds, id); }
    case Load => LoadKeepsStarts(w, id);
    case Save => SaveKeepsStarts(w, id);
    case Cli(d) => CliKeepsStarts(w, d, id);
    case Propose(k) => ProposalKeepsStarts(w, k, id);
    case Begin(_) | Refuse(_) | Finish(_, _) => CycleKeepsStarts(w, step, id);
    case _ =>
  }

  /** Then every action is executed at most once, over any number of cycles and decisions. */
  lemma {:induction false} ExecutedAtMostOnce(w: World, steps: seq<Step>, id: Id)
    requires Valid(w) && !w.inCycle && w.starts == [] && CleanRun(w, steps)
    ensures StartedOnce(After(w, steps), id)
  {
    if |steps| > 0 {
      ExecutedAtMostOnce(w, steps[..|steps| - 1], id);
      if Enabled(After(w, steps[..|steps| - 1]), steps[|steps| - 1]) {
        StepStartsOnce(After(w, steps[..|steps| - 1]), steps[|steps| - 1], id);
      }
    }
  }

  // ---- what a decision does -------------------------------------------------------------------

  /** The next cycle can start the action. */
  ghost predicate NextCycleStarts(w: World, id: Id) {
    && Valid(w) && Enabled(w, Load)
    && var loaded := CycleLoaded(w);
       Valid(loaded) && id in loaded.queue && Enabled(loaded, Begin(loaded.queue[id]))
  }

  /** Where an action's life ends. */
  const FINAL := {Denied, Completed, Failed}

  /** The table shows how the action ended, and no object a cycle will start or save says otherwise. */
  ghost predicate Ended(w: World, id: Id, end: Status) {
    && Valid(w) && end in FINAL
    && id in w.disk && w.disk[id] == end
    && (w.inCycle ==> id in w.queue && w.heap[w.queue[id]] == end)
    && (forall r :: r in w.batch ==> r.id != id)
  }

  lemma LoadKeepsEnd(w: World, id: Id, end: Status)
    requires Ended(w, id, end)
    ensures Ended(Restored(w), id, end) && Restored(w).heap[Restored(w).queue[id]] == end
  {
    RestoredIsValid(w);
  }

  lemma BatchKeepsEnd(w: World, ds: seq<Decision>, id: Id, end: Status)
    requires Ended(w, id, end) && id in w.queue && w.heap[w.queue[id]] == end
    ensures Ended(AllTaken(w, ds), id, end) && Ended(SavedAll(AllTaken(w, ds)), id, end)
  {
    AllTakenKeeps(w, ds);
    var w' := AllTaken(w, ds);
    assert SavedAll(w').disk[id] == w'.heap[w'.queue[id]];
  }

  lemma CycleLoadKeepsEnd(w: World, id: Id, end: Status)
    requires Ended(w, id, end) && !w.inCycle
    ensures Ended(CycleLoaded(w), id, end)
  {
    LoadKeepsEnd(w, id, end);
    RestoredIsValid(w);
  }

  lemma SaveKeepsEnd(w: World, id: Id, end: Status)
    requires Ended(w, id, end) && Enabled(w, Save)
    ensures Ended(Next(w, Save), id, end)
  {
    NextIsValid(w, Save);
    assert SavedAll(w).disk[id] == w.heap[w.queue[id]];
  }

  lemma StepKeepsEnd(w: World, step: Step, id: Id, end: Status)
    requires Ended(w, id, end) && Enabled(w, step)
    ensures Ended(Next(w, step), id, end)
    ensures multiset(Next(w, step).starts)[id] == multiset(w.starts)[id]
  {
    NextIsValid(w, step);
    match step
    case Sync(ds) =>
      if ds != [] {
        LoadKeepsEnd(w, id, end);
        AllTakenKeeps(Restored(w), ds);
        BatchKeepsEnd(Restored(w), ds, id, end);
      }
    case Load => CycleLoadKeepsEnd(w, id, end);
    case Save => SaveKeepsEnd(w, id, end);
    case _ =>
  }

  /** What has ended stays as it ended and is never started again: over any later run, whatever decisions
      it holds and wherever they fall. */
  lemma {:induction false} EndIsFinal(w: World, steps: seq<Step>, id: Id, end: Status)
    requires Ended(w, id, end)
    ensures Ended(After(w, steps), id, end)
    ensures multiset(After(w, steps).starts)[id] == multiset(w.starts)[id]
  {
    if |steps| > 0 {
      EndIsFinal(w, steps[..|steps| - 1], id, end);
      if Enabled(After(w, steps[..|steps| - 1]), steps[|steps| - 1]) {
        StepKeepsEnd(After(w, steps[..|steps| - 1]), steps[|steps| - 1], id, end);
      }
    }
  }

  ghost predicate Crashed(w: World, id: Id) {
    Valid(w) && !w.inCycle && id in w.disk && w.disk[id] == Running
  }

  lemma LoadFailsCrashed(w: World, id: Id)
    requires Crashed(w, id)
    ensures Ended(Restored(w), id, Failed) && Restored(w).heap[Restored(w).queue[id]] == Failed
    ensures Ended(CycleLoaded(w), id, Failed)
  {
    RestoredIsValid(w);
  }

  lemma SyncFailsCrashed(w: World, ds: seq<Decision>, id: Id)
    requires Crashed(w, id) && ds != []
    ensures Ended(Synced(w, ds), id, Failed) && Synced(w, ds).starts == w.starts
  {
    LoadFailsCrashed(w, id);
    AllTakenKeeps(Restored(w), ds);
    BatchKeepsEnd(Restored(w), ds, id, Failed);
  }

  lemma CliFailsCrashed(w: World, d: Decision, id: Id)
    requires Crashed(w, id)
    ensures Ended(CliDecided(w, d), id, Failed)
  {
    NextIsValid(w, Cli(d));
  }

  /** An action the table shows executing crashed: whatever reads the table next records it as failed,
      and it is never started again. */
  lemma CrashedHasFailed(w: World, step: Step, id: Id, steps: seq<Step>)
    requires Crashed(w, id) && (step == Load || step.Cli? || (step.Sync? && step.decisions != []))
    ensures var w' := Next(w, step);
            && Valid(w') && Ended(After(w', steps), id, Failed)
            && multiset(After(w', steps).starts)[id] == multiset(w.starts)[id]
  {
    match step {
      case Load => LoadFailsCrashed(w, id);
      case Cli(d) => CliFailsCrashed(w, d, id);
      case Sync(ds) => SyncFailsCrashed(w, ds, id);
    }
    EndIsFinal(Next(w, step), steps, id, Failed);
  }

  /** The queue still holds the object a cycle finished. */
  ghost predicate Finished(w: World, r: Ref, end: Status) {
    && Valid(w) && w.inCycle && r in w.batch && r in w.heap && w.heap[r] == end && end in FINAL
    && r.id in w.queue && w.queue[r.id] == r
  }

  lemma {:induction false} WindowKeepsFinished(w: World, steps: seq<Step>, r: Ref, end: Status)
    requires Finished(w, r, end) && Window(steps) && !AnyReload(steps)
    ensures Finished(After(w, steps), r, end)
  {
    if |steps| > 0 {
      WindowPrefix(steps);
      WindowKeepsFinished(w, steps[..|steps| - 1], r, end);
      var before := After(w, steps[..|steps| - 1]);
      if Enabled(before, steps[|steps| - 1]) {
        NextIsValid(before, steps[|steps| - 1]);
      }
    }
  }

  /** How a step of the cycle ends an action's object, if it does. */
  predicate Ends(step: Step, r: Ref, end: Status) {
    || (step == Finish(r, true) && end == Completed)
    || (step == Finish(r, false) && end == Failed)
    || (step == Refuse(r) && end == Failed)
  }

  /** Without a reload the cycle's save records how each of its actions ended, refused or executed, and
      the action is over. */
  lemma OutcomeIsRecorded(w: World, step: Step, r: Ref, end: Status, steps: seq<Step>, later: seq<Step>)
    requires Valid(w) && w.inCycle && Enabled(w, step) && Ends(step, r, end) && r.id in w.queue && w.queue[r.id] == r
    requires Window(steps) && !AnyReload(steps)
    requires Valid(Next(w, step)) && Enabled(After(Next(w, step), steps), Save)
    ensures var saved := Next(After(Next(w, step), steps), Save);
            && Valid(saved) && Ended(After(saved, later), r.id, end)
            && multiset(After(saved, later).starts)[r.id] == multiset(saved.starts)[r.id]
  {
    var w1 := Next(w, step);
    WindowKeepsFinished(w1, steps, r, end);
    var w2 := After(w1, steps);
    NextIsValid(w2, Save);
    assert SavedAll(w2).disk[r.id] == w2.heap[w2.queue[r.id]];
    EndIsFinal(Next(w2, Save), later, r.id, end);
  }

  /** What a decision on a pending action does, from the moment it took effect: approved, the next
      cycle can start it; denied, no later run ever does. */
  ghost predicate Governs(approve: bool, w: World, id: Id) {
    if approve then NextCycleStarts(w, id)
    else Valid(w) && forall steps :: multiset(After(w, steps).starts)[id] == multiset(w.starts)[id]
  }

  lemma TableGoverns(w: World, id: Id, approve: bool)
    requires Valid(w) && !w.inCycle && id in w.disk && w.disk[id] == if approve then Approved else Denied
    ensures Governs(approve, w, id)
  {
    if approve {
      ApprovedIsBegunAgain(w, id);
    } else {
      forall steps ensures multiset(After(w, steps).starts)[id] == multiset(w.starts)[id] {
        EndIsFinal(w, steps, id, Denied);
      }
    }
  }

  /** The command line: a decision on a pending action governs what follows. */
  lemma CliDecisionGoverns(w: World, d: Decision)
    requires Valid(w) && !w.inCycle && d.id in w.disk && w.disk[d.id] == Pending
    ensures CliDecided(w, d).decided == w.decided + [d]
    ensures Governs(d.approve, CliDecided(w, d), d.id)
  {
    NextIsValid(w, Cli(d));
    TableGoverns(CliDecided(w, d), d.id, d.approve);
  }

  /** What a pending action shows after these decisions on it: the first one counts. */
  function Shown(ds: seq<Decision>): Status {
    if ds == [] then Pending else if ds[0].approve then Approved else Denied
  }

  lemma TakenFirst(w: World, d: Decision, id: Id, before: seq<Decision>)
    requires Valid(w) && id in w.queue && w.heap[w.queue[id]] == Shown(before)
    ensures var after := if d.id == id then before + [d] else before;
            && Taken(w, d).heap[w.queue[id]] == Shown(after)
            && For(Taken(w, d).decided, id) == For(w.decided, id) + if before == [] then after else []
  {
    ForAppended(w.decided, d, id);
  }

  /** Of the decisions a batch holds for a pending action, only the first is taken. */
  lemma {:induction false} BatchTakesFirst(w: World, ds: seq<Decision>, id: Id)
    requires Valid(w) && id in w.queue && w.heap[w.queue[id]] == Pending
    ensures For(AllTaken(w, ds).decided, id) == For(w.decided, id) + if For(ds, id) == [] then [] else [For(ds, id)[0]]
    ensures AllTaken(w, ds).heap[w.queue[id]] == Shown(For(ds, id))
  {
    if |ds| > 0 {
      BatchTakesFirst(w, ds[..|ds| - 1], id);
      TakenFirst(AllTaken(w, ds[..|ds| - 1]), ds[|ds| - 1], id, For(ds[..|ds| - 1], id));
    }
  }

  /** The action waits for a decision: the table says so, or it is proposed and not yet saved. */
  ghost predicate Waits(w: World, id: Id) {
    && Valid(w)
    && if id in w.disk then w.disk[id] == Pending else id in w.queue && w.heap[w.queue[id]] == Pending
  }

  /** A proposal waits for a decision from the moment it is made. */
  lemma ProposalWaits(w: World, id: Id)
    requires Valid(w) && Enabled(w, Propose(id))
    ensures Waits(Next(w, Propose(id)), id)
  {
    NextIsValid(w, Propose(id));
  }

  /** A decision pass: of all the decisions the batch holds for a waiting action, the first one governs. */
  lemma PassDecisionGoverns(w: World, ds: seq<Decision>, id: Id)
    requires Waits(w, id) && !w.inCycle && For(ds, id) != []
    ensures For(Synced(w, ds).decided, id) == For(w.decided, id) + [For(ds, id)[0]]
    ensures Governs(For(ds, id)[0].approve, Synced(w, ds), id)
  {
    var loaded := Restored(w);
    RestoredIsValid(w);
    BatchTakesFirst(loaded, ds, id);
    AllTakenKeeps(loaded, ds);
    var w' := AllTaken(loaded, ds);
    assert w'.decided != w.decided;
    assert SavedAll(w').disk[id] == w'.heap[w'.queue[id]];
    NextIsValid(w, Sync(ds));
    TableGoverns(Synced(w, ds), id, For(ds, id)[0].approve);
  }

  /** No approval of the action has taken effect, and nothing is, or will be found, approved. */
  ghost predicate Unapproved(w: World, id: Id) {
    && Valid(w)
    && Decision(id, true) !in w.decided && id !in w.starts
    && (id in w.disk ==> w.disk[id] != Approved)
    && (forall r :: r in w.heap && r.id == id ==> w.heap[r] != Approved)
  }

  lemma LoadKeepsUnapproved(w: World, id: Id)
    requires Unapproved(w, id)
    ensures Unapproved(Restored(w), id)
  {
    RestoredIsValid(w);
  }

  lemma {:induction false} BatchKeepsUnapproved(w: World, ds: seq<Decision>, id: Id)
    requires Unapproved(w, id) && Decision(id, true) !in AllTaken(w, ds).decided
    ensures Unapproved(AllTaken(w, ds), id)
  {
    if |ds| > 0 {
      BatchKeepsUnapproved(w, ds[..|ds| - 1], id);
    }
  }

  lemma SyncKeepsUnapproved(w: World, ds: seq<Decision>, id: Id)
    requires Unapproved(w, id) && Decision(id, true) !in Synced(w, ds).decided
    ensures Unapproved(Synced(w, ds), id)
  {
    if ds != [] {
      LoadKeepsUnapproved(w, id);
      BatchKeepsUnapproved(Restored(w), ds, id);
    }
  }

  lemma CycleKeepsUnapproved(w: World, step: Step, id: Id)
    requires Unapproved(w, id) && Enabled(w, step) && (step.Begin? || step.Refuse? || step.Finish? || step.Save? || step.Abort?)
    ensures Unapproved(Next(w, step), id)
  {
    NextIsValid(w, step);
  }

  lemma StepKeepsUnapproved(w: World, step: Step, id: Id)
    requires Unapproved(w, id) && Enabled(w, step) && Decision(id, true) !in Next(w, step).decided
    ensures Unapproved(Next(w, step), id)
  {
    NextIsValid(w, step);
    match step
    case Sync(ds) => SyncKeepsUnapproved(w, ds, id);
    case Load => LoadKeepsUnapproved(w, id);
    case Cli(_) | Propose(_) =>
    case _ => CycleKeepsUnapproved(w, step, id);
  }

  lemma DecidedGrows(w: World, step: Step)
    requires Valid(w) && Enabled(w, step)
    ensures w.decided <= Next(w, step).decided
  {
    match step
    case Sync(ds) =>
      if ds != [] {
        RestoredIsValid(w);
        AllTakenKeeps(Restored(w), ds);
      }
    case _ =>
  }

  /** Nothing starts without an approval: over any run, an action that was not approved to begin with
      is started only if a decision approving it took effect. */
  lemma {:induction false} StartsAreApproved(w: World, steps: seq<Step>, id: Id)
    requires Unapproved(w, id) && Decision(id, true) !in After(w, steps).decided
    ensures Unapproved(After(w, steps), id) && id !in After(w, steps).starts
  {
    if |steps| > 0 {
      var before, step := After(w, steps[..|steps| - 1]), steps[|steps| - 1];
      if Enabled(before, step) {
        DecidedGrows(before, step);
        StartsAreApproved(w, steps[..|steps| - 1], id);
        StepKeepsUnapproved(before, step, id);
      } else {
        StartsAreApproved(w, steps[..|steps| - 1], id);
      }
    }
  }

  /** A cycle that raises before its save leaves every action it had taken up, started or not, for the next
      cycle to start. */
  lemma AbortedStartsAgain(w: World, steps: seq<Step>, id: Id)
    requires Valid(w) && !w.inCycle && id in w.disk && w.disk[id] == Approved && Window(steps)
    ensures Enabled(After(CycleLoaded(w), steps), Abort)
    ensures NextCycleStarts(Next(After(CycleLoaded(w), steps), Abort), id)
  {
    ExecutedAgainIffReloaded(w, steps, id);
    var w1 := After(CycleLoaded(w), steps);
    NextIsValid(w1, Abort);
    ApprovedIsBegunAgain(Next(w1, Abort), id);
  }
}
