/** Every interleaving of poll cycles, directive tasks and heartbeat acknowledgements.

    One agent object is shared by the poll loop, the report loop and any number of directive tasks;
    they interleave only at awaits. Each step below is the code between two awaits. The gate check
    and the executor's start are one step, except for CONFIG_RESTORE: its playbook first awaits the
    device configuration, so its start is a later step. */
module AgentRuns {
  import opened Wrappers
  import opened Actions
  import opened BlastRadius
  import opened Gates

  datatype Result =
    | RefusedByGate  // terminal FAILED outcome, never executed
    | Succeeded      // success outcome, accounted
    | Unrecorded     // success outcome, then an audit write raised before the accounting
    | Failed         // failure outcome
    | Raised         // no outcome: an exception or a cancellation

  datatype Phase =
    | Waiting                     // before the gate
    | ReadingConfig               // admitted CONFIG_RESTORE, playbook not yet at its action
    | Executing(dispatched: bool) // awaiting the executor; dispatched = it drives the device
    | Done(result: Result)

  datatype Task = Task(cls: ActionType, basis: string, directed: bool, phase: Phase)

  datatype Kind = Success | Consumption | Record | Lost

  datatype Note = Note(kind: Kind, id: nat, cls: ActionType, at: real)

  /** The inputs an admission was decided on. */
  datatype Admission = Admission(gates: Gates, facts: Facts, clock: Clock)

  datatype Config = Config(allowList: set<ActionType>, dryRun: bool)

  datatype State = State(
    now: real,
    gates: Gates,
    tasks: map<nat, Task>,
    admitted: map<nat, Admission>,
    dispatched: set<nat>,
    refused: map<nat, Refusal>,
    notes: seq<Note>)

  datatype Step =
    | Tick(elapsed: real)
    | Heartbeat(ack: Option<LeaseBytes>, identity: bool)
    | Spawn(id: nat, cls: ActionType, basis: string, directed: bool)
    | Gate(id: nat, facts: Facts, clock: Clock)
    | ConfigRead(id: nat, ok: bool)
    | Complete(id: nat, result: Result)
    | Abort(id: nat)

  function Start(): State {
    State(0.0, Gates(None, map[], false, false, map[]), map[], map[], {}, map[], [])
  }

  predicate Active(s: State, id: nat) {
    id in s.tasks && !s.tasks[id].phase.Done?
  }

  /** A dry-run CONFIG_RESTORE reports success without touching the device. */
  predicate MaySucceed(cfg: Config, t: Task) {
    t.phase == Executing(true) || (t.phase == Executing(false) && t.cls == ConfigRestore && cfg.dryRun)
  }

  predicate Enabled(cfg: Config, s: State, step: Step) {
    match step
    case Tick(elapsed) => elapsed >= 0.0
    case Heartbeat(_, _) => true
    case Spawn(id, _, _, directed) =>
      id !in s.tasks && (!directed ==> forall k :: k in s.tasks && !s.tasks[k].directed ==> !Active(s, k))
    case Gate(id, _, clock) =>
      id in s.tasks && s.tasks[id].phase == Waiting && Ordered(clock) && clock.limiter == s.now
    case ConfigRead(id, _) => id in s.tasks && s.tasks[id].phase == ReadingConfig
    case Complete(id, result) =>
      && id in s.tasks && s.tasks[id].phase.Executing? && result != RefusedByGate
      && (result in {Succeeded, Unrecorded} ==> MaySucceed(cfg, s.tasks[id]))
    case Abort(id) => Active(s, id)
  }

  function Moved(s: State, id: nat, phase: Phase): State
    requires id in s.tasks
  {
    s.(tasks := s.tasks[id := s.tasks[id].(phase := phase)])
  }

  /** A decision's effect: a refusal finishes the task, an admission starts it in the same step. */
  function Decided(cfg: Config, s: State, id: nat, d: Decision, a: Admission): State
    requires id in s.tasks
  {
    match d
    case Refuse(why) => Moved(s, id, Done(RefusedByGate)).(refused := s.refused[id := why])
    case Admit =>
      var admitted := s.admitted[id := a];
      if s.tasks[id].cls == ConfigRestore then Moved(s, id, ReadingConfig).(admitted := admitted)
      else
        var listed := s.tasks[id].cls in cfg.allowList;
        Moved(s, id, Executing(listed)).(
          admitted := admitted,
          dispatched := s.dispatched + if listed then {id} else {})
  }

  /** The gate step. */
  function Gated(cfg: Config, s: State, id: nat, f: Facts, c: Clock): State
    requires id in s.tasks
  {
    var t := s.tasks[id];
    Decided(cfg, s, id, Authorize(s.gates, cfg.allowList, t.cls, t.basis, f, c), Admission(s.gates, f, c))
  }

  /** What a completion leaves in the log: outcome, budget consumption and blast-radius record in
      one step, or the outcome alone when the audit write raised in between. */
  function Receipts(result: Result, id: nat, cls: ActionType, at: real): seq<Note> {
    match result
    case Succeeded => [Note(Success, id, cls, at), Note(Consumption, id, cls, at), Note(Record, id, cls, at)]
    case Unrecorded => [Note(Success, id, cls, at), Note(Lost, id, cls, at)]
    case _ => []
  }

  function Completed(s: State, id: nat, result: Result): State
    requires id in s.tasks
  {
    var cls := s.tasks[id].cls;
    Moved(s, id, Done(result)).(
      gates := if result == Succeeded then Accounted(s.gates, cls, s.now) else s.gates,
      notes := s.notes + Receipts(result, id, cls, s.now))
  }

  function Next(cfg: Config, s: State, step: Step): State
    requires Enabled(cfg, s, step)
  {
    match step
    case Tick(elapsed) => s.(now := s.now + elapsed)
    case Heartbeat(ack, identity) => s.(gates := Acknowledged(s.gates, ack, identity))
    case Spawn(id, cls, basis, directed) => s.(tasks := s.tasks[id := Task(cls, basis, directed, Waiting)])
    case Gate(id, f, c) => Gated(cfg, s, id, f, c)
    case ConfigRead(id, ok) =>
      if !ok then Moved(s, id, Done(Raised))
      else
        var drives := s.tasks[id].cls in cfg.allowList && !cfg.dryRun;
        Moved(s, id, Executing(drives)).(dispatched := s.dispatched + if drives then {id} else {})
    case Complete(id, result) => Completed(s, id, result)
    case Abort(id) => Moved(s, id, Done(Raised))
  }

  /** A run: every step enabled where it is taken. */
  predicate Runs(cfg: Config, s: State, steps: seq<Step>)
    decreases |steps|, 0
  {
    |steps| == 0 ||
    (var before := steps[..|steps| - 1];
     Runs(cfg, s, before) && Enabled(cfg, After(cfg, s, before), steps[|steps| - 1]))
  }

  function After(cfg: Config, s: State, steps: seq<Step>): State
    requires Runs(cfg, s, steps)
    decreases |steps|, 1
  {
    if |steps| == 0 then s
    else Next(cfg, After(cfg, s, steps[..|steps| - 1]), steps[|steps| - 1])
  }

  // ---- counting ------------------------------------------------------------------------------

  function CountOf(notes: seq<Note>, kind: Kind, cls: ActionType): nat
  {
    if |notes| == 0 then 0
    else
      var n := notes[|notes| - 1];
      CountOf(notes[..|notes| - 1], kind, cls) + if n.kind == kind && n.cls == cls then 1 else 0
  }

  function Times(notes: seq<Note>, cls: ActionType): seq<real>
  {
    if |notes| == 0 then []
    else
      var n := notes[|notes| - 1];
      var before := Times(notes[..|notes| - 1], cls);
      if n.kind == Record && n.cls == cls then before + [n.at] else before
  }

  lemma {:induction false} NotesConcat(a: seq<Note>, b: seq<Note>, kind: Kind, cls: ActionType)
    ensures CountOf(a + b, kind, cls) == CountOf(a, kind, cls) + CountOf(b, kind, cls)
    ensures Times(a + b, cls) == Times(a, cls) + Times(b, cls)
  {
    if b == [] {
      assert a + b == a;
    } else {
      assert (a + b)[..|a + b| - 1] == a + b[..|b| - 1];
      NotesConcat(a, b[..|b| - 1], kind, cls);
    }
  }

  lemma SingleNote(n: Note, kind: Kind, cls: ActionType)
    ensures CountOf([n], kind, cls) == if n.kind == kind && n.cls == cls then 1 else 0
    ensures Times([n], cls) == if n.kind == Record && n.cls == cls then [n.at] else []
  {
    assert [n][..0] == [];
  }

  /** The kinds of note a completion leaves, once each. */
  function Noted(result: Result): set<Kind> {
    match result
    case Succeeded => {Success, Consumption, Record}
    case Unrecorded => {Success, Lost}
    case _ => {}
  }

  lemma ReceiptCounts(result: Result, id: nat, c: ActionType, at: real, kind: Kind, cls: ActionType)
    ensures CountOf(Receipts(result, id, c, at), kind, cls) == if kind in Noted(result) && c == cls then 1 else 0
    ensures Times(Receipts(result, id, c, at), cls) == if result == Succeeded && c == cls then [at] else []
  {
    var r := Receipts(result, id, c, at);
    if |r| >= 2 {
      SingleNote(r[0], kind, cls);
      SingleNote(r[1], kind, cls);
      NotesConcat([r[0]], [r[1]], kind, cls);
      assert r[..2] == [r[0]] + [r[1]];
      if |r| == 3 {
        SingleNote(r[2], kind, cls);
        NotesConcat(r[..2], [r[2]], kind, cls);
        assert r == r[..2] + [r[2]];
      } else {
        assert r == r[..2];
      }
    }
  }

  // ---- accounting ----------------------------------------------------------------------------

  /** The books of one class balance: consumptions, records and accounted successes are equal in
      number, the only successes missing are the lost ones, and the limiter holds exactly the
      recorded times, trimmed. */
  ghost predicate Balanced(s: State, cls: ActionType) {
    && CountOf(s.notes, Consumption, cls) == CountOf(s.notes, Record, cls) == |Times(s.notes, cls)|
    && CountOf(s.notes, Success, cls) == CountOf(s.notes, Record, cls) + CountOf(s.notes, Lost, cls)
    && Of(s.gates.history, cls) == Kept(Times(s.notes, cls))
    && Sorted(Times(s.notes, cls))
    && (forall i :: 0 <= i < |Times(s.notes, cls)| ==> Times(s.notes, cls)[i] <= s.now)
  }

  lemma KeptAppended(all: seq<real>, x: real)
    ensures Kept(all + [x]) == Recorded(Kept(all), x)
  {
    assert (all + [x])[..|all|] == all;
  }

  lemma CompletionCounts(s: State, id: nat, result: Result, kind: Kind, cls: ActionType)
    requires id in s.tasks
    ensures CountOf(Completed(s, id, result).notes, kind, cls) ==
            CountOf(s.notes, kind, cls) + if kind in Noted(result) && s.tasks[id].cls == cls then 1 else 0
    ensures Times(Completed(s, id, result).notes, cls) ==
            if result == Succeeded && s.tasks[id].cls == cls then Times(s.notes, cls) + [s.now] else Times(s.notes, cls)
  {
    var c := s.tasks[id].cls;
    NotesConcat(s.notes, Receipts(result, id, c, s.now), kind, cls);
    ReceiptCounts(result, id, c, s.now, kind, cls);
  }

  lemma CompletionHistory(s: State, id: nat, result: Result, cls: ActionType)
    requires id in s.tasks
    ensures Of(Completed(s, id, result).gates.history, cls) ==
            if result == Succeeded && s.tasks[id].cls == cls then Recorded(Of(s.gates.history, cls), s.now) else Of(s.gates.history, cls)
    ensures Completed(s, id, result).now == s.now
  {
  }

  lemma SortedAppended(times: seq<real>, now: real)
    requires Sorted(times) && forall i :: 0 <= i < |times| ==> times[i] <= now
    ensures Sorted(times + [now]) && forall i :: 0 <= i < |times + [now]| ==> (times + [now])[i] <= now
  {
  }

  function One(b: bool): nat {
    if b then 1 else 0
  }

  /** A completion consumes, records and counts as a success together, or notes a lost success. */
  lemma NotedTogether(result: Result)
    ensures One(Consumption in Noted(result)) == One(Record in Noted(result)) == One(result == Succeeded)
    ensures One(Success in Noted(result)) == One(Record in Noted(result)) + One(Lost in Noted(result))
  {
  }

  lemma CompletionCount(s: State, id: nat, result: Result, kind: Kind, cls: ActionType, n: nat)
    requires id in s.tasks && n == if s.tasks[id].cls == cls then One(kind in Noted(result)) else 0
    ensures CountOf(Completed(s, id, result).notes, kind, cls) == CountOf(s.notes, kind, cls) + n
  {
    CompletionCounts(s, id, result, kind, cls);
  }

  lemma CompletionTimes(s: State, id: nat, result: Result, cls: ActionType, n: nat)
    requires id in s.tasks && n == if s.tasks[id].cls == cls then One(result == Succeeded) else 0
    ensures |Times(Completed(s, id, result).notes, cls)| == |Times(s.notes, cls)| + n
  {
    CompletionCounts(s, id, result, Record, cls);
  }

  lemma CompletionKeepsCounts(s: State, id: nat, result: Result, cls: ActionType)
    requires Balanced(s, cls) && id in s.tasks
    ensures var notes := Completed(s, id, result).notes;
            && CountOf(notes, Consumption, cls) == CountOf(notes, Record, cls) == |Times(notes, cls)|
            && CountOf(notes, Success, cls) == CountOf(notes, Record, cls) + CountOf(notes, Lost, cls)
  {
    var mine := s.tasks[id].cls == cls;
    var done, lost := One(result == Succeeded), One(Lost in Noted(result));
    NotedTogether(result);
    CompletionCount(s, id, result, Consumption, cls, if mine then done else 0);
    CompletionCount(s, id, result, Record, cls, if mine then done else 0);
    CompletionCount(s, id, result, Lost, cls, if mine then lost else 0);
    CompletionCount(s, id, result, Success, cls, if mine then done + lost else 0);
    CompletionTimes(s, id, result, cls, if mine then done else 0);
  }

  lemma CompletionKeepsTimes(s: State, id: nat, result: Result, cls: ActionType)
    requires Balanced(s, cls) && id in s.tasks
    ensures var s' := Completed(s, id, result); var times := Times(s'.notes, cls);
            && s'.now == s.now && Of(s'.gates.history, cls) == Kept(times)
            && Sorted(times) && forall i :: 0 <= i < |times| ==> times[i] <= s'.now
  {
    CompletionCounts(s, id, result, Record, cls);
    CompletionHistory(s, id, result, cls);
    if result == Succeeded && s.tasks[id].cls == cls {
      KeptAppended(Times(s.notes, cls), s.now);
      SortedAppended(Times(s.notes, cls), s.now);
    }
  }

  lemma CompletionKeepsBalance(s: State, id: nat, result: Result, cls: ActionType)
    requires Balanced(s, cls) && id in s.tasks
    ensures Balanced(Completed(s, id, result), cls)
  {
    CompletionKeepsCounts(s, id, result, cls);
    CompletionKeepsTimes(s, id, result, cls);
  }

  lemma OtherStepsKeepBooks(cfg: Config, s: State, step: Step)
    requires Enabled(cfg, s, step) && !step.Complete?
    ensures Next(cfg, s, step).notes == s.notes
    ensures Next(cfg, s, step).gates.history == s.gates.history
    ensures Next(cfg, s, step).now >= s.now
  {
    if step.Gate? {
      var t := s.tasks[step.id];
      var d := Authorize(s.gates, cfg.allowList, t.cls, t.basis, step.facts, step.clock);
    }
  }

  lemma StepKeepsBalance(cfg: Config, s: State, step: Step, cls: ActionType)
    requires Balanced(s, cls) && Enabled(cfg, s, step)
    ensures Balanced(Next(cfg, s, step), cls)
  {
    if step.Complete? {
      CompletionKeepsBalance(s, step.id, step.result, cls);
    } else {
      OtherStepsKeepBooks(cfg, s, step);
    }
  }

  /** In every interleaving, at every await point. */
  lemma {:induction false} BooksBalance(cfg: Config, steps: seq<Step>, cls: ActionType)
    requires Runs(cfg, Start(), steps)
    ensures Balanced(After(cfg, Start(), steps), cls)
  {
    if |steps| > 0 {
      BooksBalance(cfg, steps[..|steps| - 1], cls);
      StepKeepsBalance(cfg, After(cfg, Start(), steps[..|steps| - 1]), steps[|steps| - 1], cls);
    }
  }

  /** Successful outcomes equal records exactly when no audit write raised after a success. */
  lemma SuccessesEqualRecordsIffNoneLost(cfg: Config, steps: seq<Step>, cls: ActionType)
    requires Runs(cfg, Start(), steps)
    ensures var notes := After(cfg, Start(), steps).notes;
            CountOf(notes, Success, cls) == CountOf(notes, Record, cls) <==> CountOf(notes, Lost, cls) == 0
  {
    BooksBalance(cfg, steps, cls);
  }

  // ---- steps and runs ------------------------------------------------------------------------

  /** A task keeps its class, origin and basis, and never becomes active again. */
  lemma StepKeepsTask(cfg: Config, s: State, step: Step, id: nat)
    requires Enabled(cfg, s, step) && id in s.tasks
    ensures var s' := Next(cfg, s, step);
            && id in s'.tasks && s'.tasks[id].cls == s.tasks[id].cls && s'.tasks[id].directed == s.tasks[id].directed
            && s'.tasks[id].basis == s.tasks[id].basis
            && (Active(s', id) ==> Active(s, id))
  {
    if step.Gate? {
      var d := Authorize(s.gates, cfg.allowList, s.tasks[step.id].cls, s.tasks[step.id].basis, step.facts, step.clock);
    }
  }

  lemma Extend(cfg: Config, s: State, steps: seq<Step>, step: Step)
    requires Runs(cfg, s, steps) && Enabled(cfg, After(cfg, s, steps), step)
    ensures Runs(cfg, s, steps + [step])
    ensures After(cfg, s, steps + [step]) == Next(cfg, After(cfg, s, steps), step)
  {
    assert (steps + [step])[..|steps|] == steps;
  }

  // ---- where every start comes from ------------------------------------------------------------

  /** One task's phase agrees with what was logged for it, and its admission, if any, was decided
      by the gate on the inputs logged with it. */
  ghost predicate Traced(cfg: Config, s: State, id: nat) {
    && (id in s.admitted || id in s.dispatched || id in s.refused ==> id in s.tasks)
    && (id in s.admitted ==>
          var a := s.admitted[id];
          Ordered(a.clock) && Authorize(a.gates, cfg.allowList, s.tasks[id].cls, s.tasks[id].basis, a.facts, a.clock) == Admit)
    && (id in s.dispatched ==> id in s.admitted && s.tasks[id].cls in cfg.allowList)
    && (id in s.tasks ==>
          match s.tasks[id].phase
          case Waiting => id !in s.admitted && id !in s.refused
          case ReadingConfig => id in s.admitted && id !in s.dispatched && id !in s.refused && s.tasks[id].cls == ConfigRestore
          case Executing(d) => id in s.admitted && id !in s.refused && (id in s.dispatched <==> d)
          case Done(r) =>
            && (id in s.refused <==> r == RefusedByGate)
            && (r == RefusedByGate ==> id !in s.admitted)
            && (r in {Succeeded, Unrecorded, Result.Failed} ==> id in s.admitted))
  }

  lemma StepKeepsTrace(cfg: Config, s: State, step: Step, id: nat)
    requires Traced(cfg, s, id) && Enabled(cfg, s, step)
    ensures Traced(cfg, Next(cfg, s, step), id)
  {
    match step
    case Gate(k, f, c) =>
      var d := Authorize(s.gates, cfg.allowList, s.tasks[k].cls, s.tasks[k].basis, f, c);
      assert k != id || d.Admit? || d.Refuse?;
    case _ =>
  }

  lemma {:induction false} EveryTaskTraced(cfg: Config, steps: seq<Step>, id: nat)
    requires Runs(cfg, Start(), steps)
    ensures Traced(cfg, After(cfg, Start(), steps), id)
  {
    if |steps| > 0 {
      EveryTaskTraced(cfg, steps[..|steps| - 1], id);
      StepKeepsTrace(cfg, After(cfg, Start(), steps[..|steps| - 1]), steps[|steps| - 1], id);
    }
  }

  /** Step `i` of the run is the gate's decision on `id`, taken with `g` as the agent's gates. */
  ghost predicate DecidedAt(cfg: Config, steps: seq<Step>, i: nat, id: nat, f: Facts, c: Clock, g: Gates) {
    i < |steps| && Runs(cfg, Start(), steps[..i]) && steps[i] == Gate(id, f, c) && After(cfg, Start(), steps[..i]).gates == g
  }

  lemma DecidedEarlier(cfg: Config, steps: seq<Step>, i: nat, id: nat, f: Facts, c: Clock, g: Gates)
    requires |steps| > 0 && DecidedAt(cfg, steps[..|steps| - 1], i, id, f, c, g)
    ensures DecidedAt(cfg, steps, i, id, f, c, g)
  {
    assert steps[..|steps| - 1][..i] == steps[..i];
  }

  /** The logged admission is the agent's own state at the step that decided it. */
  lemma {:induction false} AdmittedAtItsStep(cfg: Config, steps: seq<Step>, id: nat) returns (i: nat)
    requires Runs(cfg, Start(), steps) && id in After(cfg, Start(), steps).admitted
    ensures var a := After(cfg, Start(), steps).admitted[id]; DecidedAt(cfg, steps, i, id, a.facts, a.clock, a.gates)
  {
    var n := |steps| - 1;
    var s, s' := After(cfg, Start(), steps[..n]), After(cfg, Start(), steps);
    var a := s'.admitted[id];
    if id in s.admitted && s.admitted[id] == a {
      i := AdmittedAtItsStep(cfg, steps[..n], id);
      DecidedEarlier(cfg, steps, i, id, a.facts, a.clock, a.gates);
    } else {
      i := n;
      AdmittedNow(cfg, s, steps[n], id);
    }
  }

  lemma AdmittedNow(cfg: Config, s: State, step: Step, id: nat)
    requires Enabled(cfg, s, step) && id in Next(cfg, s, step).admitted
    requires !(id in s.admitted && s.admitted[id] == Next(cfg, s, step).admitted[id])
    ensures step == Gate(id, Next(cfg, s, step).admitted[id].facts, Next(cfg, s, step).admitted[id].clock)
    ensures Next(cfg, s, step).admitted[id].gates == s.gates
  {
  }

  /** The chain refused the task of `id` for `why` on these inputs. */
  predicate RefusedFor(cfg: Config, s: State, id: nat, why: Refusal, f: Facts, c: Clock, g: Gates) {
    id in s.tasks && Ordered(c) && Authorize(g, cfg.allowList, s.tasks[id].cls, s.tasks[id].basis, f, c) == Refuse(why)
  }

  lemma RefusedNow(cfg: Config, s: State, step: Step, id: nat)
    requires Enabled(cfg, s, step) && id in Next(cfg, s, step).refused
    requires !(id in s.refused && s.refused[id] == Next(cfg, s, step).refused[id])
    ensures step.Gate? && step.id == id
    ensures RefusedFor(cfg, Next(cfg, s, step), id, Next(cfg, s, step).refused[id], step.facts, step.clock, s.gates)
  {
  }

  /** So is the logged refusal: the chain gave that reason on the agent's own state at that step. */
  lemma {:induction false} RefusedAtItsStep(cfg: Config, steps: seq<Step>, id: nat) returns (i: nat, f: Facts, c: Clock, g: Gates)
    requires Runs(cfg, Start(), steps) && id in After(cfg, Start(), steps).refused
    ensures DecidedAt(cfg, steps, i, id, f, c, g)
    ensures RefusedFor(cfg, After(cfg, Start(), steps), id, After(cfg, Start(), steps).refused[id], f, c, g)
  {
    var n := |steps| - 1;
    var s, s' := After(cfg, Start(), steps[..n]), After(cfg, Start(), steps);
    if id in s.refused && s.refused[id] == s'.refused[id] {
      i, f, c, g := RefusedAtItsStep(cfg, steps[..n], id);
      DecidedEarlier(cfg, steps, i, id, f, c, g);
      StepKeepsTask(cfg, s, steps[n], id);
    } else {
      RefusedNow(cfg, s, steps[n], id);
      i, f, c, g := n, steps[n].facts, steps[n].clock, s.gates;
    }
  }

  /** Whatever drives the device was admitted at a gate step of the run, on gates that were the agent's
      at that step and held then. */
  lemma StartsCarryTheirGates(cfg: Config, steps: seq<Step>, id: nat) returns (i: nat)
    requires Runs(cfg, Start(), steps) && id in After(cfg, Start(), steps).dispatched
    ensures var s := After(cfg, Start(), steps);
            && id in s.admitted && id in s.tasks && s.tasks[id].cls in cfg.allowList
            && DecidedAt(cfg, steps, i, id, s.admitted[id].facts, s.admitted[id].clock, s.admitted[id].gates)
            && GatesHeld(s.admitted[id].gates, s.tasks[id].cls, s.tasks[id].basis, s.admitted[id].facts, s.admitted[id].clock)
  {
    EveryTaskTraced(cfg, steps, id);
    var s := After(cfg, Start(), steps);
    var a := s.admitted[id];
    i := AdmittedAtItsStep(cfg, steps, id);
    AdmittedMeansGatesHeld(a.gates, cfg.allowList, s.tasks[id].cls, s.tasks[id].basis, a.facts, a.clock);
  }

  /** Whatever was refused was refused at a gate step of the run, by the chain on the agent's gates at
      that step; it is never admitted, never starts, and is finished as refused. */
  lemma RefusedNeverStarts(cfg: Config, steps: seq<Step>, id: nat) returns (i: nat, f: Facts, c: Clock, g: Gates)
    requires Runs(cfg, Start(), steps) && id in After(cfg, Start(), steps).refused
    ensures var s := After(cfg, Start(), steps);
            && id !in s.dispatched && id !in s.admitted && id in s.tasks && s.tasks[id].phase == Done(RefusedByGate)
            && DecidedAt(cfg, steps, i, id, f, c, g) && RefusedFor(cfg, s, id, s.refused[id], f, c, g)
  {
    EveryTaskTraced(cfg, steps, id);
    i, f, c, g := RefusedAtItsStep(cfg, steps, id);
  }
}
