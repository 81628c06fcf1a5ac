/** The request-ticket protocol of one data-reading hook: refreshes, answers in any order, subject
    changes, disabling, and what the snapshot holds. */
module Tickets {
  import opened Wrappers

  // ---- snapshots ------------------------------------------------------------------------------

  datatype Kind = Denied | NotFound | Refused | Unavailable

  datatype Failure = Failure(kind: Kind, status: int)

  /** What a fetch throws: the end of the session, an API answer, or anything else. */
  datatype Thrown = AuthError | ApiError(status: int) | OtherError

  function ClassifyFailure(e: Thrown): Option<Failure> {
    match e
    case AuthError => None
    case OtherError => Some(Failure(Unavailable, 0))
    case ApiError(status) =>
      if status == 403 then Some(Failure(Denied, status))
      else if status == 404 then Some(Failure(NotFound, status))
      else if 400 <= status < 500 then Some(Failure(Refused, status))
      else Some(Failure(Unavailable, status))
  }

  datatype Snapshot<T> =
    Snapshot(data: Option<T>, failure: Option<Failure>, lastSuccessAt: Option<int>, lastAttemptAt: Option<int>)

  function InitialSnapshot<T>(): Snapshot<T> {
    Snapshot(None, None, None, None)
  }

  datatype Outcome<T> = Data(value: T) | Threw(error: Thrown)

  function Succeeded<T>(prev: Snapshot<T>, data: T, now: int): Snapshot<T> {
    prev.(data := Some(data), failure := None, lastSuccessAt := Some(now), lastAttemptAt := Some(now))
  }

  function Failed<T>(prev: Snapshot<T>, failure: Option<Failure>, now: int): Snapshot<T> {
    if failure.None? then prev else prev.(failure := failure, lastAttemptAt := Some(now))
  }

  function Written<T>(prev: Snapshot<T>, outcome: Outcome<T>, now: int): Snapshot<T> {
    match outcome
    case Data(d) => Succeeded(prev, d, now)
    case Threw(e) => Failed(prev, ClassifyFailure(e), now)
  }

  /** What a viewer is told of each failure: denied and not found by their own answers, refused for any
      other client error, unavailable for the rest; the end of the session tells nothing. */
  lemma ClassificationIff(e: Thrown)
    ensures ClassifyFailure(e).None? <==> e == AuthError
    ensures var f := ClassifyFailure(e);
            f.Some? ==>
              && (f.value.kind == Denied <==> e == ApiError(403))
              && (f.value.kind == NotFound <==> e == ApiError(404))
              && (f.value.kind == Refused <==> e.ApiError? && 399 < e.status <= 499 && e.status !in {403, 404})
              && f.value.status == if e.ApiError? then e.status else 0
  {
  }

  // ---- the protocol ---------------------------------------------------------------------------

  /** What the hook did to its snapshot: a newest start for a subject, or an answer's write. */
  datatype Event<T> =
    | Reset(ticket: nat, subject: nat)
    | Wrote(ticket: nat, subject: nat, outcome: Outcome<T>, now: int)

  /** Subjects are numbered in the order they are rendered; `pending` gives the subject each open
      request was fetched for; `since` and `started` are the ticket and the subject of the last
      subject-change effect; the log is the history. */
  datatype State<T> = State(
    ticket: nat, snapshot: Snapshot<T>, subject: nat, enabled: bool, effectDue: bool,
    pending: map<nat, nat>, since: nat, started: nat, log: seq<Event<T>>)

  datatype Step<T> =
    | Render(changed: bool, enabled: bool)
    | Effect
    | Call(enabled: bool)
    | Answer(ticket: nat, outcome: Outcome<T>, now: int)

  function Mounted<T>(enabled: bool): State<T> {
    State(0, InitialSnapshot(), 0, enabled, true, map[], 0, 0, [])
  }

  /** An effect runs when the memoised refresh is new; an open request is answered once. */
  predicate Possible<T>(s: State<T>, step: Step<T>) {
    match step
    case Effect => s.effectDue
    case Answer(t, _, _) => t in s.pending
    case _ => true
  }

  /** `refresh` up to its await, in a closure that saw `enabled`: the fetcher is the latest rendered one. */
  function Refreshed<T>(s: State<T>, enabled: bool): State<T> {
    if enabled then s.(ticket := s.ticket + 1, pending := s.pending[s.ticket + 1 := s.subject]) else s
  }

  /** An effect up to its refresh. */
  function Restarted<T>(s: State<T>): State<T> {
    s.(ticket := s.ticket + 1, snapshot := InitialSnapshot(), effectDue := false,
       since := s.ticket + 1, started := s.subject, log := s.log + [Reset(s.ticket + 1, s.subject)])
  }

  function Next<T>(s: State<T>, step: Step<T>): State<T>
    requires Possible(s, step)
  {
    match step
    case Render(changed, enabled) =>
      if changed then s.(subject := s.subject + 1, enabled := enabled, effectDue := true) else s
    case Effect => Refreshed(Restarted(s), s.enabled)
    case Call(enabled) => Refreshed(s, enabled)
    case Answer(t, outcome, now) =>
      var rest := s.(pending := s.pending - {t});
      if t != s.ticket then rest
      else rest.(snapshot := Written(s.snapshot, outcome, now), log := s.log + [Wrote(t, s.pending[t], outcome, now)])
  }

  /** The hook itself. A refresh is split at its await: `Refresh` starts it, `Settle` is the rest. */
  class Hook<T> {
    var ticket: nat
    var snapshot: Snapshot<T>
    var subject: nat
    var enabled: bool
    var effectDue: bool
    var pending: map<nat, nat>
    ghost var since: nat
    ghost var started: nat
    ghost var log: seq<Event<T>>

    ghost function View(): State<T>
      reads this
    {
      State(ticket, snapshot, subject, enabled, effectDue, pending, since, started, log)
    }

    constructor (enabled: bool)
      ensures View() == Mounted(enabled)
    {
      ticket, snapshot, subject, this.enabled, effectDue := 0, InitialSnapshot(), 0, enabled, true;
      pending, since, started, log := map[], 0, 0, [];
    }

    method Render(changed: bool, enabled: bool)
      modifies this
      ensures View() == Next(old(View()), Step.Render(changed, enabled))
    {
      if changed {
        subject := subject + 1;
        this.enabled := enabled;
        effectDue := true;
      }
    }

    method Refresh(enabled: bool)
      modifies this
      ensures View() == Next(old(View()), Call(enabled))
    {
      if !enabled {
        return;
      }
      ticket := ticket + 1;
      var mine := ticket;
      pending := pending[mine := subject];
    }

    method SubjectEffect()
      requires effectDue
      modifies this
      ensures View() == Next(old(View()), Effect)
    {
      effectDue := false;
      ticket := ticket + 1;
      snapshot := InitialSnapshot();
      since, started, log := ticket, subject, log + [Reset(ticket, subject)];
      Refresh(enabled);
    }

    method Settle(mine: nat, outcome: Outcome<T>, now: int)
      requires mine in pending
      modifies this
      ensures View() == Next(old(View()), Answer(mine, outcome, now))
    {
      if mine == ticket {
        log := log + [Wrote(mine, pending[mine], outcome, now)];
        match outcome
        case Data(d) => snapshot := Succeeded(snapshot, d, now);
        case Threw(e) => snapshot := Failed(snapshot, ClassifyFailure(e), now);
      }
      pending := pending - {mine};
    }
  }

  // ---- every run ------------------------------------------------------------------------------

  ghost predicate Reaches<T>(s: State<T>, steps: seq<Step<T>>, t: State<T>)
    decreases |steps|
  {
    if steps == [] then s == t
    else Possible(s, steps[0]) && Reaches(Next(s, steps[0]), steps[1..], t)
  }

  /** Log tickets strictly increase, were issued, and have no open request. */
  predicate TicketsInOrder<T>(s: State<T>) {
    && (forall i, j :: 0 <= i < j < |s.log| ==> s.log[i].ticket < s.log[j].ticket)
    && (forall i :: 0 <= i < |s.log| ==> s.log[i].ticket <= s.ticket && s.log[i].ticket !in s.pending)
    && (forall t :: t in s.pending ==> t <= s.ticket)
  }

  /** No write after a newest start is for a subject rendered before it; nor is any open request that
      could still write. */
  predicate SubjectsInOrder<T>(s: State<T>) {
    && s.started <= s.subject && (!s.effectDue ==> s.started == s.subject) && s.since <= s.ticket && s.since !in s.pending
    && (forall t :: t in s.pending ==> s.pending[t] <= s.subject && (t > s.since ==> s.started <= s.pending[t]))
    && (forall i :: 0 <= i < |s.log| ==> s.log[i].subject <= s.subject && (s.log[i].Reset? ==> s.log[i].subject <= s.started))
    && (forall i, j :: 0 <= i < j < |s.log| && s.log[i].Reset? ==> s.log[i].subject <= s.log[j].subject)
  }

  predicate Inv<T>(s: State<T>) {
    TicketsInOrder(s) && SubjectsInOrder(s)
  }

  lemma RefreshKeepsInv<T>(s: State<T>, enabled: bool)
    requires Inv(s)
    ensures Inv(Refreshed(s, enabled))
  {
  }

  lemma RestartKeepsTickets<T>(s: State<T>)
    requires Inv(s)
    ensures TicketsInOrder(Restarted(s))
  {
  }

  lemma RestartKeepsSubjects<T>(s: State<T>)
    requires Inv(s)
    ensures SubjectsInOrder(Restarted(s))
  {
  }

  lemma AnswerKeepsTickets<T>(s: State<T>, mine: nat, outcome: Outcome<T>, now: int)
    requires Inv(s) && mine in s.pending
    ensures TicketsInOrder(Next(s, Answer(mine, outcome, now)))
  {
  }

  lemma AnswerKeepsSubjects<T>(s: State<T>, mine: nat, outcome: Outcome<T>, now: int)
    requires Inv(s) && mine in s.pending
    ensures SubjectsInOrder(Next(s, Answer(mine, outcome, now)))
  {
  }

  lemma StepKeepsInv<T>(s: State<T>, step: Step<T>)
    requires Inv(s) && Possible(s, step)
    ensures Inv(Next(s, step))
  {
    match step
    case Effect =>
      RestartKeepsTickets(s);
      RestartKeepsSubjects(s);
      RefreshKeepsInv(Restarted(s), s.enabled);
    case Call(enabled) => RefreshKeepsInv(s, enabled);
    case Render(_, _) =>
    case Answer(mine, outcome, now) =>
      AnswerKeepsTickets(s, mine, outcome, now);
      AnswerKeepsSubjects(s, mine, outcome, now);
  }

  lemma {:induction false} RunKeepsInv<T>(s: State<T>, steps: seq<Step<T>>, t: State<T>)
    requires Inv(s) && Reaches(s, steps, t)
    ensures Inv(t)
    decreases |steps|
  {
    if steps != [] {
      StepKeepsInv(s, steps[0]);
      RunKeepsInv(Next(s, steps[0]), steps[1..], t);
    }
  }

  /** In every interleaving: writes come in strictly increasing ticket order, so each ticket writes at
      most once; and after a subject's newest start nothing fetched for an earlier subject is written. */
  lemma WritesInOrder<T>(enabled: bool, steps: seq<Step<T>>, t: State<T>)
    requires Reaches(Mounted(enabled), steps, t)
    ensures forall i, j :: 0 <= i < j < |t.log| && t.log[i].Wrote? && t.log[j].Wrote? ==> t.log[i].ticket < t.log[j].ticket
    ensures forall i, j :: 0 <= i < j < |t.log| && t.log[i].Reset? && t.log[j].Wrote? ==> t.log[i].subject <= t.log[j].subject
  {
    RunKeepsInv(Mounted(enabled), steps, t);
  }

  /** An answer is written exactly when its ticket is the newest; once the effect of the latest
      render has run, what it writes was fetched for the subject on screen. */
  lemma OnlyNewestWrites<T>(enabled: bool, steps: seq<Step<T>>, t: State<T>, mine: nat, outcome: Outcome<T>, now: int)
    requires Reaches(Mounted(enabled), steps, t) && mine in t.pending
    ensures var next := Next(t, Answer(mine, outcome, now));
            && (mine != t.ticket ==> next.snapshot == t.snapshot && next.log == t.log)
            && (mine == t.ticket ==> next.log == t.log + [Wrote(mine, t.pending[mine], outcome, now)])
            && (mine == t.ticket && !t.effectDue ==> t.pending[mine] == t.subject)
  {
    RunKeepsInv(Mounted(enabled), steps, t);
  }

  /** Every request open now is superseded; whatever is written from here on has a newer ticket. */
  lemma {:induction false} SupersededNeverWrites<T>(s: State<T>, steps: seq<Step<T>>, t: State<T>, newest: nat)
    requires Inv(s) && Reaches(s, steps, t) && newest <= s.ticket
    ensures Inv(t) && s.log <= t.log && s.ticket <= t.ticket
    ensures forall i :: |s.log| <= i < |t.log| ==> t.log[i].ticket >= newest
    decreases |steps|
  {
    if steps != [] {
      StepKeepsInv(s, steps[0]);
      SupersededNeverWrites(Next(s, steps[0]), steps[1..], t, newest);
    }
  }

  /** A refresh, or the effect of a changed render, supersedes every request open before it: whatever is
      answered afterwards, in whatever order, none of them is written. */
  lemma RefreshSupersedes<T>(enabled: bool, before: seq<Step<T>>, s: State<T>, step: Step<T>, after: seq<Step<T>>, t: State<T>)
    requires Reaches(Mounted(enabled), before, s) && (step == Call(true) || step == Effect)
    requires Possible(s, step) && Reaches(Next(s, step), after, t)
    ensures forall k, i :: k in s.pending && |Next(s, step).log| <= i < |t.log| ==> t.log[i].ticket != k
  {
    RunKeepsInv(Mounted(enabled), before, s);
    StepKeepsInv(s, step);
    SupersededNeverWrites(Next(s, step), after, t, s.ticket + 1);
  }

  /** A changed render is for a subject nothing was fetched or written for, and asks for its effect. */
  lemma ChangedRenderIsNew<T>(enabled: bool, steps: seq<Step<T>>, s: State<T>, now: bool)
    requires Reaches(Mounted(enabled), steps, s)
    ensures var next := Next(s, Render(true, now));
            && next.effectDue && next.enabled == now && next.snapshot == s.snapshot && next.pending == s.pending
            && (forall k :: k in s.pending ==> s.pending[k] != next.subject)
            && (forall i :: 0 <= i < |s.log| ==> s.log[i].subject != next.subject)
    ensures Next(s, Render(false, now)) == s
  {
    RunKeepsInv(Mounted(enabled), steps, s);
  }

  /** An effect starts over: nothing is shown, and a request for the subject on screen is open exactly when
      the hook is enabled. A hook is mounted with its first effect due. */
  lemma EffectStartsOver<T>(enabled: bool, steps: seq<Step<T>>, s: State<T>)
    requires Reaches(Mounted(enabled), steps, s) && s.effectDue
    ensures Possible(Mounted<T>(enabled), Effect)
    ensures var next := Next(s, Effect);
            && !next.effectDue && next.snapshot == InitialSnapshot() && next.subject == s.subject
            && next.pending.Keys - s.pending.Keys == (if s.enabled then {next.ticket} else {})
            && (s.enabled ==> next.pending[next.ticket] == s.subject)
  {
    RunKeepsInv(Mounted(enabled), steps, s);
  }

  // ---- what the snapshot holds ----------------------------------------------------------------

  /** The snapshot a history amounts to: what was written since the last newest start. */
  function Replayed<T>(log: seq<Event<T>>): Snapshot<T> {
    if log == [] then InitialSnapshot()
    else
      var last := log[|log| - 1];
      if last.Reset? then InitialSnapshot() else Written(Replayed(log[..|log| - 1]), last.outcome, last.now)
  }

  lemma StepReplays<T>(s: State<T>, step: Step<T>)
    requires Possible(s, step) && s.snapshot == Replayed(s.log)
    ensures Next(s, step).snapshot == Replayed(Next(s, step).log)
  {
    var next := Next(s, step);
    if next.log != s.log {
      assert next.log[..|next.log| - 1] == s.log;
    }
  }

  lemma {:induction false} SnapshotIsReplayed<T>(s: State<T>, steps: seq<Step<T>>, t: State<T>)
    requires s.snapshot == Replayed(s.log) && Reaches(s, steps, t)
    ensures t.snapshot == Replayed(t.log)
    decreases |steps|
  {
    if steps != [] {
      StepReplays(s, steps[0]);
      SnapshotIsReplayed(Next(s, steps[0]), steps[1..], t);
    }
  }

  predicate Success<T>(e: Event<T>) {
    e.Wrote? && e.outcome.Data?
  }

  /** A failure that counts; the end of the session does not. */
  predicate Counts<T>(e: Event<T>) {
    e.Wrote? && e.outcome.Threw? && ClassifyFailure(e.outcome.error).Some?
  }

  /** The latest event at or before `n` since the last newest start that has the property; None if none. */
  function LastSuccess<T>(log: seq<Event<T>>): (r: Option<Event<T>>)
    ensures r.Some? ==> Success(r.value)
  {
    if log == [] || log[|log| - 1].Reset? then None
    else if Success(log[|log| - 1]) then Some(log[|log| - 1])
    else LastSuccess(log[..|log| - 1])
  }

  function LastCounted<T>(log: seq<Event<T>>): (r: Option<Event<T>>)
    ensures r.Some? ==> Success(r.value) || Counts(r.value)
  {
    if log == [] || log[|log| - 1].Reset? then None
    else if Success(log[|log| - 1]) || Counts(log[|log| - 1]) then Some(log[|log| - 1])
    else LastCounted(log[..|log| - 1])
  }

  /** The data is that of the last success for this subject, however many failures followed; the
      failure is that of the last counted attempt if it failed; a 401 leaves no trace. */
  lemma {:induction false} SnapshotMeaning<T>(log: seq<Event<T>>)
    ensures var s, good, last := Replayed(log), LastSuccess(log), LastCounted(log);
            && s.data == (if good.Some? then Some(good.value.outcome.value) else None)
            && s.lastSuccessAt == (if good.Some? then Some(good.value.now) else None)
            && s.lastAttemptAt == (if last.Some? then Some(last.value.now) else None)
            && s.failure == (if last.Some? && Counts(last.value) then ClassifyFailure(last.value.outcome.error) else None)
    ensures LastSuccess(log).Some? ==> LastCounted(log).Some?
  {
    if log != [] {
      SnapshotMeaning(log[..|log| - 1]);
    }
  }

  // ---- disabled -------------------------------------------------------------------------------

  /** The subject's effect has run with the hook disabled. */
  ghost predicate Dormant<T>(s: State<T>) {
    !s.enabled && !s.effectDue && s.snapshot == InitialSnapshot() && s.ticket !in s.pending
  }

  predicate UsesCurrentRefresh<T>(step: Step<T>) {
    (step.Call? ==> !step.enabled) && (step.Render? ==> !step.changed)
  }

  /** While it stays disabled, no request is made and the snapshot stays initial, whatever answers
      still come in. */
  lemma {:induction false} DisabledStaysInitial<T>(s: State<T>, steps: seq<Step<T>>, t: State<T>)
    requires Dormant(s) && Reaches(s, steps, t)
    requires forall i :: 0 <= i < |steps| ==> UsesCurrentRefresh(steps[i])
    ensures Dormant(t) && t.ticket == s.ticket && t.log == s.log && t.pending.Keys <= s.pending.Keys
    decreases |steps|
  {
    if steps != [] {
      assert UsesCurrentRefresh(steps[0]);
      DisabledStaysInitial(Next(s, steps[0]), steps[1..], t);
    }
  }

  /** The effect of a disabled render brings the hook there, from any reachable state. */
  lemma DisablingIsDormant<T>(enabled: bool, steps: seq<Step<T>>, t: State<T>)
    requires Reaches(Mounted(enabled), steps, t) && t.effectDue && !t.enabled
    ensures Dormant(Next(t, Effect))
  {
    RunKeepsInv(Mounted(enabled), steps, t);
  }

  /** A refresh kept from an earlier, enabled render still makes a request on a disabled hook. */
  lemma StaleRefreshRequests<T>(s: State<T>)
    requires Dormant(s)
    ensures !Dormant(Next(s, Call(true))) && Next(s, Call(true)).pending.Keys == s.pending.Keys + {s.ticket + 1}
  {
  }
}
