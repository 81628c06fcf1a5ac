/** The agent-local rate limiter, and what trimming its history costs.

    `BlastRadiusLimiter` keeps at most 100 timestamps a class: the 101st record cuts the list to
    its last 50. A limiter that never forgot is the reference; for a limit of at most 50 the
    two answer alike on every history. */
module BlastRadius {
  import opened Wrappers
  import opened Actions

  const KEEP_MAX: nat := 100
  const KEEP_AFTER_TRIM: nat := 50

  function Trimmed(history: seq<real>): seq<real> {
    if |history| > KEEP_MAX then history[|history| - KEEP_AFTER_TRIM..] else history
  }

  function Recorded(history: seq<real>, now: real): seq<real> {
    Trimmed(history + [now])
  }

  /** How many timestamps lie after `start`. */
  function CountAfter(history: seq<real>, start: real): (n: nat)
    ensures n <= |history|
  {
    if |history| == 0 then 0
    else CountAfter(history[..|history| - 1], start) + if history[|history| - 1] > start then 1 else 0
  }

  predicate WithinLimit(limit: RateLimit, history: seq<real>, now: real) {
    && !(history != [] && now - history[|history| - 1] < limit.cooldown)
    && CountAfter(history, now - limit.window) < limit.maxPerWindow
  }

  predicate AllowsAt(limit: Option<RateLimit>, history: seq<real>, now: real) {
    limit.None? || WithinLimit(limit.value, history, now)
  }

  type History = map<ActionType, seq<real>>

  function Of(history: History, t: ActionType): seq<real> {
    if t in history then history[t] else []
  }

  class Limiter {
    var history: History

    constructor ()
      ensures history == map[]
    {
      history := map[];
    }

    /** The gate's question. The window count is a loop over the history. */
    method Allows(t: ActionType, now: real) returns (ok: bool)
      ensures ok == AllowsAt(DefaultLimit(t), Of(history, t), now)
    {
      var limit := DefaultLimit(t);
      if limit.None? {
        return true;
      }
      var times := Of(history, t);
      if times != [] && now - times[|times| - 1] < limit.value.cooldown {
        return false;
      }
      var windowStart := now - limit.value.window;
      var recent := 0;
      for i := 0 to |times|
        invariant recent == CountAfter(times[..i], windowStart)
      {
        assert times[..i + 1][..i] == times[..i];
        if times[i] > windowStart {
          recent := recent + 1;
        }
      }
      assert times[..|times|] == times;
      return recent < limit.value.maxPerWindow;
    }

    method Record(t: ActionType, now: real)
      modifies this
      ensures history == old(history)[t := Recorded(Of(old(history), t), now)]
    {
      var times := Of(history, t) + [now];
      if |times| > KEEP_MAX {
        times := times[|times| - KEEP_AFTER_TRIM..];
      }
      history := history[t := times];
    }
  }

  // ---- against the limiter that never forgets -------------------------------------------------

  predicate Sorted(times: seq<real>) {
    forall i, j :: 0 <= i < j < |times| ==> times[i] <= times[j]
  }

  /** `kept` is what the limiter still holds of everything recorded. */
  predicate KeptOf(kept: seq<real>, all: seq<real>) {
    && |kept| <= |all|
    && kept == all[|all| - |kept|..]
    && (|kept| == |all| || |kept| >= KEEP_AFTER_TRIM)
  }

  lemma RecordKeeps(kept: seq<real>, all: seq<real>, now: real)
    requires KeptOf(kept, all)
    ensures KeptOf(Recorded(kept, now), all + [now])
  {
    var k := kept + [now];
    assert k == (all + [now])[|all| - |kept|..];
  }

  lemma {:induction false} CountSplit(a: seq<real>, b: seq<real>, start: real)
    ensures CountAfter(a + b, start) == CountAfter(a, start) + CountAfter(b, start)
  {
    if b == [] {
      assert a + b == a;
    } else {
      assert (a + b)[..|a + b| - 1] == a + b[..|b| - 1];
      CountSplit(a, b[..|b| - 1], start);
    }
  }

  lemma {:induction false} CountNone(times: seq<real>, start: real)
    requires forall i :: 0 <= i < |times| ==> times[i] <= start
    ensures CountAfter(times, start) == 0
  {
    if |times| > 0 {
      CountNone(times[..|times| - 1], start);
    }
  }

  lemma {:induction false} CountAll(times: seq<real>, start: real)
    requires forall i :: 0 <= i < |times| ==> times[i] > start
    ensures CountAfter(times, start) == |times|
  {
    if |times| > 0 {
      CountAll(times[..|times| - 1], start);
    }
  }

  lemma {:induction false} CountShrinks(times: seq<real>, early: real, late: real)
    requires early <= late
    ensures CountAfter(times, late) <= CountAfter(times, early)
  {
    if |times| > 0 {
      CountShrinks(times[..|times| - 1], early, late);
    }
  }

  lemma DroppedOrKept(dropped: seq<real>, kept: seq<real>, start: real)
    requires Sorted(dropped + kept) && kept != []
    ensures CountAfter(dropped, start) == 0 || CountAfter(kept, start) == |kept|
  {
    var all := dropped + kept;
    var n := |dropped|;
    assert all[n] == kept[0];
    if kept[0] > start {
      forall i | 0 <= i < |kept| ensures kept[i] > start {
        assert kept[i] == all[n + i];
      }
      CountAll(kept, start);
    } else {
      forall i | 0 <= i < n ensures dropped[i] <= start {
        assert dropped[i] == all[i];
      }
      CountNone(dropped, start);
    }
  }

  /** If something was dropped and the oldest kept stamp is recent, all kept stamps are. */
  lemma KeptCountsAlike(kept: seq<real>, all: seq<real>, start: real)
    requires KeptOf(kept, all) && Sorted(all)
    ensures CountAfter(kept, start) <= CountAfter(all, start)
    ensures CountAfter(kept, start) == CountAfter(all, start) || CountAfter(kept, start) == |kept| >= KEEP_AFTER_TRIM
  {
    var dropped := all[..|all| - |kept|];
    assert all == dropped + kept;
    CountSplit(dropped, kept, start);
    if |kept| == |all| {
      assert dropped == [];
    } else {
      DroppedOrKept(dropped, kept, start);
    }
  }

  /** For a limit of at most 50, forgetting changes no answer: the trimmed limiter refines the
      one that remembers everything, whatever was recorded. */
  lemma TrimmingIsHarmless(limit: RateLimit, kept: seq<real>, all: seq<real>, now: real)
    requires KeptOf(kept, all) && Sorted(all)
    requires limit.maxPerWindow <= KEEP_AFTER_TRIM
    ensures WithinLimit(limit, kept, now) == WithinLimit(limit, all, now)
  {
    KeptCountsAlike(kept, all, now - limit.window);
    if kept != [] {
      assert kept[|kept| - 1] == all[|all| - 1];
    }
  }

  /** What the limiter holds after recording `all` one by one. */
  function Kept(all: seq<real>): (kept: seq<real>)
    ensures |kept| <= KEEP_MAX
  {
    if |all| == 0 then [] else Recorded(Kept(all[..|all| - 1]), all[|all| - 1])
  }

  lemma {:induction false} KeptIsKept(all: seq<real>)
    ensures KeptOf(Kept(all), all)
  {
    if all == [] {
      assert Kept(all) == [] && all[0..] == [];
    } else {
      var before, last := all[..|all| - 1], all[|all| - 1];
      assert before + [last] == all;
      KeptIsKept(before);
      RecordKeeps(Kept(before), before, last);
      assert Kept(all) == Recorded(Kept(before), last);
    }
  }

  /** Every stamp of `all` was allowed, in turn, by the limiter that had recorded its predecessors:
      one executor that asks, runs and records before it asks again. */
  predicate SequentialRun(limit: RateLimit, all: seq<real>) {
    && Sorted(all)
    && forall i :: 0 <= i < |all| ==> WithinLimit(limit, Kept(all[..i]), all[i])
  }

  /** No window ending at a record holds more records than the limit. */
  predicate Enforced(limit: RateLimit, all: seq<real>) {
    forall i :: 0 <= i < |all| ==> CountAfter(all[..i + 1], all[i] - limit.window) <= limit.maxPerWindow
  }

  lemma AllowedRecordFits(limit: RateLimit, before: seq<real>, now: real)
    requires limit.maxPerWindow <= KEEP_AFTER_TRIM && Sorted(before)
    requires WithinLimit(limit, Kept(before), now)
    ensures CountAfter(before + [now], now - limit.window) <= limit.maxPerWindow
  {
    KeptIsKept(before);
    TrimmingIsHarmless(limit, Kept(before), before, now);
    assert (before + [now])[..|before|] == before;
  }

  lemma SmallLimitIsEnforced(limit: RateLimit, all: seq<real>)
    requires limit.maxPerWindow <= KEEP_AFTER_TRIM
    requires SequentialRun(limit, all)
    ensures Enforced(limit, all)
  {
    forall i | 0 <= i < |all|
      ensures CountAfter(all[..i + 1], all[i] - limit.window) <= limit.maxPerWindow
    {
      SmallLimitAt(limit, all, i);
    }
  }

  lemma SmallLimitAt(limit: RateLimit, all: seq<real>, i: nat)
    requires limit.maxPerWindow <= KEEP_AFTER_TRIM && Sorted(all) && i < |all|
    requires WithinLimit(limit, Kept(all[..i]), all[i])
    ensures CountAfter(all[..i + 1], all[i] - limit.window) <= limit.maxPerWindow
  {
    assert all[..i + 1] == all[..i] + [all[i]];
    AllowedRecordFits(limit, all[..i], all[i]);
  }

  // ---- cooldowns ------------------------------------------------------------------------------

  /** `n` cooldowns one after another. */
  function Span(cooldown: real, n: nat): real {
    if n == 0 then 0.0 else Span(cooldown, n - 1) + cooldown
  }

  lemma {:induction false} SpanIsProduct(cooldown: real, n: nat)
    ensures Span(cooldown, n) == n as real * cooldown
  {
    if n > 0 {
      SpanIsProduct(cooldown, n - 1);
      assert n as real == (n - 1) as real + 1.0;
      assert ((n - 1) as real + 1.0) * cooldown == (n - 1) as real * cooldown + cooldown;
    }
  }

  lemma {:induction false} SpanAdds(cooldown: real, a: nat, b: nat)
    requires cooldown >= 0.0
    ensures Span(cooldown, a + b) == Span(cooldown, a) + Span(cooldown, b) && Span(cooldown, b) >= 0.0
  {
    if b > 0 {
      SpanAdds(cooldown, a, b - 1);
    }
  }

  predicate Spaced(all: seq<real>, cooldown: real) {
    forall i :: 0 < i < |all| ==> all[i] - all[i - 1] >= cooldown
  }

  lemma {:induction false} SpacedSpan(all: seq<real>, cooldown: real, i: nat, j: nat)
    requires Spaced(all, cooldown) && i <= j < |all|
    ensures all[j] - all[i] >= Span(cooldown, j - i)
    decreases j
  {
    if i < j {
      SpacedSpan(all, cooldown, i, j - 1);
      assert all[j] - all[j - 1] >= cooldown;
    }
  }

  lemma SequentialIsSpaced(limit: RateLimit, all: seq<real>)
    requires SequentialRun(limit, all)
    ensures Spaced(all, limit.cooldown)
  {
    forall i | 0 < i < |all| ensures all[i] - all[i - 1] >= limit.cooldown {
      KeptLast(all[..i]);
      assert WithinLimit(limit, Kept(all[..i]), all[i]);
    }
  }

  /** The stamps counted in a window are the latest ones. */
  lemma {:induction false} CountedAreLatest(s: seq<real>, start: real)
    requires Sorted(s) && CountAfter(s, start) > 0
    ensures s[|s| - CountAfter(s, start)] > start
  {
    var n := |s| - 1;
    if s[n] <= start {
      CountNone(s, start);
    } else if CountAfter(s[..n], start) > 0 {
      CountedAreLatest(s[..n], start);
    }
  }

  /** A cooldown long enough enforces any limit by itself. */
  lemma CooldownEnforces(limit: RateLimit, all: seq<real>)
    requires limit.cooldown >= 0.0 && Span(limit.cooldown, limit.maxPerWindow) >= limit.window
    requires SequentialRun(limit, all)
    ensures Enforced(limit, all)
  {
    SequentialIsSpaced(limit, all);
    forall i | 0 <= i < |all|
      ensures CountAfter(all[..i + 1], all[i] - limit.window) <= limit.maxPerWindow
    {
      CooldownEnforcesAt(limit, all, i);
    }
  }

  lemma CooldownEnforcesAt(limit: RateLimit, all: seq<real>, i: nat)
    requires limit.cooldown >= 0.0 && Span(limit.cooldown, limit.maxPerWindow) >= limit.window
    requires Sorted(all) && Spaced(all, limit.cooldown) && i < |all|
    ensures CountAfter(all[..i + 1], all[i] - limit.window) <= limit.maxPerWindow
  {
    var n := CountAfter(all[..i + 1], all[i] - limit.window);
    if n > 0 {
      CountedAreLatest(all[..i + 1], all[i] - limit.window);
      SpacedSpan(all, limit.cooldown, i + 1 - n, i);
      if n - 1 >= limit.maxPerWindow {
        SpanAdds(limit.cooldown, limit.maxPerWindow, n - 1 - limit.maxPerWindow);
        assert false;
      }
    }
  }

  // ---- overrunning a large limit --------------------------------------------------------------

  /** `older` stamps a cooldown apart, a pause of `window`, and `newer` more a cooldown apart. */
  function TwoBursts(older: nat, newer: nat, cooldown: real, window: real): (all: seq<real>)
    ensures |all| == older + newer
    ensures forall i :: 0 <= i < |all| ==> all[i] == Span(cooldown, i) + if i < older then 0.0 else window
  {
    seq(older + newer, i requires 0 <= i => Span(cooldown, i) + if i < older then 0.0 else window)
  }

  lemma {:induction false} KeptUntrimmed(all: seq<real>)
    requires |all| <= KEEP_MAX
    ensures Kept(all) == all
  {
    if |all| > 0 {
      KeptUntrimmed(all[..|all| - 1]);
      assert all[..|all| - 1] + [all[|all| - 1]] == all;
    }
  }

  lemma KeptLast(all: seq<real>)
    requires |all| > 0
    ensures Kept(all) != [] && Kept(all)[|Kept(all)| - 1] == all[|all| - 1]
  {
    var k := Kept(all[..|all| - 1]) + [all[|all| - 1]];
    assert Kept(all) == Trimmed(k);
  }

  lemma BurstsInOrder(older: nat, newer: nat, cooldown: real, window: real, i: nat, j: nat)
    requires cooldown >= 0.0 && window > 0.0 && i <= j < older + newer
    ensures var all := TwoBursts(older, newer, cooldown, window);
            all[i] <= all[j] && (i < j ==> all[j] - all[i] >= cooldown)
  {
    SpanAdds(cooldown, i, j - i);
    if i < j {
      SpanAdds(cooldown, 1, j - i - 1);
      assert Span(cooldown, 1) == Span(cooldown, 0) + cooldown;
    }
  }

  lemma CountBetween(s: seq<real>, from: nat, to: nat, start: real)
    requires from <= to <= |s|
    requires forall k :: 0 <= k < from ==> s[k] <= start
    requires forall k :: from <= k < to ==> s[k] > start
    ensures CountAfter(s[..to], start) == to - from
  {
    var early, late := s[..from], s[from..to];
    assert s[..to] == early + late;
    CountSplit(early, late, start);
    CountNone(early, start);
    CountAll(late, start);
  }

  /** Against a stamp of the second burst, the first burst is out of the window and the second in it. */
  lemma BurstWindow(older: nat, newer: nat, cooldown: real, window: real, k: nat, i: nat)
    requires cooldown >= 0.0 && k <= i && older <= i < older + newer && Span(cooldown, i - older) < window
    ensures var all := TwoBursts(older, newer, cooldown, window);
            if k < older then all[k] <= all[i] - window else all[k] > all[i] - window
  {
    SpanAdds(cooldown, k, i - k);
    if k >= older {
      SpanAdds(cooldown, i - k, k - older);
    }
  }

  /** The window of a stamp of the second burst holds that burst and nothing older. */
  lemma BurstCount(older: nat, newer: nat, cooldown: real, window: real, m: nat, i: nat)
    requires cooldown >= 0.0 && older <= i < older + newer && older <= m <= i + 1
    requires Span(cooldown, i - older) < window
    ensures var all := TwoBursts(older, newer, cooldown, window);
            CountAfter(all[..m], all[i] - window) == m - older
  {
    var all := TwoBursts(older, newer, cooldown, window);
    forall k | 0 <= k <= i
      ensures if k < older then all[k] <= all[i] - window else all[k] > all[i] - window
    {
      BurstWindow(older, newer, cooldown, window, k, i);
    }
    CountBetween(all, older, m, all[i] - window);
  }

  /** Stamps to put before a burst of `max + 1` so that the trim falls inside it. */
  function Padding(max: nat): nat {
    if max <= KEEP_MAX then KEEP_MAX + 1 - max else 0
  }

  /** A limit above 50 whose cooldown does not enforce it. */
  predicate Overrunnable(limit: RateLimit) {
    limit.maxPerWindow > KEEP_AFTER_TRIM && limit.cooldown >= 0.0 && Span(limit.cooldown, limit.maxPerWindow) < limit.window
  }

  function OverrunOf(limit: RateLimit): seq<real> {
    TwoBursts(Padding(limit.maxPerWindow), limit.maxPerWindow + 1, limit.cooldown, limit.window)
  }

  /** The cooldowns inside the burst stay within the window. */
  lemma BurstIsShort(limit: RateLimit, n: nat)
    requires Overrunnable(limit) && n <= limit.maxPerWindow
    ensures Span(limit.cooldown, n) < limit.window && limit.window > 0.0
  {
    SpanAdds(limit.cooldown, n, limit.maxPerWindow - n);
    SpanAdds(limit.cooldown, 0, limit.maxPerWindow);
  }

  lemma BurstCountFits(limit: RateLimit, i: nat)
    requires Overrunnable(limit) && Padding(limit.maxPerWindow) <= i < Padding(limit.maxPerWindow) + limit.maxPerWindow
    ensures var all := OverrunOf(limit); CountAfter(all[..i], all[i] - limit.window) < limit.maxPerWindow
  {
    var older := Padding(limit.maxPerWindow);
    BurstIsShort(limit, i - older);
    BurstCount(older, limit.maxPerWindow + 1, limit.cooldown, limit.window, i, i);
  }

  lemma UntrimmedFits(limit: RateLimit, i: nat)
    requires Overrunnable(limit) && i <= KEEP_MAX && i < Padding(limit.maxPerWindow) + limit.maxPerWindow
    ensures var all := OverrunOf(limit); CountAfter(Kept(all[..i]), all[i] - limit.window) < limit.maxPerWindow
  {
    KeptUntrimmed(OverrunOf(limit)[..i]);
    if i >= Padding(limit.maxPerWindow) {
      BurstCountFits(limit, i);
    }
  }

  lemma TrimmedFits(limit: RateLimit, i: nat)
    requires Overrunnable(limit) && KEEP_MAX < i <= Padding(limit.maxPerWindow) + limit.maxPerWindow
    ensures |Kept(OverrunOf(limit)[..i])| < limit.maxPerWindow
  {
    if limit.maxPerWindow <= KEEP_MAX {
      var before := OverrunOf(limit)[..i];
      assert i == KEEP_MAX + 1;
      KeptUntrimmed(before[..i - 1]);
      assert |Kept(before)| == KEEP_AFTER_TRIM;
    }
  }

  lemma BurstFits(limit: RateLimit, i: nat)
    requires Overrunnable(limit) && i <= Padding(limit.maxPerWindow) + limit.maxPerWindow
    ensures var all := OverrunOf(limit); CountAfter(Kept(all[..i]), all[i] - limit.window) < limit.maxPerWindow
  {
    if i <= KEEP_MAX {
      UntrimmedFits(limit, i);
    } else {
      TrimmedFits(limit, i);
    }
  }

  lemma BurstStep(limit: RateLimit, i: nat)
    requires Overrunnable(limit) && i <= Padding(limit.maxPerWindow) + limit.maxPerWindow
    ensures var all := OverrunOf(limit); WithinLimit(limit, Kept(all[..i]), all[i])
  {
    var all := OverrunOf(limit);
    BurstFits(limit, i);
    BurstIsShort(limit, 0);
    if i == 0 {
      assert Kept(all[..0]) == [];
    } else {
      KeptLast(all[..i]);
      BurstsInOrder(Padding(limit.maxPerWindow), limit.maxPerWindow + 1, limit.cooldown, limit.window, i - 1, i);
    }
  }

  lemma BurstsAreSequential(limit: RateLimit)
    requires Overrunnable(limit)
    ensures SequentialRun(limit, OverrunOf(limit))
  {
    var all := OverrunOf(limit);
    BurstIsShort(limit, 0);
    forall i, j | 0 <= i < j < |all| ensures all[i] <= all[j] {
      BurstsInOrder(Padding(limit.maxPerWindow), limit.maxPerWindow + 1, limit.cooldown, limit.window, i, j);
    }
    forall i | 0 <= i < |all| ensures WithinLimit(limit, Kept(all[..i]), all[i]) {
      BurstStep(limit, i);
    }
  }

  lemma BurstsOverrun(limit: RateLimit)
    requires Overrunnable(limit)
    ensures !Enforced(limit, OverrunOf(limit))
  {
    var last := Padding(limit.maxPerWindow) + limit.maxPerWindow;
    OverrunAtLast(limit, last);
    OverrunSomewhere(limit, OverrunOf(limit), last);
  }

  /** Such a limit can be overrun: fill the list with old stamps so that the trim falls inside the
      current burst and forgets part of it. */
  lemma LargeLimitIsOverrun(limit: RateLimit)
    requires Overrunnable(limit)
    ensures SequentialRun(limit, OverrunOf(limit)) && !Enforced(limit, OverrunOf(limit))
  {
    BurstsAreSequential(limit);
    BurstsOverrun(limit);
  }

  lemma OverrunSomewhere(limit: RateLimit, all: seq<real>, i: nat)
    requires i < |all| && CountAfter(all[..i + 1], all[i] - limit.window) > limit.maxPerWindow
    ensures !Enforced(limit, all)
  {
  }

  lemma OverrunAtLast(limit: RateLimit, last: nat)
    requires Overrunnable(limit) && last == Padding(limit.maxPerWindow) + limit.maxPerWindow
    ensures var all := OverrunOf(limit);
            last < |all| && CountAfter(all[..last + 1], all[last] - limit.window) == limit.maxPerWindow + 1
  {
    BurstCount(Padding(limit.maxPerWindow), limit.maxPerWindow + 1, limit.cooldown, limit.window, last + 1, last);
  }

  /** Sequential use respects a limit exactly when it is at most 50, or its cooldown alone spaces the
      records so that the window never holds more. */
  lemma EnforcedIff(limit: RateLimit)
    requires limit.cooldown >= 0.0
    ensures (forall all :: SequentialRun(limit, all) ==> Enforced(limit, all)) <==>
            limit.maxPerWindow <= KEEP_AFTER_TRIM || limit.maxPerWindow as real * limit.cooldown >= limit.window
  {
    SpanIsProduct(limit.cooldown, limit.maxPerWindow);
    if Overrunnable(limit) {
      LargeLimitIsOverrun(limit);
    } else {
      forall all | SequentialRun(limit, all) ensures Enforced(limit, all) {
        if limit.maxPerWindow <= KEEP_AFTER_TRIM {
          SmallLimitIsEnforced(limit, all);
        } else {
          CooldownEnforces(limit, all);
        }
      }
    }
  }

  /** The cooldown has passed since the last record. */
  predicate Cooled(limit: RateLimit, all: seq<real>, now: real) {
    all == [] || now - all[|all| - 1] >= limit.cooldown
  }

  /** A limit above 100 never refuses anything but for its cooldown: a class has at most 100 stamps
      to count. */
  lemma HugeLimitOnlyCools(limit: RateLimit, all: seq<real>, now: real)
    requires limit.maxPerWindow > KEEP_MAX
    ensures WithinLimit(limit, Kept(all), now) <==> Cooled(limit, all, now)
  {
    if |all| > 0 {
      KeptLast(all);
    }
  }

  lemma SmallAnswersTruly(limit: RateLimit, all: seq<real>, now: real)
    requires limit.maxPerWindow <= KEEP_AFTER_TRIM && Sorted(all)
    ensures WithinLimit(limit, Kept(all), now) == WithinLimit(limit, all, now)
  {
    KeptIsKept(all);
    TrimmingIsHarmless(limit, Kept(all), all, now);
  }

  lemma HugeAlwaysAllows(limit: RateLimit, all: seq<real>, now: real)
    requires limit.maxPerWindow > KEEP_MAX && limit.cooldown == 0.0 && (all != [] ==> now >= all[|all| - 1])
    ensures WithinLimit(limit, Kept(all), now)
  {
    HugeLimitOnlyCools(limit, all, now);
  }

  predicate Unlimited(t: ActionType) {
    t == IdentifyLed || t == CollectDiagnostics || t == SelClear || t == ClearCounters
  }

  /** Every limit of the table is at most 50, or is 999 without a cooldown. */
  lemma TableLimits(t: ActionType)
    requires DefaultLimit(t).Some?
    ensures var limit := DefaultLimit(t).value;
            if Unlimited(t) then limit.maxPerWindow > KEEP_MAX && limit.cooldown == 0.0
            else limit.maxPerWindow <= KEEP_AFTER_TRIM
  {
  }

  /** So of the default table the four classes limited to 999 are not limited at all, and every
      other limited class is counted as if nothing were ever forgotten. */
  lemma DefaultTable(t: ActionType, all: seq<real>, now: real)
    requires Sorted(all) && (all != [] ==> now >= all[|all| - 1])
    ensures Unlimited(t) ==> AllowsAt(DefaultLimit(t), Kept(all), now)
    ensures !Unlimited(t) ==> AllowsAt(DefaultLimit(t), Kept(all), now) == AllowsAt(DefaultLimit(t), all, now)
  {
    var limit := DefaultLimit(t);
    if limit.Some? {
      TableLimits(t);
      if Unlimited(t) {
        HugeAlwaysAllows(limit.value, all, now);
      } else {
        SmallAnswersTruly(limit.value, all, now);
      }
    }
  }
}
