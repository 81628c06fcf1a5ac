/** Verdict reports to the Site Manager: only changes are sent, and the cache holds what was
    acknowledged. */
module Reports {
  datatype Severity = Unknown | Healthy | Trending | Warning | Critical

  datatype Verdict = Verdict(sensor: string, severity: Severity)

  type Cache = map<string, Severity>

  predicate Known(cache: Cache, v: Verdict) {
    v.sensor in cache && cache[v.sensor] == v.severity
  }

  /** One verdict of a pass; `acked` is the answer a send would get. */
  function Sent(cache: Cache, v: Verdict, acked: bool): Cache {
    if !Known(cache, v) && acked then cache[v.sensor := v.severity] else cache
  }

  datatype Outcome = Outcome(cache: Cache, sends: seq<Verdict>, acks: seq<Verdict>)

  /** A pass over `verdicts` with the answers the Site Manager would give: what is sent, what is
      acknowledged, and the cache afterwards. */
  function Pass(cache: Cache, verdicts: seq<Verdict>, answers: seq<bool>): (o: Outcome)
    requires |answers| == |verdicts|
    ensures forall v :: v in o.acks ==> v in o.sends
  {
    if |verdicts| == 0 then Outcome(cache, [], [])
    else
      var n := |verdicts| - 1;
      var before := Pass(cache, verdicts[..n], answers[..n]);
      var v := verdicts[n];
      if Known(before.cache, v) then before
      else if answers[n] then Outcome(before.cache[v.sensor := v.severity], before.sends + [v], before.acks + [v])
      else before.(sends := before.sends + [v])
  }

  class Reporter {
    var cache: Cache
    var sends: seq<Verdict>
    var acks: seq<Verdict>

    constructor ()
      ensures cache == map[] && sends == [] && acks == []
    {
      cache, sends, acks := map[], [], [];
    }

    method ReportChanged(verdicts: seq<Verdict>, answers: seq<bool>)
      requires |answers| == |verdicts|
      modifies this
      ensures cache == Pass(old(cache), verdicts, answers).cache
      ensures sends == old(sends) + Pass(old(cache), verdicts, answers).sends
      ensures acks == old(acks) + Pass(old(cache), verdicts, answers).acks
    {
      ghost var cache0, sends0, acks0 := cache, sends, acks;
      for i := 0 to |verdicts|
        invariant cache == Pass(cache0, verdicts[..i], answers[..i]).cache
        invariant sends == sends0 + Pass(cache0, verdicts[..i], answers[..i]).sends
        invariant acks == acks0 + Pass(cache0, verdicts[..i], answers[..i]).acks
      {
        assert verdicts[..i + 1][..i] == verdicts[..i] && answers[..i + 1][..i] == answers[..i];
        var v := verdicts[i];
        if Known(cache, v) {
          continue;
        }
        sends := sends + [v];
        if answers[i] {
          cache := cache[v.sensor := v.severity];
          acks := acks + [v];
        }
      }
      assert verdicts[..|verdicts|] == verdicts && answers[..|answers|] == answers;
    }
  }

  // ---- whole histories -----------------------------------------------------------------------

  datatype PassInput = PassInput(verdicts: seq<Verdict>, answers: seq<bool>)

  predicate WellFormed(history: seq<PassInput>) {
    forall i :: 0 <= i < |history| ==> |history[i].answers| == |history[i].verdicts|
  }

  /** The cache and every acknowledged report after a history of passes. */
  function After(history: seq<PassInput>): Outcome
    requires WellFormed(history)
  {
    if |history| == 0 then Outcome(map[], [], [])
    else
      var before := After(history[..|history| - 1]);
      var p := history[|history| - 1];
      var o := Pass(before.cache, p.verdicts, p.answers);
      Outcome(o.cache, before.sends + o.sends, before.acks + o.acks)
  }

  /** The severities of one sensor among some reports, in order. */
  function SeveritiesOf(reports: seq<Verdict>, sensor: string): seq<Severity> {
    if |reports| == 0 then []
    else
      var before := SeveritiesOf(reports[..|reports| - 1], sensor);
      var v := reports[|reports| - 1];
      if v.sensor == sensor then before + [v.severity] else before
  }

  lemma {:induction false} SeveritiesConcat(a: seq<Verdict>, b: seq<Verdict>, sensor: string)
    ensures SeveritiesOf(a + b, sensor) == SeveritiesOf(a, sensor) + SeveritiesOf(b, sensor)
  {
    if b == [] {
      assert a + b == a;
    } else {
      assert (a + b)[..|a + b| - 1] == a + b[..|b| - 1];
      SeveritiesConcat(a, b[..|b| - 1], sensor);
    }
  }

  predicate NoRepeats(s: seq<Severity>) {
    forall i :: 0 < i < |s| ==> s[i - 1] != s[i]
  }

  /** The cache of one sensor is the last of its acknowledged severities, which never repeat. */
  ghost predicate Consistent(cache: Cache, acks: seq<Verdict>, sensor: string) {
    var s := SeveritiesOf(acks, sensor);
    && NoRepeats(s)
    && (sensor in cache <==> s != [])
    && (s != [] ==> cache[sensor] == s[|s| - 1])
  }

  lemma AcknowledgedKeepsConsistent(cache: Cache, acks: seq<Verdict>, v: Verdict, sensor: string)
    requires Consistent(cache, acks, sensor) && !Known(cache, v)
    ensures Consistent(cache[v.sensor := v.severity], acks + [v], sensor)
  {
    assert (acks + [v])[..|acks|] == acks;
  }

  lemma Associate(a: seq<Verdict>, b: seq<Verdict>, v: Verdict)
    ensures a + (b + [v]) == (a + b) + [v]
  {
  }

  lemma {:induction false} PassKeepsConsistent(cache: Cache, acks: seq<Verdict>, verdicts: seq<Verdict>, answers: seq<bool>, sensor: string)
    requires Consistent(cache, acks, sensor) && |answers| == |verdicts|
    ensures Consistent(Pass(cache, verdicts, answers).cache, acks + Pass(cache, verdicts, answers).acks, sensor)
  {
    if |verdicts| == 0 {
      assert acks + [] == acks;
    } else {
      var n := |verdicts| - 1;
      var before := Pass(cache, verdicts[..n], answers[..n]);
      PassKeepsConsistent(cache, acks, verdicts[..n], answers[..n], sensor);
      if !Known(before.cache, verdicts[n]) && answers[n] {
        AcknowledgedKeepsConsistent(before.cache, acks + before.acks, verdicts[n], sensor);
        Associate(acks, before.acks, verdicts[n]);
      }
    }
  }

  /** Over any history of passes with any answers, the cache holds each sensor's last acknowledged
      severity and two consecutive acknowledged reports for a sensor differ. */
  lemma {:induction false} CacheIsLastAcknowledged(history: seq<PassInput>, sensor: string)
    requires WellFormed(history)
    ensures Consistent(After(history).cache, After(history).acks, sensor)
  {
    if |history| > 0 {
      CacheIsLastAcknowledged(history[..|history| - 1], sensor);
      var before := After(history[..|history| - 1]);
      var p := history[|history| - 1];
      PassKeepsConsistent(before.cache, before.acks, p.verdicts, p.answers, sensor);
    }
  }

  // ---- quiescence ----------------------------------------------------------------------------

  /** No sensor carries two severities in one list of verdicts. */
  predicate Agreeing(verdicts: seq<Verdict>) {
    forall i, j :: 0 <= i < j < |verdicts| && verdicts[i].sensor == verdicts[j].sensor ==> verdicts[i].severity == verdicts[j].severity
  }

  function Yes(n: nat): seq<bool> {
    seq(n, i => true)
  }

  /** After a pass in which every send is acknowledged the cache agrees with every verdict, if the
      verdicts agree among themselves. */
  lemma {:induction false} AllAcknowledged(cache: Cache, verdicts: seq<Verdict>, i: nat)
    requires Agreeing(verdicts) && i < |verdicts|
    ensures Known(Pass(cache, verdicts, Yes(|verdicts|)).cache, verdicts[i])
  {
    var n := |verdicts| - 1;
    assert Yes(|verdicts|)[..n] == Yes(n);
    var before := Pass(cache, verdicts[..n], Yes(n)).cache;
    assert Pass(cache, verdicts, Yes(|verdicts|)).cache == Sent(before, verdicts[n], true);
    if i < n {
      AllAcknowledged(cache, verdicts[..n], i);
      assert verdicts[i].sensor == verdicts[n].sensor ==> verdicts[i].severity == verdicts[n].severity;
    }
  }

  predicate AnsweredFor(verdicts: seq<Verdict>, answers: seq<bool>, sensor: string)
    requires |answers| == |verdicts|
  {
    exists i :: 0 <= i < |verdicts| && verdicts[i].sensor == sensor && answers[i]
  }

  lemma AnsweredExtended(verdicts: seq<Verdict>, answers: seq<bool>, sensor: string)
    requires |answers| == |verdicts| > 0
    ensures var n := |verdicts| - 1;
            AnsweredFor(verdicts, answers, sensor) <==>
            AnsweredFor(verdicts[..n], answers[..n], sensor) || (verdicts[n].sensor == sensor && answers[n])
  {
    var n := |verdicts| - 1;
    if AnsweredFor(verdicts[..n], answers[..n], sensor) {
      var i :| 0 <= i < n && verdicts[..n][i].sensor == sensor && answers[..n][i];
      assert verdicts[i].sensor == sensor && answers[i];
    }
    if AnsweredFor(verdicts, answers, sensor) {
      var i :| 0 <= i < |verdicts| && verdicts[i].sensor == sensor && answers[i];
      assert i < n ==> verdicts[..n][i].sensor == sensor && answers[..n][i];
    }
  }

  /** Whatever the verdicts say of v's sensor, they say the same as v. */
  predicate AgreesWith(verdicts: seq<Verdict>, v: Verdict) {
    forall i :: 0 <= i < |verdicts| && verdicts[i].sensor == v.sensor ==> verdicts[i] == v
  }

  lemma AgreeingExtended(verdicts: seq<Verdict>, v: Verdict)
    requires |verdicts| > 0 && AgreesWith(verdicts, v)
    ensures var n := |verdicts| - 1;
            && AgreesWith(verdicts[..n], v)
            && (verdicts[n].sensor == v.sensor ==> verdicts[n] == v)
            && (v in verdicts <==> v in verdicts[..n] || verdicts[n] == v)
  {
    assert verdicts == verdicts[..|verdicts| - 1] + [verdicts[|verdicts| - 1]];
  }

  /** One pass, for a verdict the list agrees with: it is known afterwards exactly when it was before or
      one of its sends was acknowledged. */
  lemma {:induction false} PassKnows(cache: Cache, verdicts: seq<Verdict>, answers: seq<bool>, v: Verdict)
    requires |answers| == |verdicts| && AgreesWith(verdicts, v)
    ensures Known(Pass(cache, verdicts, answers).cache, v) <==> Known(cache, v) || AnsweredFor(verdicts, answers, v.sensor)
  {
    if |verdicts| > 0 {
      var n := |verdicts| - 1;
      AgreeingExtended(verdicts, v);
      AnsweredExtended(verdicts, answers, v.sensor);
      PassKnows(cache, verdicts[..n], answers[..n], v);
    }
  }

  lemma AnsweredIsThere(verdicts: seq<Verdict>, answers: seq<bool>, v: Verdict)
    requires |answers| == |verdicts| && AgreesWith(verdicts, v) && AnsweredFor(verdicts, answers, v.sensor)
    ensures v in verdicts
  {
  }

  /** ... and it is sent exactly when it is in the list and was not known, so again in every pass until
      it is acknowledged. */
  lemma {:induction false} PassMeaning(cache: Cache, verdicts: seq<Verdict>, answers: seq<bool>, v: Verdict)
    requires |answers| == |verdicts| && AgreesWith(verdicts, v)
    ensures var o := Pass(cache, verdicts, answers);
            && (Known(o.cache, v) <==> Known(cache, v) || AnsweredFor(verdicts, answers, v.sensor))
            && (v in o.sends <==> v in verdicts && !Known(cache, v))
  {
    PassKnows(cache, verdicts, answers, v);
    if |verdicts| > 0 {
      var n := |verdicts| - 1;
      AgreeingExtended(verdicts, v);
      PassMeaning(cache, verdicts[..n], answers[..n], v);
      if AnsweredFor(verdicts[..n], answers[..n], v.sensor) {
        AnsweredIsThere(verdicts[..n], answers[..n], v);
      }
    }
  }

  lemma {:induction false} NothingToSend(cache: Cache, verdicts: seq<Verdict>, answers: seq<bool>)
    requires |answers| == |verdicts|
    ensures Pass(cache, verdicts, answers).sends == [] <==> forall i :: 0 <= i < |verdicts| ==> Known(cache, verdicts[i])
    ensures Pass(cache, verdicts, answers).sends == [] ==> Pass(cache, verdicts, answers) == Outcome(cache, [], [])
  {
    if |verdicts| > 0 {
      var n := |verdicts| - 1;
      NothingToSend(cache, verdicts[..n], answers[..n]);
      assert forall i :: 0 <= i < n ==> verdicts[..n][i] == verdicts[i];
    }
  }

  /** After an all-acknowledged pass, a pass over the same verdicts sends nothing exactly when no
      sensor carries two different severities: otherwise the two keep replacing each other. */
  lemma QuietIffAgreeing(cache: Cache, verdicts: seq<Verdict>, answers: seq<bool>)
    requires |answers| == |verdicts|
    ensures Pass(Pass(cache, verdicts, Yes(|verdicts|)).cache, verdicts, answers).sends == [] <==> Agreeing(verdicts)
  {
    var c := Pass(cache, verdicts, Yes(|verdicts|)).cache;
    if Agreeing(verdicts) {
      forall i | 0 <= i < |verdicts| ensures Known(c, verdicts[i]) {
        AllAcknowledged(cache, verdicts, i);
      }
    }
    NothingToSend(c, verdicts, answers);
    if (forall i :: 0 <= i < |verdicts| ==> Known(c, verdicts[i])) {
      forall i, j | 0 <= i < j < |verdicts| && verdicts[i].sensor == verdicts[j].sensor
        ensures verdicts[i].severity == verdicts[j].severity
      {
        assert Known(c, verdicts[i]) && Known(c, verdicts[j]);
      }
    }
  }
}
