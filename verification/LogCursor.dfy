/** The BMC log poll: which entries alert, and what the comma-joined cursor remembers.

    `Agent._poll_bmc_logs` stores the ids of the latest non-empty snapshot as one string, cut
    at 4000 characters, and reads it back with `split(",")`. */
module LogCursor {
  import opened Wrappers
  import opened Text

  const CURSOR_LIMIT: nat := 4000

  datatype Entry = Entry(id: string, severity: string)

  datatype Worst = Critical | Warning

  /** The verdict kept under "log:sel". */
  datatype Alert = Alert(worst: Worst, news: seq<Entry>)

  function LowerChar(c: char): char {
    if 'A' <= c <= 'Z' then (c as int + 32) as char else c
  }

  function Lower(s: string): string {
    seq(|s|, i requires 0 <= i < |s| => LowerChar(s[i]))
  }

  predicate Alertable(e: Entry) {
    e.id != "" && Lower(e.severity) in {"critical", "warning"}
  }

  function Ids(entries: seq<Entry>): (ids: seq<string>)
    ensures forall id :: id in ids ==> id != ""
  {
    if |entries| == 0 then []
    else
      var rest := Ids(entries[..|entries| - 1]);
      var e := entries[|entries| - 1];
      if e.id == "" then rest else rest + [e.id]
  }

  function Cut(s: string): string {
    if |s| <= CURSOR_LIMIT then s else s[..CURSOR_LIMIT]
  }

  function CursorOf(entries: seq<Entry>): string {
    Cut(Join(Ids(entries), ','))
  }

  function Seen(cursor: string): set<string> {
    if cursor == "" then {} else set piece | piece in Split(cursor, ',')
  }

  /** The entries of a snapshot that alert against the ids already seen, in order. */
  function Fresh(entries: seq<Entry>, seen: set<string>): (news: seq<Entry>)
    ensures forall e :: e in news <==> e in entries && Alertable(e) && e.id !in seen
  {
    if |entries| == 0 then []
    else
      var rest := Fresh(entries[..|entries| - 1], seen);
      var e := entries[|entries| - 1];
      assert entries == entries[..|entries| - 1] + [e];
      if Alertable(e) && e.id !in seen then rest + [e] else rest
  }

  predicate AnyCritical(entries: seq<Entry>) {
    exists i :: 0 <= i < |entries| && Lower(entries[i].severity) == "critical"
  }

  /** The text reads as the lower-case word, whatever case its letters are in. */
  predicate ReadsAs(s: string, word: string) {
    && |s| == |word|
    && forall i :: 0 <= i < |s| ==> s[i] == word[i] || ('a' <= word[i] <= 'z' && s[i] as int == word[i] as int - 'a' as int + 'A' as int)
  }

  predicate LowerCase(word: string) {
    forall i :: 0 <= i < |word| ==> 'a' <= word[i] <= 'z'
  }

  lemma LowerCharReads(c: char, l: char)
    requires 'a' <= l <= 'z'
    ensures LowerChar(c) == l <==> c == l || c as int == l as int - 'a' as int + 'A' as int
  {
  }

  lemma LowerReads(s: string, word: string)
    requires LowerCase(word)
    ensures Lower(s) == word <==> ReadsAs(s, word)
  {
    if |s| == |word| {
      forall i | 0 <= i < |s| ensures Lower(s)[i] == word[i] <==> s[i] == word[i] || s[i] as int == word[i] as int - 'a' as int + 'A' as int {
        LowerCharReads(s[i], word[i]);
      }
      if ReadsAs(s, word) {
        assert forall i :: 0 <= i < |s| ==> Lower(s)[i] == word[i];
      }
    }
  }

  /** An entry alerts exactly when it has an id and its severity reads critical or warning, in any case. */
  lemma AlertableIff(e: Entry)
    ensures Alertable(e) <==> |e.id| > 0 && (ReadsAs(e.severity, "critical") || ReadsAs(e.severity, "warning"))
  {
    LowerReads(e.severity, "critical");
    LowerReads(e.severity, "warning");
  }

  /** The worst of the news is critical exactly when some entry reads so; if it is not, every one of
      them reads warning. */
  lemma WorstIff(entries: seq<Entry>, seen: set<string>)
    ensures var news := Fresh(entries, seen);
            && (AnyCritical(news) <==> exists e :: e in news && ReadsAs(e.severity, "critical"))
            && (!AnyCritical(news) ==> forall e :: e in news ==> ReadsAs(e.severity, "warning"))
  {
    var news := Fresh(entries, seen);
    forall e | e in news
      ensures Lower(e.severity) == "critical" <==> ReadsAs(e.severity, "critical")
      ensures ReadsAs(e.severity, "critical") || ReadsAs(e.severity, "warning")
    {
      LowerReads(e.severity, "critical");
      AlertableIff(e);
    }
    if e :| e in news && ReadsAs(e.severity, "critical") {
      var i :| 0 <= i < |news| && news[i] == e;
      assert Lower(news[i].severity) == "critical";
    }
    if i :| 0 <= i < |news| && Lower(news[i].severity) == "critical" {
      assert news[i] in news;
    }
    if !AnyCritical(news) {
      forall e | e in news ensures ReadsAs(e.severity, "warning") {
        var i :| 0 <= i < |news| && news[i] == e;
        assert Lower(news[i].severity) != "critical";
      }
    }
  }

  class LogPoll {
    var cursor: string
    var alert: Option<Alert>
    var forwarded: bool

    constructor (restored: string)
      ensures cursor == restored && alert == None && !forwarded
    {
      cursor, alert, forwarded := restored, None, false;
    }

    /** One poll. An empty snapshot changes nothing at all; a non-empty one replaces the cursor
        whether or not anything alerts. */
    method Poll(entries: seq<Entry>, reporting: bool) returns (news: seq<Entry>)
      modifies this
      ensures entries == [] ==> news == [] && cursor == old(cursor)
      ensures entries != [] ==> news == Fresh(entries, Seen(old(cursor))) && cursor == CursorOf(entries)
      ensures news == [] ==> alert == old(alert) && forwarded == old(forwarded)
      ensures news != [] ==> alert == Some(Alert(if AnyCritical(news) then Critical else Warning, news))
      ensures news != [] ==> forwarded == (old(forwarded) || reporting)
    {
      news := [];
      if entries == [] {
        return;
      }
      var seen := Seen(cursor);
      var ids: seq<string> := [];
      var critical := false;
      for i := 0 to |entries|
        invariant news == Fresh(entries[..i], seen)
        invariant ids == Ids(entries[..i])
        invariant critical == AnyCritical(news)
      {
        var e := entries[i];
        assert entries[..i + 1][..i] == entries[..i];
        if Alertable(e) && e.id !in seen {
          ghost var before := news;
          news := news + [e];
          assert news[..|before|] == before && news[|before|] == e;
          assert AnyCritical(news) == (AnyCritical(before) || Lower(e.severity) == "critical") by {
            if AnyCritical(before) {
              var k :| 0 <= k < |before| && Lower(before[k].severity) == "critical";
              assert Lower(news[k].severity) == "critical";
            }
            if Lower(e.severity) == "critical" {
              assert Lower(news[|before|].severity) == "critical";
            }
          }
          critical := critical || Lower(e.severity) == "critical";
        }
        if e.id != "" {
          ids := ids + [e.id];
        }
      }
      assert entries[..|entries|] == entries;
      cursor := Cut(Join(ids, ','));
      if news == [] {
        return;
      }
      alert := Some(Alert(if critical then Critical else Warning, news));
      if reporting {
        forwarded := true;
      }
    }
  }

  // ---- what one cursor remembers -------------------------------------------------------------

  predicate Fits(entries: seq<Entry>) {
    |Join(Ids(entries), ',')| <= CURSOR_LIMIT
  }

  lemma JoinNonEmpty(ids: seq<string>)
    requires |ids| >= 1 && forall id :: id in ids ==> id != ""
    ensures Join(ids, ',') != ""
  {
    assert ids[0] in ids;
  }

  predicate AmongPieces(ids: seq<string>, x: string) {
    exists i :: 0 <= i < |ids| && x in Split(ids[i], ',')
  }

  /** With no truncation the cursor remembers exactly the comma-separated pieces of the ids. */
  lemma RememberedPieces(entries: seq<Entry>, x: string)
    requires Fits(entries)
    ensures x in Seen(CursorOf(entries)) <==> AmongPieces(Ids(entries), x)
  {
    var ids := Ids(entries);
    assert CursorOf(entries) == Join(ids, ',');
    if ids == [] {
      assert Join(ids, ',') == "";
      assert x !in Seen(CursorOf(entries));
    } else {
      JoinNonEmpty(ids);
      SplitOfJoin(ids, ',');
      InSplitEach(ids, ',', x);
      assert x in Seen(CursorOf(entries)) <==> x in SplitEach(ids, ',');
    }
  }

  /** The cursor remembers the snapshot's ids, no more and no fewer, exactly when no id holds
      a comma: an id with one is never recognised again. */
  lemma RemembersExactlyIffCommaFree(entries: seq<Entry>)
    requires Fits(entries)
    ensures Seen(CursorOf(entries)) == (set id | id in Ids(entries)) <==> FreeOf(Ids(entries), ',')
  {
    var ids := Ids(entries);
    var seen := Seen(CursorOf(entries));
    if FreeOf(ids, ',') {
      if |ids| >= 1 {
        JoinNonEmpty(ids);
        SplitJoinRoundTrip(ids, ',');
      }
    } else {
      var i :| 0 <= i < |ids| && ',' in ids[i];
      JoinNonEmpty(ids);
      SplitPieces(CursorOf(entries), ',');
      assert ids[i] !in seen;
      assert ids[i] in ids;
    }
  }

  /** A cut cursor holds a prefix of the id list and one prefix of the next id. */
  lemma CutCursor(entries: seq<Entry>) returns (k: nat, partial: string)
    requires !Fits(entries) && FreeOf(Ids(entries), ',')
    ensures k < |Ids(entries)| && partial <= Ids(entries)[k]
    ensures Split(CursorOf(entries), ',') == Ids(entries)[..k] + [partial]
  {
    var ids := Ids(entries);
    var joined := Join(ids, ',');
    SplitJoinRoundTrip(ids, ',');
    SplitOfPrefix(joined, CURSOR_LIMIT, ',');
    var cut := Split(joined[..CURSOR_LIMIT], ',');
    k, partial := |cut| - 1, cut[|cut| - 1];
    assert cut == cut[..k] + [partial];
  }

  // ---- whole histories -----------------------------------------------------------------------

  /** The cursor after a history of polls: an empty poll returns before touching it. */
  function After(start: string, polls: seq<seq<Entry>>): string
  {
    if |polls| == 0 then start
    else
      var last := polls[|polls| - 1];
      if last == [] then After(start, polls[..|polls| - 1]) else CursorOf(last)
  }

  /** The latest poll of a history that returned anything. */
  function LastNonEmpty(polls: seq<seq<Entry>>): Option<seq<Entry>>
  {
    if |polls| == 0 then None
    else
      var last := polls[|polls| - 1];
      if last == [] then LastNonEmpty(polls[..|polls| - 1]) else Some(last)
  }

  lemma {:induction false} CursorIsLastNonEmpty(start: string, polls: seq<seq<Entry>>)
    ensures After(start, polls) == match LastNonEmpty(polls) case None => start case Some(snap) => CursorOf(snap)
  {
    if |polls| > 0 && polls[|polls| - 1] == [] {
      CursorIsLastNonEmpty(start, polls[..|polls| - 1]);
    }
  }

  /** Over any history, a poll alerts exactly the critical or warning entries whose id the last
      non-empty snapshot did not carry -- whenever that snapshot's ids are comma-free and fit. */
  lemma AlertsAreExactlyTheNewEntries(start: string, polls: seq<seq<Entry>>, next: seq<Entry>, snap: seq<Entry>, e: Entry)
    requires LastNonEmpty(polls) == Some(snap)
    requires Fits(snap) && FreeOf(Ids(snap), ',')
    ensures e in Fresh(next, Seen(After(start, polls))) <==>
            e in next && Alertable(e) && e.id !in Ids(snap)
  {
    CursorIsLastNonEmpty(start, polls);
    RemembersExactlyIffCommaFree(snap);
  }

  /** When the join is cut, only ids past the cut can alert twice, and only an id equal to the
      one partial piece can be suppressed although it is new. */
  lemma CutOnlyAffectsTheTail(start: string, polls: seq<seq<Entry>>, next: seq<Entry>, snap: seq<Entry>, e: Entry)
    returns (k: nat, partial: string)
    requires LastNonEmpty(polls) == Some(snap)
    requires !Fits(snap) && FreeOf(Ids(snap), ',')
    ensures k < |Ids(snap)| && partial <= Ids(snap)[k]
    ensures e in Fresh(next, Seen(After(start, polls))) && e.id in Ids(snap) ==>
            e.id in Ids(snap)[k..] && e.id !in Ids(snap)[..k]
    ensures e in next && Alertable(e) && e.id !in Ids(snap) && e !in Fresh(next, Seen(After(start, polls))) ==>
            e.id == partial
  {
    CursorIsLastNonEmpty(start, polls);
    k, partial := CutCursor(snap);
    assert CursorOf(snap) != "";
    var ids := Ids(snap);
    assert ids == ids[..k] + ids[k..];
    assert forall x :: x in Seen(CursorOf(snap)) <==> x in ids[..k] || x == partial;
  }
}
