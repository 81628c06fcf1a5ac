/** Generation provenance markers: the stored form, who is covered, and the join of several. */
module Provenance {
  import opened Wrappers

  const SCOPE_SITE := "site"
  const SCOPE_TENANT := "tenant"
  const PROJECTION_VERSION := 1
  const MARKER_KEYS := {"scope", "site_id", "projection_version"}

  datatype Marker = Marker(scope: string, siteId: Option<string>, version: int)

  /** A stored value: JSON scalars are told apart, anything else is Other. */
  datatype Json = Null | Bool(b: bool) | Int(i: int) | Str(s: string) | Other

  datatype Stored = NotAMapping | Mapping(entries: map<string, Json>)

  function ToDict(m: Marker): Stored {
    Mapping(map[
      "scope" := Str(m.scope),
      "site_id" := if m.siteId.Some? then Str(m.siteId.value) else Null,
      "projection_version" := Int(m.version)])
  }

  function Get(entries: map<string, Json>, key: string): Json {
    if key in entries then entries[key] else Null
  }

  function Parse(stored: Stored): Option<Marker> {
    if stored.NotAMapping? then None
    else
      var e := stored.entries;
      var scope, version, siteId := Get(e, "scope"), Get(e, "projection_version"), Get(e, "site_id");
      if !(e.Keys <= MARKER_KEYS) then None
      else if scope != Str(SCOPE_SITE) && scope != Str(SCOPE_TENANT) then None
      else if !version.Int? || version.i < 1 || version.i > PROJECTION_VERSION then None
      else if scope == Str(SCOPE_SITE) then
        if siteId.Str? && siteId.s != "" then Some(Marker(SCOPE_SITE, Some(siteId.s), version.i)) else None
      else if siteId != Null then None
      else Some(Marker(SCOPE_TENANT, None, version.i))
  }

  /** The markers the vocabulary admits: one site, or the whole tenant. */
  predicate WellFormed(m: Marker) {
    && m.version == PROJECTION_VERSION
    && (m.scope == SCOPE_SITE ==> m.siteId.Some? && m.siteId.value != "")
    && (m.scope == SCOPE_TENANT ==> m.siteId.None?)
    && m.scope in {SCOPE_SITE, SCOPE_TENANT}
  }

  /** The stored form comes back exactly for well-formed markers, and nothing else is ever parsed. */
  lemma ParseRoundTrip(m: Marker, stored: Stored)
    ensures Parse(ToDict(m)) == Some(m) <==> WellFormed(m)
    ensures Parse(stored).Some? ==> WellFormed(Parse(stored).value) && Parse(ToDict(Parse(stored).value)) == Parse(stored)
  {
    assert ToDict(m).entries.Keys == MARKER_KEYS;
    if Parse(stored).Some? {
      assert ToDict(Parse(stored).value).entries.Keys == MARKER_KEYS;
    }
  }

  /** May a reader holding `sites` (None: the whole tenant) see what the marker covers? */
  predicate CoveredBy(m: Marker, sites: Option<set<string>>) {
    sites.None? ||
    (m.scope == SCOPE_SITE && m.siteId.Some? && m.siteId.value != "" && m.siteId.value in sites.value)
  }

  predicate Covers(stored: Stored, sites: Option<set<string>>) {
    sites.None? || (Parse(stored).Some? && CoveredBy(Parse(stored).value, sites))
  }

  /** A scoped reader is shown exactly what a stored marker pins to one site it holds; anything that
      does not parse is withheld. */
  lemma CoversOnlyHeldSites(stored: Stored, held: set<string>)
    ensures Covers(stored, Some(held)) <==> exists s :: s in held && s != "" && Parse(stored) == Some(SiteVisibility(s))
    ensures forall m :: WellFormed(m) ==> (Covers(ToDict(m), Some(held)) <==> CoveredBy(m, Some(held)))
  {
    if Covers(stored, Some(held)) {
      var m := Parse(stored).value;
      assert Parse(stored) == Some(SiteVisibility(m.siteId.value));
    }
    forall m | WellFormed(m) ensures Covers(ToDict(m), Some(held)) <==> CoveredBy(m, Some(held)) {
      ParseRoundTrip(m, NotAMapping);
    }
  }

  function SiteVisibility(site: string): Marker {
    Marker(SCOPE_SITE, Some(site), PROJECTION_VERSION)
  }

  function TenantVisibility(): Marker {
    Marker(SCOPE_TENANT, None, PROJECTION_VERSION)
  }

  // ---- the loop ------------------------------------------------------------------------------

  /** The loop's two variables after some known parts. */
  datatype Acc = Acc(site: Option<string>, tenant: bool)

  function Folded(parts: seq<Marker>): Acc {
    if |parts| == 0 then Acc(None, false)
    else
      var a := Folded(parts[..|parts| - 1]);
      var p := parts[|parts| - 1];
      if p.scope == SCOPE_TENANT then a.(tenant := true)
      else if a.site.None? then a.(site := p.siteId)
      else if p.siteId != a.site then a.(tenant := true)
      else a
  }

  function AllKnown(parts: seq<Option<Marker>>): bool {
    forall i :: 0 <= i < |parts| ==> parts[i].Some?
  }

  function Values(parts: seq<Option<Marker>>): (ms: seq<Marker>)
    requires AllKnown(parts)
    ensures |ms| == |parts| && forall i :: 0 <= i < |parts| ==> parts[i] == Some(ms[i])
  {
    seq(|parts|, i requires 0 <= i < |parts| => parts[i].value)
  }

  function CombineKnown(ms: seq<Marker>): Option<Marker>
  {
    var a := Folded(ms);
    if |ms| == 0 then None
    else if a.tenant then Some(TenantVisibility())
    else if a.site.Some? && a.site.value != "" then Some(SiteVisibility(a.site.value))
    else None
  }

  function Combine(parts: seq<Option<Marker>>): Option<Marker> {
    if !AllKnown(parts) then None else CombineKnown(Values(parts))
  }

  /** `combine` as written: one pass, returning early at the first unknown part. */
  method CombineParts(parts: seq<Option<Marker>>) returns (r: Option<Marker>)
    ensures r == Combine(parts)
  {
    var seenAny := false;
    var site: Option<string> := None;
    var tenant := false;
    for i := 0 to |parts|
      invariant AllKnown(parts[..i]) && seenAny == (i > 0)
      invariant Acc(site, tenant) == Folded(Values(parts[..i]))
    {
      assert parts[..i + 1][..i] == parts[..i];
      seenAny := true;
      if parts[i].None? {
        return None;
      }
      assert Values(parts[..i + 1])[..i] == Values(parts[..i]);
      var part := parts[i].value;
      if part.scope == SCOPE_TENANT {
        tenant := true;
      } else if site.None? {
        site := part.siteId;
      } else if part.siteId != site {
        tenant := true;
      }
    }
    assert parts[..|parts|] == parts;
    if !seenAny {
      return None;
    }
    if tenant {
      return Some(TenantVisibility());
    }
    return if site.Some? && site.value != "" then Some(SiteVisibility(site.value)) else None;
  }

  // ---- what the loop computes ----------------------------------------------------------------

  predicate IsTenant(m: Marker) {
    m.scope == SCOPE_TENANT
  }

  lemma {:induction false} FoldedFacts(ms: seq<Marker>)
    ensures var a := Folded(ms);
            && (a.site.None? ==> forall m :: m in ms && !IsTenant(m) ==> m.siteId.None?)
            && (a.site.Some? ==> exists m :: m in ms && !IsTenant(m) && m.siteId == a.site)
            && (!a.tenant ==> forall m :: m in ms ==> !IsTenant(m) && (m.siteId.Some? ==> m.siteId == a.site))
            && (a.tenant ==> (exists m :: m in ms && IsTenant(m))
                             || (exists m, n :: m in ms && n in ms && !IsTenant(m) && !IsTenant(n) && m.siteId != n.siteId))
  {
    if |ms| > 0 {
      var init, p := ms[..|ms| - 1], ms[|ms| - 1];
      FoldedFacts(init);
      assert ms == init + [p];
      assert forall m :: m in ms <==> m in init || m == p;
    }
  }

  /** Site markers without an id mixed with markers of exactly one site: the one shape whose result
      depends on the order. */
  predicate Fragile(ms: seq<Marker>) {
    && (forall m :: m in ms ==> !IsTenant(m))
    && (exists m :: m in ms && m.siteId.None?)
    && (exists m :: m in ms && m.siteId.Some?)
    && (forall m, n :: m in ms && n in ms && m.siteId.Some? && n.siteId.Some? ==> m.siteId == n.siteId)
  }

  ghost predicate SameMembers(xs: seq<Marker>, ys: seq<Marker>) {
    forall m :: m in xs <==> m in ys
  }

  /** Otherwise the result depends on nothing but which markers occur. */
  lemma MembersDecide(xs: seq<Marker>, ys: seq<Marker>)
    requires SameMembers(xs, ys) && !Fragile(xs)
    ensures CombineKnown(xs) == CombineKnown(ys)
  {
    FoldedFacts(xs);
    FoldedFacts(ys);
    if |xs| > 0 {
      assert xs[0] in ys;
    }
    if |ys| > 0 {
      assert ys[0] in xs;
    }
  }

  predicate Rearranges(xs: seq<Marker>, ys: seq<Marker>) {
    multiset(xs) == multiset(ys)
  }

  function WithId(ms: seq<Marker>, some: bool): seq<Marker> {
    if |ms| == 0 then []
    else if ms[0].siteId.Some? == some then [ms[0]] + WithId(ms[1..], some)
    else WithId(ms[1..], some)
  }

  lemma {:induction false} WithIdSplits(ms: seq<Marker>)
    ensures multiset(WithId(ms, true) + WithId(ms, false)) == multiset(ms)
    ensures forall m :: m in WithId(ms, true) <==> m in ms && m.siteId.Some?
    ensures forall m :: m in WithId(ms, false) <==> m in ms && m.siteId.None?
  {
    if |ms| > 0 {
      var rest := ms[1..];
      WithIdSplits(rest);
      assert ms == [ms[0]] + rest;
      assert multiset(WithId(ms, true) + WithId(ms, false)) == multiset{ms[0]} + multiset(WithId(rest, true) + WithId(rest, false));
      assert forall m :: m in ms <==> m == ms[0] || m in rest;
    }
  }

  lemma {:induction false} SameSite(ms: seq<Marker>, site: Option<string>)
    requires |ms| > 0 && forall m :: m in ms ==> !IsTenant(m) && m.siteId == site
    ensures Folded(ms) == Acc(site, false)
  {
    FoldedFacts(ms);
    assert ms[0] in ms;
  }

  lemma {:induction false} FoldedConcat(a: seq<Marker>, b: seq<Marker>, site: string)
    requires |b| > 0 && forall m :: m in b ==> !IsTenant(m)
    ensures Folded(a) == Acc(Some(site), false) && (forall m :: m in b ==> m.siteId.None?) ==> Folded(a + b).tenant
    ensures Folded(a) == Acc(None, false) && (forall m :: m in b ==> m.siteId == Some(site)) ==> Folded(a + b) == Acc(Some(site), false)
  {
    var n := |b| - 1;
    assert (a + b)[..|a + b| - 1] == a + b[..n];
    assert b[n] in b && (forall m :: m in b[..n] ==> m in b);
    if n == 0 {
      assert a + b[..n] == a;
    } else {
      FoldedConcat(a, b[..n], site);
      FoldedKeepsSite(a, b[..n]);
    }
  }

  lemma {:induction false} FoldedKeepsSite(a: seq<Marker>, b: seq<Marker>)
    ensures Folded(a).tenant ==> Folded(a + b).tenant
    ensures Folded(a).site.Some? ==> Folded(a + b).site == Folded(a).site
  {
    if b == [] {
      assert a + b == a;
    } else {
      assert (a + b)[..|a + b| - 1] == a + b[..|b| - 1];
      FoldedKeepsSite(a, b[..|b| - 1]);
    }
  }

  /** A marker list of the fragile shape, with the named markers first and with them last. */
  lemma FragileOrders(ms: seq<Marker>)
    requires Fragile(ms)
    ensures Rearranges(ms, WithId(ms, true) + WithId(ms, false))
    ensures Rearranges(ms, WithId(ms, false) + WithId(ms, true))
    ensures CombineKnown(WithId(ms, true) + WithId(ms, false)) == Some(TenantVisibility())
    ensures CombineKnown(WithId(ms, false) + WithId(ms, true)) != Some(TenantVisibility())
  {
    WithIdSplits(ms);
    var named, anonymous := WithId(ms, true), WithId(ms, false);
    var m :| m in ms && m.siteId.Some?;
    var k :| k in ms && k.siteId.None?;
    assert m in named && k in anonymous;
    assert multiset(anonymous + named) == multiset(named + anonymous);
    SameSite(named, m.siteId);
    SameSite(anonymous, None);
    FoldedConcat(named, anonymous, m.siteId.value);
    FoldedConcat(anonymous, named, m.siteId.value);
  }

  lemma RearrangedMembers(xs: seq<Marker>, ys: seq<Marker>)
    requires Rearranges(xs, ys)
    ensures SameMembers(xs, ys)
  {
    assert forall m :: m in xs <==> m in multiset(xs);
    assert forall m :: m in ys <==> m in multiset(ys);
  }

  /** The order of the parts never matters exactly when they are not of the fragile shape. */
  lemma OrderMattersIffFragile(ms: seq<Marker>)
    ensures (forall ys :: Rearranges(ms, ys) ==> CombineKnown(ys) == CombineKnown(ms)) <==> !Fragile(ms)
  {
    if !Fragile(ms) {
      forall ys | Rearranges(ms, ys)
        ensures CombineKnown(ys) == CombineKnown(ms)
      {
        RearrangedMembers(ms, ys);
        MembersDecide(ms, ys);
      }
    } else {
      FragileOrders(ms);
    }
  }

  // ---- on well-formed markers, the join -------------------------------------------------------

  predicate AllWellFormed(parts: seq<Option<Marker>>) {
    forall i :: 0 <= i < |parts| && parts[i].Some? ==> WellFormed(parts[i].value)
  }

  /** The join of two: unknown absorbs, one site meets itself, anything else is the tenant. */
  function Join(a: Option<Marker>, b: Option<Marker>): Option<Marker> {
    if a.None? || b.None? then None
    else if a == b then a
    else Some(TenantVisibility())
  }

  function JoinAll(parts: seq<Option<Marker>>): Option<Marker>
    requires |parts| > 0
  {
    if |parts| == 1 then parts[0] else Join(JoinAll(parts[..|parts| - 1]), parts[|parts| - 1])
  }

  lemma CombineOneMore(parts: seq<Option<Marker>>, last: Marker)
    requires |parts| > 0 && AllKnown(parts) && AllWellFormed(parts) && WellFormed(last)
    requires Combine(parts).Some? && WellFormed(Combine(parts).value)
    ensures Combine(parts + [Some(last)]) == Join(Combine(parts), Some(last))
  {
    var longer := parts + [Some(last)];
    var ms := Values(parts);
    assert Values(longer)[..|parts|] == ms && Values(longer)[|parts|] == last;
    FoldedFacts(ms);
    assert ms[0] in ms && WellFormed(ms[0]);
  }

  /** Combining is folding the two-marker join over the parts, and stays inside the vocabulary. */
  lemma {:induction false} CombineIsJoin(parts: seq<Option<Marker>>)
    requires |parts| > 0 && AllWellFormed(parts)
    ensures Combine(parts) == JoinAll(parts)
    ensures Combine(parts).Some? <==> AllKnown(parts)
    ensures Combine(parts).Some? ==> WellFormed(Combine(parts).value)
  {
    var n := |parts| - 1;
    if n == 0 {
      if AllKnown(parts) {
        var m := Values(parts)[0];
        assert Values(parts)[..0] == [] && parts[0] == Some(m) && WellFormed(m);
        assert Folded(Values(parts)).tenant == IsTenant(m);
        assert CombineKnown(Values(parts)) == Some(m);
      } else {
        assert parts[0].None?;
      }
    } else {
      CombineIsJoin(parts[..n]);
      assert parts == parts[..n] + [parts[n]];
      if AllKnown(parts[..n]) && parts[n].Some? {
        CombineOneMore(parts[..n], parts[n].value);
      } else if parts[n].Some? {
        var i :| 0 <= i < n && parts[..n][i].None?;
        assert parts[i].None?;
      }
    }
  }

  /** The join is commutative, associative and idempotent. */
  lemma JoinLaws(a: Option<Marker>, b: Option<Marker>, c: Option<Marker>)
    requires AllWellFormed([a, b, c])
    ensures Join(a, b) == Join(b, a) && Join(a, a) == a
    ensures Join(Join(a, b), c) == Join(a, Join(b, c))
    ensures Join(a, None) == None && (a.Some? ==> Join(a, Some(TenantVisibility())) == Some(TenantVisibility()))
  {
    assert [a, b, c][0] == a && [a, b, c][1] == b && [a, b, c][2] == c;
  }

  lemma {:induction false} JoinAllConcat(xs: seq<Option<Marker>>, ys: seq<Option<Marker>>)
    requires |xs| > 0 && |ys| > 0 && AllWellFormed(xs + ys)
    ensures JoinAll(xs + ys) == Join(JoinAll(xs), JoinAll(ys))
  {
    var all := xs + ys;
    assert forall i :: 0 <= i < |ys| ==> ys[i] == all[|xs| + i];
    assert forall i :: 0 <= i < |xs| ==> xs[i] == all[i];
    CombineIsJoin(xs);
    if |ys| == 1 {
      assert all[..|all| - 1] == xs;
    } else {
      var init, last := ys[..|ys| - 1], ys[|ys| - 1];
      assert all[..|all| - 1] == xs + init;
      JoinAllConcat(xs, init);
      CombineIsJoin(init);
      JoinLaws(JoinAll(xs), JoinAll(init), last);
    }
  }

  /** Grouping does not matter: combining two groups' results is combining all their parts. */
  lemma CombineGroups(xs: seq<Option<Marker>>, ys: seq<Option<Marker>>)
    requires |xs| > 0 && |ys| > 0 && AllWellFormed(xs + ys)
    ensures Combine([Combine(xs), Combine(ys)]) == Combine(xs + ys)
  {
    var all := xs + ys;
    assert forall i :: 0 <= i < |ys| ==> ys[i] == all[|xs| + i];
    assert forall i :: 0 <= i < |xs| ==> xs[i] == all[i];
    CombineIsJoin(xs);
    CombineIsJoin(ys);
    CombineIsJoin(all);
    var pair := [Combine(xs), Combine(ys)];
    CombineIsJoin(pair);
    assert pair[..1] == [Combine(xs)];
    JoinAllConcat(xs, ys);
  }

  /** Order and repetition do not matter: only which parts occur. */
  lemma CombineIgnoresOrderAndRepetition(xs: seq<Option<Marker>>, ys: seq<Option<Marker>>)
    requires AllWellFormed(xs) && forall p :: p in xs <==> p in ys
    ensures Combine(xs) == Combine(ys)
  {
    if AllKnown(xs) {
      forall i | 0 <= i < |ys| ensures ys[i].Some? {
        assert ys[i] in xs;
      }
      var a, b := Values(xs), Values(ys);
      forall m ensures m in a <==> m in b {
        if m in a { assert Some(m) in xs; }
        if m in b { assert Some(m) in ys; }
      }
      assert !Fragile(a) by {
        forall m | m in a ensures WellFormed(m) {
          assert Some(m) in xs;
        }
      }
      MembersDecide(a, b);
    } else {
      var i :| 0 <= i < |xs| && xs[i].None?;
      assert xs[i] in ys;
    }
  }

  /** A scoped reader is covered exactly when every part names one and the same site it holds; in
      particular every part is then covered on its own. */
  lemma CoveredIffOneHeldSite(parts: seq<Option<Marker>>, held: set<string>)
    requires AllWellFormed(parts)
    ensures (Combine(parts).Some? && CoveredBy(Combine(parts).value, Some(held))) <==>
            |parts| > 0 && exists s :: s in held && s != "" && forall i :: 0 <= i < |parts| ==> parts[i] == Some(SiteVisibility(s))
    ensures Combine(parts).Some? && CoveredBy(Combine(parts).value, Some(held)) ==>
            forall i :: 0 <= i < |parts| ==> parts[i].Some? && CoveredBy(parts[i].value, Some(held))
  {
    if |parts| > 0 && AllKnown(parts) {
      var ms := Values(parts);
      FoldedFacts(ms);
      assert ms[0] in ms;
      forall i | 0 <= i < |parts| ensures ms[i] in ms && WellFormed(ms[i]) {}
      if !Folded(ms).tenant {
        assert forall i :: 0 <= i < |parts| ==> ms[i] == SiteVisibility(ms[0].siteId.value);
      }
    }
  }
}
