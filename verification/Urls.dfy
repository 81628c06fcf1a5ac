/** Link builders and query strings of the Console, with the readings that undo them.

    Percent-encoding follows section 2.1 of RFC 3986; query strings follow section 5 of the WHATWG
    URL Standard. Texts are taken as their UTF-8 bytes. */
module Urls {
  import opened Wrappers
  import opened Text

  newtype byte = x: int | 0 <= x < 256

  type Ascii = c: char | c <= '\U{7F}' witness 'a'

  /** What a URL is written in, and what an id or a query text is. */
  type Url = seq<Ascii>
  type Bytes = seq<byte>

  predicate Alphanumeric(c: char) {
    'a' <= c <= 'z' || 'A' <= c <= 'Z' || '0' <= c <= '9'
  }

  /** What `encodeURIComponent` leaves alone. */
  predicate KeptInPath(c: char) {
    Alphanumeric(c) || c == '-' || c == '_' || c == '.' || c == '!' || c == '~' || c == '*' || c == '\'' || c == '(' || c == ')'
  }

  /** What the form serialiser leaves alone. */
  predicate KeptInForm(c: char) {
    Alphanumeric(c) || c == '*' || c == '-' || c == '.' || c == '_'
  }

  function Digit(n: int): (c: Ascii)
    requires 0 <= n < 16
  {
    if n < 10 then '0' + n as char else 'A' + (n - 10) as char
  }

  function DigitValue(c: char): Option<int> {
    if '0' <= c <= '9' then Some(c as int - '0' as int)
    else if 'A' <= c <= 'F' then Some(c as int - 'A' as int + 10)
    else if 'a' <= c <= 'f' then Some(c as int - 'a' as int + 10)
    else None
  }

  function Escape(b: byte): Url {
    ['%', Digit(b as int / 16), Digit(b as int % 16)]
  }

  /** The byte a URL starts with an escape of, if it does. */
  function Unescape(s: Url): (r: Option<byte>)
  {
    if |s| >= 3 && s[0] == '%' && DigitValue(s[1]).Some? && DigitValue(s[2]).Some? then
      Some((DigitValue(s[1]).value * 16 + DigitValue(s[2]).value) as byte)
    else None
  }

  lemma UnescapeEscape(b: byte, rest: Url)
    ensures Unescape(Escape(b) + rest) == Some(b)
    ensures (Escape(b) + rest)[3..] == rest
    ensures forall c :: c in Escape(b) ==> c == '%' || Alphanumeric(c)
  {
    var high, low := b as int / 16, b as int % 16;
    assert DigitValue(Digit(high)) == Some(high) && DigitValue(Digit(low)) == Some(low);
  }

  // ---- path segments --------------------------------------------------------------------------

  function PathByte(b: byte): Url {
    if b < 128 && KeptInPath(b as char) then [b as char] else Escape(b)
  }

  /** `seg`: one path segment. */
  function Seg(bs: Bytes): Url {
    if bs == [] then [] else PathByte(bs[0]) + Seg(bs[1..])
  }

  /** Percent-decoding; None for a stray percent sign. */
  function PathDecode(s: Url): Option<Bytes> {
    if s == [] then Some([])
    else if Unescape(s).Some? then
      var rest := PathDecode(s[3..]);
      if rest.None? then None else Some([Unescape(s).value] + rest.value)
    else if s[0] == '%' then None
    else
      var rest := PathDecode(s[1..]);
      if rest.None? then None else Some([s[0] as byte] + rest.value)
  }

  /** A segment decodes back to the id it was built from. */
  lemma {:induction false} PathRoundTrip(bs: Bytes)
    ensures PathDecode(Seg(bs)) == Some(bs)
  {
    if bs != [] {
      PathRoundTrip(bs[1..]);
      var b, rest := bs[0], Seg(bs[1..]);
      assert [b] + bs[1..] == bs;
      if b < 128 && KeptInPath(b as char) {
        assert ([b as char] + rest)[1..] == rest;
      } else {
        UnescapeEscape(b, rest);
      }
    }
  }

  predicate SegmentChar(c: char) {
    KeptInPath(c) || c == '%'
  }

  /** A segment never holds a delimiter, and is empty only for the empty id. */
  lemma {:induction false} SegChars(bs: Bytes)
    ensures forall c :: c in Seg(bs) ==> SegmentChar(c)
    ensures Seg(bs) == [] <==> bs == []
  {
    if bs != [] {
      SegChars(bs[1..]);
      if !(bs[0] < 128 && KeptInPath(bs[0] as char)) {
        UnescapeEscape(bs[0], []);
        assert Escape(bs[0]) + [] == Escape(bs[0]);
      }
    }
  }

  const DOT: Bytes := [46]
  const DOT_DOT: Bytes := [46, 46]

  /** A segment a URL parser resolves away instead of keeping, in any spelling of the dot. */
  predicate IsDotSegment(s: Url) {
    PathDecode(s) == Some(DOT) || PathDecode(s) == Some(DOT_DOT)
  }

  /** The builders produce such a segment exactly for the ids that are themselves dots. */
  lemma DotSegmentIff(bs: Bytes)
    ensures IsDotSegment(Seg(bs)) <==> bs == DOT || bs == DOT_DOT
  {
    PathRoundTrip(bs);
  }

  // ---- links ----------------------------------------------------------------------------------

  datatype Page = IncidentsPage | FleetPage | OperationalAgentsPage | CampaignsPage | ApprovalsPage

  datatype Origin = NodeLane | AgentLane | ActivationLane

  /** What a builder links to: a page, an object on its page, or an item of the approval queue. */
  datatype Link =
    | List(page: Page, tenant: Bytes)
    | Object(page: Page, tenant: Bytes, id: Bytes)
    | Item(tenant: Bytes, origin: Origin, id: Bytes)

  function PageName(p: Page): Url {
    match p
    case IncidentsPage => "incidents"
    case FleetPage => "fleet"
    case OperationalAgentsPage => "operational-agents"
    case CampaignsPage => "campaigns"
    case ApprovalsPage => "approvals"
  }

  function OriginName(o: Origin): Url {
    match o
    case NodeLane => "node"
    case AgentLane => "agent"
    case ActivationLane => "agent_activation"
  }

  function PageNamed(s: Url): Option<Page> {
    if s == "incidents" then Some(IncidentsPage)
    else if s == "fleet" then Some(FleetPage)
    else if s == "operational-agents" then Some(OperationalAgentsPage)
    else if s == "campaigns" then Some(CampaignsPage)
    else if s == "approvals" then Some(ApprovalsPage)
    else None
  }

  function OriginNamed(s: Url): Option<Origin> {
    if s == "node" then Some(NodeLane)
    else if s == "agent" then Some(AgentLane)
    else if s == "agent_activation" then Some(ActivationLane)
    else None
  }

  const SLASH: Ascii := '/'

  /** The path a builder returns. */
  function PathOf(l: Link): Url {
    var tenant := "/t/" + Seg(l.tenant) + "/";
    match l
    case List(page, _) => tenant + PageName(page)
    case Object(page, _, id) => tenant + PageName(page) + "/" + Seg(id)
    case Item(_, origin, id) => tenant + PageName(ApprovalsPage) + "/" + OriginName(origin) + "/" + Seg(id)
  }

  /** The segments of the page's route pattern, filled in. */
  function Segments(l: Link): seq<Url> {
    ["", "t", Seg(l.tenant)] + Tail(l)
  }

  /** Non-empty ids; approval items are addressed by their lane, never directly. */
  predicate Buildable(l: Link) {
    l.tenant != [] && (l.List? || l.id != []) && (l.Object? ==> !l.page.ApprovalsPage?)
  }

  predicate Delimiter(c: char) {
    c == '/' || c == '?' || c == '#' || c == '&' || c == '=' || c == '+'
  }

  predicate Plain(s: Url) {
    forall i :: 0 <= i < |s| ==> !Delimiter(s[i])
  }

  lemma PageNameIsPlain(p: Page)
    ensures Plain(PageName(p))
  {
  }

  lemma OriginNameIsPlain(o: Origin)
    ensures Plain(OriginName(o)) && Plain("") && Plain("t")
  {
  }

  lemma NamesAreDistinct(p: Page, o: Origin)
    ensures PageNamed(PageName(p)) == Some(p) && OriginNamed(OriginName(o)) == Some(o)
  {
    assert |"operational-agents"| == 18 && |"fleet"| == 5;
    assert "incidents"[0] == 'i' && "campaigns"[0] == 'c' && "approvals"[0] == 'a';
    assert |"node"| == 4 && |"agent"| == 5;
  }

  lemma SegIsPlain(bs: Bytes)
    ensures Plain(Seg(bs))
  {
    SegChars(bs);
    forall i | 0 <= i < |Seg(bs)| ensures !Delimiter(Seg(bs)[i]) {
      assert Seg(bs)[i] in Seg(bs);
    }
  }

  lemma SegmentsArePlain(l: Link)
    ensures forall i :: 0 <= i < |Segments(l)| ==> Plain(Segments(l)[i])
  {
    SegIsPlain(l.tenant);
    PageNameIsPlain(if l.Item? then ApprovalsPage else l.page);
    OriginNameIsPlain(if l.Item? then l.origin else NodeLane);
    if !l.List? {
      SegIsPlain(l.id);
    }
    var front := ["", "t", Seg(l.tenant)];
    assert forall i :: 0 <= i < |front| ==> Plain(front[i]);
    assert forall i :: 0 <= i < |Tail(l)| ==> Plain(Tail(l)[i]);
  }

  lemma JoinStep(s: Url, rest: seq<Url>)
    requires |rest| > 0
    ensures Join([s] + rest, SLASH) == s + "/" + Join(rest, SLASH)
  {
    assert ([s] + rest)[1..] == rest;
  }

  /** The segments after the tenant. */
  function Tail(l: Link): seq<Url> {
    match l
    case List(page, _) => [PageName(page)]
    case Object(page, _, id) => [PageName(page), Seg(id)]
    case Item(_, origin, id) => [PageName(ApprovalsPage), OriginName(origin), Seg(id)]
  }

  lemma JoinTwo(a: Url, b: Url)
    ensures Join([a, b], SLASH) == a + "/" + b
  {
    assert [a, b][1..] == [b];
  }

  lemma JoinThree(a: Url, b: Url, c: Url)
    ensures Join([a, b, c], SLASH) == a + "/" + (b + "/" + c)
  {
    assert [a, b, c][1..] == [b, c];
    JoinTwo(b, c);
  }

  lemma Associate(prefix: Url, a: Url, b: Url, c: Url)
    ensures prefix + a + "/" + b == prefix + (a + "/" + b)
    ensures prefix + a + "/" + b + "/" + c == prefix + (a + "/" + (b + "/" + c))
  {
  }

  lemma TailIsJoin(l: Link)
    ensures PathOf(l) == "/t/" + Seg(l.tenant) + "/" + Join(Tail(l), SLASH)
  {
    var prefix: Url := "/t/" + Seg(l.tenant) + "/";
    match l
    case List(page, _) =>
    case Object(page, _, id) =>
      JoinTwo(PageName(page), Seg(id));
      Associate(prefix, PageName(page), Seg(id), []);
    case Item(_, origin, id) =>
      JoinThree(PageName(ApprovalsPage), OriginName(origin), Seg(id));
      Associate(prefix, PageName(ApprovalsPage), OriginName(origin), Seg(id));
  }

  lemma PathIsJoin(l: Link)
    ensures PathOf(l) == Join(Segments(l), SLASH)
  {
    TailIsJoin(l);
    var tail := Tail(l);
    JoinStep(Seg(l.tenant), tail);
    JoinStep("t", [Seg(l.tenant)] + tail);
    JoinStep("", ["t"] + ([Seg(l.tenant)] + tail));
    assert Segments(l) == [""] + (["t"] + ([Seg(l.tenant)] + tail));
    Regroup(Seg(l.tenant), Join(tail, SLASH));
  }

  lemma Regroup(tenant: Url, rest: Url)
    ensures "" + "/" + ("t" + "/" + (tenant + "/" + rest)) == "/t/" + tenant + "/" + rest
  {
  }

  /** The path splits into exactly the segments of the page's pattern. */
  lemma PathSplits(l: Link)
    ensures Split(PathOf(l), SLASH) == Segments(l)
  {
    PathIsJoin(l);
    SegmentsArePlain(l);
    assert Delimiter(SLASH);
    SplitJoinRoundTrip(Segments(l), SLASH);
  }

  /** Trailing slashes do not count in matching. */
  function WithoutTrailing(segments: seq<Url>): seq<Url> {
    if segments != [] && segments[|segments| - 1] == [] then WithoutTrailing(segments[..|segments| - 1]) else segments
  }

  function ReadSegments(s: seq<Url>): Option<Link> {
    if |s| < 4 || |s| > 6 || s[0] != "" || s[1] != "t" || s[2] == "" || PathDecode(s[2]).None? then None
    else
      var tenant, page, last := PathDecode(s[2]).value, PageNamed(s[3]), PathDecode(s[|s| - 1]);
      if page.None? then None
      else if |s| == 4 then Some(List(page.value, tenant))
      else if last.None? then None
      else if |s| == 5 && !page.value.ApprovalsPage? then Some(Object(page.value, tenant, last.value))
      else if |s| == 6 && page.value.ApprovalsPage? && OriginNamed(s[4]).Some? then
        Some(Item(tenant, OriginNamed(s[4]).value, last.value))
      else None
  }

  /** What a path addresses, by the route patterns: ids are whole segments, percent-decoded. */
  function ReadPath(path: Url): Option<Link> {
    ReadSegments(WithoutTrailing(Split(path, SLASH)))
  }

  lemma TrailingOf(l: Link)
    ensures WithoutTrailing(Segments(l)) == if l.List? || l.id != [] then Segments(l) else Segments(l)[..|Segments(l)| - 1]
  {
    var s := Segments(l);
    assert s[|s| - 1] == Tail(l)[|Tail(l)| - 1];
    if !l.List? {
      SegChars(l.id);
      assert s[..|s| - 1][|s| - 2] == Tail(l)[|Tail(l)| - 2];
    }
  }

  lemma SegmentsOf(l: Link)
    ensures var s := Segments(l);
            && s[2] == Seg(l.tenant) && s[3] == Tail(l)[0] && s[|s| - 1] == Tail(l)[|Tail(l)| - 1]
            && (Seg(l.tenant) == [] <==> l.tenant == []) && PathDecode(Seg(l.tenant)) == Some(l.tenant)
            && (!l.List? ==> PathDecode(s[|s| - 1]) == Some(l.id))
  {
    PathRoundTrip(l.tenant);
    SegChars(l.tenant);
    if !l.List? {
      PathRoundTrip(l.id);
    }
  }

  lemma ReadSegmentsIff(l: Link)
    ensures l.List? || l.id != [] ==> (ReadSegments(Segments(l)) == Some(l) <==> Buildable(l))
  {
    SegmentsOf(l);
    NamesAreDistinct(if l.Item? then ApprovalsPage else l.page, if l.Item? then l.origin else NodeLane);
  }

  /** Without its last segment an object's path addresses something else. */
  lemma ShortSegmentsDiffer(l: Link)
    ensures !l.List? ==> ReadSegments(Segments(l)[..|Segments(l)| - 1]) != Some(l)
  {
    SegmentsOf(l);
  }

  /** The address is read back exactly from the path, for precisely the links with non-empty ids. */
  lemma ReadPathOfIff(l: Link)
    ensures ReadPath(PathOf(l)) == Some(l) <==> Buildable(l)
  {
    PathSplits(l);
    TrailingOf(l);
    ReadSegmentsIff(l);
    ShortSegmentsDiffer(l);
  }

  // ---- query strings --------------------------------------------------------------------------

  /** A query value; a number as its printed text. */
  datatype Value = Content(text: Bytes) | Printed(digits: Bytes) | Null | Undefined

  datatype Entry = Entry(key: Bytes, value: Value)

  datatype Pair = Pair(name: Bytes, value: Bytes)

  predicate Dropped(v: Value) {
    v.Null? || v.Undefined? || v == Content([])
  }

  function Shown(v: Value): Bytes
    requires !Dropped(v)
  {
    if v.Content? then v.text else v.digits
  }

  /** The entries that are not null, undefined or empty, in order. */
  function Remaining(q: seq<Entry>): seq<Pair> {
    if q == [] then []
    else
      var init, e := Remaining(q[..|q| - 1]), q[|q| - 1];
      if Dropped(e.value) then init else init + [Pair(e.key, Shown(e.value))]
  }

  /** The keys of an object are distinct. */
  predicate DistinctKeys(q: seq<Entry>) {
    forall i, j :: 0 <= i < j < |q| ==> q[i].key != q[j].key
  }

  function FormByte(b: byte): Url {
    if b == 32 then "+" else if b < 128 && KeptInForm(b as char) then [b as char] else Escape(b)
  }

  function FormText(bs: Bytes): Url {
    if bs == [] then [] else FormByte(bs[0]) + FormText(bs[1..])
  }

  function KeyValue(name: Url, value: Url): (r: Url)
    ensures forall c :: c in r <==> c in name || c == EQUALS || c in value
  {
    name + [EQUALS] + value
  }

  function FormPair(p: Pair): Url {
    KeyValue(FormText(p.name), FormText(p.value))
  }

  const AMP: Ascii := '&'
  const EQUALS: Ascii := '='

  /** `URLSearchParams.toString()`. */
  function Serialize(params: seq<Pair>): Url {
    Join(seq(|params|, i requires 0 <= i < |params| => FormPair(params[i])), AMP)
  }

  /** `URLSearchParams.set`: the first pair of the name is replaced and the others go, or one is added. */
  function Set(params: seq<Pair>, name: Bytes, value: Bytes): seq<Pair> {
    if params == [] then [Pair(name, value)]
    else if params[0].name == name then [Pair(name, value)] + Without(params[1..], name)
    else [params[0]] + Set(params[1..], name, value)
  }

  function Without(params: seq<Pair>, name: Bytes): seq<Pair> {
    if params == [] then []
    else if params[0].name == name then Without(params[1..], name)
    else [params[0]] + Without(params[1..], name)
  }

  lemma {:induction false} SetNew(params: seq<Pair>, name: Bytes, value: Bytes)
    requires forall i :: 0 <= i < |params| ==> params[i].name != name
    ensures Set(params, name, value) == params + [Pair(name, value)]
  {
    if params != [] {
      SetNew(params[1..], name, value);
      assert [params[0]] + params[1..] == params;
    }
  }

  /** Setting a name leaves it once, with the value, and every other pair where it was. */
  lemma {:induction false} SetMeaning(params: seq<Pair>, name: Bytes, value: Bytes)
    ensures Without(Set(params, name, value), name) == Without(params, name)
    ensures forall p :: p in Set(params, name, value) && p.name == name <==> p == Pair(name, value)
    ensures |Set(params, name, value)| == |Without(params, name)| + 1
    ensures forall p :: p in Without(params, name) <==> p in params && p.name != name
  {
    if params != [] {
      SetMeaning(params[1..], name, value);
      assert params == [params[0]] + params[1..];
      var rest := Set(params[1..], name, value);
      assert ([params[0]] + rest)[1..] == rest;
      assert ([Pair(name, value)] + Without(params[1..], name))[1..] == Without(params[1..], name);
      WithoutTwice(params[1..], name);
    }
  }

  lemma {:induction false} WithoutTwice(params: seq<Pair>, name: Bytes)
    ensures Without(Without(params, name), name) == Without(params, name)
  {
    if params != [] {
      WithoutTwice(params[1..], name);
      if params[0].name != name {
        assert ([params[0]] + Without(params[1..], name))[1..] == Without(params[1..], name);
      }
    }
  }

  lemma {:induction false} RemainingConcat(a: seq<Entry>, b: seq<Entry>)
    ensures Remaining(a + b) == Remaining(a) + Remaining(b)
  {
    if b == [] {
      assert a + b == a;
    } else {
      assert (a + b)[..|a + b| - 1] == a + b[..|b| - 1];
      RemainingConcat(a, b[..|b| - 1]);
    }
  }

  /** What an entry adds to the query, wherever it stands: nothing when it is null, undefined or an empty
      text, and otherwise its key with its text. */
  lemma EntryAdds(a: seq<Entry>, e: Entry, b: seq<Entry>)
    ensures Remaining(a + [e] + b) == Remaining(a) + Remaining([e]) + Remaining(b)
    ensures e.value == Null || e.value == Undefined || e.value == Content([]) ==> Remaining([e]) == []
    ensures forall text :: e.value == Content(text) && text != [] ==> Remaining([e]) == [Pair(e.key, text)]
    ensures forall digits :: e.value == Printed(digits) ==> Remaining([e]) == [Pair(e.key, digits)]
  {
    RemainingConcat(a + [e], b);
    RemainingConcat(a, [e]);
    assert [e][..0] == [];
  }

  lemma {:induction false} RemainingKeys(q: seq<Entry>)
    ensures forall p :: p in Remaining(q) ==> exists i :: 0 <= i < |q| && q[i].key == p.name
  {
    if q != [] {
      var n := |q| - 1;
      RemainingKeys(q[..n]);
      forall p | p in Remaining(q) ensures exists i :: 0 <= i < |q| && q[i].key == p.name {
        if p in Remaining(q[..n]) {
          var i :| 0 <= i < n && q[..n][i].key == p.name;
          assert q[i].key == p.name;
        } else {
          assert q[n].key == p.name;
        }
      }
    }
  }

  function QueryOf(q: seq<Entry>): Url {
    if Serialize(Remaining(q)) == [] then [] else "?" + Serialize(Remaining(q))
  }

  /** `queryString` as written: one pass over the entries, setting the ones that are kept. */
  method QueryString(q: Option<seq<Entry>>) returns (s: Url)
    requires q.Some? ==> DistinctKeys(q.value)
    ensures s == if q.Some? then QueryOf(q.value) else []
  {
    if q.None? {
      return [];
    }
    var entries := q.value;
    var params: seq<Pair> := [];
    for i := 0 to |entries|
      invariant params == Remaining(entries[..i])
    {
      assert entries[..i + 1][..i] == entries[..i];
      if Dropped(entries[i].value) {
        continue;
      }
      RemainingKeys(entries[..i]);
      SetNew(params, entries[i].key, Shown(entries[i].value));
      params := Set(params, entries[i].key, Shown(entries[i].value));
    }
    assert entries[..|entries|] == entries;
    var text := Serialize(params);
    return if text != [] then "?" + text else [];
  }

  /** Form decoding: plus is a space, a stray percent sign stays. */
  function FormDecode(s: Url): Bytes {
    if s == [] then []
    else if Unescape(s).Some? then [Unescape(s).value] + FormDecode(s[3..])
    else [if s[0] == '+' then 32 else s[0] as byte] + FormDecode(s[1..])
  }

  lemma {:induction false} FormRoundTrip(bs: Bytes)
    ensures FormDecode(FormText(bs)) == bs
    ensures forall c :: c in FormText(bs) ==> KeptInForm(c) || c == '%' || c == '+'
  {
    if bs != [] {
      FormRoundTrip(bs[1..]);
      var b, rest := bs[0], FormText(bs[1..]);
      assert [b] + bs[1..] == bs;
      if b == 32 || (b < 128 && KeptInForm(b as char)) {
        assert (FormByte(b) + rest)[1..] == rest;
      } else {
        UnescapeEscape(b, rest);
      }
    }
  }

  /** A piece cut at its first equals sign, or the whole piece and nothing. */
  function ParsePair(piece: Url): Pair {
    var parts := Split(piece, EQUALS);
    Pair(FormDecode(parts[0]), FormDecode(Join(parts[1..], EQUALS)))
  }

  function ParsePieces(pieces: seq<Url>): seq<Pair> {
    if pieces == [] then []
    else (if pieces[0] == [] then [] else [ParsePair(pieces[0])]) + ParsePieces(pieces[1..])
  }

  /** The `application/x-www-form-urlencoded` parser. */
  function ParseQuery(s: Url): seq<Pair> {
    ParsePieces(Split(if s != [] && s[0] == '?' then s[1..] else s, AMP))
  }

  lemma CutAtEquals(name: Url, value: Url)
    requires EQUALS !in name && EQUALS !in value
    ensures Split(KeyValue(name, value), EQUALS) == [name, value]
  {
    SplitAtSeparator(name, value, EQUALS);
    SplitWithoutSeparator(name, EQUALS);
    SplitWithoutSeparator(value, EQUALS);
    assert [name] + [value] == [name, value];
  }

  lemma FormTextChars(bs: Bytes)
    ensures AMP !in FormText(bs) && MARK !in FormText(bs) && EQUALS !in FormText(bs)
  {
    FormRoundTrip(bs);
  }

  lemma FormPairIsPlain(p: Pair)
    ensures FormPair(p) != [] && AMP !in FormPair(p) && MARK !in FormPair(p)
  {
    FormTextChars(p.name);
    FormTextChars(p.value);
    assert EQUALS in FormPair(p);
  }

  lemma ParseFormPair(p: Pair)
    ensures ParsePair(FormPair(p)) == p
  {
    var name: Url, value: Url := FormText(p.name), FormText(p.value);
    FormTextChars(p.name);
    FormTextChars(p.value);
    CutAtEquals(name, value);
    assert [name, value][1..] == [value];
    FormRoundTrip(p.name);
    FormRoundTrip(p.value);
  }

  lemma {:induction false} ParseForms(params: seq<Pair>, forms: seq<Url>)
    requires |forms| == |params| && forall i :: 0 <= i < |params| ==> forms[i] == FormPair(params[i])
    ensures ParsePieces(forms) == params
  {
    if params != [] {
      ParseFormPair(params[0]);
      ParseForms(params[1..], forms[1..]);
    }
  }

  lemma ParseSerialized(params: seq<Pair>)
    ensures ParsePieces(Split(Serialize(params), AMP)) == params
    ensures Serialize(params) == [] <==> params == []
  {
    var forms := seq(|params|, i requires 0 <= i < |params| => FormPair(params[i]));
    forall i | 0 <= i < |params| ensures AMP !in forms[i] && forms[i] != [] {
      FormPairIsPlain(params[i]);
    }
    if params == [] {
      assert Split(Serialize(params), AMP) == [[]];
      assert ParsePieces([[]][1..]) == [];
    } else {
      SplitJoinRoundTrip(forms, AMP);
      ParseForms(params, forms);
      assert Join(forms, AMP) != [] by {
        if |forms| == 1 {
          assert Join(forms, AMP) == forms[0];
        }
      }
    }
  }

  /** Parsing the query string gives back the entries with exactly the null, undefined and empty
      ones dropped. */
  lemma QueryRoundTrip(q: seq<Entry>)
    ensures ParseQuery(QueryOf(q)) == Remaining(q)
  {
    ParseSerialized(Remaining(q));
  }

  // ---- whole links ----------------------------------------------------------------------------

  const MARK: Ascii := '?'

  function UrlOf(l: Link, q: seq<Entry>): Url {
    PathOf(l) + QueryOf(q)
  }

  /** The path and the query of a URL, cut at the first question mark. */
  function ReadUrl(url: Url): (Option<Link>, seq<Pair>) {
    var parts := Split(url, MARK);
    (ReadPath(parts[0]), ParseQuery(Join(parts[1..], MARK)))
  }

  lemma PathIsPlain(l: Link)
    ensures MARK !in PathOf(l)
  {
    PathSplits(l);
    SegmentsArePlain(l);
    SplitPieces(PathOf(l), SLASH);
    assert Delimiter(MARK);
    forall i | 0 <= i < |Segments(l)| ensures MARK !in Segments(l)[i] {
      assert Plain(Segments(l)[i]);
    }
    JoinWithout(Segments(l), MARK);
  }

  lemma {:induction false} JoinWithout(parts: seq<Url>, c: Ascii)
    requires FreeOf(parts, c) && c != SLASH
    ensures c !in Join(parts, SLASH)
  {
    if |parts| > 1 {
      JoinWithout(parts[1..], c);
    }
  }

  lemma {:induction false} SerializedHasNoMark(params: seq<Pair>)
    ensures MARK !in Serialize(params)
  {
    var forms := seq(|params|, i requires 0 <= i < |params| => FormPair(params[i]));
    forall i | 0 <= i < |params| ensures MARK !in forms[i] {
      FormPairIsPlain(params[i]);
    }
    JoinFormsWithout(forms);
  }

  lemma {:induction false} JoinFormsWithout(parts: seq<Url>)
    requires FreeOf(parts, MARK)
    ensures MARK !in Join(parts, AMP)
  {
    if |parts| > 1 {
      JoinFormsWithout(parts[1..]);
    }
  }

  lemma CutAtMark(path: Url, text: Url)
    requires MARK !in path && MARK !in text
    ensures Split(path, MARK) == [path]
    ensures Split(path + ([MARK] + text), MARK) == [path, text]
  {
    SplitWithoutSeparator(path, MARK);
    SplitWithoutSeparator(text, MARK);
    assert path + ([MARK] + text) == path + [MARK] + text;
    SplitAtSeparator(path, text, MARK);
    assert [path] + [text] == [path, text];
  }

  lemma JoinOfRest(path: Url, text: Url)
    ensures Join([path][1..], MARK) == [] && Join([path, text][1..], MARK) == text
  {
    assert [path][1..] == [] && [path, text][1..] == [text];
  }

  /** A whole link is read back to the object it addresses and the query entries it kept. */
  lemma UrlRoundTrip(l: Link, q: seq<Entry>)
    requires Buildable(l)
    ensures ReadUrl(UrlOf(l, q)) == (Some(l), Remaining(q))
  {
    var path: Url, text: Url := PathOf(l), Serialize(Remaining(q));
    PathIsPlain(l);
    SerializedHasNoMark(Remaining(q));
    CutAtMark(path, text);
    JoinOfRest(path, text);
    ReadPathOfIff(l);
    ParseSerialized(Remaining(q));
    if text == [] {
      assert UrlOf(l, q) == path;
      NothingParses(Remaining(q));
    } else {
      assert UrlOf(l, q) == path + ([MARK] + text);
      UnmarkedParses(Remaining(q));
    }
  }

  lemma NothingParses(params: seq<Pair>)
    requires Serialize(params) == []
    ensures ParseQuery([]) == params
  {
    ParseSerialized(params);
  }

  lemma UnmarkedParses(params: seq<Pair>)
    requires Serialize(params) != []
    ensures ParseQuery(Serialize(params)) == params
  {
    SerializedHasNoMark(params);
    ParseSerialized(params);
    assert Serialize(params)[0] in Serialize(params);
  }

  /** Different objects, or different kept entries, never share a URL. */
  lemma DistinctUrls(l: Link, q: seq<Entry>, l2: Link, q2: seq<Entry>)
    requires Buildable(l) && Buildable(l2)
    ensures UrlOf(l, q) == UrlOf(l2, q2) ==> l == l2 && Remaining(q) == Remaining(q2)
  {
    UrlRoundTrip(l, q);
    UrlRoundTrip(l2, q2);
  }
}
