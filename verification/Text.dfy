/** Splitting on a separator and joining with one, over any element type.

    Python's `str.split(sep)` / `sep.join(parts)` and JavaScript's `split` agree on this
    definition; the log cursor, the operation identity, the query string and the URL paths
    all rest on it. */
module Text {

  /** The pieces between the separators; a text without a separator is its own single piece. */
  function Split<T(==)>(s: seq<T>, sep: T): (pieces: seq<seq<T>>)
    ensures |pieces| >= 1
  {
    if s == [] then [[]]
    else
      var rest := Split(s[1..], sep);
      if s[0] == sep then [[]] + rest else [[s[0]] + rest[0]] + rest[1..]
  }

  function Join<T>(parts: seq<seq<T>>, sep: T): seq<T>
  {
    if |parts| == 0 then []
    else if |parts| == 1 then parts[0]
    else parts[0] + [sep] + Join(parts[1..], sep)
  }

  /** The pieces of every part, in order. */
  function SplitEach<T(==)>(parts: seq<seq<T>>, sep: T): seq<seq<T>>
  {
    if |parts| == 0 then [] else Split(parts[0], sep) + SplitEach(parts[1..], sep)
  }

  predicate FreeOf<T(==)>(parts: seq<seq<T>>, sep: T)
  {
    forall i :: 0 <= i < |parts| ==> sep !in parts[i]
  }

  lemma {:induction false} SplitWithoutSeparator<T>(s: seq<T>, sep: T)
    requires sep !in s
    ensures Split(s, sep) == [s]
  {
    if s == [] {
    } else {
      SplitWithoutSeparator(s[1..], sep);
      assert [s[0]] + s[1..] == s;
    }
  }

  /** Two runs of pieces, with the last of one and the first of the other made into one. */
  function Glue<T>(p: seq<seq<T>>, q: seq<seq<T>>): seq<seq<T>>
    requires |p| >= 1 && |q| >= 1
  {
    p[..|p| - 1] + [p[|p| - 1] + q[0]] + q[1..]
  }

  lemma GlueCons<T>(t: seq<seq<T>>, q: seq<seq<T>>, c: T)
    requires |t| >= 1 && |q| >= 1
    ensures Glue([[]] + t, q) == [[]] + Glue(t, q)
    ensures Glue([[c] + t[0]] + t[1..], q) == [[c] + Glue(t, q)[0]] + Glue(t, q)[1..]
  {
    var last := t[|t| - 1] + q[0];
    assert ([[]] + t)[..|t|] == [[]] + t[..|t| - 1];
    if |t| == 1 {
      assert ([c] + t[0]) + q[0] == [c] + last;
    } else {
      var p := [[c] + t[0]] + t[1..];
      assert p[..|p| - 1] == [[c] + t[0]] + t[1..|t| - 1];
      assert Glue(t, q)[1..] == t[1..|t| - 1] + [last] + q[1..];
    }
  }

  /** Concatenating two texts glues the last piece of one to the first piece of the other. */
  lemma {:induction false} SplitConcat<T>(a: seq<T>, b: seq<T>, sep: T)
    ensures Split(a + b, sep) == Glue(Split(a, sep), Split(b, sep))
  {
    var q := Split(b, sep);
    if a == [] {
      assert a + b == b;
      assert Split(a, sep)[0] + q[0] == q[0];
      assert Glue([[]], q) == q;
    } else {
      SplitConcat(a[1..], b, sep);
      assert (a + b)[1..] == a[1..] + b;
      GlueCons(Split(a[1..], sep), q, a[0]);
    }
  }

  /** A separator between two texts splits them apart, whatever they contain. */
  lemma SplitAtSeparator<T>(a: seq<T>, b: seq<T>, sep: T)
    ensures Split(a + [sep] + b, sep) == Split(a, sep) + Split(b, sep)
  {
    assert a + [sep] + b == a + ([sep] + b);
    SplitConcat(a, [sep] + b, sep);
    SplitLeadingSeparator(b, sep);
    GlueEmpty(Split(a, sep), Split(b, sep));
  }

  lemma SplitLeadingSeparator<T>(b: seq<T>, sep: T)
    ensures Split([sep] + b, sep) == [[]] + Split(b, sep)
  {
    assert ([sep] + b)[1..] == b;
  }

  /** Gluing onto an empty piece joins nothing. */
  lemma GlueEmpty<T>(p: seq<seq<T>>, q: seq<seq<T>>)
    requires |p| >= 1
    ensures Glue(p, [[]] + q) == p + q
  {
    assert ([[]] + q)[1..] == q;
    assert p[|p| - 1] + [] == p[|p| - 1];
    assert p[..|p| - 1] + [p[|p| - 1]] == p;
  }

  /** Splitting a join splits every part, with no condition on the parts. */
  lemma {:induction false} SplitOfJoin<T>(parts: seq<seq<T>>, sep: T)
    requires |parts| >= 1
    ensures Split(Join(parts, sep), sep) == SplitEach(parts, sep)
  {
    if |parts| == 1 {
      assert SplitEach(parts[1..], sep) == [];
    } else {
      SplitAtSeparator(parts[0], Join(parts[1..], sep), sep);
      SplitOfJoin(parts[1..], sep);
    }
  }

  lemma {:induction false} SplitEachOfFree<T>(parts: seq<seq<T>>, sep: T)
    requires FreeOf(parts, sep)
    ensures SplitEach(parts, sep) == parts
  {
    if |parts| > 0 {
      SplitWithoutSeparator(parts[0], sep);
      SplitEachOfFree(parts[1..], sep);
    }
  }

  /** The round trip: separator-free parts come back unchanged. */
  lemma SplitJoinRoundTrip<T>(parts: seq<seq<T>>, sep: T)
    requires |parts| >= 1 && FreeOf(parts, sep)
    ensures Split(Join(parts, sep), sep) == parts
  {
    SplitOfJoin(parts, sep);
    SplitEachOfFree(parts, sep);
  }

  /** No piece holds the separator, and joining the pieces gives the text back. */
  lemma {:induction false} SplitPieces<T>(s: seq<T>, sep: T)
    ensures FreeOf(Split(s, sep), sep)
    ensures Join(Split(s, sep), sep) == s
  {
    if s != [] {
      SplitPieces(s[1..], sep);
      var rest := Split(s[1..], sep);
      if s[0] == sep {
        assert Join([[]] + rest, sep) == [] + [sep] + Join(rest, sep);
      } else {
        var pieces := [[s[0]] + rest[0]] + rest[1..];
        assert pieces[1..] == rest[1..];
      }
      assert [s[0]] + s[1..] == s;
    }
  }

  /** Cutting a text keeps its first pieces and leaves a prefix of the next one. */
  lemma SplitOfPrefix<T>(s: seq<T>, n: nat, sep: T)
    requires n <= |s|
    ensures var cut, whole := Split(s[..n], sep), Split(s, sep);
            && |cut| <= |whole|
            && cut[..|cut| - 1] == whole[..|cut| - 1]
            && cut[|cut| - 1] <= whole[|cut| - 1]
  {
    assert s[..n] + s[n..] == s;
    SplitConcat(s[..n], s[n..], sep);
  }

  /** A member of a split is a member of the split of one of the parts. */
  lemma {:induction false} InSplitEach<T>(parts: seq<seq<T>>, sep: T, x: seq<T>)
    ensures x in SplitEach(parts, sep) <==> exists i :: 0 <= i < |parts| && x in Split(parts[i], sep)
  {
    if |parts| > 0 {
      InSplitEach(parts[1..], sep, x);
      if x in SplitEach(parts[1..], sep) {
        var i :| 0 <= i < |parts[1..]| && x in Split(parts[1..][i], sep);
        assert x in Split(parts[i + 1], sep);
      }
      if i :| 0 <= i < |parts| && x in Split(parts[i], sep) {
        if i > 0 {
          assert x in Split(parts[1..][i - 1], sep);
        }
      }
    }
  }

  // ---- whitespace ----------------------------------------------------------------------------

  /** ASCII whitespace, as `str.strip()` removes it. */
  predicate IsSpace(c: char) {
    c == ' ' || '\t' <= c <= '\r' || '\U{1C}' <= c <= '\U{1F}'
  }

  predicate Blank(s: string) {
    forall i :: 0 <= i < |s| ==> IsSpace(s[i])
  }

  function StripLeft(s: string): string {
    if s != "" && IsSpace(s[0]) then StripLeft(s[1..]) else s
  }

  function StripRight(s: string): string {
    if s != "" && IsSpace(s[|s| - 1]) then StripRight(s[..|s| - 1]) else s
  }

  function Strip(s: string): string {
    StripRight(StripLeft(s))
  }

  lemma {:induction false} StripLeftBlank(s: string)
    ensures StripLeft(s) == "" <==> Blank(s)
    ensures StripLeft(s) != "" ==> !IsSpace(StripLeft(s)[0])
  {
    if s != "" && IsSpace(s[0]) {
      StripLeftBlank(s[1..]);
      assert s == [s[0]] + s[1..];
    }
  }

  lemma {:induction false} StripRightKeepsFirst(s: string)
    requires s != "" && !IsSpace(s[0])
    ensures StripRight(s) != "" && StripRight(s)[0] == s[0] && !IsSpace(StripRight(s)[|StripRight(s)| - 1])
  {
    if IsSpace(s[|s| - 1]) {
      StripRightKeepsFirst(s[..|s| - 1]);
    }
  }

  /** Stripping leaves nothing of a blank text, and otherwise a text that starts and ends with
      something else than whitespace. */
  lemma StripTrims(s: string)
    ensures Strip(s) == "" <==> Blank(s)
    ensures !Blank(s) ==> !IsSpace(Strip(s)[0]) && !IsSpace(Strip(s)[|Strip(s)| - 1])
  {
    StripLeftBlank(s);
    if !Blank(s) {
      StripRightKeepsFirst(StripLeft(s));
    }
  }
}
