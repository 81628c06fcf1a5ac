/** The overlay stack: who owns the keyboard, and where focus goes back to. */
module Overlays {
  import opened Wrappers

  type Element = nat

  /** One open overlay: its element and what had focus when it opened. */
  datatype Opened = Opened(id: nat, el: Element, opener: Option<Element>)

  /** The module's stack, the overlays whose effects are active in opening order, the focused element,
      and the elements attached to the document. */
  datatype Page = Page(stack: seq<Element>, overlays: seq<Opened>, active: Option<Element>, connected: set<Element>)

  datatype Step =
    | Open(id: nat, el: Element, initialFocus: Option<Element>)
    | Close(id: nat)
    | Focus(target: Option<Element>)
    | Attach(node: Element)
    | Detach(node: Element)

  /** `lastIndexOf`; -1 when absent. */
  function LastIndexOf(s: seq<Element>, x: Element): (at: int)
    ensures -1 <= at < |s|
    ensures at >= 0 ==> s[at] == x && forall j :: at < j < |s| ==> s[j] != x
    ensures at < 0 ==> x !in s
  {
    if s == [] then -1 else if s[|s| - 1] == x then |s| - 1 else LastIndexOf(s[..|s| - 1], x)
  }

  function Splice(s: seq<Element>, at: nat): seq<Element>
    requires at < |s|
  {
    s[..at] + s[at + 1..]
  }

  /** Where the overlay stands among the open ones. */
  function Position(overlays: seq<Opened>, id: nat): (r: Option<nat>)
    ensures r.Some? ==> r.value < |overlays| && overlays[r.value].id == id
    ensures r.None? ==> forall i :: 0 <= i < |overlays| ==> overlays[i].id != id
  {
    if overlays == [] then None
    else if overlays[|overlays| - 1].id == id then Some(|overlays| - 1)
    else Position(overlays[..|overlays| - 1], id)
  }

  predicate Possible(p: Page, step: Step) {
    match step
    case Open(id, _, _) => Position(p.overlays, id).None?
    case Close(id) => Position(p.overlays, id).Some?
    case _ => true
  }

  function Unstacked(stack: seq<Element>, el: Element): seq<Element> {
    var at := LastIndexOf(stack, el);
    if at >= 0 then Splice(stack, at) else stack
  }

  function Restored(p: Page, opener: Option<Element>): Option<Element> {
    if opener.Some? && opener.value in p.connected then opener else p.active
  }

  function Next(p: Page, step: Step): Page
    requires Possible(p, step)
  {
    match step
    case Open(id, el, initial) =>
      p.(stack := p.stack + [el], overlays := p.overlays + [Opened(id, el, p.active)],
         active := if initial.Some? then initial else Some(el))
    case Close(id) =>
      var at := Position(p.overlays, id).value;
      var o := p.overlays[at];
      p.(stack := Unstacked(p.stack, o.el), overlays := p.overlays[..at] + p.overlays[at + 1..],
         active := Restored(p, o.opener))
    case Focus(target) => p.(active := target)
    case Attach(x) => p.(connected := p.connected + {x})
    case Detach(x) => p.(connected := p.connected - {x})
  }

  predicate IsTop(stack: seq<Element>, el: Element) {
    |stack| > 0 && stack[|stack| - 1] == el
  }

  /** The module: one shared stack; each hook's cleanup closes over its own element and opener. */
  class Document {
    var stack: seq<Element>
    var active: Option<Element>
    var connected: set<Element>
    ghost var overlays: seq<Opened>

    ghost function View(): Page
      reads this
    {
      Page(stack, overlays, active, connected)
    }

    constructor (active: Option<Element>, connected: set<Element>)
      ensures View() == Page([], [], active, connected)
    {
      stack, overlays, this.active, this.connected := [], [], active, connected;
    }

    /** The effect of `useOverlay`; the opener is what its cleanup will need. */
    method OpenOverlay(ghost id: nat, el: Element, initialFocus: Option<Element>) returns (opener: Option<Element>)
      requires Possible(View(), Open(id, el, initialFocus))
      modifies this
      ensures View() == Next(old(View()), Open(id, el, initialFocus))
      ensures opener == old(active) && overlays[|overlays| - 1] == Opened(id, el, opener)
    {
      opener := active;
      stack := stack + [el];
      overlays := overlays + [Opened(id, el, opener)];
      active := if initialFocus.Some? then initialFocus else Some(el);
    }

    /** The effect's cleanup. */
    method CloseOverlay(ghost id: nat, el: Element, opener: Option<Element>)
      requires Possible(View(), Close(id))
      requires var o := overlays[Position(overlays, id).value]; o.el == el && o.opener == opener
      modifies this
      ensures View() == Next(old(View()), Close(id))
    {
      var at := LastIndexOf(stack, el);
      if at >= 0 {
        stack := Splice(stack, at);
      }
      if opener.Some? && opener.value in connected {
        active := opener;
      }
      ghost var position := Position(overlays, id).value;
      overlays := overlays[..position] + overlays[position + 1..];
    }

    method IsTopOverlay(el: Element) returns (top: bool)
      ensures top == IsTop(stack, el)
    {
      return |stack| > 0 && stack[|stack| - 1] == el;
    }
  }

  // ---- the stack ------------------------------------------------------------------------------

  function Elements(overlays: seq<Opened>): seq<Element> {
    seq(|overlays|, i requires 0 <= i < |overlays| => overlays[i].el)
  }

  /** The stack shows exactly the open overlays in opening order. */
  predicate Mirrors(p: Page) {
    p.stack == Elements(p.overlays)
  }

  ghost predicate Reaches(p: Page, steps: seq<Step>, q: Page)
    decreases |steps|
  {
    if steps == [] then p == q
    else Possible(p, steps[0]) && Reaches(Next(p, steps[0]), steps[1..], q)
  }

  /** Taking out one of two entries leaves the same exactly when everything between them is alike. */
  lemma SpliceAlikeIff(s: seq<Element>, i: nat, j: nat)
    requires i <= j < |s|
    ensures Splice(s, i) == Splice(s, j) <==> forall k :: i <= k <= j ==> s[k] == s[i]
  {
    var a, b := Splice(s, i), Splice(s, j);
    assert forall k :: i <= k < j ==> a[k] == s[k + 1] && b[k] == s[k];
    if a == b {
      forall k | i <= k <= j ensures s[k] == s[i] {
        AllAlike(s, i, j, k);
      }
    }
    if forall k :: i <= k <= j ==> s[k] == s[i] {
      forall k | 0 <= k < |a| ensures a[k] == b[k] {
      }
    }
  }

  lemma {:induction false} AllAlike(s: seq<Element>, i: nat, j: nat, k: nat)
    requires i <= k <= j < |s| && forall m :: i <= m < j ==> s[m] == s[m + 1]
    ensures s[k] == s[i]
    decreases k
  {
    if k > i {
      AllAlike(s, i, j, k - 1);
      assert s[k - 1] == s[k - 1 + 1];
    }
  }

  /** Closing an overlay keeps the stack right exactly when nothing but its own element was opened
      from it up to the last opening of that element. */
  lemma CloseMirrorsIff(p: Page, id: nat)
    requires Mirrors(p) && Possible(p, Close(id))
    ensures var at := Position(p.overlays, id).value;
            var last := LastIndexOf(p.stack, p.overlays[at].el);
            at <= last < |p.overlays| &&
            (Mirrors(Next(p, Close(id))) <==> forall j :: at <= j <= last ==> p.overlays[j].el == p.overlays[at].el)
  {
    var at := Position(p.overlays, id).value;
    assert p.stack[at] == p.overlays[at].el;
    var last := LastIndexOf(p.stack, p.overlays[at].el);
    var next := Next(p, Close(id));
    assert Elements(next.overlays) == Splice(p.stack, at);
    SpliceAlikeIff(p.stack, at, last);
    assert forall j :: 0 <= j < |p.overlays| ==> p.stack[j] == p.overlays[j].el;
  }

  /** No element is open on both sides of a different one. */
  predicate Unsplit(overlays: seq<Opened>) {
    forall i, j, k :: 0 <= i < j < k < |overlays| && overlays[i].el == overlays[k].el ==> overlays[j].el == overlays[i].el
  }

  /** No two open overlays share an id. */
  predicate DistinctIds(overlays: seq<Opened>) {
    forall i, j :: 0 <= i < j < |overlays| ==> overlays[i].id != overlays[j].id
  }

  predicate OnlyCloses(steps: seq<Step>) {
    forall i :: 0 <= i < |steps| ==> steps[i].Close?
  }

  lemma RemovedUnsplit(overlays: seq<Opened>, at: nat)
    requires Unsplit(overlays) && at < |overlays|
    ensures Unsplit(overlays[..at] + overlays[at + 1..])
  {
    var left := overlays[..at] + overlays[at + 1..];
    forall i, j, k | 0 <= i < j < k < |left| && left[i].el == left[k].el
      ensures left[j].el == left[i].el
    {
      var i', j', k' := if i < at then i else i + 1, if j < at then j else j + 1, if k < at then k else k + 1;
      assert left[i] == overlays[i'] && left[j] == overlays[j'] && left[k] == overlays[k'];
    }
  }

  lemma UnsplitBetween(overlays: seq<Opened>, i: nat, k: nat)
    requires Unsplit(overlays) && i <= k < |overlays| && overlays[i].el == overlays[k].el
    ensures forall j :: i <= j <= k ==> overlays[j].el == overlays[i].el
  {
  }

  lemma UnsplitCloseMirrors(p: Page, id: nat)
    requires Mirrors(p) && Unsplit(p.overlays) && Possible(p, Close(id))
    ensures Mirrors(Next(p, Close(id))) && Unsplit(Next(p, Close(id)).overlays)
  {
    var at := Position(p.overlays, id).value;
    var last := LastIndexOf(p.stack, p.overlays[at].el);
    CloseMirrorsIff(p, id);
    assert p.stack[last] == p.overlays[last].el;
    UnsplitBetween(p.overlays, at, last);
    RemovedUnsplit(p.overlays, at);
  }

  lemma {:induction false} UnsplitClosesMirror(p: Page, steps: seq<Step>, q: Page)
    requires Mirrors(p) && Unsplit(p.overlays) && OnlyCloses(steps) && Reaches(p, steps, q)
    ensures Mirrors(q)
    decreases |steps|
  {
    if steps != [] {
      UnsplitCloseMirrors(p, steps[0].id);
      UnsplitClosesMirror(Next(p, steps[0]), steps[1..], q);
    }
  }

  lemma {:induction false} PositionOf(overlays: seq<Opened>, i: nat)
    requires DistinctIds(overlays) && i < |overlays|
    ensures Position(overlays, overlays[i].id) == Some(i)
  {
    var n := |overlays| - 1;
    if i < n {
      assert overlays[..n][i] == overlays[i] && overlays[n].id != overlays[i].id;
      PositionOf(overlays[..n], i);
    }
  }

  lemma SplitCloseMisplaces(p: Page, i: nat, j: nat, k: nat)
    requires Mirrors(p) && DistinctIds(p.overlays) && i < j < k < |p.overlays|
    requires p.overlays[i].el == p.overlays[k].el && p.overlays[j].el != p.overlays[i].el
    ensures Possible(p, Close(p.overlays[i].id)) && !Mirrors(Next(p, Close(p.overlays[i].id)))
  {
    PositionOf(p.overlays, i);
    CloseMirrorsIff(p, p.overlays[i].id);
    assert p.stack[k] == p.overlays[i].el;
  }

  /** Whatever is closed, in whatever order, the stack stays right. */
  ghost predicate ClosesMirror(p: Page) {
    forall steps, q :: OnlyCloses(steps) && Reaches(p, steps, q) ==> Mirrors(q)
  }

  lemma OneClose(p: Page, id: nat)
    requires Possible(p, Close(id)) && ClosesMirror(p)
    ensures Mirrors(Next(p, Close(id)))
  {
    var steps := [Close(id)];
    assert Reaches(Next(p, steps[0]), steps[1..], Next(p, steps[0]));
    assert OnlyCloses(steps) && Reaches(p, steps, Next(p, steps[0]));
  }

  lemma SplitBreaks(p: Page, i: nat, j: nat, k: nat)
    requires Mirrors(p) && DistinctIds(p.overlays) && i < j < k < |p.overlays|
    requires p.overlays[i].el == p.overlays[k].el && p.overlays[j].el != p.overlays[i].el
    ensures !ClosesMirror(p)
  {
    SplitCloseMisplaces(p, i, j, k);
    if ClosesMirror(p) {
      OneClose(p, p.overlays[i].id);
    }
  }

  /** Every order of closes keeps the stack right exactly when no element is open on both sides of a
      different one. */
  lemma ClosesMirrorIff(p: Page)
    requires Mirrors(p) && DistinctIds(p.overlays)
    ensures ClosesMirror(p) <==> Unsplit(p.overlays)
  {
    if Unsplit(p.overlays) {
      forall steps, q | OnlyCloses(steps) && Reaches(p, steps, q) ensures Mirrors(q) {
        UnsplitClosesMirror(p, steps, q);
      }
    } else {
      var i, j, k :| 0 <= i < j < k < |p.overlays| && p.overlays[i].el == p.overlays[k].el && p.overlays[j].el != p.overlays[i].el;
      SplitBreaks(p, i, j, k);
    }
  }

  /** Along the run no open puts an element on the other side of a different one. */
  ghost predicate NeverSplit(p: Page, steps: seq<Step>)
    decreases |steps|
  {
    Unsplit(p.overlays) && (steps != [] && Possible(p, steps[0]) ==> NeverSplit(Next(p, steps[0]), steps[1..]))
  }

  /** However overlays open and close, the stack is exactly the open ones in opening order. */
  lemma {:induction false} StackIsOpened(p: Page, steps: seq<Step>, q: Page)
    requires Mirrors(p) && NeverSplit(p, steps) && Reaches(p, steps, q)
    ensures Mirrors(q) && Unsplit(q.overlays)
    decreases |steps|
  {
    if steps != [] {
      if steps[0].Close? {
        UnsplitCloseMirrors(p, steps[0].id);
      }
      StackIsOpened(Next(p, steps[0]), steps[1..], q);
    }
  }

  /** The overlay at this place answers keys. */
  predicate Answers(p: Page, i: nat)
    requires i < |p.overlays|
  {
    IsTop(p.stack, p.overlays[i].el)
  }

  lemma AnswersLikeLast(p: Page, i: nat)
    requires Mirrors(p) && i < |p.overlays|
    ensures Answers(p, i) <==> p.overlays[i].el == p.overlays[|p.overlays| - 1].el
  {
    assert p.stack[|p.stack| - 1] == p.overlays[|p.overlays| - 1].el;
  }

  /** The element opened last is open only once. */
  predicate LastIsSingle(overlays: seq<Opened>) {
    overlays != [] && forall i :: 0 <= i < |overlays| - 1 ==> overlays[i].el != overlays[|overlays| - 1].el
  }

  /** Exactly one overlay answers keys. */
  predicate OneAnswers(p: Page) {
    exists i :: 0 <= i < |p.overlays| && Answers(p, i) && forall j :: 0 <= j < |p.overlays| && Answers(p, j) ==> j == i
  }

  lemma OneAnswersIff(p: Page)
    requires Mirrors(p)
    ensures OneAnswers(p) <==> LastIsSingle(p.overlays)
    ensures p.overlays != [] ==> Answers(p, |p.overlays| - 1)
  {
    var n := |p.overlays| - 1;
    forall i | 0 <= i <= n ensures Answers(p, i) <==> p.overlays[i].el == p.overlays[n].el {
      AnswersLikeLast(p, i);
    }
    if LastIsSingle(p.overlays) {
      assert Answers(p, n);
    }
    if OneAnswers(p) {
      var i :| 0 <= i < |p.overlays| && Answers(p, i) && forall j :: 0 <= j < |p.overlays| && Answers(p, j) ==> j == i;
      assert Answers(p, n);
    }
  }

  /** While anything is open the overlay opened last answers keys, and it is the only one exactly when
      its element is not open a second time. */
  lemma ExactlyOneAnswers(p: Page, steps: seq<Step>, q: Page)
    requires p.stack == [] && p.overlays == [] && NeverSplit(p, steps) && Reaches(p, steps, q)
    ensures q.overlays != [] ==> Answers(q, |q.overlays| - 1)
    ensures OneAnswers(q) <==> LastIsSingle(q.overlays)
  {
    StackIsOpened(p, steps, q);
    OneAnswersIff(q);
  }

  // ---- focus ----------------------------------------------------------------------------------

  /** Properly nested above a depth: a close takes the overlay opened last, and never one at or below it. */
  ghost predicate NestedAbove(p: Page, steps: seq<Step>, depth: nat)
    decreases |steps|
  {
    steps != [] && Possible(p, steps[0]) ==>
      (steps[0].Close? ==> |p.overlays| > depth && p.overlays[|p.overlays| - 1].id == steps[0].id)
      && NestedAbove(Next(p, steps[0]), steps[1..], depth)
  }

  lemma {:induction false} NestedKeepsBelow(p: Page, steps: seq<Step>, q: Page, depth: nat)
    requires |p.overlays| >= depth && NestedAbove(p, steps, depth) && Reaches(p, steps, q)
    ensures |q.overlays| >= depth && q.overlays[..depth] == p.overlays[..depth]
    decreases |steps|
  {
    if steps != [] {
      var next := Next(p, steps[0]);
      if steps[0].Close? {
        assert next.overlays == p.overlays[..|p.overlays| - 1];
      }
      assert next.overlays[..depth] == p.overlays[..depth];
      NestedKeepsBelow(next, steps[1..], q, depth);
    }
  }

  predicate Concerns(step: Step, x: Element) {
    step == Attach(x) || step == Detach(x)
  }

  predicate LastConcerning(steps: seq<Step>, x: Element, i: nat) {
    i < |steps| && Concerns(steps[i], x) && forall j :: i < j < |steps| ==> !Concerns(steps[j], x)
  }

  /** An element is attached exactly as the last step about it left it; overlays attach and detach nothing. */
  lemma {:induction false} AttachedAsLastLeft(p: Page, steps: seq<Step>, q: Page, x: Element)
    requires Reaches(p, steps, q)
    ensures forall i: nat :: LastConcerning(steps, x, i) ==> (x in q.connected <==> steps[i] == Attach(x))
    ensures (forall i :: 0 <= i < |steps| ==> !Concerns(steps[i], x)) ==> (x in q.connected <==> x in p.connected)
    decreases |steps|
  {
    if steps != [] {
      var rest := steps[1..];
      AttachedAsLastLeft(Next(p, steps[0]), rest, q, x);
      assert forall i :: 0 <= i < |rest| ==> rest[i] == steps[i + 1];
      forall i: nat | LastConcerning(steps, x, i) ensures x in q.connected <==> steps[i] == Attach(x) {
        if i > 0 {
          assert LastConcerning(rest, x, i - 1);
        }
      }
    }
  }

  /** An opener that went away while its overlay was open is not focused again: closing leaves focus where
      it was last moved to. */
  lemma GoneOpenerLeavesFocus(p: Page, open: Step, target: Option<Element>, f: Element)
    requires open.Open? && Possible(p, open) && p.active == Some(f)
    ensures var inside := Next(Next(Next(p, open), Detach(f)), Focus(target));
            && Possible(inside, Close(open.id))
            && Next(inside, Close(open.id)).active == target
            && Next(inside, Close(open.id)).overlays == p.overlays
  {
    var inside := Next(Next(Next(p, open), Detach(f)), Focus(target));
    assert inside.overlays[|p.overlays|] == Opened(open.id, open.el, Some(f));
    assert inside.overlays[..|p.overlays|] == p.overlays;
  }

  /** Whatever happens, properly nested, inside an overlay, closing it puts focus back where it was
      before it opened, if that is still attached, and leaves the same overlays open as before. */
  lemma NestedRestoresFocus(p: Page, open: Step, inside: seq<Step>, q: Page)
    requires open.Open? && Possible(p, open)
    requires NestedAbove(Next(p, open), inside, |p.overlays| + 1) && Reaches(Next(p, open), inside, q)
    requires |q.overlays| == |p.overlays| + 1
    ensures Possible(q, Close(open.id))
    ensures var end := Next(q, Close(open.id));
            && end.overlays == p.overlays
            && end.active == (if p.active.Some? && p.active.value in q.connected then p.active else q.active)
  {
    var first := Next(p, open);
    NestedKeepsBelow(first, inside, q, |p.overlays| + 1);
    assert q.overlays == first.overlays;
  }

  /** Every open overlay has an opener that can take focus back. */
  predicate OpenersConnected(p: Page) {
    forall i :: 0 <= i < |p.overlays| ==> p.overlays[i].opener.Some? && p.overlays[i].opener.value in p.connected
  }

  lemma CloseRemoves(p: Page, id: nat)
    requires DistinctIds(p.overlays) && Possible(p, Close(id))
    ensures var next := Next(p, Close(id));
            && DistinctIds(next.overlays) && next.connected == p.connected
            && |next.overlays| == |p.overlays| - 1
            && (OpenersConnected(p) ==> OpenersConnected(next))
            && forall o :: o in next.overlays <==> o in p.overlays && o.id != id
  {
    var at := Position(p.overlays, id).value;
    var left := Next(p, Close(id)).overlays;
    assert forall i :: 0 <= i < |left| ==> left[i] == p.overlays[if i < at then i else i + 1];
    forall o | o in p.overlays && o.id != id ensures o in left {
      var i :| 0 <= i < |p.overlays| && p.overlays[i] == o;
      assert left[if i < at then i else i - 1] == o;
    }
  }

  /** Focus ends with the opener of whichever overlay closes last, in any order of closes. */
  lemma {:induction false} LastClosedDecidesFocus(p: Page, steps: seq<Step>, q: Page)
    requires DistinctIds(p.overlays) && OpenersConnected(p)
    requires steps != [] && OnlyCloses(steps) && Reaches(p, steps, q)
    ensures exists o :: o in p.overlays && o.id == steps[|steps| - 1].id && q.active == o.opener
    decreases |steps|
  {
    var id := steps[0].id;
    CloseRemoves(p, id);
    var next := Next(p, steps[0]);
    if |steps| == 1 {
      assert Reaches(next, steps[1..], q) && next == q;
      var o := p.overlays[Position(p.overlays, id).value];
      assert o in p.overlays && q.active == o.opener;
    } else {
      LastClosedDecidesFocus(next, steps[1..], q);
      var o :| o in next.overlays && o.id == steps[1..][|steps| - 2].id && q.active == o.opener;
      assert o in p.overlays;
    }
  }

  /** Opening overlays, and moving focus about meanwhile, without ever landing on `f`. */
  predicate LandsElsewhere(step: Step, f: Element, connected: set<Element>) {
    match step
    case Open(_, el, initial) => var x := if initial.Some? then initial.value else el; x != f && x in connected
    case Focus(target) => target.Some? && target.value != f && target.value in connected
    case _ => false
  }

  /** What such an opening phase leaves: the first overlay was opened from `f`, no other one was. */
  predicate OpenedFrom(p: Page, f: Element, first: nat) {
    && DistinctIds(p.overlays) && OpenersConnected(p)
    && p.active.Some? && p.active.value != f && p.active.value in p.connected
    && p.overlays != [] && p.overlays[0].id == first && p.overlays[0].opener == Some(f)
    && forall i :: 0 < i < |p.overlays| ==> p.overlays[i].opener != Some(f)
  }

  lemma {:induction false} OpeningPhase(p: Page, steps: seq<Step>, q: Page, f: Element, first: nat)
    requires OpenedFrom(p, f, first) && Reaches(p, steps, q)
    requires forall i :: 0 <= i < |steps| ==> LandsElsewhere(steps[i], f, p.connected)
    ensures OpenedFrom(q, f, first)
    decreases |steps|
  {
    if steps != [] {
      var next := Next(p, steps[0]);
      assert LandsElsewhere(steps[0], f, p.connected);
      assert OpenedFrom(next, f, first);
      forall i | 0 <= i < |steps[1..]| ensures LandsElsewhere(steps[1..][i], f, next.connected) {
        assert LandsElsewhere(steps[i + 1], f, p.connected);
      }
      OpeningPhase(next, steps[1..], q, f, first);
    }
  }

  lemma ClosingPhase(full: Page, f: Element, first: nat, closing: seq<Step>, q: Page)
    requires OpenedFrom(full, f, first) && OnlyCloses(closing) && Reaches(full, closing, q) && q.overlays == []
    ensures closing != []
    ensures q.active == Some(f) <==> closing[|closing| - 1].id == first
  {
    assert closing == [] ==> full == q;
    LastClosedDecidesFocus(full, closing, q);
    var o :| o in full.overlays && o.id == closing[|closing| - 1].id && q.active == o.opener;
    var i :| 0 <= i < |full.overlays| && full.overlays[i] == o;
    if i > 0 {
      assert full.overlays[0].id != full.overlays[i].id;
    }
  }

  lemma FirstOpen(p: Page, f: Element, open: Step)
    requires p.overlays == [] && p.active == Some(f) && f in p.connected && open.Open?
    requires LandsElsewhere(open, f, p.connected) && Possible(p, open)
    ensures OpenedFrom(Next(p, open), f, open.id) && Next(p, open).connected == p.connected
  {
    assert Next(p, open).overlays == [Opened(open.id, open.el, Some(f))];
  }

  /** Open any overlays from a page with none, then close them all in any order: focus is back where
      it was before the first open exactly when the overlay opened first closes last. */
  lemma FocusReturnsIff(p: Page, f: Element, open: Step, opening: seq<Step>, full: Page, closing: seq<Step>, q: Page)
    requires p.overlays == [] && p.active == Some(f) && f in p.connected && open.Open?
    requires LandsElsewhere(open, f, p.connected)
    requires forall i :: 0 <= i < |opening| ==> LandsElsewhere(opening[i], f, p.connected)
    requires Possible(p, open) && Reaches(Next(p, open), opening, full)
    requires OnlyCloses(closing) && Reaches(full, closing, q) && q.overlays == []
    ensures closing != []
    ensures q.active == Some(f) <==> closing[|closing| - 1].id == open.id
  {
    FirstOpen(p, f, open);
    OpeningPhase(Next(p, open), opening, full, f, open.id);
    ClosingPhase(full, f, open.id, closing, q);
  }

  // ---- the Tab trap ---------------------------------------------------------------------------

  /** Where focus is inside the topmost overlay: outside it, on the overlay itself, or on a focusable item. */
  datatype Spot = Outside | Itself | At(index: nat)

  /** The key handler's own moves, or the browser's move to the neighbouring focusable. */
  function Tab(items: nat, at: Spot, back: bool): Spot {
    if items == 0 then Itself
    else if back && (at == Outside || at == At(0) || at == Itself) then At(items - 1)
    else if !back && (at == Outside || at == At(items - 1)) then At(0)
    else if at == Itself then At(0)
    else if back && at.At? && at.index > 0 then At(at.index - 1)
    else if at.At? then At(at.index + 1)
    else at
  }

  predicate Inside(items: nat, at: Spot) {
    at == Itself || (at.At? && at.index < items)
  }

  function Tabs(items: nat, at: Spot, back: bool, n: nat): Spot {
    if n == 0 then at else Tab(items, Tabs(items, at, back, n - 1), back)
  }

  /** Focus never leaves the overlay by Tab and comes back in from outside, and one direction undoes
      the other. */
  lemma TabStaysInside(items: nat, at: Spot, back: bool)
    requires Inside(items, at) || at == Outside
    ensures Inside(items, Tab(items, at, back))
    ensures at.At? && items > 0 ==> Tab(items, Tab(items, at, back), !back) == at
  {
  }

  /** From outside, or from the overlay itself, Tab comes to the first item and Shift+Tab to the last; an
      overlay without items takes the focus itself. */
  lemma TabEntersAtTheNearEnd(items: nat, at: Spot, back: bool)
    requires at == Outside || at == Itself
    ensures Tab(items, at, back) == if items == 0 then Itself else At(if back then items - 1 else 0)
  {
  }

  /** Shift+Tab goes round the other way. */
  lemma {:induction false} BackTabGoesRound(items: nat, index: nat, n: nat)
    requires index < items && n <= items
    ensures Tabs(items, At(index), true, n) == At(if n <= index then index - n else index + items - n)
  {
    if n > 0 {
      BackTabGoesRound(items, index, n - 1);
    }
  }

  /** Going round: n presses from an item land n items further, so as many presses as there are items
      visit each of them once and come back. */
  lemma {:induction false} TabGoesRound(items: nat, index: nat, n: nat)
    requires index < items && n <= items
    ensures Tabs(items, At(index), false, n) == At(if index + n < items then index + n else index + n - items)
  {
    if n > 0 {
      TabGoesRound(items, index, n - 1);
    }
  }
}
