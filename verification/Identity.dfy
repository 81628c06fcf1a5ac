/** The identity of one mutually exclusive operation, and the pre-hash payload of its key. */
module Identity {
  import opened Wrappers
  import opened Text
  import opened Order
  import P = Params

  const BAR := '|'

  /** Parameter values as the identity prints them; a missing value prints as nothing. */
  type Printed = map<string, string>

  function Get(values: Printed, name: string): string {
    if name in values then values[name] else ""
  }

  /** The names of the component-addressed parameters. */
  function AddressingNames(specs: seq<P.Spec>): (names: set<string>)
    ensures forall n :: n in names <==> exists i :: 0 <= i < |specs| && specs[i].source.FromComponent? && specs[i].name == n
  {
    set i | 0 <= i < |specs| && specs[i].source.FromComponent? :: specs[i].name
  }

  function Part(name: string, values: Printed): string {
    name + "=" + Get(values, name)
  }

  function Parts(cls: string, names: seq<string>, values: Printed): seq<string> {
    [cls] + seq(|names|, i requires 0 <= i < |names| => Part(names[i], values))
  }

  function Addressing(p: P.Platform, cls: string): seq<string>
    requires cls in p.table
  {
    Sorted(AddressingNames(p.table[cls]))
  }

  /** The canonical identity; None when the class is governed but has no table entry (a KeyError). */
  function OperationIdentity(p: P.Platform, cls: string, values: Printed): Option<string> {
    if cls !in p.governed then Some(cls)
    else if cls !in p.table then None
    else Some(Join(Parts(cls, Addressing(p, cls), values), BAR))
  }

  method IdentifyOperation(p: P.Platform, cls: string, values: Printed) returns (r: Option<string>)
    ensures r == OperationIdentity(p, cls, values)
  {
    if cls !in p.governed {
      return Some(cls);
    }
    if cls !in p.table {
      return None;
    }
    var names := Addressing(p, cls);
    var parts := [cls];
    for i := 0 to |names|
      invariant parts == Parts(cls, names[..i], values)
    {
      parts := parts + [Part(names[i], values)];
    }
    assert names[..|names|] == names;
    return Some(Join(parts, BAR));
  }

  function KeyPayload(tenant: string, device: string, identity: string): string {
    Join(["op.v1", tenant, device, identity], BAR)
  }

  // ---- no collisions --------------------------------------------------------------------------

  /** Governed, declared, and a class name without the separator. */
  predicate Known(p: P.Platform, cls: string) {
    cls in p.governed && cls in p.table && BAR !in cls
  }

  predicate SameTarget(p: P.Platform, cls: string, v: Printed, w: Printed)
    requires cls in p.table
  {
    forall n :: n in AddressingNames(p.table[cls]) ==> Get(v, n) == Get(w, n)
  }

  /** Every addressed name and value is free of the separator. */
  predicate BarFree(p: P.Platform, cls: string, v: Printed)
    requires cls in p.table
  {
    forall n :: n in AddressingNames(p.table[cls]) ==> BAR !in n && BAR !in Get(v, n)
  }

  lemma FirstPieceIsClass(cls: string, names: seq<string>, v: Printed)
    requires BAR !in cls
    ensures Split(Join(Parts(cls, names, v), BAR), BAR)[0] == cls
  {
    var parts := Parts(cls, names, v);
    SplitWithoutSeparator(cls, BAR);
    if |parts| > 1 {
      SplitAtSeparator(cls, Join(parts[1..], BAR), BAR);
    }
  }

  lemma PartShowsValue(name: string, v: Printed, w: Printed)
    ensures Part(name, v) == Part(name, w) <==> Get(v, name) == Get(w, name)
  {
    var prefix := |name + "="|;
    assert Part(name, v)[prefix..] == Get(v, name) && Part(name, w)[prefix..] == Get(w, name);
  }

  lemma SamePartsIff(cls: string, names: seq<string>, v: Printed, w: Printed)
    ensures Parts(cls, names, v) == Parts(cls, names, w) <==>
            forall i :: 0 <= i < |names| ==> Part(names[i], v) == Part(names[i], w)
  {
    var a, b := Parts(cls, names, v), Parts(cls, names, w);
    assert forall i :: 0 <= i < |names| ==> a[i + 1] == Part(names[i], v) && b[i + 1] == Part(names[i], w);
    if forall i :: 0 <= i < |names| ==> Part(names[i], v) == Part(names[i], w) {
      assert a[1..] == b[1..];
      assert a == [cls] + a[1..] && b == [cls] + b[1..];
    }
  }

  lemma PartsDetermineTarget(p: P.Platform, cls: string, v: Printed, w: Printed)
    requires cls in p.table
    ensures Parts(cls, Addressing(p, cls), v) == Parts(cls, Addressing(p, cls), w) <==> SameTarget(p, cls, v, w)
  {
    var names := Addressing(p, cls);
    SamePartsIff(cls, names, v, w);
    forall n ensures Part(n, v) == Part(n, w) <==> Get(v, n) == Get(w, n) {
      PartShowsValue(n, v, w);
    }
    assert SameTarget(p, cls, v, w) <==> forall n :: n in names ==> Get(v, n) == Get(w, n);
  }

  lemma PartsBarFree(p: P.Platform, cls: string, v: Printed)
    requires Known(p, cls) && BarFree(p, cls, v)
    ensures FreeOf(Parts(cls, Addressing(p, cls), v), BAR)
  {
    var names := Addressing(p, cls);
    forall i | 0 <= i < |names| ensures BAR !in Part(names[i], v) {
      assert names[i] in names;
    }
  }

  /** Two operations have equal identity exactly when the class and every addressed value are equal,
      whatever the other parameters hold. */
  lemma IdentityIff(p: P.Platform, cls: string, v: Printed, cls2: string, w: Printed)
    requires Known(p, cls) && Known(p, cls2) && BarFree(p, cls, v) && BarFree(p, cls2, w)
    ensures OperationIdentity(p, cls, v) == OperationIdentity(p, cls2, w) <==> cls == cls2 && SameTarget(p, cls, v, w)
  {
    FirstPieceIsClass(cls, Addressing(p, cls), v);
    FirstPieceIsClass(cls2, Addressing(p, cls2), w);
    PartsBarFree(p, cls, v);
    PartsBarFree(p, cls2, w);
    SplitJoinRoundTrip(Parts(cls, Addressing(p, cls), v), BAR);
    SplitJoinRoundTrip(Parts(cls2, Addressing(p, cls2), w), BAR);
    if cls == cls2 {
      PartsDetermineTarget(p, cls, v, w);
    }
  }

  /** The identity reads back: split at the separator it is the class, then each component-addressed
      name with its value, in increasing order of names; a missing value reads as an empty one. */
  lemma IdentityReadsBack(p: P.Platform, cls: string, v: Printed)
    requires Known(p, cls) && BarFree(p, cls, v)
    ensures OperationIdentity(p, cls, v).Some?
    ensures var pieces, names := Split(OperationIdentity(p, cls, v).value, '|'), Addressing(p, cls);
            && |pieces| == 1 + |names| && pieces[0] == cls
            && (forall i :: 0 <= i < |names| ==> pieces[1 + i] == names[i] + "=" + (if names[i] in v then v[names[i]] else ""))
            && (forall n :: n in names <==> exists s :: s in p.table[cls] && s.source.FromComponent? && s.name == n)
            && (forall i, j :: 0 <= i < j < |names| ==> names[i] != names[j] && Leq(names[i], names[j]))
  {
    PartsBarFree(p, cls, v);
    SplitJoinRoundTrip(Parts(cls, Addressing(p, cls), v), BAR);
    forall n ensures n in Addressing(p, cls) <==> exists s :: s in p.table[cls] && s.source.FromComponent? && s.name == n {
      if n in Addressing(p, cls) {
        var i :| 0 <= i < |p.table[cls]| && p.table[cls][i].source.FromComponent? && p.table[cls][i].name == n;
        assert p.table[cls][i] in p.table[cls];
      }
    }
  }

  /** A class that is not governed is its own identity. */
  lemma UngovernedIsItself(p: P.Platform, cls: string, v: Printed)
    ensures OperationIdentity(p, cls, v) == Some(cls) <==>
            cls !in p.governed || (cls in p.table && Addressing(p, cls) == [])
    ensures OperationIdentity(p, cls, v) == None <==> cls in p.governed && cls !in p.table
  {
    if cls in p.governed && cls in p.table && Addressing(p, cls) != [] {
      var parts := Parts(cls, Addressing(p, cls), v);
      assert Join(parts, BAR) == cls + [BAR] + Join(parts[1..], BAR);
      assert |Join(parts, BAR)| > |cls|;
    }
  }

  /** No restriction on the values at all is needed exactly by the classes that address at most one
      component; a class addressing two has values whose separators forge each other's parts. */
  lemma AnyValuesAreSafeIffOneAddressed(p: P.Platform, cls: string)
    requires Known(p, cls)
    ensures (forall v, w :: OperationIdentity(p, cls, v) == OperationIdentity(p, cls, w) ==> SameTarget(p, cls, v, w))
            <==> |Addressing(p, cls)| <= 1
  {
    var names := Addressing(p, cls);
    if |names| <= 1 {
      forall v, w | OperationIdentity(p, cls, v) == OperationIdentity(p, cls, w)
        ensures SameTarget(p, cls, v, w)
      {
        OnePartInjective(cls, names, v, w);
        PartsDetermineTarget(p, cls, v, w);
      }
    } else {
      var forged := "|" + names[1] + "=";
      var v: Printed := map[names[0] := forged];
      var w: Printed := map[names[1] := forged];
      assert names[0] in names && names[0] != names[1];
      ForgedPartsJoinAlike(cls, names);
      assert !SameTarget(p, cls, v, w) by {
        assert Get(v, names[0]) != Get(w, names[0]);
      }
      assert OperationIdentity(p, cls, v) == OperationIdentity(p, cls, w);
    }
  }

  lemma OnePartInjective(cls: string, names: seq<string>, v: Printed, w: Printed)
    requires |names| <= 1 && Join(Parts(cls, names, v), BAR) == Join(Parts(cls, names, w), BAR)
    ensures Parts(cls, names, v) == Parts(cls, names, w)
  {
    if |names| == 1 {
      var a, b := Parts(cls, names, v), Parts(cls, names, w);
      assert a[1..] == [a[1]] && b[1..] == [b[1]];
      assert Join(a, BAR) == cls + [BAR] + a[1] && Join(b, BAR) == cls + [BAR] + b[1];
      assert Join(a, BAR)[|cls| + 1..] == a[1] && Join(b, BAR)[|cls| + 1..] == b[1];
    }
  }

  /** The two ways to write the same forged stretch. */
  lemma ForgedStretch(n0: string, n1: string, forged: string)
    requires forged == "|" + n1 + "="
    ensures (n0 + "=" + forged) + [BAR] + (n1 + "=" + "") == (n0 + "=" + "") + [BAR] + (n1 + "=" + forged)
  {
  }

  lemma ForgedPartsJoinAlike(cls: string, names: seq<string>)
    requires |names| >= 2 && forall i, j :: 0 <= i < j < |names| ==> names[i] != names[j]
    ensures var forged := "|" + names[1] + "=";
            Join(Parts(cls, names, map[names[0] := forged]), BAR) == Join(Parts(cls, names, map[names[1] := forged]), BAR)
  {
    var n0, n1 := names[0], names[1];
    var forged := "|" + n1 + "=";
    var a, b := Parts(cls, names, map[n0 := forged]), Parts(cls, names, map[n1 := forged]);
    forall k | 3 <= k < |a| ensures a[k] == b[k] {
      assert names[k - 1] != n0 && names[k - 1] != n1;
    }
    assert a[1] == n0 + "=" + forged && a[2] == n1 + "=" + "";
    assert b[1] == n0 + "=" + "" && b[2] == n1 + "=" + forged;
    ForgedStretch(n0, n1, forged);
    SameAfterTwo(a, b);
  }

  /** Lists alike in their head, in their next two parts joined, and in the rest, join alike. */
  lemma SameAfterTwo(a: seq<string>, b: seq<string>)
    requires |a| == |b| >= 3 && a[0] == b[0] && a[1] + [BAR] + a[2] == b[1] + [BAR] + b[2]
    requires forall k :: 3 <= k < |a| ==> a[k] == b[k]
    ensures Join(a, BAR) == Join(b, BAR)
  {
    assert a[1..][2..] == b[1..][2..];
    TwoThenRest(a[1..]);
    TwoThenRest(b[1..]);
  }

  lemma Associate(a: string, b: string, c: string)
    ensures a + (b + c) == (a + b) + c
  {
  }

  lemma TwoThenRest(parts: seq<string>)
    requires |parts| >= 2
    ensures Join(parts, BAR) == (parts[0] + [BAR] + parts[1]) + (if |parts| == 2 then "" else [BAR] + Join(parts[2..], BAR))
  {
    assert parts[1..][1..] == parts[2..];
    var head := parts[0] + [BAR];
    if |parts| == 2 {
      assert (head + parts[1]) + "" == head + parts[1];
    } else {
      var rest := [BAR] + Join(parts[2..], BAR);
      Associate(parts[1], [BAR], Join(parts[2..], BAR));
      Associate(head, parts[1], rest);
    }
  }

  /** The payload that is hashed is injective in tenant, device and identity, for tenant and device
      ids without the separator and any identity whatever. */
  lemma PayloadInjective(tenant: string, device: string, identity: string, tenant2: string, device2: string, identity2: string)
    requires BAR !in tenant && BAR !in device && BAR !in tenant2 && BAR !in device2
    ensures KeyPayload(tenant, device, identity) == KeyPayload(tenant2, device2, identity2) <==>
            tenant == tenant2 && device == device2 && identity == identity2
  {
    PayloadPieces(tenant, device, identity);
    PayloadPieces(tenant2, device2, identity2);
    SplitPieces(identity, BAR);
    SplitPieces(identity2, BAR);
    if KeyPayload(tenant, device, identity) == KeyPayload(tenant2, device2, identity2) {
      var a := ["op.v1", tenant, device] + Split(identity, BAR);
      var b := ["op.v1", tenant2, device2] + Split(identity2, BAR);
      assert a == b;
      assert a[1] == b[1] && a[2] == b[2] && a[3..] == Split(identity, BAR) && b[3..] == Split(identity2, BAR);
    }
  }

  lemma EachOne(text: string)
    ensures SplitEach([text], BAR) == Split(text, BAR)
  {
    assert [text][1..] == [];
  }

  lemma EachCons(head: string, rest: seq<string>)
    ensures SplitEach([head] + rest, BAR) == Split(head, BAR) + SplitEach(rest, BAR)
  {
    assert ([head] + rest)[1..] == rest;
  }

  /** The payload splits into the pieces of everything in it. */
  lemma AllPieces(tenant: string, device: string, identity: string)
    ensures Split(KeyPayload(tenant, device, identity), BAR) ==
            ["op.v1"] + (Split(tenant, BAR) + (Split(device, BAR) + Split(identity, BAR)))
  {
    SplitOfJoin(["op.v1", tenant, device, identity], BAR);
    EachOne(identity);
    EachCons(device, [identity]);
    EachCons(tenant, [device] + [identity]);
    EachCons("op.v1", [tenant] + ([device] + [identity]));
    SplitWithoutSeparator("op.v1", BAR);
    assert ["op.v1", tenant, device, identity] == ["op.v1"] + ([tenant] + ([device] + [identity]));
  }

  lemma PayloadPieces(tenant: string, device: string, identity: string)
    requires BAR !in tenant && BAR !in device
    ensures Split(KeyPayload(tenant, device, identity), BAR) == ["op.v1", tenant, device] + Split(identity, BAR)
  {
    AllPieces(tenant, device, identity);
    SplitWithoutSeparator(tenant, BAR);
    SplitWithoutSeparator(device, BAR);
    var rest := Split(identity, BAR);
    assert ["op.v1"] + ([tenant] + ([device] + rest)) == ["op.v1", tenant, device] + rest;
  }

  lemma PayloadText(tenant: string, device: string, identity: string)
    ensures KeyPayload(tenant, device, identity) == "op.v1" + [BAR] + (tenant + [BAR] + (device + [BAR] + identity))
  {
    var parts := ["op.v1", tenant, device, identity];
    assert parts[1..] == [tenant, device, identity] && [tenant, device, identity][1..] == [device, identity];
    assert [device, identity][1..] == [identity];
    assert Join([device, identity], BAR) == device + [BAR] + identity;
    assert Join([tenant, device, identity], BAR) == tenant + [BAR] + (device + [BAR] + identity);
  }

  lemma BarSplits(text: string) returns (x: string, y: string)
    requires BAR in text
    ensures text == x + [BAR] + y
  {
    var i :| 0 <= i < |text| && text[i] == BAR;
    x, y := text[..i], text[i + 1..];
  }

  lemma MoveBar(x: string, y: string, z: string)
    ensures (x + [BAR] + y) + [BAR] + z == x + [BAR] + (y + [BAR] + z)
  {
  }

  /** Some other tenant, device or identity gives the same payload. */
  ghost predicate Collides(tenant: string, device: string, identity: string) {
    exists t, d, i :: KeyPayload(t, d, i) == KeyPayload(tenant, device, identity)
                      && !(t == tenant && d == device && i == identity)
  }

  /** One separator in any of the three can be moved across the next boundary. */
  lemma BarredCollides(tenant: string, device: string, identity: string)
    requires BAR in tenant || BAR in device || BAR in identity
    ensures Collides(tenant, device, identity)
  {
    PayloadText(tenant, device, identity);
    if BAR in tenant {
      var x, y := BarSplits(tenant);
      PayloadText(x, y + [BAR] + device, identity);
      MoveBar(x, y, device + [BAR] + identity);
      MoveBar(y, device, identity);
      assert |x| != |tenant|;
      assert KeyPayload(x, y + [BAR] + device, identity) == KeyPayload(tenant, device, identity);
    } else if BAR in device {
      var x, y := BarSplits(device);
      PayloadText(tenant, x, y + [BAR] + identity);
      MoveBar(x, y, identity);
      assert |x| != |device|;
      assert KeyPayload(tenant, x, y + [BAR] + identity) == KeyPayload(tenant, device, identity);
    } else {
      var x, y := BarSplits(identity);
      PayloadText(tenant + [BAR] + device, x, y);
      MoveBar(tenant, device, x + [BAR] + y);
      assert |tenant + [BAR] + device| != |tenant|;
      assert KeyPayload(tenant + [BAR] + device, x, y) == KeyPayload(tenant, device, identity);
    }
  }

  lemma OnePiece(text: string)
    ensures |Split(text, BAR)| == 1 ==> Split(text, BAR) == [text]
  {
    SplitPieces(text, BAR);
  }

  lemma UnbarredIsAlone(tenant: string, device: string, identity: string, t: string, d: string, i: string)
    requires BAR !in tenant && BAR !in device && BAR !in identity
    requires KeyPayload(t, d, i) == KeyPayload(tenant, device, identity)
    ensures t == tenant && d == device && i == identity
  {
    PayloadPieces(tenant, device, identity);
    SplitWithoutSeparator(identity, BAR);
    AllPieces(t, d, i);
    var all := ["op.v1"] + (Split(t, BAR) + (Split(d, BAR) + Split(i, BAR)));
    assert all == ["op.v1", tenant, device] + [identity];
    assert |all| == 4 && |Split(t, BAR)| == |Split(d, BAR)| == |Split(i, BAR)| == 1;
    OnePiece(t);
    OnePiece(d);
    OnePiece(i);
    assert all[1] == t && all[2] == d && all[3] == i;
  }

  /** Among all payloads whatever, one stands for a single operation exactly when neither its tenant,
      nor its device, nor its identity holds the separator. A governed identity that addresses a
      component does hold it, so the payload relies on separator-free tenant and device ids. */
  lemma CollidesIffBarred(tenant: string, device: string, identity: string)
    ensures Collides(tenant, device, identity) <==> BAR in tenant || BAR in device || BAR in identity
  {
    if BAR in tenant || BAR in device || BAR in identity {
      BarredCollides(tenant, device, identity);
    } else if Collides(tenant, device, identity) {
      var t, d, i :| KeyPayload(t, d, i) == KeyPayload(tenant, device, identity)
                     && !(t == tenant && d == device && i == identity);
      UnbarredIsAlone(tenant, device, identity, t, d, i);
    }
  }
}
