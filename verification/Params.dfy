/** Parameter contracts: what a class declares, what the resolver can build from reported evidence,
    what the validator accepts, and exactly when the three agree. */
module Params {
  import opened Wrappers
  import opened Text
  import opened Order

  datatype Source = FromComponent | FromDefault | FromCampaign | FromAnnotation | FromNowhere

  datatype ParamType = StringType | IntegerType | JsonObjectType | UndeclaredType

  datatype Spec = Spec(name: string, ptype: ParamType, required: bool, source: Source, missingInput: string)

  const REASON := Spec("reason", StringType, false, FromAnnotation, "")

  /** A parameter value; Other is any value that is not text, integer or boolean, with its text form. */
  datatype Value = Text(s: string) | Number(i: int) | Flag(b: bool) | Other(shown: string)

  /** The two library readers the type check asks: does a text read as an integer (`int`), does it
      read as a non-empty JSON object (`json.loads`)? */
  datatype Readers = Readers(integer: string -> bool, jsonObject: string -> bool)

  /** The governed class names, the declared parameters by class, and the readers. */
  datatype Platform = Platform(governed: set<string>, table: map<string, seq<Spec>>, readers: Readers)

  // ---- the contract ---------------------------------------------------------------------------

  /** The rule the contract and the resolver share: required, and no reported evidence supplies it. */
  predicate AgentUnsuppliable(s: Spec) {
    s.required && ((s.source.FromNowhere? && s.missingInput != "") || s.source.FromCampaign?)
  }

  /** The declared parameters; none for a class without an entry. */
  function SpecsOf(p: Platform, cls: string): seq<Spec> {
    if cls in p.governed && cls in p.table then p.table[cls] else []
  }

  function FirstUnsuppliable(specs: seq<Spec>): (r: Option<nat>)
    ensures r.None? <==> forall i :: 0 <= i < |specs| ==> !AgentUnsuppliable(specs[i])
    ensures r.Some? ==> r.value < |specs| && AgentUnsuppliable(specs[r.value])
                        && forall i :: 0 <= i < r.value ==> !AgentUnsuppliable(specs[i])
  {
    if specs == [] then None
    else
      var n := |specs| - 1;
      var r := FirstUnsuppliable(specs[..n]);
      if r.Some? then r else if AgentUnsuppliable(specs[n]) then Some(n) else None
  }

  /** What `parameter_contract` reports: resolvable or not, and the first parameter that is why not. */
  datatype Contract = Contract(agentResolvable: bool, unsatisfied: Option<string>)

  function ParameterContract(p: Platform, cls: string): Contract {
    if cls !in p.governed then Contract(false, None)
    else
      var first := FirstUnsuppliable(SpecsOf(p, cls));
      Contract(first.None?, if first.Some? then Some(SpecsOf(p, cls)[first.value].name) else None)
  }

  // ---- the validator --------------------------------------------------------------------------

  function Shown(v: Value): string {
    match v case Text(s) => s case Other(t) => t case _ => ""
  }

  predicate TypeOk(s: Spec, v: Value, readers: Readers) {
    match s.ptype
    case StringType => v.Text? && !Blank(v.s)
    case IntegerType => v.Number? || (!v.Flag? && readers.integer(Shown(v)))
    case JsonObjectType => v.Text? && !Blank(v.s) && readers.jsonObject(v.s)
    case UndeclaredType => false
  }

  datatype Complaint = Undeclared(name: string) | Absent(name: string) | BadValue(name: string)

  datatype Verdict = Accepts | Rejects(why: Complaint) | Ungoverned | Raises

  /** The declarations by name: a repeated name keeps its last declaration, and `reason` is always there. */
  function ByName(specs: seq<Spec>): map<string, Spec> {
    if specs == [] then map[] else ByName(specs[..|specs| - 1])[specs[|specs| - 1].name := specs[|specs| - 1]]
  }

  function Declared(specs: seq<Spec>): map<string, Spec> {
    ByName(specs)[REASON.name := REASON]
  }

  predicate Violates(name: string, declared: map<string, Spec>, given: map<string, Value>, readers: Readers)
    requires name in declared
  {
    if name in given then !TypeOk(declared[name], given[name], readers) else declared[name].required
  }

  /** The payloads a class accepts. */
  predicate Acceptable(declared: map<string, Spec>, given: map<string, Value>, readers: Readers) {
    given.Keys <= declared.Keys && forall n :: n in declared ==> !Violates(n, declared, given, readers)
  }

  function ComplaintAbout(name: string, given: map<string, Value>): Complaint {
    if name in given then BadValue(name) else Absent(name)
  }

  /** The complaint raised: the least undeclared name, or else the least name whose declaration is violated. */
  ghost predicate IsTheComplaint(c: Complaint, declared: map<string, Spec>, given: map<string, Value>, readers: Readers) {
    if c.Undeclared? then IsLeast(c.name, given.Keys - declared.Keys)
    else
      && given.Keys <= declared.Keys && c.name in declared
      && Violates(c.name, declared, given, readers) && c == ComplaintAbout(c.name, given)
      && forall n :: n in declared && Violates(n, declared, given, readers) ==> Leq(c.name, n)
  }

  /** A verdict on a payload against declarations: accepted exactly when acceptable, and otherwise
      with the complaint the sorted passes reach first. */
  ghost predicate Judges(v: Verdict, declared: map<string, Spec>, given: map<string, Value>, readers: Readers) {
    if Acceptable(declared, given, readers) then v == Accepts
    else v.Rejects? && IsTheComplaint(v.why, declared, given, readers)
  }

  ghost predicate Validates(v: Verdict, p: Platform, cls: string, given: map<string, Value>) {
    if cls !in p.governed then v == Ungoverned
    else if cls !in p.table then v == Raises
    else Judges(v, Declared(p.table[cls]), given, p.readers)
  }

  /** There is one such verdict. */
  lemma VerdictUnique(v: Verdict, w: Verdict, p: Platform, cls: string, given: map<string, Value>)
    requires Validates(v, p, cls, given) && Validates(w, p, cls, given)
    ensures v == w
  {
    if v.Rejects? {
      Total(v.why.name, w.why.name);
    }
  }

  method ValidateActionParams(p: Platform, cls: string, given: map<string, Value>) returns (v: Verdict)
    ensures Validates(v, p, cls, given)
  {
    if cls !in p.governed {
      return Ungoverned;
    }
    if cls !in p.table {
      return Raises;
    }
    var declared := Declared(p.table[cls]);
    var names := Sorted(given.Keys);
    var i := FindUndeclared(names, declared);
    if i < |names| {
      FirstUndeclared(names, i, declared, given, p.readers);
      return Rejects(Undeclared(names[i]));
    }
    var specNames := Sorted(declared.Keys);
    var j := FindViolation(specNames, declared, given, p.readers);
    if j < |specNames| {
      FirstViolation(names, specNames, j, declared, given, p.readers);
      return Rejects(ComplaintAbout(specNames[j], given));
    }
    NothingFound(names, specNames, declared, given, p.readers);
    return Accepts;
  }

  /** The first of the sorted given names that is not declared; all of them are, at the end. */
  method FindUndeclared(names: seq<string>, declared: map<string, Spec>) returns (i: nat)
    ensures i <= |names| && (i < |names| ==> names[i] !in declared)
    ensures forall k :: 0 <= k < i ==> names[k] in declared
  {
    i := 0;
    while i < |names| && names[i] in declared
      invariant i <= |names| && forall k :: 0 <= k < i ==> names[k] in declared
    {
      i := i + 1;
    }
  }

  /** The first of the sorted declared names that the payload violates. */
  method FindViolation(names: seq<string>, declared: map<string, Spec>, given: map<string, Value>, readers: Readers) returns (i: nat)
    requires forall k :: 0 <= k < |names| ==> names[k] in declared
    ensures i <= |names| && (i < |names| ==> Violates(names[i], declared, given, readers))
    ensures forall k :: 0 <= k < i ==> !Violates(names[k], declared, given, readers)
  {
    i := 0;
    while i < |names| && !Violates(names[i], declared, given, readers)
      invariant i <= |names| && forall k :: 0 <= k < i ==> !Violates(names[k], declared, given, readers)
    {
      i := i + 1;
    }
  }

  lemma FirstUndeclared(names: seq<string>, i: nat, declared: map<string, Spec>, given: map<string, Value>, readers: Readers)
    requires names == Sorted(given.Keys) && i < |names| && names[i] !in declared
    requires forall k :: 0 <= k < i ==> names[k] in declared
    ensures Judges(Rejects(Undeclared(names[i])), declared, given, readers)
  {
    LeastOutside(names, i, declared.Keys);
    assert names[i] in given.Keys - declared.Keys;
  }

  lemma GivenAreDeclared(names: seq<string>, declared: map<string, Spec>, given: map<string, Value>)
    requires names == Sorted(given.Keys) && forall k :: 0 <= k < |names| ==> names[k] in declared
    ensures given.Keys <= declared.Keys
  {
    forall n | n in given ensures n in declared {
      assert n in names;
    }
  }

  lemma FirstViolation(givenNames: seq<string>, names: seq<string>, i: nat, declared: map<string, Spec>, given: map<string, Value>, readers: Readers)
    requires givenNames == Sorted(given.Keys) && forall k :: 0 <= k < |givenNames| ==> givenNames[k] in declared
    requires names == Sorted(declared.Keys) && i < |names| && names[i] in declared && Violates(names[i], declared, given, readers)
    requires forall k :: 0 <= k < i ==> names[k] in declared && !Violates(names[k], declared, given, readers)
    ensures Judges(Rejects(ComplaintAbout(names[i], given)), declared, given, readers)
  {
    GivenAreDeclared(givenNames, declared, given);
    forall n | n in declared && Violates(n, declared, given, readers)
      ensures Leq(names[i], n)
    {
      assert n in names;
      Total(n, n);
    }
  }

  lemma NothingFound(givenNames: seq<string>, names: seq<string>, declared: map<string, Spec>, given: map<string, Value>, readers: Readers)
    requires givenNames == Sorted(given.Keys) && forall k :: 0 <= k < |givenNames| ==> givenNames[k] in declared
    requires names == Sorted(declared.Keys)
    requires forall k :: 0 <= k < |names| ==> names[k] in declared && !Violates(names[k], declared, given, readers)
    ensures Judges(Accepts, declared, given, readers)
  {
    GivenAreDeclared(givenNames, declared, given);
    forall n | n in declared ensures !Violates(n, declared, given, readers) {
      assert n in names;
    }
  }

  lemma LeastOutside(names: seq<string>, i: nat, inside: set<string>)
    requires i < |names| && names[i] !in inside
    requires forall a, b :: 0 <= a < b < |names| ==> Leq(names[a], names[b])
    requires forall k :: 0 <= k < i ==> names[k] in inside
    ensures forall n :: n in names && n !in inside ==> Leq(names[i], n)
  {
    Total(names[i], names[i]);
  }

  /** What a declared type takes: text with something in it, an integer or text that reads as one, or
      text that reads as a JSON object; a boolean is none of these, and an unknown type takes nothing. */
  ghost predicate Fits(t: ParamType, v: Value, readers: Readers) {
    match t
    case StringType => exists s :: v == Text(s) && HasInk(s)
    case IntegerType => v.Number? || (exists s :: (v == Text(s) || v == Other(s)) && readers.integer(s))
    case JsonObjectType => exists s :: v == Text(s) && HasInk(s) && readers.jsonObject(s)
    case UndeclaredType => false
  }

  predicate HasInk(s: string) {
    exists i :: 0 <= i < |s| && !IsSpace(s[i])
  }

  lemma TypeOkIff(s: Spec, v: Value, readers: Readers)
    ensures TypeOk(s, v, readers) <==> Fits(s.ptype, v, readers)
  {
  }

  /** On a class that declares one parameter: a payload with just that parameter is accepted exactly when
      the value fits its type, the empty payload exactly when it is not required, and any payload with a
      name that is neither it nor the reason is refused for an undeclared name. */
  lemma OneParameterValidates(p: Platform, cls: string, s: Spec, v: Value, verdict: Verdict, given: map<string, Value>)
    requires cls in p.governed && cls in p.table && p.table[cls] == [s] && s.name != "reason"
    requires Validates(verdict, p, cls, given)
    ensures given == map[s.name := v] ==> (verdict == Accepts <==> Fits(s.ptype, v, p.readers))
    ensures given == map[s.name := v] && verdict != Accepts ==> verdict == Rejects(BadValue(s.name))
    ensures given == map[] ==> verdict == if s.required then Rejects(Absent(s.name)) else Accepts
    ensures (exists n :: n in given && n !in {s.name, "reason"}) <==> verdict.Rejects? && verdict.why.Undeclared?
  {
    assert [s][..0] == [];
    assert ByName([s]) == map[][s.name := s];
    var declared := Declared([s]);
    assert declared == map[s.name := s, "reason" := REASON];
    TypeOkIff(s, v, p.readers);
    if given == map[s.name := v] || given == map[] {
      assert !Violates("reason", declared, given, p.readers);
      assert Violates(s.name, declared, given, p.readers) <==> if s.name in given then !TypeOk(s, v, p.readers) else s.required;
    }
  }

  // ---- the resolver ---------------------------------------------------------------------------

  datatype Refusal = UngovernedClass | NeverSupplied(name: string) | NoComponent(name: string) | Invalid(why: Verdict)

  datatype Resolution = Payload(params: map<string, Value>) | Refuses(why: Refusal) | Crashes

  datatype Collected = Collecting(params: map<string, Value>) | Stopped(why: Refusal)

  function Collect(specs: seq<Spec>, component: string, start: map<string, Value>): Collected {
    if specs == [] then Collecting(start)
    else
      var before, s := Collect(specs[..|specs| - 1], component, start), specs[|specs| - 1];
      if before.Stopped? then before
      else if AgentUnsuppliable(s) then Stopped(NeverSupplied(s.name))
      else if !s.source.FromComponent? then before
      else if component == "" then Stopped(NoComponent(s.name))
      else Collecting(before.params[s.name := Text(component)])
  }

  function WithReason(reason: string): map<string, Value> {
    if reason != "" then map[REASON.name := Text(reason)] else map[]
  }

  /** What resolving comes to. */
  ghost predicate Resolves(r: Resolution, p: Platform, cls: string, component: string, reason: string) {
    if cls !in p.governed then r == Refuses(UngovernedClass)
    else if cls !in p.table then r == Crashes
    else
      var c := Collect(p.table[cls], component, WithReason(reason));
      if c.Stopped? then r == Refuses(c.why)
      else if Acceptable(Declared(p.table[cls]), c.params, p.readers) then r == Payload(c.params)
      else r.Refuses? && r.why.Invalid? && Validates(r.why.why, p, cls, c.params)
  }

  method ResolveActionParams(p: Platform, cls: string, component: string, reason: string) returns (r: Resolution)
    ensures Resolves(r, p, cls, component, reason)
  {
    if cls !in p.governed {
      return Refuses(UngovernedClass);
    }
    if cls !in p.table {
      return Crashes;
    }
    var specs := p.table[cls];
    var params: map<string, Value> := map[];
    if reason != "" {
      params := params[REASON.name := Text(reason)];
    }
    for i := 0 to |specs|
      invariant Collect(specs[..i], component, WithReason(reason)) == Collecting(params)
    {
      var s := specs[i];
      assert specs[..i + 1][..i] == specs[..i];
      if AgentUnsuppliable(s) {
        CollectStops(specs, i + 1, component, WithReason(reason));
        return Refuses(NeverSupplied(s.name));
      }
      if s.source.FromComponent? {
        if component == "" {
          CollectStops(specs, i + 1, component, WithReason(reason));
          return Refuses(NoComponent(s.name));
        }
        params := params[s.name := Text(component)];
      }
    }
    assert specs[..|specs|] == specs;
    var v := ValidateActionParams(p, cls, params);
    if v != Accepts {
      return Refuses(Invalid(v));
    }
    return Payload(params);
  }

  lemma {:induction false} CollectStops(specs: seq<Spec>, n: nat, component: string, start: map<string, Value>)
    requires n <= |specs| && Collect(specs[..n], component, start).Stopped?
    ensures Collect(specs, component, start) == Collect(specs[..n], component, start)
  {
    if n == |specs| {
      assert specs[..n] == specs;
    } else {
      assert specs[..|specs| - 1][..n] == specs[..n];
      CollectStops(specs[..|specs| - 1], n, component, start);
    }
  }

  // ---- what resolving means -------------------------------------------------------------------

  /** The table's well-formedness: distinct names, none of them the annotation's. */
  predicate WellNamed(specs: seq<Spec>) {
    && (forall i, j :: 0 <= i < j < |specs| ==> specs[i].name != specs[j].name)
    && (forall i :: 0 <= i < |specs| ==> specs[i].name != REASON.name)
  }

  predicate Blocks(s: Spec, component: string) {
    AgentUnsuppliable(s) || (s.source.FromComponent? && component == "")
  }

  /** The loop's result: the reason if any, and the component under every component-sourced name. */
  ghost predicate CollectsAll(specs: seq<Spec>, component: string, reason: string, params: map<string, Value>) {
    && (forall n :: n in params <==> (n == REASON.name && reason != "")
                                     || exists i :: 0 <= i < |specs| && specs[i].source.FromComponent? && specs[i].name == n)
    && (reason != "" ==> params[REASON.name] == Text(reason))
    && (forall i :: 0 <= i < |specs| && specs[i].source.FromComponent? ==> params[specs[i].name] == Text(component))
  }

  lemma {:induction false} CollectMeaning(specs: seq<Spec>, component: string, reason: string)
    requires WellNamed(specs)
    ensures var c := Collect(specs, component, WithReason(reason));
            && (c.Collecting? <==> forall i :: 0 <= i < |specs| ==> !Blocks(specs[i], component))
            && (c.Collecting? ==> CollectsAll(specs, component, reason, c.params))
  {
    if |specs| > 0 {
      var n := |specs| - 1;
      var init := specs[..n];
      CollectMeaning(init, component, reason);
      var before, c := Collect(init, component, WithReason(reason)), Collect(specs, component, WithReason(reason));
      if before.Stopped? {
        var i :| 0 <= i < n && Blocks(init[i], component);
        assert Blocks(specs[i], component);
      } else if c.Collecting? {
        CollectOneMore(specs, component, reason, before.params, c.params);
      } else {
        assert Blocks(specs[n], component);
      }
    }
  }

  lemma CollectOneMore(specs: seq<Spec>, component: string, reason: string,
                       before: map<string, Value>, after: map<string, Value>)
    requires |specs| > 0 && WellNamed(specs) && CollectsAll(specs[..|specs| - 1], component, reason, before)
    requires var s := specs[|specs| - 1];
             after == if s.source.FromComponent? then before[s.name := Text(component)] else before
    ensures CollectsAll(specs, component, reason, after)
  {
    var n := |specs| - 1;
    forall name
      ensures name in after <==> (name == REASON.name && reason != "")
                                 || exists i :: 0 <= i < |specs| && specs[i].source.FromComponent? && specs[i].name == name
    {
      if i :| 0 <= i < |specs| && specs[i].source.FromComponent? && specs[i].name == name {
        if i < n { assert specs[..n][i].name == name; }
      }
      if i :| 0 <= i < n && specs[..n][i].source.FromComponent? && specs[..n][i].name == name {
        assert specs[i].name == name;
      }
    }
    forall i | 0 <= i < n && specs[i].source.FromComponent?
      ensures after[specs[i].name] == Text(component)
    {
      assert specs[..n][i] == specs[i];
    }
  }

  lemma {:induction false} ByNameKeys(specs: seq<Spec>, name: string)
    ensures name in ByName(specs) <==> exists i :: 0 <= i < |specs| && specs[i].name == name
  {
    if specs != [] {
      var n := |specs| - 1;
      var init := specs[..n];
      ByNameKeys(init, name);
      if i :| 0 <= i < |specs| && specs[i].name == name {
        if i < n { assert init[i].name == name; }
      }
      if i :| 0 <= i < n && init[i].name == name {
        assert specs[i].name == name;
      }
    }
  }

  lemma {:induction false} ByNameFinds(specs: seq<Spec>, i: nat)
    requires WellNamed(specs) && i < |specs|
    ensures specs[i].name in ByName(specs) && ByName(specs)[specs[i].name] == specs[i]
  {
    var n := |specs| - 1;
    if i < n {
      assert specs[..n][i] == specs[i] && specs[n].name != specs[i].name;
      ByNameFinds(specs[..n], i);
    }
  }

  lemma DeclaredMeaning(specs: seq<Spec>)
    requires WellNamed(specs)
    ensures forall n :: n in Declared(specs) <==> n == REASON.name || exists i :: 0 <= i < |specs| && specs[i].name == n
    ensures forall i :: 0 <= i < |specs| ==> specs[i].name in Declared(specs) && Declared(specs)[specs[i].name] == specs[i]
    ensures Declared(specs)[REASON.name] == REASON
  {
    forall n
      ensures n in ByName(specs) <==> exists i :: 0 <= i < |specs| && specs[i].name == n
    {
      ByNameKeys(specs, n);
    }
    forall i | 0 <= i < |specs|
      ensures specs[i].name in ByName(specs) && ByName(specs)[specs[i].name] == specs[i]
    {
      ByNameFinds(specs, i);
    }
  }

  /** Exactly when evidence resolves a class: nothing is unsuppliable, a component is reported and
      fits wherever one is named, nothing else is required, and the reason is absent or not blank. */
  predicate Resolvable(specs: seq<Spec>, component: string, reason: string, readers: Readers) {
    && (forall i :: 0 <= i < |specs| ==>
          && !Blocks(specs[i], component)
          && (specs[i].source.FromComponent? ==> TypeOk(specs[i], Text(component), readers))
          && (specs[i].required ==> specs[i].source.FromComponent?))
    && (reason == "" || !Blank(reason))
  }

  lemma AcceptableIff(specs: seq<Spec>, component: string, reason: string, params: map<string, Value>, readers: Readers)
    requires WellNamed(specs) && CollectsAll(specs, component, reason, params)
    requires forall i :: 0 <= i < |specs| ==> !Blocks(specs[i], component)
    ensures Acceptable(Declared(specs), params, readers) <==> Resolvable(specs, component, reason, readers)
  {
    DeclaredMeaning(specs);
    var declared := Declared(specs);
    assert params.Keys <= declared.Keys;
    forall i | 0 <= i < |specs|
      ensures specs[i].name in params <==> specs[i].source.FromComponent?
      ensures !Violates(specs[i].name, declared, params, readers) <==>
              if specs[i].source.FromComponent? then TypeOk(specs[i], Text(component), readers) else !specs[i].required
    {
      assert specs[i].name in declared;
    }
    assert !Violates(REASON.name, declared, params, readers) <==> reason == "" || !Blank(reason);
    if Acceptable(declared, params, readers) {
      forall i | 0 <= i < |specs|
        ensures !Violates(specs[i].name, declared, params, readers)
      {
        assert specs[i].name in declared;
      }
    }
  }

  /** A payload comes back exactly when the evidence resolves the class; it carries the component
      under every component-sourced name, the reason, and nothing else; and the validator accepts it. */
  lemma ResolvesIff(r: Resolution, p: Platform, cls: string, component: string, reason: string)
    requires cls in p.governed && cls in p.table && WellNamed(p.table[cls])
    requires Resolves(r, p, cls, component, reason)
    ensures r.Payload? <==> Resolvable(p.table[cls], component, reason, p.readers)
    ensures r.Payload? ==> CollectsAll(p.table[cls], component, reason, r.params) && Validates(Accepts, p, cls, r.params)
  {
    var specs := p.table[cls];
    CollectMeaning(specs, component, reason);
    var c := Collect(specs, component, WithReason(reason));
    if c.Collecting? {
      AcceptableIff(specs, component, reason, c.params, p.readers);
    }
  }

  // ---- agreement ------------------------------------------------------------------------------

  predicate StringComponents(specs: seq<Spec>) {
    forall i :: 0 <= i < |specs| && specs[i].source.FromComponent? ==> specs[i].ptype.StringType?
  }

  predicate SomeUnsuppliable(specs: seq<Spec>) {
    exists i :: 0 <= i < |specs| && AgentUnsuppliable(specs[i])
  }

  /** A required parameter that no rule names and no evidence supplies: declared unavailable without
      saying what is missing, or sourced from a default or an annotation. */
  predicate Overlooked(s: Spec) {
    s.required && !s.source.FromComponent? && !AgentUnsuppliable(s)
  }

  predicate SomeOverlooked(specs: seq<Spec>) {
    exists i :: 0 <= i < |specs| && Overlooked(specs[i])
  }

  /** Whether some component and reason make the resolver return a payload. */
  ghost predicate SomeEvidenceResolves(p: Platform, cls: string) {
    exists r: Resolution, component: string, reason: string :: r.Payload? && Resolves(r, p, cls, component, reason)
  }

  lemma ResolvableBySomeEvidenceIff(p: Platform, cls: string)
    requires cls in p.governed && cls in p.table && WellNamed(p.table[cls]) && StringComponents(p.table[cls])
    ensures SomeEvidenceResolves(p, cls) <==> !SomeUnsuppliable(p.table[cls]) && !SomeOverlooked(p.table[cls])
  {
    var specs := p.table[cls];
    if !SomeUnsuppliable(specs) && !SomeOverlooked(specs) {
      assert !Blank("x") by { assert !IsSpace("x"[0]); }
      forall i | 0 <= i < |specs|
        ensures !Blocks(specs[i], "x") && (specs[i].required ==> specs[i].source.FromComponent?)
      {
        assert !AgentUnsuppliable(specs[i]) && !Overlooked(specs[i]);
      }
      assert Resolvable(specs, "x", "", p.readers);
      var params := Collect(specs, "x", WithReason(""));
      CollectMeaning(specs, "x", "");
      AcceptableIff(specs, "x", "", params.params, p.readers);
      assert Resolves(Payload(params.params), p, cls, "x", "");
    }
    if SomeEvidenceResolves(p, cls) {
      var r: Resolution, component: string, reason: string :| r.Payload? && Resolves(r, p, cls, component, reason);
      ResolvesIff(r, p, cls, component, reason);
      forall i | 0 <= i < |specs|
        ensures !AgentUnsuppliable(specs[i]) && !Overlooked(specs[i])
      {
        assert !Blocks(specs[i], component);
      }
    }
  }

  /** The contract and the resolver agree on every class name, governed or not, exactly when the
      class is ungoverned, or it has an entry that either names something unsuppliable or overlooks
      no required parameter. */
  lemma ContractAgreesIff(p: Platform, cls: string)
    requires cls in p.governed && cls in p.table ==> WellNamed(p.table[cls]) && StringComponents(p.table[cls])
    ensures (ParameterContract(p, cls).agentResolvable <==> SomeEvidenceResolves(p, cls)) <==>
            (cls in p.governed ==> cls in p.table && (SomeUnsuppliable(p.table[cls]) || !SomeOverlooked(p.table[cls])))
  {
    if cls in p.governed && cls in p.table {
      ResolvableBySomeEvidenceIff(p, cls);
    }
  }

  /** A required parameter declared unavailable with no word on what is missing: the contract calls
      the class resolvable, and every attempt to resolve it is refused for that very parameter. */
  lemma SilentUnavailableDisagrees(readers: Readers, r: Resolution, component: string)
    requires var watts := Spec("watts", IntegerType, true, FromNowhere, "");
             Resolves(r, Platform({"CAP"}, map["CAP" := [watts]], readers), "CAP", component, "")
    ensures var watts := Spec("watts", IntegerType, true, FromNowhere, "");
            ParameterContract(Platform({"CAP"}, map["CAP" := [watts]], readers), "CAP").agentResolvable
    ensures r == Refuses(Invalid(Rejects(Absent("watts"))))
  {
    var watts := Spec("watts", IntegerType, true, FromNowhere, "");
    var declared := Declared([watts]);
    assert [watts][..0] == [];
    assert ByName([watts]) == map["watts" := watts];
    assert Collect([watts], component, WithReason("")) == Collecting(map[]);
    assert Violates("watts", declared, map[], readers);
  }

  // ---- which parameter is named ---------------------------------------------------------------

  lemma {:induction false} CollectStopsAtFirst(specs: seq<Spec>, i: nat, component: string, start: map<string, Value>)
    requires i < |specs| && Blocks(specs[i], component)
    requires forall k :: 0 <= k < i ==> !Blocks(specs[k], component)
    ensures Collect(specs, component, start) ==
            Stopped(if AgentUnsuppliable(specs[i]) then NeverSupplied(specs[i].name) else NoComponent(specs[i].name))
  {
    CollectPasses(specs[..i], component, start);
    assert specs[..i + 1][..i] == specs[..i];
    CollectStops(specs, i + 1, component, start);
  }

  lemma {:induction false} CollectPasses(specs: seq<Spec>, component: string, start: map<string, Value>)
    requires forall k :: 0 <= k < |specs| ==> !Blocks(specs[k], component)
    ensures Collect(specs, component, start).Collecting?
  {
    if specs != [] {
      CollectPasses(specs[..|specs| - 1], component, start);
    }
  }

  lemma FirstBlocking(specs: seq<Spec>, i: nat, component: string) returns (j: nat)
    requires i < |specs| && Blocks(specs[i], component)
    ensures j <= i && Blocks(specs[j], component) && forall k :: 0 <= k < j ==> !Blocks(specs[k], component)
  {
    j := 0;
    while !Blocks(specs[j], component)
      invariant j <= i && forall k :: 0 <= k < j ==> !Blocks(specs[k], component)
      decreases i - j
    {
      j := j + 1;
    }
  }

  /** When the contract names an unsatisfiable parameter, the resolver's refusal names the same one
      exactly when a component was reported or no component-sourced parameter comes before it. */
  lemma RefusalNamesContractsParameterIff(r: Resolution, p: Platform, cls: string, component: string, reason: string)
    requires cls in p.governed && cls in p.table && WellNamed(p.table[cls])
    requires FirstUnsuppliable(p.table[cls]).Some? && Resolves(r, p, cls, component, reason)
    ensures r.Refuses?
    ensures (r.why.NeverSupplied? && Some(r.why.name) == ParameterContract(p, cls).unsatisfied) <==>
            (component != "" || forall k :: 0 <= k < FirstUnsuppliable(p.table[cls]).value ==> !p.table[cls][k].source.FromComponent?)
  {
    var specs := p.table[cls];
    var first := FirstUnsuppliable(specs).value;
    assert Blocks(specs[first], component);
    var j := FirstBlocking(specs, first, component);
    CollectStopsAtFirst(specs, j, component, WithReason(reason));
  }

  // ---- the declared table ---------------------------------------------------------------------

  function Addressed(name: string): seq<Spec> {
    [Spec(name, StringType, true, FromComponent, "")]
  }

  function Defaulted(name: string): Spec {
    Spec(name, StringType, false, FromDefault, "")
  }

  /** The table as declared (constraint and default texts left out). */
  function DeclaredTable(): map<string, seq<Spec>> {
    map[
      "COLLECT_DIAGNOSTICS" := [], "SEL_CLEAR" := [], "BMC_RESET" := [], "FAN_RESET" := [],
      "IDENTIFY_LED" := Addressed("target"),
      "INTERFACE_DISABLE" := Addressed("interface"), "INTERFACE_ENABLE" := Addressed("interface"),
      "CLEAR_COUNTERS" := Addressed("interface"), "INTERFACE_RESET" := Addressed("interface"),
      "POWER_CYCLE" := [Defaulted("reset_type")],
      "POWER_CAP_ADJUST" := [Spec("target_watts", IntegerType, true, FromNowhere, "no power policy exists")],
      "CONFIG_RESTORE" := [Spec("attributes_json", JsonObjectType, true, FromNowhere, "drift detail is not on the wire")],
      "FIRMWARE_UPDATE" := [Spec("target_version", StringType, true, FromCampaign, ""),
                            Spec("image_uri", StringType, false, FromCampaign, ""), Defaulted("component")],
      "FIRMWARE_ROLLBACK" := [Defaulted("component"), Spec("expected_version", StringType, false, FromCampaign, "")]]
  }

  const NEVER_RESOLVED := {"POWER_CAP_ADJUST", "CONFIG_RESTORE", "FIRMWARE_UPDATE"}

  /** For the declared table the contract and the resolver agree on every class name, and the classes
      no evidence resolves are those three and the ungoverned ones. */
  lemma DeclaredTableAgrees(readers: Readers, cls: string)
    ensures var p := Platform(DeclaredTable().Keys, DeclaredTable(), readers);
            && (ParameterContract(p, cls).agentResolvable <==> SomeEvidenceResolves(p, cls))
            && (SomeEvidenceResolves(p, cls) <==> cls in DeclaredTable() && cls !in NEVER_RESOLVED)
  {
    var p := Platform(DeclaredTable().Keys, DeclaredTable(), readers);
    if cls in DeclaredTable() {
      var specs := DeclaredTable()[cls];
      assert |specs| <= 3;
      assert WellNamed(specs) && StringComponents(specs) && !SomeOverlooked(specs);
      assert SomeUnsuppliable(specs) <==> cls in NEVER_RESOLVED by {
        if cls in NEVER_RESOLVED {
          assert AgentUnsuppliable(specs[0]);
        }
      }
      ResolvableBySomeEvidenceIff(p, cls);
    }
    ContractAgreesIff(p, cls);
  }
}
