/** The layered deep merge behind the effective configuration. */
module Config {
  import opened Wrappers

  /** A configuration value: a mapping is a section, anything else (a list too) is a leaf. */
  datatype Node<V> = Leaf(value: V) | Section(entries: map<string, Node<V>>)

  type Path = seq<string>

  /** Two sections merge key by key; otherwise the override stands. */
  function Merge<V>(base: Node<V>, over: Node<V>): Node<V>
    decreases over
  {
    if base.Section? && over.Section? then
      Section(map k | k in base.entries.Keys + over.entries.Keys ::
        if k !in over.entries then base.entries[k]
        else if k !in base.entries then over.entries[k]
        else Merge(base.entries[k], over.entries[k]))
    else over
  }

  lemma SameEntries<V>(x: map<string, V>, y: map<string, V>)
    requires forall k :: k in x <==> k in y
    ensures x == y <==> forall k :: k in x ==> x[k] == y[k]
  {
  }

  /** One key of two merged sections. */
  lemma MergedEntry<V>(a: Node<V>, b: Node<V>, k: string)
    requires a.Section? && b.Section?
    ensures var m := Merge(a, b);
            && m.Section? && (k in m.entries <==> k in a.entries || k in b.entries)
            && (k in a.entries && k !in b.entries ==> m.entries[k] == a.entries[k])
            && (k !in a.entries && k in b.entries ==> m.entries[k] == b.entries[k])
            && (k in a.entries && k in b.entries ==> m.entries[k] == Merge(a.entries[k], b.entries[k]))
  {
  }

  /** The base with every item of the override outside `todo` merged in. */
  ghost predicate MergedSoFar<V>(base: map<string, Node<V>>, over: Node<V>, todo: set<string>, result: map<string, Node<V>>)
    requires over.Section?
  {
    && (forall k :: k in result <==> k in base || (k in over.entries && k !in todo))
    && (forall k :: k in result && (k in todo || k !in over.entries) ==> k in base && result[k] == base[k])
    && (forall k :: k in over.entries && k !in todo ==>
          k in Merge(Section(base), over).entries && result[k] == Merge(Section(base), over).entries[k])
  }

  lemma MergedAll<V>(base: map<string, Node<V>>, over: Node<V>, result: map<string, Node<V>>)
    requires over.Section? && MergedSoFar(base, over, {}, result)
    ensures Section(result) == Merge(Section(base), over)
  {
    var want := Merge(Section(base), over).entries;
    forall k ensures k in result <==> k in want
      ensures k in result ==> result[k] == want[k]
    {
      MergedEntry(Section(base), over, k);
    }
    SameEntries(result, want);
  }

  lemma MergeOneMore<V>(base: map<string, Node<V>>, over: Node<V>, todo: set<string>, result: map<string, Node<V>>, key: string)
    requires over.Section? && key in todo && key in over.entries && MergedSoFar(base, over, todo, result)
    ensures key in result <==> key in base
    ensures key in result ==> result[key] == base[key]
    ensures var value := if key in result then Merge(result[key], over.entries[key]) else over.entries[key];
            MergedSoFar(base, over, todo - {key}, result[key := value])
  {
    MergedEntry(Section(base), over, key);
  }

  /** `_deep_merge` as written: copy the base, then go over the override's items. */
  method DeepMerge<V(==)>(base: map<string, Node<V>>, over: Node<V>) returns (result: map<string, Node<V>>)
    requires over.Section?
    ensures Section(result) == Merge(Section(base), over)
    decreases over
  {
    result := base;
    var todo := over.entries.Keys;
    while todo != {}
      invariant todo <= over.entries.Keys && MergedSoFar(base, over, todo, result)
      decreases |todo|
    {
      var key :| key in todo;
      var value := over.entries[key];
      MergeOneMore(base, over, todo, result, key);
      if key in result && result[key].Section? && value.Section? {
        var inner := DeepMerge(result[key].entries, value);
        assert Section(result[key].entries) == result[key];
        result := result[key := Section(inner)];
      } else {
        result := result[key := value];
      }
      todo := todo - {key};
    }
    MergedAll(base, over, result);
  }

  /** The value at a path, a section or a leaf. */
  function Lookup<V>(n: Node<V>, path: Path): Option<Node<V>> {
    if path == [] then Some(n)
    else if n.Section? && path[0] in n.entries then Lookup(n.entries[path[0]], path[1..])
    else None
  }

  /** The layer settles the path: it has a leaf there or above. */
  predicate Settles<V>(n: Node<V>, path: Path) {
    n.Leaf? || (path != [] && path[0] in n.entries && Settles(n.entries[path[0]], path[1..]))
  }

  predicate SectionAt<V>(n: Node<V>, path: Path) {
    Lookup(n, path).Some? && Lookup(n, path).value.Section?
  }

  /** What a merged configuration holds at any path: the override where it settles it, the two
      sections merged where both have one, the override's section where only it has one, and the
      base's value everywhere else. */
  lemma {:induction false} LookupMerge<V>(a: Node<V>, b: Node<V>, path: Path)
    ensures Lookup(Merge(a, b), path) ==
            if Settles(b, path) then Lookup(b, path)
            else if SectionAt(b, path) then
              if SectionAt(a, path) then Some(Merge(Lookup(a, path).value, Lookup(b, path).value)) else Lookup(b, path)
            else Lookup(a, path)
    decreases path
  {
    if path != [] && a.Section? && b.Section? && path[0] in a.entries && path[0] in b.entries {
      LookupMerge(a.entries[path[0]], b.entries[path[0]], path[1..]);
    } else if path != [] && b.Section? && path[0] in b.entries {
      MissingOrThere(b.entries[path[0]], path[1..]);
    }
  }

  /** A path is settled, a section, or missing. */
  lemma {:induction false} MissingOrThere<V>(n: Node<V>, path: Path)
    ensures !Settles(n, path) && !SectionAt(n, path) ==> Lookup(n, path).None?
    ensures Settles(n, path) ==> !SectionAt(n, path)
    decreases path
  {
    if path != [] && n.Section? && path[0] in n.entries {
      MissingOrThere(n.entries[path[0]], path[1..]);
    }
  }

  // ---- idempotence and associativity ----------------------------------------------------------

  /** The node has at least the other's keys, all the way down where both are sections. */
  predicate Covers<V>(c: Node<V>, a: Node<V>)
    decreases a
  {
    a.Section? && c.Section? ==> forall k :: k in a.entries ==> k in c.entries && Covers(c.entries[k], a.entries[k])
  }

  /** Merging over something leaves no trace of it exactly when everything in it is covered. */
  lemma {:induction false} CoversIff<V>(c: Node<V>, a: Node<V>)
    ensures Covers(c, a) <==> Merge(a, c) == c
    decreases a
  {
    if a.Section? && c.Section? {
      forall k | k in a.entries && k in c.entries
        ensures Covers(c.entries[k], a.entries[k]) <==> Merge(a.entries[k], c.entries[k]) == c.entries[k]
      {
        CoversIff(c.entries[k], a.entries[k]);
      }
      if Covers(c, a) {
        assert Merge(a, c).entries == c.entries;
      } else {
        var k :| k in a.entries && !(k in c.entries && Covers(c.entries[k], a.entries[k]));
        assert k in Merge(a, c).entries;
      }
    }
  }

  lemma {:induction false} MergedCovers<V>(a: Node<V>, b: Node<V>)
    ensures Covers(b, b) && Covers(Merge(a, b), b) && Merge(Merge(a, b), b) == Merge(a, b)
    decreases b
  {
    if b.Section? {
      forall k | k in b.entries ensures Covers(b.entries[k], b.entries[k]) {
        MergedCovers(b.entries[k], b.entries[k]);
      }
    }
    if a.Section? && b.Section? {
      var ab := Merge(a, b);
      forall k | k in b.entries
        ensures Covers(ab.entries[k], b.entries[k])
        ensures Merge(ab.entries[k], b.entries[k]) == ab.entries[k]
      {
        if k in a.entries {
          MergedCovers(a.entries[k], b.entries[k]);
        } else {
          MergedCovers(b.entries[k], b.entries[k]);
          CoversIff(b.entries[k], b.entries[k]);
        }
      }
      assert Merge(ab, b).entries == ab.entries;
    } else {
      CoversIff(b, b);
    }
  }

  /** Applying the same override twice changes nothing more. */
  lemma MergeTwice<V>(a: Node<V>, b: Node<V>)
    ensures Merge(Merge(a, b), b) == Merge(a, b) && Merge(b, b) == b
  {
    MergedCovers(a, b);
    CoversIff(b, b);
  }

  /** A path where the lower layer has a section, the middle one a leaf, and the top one a section
      that leaves some of the lower one's keys uncovered. */
  predicate Clash<V>(a: Node<V>, b: Node<V>, c: Node<V>, path: Path) {
    && SectionAt(a, path) && SectionAt(c, path)
    && Lookup(b, path).Some? && Lookup(b, path).value.Leaf?
    && !Covers(Lookup(c, path).value, Lookup(a, path).value)
  }

  ghost predicate Clashes<V(!new)>(a: Node<V>, b: Node<V>, c: Node<V>) {
    exists path :: Clash(a, b, c, path)
  }

  /** Two ways of grouping three layers give the same configuration exactly when no path clashes. */
  lemma {:induction false} MergeAssociatesIff<V(!new)>(a: Node<V>, b: Node<V>, c: Node<V>)
    ensures Associates(a, b, c) <==> !Clashes(a, b, c)
    decreases c
  {
    if a.Section? && b.Section? && c.Section? {
      forall k | SharedBy(k, a, b, c)
        ensures Associates(a.entries[k], b.entries[k], c.entries[k]) <==> !Clashes(a.entries[k], b.entries[k], c.entries[k])
      {
        MergeAssociatesIff(a.entries[k], b.entries[k], c.entries[k]);
      }
      ClashBelow(a, b, c);
      MergeAssociatesBelow(a, b, c);
    } else {
      ClashAtRoot(a, b, c);
      if a.Section? && b.Leaf? && c.Section? {
        CoversIff(c, a);
      }
    }
  }

  predicate SharedBy<V>(k: string, a: Node<V>, b: Node<V>, c: Node<V>)
    requires a.Section? && b.Section? && c.Section?
  {
    k in a.entries && k in b.entries && k in c.entries
  }

  /** Grouping the three layers either way gives the same. */
  predicate Associates<V(==)>(a: Node<V>, b: Node<V>, c: Node<V>) {
    Merge(Merge(a, b), c) == Merge(a, Merge(b, c))
  }

  lemma GroupedEntries<V>(a: Node<V>, b: Node<V>, c: Node<V>, k: string)
    requires a.Section? && b.Section? && c.Section?
    ensures Merge(Merge(a, b), c).Section? && Merge(a, Merge(b, c)).Section?
    ensures k in Merge(Merge(a, b), c).entries <==> k in Merge(a, Merge(b, c)).entries
    ensures SharedBy(k, a, b, c) ==> k in Merge(Merge(a, b), c).entries
    ensures k in Merge(Merge(a, b), c).entries ==>
              (Merge(Merge(a, b), c).entries[k] == Merge(a, Merge(b, c)).entries[k] <==>
               (SharedBy(k, a, b, c) ==> Associates(a.entries[k], b.entries[k], c.entries[k])))
  {
    MergedEntry(a, b, k);
    MergedEntry(b, c, k);
    MergedEntry(Merge(a, b), c, k);
    MergedEntry(a, Merge(b, c), k);
  }

  /** Grouping three sections is grouping, key by key, what all three have. */
  lemma MergeAssociatesBelow<V>(a: Node<V>, b: Node<V>, c: Node<V>)
    requires a.Section? && b.Section? && c.Section?
    ensures Associates(a, b, c) <==> forall k :: SharedBy(k, a, b, c) ==> Associates(a.entries[k], b.entries[k], c.entries[k])
  {
    GroupedEntries(a, b, c, "");
    var left, right := Merge(Merge(a, b), c).entries, Merge(a, Merge(b, c)).entries;
    forall k
      ensures k in left <==> k in right
      ensures SharedBy(k, a, b, c) ==> k in left
      ensures k in left ==> (left[k] == right[k] <==> (SharedBy(k, a, b, c) ==> Associates(a.entries[k], b.entries[k], c.entries[k])))
    {
      GroupedEntries(a, b, c, k);
    }
    SameEntries(left, right);
  }

  lemma ClashAtRoot<V(!new)>(a: Node<V>, b: Node<V>, c: Node<V>)
    requires !(a.Section? && b.Section? && c.Section?)
    ensures Clashes(a, b, c) <==> a.Section? && b.Leaf? && c.Section? && !Covers(c, a)
  {
    if a.Section? && b.Leaf? && c.Section? && !Covers(c, a) {
      assert Clash(a, b, c, []);
    }
    if path :| Clash(a, b, c, path) {
      assert path == [];
    }
  }

  lemma ClashBelow<V(!new)>(a: Node<V>, b: Node<V>, c: Node<V>)
    requires a.Section? && b.Section? && c.Section?
    ensures Clashes(a, b, c) <==>
            exists k :: SharedBy(k, a, b, c) && Clashes(a.entries[k], b.entries[k], c.entries[k])
  {
    if path :| Clash(a, b, c, path) {
      assert path != [];
      assert SharedBy(path[0], a, b, c);
      assert Clash(a.entries[path[0]], b.entries[path[0]], c.entries[path[0]], path[1..]);
    }
    if k :| SharedBy(k, a, b, c) && Clashes(a.entries[k], b.entries[k], c.entries[k]) {
      var path :| Clash(a.entries[k], b.entries[k], c.entries[k], path);
      assert ([k] + path)[1..] == path;
      assert Clash(a, b, c, [k] + path);
    }
  }

  /** No path is a section in one layer and a leaf in another. */
  ghost predicate SameShape<V>(a: Node<V>, b: Node<V>) {
    forall path :: Lookup(a, path).Some? && Lookup(b, path).Some? ==> (SectionAt(a, path) <==> SectionAt(b, path))
  }

  lemma SameShapeAssociates<V(!new)>(a: Node<V>, b: Node<V>, c: Node<V>)
    requires SameShape(a, b) || SameShape(b, c)
    ensures Merge(Merge(a, b), c) == Merge(a, Merge(b, c))
  {
    MergeAssociatesIff(a, b, c);
  }

  // ---- layering -------------------------------------------------------------------------------

  /** Any number of layers, lowest first. */
  function Layered<V>(layers: seq<Node<V>>): Node<V>
    requires |layers| > 0
  {
    if |layers| == 1 then layers[0] else Merge(Layered(layers[..|layers| - 1]), layers[|layers| - 1])
  }

  /** The layers `load_config` applies: defaults, the file if there is one, the environment, the
      command line if it says anything. */
  method LoadConfig<V(==)>(defaults: map<string, Node<V>>, file: Option<map<string, Node<V>>>,
                           env: map<string, Node<V>>, cli: map<string, Node<V>>)
    returns (config: map<string, Node<V>>)
    ensures Section(config) == Layered([Section(defaults), Section(if file.Some? then file.value else map[]), Section(env), Section(cli)])
  {
    config := defaults;
    MergeNothing(Section(config));
    if file.Some? {
      config := DeepMerge(config, Section(file.value));
    }
    config := DeepMerge(config, Section(env));
    MergeNothing(Section(config));
    if cli != map[] {
      config := DeepMerge(config, Section(cli));
    }
    ghost var first, second := [Section(defaults)], Section(if file.Some? then file.value else map[]);
    LayeredOn(first, second);
    LayeredOn(first + [second], Section(env));
    LayeredOn(first + [second] + [Section(env)], Section(cli));
    assert first + [second] + [Section(env)] + [Section(cli)] == [Section(defaults), second, Section(env), Section(cli)];
  }

  lemma MergeNothing<V>(a: Node<V>)
    requires a.Section?
    ensures Merge(a, Section(map[])) == a
  {
    assert Merge(a, Section(map[])).entries == a.entries;
  }

  lemma LayeredOn<V>(layers: seq<Node<V>>, top: Node<V>)
    requires |layers| > 0
    ensures Layered(layers + [top]) == Merge(Layered(layers), top)
  {
    assert (layers + [top])[..|layers|] == layers;
  }

  /** The layer says nothing about the path: nothing there, and no leaf above it. */
  predicate Silent<V>(n: Node<V>, path: Path) {
    !Settles(n, path) && !SectionAt(n, path)
  }

  /** At every path the highest layer that settles it decides, whatever the layers below it hold,
      as long as every layer above is silent there. */
  lemma {:induction false} HighestSettlingLayerDecides<V>(layers: seq<Node<V>>, i: nat, path: Path)
    requires i < |layers| && Settles(layers[i], path)
    requires forall j :: i < j < |layers| ==> Silent(layers[j], path)
    ensures Lookup(Layered(layers), path) == Lookup(layers[i], path)
  {
    var n := |layers| - 1;
    if n > 0 {
      LookupMerge(Layered(layers[..n]), layers[n], path);
      if i < n {
        HighestSettlingLayerDecides(layers[..n], i, path);
      }
    }
  }

  /** A path no later layer mentions keeps the lowest layer's value. */
  lemma {:induction false} DefaultsShowThrough<V>(layers: seq<Node<V>>, path: Path)
    requires |layers| > 0 && forall j :: 0 < j < |layers| ==> Silent(layers[j], path)
    ensures Lookup(Layered(layers), path) == Lookup(layers[0], path)
  {
    var n := |layers| - 1;
    if n > 0 {
      LookupMerge(Layered(layers[..n]), layers[n], path);
      DefaultsShowThrough(layers[..n], path);
    }
  }
}
