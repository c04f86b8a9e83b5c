/** Deep-merging the user, project and local settings. */
module SettingsMerge {
  import opened Wrappers

  // ---- Settings as values ----

  /** A JSON value: an object, or anything else. */
  datatype Tree<V> = Leaf(value: V) | Node(fields: map<string, Tree<V>>)

  /** What `_deep_merge` makes of two trees: objects are merged key by key, anything else of the
      override replaces what was there. */
  function Merged<V>(base: Tree<V>, over: Tree<V>): Tree<V>
    decreases over
  {
    if base.Leaf? || over.Leaf? then over
    else
      Node(map k | k in base.fields.Keys + over.fields.Keys ::
             if k !in over.fields then base.fields[k]
             else if k in base.fields then Merged(base.fields[k], over.fields[k])
             else over.fields[k])
  }

  function Lookup<V>(t: Tree<V>, path: seq<string>): Option<Tree<V>> {
    if path == [] then Some(t)
    else if t.Leaf? || path[0] !in t.fields then None
    else Lookup(t.fields[path[0]], path[1..])
  }

  predicate IsNode<V>(t: Option<Tree<V>>) {
    t.Some? && t.value.Node?
  }

  predicate IsLeaf<V>(t: Option<Tree<V>>) {
    t.Some? && t.value.Leaf?
  }

  // ---- Lookup in a merged tree ----

  lemma {:induction false} LookupAppend<V>(t: Tree<V>, p: seq<string>, q: seq<string>)
    ensures Lookup(t, p + q) == if Lookup(t, p).None? then None else Lookup(Lookup(t, p).value, q)
  {
    if p == [] {
      assert p + q == q;
    } else if t.Node? && p[0] in t.fields {
      assert (p + q)[1..] == p[1..] + q;
      LookupAppend(t.fields[p[0]], p[1..], q);
    }
  }

  /** Where both trees have an object, the merged tree has the two objects merged. */
  lemma {:induction false} MergedWhereBoth<V>(base: Tree<V>, over: Tree<V>, path: seq<string>)
    requires IsNode(Lookup(base, path)) && IsNode(Lookup(over, path))
    ensures Lookup(Merged(base, over), path) == Some(Merged(Lookup(base, path).value, Lookup(over, path).value))
  {
    if path != [] {
      MergedWhereBoth(base.fields[path[0]], over.fields[path[0]], path[1..]);
    }
  }

  /** Below such a place: a key that the override lacks keeps all of the base, a key that only one
      side has as an object, or that the base lacks, takes all of the override. */
  lemma MergedBelow<V>(base: Tree<V>, over: Tree<V>, path: seq<string>, key: string, rest: seq<string>)
    requires IsNode(Lookup(base, path)) && IsNode(Lookup(over, path))
    ensures var b, o := Lookup(base, path + [key]), Lookup(over, path + [key]);
      && (o.None? ==> Lookup(Merged(base, over), path + [key] + rest) == Lookup(base, path + [key] + rest))
      && (o.Some? && !(IsNode(b) && IsNode(o)) ==>
            Lookup(Merged(base, over), path + [key] + rest) == Lookup(over, path + [key] + rest))
  {
    var merged := Merged(base, over);
    MergedWhereBoth(base, over, path);
    OneKey(base, path, key, rest);
    OneKey(over, path, key, rest);
    OneKey(merged, path, key, rest);
  }

  lemma OneKey<V>(t: Tree<V>, path: seq<string>, key: string, rest: seq<string>)
    requires IsNode(Lookup(t, path))
    ensures var fields := Lookup(t, path).value.fields;
      && Lookup(t, path + [key]) == (if key in fields then Some(fields[key]) else None)
      && Lookup(t, path + [key] + rest) == (if key in fields then Lookup(fields[key], rest) else None)
  {
    var here := Lookup(t, path).value;
    LookupAppend(t, path, [key]);
    LookupAppend(t, path + [key], rest);
    assert [key][1..] == [];
  }

  /** A value of the override that is not an object wins. */
  lemma {:induction false} OverrideLeafWins<V>(base: Tree<V>, over: Tree<V>, path: seq<string>)
    requires IsLeaf(Lookup(over, path))
    ensures Lookup(Merged(base, over), path) == Lookup(over, path)
  {
    if path != [] && base.Node? && path[0] in base.fields {
      OverrideLeafWins(base.fields[path[0]], over.fields[path[0]], path[1..]);
    }
  }

  /** The override leaves a path alone: it has an object on the way, without the next key. */
  ghost predicate Untouched<V>(over: Tree<V>, path: seq<string>) {
    exists n | 0 <= n < |path| :: IsNode(Lookup(over, path[..n])) && path[n] !in Lookup(over, path[..n]).value.fields
  }

  /** What the override leaves alone survives. */
  lemma UntouchedSurvives<V>(base: Tree<V>, over: Tree<V>, path: seq<string>)
    requires Untouched(over, path) && Lookup(base, path).Some?
    ensures Lookup(Merged(base, over), path) == Lookup(base, path)
  {
    var n :| 0 <= n < |path| && IsNode(Lookup(over, path[..n])) && path[n] !in Lookup(over, path[..n]).value.fields;
    assert path == path[..n] + path[n..] == path[..n] + [path[n]] + path[n + 1..];
    LookupAppend(base, path[..n], path[n..]);
    OneKey(over, path[..n], path[n], path[n + 1..]);
    MergedBelow(base, over, path[..n], path[n], path[n + 1..]);
  }

  // ---- Merging again ----

  lemma {:induction false} MergedSelf<V>(t: Tree<V>)
    ensures Merged(t, t) == t
  {
    if t.Node? {
      forall k | k in t.fields
        ensures Merged(t.fields[k], t.fields[k]) == t.fields[k]
      {
        MergedSelf(t.fields[k]);
      }
      assert Merged(t, t).fields == t.fields;
    }
  }

  /** Merging the same override twice changes nothing. */
  lemma {:induction false} MergedAbsorbs<V>(base: Tree<V>, over: Tree<V>)
    ensures Merged(Merged(base, over), over) == Merged(base, over)
    decreases over
  {
    if base.Leaf? || over.Leaf? {
      MergedSelf(over);
    } else {
      var once := Merged(base, over);
      forall k | k in over.fields
        ensures Merged(once.fields[k], over.fields[k]) == once.fields[k]
      {
        if k in base.fields {
          MergedAbsorbs(base.fields[k], over.fields[k]);
        } else {
          MergedSelf(over.fields[k]);
        }
      }
      assert Merged(once, over).fields == once.fields;
    }
  }

  // ---- Associativity ----

  /** Every path of `t` is also one of `over`, unless `over` cuts it off. */
  predicate Covers<V>(over: Tree<V>, t: Tree<V>)
    decreases t
  {
    t.Node? && over.Node? ==>
      t.fields.Keys <= over.fields.Keys && forall k | k in t.fields :: Covers(over.fields[k], t.fields[k])
  }

  lemma {:induction false} CoversIsAbsorbed<V>(t: Tree<V>, over: Tree<V>)
    ensures Merged(t, over) == over <==> Covers(over, t)
    decreases t
  {
    if t.Node? && over.Node? {
      var merged := Merged(t, over);
      forall k | k in t.fields && k in over.fields
        ensures Merged(t.fields[k], over.fields[k]) == over.fields[k] <==> Covers(over.fields[k], t.fields[k])
      {
        CoversIsAbsorbed(t.fields[k], over.fields[k]);
      }
      if merged == over {
        assert merged.fields.Keys == over.fields.Keys;
        assert forall k | k in t.fields :: merged.fields[k] == over.fields[k];
      }
      if Covers(over, t) {
        assert merged.fields == over.fields;
      }
    }
  }

  /** Wherever a value that is no object stands between two objects, the outer one is covered. */
  predicate Compatible<V>(a: Tree<V>, b: Tree<V>, c: Tree<V>)
    decreases b
  {
    a.Node? && c.Node? ==>
      if b.Leaf? then Covers(c, a)
      else forall k | k in a.fields && k in b.fields && k in c.fields ::
             Compatible(a.fields[k], b.fields[k], c.fields[k])
  }

  /** Merging is associative on three trees exactly when they are compatible; in particular
      whenever they agree on which shared keys hold objects. */
  lemma {:induction false} MergedAssociative<V>(a: Tree<V>, b: Tree<V>, c: Tree<V>)
    ensures Merged(a, Merged(b, c)) == Merged(Merged(a, b), c) <==> Compatible(a, b, c)
    decreases b
  {
    if a.Node? && c.Node? {
      if b.Leaf? {
        CoversIsAbsorbed(a, c);
      } else {
        var left, right := Merged(a, Merged(b, c)), Merged(Merged(a, b), c);
        forall k | k in a.fields && k in b.fields && k in c.fields
          ensures left.fields[k] == right.fields[k] <==> Compatible(a.fields[k], b.fields[k], c.fields[k])
        {
          MergedAssociative(a.fields[k], b.fields[k], c.fields[k]);
        }
        assert left.fields.Keys == right.fields.Keys;
        if Compatible(a, b, c) {
          forall k | k in left.fields
            ensures left.fields[k] == right.fields[k]
          {
          }
          assert left.fields == right.fields;
        }
      }
    }
  }

  /** It can fail: a plain value in the middle hides the outer object on one side only. */
  lemma ValueBetweenObjects<V>(value: V)
    ensures var a, b, c := Node(map["k" := Node(map["x" := Leaf(value)])]), Node(map["k" := Leaf(value)]),
                           Node(map["k" := Node(map[])]);
      Merged(a, Merged(b, c)) != Merged(Merged(a, b), c)
  {
    var a, b, c := Node(map["k" := Node(map["x" := Leaf(value)])]), Node(map["k" := Leaf(value)]),
                   Node(map["k" := Node(map[])]);
    assert "x" in a.fields["k"].fields;
    assert !Covers(c.fields["k"], a.fields["k"]);
    assert !Compatible(a.fields["k"], b.fields["k"], c.fields["k"]);
    MergedAssociative(a, b, c);
  }

  /** The trees agree on which shared keys hold objects. */
  predicate SameShape<V>(a: Tree<V>, b: Tree<V>)
    decreases b
  {
    (a.Node? <==> b.Node?)
    && (a.Node? ==> forall k | k in a.fields && k in b.fields :: SameShape(a.fields[k], b.fields[k]))
  }

  lemma {:induction false} SameShapeCompatible<V>(a: Tree<V>, b: Tree<V>, c: Tree<V>)
    requires SameShape(a, b) && SameShape(b, c)
    ensures Compatible(a, b, c)
    decreases b
  {
    if a.Node? && b.Node? && c.Node? {
      forall k | k in a.fields && k in b.fields && k in c.fields
        ensures Compatible(a.fields[k], b.fields[k], c.fields[k])
      {
        SameShapeCompatible(a.fields[k], b.fields[k], c.fields[k]);
      }
    }
  }

  // ---- Three sources ----

  /** The sources in order of increasing weight; a missing or unreadable one is skipped. */
  function Load<V>(sources: seq<Option<Tree<V>>>): Tree<V> {
    if sources == [] then Node(map[])
    else
      var before, last := Load(sources[..|sources| - 1]), sources[|sources| - 1];
      if last.None? then before else Merged(before, last.value)
  }

  /** The heaviest source that has a plain value under a path decides, if the heavier ones leave
      the path alone: local beats project beats user. */
  lemma {:induction false} HeaviestWins<V>(sources: seq<Option<Tree<V>>>, i: nat, path: seq<string>)
    requires i < |sources| && sources[i].Some? && IsLeaf(Lookup(sources[i].value, path))
    requires forall j | i < j < |sources| :: sources[j].Some? ==> Untouched(sources[j].value, path)
    ensures Lookup(Load(sources), path) == Lookup(sources[i].value, path)
  {
    var n := |sources| - 1;
    if i == n {
      OverrideLeafWins(Load(sources[..n]), sources[n].value, path);
    } else {
      HeaviestWins(sources[..n], i, path);
      if sources[n].Some? {
        UntouchedSurvives(Load(sources[..n]), sources[n].value, path);
      }
    }
  }

  // ---- The code, on dictionaries ----

  datatype Item<V> = Scalar(value: V) | Nested(dict: Dict<V>)

  class Dict<V> {
    var entries: map<string, Item<V>>

    /** `copy`: shares whatever the entries refer to. */
    constructor (entries: map<string, Item<V>>)
      ensures this.entries == entries
    {
      this.entries := entries;
    }
  }

  /** `item` is the tree `t`, built of dictionaries of `heap`, which may be shared. */
  ghost predicate Denotes<V>(item: Item<V>, t: Tree<V>, heap: set<Dict<V>>)
    reads heap
    decreases t
  {
    match item
    case Scalar(v) => t == Leaf(v)
    case Nested(d) =>
      && d in heap && t.Node? && d.entries.Keys == t.fields.Keys
      && forall k | k in t.fields :: Denotes(d.entries[k], t.fields[k], heap)
  }

  lemma {:induction false} DenotesMore<V>(item: Item<V>, t: Tree<V>, heap: set<Dict<V>>, more: set<Dict<V>>)
    requires Denotes(item, t, heap) && heap <= more
    ensures Denotes(item, t, more)
    decreases t
  {
    if t.Node? {
      forall k | k in t.fields
        ensures Denotes(item.dict.entries[k], t.fields[k], more)
      {
        DenotesMore(item.dict.entries[k], t.fields[k], heap, more);
      }
    }
  }

  /** The entry under `k` once the keys of `done` have been merged. */
  function PartlyMerged<V>(base: Tree<V>, over: Tree<V>, done: set<string>, k: string): Option<Tree<V>>
    requires base.Node? && over.Node?
  {
    if k in done && k in over.fields then Some(Merged(base, over).fields[k])
    else if k in base.fields then Some(base.fields[k])
    else None
  }

  ghost predicate Partial<V>(entries: map<string, Item<V>>, base: Tree<V>, over: Tree<V>, done: set<string>,
                             heap: set<Dict<V>>)
    requires base.Node? && over.Node?
    reads heap
  {
    forall k :: (k in entries <==> PartlyMerged(base, over, done, k).Some?)
             && (k in entries ==> Denotes(entries[k], PartlyMerged(base, over, done, k).value, heap))
  }

  lemma PartialMore<V>(entries: map<string, Item<V>>, base: Tree<V>, over: Tree<V>, done: set<string>,
                       heap: set<Dict<V>>, more: set<Dict<V>>)
    requires base.Node? && over.Node? && Partial(entries, base, over, done, heap) && heap <= more
    ensures Partial(entries, base, over, done, more)
  {
    forall k | k in entries
      ensures Denotes(entries[k], PartlyMerged(base, over, done, k).value, more)
    {
      DenotesMore(entries[k], PartlyMerged(base, over, done, k).value, heap, more);
    }
  }

  lemma PartialStep<V>(entries: map<string, Item<V>>, base: Tree<V>, over: Tree<V>, done: set<string>,
                       heap: set<Dict<V>>,
                       key: string, item: Item<V>)
    requires base.Node? && over.Node? && Partial(entries, base, over, done, heap)
    requires key in over.fields && Denotes(item, Merged(base, over).fields[key], heap)
    ensures Partial(entries[key := item], base, over, done + {key}, heap)
  {
    forall k
      ensures k != key ==> PartlyMerged(base, over, done + {key}, k) == PartlyMerged(base, over, done, k)
    {
    }
  }

  /** `_deep_merge`. It has no right to modify anything: both inputs, and every dictionary below
      them, stay as they were. */
  method DeepMerge<V>(base: Dict<V>, over: Dict<V>, ghost b: Tree<V>, ghost o: Tree<V>, ghost heap: set<Dict<V>>)
    returns (result: Dict<V>, ghost heap': set<Dict<V>>)
    requires Denotes(Nested(base), b, heap) && Denotes(Nested(over), o, heap)
    ensures fresh(result) && heap <= heap' && fresh(heap' - heap)
    ensures Denotes(Nested(result), Merged(b, o), heap')
    decreases o, 1
  {
    result := new Dict(base.entries);
    heap' := heap;
    var todo := over.entries.Keys;
    ghost var done: set<string> := {};
    while todo != {}
      invariant fresh(result) && result !in heap' && heap <= heap' && fresh(heap' - heap)
      invariant done + todo == over.entries.Keys && done !! todo
      invariant Partial(result.entries, b, o, done, heap')
      invariant Denotes(Nested(over), o, heap)
      decreases todo
    {
      var key :| key in todo;
      heap' := MergeKey(result, over, key, b, o, done, heap, heap');
      todo, done := todo - {key}, done + {key};
    }
    PartialDone(result, b, o, done, heap');
    heap' := heap' + {result};
  }

  lemma PartialDone<V>(d: Dict<V>, base: Tree<V>, over: Tree<V>, done: set<string>, heap: set<Dict<V>>)
    requires base.Node? && over.Node? && done == over.fields.Keys
    requires Partial(d.entries, base, over, done, heap)
    ensures Denotes(Nested(d), Merged(base, over), heap + {d})
  {
    PartialMore(d.entries, base, over, done, heap, heap + {d});
    assert forall k :: k in d.entries <==> k in Merged(base, over).fields;
  }

  /** The body of the loop: settles the entry under `key`. */
  method MergeKey<V>(result: Dict<V>, over: Dict<V>, key: string, ghost b: Tree<V>, ghost o: Tree<V>,
                     ghost done: set<string>,
                     ghost heap: set<Dict<V>>, ghost grown: set<Dict<V>>)
    returns (ghost grown': set<Dict<V>>)
    requires b.Node? && Denotes(Nested(over), o, heap) && heap <= grown && result !in grown
    requires key in o.fields && key !in done && Partial(result.entries, b, o, done, grown)
    modifies result
    ensures grown <= grown' && fresh(grown' - grown) && result !in grown'
    ensures Partial(result.entries, b, o, done + {key}, grown')
    decreases o, 0
  {
    assert PartlyMerged(b, o, done, key) == if key in b.fields then Some(b.fields[key]) else None;
    DenotesMore(over.entries[key], o.fields[key], heap, grown);
    var item;
    item, grown' := MergeEntry(if key in result.entries then Some(result.entries[key]) else None, over.entries[key],
                               if key in b.fields then Some(b.fields[key]) else None, o.fields[key], grown);
    PartialMore(result.entries, b, o, done, grown, grown');
    PartialStep(result.entries, b, o, done, grown', key, item);
    result.entries := result.entries[key := item];
  }

  /** The entry that the override's `item` leaves in the place of `existing`. */
  method MergeEntry<V>(existing: Option<Item<V>>, item: Item<V>, ghost b: Option<Tree<V>>, ghost o: Tree<V>,
                       ghost heap: set<Dict<V>>)
    returns (r: Item<V>, ghost heap': set<Dict<V>>)
    requires existing.Some? <==> b.Some?
    requires existing.Some? ==> Denotes(existing.value, b.value, heap)
    requires Denotes(item, o, heap)
    ensures heap <= heap' && fresh(heap' - heap)
    ensures Denotes(r, if b.Some? then Merged(b.value, o) else o, heap')
    decreases o, 2
  {
    if existing.Some? && existing.value.Nested? && item.Nested? {
      var merged;
      merged, heap' := DeepMerge(existing.value.dict, item.dict, b.value, o, heap);
      r := Nested(merged);
    } else {
      r, heap' := item, heap;
    }
  }

  /** The fold of `load` over the sources that could be read. */
  method LoadMerged<V>(sources: seq<Option<Dict<V>>>, ghost trees: seq<Option<Tree<V>>>, ghost heap: set<Dict<V>>)
    returns (merged: Dict<V>, ghost heap': set<Dict<V>>)
    requires |sources| == |trees|
    requires forall i | 0 <= i < |sources| :: sources[i].Some? <==> trees[i].Some?
    requires forall i | 0 <= i < |sources| ::
      sources[i].Some? ==> Denotes(Nested(sources[i].value), trees[i].value, heap)
    ensures fresh(merged) && heap <= heap' && fresh(heap' - heap)
    ensures Denotes(Nested(merged), Load(trees), heap')
  {
    merged := new Dict(map[]);
    heap' := heap + {merged};
    for i := 0 to |sources|
      invariant fresh(merged) && heap <= heap' && fresh(heap' - heap)
      invariant Denotes(Nested(merged), Load(trees[..i]), heap')
    {
      assert trees[..i + 1][..i] == trees[..i];
      if sources[i].Some? {
        DenotesMore(Nested(sources[i].value), trees[i].value, heap, heap');
        merged, heap' := DeepMerge(merged, sources[i].value, Load(trees[..i]), trees[i].value, heap');
      }
    }
    assert trees[..|trees|] == trees;
  }
}
