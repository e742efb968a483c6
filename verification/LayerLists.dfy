/**
 Lists in layered configuration. A merge takes a list over whole, as the object it is: so a null inside a list survives, and
 a mapping inside a list is shared between the document and the result. Both happen exactly when such a list survives.
 */
module LayerLists {
  import opened Options
  import opened LayerMerge
  import opened MergeInPlace
  import opened LayeredConfig

  // -------------------------------------------------------------------------------------------------------- what survives

  /** The leaves at every mapping depth. */
  ghost function Leaves<V>(v: Value<V>): set<V>
    decreases v
  {
    match v
    case Null => {}
    case Leaf(leaf) => {leaf}
    case Mapping(entries) => set key, leaf | key in entries && leaf in Leaves(entries[key]) :: leaf
  }

  /** Every leaf of a patch survives its merge, and no leaf comes from elsewhere than the patch and its target. */
  lemma {:induction false} MergeLeaves<V>(target: Value<V>, patch: Value<V>, leaf: V)
    ensures leaf in Leaves(patch) ==> leaf in Leaves(MergePatch(target, patch))
    ensures leaf in Leaves(MergePatch(target, patch)) ==> leaf in Leaves(target) || leaf in Leaves(patch)
    decreases patch
  {
    if patch.Mapping? {
      var merged := MergePatch(target, patch);
      forall key | key in patch.entries
        ensures leaf in Leaves(patch.entries[key]) ==> key in merged.entries && leaf in Leaves(merged.entries[key])
        ensures key in merged.entries && leaf in Leaves(merged.entries[key]) ==>
                  leaf in Leaves(target.Get(key)) || leaf in Leaves(patch.entries[key]) {
        MergeLeaves(target.Get(key), patch.entries[key], leaf);
      }
      if leaf in Leaves(merged) {
        var key :| key in merged.entries && leaf in Leaves(merged.entries[key]);
        if key in patch.entries {
          assert leaf in Leaves(target.Get(key)) ==> leaf in Leaves(target);
        } else {
          assert target.Members()[key] == merged.entries[key];
        }
      }
    }
  }

  /** The leaf at the end of a path of keys. */
  function LeafAt<V>(v: Value<V>, keys: seq<string>): Option<V>
    decreases v
  {
    match v
    case Null => None
    case Leaf(leaf) => if keys == [] then Some(leaf) else None
    case Mapping(entries) =>
      if keys != [] && keys[0] in entries then LeafAt(entries[keys[0]], keys[1..]) else None
  }

  /** The patch settles what is at the end of the path: it stops being a mapping on the way, or the path ends in it. */
  predicate Hides<V>(patch: Value<V>, keys: seq<string>)
    decreases patch
  {
    !patch.Mapping? || keys == [] || (keys[0] in patch.entries && Hides(patch.entries[keys[0]], keys[1..]))
  }

  /** A merge takes a leaf from its patch where the patch settles the path, and from its target elsewhere. */
  lemma {:induction false} MergedLeafAt<V>(target: Value<V>, patch: Value<V>, keys: seq<string>)
    ensures LeafAt(MergePatch(target, patch), keys) ==
            if Hides(patch, keys) then LeafAt(patch, keys) else LeafAt(target, keys)
    decreases patch
  {
    if patch.Mapping? && keys != [] && keys[0] in patch.entries {
      MergedLeafAt(target.Get(keys[0]), patch.entries[keys[0]], keys[1..]);
    }
  }

  lemma {:induction false} LeafHides<V>(v: Value<V>, keys: seq<string>)
    ensures LeafAt(v, keys).Some? ==> Hides(v, keys)
    decreases v
  {
    if v.Mapping? && keys != [] && keys[0] in v.entries {
      LeafHides(v.entries[keys[0]], keys[1..]);
    }
  }

  /** Only a mapping is merged. */
  predicate LayerHides<V>(layer: Layer<V>, keys: seq<string>) {
    layer.Data? && layer.value.Mapping? && Hides(layer.value, keys)
  }

  function LayerLeafAt<V>(layer: Layer<V>, keys: seq<string>): Option<V> {
    if layer.Data? && layer.value.Mapping? then LeafAt(layer.value, keys) else None
  }

  /** Layer `i` has a leaf at the path, and no later layer settles it otherwise. */
  ghost predicate Survives<P, V>(paths: seq<P>, contents: map<P, Layer<V>>, i: nat, keys: seq<string>) {
    && i < |paths| && LayerLeafAt(LayerOf(contents, paths[i]), keys).Some?
    && forall j :: i < j < |paths| ==> !LayerHides(LayerOf(contents, paths[j]), keys)
  }

  function SurvivingLeaf<P, V>(paths: seq<P>, contents: map<P, Layer<V>>, i: nat, keys: seq<string>): Option<V> {
    if i < |paths| then LayerLeafAt(LayerOf(contents, paths[i]), keys) else None
  }

  /** The last layer that settles the path, or -1. */
  function LastHiding<P, V>(paths: seq<P>, contents: map<P, Layer<V>>, keys: seq<string>): (i: int)
    ensures -1 <= i < |paths|
    ensures i >= 0 ==> LayerHides(LayerOf(contents, paths[i]), keys)
    ensures forall j :: i < j < |paths| ==> !LayerHides(LayerOf(contents, paths[j]), keys)
  {
    if paths == [] then -1
    else if LayerHides(LayerOf(contents, paths[|paths| - 1]), keys) then |paths| - 1
    else LastHiding(paths[..|paths| - 1], contents, keys)
  }

  lemma {:induction false} LoadedLeafAt<P, V>(
    base: Value<V>, paths: seq<P>, contents: map<P, Layer<V>>, keys: seq<string>)
    ensures
      var last := LastHiding(paths, contents, keys);
      LeafAt(FoldLayers(base, paths, contents), keys) ==
        if last == -1 then LeafAt(base, keys) else LayerLeafAt(LayerOf(contents, paths[last]), keys)
  {
    if paths != [] {
      var front, path := paths[..|paths| - 1], paths[|paths| - 1];
      assert paths == front + [path];
      FoldOneMore(base, front, path, contents);
      LoadedLeafAt(base, front, contents, keys);
      var layer := LayerOf(contents, path);
      if layer.Data? { MergedLeafAt(FoldLayers(base, front, contents), layer.value, keys); }
    }
  }

  /** A loaded configuration has a leaf at a path if and only if some layer has it there and no later layer settles the path
      otherwise. */
  lemma LoadedLeafIff<P, V>(paths: seq<P>, contents: map<P, Layer<V>>, keys: seq<string>, leaf: V)
    ensures
      LeafAt(FoldLayers(Mapping(map[]), paths, contents), keys) == Some(leaf) <==>
      exists i: nat :: Survives(paths, contents, i, keys) && SurvivingLeaf(paths, contents, i, keys) == Some(leaf)
  {
    hide FoldLayers, Hides;
    LoadedLeafAt(Mapping(map[]), paths, contents, keys);
    var last := LastHiding(paths, contents, keys);
    if last >= 0 && LayerLeafAt(LayerOf(contents, paths[last]), keys) == Some(leaf) {
      assert Survives(paths, contents, last, keys);
    }
    forall i: nat | Survives(paths, contents, i, keys) ensures i == last {
      LeafHides(LayerOf(contents, paths[i]).value, keys);
    }
  }

  /** The leaves are what is found at the ends of paths. */
  lemma {:induction false} PathOfLeaf<V>(v: Value<V>, leaf: V) returns (keys: seq<string>)
    requires leaf in Leaves(v)
    ensures LeafAt(v, keys) == Some(leaf)
    decreases v
  {
    match v
    case Leaf(_) => keys := [];
    case Mapping(entries) =>
      var key :| key in entries && leaf in Leaves(entries[key]);
      var rest := PathOfLeaf(entries[key], leaf);
      keys := [key] + rest;
      assert keys[1..] == rest;
  }

  lemma {:induction false} LeafOfPath<V>(v: Value<V>, keys: seq<string>)
    ensures LeafAt(v, keys).Some? ==> LeafAt(v, keys).value in Leaves(v)
    decreases v
  {
    if v.Mapping? && keys != [] && keys[0] in v.entries { LeafOfPath(v.entries[keys[0]], keys[1..]); }
  }

  /** The leaves of a loaded configuration are the surviving ones. */
  lemma LoadedLeavesIff<P, V>(paths: seq<P>, contents: map<P, Layer<V>>, leaf: V)
    ensures
      leaf in Leaves(FoldLayers(Mapping(map[]), paths, contents)) <==>
      exists i: nat, keys ::
        Survives(paths, contents, i, keys) && SurvivingLeaf(paths, contents, i, keys) == Some(leaf)
  {
    hide FoldLayers, Hides, Leaves, LeafAt, Survives;
    var loaded := FoldLayers(Mapping(map[]), paths, contents);
    if leaf in Leaves(loaded) {
      var keys := PathOfLeaf(loaded, leaf);
      LoadedLeafIff(paths, contents, keys, leaf);
    }
    forall i: nat, keys | Survives(paths, contents, i, keys)
      ensures SurvivingLeaf(paths, contents, i, keys) == Some(leaf) ==> leaf in Leaves(loaded) {
      LoadedLeafIff(paths, contents, keys, leaf);
      LeafOfPath(loaded, keys);
    }
  }

  // -------------------------------------------------------------------------------------------------------------- nulls

  /** A leaf that may be a list of documents. */
  datatype Item = Scalar(text: string) | Listed(items: seq<Value<Item>>)

  /** A null anywhere, inside lists too. */
  ghost predicate HasNull(v: Value<Item>)
    decreases v
  {
    match v
    case Null => true
    case Leaf(leaf) => ListHasNull(leaf)
    case Mapping(entries) => exists key :: key in entries && HasNull(entries[key])
  }

  ghost predicate ListHasNull(leaf: Item)
    decreases leaf
  {
    leaf.Listed? && exists i :: 0 <= i < |leaf.items| && HasNull(leaf.items[i])
  }

  /** A list at some mapping depth holds a null. */
  ghost predicate SomeListHasNull(v: Value<Item>) {
    exists leaf :: leaf in Leaves(v) && ListHasNull(leaf)
  }

  /** Where mappings hold no null, there is one exactly when a list holds one. */
  lemma {:induction false} NullOnlyInLists(v: Value<Item>)
    requires !v.Null? && v.NullFree()
    ensures HasNull(v) <==> SomeListHasNull(v)
    decreases v
  {
    match v
    case Leaf(leaf) =>
      assert leaf in Leaves(v);
    case Mapping(entries) =>
      forall key | key in entries ensures HasNull(entries[key]) <==> SomeListHasNull(entries[key]) {
        NullOnlyInLists(entries[key]);
      }
      if HasNull(v) {
        var key :| key in entries && HasNull(entries[key]);
        var leaf :| leaf in Leaves(entries[key]) && ListHasNull(leaf);
        assert leaf in Leaves(v);
      }
      if SomeListHasNull(v) {
        var leaf :| leaf in Leaves(v) && ListHasNull(leaf);
        var key :| key in entries && leaf in Leaves(entries[key]);
        assert SomeListHasNull(entries[key]);
      }
  }

  /** A loaded configuration holds a null if and only if some document holds a list with a null in it at a path that no
      later document settles otherwise. */
  lemma LoadedHasNullIff<P>(paths: seq<P>, contents: map<P, Layer<Item>>)
    ensures
      HasNull(FoldLayers(Mapping(map[]), paths, contents)) <==>
      exists i: nat, keys ::
        Survives(paths, contents, i, keys) && ListHasNull(SurvivingLeaf(paths, contents, i, keys).value)
  {
    hide FoldLayers, Hides, Leaves, ListHasNull, HasNull;
    var empty: Value<Item> := Mapping(map[]);
    var loaded := FoldLayers(empty, paths, contents);
    LoadedIsNullFree(empty, paths, contents);
    LoadedIsMapping(empty, paths, contents);
    NullOnlyInLists(loaded);
    if SomeListHasNull(loaded) {
      var leaf :| leaf in Leaves(loaded) && ListHasNull(leaf);
      LoadedLeavesIff(paths, contents, leaf);
    }
    forall i: nat, keys | Survives(paths, contents, i, keys)
      ensures SurvivingLeaf(paths, contents, i, keys).value in Leaves(loaded) {
      LoadedLeavesIff(paths, contents, SurvivingLeaf(paths, contents, i, keys).value);
    }
  }

  lemma {:induction false} LoadedIsMapping<P, V>(base: Value<V>, paths: seq<P>, contents: map<P, Layer<V>>)
    requires base.Mapping?
    ensures FoldLayers(base, paths, contents).Mapping?
    decreases |paths|
  {
    if paths != [] { LoadedIsMapping(ApplyLayer(base, LayerOf(contents, paths[0])), paths[1..], contents); }
  }

  // ------------------------------------------------------------------------------------------------------------ sharing

  /** A leaf as the object it is: a list holds references. */
  datatype Entry = Plain(text: string) | ListOf(items: seq<Node<Entry>>)

  /** The mapping objects in a list or in the lists in it. */
  ghost function Held(entry: Entry): set<Dict<Entry>>
    decreases entry
  {
    match entry
    case Plain(_) => {}
    case ListOf(items) => set d, i | 0 <= i < |items| && d in HeldBy(items[i]) :: d
  }

  ghost function HeldBy(node: Node<Entry>): set<Dict<Entry>>
    decreases node
  {
    match node
    case NullNode => {}
    case LeafNode(leaf) => Held(leaf)
    case DictNode(dict) => {dict}
  }

  /** A mapping object reached from the document: one of its mapping tree, or one in a list there. */
  ghost predicate ReachedFrom(dict: Dict<Entry>, d: Dict<Entry>)
    requires dict.Valid()
    reads dict, dict.repr
  {
    d in dict.repr || InListOf(dict.Abs(), d)
  }

  ghost predicate InListOf(v: Value<Entry>, d: Dict<Entry>) {
    exists leaf :: leaf in Leaves(v) && d in Held(leaf)
  }

  ghost predicate SomeListHoldsMapping(v: Value<Entry>) {
    exists leaf :: leaf in Leaves(v) && Held(leaf) != {}
  }

  /** A copy made by merging onto an empty mapping shares a mapping object with its original if and only if a list of the
      original holds a mapping. */
  lemma CopySharesIff(copy: Dict<Entry>, original: Dict<Entry>)
    requires copy.Valid() && original.Valid() && copy.repr !! original.repr
    requires copy.Abs() == MergePatch(Mapping(map[]), original.Abs())
    ensures (exists d :: ReachedFrom(copy, d) && ReachedFrom(original, d)) <==> SomeListHoldsMapping(original.Abs())
  {
    var v := original.Abs();
    CopyLeaves(v);
    hide Leaves, MergePatch, Held, Dict<Entry>.Abs, Dict<Entry>.Valid;
    if d :| ReachedFrom(copy, d) && ReachedFrom(original, d) {
      assert InListOf(copy.Abs(), d) || InListOf(v, d);
      var leaf :| leaf in Leaves(v) && d in Held(leaf);
    }
    if leaf :| leaf in Leaves(v) && Held(leaf) != {} {
      var d :| d in Held(leaf);
      assert ReachedFrom(copy, d) && ReachedFrom(original, d);
    }
  }

  lemma CopyLeaves<V>(v: Value<V>)
    requires v.Mapping?
    ensures Leaves(MergePatch(Mapping(map[]), v)) == Leaves(v)
  {
    var merged := MergePatch(Mapping(map[]), v);
    assert Leaves<V>(Mapping(map[])) == {};
    forall leaf | leaf in Leaves(merged) ensures leaf in Leaves(v) {
      MergeLeaves(Mapping(map[]), v, leaf);
    }
    forall leaf | leaf in Leaves(v) ensures leaf in Leaves(merged) {
      MergeLeaves(Mapping(map[]), v, leaf);
    }
  }

  /** A loaded configuration reaches a mapping object through its lists if and only if some document holds a list with that
      object in it at a path that no later document settles otherwise. */
  lemma LoadedSharesIff<P>(paths: seq<P>, contents: map<P, Layer<Entry>>, d: Dict<Entry>)
    ensures
      InListOf(FoldLayers(Mapping(map[]), paths, contents), d) <==>
      exists i: nat, keys ::
        Survives(paths, contents, i, keys) && d in Held(SurvivingLeaf(paths, contents, i, keys).value)
  {
    hide FoldLayers, Hides, Leaves, Held;
    var loaded: Value<Entry> := FoldLayers(Mapping(map[]), paths, contents);
    if InListOf(loaded, d) {
      var leaf :| leaf in Leaves(loaded) && d in Held(leaf);
      LoadedLeavesIff(paths, contents, leaf);
    }
    forall i: nat, keys | Survives(paths, contents, i, keys)
      ensures SurvivingLeaf(paths, contents, i, keys).value in Leaves(loaded) {
      LoadedLeavesIff(paths, contents, SurvivingLeaf(paths, contents, i, keys).value);
    }
  }
}
