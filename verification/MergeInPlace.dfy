/**
 `_deep_merge` as it runs: a key loop that mutates the base mapping in place and recurses into nested mapping objects.
 Mapping objects live on the heap. The base is a tree of objects of its own; an overlay may share sub-mappings between
 its keys, as aliased YAML nodes do. The loop computes MergePatch and never writes to the overlay.
 */
module MergeInPlace {
  import opened LayerMerge

  datatype Node<V> = NullNode | LeafNode(leaf: V) | DictNode(dict: Dict<V>)

  class Dict<V> {
    var entries: map<string, Node<V>>
    /** The mapping objects reachable from this one, or more. */
    ghost var repr: set<Dict<V>>

    /** A finite, acyclic document. */
    ghost predicate Valid()
      reads this, repr
      decreases repr
    {
      && this in repr
      && forall key :: key in entries && entries[key].DictNode? ==>
           var child := entries[key].dict;
           child in repr && child.repr <= repr && this !in child.repr && child.Valid()
    }

    /** A document in which no mapping object is shared. */
    ghost predicate Tree()
      reads this, repr
      decreases repr
    {
      && Valid()
      && (forall key :: key in entries && entries[key].DictNode? ==> entries[key].dict.Tree())
      && (forall one, two | one in entries && two in entries && one != two ::
            entries[one].DictNode? && entries[two].DictNode? ==> entries[one].dict.repr !! entries[two].dict.repr)
    }

    ghost function Abs(): Value<V>
      requires Valid()
      reads this, repr
      decreases repr, 1
    {
      Mapping(map key | key in entries :: AbsAt(key))
    }

    ghost function AbsAt(key: string): Value<V>
      requires Valid() && key in entries
      reads this, repr
      decreases repr, 0
    {
      match entries[key]
      case NullNode => Null
      case LeafNode(leaf) => Leaf(leaf)
      case DictNode(child) => child.Abs()
    }

    constructor ()
      ensures Tree() && fresh(this) && repr == {this} && entries == map[]
      ensures Abs() == Mapping(map[])
    {
      entries, repr := map[], {this};
    }

    /** `base.pop(key, None)`. */
    method Pop(key: string)
      requires Tree()
      modifies this`entries
      ensures Tree()
      ensures Abs() == Mapping(old(Abs()).entries - {key})
    {
      entries := entries - {key};
    }

    /** `base[key] = leaf`. */
    method SetLeaf(key: string, leaf: V)
      requires Tree()
      modifies this`entries
      ensures Tree()
      ensures Abs() == Mapping(old(Abs()).entries[key := Leaf(leaf)])
    {
      entries := entries[key := LeafNode(leaf)];
    }

    /** `base[key] = child`, for a child that shares nothing with this document. */
    method SetDict(key: string, child: Dict<V>)
      requires Tree() && child.Tree() && child.repr !! repr
      modifies this`entries, this`repr
      ensures Tree() && repr == old(repr) + child.repr
      ensures Abs() == Mapping(old(Abs()).entries[key := child.Abs()])
    {
      entries := entries[key := DictNode(child)];
      repr := repr + child.repr;
    }
  }

  /** The members after one key of the overlay has been merged. */
  ghost function MergedEntry<V>(members: map<string, Value<V>>, key: string, value: Value<V>): map<string, Value<V>> {
    if value.Null? then members - {key}
    else members[key := MergePatch(Mapping(members).Get(key), value)]
  }

  /** One iteration of the key loop. */
  method MergeKey<V>(base: Dict<V>, overlay: Dict<V>, key: string)
    requires base.Tree() && overlay.Valid() && base.repr !! overlay.repr && key in overlay.entries
    modifies base.repr
    ensures base.Tree() && fresh(base.repr - old(base.repr))
    ensures base.Abs() == Mapping(MergedEntry(old(base.Abs()).entries, key, old(overlay.AbsAt(key))))
    decreases overlay.repr, 0
  {
    match overlay.entries[key] {
      case NullNode =>
        base.Pop(key);
      case LeafNode(leaf) =>
        base.SetLeaf(key, leaf);
      case DictNode(value) =>
        if key in base.entries && base.entries[key].DictNode? {
          MergeChild(base, key, value);
        } else {
          MergeFresh(base, key, value);
        }
    }
  }

  /** The base holds no mapping here: merge into a new, empty one. */
  method MergeFresh<V>(base: Dict<V>, key: string, value: Dict<V>)
    requires base.Tree() && value.Valid() && base.repr !! value.repr
    requires key !in base.entries || !base.entries[key].DictNode?
    modifies base`entries, base`repr
    ensures base.Tree() && fresh(base.repr - old(base.repr))
    ensures base.Abs() == Mapping(MergedEntry(old(base.Abs()).entries, key, old(value.Abs())))
    decreases value.repr, 3
  {
    assert key in base.entries ==> base.Abs().Get(key) == base.AbsAt(key);
    AnyLeafTarget(base.Abs().Get(key), value.Abs());
    var child := FreshCopy(value);
    base.SetDict(key, child);
  }

  lemma AnyLeafTarget<V>(target: Value<V>, patch: Value<V>)
    requires !target.Mapping?
    ensures MergePatch(target, patch) == MergePatch(Mapping(map[]), patch)
  {
  }

  /** `_deep_merge({}, value)`. */
  method FreshCopy<V>(value: Dict<V>) returns (child: Dict<V>)
    requires value.Valid()
    ensures child.Tree() && fresh(child.repr)
    ensures child.Abs() == MergePatch(Mapping(map[]), old(value.Abs()))
    decreases value.repr, 2
  {
    child := new Dict<V>();
    DeepMerge(child, value);
  }

  /** Both sides hold a mapping: merge into the base's own object. */
  method MergeChild<V>(base: Dict<V>, key: string, value: Dict<V>)
    requires base.Tree() && value.Valid() && base.repr !! value.repr
    requires key in base.entries && base.entries[key].DictNode?
    modifies base.repr
    ensures base.Tree() && fresh(base.repr - old(base.repr))
    ensures base.Abs() == Mapping(MergedEntry(old(base.Abs()).entries, key, old(value.Abs())))
    decreases value.repr, 2
  {
    var child := base.entries[key].dict;
    DeepMerge(child, value);
    base.repr := base.repr + child.repr;
    forall other | other in base.entries && other != key && base.entries[other].DictNode?
      ensures base.entries[other].dict.Tree()
      ensures base.entries[other].dict.repr !! child.repr
      ensures base.entries[other].dict.repr == old(base.entries[other].dict.repr)
      ensures base.entries[other].dict.Abs() == old(base.entries[other].dict.Abs())
    {
    }
  }

  /** Last-wins deep merge of `overlay` onto `base`, in place. Only objects of the base, and new ones, are written, so
      the overlay is left as it was, and the result shares no mapping object with it. */
  method DeepMerge<V>(base: Dict<V>, overlay: Dict<V>)
    requires base.Tree() && overlay.Valid() && base.repr !! overlay.repr
    modifies base.repr
    ensures base.Tree() && fresh(base.repr - old(base.repr)) && base.repr !! overlay.repr
    ensures overlay.Valid() && overlay.Abs() == old(overlay.Abs())
    ensures base.Abs() == MergePatch(old(base.Abs()), overlay.Abs())
    decreases overlay.repr, 1
  {
    ghost var target := base.Abs();
    var todo := overlay.entries.Keys;
    ghost var done: set<string> := {};
    while todo != {}
      invariant todo + done == overlay.entries.Keys && todo !! done
      invariant base.Tree() && fresh(base.repr - old(base.repr)) && base.repr !! overlay.repr
      invariant overlay.Valid() && overlay.Abs() == old(overlay.Abs())
      invariant base.Abs() == MergedOn(target, overlay.Abs(), done)
      decreases todo
    {
      var key :| key in todo;
      MergedOnOneMore(target, overlay.Abs(), done, key);
      MergeKey(base, overlay, key);
      todo, done := todo - {key}, done + {key};
    }
    assert done == overlay.Abs().entries.Keys;
    MergedOnAll(target, overlay.Abs());
  }

  /** The merge restricted to some of the overlay's keys. */
  ghost function MergedOn<V>(target: Value<V>, patch: Value<V>, done: set<string>): Value<V>
    requires patch.Mapping?
  {
    MergePatch(target, Mapping(map key | key in patch.entries && key in done :: patch.entries[key]))
  }

  lemma MergedOnOneMore<V>(target: Value<V>, patch: Value<V>, done: set<string>, key: string)
    requires patch.Mapping? && key in patch.entries && key !in done
    ensures MergedOn(target, patch, done + {key})
            == Mapping(MergedEntry(MergedOn(target, patch, done).entries, key, patch.entries[key]))
  {
    var one := MergedOn(target, patch, done + {key}).entries;
    var two := MergedEntry(MergedOn(target, patch, done).entries, key, patch.entries[key]);
    assert one.Keys == two.Keys;
    forall k | k in one ensures one[k] == two[k] {
      assert Mapping(MergedOn(target, patch, done).entries).Get(key) == target.Get(key);
    }
    assert one == two;
  }

  lemma MergedOnAll<V>(target: Value<V>, patch: Value<V>)
    requires patch.Mapping?
    ensures MergedOn(target, patch, patch.entries.Keys) == MergePatch(target, patch)
    ensures target.Mapping? ==> MergedOn(target, patch, {}) == target
  {
    assert (map key | key in patch.entries && key in patch.entries.Keys :: patch.entries[key]) == patch.entries;
  }
}
