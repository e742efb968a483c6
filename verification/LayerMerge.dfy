/**
 Layer merging on values: the MergePatch function of section 2 of RFC 7396, and the algebra that lets a stack of layers
 drop every lower-priority duplicate.
 */
module LayerMerge {
  /** A parsed document. Lists are leaves: merging replaces them whole. */
  datatype Value<V> = Null | Leaf(leaf: V) | Mapping(entries: map<string, Value<V>>) {
    /** The members, of a mapping; anything else is treated as an empty mapping. */
    function Members(): map<string, Value<V>> {
      if Mapping? then entries else map[]
    }

    function Get(key: string): Value<V> {
      if key in Members() then Members()[key] else Null
    }

    /** No null value at any mapping depth. */
    ghost predicate NullFree() {
      Mapping? ==> forall key :: key in entries ==> !entries[key].Null? && entries[key].NullFree()
    }
  }

  /** MergePatch(Target, Patch) of section 2 of RFC 7396; an absent target is Null. */
  function MergePatch<V>(target: Value<V>, patch: Value<V>): Value<V>
    decreases patch
  {
    if !patch.Mapping? then patch
    else
      Mapping(map key |
        key in target.Members().Keys + patch.entries.Keys && !(key in patch.entries && patch.entries[key].Null?) ::
          if key in patch.entries then MergePatch(target.Get(key), patch.entries[key]) else target.Members()[key])
  }

  /** A merge leaves no null behind unless its base held one: a null in a patch deletes, at every mapping depth. */
  lemma {:induction false} MergeKeepsNullFree<V>(target: Value<V>, patch: Value<V>)
    requires target.NullFree()
    ensures MergePatch(target, patch).NullFree() || (!patch.Mapping? && patch.Null?)
    ensures patch.Mapping? ==> MergePatch(target, patch).NullFree()
    decreases patch
  {
    if patch.Mapping? {
      forall key | key in patch.entries && !patch.entries[key].Null?
        ensures
          var merged := MergePatch(target.Get(key), patch.entries[key]);
          !merged.Null? && merged.NullFree()
      {
        MergeKeepsNullFree(target.Get(key), patch.entries[key]);
      }
    }
  }

  /** Merging the same layer twice in a row is merging it once. */
  lemma {:induction false} MergeIsIdempotent<V>(base: Value<V>, layer: Value<V>)
    ensures MergePatch(MergePatch(base, layer), layer) == MergePatch(base, layer)
    decreases layer
  {
    if layer.Mapping? {
      forall key | key in layer.entries {
        MergeIsIdempotent(base.Get(key), layer.entries[key]);
      }
    }
  }

  /** If a final layer hides the difference between two bases, it hides it through any layer merged in between. */
  lemma {:induction false} MergeIsCongruent<V>(base: Value<V>, other: Value<V>, between: Value<V>, layer: Value<V>)
    requires MergePatch(base, layer) == MergePatch(other, layer)
    ensures MergePatch(MergePatch(base, between), layer) == MergePatch(MergePatch(other, between), layer)
    decreases layer
  {
    if layer.Mapping? && between.Mapping? {
      var one := MergePatch(MergePatch(base, between), layer);
      var two := MergePatch(MergePatch(other, between), layer);
      forall key
        ensures key in one.entries <==> key in two.entries
        ensures key in one.entries ==> one.entries[key] == two.entries[key]
      {
        MergeIsCongruentAt(base, other, between, layer, key);
      }
      assert one.entries == two.entries;
    }
  }

  lemma {:induction false} MergeIsCongruentAt<V>(
    base: Value<V>, other: Value<V>, between: Value<V>, layer: Value<V>, key: string)
    requires MergePatch(base, layer) == MergePatch(other, layer)
    requires layer.Mapping? && between.Mapping?
    ensures
      var one := MergePatch(MergePatch(base, between), layer);
      var two := MergePatch(MergePatch(other, between), layer);
      && (key in one.entries <==> key in two.entries)
      && (key in one.entries ==> one.entries[key] == two.entries[key])
    decreases layer, 0
  {
    var merged := MergePatch(base, layer);
    if key in layer.entries {
      if !layer.entries[key].Null? {
        assert merged.entries[key] == MergePatch(base.Get(key), layer.entries[key]);
        assert MergePatch(other, layer).entries[key] == MergePatch(other.Get(key), layer.entries[key]);
        if key in between.entries && !between.entries[key].Null? {
          MergeIsCongruent(base.Get(key), other.Get(key), between.entries[key], layer.entries[key]);
        }
      }
    } else {
      assert key in base.Members() <==> key in merged.entries;
      assert key in other.Members() <==> key in MergePatch(other, layer).entries;
    }
  }
}
