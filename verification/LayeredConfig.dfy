/**
 Folding the layers of a configuration, lowest priority first, last wins. Dropping the lower-priority occurrences of a file
 never changes the result.
 */
module LayeredConfig {
  import opened LayerMerge
  import opened LayerChain

  /** What reading a file yields; only a mapping is merged. */
  datatype Layer<V> = Skipped | Data(value: Value<V>)

  function ApplyLayer<V>(base: Value<V>, layer: Layer<V>): Value<V> {
    if layer.Data? && layer.value.Mapping? then MergePatch(base, layer.value) else base
  }

  function LayerOf<P, V>(contents: map<P, Layer<V>>, path: P): Layer<V> {
    if path in contents then contents[path] else Skipped
  }

  /** Merge the layers of a list of paths onto a base, in order. */
  function FoldLayers<P, V>(base: Value<V>, paths: seq<P>, contents: map<P, Layer<V>>): Value<V>
    decreases |paths|
  {
    if paths == [] then base
    else FoldLayers(ApplyLayer(base, LayerOf(contents, paths[0])), paths[1..], contents)
  }

  /** A difference between two bases that a layer hides is gone at the end of every list that still holds that layer. */
  lemma {:induction false} HiddenDifferenceVanishes<P, V>(
    base: Value<V>, other: Value<V>, path: P, paths: seq<P>, contents: map<P, Layer<V>>)
    requires path in paths
    requires ApplyLayer(base, LayerOf(contents, path)) == ApplyLayer(other, LayerOf(contents, path))
    ensures FoldLayers(base, paths, contents) == FoldLayers(other, paths, contents)
    decreases |paths|
  {
    if paths[0] != path {
      var layer, between := LayerOf(contents, path), LayerOf(contents, paths[0]);
      if layer.Data? && layer.value.Mapping? && between.Data? && between.value.Mapping? {
        MergeIsCongruent(base, other, between.value, layer.value);
      }
      HiddenDifferenceVanishes(ApplyLayer(base, between), ApplyLayer(other, between), path, paths[1..], contents);
    }
  }

  /** Dedup is invisible to the merge: for every push sequence, with any repeats, and any contents, folding the
      keep-last chain gives what folding the whole sequence gives. */
  lemma {:induction false} DedupIsInvisible<P, V>(base: Value<V>, pushes: seq<P>, contents: map<P, Layer<V>>)
    ensures FoldLayers(base, KeepLast(pushes), contents) == FoldLayers(base, pushes, contents)
    decreases |pushes|
  {
    if pushes != [] {
      var layer := LayerOf(contents, pushes[0]);
      var next := ApplyLayer(base, layer);
      if pushes[0] in pushes[1..] {
        if layer.Data? && layer.value.Mapping? { MergeIsIdempotent(base, layer.value); }
        HiddenDifferenceVanishes(base, next, pushes[0], pushes[1..], contents);
        DedupIsInvisible(base, pushes[1..], contents);
      } else {
        assert KeepLast(pushes)[1..] == KeepLast(pushes[1..]);
        DedupIsInvisible(next, pushes[1..], contents);
      }
    }
  }

  /** Keeping the first occurrence instead would be visible: the later layer must win. */
  lemma FirstOccurrenceWouldLose()
    ensures
      var one: Layer<int> := Data(Mapping(map["k" := Leaf(1)]));
      var two: Layer<int> := Data(Mapping(map["k" := Leaf(2)]));
      var contents := map["a" := one, "b" := two];
      && KeepLast(["a", "b", "a"]) == ["b", "a"]
      && FoldLayers(Mapping(map[]), ["a", "b"], contents) != FoldLayers(Mapping(map[]), ["a", "b", "a"], contents)
  {
    var one: Layer<int> := Data(Mapping(map["k" := Leaf(1)]));
    var two: Layer<int> := Data(Mapping(map["k" := Leaf(2)]));
    var contents := map["a" := one, "b" := two];
    var pushes := ["a", "b", "a"];
    assert pushes[1..] == ["b", "a"] && pushes[1..][1..] == ["a"];
    assert "a" in pushes[1..] && "b" !in ["a"];
    var m0 := Mapping(map[]);
    var m1 := MergePatch(m0, one.value);
    var m2 := MergePatch(m1, two.value);
    var m3 := MergePatch(m2, one.value);
    assert m2.entries["k"] == Leaf(2) && m3.entries["k"] == Leaf(1);
    assert ["a", "b"][1..] == ["b"];
    assert FoldLayers(m0, ["a", "b"], contents) == m2;
    assert FoldLayers(m0, pushes, contents) == FoldLayers(m1, ["b", "a"], contents);
    assert FoldLayers(m1, ["b", "a"], contents) == FoldLayers(m2, ["a"], contents) == m3;
  }

  /** A loaded configuration holds no null at any mapping depth. */
  lemma {:induction false} LoadedIsNullFree<P, V>(base: Value<V>, paths: seq<P>, contents: map<P, Layer<V>>)
    requires base.NullFree()
    ensures FoldLayers(base, paths, contents).NullFree()
    decreases |paths|
  {
    if paths != [] {
      var layer := LayerOf(contents, paths[0]);
      if layer.Data? && layer.value.Mapping? { MergeKeepsNullFree(base, layer.value); }
      LoadedIsNullFree(ApplyLayer(base, layer), paths[1..], contents);
    }
  }

  lemma {:induction false} FoldOneMore<P, V>(base: Value<V>, paths: seq<P>, path: P, contents: map<P, Layer<V>>)
    ensures FoldLayers(base, paths + [path], contents)
            == ApplyLayer(FoldLayers(base, paths, contents), LayerOf(contents, path))
    decreases |paths|
  {
    if paths == [] {
      assert paths + [path] == [path];
    } else {
      FoldOneMore(ApplyLayer(base, LayerOf(contents, paths[0])), paths[1..], path, contents);
      assert (paths + [path])[1..] == paths[1..] + [path];
    }
  }
}
