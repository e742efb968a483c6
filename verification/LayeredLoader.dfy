/**
 Loading a layered configuration: the chain of files is read lowest priority first and merged in place onto a new mapping,
 and at every path of keys the highest layer that settles it decides.
 */
module LayeredLoader {
  import opened Options
  import opened LayerMerge
  import opened LayerChain
  import opened LayeredConfig
  import opened LayerLists
  import opened MergeInPlace

  /** The document of this layer settles the path. */
  predicate Settles<P, V>(contents: map<P, Layer<V>>, path: Option<P>, keys: seq<string>) {
    path.Some? && LayerHides(LayerOf(contents, path.value), keys)
  }

  /** What the layer has there. */
  function Its<P, V>(contents: map<P, Layer<V>>, path: P, keys: seq<string>): Option<V> {
    LayerLeafAt(LayerOf(contents, path), keys)
  }

  /** The leaf at every path of keys is that of the last environment file whose document settles it; if none does, the
      project's; if that does not, the user's; then that of the last of the defaults; and otherwise none. */
  ghost predicate ByPriority<P, V>(
    loaded: Value<V>, contents: map<P, Layer<V>>, defaults: seq<P>, user: Option<P>, project: Option<P>, env: seq<P>)
  {
    forall keys :: ByPriorityAt(LeafAt(loaded, keys), contents, defaults, user, project, env, keys)
  }

  ghost predicate ByPriorityAt<P, V>(
    leaf: Option<V>, contents: map<P, Layer<V>>, defaults: seq<P>, user: Option<P>, project: Option<P>, env: seq<P>,
    keys: seq<string>)
  {
    var (e, d) := (LastHiding(env, contents, keys), LastHiding(defaults, contents, keys));
    if e >= 0 then leaf == Its(contents, env[e], keys)
    else if Settles(contents, project, keys) then leaf == Its(contents, project.value, keys)
    else if Settles(contents, user, keys) then leaf == Its(contents, user.value, keys)
    else if d >= 0 then leaf == Its(contents, defaults[d], keys)
    else leaf == None
  }

  lemma {:induction false} LastHidingOfSum<P, V>(a: seq<P>, b: seq<P>, contents: map<P, Layer<V>>, keys: seq<string>)
    ensures LastHiding(a + b, contents, keys) ==
            if LastHiding(b, contents, keys) >= 0 then |a| + LastHiding(b, contents, keys)
            else LastHiding(a, contents, keys)
  {
    hide LayerHides;
    if b == [] {
      assert a + b == a;
    } else {
      assert (a + b)[..|a + b| - 1] == a + b[..|b| - 1];
      LastHidingOfSum(a, b[..|b| - 1], contents, keys);
    }
  }

  lemma LastHidingOfOne<P, V>(path: Option<P>, contents: map<P, Layer<V>>, keys: seq<string>)
    ensures LastHiding(One(path), contents, keys) == if Settles(contents, path, keys) then 0 else -1
  {
    if path.Some? { assert [path.value][..0] == []; }
  }

  lemma FoldIsByPriority<P, V>(
    contents: map<P, Layer<V>>, defaults: seq<P>, user: Option<P>, project: Option<P>, env: seq<P>)
    ensures
      var pushes := defaults + One(user) + One(project) + env;
      ByPriority(FoldLayers(Mapping(map[]), pushes, contents), contents, defaults, user, project, env)
  {
    var two := defaults + One(user);
    var three := two + One(project);
    var pushes := three + env;
    hide FoldLayers, LayerHides, LastHiding;
    forall keys
      ensures ByPriorityAt(
                LeafAt(FoldLayers(Mapping(map[]), pushes, contents), keys), contents, defaults, user, project, env, keys) {
      LoadedLeafAt(Mapping(map[]), pushes, contents, keys);
      LastHidingOfSum(three, env, contents, keys);
      LastHidingOfSum(two, One(project), contents, keys);
      LastHidingOfSum(defaults, One(user), contents, keys);
      LastHidingOfOne(user, contents, keys);
      LastHidingOfOne(project, contents, keys);
    }
  }

  /** The parsed documents, as objects: None for a file that cannot be read, is empty, or is not a mapping. */
  ghost predicate Holds<P, V>(documents: map<P, Option<Dict<V>>>, contents: map<P, Layer<V>>)
    reads set path | path in documents && documents[path].Some? :: documents[path].value
    reads set path, dict | path in documents && documents[path].Some? && dict in documents[path].value.repr :: dict
  {
    && contents.Keys == documents.Keys
    && forall path :: path in documents ==>
         match documents[path]
         case None => contents[path].Skipped?
         case Some(dict) => dict.Valid() && contents[path] == Data(dict.Abs())
  }

  /** `load_layered_yaml`: the result is the merge of every push, repeats included, onto an empty mapping, and has each leaf
      by priority; it is built from new objects only, and no document is changed. */
  method LoadLayeredYaml<P(==, !new), V>(
    prepend: seq<Option<P>>, user: Option<P>, project: Option<P>, env: seq<Option<P>>,
    documents: map<P, Option<Dict<V>>>, ghost contents: map<P, Layer<V>>)
    returns (merged: Dict<V>)
    requires Holds(documents, contents)
    ensures merged.Tree() && fresh(merged.repr)
    ensures merged.Abs() == FoldLayers(Mapping(map[]), Existing(Candidates(prepend, user, project, env)), contents)
    ensures ByPriority(merged.Abs(), contents, Existing(prepend), user, project, Existing(env))
    ensures merged.Abs().NullFree()
    ensures Holds(documents, contents)
  {
    var paths := LayeredPaths(prepend, user, project, env);
    merged := MergeDocuments(paths, documents, contents);
    hide ByPriority;
    DedupIsInvisible(Mapping(map[]), Existing(Candidates(prepend, user, project, env)), contents);
    LoadedIsNullFree(Mapping(map[]), paths, contents);
    ExistingCandidates(prepend, user, project, env);
    FoldIsByPriority(contents, Existing(prepend), user, project, Existing(env));
  }

  /** The accumulating loop. */
  method MergeDocuments<P(==), V>(paths: seq<P>, documents: map<P, Option<Dict<V>>>, ghost contents: map<P, Layer<V>>)
    returns (merged: Dict<V>)
    requires Holds(documents, contents)
    ensures merged.Tree() && fresh(merged.repr) && Holds(documents, contents)
    ensures merged.Abs() == FoldLayers(Mapping(map[]), paths, contents)
  {
    merged := new Dict<V>();
    ghost var empty := merged.Abs();
    for i := 0 to |paths|
      invariant merged.Tree() && fresh(merged.repr)
      invariant Holds(documents, contents)
      invariant merged.Abs() == FoldLayers(empty, paths[..i], contents)
    {
      FoldOneMore(empty, paths[..i], paths[i], contents);
      assert paths[..i + 1] == paths[..i] + [paths[i]];
      if paths[i] in documents {
        match documents[paths[i]] {
          case None =>
          case Some(dict) => DeepMerge(merged, dict);
        }
      }
    }
    assert paths[..|paths|] == paths;
  }
}
