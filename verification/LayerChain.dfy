/**
 The priority-ordered list of configuration files: `_push` keeps a list and its inverse index up to date in place, so
 that a path pushed again moves to the end.
 */
module LayerChain {
  import opened Options

  /** The sequence with only the last occurrence of each element kept, in order. */
  function KeepLast<P(==)>(pushes: seq<P>): seq<P> {
    if pushes == [] then []
    else if pushes[0] in pushes[1..] then KeepLast(pushes[1..])
    else [pushes[0]] + KeepLast(pushes[1..])
  }

  function Without<P(==)>(s: seq<P>, x: P): seq<P> {
    if s == [] then [] else (if s[0] == x then [] else [s[0]]) + Without(s[1..], x)
  }

  ghost predicate Distinct<P>(s: seq<P>) {
    forall i, j :: 0 <= i < j < |s| ==> s[i] != s[j]
  }

  lemma {:induction false} KeepLastElements<P>(pushes: seq<P>, p: P)
    ensures p in KeepLast(pushes) <==> p in pushes
  {
    if pushes != [] {
      KeepLastElements(pushes[1..], p);
    }
  }

  lemma {:induction false} KeepLastIsDistinct<P>(pushes: seq<P>)
    ensures Distinct(KeepLast(pushes))
  {
    if pushes != [] {
      KeepLastIsDistinct(pushes[1..]);
      KeepLastElements(pushes[1..], pushes[0]);
    }
  }

  /** Position of the last occurrence. */
  ghost function LastIndex<P>(s: seq<P>, p: P): nat
    requires p in s
    ensures LastIndex(s, p) < |s| && s[LastIndex(s, p)] == p
    ensures forall i :: LastIndex(s, p) < i < |s| ==> s[i] != p
  {
    if s[|s| - 1] == p then |s| - 1 else LastIndex(s[..|s| - 1], p)
  }

  lemma LastIndexOfTail<P>(s: seq<P>, p: P)
    requires s != [] && p in s[1..]
    ensures LastIndex(s, p) == LastIndex(s[1..], p) + 1
  {
    var i, j := LastIndex(s, p), LastIndex(s[1..], p);
    assert s[j + 1] == p;
    assert i > 0 ==> s[1..][i - 1] == p;
  }

  /** What "keep the last occurrence" means: with KeepLastElements and KeepLastIsDistinct, the same paths, each once,
      ordered by their last push. */
  lemma {:induction false} KeepLastIsOrdered<P>(pushes: seq<P>, i: nat, j: nat)
    requires i < j < |KeepLast(pushes)|
    ensures
      var kept := KeepLast(pushes);
      kept[i] in pushes && kept[j] in pushes && LastIndex(pushes, kept[i]) < LastIndex(pushes, kept[j])
  {
    var kept := KeepLast(pushes);
    KeepLastElements(pushes, kept[i]);
    KeepLastElements(pushes, kept[j]);
    KeepLastElements(pushes[1..], kept[j]);
    if pushes[0] in pushes[1..] {
      KeepLastIsOrdered(pushes[1..], i, j);
      LastIndexOfTail(pushes, kept[i]);
    } else {
      assert kept[1..] == KeepLast(pushes[1..]);
      assert kept[j] == kept[1..][j - 1];
      if i > 0 {
        KeepLastIsOrdered(pushes[1..], i - 1, j - 1);
        LastIndexOfTail(pushes, kept[i]);
      } else {
        OnlyAtFront(pushes);
      }
    }
    LastIndexOfTail(pushes, kept[j]);
  }

  lemma OnlyAtFront<P>(s: seq<P>)
    requires s != [] && s[0] !in s[1..]
    ensures LastIndex(s, s[0]) == 0
  {
    assert forall k :: 0 <= k < |s| - 1 ==> s[1..][k] == s[k + 1];
  }

  lemma {:induction false} WithoutAbsent<P>(s: seq<P>, x: P)
    requires x !in s
    ensures Without(s, x) == s
  {
    if s != [] { WithoutAbsent(s[1..], x); }
  }

  lemma {:induction false} WithoutAt<P>(s: seq<P>, at: nat)
    requires Distinct(s) && at < |s|
    ensures Without(s, s[at]) == s[..at] + s[at + 1..]
  {
    if at == 0 {
      WithoutAbsent(s[1..], s[0]);
    } else {
      WithoutAt(s[1..], at - 1);
      assert s[1..][..at - 1] == s[1..at];
      assert s[..at] == [s[0]] + s[1..at];
    }
  }

  /** Pushing once more removes the earlier occurrence and appends. */
  lemma {:induction false} KeepLastOfPush<P>(pushes: seq<P>, x: P)
    ensures KeepLast(pushes + [x]) == Without(KeepLast(pushes), x) + [x]
  {
    if pushes != [] {
      var all := pushes + [x];
      assert all[1..] == pushes[1..] + [x];
      KeepLastOfPush(pushes[1..], x);
      if pushes[0] !in pushes[1..] {
        assert KeepLast(pushes)[1..] == KeepLast(pushes[1..]);
      }
    } else {
      assert pushes + [x] == [x];
    }
  }

  /** `seen` is the inverse of `chain`. */
  ghost predicate Inverse<P>(chain: seq<P>, seen: map<P, int>) {
    && (forall p :: p in seen ==> 0 <= seen[p] < |chain| && chain[seen[p]] == p)
    && (forall i :: 0 <= i < |chain| ==> chain[i] in seen && seen[chain[i]] == i)
  }

  /** `seen` after an element at position `at` has gone and the positions above it moved down. */
  ghost predicate Shifted<P>(seen: map<P, int>, at: int, shifted: map<P, int>) {
    && shifted.Keys == seen.Keys
    && forall p :: p in seen ==> shifted[p] == if seen[p] > at then seen[p] - 1 else seen[p]
  }

  lemma RemovalKeepsInverse<P>(chain: seq<P>, seen: map<P, int>, at: nat, shifted: map<P, int>)
    requires Inverse(chain, seen) && at < |chain| && Shifted(seen, at, shifted)
    ensures Inverse(chain[..at] + chain[at + 1..], shifted - {chain[at]})
  {
    var rest, left := chain[..at] + chain[at + 1..], shifted - {chain[at]};
    forall p | p in left ensures 0 <= left[p] < |rest| && rest[left[p]] == p {
      assert seen[p] != at;
    }
    forall i | 0 <= i < |rest| ensures rest[i] in left && left[rest[i]] == i {
      var j := if i < at then i else i + 1;
      assert rest[i] == chain[j] && seen[chain[j]] == j;
    }
  }

  class Chain<P(==)> {
    var chain: seq<P>
    var seen: map<P, int>
    ghost var pushed: seq<P>

    ghost predicate Valid()
      reads this
    {
      Inverse(chain, seen) && chain == KeepLast(pushed)
    }

    constructor ()
      ensures Valid() && pushed == []
    {
      chain, seen, pushed := [], map[], [];
    }

    method Push(resolved: P)
      requires Valid()
      modifies this
      ensures Valid() && pushed == old(pushed) + [resolved]
    {
      KeepLastOfPush(pushed, resolved);
      KeepLastIsDistinct(pushed);
      if resolved in seen {
        Remove(resolved);
      } else {
        WithoutAbsent(chain, resolved);
      }
      assert resolved !in chain;
      seen := seen[resolved := |chain|];
      chain := chain + [resolved];
      pushed := pushed + [resolved];
    }

    method Remove(resolved: P)
      requires Inverse(chain, seen) && Distinct(chain) && resolved in seen
      modifies this`chain, this`seen
      ensures Inverse(chain, seen) && resolved !in seen
      ensures chain == Without(old(chain), resolved)
    {
      var at := seen[resolved];
      WithoutAt(chain, at);
      chain := chain[..at] + chain[at + 1..];
      ShiftAbove(at);
      RemovalKeepsInverse(old(chain), old(seen), at, seen);
      seen := seen - {resolved};
    }

    /** The index loop of `_push`: every position above the removed one moves down by one. */
    method ShiftAbove(at: int)
      modifies this`seen
      ensures Shifted(old(seen), at, seen)
    {
      var todo := seen.Keys;
      while todo != {}
        invariant todo <= seen.Keys == old(seen).Keys
        invariant forall p :: p in seen ==>
                    seen[p] == if p !in todo && old(seen)[p] > at then old(seen)[p] - 1 else old(seen)[p]
        decreases todo
      {
        var p :| p in todo;
        if seen[p] > at {
          seen := seen[p := seen[p] - 1];
        }
        todo := todo - {p};
      }
    }
  }

  /** The files that exist, in push order. */
  function Existing<P>(candidates: seq<Option<P>>): seq<P> {
    if candidates == [] then []
    else (if candidates[0].Some? then [candidates[0].value] else []) + Existing(candidates[1..])
  }

  lemma {:induction false} ExistingAppend<P>(a: seq<Option<P>>, b: seq<Option<P>>)
    ensures Existing(a + b) == Existing(a) + Existing(b)
  {
    if a == [] {
      assert a + b == b;
    } else {
      ExistingAppend(a[1..], b);
      assert (a + b)[1..] == a[1..] + b;
    }
  }

  method PushAll<P(==)>(chain: Chain<P>, candidates: seq<Option<P>>)
    requires chain.Valid()
    modifies chain
    ensures chain.Valid() && chain.pushed == old(chain.pushed) + Existing(candidates)
  {
    for i := 0 to |candidates|
      invariant chain.Valid() && chain.pushed == old(chain.pushed) + Existing(candidates[..i])
    {
      ExistingAppend(candidates[..i], [candidates[i]]);
      assert candidates[..i + 1] == candidates[..i] + [candidates[i]];
      assert Existing([candidates[i]]) == if candidates[i].Some? then [candidates[i].value] else [];
      if candidates[i].Some? {
        chain.Push(candidates[i].value);
      }
    }
    assert candidates[..|candidates|] == candidates;
  }

  /** All layers in priority order: bundled defaults, user, project, then the environment's paths. */
  function Candidates<P>(prepend: seq<Option<P>>, user: Option<P>, project: Option<P>, env: seq<Option<P>>)
    : seq<Option<P>>
  {
    prepend + [user, project] + env
  }

  // ------------------------------------------------------------------------------------------------------- priority

  /** One comes before the other. */
  ghost predicate Before<P>(paths: seq<P>, p: P, q: P) {
    exists i, j :: 0 <= i < j < |paths| && paths[i] == p && paths[j] == q
  }

  /** The layer a path counts as of, the highest that names it: the defaults, then the user's file, the project's, and the
      environment's paths. */
  function Layer<P(==)>(user: Option<P>, project: Option<P>, env: seq<P>, p: P): nat {
    if p in env then 3 else if project == Some(p) then 2 else if user == Some(p) then 1 else 0
  }

  /** The priority of the paths, from the files that exist: by layer, and among the defaults and among the environment's paths
      in the order of their last mention. */
  ghost predicate Prioritised<P(!new)>(
    paths: seq<P>, defaults: seq<P>, user: Option<P>, project: Option<P>, env: seq<P>)
  {
    && Distinct(paths)
    && (forall p :: p in paths <==> p in defaults || user == Some(p) || project == Some(p) || p in env)
    && (forall p, q :: p in paths && q in paths && Layer(user, project, env, p) < Layer(user, project, env, q) ==>
                       Before(paths, p, q))
    && (forall p, q :: p in env && q in env && LastIndex(env, p) < LastIndex(env, q) ==> Before(paths, p, q))
    && (forall p, q :: InLowest(defaults, user, project, env, p, q) && LastIndex(defaults, p) < LastIndex(defaults, q) ==>
                       Before(paths, p, q))
  }

  ghost predicate InLowest<P>(defaults: seq<P>, user: Option<P>, project: Option<P>, env: seq<P>, p: P, q: P) {
    p in defaults && q in defaults && Layer(user, project, env, p) == Layer(user, project, env, q) == 0
  }

  lemma {:induction false} LastIndexOfSum<P>(a: seq<P>, b: seq<P>, p: P)
    requires p in a + b
    ensures LastIndex(a + b, p) == if p in b then |a| + LastIndex(b, p) else LastIndex(a, p)
  {
    var i := LastIndex(a + b, p);
    if p in b {
      assert (a + b)[|a| + LastIndex(b, p)] == p;
    } else {
      assert (a + b)[LastIndex(a, p)] == p;
    }
  }

  /** What was pushed last comes last. */
  lemma LaterPushComesLater<P>(pushes: seq<P>, p: P, q: P)
    requires p in pushes && q in pushes && LastIndex(pushes, p) < LastIndex(pushes, q)
    ensures Before(KeepLast(pushes), p, q)
  {
    var kept := KeepLast(pushes);
    KeepLastElements(pushes, p);
    KeepLastElements(pushes, q);
    var i :| 0 <= i < |kept| && kept[i] == p;
    var j :| 0 <= j < |kept| && kept[j] == q;
    if j < i { KeepLastIsOrdered(pushes, j, i); }
  }

  ghost function One<P>(p: Option<P>): seq<P> {
    if p.Some? then [p.value] else []
  }

  /** Where the last push of each path is, layer by layer. */
  lemma LastPush<P>(defaults: seq<P>, user: Option<P>, project: Option<P>, env: seq<P>, p: P)
    ensures
      var pushes := defaults + One(user) + One(project) + env;
      && (p in pushes <==> p in defaults || user == Some(p) || project == Some(p) || p in env)
      && (p in pushes ==>
            LastIndex(pushes, p) ==
              if p in env then |defaults + One(user) + One(project)| + LastIndex(env, p)
              else if project == Some(p) then |defaults + One(user)|
              else if user == Some(p) then |defaults|
              else LastIndex(defaults, p))
  {
    var two := defaults + One(user);
    var three := two + One(project);
    if p in three + env { LastIndexOfSum(three, env, p); }
    if p in three { LastIndexOfSum(two, One(project), p); }
    if p in two { LastIndexOfSum(defaults, One(user), p); }
  }

  lemma KeptIsPrioritised<P(!new)>(defaults: seq<P>, user: Option<P>, project: Option<P>, env: seq<P>)
    ensures Prioritised(KeepLast(defaults + One(user) + One(project) + env), defaults, user, project, env)
  {
    var pushes := defaults + One(user) + One(project) + env;
    var kept := KeepLast(pushes);
    KeepLastIsDistinct(pushes);
    forall p ensures p in kept <==> p in pushes {
      KeepLastElements(pushes, p);
    }
    forall p ensures p in pushes <==> p in defaults || user == Some(p) || project == Some(p) || p in env {
      LastPush(defaults, user, project, env, p);
    }
    hide KeepLast, One;
    forall p, q | p in pushes && q in pushes && Layer(user, project, env, p) < Layer(user, project, env, q)
      ensures Before(kept, p, q) {
      LastPush(defaults, user, project, env, p);
      LastPush(defaults, user, project, env, q);
      OneIsShort(user);
      OneIsShort(project);
      LaterPushComesLater(pushes, p, q);
    }
    forall p, q | p in env && q in env && LastIndex(env, p) < LastIndex(env, q) ensures Before(kept, p, q) {
      LastPush(defaults, user, project, env, p);
      LastPush(defaults, user, project, env, q);
      LaterPushComesLater(pushes, p, q);
    }
    forall p, q | InLowest(defaults, user, project, env, p, q) && LastIndex(defaults, p) < LastIndex(defaults, q)
      ensures Before(kept, p, q) {
      LastPush(defaults, user, project, env, p);
      LastPush(defaults, user, project, env, q);
      LaterPushComesLater(pushes, p, q);
    }
  }

  lemma OneIsShort<P>(p: Option<P>)
    ensures |One(p)| == if p.Some? then 1 else 0
  {}

  lemma ExistingCandidates<P>(prepend: seq<Option<P>>, user: Option<P>, project: Option<P>, env: seq<Option<P>>)
    ensures Existing(Candidates(prepend, user, project, env)) ==
            Existing(prepend) + One(user) + One(project) + Existing(env)
  {
    ExistingAppend(prepend, [user, project]);
    ExistingAppend(prepend + [user, project], env);
    ExistingAppend([user], [project]);
    assert [user] + [project] == [user, project];
    ExistingOne(user);
    ExistingOne(project);
    assert Existing(prepend) + (One(user) + One(project)) == Existing(prepend) + One(user) + One(project);
  }

  lemma ExistingOne<P>(p: Option<P>)
    ensures Existing([p]) == One(p)
  {
    assert [p][1..] == [];
    assert Existing<P>([]) == [];
  }

  /** `layered_paths`, given the resolved path of every candidate that exists. */
  method LayeredPaths<P(==, !new)>(prepend: seq<Option<P>>, user: Option<P>, project: Option<P>, env: seq<Option<P>>)
    returns (paths: seq<P>)
    ensures paths == KeepLast(Existing(Candidates(prepend, user, project, env)))
    ensures Prioritised(paths, Existing(prepend), user, project, Existing(env))
  {
    var chain := new Chain<P>();
    PushAll(chain, prepend);
    PushAll(chain, [user, project]);
    PushAll(chain, env);
    ExistingAppend(prepend, [user, project]);
    ExistingAppend(prepend + [user, project], env);
    assert chain.pushed == Existing(prepend) + Existing([user, project]) + Existing(env);
    ExistingCandidates(prepend, user, project, env);
    KeptIsPrioritised(Existing(prepend), user, project, Existing(env));
    hide Prioritised;
    return chain.chain;
  }
}
