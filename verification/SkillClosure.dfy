/**
 What `activate` has loaded when it returns: every skill a matched one depends on, through any chain of loaded skills and
 whatever cycles the chain runs into, and nothing besides.
 */
module SkillClosure {
  import opened SkillModel
  import opened SkillLifecycle

  /** The dependencies of a loaded skill. */
  function Needs(r: Registry, name: string): seq<string> {
    if name in r.loaded && AttrName(name) in r.attrs then r.attrs[AttrName(name)].needs else []
  }

  /** Loading this name, discovered or not, can only fail. */
  predicate OutOfReach(r: Registry, name: string) {
    name !in r.discovered || !r.discovered[name].Constructed? || !r.discovered[name].attaches || Reserved(AttrName(name))
  }

  /** Each name is needed by the loaded skill before it. */
  ghost predicate Chain(r: Registry, path: seq<string>) {
    && path != []
    && forall i :: 0 <= i < |path| - 1 ==> path[i] in r.loaded && path[i + 1] in Needs(r, path[i])
  }

  /** `s` has loaded more than `r` and kept what each skill needs. */
  ghost predicate Grown(r: Registry, s: Registry) {
    && Nested(r) && Nested(s) && OwnAttributes(r) && OwnAttributes(s)
    && s.discovered == r.discovered && s.activated == r.activated && s.context == r.context
    && r.loaded <= s.loaded && (forall n :: n in r.loaded ==> Needs(s, n) == Needs(r, n))
    && forall n :: n in s.loaded && n !in r.loaded ==> !OutOfReach(r, n)
  }

  /** Dealt with: visited and loaded, or out of reach and not loaded. */
  ghost predicate Met(r: Registry, deps: seq<string>, visited: set<string>) {
    forall dep :: dep in deps ==> if dep in r.loaded then dep in visited else OutOfReach(r, dep)
  }

  /** Every name of `visited` is loaded, and those not in `pending` have all their dependencies dealt with. */
  ghost predicate ClosedBut(r: Registry, visited: set<string>, pending: set<string>) {
    && visited <= r.loaded
    && forall n :: n in visited && n !in pending ==> Met(r, Needs(r, n), visited)
  }

  /** Every newly loaded name is at the end of a chain from `name`. */
  ghost predicate LoadedBelow(r: Registry, s: Registry, name: string) {
    forall n :: n in s.loaded && n !in r.loaded ==> Below(s, name, n)
  }

  ghost predicate Below(r: Registry, top: string, bottom: string) {
    exists path :: Chain(r, path) && path[0] == top && path[|path| - 1] == bottom
  }

  lemma BelowIsKept(r: Registry, s: Registry, top: string, bottom: string)
    requires Grown(r, s) && Below(r, top, bottom)
    ensures Below(s, top, bottom)
  {
    hide Needs, Nested, OwnAttributes;
    var path :| Chain(r, path) && path[0] == top && path[|path| - 1] == bottom;
    assert Chain(s, path);
  }

  lemma BelowItself(r: Registry, name: string)
    ensures Below(r, name, name)
  {
    assert Chain(r, [name]) && [name][0] == name;
  }

  lemma BelowOneUp(r: Registry, top: string, dep: string, bottom: string)
    requires top in r.loaded && dep in Needs(r, top) && Below(r, dep, bottom)
    ensures Below(r, top, bottom)
  {
    hide Needs;
    var path :| Chain(r, path) && path[0] == dep && path[|path| - 1] == bottom;
    var longer := [top] + path;
    forall i | 0 <= i < |longer| - 1 ensures longer[i] in r.loaded && longer[i + 1] in Needs(r, longer[i]) {
      if i > 0 { assert longer[i] == path[i - 1] && longer[i + 1] == path[i]; }
    }
    assert Chain(r, longer);
  }

  lemma GrownIsTransitive(r: Registry, s: Registry, t: Registry)
    requires Grown(r, s) && Grown(s, t)
    ensures Grown(r, t)
  {
    hide Needs, OwnAttributes, Nested;
    forall n | n in t.loaded && n !in r.loaded ensures !OutOfReach(r, n) {
      SameReach(r, s, n);
    }
  }

  lemma LoadOneGrows(r: Registry, name: string)
    requires Nested(r) && OwnAttributes(r) && name in r.discovered && name !in r.loaded
    ensures Grown(r, LoadOne(r, name))
    ensures name in LoadOne(r, name).loaded <==> !OutOfReach(r, name)
    ensures LoadOne(r, name).loaded <= r.loaded + {name}
  {
    hide AttrName, Reserved;
    LoadOneKeepsBlocks(r, name);
  }

  /** `dep` as `_resolve_deps` finds it: loaded if it was, or if loading it now succeeds. */
  function Tried(r: Registry, dep: string): Registry {
    if dep !in r.loaded && dep in r.discovered then LoadOne(r, dep) else r
  }

  lemma TriedGrows(r: Registry, dep: string)
    requires Nested(r) && OwnAttributes(r)
    ensures Grown(r, Tried(r, dep))
    ensures dep in Tried(r, dep).loaded || OutOfReach(Tried(r, dep), dep)
    ensures Tried(r, dep).loaded <= r.loaded + {dep}
    ensures dep !in r.discovered ==> dep !in Tried(r, dep).loaded
  {
    hide OutOfReach, Needs, LoadOne, OwnAttributes;
    if dep !in r.loaded && dep in r.discovered {
      LoadOneGrows(r, dep);
      SameReach(r, LoadOne(r, dep), dep);
    } else {
      Undiscovered(r, dep);
    }
  }

  lemma SameReach(r: Registry, s: Registry, name: string)
    requires s.discovered == r.discovered
    ensures OutOfReach(r, name) == OutOfReach(s, name)
  {}

  lemma Undiscovered(r: Registry, name: string)
    ensures name !in r.discovered ==> OutOfReach(r, name)
  {}

  lemma MetIsKept(r: Registry, s: Registry, deps: seq<string>, visited: set<string>, seen: set<string>)
    requires Grown(r, s) && visited <= seen && Met(r, deps, visited)
    ensures Met(s, deps, seen)
  {
    hide Needs, Nested, OwnAttributes;
    forall dep | dep in deps ensures if dep in s.loaded then dep in seen else OutOfReach(s, dep) {
      SameReach(r, s, dep);
    }
  }

  lemma ClosedIsKept(r: Registry, s: Registry, visited: set<string>, pending: set<string>)
    requires Grown(r, s) && ClosedBut(r, visited, pending)
    ensures ClosedBut(s, visited, pending)
  {
    hide Needs, Met, Nested, OwnAttributes, OutOfReach;
    forall n | n in visited && n !in pending ensures Met(s, Needs(s, n), visited) {
      MetIsKept(r, s, Needs(r, n), visited, visited);
    }
  }

  lemma {:induction false} ResolveCloses(r: Registry, name: string, visited: set<string>, pending: set<string>)
    requires Nested(r) && OwnAttributes(r) && name in r.loaded && ClosedBut(r, visited, pending) && pending <= visited
    ensures
      var (s, seen) := Resolve(r, name, visited);
      Grown(r, s) && name in seen && ClosedBut(s, seen, pending) && LoadedBelow(r, s, name)
    decreases r.discovered.Keys - visited, 0
  {
    hide Needs, Met, LoadedBelow, ClosedBut, Grown, OwnAttributes;
    GrowsItself(r, name);
    if name !in visited {
      var attr := AttrOf(r, name);
      AttributeIsOwn(r, name);
      VisitOne(r, name, visited, pending);
      var deps := r.attrs[attr].needs;
      ResolveEachCloses(r, name, deps, visited + {name}, pending + {name});
      var (s, seen) := ResolveEach(r, deps, visited + {name});
      LastOneDone(r, s, name, seen, pending);
    }
  }

  lemma AttributeIsOwn(r: Registry, name: string)
    requires Nested(r) && OwnAttributes(r) && name in r.loaded
    ensures AttrOf(r, name) in r.attrs && r.attrs[AttrOf(r, name)].needs == Needs(r, name)
  {}

  lemma GrowsItself(r: Registry, name: string)
    requires Nested(r) && OwnAttributes(r)
    ensures Grown(r, r) && LoadedBelow(r, r, name)
  {}

  lemma VisitOne(r: Registry, name: string, visited: set<string>, pending: set<string>)
    requires ClosedBut(r, visited, pending) && name in r.loaded && Grown(r, r)
    ensures ClosedBut(r, visited + {name}, pending + {name})
  {
    hide Needs, Met, Grown;
    forall n | n in visited + {name} && n !in pending + {name} ensures Met(r, Needs(r, n), visited + {name}) {
      MetIsKept(r, r, Needs(r, n), visited, visited + {name});
    }
  }

  lemma LastOneDone(r: Registry, s: Registry, name: string, seen: set<string>, pending: set<string>)
    requires ClosedBut(s, seen, pending + {name}) && Grown(r, s) && name in r.loaded && Met(s, Needs(r, name), seen)
    ensures ClosedBut(s, seen, pending)
  {
    hide Needs, Met;
  }

  lemma {:induction false} ResolveEachCloses(
    r: Registry, name: string, deps: seq<string>, visited: set<string>, pending: set<string>)
    requires Nested(r) && OwnAttributes(r) && ClosedBut(r, visited, pending) && pending <= visited
    requires name in r.loaded && forall dep :: dep in deps ==> dep in Needs(r, name)
    ensures
      var (s, seen) := ResolveEach(r, deps, visited);
      Grown(r, s) && Met(s, deps, seen) && ClosedBut(s, seen, pending) && LoadedBelow(r, s, name)
    decreases r.discovered.Keys - visited, 1 + |deps|
  {
    hide Needs, Met, LoadedBelow, ClosedBut, Grown, OwnAttributes, LoadOne, OutOfReach;
    GrowsItself(r, name);
    if deps == [] {
      NothingToMeet(r, visited);
    } else {
      var dep := deps[0];
      TriedGrows(r, dep);
      var tried := Tried(r, dep);
      GrownIsFit(r, tried);
      ClosedIsKept(r, tried, visited, pending);
      if dep in tried.loaded {
        ResolveCloses(tried, dep, visited, pending);
      }
      var (next, seen) := if dep in tried.loaded then Resolve(tried, dep, visited) else (tried, visited);
      GrowsItself(tried, dep);
      GrownIsFit(tried, next);
      GrownIsTransitive(r, tried, next);
      GrownIsFit(r, next);
      NeedsAreKept(r, next, name);
      ResolveEachCloses(next, name, deps[1..], seen, pending);
      var (last, all) := ResolveEach(next, deps[1..], seen);
      GrownIsFit(next, last);
      GrownIsTransitive(r, next, last);
      GrownIsFit(r, last);
      OneMoreMet(tried, next, last, dep, seen, all, deps);
      NeedsAreKept(r, last, name);
      LoadedBelowByStep(r, tried, next, last, name, dep);
    }
  }

  lemma NothingToMeet(r: Registry, visited: set<string>)
    ensures Met(r, [], visited)
  {}

  lemma GrownIsFit(r: Registry, s: Registry)
    requires Grown(r, s)
    ensures Nested(s) && OwnAttributes(s) && s.discovered == r.discovered && r.loaded <= s.loaded
  {}

  lemma NeedsAreKept(r: Registry, s: Registry, name: string)
    requires Grown(r, s) && name in r.loaded
    ensures Needs(s, name) == Needs(r, name)
  {}

  lemma OneMoreMet(
    tried: Registry, next: Registry, last: Registry, dep: string, seen: set<string>, all: set<string>, deps: seq<string>)
    requires deps != [] && deps[0] == dep && seen <= all
    requires Grown(tried, next) && Grown(next, last) && Met(last, deps[1..], all)
    requires if dep in tried.loaded then dep in seen else OutOfReach(tried, dep)
    ensures Met(last, deps, all)
  {
    hide Needs, OwnAttributes, Nested;
    SameReach(tried, last, dep);
    SameReach(tried, next, dep);
    hide OutOfReach;
    assert forall d :: d in deps ==> d == dep || d in deps[1..];
  }

  lemma LoadedBelowByStep(r: Registry, tried: Registry, next: Registry, last: Registry, name: string, dep: string)
    requires Grown(tried, next) && Grown(next, last) && LoadedBelow(next, last, name)
    requires tried.loaded <= r.loaded + {dep} && LoadedBelow(tried, next, dep)
    requires name in last.loaded && dep in Needs(last, name)
    ensures LoadedBelow(r, last, name)
  {
    hide Grown, Needs, Below;
    forall n | n in last.loaded && n !in r.loaded ensures Below(last, name, n) {
      if n !in tried.loaded && n in next.loaded {
        BelowIsKept(next, last, dep, n);
        BelowOneUp(last, name, dep, n);
      } else if n in next.loaded {
        BelowItself(last, n);
        BelowOneUp(last, name, dep, n);
      }
    }
  }

  // ------------------------------------------------------------------------------------------------------- the result

  ghost predicate InClosed(r: Registry, name: string) {
    exists visited: set<string> :: name in visited && ClosedBut(r, visited, {})
  }

  lemma InClosedIsKept(r: Registry, s: Registry, name: string)
    requires Grown(r, s) && InClosed(r, name)
    ensures InClosed(s, name)
  {
    hide Grown, ClosedBut;
    var visited: set<string> :| name in visited && ClosedBut(r, visited, {});
    ClosedIsKept(r, s, visited, {});
  }

  /** Below some name of `tops`. */
  ghost predicate LoadedBelowAny(r: Registry, s: Registry, tops: seq<string>) {
    forall n :: n in s.loaded && n !in r.loaded ==> exists top :: top in tops && Below(s, top, n)
  }

  lemma {:induction false} ResolveAllCloses(r: Registry, names: seq<string>)
    requires Nested(r) && OwnAttributes(r) && forall name :: name in names ==> name in r.loaded
    ensures Grown(r, ResolveAll(r, names)) && LoadedBelowAny(r, ResolveAll(r, names), names)
    ensures forall name :: name in names ==> InClosed(ResolveAll(r, names), name)
    decreases |names|
  {
    hide Grown, ClosedBut, LoadedBelow, LoadedBelowAny, OwnAttributes, Below;
    GrowsItself(r, "");
    if names != [] {
      NothingVisited(r);
      ResolveCloses(r, names[0], {}, {});
      var (one, seen) := Resolve(r, names[0], {});
      assert InClosed(one, names[0]);
      GrownIsFit(r, one);
      ResolveAllCloses(one, names[1..]);
      var all := ResolveAll(one, names[1..]);
      InClosedIsKept(one, all, names[0]);
      GrownIsTransitive(r, one, all);
      LoadedBelowAnyByStep(r, one, all, names);
      hide InClosed;
      assert forall name :: name in names ==> name == names[0] || name in names[1..];
    } else {
      NothingLoaded(r, names);
    }
  }

  lemma NothingVisited(r: Registry)
    ensures ClosedBut(r, {}, {})
  {}

  lemma NothingLoaded(r: Registry, names: seq<string>)
    ensures LoadedBelowAny(r, r, names)
  {}

  lemma LoadedBelowAnyByStep(r: Registry, one: Registry, all: Registry, names: seq<string>)
    requires names != [] && LoadedBelow(r, one, names[0]) && Grown(one, all) && LoadedBelowAny(one, all, names[1..])
    ensures LoadedBelowAny(r, all, names)
  {
    hide Grown, Below;
    forall n | n in all.loaded && n !in r.loaded ensures exists top :: top in names && Below(all, top, n) {
      if n in one.loaded {
        BelowIsKept(one, all, names[0], n);
      } else {
        var top :| top in names[1..] && Below(all, top, n);
        assert top in names;
      }
    }
  }

  /** Along a chain from a closed set, every name is in the set or out of reach. */
  lemma {:induction false} ChainStaysClosed(r: Registry, path: seq<string>, visited: set<string>)
    requires Chain(r, path) && path[0] in visited && ClosedBut(r, visited, {})
    ensures path[|path| - 1] in r.loaded || OutOfReach(r, path[|path| - 1])
  {
    if |path| > 1 {
      var rest := path[1..];
      assert path[0 + 1] in Needs(r, path[0]);
      assert Met(r, Needs(r, path[0]), visited);
      if rest[0] in r.loaded {
        forall i | 0 <= i < |rest| - 1 ensures rest[i] in r.loaded && rest[i + 1] in Needs(r, rest[i]) {
          assert rest[i] == path[i + 1] && rest[i + 1] == path[i + 1 + 1];
        }
        assert Chain(r, rest);
        ChainStaysClosed(r, rest, visited);
      } else {
        assert |rest| == 1;
      }
    }
  }

  /** After `activate` every name at the end of a chain from a matched one is loaded, unless it is not discovered or its
      loading can only fail. */
  lemma ActivateClosesDependencies(r: Registry, missing: seq<string>, matched: seq<string>, path: seq<string>)
    requires CanActivate(r, missing, matched) && OwnAttributes(r)
    requires Chain(Activate(r, missing, matched), path) && path[0] in matched
    ensures
      var done := Activate(r, missing, matched);
      path[|path| - 1] in done.loaded || OutOfReach(done, path[|path| - 1])
  {
    LoadNamesKeepsAttributes(r, missing);
    var resolved := ResolveAll(LoadNames(r, missing), matched);
    hide OwnAttributes, Grown, LoadedBelowAny, InClosed, LoadNames;
    ResolveAllCloses(LoadNames(r, missing), matched);
    ActivateNamesKeepsNested(resolved, matched);
    ShownIsClosed(resolved, Activate(r, missing, matched), path);
  }

  lemma ShownIsClosed(r: Registry, done: Registry, path: seq<string>)
    requires done.loaded == r.loaded && done.attrs == r.attrs && done.discovered == r.discovered
    requires Chain(done, path) && InClosed(r, path[0])
    ensures path[|path| - 1] in done.loaded || OutOfReach(done, path[|path| - 1])
  {
    var visited: set<string> :| path[0] in visited && ClosedBut(r, visited, {});
    assert forall n :: Needs(done, n) == Needs(r, n);
    ChainStaysClosed(r, path, visited);
  }

  /** Whatever the order, loading adds exactly the names whose loading can succeed. */
  lemma {:induction false} LoadNamesLoads(r: Registry, names: seq<string>)
    requires forall name :: name in names ==> name in r.discovered
    ensures LoadNames(r, names).loaded == r.loaded + set name | name in names && !OutOfReach(r, name)
    decreases |names|
  {
    hide AttrName, Reserved;
    if names != [] {
      var next := if names[0] in r.loaded then r else LoadOne(r, names[0]);
      LoadNamesLoads(next, names[1..]);
      assert forall name :: OutOfReach(next, name) == OutOfReach(r, name);
      assert forall name :: name in names <==> name == names[0] || name in names[1..];
    }
  }

  lemma {:induction false} LoadNamesKeepsAttributes(r: Registry, names: seq<string>)
    requires Nested(r) && OwnAttributes(r) && forall name :: name in names ==> name in r.discovered
    ensures OwnAttributes(LoadNames(r, names))
    ensures LoadNames(r, names).activated == r.activated
    ensures forall n :: n in LoadNames(r, names).loaded && n !in r.loaded ==> n in names
    decreases |names|
  {
    hide OwnAttributes, AttrName;
    if names != [] {
      if names[0] !in r.loaded { LoadOneKeepsBlocks(r, names[0]); }
      LoadNamesKeepsAttributes(if names[0] in r.loaded then r else LoadOne(r, names[0]), names[1..]);
    }
  }

  /** ... the activated skills have grown by the matched ones alone, and every other newly loaded skill is a dependency,
      direct or not, of a matched one. */
  lemma ActivateAddsOnlyDependencies(r: Registry, missing: seq<string>, matched: seq<string>)
    requires CanActivate(r, missing, matched) && OwnAttributes(r)
    ensures
      var done := Activate(r, missing, matched);
      && done.activated == r.activated + (set name | name in matched)
      && r.loaded <= done.loaded
      && forall n :: n in done.loaded && n !in r.loaded && n !in missing ==>
           exists top :: top in matched && Below(done, top, n)
  {
    LoadNamesKeepsAttributes(r, missing);
    var loaded := LoadNames(r, missing);
    var resolved := ResolveAll(loaded, matched);
    var done := Activate(r, missing, matched);
    hide OwnAttributes, Grown, LoadedBelowAny, InClosed, LoadNames, Below;
    LoadNamesOnlyAdds(r, missing);
    ResolveAllCloses(loaded, matched);
    GrownActivatesNothing(loaded, resolved);
    ActivateNamesKeepsNested(resolved, matched);
    ShownIsBelow(loaded, resolved, done, matched);
  }

  lemma {:induction false} LoadNamesOnlyAdds(r: Registry, names: seq<string>)
    requires forall name :: name in names ==> name in r.discovered
    ensures r.loaded <= LoadNames(r, names).loaded
    decreases |names|
  {
    hide AttrName;
    if names != [] {
      LoadNamesOnlyAdds(if names[0] in r.loaded then r else LoadOne(r, names[0]), names[1..]);
    }
  }

  lemma GrownActivatesNothing(r: Registry, s: Registry)
    requires Grown(r, s)
    ensures s.activated == r.activated && r.loaded <= s.loaded
  {}

  lemma ShownIsBelow(r: Registry, s: Registry, done: Registry, tops: seq<string>)
    requires done.loaded == s.loaded && done.attrs == s.attrs && LoadedBelowAny(r, s, tops)
    ensures forall n :: n in done.loaded && n !in r.loaded ==> exists top :: top in tops && Below(done, top, n)
  {
    assert forall n :: Needs(done, n) == Needs(s, n);
    forall n | n in done.loaded && n !in r.loaded ensures exists top :: top in tops && Below(done, top, n) {
      var top :| top in tops && Below(s, top, n);
      hide Needs;
      var path :| Chain(s, path) && path[0] == top && path[|path| - 1] == n;
      assert Chain(done, path);
    }
  }
}
