/**
 What every sequence of registry operations keeps: the three sets stay nested, each loaded skill keeps its own attribute,
 and the context blocks on the agent are those of the activated skills, no more and no fewer.
 */
module SkillLifecycle {
  import opened Options
  import opened SkillModel

  // --------------------------------------------------------------------------------------------------------- the sets

  lemma {:induction false} ActivateNamesKeepsNested(r: Registry, names: seq<string>)
    requires Nested(r) && forall name :: name in names ==> name in r.loaded
    ensures Nested(ActivateNames(r, names))
    ensures ActivateNames(r, names).loaded == r.loaded
    ensures ActivateNames(r, names).attrs == r.attrs
    ensures ActivateNames(r, names).discovered == r.discovered
    ensures ActivateNames(r, names).activated == r.activated + set name | name in names
    decreases |names|
  {
    if names != [] {
      ActivateNamesKeepsNested(Shown(r, names[0]), names[1..]);
      assert forall name :: name in names <==> name == names[0] || name in names[1..];
    }
  }

  lemma {:induction false} DeactivateNamesKeepsNested(r: Registry, names: seq<string>)
    requires Nested(r)
    ensures Nested(DeactivateNames(r, names))
    ensures DeactivateNames(r, names).activated == r.activated - set name | name in names
    decreases |names|
  {
    if names != [] {
      DeactivateNamesKeepsNested(Hidden(r, names[0]), names[1..]);
      assert forall name :: name in names <==> name == names[0] || name in names[1..];
    }
  }

  // ------------------------------------------------------------------------------------------------------ the contexts

  /** The block of a skill that is loaded or could be loaded. */
  function BlockOf(r: Registry, name: string): Option<Block> {
    if name in r.loaded then
      (if AttrName(name) in r.attrs then r.attrs[AttrName(name)].block else None)
    else if name in r.discovered && r.discovered[name].Constructed? then r.discovered[name].skill.block
    else None
  }

  predicate KeyIs(block: Option<Block>, key: string) {
    block.Some? && block.value.key == key
  }

  /** No two known skills share an attribute, and every loaded one has its attribute set. */
  ghost predicate OwnAttributes(r: Registry) {
    && (forall m, n :: m in r.discovered && n in r.discovered && AttrName(m) == AttrName(n) ==> m == n)
    && forall n :: n in r.loaded ==> AttrName(n) in r.attrs
  }

  /** A block that `name` may declare: its key is neither protected, nor among the agent's own, nor another skill's. */
  ghost predicate Separate(r: Registry, name: string, block: Option<Block>, base: map<string, string>) {
    block.Some? ==>
      && block.value.key !in r.protectedKeys && block.value.key !in base
      && forall n :: n in r.discovered && n != name ==> !KeyIs(BlockOf(r, n), block.value.key)
  }

  ghost predicate OwnBlocks(r: Registry, base: map<string, string>) {
    forall n :: n in r.discovered ==> Separate(r, n, BlockOf(r, n), base)
  }

  /** The agent's own blocks, the blocks of the activated skills, and no others. */
  ghost predicate ExactContext(r: Registry, base: map<string, string>) {
    && (forall key :: key in base ==> key in r.context && r.context[key] == base[key])
    && (forall n :: n in r.activated && BlockOf(r, n).Some? ==>
          BlockOf(r, n).value.key in r.context && r.context[BlockOf(r, n).value.key] == BlockOf(r, n).value.expr)
    && forall key :: key in r.context && key !in base ==> exists n :: n in r.activated && KeyIs(BlockOf(r, n), key)
  }

  ghost predicate Tidy(r: Registry, base: map<string, string>) {
    Nested(r) && OwnAttributes(r) && OwnBlocks(r, base) && ExactContext(r, base)
  }

  /** Two registries that show the same skills, with the same blocks and the same context. */
  ghost predicate SameBlocks(r: Registry, s: Registry) {
    && s.discovered == r.discovered && s.activated == r.activated
    && s.context == r.context && s.protectedKeys == r.protectedKeys
    && forall n :: n in r.discovered ==> BlockOf(s, n) == BlockOf(r, n)
  }

  lemma SameBlocksStaySeparate(r: Registry, s: Registry, base: map<string, string>)
    requires OwnBlocks(r, base) && SameBlocks(r, s)
    ensures OwnBlocks(s, base)
  {
    hide BlockOf;
    forall n | n in s.discovered ensures Separate(s, n, BlockOf(s, n), base) {
      assert Separate(r, n, BlockOf(r, n), base);
    }
  }

  lemma SameBlocksStayExact(r: Registry, s: Registry, base: map<string, string>)
    requires ExactContext(r, base) && SameBlocks(r, s) && r.activated <= r.discovered.Keys
    ensures ExactContext(s, base)
  {
    hide BlockOf;
    forall key | key in s.context && key !in base ensures exists n :: n in s.activated && KeyIs(BlockOf(s, n), key) {
      var n :| n in r.activated && KeyIs(BlockOf(r, n), key);
      assert KeyIs(BlockOf(s, n), key);
    }
  }

  lemma LoadOneKeepsBlocks(r: Registry, name: string)
    requires Nested(r) && OwnAttributes(r) && name in r.discovered && name !in r.loaded
    ensures OwnAttributes(LoadOne(r, name)) && SameBlocks(r, LoadOne(r, name))
    ensures forall n :: n in r.loaded ==> LoadOne(r, name).attrs[AttrName(n)] == r.attrs[AttrName(n)]
  {
    hide AttrName;
  }

  /** Loading another skill leaves the blocks and the context alone. */
  lemma LoadOneKeepsTidy(r: Registry, name: string, base: map<string, string>)
    requires Tidy(r, base) && name in r.discovered && name !in r.loaded
    ensures Tidy(LoadOne(r, name), base)
    ensures forall n :: n in r.loaded ==> LoadOne(r, name).attrs[AttrName(n)] == r.attrs[AttrName(n)]
  {
    hide SameBlocks, OwnBlocks, ExactContext, OwnAttributes;
    LoadOneKeepsBlocks(r, name);
    SameBlocksStaySeparate(r, LoadOne(r, name), base);
    SameBlocksStayExact(r, LoadOne(r, name), base);
  }

  /** A name that a load adds has its skill at its own attribute. */
  lemma {:induction false} LoadNamesPlaces(r: Registry, names: seq<string>, n: string)
    requires Nested(r) && OwnAttributes(r) && forall name :: name in names ==> name in r.discovered
    requires n in LoadNames(r, names).loaded
    ensures
      var done := LoadNames(r, names);
      && n in r.discovered && AttrName(n) in done.attrs
      && (n in r.loaded ==> done.attrs[AttrName(n)] == r.attrs[AttrName(n)])
      && (n !in r.loaded ==>
            r.discovered[n].Constructed? && done.attrs[AttrName(n)] == r.discovered[n].skill)
    decreases |names|
  {
    hide AttrName, Reserved, LoadOne, OwnAttributes;
    if names != [] {
      var next := if names[0] in r.loaded then r else LoadOne(r, names[0]);
      if names[0] !in r.loaded {
        LoadOneKeepsBlocks(r, names[0]);
        LoadOnePlaces(r, names[0]);
      }
      LoadNamesPlaces(next, names[1..], n);
    } else {
      HasAttribute(r, n);
    }
  }

  lemma LoadOnePlaces(r: Registry, name: string)
    requires Nested(r) && name in r.discovered && name !in r.loaded
    ensures
      var done := LoadOne(r, name);
      && Nested(done) && r.loaded <= done.loaded <= r.loaded + {name}
      && (name in done.loaded ==>
            && r.discovered[name].Constructed? && AttrName(name) in done.attrs
            && done.attrs[AttrName(name)] == r.discovered[name].skill)
  {
    hide AttrName, Reserved;
  }

  lemma HasAttribute(r: Registry, n: string)
    requires Nested(r) && OwnAttributes(r) && n in r.loaded
    ensures n in r.discovered && AttrName(n) in r.attrs
  {}

  lemma {:induction false} LoadNamesKeepsTidy(r: Registry, names: seq<string>, base: map<string, string>)
    requires Tidy(r, base) && forall name :: name in names ==> name in r.discovered
    ensures Tidy(LoadNames(r, names), base)
    decreases |names|
  {
    if names != [] {
      if names[0] !in r.loaded { LoadOneKeepsTidy(r, names[0], base); }
      LoadNamesKeepsTidy(if names[0] in r.loaded then r else LoadOne(r, names[0]), names[1..], base);
    }
  }

  lemma {:induction false} ResolveKeepsTidy(r: Registry, name: string, visited: set<string>, base: map<string, string>)
    requires Tidy(r, base) && name in r.loaded
    ensures Tidy(Resolve(r, name, visited).0, base)
    decreases r.discovered.Keys - visited, 0
  {
    if name !in visited && AttrOf(r, name) in r.attrs {
      ResolveEachKeepsTidy(r, r.attrs[AttrOf(r, name)].needs, visited + {name}, base);
    }
  }

  lemma {:induction false} ResolveEachKeepsTidy(
    r: Registry, deps: seq<string>, visited: set<string>, base: map<string, string>)
    requires Tidy(r, base)
    ensures Tidy(ResolveEach(r, deps, visited).0, base)
    decreases r.discovered.Keys - visited, 1 + |deps|
  {
    if deps != [] {
      var dep := deps[0];
      if dep !in r.loaded && dep in r.discovered { LoadOneKeepsTidy(r, dep, base); }
      var tried := if dep !in r.loaded && dep in r.discovered then LoadOne(r, dep) else r;
      if dep in tried.loaded { ResolveKeepsTidy(tried, dep, visited, base); }
      var (next, seen) := if dep in tried.loaded then Resolve(tried, dep, visited) else (tried, visited);
      ResolveEachKeepsTidy(next, deps[1..], seen, base);
    }
  }

  lemma {:induction false} ResolveAllKeepsTidy(r: Registry, names: seq<string>, base: map<string, string>)
    requires Tidy(r, base) && forall name :: name in names ==> name in r.loaded
    ensures Tidy(ResolveAll(r, names), base)
    decreases |names|
  {
    if names != [] {
      ResolveKeepsTidy(r, names[0], {}, base);
      ResolveAllKeepsTidy(Resolve(r, names[0], {}).0, names[1..], base);
    }
  }

  /** A context with a block put in, and with one taken out. */
  function With(context: map<string, string>, block: Option<Block>): map<string, string> {
    if block.None? then context else context[block.value.key := block.value.expr]
  }

  function Less(context: map<string, string>, block: Option<Block>): map<string, string> {
    if block.None? then context else context - {block.value.key}
  }

  /** On a tidy registry, the context calls act on the block of the skill they are given. */
  lemma ContextCallsAre(r: Registry, name: string, base: map<string, string>)
    requires Nested(r) && OwnAttributes(r) && OwnBlocks(r, base) && name in r.loaded
    ensures RegisterBlock(r, name) == r.(context := With(r.context, BlockOf(r, name)))
    ensures UnregisterBlock(r, name) == r.(context := Less(r.context, BlockOf(r, name)))
  {
    hide AttrName;
    assert AttrOf(r, name) == AttrName(name);
    assert Separate(r, name, BlockOf(r, name), base);
  }

  /** Only the activated set and the context differ. */
  ghost predicate SameSkills(r: Registry, s: Registry) {
    s == r.(activated := s.activated, context := s.context)
  }

  lemma SameSkillsAreTidy(r: Registry, s: Registry, base: map<string, string>)
    requires Nested(r) && OwnAttributes(r) && OwnBlocks(r, base) && SameSkills(r, s) && s.activated <= s.loaded
    ensures Nested(s) && OwnAttributes(s) && OwnBlocks(s, base)
    ensures forall n :: BlockOf(s, n) == BlockOf(r, n)
  {
    hide AttrName;
    assert forall n :: BlockOf(s, n) == BlockOf(r, n);
    hide BlockOf;
    forall n | n in s.discovered ensures Separate(s, n, BlockOf(s, n), base) {
      assert Separate(r, n, BlockOf(r, n), base);
    }
  }

  lemma ShowKeepsExact(r: Registry, s: Registry, name: string, base: map<string, string>)
    requires OwnBlocks(r, base) && ExactContext(r, base) && r.activated <= r.discovered.Keys && name in r.discovered
    requires forall n :: BlockOf(s, n) == BlockOf(r, n)
    requires s.activated == r.activated + {name} && s.context == With(r.context, BlockOf(r, name))
    ensures ExactContext(s, base)
  {
    hide BlockOf;
    assert Separate(r, name, BlockOf(r, name), base);
    forall key | key in s.context && key !in base ensures exists n :: n in s.activated && KeyIs(BlockOf(s, n), key) {
      if !KeyIs(BlockOf(r, name), key) {
        var n :| n in r.activated && KeyIs(BlockOf(r, n), key);
        assert n in s.activated && KeyIs(BlockOf(s, n), key);
      } else {
        assert name in s.activated && KeyIs(BlockOf(s, name), key);
      }
    }
  }

  lemma HideKeepsExact(r: Registry, s: Registry, name: string, base: map<string, string>)
    requires OwnBlocks(r, base) && ExactContext(r, base) && r.activated <= r.discovered.Keys && name in r.discovered
    requires forall n :: BlockOf(s, n) == BlockOf(r, n)
    requires s.activated == r.activated - {name} && s.context == Less(r.context, BlockOf(r, name))
    ensures ExactContext(s, base)
  {
    hide BlockOf;
    assert Separate(r, name, BlockOf(r, name), base);
    forall key | key in s.context && key !in base ensures exists n :: n in s.activated && KeyIs(BlockOf(s, n), key) {
      var n :| n in r.activated && KeyIs(BlockOf(r, n), key);
      assert n in s.activated && KeyIs(BlockOf(s, n), key);
    }
  }

  lemma ShowKeepsTidy(r: Registry, name: string, base: map<string, string>)
    requires Tidy(r, base) && name in r.loaded
    ensures Tidy(Shown(r, name), base)
  {
    var marked := r.(activated := r.activated + {name});
    hide OwnAttributes, OwnBlocks, ExactContext, BlockOf, RegisterBlock;
    SameSkillsAreTidy(r, marked, base);
    ContextCallsAre(marked, name, base);
    var done := RegisterBlock(marked, name);
    SameSkillsAreTidy(r, done, base);
    ShowKeepsExact(r, done, name, base);
  }

  lemma HideKeepsTidy(r: Registry, name: string, base: map<string, string>)
    requires Tidy(r, base) && name in r.activated
    ensures Tidy(Hidden(r, name), base)
  {
    var marked := r.(activated := r.activated - {name});
    hide OwnAttributes, OwnBlocks, ExactContext, BlockOf, UnregisterBlock;
    SameSkillsAreTidy(r, marked, base);
    ContextCallsAre(marked, name, base);
    var done := UnregisterBlock(marked, name);
    SameSkillsAreTidy(r, done, base);
    HideKeepsExact(r, done, name, base);
  }

  // ------------------------------------------------------------------------------------------- reload and registration

  /** `name` now declares `block`; if it is activated, the context has the new block in place of the old. */
  ghost predicate Replaced(r: Registry, s: Registry, name: string, block: Option<Block>) {
    && s.activated == r.activated && s.protectedKeys == r.protectedKeys
    && s.discovered.Keys == r.discovered.Keys + {name}
    && BlockOf(s, name) == block && (forall n :: n in r.discovered && n != name ==> BlockOf(s, n) == BlockOf(r, n))
    && s.context == if name in r.activated then With(Less(r.context, BlockOf(r, name)), block) else r.context
  }

  lemma ReplacedStaysSeparate(r: Registry, s: Registry, name: string, block: Option<Block>, base: map<string, string>)
    requires OwnBlocks(r, base) && Replaced(r, s, name, block) && Separate(r, name, block, base)
    ensures OwnBlocks(s, base)
  {
    hide BlockOf;
    forall n | n in s.discovered ensures Separate(s, n, BlockOf(s, n), base) {
      assert n != name ==> Separate(r, n, BlockOf(r, n), base);
    }
  }

  lemma ReplacedIsCovered(
    r: Registry, s: Registry, name: string, block: Option<Block>, base: map<string, string>, key: string)
    requires OwnBlocks(r, base) && Replaced(r, s, name, block)
    requires ExactContext(r, base) && r.activated <= r.discovered.Keys
    requires key in s.context && key !in base
    ensures exists n :: n in s.activated && KeyIs(BlockOf(s, n), key)
  {
    hide BlockOf;
    if name in r.activated && KeyIs(block, key) {
      assert KeyIs(BlockOf(s, name), key);
    } else {
      var n :| n in r.activated && KeyIs(BlockOf(r, n), key);
      assert n != name && KeyIs(BlockOf(s, n), key);
    }
  }

  lemma ReplacedStaysExact(r: Registry, s: Registry, name: string, block: Option<Block>, base: map<string, string>)
    requires OwnBlocks(r, base) && Replaced(r, s, name, block) && Separate(r, name, block, base)
    requires ExactContext(r, base) && r.activated <= r.discovered.Keys
    ensures ExactContext(s, base)
  {
    hide BlockOf;
    assert name in r.activated ==> Separate(r, name, BlockOf(r, name), base);
    forall n | n in s.activated && n != name && BlockOf(s, n).Some?
      ensures BlockOf(s, n).value.key in s.context
      ensures s.context[BlockOf(s, n).value.key] == BlockOf(s, n).value.expr {
      assert Separate(r, n, BlockOf(r, n), base);
    }
    forall key | key in s.context && key !in base ensures exists n :: n in s.activated && KeyIs(BlockOf(s, n), key) {
      ReplacedIsCovered(r, s, name, block, base, key);
    }
  }

  lemma ReloadReplaces(r: Registry, name: string, skill: Skill, base: map<string, string>)
    requires Tidy(r, base) && name in r.loaded && Separate(r, name, skill.block, base)
    ensures Replaced(r, InstallReloaded(r, name, AttrName(name), skill), name, skill.block)
    ensures OwnAttributes(InstallReloaded(r, name, AttrName(name), skill))
  {
    hide AttrName, OwnBlocks, ExactContext;
    ContextCallsAre(r, name, base);
    assert AttrOf(r, name) == AttrName(name);
  }

  lemma ReloadKeepsTidy(r: Registry, name: string, skill: Skill, base: map<string, string>)
    requires Tidy(r, base) && name in r.loaded && Separate(r, name, skill.block, base)
    ensures Tidy(InstallReloaded(r, name, AttrName(name), skill), base)
  {
    var done := InstallReloaded(r, name, AttrName(name), skill);
    hide AttrName, Replaced, OwnAttributes, OwnBlocks, ExactContext;
    ReloadReplaces(r, name, skill, base);
    ReplacedStaysSeparate(r, done, name, skill.block, base);
    ReplacedStaysExact(r, done, name, skill.block, base);
  }

  lemma RegisterReplaces(r: Registry, name: string, skill: Skill, attaches: bool)
    requires Nested(r) && OwnAttributes(r) && name !in r.loaded
    requires forall n :: n in r.discovered && AttrName(n) == AttrName(name) ==> n == name
    ensures
      var done := Register(r, name, skill, attaches);
      done.Some? ==> if name in done.value.loaded then Replaced(r, done.value, name, skill.block)
                     else SameBlocks(r, done.value)
  {
    hide AttrName, Attached, Reserved;
  }

  lemma RegisterKeepsAttributes(r: Registry, name: string, skill: Skill, attaches: bool)
    requires Nested(r) && OwnAttributes(r)
    requires forall n :: n in r.discovered && AttrName(n) == AttrName(name) ==> n == name
    ensures
      var done := Register(r, name, skill, attaches);
      done.Some? ==> OwnAttributes(done.value)
  {
    hide AttrName, Attached, Reserved;
  }

  /** The registry after a call of `register`, also when it refuses. */
  function Registered(r: Registry, name: string, skill: Skill, attaches: bool): Registry {
    var done := Register(r, name, skill, attaches);
    if done.None? then r else done.value
  }

  /** What a caller of `register` has to see to: the name is not loaded, and no other skill has its attribute or the key of
      its block. */
  ghost predicate Registrable(r: Registry, name: string, skill: Skill, base: map<string, string>) {
    && name !in r.loaded
    && (forall n :: n in r.discovered && AttrName(n) == AttrName(name) ==> n == name)
    && Separate(r, name, skill.block, base)
  }

  lemma RegisterKeepsTidy(r: Registry, name: string, skill: Skill, attaches: bool, base: map<string, string>)
    requires Tidy(r, base) && Registrable(r, name, skill, base)
    ensures Tidy(Registered(r, name, skill, attaches), base)
  {
    hide AttrName, Replaced, SameBlocks, OwnAttributes, OwnBlocks, ExactContext, Attached;
    RegisterReplaces(r, name, skill, attaches);
    RegisterKeepsAttributes(r, name, skill, attaches);
    var done := Register(r, name, skill, attaches);
    if done.Some? {
      if name in done.value.loaded {
        ReplacedStaysSeparate(r, done.value, name, skill.block, base);
        ReplacedStaysExact(r, done.value, name, skill.block, base);
      } else {
        SameBlocksStaySeparate(r, done.value, base);
        SameBlocksStayExact(r, done.value, base);
      }
    }
  }

  lemma {:induction false} ActivateNamesKeepsTidy(r: Registry, names: seq<string>, base: map<string, string>)
    requires Tidy(r, base) && forall name :: name in names ==> name in r.loaded
    ensures Tidy(ActivateNames(r, names), base)
    decreases |names|
  {
    hide Tidy, BlockOf;
    if names != [] {
      ShowKeepsTidy(r, names[0], base);
      ActivateNamesKeepsTidy(Shown(r, names[0]), names[1..], base);
    }
  }

  lemma {:induction false} DeactivateNamesKeepsTidy(r: Registry, names: seq<string>, base: map<string, string>)
    requires Tidy(r, base) && forall name :: name in names ==> name in r.activated
    requires forall i, j :: 0 <= i < j < |names| ==> names[i] != names[j]
    ensures Tidy(DeactivateNames(r, names), base)
    decreases |names|
  {
    hide Tidy, BlockOf;
    if names != [] {
      HideKeepsTidy(r, names[0], base);
      DeactivateNamesKeepsTidy(
        Hidden(r, names[0]), names[1..], base);
    }
  }

  // ------------------------------------------------------------------------------------- why the conditions are needed

  /** Registering a loaded name again replaces its attribute and leaves the context as it was: the context stays exact if
      and only if the name is not activated or both skills declare the same block. */
  lemma RegisterAgainIsExactIff(r: Registry, name: string, skill: Skill, attaches: bool, base: map<string, string>)
    requires Tidy(r, base) && name in r.loaded && !Reserved(AttrName(name)) && Separate(r, name, skill.block, base)
    ensures
      var done := Register(r, name, skill, attaches).value;
      ExactContext(done, base) <==> (name !in r.activated || skill.block == BlockOf(r, name))
  {
    RegisterAgainReplaces(r, name, skill, attaches);
    var done := Register(r, name, skill, attaches).value;
    hide AttrName, BlockOf, ExactContext, OwnBlocks, OwnAttributes, Separate, Register;
    if name !in r.activated {
      ReplacedStaysExact(r, done, name, skill.block, base);
    } else if skill.block == BlockOf(r, name) {
      SameBlocksStayExact(r, done, base);
    } else {
      StaleBlock(r, done, name, skill.block, base);
    }
  }

  lemma RegisterAgainReplaces(r: Registry, name: string, skill: Skill, attaches: bool)
    requires Nested(r) && OwnAttributes(r) && name in r.loaded && !Reserved(AttrName(name))
    ensures
      var done := Register(r, name, skill, attaches);
      && done.Some? && done.value.activated == r.activated && done.value.context == r.context
      && done.value.discovered == r.discovered && done.value.protectedKeys == r.protectedKeys
      && BlockOf(done.value, name) == skill.block
      && forall n :: n in r.discovered && n != name ==> BlockOf(done.value, n) == BlockOf(r, n)
  {
    hide AttrName, Attached, Reserved;
  }

  /** An activated skill whose block has changed under an unchanged context. */
  lemma StaleBlock(r: Registry, s: Registry, name: string, block: Option<Block>, base: map<string, string>)
    requires Tidy(r, base) && Separate(r, name, block, base) && name in r.activated && block != BlockOf(r, name)
    requires s.activated == r.activated && s.context == r.context && BlockOf(s, name) == block
    requires forall n :: n in r.discovered && n != name ==> BlockOf(s, n) == BlockOf(r, n)
    ensures !ExactContext(s, base)
  {
    hide AttrName, BlockOf, OwnAttributes;
    var before := BlockOf(r, name);
    assert Separate(r, name, before, base);
    if before.None? {
      assert forall n :: n in r.activated ==> !KeyIs(BlockOf(r, n), block.value.key);
    } else if !KeyIs(block, before.value.key) {
      assert forall n :: n in s.activated ==> !KeyIs(BlockOf(s, n), before.value.key);
    }
  }

  lemma IsLoaded(r: Registry, name: string)
    requires Nested(r) && name in r.activated
    ensures name in r.loaded
  {}

  /** What hiding and showing one skill change. */
  lemma OneVisible(r: Registry, name: string)
    requires Nested(r) && name in r.loaded
    ensures
      var context := Less(r.context, Open(r, BlockOf(r, name)));
      Hidden(r, name) == r.(activated := r.activated - {name}, context := context)
    ensures
      var context := With(r.context, Open(r, BlockOf(r, name)));
      Shown(r, name) == r.(activated := r.activated + {name}, context := context)
    ensures forall n :: BlockOf(Hidden(r, name), n) == BlockOf(r, n)
    ensures forall n :: BlockOf(Shown(r, name), n) == BlockOf(r, n)
  {
    hide AttrName;
    assert AttrOf(r, name) == AttrName(name);
  }

  /** Some other activated skill declares the key. */
  ghost predicate DeclaredByOther(r: Registry, name: string, key: string) {
    exists n :: n in r.activated && n != name && KeyIs(BlockOf(r, n), key)
  }

  /** Hiding a skill keeps the context exact if and only if it has no block; or its key is protected, and the agent or another
      activated skill accounts for the block that stays; or it is not, and none of them has lost it. Nothing is assumed of how
      attributes and keys are shared. */
  lemma HidingIsExactIff(r: Registry, name: string, base: map<string, string>)
    requires Nested(r) && ExactContext(r, base) && name in r.activated
    ensures
      var block := BlockOf(r, name);
      ExactContext(Hidden(r, name), base) <==>
      block.None? ||
      var key := block.value.key;
      (key in r.protectedKeys <==> key in base || DeclaredByOther(r, name, key))
  {
    hide BlockOf, Hidden, Nested;
    var block, done := BlockOf(r, name), Hidden(r, name);
    IsLoaded(r, name);
    OneVisible(r, name);
    forall key | key in done.context && key !in base && !KeyIs(block, key)
      ensures exists n :: n in done.activated && KeyIs(BlockOf(done, n), key) {
      var n :| n in r.activated && KeyIs(BlockOf(r, n), key);
      assert n in done.activated && KeyIs(BlockOf(done, n), key);
    }
    if block.Some? { HiddenKey(r, done, name, base); }
  }

  /** The key of the hidden block. */
  lemma HiddenKey(r: Registry, done: Registry, name: string, base: map<string, string>)
    requires ExactContext(r, base) && name in r.activated && BlockOf(r, name).Some?
    requires done.activated == r.activated - {name} && forall n :: BlockOf(done, n) == BlockOf(r, n)
    ensures
      var key := BlockOf(r, name).value.key;
      && key in r.context
      && (DeclaredByOther(r, name, key) <==> exists n :: n in done.activated && KeyIs(BlockOf(done, n), key))
  {
    hide BlockOf;
    var key := BlockOf(r, name).value.key;
    if DeclaredByOther(r, name, key) {
      var n :| n in r.activated && n != name && KeyIs(BlockOf(r, n), key);
      assert n in done.activated && KeyIs(BlockOf(done, n), key);
    }
    if n :| n in done.activated && KeyIs(BlockOf(done, n), key) {
      assert n in r.activated && n != name && KeyIs(BlockOf(r, n), key);
    }
  }

  /** The block, unless its key is protected. */
  function Open(r: Registry, block: Option<Block>): Option<Block> {
    if block.Some? && block.value.key in r.protectedKeys then None else block
  }

  /** Showing one keeps it exact if and only if it has no block; or its key is protected, and the context has its expression
      already; or it is not, and neither the agent nor another activated skill has another expression under it. */
  lemma ShowingIsExactIff(r: Registry, name: string, base: map<string, string>)
    requires Nested(r) && ExactContext(r, base) && name in r.loaded
    ensures
      var block := BlockOf(r, name);
      ExactContext(Shown(r, name), base) <==>
      block.None? ||
      var (key, expr) := (block.value.key, block.value.expr);
      if key in r.protectedKeys then key in r.context && r.context[key] == expr
      else
        && (key in base ==> base[key] == expr)
        && forall n :: n in r.activated && n != name && KeyIs(BlockOf(r, n), key) ==> BlockOf(r, n) == block
  {
    hide BlockOf, Shown, Nested;
    var block, done := BlockOf(r, name), Shown(r, name);
    OneVisible(r, name);
    forall key | key in done.context && key !in base
      ensures exists n :: n in done.activated && KeyIs(BlockOf(done, n), key) {
      if KeyIs(block, key) {
        assert name in done.activated && KeyIs(BlockOf(done, name), key);
      } else {
        var n :| n in r.activated && KeyIs(BlockOf(r, n), key);
        assert n in done.activated && KeyIs(BlockOf(done, n), key);
      }
    }
    forall n | n in r.activated && n != name && block.Some? && KeyIs(BlockOf(r, n), block.value.key)
      ensures n in done.activated && KeyIs(BlockOf(done, n), block.value.key) {
    }
  }

  /** Loading a name that then is not loaded leaves the attributes alone if and only if it never came to setting one, or
      the value it set was there already. */
  lemma FailedLoadKeepsAttributesIff(r: Registry, name: string)
    requires name in r.discovered && name !in r.loaded && name !in LoadOne(r, name).loaded
    ensures
      LoadOne(r, name).attrs == r.attrs <==>
      || Reserved(AttrName(name)) || !r.discovered[name].Constructed?
      || (AttrName(name) in r.attrs && r.attrs[AttrName(name)] == r.discovered[name].skill)
  {
    hide AttrName, Reserved;
    if r.discovered[name].Constructed? {
      SameAttribute(r.attrs, AttrName(name), r.discovered[name].skill);
    }
  }

  /** So for `register`. */
  lemma FailedRegisterKeepsAttributesIff(r: Registry, name: string, skill: Skill, attaches: bool)
    requires name !in r.loaded && name !in Registered(r, name, skill, attaches).loaded
    ensures
      Registered(r, name, skill, attaches).attrs == r.attrs <==>
      Reserved(AttrName(name)) || (AttrName(name) in r.attrs && r.attrs[AttrName(name)] == skill)
  {
    hide AttrName, Reserved, Attached;
    SameAttribute(r.attrs, AttrName(name), skill);
  }

  lemma SameAttribute(attrs: map<string, Skill>, attr: string, skill: Skill)
    ensures attrs[attr := skill] == attrs <==> attr in attrs && attrs[attr] == skill
  {
    assert attrs[attr := skill][attr] == skill;
  }

  /** Two activated skills whose names end alike share one attribute: hiding one removes the block of the other, which is
      still shown as activated. */
  lemma SharedAttributeLosesBlock(r: Registry, hidden: string, shown: string, base: map<string, string>)
    requires Nested(r) && hidden != shown && hidden in r.activated && shown in r.activated
    requires AttrName(hidden) == AttrName(shown) && BlockOf(r, shown).Some?
    requires BlockOf(r, shown).value.key !in r.protectedKeys
    ensures
      var done := DeactivateNames(r, [hidden]);
      && shown in done.activated && BlockOf(done, shown) == BlockOf(r, shown)
      && BlockOf(done, shown).value.key !in done.context && !ExactContext(done, base)
  {
    hide AttrName;
    var marked := r.(activated := r.activated - {hidden});
    assert AttrOf(marked, hidden) == AttrName(shown);
    var done := UnregisterBlock(marked, hidden);
    assert [hidden][1..] == [];
    assert DeactivateNames(done, []) == done;
    assert DeactivateNames(r, [hidden]) == done;
  }

  /** A registry that has discovered its skills and loaded none. */
  ghost predicate Unused(r: Registry) {
    r.loaded == {} && r.activated == {} && r.attrMap == map[]
  }

  /** Such a state is reached by loading and activating the two. */
  lemma SharedAttributeIsReached(r: Registry, first: string, second: string)
    requires Unused(r) && first in r.discovered && second in r.discovered && first != second
    requires AttrName(first) == AttrName(second) && !Reserved(AttrName(first))
    requires r.discovered[first].Constructed? && r.discovered[first].attaches
    requires r.discovered[second].Constructed? && r.discovered[second].attaches
    requires r.discovered[second].skill.needs == []
    ensures CanActivate(r, [first, second], [first, second])
    ensures
      var done := Activate(r, [first, second], [first, second]);
      && Nested(done) && done.activated == {first, second}
      && BlockOf(done, first) == BlockOf(done, second) == r.discovered[second].skill.block
  {
    hide AttrName, LoadOne, ResolveAll, ActivateNames, LoadNames, Reserved, AttrOf;
    var two := LoadOne(LoadOne(r, first), second);
    LoadNamesOfPair(r, first, second);
    PairIsLoaded(r, first, second);
    PairNeedsNothing(two, first, second);
    ActivateNamesKeepsNested(two, [first, second]);
  }

  lemma PairIsLoaded(r: Registry, first: string, second: string)
    requires Unused(r) && first in r.discovered && second in r.discovered && first != second
    requires AttrName(first) == AttrName(second) && !Reserved(AttrName(first))
    requires r.discovered[first].Constructed? && r.discovered[first].attaches
    requires r.discovered[second].Constructed? && r.discovered[second].attaches
    ensures
      var two := LoadOne(LoadOne(r, first), second);
      && Nested(two) && two.loaded == {first, second} && two.activated == {}
      && AttrName(first) in two.attrs && two.attrs[AttrName(first)] == r.discovered[second].skill
  {
    hide AttrName, Reserved;
  }

  lemma PairNeedsNothing(two: Registry, first: string, second: string)
    requires Nested(two) && two.loaded == {first, second} && AttrName(first) == AttrName(second)
    requires AttrName(first) in two.attrs && two.attrs[AttrName(first)].needs == []
    ensures ResolveAll(two, [first, second]) == two
  {
    hide AttrName;
    NeedsNothing(two, first, [second]);
    NeedsNothing(two, second, []);
    assert [first] + [second] == [first, second] && [second] + [] == [second];
  }

  lemma LoadNamesOfPair(r: Registry, first: string, second: string)
    requires first in r.discovered && second in r.discovered && first != second && r.loaded == {}
    requires forall name :: name in [first, second] ==> name in r.discovered
    ensures second !in LoadOne(r, first).loaded
    ensures LoadNames(r, [first, second]) == LoadOne(LoadOne(r, first), second)
  {
    var one := LoadOne(r, first);
    var two := LoadOne(one, second);
    assert [first, second][1..] == [second] && [second][1..] == [];
    assert LoadNames(two, []) == two;
    assert LoadNames(one, [second]) == two;
  }

  lemma NeedsNothing(r: Registry, name: string, rest: seq<string>)
    requires Nested(r) && name in r.loaded && (forall n :: n in rest ==> n in r.loaded)
    requires AttrName(name) in r.attrs && r.attrs[AttrName(name)].needs == []
    ensures ResolveAll(r, [name] + rest) == ResolveAll(r, rest)
  {
    assert AttrOf(r, name) == AttrName(name);
    assert Resolve(r, name, {}).0 == r;
    assert ([name] + rest)[1..] == rest;
  }
}
