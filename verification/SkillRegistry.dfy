/**
 The registry as the object it is: fields updated in place, an agent whose attributes and context blocks change with them,
 and one visited set shared by a whole depth-first walk.
 */
module SkillRegistry {
  import opened Options
  import opened SkillModel
  import opened SkillReload
  import opened SkillLifecycle
  import opened SkillClosure
  import SkillRuns

  ghost predicate Distinct(names: seq<string>) {
    forall i, j :: 0 <= i < j < |names| ==> names[i] != names[j]
  }

  ghost predicate Lists(names: seq<string>, these: set<string>) {
    Distinct(names) && forall name :: name in names <==> name in these
  }

  /** The candidates that some pattern matches. */
  ghost function Matching(matches: (string, string) -> bool, patterns: seq<string>, candidates: set<string>)
    : set<string>
  {
    set c | c in candidates && exists i :: 0 <= i < |patterns| && matches(c, patterns[i])
  }

  lemma MatchingOneMore(
    matches: (string, string) -> bool, patterns: seq<string>, pattern: string, candidates: set<string>)
    ensures Matching(matches, patterns + [pattern], candidates) ==
            Matching(matches, patterns, candidates) + set c | c in candidates && matches(c, pattern)
  {
    var more := patterns + [pattern];
    assert more[|patterns|] == pattern;
    assert forall i :: 0 <= i < |patterns| ==> more[i] == patterns[i];
  }

  lemma FirstTwoDiffer(names: seq<string>)
    requires Distinct(names)
    ensures |names| > 1 ==> names[0] != names[1]
  {}

  lemma ElementIs(names: seq<string>, i: nat, name: string)
    requires Lists(names, {name})
    ensures i < |names| ==> names[i] == name
  {
    hide Distinct;
    if i < |names| { assert names[i] in names; }
  }

  lemma ListsOne(names: seq<string>, name: string)
    requires Lists(names, {name})
    ensures names == [name]
  {
    FirstTwoDiffer(names);
    ElementIs(names, 0, name);
    ElementIs(names, 1, name);
    hide Distinct;
    assert name in names;
  }

  lemma LoadOfOne(r: Registry, name: string)
    requires name in r.discovered && name !in r.loaded
    requires forall n :: n in [name] ==> n in r.discovered
    ensures LoadNames(r, [name]) == LoadOne(r, name)
  {
    assert [name][1..] == [];
    var one := LoadOne(r, name);
    assert LoadNames(one, []) == one;
  }

  class Agent {
    var attrs: map<string, Skill>
    var context: map<string, string>
    var attached: set<nat>
    const protectedKeys: set<string>
    ghost var calls: seq<SkillCall>

    constructor (attrs: map<string, Skill>, context: map<string, string>, protectedKeys: set<string>)
      ensures this.attrs == attrs && this.context == context && this.protectedKeys == protectedKeys
      ensures calls == [] && attached == {}
    {
      this.attrs, this.context, this.protectedKeys := attrs, context, protectedKeys;
      calls, attached := [], {};
    }

    /** Calls the skill's `attach`. */
    method Attach(skill: Skill, ok: bool)
      requires attached == Attached(calls)
      modifies this`attached, this`calls
      ensures attached == Attached(calls) && calls == old(calls) + [SkillCall.Attach(skill.id, ok)]
    {
      AttachedAfterOne(calls, SkillCall.Attach(skill.id, ok));
      calls := calls + [SkillCall.Attach(skill.id, ok)];
      if ok { attached := attached + {skill.id}; }
    }

    /** Calls the skill's `detach`. */
    method Detach(skill: Skill, ok: bool)
      requires attached == Attached(calls)
      modifies this`attached, this`calls
      ensures attached == Attached(calls) && calls == old(calls) + [SkillCall.Detach(skill.id, ok)]
    {
      AttachedAfterOne(calls, SkillCall.Detach(skill.id, ok));
      calls := calls + [SkillCall.Detach(skill.id, ok)];
      if ok { attached := attached - {skill.id}; }
    }
  }

  /** The `_visited` set of one walk. */
  class Visited {
    var names: set<string>

    constructor ()
      ensures names == {}
    {
      names := {};
    }
  }

  class SkillRegistry {
    const agent: Agent
    const matches: (string, string) -> bool
    var discovered: map<string, Outcome>
    var loaded: set<string>
    var activated: set<string>
    var attrMap: map<string, string>
    var modules: set<string>

    constructor (
      agent: Agent, matches: (string, string) -> bool, discovered: map<string, Outcome>, modules: set<string>)
      requires agent.attached == Attached(agent.calls)
      ensures Valid() && this.agent == agent && this.matches == matches && this.modules == modules
      ensures View() == Registry(
                          discovered, {}, {}, map[], agent.attrs, agent.context, agent.protectedKeys, agent.calls)
    {
      this.agent, this.matches, this.discovered, this.modules := agent, matches, discovered, modules;
      loaded, activated, attrMap := {}, {}, map[];
    }

    ghost function View(): Registry
      reads this, agent
    {
      Registry(
        discovered, loaded, activated, attrMap, agent.attrs, agent.context, agent.protectedKeys, agent.calls)
    }

    ghost predicate Valid()
      reads this, agent
    {
      agent.attached == Attached(agent.calls) && Nested(View())
    }

    /** A discovered name, taken as a pattern, matches itself alone. */
    ghost predicate NamesAreLiteral()
      reads this
    {
      forall c, p :: c in discovered && p in discovered ==> (matches(c, p) <==> c == p)
    }

    /** `_match`. */
    method Match(patterns: seq<string>, candidates: set<string>) returns (matched: set<string>)
      ensures matched == Matching(matches, patterns, candidates)
    {
      matched := {};
      for i := 0 to |patterns|
        invariant matched == Matching(matches, patterns[..i], candidates)
      {
        var left := candidates;
        ghost var before := matched;
        while left != {}
          invariant left <= candidates
          invariant matched == before + set c | c in candidates && c !in left && matches(c, patterns[i])
          decreases left
        {
          var c :| c in left;
          if matches(c, patterns[i]) { matched := matched + {c}; }
          left := left - {c};
        }
        MatchingOneMore(matches, patterns[..i], patterns[i], candidates);
        assert patterns[..i + 1] == patterns[..i] + [patterns[i]];
      }
      assert patterns[..|patterns|] == patterns;
    }

    /** The order in which a set of names happens to be visited. */
    method Order(names: set<string>) returns (order: seq<string>)
      ensures Lists(order, names)
    {
      order := [];
      var left := names;
      while left != {}
        invariant left <= names && Lists(order, names - left)
        decreases left
      {
        var name :| name in left;
        order, left := order + [name], left - {name};
      }
    }

    method LoadName(name: string)
      requires Valid() && name in discovered && name !in loaded
      modifies this`loaded, this`attrMap, agent`attrs, agent`attached, agent`calls
      ensures Valid() && View() == LoadOne(old(View()), name)
    {
      match discovered[name]
      case Raises =>
      case NotASkill =>
      case Constructed(skill, attaches) =>
        var attr := AttrName(name);
        if !Reserved(attr) {
          agent.attrs := agent.attrs[attr := skill];
          agent.Attach(skill, attaches);
          if attaches {
            loaded := loaded + {name};
            attrMap := attrMap[name := attr];
          }
        }
    }

    /** Loads the matched names; the order is that of the set. */
    method LoadMatching(patterns: seq<string>) returns (ghost order: seq<string>)
      requires Valid()
      modifies this`loaded, this`attrMap, agent`attrs, agent`attached, agent`calls
      ensures Valid() && Lists(order, Matching(matches, patterns, discovered.Keys))
      ensures forall name :: name in order ==> name in old(View()).discovered
      ensures View() == LoadNames(old(View()), order)
    {
      var matched := Match(patterns, discovered.Keys);
      var names := Order(matched);
      assert forall name :: name in names ==> name in old(View()).discovered;
      for i := 0 to |names|
        invariant Valid() && discovered == old(discovered)
        invariant LoadNames(View(), names[i..]) == LoadNames(old(View()), names)
      {
        assert names[i..][0] == names[i] && names[i..][1..] == names[i + 1..];
        if names[i] !in loaded {
          LoadName(names[i]);
        }
      }
      assert names[|names|..] == [];
      order := names;
    }

    method RegisterSkill(name: string, skill: Skill, attaches: bool) returns (accepted: bool)
      requires Valid()
      modifies this`discovered, this`loaded, this`attrMap, agent`attrs, agent`attached, agent`calls
      ensures Valid() && accepted == SkillModel.Register(old(View()), name, skill, attaches).Some?
      ensures View() == if accepted then SkillModel.Register(old(View()), name, skill, attaches).value else old(View())
    {
      var attr := AttrName(name);
      accepted := !Reserved(attr);
      if accepted {
        RegisterAs(name, attr, skill, attaches);
      }
    }

    method RegisterAs(name: string, attr: string, skill: Skill, attaches: bool)
      requires Valid() && attr == AttrName(name) && !Reserved(attr)
      modifies this`discovered, this`loaded, this`attrMap, agent`attrs, agent`attached, agent`calls
      ensures Valid()
      ensures View() == SkillModel.Register(old(View()), name, skill, attaches).value
    {
      hide AttrName, Reserved, Attached;
      agent.attrs := agent.attrs[attr := skill];
      if skill.attachable && skill.id !in agent.attached {
        agent.Attach(skill, attaches);
        if !attaches { return; }
      }
      loaded := loaded + {name};
      attrMap := attrMap[name := attr];
      if name !in discovered {
        discovered := discovered[name := Raises];
      }
    }

    method Attribute(name: string) returns (attr: string)
      ensures attr == AttrOf(View(), name)
    {
      attr := if name in attrMap && attrMap[name] != "" then attrMap[name] else AttrName(name);
    }

    /** `_register_context_block`. */
    method RegisterContextBlock(name: string)
      requires Valid()
      modifies agent`context
      ensures Valid() && View() == RegisterBlock(old(View()), name)
      ensures forall key :: key in agent.protectedKeys ==>
                && (key in agent.context <==> key in old(agent.context))
                && (key in agent.context ==> agent.context[key] == old(agent.context)[key])
    {
      var attr := Attribute(name);
      if attr in agent.attrs && agent.attrs[attr].block.Some? {
        var block := agent.attrs[attr].block.value;
        if block.key !in agent.protectedKeys {
          agent.context := agent.context[block.key := block.expr];
        }
      }
    }

    /** `_unregister_context_block`. */
    method UnregisterContextBlock(name: string)
      requires Valid()
      modifies agent`context
      ensures Valid() && View() == UnregisterBlock(old(View()), name)
      ensures forall key :: key in agent.protectedKeys ==>
                && (key in agent.context <==> key in old(agent.context))
                && (key in agent.context ==> agent.context[key] == old(agent.context)[key])
    {
      var attr := Attribute(name);
      if attr in agent.attrs && agent.attrs[attr].block.Some? {
        var key := agent.attrs[attr].block.value.key;
        if key in agent.context && key !in agent.protectedKeys {
          agent.context := agent.context - {key};
        }
      }
    }

    /** `_resolve_deps`, with the visited set updated in place across the whole recursion. */
    method ResolveDeps(name: string, visited: Visited)
      requires Valid() && NamesAreLiteral() && name in loaded
      modifies this`loaded, this`attrMap, agent`attrs, agent`attached, agent`calls, visited
      ensures Valid() && old(visited.names) <= visited.names
      ensures (View(), visited.names) == Resolve(old(View()), name, old(visited.names))
      decreases discovered.Keys - visited.names
    {
      if name in visited.names { return; }
      visited.names := visited.names + {name};
      var attr := Attribute(name);
      if attr !in agent.attrs { return; }
      var deps := agent.attrs[attr].needs;
      for i := 0 to |deps|
        invariant Valid() && discovered == old(discovered)
        invariant old(visited.names) + {name} <= visited.names
        invariant ResolveEach(View(), deps[i..], visited.names) ==
                  ResolveEach(old(View()), deps, old(visited.names) + {name})
      {
        assert deps[i..][0] == deps[i] && deps[i..][1..] == deps[i + 1..];
        LoadDep(deps[i]);
        if deps[i] in loaded {
          ResolveDeps(deps[i], visited);
        }
      }
      assert deps[|deps|..] == [];
    }

    /** Loads a dependency that is not loaded yet. */
    method LoadDep(dep: string)
      requires Valid() && NamesAreLiteral()
      modifies this`loaded, this`attrMap, agent`attrs, agent`attached, agent`calls
      ensures Valid()
      ensures View() == if dep !in old(loaded) && dep in discovered then LoadOne(old(View()), dep) else old(View())
    {
      if dep !in loaded && dep in discovered {
        ghost var order := LoadMatching([dep]);
        LiteralMatch(dep);
        ListsOne(order, dep);
        LoadOfOne(old(View()), dep);
      }
    }

    lemma LiteralMatch(name: string)
      requires NamesAreLiteral() && name in discovered
      ensures Matching(matches, [name], discovered.Keys) == {name}
    {
      assert [name][0] == name;
    }

    /** The loads that were missing and the matched names, each in the order in which they were visited. */
    method ActivateMatching(patterns: seq<string>) returns (ghost missing: seq<string>, ghost matched: seq<string>)
      requires Valid() && NamesAreLiteral()
      modifies this`loaded, this`activated, this`attrMap
      modifies agent`attrs, agent`context, agent`attached, agent`calls
      ensures Valid() && forall name :: name in missing ==> name in old(View()).discovered
      ensures Lists(missing, Matching(matches, patterns, old(discovered.Keys - loaded)))
      ensures Lists(matched, Matching(matches, patterns, LoadNames(old(View()), missing).loaded))
      ensures CanActivate(old(View()), missing, matched)
      ensures View() == SkillModel.Activate(old(View()), missing, matched)
    {
      var notLoaded := Match(patterns, discovered.Keys - loaded);
      missing := [];
      if notLoaded != {} {
        var names := Order(notLoaded);
        missing := LoadMatching(names);
        LiteralMatches(names, old(discovered.Keys));
      }
      var visible := Match(patterns, loaded);
      var order := Order(visible);
      ResolveEachOf(order);
      ActivateEach(order);
      matched := order;
    }

    /** The dependencies of each name in turn, every walk with a visited set of its own. */
    method ResolveEachOf(names: seq<string>)
      requires Valid() && NamesAreLiteral() && forall name :: name in names ==> name in loaded
      modifies this`loaded, this`attrMap, agent`attrs, agent`attached, agent`calls
      ensures Valid() && View() == ResolveAll(old(View()), names)
    {
      for i := 0 to |names|
        invariant Valid() && discovered == old(discovered) && old(loaded) <= loaded
        invariant ResolveAll(View(), names[i..]) == ResolveAll(old(View()), names)
      {
        assert names[i..][0] == names[i] && names[i..][1..] == names[i + 1..];
        var visited := new Visited();
        ResolveDeps(names[i], visited);
      }
      assert names[|names|..] == [];
    }

    method ActivateEach(names: seq<string>)
      requires Valid() && forall name :: name in names ==> name in loaded
      modifies this`activated, agent`context
      ensures Valid() && View() == ActivateNames(old(View()), names)
    {
      for i := 0 to |names|
        invariant Valid()
        invariant ActivateNames(View(), names[i..]) == ActivateNames(old(View()), names)
      {
        assert names[i..][0] == names[i] && names[i..][1..] == names[i + 1..];
        activated := activated + {names[i]};
        RegisterContextBlock(names[i]);
      }
      assert names[|names|..] == [];
    }

    method DeactivateMatching(patterns: seq<string>) returns (ghost order: seq<string>)
      requires Valid()
      modifies this`activated, agent`context
      ensures Valid() && Lists(order, Matching(matches, patterns, old(activated)))
      ensures View() == DeactivateNames(old(View()), order)
    {
      var matched := Match(patterns, activated);
      var names := Order(matched);
      for i := 0 to |names|
        invariant Valid()
        invariant DeactivateNames(View(), names[i..]) == DeactivateNames(old(View()), names)
      {
        assert names[i..][0] == names[i] && names[i..][1..] == names[i + 1..];
        activated := activated - {names[i]};
        UnregisterContextBlock(names[i]);
      }
      assert names[|names|..] == [];
      order := names;
    }

    lemma LiteralMatches(names: seq<string>, keys: set<string>)
      requires NamesAreLiteral() && keys == discovered.Keys && forall name :: name in names ==> name in keys
      ensures Matching(matches, names, keys) == set name | name in names
    {
    }

    // ------------------------------------------------------------------------------------------------------- reload

    /** `_detach_old_for_reload`; false when the call raised. */
    method DetachOld(prior: Skill, detaches: bool) returns (fine: bool)
      requires Valid()
      modifies agent`attached, agent`calls
      ensures Valid() && View() == Detached(old(View()), prior, detaches)
      ensures fine <==> (prior.detachable ==> detaches)
    {
      fine := true;
      if prior.detachable {
        agent.Detach(prior, detaches);
        fine := detaches;
      }
    }

    /** `_restore_old_after_reload_failure`. */
    method RestoreOld(prior: Skill, detached: bool, restores: bool)
      requires Valid()
      modifies agent`attached, agent`calls
      ensures Valid() && View() == Restore(old(View()), prior, detached, restores)
    {
      if detached && prior.attachable {
        agent.Attach(prior, restores);
      }
    }

    /** `_install_reloaded`. */
    method InstallNew(name: string, attr: string, prior: Skill, attempt: Attempt, make: Construction)
      returns (status: Status)
      requires Valid()
      modifies agent`attrs, agent`context, agent`attached, agent`calls
      ensures Valid() && (View(), status) == Install(old(View()), name, attr, prior, attempt, make)
    {
      match make
      case TypeErrorRaised =>
        RestoreOld(prior, prior.detachable, attempt.restores);
        status := NotReloadable;
      case OtherRaised =>
        RestoreOld(prior, prior.detachable, attempt.restores);
        status := Failed;
      case Made(skill, attaches) =>
        if skill.attachable {
          agent.Attach(skill, attaches);
          if !attaches {
            RestoreOld(prior, prior.detachable, attempt.restores);
            return Failed;
          }
        }
        Swap(name, attr, skill);
        status := Reloaded;
    }

    method Swap(name: string, attr: string, skill: Skill)
      requires Valid()
      modifies agent`attrs, agent`context
      ensures Valid() && View() == InstallReloaded(old(View()), name, attr, skill)
    {
      if name in activated {
        UnregisterContextBlock(name);
      }
      agent.attrs := agent.attrs[attr := skill];
      if name in activated {
        RegisterContextBlock(name);
      }
    }

    /** `_reload_package`. */
    method ReloadPackage(name: string, attr: string, prior: Skill, attempt: Attempt) returns (status: Status)
      requires Valid() && name in attrMap && attr == attrMap[name]
      requires attr in agent.attrs && prior == agent.attrs[attr] && !OwnModuleOnly(prior.home)
      modifies this`modules, agent`attrs, agent`context, agent`attached, agent`calls
      ensures Valid() && (View(), status) == ReloadOne(old(View()), old(modules), name, attempt)
      ensures modules == ModulesAfter(old(View()), old(modules), name, attempt)
    {
      var top := Top(prior.home);
      if top !in modules {
        return NotInModules;
      }
      var detached := DetachOld(prior, attempt.detaches);
      if !detached {
        RestoreOld(prior, true, attempt.restores);
        return Failed;
      }
      status := ReimportPackage(name, attr, prior, attempt);
    }

    /** Purge the package and import it again. */
    method ReimportPackage(name: string, attr: string, prior: Skill, attempt: Attempt) returns (status: Status)
      requires Valid() && !OwnModuleOnly(prior.home)
      modifies this`modules, agent`attrs, agent`context, agent`attached, agent`calls
      ensures Valid() && (View(), status) == Reimported(old(View()), name, attr, prior, attempt)
      ensures modules == (set m | m in old(modules) && !IsWithin(m, Top(prior.home))) +
                         if attempt.reimport.ImportRaised? then {} else {Top(prior.home)}
    {
      var top := Top(prior.home);
      modules := set m | m in modules && !IsWithin(m, top);
      match attempt.reimport
      case ImportRaised =>
        RestoreOld(prior, prior.detachable, attempt.restores);
        status := Failed;
      case NoClass =>
        modules := modules + {top};
        RestoreOld(prior, prior.detachable, attempt.restores);
        status := NoSkillClass;
      case Found(make, _) =>
        modules := modules + {top};
        status := InstallNew(name, attr, prior, attempt, make);
    }

    /** `_reload_single_module`. */
    method ReloadSingleModule(name: string, attr: string, prior: Skill, attempt: Attempt) returns (status: Status)
      requires Valid() && name in attrMap && attr == attrMap[name]
      requires attr in agent.attrs && prior == agent.attrs[attr] && OwnModuleOnly(prior.home)
      modifies agent`attrs, agent`context, agent`attached, agent`calls
      ensures Valid() && (View(), status) == ReloadOne(old(View()), modules, name, attempt)
    {
      if prior.home !in modules {
        return NotInModules;
      }
      var detached := DetachOld(prior, attempt.detaches);
      if !detached {
        RestoreOld(prior, true, attempt.restores);
        return Failed;
      }
      match attempt.reimport
      case ImportRaised =>
        RestoreOld(prior, prior.detachable, attempt.restores);
        status := Failed;
      case NoClass =>
        RestoreOld(prior, prior.detachable, attempt.restores);
        status := NoSkillClass;
      case Found(make, elsewhere) =>
        if elsewhere {
          RestoreOld(prior, prior.detachable, attempt.restores);
          return ClassElsewhere;
        }
        status := InstallNew(name, attr, prior, attempt, make);
    }

    method ReloadSkill(name: string, attempt: Attempt) returns (status: Status)
      requires Valid()
      modifies this`modules, agent`attrs, agent`context, agent`attached, agent`calls
      ensures Valid() && (View(), status) == ReloadOne(old(View()), old(modules), name, attempt)
      ensures modules == ModulesAfter(old(View()), old(modules), name, attempt)
    {
      if name !in attrMap {
        return NotLoaded;
      }
      var attr := attrMap[name];
      if attr !in agent.attrs {
        return NoInstance;
      }
      var prior := agent.attrs[attr];
      if OwnModuleOnly(prior.home) {
        status := ReloadSingleModule(name, attr, prior, attempt);
      } else {
        status := ReloadPackage(name, attr, prior, attempt);
      }
    }

    // ------------------------------------------------------------------------------------------------ the public methods

    /** `load`: exactly the matched names whose loading can succeed are loaded, in whatever order they are visited, each as
        the attribute spelt from its leaf where no two names share one, and a tidy registry stays tidy. */
    method Load(patterns: seq<string>, ghost base: map<string, string>)
      requires Valid()
      modifies this`loaded, this`attrMap, agent`attrs, agent`attached, agent`calls
      ensures Valid() && (Tidy(old(View()), base) ==> Tidy(View(), base))
      ensures loaded == old(loaded) +
                        set n | n in Matching(matches, patterns, discovered.Keys) && !OutOfReach(old(View()), n)
      ensures OwnAttributes(old(View())) ==>
                forall n, attr :: n in loaded && n !in old(loaded) && IsAttributeOf(attr, n) ==>
                  && n in discovered && discovered[n].Constructed?
                  && attr in agent.attrs && agent.attrs[attr] == discovered[n].skill
    {
      hide Tidy, OutOfReach, LoadNames, OwnAttributes, AttrName, IsAttributeOf;
      ghost var before := View();
      ghost var order := LoadMatching(patterns);
      if Tidy(before, base) { LoadNamesKeepsTidy(before, order, base); }
      LoadNamesLoads(before, order);
      if OwnAttributes(before) {
        forall n, attr | n in loaded && n !in old(loaded) && IsAttributeOf(attr, n)
          ensures n in discovered && discovered[n].Constructed?
          ensures attr in agent.attrs && agent.attrs[attr] == discovered[n].skill {
          LoadNamesPlaces(before, order, n);
          AttributeIs(n, attr);
        }
      }
    }

    /** `register`; `attaches` is whether the call of `attach`, if one is made, succeeds. A reserved name is refused and
        changes nothing; otherwise the agent holds the skill, also when attaching it fails. */
    method Register(name: string, skill: Skill, attaches: bool, ghost base: map<string, string>) returns (accepted: bool)
      requires Valid()
      modifies this`discovered, this`loaded, this`attrMap, agent`attrs, agent`attached, agent`calls
      ensures Valid() && (accepted <==> !Reserved(AttrName(name)))
      ensures !accepted ==> View() == old(View())
      ensures accepted ==> agent.attrs == old(agent.attrs)[AttrName(name) := skill]
      ensures accepted ==>
                forall attr :: IsAttributeOf(attr, name) ==> attr in agent.attrs && agent.attrs[attr] == skill
      ensures
        var done := accepted && (attaches || !skill.attachable || skill.id in old(agent.attached));
        loaded == if done then old(loaded) + {name} else old(loaded)
      ensures Tidy(old(View()), base) && Registrable(old(View()), name, skill, base) ==> Tidy(View(), base)
    {
      hide Tidy, Registrable, AttrName, Reserved, Attached, IsAttributeOf;
      ghost var before := View();
      accepted := RegisterSkill(name, skill, attaches);
      forall attr { AttributeIs(name, attr); }
      assert View() == Registered(before, name, skill, attaches);
      if Tidy(before, base) && Registrable(before, name, skill, base) {
        RegisterKeepsTidy(before, name, skill, attaches, base);
      }
    }

    /** `activate`: the activated skills grow by the matched ones; every name on a chain of dependencies from a matched one
        is loaded or out of reach; nothing else is loaded but what was matched; and a tidy registry stays tidy. */
    method Activate(patterns: seq<string>, ghost base: map<string, string>)
      returns (ghost missing: seq<string>, ghost matched: seq<string>)
      requires Valid() && NamesAreLiteral()
      modifies this`loaded, this`activated, this`attrMap
      modifies agent`attrs, agent`context, agent`attached, agent`calls
      ensures Valid() && (Tidy(old(View()), base) ==> Tidy(View(), base))
      ensures Lists(missing, Matching(matches, patterns, old(discovered.Keys - loaded)))
      ensures
        var first := old(loaded) + set n | n in missing && !OutOfReach(old(View()), n);
        Lists(matched, Matching(matches, patterns, first))
      ensures OwnAttributes(old(View())) ==>
                && activated == old(activated) + (set n | n in matched) && old(loaded) <= loaded
                && (forall n :: n in loaded && n !in old(loaded) && n !in missing ==>
                      exists top :: top in matched && Below(View(), top, n))
                && forall path :: Chain(View(), path) && path[0] in matched ==>
                     path[|path| - 1] in loaded || OutOfReach(View(), path[|path| - 1])
    {
      hide Tidy, OutOfReach, LoadNames, OwnAttributes, Below, SkillModel.Activate, Nested, Needs;
      ghost var before := View();
      missing, matched := ActivateMatching(patterns);
      LoadNamesLoads(before, missing);
      if Tidy(before, base) { SkillRuns.ActivateKeepsTidy(before, missing, matched, base); }
      if OwnAttributes(before) {
        ActivateAddsOnlyDependencies(before, missing, matched);
        forall path | Chain(View(), path) && path[0] in matched
          ensures path[|path| - 1] in loaded || OutOfReach(View(), path[|path| - 1]) {
          ActivateClosesDependencies(before, missing, matched, path);
        }
      }
    }

    /** `deactivate`: exactly the matched names are hidden, and a tidy registry stays tidy. */
    method Deactivate(patterns: seq<string>, ghost base: map<string, string>)
      requires Valid()
      modifies this`activated, agent`context
      ensures Valid() && activated == old(activated) - Matching(matches, patterns, old(activated))
      ensures Tidy(old(View()), base) ==> Tidy(View(), base)
    {
      hide Tidy, DeactivateNames, Nested;
      ghost var before := View();
      ghost var order := DeactivateMatching(patterns);
      DeactivateNamesKeepsNested(before, order);
      if Tidy(before, base) { DeactivateNamesKeepsTidy(before, order, base); }
    }

    /** `_reload_one`, all or nothing: unless every step succeeds, the attributes, the context and the attachments are as
        before, as long as a detached skill can be attached again; if every step does, the attribute holds the new skill.
        A tidy registry stays tidy either way. */
    method Reload(name: string, attempt: Attempt, ghost base: map<string, string>) returns (status: Status)
      requires Valid()
      modifies this`modules, agent`attrs, agent`context, agent`attached, agent`calls
      ensures Valid() && (status == Reloaded <==> Succeeds(old(View()), old(modules), name, attempt))
      ensures status != Reloaded ==> agent.attrs == old(agent.attrs) && agent.context == old(agent.context)
      ensures status == Reloaded ==>
                agent.attrs == old(agent.attrs)[AttrName(name) := attempt.reimport.make.skill]
      ensures status != Reloaded && Reaches(old(View()), old(modules), name) ==>
                var prior := Old(old(View()), name);
                MakesAnother(prior, attempt) && prior.id in old(agent.attached) ==>
                  (agent.attached == old(agent.attached) <==>
                   (!prior.detachable || !attempt.detaches || (prior.attachable && attempt.restores)))
      ensures
        var before := old(View());
        var fit := Succeeds(before, old(modules), name, attempt) ==>
                     Separate(before, name, attempt.reimport.make.skill.block, base);
        Tidy(before, base) && fit ==> Tidy(View(), base)
    {
      hide Tidy, Separate, AttrName, ReloadOne, ModulesAfter, Succeeds, Reaches, Attached, MakesAnother;
      ghost var before, imported := View(), modules;
      status := ReloadSkill(name, attempt);
      FailureChangesNothing(before, imported, name, attempt);
      if status == Reloaded { SuccessSwaps(before, imported, name, attempt); }
      if Tidy(before, base) { ReloadStaysTidy(before, imported, name, attempt, base); }
      ReloadKeepsAttached(before, imported, name, attempt);
    }
  }

  lemma ReloadStaysTidy(
    r: Registry, modules: set<string>, name: string, attempt: Attempt, base: map<string, string>)
    requires Tidy(r, base)
    ensures
      (Succeeds(r, modules, name, attempt) ==> Separate(r, name, attempt.reimport.make.skill.block, base)) ==>
      Tidy(ReloadOne(r, modules, name, attempt).0, base)
  {
    if Succeeds(r, modules, name, attempt) ==> Separate(r, name, attempt.reimport.make.skill.block, base) {
      ReloadKeepsRegistryTidy(r, modules, name, attempt, base);
    }
  }

  lemma ReloadKeepsAttached(r: Registry, modules: set<string>, name: string, attempt: Attempt)
    ensures
      var done := ReloadOne(r, modules, name, attempt).0;
      !Succeeds(r, modules, name, attempt) && Reaches(r, modules, name) ==>
        var prior := Old(r, name);
        MakesAnother(prior, attempt) && prior.id in Attached(r.calls) ==>
          (Attached(done.calls) == Attached(r.calls) <==>
           (!prior.detachable || !attempt.detaches || (prior.attachable && attempt.restores)))
  {
    if !Succeeds(r, modules, name, attempt) && Reaches(r, modules, name) && MakesAnother(Old(r, name), attempt) &&
       Old(r, name).id in Attached(r.calls) {
      OldSurvivesFailureIff(r, modules, name, attempt);
    }
  }
}
