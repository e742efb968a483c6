/**
 The skill registry as values: what each operation does to the discovered, loaded and activated skills, to the agent's
 attributes and to its dynamic context blocks.
 */
module SkillModel {
  import opened Options

  datatype Block = Block(key: string, expr: string)

  /** A skill instance: the module its class comes from, the skills it requires, the context block it declares, and
      which of `attach` and `detach` it has. */
  datatype Skill = Skill(
    id: nat, home: string, needs: seq<string>, block: Option<Block>, attachable: bool, detachable: bool)

  /** A call of a skill's `attach` or `detach`; when `ok` is false it raised and left the skill as it was. */
  datatype SkillCall = Attach(id: nat, ok: bool) | Detach(id: nat, ok: bool)

  /** What loading an entry point does, every time. */
  datatype Outcome = Raises | NotASkill | Constructed(skill: Skill, attaches: bool)

  datatype Registry = Registry(
    discovered: map<string, Outcome>,
    loaded: set<string>,
    activated: set<string>,
    attrMap: map<string, string>,
    attrs: map<string, Skill>,
    context: map<string, string>,
    protectedKeys: set<string>,
    calls: seq<SkillCall>)

  const RESERVED_ATTRS := {
    "runtime", "event_manager", "context_manager", "_storage", "_llm", "_agent_id", "render_config", "event_query"}

  /** The part of the name after its last dot. */
  function Leaf(name: string): string {
    if '.' in name then Leaf(name[1..]) else name
  }

  /** `_attr_name`. */
  function AttrName(name: string): string {
    var leaf := Leaf(name);
    seq(|leaf|, i requires 0 <= i < |leaf| => if leaf[i] == '-' then '_' else leaf[i])
  }

  /** The part of a dotted name that follows its last dot, or all of a name without dots. */
  ghost predicate IsLeafOf(leaf: string, name: string) {
    '.' !in leaf && (leaf == name || exists prefix: string :: name == prefix + "." + leaf)
  }

  /** The leaf with an underscore for every dash. */
  ghost predicate IsSpelt(attr: string, leaf: string) {
    |attr| == |leaf| && forall i :: 0 <= i < |leaf| ==> attr[i] == if leaf[i] == '-' then '_' else leaf[i]
  }

  ghost predicate IsAttributeOf(attr: string, name: string) {
    exists leaf :: IsLeafOf(leaf, name) && IsSpelt(attr, leaf)
  }

  lemma {:induction false} LeafAfterDot(prefix: string, leaf: string)
    requires '.' !in leaf
    ensures Leaf(leaf) == leaf && Leaf(prefix + "." + leaf) == leaf
  {
    var name := prefix + "." + leaf;
    assert name[|prefix|] == '.';
    if prefix == "" {
      assert name[1..] == leaf;
    } else {
      assert name[1..] == prefix[1..] + "." + leaf;
      LeafAfterDot(prefix[1..], leaf);
    }
  }

  lemma {:induction false} LeafIsLeaf(name: string)
    ensures IsLeafOf(Leaf(name), name)
    decreases |name|
  {
    if '.' in name {
      LeafIsLeaf(name[1..]);
      var leaf := Leaf(name);
      if leaf == name[1..] {
        assert name[0] == '.';
        assert name == "" + "." + leaf;
      } else {
        var prefix: string :| name[1..] == prefix + "." + leaf;
        assert name == ([name[0]] + prefix) + "." + leaf;
      }
    }
  }

  /** Every name has one attribute: its leaf, with underscores for dashes, whatever comes before the last dot. */
  lemma AttributeIs(name: string, attr: string)
    ensures IsAttributeOf(attr, name) <==> attr == AttrName(name)
  {
    hide Leaf;
    LeafIsLeaf(name);
    assert IsSpelt(AttrName(name), Leaf(name));
    forall leaf | IsLeafOf(leaf, name) && IsSpelt(attr, leaf) ensures attr == AttrName(name) {
      if leaf == name {
        LeafAfterDot("", leaf);
      } else {
        var prefix: string :| name == prefix + "." + leaf;
        LeafAfterDot(prefix, leaf);
      }
      assert leaf == Leaf(name);
    }
  }

  predicate Reserved(attr: string) {
    (attr != "" && attr[0] == '_') || attr in RESERVED_ATTRS
  }

  /** `self._attr_map.get(name) or self._attr_name(name)`. */
  function AttrOf(r: Registry, name: string): string {
    if name in r.attrMap && r.attrMap[name] != "" then r.attrMap[name] else AttrName(name)
  }

  /** The skills attached to the agent after these calls. */
  function Attached(calls: seq<SkillCall>): set<nat> {
    if calls == [] then {}
    else
      var before := Attached(calls[..|calls| - 1]);
      match calls[|calls| - 1]
      case Attach(id, ok) => if ok then before + {id} else before
      case Detach(id, ok) => if ok then before - {id} else before
  }

  // ------------------------------------------------------------------------------------------------------ operations

  /** One name of `load` that is not loaded yet. A skill whose attach raises has already replaced the attribute. */
  function LoadOne(r: Registry, name: string): Registry
    requires name in r.discovered
    ensures LoadOne(r, name).discovered == r.discovered
  {
    match r.discovered[name]
    case Constructed(skill, attaches) =>
      var attr := AttrName(name);
      if Reserved(attr) then r
      else
        var placed := r.(attrs := r.attrs[attr := skill], calls := r.calls + [Attach(skill.id, attaches)]);
        if attaches then placed.(loaded := r.loaded + {name}, attrMap := r.attrMap[name := attr]) else placed
    case _ => r
  }

  /** `load`, over the matched names in some order. */
  function LoadNames(r: Registry, names: seq<string>): Registry
    requires forall name :: name in names ==> name in r.discovered
    ensures LoadNames(r, names).discovered == r.discovered
    ensures Nested(r) ==> Nested(LoadNames(r, names))
    decreases |names|
  {
    if names == [] then r
    else LoadNames(if names[0] in r.loaded then r else LoadOne(r, names[0]), names[1..])
  }

  /** `register` with an instance; None when the name maps to a reserved attribute. A skill attached already is not
      attached again. When attach raises, the attribute has been replaced and nothing else has happened. */
  function Register(r: Registry, name: string, skill: Skill, attaches: bool): Option<Registry> {
    var attr := AttrName(name);
    if Reserved(attr) then None
    else
      var calling := skill.attachable && skill.id !in Attached(r.calls);
      var placed := r.(
        attrs := r.attrs[attr := skill],
        calls := if calling then r.calls + [Attach(skill.id, attaches)] else r.calls);
      if calling && !attaches then Some(placed)
      else
        Some(placed.(
          loaded := r.loaded + {name},
          attrMap := r.attrMap[name := attr],
          discovered := if name in r.discovered then r.discovered else r.discovered[name := Raises]))
  }

  function RegisterBlock(r: Registry, name: string): Registry {
    var attr := AttrOf(r, name);
    if attr !in r.attrs || r.attrs[attr].block.None? then r
    else
      var block := r.attrs[attr].block.value;
      if block.key in r.protectedKeys then r else r.(context := r.context[block.key := block.expr])
  }

  function UnregisterBlock(r: Registry, name: string): Registry {
    var attr := AttrOf(r, name);
    if attr !in r.attrs || r.attrs[attr].block.None? then r
    else
      var key := r.attrs[attr].block.value.key;
      if key in r.protectedKeys then r else r.(context := r.context - {key})
  }

  /** One name shown, and one hidden. */
  function Shown(r: Registry, name: string): Registry {
    RegisterBlock(r.(activated := r.activated + {name}), name)
  }

  function Hidden(r: Registry, name: string): Registry {
    UnregisterBlock(r.(activated := r.activated - {name}), name)
  }

  function ActivateNames(r: Registry, names: seq<string>): Registry
    decreases |names|
  {
    if names == [] then r
    else ActivateNames(Shown(r, names[0]), names[1..])
  }

  function DeactivateNames(r: Registry, names: seq<string>): Registry
    decreases |names|
  {
    if names == [] then r
    else DeactivateNames(Hidden(r, names[0]), names[1..])
  }

  /** Names that `activate` could have matched: discovered ones to load, and then loaded ones to show. */
  ghost predicate CanActivate(r: Registry, missing: seq<string>, matched: seq<string>) {
    && Nested(r)
    && (forall name :: name in missing ==> name in r.discovered)
    && forall name :: name in matched ==> name in LoadNames(r, missing).loaded
  }

  /** `activate`: load what is missing, resolve the dependencies of every match, then show the matches. */
  function Activate(r: Registry, missing: seq<string>, matched: seq<string>): Registry
    requires CanActivate(r, missing, matched)
  {
    ActivateNames(ResolveAll(LoadNames(r, missing), matched), matched)
  }

  /** The swap of a successful reload. */
  function InstallReloaded(r: Registry, name: string, attr: string, skill: Skill): Registry {
    var cleared := if name in r.activated then UnregisterBlock(r, name) else r;
    var swapped := cleared.(attrs := cleared.attrs[attr := skill]);
    if name in r.activated then RegisterBlock(swapped, name) else swapped
  }

  /** activated is within loaded, loaded within discovered, and exactly the loaded names have an attribute recorded. */
  ghost predicate Nested(r: Registry) {
    && r.activated <= r.loaded <= r.discovered.Keys
    && r.attrMap.Keys == r.loaded
    && forall name :: name in r.attrMap ==> r.attrMap[name] == AttrName(name)
  }

  // ---------------------------------------------------------------------------------------------------- dependencies

  /** `_resolve_deps`: depth-first over the `requires` of loaded skills, with one visited set per top-level call. */
  function Resolve(r: Registry, name: string, visited: set<string>): (res: (Registry, set<string>))
    requires Nested(r) && name in r.loaded
    ensures Nested(res.0) && res.0.discovered == r.discovered && r.loaded <= res.0.loaded && visited <= res.1
    decreases r.discovered.Keys - visited, 0
  {
    if name in visited then (r, visited)
    else
      var attr := AttrOf(r, name);
      if attr !in r.attrs then (r, visited + {name})
      else ResolveEach(r, r.attrs[attr].needs, visited + {name})
  }

  function ResolveEach(r: Registry, deps: seq<string>, visited: set<string>): (res: (Registry, set<string>))
    requires Nested(r)
    ensures Nested(res.0) && res.0.discovered == r.discovered && r.loaded <= res.0.loaded && visited <= res.1
    decreases r.discovered.Keys - visited, 1 + |deps|
  {
    if deps == [] then (r, visited)
    else
      var dep := deps[0];
      var tried := if dep !in r.loaded && dep in r.discovered then LoadOne(r, dep) else r;
      var (next, seen) := if dep in tried.loaded then Resolve(tried, dep, visited) else (tried, visited);
      ResolveEach(next, deps[1..], seen)
  }

  /** The dependencies of each matched name in turn. */
  function ResolveAll(r: Registry, names: seq<string>): (res: Registry)
    requires Nested(r) && forall name :: name in names ==> name in r.loaded
    ensures Nested(res) && res.discovered == r.discovered && r.loaded <= res.loaded
    decreases |names|
  {
    if names == [] then r else ResolveAll(Resolve(r, names[0], {}).0, names[1..])
  }
}
