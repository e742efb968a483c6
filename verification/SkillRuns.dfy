/**
 Whole runs of the registry: what every sequence of load, register, activate, deactivate and reload keeps, reloads that fail
 at any step included.
 */
module SkillRuns {
  import opened SkillModel
  import opened SkillLifecycle
  import opened SkillReload

  /** One public call, with the names its patterns matched in the order they were visited; for a reload, the modules that
      are imported and how each of its steps goes. */
  datatype Op =
    | Load(names: seq<string>)
    | Register(name: string, skill: Skill, attaches: bool)
    | Activate(missing: seq<string>, matched: seq<string>)
    | Deactivate(names: seq<string>)
    | Reload(name: string, modules: set<string>, attempt: Attempt)

  /** Only names the registry could have matched. */
  ghost predicate Matchable(r: Registry, op: Op) {
    match op
    case Load(names) => forall name :: name in names ==> name in r.discovered
    case Register(_, _, _) => true
    case Activate(missing, matched) => CanActivate(r, missing, matched)
    case Deactivate(names) =>
      && (forall name :: name in names ==> name in r.activated)
      && forall i, j :: 0 <= i < j < |names| ==> names[i] != names[j]
    case Reload(_, _, _) => true
  }

  function Apply(r: Registry, op: Op): Registry
    requires Matchable(r, op)
  {
    match op
    case Load(names) => LoadNames(r, names)
    case Register(name, skill, attaches) => Registered(r, name, skill, attaches)
    case Activate(missing, matched) => SkillModel.Activate(r, missing, matched)
    case Deactivate(names) => DeactivateNames(r, names)
    case Reload(name, modules, attempt) => ReloadOne(r, modules, name, attempt).0
  }

  /** What the caller has to see to: register only names that are not loaded, with an attribute and a block key no other
      skill has; give a reloaded skill no other skill's block key. */
  ghost predicate Admissible(r: Registry, op: Op, base: map<string, string>) {
    Matchable(r, op) &&
    match op
    case Register(name, skill, _) => Registrable(r, name, skill, base)
    case Reload(name, modules, attempt) =>
      Succeeds(r, modules, name, attempt) ==> Separate(r, name, attempt.reimport.make.skill.block, base)
    case _ => true
  }

  lemma ReloadKeepsNested(r: Registry, modules: set<string>, name: string, attempt: Attempt)
    requires Nested(r)
    ensures Nested(ReloadOne(r, modules, name, attempt).0)
  {
    FailureChangesNothing(r, modules, name, attempt);
    if Succeeds(r, modules, name, attempt) {
      SwapAfterCalls(r, modules, name, attempt);
    }
    hide ReloadOne, Succeeds, AttrName;
  }

  /** Nothing is assumed of the skills or of what loading does. */
  lemma StepKeepsNested(r: Registry, op: Op)
    requires Nested(r) && Matchable(r, op)
    ensures Nested(Apply(r, op))
  {
    hide AttrName, ReloadOne;
    match op
    case Load(_) =>
    case Register(_, _, _) =>
    case Activate(missing, matched) =>
      ActivateNamesKeepsNested(ResolveAll(LoadNames(r, missing), matched), matched);
    case Deactivate(names) => DeactivateNamesKeepsNested(r, names);
    case Reload(name, modules, attempt) => ReloadKeepsNested(r, modules, name, attempt);
  }

  lemma ActivateKeepsTidy(r: Registry, missing: seq<string>, matched: seq<string>, base: map<string, string>)
    requires Tidy(r, base) && CanActivate(r, missing, matched)
    ensures Tidy(SkillModel.Activate(r, missing, matched), base)
  {
    hide OwnAttributes, OwnBlocks, ExactContext;
    LoadNamesKeepsTidy(r, missing, base);
    ResolveAllKeepsTidy(LoadNames(r, missing), matched, base);
    ActivateNamesKeepsTidy(ResolveAll(LoadNames(r, missing), matched), matched, base);
  }

  lemma StepKeepsTidy(r: Registry, op: Op, base: map<string, string>)
    requires Tidy(r, base) && Admissible(r, op, base)
    ensures Tidy(Apply(r, op), base)
  {
    hide OwnAttributes, OwnBlocks, ExactContext, Separate, AttrName, ReloadOne, Succeeds;
    match op
    case Load(names) => LoadNamesKeepsTidy(r, names, base);
    case Register(name, skill, attaches) => RegisterKeepsTidy(r, name, skill, attaches, base);
    case Activate(missing, matched) => ActivateKeepsTidy(r, missing, matched, base);
    case Deactivate(names) => DeactivateNamesKeepsTidy(r, names, base);
    case Reload(name, modules, attempt) => ReloadKeepsRegistryTidy(r, modules, name, attempt, base);
  }

  /** `states[0]` is the start and each operation leads from one state to the next. */
  ghost predicate Run(ops: seq<Op>, states: seq<Registry>) {
    && |states| == |ops| + 1
    && forall i :: 0 <= i < |ops| ==> Matchable(states[i], ops[i]) && states[i + 1] == Apply(states[i], ops[i])
  }

  lemma {:induction false} RunKeepsNested(ops: seq<Op>, states: seq<Registry>, k: nat)
    requires Run(ops, states) && Unused(states[0]) && k <= |ops|
    ensures Nested(states[k])
  {
    hide Apply;
    if k > 0 {
      RunKeepsNested(ops, states, k - 1);
      assert Matchable(states[k - 1], ops[k - 1]);
      StepKeepsNested(states[k - 1], ops[k - 1]);
      assert states[k - 1 + 1] == Apply(states[k - 1], ops[k - 1]);
    }
  }

  /** After every admissible sequence of operations the context holds the agent's own blocks, the blocks of the activated
      skills, and nothing else. */
  lemma {:induction false} RunKeepsTidy(ops: seq<Op>, states: seq<Registry>, k: nat, base: map<string, string>)
    requires Run(ops, states) && Unused(states[0]) && k <= |ops|
    requires OwnAttributes(states[0]) && OwnBlocks(states[0], base) && states[0].context == base
    requires forall i :: 0 <= i < |ops| ==> Admissible(states[i], ops[i], base)
    ensures Tidy(states[k], base)
  {
    hide Apply;
    if k > 0 {
      RunKeepsTidy(ops, states, k - 1, base);
      StepKeepsTidy(states[k - 1], ops[k - 1], base);
      assert states[k - 1 + 1] == Apply(states[k - 1], ops[k - 1]);
    }
  }
}
