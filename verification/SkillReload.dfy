/**
 Hot reload of one skill as a transaction: detach the prior skill, import its code again, build and attach a new one, and
 only then swap; every step may raise.
 */
module SkillReload {
  import opened Options
  import opened SkillModel
  import opened SkillLifecycle

  /** What constructing the class does, and whether the new skill's `attach`, if it has one, succeeds. */
  datatype Construction = TypeErrorRaised | OtherRaised | Made(skill: Skill, attaches: bool)

  /** What importing the code again finds. `elsewhere`: the class is one re-exported from another module. */
  datatype Reimport = ImportRaised | NoClass | Found(make: Construction, elsewhere: bool)

  /** How the calls of one reload go, those that are made. */
  datatype Attempt = Attempt(detaches: bool, restores: bool, reimport: Reimport)

  datatype Status = NotLoaded | NoInstance | NotInModules | Failed | NoSkillClass | ClassElsewhere | NotReloadable | Reloaded

  const NO_RELOAD := {"tests", "__main__", "nooa", "nooa_cli"}

  /** The part of a dotted name before its first dot. */
  function Top(dotted: string): string {
    if dotted == "" || dotted[0] == '.' then "" else [dotted[0]] + Top(dotted[1..])
  }

  /** Reloaded on its own instead of with its whole package. */
  predicate OwnModuleOnly(home: string) {
    var top := Top(home);
    top in NO_RELOAD || (top != "" && top[0] == '_')
  }

  predicate IsWithin(name: string, package: string) {
    name == package || package + "." <= name
  }

  /** The module that has to be imported for the skill to be reloadable. */
  function Anchor(home: string): string {
    if OwnModuleOnly(home) then home else Top(home)
  }

  function Call(r: Registry, call: SkillCall): Registry {
    r.(calls := r.calls + [call])
  }

  /** `_restore_old_after_reload_failure`. */
  function Restore(r: Registry, prior: Skill, detached: bool, restores: bool): Registry {
    if detached && prior.attachable then Call(r, Attach(prior.id, restores)) else r
  }

  /** `_install_reloaded`. */
  function Install(r: Registry, name: string, attr: string, prior: Skill, attempt: Attempt, make: Construction)
    : (Registry, Status)
  {
    match make
    case TypeErrorRaised => (Restore(r, prior, prior.detachable, attempt.restores), NotReloadable)
    case OtherRaised => (Restore(r, prior, prior.detachable, attempt.restores), Failed)
    case Made(skill, attaches) =>
      var called := if skill.attachable then Call(r, Attach(skill.id, attaches)) else r;
      if skill.attachable && !attaches then (Restore(called, prior, prior.detachable, attempt.restores), Failed)
      else (InstallReloaded(called, name, attr, skill), Reloaded)
  }

  /** From the import on. A class that comes from another module is refused only where a single module is reloaded. */
  function Reimported(r: Registry, name: string, attr: string, prior: Skill, attempt: Attempt): (Registry, Status) {
    var restored := Restore(r, prior, prior.detachable, attempt.restores);
    match attempt.reimport
    case ImportRaised => (restored, Failed)
    case NoClass => (restored, NoSkillClass)
    case Found(make, elsewhere) =>
      if elsewhere && OwnModuleOnly(prior.home) then (restored, ClassElsewhere)
      else Install(r, name, attr, prior, attempt, make)
  }

  /** The old skill detached, if it can be. */
  function Detached(r: Registry, prior: Skill, detaches: bool): Registry {
    if prior.detachable then Call(r, Detach(prior.id, detaches)) else r
  }

  /** `_reload_one`. */
  function ReloadOne(r: Registry, modules: set<string>, name: string, attempt: Attempt): (Registry, Status) {
    if name !in r.attrMap then (r, NotLoaded)
    else
      var attr := r.attrMap[name];
      if attr !in r.attrs then (r, NoInstance)
      else
        var prior := r.attrs[attr];
        if Anchor(prior.home) !in modules then (r, NotInModules)
        else
          var detached := Detached(r, prior, attempt.detaches);
          if prior.detachable && !attempt.detaches then (Restore(detached, prior, true, attempt.restores), Failed)
          else Reimported(detached, name, attr, prior, attempt)
  }

  /** The imported modules afterwards: a package is purged before it is imported again. */
  function ModulesAfter(r: Registry, modules: set<string>, name: string, attempt: Attempt): set<string> {
    if !Reaches(r, modules, name) || (Old(r, name).detachable && !attempt.detaches) || OwnModuleOnly(Old(r, name).home)
    then modules
    else
      var top := Top(Old(r, name).home);
      (set m | m in modules && !IsWithin(m, top)) + (if attempt.reimport.ImportRaised? then {} else {top})
  }

  /** The reload gets as far as touching the old skill. */
  predicate Reaches(r: Registry, modules: set<string>, name: string) {
    name in r.attrMap && r.attrMap[name] in r.attrs && Anchor(r.attrs[r.attrMap[name]].home) in modules
  }

  /** The instance on the agent. */
  function Old(r: Registry, name: string): Skill
    requires name in r.attrMap && r.attrMap[name] in r.attrs
  {
    r.attrs[r.attrMap[name]]
  }

  // --------------------------------------------------------------------------------------------------- all or nothing

  /** The reload gets through if every one of its steps does. */
  predicate Succeeds(r: Registry, modules: set<string>, name: string, attempt: Attempt) {
    && Reaches(r, modules, name)
    && (Old(r, name).detachable ==> attempt.detaches)
    && attempt.reimport.Found? && attempt.reimport.make.Made?
    && (attempt.reimport.elsewhere ==> !OwnModuleOnly(Old(r, name).home))
    && (attempt.reimport.make.skill.attachable ==> attempt.reimport.make.attaches)
  }

  /** Whichever step fails, nothing has changed but for the calls made: the attribute holds the old skill, and the loaded,
      activated and context sets are as before. */
  lemma FailureChangesNothing(r: Registry, modules: set<string>, name: string, attempt: Attempt)
    ensures
      var (done, status) := ReloadOne(r, modules, name, attempt);
      && (status == Reloaded <==> Succeeds(r, modules, name, attempt))
      && (status != Reloaded ==> done == r.(calls := done.calls) && r.calls <= done.calls)
  {
    hide InstallReloaded, Anchor, OwnModuleOnly;
  }

  /** How often `attach` of this skill is called. */
  function Attaches(calls: seq<SkillCall>, id: nat): nat {
    if calls == [] then 0
    else (if calls[0].Attach? && calls[0].id == id then 1 else 0) + Attaches(calls[1..], id)
  }

  lemma {:induction false} AttachesOfAppended(calls: seq<SkillCall>, more: seq<SkillCall>, id: nat)
    ensures Attaches(calls + more, id) == Attaches(calls, id) + Attaches(more, id)
  {
    if calls == [] {
      assert calls + more == more;
    } else {
      assert (calls + more)[1..] == calls[1..] + more;
      AttachesOfAppended(calls[1..], more, id);
    }
  }

  lemma AttachesOfOne(calls: seq<SkillCall>, call: SkillCall, id: nat)
    ensures Attaches(calls + [call], id) ==
            Attaches(calls, id) + if call.Attach? && call.id == id then 1 else 0
  {
    AttachesOfAppended(calls, [call], id);
    assert [call][1..] == [];
    assert Attaches([call][1..], id) == 0;
  }

  /** The new skill, where there is one, is a new object. */
  predicate MakesAnother(prior: Skill, attempt: Attempt) {
    attempt.reimport.Found? && attempt.reimport.make.Made? ==> attempt.reimport.make.skill.id != prior.id
  }

  /** A reload that fails once it has tried to detach the old skill attaches it again exactly once; one that had nothing
      to detach, or that succeeds, does not. */
  lemma OldIsReattachedOnce(r: Registry, modules: set<string>, name: string, attempt: Attempt)
    requires Reaches(r, modules, name) && MakesAnother(Old(r, name), attempt)
    ensures
      var (done, status) := ReloadOne(r, modules, name, attempt);
      var prior := Old(r, name);
      Attaches(done.calls, prior.id) ==
        Attaches(r.calls, prior.id) + if status != Reloaded && prior.detachable && prior.attachable then 1 else 0
  {
    hide Detached, Restore, Anchor, OwnModuleOnly, Attaches, Reimported;
    var prior := Old(r, name);
    var detached := Detached(r, prior, attempt.detaches);
    DetachAttachesNothing(r, prior, attempt.detaches);
    RestoreAttachesOnce(detached, prior, true, attempt.restores);
    ReimportReattachesOnce(detached, name, r.attrMap[name], prior, attempt);
  }

  lemma DetachAttachesNothing(r: Registry, prior: Skill, detaches: bool)
    ensures Attaches(Detached(r, prior, detaches).calls, prior.id) == Attaches(r.calls, prior.id)
  {
    AttachesOfOne(r.calls, Detach(prior.id, detaches), prior.id);
  }

  lemma RestoreAttachesOnce(r: Registry, prior: Skill, detached: bool, restores: bool)
    ensures Attaches(Restore(r, prior, detached, restores).calls, prior.id) ==
            Attaches(r.calls, prior.id) + if detached && prior.attachable then 1 else 0
  {
    AttachesOfOne(r.calls, Attach(prior.id, restores), prior.id);
  }

  /** The second attach of the prior skill, once for every failure from the import on. */
  ghost function Again(prior: Skill, status: Status): nat {
    if status != Reloaded && prior.detachable && prior.attachable then 1 else 0
  }

  lemma MadeReattachesOnce(r: Registry, name: string, attr: string, prior: Skill, attempt: Attempt, make: Construction)
    requires make.Made? && make.skill.id != prior.id
    ensures
      var (done, status) := Install(r, name, attr, prior, attempt, make);
      Attaches(done.calls, prior.id) == Attaches(r.calls, prior.id) + Again(prior, status)
  {
    hide Restore, Attaches, InstallReloaded;
    var called := if make.skill.attachable then Call(r, Attach(make.skill.id, make.attaches)) else r;
    AttachesOfOne(r.calls, Attach(make.skill.id, make.attaches), prior.id);
    if make.skill.attachable && !make.attaches {
      RestoreAttachesOnce(called, prior, prior.detachable, attempt.restores);
    } else {
      SwapMakesNoCalls(called, name, attr, make.skill);
    }
    var (done, status) := Install(r, name, attr, prior, attempt, make);
    assert Attaches(done.calls, prior.id) == Attaches(r.calls, prior.id) + Again(prior, status);
  }

  lemma ReimportReattachesOnce(r: Registry, name: string, attr: string, prior: Skill, attempt: Attempt)
    requires MakesAnother(prior, attempt)
    ensures
      var (done, status) := Reimported(r, name, attr, prior, attempt);
      Attaches(done.calls, prior.id) == Attaches(r.calls, prior.id) + Again(prior, status)
  {
    hide Restore, Attaches, InstallReloaded, OwnModuleOnly;
    RestoreAttachesOnce(r, prior, prior.detachable, attempt.restores);
    var (done, status) := Reimported(r, name, attr, prior, attempt);
    if attempt.reimport.Found? && attempt.reimport.make.Made? {
      MadeReattachesOnce(r, name, attr, prior, attempt, attempt.reimport.make);
      hide Install;
    }
    assert Attaches(done.calls, prior.id) == Attaches(r.calls, prior.id) + Again(prior, status);
  }

  lemma SwapMakesNoCalls(r: Registry, name: string, attr: string, skill: Skill)
    ensures InstallReloaded(r, name, attr, skill).calls == r.calls
  {}

  lemma AttachedAfterOne(calls: seq<SkillCall>, call: SkillCall)
    ensures
      Attached(calls + [call]) ==
        if !call.ok then Attached(calls) else if call.Attach? then Attached(calls) + {call.id}
        else Attached(calls) - {call.id}
  {
    assert (calls + [call])[..|calls|] == calls;
  }

  /** Who is attached after a reload. On failure, the old skill comes back exactly when its detach raised, or its second
      attach does not. */
  lemma WhoIsAttached(r: Registry, modules: set<string>, name: string, attempt: Attempt)
    requires Reaches(r, modules, name) && MakesAnother(Old(r, name), attempt)
    ensures
      var (done, status) := ReloadOne(r, modules, name, attempt);
      var prior := Old(r, name);
      var before := Attached(r.calls);
      Attached(done.calls) ==
        if status == Reloaded then
          (if prior.detachable then before - {prior.id} else before) +
          (if attempt.reimport.make.skill.attachable then {attempt.reimport.make.skill.id} else {})
        else if !prior.detachable then before
        else if prior.attachable && attempt.restores then before + {prior.id}
        else if attempt.detaches then before - {prior.id}
        else before
  {
    hide Restore, Anchor, OwnModuleOnly, Attached, Reimported;
    var prior := Old(r, name);
    var detached := Detached(r, prior, attempt.detaches);
    AttachedAfterOne(r.calls, Detach(prior.id, attempt.detaches));
    AttachedAfterRestore(detached, prior, true, attempt.restores);
    AttachedAfterReimport(detached, name, r.attrMap[name], prior, attempt);
    FailureChangesNothing(r, modules, name, attempt);
  }

  lemma AttachedAfterRestore(r: Registry, prior: Skill, detached: bool, restores: bool)
    ensures Attached(Restore(r, prior, detached, restores).calls) ==
            Attached(r.calls) + if detached && prior.attachable && restores then {prior.id} else {}
  {
    AttachedAfterOne(r.calls, Attach(prior.id, restores));
  }

  /** What the calls from the import on add to the attached skills. */
  ghost function Added(prior: Skill, attempt: Attempt, status: Status): set<nat> {
    if status == Reloaded then
      (if attempt.reimport.Found? && attempt.reimport.make.Made? && attempt.reimport.make.skill.attachable
       then {attempt.reimport.make.skill.id} else {})
    else if prior.detachable && prior.attachable && attempt.restores then {prior.id}
    else {}
  }

  lemma AttachedAfterMade(r: Registry, name: string, attr: string, prior: Skill, attempt: Attempt, make: Construction)
    requires attempt.reimport.Found? && attempt.reimport.make == make && make.Made?
    ensures
      var (done, status) := Install(r, name, attr, prior, attempt, make);
      Attached(done.calls) == Attached(r.calls) + Added(prior, attempt, status)
  {
    hide Restore, Attached, InstallReloaded, OwnModuleOnly;
    var called := if make.skill.attachable then Call(r, Attach(make.skill.id, make.attaches)) else r;
    AttachedAfterOne(r.calls, Attach(make.skill.id, make.attaches));
    if make.skill.attachable && !make.attaches {
      AttachedAfterRestore(called, prior, prior.detachable, attempt.restores);
      assert Attached(called.calls) == Attached(r.calls);
    } else {
      SwapMakesNoCalls(called, name, attr, make.skill);
      assert Attached(called.calls) == Attached(r.calls) + Added(prior, attempt, Reloaded);
    }
    var (done, status) := Install(r, name, attr, prior, attempt, make);
    assert Attached(done.calls) == Attached(r.calls) + Added(prior, attempt, status);
  }

  lemma AttachedAfterReimport(r: Registry, name: string, attr: string, prior: Skill, attempt: Attempt)
    ensures
      var (done, status) := Reimported(r, name, attr, prior, attempt);
      Attached(done.calls) == Attached(r.calls) + Added(prior, attempt, status)
  {
    hide Restore, Attached, InstallReloaded, OwnModuleOnly;
    AttachedAfterRestore(r, prior, prior.detachable, attempt.restores);
    var (done, status) := Reimported(r, name, attr, prior, attempt);
    if attempt.reimport.Found? && attempt.reimport.make.Made? {
      AttachedAfterMade(r, name, attr, prior, attempt, attempt.reimport.make);
      hide Install;
    }
    assert Attached(done.calls) == Attached(r.calls) + Added(prior, attempt, status);
  }

  /** A failed reload leaves the old skill attached, as it was, if and only if it was never detached or could be attached
      again. */
  lemma OldSurvivesFailureIff(r: Registry, modules: set<string>, name: string, attempt: Attempt)
    requires Reaches(r, modules, name) && MakesAnother(Old(r, name), attempt) && !Succeeds(r, modules, name, attempt)
    requires Old(r, name).id in Attached(r.calls)
    ensures
      var (done, _) := ReloadOne(r, modules, name, attempt);
      var prior := Old(r, name);
      Attached(done.calls) == Attached(r.calls) <==>
      (!prior.detachable || !attempt.detaches || (prior.attachable && attempt.restores))
  {
    hide Reaches, Succeeds, ReloadOne;
    FailureChangesNothing(r, modules, name, attempt);
    WhoIsAttached(r, modules, name, attempt);
  }

  /** After a successful reload the new skill is the only one of the two that is attached if and only if the old one has a
      `detach`: one that has none stays attached beside its successor. */
  lemma NewIsAloneIff(r: Registry, modules: set<string>, name: string, attempt: Attempt)
    requires Succeeds(r, modules, name, attempt) && MakesAnother(Old(r, name), attempt)
    requires attempt.reimport.make.skill.attachable && Old(r, name).id in Attached(r.calls)
    ensures
      var (done, _) := ReloadOne(r, modules, name, attempt);
      && attempt.reimport.make.skill.id in Attached(done.calls)
      && (Old(r, name).id !in Attached(done.calls) <==> Old(r, name).detachable)
  {
    FailureChangesNothing(r, modules, name, attempt);
    WhoIsAttached(r, modules, name, attempt);
    hide ReloadOne, Attached;
  }

  /** What success changes: one attribute, and the context from the old block to the new one where the skill is
      activated. */
  lemma SuccessSwaps(r: Registry, modules: set<string>, name: string, attempt: Attempt)
    requires Nested(r) && Succeeds(r, modules, name, attempt)
    ensures
      var (done, _) := ReloadOne(r, modules, name, attempt);
      var (prior, skill) := (Old(r, name), attempt.reimport.make.skill);
      && done == r.(attrs := r.attrs[AttrName(name) := skill], context := done.context, calls := done.calls)
      && done.context ==
           if name !in r.activated then r.context
           else With(Less(r.context, Open(r, prior.block)), Open(r, skill.block))
  {
    var done := ReloadOne(r, modules, name, attempt).0;
    var called := r.(calls := done.calls);
    SwapAfterCalls(r, modules, name, attempt);
    SwapIs(called, name, attempt.reimport.make.skill);
    hide ReloadOne, InstallReloaded, Succeeds, AttrName;
  }

  lemma SwapIs(r: Registry, name: string, skill: Skill)
    requires Nested(r) && name in r.loaded && AttrName(name) in r.attrs
    ensures
      var done := InstallReloaded(r, name, AttrName(name), skill);
      var prior := r.attrs[AttrName(name)];
      && done == r.(attrs := r.attrs[AttrName(name) := skill], context := done.context)
      && done.context ==
           if name !in r.activated then r.context
           else With(Less(r.context, Open(r, prior.block)), Open(r, skill.block))
  {
    hide AttrName;
    assert AttrOf(r, name) == AttrName(name);
  }

  /** A reload, however it goes, keeps the registry tidy when the new block belongs to no other skill. */
  lemma ReloadKeepsRegistryTidy(
    r: Registry, modules: set<string>, name: string, attempt: Attempt, base: map<string, string>)
    requires Tidy(r, base)
    requires Succeeds(r, modules, name, attempt) ==> Separate(r, name, attempt.reimport.make.skill.block, base)
    ensures Tidy(ReloadOne(r, modules, name, attempt).0, base)
  {
    FailureChangesNothing(r, modules, name, attempt);
    var (done, status) := ReloadOne(r, modules, name, attempt);
    if status == Reloaded {
      var skill := attempt.reimport.make.skill;
      var called := r.(calls := done.calls);
      CallsAreIgnored(r, called, base);
      SwapAfterCalls(r, modules, name, attempt);
      hide ReloadOne, Tidy, AttrName;
      ReloadKeepsTidy(called, name, skill, base);
    } else {
      CallsAreIgnored(r, done, base);
    }
  }

  lemma SwapAfterCalls(r: Registry, modules: set<string>, name: string, attempt: Attempt)
    requires Nested(r) && Succeeds(r, modules, name, attempt)
    ensures
      var done := ReloadOne(r, modules, name, attempt).0;
      && name in r.loaded
      && done == InstallReloaded(r.(calls := done.calls), name, AttrName(name), attempt.reimport.make.skill)
  {
    hide Anchor, OwnModuleOnly, AttrName, InstallReloaded;
    var done := ReloadOne(r, modules, name, attempt).0;
    var detached := Detached(r, Old(r, name), attempt.detaches);
    var (skill, attaches) := (attempt.reimport.make.skill, attempt.reimport.make.attaches);
    var called := if skill.attachable then Call(detached, Attach(skill.id, attaches)) else detached;
    assert done == InstallReloaded(called, name, AttrName(name), skill);
    SwapMakesNoCalls(called, name, AttrName(name), skill);
    assert called == r.(calls := done.calls);
  }

  lemma CallsAreIgnored(r: Registry, s: Registry, base: map<string, string>)
    requires s == r.(calls := s.calls)
    ensures Tidy(r, base) ==> Tidy(s, base)
    ensures forall name, block :: Separate(r, name, block, base) ==> Separate(s, name, block, base)
  {
    hide AttrName;
    assert forall n :: BlockOf(s, n) == BlockOf(r, n);
    hide BlockOf;
  }

  // --------------------------------------------------------------------------------------------------------- modules

  /** The top package is what comes before the first dot, and every dotted name has one. */
  lemma {:induction false} TopIs(dotted: string, top: string)
    ensures Top(dotted) == top <==> '.' !in top && (dotted == top || top + "." <= dotted)
  {
    if dotted == "" || dotted[0] == '.' {
      assert top != "" ==> (top + ".")[0] == top[0];
    } else if top == "" {
      assert "" + "." == ".";
    } else {
      var rest := top[1..];
      TopIs(dotted[1..], rest);
      assert top == [top[0]] + rest && dotted == [dotted[0]] + dotted[1..];
      assert top + "." == [top[0]] + (rest + ".");
      assert top + "." <= dotted <==> top[0] == dotted[0] && rest + "." <= dotted[1..];
      assert '.' in top <==> top[0] == '.' || '.' in rest;
    }
  }

  /** A reload that gets to importing a package purges the modules of that package, all of them and no others, and has
      the package back exactly if the import succeeds. */
  lemma PurgedModules(r: Registry, modules: set<string>, name: string, attempt: Attempt, m: string)
    requires Reaches(r, modules, name) && !OwnModuleOnly(Old(r, name).home)
    requires Old(r, name).detachable ==> attempt.detaches
    ensures
      var top := Top(Old(r, name).home);
      m in ModulesAfter(r, modules, name, attempt) <==>
      if Top(m) == top then m == top && !attempt.reimport.ImportRaised? else m in modules
  {
    var top := Top(Old(r, name).home);
    TopIs(m, top);
    TopIs(Old(r, name).home, top);
    TopIs(top, top);
    hide Top, OwnModuleOnly;
  }

  /** Every other outcome leaves the imported modules alone. */
  lemma KeptModules(r: Registry, modules: set<string>, name: string, attempt: Attempt)
    requires
      || !Reaches(r, modules, name) || OwnModuleOnly(Old(r, name).home)
      || (Old(r, name).detachable && !attempt.detaches)
    ensures ModulesAfter(r, modules, name, attempt) == modules
  {
  }

  /** After a failed reload the skill can be tried again if and only if it was not the import of its package that failed:
      the package has been purged by then, and nothing brings it back. */
  lemma CanBeRetriedIff(r: Registry, modules: set<string>, name: string, attempt: Attempt)
    requires Reaches(r, modules, name) && !Succeeds(r, modules, name, attempt)
    ensures
      var (done, _) := ReloadOne(r, modules, name, attempt);
      var (prior, after) := (Old(r, name), ModulesAfter(r, modules, name, attempt));
      Reaches(done, after, name) <==>
      (OwnModuleOnly(prior.home) || (prior.detachable && !attempt.detaches) || !attempt.reimport.ImportRaised?)
  {
    FailureChangesNothing(r, modules, name, attempt);
    hide ReloadOne;
  }

  /** Whatever has happened in between: the skill is refused, and nothing changes, exactly as long as its module is not
      imported. */
  lemma RefusedWhileNotImported(r: Registry, modules: set<string>, name: string, attempt: Attempt)
    requires name in r.attrMap && r.attrMap[name] in r.attrs
    ensures
      Anchor(Old(r, name).home) !in modules <==>
      ReloadOne(r, modules, name, attempt) == (r, NotInModules) && ModulesAfter(r, modules, name, attempt) == modules
  {
    hide OwnModuleOnly, Anchor, InstallReloaded;
    FailureChangesNothing(r, modules, name, attempt);
  }

  /** A failed import of its package leads there: every later reload is refused until something else imports the package. */
  lemma PurgedPackageStaysRefused(r: Registry, modules: set<string>, name: string, first: Attempt, second: Attempt)
    requires Reaches(r, modules, name) && !OwnModuleOnly(Old(r, name).home)
    requires (Old(r, name).detachable ==> first.detaches) && first.reimport.ImportRaised?
    ensures
      var done := ReloadOne(r, modules, name, first).0;
      var purged := ModulesAfter(r, modules, name, first);
      && ReloadOne(done, purged, name, second) == (done, NotInModules)
      && ModulesAfter(done, purged, name, second) == purged
  {
    FailureChangesNothing(r, modules, name, first);
    CanBeRetriedIff(r, modules, name, first);
    hide ReloadOne, ModulesAfter;
    RefusedWhileNotImported(
      ReloadOne(r, modules, name, first).0, ModulesAfter(r, modules, name, first), name, second);
  }

  // ------------------------------------------------------------------------------------------------- naming the skill

  datatype Resolved = One(name: string) | NoMatch | Ambiguous

  /** `_resolve_loaded`: the full name, else a pattern, else the bare leaf. */
  ghost function ResolveLoaded(loaded: set<string>, matches: (string, string) -> bool, name: string): Resolved {
    if name in loaded then One(name)
    else
      var byPattern := set n | n in loaded && matches(n, name);
      var found := if byPattern != {} then byPattern else set n | n in loaded && AttrName(n) == AttrName(name);
      if found == {} then NoMatch
      else if |found| > 1 then Ambiguous
      else var n :| n in found; One(n)
  }

  lemma OnlyElement(found: set<string>, n: string)
    requires n in found && |found| == 1
    ensures found == {n}
  {
    assert |found - {n}| == 0;
  }

  /** A bare leaf names the one loaded skill that ends in it; two that do make it ambiguous. */
  lemma LeafNamesOne(loaded: set<string>, matches: (string, string) -> bool, name: string, n: string)
    requires name !in loaded && n in loaded && AttrName(n) == AttrName(name)
    requires forall m :: m in loaded ==> !matches(m, name)
    ensures ResolveLoaded(loaded, matches, name) == One(n) <==>
            forall m :: m in loaded && AttrName(m) == AttrName(name) ==> m == n
    ensures ResolveLoaded(loaded, matches, name) == Ambiguous <==>
            exists m :: m in loaded && AttrName(m) == AttrName(name) && m != n
  {
    hide AttrName;
    var byPattern := set m | m in loaded && matches(m, name);
    assert byPattern == {};
    var found := set m | m in loaded && AttrName(m) == AttrName(name);
    assert n in found;
    assert forall m :: m in found <==> m in loaded && AttrName(m) == AttrName(name);
    assert (forall m :: m in found ==> m == n) <==> found == {n};
    assert (forall m :: m in loaded && AttrName(m) == AttrName(name) ==> m == n) <==> found == {n};
    assert found == {n} <==> |found| == 1 by {
      if |found| == 1 { OnlyElement(found, n); }
    }
  }
}
