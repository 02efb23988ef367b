/** What a run achieves: when nothing is left to do afterwards, and what the audit then says. */
module RegistryRepair {
  import opened Prelude
  import opened Registry
  import opened RegistryIds
  import opened RegistryRuns
  import opened RegistryViews

  // ----- settled expectations -------------------------------------------------------

  /** Nothing is missing for `e`, as the bootstrap checks it: the newest active version is the one that is bound. */
  ghost predicate Settled(cfg: Config, t: Tables, e: Expectation) {
    && e.templateId in t.templates
    && ActiveVersions(t, e.templateId) != map[]
    && cfg.newest(ActiveVersions(t, e.templateId)) in GloballyBound(t, e.templateId)
    && ActiveContracts(t, e) != map[]
  }

  /** No version is active, and a version that is not holds the id a first version would get. */
  ghost predicate Trapped(t: Tables, e: Expectation) {
    ActiveVersions(t, e.templateId) == map[] && FirstVersionId(e) in t.versions
  }

  /** The audit's view of the same four rows: some active version is bound. */
  ghost predicate Unmissed(t: Tables, e: Expectation) {
    && e.templateId in t.templates
    && ActiveVersions(t, e.templateId) != map[]
    && ActiveVersions(t, e.templateId).Keys * GloballyBound(t, e.templateId) != {}
    && ActiveContracts(t, e) != map[]
  }

  /** The four ways in which the audit finds something missing. */
  ghost predicate ReportsNothingMissing(issues: seq<Issue>) {
    && MissingTemplate !in issues && MissingActiveVersion !in issues
    && MissingBindingToActiveVersion !in issues && MissingActiveContract !in issues
  }

  lemma AuditMissing(cfg: Config, t: Tables, e: Expectation)
    ensures ReportsNothingMissing(Issues(cfg, t, e)) <==> Unmissed(t, e)
  {
    hide ActiveVersions, GloballyBound, ActiveContracts, PathsMissing, HasActivePhrase;
    var a, b, c := TemplateIssues(t, e), AudienceIssues(t, e), VersionIssues(t, e);
    var d, f := ContractIssues(cfg, t, e), PhraseIssues(t, e);
    assert Issues(cfg, t, e) == a + b + c + d + f;
    assert ReportsNothingMissing(Issues(cfg, t, e))
      <==> ReportsNothingMissing(a) && ReportsNothingMissing(c) && ReportsNothingMissing(d) by {
      hide TemplateIssues, VersionIssues, ContractIssues;
      assert forall x :: x in Issues(cfg, t, e) <==> x in a || x in b || x in c || x in d || x in f;
      assert ReportsNothingMissing(b) && ReportsNothingMissing(f);
    }
    assert ReportsNothingMissing(a) <==> e.templateId in t.templates;
    assert ReportsNothingMissing(d) <==> ActiveContracts(t, e) != map[];
    AuditVersions(t, e);
  }

  lemma AuditVersions(t: Tables, e: Expectation)
    ensures ReportsNothingMissing(VersionIssues(t, e)) <==>
      && e.templateId in t.templates
      && ActiveVersions(t, e.templateId) != map[]
      && ActiveVersions(t, e.templateId).Keys * GloballyBound(t, e.templateId) != {}
  {
  }

  /** Every binding points to a version that exists, as the foreign key demands. */
  ghost predicate WellBound(t: Tables) {
    forall id :: id in t.bindings ==> t.bindings[id].versionId in t.versions
  }

  // ----- one step ------------------------------------------------------------------------

  ghost predicate SameVersions(a: Tables, b: Tables, e: Expectation) {
    && ActiveVersions(a, e.templateId) == ActiveVersions(b, e.templateId)
    && SameKeys(a.versions.Keys, b.versions.Keys, e.templateId)
  }

  /** After the template and version steps the version looked up is there, and is the newest active one unless trapped. */
  lemma VersionSettles(cfg: Config, mode: Mode, st: State, e: Expectation)
    requires mode.apply && PicksNewest(cfg.newest)
    requires SameVersions(st.seen, st.db, e) && (mode.autoflush ==> st.seen == st.db)
    requires !VersionStep(mode, st, e).conflict
    ensures var r := VersionStep(mode, st, e);
            var v := BoundVersionId(cfg, mode, st, e);
            var active := ActiveVersions(r.db, e.templateId);
            && active != map[]
            && v in r.db.versions
            && (ActiveVersions(st.db, e.templateId) != map[] ==>
                  r == st && v == cfg.newest(active))
            && (ActiveVersions(st.db, e.templateId) == map[] ==>
                  && (exists id :: active == map[id := mode.now] && id !in st.db.versions && cfg.newest(active) == id)
                  && (v == cfg.newest(active) <==> mode.autoflush || FirstVersionId(e) !in st.db.versions))
  {
    var seen := ActiveVersions(st.seen, e.templateId);
    assert seen == ActiveVersions(st.db, e.templateId);
    if seen != map[] {
      assert cfg.newest(seen) in seen;
    } else {
      NewVersionSettles(cfg, mode, st, e);
    }
  }

  lemma NewVersionSettles(cfg: Config, mode: Mode, st: State, e: Expectation)
    requires mode.apply && PicksNewest(cfg.newest)
    requires SameVersions(st.seen, st.db, e) && (mode.autoflush ==> st.seen == st.db)
    requires !VersionStep(mode, st, e).conflict && ActiveVersions(st.seen, e.templateId) == map[]
    ensures var r := VersionStep(mode, st, e);
            var v := BoundVersionId(cfg, mode, st, e);
            var id := NextId(st.seen.versions.Keys, FirstVersionId(e));
            var active := ActiveVersions(r.db, e.templateId);
            && active == map[id := mode.now] && id !in st.db.versions && cfg.newest(active) == id
            && v in r.db.versions
            && (v == id <==> mode.autoflush || FirstVersionId(e) !in st.db.versions)
  {
    var id := NextId(st.seen.versions.Keys, FirstVersionId(e));
    NextVersionId(st.seen.versions.Keys, e);
    FirstVersionIdForm(e);
    hide NextId, BeforeLastColon, AfterLastColon, FirstVersionId;
    var r := PutVersion(mode, st, e, id);
    assert VersionStep(mode, st, e) == r;
    assert id !in st.db.versions;
    var row := NewVersion(mode, e, id);
    assert r.db.versions == st.db.versions[id := row];
    assert ActiveVersions(st.db, e.templateId) == map[];
    var active := ActiveVersions(r.db, e.templateId);
    forall k | k in st.db.versions
      ensures k !in active
    {
      assert k !in ActiveVersions(st.db, e.templateId);
    }
    assert active == map[id := mode.now];
    assert id in active;
    assert cfg.newest(active) in active;
  }

  lemma BindingSettles(mode: Mode, st: State, e: Expectation, versionId: string)
    requires mode.apply && GloballyBound(st.seen, e.templateId) == GloballyBound(st.db, e.templateId)
    requires !BindingStep(mode, st, e, versionId).conflict
    ensures GloballyBound(BindingStep(mode, st, e, versionId).db, e.templateId)
         == GloballyBound(st.db, e.templateId) + {versionId}
    ensures WellBound(st.db) && versionId in st.db.versions ==> WellBound(BindingStep(mode, st, e, versionId).db)
  {
    if versionId in GloballyBound(st.seen, e.templateId) {
    } else {
      var id := NextId(st.seen.bindings.Keys, BindingBase(e, versionId));
      hide NextId;
      var r := BindingStep(mode, st, e, versionId);
      assert r.db.bindings == st.db.bindings[id := Binding("global", e.templateId, versionId)] && id !in st.db.bindings;
      assert r.db.bindings[id].versionId == versionId;
      forall v | v in GloballyBound(st.db, e.templateId)
        ensures v in GloballyBound(r.db, e.templateId)
      {
        var k :| k in st.db.bindings && st.db.bindings[k].templateId == e.templateId
              && st.db.bindings[k].scopeType == "global" && st.db.bindings[k].versionId == v;
        assert r.db.bindings[k] == st.db.bindings[k];
      }
    }
  }

  lemma ContractSettles(mode: Mode, st: State, e: Expectation)
    requires mode.apply && ActiveContracts(st.seen, e) == ActiveContracts(st.db, e)
    requires !ContractStep(mode, st, e).conflict
    ensures ActiveContracts(ContractStep(mode, st, e).db, e) != map[]
  {
    hide NextId;
    if ActiveContracts(st.seen, e) == map[] {
      var id := NextId(st.seen.contracts.Keys, ContractBase(e));
      assert id in ActiveContracts(ContractStep(mode, st, e).db, e);
    }
  }

  /** The result of one step: settled, and unmissed by the audit, unless the version added cannot be seen and is trapped. */
  ghost predicate StepResult(cfg: Config, mode: Mode, before: Tables, after: Tables, e: Expectation) {
    && e.templateId in after.templates
    && ActiveContracts(after, e) != map[]
    && ActiveVersions(after, e.templateId) != map[]
    && (Settled(cfg, after, e) <==> mode.autoflush || !Trapped(before, e))
    && (Unmissed(after, e) <==> mode.autoflush || !Trapped(before, e))
  }

  lemma StepSettles(cfg: Config, mode: Mode, st: State, e: Expectation)
    requires mode.apply && PicksNewest(cfg.newest) && WellBound(st.db)
    requires SameFor(st.seen, st.db, e) && (mode.autoflush ==> st.seen == st.db)
    requires !ExpectationStep(cfg, mode, st, e).conflict
    ensures var r := ExpectationStep(cfg, mode, st, e);
            StepResult(cfg, mode, st.db, r.db, e) && WellBound(r.db)
  {
    var a := TemplateStep(mode, st, e);
    var b := VersionStep(mode, a, e);
    var v := BoundVersionId(cfg, mode, a, e);
    var c := BindingStep(mode, b, e, v);
    var d := ContractStep(mode, c, e);
    TemplateGrew(mode, st, e);
    VersionGrew(mode, a, e);
    BindingGrew(mode, b, e, v);
    ContractGrew(mode, c, e);
    TemplateTouches(mode, st, e);
    VersionTouches(mode, a, e);
    BindingTouches(mode, b, e, v);
    ContractTouches(mode, c, e);
    assert SameVersions(a.seen, a.db, e) && ActiveVersions(a.db, e.templateId) == ActiveVersions(st.db, e.templateId);
    assert GloballyBound(b.seen, e.templateId) == GloballyBound(b.db, e.templateId) == GloballyBound(st.db, e.templateId);
    assert ActiveContracts(c.seen, e) == ActiveContracts(c.db, e);
    hide TemplateStep, VersionStep, BindingStep, ContractStep, BoundVersionId, Extends, NextId;
    VersionSettles(cfg, mode, a, e);
    BindingSettles(mode, b, e, v);
    ContractSettles(mode, c, e);
    assert d.db.versions == b.db.versions && d.db.bindings == c.db.bindings;
    SettledResult(cfg, mode, st.db, b.db, d.db, e, v);
  }

  /** Putting the pieces of a step together. */
  lemma SettledResult(
    cfg: Config, mode: Mode, before: Tables, versioned: Tables, after: Tables, e: Expectation, v: string)
    requires WellBound(before) && PicksNewest(cfg.newest)
    requires after.versions == versioned.versions && e.templateId in after.templates
    requires ActiveContracts(after, e) != map[]
    requires GloballyBound(after, e.templateId) == GloballyBound(before, e.templateId) + {v}
    requires var active := ActiveVersions(versioned, e.templateId);
             && active != map[]
             && (ActiveVersions(before, e.templateId) != map[] ==> v == cfg.newest(active))
             && (ActiveVersions(before, e.templateId) == map[] ==>
                   && (exists id :: active == map[id := mode.now] && id !in before.versions && cfg.newest(active) == id)
                   && (v == cfg.newest(active) <==> mode.autoflush || FirstVersionId(e) !in before.versions))
    ensures StepResult(cfg, mode, before, after, e)
  {
    var active := ActiveVersions(versioned, e.templateId);
    assert ActiveVersions(after, e.templateId) == active;
    assert cfg.newest(active) in active;
    if ActiveVersions(before, e.templateId) == map[] {
      var id :| active == map[id := mode.now] && id !in before.versions && cfg.newest(active) == id;
      assert id !in GloballyBound(before, e.templateId);
      assert active.Keys == {id};
      assert active.Keys * GloballyBound(after, e.templateId) == if v == id then {id} else {};
    } else {
      assert v in active.Keys * GloballyBound(after, e.templateId);
    }
    var fine := mode.autoflush || !Trapped(before, e);
    assert cfg.newest(active) in GloballyBound(after, e.templateId) <==> fine;
    assert active.Keys * GloballyBound(after, e.templateId) != {} <==> fine;
  }

  // Which tables each part of a step leaves alone.

  ghost predicate KeptBesides(a: State, b: State, templates: bool, versions: bool, bindings: bool, contracts: bool) {
    && (templates ==> a.db.templates == b.db.templates && a.seen.templates == b.seen.templates)
    && (versions ==> a.db.versions == b.db.versions && a.seen.versions == b.seen.versions)
    && (bindings ==> a.db.bindings == b.db.bindings && a.seen.bindings == b.seen.bindings)
    && (contracts ==> a.db.contracts == b.db.contracts && a.seen.contracts == b.seen.contracts)
  }

  ghost predicate Sane(mode: Mode, st: State) {
    mode.autoflush ==> st.seen == st.db
  }

  lemma TemplateTouches(mode: Mode, st: State, e: Expectation)
    requires Sane(mode, st)
    ensures var r := TemplateStep(mode, st, e);
            && Sane(mode, r) && KeptBesides(st, r, false, true, true, true)
            && (mode.apply && (e.templateId in st.seen.templates ==> e.templateId in st.db.templates) ==>
                  e.templateId in r.db.templates)
  {
  }

  lemma VersionTouches(mode: Mode, st: State, e: Expectation)
    requires Sane(mode, st)
    ensures Sane(mode, VersionStep(mode, st, e)) && KeptBesides(st, VersionStep(mode, st, e), true, false, true, true)
  {
  }

  lemma BindingTouches(mode: Mode, st: State, e: Expectation, versionId: string)
    requires Sane(mode, st)
    ensures Sane(mode, BindingStep(mode, st, e, versionId))
    ensures KeptBesides(st, BindingStep(mode, st, e, versionId), true, true, false, true)
  {
  }

  lemma ContractTouches(mode: Mode, st: State, e: Expectation)
    requires Sane(mode, st)
    ensures Sane(mode, ContractStep(mode, st, e)) && KeptBesides(st, ContractStep(mode, st, e), true, true, true, false)
  {
  }

  // ----- all steps -----------------------------------------------------------------------------

  lemma ResultElsewhere(cfg: Config, mode: Mode, t: Tables, a: Tables, b: Tables, e: Expectation)
    requires StepResult(cfg, mode, t, a, e) && SameFor(a, b, e)
    ensures StepResult(cfg, mode, t, b, e)
  {
  }

  lemma TrappedSame(a: Tables, b: Tables, e: Expectation)
    requires SameFor(a, b, e)
    ensures Trapped(a, e) <==> Trapped(b, e)
  {
    FirstVersionIdForm(e);
  }

  lemma {:induction false} StepsSettle(cfg: Config, mode: Mode, st: State, es: seq<Expectation>, i: nat)
    requires mode.apply && PicksNewest(cfg.newest) && WellBound(st.db) && st.seen == st.db && AllApart(es)
    requires !ExpectationSteps(cfg, mode, st, es).conflict
    ensures WellBound(ExpectationSteps(cfg, mode, st, es).db)
    ensures i < |es| ==> StepResult(cfg, mode, st.db, ExpectationSteps(cfg, mode, st, es).db, es[i])
  {
    if es != [] {
      var front, e := es[..|es| - 1], es[|es| - 1];
      var before := ExpectationSteps(cfg, mode, st, front);
      var after := ExpectationStep(cfg, mode, before, e);
      ApartFromLast(es);
      ExpectationGrew(cfg, mode, before, e);
      hide Apart, AllApart, ExpectationStep, StepResult, WellBound, SameFor, Extends, PicksNewest, Trapped;
      StepsSettle(cfg, mode, st, front, i);
      SeenIsThere(cfg, mode, st, front, e);
      StepSettles(cfg, mode, before, e);
      if i == |front| {
        TrappedSame(st.db, before.db, e);
        StepResultFrom(cfg, mode, st.db, before.db, after.db, e);
      } else if i < |front| {
        StepOnlyFor(cfg, mode, before, e);
        OnlyForOthers(before.db, after.db, e, front[i]);
        ResultElsewhere(cfg, mode, st.db, before.db, after.db, front[i]);
      }
    }
  }

  lemma StepResultFrom(cfg: Config, mode: Mode, s: Tables, t: Tables, after: Tables, e: Expectation)
    requires StepResult(cfg, mode, t, after, e) && (Trapped(s, e) <==> Trapped(t, e))
    ensures StepResult(cfg, mode, s, after, e)
  {
  }

  // ----- nothing to do ----------------------------------------------------------------------------

  ghost predicate SettledAudience(cfg: Config, t: Tables, id: string) {
    id in t.audiences && (HasActivePhrase(t, cfg.phraseSet(id)) || cfg.phrases(id) == [])
  }

  ghost predicate AllSettled(cfg: Config, t: Tables) {
    && (forall i :: 0 <= i < |cfg.audiences| ==> SettledAudience(cfg, t, cfg.audiences[i]))
    && (forall i :: 0 <= i < |cfg.expectations| ==> Settled(cfg, t, cfg.expectations[i]))
  }

  lemma {:induction false} PhrasesPlanned(cfg: Config, mode: Mode, st: State, audienceId: string, phrases: seq<string>)
    ensures |PutPhrases(cfg, mode, st, audienceId, phrases).actions| == |st.actions| + |phrases|
  {
    if phrases != [] {
      PhrasesPlanned(cfg, mode, st, audienceId, phrases[..|phrases| - 1]);
    }
  }

  lemma AudienceIdle(cfg: Config, mode: Mode, st: State, id: string)
    ensures |AudienceStep(cfg, mode, st, id).actions| == |st.actions| <==> SettledAudience(cfg, st.seen, id)
    ensures SettledAudience(cfg, st.seen, id) ==> AudienceStep(cfg, mode, st, id) == st
    ensures |AudienceStep(cfg, mode, st, id).actions| >= |st.actions|
  {
    hide HasActivePhrase;
    var present := if id in st.seen.audiences then st else PutAudience(cfg, mode, st, id);
    PhrasesPlanned(cfg, mode, present, id, cfg.phrases(id));
  }

  lemma StepIdle(cfg: Config, mode: Mode, st: State, e: Expectation)
    ensures |ExpectationStep(cfg, mode, st, e).actions| == |st.actions| <==> Settled(cfg, st.seen, e)
    ensures Settled(cfg, st.seen, e) ==> ExpectationStep(cfg, mode, st, e) == st
    ensures |ExpectationStep(cfg, mode, st, e).actions| >= |st.actions|
  {
    var a := TemplateStep(mode, st, e);
    var b := VersionStep(mode, a, e);
    var v := BoundVersionId(cfg, mode, a, e);
    var c := BindingStep(mode, b, e, v);
    TemplatePlans(mode, st, e);
    VersionPlans(mode, a, e);
    BindingPlans(mode, b, e, v);
    ContractPlans(mode, c, e);
    var active := ActiveVersions(st.seen, e.templateId);
    assert active != map[] ==> BoundVersionId(cfg, mode, st, e) == cfg.newest(active);
    hide NextId, ActiveVersions, GloballyBound, ActiveContracts, BoundVersionId;
    hide TemplateStep, VersionStep, BindingStep, ContractStep;
  }

  /** At most one action, recorded when something is missing. */
  function Only(missing: bool, kind: Kind, id: string): seq<Action> {
    if missing then [Action(kind, id)] else []
  }

  lemma TemplatePlans(mode: Mode, st: State, e: Expectation)
    ensures var r := TemplateStep(mode, st, e);
            var missing := e.templateId !in st.seen.templates;
            (!missing ==> r == st) && r.actions == st.actions + Only(missing, TemplateRow, e.templateId)
  {
  }

  lemma VersionPlans(mode: Mode, st: State, e: Expectation)
    ensures var r := VersionStep(mode, st, e);
            var missing := ActiveVersions(st.seen, e.templateId) == map[];
            && (!missing ==> r == st)
            && r.actions == st.actions + Only(missing, VersionRow, NextId(st.seen.versions.Keys, FirstVersionId(e)))
  {
  }

  lemma BindingPlans(mode: Mode, st: State, e: Expectation, versionId: string)
    ensures var r := BindingStep(mode, st, e, versionId);
            var missing := versionId !in GloballyBound(st.seen, e.templateId);
            && (!missing ==> r == st)
            && r.actions == st.actions + Only(missing, BindingRow, NextId(st.seen.bindings.Keys, BindingBase(e, versionId)))
  {
  }

  lemma ContractPlans(mode: Mode, st: State, e: Expectation)
    ensures var r := ContractStep(mode, st, e);
            var missing := ActiveContracts(st.seen, e) == map[];
            && (!missing ==> r == st)
            && r.actions == st.actions + Only(missing, ContractRow, NextId(st.seen.contracts.Keys, ContractBase(e)))
  {
  }

  lemma {:induction false} AudiencesIdle(cfg: Config, mode: Mode, st: State, ids: seq<string>)
    ensures |AudienceSteps(cfg, mode, st, ids).actions| >= |st.actions|
    ensures |AudienceSteps(cfg, mode, st, ids).actions| == |st.actions|
            <==> forall i :: 0 <= i < |ids| ==> SettledAudience(cfg, st.seen, ids[i])
    ensures |AudienceSteps(cfg, mode, st, ids).actions| == |st.actions| ==> AudienceSteps(cfg, mode, st, ids) == st
  {
    hide AudienceStep, SettledAudience;
    if ids != [] {
      var front, id := ids[..|ids| - 1], ids[|ids| - 1];
      assert forall i :: 0 <= i < |front| ==> front[i] == ids[i];
      AudiencesIdle(cfg, mode, st, front);
      AudienceIdle(cfg, mode, AudienceSteps(cfg, mode, st, front), id);
    }
  }

  lemma {:induction false} StepsIdle(cfg: Config, mode: Mode, st: State, es: seq<Expectation>)
    ensures |ExpectationSteps(cfg, mode, st, es).actions| >= |st.actions|
    ensures |ExpectationSteps(cfg, mode, st, es).actions| == |st.actions|
            <==> forall i :: 0 <= i < |es| ==> Settled(cfg, st.seen, es[i])
    ensures |ExpectationSteps(cfg, mode, st, es).actions| == |st.actions| ==> ExpectationSteps(cfg, mode, st, es) == st
  {
    hide ExpectationStep, Settled;
    if es != [] {
      var front, e := es[..|es| - 1], es[|es| - 1];
      assert forall i :: 0 <= i < |front| ==> front[i] == es[i];
      StepsIdle(cfg, mode, st, front);
      StepIdle(cfg, mode, ExpectationSteps(cfg, mode, st, front), e);
    }
  }

  /** A run, dry or not, plans nothing exactly when every audience and every expectation is settled. */
  lemma PlansNothingExactly(cfg: Config, mode: Mode, t: Tables)
    ensures Bootstrap(cfg, mode, t).actions == [] <==> AllSettled(cfg, t)
  {
    hide AudienceSteps, ExpectationSteps, SettledAudience, Settled;
    var open := Open(t);
    var a := AudienceSteps(cfg, mode, open, cfg.audiences);
    AudiencesIdle(cfg, mode, open, cfg.audiences);
    StepsIdle(cfg, mode, Flush(mode, a), cfg.expectations);
  }

  // ----- main results --------------------------------------------------------------------------------

  /** An audience, once there, stays; so do its phrases. */
  lemma SettledAudienceStays(cfg: Config, a: Tables, b: Tables, id: string)
    requires SettledAudience(cfg, a, id) && Extends(a, b)
    ensures SettledAudience(cfg, b, id)
  {
  }

  lemma {:induction false} PhrasesAdded(cfg: Config, mode: Mode, st: State, audienceId: string, phrases: seq<string>)
    requires mode.apply && phrases != []
    ensures HasActivePhrase(PutPhrases(cfg, mode, st, audienceId, phrases).db, cfg.phraseSet(audienceId))
  {
    var before := PutPhrases(cfg, mode, st, audienceId, phrases[..|phrases| - 1]);
    var id := PhraseId(cfg, audienceId, phrases[|phrases| - 1]);
    assert id in PutPhrases(cfg, mode, st, audienceId, phrases).db.phrases;
  }

  lemma AudienceSettles(cfg: Config, mode: Mode, st: State, id: string)
    requires mode.apply && Extends(st.seen, st.db) && !AudienceStep(cfg, mode, st, id).conflict
    ensures SettledAudience(cfg, AudienceStep(cfg, mode, st, id).db, id)
    ensures Extends(AudienceStep(cfg, mode, st, id).seen, AudienceStep(cfg, mode, st, id).db)
  {
    var present := if id in st.seen.audiences then st else PutAudience(cfg, mode, st, id);
    var r := AudienceStep(cfg, mode, st, id);
    PutPhrasesGrew(cfg, mode, present, id, cfg.phrases(id));
    AudienceGrew(cfg, mode, st, id);
    assert id in present.db.audiences;
    if HasActivePhrase(present.seen, cfg.phraseSet(id)) {
      var seen := present.seen.phrases;
      var k :| k in seen && seen[k].setId == cfg.phraseSet(id) && seen[k].isActive;
      assert k in r.db.phrases && r.db.phrases[k] == seen[k];
    } else if cfg.phrases(id) != [] {
      PhrasesAdded(cfg, mode, present, id, cfg.phrases(id));
    }
    SeenWithin(mode, st, r);
  }

  lemma SeenWithin(mode: Mode, a: State, b: State)
    requires mode.apply && Extends(a.seen, a.db) && Grew(mode, a, b) && !b.conflict
    requires mode.autoflush ==> b.seen == b.db || b.seen == a.seen
    ensures Extends(b.seen, b.db)
  {
  }

  lemma {:induction false} AudiencesSettle(cfg: Config, mode: Mode, st: State, ids: seq<string>, i: nat)
    requires mode.apply && st.seen == st.db && !AudienceSteps(cfg, mode, st, ids).conflict
    ensures var r := AudienceSteps(cfg, mode, st, ids);
            Extends(r.seen, r.db) && (i < |ids| ==> SettledAudience(cfg, r.db, ids[i]))
  {
    hide AudienceStep, SettledAudience, Extends;
    if ids == [] {
      SelfExtends(st.db);
    } else {
      var front, id := ids[..|ids| - 1], ids[|ids| - 1];
      var before := AudienceSteps(cfg, mode, st, front);
      AudienceGrew(cfg, mode, before, id);
      AudiencesSettle(cfg, mode, st, front, i);
      AudienceSettles(cfg, mode, before, id);
      if i < |front| {
        SettledAudienceStays(cfg, before.db, AudienceStep(cfg, mode, before, id).db, front[i]);
      }
    }
  }

  /** What a successful apply leaves for each expectation and each audience. */
  lemma ApplyResult(cfg: Config, mode: Mode, t: Tables, i: nat)
    requires mode.apply && PicksNewest(cfg.newest) && WellBound(t) && AllApart(cfg.expectations)
    requires !Bootstrap(cfg, mode, t).conflict
    ensures var r := Bootstrap(cfg, mode, t).db;
            && WellBound(r)
            && (i < |cfg.expectations| ==> StepResult(cfg, mode, t, r, cfg.expectations[i]))
            && (i < |cfg.audiences| ==> SettledAudience(cfg, r, cfg.audiences[i]))
  {
    var open := Open(t);
    var a := AudienceSteps(cfg, mode, open, cfg.audiences);
    var b := Flush(mode, a);
    var c := ExpectationSteps(cfg, mode, b, cfg.expectations);
    ExpectationsGrew(cfg, mode, b, cfg.expectations);
    AudiencesKeepRegistry(cfg, mode, open, cfg.audiences);
    hide AudienceSteps, ExpectationSteps, StepResult, SettledAudience, Extends, AllApart, PicksNewest;
    AudiencesSettle(cfg, mode, open, cfg.audiences, i);
    assert WellBound(b.db);
    hide WellBound;
    StepsSettle(cfg, mode, b, cfg.expectations, i);
    if i < |cfg.audiences| {
      SettledAudienceStays(cfg, a.db, c.db, cfg.audiences[i]);
    }
    if i < |cfg.expectations| {
      var e := cfg.expectations[i];
      SameRegistrySameFor(t, b.db, e);
      TrappedSame(t, b.db, e);
      StepResultFrom(cfg, mode, t, b.db, c.db, e);
    }
  }

  /**
   * After a successful apply, a second run (dry or not) plans nothing exactly when queries saw the added rows, or no
   * expectation was trapped: no inactive version held the id `{template}:v1` while an active one was missing.
   */
  lemma ApplyTwiceExactly(cfg: Config, mode: Mode, again: Mode, t: Tables)
    requires mode.apply && PicksNewest(cfg.newest) && WellBound(t) && AllApart(cfg.expectations)
    requires !Bootstrap(cfg, mode, t).conflict
    ensures Bootstrap(cfg, again, Bootstrap(cfg, mode, t).db).actions == []
            <==> mode.autoflush || forall i :: 0 <= i < |cfg.expectations| ==> !Trapped(t, cfg.expectations[i])
  {
    hide Bootstrap, SettledAudience, Settled, Unmissed, Trapped, ActiveVersions;
    var r := Bootstrap(cfg, mode, t).db;
    PlansNothingExactly(cfg, again, r);
    forall i: nat
      ensures i < |cfg.expectations| ==> StepResult(cfg, mode, t, r, cfg.expectations[i])
      ensures i < |cfg.audiences| ==> SettledAudience(cfg, r, cfg.audiences[i])
    {
      ApplyResult(cfg, mode, t, i);
    }
    assert forall i :: 0 <= i < |cfg.expectations| ==>
      (Settled(cfg, r, cfg.expectations[i]) <==> mode.autoflush || !Trapped(t, cfg.expectations[i]));
  }

  /** Under the same condition, expectation by expectation, the audit then finds nothing missing. */
  lemma AuditAfterApplyExactly(cfg: Config, mode: Mode, t: Tables, i: nat)
    requires mode.apply && PicksNewest(cfg.newest) && WellBound(t) && AllApart(cfg.expectations)
    requires !Bootstrap(cfg, mode, t).conflict && i < |cfg.expectations|
    ensures ReportsNothingMissing(Issues(cfg, Bootstrap(cfg, mode, t).db, cfg.expectations[i]))
            <==> mode.autoflush || !Trapped(t, cfg.expectations[i])
  {
    hide Bootstrap, Settled, Unmissed, Trapped, ActiveVersions, Issues, ReportsNothingMissing;
    ApplyResult(cfg, mode, t, i);
    AuditMissing(cfg, Bootstrap(cfg, mode, t).db, cfg.expectations[i]);
  }
}
