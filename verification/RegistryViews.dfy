/** What a step reads and writes: one expectation's rows, and nobody else's. */
module RegistryViews {
  import opened Prelude
  import opened Registry
  import opened RegistryIds
  import opened RegistryRuns

  /** The two tables answer every query made for `e` alike. */
  ghost predicate SameFor(a: Tables, b: Tables, e: Expectation) {
    && (e.templateId in a.templates <==> e.templateId in b.templates)
    && ActiveVersions(a, e.templateId) == ActiveVersions(b, e.templateId)
    && GloballyBound(a, e.templateId) == GloballyBound(b, e.templateId)
    && ActiveContracts(a, e) == ActiveContracts(b, e)
    && SameKeys(a.versions.Keys, b.versions.Keys, e.templateId)
    && SameKeys(a.bindings.Keys, b.bindings.Keys, BindingPrefix(e))
    && SameKeys(a.contracts.Keys, b.contracts.Keys, ContractPrefix(e))
  }

  /** Everything but the audiences and the phrases is the same. */
  ghost predicate SameRegistry(a: Tables, b: Tables) {
    a.templates == b.templates && a.versions == b.versions && a.bindings == b.bindings && a.contracts == b.contracts
  }

  lemma SameRegistrySameFor(a: Tables, b: Tables, e: Expectation)
    requires SameRegistry(a, b)
    ensures SameFor(a, b, e)
  {
  }

  // ----- writes --------------------------------------------------------------------

  ghost predicate NewVersionsFor(a: map<string, Version>, b: map<string, Version>, e: Expectation) {
    Within(a, b) && forall id :: id in b && id !in a ==>
      BeforeLastColon(id) == e.templateId && b[id].templateId == e.templateId
  }

  ghost predicate NewBindingsFor(a: map<string, Binding>, b: map<string, Binding>, e: Expectation) {
    Within(a, b) && forall id :: id in b && id !in a ==>
      BeforeLastColon(id) == BindingPrefix(e) && b[id].templateId == e.templateId
  }

  ghost predicate NewContractsFor(a: map<string, Contract>, b: map<string, Contract>, e: Expectation) {
    Within(a, b) && forall id :: id in b && id !in a ==>
      BeforeLastColon(id) == ContractPrefix(e) && b[id].artifactType == e.artifactType && b[id].audienceId == e.audienceId
  }

  ghost predicate NewTemplatesFor(a: map<string, Template>, b: map<string, Template>, e: Expectation) {
    Within(a, b) && forall id :: id in b && id !in a ==> id == e.templateId
  }

  /** `b` has the rows of `a`, and besides them only rows for `e`. */
  ghost predicate OnlyFor(a: Tables, b: Tables, e: Expectation) {
    && a.audiences == b.audiences && a.phrases == b.phrases
    && NewTemplatesFor(a.templates, b.templates, e)
    && NewVersionsFor(a.versions, b.versions, e)
    && NewBindingsFor(a.bindings, b.bindings, e)
    && NewContractsFor(a.contracts, b.contracts, e)
  }

  lemma OnlyForTransitive(a: Tables, b: Tables, c: Tables, e: Expectation)
    requires OnlyFor(a, b, e) && OnlyFor(b, c, e)
    ensures OnlyFor(a, c, e)
  {
  }

  /** Rows for `e` change no answer given for another expectation. */
  lemma OnlyForOthers(a: Tables, b: Tables, e: Expectation, d: Expectation)
    requires OnlyFor(a, b, e) && Apart(d, e)
    ensures SameFor(a, b, d)
  {
    VersionsForOthers(a, b, e, d);
    BindingsForOthers(a, b, e, d);
    ContractsForOthers(a, b, e, d);
  }

  lemma VersionsForOthers(a: Tables, b: Tables, e: Expectation, d: Expectation)
    requires NewVersionsFor(a.versions, b.versions, e) && d.templateId != e.templateId
    ensures ActiveVersions(a, d.templateId) == ActiveVersions(b, d.templateId)
    ensures SameKeys(a.versions.Keys, b.versions.Keys, d.templateId)
  {
  }

  lemma BindingsForOthers(a: Tables, b: Tables, e: Expectation, d: Expectation)
    requires NewBindingsFor(a.bindings, b.bindings, e) && d.templateId != e.templateId
    ensures GloballyBound(a, d.templateId) == GloballyBound(b, d.templateId)
    ensures SameKeys(a.bindings.Keys, b.bindings.Keys, BindingPrefix(d))
  {
    if BindingPrefix(d) == BindingPrefix(e) {
      BindingPrefixInjective(d, e);
    }
  }

  lemma ContractsForOthers(a: Tables, b: Tables, e: Expectation, d: Expectation)
    requires NewContractsFor(a.contracts, b.contracts, e) && ContractPrefix(d) != ContractPrefix(e)
    ensures ActiveContracts(a, d) == ActiveContracts(b, d)
    ensures SameKeys(a.contracts.Keys, b.contracts.Keys, ContractPrefix(d))
  {
  }

  lemma TemplateOnlyFor(mode: Mode, st: State, e: Expectation)
    requires !TemplateStep(mode, st, e).conflict
    ensures OnlyFor(st.db, TemplateStep(mode, st, e).db, e)
  {
  }

  lemma {:induction false} PutVersionOnlyFor(mode: Mode, st: State, e: Expectation, id: string)
    requires BeforeLastColon(id) == e.templateId && !PutVersion(mode, st, e, id).conflict
    ensures OnlyFor(st.db, PutVersion(mode, st, e, id).db, e)
  {
  }

  lemma VersionOnlyFor(mode: Mode, st: State, e: Expectation)
    requires !VersionStep(mode, st, e).conflict
    ensures OnlyFor(st.db, VersionStep(mode, st, e).db, e)
  {
    hide PutVersion, NextId, ActiveVersions;
    NextVersionId(st.seen.versions.Keys, e);
    var id := NextId(st.seen.versions.Keys, FirstVersionId(e));
    if VersionStep(mode, st, e) == PutVersion(mode, st, e, id) {
      PutVersionOnlyFor(mode, st, e, id);
    }
  }

  lemma BindingOnlyFor(mode: Mode, st: State, e: Expectation, versionId: string)
    requires !BindingStep(mode, st, e, versionId).conflict
    ensures OnlyFor(st.db, BindingStep(mode, st, e, versionId).db, e)
  {
    hide NextId, GloballyBound, BeforeLastColon, BindingPrefix;
    NextBindingId(st.seen.bindings.Keys, e, versionId);
  }

  lemma ContractOnlyFor(mode: Mode, st: State, e: Expectation)
    requires !ContractStep(mode, st, e).conflict
    ensures OnlyFor(st.db, ContractStep(mode, st, e).db, e)
  {
    hide NextId, ActiveContracts, BeforeLastColon, ContractPrefix;
    NextContractId(st.seen.contracts.Keys, e);
  }

  lemma StepOnlyFor(cfg: Config, mode: Mode, st: State, e: Expectation)
    requires !ExpectationStep(cfg, mode, st, e).conflict
    ensures OnlyFor(st.db, ExpectationStep(cfg, mode, st, e).db, e)
  {
    hide TemplateStep, VersionStep, BindingStep, ContractStep, BoundVersionId, OnlyFor, Extends;
    var a := TemplateStep(mode, st, e);
    var b := VersionStep(mode, a, e);
    var v := BoundVersionId(cfg, mode, a, e);
    var c := BindingStep(mode, b, e, v);
    VersionGrew(mode, a, e);
    BindingGrew(mode, b, e, v);
    ContractGrew(mode, c, e);
    TemplateOnlyFor(mode, st, e);
    VersionOnlyFor(mode, a, e);
    BindingOnlyFor(mode, b, e, v);
    ContractOnlyFor(mode, c, e);
    OnlyForTransitive(st.db, a.db, b.db, e);
    OnlyForTransitive(st.db, b.db, c.db, e);
    OnlyForTransitive(st.db, c.db, ContractStep(mode, c, e).db, e);
  }

  /** The steps for other expectations change no answer given for `d`. */
  lemma {:induction false} StepsForOthers(cfg: Config, mode: Mode, st: State, es: seq<Expectation>, d: Expectation)
    requires !ExpectationSteps(cfg, mode, st, es).conflict
    requires forall i :: 0 <= i < |es| ==> Apart(d, es[i])
    ensures SameFor(st.db, ExpectationSteps(cfg, mode, st, es).db, d)
  {
    hide SameFor, Apart, ExpectationStep, OnlyFor, Extends;
    if es == [] {
      SameRegistrySameFor(st.db, st.db, d);
    } else {
      var front, e := es[..|es| - 1], es[|es| - 1];
      var before := ExpectationSteps(cfg, mode, st, front);
      ExpectationGrew(cfg, mode, before, e);
      StepsForOthers(cfg, mode, st, front, d);
      StepOnlyFor(cfg, mode, before, e);
      OnlyForOthers(before.db, ExpectationStep(cfg, mode, before, e).db, e, d);
      SameForTransitive(st.db, before.db, ExpectationStep(cfg, mode, before, e).db, d);
    }
  }

  lemma SameForTransitive(a: Tables, b: Tables, c: Tables, e: Expectation)
    requires SameFor(a, b, e) && SameFor(b, c, e)
    ensures SameFor(a, c, e)
  {
  }

  /** Throughout a run, what is seen of an expectation not yet reached is what is there. */
  lemma {:induction false} SeenIsThere(cfg: Config, mode: Mode, st: State, es: seq<Expectation>, d: Expectation)
    requires !ExpectationSteps(cfg, mode, st, es).conflict && st.seen == st.db
    requires forall i :: 0 <= i < |es| ==> Apart(d, es[i])
    ensures var r := ExpectationSteps(cfg, mode, st, es);
            && (mode.autoflush ==> r.seen == r.db)
            && SameFor(r.seen, r.db, d) && SameFor(st.db, r.db, d) && SameFor(st.db, r.seen, d)
  {
    hide Apart, ExpectationStep, ExpectationSteps, Extends;
    ExpectationsGrew(cfg, mode, st, es);
    StepsForOthers(cfg, mode, st, es, d);
    var r := ExpectationSteps(cfg, mode, st, es);
    SameRegistrySameFor(r.db, r.db, d);
    SameRegistrySameFor(st.db, st.db, d);
  }

  /** The audience phase touches audiences and phrases only. */
  lemma {:induction false} PutPhrasesKeepRegistry(
    cfg: Config, mode: Mode, st: State, audienceId: string, phrases: seq<string>)
    ensures SameRegistry(st.db, PutPhrases(cfg, mode, st, audienceId, phrases).db)
    ensures SameRegistry(st.db, st.seen) ==> SameRegistry(st.db, PutPhrases(cfg, mode, st, audienceId, phrases).seen)
  {
    if phrases != [] {
      PutPhrasesKeepRegistry(cfg, mode, st, audienceId, phrases[..|phrases| - 1]);
    }
  }

  lemma {:induction false} AudiencesKeepRegistry(cfg: Config, mode: Mode, st: State, ids: seq<string>)
    requires SameRegistry(st.db, st.seen)
    ensures SameRegistry(st.db, AudienceSteps(cfg, mode, st, ids).db)
    ensures SameRegistry(st.db, AudienceSteps(cfg, mode, st, ids).seen)
  {
    if ids != [] {
      var front, id := ids[..|ids| - 1], ids[|ids| - 1];
      AudiencesKeepRegistry(cfg, mode, st, front);
      hide HasActivePhrase, PutPhrases;
      var before := AudienceSteps(cfg, mode, st, front);
      var present := if id in before.seen.audiences then before else PutAudience(cfg, mode, before, id);
      assert SameRegistry(before.db, present.db) && SameRegistry(before.db, present.seen);
      PutPhrasesKeepRegistry(cfg, mode, present, id, cfg.phrases(id));
    }
  }
}
