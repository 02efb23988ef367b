/** From an empty registry an apply succeeds, and the audit of what it leaves reports no issue at all. */
module RegistryFresh {
  import opened Prelude
  import opened Registry
  import opened RegistryIds
  import opened RegistryRuns
  import opened RegistryViews
  import opened RegistryRepair
  import opened RegistryPlans
  import opened RegistryConflicts

  ghost predicate GoodExpectation(cfg: Config, e: Expectation) {
    && e.audienceId in cfg.audiences
    && cfg.phraseSet(e.audienceId) != ""
    && e.minForbiddenClaims <= 3
    && (e.requiresPhrases ==> cfg.phrases(e.audienceId) != [])
  }

  /** What the program's constants satisfy. */
  ghost predicate GoodConfig(cfg: Config) {
    && PicksNewest(cfg.newest)
    && ToldApart(cfg)
    && forall i :: 0 <= i < |cfg.expectations| ==> GoodExpectation(cfg, cfg.expectations[i])
  }

  /** Audience rows are bootstrap rows. */
  ghost predicate AudienceRows(cfg: Config, t: Tables) {
    forall k :: k in t.audiences ==> t.audiences[k] == Audience(k, Some(cfg.phraseSet(k)), true)
  }

  // ----- the expectation phase --------------------------------------------------------------

  /** Every row is the bootstrap row of one of the expectations. */
  ghost predicate RowsOf(t: Tables, es: seq<Expectation>) {
    && (forall k :: k in t.templates ==> exists i :: 0 <= i < |es| && TemplateOf(t, k, es[i]))
    && (forall k :: k in t.versions ==> exists i :: 0 <= i < |es| && VersionOf(t, k, es[i]))
    && (forall k :: k in t.bindings ==> exists i :: 0 <= i < |es| && BeforeLastColon(k) == BindingPrefix(es[i]))
    && (forall k :: k in t.contracts ==> exists i :: 0 <= i < |es| && ContractOf(t, k, es[i]))
  }

  ghost predicate TemplateOf(t: Tables, k: string, e: Expectation)
    requires k in t.templates
  {
    k == e.templateId && t.templates[k] == Template(k, e.artifactType, e.stage, Some(e.audienceId))
  }

  ghost predicate VersionOf(t: Tables, k: string, e: Expectation)
    requires k in t.versions
  {
    k == FirstVersionId(e) && t.versions[k].templateId == e.templateId && t.versions[k].version == "v1"
  }

  ghost predicate ContractOf(t: Tables, k: string, e: Expectation)
    requires k in t.contracts
  {
    var c := t.contracts[k];
    && k == ContractBase(e) && c.artifactType == e.artifactType && c.audienceId == e.audienceId
    && c.requiredPaths == e.requiredPaths && c.forbiddenClaims == ClaimCount(e)
  }

  /** The three ids `e` gets in an empty registry are still free. */
  ghost predicate Unclaimed(t: Tables, e: Expectation) {
    e.templateId !in t.templates && FirstVersionId(e) !in t.versions && ContractBase(e) !in t.contracts
  }

  lemma RowsOfOthers(t: Tables, es: seq<Expectation>, e: Expectation)
    requires RowsOf(t, es) && forall i :: 0 <= i < |es| ==> Apart(es[i], e)
    ensures Unclaimed(t, e)
  {
    FirstVersionIdForm(e);
    ContractBaseForm(e);
    hide FirstVersionId, ContractBase, BeforeLastColon, AfterLastColon;
    if FirstVersionId(e) in t.versions {
      var i :| 0 <= i < |es| && VersionOf(t, FirstVersionId(e), es[i]);
      FirstVersionIdForm(es[i]);
    }
    if ContractBase(e) in t.contracts {
      var i :| 0 <= i < |es| && ContractOf(t, ContractBase(e), es[i]);
      ContractBaseForm(es[i]);
    }
  }

  /** What such a step adds. */
  ghost predicate StepAdds(a: Tables, b: Tables, e: Expectation) {
    && b.audiences == a.audiences && b.phrases == a.phrases
    && (forall k :: k in b.templates ==> (k in a.templates && b.templates[k] == a.templates[k]) || TemplateOf(b, k, e))
    && (forall k :: k in b.versions ==> (k in a.versions && b.versions[k] == a.versions[k]) || VersionOf(b, k, e))
    && (forall k :: k in b.bindings ==> k in a.bindings || BeforeLastColon(k) == BindingPrefix(e))
    && (forall k :: k in b.contracts ==> (k in a.contracts && b.contracts[k] == a.contracts[k]) || ContractOf(b, k, e))
  }

  lemma StepFits(cfg: Config, mode: Mode, st: State, e: Expectation)
    requires mode.apply && Unclaimed(st.db, e)
    requires SameFor(st.seen, st.db, e) && Sane(mode, st)
    ensures StepAdds(st.db, ExpectationStep(cfg, mode, st, e).db, e)
  {
    var a := TemplateStep(mode, st, e);
    var b := VersionStep(mode, a, e);
    var v := BoundVersionId(cfg, mode, a, e);
    var c := BindingStep(mode, b, e, v);
    hide NextId, FirstVersionId, ContractBase, BeforeLastColon, ActiveVersions, GloballyBound, ActiveContracts, SameKeys;
    hide TemplateStep, VersionStep, BindingStep, ContractStep, BoundVersionId, BindingPrefix, ContractPrefix, ClaimCount;
    TemplateTouches(mode, st, e);
    TemplateFits(mode, st, e);
    VersionTouches(mode, a, e);
    VersionFits(mode, a, e);
    BindingTouches(mode, b, e, v);
    BindingFits(mode, b, e, v);
    ContractTouches(mode, c, e);
    ContractFits(mode, c, e);
  }

  lemma TemplateFits(mode: Mode, st: State, e: Expectation)
    requires mode.apply && e.templateId !in st.seen.templates
    ensures var r := TemplateStep(mode, st, e);
            && r.db.audiences == st.db.audiences && r.db.phrases == st.db.phrases
            && r.db.templates
               == st.db.templates[e.templateId := Template(e.templateId, e.artifactType, e.stage, Some(e.audienceId))]
  {
  }

  lemma VersionFits(mode: Mode, st: State, e: Expectation)
    requires FirstVersionId(e) !in st.db.versions && SameKeys(st.seen.versions.Keys, st.db.versions.Keys, e.templateId)
    ensures var r := VersionStep(mode, st, e);
            && r.db.audiences == st.db.audiences && r.db.phrases == st.db.phrases
            && forall k :: k in r.db.versions ==>
                 (k in st.db.versions && r.db.versions[k] == st.db.versions[k]) || VersionOf(r.db, k, e)
  {
    NextVersionId(st.seen.versions.Keys, e);
    FirstVersionIdForm(e);
    hide NextId, FirstVersionId, BeforeLastColon, AfterLastColon, ActiveVersions;
  }

  lemma BindingFits(mode: Mode, st: State, e: Expectation, versionId: string)
    ensures var r := BindingStep(mode, st, e, versionId);
            && r.db.audiences == st.db.audiences && r.db.phrases == st.db.phrases
            && forall k :: k in r.db.bindings ==> k in st.db.bindings || BeforeLastColon(k) == BindingPrefix(e)
  {
    NextBindingId(st.seen.bindings.Keys, e, versionId);
    hide NextId, BeforeLastColon, GloballyBound;
  }

  lemma ContractFits(mode: Mode, st: State, e: Expectation)
    requires ContractBase(e) !in st.db.contracts
    requires SameKeys(st.seen.contracts.Keys, st.db.contracts.Keys, ContractPrefix(e))
    ensures var r := ContractStep(mode, st, e);
            && r.db.audiences == st.db.audiences && r.db.phrases == st.db.phrases
            && forall k :: k in r.db.contracts ==>
                 (k in st.db.contracts && r.db.contracts[k] == st.db.contracts[k]) || ContractOf(r.db, k, e)
  {
    NextContractId(st.seen.contracts.Keys, e);
    ContractBaseForm(e);
    hide NextId, ContractBase, BeforeLastColon, ActiveContracts;
  }

  lemma RowsOneMore(a: Tables, b: Tables, front: seq<Expectation>, e: Expectation)
    requires RowsOf(a, front) && StepAdds(a, b, e)
    ensures RowsOf(b, front + [e])
  {
    hide FirstVersionId, ContractBase, BeforeLastColon, ClaimCount;
    var es := front + [e];
    assert es[|front|] == e;
    assert forall i :: 0 <= i < |front| ==> es[i] == front[i];
    forall k | k in b.templates
      ensures exists i :: 0 <= i < |es| && TemplateOf(b, k, es[i])
    {
      if k in a.templates && b.templates[k] == a.templates[k] {
        var i :| 0 <= i < |front| && TemplateOf(a, k, front[i]);
        assert TemplateOf(b, k, es[i]);
      } else {
        assert TemplateOf(b, k, es[|front|]);
      }
    }
    forall k | k in b.versions
      ensures exists i :: 0 <= i < |es| && VersionOf(b, k, es[i])
    {
      if k in a.versions && b.versions[k] == a.versions[k] {
        var i :| 0 <= i < |front| && VersionOf(a, k, front[i]);
        assert VersionOf(b, k, es[i]);
      } else {
        assert VersionOf(b, k, es[|front|]);
      }
    }
    forall k | k in b.bindings
      ensures exists i :: 0 <= i < |es| && BeforeLastColon(k) == BindingPrefix(es[i])
    {
      if k in a.bindings {
        var i :| 0 <= i < |front| && BeforeLastColon(k) == BindingPrefix(front[i]);
        assert BeforeLastColon(k) == BindingPrefix(es[i]);
      } else {
        assert BeforeLastColon(k) == BindingPrefix(es[|front|]);
      }
    }
    forall k | k in b.contracts
      ensures exists i :: 0 <= i < |es| && ContractOf(b, k, es[i])
    {
      if k in a.contracts && b.contracts[k] == a.contracts[k] {
        var i :| 0 <= i < |front| && ContractOf(a, k, front[i]);
        assert ContractOf(b, k, es[i]);
      } else {
        assert ContractOf(b, k, es[|front|]);
      }
    }
  }

  lemma {:induction false} StepsFit(cfg: Config, mode: Mode, st: State, es: seq<Expectation>)
    requires mode.apply && st.seen == st.db && RowsOf(st.db, []) && AllApart(es)
    requires !ExpectationSteps(cfg, mode, st, es).conflict
    ensures var r := ExpectationSteps(cfg, mode, st, es);
            RowsOf(r.db, es) && r.db.audiences == st.db.audiences && r.db.phrases == st.db.phrases
  {
    hide RowsOf, Apart, AllApart, ExpectationStep, Unclaimed, Extends, SameFor;
    if es != [] {
      var front, e := es[..|es| - 1], es[|es| - 1];
      var before := ExpectationSteps(cfg, mode, st, front);
      ApartFromLast(es);
      SplitLast(es);
      ExpectationGrew(cfg, mode, before, e);
      StepsFit(cfg, mode, st, front);
      SeenIsThere(cfg, mode, st, front, e);
      RowsOfOthers(before.db, front, e);
      StepFits(cfg, mode, before, e);
      RowsOneMore(before.db, ExpectationStep(cfg, mode, before, e).db, front, e);
    }
  }

  // ----- the audit of the result -----------------------------------------------------------------

  lemma TemplateClean(t: Tables, es: seq<Expectation>, i: nat)
    requires RowsOf(t, es) && AllApart(es) && i < |es| && es[i].templateId in t.templates
    ensures TemplateIssues(t, es[i]) == []
  {
  }

  lemma ContractClean(cfg: Config, t: Tables, es: seq<Expectation>, i: nat)
    requires PicksNewest(cfg.newest) && RowsOf(t, es) && AllApart(es) && i < |es|
    requires es[i].minForbiddenClaims <= 3 && ActiveContracts(t, es[i]) != map[]
    ensures ContractIssues(cfg, t, es[i]) == []
  {
    var id := cfg.newest(ActiveContracts(t, es[i]));
    assert id in ActiveContracts(t, es[i]);
    var j :| 0 <= j < |es| && ContractOf(t, id, es[j]);
    assert ContractPrefix(es[j]) == ContractPrefix(es[i]);
    assert j == i;
  }

  /** From an empty registry every apply succeeds, and the audit then reports no issue for any expectation. */
  lemma FreshRegistryPasses(cfg: Config, mode: Mode, i: nat)
    requires mode.apply && GoodConfig(cfg) && i < |cfg.expectations|
    ensures var r := Bootstrap(cfg, mode, EMPTY);
            !r.conflict && Issues(cfg, r.db, cfg.expectations[i]) == []
  {
    FreshRun(cfg, mode);
    hide Bootstrap, RowsOf, AllApart, Settled, HasActivePhrase, ActiveVersions, GloballyBound, ActiveContracts, PicksNewest;
    hide NoDuplicates, TemplateIssues, VersionIssues, ContractIssues, AudienceIssues, PhraseIssues;
    var e := cfg.expectations[i];
    var r := Bootstrap(cfg, mode, EMPTY).db;
    assert GoodExpectation(cfg, e);
    var n :| 0 <= n < |cfg.audiences| && cfg.audiences[n] == e.audienceId;
    ApplyResult(cfg, mode, EMPTY, i);
    ApplyResult(cfg, mode, EMPTY, n);
    assert Unmissed(r, e);
    TemplateClean(r, cfg.expectations, i);
    ContractClean(cfg, r, cfg.expectations, i);
    VersionClean(r, e);
    AudienceClean(cfg, r, e);
  }

  lemma VersionClean(t: Tables, e: Expectation)
    requires Unmissed(t, e)
    ensures VersionIssues(t, e) == []
  {
  }

  lemma AudienceClean(cfg: Config, t: Tables, e: Expectation)
    requires GoodExpectation(cfg, e) && SettledAudience(cfg, t, e.audienceId)
    requires t.audiences[e.audienceId] == Audience(e.audienceId, Some(cfg.phraseSet(e.audienceId)), true)
    ensures AudienceIssues(t, e) == [] && PhraseIssues(t, e) == []
  {
  }

  lemma NothingTaken(cfg: Config, ids: seq<string>, es: seq<Expectation>)
    ensures !AnyAudienceClash(cfg, EMPTY, ids) && !AnyClash(EMPTY, es)
  {
    hide NextVersionText, NextContractText, PhraseIds;
  }

  lemma GrownFromEmpty(cfg: Config, t: Tables, ids: seq<string>, phraseIds: seq<string>)
    requires GrewBy(cfg, EMPTY, t, ids, phraseIds)
    ensures AudienceRows(cfg, t)
  {
  }

  lemma NoRows(t: Tables)
    requires SameRegistry(EMPTY, t)
    ensures RowsOf(t, [])
  {
  }

  /** From an empty registry every apply succeeds, and leaves bootstrap rows only. */
  lemma FreshRun(cfg: Config, mode: Mode)
    requires mode.apply && GoodConfig(cfg)
    ensures var r := Bootstrap(cfg, mode, EMPTY);
            !r.conflict && RowsOf(r.db, cfg.expectations) && AudienceRows(cfg, r.db)
  {
    hide AudienceSteps, ExpectationSteps, AllApart, NoDuplicates, Separate, Extends;
    hide AnyClash, AnyAudienceClash, GrewBy, RowsOf, AudienceRows, PicksNewest, GoodExpectation;
    var b := Flush(mode, AudienceSteps(cfg, mode, Open(EMPTY), cfg.audiences));
    ApplyFailsExactly(cfg, mode, EMPTY);
    NothingTaken(cfg, cfg.audiences, cfg.expectations);
    AudiencesConflict(cfg, mode, EMPTY, cfg.audiences);
    AudiencesKeepRegistry(cfg, mode, Open(EMPTY), cfg.audiences);
    GrownFromEmpty(cfg, b.db, cfg.audiences, AllPhraseIds(cfg, cfg.audiences));
    NoRows(b.db);
    StepsFit(cfg, mode, b, cfg.expectations);
    SameAudiences(cfg, b.db, Bootstrap(cfg, mode, EMPTY).db);
  }

  lemma SameAudiences(cfg: Config, a: Tables, b: Tables)
    requires a.audiences == b.audiences && AudienceRows(cfg, a)
    ensures AudienceRows(cfg, b)
  {
  }
}
