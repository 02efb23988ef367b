/** What a run plans, read off the tables it starts from; hence a dry run foretells an apply. */
module RegistryPlans {
  import opened Prelude
  import opened Registry
  import opened RegistryIds
  import opened RegistryRuns
  import opened RegistryViews
  import opened RegistryRepair

  // ----- the plan for one expectation ---------------------------------------------

  /** The version the binding is looked up for: an added one if queries will see it, and `:v1` if they will not. */
  ghost function VersionToBind(cfg: Config, mode: Mode, t: Tables, e: Expectation): string {
    var active := ActiveVersions(t, e.templateId);
    if active != map[] then cfg.newest(active)
    else if mode.apply && mode.autoflush then NextId(t.versions.Keys, FirstVersionId(e))
    else FirstVersionId(e)
  }

  ghost function VersionPlan(t: Tables, e: Expectation): seq<Action> {
    Only(ActiveVersions(t, e.templateId) == map[], VersionRow, NextId(t.versions.Keys, FirstVersionId(e)))
  }

  ghost function BindingPlan(t: Tables, e: Expectation, versionId: string): seq<Action> {
    Only(versionId !in GloballyBound(t, e.templateId), BindingRow, NextId(t.bindings.Keys, BindingBase(e, versionId)))
  }

  ghost function ContractPlan(t: Tables, e: Expectation): seq<Action> {
    Only(ActiveContracts(t, e) == map[], ContractRow, NextId(t.contracts.Keys, ContractBase(e)))
  }

  /** The actions recorded for `e` when the tables are seen as `t`. */
  ghost function PlanFor(cfg: Config, mode: Mode, t: Tables, e: Expectation): seq<Action> {
    Only(e.templateId !in t.templates, TemplateRow, e.templateId)
    + VersionPlan(t, e)
    + BindingPlan(t, e, VersionToBind(cfg, mode, t, e))
    + ContractPlan(t, e)
  }

  /** The plan depends on nothing but the answers given for `e`. */
  lemma PlanSame(cfg: Config, mode: Mode, a: Tables, b: Tables, e: Expectation)
    requires SameFor(a, b, e)
    ensures PlanFor(cfg, mode, a, e) == PlanFor(cfg, mode, b, e)
  {
    FirstVersionIdForm(e);
    ContractBaseForm(e);
    NextIdAgrees(a.versions.Keys, b.versions.Keys, e.templateId, "v1");
    NextIdAgrees(a.contracts.Keys, b.contracts.Keys, ContractPrefix(e), "v1");
    var v := VersionToBind(cfg, mode, a, e);
    BindingBaseForm(e, v);
    NextIdAgrees(a.bindings.Keys, b.bindings.Keys, BindingPrefix(e), AfterLastColon(v));
    hide NextId, ActiveVersions, GloballyBound, ActiveContracts, SameKeys, FirstVersionId, ContractBase, BindingBase;
  }

  lemma BindsAsPlanned(cfg: Config, mode: Mode, st: State, e: Expectation)
    requires Sane(mode, st)
    ensures BoundVersionId(cfg, mode, st, e) == VersionToBind(cfg, mode, st.seen, e)
  {
    NextVersionId(st.seen.versions.Keys, e);
    hide NextId, ActiveVersions, FirstVersionId, BeforeLastColon;
  }

  lemma StepPlans(cfg: Config, mode: Mode, st: State, e: Expectation)
    requires Sane(mode, st)
    ensures ExpectationStep(cfg, mode, st, e).actions == st.actions + PlanFor(cfg, mode, st.seen, e)
  {
    var a := TemplateStep(mode, st, e);
    var b := VersionStep(mode, a, e);
    var v := BoundVersionId(cfg, mode, a, e);
    var c := BindingStep(mode, b, e, v);
    var d := ContractStep(mode, c, e);
    TemplateTouches(mode, st, e);
    VersionTouches(mode, a, e);
    BindingTouches(mode, b, e, v);
    assert ActiveVersions(a.seen, e.templateId) == ActiveVersions(st.seen, e.templateId);
    assert GloballyBound(b.seen, e.templateId) == GloballyBound(st.seen, e.templateId);
    assert ActiveContracts(c.seen, e) == ActiveContracts(st.seen, e);
    BindsAsPlanned(cfg, mode, a, e);
    TemplatePlans(mode, st, e);
    VersionPlans(mode, a, e);
    BindingPlans(mode, b, e, v);
    ContractPlans(mode, c, e);
    hide NextId, ActiveVersions, GloballyBound, ActiveContracts, BoundVersionId, Only;
    hide TemplateStep, VersionStep, BindingStep, ContractStep;
    Regroup(st.actions, Only(e.templateId !in st.seen.templates, TemplateRow, e.templateId), VersionPlan(st.seen, e),
            BindingPlan(st.seen, e, v), ContractPlan(st.seen, e));
  }

  lemma Regroup<T>(s: seq<T>, a: seq<T>, b: seq<T>, c: seq<T>, d: seq<T>)
    ensures s + a + b + c + d == s + (a + b + c + d)
  {
  }

  ghost function PlanAll(cfg: Config, mode: Mode, t: Tables, es: seq<Expectation>): seq<Action> {
    if es == [] then [] else PlanAll(cfg, mode, t, es[..|es| - 1]) + PlanFor(cfg, mode, t, es[|es| - 1])
  }

  lemma {:induction false} StepsPlan(cfg: Config, mode: Mode, st: State, es: seq<Expectation>)
    requires st.seen == st.db && AllApart(es) && !ExpectationSteps(cfg, mode, st, es).conflict
    ensures ExpectationSteps(cfg, mode, st, es).actions == st.actions + PlanAll(cfg, mode, st.seen, es)
  {
    hide PlanFor, ExpectationStep, SameFor, Apart, AllApart, Extends;
    if es != [] {
      var front, e := es[..|es| - 1], es[|es| - 1];
      var before := ExpectationSteps(cfg, mode, st, front);
      ApartFromLast(es);
      ExpectationGrew(cfg, mode, before, e);
      StepsPlan(cfg, mode, st, front);
      SeenIsThere(cfg, mode, st, front, e);
      StepPlans(cfg, mode, before, e);
      PlanSame(cfg, mode, st.db, before.seen, e);
      ConcatAssociative(st.actions, PlanAll(cfg, mode, st.seen, front), PlanFor(cfg, mode, st.seen, e));
    }
  }

  // ----- the plan for one audience -------------------------------------------------------

  ghost function PhrasePlan(cfg: Config, id: string, phrases: seq<string>): seq<Action> {
    if phrases == [] then []
    else PhrasePlan(cfg, id, phrases[..|phrases| - 1]) + [Action(PhraseRow, PhraseId(cfg, id, phrases[|phrases| - 1]))]
  }

  ghost function AudiencePlan(cfg: Config, t: Tables, id: string): seq<Action> {
    Only(id !in t.audiences, AudienceRow, id)
    + if HasActivePhrase(t, cfg.phraseSet(id)) then [] else PhrasePlan(cfg, id, cfg.phrases(id))
  }

  ghost function AudiencePlans(cfg: Config, t: Tables, ids: seq<string>): seq<Action> {
    if ids == [] then [] else AudiencePlans(cfg, t, ids[..|ids| - 1]) + AudiencePlan(cfg, t, ids[|ids| - 1])
  }

  /** Audiences are listed once, and no two of them share a phrase set. */
  ghost predicate Separate(cfg: Config, ids: seq<string>) {
    forall i, j :: 0 <= i < j < |ids| ==> ids[i] != ids[j] && cfg.phraseSet(ids[i]) != cfg.phraseSet(ids[j])
  }

  ghost predicate SeparateAudiences(cfg: Config) {
    Separate(cfg, cfg.audiences)
  }

  /** The tables answer alike for one audience. */
  ghost predicate SameAudience(cfg: Config, a: Tables, b: Tables, id: string) {
    && (id in a.audiences <==> id in b.audiences)
    && (HasActivePhrase(a, cfg.phraseSet(id)) <==> HasActivePhrase(b, cfg.phraseSet(id)))
  }

  lemma {:induction false} PhrasesPlan(cfg: Config, mode: Mode, st: State, id: string, phrases: seq<string>)
    ensures PutPhrases(cfg, mode, st, id, phrases).actions == st.actions + PhrasePlan(cfg, id, phrases)
  {
    if phrases != [] {
      PhrasesPlan(cfg, mode, st, id, phrases[..|phrases| - 1]);
      ConcatAssociative(st.actions, PhrasePlan(cfg, id, phrases[..|phrases| - 1]),
                        [Action(PhraseRow, PhraseId(cfg, id, phrases[|phrases| - 1]))]);
    }
  }

  lemma AudienceStepPlans(cfg: Config, mode: Mode, st: State, id: string)
    requires Sane(mode, st)
    ensures AudienceStep(cfg, mode, st, id).actions == st.actions + AudiencePlan(cfg, st.seen, id)
  {
    var present := if id in st.seen.audiences then st else PutAudience(cfg, mode, st, id);
    assert present.actions == st.actions + Only(id !in st.seen.audiences, AudienceRow, id);
    assert present.seen.phrases == st.seen.phrases;
    PhrasesPlan(cfg, mode, present, id, cfg.phrases(id));
  }

  /** What one audience's step adds to the tables: its own row, and phrases of its own set. */
  ghost predicate AudienceRowsOnly(a: Tables, b: Tables, id: string, setId: string) {
    && Within(a.audiences, b.audiences) && Within(a.phrases, b.phrases)
    && (forall k :: k in b.audiences && k !in a.audiences ==> k == id)
    && (forall k :: k in b.phrases && k !in a.phrases ==> b.phrases[k].setId == setId)
  }

  lemma {:induction false} PhraseRowsOnly(cfg: Config, mode: Mode, st: State, id: string, phrases: seq<string>)
    requires !PutPhrases(cfg, mode, st, id, phrases).conflict
    ensures AudienceRowsOnly(st.db, PutPhrases(cfg, mode, st, id, phrases).db, id, cfg.phraseSet(id))
    ensures PutPhrases(cfg, mode, st, id, phrases).db.audiences == st.db.audiences
  {
    if phrases != [] {
      var front := phrases[..|phrases| - 1];
      PutPhraseGrew(cfg, mode, PutPhrases(cfg, mode, st, id, front), id, phrases[|phrases| - 1]);
      PhraseRowsOnly(cfg, mode, st, id, front);
    }
  }

  lemma AudienceStepRows(cfg: Config, mode: Mode, st: State, id: string)
    requires !AudienceStep(cfg, mode, st, id).conflict
    ensures AudienceRowsOnly(st.db, AudienceStep(cfg, mode, st, id).db, id, cfg.phraseSet(id))
  {
    var present := if id in st.seen.audiences then st else PutAudience(cfg, mode, st, id);
    PutPhrasesGrew(cfg, mode, present, id, cfg.phrases(id));
    if !HasActivePhrase(present.seen, cfg.phraseSet(id)) {
      PhraseRowsOnly(cfg, mode, present, id, cfg.phrases(id));
    }
  }

  lemma AudienceRowsForOthers(cfg: Config, a: Tables, b: Tables, id: string, other: string)
    requires AudienceRowsOnly(a, b, id, cfg.phraseSet(id))
    requires other != id && cfg.phraseSet(other) != cfg.phraseSet(id)
    ensures SameAudience(cfg, a, b, other)
  {
  }

  /** The steps for other audiences change no answer given for this one. */
  lemma {:induction false} AudiencesForOthers(cfg: Config, mode: Mode, st: State, ids: seq<string>, other: string)
    requires !AudienceSteps(cfg, mode, st, ids).conflict
    requires forall i :: 0 <= i < |ids| ==> other != ids[i] && cfg.phraseSet(other) != cfg.phraseSet(ids[i])
    ensures SameAudience(cfg, st.db, AudienceSteps(cfg, mode, st, ids).db, other)
  {
    hide AudienceStep, HasActivePhrase, Extends, AudienceRowsOnly;
    if ids != [] {
      var front, id := ids[..|ids| - 1], ids[|ids| - 1];
      var before := AudienceSteps(cfg, mode, st, front);
      AudienceGrew(cfg, mode, before, id);
      AudiencesForOthers(cfg, mode, st, front, other);
      AudienceStepRows(cfg, mode, before, id);
      AudienceRowsForOthers(cfg, before.db, AudienceStep(cfg, mode, before, id).db, id, other);
    }
  }

  lemma {:induction false} AudiencesPlan(cfg: Config, mode: Mode, st: State, ids: seq<string>)
    requires st.seen == st.db && !AudienceSteps(cfg, mode, st, ids).conflict
    requires Separate(cfg, ids)
    ensures AudienceSteps(cfg, mode, st, ids).actions == st.actions + AudiencePlans(cfg, st.seen, ids)
  {
    hide AudienceStep, HasActivePhrase, Extends;
    if ids != [] {
      var front, id := ids[..|ids| - 1], ids[|ids| - 1];
      var before := AudienceSteps(cfg, mode, st, front);
      assert forall i :: 0 <= i < |front| ==> front[i] == ids[i];
      AudienceGrew(cfg, mode, before, id);
      AudiencesGrew(cfg, mode, st, front);
      AudiencesPlan(cfg, mode, st, front);
      AudiencesForOthers(cfg, mode, st, front, id);
      AudienceStepPlans(cfg, mode, before, id);
      assert SameAudience(cfg, st.seen, before.seen, id);
      AudiencePlanSame(cfg, st.seen, before.seen, id);
      ConcatAssociative(st.actions, AudiencePlans(cfg, st.seen, front), AudiencePlan(cfg, st.seen, id));
    }
  }

  lemma AudiencePlanSame(cfg: Config, a: Tables, b: Tables, id: string)
    requires SameAudience(cfg, a, b, id)
    ensures AudiencePlan(cfg, a, id) == AudiencePlan(cfg, b, id)
  {
  }

  // ----- main result --------------------------------------------------------------------------

  /** A run plans what its starting tables call for. */
  lemma {:induction false} BootstrapPlans(cfg: Config, mode: Mode, t: Tables)
    requires AllApart(cfg.expectations) && SeparateAudiences(cfg) && !Bootstrap(cfg, mode, t).conflict
    ensures Bootstrap(cfg, mode, t).actions
         == AudiencePlans(cfg, t, cfg.audiences) + PlanAll(cfg, mode, t, cfg.expectations)
  {
    var b := Flush(mode, AudienceSteps(cfg, mode, Open(t), cfg.audiences));
    ExpectationsGrew(cfg, mode, b, cfg.expectations);
    hide AudienceSteps, ExpectationSteps, Extends, AllApart, SameRegistry;
    AfterAudiences(cfg, mode, t);
    StepsPlan(cfg, mode, b, cfg.expectations);
    PlanAllSame(cfg, mode, t, b.seen, cfg.expectations);
  }

  /** Between the two phases everything is flushed, and only audiences and phrases have been added. */
  lemma {:induction false} AfterAudiences(cfg: Config, mode: Mode, t: Tables)
    requires SeparateAudiences(cfg)
    ensures var b := Flush(mode, AudienceSteps(cfg, mode, Open(t), cfg.audiences));
            && b.seen == b.db && SameRegistry(t, b.db)
            && (!b.conflict ==> b.actions == AudiencePlans(cfg, t, cfg.audiences))
  {
    var open := Open(t);
    var a := AudienceSteps(cfg, mode, open, cfg.audiences);
    AudiencesGrew(cfg, mode, open, cfg.audiences);
    AudiencesKeepRegistry(cfg, mode, open, cfg.audiences);
    hide AudienceSteps, Extends;
    if !a.conflict {
      AudiencesPlan(cfg, mode, open, cfg.audiences);
      assert [] + AudiencePlans(cfg, t, cfg.audiences) == AudiencePlans(cfg, t, cfg.audiences);
    }
  }

  lemma {:induction false} PlanAllSame(cfg: Config, mode: Mode, a: Tables, b: Tables, es: seq<Expectation>)
    requires SameRegistry(a, b)
    ensures PlanAll(cfg, mode, a, es) == PlanAll(cfg, mode, b, es)
  {
    hide PlanFor;
    if es != [] {
      PlanAllSame(cfg, mode, a, b, es[..|es| - 1]);
      SameRegistrySameFor(a, b, es[|es| - 1]);
      PlanSame(cfg, mode, a, b, es[|es| - 1]);
    }
  }

  // ----- a dry run against an apply -------------------------------------------------------

  /**
   * The new version and `:v1` get the same binding: `:v1` is not bound yet, and the searches for the two binding ids end
   * at the same id.
   */
  ghost predicate SameBinding(t: Tables, e: Expectation) {
    && FirstVersionId(e) !in GloballyBound(t, e.templateId)
    && NextId(t.bindings.Keys, BindingBase(e, FirstVersionId(e)))
         == NextId(t.bindings.Keys, BindingBase(e, NextId(t.versions.Keys, FirstVersionId(e))))
  }

  /** What a dry run and an apply plan for one expectation. */
  lemma PlanForExactly(cfg: Config, dry: Mode, mode: Mode, t: Tables, e: Expectation)
    requires !dry.apply && mode.apply && WellBound(t)
    ensures |PlanFor(cfg, dry, t, e)| <= |PlanFor(cfg, mode, t, e)|
    ensures PlanFor(cfg, dry, t, e) == PlanFor(cfg, mode, t, e)
            <==> mode.autoflush ==> Trapped(t, e) ==> SameBinding(t, e)
  {
    var next := NextId(t.versions.Keys, FirstVersionId(e));
    NextVersionId(t.versions.Keys, e);
    var a := Only(e.templateId !in t.templates, TemplateRow, e.templateId) + VersionPlan(t, e);
    var u, v := VersionToBind(cfg, dry, t, e), VersionToBind(cfg, mode, t, e);
    SameMiddle(a, BindingPlan(t, e, u), BindingPlan(t, e, v), ContractPlan(t, e));
    assert next !in GloballyBound(t, e.templateId);
    hide NextId, FirstVersionId, ActiveVersions, GloballyBound, ActiveContracts, BeforeLastColon, BindingBase;
  }

  lemma SameMiddle<T>(a: seq<T>, b: seq<T>, c: seq<T>, d: seq<T>)
    ensures a + b + d == a + c + d <==> b == c
  {
    if a + b + d == a + c + d {
      assert |b| == |c|;
      assert b == (a + b + d)[|a|..|a| + |b|];
      assert c == (a + c + d)[|a|..|a| + |c|];
    }
  }

  lemma SplitsAlike<T>(a: seq<T>, b: seq<T>, c: seq<T>, d: seq<T>)
    requires |a| <= |c| && |b| <= |d|
    ensures a + b == c + d <==> a == c && b == d
  {
    if a + b == c + d {
      assert a == (a + b)[..|a|] && c == (c + d)[..|c|];
      assert b == (a + b)[|a|..] && d == (c + d)[|c|..];
    }
  }

  ghost predicate PlansAlike(cfg: Config, dry: Mode, mode: Mode, t: Tables, es: seq<Expectation>) {
    forall i :: 0 <= i < |es| ==> PlanFor(cfg, dry, t, es[i]) == PlanFor(cfg, mode, t, es[i])
  }

  lemma {:induction false} PlanAllExactly(cfg: Config, dry: Mode, mode: Mode, t: Tables, es: seq<Expectation>)
    requires !dry.apply && mode.apply && WellBound(t)
    ensures |PlanAll(cfg, dry, t, es)| <= |PlanAll(cfg, mode, t, es)|
    ensures PlanAll(cfg, dry, t, es) == PlanAll(cfg, mode, t, es) <==> PlansAlike(cfg, dry, mode, t, es)
  {
    hide PlanFor, WellBound;
    if es != [] {
      var n := |es| - 1;
      PlanAllExactly(cfg, dry, mode, t, es[..n]);
      PlanForExactly(cfg, dry, mode, t, es[n]);
      SplitsAlike(PlanAll(cfg, dry, t, es[..n]), PlanFor(cfg, dry, t, es[n]),
                  PlanAll(cfg, mode, t, es[..n]), PlanFor(cfg, mode, t, es[n]));
      assert forall i :: 0 <= i < n ==> es[..n][i] == es[i];
    }
  }

  /**
   * A dry run plans, action by action, what a successful apply does, exactly when queries do not see the added rows, as
   * with this program's own sessions, or every trapped expectation would get the same binding either way.
   */
  lemma DryRunForetellsExactly(cfg: Config, dry: Mode, mode: Mode, t: Tables)
    requires !dry.apply && mode.apply && !Bootstrap(cfg, mode, t).conflict
    requires AllApart(cfg.expectations) && SeparateAudiences(cfg) && WellBound(t)
    ensures Bootstrap(cfg, dry, t).actions == Bootstrap(cfg, mode, t).created
            <==> mode.autoflush ==>
                   forall i :: 0 <= i < |cfg.expectations| && Trapped(t, cfg.expectations[i]) ==>
                     SameBinding(t, cfg.expectations[i])
  {
    BootstrapOnlyAdds(cfg, dry, t);
    BootstrapOnlyAdds(cfg, mode, t);
    hide Bootstrap, AllApart, SeparateAudiences, Trapped, SameBinding, PlanFor, WellBound, Extends;
    BootstrapPlans(cfg, dry, t);
    BootstrapPlans(cfg, mode, t);
    PlanAllExactly(cfg, dry, mode, t, cfg.expectations);
    forall i | 0 <= i < |cfg.expectations| {
      PlanForExactly(cfg, dry, mode, t, cfg.expectations[i]);
    }
    var audiences := AudiencePlans(cfg, t, cfg.audiences);
    SplitsAlike(audiences, PlanAll(cfg, dry, t, cfg.expectations), audiences, PlanAll(cfg, mode, t, cfg.expectations));
  }
}
