/** When an apply breaks a primary key or unique constraint, read off the tables it starts from. */
module RegistryConflicts {
  import opened Prelude
  import opened Registry
  import opened RegistryIds
  import opened RegistryRuns
  import opened RegistryViews
  import opened RegistryRepair
  import opened RegistryPlans

  // ----- one expectation ----------------------------------------------------------

  ghost predicate SlugTaken(t: Tables, slug: string) {
    exists k :: k in t.templates && t.templates[k].slug == slug
  }

  ghost predicate VersionTaken(t: Tables, templateId: string, version: string) {
    exists k :: k in t.versions && t.versions[k].templateId == templateId && t.versions[k].version == version
  }

  ghost predicate ContractTaken(t: Tables, e: Expectation, version: string) {
    exists k :: k in t.contracts && t.contracts[k].artifactType == e.artifactType
      && t.contracts[k].audienceId == e.audienceId && t.contracts[k].version == version
  }

  /** The version text a new version gets. */
  function NextVersionText(t: Tables, e: Expectation): string {
    var id := NextId(t.versions.Keys, FirstVersionId(e));
    if id == FirstVersionId(e) then "v1" else AfterLastColon(id)
  }

  /** The version text a new contract gets. */
  function NextContractText(t: Tables, e: Expectation): string {
    if ContractBase(e) in t.contracts then "bootstrap-v1" else "v1"
  }

  ghost predicate TemplateClash(t: Tables, e: Expectation) {
    e.templateId !in t.templates && SlugTaken(t, e.templateId)
  }

  ghost predicate VersionClash(t: Tables, e: Expectation) {
    ActiveVersions(t, e.templateId) == map[] && VersionTaken(t, e.templateId, NextVersionText(t, e))
  }

  ghost predicate ContractClash(t: Tables, e: Expectation) {
    ActiveContracts(t, e) == map[] && ContractTaken(t, e, NextContractText(t, e))
  }

  /**
   * Something is missing for `e`, and what would be added for it is taken: the slug by another template, or the version
   * text by an inactive version or contract.
   */
  ghost predicate Clash(t: Tables, e: Expectation) {
    TemplateClash(t, e) || VersionClash(t, e) || ContractClash(t, e)
  }

  lemma TemplateConflict(mode: Mode, st: State, e: Expectation)
    requires mode.apply && SameFor(st.seen, st.db, e)
    ensures TemplateStep(mode, st, e).conflict <==> st.conflict || TemplateClash(st.db, e)
  {
  }

  lemma VersionConflict(mode: Mode, st: State, e: Expectation)
    requires mode.apply && SameVersions(st.seen, st.db, e)
    ensures VersionStep(mode, st, e).conflict <==> st.conflict || VersionClash(st.db, e)
  {
    FirstVersionIdForm(e);
    NextIdAgrees(st.seen.versions.Keys, st.db.versions.Keys, e.templateId, "v1");
    NextVersionId(st.db.versions.Keys, e);
    hide NextId, FirstVersionId, ActiveVersions, BeforeLastColon, AfterLastColon, SameKeys;
  }

  lemma BindingConflict(mode: Mode, st: State, e: Expectation, versionId: string)
    requires mode.apply && SameKeys(st.seen.bindings.Keys, st.db.bindings.Keys, BindingPrefix(e))
    ensures BindingStep(mode, st, e, versionId).conflict == st.conflict
  {
    NextBindingId(st.seen.bindings.Keys, e, versionId);
    hide NextId, BeforeLastColon, GloballyBound;
  }

  lemma ContractConflict(mode: Mode, st: State, e: Expectation)
    requires mode.apply && ActiveContracts(st.seen, e) == ActiveContracts(st.db, e)
    requires SameKeys(st.seen.contracts.Keys, st.db.contracts.Keys, ContractPrefix(e))
    ensures ContractStep(mode, st, e).conflict <==> st.conflict || ContractClash(st.db, e)
  {
    ContractBaseForm(e);
    NextIdAgrees(st.seen.contracts.Keys, st.db.contracts.Keys, ContractPrefix(e), "v1");
    NextContractId(st.db.contracts.Keys, e);
    hide NextId, ContractBase, ActiveContracts, BeforeLastColon, SameKeys;
  }

  lemma StepConflict(cfg: Config, mode: Mode, st: State, e: Expectation)
    requires mode.apply && Sane(mode, st) && SameFor(st.seen, st.db, e)
    ensures ExpectationStep(cfg, mode, st, e).conflict <==> st.conflict || Clash(st.db, e)
  {
    var a := TemplateStep(mode, st, e);
    var b := VersionStep(mode, a, e);
    var v := BoundVersionId(cfg, mode, a, e);
    var c := BindingStep(mode, b, e, v);
    TemplateTouches(mode, st, e);
    VersionTouches(mode, a, e);
    BindingTouches(mode, b, e, v);
    TemplateConflict(mode, st, e);
    SameParts(st.seen, a.seen, st.db, a.db, e);
    hide TemplateStep, VersionStep, BindingStep, ContractStep, BoundVersionId, BindingPrefix, ContractPrefix, SameKeys;
    VersionConflict(mode, a, e);
    BindingConflict(mode, b, e, v);
    ContractConflict(mode, c, e);
    KeptClashes(st.db, a.db, c.db, e);
  }

  lemma SameParts(seen: Tables, seen': Tables, db: Tables, db': Tables, e: Expectation)
    requires SameFor(seen, db, e) && seen.versions == seen'.versions && db.versions == db'.versions
    ensures SameVersions(seen', db', e)
  {
  }

  lemma KeptClashes(t: Tables, a: Tables, c: Tables, e: Expectation)
    requires t.versions == a.versions && t.contracts == c.contracts
    ensures VersionClash(t, e) <==> VersionClash(a, e)
    ensures ContractClash(t, e) <==> ContractClash(c, e)
  {
    assert ActiveVersions(t, e.templateId) == ActiveVersions(a, e.templateId);
    assert ActiveContracts(t, e) == ActiveContracts(c, e);
    hide NextId, ActiveVersions, ActiveContracts, FirstVersionId, ContractBase, AfterLastColon;
  }

  // ----- all expectations ---------------------------------------------------------------

  /** What is taken for `d`: the same in both tables. */
  ghost predicate SameTaken(a: Tables, b: Tables, d: Expectation) {
    && (SlugTaken(a, d.templateId) <==> SlugTaken(b, d.templateId))
    && (forall v :: VersionTaken(a, d.templateId, v) <==> VersionTaken(b, d.templateId, v))
    && (forall v :: ContractTaken(a, d, v) <==> ContractTaken(b, d, v))
  }

  lemma ClashSame(a: Tables, b: Tables, e: Expectation)
    requires SameFor(a, b, e) && SameTaken(a, b, e)
    ensures Clash(a, e) <==> Clash(b, e)
  {
    FirstVersionIdForm(e);
    ContractBaseForm(e);
    NextIdAgrees(a.versions.Keys, b.versions.Keys, e.templateId, "v1");
    hide NextId, FirstVersionId, ContractBase, ActiveVersions, ActiveContracts, GloballyBound;
    hide SlugTaken, VersionTaken, ContractTaken, BeforeLastColon, AfterLastColon;
  }

  /** A template row a step adds has its id for a slug. */
  lemma TemplateAddsSlug(mode: Mode, st: State, e: Expectation, d: Expectation)
    requires d.templateId != e.templateId && !TemplateStep(mode, st, e).conflict
    ensures SlugTaken(st.db, d.templateId) <==> SlugTaken(TemplateStep(mode, st, e).db, d.templateId)
  {
    var a, b := st.db, TemplateStep(mode, st, e).db;
    if SlugTaken(a, d.templateId) {
      var k :| k in a.templates && a.templates[k].slug == d.templateId;
      assert k in b.templates && b.templates[k] == a.templates[k];
    }
  }

  /** Rows for `e` take nothing from another expectation. */
  lemma OnlyForTakes(a: Tables, b: Tables, e: Expectation, d: Expectation)
    requires OnlyFor(a, b, e) && Apart(d, e)
    ensures forall v :: VersionTaken(a, d.templateId, v) <==> VersionTaken(b, d.templateId, v)
    ensures forall v :: ContractTaken(a, d, v) <==> ContractTaken(b, d, v)
  {
    hide BeforeLastColon, BindingPrefix;
    forall v | VersionTaken(a, d.templateId, v)
      ensures VersionTaken(b, d.templateId, v)
    {
      var k :| k in a.versions && a.versions[k].templateId == d.templateId && a.versions[k].version == v;
      assert k in b.versions && b.versions[k] == a.versions[k];
    }
    forall v | ContractTaken(a, d, v)
      ensures ContractTaken(b, d, v)
    {
      var k :| k in a.contracts && a.contracts[k].artifactType == d.artifactType
            && a.contracts[k].audienceId == d.audienceId && a.contracts[k].version == v;
      assert k in b.contracts && b.contracts[k] == a.contracts[k];
    }
  }

  lemma StepTemplates(cfg: Config, mode: Mode, st: State, e: Expectation)
    requires Sane(mode, st)
    ensures var r := ExpectationStep(cfg, mode, st, e);
            && r.db.templates == TemplateStep(mode, st, e).db.templates
            && (TemplateStep(mode, st, e).conflict ==> r.conflict)
  {
    var a := TemplateStep(mode, st, e);
    var b := VersionStep(mode, a, e);
    var v := BoundVersionId(cfg, mode, a, e);
    var c := BindingStep(mode, b, e, v);
    hide Extends, TemplateStep, VersionStep, BindingStep, ContractStep, BoundVersionId;
    TemplateTouches(mode, st, e);
    VersionTouches(mode, a, e);
    BindingTouches(mode, b, e, v);
    ContractTouches(mode, c, e);
    VersionGrew(mode, a, e);
    BindingGrew(mode, b, e, v);
    ContractGrew(mode, c, e);
  }

  lemma StepTakes(cfg: Config, mode: Mode, st: State, e: Expectation, d: Expectation)
    requires Apart(d, e) && !ExpectationStep(cfg, mode, st, e).conflict && Sane(mode, st)
    ensures SameTaken(st.db, ExpectationStep(cfg, mode, st, e).db, d)
  {
    hide ExpectationStep, TemplateStep, OnlyFor, VersionTaken, ContractTaken;
    StepTemplates(cfg, mode, st, e);
    TemplateAddsSlug(mode, st, e, d);
    StepOnlyFor(cfg, mode, st, e);
    OnlyForTakes(st.db, ExpectationStep(cfg, mode, st, e).db, e, d);
  }

  lemma {:induction false} StepsTake(cfg: Config, mode: Mode, st: State, es: seq<Expectation>, d: Expectation)
    requires !ExpectationSteps(cfg, mode, st, es).conflict && Sane(mode, st)
    requires forall i :: 0 <= i < |es| ==> Apart(d, es[i])
    ensures SameTaken(st.db, ExpectationSteps(cfg, mode, st, es).db, d)
  {
    hide Apart, ExpectationStep, SlugTaken, VersionTaken, ContractTaken, Extends;
    if es != [] {
      var front, e := es[..|es| - 1], es[|es| - 1];
      var before := ExpectationSteps(cfg, mode, st, front);
      ExpectationGrew(cfg, mode, before, e);
      ExpectationsGrew(cfg, mode, st, front);
      StepsTake(cfg, mode, st, front, d);
      StepTakes(cfg, mode, before, e, d);
    }
  }

  ghost predicate AnyClash(t: Tables, es: seq<Expectation>) {
    exists i :: 0 <= i < |es| && Clash(t, es[i])
  }

  lemma AnyClashOneMore(t: Tables, front: seq<Expectation>, e: Expectation)
    ensures AnyClash(t, front + [e]) <==> AnyClash(t, front) || Clash(t, e)
  {
    hide Clash;
    var es := front + [e];
    assert es[|front|] == e;
    assert forall i :: 0 <= i < |front| ==> es[i] == front[i];
  }

  lemma {:induction false} StepsConflict(cfg: Config, mode: Mode, st: State, es: seq<Expectation>)
    requires mode.apply && !st.conflict && st.seen == st.db && AllApart(es)
    ensures ExpectationSteps(cfg, mode, st, es).conflict <==> AnyClash(st.db, es)
  {
    hide Apart, AllApart, ExpectationStep, Clash, SameFor, SameTaken, Extends;
    if es != [] {
      var front, e := es[..|es| - 1], es[|es| - 1];
      var before := ExpectationSteps(cfg, mode, st, front);
      ApartFromLast(es);
      SplitLast(es);
      AnyClashOneMore(st.db, front, e);
      StepsConflict(cfg, mode, st, front);
      ExpectationGrew(cfg, mode, before, e);
      hide AnyClash;
      if !before.conflict {
        SeenIsThere(cfg, mode, st, front, e);
        StepsTake(cfg, mode, st, front, e);
        ClashSame(st.db, before.db, e);
        StepConflict(cfg, mode, before, e);
      }
    }
  }

  // ----- ids of phrases ----------------------------------------------------------------

  ghost predicate NoDuplicates(s: seq<string>) {
    forall i, j :: 0 <= i < j < |s| ==> s[i] != s[j]
  }

  function PhraseIds(cfg: Config, id: string, phrases: seq<string>): seq<string> {
    seq(|phrases|, i requires 0 <= i < |phrases| => PhraseId(cfg, id, phrases[i]))
  }

  /** The ids of all bootstrap phrases, audience by audience. */
  function AllPhraseIds(cfg: Config, ids: seq<string>): seq<string> {
    if ids == [] then []
    else AllPhraseIds(cfg, ids[..|ids| - 1]) + PhraseIds(cfg, ids[|ids| - 1], cfg.phrases(ids[|ids| - 1]))
  }

  lemma NoDuplicatesFront(s: seq<string>, last: string)
    requires NoDuplicates(s + [last])
    ensures NoDuplicates(s) && last !in s
  {
    var t := s + [last];
    assert t[|s|] == last;
    assert forall i :: 0 <= i < |s| ==> t[i] == s[i];
  }

  lemma NoDuplicatesPrefix(s: seq<string>, more: seq<string>)
    requires NoDuplicates(s + more)
    ensures NoDuplicates(s)
  {
    assert forall i :: 0 <= i < |s| ==> (s + more)[i] == s[i];
  }

  // ----- one audience -------------------------------------------------------------------

  /** Something is missing for the audience, and its code belongs to another one, or a phrase to be added is there already. */
  ghost predicate AudienceClash(cfg: Config, t: Tables, id: string) {
    || (id !in t.audiences && CodeTaken(t, id))
    || (!HasActivePhrase(t, cfg.phraseSet(id)) && PhraseTaken(t, PhraseIds(cfg, id, cfg.phrases(id))))
  }

  ghost predicate CodeTaken(t: Tables, code: string) {
    exists k :: k in t.audiences && t.audiences[k].code == code
  }

  ghost predicate PhraseTaken(t: Tables, ids: seq<string>) {
    exists i :: 0 <= i < |ids| && ids[i] in t.phrases
  }

  lemma {:induction false} PhrasesConflict(cfg: Config, mode: Mode, st: State, id: string, phrases: seq<string>)
    requires mode.apply && NoDuplicates(PhraseIds(cfg, id, phrases))
    ensures var r := PutPhrases(cfg, mode, st, id, phrases);
            && (r.conflict <==> st.conflict || PhraseTaken(st.db, PhraseIds(cfg, id, phrases)))
            && r.db.audiences == st.db.audiences
            && forall k :: k in r.db.phrases <==> k in st.db.phrases || k in PhraseIds(cfg, id, phrases)
  {
    if phrases != [] {
      var front, last := phrases[..|phrases| - 1], phrases[|phrases| - 1];
      var ids, next := PhraseIds(cfg, id, front), PhraseId(cfg, id, last);
      assert PhraseIds(cfg, id, phrases) == ids + [next];
      hide PhraseIds, PhraseId;
      NoDuplicatesFront(ids, next);
      PhrasesConflict(cfg, mode, st, id, front);
      PhraseTakenOneMore(st.db, ids, next);
      hide NoDuplicates, PhraseTaken;
    }
  }

  lemma PhraseTakenOneMore(t: Tables, ids: seq<string>, next: string)
    ensures PhraseTaken(t, ids + [next]) <==> PhraseTaken(t, ids) || next in t.phrases
  {
    var all := ids + [next];
    assert all[|ids|] == next;
    assert forall i :: 0 <= i < |ids| ==> all[i] == ids[i];
  }

  lemma AudienceConflict(cfg: Config, mode: Mode, st: State, id: string)
    requires mode.apply && SameAudience(cfg, st.seen, st.db, id)
    requires NoDuplicates(PhraseIds(cfg, id, cfg.phrases(id)))
    ensures AudienceStep(cfg, mode, st, id).conflict <==> st.conflict || AudienceClash(cfg, st.db, id)
  {
    var present := if id in st.seen.audiences then st else PutAudience(cfg, mode, st, id);
    assert present.conflict <==> st.conflict || (id !in st.db.audiences && CodeTaken(st.db, id));
    assert present.seen.phrases == st.seen.phrases || present.seen.phrases == st.db.phrases;
    assert present.db.phrases == st.db.phrases;
    assert HasActivePhrase(present.seen, cfg.phraseSet(id)) <==> HasActivePhrase(st.db, cfg.phraseSet(id));
    hide PutAudience, HasActivePhrase, PhraseIds, NoDuplicates, CodeTaken;
    PhrasesConflict(cfg, mode, present, id, cfg.phrases(id));
  }

  // ----- all audiences ------------------------------------------------------------------

  /** The tables have grown by bootstrap rows of the audiences `ids` only. */
  ghost predicate GrewBy(cfg: Config, t: Tables, r: Tables, ids: seq<string>, phraseIds: seq<string>) {
    && Within(t.audiences, r.audiences) && Within(t.phrases, r.phrases)
    && (forall k :: k in r.audiences && k !in t.audiences ==>
          k in ids && r.audiences[k] == Audience(k, Some(cfg.phraseSet(k)), true))
    && (forall k :: k in r.phrases && k !in t.phrases ==> k in phraseIds)
  }

  lemma AudienceGrewBy(cfg: Config, mode: Mode, st: State, id: string)
    requires mode.apply && !AudienceStep(cfg, mode, st, id).conflict
    requires NoDuplicates(PhraseIds(cfg, id, cfg.phrases(id)))
    ensures GrewBy(cfg, st.db, AudienceStep(cfg, mode, st, id).db, [id], PhraseIds(cfg, id, cfg.phrases(id)))
  {
    AudienceGrew(cfg, mode, st, id);
    var present := if id in st.seen.audiences then st else PutAudience(cfg, mode, st, id);
    hide PhraseIds, HasActivePhrase, NoDuplicates;
    PhrasesConflict(cfg, mode, present, id, cfg.phrases(id));
  }

  lemma GrewByTwice(
    cfg: Config, t: Tables, a: Tables, b: Tables, ids: seq<string>, id: string, known: seq<string>, added: seq<string>)
    requires GrewBy(cfg, t, a, ids, known) && GrewBy(cfg, a, b, [id], added)
    ensures GrewBy(cfg, t, b, ids + [id], known + added)
  {
  }

  lemma AudienceClashSame(cfg: Config, t: Tables, r: Tables, ids: seq<string>, id: string, known: seq<string>)
    requires GrewBy(cfg, t, r, ids, known) && SameAudience(cfg, t, r, id) && id !in ids
    requires NoDuplicates(known + PhraseIds(cfg, id, cfg.phrases(id)))
    ensures AudienceClash(cfg, t, id) <==> AudienceClash(cfg, r, id)
  {
    hide HasActivePhrase, PhraseIds;
    var added := PhraseIds(cfg, id, cfg.phrases(id));
    assert forall i :: 0 <= i < |added| ==> (known + added)[|known| + i] == added[i];
    assert forall i :: 0 <= i < |known| ==> (known + added)[i] == known[i];
    assert PhraseTaken(t, added) <==> PhraseTaken(r, added);
    if CodeTaken(t, id) {
      var k :| k in t.audiences && t.audiences[k].code == id;
      assert k in r.audiences && r.audiences[k] == t.audiences[k];
    }
  }

  ghost predicate AnyAudienceClash(cfg: Config, t: Tables, ids: seq<string>) {
    exists i :: 0 <= i < |ids| && AudienceClash(cfg, t, ids[i])
  }

  lemma AnyAudienceClashOneMore(cfg: Config, t: Tables, front: seq<string>, id: string)
    ensures AnyAudienceClash(cfg, t, front + [id]) <==> AnyAudienceClash(cfg, t, front) || AudienceClash(cfg, t, id)
  {
    hide AudienceClash;
    var ids := front + [id];
    assert ids[|front|] == id;
    assert forall i :: 0 <= i < |front| ==> ids[i] == front[i];
  }

  lemma {:induction false} AudiencesConflict(cfg: Config, mode: Mode, t: Tables, ids: seq<string>)
    requires mode.apply && Separate(cfg, ids) && NoDuplicates(AllPhraseIds(cfg, ids))
    ensures var r := AudienceSteps(cfg, mode, Open(t), ids);
            && (r.conflict <==> AnyAudienceClash(cfg, t, ids))
            && (!r.conflict ==> GrewBy(cfg, t, r.db, ids, AllPhraseIds(cfg, ids)))
  {
    if ids != [] {
      var front, id := ids[..|ids| - 1], ids[|ids| - 1];
      var known, added := AllPhraseIds(cfg, front), PhraseIds(cfg, id, cfg.phrases(id));
      var before := AudienceSteps(cfg, mode, Open(t), front);
      SplitLast(ids);
      assert forall i :: 0 <= i < |front| ==> front[i] == ids[i];
      NoDuplicatesPrefix(known, added);
      NoDuplicatesSuffix(known, added);
      AudiencesConflict(cfg, mode, t, front);
      AnyAudienceClashOneMore(cfg, t, front, id);
      AudienceGrew(cfg, mode, before, id);
      AudiencesGrew(cfg, mode, Open(t), front);
      hide PhraseIds, AudienceStep, NoDuplicates, AudienceClash, AnyAudienceClash, HasActivePhrase, GrewBy, Extends;
      if !before.conflict {
        AudiencesForOthers(cfg, mode, Open(t), front, id);
        AudienceClashSame(cfg, t, before.db, front, id, known);
        AudienceConflict(cfg, mode, before, id);
        if !AudienceStep(cfg, mode, before, id).conflict {
          AudienceGrewBy(cfg, mode, before, id);
          GrewByTwice(cfg, t, before.db, AudienceStep(cfg, mode, before, id).db, front, id, known, added);
        }
      }
    }
  }

  lemma NoDuplicatesSuffix(s: seq<string>, more: seq<string>)
    requires NoDuplicates(s + more)
    ensures NoDuplicates(more)
  {
    assert forall i :: 0 <= i < |more| ==> (s + more)[|s| + i] == more[i];
  }

  // ----- main results -------------------------------------------------------------------

  /** What the results ask of the program's constants: expectations, audiences and phrases can be told apart. */
  ghost predicate ToldApart(cfg: Config) {
    AllApart(cfg.expectations) && SeparateAudiences(cfg) && NoDuplicates(AllPhraseIds(cfg, cfg.audiences))
  }

  /** An apply fails exactly when, in the tables it starts from, something it would add is taken. */
  lemma ApplyFailsExactly(cfg: Config, mode: Mode, t: Tables)
    requires mode.apply && ToldApart(cfg)
    ensures Bootstrap(cfg, mode, t).conflict
            <==> AnyAudienceClash(cfg, t, cfg.audiences) || AnyClash(t, cfg.expectations)
  {
    hide AudienceSteps, ExpectationSteps, AllApart, NoDuplicates, Clash, AudienceClash, AnyAudienceClash, Extends;
    var a := AudienceSteps(cfg, mode, Open(t), cfg.audiences);
    var b := Flush(mode, a);
    AudiencesConflict(cfg, mode, t, cfg.audiences);
    ExpectationsGrew(cfg, mode, b, cfg.expectations);
    AudiencesKeepRegistry(cfg, mode, Open(t), cfg.audiences);
    if !a.conflict {
      StepsConflict(cfg, mode, b, cfg.expectations);
      forall i | 0 <= i < |cfg.expectations|
        ensures Clash(t, cfg.expectations[i]) <==> Clash(b.db, cfg.expectations[i])
      {
        SameRegistryClash(t, b.db, cfg.expectations[i]);
      }
    }
  }

  lemma SameRegistryClash(a: Tables, b: Tables, e: Expectation)
    requires SameRegistry(a, b)
    ensures Clash(a, e) <==> Clash(b, e)
  {
    SameRegistrySameFor(a, b, e);
    assert SameTaken(a, b, e);
    ClashSame(a, b, e);
  }

  lemma NothingClashes(cfg: Config, mode: Mode, before: Tables, after: Tables, e: Expectation)
    requires StepResult(cfg, mode, before, after, e)
    ensures !Clash(after, e)
  {
  }

  /** Where every audience and the rows of every expectation are there, an apply adds bindings at most, and succeeds. */
  lemma OnlyBindingsSucceeds(cfg: Config, mode: Mode, t: Tables)
    requires AllApart(cfg.expectations) && !AnyClash(t, cfg.expectations)
    requires forall i :: 0 <= i < |cfg.audiences| ==> SettledAudience(cfg, t, cfg.audiences[i])
    ensures !Bootstrap(cfg, mode, t).conflict
  {
    if mode.apply {
      AudiencesIdle(cfg, mode, Open(t), cfg.audiences);
      StepsConflict(cfg, mode, Open(t), cfg.expectations);
    } else {
      hide Bootstrap;
      BootstrapOnlyAdds(cfg, mode, t);
    }
  }

  /** After a successful apply another one always succeeds. */
  lemma SecondApplySucceeds(cfg: Config, mode: Mode, again: Mode, t: Tables)
    requires mode.apply && PicksNewest(cfg.newest) && WellBound(t) && AllApart(cfg.expectations)
    requires !Bootstrap(cfg, mode, t).conflict
    ensures !Bootstrap(cfg, again, Bootstrap(cfg, mode, t).db).conflict
  {
    var r := Bootstrap(cfg, mode, t).db;
    hide Bootstrap, AllApart, WellBound, PicksNewest, StepResult, SettledAudience, Clash;
    forall i | 0 <= i < |cfg.expectations|
      ensures !Clash(r, cfg.expectations[i])
    {
      ApplyResult(cfg, mode, t, i);
      NothingClashes(cfg, mode, t, r, cfg.expectations[i]);
    }
    forall i | 0 <= i < |cfg.audiences|
      ensures SettledAudience(cfg, r, cfg.audiences[i])
    {
      ApplyResult(cfg, mode, t, i);
    }
    OnlyBindingsSucceeds(cfg, again, r);
  }

  /** Whatever the registry held, once an apply succeeds a second one succeeds too and settles it. */
  lemma TwoAppliesSettle(cfg: Config, mode: Mode, second: Mode, again: Mode, t: Tables)
    requires mode.apply && second.apply && PicksNewest(cfg.newest) && WellBound(t) && AllApart(cfg.expectations)
    requires !Bootstrap(cfg, mode, t).conflict
    ensures !Bootstrap(cfg, second, Bootstrap(cfg, mode, t).db).conflict
    ensures Bootstrap(cfg, again, Bootstrap(cfg, second, Bootstrap(cfg, mode, t).db).db).actions == []
  {
    hide Bootstrap, SettledAudience, Settled, Unmissed, ActiveVersions;
    var r := Bootstrap(cfg, mode, t).db;
    SecondApplySucceeds(cfg, mode, second, t);
    forall i | 0 <= i < |cfg.expectations|
      ensures !Trapped(r, cfg.expectations[i])
    {
      ApplyResult(cfg, mode, t, i);
    }
    ApplyResult(cfg, mode, t, 0);
    ApplyTwiceExactly(cfg, second, again, r);
  }
}
