/** The rows an apply adds, column by column. */
module RegistryRows {
  import opened Prelude
  import opened Registry
  import opened RegistryIds
  import opened RegistryRuns
  import Decimal

  // ----- bootstrap rows ------------------------------------------------------------

  ghost predicate IsAudienceRow(cfg: Config, k: string, row: Audience) {
    k in cfg.audiences && row == Audience(k, Some(cfg.phraseSet(k)), true)
  }

  ghost predicate IsPhraseRow(cfg: Config, k: string, row: Phrase) {
    exists id, phrase :: id in cfg.audiences && phrase in cfg.phrases(id)
      && k == cfg.phraseSet(id) + ":" + cfg.digest(phrase) && row == Phrase(cfg.phraseSet(id), phrase, true)
  }

  ghost predicate IsTemplateRow(e: Expectation, k: string, row: Template) {
    k == e.templateId && row == Template(k, e.artifactType, e.stage, Some(e.audienceId))
  }

  /** The id is the base, or the base with a numbered suffix. */
  ghost predicate Based(k: string, base: string) {
    k == base || exists n: nat :: n >= 2 && k == base + "-bootstrap-" + Decimal.Digits(n)
  }

  lemma NextIdBased(keys: set<string>, base: string)
    ensures Based(NextId(keys, base), base)
  {
    var id := NextId(keys, base);
    assert IsNextId(keys, base, id);
    hide NextId, Decimal.Digits;
    if base in keys {
      var n: nat :| FirstFree(keys, base, n) && id == Suffixed(base, n);
      assert id == base + "-bootstrap-" + Decimal.Digits(n);
    }
  }

  /** An active version of now, whose id is the template's and the version text. */
  ghost predicate IsVersionRow(mode: Mode, e: Expectation, k: string, row: Version) {
    row.templateId == e.templateId && row.status == "active" && row.createdAt == mode.now
    && k == e.templateId + ":" + row.version && Based(k, e.templateId + ":v1")
  }

  ghost predicate IsBindingRow(e: Expectation, k: string, row: Binding) {
    && row.scopeType == "global" && row.templateId == e.templateId
    && Based(k, "global:" + e.templateId + ":" + AfterLastColon(row.versionId))
  }

  /** An active contract of now, with the required paths, and as many of the three claims as wanted, but one at least. */
  ghost predicate IsContractRow(mode: Mode, e: Expectation, k: string, row: Contract) {
    && row.artifactType == e.artifactType && row.audienceId == e.audienceId
    && row.requiredPaths == e.requiredPaths && row.isActive && row.createdAt == mode.now
    && (e.minForbiddenClaims == 0 ==> row.forbiddenClaims == 1)
    && (1 <= e.minForbiddenClaims <= 3 ==> row.forbiddenClaims == e.minForbiddenClaims)
    && (e.minForbiddenClaims > 3 ==> row.forbiddenClaims == 3)
    && Based(k, e.artifactType + ":" + e.audienceId + ":v1")
    && row.version == if k == e.artifactType + ":" + e.audienceId + ":v1" then "v1" else "bootstrap-v1"
  }

  /** From `a` to `b` rows have only been added, each a bootstrap row of the configuration. */
  ghost predicate AddsRows(cfg: Config, mode: Mode, a: Tables, b: Tables) {
    && Extends(a, b)
    && (forall k :: k in b.audiences && k !in a.audiences ==> IsAudienceRow(cfg, k, b.audiences[k]))
    && (forall k :: k in b.phrases && k !in a.phrases ==> IsPhraseRow(cfg, k, b.phrases[k]))
    && (forall k :: k in b.templates && k !in a.templates ==>
          exists e :: e in cfg.expectations && IsTemplateRow(e, k, b.templates[k]))
    && (forall k :: k in b.versions && k !in a.versions ==>
          exists e :: e in cfg.expectations && IsVersionRow(mode, e, k, b.versions[k]))
    && (forall k :: k in b.bindings && k !in a.bindings ==>
          exists e :: e in cfg.expectations && IsBindingRow(e, k, b.bindings[k]))
    && (forall k :: k in b.contracts && k !in a.contracts ==>
          exists e :: e in cfg.expectations && IsContractRow(mode, e, k, b.contracts[k]))
  }

  lemma AddsNothing(cfg: Config, mode: Mode, t: Tables)
    ensures AddsRows(cfg, mode, t, t)
  {
  }

  lemma AddsTwice(cfg: Config, mode: Mode, a: Tables, b: Tables, c: Tables)
    requires AddsRows(cfg, mode, a, b) && AddsRows(cfg, mode, b, c)
    ensures AddsRows(cfg, mode, a, c)
  {
    hide IsAudienceRow, IsPhraseRow, IsTemplateRow, IsVersionRow, IsBindingRow, IsContractRow;
  }

  // ----- one row ---------------------------------------------------------------------

  lemma AudienceRowAdded(cfg: Config, mode: Mode, st: State, id: string)
    requires id in cfg.audiences && !PutAudience(cfg, mode, st, id).conflict
    ensures AddsRows(cfg, mode, st.db, PutAudience(cfg, mode, st, id).db)
  {
  }

  lemma PhraseRowAdded(cfg: Config, mode: Mode, st: State, id: string, phrase: string)
    requires id in cfg.audiences && phrase in cfg.phrases(id) && !PutPhrase(cfg, mode, st, id, phrase).conflict
    ensures AddsRows(cfg, mode, st.db, PutPhrase(cfg, mode, st, id, phrase).db)
  {
  }

  lemma TemplateRowAdded(cfg: Config, mode: Mode, st: State, e: Expectation)
    requires e in cfg.expectations && !PutTemplate(mode, st, e).conflict
    ensures AddsRows(cfg, mode, st.db, PutTemplate(mode, st, e).db)
  {
    assert IsTemplateRow(e, e.templateId, Template(e.templateId, e.artifactType, e.stage, Some(e.audienceId)));
  }

  lemma SuffixedForm(p: string, x: string, n: nat) returns (tail: string)
    requires ColonFree(x)
    ensures ColonFree(tail) && Suffixed(p + ":" + x, n) == p + ":" + tail
  {
    var digits := Decimal.Digits(n);
    DigitsColonFree(n);
    hide Decimal.Digits;
    tail := x + ("-bootstrap-" + digits);
    assert ColonFree("-bootstrap-");
    ConcatAssociative(p + ":", x, "-bootstrap-" + digits);
    ConcatAssociative(p + ":" + x, "-bootstrap-", digits);
  }

  /** Whatever id the search ends at, it is the prefix, a colon, and a text without one. */
  lemma NextIdForm(keys: set<string>, p: string, x: string) returns (tail: string)
    requires ColonFree(x)
    ensures ColonFree(tail) && NextId(keys, p + ":" + x) == p + ":" + tail
    ensures AfterLastColon(NextId(keys, p + ":" + x)) == tail
  {
    var base := p + ":" + x;
    assert IsNextId(keys, base, NextId(keys, base));
    hide NextId, Suffixed;
    tail := x;
    if base in keys {
      var n: nat :| FirstFree(keys, base, n) && NextId(keys, base) == Suffixed(base, n);
      tail := SuffixedForm(p, x, n);
    }
    LastColon(p, tail);
  }

  lemma VersionText(mode: Mode, e: Expectation, keys: set<string>)
    ensures var id := NextId(keys, FirstVersionId(e));
            IsVersionRow(mode, e, id, NewVersion(mode, e, id))
  {
    FirstVersionIdForm(e);
    var tail := NextIdForm(keys, e.templateId, "v1");
    NextIdBased(keys, FirstVersionId(e));
    hide NextId, AfterLastColon, Based;
  }

  lemma VersionRowAdded(cfg: Config, mode: Mode, st: State, e: Expectation)
    requires e in cfg.expectations && !VersionStep(mode, st, e).conflict
    ensures AddsRows(cfg, mode, st.db, VersionStep(mode, st, e).db)
  {
    VersionText(mode, e, st.seen.versions.Keys);
    hide NextId, FirstVersionId, AfterLastColon, ActiveVersions, IsVersionRow, NewVersion;
  }

  lemma BindingText(e: Expectation, versionId: string, keys: set<string>)
    ensures IsBindingRow(e, NextId(keys, BindingBase(e, versionId)), Binding("global", e.templateId, versionId))
  {
    NextIdBased(keys, BindingBase(e, versionId));
    hide NextId, AfterLastColon, Based;
  }

  lemma BindingRowAdded(cfg: Config, mode: Mode, st: State, e: Expectation, versionId: string)
    requires e in cfg.expectations && !BindingStep(mode, st, e, versionId).conflict
    ensures AddsRows(cfg, mode, st.db, BindingStep(mode, st, e, versionId).db)
  {
    BindingText(e, versionId, st.seen.bindings.Keys);
    hide NextId, BindingBase, GloballyBound, IsBindingRow;
  }

  lemma ContractRowAdded(cfg: Config, mode: Mode, st: State, e: Expectation)
    requires e in cfg.expectations && !ContractStep(mode, st, e).conflict
    ensures AddsRows(cfg, mode, st.db, ContractStep(mode, st, e).db)
  {
    var id := NextId(st.seen.contracts.Keys, ContractBase(e));
    NextIdBased(st.seen.contracts.Keys, ContractBase(e));
    hide Based;
    assert IsContractRow(mode, e, id, NewContract(mode, e, id));
    hide NextId, ContractBase, ActiveContracts, IsContractRow, NewContract;
  }

  // ----- one step ----------------------------------------------------------------------

  lemma {:induction false} PhraseRowsAdded(cfg: Config, mode: Mode, st: State, id: string, phrases: seq<string>)
    requires id in cfg.audiences && (forall p :: p in phrases ==> p in cfg.phrases(id))
    requires !PutPhrases(cfg, mode, st, id, phrases).conflict
    ensures AddsRows(cfg, mode, st.db, PutPhrases(cfg, mode, st, id, phrases).db)
  {
    if phrases == [] {
      AddsNothing(cfg, mode, st.db);
    } else {
      var front, last := phrases[..|phrases| - 1], phrases[|phrases| - 1];
      var before := PutPhrases(cfg, mode, st, id, front);
      PutPhraseGrew(cfg, mode, before, id, last);
      assert last in phrases;
      hide AddsRows, PutPhrase, Extends;
      PhraseRowsAdded(cfg, mode, st, id, front);
      PhraseRowAdded(cfg, mode, before, id, last);
      AddsTwice(cfg, mode, st.db, before.db, PutPhrase(cfg, mode, before, id, last).db);
    }
  }

  lemma AudienceAdds(cfg: Config, mode: Mode, st: State, id: string)
    requires id in cfg.audiences && !AudienceStep(cfg, mode, st, id).conflict
    ensures AddsRows(cfg, mode, st.db, AudienceStep(cfg, mode, st, id).db)
  {
    hide AddsRows, PutAudience, PutPhrase, HasActivePhrase, Extends;
    var present := if id in st.seen.audiences then st else PutAudience(cfg, mode, st, id);
    PutPhrasesGrew(cfg, mode, present, id, cfg.phrases(id));
    AddsNothing(cfg, mode, st.db);
    AddsNothing(cfg, mode, present.db);
    if id !in st.seen.audiences {
      AudienceRowAdded(cfg, mode, st, id);
    }
    if !HasActivePhrase(present.seen, cfg.phraseSet(id)) {
      PhraseRowsAdded(cfg, mode, present, id, cfg.phrases(id));
    }
    AddsTwice(cfg, mode, st.db, present.db, AudienceStep(cfg, mode, st, id).db);
  }

  lemma ExpectationAdds(cfg: Config, mode: Mode, st: State, e: Expectation)
    requires e in cfg.expectations && !ExpectationStep(cfg, mode, st, e).conflict
    ensures AddsRows(cfg, mode, st.db, ExpectationStep(cfg, mode, st, e).db)
  {
    var a := TemplateStep(mode, st, e);
    var b := VersionStep(mode, a, e);
    var v := BoundVersionId(cfg, mode, a, e);
    var c := BindingStep(mode, b, e, v);
    var d := ContractStep(mode, c, e);
    hide AddsRows, PutTemplate, VersionStep, BindingStep, ContractStep, BoundVersionId, Extends;
    VersionGrew(mode, a, e);
    BindingGrew(mode, b, e, v);
    ContractGrew(mode, c, e);
    AddsNothing(cfg, mode, st.db);
    if e.templateId !in st.seen.templates {
      TemplateRowAdded(cfg, mode, st, e);
    }
    VersionRowAdded(cfg, mode, a, e);
    BindingRowAdded(cfg, mode, b, e, v);
    ContractRowAdded(cfg, mode, c, e);
    AddsTwice(cfg, mode, st.db, a.db, b.db);
    AddsTwice(cfg, mode, st.db, b.db, c.db);
    AddsTwice(cfg, mode, st.db, c.db, d.db);
  }

  // ----- the whole run -----------------------------------------------------------------

  lemma {:induction false} AudiencesAdd(cfg: Config, mode: Mode, st: State, ids: seq<string>)
    requires (forall id :: id in ids ==> id in cfg.audiences) && !AudienceSteps(cfg, mode, st, ids).conflict
    ensures AddsRows(cfg, mode, st.db, AudienceSteps(cfg, mode, st, ids).db)
  {
    hide AddsRows, AudienceStep, Extends;
    if ids == [] {
      AddsNothing(cfg, mode, st.db);
    } else {
      var front, id := ids[..|ids| - 1], ids[|ids| - 1];
      var before := AudienceSteps(cfg, mode, st, front);
      AudienceGrew(cfg, mode, before, id);
      assert id in ids;
      AudiencesAdd(cfg, mode, st, front);
      AudienceAdds(cfg, mode, before, id);
      AddsTwice(cfg, mode, st.db, before.db, AudienceStep(cfg, mode, before, id).db);
    }
  }

  lemma {:induction false} ExpectationsAdd(cfg: Config, mode: Mode, st: State, es: seq<Expectation>)
    requires (forall e :: e in es ==> e in cfg.expectations) && !ExpectationSteps(cfg, mode, st, es).conflict
    ensures AddsRows(cfg, mode, st.db, ExpectationSteps(cfg, mode, st, es).db)
  {
    hide AddsRows, ExpectationStep, Extends;
    if es == [] {
      AddsNothing(cfg, mode, st.db);
    } else {
      var front, e := es[..|es| - 1], es[|es| - 1];
      var before := ExpectationSteps(cfg, mode, st, front);
      ExpectationGrew(cfg, mode, before, e);
      assert e in es;
      ExpectationsAdd(cfg, mode, st, front);
      ExpectationAdds(cfg, mode, before, e);
      AddsTwice(cfg, mode, st.db, before.db, ExpectationStep(cfg, mode, before, e).db);
    }
  }

  /** A successful run overwrites nothing, and every row it adds is a bootstrap row, column by column. */
  lemma BootstrapAddsRows(cfg: Config, mode: Mode, t: Tables)
    requires !Bootstrap(cfg, mode, t).conflict
    ensures AddsRows(cfg, mode, t, Bootstrap(cfg, mode, t).db)
  {
    hide AddsRows, AudienceSteps, ExpectationSteps, Extends;
    var a := AudienceSteps(cfg, mode, Open(t), cfg.audiences);
    var b := Flush(mode, a);
    ExpectationsGrew(cfg, mode, b, cfg.expectations);
    AudiencesAdd(cfg, mode, Open(t), cfg.audiences);
    ExpectationsAdd(cfg, mode, b, cfg.expectations);
    AddsTwice(cfg, mode, t, a.db, ExpectationSteps(cfg, mode, b, cfg.expectations).db);
  }
}
