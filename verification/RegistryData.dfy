/** The constants the program ships, and a registry of its own making that one apply does not repair. */
module RegistryData {
  import opened Prelude
  import opened Registry
  import opened RegistryIds
  import opened RegistryRuns
  import opened RegistryRepair
  import opened RegistryFresh
  import opened RegistryPlans
  import opened RegistryConflicts
  import Decimal

  function Shipped(
    id: string, audience: string, stage: string, claims: nat, phrases: bool, paths: seq<string>): Expectation {
    Expectation(id, audience, id, stage, paths, claims, phrases)
  }

  const EXPECTATIONS: seq<Expectation> := [
    Shipped("employee_contribution_narrative", "employee", "expression", 1, true,
      ["scope.employee_id", "scope.project_id", "counts.photos_current"]),
    Shipped("progress_report_translation", "project_manager", "translate", 1, false,
      ["scope.report_id", "scope.project_id", "structured_report.executive_summary"]),
    Shipped("progress_report_string_translation", "project_manager", "translate", 0, false,
      ["source_text", "field_label"]),
    Shipped("generated_report_markdown", "project_manager", "render", 1, false,
      ["scope.report_id", "scope.project_id", "structured_report.manager_brief"]),
    Shipped("generated_report_markdown_section", "project_manager", "render", 1, false,
      ["section_key", "heading", "allowed_source_refs"]),
    Shipped("project_manager_decision_brief", "project_manager", "expression", 1, true,
      ["scope.project_id", "photo_metrics.photos_current", "progress_report_metrics.completed_with_content"]),
    Shipped("client_progress_summary", "client", "expression", 1, true,
      ["scope.project_id", "client_visible_photo_metrics.photos_current", "latest_progress_report.has_completed_report"]),
    Shipped("operations_health_summary", "operations", "expression", 1, true,
      ["task_jobs.queued_backlog", "photo_processing.project_photos_current", "expression_artifacts.artifacts_current"]),
    Shipped("finance_summary", "finance", "expression", 1, true,
      ["scope.project_id", "receipt_metrics.receipt_count", "receipt_metrics.total_amount"]),
    Shipped("executive_company_health_summary", "executive", "expression", 1, true,
      ["project_portfolio.projects_total", "photo_activity.photos_current", "expression_readiness.shadow_invalid_current"])
  ]

  /** A template id is told apart by its length and its first letter. */
  function Signature(e: Expectation): (int, char) {
    (|e.templateId|, if e.templateId == "" then ' ' else e.templateId[0])
  }

  const SIGNATURES: seq<(int, char)> :=
    [(31, 'e'), (27, 'p'), (34, 'p'), (25, 'g'), (33, 'g'), (30, 'p'), (23, 'c'), (25, 'o'), (15, 'f'), (32, 'e')]

  lemma ShippedSignatures()
    ensures |EXPECTATIONS| == |SIGNATURES| == 10
    ensures forall i :: 0 <= i < 10 ==> Signature(EXPECTATIONS[i]) == SIGNATURES[i]
  {
  }

  lemma SameSignature(d: Expectation, e: Expectation)
    requires Signature(d) != Signature(e)
    ensures d.templateId != e.templateId
  {
  }

  lemma ShippedPrefixes()
    ensures forall i :: 0 <= i < |EXPECTATIONS| ==>
      EXPECTATIONS[i].artifactType == EXPECTATIONS[i].templateId && ColonFree(EXPECTATIONS[i].audienceId)
  {
  }

  /** The shipped expectations meet the condition the repair results ask for. */
  lemma ShippedExpectationsAreApart()
    ensures AllApart(EXPECTATIONS)
  {
    ShippedSignatures();
    ShippedPrefixes();
    hide EXPECTATIONS, Signature;
    forall i, j | 0 <= i < j < |EXPECTATIONS|
      ensures Apart(EXPECTATIONS[i], EXPECTATIONS[j])
    {
      var d, e := EXPECTATIONS[i], EXPECTATIONS[j];
      assert SIGNATURES[i] != SIGNATURES[j];
      assert Signature(d) != Signature(e);
      SameSignature(d, e);
      LastColon(d.artifactType, d.audienceId);
      LastColon(e.artifactType, e.audienceId);
    }
  }

  // ----- audiences and phrases ----------------------------------------------------------

  /** The audiences of the expectations, sorted. */
  const AUDIENCES: seq<string> := ["client", "employee", "executive", "finance", "operations", "project_manager"]

  function PhraseSet(audienceId: string): string {
    if audienceId == "client" then "client_progress_zh_v1"
    else if audienceId == "employee" then "employee_contribution_zh_v1"
    else if audienceId == "executive" then "executive_overview_zh_v1"
    else if audienceId == "finance" then "finance_evidence_zh_v1"
    else if audienceId == "operations" then "operations_health_zh_v1"
    else if audienceId == "project_manager" then "manager_overview_zh_v1"
    else audienceId + "_expression_v1"
  }

  function Phrases(audienceId: string): seq<string> {
    if audienceId == "client" then ["内部", "员工号", "成本", "责任归因", "urgent", "must"]
    else if audienceId == "employee" then ["绩效", "评分", "排名", "继续努力", "低质量"]
    else if audienceId == "executive" then
      ["员工排名", "绩效评分", "责任归因", "password", "secret", "token", "urgent", "must"]
    else if audienceId == "finance" then ["报销批准", "付款承诺", "员工排名", "绩效评分", "must"]
    else if audienceId == "operations" then ["password", "secret", "token", "api_key", "urgent", "must"]
    else if audienceId == "project_manager" then
      ["责任归因", "员工排名", "绩效评分", "should", "must", "priority", "recommend", "ensure", "urgent"]
    else []
  }

  /** The program's configuration, for any digest and any way in which the database breaks ties. */
  function ShippedConfig(digest: string -> string, newest: map<string, int> -> string): Config {
    Config(EXPECTATIONS, AUDIENCES, PhraseSet, Phrases, digest, newest)
  }

  /** A digest is free of colons, as hexadecimal digits are, and tells the phrases of an audience apart. */
  ghost predicate TellsApart(cfg: Config, ids: seq<string>) {
    && (forall phrase :: ColonFree(cfg.digest(phrase)))
    && (forall i, j, k :: 0 <= i < |ids| && 0 <= j < k < |cfg.phrases(ids[i])| ==>
          cfg.digest(cfg.phrases(ids[i])[j]) != cfg.digest(cfg.phrases(ids[i])[k]))
  }

  lemma PhraseIdsOf(cfg: Config, id: string, phrases: seq<string>)
    requires forall phrase :: ColonFree(cfg.digest(phrase))
    ensures forall k :: 0 <= k < |phrases| ==>
      && BeforeLastColon(PhraseIds(cfg, id, phrases)[k]) == cfg.phraseSet(id)
      && AfterLastColon(PhraseIds(cfg, id, phrases)[k]) == cfg.digest(phrases[k])
  {
    forall k | 0 <= k < |phrases|
      ensures BeforeLastColon(PhraseIds(cfg, id, phrases)[k]) == cfg.phraseSet(id)
      ensures AfterLastColon(PhraseIds(cfg, id, phrases)[k]) == cfg.digest(phrases[k])
    {
      LastColon(cfg.phraseSet(id), cfg.digest(phrases[k]));
    }
  }

  /** With separate phrase sets and such a digest no two phrase ids of the whole program are the same. */
  lemma {:induction false} PhraseIdsDistinct(cfg: Config, ids: seq<string>)
    requires Separate(cfg, ids) && TellsApart(cfg, ids)
    ensures NoDuplicates(AllPhraseIds(cfg, ids))
    ensures forall k :: k in AllPhraseIds(cfg, ids) ==>
      exists i :: 0 <= i < |ids| && BeforeLastColon(k) == cfg.phraseSet(ids[i])
  {
    if ids != [] {
      var front, id := ids[..|ids| - 1], ids[|ids| - 1];
      assert forall i :: 0 <= i < |front| ==> front[i] == ids[i];
      PhraseIdsDistinct(cfg, front);
      PhraseIdsOf(cfg, id, cfg.phrases(id));
      hide BeforeLastColon, AfterLastColon, ColonFree, PhraseId;
      JoinDistinct(AllPhraseIds(cfg, front), PhraseIds(cfg, id, cfg.phrases(id)));
    }
  }

  lemma JoinDistinct(a: seq<string>, b: seq<string>)
    requires NoDuplicates(a) && NoDuplicates(b) && forall k :: k in a ==> k !in b
    ensures NoDuplicates(a + b)
  {
    forall i, j | 0 <= i < j < |a + b|
      ensures (a + b)[i] != (a + b)[j]
    {
      if i < |a| <= j {
        assert a[i] in a && b[j - |a|] in b;
      }
    }
  }

  const SET_SIGNATURES: seq<(int, char)> := [(21, 'c'), (27, 'e'), (24, 'e'), (22, 'f'), (23, 'o'), (22, 'm')]

  lemma ShippedSets()
    ensures |AUDIENCES| == |SET_SIGNATURES| == 6
    ensures forall i :: 0 <= i < 6 ==>
      PhraseSet(AUDIENCES[i]) != "" && (|PhraseSet(AUDIENCES[i])|, PhraseSet(AUDIENCES[i])[0]) == SET_SIGNATURES[i]
  {
    assert PhraseSet("client") == "client_progress_zh_v1";
    assert PhraseSet("employee") == "employee_contribution_zh_v1";
    assert PhraseSet("executive") == "executive_overview_zh_v1";
    assert PhraseSet("finance") == "finance_evidence_zh_v1";
    assert PhraseSet("operations") == "operations_health_zh_v1";
    assert PhraseSet("project_manager") == "manager_overview_zh_v1";
  }

  lemma ShippedAudiences(cfg: Config)
    requires cfg.audiences == AUDIENCES && cfg.phraseSet == PhraseSet
    ensures SeparateAudiences(cfg) && NoDuplicates(cfg.audiences)
  {
    ShippedSets();
    hide PhraseSet, AUDIENCES;
    forall i, j | 0 <= i < j < |cfg.audiences|
      ensures cfg.audiences[i] != cfg.audiences[j] && cfg.phraseSet(cfg.audiences[i]) != cfg.phraseSet(cfg.audiences[j])
    {
      assert SET_SIGNATURES[i] != SET_SIGNATURES[j];
    }
  }

  lemma ShippedPhrases(id: string)
    requires id in AUDIENCES
    ensures PhraseSet(id) != "" && Phrases(id) != []
  {
  }

  lemma ShippedCoverage()
    ensures forall i :: 0 <= i < |EXPECTATIONS| ==>
      EXPECTATIONS[i].audienceId in AUDIENCES && EXPECTATIONS[i].minForbiddenClaims <= 3
  {
    assert AUDIENCES[0] == "client" && AUDIENCES[1] == "employee" && AUDIENCES[2] == "executive";
    assert AUDIENCES[3] == "finance" && AUDIENCES[4] == "operations" && AUDIENCES[5] == "project_manager";
  }

  /** The shipped constants meet everything the results ask for, whatever the digest and the database. */
  lemma ShippedConfigIsGood(digest: string -> string, newest: map<string, int> -> string)
    requires PicksNewest(newest) && TellsApart(ShippedConfig(digest, newest), AUDIENCES)
    ensures GoodConfig(ShippedConfig(digest, newest)) && ToldApart(ShippedConfig(digest, newest))
  {
    var cfg := ShippedConfig(digest, newest);
    ShippedExpectationsAreApart();
    ShippedAudiences(cfg);
    ShippedCoverage();
    PhraseIdsDistinct(cfg, cfg.audiences);
    hide AllApart, NoDuplicates, SeparateAudiences, TellsApart, EXPECTATIONS, AUDIENCES, PhraseSet, Phrases;
    forall i | 0 <= i < |cfg.expectations|
      ensures GoodExpectation(cfg, cfg.expectations[i])
    {
      ShippedPhrases(cfg.expectations[i].audienceId);
    }
  }

  // ----- one apply that is not enough -----------------------------------------------------

  /** What a first apply on an empty registry leaves, with the first version of one template archived since. */
  ghost function Archived(cfg: Config, mode: Mode, e: Expectation): Tables {
    var t := Bootstrap(cfg, mode, EMPTY).db;
    var id := FirstVersionId(e);
    if id in t.versions then t.(versions := t.versions[id := t.versions[id].(status := "archived")]) else t
  }

  /** Such a registry is like what the first apply left, with its only version for `e` archived. */
  ghost predicate IsArchived(es: seq<Expectation>, t: Tables, a: Tables, e: Expectation) {
    && a == t.(versions := a.versions) && a.versions.Keys == t.versions.Keys
    && Trapped(a, e)
    && (forall k :: k in a.versions && a.versions[k].templateId == e.templateId ==> a.versions[k].version == "v1")
    && (forall j :: 0 <= j < |es| && es[j].templateId != e.templateId ==>
          ActiveVersions(a, es[j].templateId) == ActiveVersions(t, es[j].templateId))
  }

  lemma OnlyFirstVersion(t: Tables, es: seq<Expectation>, i: nat)
    requires RowsOf(t, es) && AllApart(es) && i < |es|
    ensures forall k :: k in t.versions ==>
      t.versions[k].version == "v1" && (t.versions[k].templateId == es[i].templateId <==> k == FirstVersionId(es[i]))
  {
    FirstVersionIdForm(es[i]);
    hide FirstVersionId, BeforeLastColon, AfterLastColon, ContractPrefix;
    forall k | k in t.versions
      ensures t.versions[k].version == "v1"
      ensures t.versions[k].templateId == es[i].templateId <==> k == FirstVersionId(es[i])
    {
      var j :| 0 <= j < |es| && VersionOf(t, k, es[j]);
      FirstVersionIdForm(es[j]);
      assert j < i ==> Apart(es[j], es[i]);
      assert i < j ==> Apart(es[i], es[j]);
    }
  }

  lemma OtherActive(t: Tables, a: Tables, id: string, templateId: string)
    requires a.versions.Keys == t.versions.Keys
    requires forall k :: k in t.versions && k != id ==> a.versions[k] == t.versions[k]
    requires id in t.versions && t.versions[id].templateId != templateId && a.versions[id].templateId != templateId
    ensures ActiveVersions(a, templateId) == ActiveVersions(t, templateId)
  {
  }

  lemma ArchiveOne(t: Tables, es: seq<Expectation>, e: Expectation)
    requires forall k :: k in t.versions ==>
      t.versions[k].version == "v1" && (t.versions[k].templateId == e.templateId <==> k == FirstVersionId(e))
    requires ActiveVersions(t, e.templateId) != map[]
    ensures FirstVersionId(e) in t.versions
    ensures var id := FirstVersionId(e);
            IsArchived(es, t, t.(versions := t.versions[id := t.versions[id].(status := "archived")]), e)
  {
    hide FirstVersionId;
    var id :| id in ActiveVersions(t, e.templateId);
    assert id == FirstVersionId(e);
    var a := t.(versions := t.versions[id := t.versions[id].(status := "archived")]);
    assert Trapped(a, e);
    hide ActiveVersions, Trapped;
    forall j | 0 <= j < |es| && es[j].templateId != e.templateId
      ensures ActiveVersions(a, es[j].templateId) == ActiveVersions(t, es[j].templateId)
    {
      OtherActive(t, a, id, es[j].templateId);
    }
  }

  lemma ArchivedIsTrapped(cfg: Config, mode: Mode, i: nat)
    requires mode.apply && GoodConfig(cfg) && i < |cfg.expectations|
    ensures var e := cfg.expectations[i];
            var a := Archived(cfg, mode, e);
            IsArchived(cfg.expectations, Bootstrap(cfg, mode, EMPTY).db, a, e) && WellBound(a)
  {
    FreshRun(cfg, mode);
    ApplyResult(cfg, mode, EMPTY, i);
    hide Bootstrap, PicksNewest, GoodExpectation, NoDuplicates, Settled, Unmissed, ActiveVersions, RowsOf, FirstVersionId;
    var t := Bootstrap(cfg, mode, EMPTY).db;
    OnlyFirstVersion(t, cfg.expectations, i);
    ArchiveOne(t, cfg.expectations, cfg.expectations[i]);
  }

  /** The text of a suffixed first version is not that of a first version. */
  lemma SuffixedText(e: Expectation, n: nat)
    ensures AfterLastColon(Suffixed(FirstVersionId(e), n)) != "v1"
  {
    var digits := Decimal.Digits(n);
    FirstVersionIdForm(e);
    DigitsColonFree(n);
    hide Decimal.Digits;
    var tail := "v1" + ("-bootstrap-" + digits);
    ConcatAssociative(e.templateId + ":", "v1", "-bootstrap-" + digits);
    ConcatAssociative(e.templateId + ":" + "v1", "-bootstrap-", digits);
    assert ColonFree("v1") && ColonFree("-bootstrap-");
    assert ColonFree(tail);
    LastColon(e.templateId, tail);
  }

  lemma NextTextDiffers(t: Tables, e: Expectation)
    requires FirstVersionId(e) in t.versions
    ensures NextVersionText(t, e) != "v1"
  {
    var keys := t.versions.Keys;
    assert IsNextId(keys, FirstVersionId(e), NextId(keys, FirstVersionId(e)));
    hide NextId, FirstVersionId, Suffixed, AfterLastColon;
    var n: nat :| FirstFree(keys, FirstVersionId(e), n) && NextId(keys, FirstVersionId(e)) == Suffixed(FirstVersionId(e), n);
    SuffixedText(e, n);
  }

  /** A second apply on such a registry succeeds. */
  lemma ArchivedApplies(cfg: Config, first: Mode, mode: Mode, i: nat)
    requires first.apply && GoodConfig(cfg) && i < |cfg.expectations|
    ensures !Bootstrap(cfg, mode, Archived(cfg, first, cfg.expectations[i])).conflict
  {
    var e := cfg.expectations[i];
    var t, a := Bootstrap(cfg, first, EMPTY).db, Archived(cfg, first, e);
    FreshRun(cfg, first);
    ArchivedIsTrapped(cfg, first, i);
    assert PicksNewest(cfg.newest) && AllApart(cfg.expectations) && WellBound(EMPTY);
    hide Bootstrap, Archived, GoodConfig, RowsOf, WellBound, Clash, StepResult, AllApart;
    forall j | 0 <= j < |cfg.expectations|
      ensures !Clash(a, cfg.expectations[j])
    {
      ApplyResult(cfg, first, EMPTY, j);
      SameOrApart(cfg.expectations, i, j);
      ArchivedClash(cfg, first, t, a, e, j);
    }
    forall j | 0 <= j < |cfg.audiences|
      ensures SettledAudience(cfg, a, cfg.audiences[j])
    {
      ApplyResult(cfg, first, EMPTY, j);
    }
    OnlyBindingsSucceeds(cfg, mode, a);
  }

  lemma SameOrApart(es: seq<Expectation>, i: nat, j: nat)
    requires AllApart(es) && i < |es| && j < |es|
    ensures i == j || es[i].templateId != es[j].templateId
  {
    assert i < j ==> Apart(es[i], es[j]);
    assert j < i ==> Apart(es[j], es[i]);
  }

  lemma ArchivedClash(cfg: Config, first: Mode, t: Tables, a: Tables, e: Expectation, j: nat)
    requires j < |cfg.expectations| && IsArchived(cfg.expectations, t, a, e)
    requires StepResult(cfg, first, EMPTY, t, cfg.expectations[j])
    requires cfg.expectations[j] == e || cfg.expectations[j].templateId != e.templateId
    ensures !Clash(a, cfg.expectations[j])
  {
    var d := cfg.expectations[j];
    assert ActiveContracts(a, d) == ActiveContracts(t, d);
    hide Settled, Unmissed, ActiveVersions, ActiveContracts, FirstVersionId, NextVersionText;
    if d == e {
      NextTextDiffers(a, e);
    }
  }

  /**
   * But if queries do not see added rows, a third run still has work to do, and the audit still finds no binding to the
   * active version of that template.
   */
  lemma OneApplyIsNotEnough(cfg: Config, first: Mode, mode: Mode, again: Mode, i: nat)
    requires first.apply && mode.apply && !mode.autoflush && GoodConfig(cfg) && i < |cfg.expectations|
    ensures var e := cfg.expectations[i];
            var r := Bootstrap(cfg, mode, Archived(cfg, first, e));
            && !r.conflict
            && Bootstrap(cfg, again, r.db).actions != []
            && !ReportsNothingMissing(Issues(cfg, r.db, e))
  {
    var a := Archived(cfg, first, cfg.expectations[i]);
    ArchivedApplies(cfg, first, mode, i);
    ArchivedIsTrapped(cfg, first, i);
    hide Bootstrap, Trapped, Archived, WellBound, PicksNewest, ReportsNothingMissing, Issues, AllApart, NoDuplicates;
    ApplyTwiceExactly(cfg, mode, again, a);
    AuditAfterApplyExactly(cfg, mode, a, i);
  }

  /** In particular for the program as it ships: its own registry, and any one of its ten first versions archived. */
  lemma ShippedApplyIsNotEnough(
    digest: string -> string, newest: map<string, int> -> string, first: Mode, mode: Mode, again: Mode, i: nat)
    requires PicksNewest(newest) && TellsApart(ShippedConfig(digest, newest), AUDIENCES)
    requires first.apply && mode.apply && !mode.autoflush && i < |EXPECTATIONS|
    ensures var cfg := ShippedConfig(digest, newest);
            var r := Bootstrap(cfg, mode, Archived(cfg, first, EXPECTATIONS[i]));
            && !r.conflict
            && Bootstrap(cfg, again, r.db).actions != []
            && !ReportsNothingMissing(Issues(cfg, r.db, EXPECTATIONS[i]))
  {
    var cfg := ShippedConfig(digest, newest);
    ShippedConfigIsGood(digest, newest);
    assert cfg.expectations[i] == EXPECTATIONS[i];
    hide GoodConfig, ToldApart, TellsApart, Bootstrap, Archived, ReportsNothingMissing, Issues;
    OneApplyIsNotEnough(cfg, first, mode, again, i);
  }

  // ----- applies that fail ------------------------------------------------------------------

  lemma {:induction false} PhrasesThere(cfg: Config, mode: Mode, ids: seq<string>, i: nat)
    requires mode.apply && Separate(cfg, ids) && NoDuplicates(AllPhraseIds(cfg, ids)) && i < |ids|
    requires !AudienceSteps(cfg, mode, Open(EMPTY), ids).conflict
    ensures forall k :: k in PhraseIds(cfg, ids[i], cfg.phrases(ids[i])) ==>
      k in AudienceSteps(cfg, mode, Open(EMPTY), ids).db.phrases
  {
    var front, id := ids[..|ids| - 1], ids[|ids| - 1];
    var known, added := AllPhraseIds(cfg, front), PhraseIds(cfg, id, cfg.phrases(id));
    var before := AudienceSteps(cfg, mode, Open(EMPTY), front);
    assert forall j :: 0 <= j < |front| ==> front[j] == ids[j];
    NoDuplicatesPrefix(known, added);
    NoDuplicatesSuffix(known, added);
    AudienceGrew(cfg, mode, before, id);
    hide AudienceStep, PhraseIds, NoDuplicates, HasActivePhrase, AllPhraseIds;
    if i < |front| {
      PhrasesThere(cfg, mode, front, i);
    } else {
      AudiencesForOthers(cfg, mode, Open(EMPTY), front, id);
      AudiencesGrew(cfg, mode, Open(EMPTY), front);
      NewPhrasesThere(cfg, mode, before, id);
    }
  }

  lemma NewPhrasesThere(cfg: Config, mode: Mode, st: State, id: string)
    requires mode.apply && (st.seen == st.db || st.seen == EMPTY) && SameAudience(cfg, EMPTY, st.db, id)
    requires NoDuplicates(PhraseIds(cfg, id, cfg.phrases(id)))
    ensures forall k :: k in PhraseIds(cfg, id, cfg.phrases(id)) ==> k in AudienceStep(cfg, mode, st, id).db.phrases
  {
    var present := if id in st.seen.audiences then st else PutAudience(cfg, mode, st, id);
    assert !HasActivePhrase(EMPTY, cfg.phraseSet(id));
    assert !HasActivePhrase(present.seen, cfg.phraseSet(id));
    hide HasActivePhrase, PutAudience, PhraseIds, NoDuplicates;
    PhrasesConflict(cfg, mode, present, id, cfg.phrases(id));
  }

  lemma FreshPhrases(cfg: Config, mode: Mode, i: nat)
    requires mode.apply && GoodConfig(cfg) && i < |cfg.audiences|
    ensures forall k :: k in PhraseIds(cfg, cfg.audiences[i], cfg.phrases(cfg.audiences[i])) ==>
      k in Bootstrap(cfg, mode, EMPTY).db.phrases
  {
    var a := AudienceSteps(cfg, mode, Open(EMPTY), cfg.audiences);
    FreshRun(cfg, mode);
    ExpectationsGrew(cfg, mode, Flush(mode, a), cfg.expectations);
    hide AudienceSteps, ExpectationSteps, NoDuplicates, AllApart, RowsOf, PhraseIds, AudienceRows;
    PhrasesThere(cfg, mode, cfg.audiences, i);
  }

  /** The tables with all phrases of one set deactivated. */
  function Deactivate(t: Tables, setId: string): Tables {
    t.(phrases := map k | k in t.phrases ::
         if t.phrases[k].setId == setId then t.phrases[k].(isActive := false) else t.phrases[k])
  }

  lemma DeactivatedClash(cfg: Config, t: Tables, id: string)
    requires cfg.phrases(id) != []
    requires forall k :: k in PhraseIds(cfg, id, cfg.phrases(id)) ==> k in t.phrases
    ensures AudienceClash(cfg, Deactivate(t, cfg.phraseSet(id)), id)
  {
    var ids := PhraseIds(cfg, id, cfg.phrases(id));
    assert ids[0] in ids;
    assert PhraseTaken(Deactivate(t, cfg.phraseSet(id)), ids);
  }

  /** With all phrases of an audience deactivated since a first apply, an apply adds them again, and fails. */
  lemma DeactivatedPhrasesFail(cfg: Config, first: Mode, mode: Mode, i: nat)
    requires first.apply && mode.apply && GoodConfig(cfg)
    requires i < |cfg.audiences| && cfg.phrases(cfg.audiences[i]) != []
    ensures Bootstrap(cfg, mode, Deactivate(Bootstrap(cfg, first, EMPTY).db, cfg.phraseSet(cfg.audiences[i]))).conflict
  {
    hide Bootstrap, Deactivate, PhraseIds, AudienceClash, AnyClash, AllApart, SeparateAudiences, NoDuplicates;
    var t := Bootstrap(cfg, first, EMPTY).db;
    FreshPhrases(cfg, first, i);
    DeactivatedClash(cfg, t, cfg.audiences[i]);
    ApplyFailsExactly(cfg, mode, Deactivate(t, cfg.phraseSet(cfg.audiences[i])));
  }

  /** The tables with the first version of a template archived under another id, and no longer bound. */
  function Relocate(t: Tables, e: Expectation, id: string): Tables {
    t.(versions := (t.versions - {FirstVersionId(e)})[id := Version(e.templateId, "v1", "archived", 0)],
       bindings := map k | k in t.bindings && t.bindings[k].versionId != FirstVersionId(e) :: t.bindings[k])
  }

  lemma RelocatedClash(t: Tables, e: Expectation, id: string)
    requires id != FirstVersionId(e) && WellBound(t)
    requires forall k :: k in t.versions ==> (t.versions[k].templateId == e.templateId <==> k == FirstVersionId(e))
    ensures WellBound(Relocate(t, e, id)) && Clash(Relocate(t, e, id), e)
  {
    var r := Relocate(t, e, id);
    NextVersionId(r.versions.Keys, e);
    assert NextVersionText(r, e) == "v1";
    hide NextId, NextVersionText, FirstVersionId;
    assert r.versions[id].version == "v1" && VersionTaken(r, e.templateId, "v1");
    assert ActiveVersions(r, e.templateId) == map[];
  }

  /** With a first version archived under another id since, an apply gives the new one a taken version text, and fails. */
  lemma RelocatedVersionFails(cfg: Config, first: Mode, mode: Mode, i: nat, id: string)
    requires first.apply && mode.apply && GoodConfig(cfg) && i < |cfg.expectations|
    requires id != FirstVersionId(cfg.expectations[i])
    ensures var r := Relocate(Bootstrap(cfg, first, EMPTY).db, cfg.expectations[i], id);
            WellBound(r) && Bootstrap(cfg, mode, r).conflict
  {
    hide Bootstrap, Relocate, FirstVersionId, RowsOf, StepResult, Clash, AnyAudienceClash, WellBound;
    var t, e := Bootstrap(cfg, first, EMPTY).db, cfg.expectations[i];
    FreshRun(cfg, first);
    EmptyIsWellBound();
    ApplyResult(cfg, first, EMPTY, i);
    OnlyFirstVersion(t, cfg.expectations, i);
    RelocatedClash(t, e, id);
    ApplyFailsExactly(cfg, mode, Relocate(t, e, id));
  }

  lemma EmptyIsWellBound()
    ensures WellBound(EMPTY)
  {
  }

  /** Both for the program as it ships. */
  lemma ShippedAppliesFail(
    digest: string -> string, newest: map<string, int> -> string, first: Mode, mode: Mode, i: nat, j: nat, id: string)
    requires PicksNewest(newest) && TellsApart(ShippedConfig(digest, newest), AUDIENCES)
    requires first.apply && mode.apply && i < |AUDIENCES| && j < |EXPECTATIONS|
    requires id != FirstVersionId(EXPECTATIONS[j])
    ensures var cfg := ShippedConfig(digest, newest);
            var t := Bootstrap(cfg, first, EMPTY).db;
            && Bootstrap(cfg, mode, Deactivate(t, PhraseSet(AUDIENCES[i]))).conflict
            && Bootstrap(cfg, mode, Relocate(t, EXPECTATIONS[j], id)).conflict
  {
    var cfg := ShippedConfig(digest, newest);
    ShippedConfigIsGood(digest, newest);
    ShippedPhrases(AUDIENCES[i]);
    assert cfg.audiences[i] == AUDIENCES[i] && cfg.expectations[j] == EXPECTATIONS[j];
    hide GoodConfig, TellsApart, Bootstrap, Deactivate, Relocate, PhraseSet, Phrases, AUDIENCES, EXPECTATIONS;
    hide FirstVersionId;
    DeactivatedPhrasesFail(cfg, first, mode, i);
    RelocatedVersionFails(cfg, first, mode, j, id);
  }
}
