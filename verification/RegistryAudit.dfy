/** The ten issues of the registry audit, each on the rows of the tables. */
module RegistryAudit {
  import opened Prelude
  import opened Registry

  // ----- rows the audit asks for -----------------------------------------------------

  ghost predicate IsActiveVersion(t: Tables, e: Expectation, id: string) {
    id in t.versions && t.versions[id].templateId == e.templateId && t.versions[id].status == "active"
  }

  ghost predicate IsGlobalBinding(t: Tables, e: Expectation, id: string, versionId: string) {
    && id in t.bindings && t.bindings[id].templateId == e.templateId
    && t.bindings[id].scopeType == "global" && t.bindings[id].versionId == versionId
  }

  ghost predicate IsActiveContract(t: Tables, e: Expectation, id: string) {
    && id in t.contracts && t.contracts[id].isActive
    && t.contracts[id].artifactType == e.artifactType && t.contracts[id].audienceId == e.audienceId
  }

  /** The contract is the one the audit looks at: an active one, and none of the active ones is younger. */
  ghost predicate IsNewestContract(cfg: Config, t: Tables, e: Expectation, id: string) {
    && IsActiveContract(t, e, id)
    && (forall k :: IsActiveContract(t, e, k) ==> t.contracts[k].createdAt <= t.contracts[id].createdAt)
    && id == cfg.newest(ActiveContracts(t, e))
  }

  ghost predicate IsActivePhrase(t: Tables, setId: string, id: string) {
    id in t.phrases && t.phrases[id].setId == setId && t.phrases[id].isActive
  }

  // ----- the issues ------------------------------------------------------------------

  /** What each issue says of the rows. */
  ghost predicate Holds(cfg: Config, t: Tables, e: Expectation, issue: Issue) {
    var there := e.templateId in t.templates;
    match issue
    case MissingTemplate => !there
    case TemplateArtifactTypeMismatch => there && t.templates[e.templateId].artifactType != e.artifactType
    case StageMismatch => there && t.templates[e.templateId].stage != e.stage
    case AudienceMissingOrInactive => e.audienceId in t.audiences ==> !t.audiences[e.audienceId].isActive
    case MissingActiveVersion => there ==> forall v :: !IsActiveVersion(t, e, v)
    case MissingBindingToActiveVersion =>
      there ==> forall v, b :: IsActiveVersion(t, e, v) ==> !IsGlobalBinding(t, e, b, v)
    case MissingActiveContract => forall c :: !IsActiveContract(t, e, c)
    case MissingRequiredFactPaths =>
      exists c, path :: IsNewestContract(cfg, t, e, c) && path in e.requiredPaths && path !in t.contracts[c].requiredPaths
    case MissingForbiddenClaims =>
      exists c :: IsNewestContract(cfg, t, e, c) && t.contracts[c].forbiddenClaims < e.minForbiddenClaims
    case MissingForbiddenPhrases =>
      && e.requiresPhrases
      && (e.audienceId in t.audiences && t.audiences[e.audienceId].phraseSetId.Some?
          && t.audiences[e.audienceId].phraseSetId.value != "" ==>
            forall p :: !IsActivePhrase(t, t.audiences[e.audienceId].phraseSetId.value, p))
  }

  lemma TemplateExactly(t: Tables, e: Expectation, issue: Issue)
    ensures issue in TemplateIssues(t, e) <==>
      match issue
      case MissingTemplate => e.templateId !in t.templates
      case TemplateArtifactTypeMismatch =>
        e.templateId in t.templates && t.templates[e.templateId].artifactType != e.artifactType
      case StageMismatch => e.templateId in t.templates && t.templates[e.templateId].stage != e.stage
      case _ => false
  {
  }

  lemma VersionsExactly(t: Tables, e: Expectation)
    ensures ActiveVersions(t, e.templateId).Keys == {} <==> forall v :: !IsActiveVersion(t, e, v)
    ensures ActiveVersions(t, e.templateId).Keys * GloballyBound(t, e.templateId) == {}
            <==> forall v, b :: IsActiveVersion(t, e, v) ==> !IsGlobalBinding(t, e, b, v)
  {
    var active, bound := ActiveVersions(t, e.templateId).Keys, GloballyBound(t, e.templateId);
    forall v
      ensures v in active <==> IsActiveVersion(t, e, v)
      ensures v in bound <==> exists b :: IsGlobalBinding(t, e, b, v)
    {
      if v in bound {
        var b :| b in t.bindings && t.bindings[b].templateId == e.templateId && t.bindings[b].scopeType == "global"
              && t.bindings[b].versionId == v;
        assert IsGlobalBinding(t, e, b, v);
      }
    }
    hide ActiveVersions, GloballyBound, IsActiveVersion, IsGlobalBinding;
    if active * bound == {} {
      forall v, b | IsActiveVersion(t, e, v)
        ensures !IsGlobalBinding(t, e, b, v)
      {
        assert v !in active * bound;
      }
    }
  }

  lemma VersionIssuesExactly(t: Tables, e: Expectation, issue: Issue)
    ensures issue in VersionIssues(t, e) <==>
      match issue
      case MissingActiveVersion => e.templateId in t.templates ==> forall v :: !IsActiveVersion(t, e, v)
      case MissingBindingToActiveVersion =>
        e.templateId in t.templates ==> forall v, b :: IsActiveVersion(t, e, v) ==> !IsGlobalBinding(t, e, b, v)
      case _ => false
  {
    VersionsExactly(t, e);
    hide ActiveVersions, GloballyBound, IsActiveVersion, IsGlobalBinding;
  }

  lemma ContractsExactly(cfg: Config, t: Tables, e: Expectation)
    requires PicksNewest(cfg.newest)
    ensures ActiveContracts(t, e) == map[] <==> forall c :: !IsActiveContract(t, e, c)
    ensures ActiveContracts(t, e) != map[] ==> IsNewestContract(cfg, t, e, cfg.newest(ActiveContracts(t, e)))
  {
    var active := ActiveContracts(t, e);
    forall c
      ensures c in active <==> IsActiveContract(t, e, c)
      ensures c in active ==> active[c] == t.contracts[c].createdAt
    {
    }
    hide ActiveContracts, IsActiveContract;
    if active != map[] {
      assert cfg.newest(active) in active;
    } else {
      assert forall c :: c !in active;
    }
  }

  lemma ContractIssuesExactly(cfg: Config, t: Tables, e: Expectation, issue: Issue)
    requires PicksNewest(cfg.newest)
    ensures issue in ContractIssues(cfg, t, e) <==>
      match issue
      case MissingActiveContract => forall c :: !IsActiveContract(t, e, c)
      case MissingRequiredFactPaths =>
        exists c, path :: IsNewestContract(cfg, t, e, c) && path in e.requiredPaths && path !in t.contracts[c].requiredPaths
      case MissingForbiddenClaims =>
        exists c :: IsNewestContract(cfg, t, e, c) && t.contracts[c].forbiddenClaims < e.minForbiddenClaims
      case _ => false
  {
    ContractsExactly(cfg, t, e);
    var id := cfg.newest(ActiveContracts(t, e));
    assert forall c :: IsNewestContract(cfg, t, e, c) ==> c == id && IsActiveContract(t, e, c);
    if ActiveContracts(t, e) != map[] {
      PathsExactly(t.contracts[id], e);
    }
    hide ActiveContracts, IsActiveContract, IsNewestContract, PathsMissing, PicksNewest;
  }

  lemma PathsExactly(c: Contract, e: Expectation)
    ensures PathsMissing(c, e) <==> exists path :: path in e.requiredPaths && path !in c.requiredPaths
  {
  }

  lemma AudienceIssuesExactly(t: Tables, e: Expectation, issue: Issue)
    ensures issue in AudienceIssues(t, e) <==>
      issue == AudienceMissingOrInactive && (e.audienceId in t.audiences ==> !t.audiences[e.audienceId].isActive)
  {
  }

  lemma PhraseIssuesExactly(t: Tables, e: Expectation, issue: Issue)
    ensures issue in PhraseIssues(t, e) <==>
      && issue == MissingForbiddenPhrases && e.requiresPhrases
      && (e.audienceId in t.audiences && t.audiences[e.audienceId].phraseSetId.Some?
          && t.audiences[e.audienceId].phraseSetId.value != "" ==>
            forall p :: !IsActivePhrase(t, t.audiences[e.audienceId].phraseSetId.value, p))
  {
    forall setId {
      PhrasesExactly(t, setId);
    }
    hide HasActivePhrase, IsActivePhrase;
  }

  lemma PhrasesExactly(t: Tables, setId: string)
    ensures HasActivePhrase(t, setId) <==> exists p :: IsActivePhrase(t, setId, p)
  {
    if p :| p in t.phrases && t.phrases[p].setId == setId && t.phrases[p].isActive {
      assert IsActivePhrase(t, setId, p);
    }
  }

  /** The audit reports each issue exactly when the rows say so. */
  lemma IssuesExactly(cfg: Config, t: Tables, e: Expectation, issue: Issue)
    requires PicksNewest(cfg.newest)
    ensures issue in Issues(cfg, t, e) <==> Holds(cfg, t, e, issue)
  {
    TemplateExactly(t, e, issue);
    AudienceIssuesExactly(t, e, issue);
    VersionIssuesExactly(t, e, issue);
    ContractIssuesExactly(cfg, t, e, issue);
    PhraseIssuesExactly(t, e, issue);
    hide TemplateIssues, AudienceIssues, VersionIssues, ContractIssues, PhraseIssues, PicksNewest;
    hide IsActiveVersion, IsGlobalBinding, IsActiveContract, IsNewestContract, IsActivePhrase;
  }

  // ----- order -------------------------------------------------------------------------

  function Rank(issue: Issue): nat {
    match issue
    case MissingTemplate => 0
    case TemplateArtifactTypeMismatch => 1
    case StageMismatch => 2
    case AudienceMissingOrInactive => 3
    case MissingActiveVersion => 4
    case MissingBindingToActiveVersion => 5
    case MissingActiveContract => 6
    case MissingRequiredFactPaths => 7
    case MissingForbiddenClaims => 8
    case MissingForbiddenPhrases => 9
  }

  ghost predicate Ranked(issues: seq<Issue>, lo: nat, hi: nat) {
    && (forall i :: 0 <= i < |issues| ==> lo <= Rank(issues[i]) < hi)
    && (forall i, j :: 0 <= i < j < |issues| ==> Rank(issues[i]) < Rank(issues[j]))
  }

  lemma RankedConcat(a: seq<Issue>, b: seq<Issue>, lo: nat, mid: nat, hi: nat)
    requires lo <= mid <= hi && Ranked(a, lo, mid) && Ranked(b, mid, hi)
    ensures Ranked(a + b, lo, hi)
  {
  }

  /** The issues of one expectation come in a fixed order, none twice. */
  lemma IssuesInOrder(cfg: Config, t: Tables, e: Expectation)
    ensures Ranked(Issues(cfg, t, e), 0, 10)
  {
    var a, b, c := TemplateIssues(t, e), AudienceIssues(t, e), VersionIssues(t, e);
    var d, f := ContractIssues(cfg, t, e), PhraseIssues(t, e);
    PartsInOrder(cfg, t, e);
    hide Ranked, TemplateIssues, AudienceIssues, VersionIssues, ContractIssues, PhraseIssues;
    RankedConcat(a, b, 0, 3, 4);
    RankedConcat(a + b, c, 0, 4, 6);
    RankedConcat(a + b + c, d, 0, 6, 9);
    RankedConcat(a + b + c + d, f, 0, 9, 10);
  }

  lemma PartsInOrder(cfg: Config, t: Tables, e: Expectation)
    ensures Ranked(TemplateIssues(t, e), 0, 3) && Ranked(AudienceIssues(t, e), 3, 4)
    ensures Ranked(VersionIssues(t, e), 4, 6) && Ranked(ContractIssues(cfg, t, e), 6, 9)
    ensures Ranked(PhraseIssues(t, e), 9, 10)
  {
    TemplatePart(t, e);
    VersionPart(t, e);
    ContractPart(cfg, t, e);
    hide TemplateIssues, VersionIssues, ContractIssues, HasActivePhrase;
  }

  lemma TemplatePart(t: Tables, e: Expectation)
    ensures Ranked(TemplateIssues(t, e), 0, 3)
  {
  }

  lemma VersionPart(t: Tables, e: Expectation)
    ensures Ranked(VersionIssues(t, e), 4, 6)
  {
    hide ActiveVersions, GloballyBound;
  }

  lemma ContractPart(cfg: Config, t: Tables, e: Expectation)
    ensures Ranked(ContractIssues(cfg, t, e), 6, 9)
  {
    hide ActiveContracts, PathsMissing;
  }
}
