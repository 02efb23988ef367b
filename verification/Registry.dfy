/** The expression registry: the bootstrap that adds what is missing, and the audit that reports it. */
module Registry {
  import opened Prelude
  import Decimal

  // ----- tables ----------------------------------------------------------------

  datatype Audience = Audience(code: string, phraseSetId: Option<string>, isActive: bool)
  datatype Phrase = Phrase(setId: string, text: string, isActive: bool)
  datatype Template = Template(slug: string, artifactType: string, stage: string, defaultAudienceId: Option<string>)
  datatype Version = Version(templateId: string, version: string, status: string, createdAt: int)
  datatype Binding = Binding(scopeType: string, templateId: string, versionId: string)
  datatype Contract = Contract(
    artifactType: string,
    audienceId: string,
    version: string,
    requiredPaths: seq<string>,
    forbiddenClaims: nat,
    isActive: bool,
    createdAt: int)

  /** Every table maps its primary key to the row. */
  datatype Tables = Tables(
    audiences: map<string, Audience>,
    phrases: map<string, Phrase>,
    templates: map<string, Template>,
    versions: map<string, Version>,
    bindings: map<string, Binding>,
    contracts: map<string, Contract>)

  const EMPTY := Tables(map[], map[], map[], map[], map[], map[])

  /** What the registry must hold for one kind of artifact. */
  datatype Expectation = Expectation(
    artifactType: string,
    audienceId: string,
    templateId: string,
    stage: string,
    requiredPaths: seq<string>,
    minForbiddenClaims: nat,
    requiresPhrases: bool)

  /**
   * The constants of the program and the answers of the database: the audiences in sorted order, each with its phrase
   * set and phrases, the digest of a phrase, and the row an ORDER BY created_at DESC, id DESC puts first.
   */
  datatype Config = Config(
    expectations: seq<Expectation>,
    audiences: seq<string>,
    phraseSet: string -> string,
    phrases: string -> seq<string>,
    digest: string -> string,
    newest: map<string, int> -> string)

  ghost predicate PicksNewest(newest: map<string, int> -> string) {
    forall m: map<string, int> :: m != map[] ==> newest(m) in m && forall k :: k in m ==> m[k] <= m[newest(m)]
  }

  // ----- queries -------------------------------------------------------------------

  predicate HasActivePhrase(t: Tables, setId: string) {
    exists id :: id in t.phrases && t.phrases[id].setId == setId && t.phrases[id].isActive
  }

  function ActiveVersions(t: Tables, templateId: string): map<string, int> {
    map id | id in t.versions && t.versions[id].templateId == templateId && t.versions[id].status == "active"
      :: t.versions[id].createdAt
  }

  function ActiveContracts(t: Tables, e: Expectation): map<string, int> {
    map id | id in t.contracts && t.contracts[id].artifactType == e.artifactType
             && t.contracts[id].audienceId == e.audienceId && t.contracts[id].isActive
      :: t.contracts[id].createdAt
  }

  /** The versions a template is bound to globally. */
  function GloballyBound(t: Tables, templateId: string): set<string> {
    set id | id in t.bindings && t.bindings[id].templateId == templateId && t.bindings[id].scopeType == "global"
      :: t.bindings[id].versionId
  }

  // ----- a fresh id -------------------------------------------------------------------

  function Suffixed(base: string, n: nat): string {
    base + "-bootstrap-" + Decimal.Digits(n)
  }

  lemma SuffixedInjective(base: string, m: nat, n: nat)
    requires Suffixed(base, m) == Suffixed(base, n)
    ensures m == n
  {
    var head := base + "-bootstrap-";
    DropPrefix(head, Decimal.Digits(m));
    DropPrefix(head, Decimal.Digits(n));
    Decimal.ValueOfDigits(m);
    Decimal.ValueOfDigits(n);
  }

  /** `id` is the base if that is free, and otherwise carries the smallest free suffix from 2 up. */
  ghost predicate IsNextId(keys: set<string>, base: string, id: string) {
    && id !in keys
    && (base !in keys ==> id == base)
    && (base in keys ==> exists n: nat :: FirstFree(keys, base, n) && id == Suffixed(base, n))
  }

  ghost predicate FirstFree(keys: set<string>, base: string, n: nat) {
    n >= 2 && Suffixed(base, n) !in keys && forall m: nat :: 2 <= m < n ==> Suffixed(base, m) in keys
  }

  /** Searches from suffix `n` on; `left` are the keys not yet met, and the search ends because they run out. */
  function SearchFrom(keys: set<string>, left: set<string>, base: string, n: nat): (r: nat)
    requires left <= keys
    requires forall m: nat :: m >= n && Suffixed(base, m) in keys ==> Suffixed(base, m) in left
    ensures r >= n && Suffixed(base, r) !in keys
    ensures forall m: nat :: n <= m < r ==> Suffixed(base, m) in keys
    decreases |left|
  {
    var candidate := Suffixed(base, n);
    if candidate !in keys then n
    else
      assert |left - {candidate}| < |left|;
      assert forall m: nat :: m >= n + 1 && Suffixed(base, m) in keys ==> Suffixed(base, m) in left - {candidate} by {
        forall m: nat | m >= n + 1 && Suffixed(base, m) in keys
          ensures Suffixed(base, m) != candidate
        {
          if Suffixed(base, m) == candidate {
            SuffixedInjective(base, m, n);
          }
        }
      }
      SearchFrom(keys, left - {candidate}, base, n + 1)
  }

  function NextId(keys: set<string>, base: string): (id: string)
    ensures IsNextId(keys, base, id)
  {
    if base !in keys then base
    else
      var n := SearchFrom(keys, keys, base, 2);
      assert FirstFree(keys, base, n);
      Suffixed(base, n)
  }

  /** There is only one such id. */
  lemma NextIdUnique(keys: set<string>, base: string, p: string, q: string)
    requires IsNextId(keys, base, p) && IsNextId(keys, base, q)
    ensures p == q
  {
  }

  /** The search as the code runs it: count up until a candidate is not found. */
  method FindNextId(keys: set<string>, base: string) returns (id: string)
    ensures id == NextId(keys, base)
  {
    if base !in keys {
      return base;
    }
    var suffix: nat := 2;
    ghost var left := keys;
    while Suffixed(base, suffix) in keys
      invariant suffix >= 2 && left <= keys
      invariant forall m: nat :: 2 <= m < suffix ==> Suffixed(base, m) in keys
      invariant forall m: nat :: m >= suffix && Suffixed(base, m) in keys ==> Suffixed(base, m) in left
      decreases |left|
    {
      ghost var candidate := Suffixed(base, suffix);
      forall m: nat | m > suffix && Suffixed(base, m) in keys
        ensures Suffixed(base, m) != candidate
      {
        if Suffixed(base, m) == candidate {
          SuffixedInjective(base, m, suffix);
        }
      }
      assert |left - {candidate}| < |left|;
      left := left - {candidate};
      suffix := suffix + 1;
    }
    id := Suffixed(base, suffix);
    assert FirstFree(keys, base, suffix);
    NextIdUnique(keys, base, id, NextId(keys, base));
  }

  // ----- the session -----------------------------------------------------------------------

  datatype Kind = AudienceRow | PhraseRow | TemplateRow | VersionRow | BindingRow | ContractRow
  datatype Action = Action(kind: Kind, id: string)

  /** `apply` writes rows; `autoflush` lets queries see rows added earlier in the same transaction; `now` stamps them. */
  datatype Mode = Mode(apply: bool, autoflush: bool, now: int)

  /**
   * `db` holds all rows, added ones included; `seen` is what queries see of them. `conflict` says that some added row
   * breaks a primary key or unique constraint, so that the transaction fails and leaves nothing behind.
   */
  datatype State = State(db: Tables, seen: Tables, conflict: bool, actions: seq<Action>, created: seq<Action>)

  function Open(t: Tables): State {
    State(t, t, false, [], [])
  }

  /** Records an action, and in apply mode adds its row. */
  function Put(mode: Mode, st: State, action: Action, db: Tables, clash: bool): State {
    var planned := st.(actions := st.actions + [action]);
    if mode.apply then
      planned.(
        db := db,
        seen := if mode.autoflush then db else st.seen,
        conflict := st.conflict || clash,
        created := st.created + [action])
    else planned
  }

  function Flush(mode: Mode, st: State): State {
    if mode.apply then st.(seen := st.db) else st
  }

  // ----- one audience --------------------------------------------------------------------------

  function PhraseId(cfg: Config, audienceId: string, phrase: string): string {
    cfg.phraseSet(audienceId) + ":" + cfg.digest(phrase)
  }

  function PutAudience(cfg: Config, mode: Mode, st: State, id: string): State {
    var row := Audience(id, Some(cfg.phraseSet(id)), true);
    var clash := id in st.db.audiences || exists k :: k in st.db.audiences && st.db.audiences[k].code == id;
    Put(mode, st, Action(AudienceRow, id), st.db.(audiences := st.db.audiences[id := row]), clash)
  }

  function PutPhrase(cfg: Config, mode: Mode, st: State, audienceId: string, phrase: string): State {
    var id := PhraseId(cfg, audienceId, phrase);
    var row := Phrase(cfg.phraseSet(audienceId), phrase, true);
    Put(mode, st, Action(PhraseRow, id), st.db.(phrases := st.db.phrases[id := row]), id in st.db.phrases)
  }

  function PutPhrases(cfg: Config, mode: Mode, st: State, audienceId: string, phrases: seq<string>): State {
    if phrases == [] then st
    else
      var before := PutPhrases(cfg, mode, st, audienceId, phrases[..|phrases| - 1]);
      PutPhrase(cfg, mode, before, audienceId, phrases[|phrases| - 1])
  }

  function AudienceStep(cfg: Config, mode: Mode, st: State, id: string): State {
    var present := if id in st.seen.audiences then st else PutAudience(cfg, mode, st, id);
    if HasActivePhrase(present.seen, cfg.phraseSet(id)) then present
    else PutPhrases(cfg, mode, present, id, cfg.phrases(id))
  }

  // ----- one expectation -----------------------------------------------------------------------

  function FirstVersionId(e: Expectation): string {
    e.templateId + ":v1"
  }

  function ContractBase(e: Expectation): string {
    e.artifactType + ":" + e.audienceId + ":v1"
  }

  /** `text.rsplit(":", 1)[-1]`. */
  function AfterLastColon(text: string): string {
    if text == "" || text[|text| - 1] == ':' then ""
    else AfterLastColon(text[..|text| - 1]) + [text[|text| - 1]]
  }

  function BindingBase(e: Expectation, versionId: string): string {
    "global:" + e.templateId + ":" + AfterLastColon(versionId)
  }

  function PutTemplate(mode: Mode, st: State, e: Expectation): State {
    var id := e.templateId;
    var row := Template(id, e.artifactType, e.stage, Some(e.audienceId));
    var clash := id in st.db.templates || exists k :: k in st.db.templates && st.db.templates[k].slug == id;
    Put(mode, st, Action(TemplateRow, id), st.db.(templates := st.db.templates[id := row]), clash)
  }

  function TemplateStep(mode: Mode, st: State, e: Expectation): State {
    if e.templateId in st.seen.templates then st else PutTemplate(mode, st, e)
  }

  function NewVersion(mode: Mode, e: Expectation, id: string): Version {
    Version(e.templateId, if id == FirstVersionId(e) then "v1" else AfterLastColon(id), "active", mode.now)
  }

  function PutVersion(mode: Mode, st: State, e: Expectation, id: string): State {
    var row := NewVersion(mode, e, id);
    var clash := id in st.db.versions
      || exists k :: k in st.db.versions && st.db.versions[k].templateId == row.templateId
           && st.db.versions[k].version == row.version;
    Put(mode, st, Action(VersionRow, id), st.db.(versions := st.db.versions[id := row]), clash)
  }

  /** Adds a version if no active one is seen. */
  function VersionStep(mode: Mode, st: State, e: Expectation): State {
    if ActiveVersions(st.seen, e.templateId) != map[] then st
    else PutVersion(mode, st, e, NextId(st.seen.versions.Keys, FirstVersionId(e)))
  }

  /** The version the binding is looked up for: the newest active one, or the added one if it can be seen, or `:v1`. */
  function BoundVersionId(cfg: Config, mode: Mode, st: State, e: Expectation): string {
    var active := ActiveVersions(st.seen, e.templateId);
    if active != map[] then cfg.newest(active)
    else
      var id := NextId(st.seen.versions.Keys, FirstVersionId(e));
      if mode.apply && id in PutVersion(mode, st, e, id).seen.versions then id else FirstVersionId(e)
  }

  function PutBinding(mode: Mode, st: State, e: Expectation, versionId: string, id: string): State {
    var row := Binding("global", e.templateId, versionId);
    Put(mode, st, Action(BindingRow, id), st.db.(bindings := st.db.bindings[id := row]), id in st.db.bindings)
  }

  function BindingStep(mode: Mode, st: State, e: Expectation, versionId: string): State {
    if versionId in GloballyBound(st.seen, e.templateId) then st
    else PutBinding(mode, st, e, versionId, NextId(st.seen.bindings.Keys, BindingBase(e, versionId)))
  }

  /** How many of the three base claims a bootstrapped contract gets. */
  function ClaimCount(e: Expectation): nat {
    var wanted := if e.minForbiddenClaims == 0 then 1 else e.minForbiddenClaims;
    if wanted < 3 then wanted else 3
  }

  function NewContract(mode: Mode, e: Expectation, id: string): Contract {
    Contract(e.artifactType, e.audienceId, if id == ContractBase(e) then "v1" else "bootstrap-v1", e.requiredPaths,
             ClaimCount(e), true, mode.now)
  }

  function PutContract(mode: Mode, st: State, e: Expectation, id: string): State {
    var row := NewContract(mode, e, id);
    var clash := id in st.db.contracts
      || exists k :: k in st.db.contracts && st.db.contracts[k].artifactType == row.artifactType
           && st.db.contracts[k].audienceId == row.audienceId && st.db.contracts[k].version == row.version;
    Put(mode, st, Action(ContractRow, id), st.db.(contracts := st.db.contracts[id := row]), clash)
  }

  function ContractStep(mode: Mode, st: State, e: Expectation): State {
    if ActiveContracts(st.seen, e) != map[] then st
    else PutContract(mode, st, e, NextId(st.seen.contracts.Keys, ContractBase(e)))
  }

  function ExpectationStep(cfg: Config, mode: Mode, st: State, e: Expectation): State {
    var a := TemplateStep(mode, st, e);
    var b := VersionStep(mode, a, e);
    var c := BindingStep(mode, b, e, BoundVersionId(cfg, mode, a, e));
    ContractStep(mode, c, e)
  }

  // ----- the whole run ---------------------------------------------------------------------------

  function AudienceSteps(cfg: Config, mode: Mode, st: State, ids: seq<string>): State {
    if ids == [] then st
    else AudienceStep(cfg, mode, AudienceSteps(cfg, mode, st, ids[..|ids| - 1]), ids[|ids| - 1])
  }

  function ExpectationSteps(cfg: Config, mode: Mode, st: State, es: seq<Expectation>): State {
    if es == [] then st
    else ExpectationStep(cfg, mode, ExpectationSteps(cfg, mode, st, es[..|es| - 1]), es[|es| - 1])
  }

  function Bootstrap(cfg: Config, mode: Mode, t: Tables): State {
    var audiences := Flush(mode, AudienceSteps(cfg, mode, Open(t), cfg.audiences));
    Flush(mode, ExpectationSteps(cfg, mode, audiences, cfg.expectations))
  }

  class Session {
    const config: Config
    const mode: Mode
    var state: State

    constructor (config: Config, mode: Mode, t: Tables)
      ensures this.config == config && this.mode == mode && state == Open(t)
    {
      this.config, this.mode, state := config, mode, Open(t);
    }

    method BootstrapAudience(id: string)
      modifies this
      ensures state == AudienceStep(config, mode, old(state), id)
    {
      hide PutAudience, PutPhrase, HasActivePhrase;
      if id !in state.seen.audiences {
        state := PutAudience(config, mode, state, id);
      }
      if !HasActivePhrase(state.seen, config.phraseSet(id)) {
        var phrases := config.phrases(id);
        ghost var present := state;
        for n := 0 to |phrases|
          invariant state == PutPhrases(config, mode, present, id, phrases[..n])
        {
          state := PutPhrase(config, mode, state, id, phrases[n]);
          assert phrases[..n + 1][..n] == phrases[..n];
        }
        assert phrases[..|phrases|] == phrases;
      }
    }

    method BootstrapExpectation(e: Expectation)
      modifies this
      ensures state == ExpectationStep(config, mode, old(state), e)
    {
      hide PutTemplate, PutVersion, PutBinding, PutContract, ActiveVersions, GloballyBound, ActiveContracts;
      if e.templateId !in state.seen.templates {
        state := PutTemplate(mode, state, e);
      }
      ghost var before := state;
      assert before == TemplateStep(mode, old(state), e);

      var active := ActiveVersions(state.seen, e.templateId);
      var versionId := FirstVersionId(e);
      if active != map[] {
        versionId := config.newest(active);
      } else {
        var id := FindNextId(state.seen.versions.Keys, FirstVersionId(e));
        state := PutVersion(mode, state, e, id);
        if mode.apply && id in state.seen.versions {
          versionId := id;
        }
      }
      ghost var versioned := state;
      assert versioned == VersionStep(mode, before, e) && versionId == BoundVersionId(config, mode, before, e);

      if versionId !in GloballyBound(state.seen, e.templateId) {
        var id := FindNextId(state.seen.bindings.Keys, BindingBase(e, versionId));
        state := PutBinding(mode, state, e, versionId, id);
      }
      ghost var bound := state;
      assert bound == BindingStep(mode, versioned, e, versionId);

      if ActiveContracts(state.seen, e) == map[] {
        var id := FindNextId(state.seen.contracts.Keys, ContractBase(e));
        state := PutContract(mode, state, e, id);
      }
      assert state == ContractStep(mode, bound, e);
    }

    /** Audiences and their phrases first, then one expectation after the other. */
    method Run(t: Tables)
      requires state == Open(t)
      modifies this
      ensures state == Bootstrap(config, mode, t)
    {
      hide AudienceStep, ExpectationStep;
      for n := 0 to |config.audiences|
        invariant state == AudienceSteps(config, mode, Open(t), config.audiences[..n])
      {
        BootstrapAudience(config.audiences[n]);
        assert config.audiences[..n + 1][..n] == config.audiences[..n];
      }
      assert config.audiences[..|config.audiences|] == config.audiences;
      state := Flush(mode, state);
      ghost var start := state;
      for n := 0 to |config.expectations|
        invariant state == ExpectationSteps(config, mode, start, config.expectations[..n])
      {
        BootstrapExpectation(config.expectations[n]);
        assert config.expectations[..n + 1][..n] == config.expectations[..n];
      }
      assert config.expectations[..|config.expectations|] == config.expectations;
      state := Flush(mode, state);
    }
  }

  // ----- the audit ------------------------------------------------------------------------------------

  datatype Issue =
    | MissingTemplate
    | TemplateArtifactTypeMismatch
    | StageMismatch
    | AudienceMissingOrInactive
    | MissingActiveVersion
    | MissingBindingToActiveVersion
    | MissingActiveContract
    | MissingRequiredFactPaths
    | MissingForbiddenClaims
    | MissingForbiddenPhrases

  function When(condition: bool, issue: Issue): seq<Issue> {
    if condition then [issue] else []
  }

  predicate PathsMissing(c: Contract, e: Expectation) {
    exists i :: 0 <= i < |e.requiredPaths| && e.requiredPaths[i] !in c.requiredPaths
  }

  function TemplateIssues(t: Tables, e: Expectation): seq<Issue> {
    if e.templateId !in t.templates then [MissingTemplate]
    else
      var row := t.templates[e.templateId];
      When(row.artifactType != e.artifactType, TemplateArtifactTypeMismatch) + When(row.stage != e.stage, StageMismatch)
  }

  /** Versions and bindings are looked up only when the template exists. */
  function VersionIssues(t: Tables, e: Expectation): seq<Issue> {
    var present := e.templateId in t.templates;
    var active := if present then ActiveVersions(t, e.templateId).Keys else {};
    var bound := if present then GloballyBound(t, e.templateId) else {};
    When(active == {}, MissingActiveVersion) + When(active * bound == {}, MissingBindingToActiveVersion)
  }

  function ContractIssues(cfg: Config, t: Tables, e: Expectation): seq<Issue> {
    var active := ActiveContracts(t, e);
    if active == map[] then [MissingActiveContract]
    else
      var id := cfg.newest(active);
      if id !in t.contracts then []
      else
        When(PathsMissing(t.contracts[id], e), MissingRequiredFactPaths)
        + When(t.contracts[id].forbiddenClaims < e.minForbiddenClaims, MissingForbiddenClaims)
  }

  function AudienceIssues(t: Tables, e: Expectation): seq<Issue> {
    When(e.audienceId !in t.audiences || !t.audiences[e.audienceId].isActive, AudienceMissingOrInactive)
  }

  function PhraseIssues(t: Tables, e: Expectation): seq<Issue> {
    var covered :=
      && e.audienceId in t.audiences
      && t.audiences[e.audienceId].phraseSetId.Some?
      && t.audiences[e.audienceId].phraseSetId.value != ""
      && HasActivePhrase(t, t.audiences[e.audienceId].phraseSetId.value);
    When(e.requiresPhrases && !covered, MissingForbiddenPhrases)
  }

  /** The issues the audit reports for one expectation, in the order it reports them. */
  function Issues(cfg: Config, t: Tables, e: Expectation): seq<Issue> {
    TemplateIssues(t, e) + AudienceIssues(t, e) + VersionIssues(t, e) + ContractIssues(cfg, t, e) + PhraseIssues(t, e)
  }
}
