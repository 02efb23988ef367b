/** What any run of the bootstrap keeps: it only adds, it creates what it plans, and a dry run plans the same. */
module RegistryRuns {
  import opened Prelude
  import opened Registry
  import opened RegistryIds

  // ----- adding only -----------------------------------------------------------

  ghost predicate Within<T(!new)>(a: map<string, T>, b: map<string, T>) {
    forall id :: id in a ==> id in b && b[id] == a[id]
  }

  /** Every row of `a` is in `b`, unchanged. */
  ghost predicate Extends(a: Tables, b: Tables) {
    && Within(a.audiences, b.audiences)
    && Within(a.phrases, b.phrases)
    && Within(a.templates, b.templates)
    && Within(a.versions, b.versions)
    && Within(a.bindings, b.bindings)
    && Within(a.contracts, b.contracts)
  }

  lemma ExtendsTransitive(a: Tables, b: Tables, c: Tables)
    requires Extends(a, b) && Extends(b, c)
    ensures Extends(a, c)
  {
  }

  /** What every step does to a state, whatever the mode. */
  ghost predicate Grew(mode: Mode, a: State, b: State) {
    && a.actions <= b.actions
    && (mode.apply ==> b.created == a.created + b.actions[|a.actions|..])
    && (!mode.apply ==> b == a.(actions := b.actions))
    && (a.conflict ==> b.conflict)
    && (!b.conflict ==> Extends(a.db, b.db))
    && (mode.autoflush && a.seen == a.db ==> b.seen == b.db)
    && (!mode.autoflush ==> b.seen == a.seen)
  }

  lemma GrewRefl(mode: Mode, a: State)
    ensures Grew(mode, a, a)
  {
  }

  lemma GrewTransitive(mode: Mode, a: State, b: State, c: State)
    requires Grew(mode, a, b) && Grew(mode, b, c)
    ensures Grew(mode, a, c)
  {
  }

  lemma PutGrew(mode: Mode, st: State, action: Action, db: Tables, clash: bool)
    requires !clash ==> Extends(st.db, db)
    ensures Grew(mode, st, Put(mode, st, action, db, clash))
  {
  }

  lemma SelfExtends(t: Tables)
    ensures Extends(t, t)
  {
  }

  lemma {:induction false} PutPhrasesGrew(cfg: Config, mode: Mode, st: State, audienceId: string, phrases: seq<string>)
    ensures Grew(mode, st, PutPhrases(cfg, mode, st, audienceId, phrases))
  {
    if phrases == [] {
      GrewRefl(mode, st);
    } else {
      var front, phrase := phrases[..|phrases| - 1], phrases[|phrases| - 1];
      PutPhrasesGrew(cfg, mode, st, audienceId, front);
      var before := PutPhrases(cfg, mode, st, audienceId, front);
      PutPhraseGrew(cfg, mode, before, audienceId, phrase);
      hide Grew, PutPhrase;
      GrewTransitive(mode, st, before, PutPhrase(cfg, mode, before, audienceId, phrase));
    }
  }

  lemma PutPhraseGrew(cfg: Config, mode: Mode, st: State, audienceId: string, phrase: string)
    ensures Grew(mode, st, PutPhrase(cfg, mode, st, audienceId, phrase))
  {
  }

  lemma AudienceGrew(cfg: Config, mode: Mode, st: State, id: string)
    ensures Grew(mode, st, AudienceStep(cfg, mode, st, id))
  {
    hide Grew;
    GrewRefl(mode, st);
    var row := Audience(id, Some(cfg.phraseSet(id)), true);
    var clash := id in st.db.audiences || exists k :: k in st.db.audiences && st.db.audiences[k].code == id;
    PutGrew(mode, st, Action(AudienceRow, id), st.db.(audiences := st.db.audiences[id := row]), clash);
    var present := if id in st.seen.audiences then st else PutAudience(cfg, mode, st, id);
    PutPhrasesGrew(cfg, mode, present, id, cfg.phrases(id));
    GrewTransitive(mode, st, present, PutPhrases(cfg, mode, present, id, cfg.phrases(id)));
  }

  lemma TemplateGrew(mode: Mode, st: State, e: Expectation)
    ensures Grew(mode, st, TemplateStep(mode, st, e))
  {
  }

  lemma VersionGrew(mode: Mode, st: State, e: Expectation)
    ensures Grew(mode, st, VersionStep(mode, st, e))
  {
  }

  lemma BindingGrew(mode: Mode, st: State, e: Expectation, versionId: string)
    ensures Grew(mode, st, BindingStep(mode, st, e, versionId))
  {
  }

  lemma ContractGrew(mode: Mode, st: State, e: Expectation)
    ensures Grew(mode, st, ContractStep(mode, st, e))
  {
  }

  lemma ExpectationGrew(cfg: Config, mode: Mode, st: State, e: Expectation)
    ensures Grew(mode, st, ExpectationStep(cfg, mode, st, e))
  {
    hide Grew, TemplateStep, VersionStep, BindingStep, ContractStep, BoundVersionId;
    var a := TemplateStep(mode, st, e);
    var b := VersionStep(mode, a, e);
    var c := BindingStep(mode, b, e, BoundVersionId(cfg, mode, a, e));
    var d := ContractStep(mode, c, e);
    TemplateGrew(mode, st, e);
    VersionGrew(mode, a, e);
    BindingGrew(mode, b, e, BoundVersionId(cfg, mode, a, e));
    ContractGrew(mode, c, e);
    GrewTransitive(mode, st, a, b);
    GrewTransitive(mode, st, b, c);
    GrewTransitive(mode, st, c, d);
  }

  lemma {:induction false} AudiencesGrew(cfg: Config, mode: Mode, st: State, ids: seq<string>)
    ensures Grew(mode, st, AudienceSteps(cfg, mode, st, ids))
  {
    hide Grew, AudienceStep;
    if ids == [] {
      GrewRefl(mode, st);
    } else {
      var before := AudienceSteps(cfg, mode, st, ids[..|ids| - 1]);
      AudiencesGrew(cfg, mode, st, ids[..|ids| - 1]);
      AudienceGrew(cfg, mode, before, ids[|ids| - 1]);
      GrewTransitive(mode, st, before, AudienceSteps(cfg, mode, st, ids));
    }
  }

  lemma {:induction false} ExpectationsGrew(cfg: Config, mode: Mode, st: State, es: seq<Expectation>)
    ensures Grew(mode, st, ExpectationSteps(cfg, mode, st, es))
  {
    hide Grew, ExpectationStep;
    if es == [] {
      GrewRefl(mode, st);
    } else {
      var before := ExpectationSteps(cfg, mode, st, es[..|es| - 1]);
      ExpectationsGrew(cfg, mode, st, es[..|es| - 1]);
      ExpectationGrew(cfg, mode, before, es[|es| - 1]);
      GrewTransitive(mode, st, before, ExpectationSteps(cfg, mode, st, es));
    }
  }

  /**
   * A run that breaks no constraint leaves every row as it was, and what it created is what it planned, in order; a dry
   * run leaves the tables alone, whatever it plans.
   */
  lemma BootstrapOnlyAdds(cfg: Config, mode: Mode, t: Tables)
    ensures var r := Bootstrap(cfg, mode, t);
            && (mode.apply ==> r.created == r.actions)
            && (!r.conflict ==> Extends(t, r.db))
            && (!mode.apply ==> r.db == t && r.created == [] && !r.conflict)
  {
    hide Extends, AudienceSteps, ExpectationSteps;
    var open := Open(t);
    var a := AudienceSteps(cfg, mode, open, cfg.audiences);
    AudiencesGrew(cfg, mode, open, cfg.audiences);
    var b := Flush(mode, a);
    var c := ExpectationSteps(cfg, mode, b, cfg.expectations);
    ExpectationsGrew(cfg, mode, b, cfg.expectations);
    assert a.actions[0..] == a.actions;
    if mode.apply {
      assert a.created == a.actions;
      SplitAt(c.actions, |a.actions|);
    }
    if !c.conflict {
      ExtendsTransitive(t, a.db, c.db);
    }
  }

  lemma SplitAt<T>(s: seq<T>, n: nat)
    requires n <= |s|
    ensures s == s[..n] + s[n..]
  {
  }
}
