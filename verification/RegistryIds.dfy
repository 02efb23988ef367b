/** Ids built from a prefix, a colon and a tail: the prefix can be read back, so different prefixes never collide. */
module RegistryIds {
  import opened Prelude
  import opened Registry
  import Decimal

  predicate ColonFree(s: string) {
    forall i :: 0 <= i < |s| ==> s[i] != ':'
  }

  /** What precedes the last colon. */
  function BeforeLastColon(text: string): string {
    if text == "" then ""
    else if text[|text| - 1] == ':' then text[..|text| - 1]
    else BeforeLastColon(text[..|text| - 1])
  }

  lemma {:induction false} LastColon(p: string, x: string)
    requires ColonFree(x)
    ensures BeforeLastColon(p + ":" + x) == p && AfterLastColon(p + ":" + x) == x
  {
    var text := p + ":" + x;
    if x == "" {
      assert text[..|text| - 1] == p;
    } else {
      var front := x[..|x| - 1];
      LastColon(p, front);
      assert text[..|text| - 1] == p + ":" + front;
      SplitLast(x);
    }
  }

  lemma {:induction false} AfterIsColonFree(text: string)
    ensures ColonFree(AfterLastColon(text))
  {
    if text != "" && text[|text| - 1] != ':' {
      AfterIsColonFree(text[..|text| - 1]);
    }
  }

  lemma {:induction false} DigitsColonFree(n: nat)
    ensures ColonFree(Decimal.Digits(n))
  {
    assert ColonFree(Decimal.DIGITS);
    if n >= 10 {
      DigitsColonFree(n / 10);
    }
  }

  /** All ids that an id search for a base `p:x` may return have the prefix `p`. */
  lemma SuffixedPrefix(p: string, x: string, n: nat)
    requires ColonFree(x)
    ensures BeforeLastColon(Suffixed(p + ":" + x, n)) == p
  {
    var digits := Decimal.Digits(n);
    DigitsColonFree(n);
    hide Decimal.Digits;
    var tail := x + ("-bootstrap-" + digits);
    assert ColonFree("-bootstrap-");
    assert ColonFree(tail);
    ConcatAssociative(p + ":", x, "-bootstrap-" + digits);
    ConcatAssociative(p + ":" + x, "-bootstrap-", digits);
    LastColon(p, tail);
  }

  lemma NextIdPrefix(keys: set<string>, p: string, x: string)
    requires ColonFree(x)
    ensures BeforeLastColon(NextId(keys, p + ":" + x)) == p
  {
    var base := p + ":" + x;
    assert IsNextId(keys, base, NextId(keys, base));
    hide NextId, Suffixed;
    LastColon(p, x);
    if base in keys {
      var n: nat :| FirstFree(keys, base, n) && NextId(keys, base) == Suffixed(base, n);
      SuffixedPrefix(p, x, n);
    }
  }

  /** Two key sets look the same to whoever only uses ids with the prefix `p`. */
  ghost predicate SameKeys(a: set<string>, b: set<string>, p: string) {
    forall id :: BeforeLastColon(id) == p ==> (id in a <==> id in b)
  }

  /** The search looks at ids with its own prefix only. */
  lemma NextIdAgrees(a: set<string>, b: set<string>, p: string, x: string)
    requires ColonFree(x) && SameKeys(a, b, p)
    ensures NextId(a, p + ":" + x) == NextId(b, p + ":" + x)
  {
    var base := p + ":" + x;
    assert IsNextId(a, base, NextId(a, base));
    hide NextId, Suffixed;
    LastColon(p, x);
    assert base in a <==> base in b;
    if base in a {
      var n: nat :| FirstFree(a, base, n) && NextId(a, base) == Suffixed(base, n);
      forall m: nat
        ensures Suffixed(base, m) in a <==> Suffixed(base, m) in b
      {
        SuffixedPrefix(p, x, m);
      }
      assert FirstFree(b, base, n);
      assert IsNextId(b, base, Suffixed(base, n));
      NextIdUnique(b, base, Suffixed(base, n), NextId(b, base));
    }
  }

  // ----- the three kinds of ids of an expectation ------------------------------------

  function ContractPrefix(e: Expectation): string {
    e.artifactType + ":" + e.audienceId
  }

  function BindingPrefix(e: Expectation): string {
    "global:" + e.templateId
  }

  lemma FirstVersionIdForm(e: Expectation)
    ensures FirstVersionId(e) == e.templateId + ":" + "v1" && ColonFree("v1")
    ensures BeforeLastColon(FirstVersionId(e)) == e.templateId && AfterLastColon(FirstVersionId(e)) == "v1"
  {
    ConcatAssociative(e.templateId, ":", "v1");
    assert ":" + "v1" == ":v1";
    LastColon(e.templateId, "v1");
  }

  lemma ContractBaseForm(e: Expectation)
    ensures ContractBase(e) == ContractPrefix(e) + ":" + "v1" && ColonFree("v1")
    ensures BeforeLastColon(ContractBase(e)) == ContractPrefix(e)
  {
    ConcatAssociative(ContractPrefix(e), ":", "v1");
    assert ":" + "v1" == ":v1";
    LastColon(ContractPrefix(e), "v1");
  }

  lemma {:induction false} BindingBaseForm(e: Expectation, versionId: string)
    ensures BindingBase(e, versionId) == BindingPrefix(e) + ":" + AfterLastColon(versionId)
    ensures ColonFree(AfterLastColon(versionId))
    ensures BeforeLastColon(BindingBase(e, versionId)) == BindingPrefix(e)
  {
    AfterIsColonFree(versionId);
    LastColon(BindingPrefix(e), AfterLastColon(versionId));
  }

  lemma NextVersionId(keys: set<string>, e: Expectation)
    ensures var id := NextId(keys, FirstVersionId(e));
            BeforeLastColon(id) == e.templateId && id !in keys && (id == FirstVersionId(e) <==> FirstVersionId(e) !in keys)
  {
    FirstVersionIdForm(e);
    NextIdPrefix(keys, e.templateId, "v1");
  }

  lemma NextBindingId(keys: set<string>, e: Expectation, versionId: string)
    ensures var id := NextId(keys, BindingBase(e, versionId));
            BeforeLastColon(id) == BindingPrefix(e) && id !in keys
  {
    BindingBaseForm(e, versionId);
    NextIdPrefix(keys, BindingPrefix(e), AfterLastColon(versionId));
  }

  lemma NextContractId(keys: set<string>, e: Expectation)
    ensures var id := NextId(keys, ContractBase(e));
            BeforeLastColon(id) == ContractPrefix(e) && id !in keys && (id == ContractBase(e) <==> ContractBase(e) !in keys)
  {
    ContractBaseForm(e);
    NextIdPrefix(keys, ContractPrefix(e), "v1");
  }

  lemma BindingPrefixInjective(d: Expectation, e: Expectation)
    requires BindingPrefix(d) == BindingPrefix(e)
    ensures d.templateId == e.templateId
  {
    DropPrefix("global:", d.templateId);
    DropPrefix("global:", e.templateId);
  }

  /** Two expectations share neither their template nor their contract prefix. */
  ghost predicate Apart(d: Expectation, e: Expectation) {
    d.templateId != e.templateId && ContractPrefix(d) != ContractPrefix(e)
  }

  ghost predicate AllApart(es: seq<Expectation>) {
    forall i, j :: 0 <= i < j < |es| ==> Apart(es[i], es[j])
  }

  lemma ApartFromLast(es: seq<Expectation>)
    requires AllApart(es) && es != []
    ensures var front, last := es[..|es| - 1], es[|es| - 1];
            && AllApart(front)
            && (forall i :: 0 <= i < |front| ==> Apart(front[i], last) && Apart(last, front[i]))
  {
  }
}
