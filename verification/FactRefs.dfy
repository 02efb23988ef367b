/** The preflight loop that certifies every item of a surface as grounded in the facts. */
module FactRefs {
  import opened Prelude
  import opened JsonTree
  import opened JsonPaths
  import opened JsonEquality
  import Decimal

  // ----- Python's view of a JSON value ------------------------------------------

  predicate Truthy(v: Json) {
    match v
    case Null => false
    case Bool(b) => b
    case Num(n) => n != 0.0
    case Str(s) => s != ""
    case Arr(items) => items != []
    case Obj(fields) => fields != []
  }

  /** `str(value or "")`, with `text` for what `str` makes of a value that is not a string. */
  function TextOr(v: Json, text: Json -> string): string {
    if !Truthy(v) then "" else if v.Str? then v.s else text(v)
  }

  // ----- one reference ------------------------------------------------------------

  datatype Status = Unresolved | Mismatched | Matching

  function FieldPath(ref: Json, text: Json -> string): string
    requires ref.Obj?
  {
    TextOr(Get(ref.fields, "field_path"), text)
  }

  function RefStatus(facts: Json, ref: Json, text: Json -> string): Status {
    if !ref.Obj? then Unresolved
    else
      var path := FieldPath(ref, text);
      var actual := ValueAtPath(facts, path);
      if path == "" || actual == Null then Unresolved
      else if !PyEqual(Get(ref.fields, "observed_value"), actual) then Mismatched
      else Matching
  }

  /** The references of an item: its `fact_refs` when that is a list, and none otherwise. */
  function Refs(item: Json): seq<Json> {
    if item.Obj? && Get(item.fields, "fact_refs").Arr? then Get(item.fields, "fact_refs").items else []
  }

  /** An item that is an object with at least one reference, each naming a non-null fact equal to what was observed. */
  ghost predicate Grounded(facts: Json, item: Json, text: Json -> string) {
    && item.Obj?
    && Refs(item) != []
    && forall i :: 0 <= i < |Refs(item)| ==> RefMatches(facts, Refs(item)[i], text)
  }

  ghost predicate RefMatches(facts: Json, ref: Json, text: Json -> string) {
    && ref.Obj?
    && ValueAtPath(facts, FieldPath(ref, text)) != Null
    && PyEqual(Get(ref.fields, "observed_value"), ValueAtPath(facts, FieldPath(ref, text)))
  }

  /** An empty path resolves to nothing, so the code's separate test for it changes no status. */
  lemma MatchingExactly(facts: Json, ref: Json, text: Json -> string)
    ensures RefStatus(facts, ref, text) == Matching <==> RefMatches(facts, ref, text)
  {
  }

  // ----- the loop over a surface ----------------------------------------------------

  /** The names a surface gives its blockers. */
  datatype Surface = Surface(items: string, empty: string, missing: string, unresolved: string, mismatched: string)

  /** The tallies the loop keeps. */
  datatype Tally = Tally(refs: nat, itemsMissingRefs: nat, unresolved: nat, mismatched: nat)

  function CountStatus(facts: Json, refs: seq<Json>, text: Json -> string, status: Status): nat {
    if refs == [] then 0
    else
      CountStatus(facts, refs[..|refs| - 1], text, status)
      + if RefStatus(facts, refs[|refs| - 1], text) == status then 1 else 0
  }

  /** The references of all items, in order. */
  function AllRefs(items: seq<Json>): seq<Json> {
    if items == [] then [] else AllRefs(items[..|items| - 1]) + Refs(items[|items| - 1])
  }

  function CountMissing(items: seq<Json>): nat {
    if items == [] then 0
    else
      CountMissing(items[..|items| - 1])
      + if items[|items| - 1].Obj? && Refs(items[|items| - 1]) == [] then 1 else 0
  }

  function TypeBlockers(surface: Surface, items: seq<Json>): seq<string> {
    if items == [] then []
    else
      var n := |items| - 1;
      TypeBlockers(surface, items[..n])
      + if items[n].Obj? then [] else [surface.items + "[" + Decimal.Text(n) + "]:type"]
  }

  function TallyOf(facts: Json, items: seq<Json>, text: Json -> string): Tally {
    Tally(
      |AllRefs(items)|,
      CountMissing(items),
      CountStatus(facts, AllRefs(items), text, Unresolved),
      CountStatus(facts, AllRefs(items), text, Mismatched))
  }

  function Blockers(surface: Surface, facts: Json, items: seq<Json>, text: Json -> string): seq<string> {
    var t := TallyOf(facts, items, text);
    (if items == [] then [surface.empty] else [])
    + TypeBlockers(surface, items)
    + (if t.itemsMissingRefs > 0 then [surface.missing] else [])
    + (if t.unresolved > 0 then [surface.unresolved] else [])
    + (if t.mismatched > 0 then [surface.mismatched] else [])
  }

  lemma {:induction false} CountStatusOneMore(
    facts: Json, refs: seq<Json>, last: Json, text: Json -> string, status: Status)
    ensures CountStatus(facts, refs + [last], text, status)
         == CountStatus(facts, refs, text, status) + if RefStatus(facts, last, text) == status then 1 else 0
  {
  }

  /** Tallies the references of one item on top of those already tallied. */
  method CheckRefs(
    facts: Json, ghost before: seq<Json>, refs: seq<Json>, text: Json -> string, unresolved0: nat, mismatched0: nat)
    returns (unresolved: nat, mismatched: nat)
    requires unresolved0 == CountStatus(facts, before, text, Unresolved)
    requires mismatched0 == CountStatus(facts, before, text, Mismatched)
    ensures unresolved == CountStatus(facts, before + refs, text, Unresolved)
    ensures mismatched == CountStatus(facts, before + refs, text, Mismatched)
  {
    unresolved, mismatched := unresolved0, mismatched0;
    assert before + refs[..0] == before;
    for n := 0 to |refs|
      invariant unresolved == CountStatus(facts, before + refs[..n], text, Unresolved)
      invariant mismatched == CountStatus(facts, before + refs[..n], text, Mismatched)
    {
      var ref := refs[n];
      CountStatusOneMore(facts, before + refs[..n], ref, text, Unresolved);
      CountStatusOneMore(facts, before + refs[..n], ref, text, Mismatched);
      assert before + refs[..n + 1] == (before + refs[..n]) + [ref];
      hide CountStatus, PyEqual, ValueAtPath;
      if !ref.Obj? {
        unresolved := unresolved + 1;
      } else {
        var path := FieldPath(ref, text);
        var actual := CliValueAtPath(facts, path);
        if path == "" || actual == Null {
          unresolved := unresolved + 1;
        } else if !PyEqual(Get(ref.fields, "observed_value"), actual) {
          mismatched := mismatched + 1;
        }
      }
    }
    assert refs[..|refs|] == refs;
  }

  /** The loop of the preflights: the blockers it appends for items of the wrong type, and the counters it keeps. */
  method TallyItems(surface: Surface, facts: Json, items: seq<Json>, text: Json -> string)
    returns (blockers: seq<string>, tally: Tally)
    ensures blockers == TypeBlockers(surface, items)
    ensures tally == TallyOf(facts, items, text)
  {
    blockers := [];
    var refCount: nat, missing: nat, unresolved: nat, mismatched: nat := 0, 0, 0, 0;
    ghost var seen: seq<Json> := [];
    assert TallyOf(facts, seen, text) == Tally(0, 0, 0, 0) && TypeBlockers(surface, seen) == [];
    hide AllRefs, CountMissing, TypeBlockers, CountStatus, Refs, Decimal.Text;
    for n := 0 to |items|
      invariant seen == items[..n]
      invariant blockers == TypeBlockers(surface, seen)
      invariant Tally(refCount, missing, unresolved, mismatched) == TallyOf(facts, seen, text)
    {
      var item := items[n];
      ItemOneMore(surface, seen, item);
      if !item.Obj? {
        blockers := blockers + [surface.items + "[" + Decimal.Text(n) + "]:type"];
        assert AllRefs(seen) + [] == AllRefs(seen);
      } else {
        var refs := Refs(item);
        if refs == [] {
          missing := missing + 1;
          assert AllRefs(seen) + [] == AllRefs(seen);
        } else {
          refCount := refCount + |refs|;
          unresolved, mismatched := CheckRefs(facts, AllRefs(seen), refs, text, unresolved, mismatched);
        }
        assert blockers + [] == blockers;
      }
      seen := seen + [item];
    }
    assert items[..|items|] == items;
    tally := Tally(refCount, missing, unresolved, mismatched);
  }

  /** All blockers of one surface, in the order they are appended. */
  method CheckSurface(surface: Surface, facts: Json, items: seq<Json>, text: Json -> string)
    returns (blockers: seq<string>, tally: Tally)
    ensures tally == TallyOf(facts, items, text)
    ensures blockers == Blockers(surface, facts, items, text)
  {
    hide TallyOf, TypeBlockers;
    blockers := if items == [] then [surface.empty] else [];
    var typed;
    typed, tally := TallyItems(surface, facts, items, text);
    blockers := blockers + typed;
    if tally.itemsMissingRefs > 0 {
      blockers := blockers + [surface.missing];
    }
    if tally.unresolved > 0 {
      blockers := blockers + [surface.unresolved];
    }
    if tally.mismatched > 0 {
      blockers := blockers + [surface.mismatched];
    }
  }

  lemma {:induction false} ItemOneMore(surface: Surface, items: seq<Json>, item: Json)
    ensures AllRefs(items + [item]) == AllRefs(items) + Refs(item)
    ensures CountMissing(items + [item]) == CountMissing(items) + if item.Obj? && Refs(item) == [] then 1 else 0
    ensures TypeBlockers(surface, items + [item])
         == TypeBlockers(surface, items)
          + if item.Obj? then [] else [surface.items + "[" + Decimal.Text(|items|) + "]:type"]
    ensures !item.Obj? ==> Refs(item) == []
  {
  }

  // ----- what the blockers certify -------------------------------------------------------

  /** Every reference is counted in exactly one of the three ways. */
  lemma {:induction false} StatusesPartition(facts: Json, refs: seq<Json>, text: Json -> string)
    ensures CountStatus(facts, refs, text, Unresolved) + CountStatus(facts, refs, text, Mismatched)
          + CountStatus(facts, refs, text, Matching) == |refs|
  {
    if refs != [] {
      StatusesPartition(facts, refs[..|refs| - 1], text);
    }
  }

  lemma {:induction false} NoneOfStatus(facts: Json, refs: seq<Json>, text: Json -> string, status: Status)
    ensures CountStatus(facts, refs, text, status) == 0
            <==> forall i :: 0 <= i < |refs| ==> RefStatus(facts, refs[i], text) != status
  {
    if refs != [] {
      hide RefStatus;
      NoneOfStatus(facts, refs[..|refs| - 1], text, status);
      assert forall i :: 0 <= i < |refs| - 1 ==> refs[i] == refs[..|refs| - 1][i];
    }
  }

  lemma {:induction false} NoneMissing(items: seq<Json>)
    ensures CountMissing(items) == 0 <==> forall i :: 0 <= i < |items| && items[i].Obj? ==> Refs(items[i]) != []
  {
    if items != [] {
      hide Refs;
      NoneMissing(items[..|items| - 1]);
      assert forall i :: 0 <= i < |items| - 1 ==> items[i] == items[..|items| - 1][i];
    }
  }

  lemma {:induction false} NoTypeBlocker(surface: Surface, items: seq<Json>)
    ensures TypeBlockers(surface, items) == [] <==> forall i :: 0 <= i < |items| ==> items[i].Obj?
  {
    if items != [] {
      hide Decimal.Text;
      NoTypeBlocker(surface, items[..|items| - 1]);
      assert forall i :: 0 <= i < |items| - 1 ==> items[i] == items[..|items| - 1][i];
    }
  }

  lemma {:induction false} AllRefsMembers(items: seq<Json>, ref: Json)
    ensures ref in AllRefs(items) <==> exists i :: 0 <= i < |items| && ref in Refs(items[i])
  {
    if items != [] {
      hide Refs;
      AllRefsMembers(items[..|items| - 1], ref);
      assert forall i :: 0 <= i < |items| - 1 ==> items[i] == items[..|items| - 1][i];
    }
  }

  /** No reference is unresolved or mismatched exactly when every reference of every item matches. */
  lemma {:induction false} AllMatch(facts: Json, items: seq<Json>, text: Json -> string)
    ensures (CountStatus(facts, AllRefs(items), text, Unresolved) == 0
             && CountStatus(facts, AllRefs(items), text, Mismatched) == 0)
            <==> forall i, j :: 0 <= i < |items| && 0 <= j < |Refs(items[i])| ==> RefMatches(facts, Refs(items[i])[j], text)
  {
    var refs := AllRefs(items);
    NoneOfStatus(facts, refs, text, Unresolved);
    NoneOfStatus(facts, refs, text, Mismatched);
    hide RefStatus, RefMatches, Refs, CountStatus, AllRefs;
    if forall i :: 0 <= i < |refs| ==> RefStatus(facts, refs[i], text) == Matching {
      forall i, j | 0 <= i < |items| && 0 <= j < |Refs(items[i])|
        ensures RefMatches(facts, Refs(items[i])[j], text)
      {
        var ref := Refs(items[i])[j];
        AllRefsMembers(items, ref);
        assert ref in refs;
        MatchingExactly(facts, ref, text);
      }
    }
    if forall i, j :: 0 <= i < |items| && 0 <= j < |Refs(items[i])| ==> RefMatches(facts, Refs(items[i])[j], text) {
      forall k | 0 <= k < |refs|
        ensures RefStatus(facts, refs[k], text) == Matching
      {
        AllRefsMembers(items, refs[k]);
        MatchingExactly(facts, refs[k], text);
      }
    }
  }

  /** The loop raises no blocker exactly when there are items and every one of them is grounded. */
  lemma NoBlockerExactly(surface: Surface, facts: Json, items: seq<Json>, text: Json -> string)
    ensures Blockers(surface, facts, items, text) == []
            <==> items != [] && forall i :: 0 <= i < |items| ==> Grounded(facts, items[i], text)
  {
    NoTypeBlocker(surface, items);
    NoneMissing(items);
    AllMatch(facts, items, text);
    hide RefMatches, Refs, CountStatus, AllRefs, CountMissing, TypeBlockers;
  }

  /**
   * When the denied-key walk reports nothing and the loop raises no blocker, every reference of every item names a node
   * of the facts, reached through keys none of which is denied, whose value equals the observed one.
   */
  lemma {:induction false} CertifiedSurface(
    surface: Surface, facts: Json, items: seq<Json>, denied: set<string>, text: Json -> string, i: nat, j: nat)
    requires DeniedPaths(facts, denied, "") == [] && Blockers(surface, facts, items, text) == []
    requires i < |items| && j < |Refs(items[i])|
    ensures var ref := Refs(items[i])[j];
            && ref.Obj?
            && var parts := Split(FieldPath(ref, text));
               && (forall n :: 0 <= n < |parts| ==> parts[n] !in denied)
               && Resolve(facts, KeySteps(parts)).Some?
               && PyEqual(Get(ref.fields, "observed_value"), Resolve(facts, KeySteps(parts)).value)
  {
    NoBlockerExactly(surface, facts, items, text);
    WalkEmptyExactly(facts, denied, "");
    assert Grounded(facts, items[i], text);
    var ref := Refs(items[i])[j];
    assert RefMatches(facts, ref, text);
    hide Refs, PyEqual, Clear, Blockers;
    var parts := Split(FieldPath(ref, text));
    FollowedPosition(facts, parts);
    ResolvedAvoidsDenied(facts, denied, parts);
  }

  // ----- the blockers, read off the items -------------------------------------------------

  /** The path of a reference: its text, empty for a value Python counts as false, and else what `str` makes of it. */
  lemma FieldPathExactly(ref: Json, text: Json -> string)
    requires ref.Obj?
    ensures var v := Get(ref.fields, "field_path");
            && (v.Str? ==> FieldPath(ref, text) == v.s)
            && (v in {Null, Bool(false), Num(0.0), Arr([]), Obj([])} ==> FieldPath(ref, text) == "")
            && (!v.Str? && v !in {Null, Bool(false), Num(0.0), Arr([]), Obj([])} ==> FieldPath(ref, text) == text(v))
  {
  }

  /** The item is an object whose `fact_refs` is no list, or an empty one. */
  ghost predicate Unreferenced(item: Json) {
    && item.Obj?
    && (Get(item.fields, "fact_refs").Arr? ==> Get(item.fields, "fact_refs").items == [])
  }

  /** The item is an object, and the value is in the list of its `fact_refs`. */
  ghost predicate Cites(item: Json, ref: Json) {
    item.Obj? && Get(item.fields, "fact_refs").Arr? && ref in Get(item.fields, "fact_refs").items
  }

  /** The reference is no object, or its path leads to nothing or to null. */
  ghost predicate LeadsNowhere(facts: Json, ref: Json, text: Json -> string) {
    ref.Obj? ==>
      var steps := KeySteps(Split(FieldPath(ref, text)));
      FieldPath(ref, text) == "" || Step.Key("") in steps || Resolve(facts, steps) in {None, Some(Null)}
  }

  /** Its path leads to a value that is not null and differs from the observed one. */
  ghost predicate LeadsElsewhere(facts: Json, ref: Json, text: Json -> string) {
    && ref.Obj? && !LeadsNowhere(facts, ref, text)
    && var actual := Resolve(facts, KeySteps(Split(FieldPath(ref, text))));
       actual.Some? && !PyEqual(Get(ref.fields, "observed_value"), actual.value)
  }

  lemma {:induction false} FollowExactly(v: Json, parts: seq<string>)
    ensures Follow(v, parts) == if Step.Key("") in KeySteps(parts) || Resolve(v, KeySteps(parts)).None? then Null
                                else Resolve(v, KeySteps(parts)).value
    decreases |parts|
  {
    if parts != [] {
      var steps := KeySteps(parts);
      assert steps == [Step.Key(parts[0])] + KeySteps(parts[1..]);
      assert steps[1..] == KeySteps(parts[1..]);
      if v.Obj? && parts[0] != "" {
        FollowExactly(Get(v.fields, parts[0]), parts[1..]);
        if !Has(v.fields, parts[0]) {
          GetMissing(v.fields, parts[0]);
          FollowNull(parts[1..]);
        }
      }
    }
  }

  /** The status of a reference, on the tree of facts. */
  lemma StatusExactly(facts: Json, ref: Json, text: Json -> string)
    ensures RefStatus(facts, ref, text) == Unresolved <==> LeadsNowhere(facts, ref, text)
    ensures RefStatus(facts, ref, text) == Mismatched <==> LeadsElsewhere(facts, ref, text)
  {
    if ref.Obj? {
      FollowExactly(facts, Split(FieldPath(ref, text)));
    }
    hide FieldPath, Split, Follow, Resolve, PyEqual, KeySteps;
  }

  lemma {:induction false} CitedExactly(items: seq<Json>, ref: Json)
    ensures ref in AllRefs(items) <==> exists item :: item in items && Cites(item, ref)
  {
    AllRefsMembers(items, ref);
    hide AllRefs;
    if i :| 0 <= i < |items| && ref in Refs(items[i]) {
      assert items[i] in items && Cites(items[i], ref);
    }
    if item :| item in items && Cites(item, ref) {
      var i :| 0 <= i < |items| && items[i] == item;
      assert ref in Refs(items[i]);
    }
  }

  lemma {:induction false} StatusCited(facts: Json, items: seq<Json>, text: Json -> string, status: Status)
    ensures CountStatus(facts, AllRefs(items), text, status) > 0
            <==> exists item, ref :: item in items && Cites(item, ref) && RefStatus(facts, ref, text) == status
  {
    hide RefStatus, AllRefs, CountStatus, Cites;
    var refs := AllRefs(items);
    NoneOfStatus(facts, refs, text, status);
    if i :| 0 <= i < |refs| && RefStatus(facts, refs[i], text) == status {
      CitedExactly(items, refs[i]);
    }
    if item, ref :| item in items && Cites(item, ref) && RefStatus(facts, ref, text) == status {
      CitedExactly(items, ref);
      assert ref in refs;
    }
  }

  /** The items that are no objects. */
  ghost function Untyped(items: seq<Json>): set<int> {
    set i | 0 <= i < |items| && !items[i].Obj?
  }

  lemma UntypedOneMore(items: seq<Json>)
    requires items != []
    ensures var n := |items| - 1;
            && n !in Untyped(items[..n])
            && Untyped(items) == Untyped(items[..n]) + if items[n].Obj? then {} else {n}
  {
  }

  lemma {:induction false} TypeBlockersExactly(surface: Surface, items: seq<Json>)
    ensures |TypeBlockers(surface, items)| == |Untyped(items)|
    ensures forall i :: i in Untyped(items) ==>
      surface.items + "[" + Decimal.Text(i) + "]:type" in TypeBlockers(surface, items)
  {
    hide Decimal.Text, Untyped;
    if items == [] {
      NoneUntyped();
    } else {
      TypeBlockersExactly(surface, items[..|items| - 1]);
      UntypedOneMore(items);
    }
  }

  lemma NoneUntyped()
    ensures Untyped([]) == {}
  {
  }

  /**
   * The blockers of a surface: one if there are no items, one per item that is no object, and one each if some object
   * has no reference, some reference leads nowhere, and some reference leads to another value than the observed one.
   */
  lemma {:induction false} BlockersExactly(surface: Surface, facts: Json, items: seq<Json>, text: Json -> string)
    ensures Blockers(surface, facts, items, text) ==
      (if |items| == 0 then [surface.empty] else [])
      + TypeBlockers(surface, items)
      + (if exists item :: item in items && Unreferenced(item) then [surface.missing] else [])
      + (if exists item, ref :: item in items && Cites(item, ref) && LeadsNowhere(facts, ref, text)
         then [surface.unresolved] else [])
      + (if exists item, ref :: item in items && Cites(item, ref) && LeadsElsewhere(facts, ref, text)
         then [surface.mismatched] else [])
  {
    NoneMissing(items);
    StatusCited(facts, items, text, Unresolved);
    StatusCited(facts, items, text, Mismatched);
    forall ref {
      StatusExactly(facts, ref, text);
    }
    MissingCited(items);
    hide CountStatus, CountMissing, AllRefs, TypeBlockers, RefStatus, LeadsNowhere, LeadsElsewhere, Cites, Unreferenced;
    var t := TallyOf(facts, items, text);
    assert t.itemsMissingRefs > 0 <==> exists item :: item in items && Unreferenced(item);
    assert t.unresolved > 0 <==> exists item, ref :: item in items && Cites(item, ref) && LeadsNowhere(facts, ref, text);
    assert t.mismatched > 0 <==> exists item, ref :: item in items && Cites(item, ref) && LeadsElsewhere(facts, ref, text);
  }

  lemma {:induction false} MissingCited(items: seq<Json>)
    ensures CountMissing(items) > 0 <==> exists item :: item in items && Unreferenced(item)
  {
    NoneMissing(items);
    hide CountMissing;
    if i :| 0 <= i < |items| && items[i].Obj? && Refs(items[i]) == [] {
      assert items[i] in items && Unreferenced(items[i]);
    }
    if item :| item in items && Unreferenced(item) {
      var i :| 0 <= i < |items| && items[i] == item;
      assert Refs(items[i]) == [];
    }
  }

  // ----- the counters, by position ------------------------------------------------------------

  /** The positions of the references with a status among those of the n-th item: which item, and which of its references. */
  ghost function WithStatus(facts: Json, n: int, refs: seq<Json>, text: Json -> string, status: Status): set<(int, int)> {
    set j | 0 <= j < |refs| && RefStatus(facts, refs[j], text) == status :: (n, j)
  }

  ghost function CitedWith(facts: Json, items: seq<Json>, text: Json -> string, status: Status): set<(int, int)> {
    set i, j | 0 <= i < |items| && 0 <= j < |Refs(items[i])| && RefStatus(facts, Refs(items[i])[j], text) == status :: (i, j)
  }

  lemma {:induction false} StatusesCounted(facts: Json, n: int, refs: seq<Json>, text: Json -> string, status: Status)
    ensures CountStatus(facts, refs, text, status) == |WithStatus(facts, n, refs, text, status)|
  {
    if refs == [] {
      assert WithStatus(facts, n, refs, text, status) == {};
    } else {
      hide RefStatus;
      StatusesCounted(facts, n, refs[..|refs| - 1], text, status);
      StatusOneMore(facts, n, refs, text, status);
      hide WithStatus;
    }
  }

  lemma StatusOneMore(facts: Json, n: int, refs: seq<Json>, text: Json -> string, status: Status)
    requires refs != []
    ensures var k := |refs| - 1;
            |WithStatus(facts, n, refs, text, status)|
            == |WithStatus(facts, n, refs[..k], text, status)| + if RefStatus(facts, refs[k], text) == status then 1 else 0
  {
    hide RefStatus, WithStatus;
    var k := |refs| - 1;
    var front, all := WithStatus(facts, n, refs[..k], text, status), WithStatus(facts, n, refs, text, status);
    forall p: (int, int)
      ensures p in all <==> p in front || (p == (n, k) && RefStatus(facts, refs[k], text) == status)
      ensures p in front ==> p != (n, k)
    {
      StatusAt(facts, n, refs, text, status, p);
      StatusAt(facts, n, refs[..k], text, status, p);
    }
    if RefStatus(facts, refs[k], text) == status {
      assert all == front + {(n, k)};
    } else {
      assert all == front;
    }
  }

  lemma StatusAt(facts: Json, n: int, refs: seq<Json>, text: Json -> string, status: Status, p: (int, int))
    ensures p in WithStatus(facts, n, refs, text, status)
            <==> p.0 == n && 0 <= p.1 < |refs| && RefStatus(facts, refs[p.1], text) == status
  {
    hide RefStatus;
  }

  lemma {:induction false} CountStatusConcat(
    facts: Json, a: seq<Json>, b: seq<Json>, text: Json -> string, status: Status)
    ensures CountStatus(facts, a + b, text, status)
         == CountStatus(facts, a, text, status) + CountStatus(facts, b, text, status)
  {
    hide RefStatus;
    if b == [] {
      assert a + b == a;
    } else {
      var n := |b| - 1;
      CountStatusConcat(facts, a, b[..n], text, status);
      assert (a + b)[..|a + b| - 1] == a + b[..n];
    }
  }

  lemma {:induction false} CitedCounted(facts: Json, items: seq<Json>, text: Json -> string, status: Status)
    ensures CountStatus(facts, AllRefs(items), text, status) == |CitedWith(facts, items, text, status)|
  {
    if items == [] {
      assert CitedWith(facts, items, text, status) == {};
    } else {
      var n := |items| - 1;
      CitedCounted(facts, items[..n], text, status);
      CountStatusConcat(facts, AllRefs(items[..n]), Refs(items[n]), text, status);
      StatusesCounted(facts, n, Refs(items[n]), text, status);
      CitedOneMore(facts, items, text, status);
    }
  }

  lemma CitedOneMore(facts: Json, items: seq<Json>, text: Json -> string, status: Status)
    requires items != []
    ensures var n := |items| - 1;
            |CitedWith(facts, items, text, status)|
            == |CitedWith(facts, items[..n], text, status)| + |WithStatus(facts, n, Refs(items[n]), text, status)|
  {
    hide RefStatus, Refs;
    var n := |items| - 1;
    var front, here := CitedWith(facts, items[..n], text, status), WithStatus(facts, n, Refs(items[n]), text, status);
    assert forall i :: 0 <= i < n ==> items[..n][i] == items[i];
    assert front !! here;
    assert CitedWith(facts, items, text, status) == front + here;
  }

  ghost function UnreferencedAt(items: seq<Json>): set<int> {
    set i | 0 <= i < |items| && Unreferenced(items[i])
  }

  lemma {:induction false} MissingCounted(items: seq<Json>)
    ensures CountMissing(items) == |UnreferencedAt(items)|
  {
    if items == [] {
      assert UnreferencedAt(items) == {};
    } else {
      var n := |items| - 1;
      MissingCounted(items[..n]);
      assert Unreferenced(items[n]) <==> items[n].Obj? && Refs(items[n]) == [];
      UnreferencedOneMore(items);
      hide Unreferenced, UnreferencedAt, Refs;
    }
  }

  lemma UnreferencedOneMore(items: seq<Json>)
    requires items != []
    ensures var n := |items| - 1;
            |UnreferencedAt(items)| == |UnreferencedAt(items[..n])| + if Unreferenced(items[n]) then 1 else 0
  {
    hide Unreferenced;
    var n := |items| - 1;
    var front := UnreferencedAt(items[..n]);
    assert n !in front;
    assert UnreferencedAt(items) == front + if Unreferenced(items[n]) then {n} else {};
  }

  /**
   * The counters are the numbers of positions: of objects without references, of references that lead nowhere, of those
   * that lead to another value, and of all references.
   */
  lemma TallyExactly(facts: Json, items: seq<Json>, text: Json -> string)
    ensures var t := TallyOf(facts, items, text);
            && t.itemsMissingRefs == |UnreferencedAt(items)|
            && t.unresolved == |CitedWith(facts, items, text, Unresolved)|
            && t.mismatched == |CitedWith(facts, items, text, Mismatched)|
            && t.refs == t.unresolved + t.mismatched + |CitedWith(facts, items, text, Matching)|
  {
    MissingCounted(items);
    CitedCounted(facts, items, text, Unresolved);
    CitedCounted(facts, items, text, Mismatched);
    CitedCounted(facts, items, text, Matching);
    StatusesPartition(facts, AllRefs(items), text);
    hide CitedWith, UnreferencedAt, AllRefs, CountStatus, CountMissing;
  }

  /** A reference that leads to a number other than the observed one always blocks the surface. */
  lemma {:induction false} WrongNumberBlocks(
    surface: Surface, facts: Json, items: seq<Json>, text: Json -> string, item: Json, ref: Json, path: string,
    x: real, y: real)
    requires item in items && Cites(item, ref) && ref.Obj?
    requires Get(ref.fields, "field_path") == Str(path) && Get(ref.fields, "observed_value") == Num(y)
    requires Step.Key("") !in KeySteps(Split(path)) && Resolve(facts, KeySteps(Split(path))) == Some(Num(x))
    requires x != y
    ensures surface.mismatched in Blockers(surface, facts, items, text)
  {
    NumbersEqualExactly(y, x);
    assert Split("") == [""];
    assert KeySteps([""])[0] == Step.Key("");
    hide PyEqual, Split, Resolve, Blockers, TypeBlockers;
    assert FieldPath(ref, text) == path;
    assert LeadsElsewhere(facts, ref, text);
    BlockersExactly(surface, facts, items, text);
  }
}
