/** JSON trees, the walk that reports denied keys, the search for one key, and the dotted-path lookup. */
module JsonTree {
  import opened Prelude
  import Decimal

  datatype Json =
    | Null
    | Bool(b: bool)
    | Num(n: real)
    | Str(s: string)
    | Arr(items: seq<Json>)
    | Obj(fields: seq<Field>)

  datatype Field = Field(key: string, value: Json)

  /** No object has the same key twice, as in any Python dictionary. */
  ghost predicate WellFormed(v: Json) {
    match v
    case Arr(items) => forall i :: 0 <= i < |items| ==> WellFormed(items[i])
    case Obj(fields) =>
      && (forall i, j :: 0 <= i < j < |fields| ==> fields[i].key != fields[j].key)
      && (forall i :: 0 <= i < |fields| ==> WellFormed(fields[i].value))
    case _ => true
  }

  /** `d.get(key)`, with Null for None. */
  function Get(fields: seq<Field>, key: string): Json {
    if fields == [] then Null
    else if fields[0].key == key then fields[0].value
    else Get(fields[1..], key)
  }

  predicate Has(fields: seq<Field>, key: string) {
    exists i :: 0 <= i < |fields| && fields[i].key == key
  }

  lemma {:induction false} GetAt(fields: seq<Field>, i: nat)
    requires i < |fields| && forall i, j :: 0 <= i < j < |fields| ==> fields[i].key != fields[j].key
    ensures Get(fields, fields[i].key) == fields[i].value
  {
    if i > 0 {
      GetAt(fields[1..], i - 1);
    }
  }

  lemma {:induction false} GetMissing(fields: seq<Field>, key: string)
    requires !Has(fields, key)
    ensures Get(fields, key) == Null
  {
    if fields != [] {
      assert fields[0].key != key;
      forall i | 0 <= i < |fields[1..]|
        ensures fields[1..][i].key != key
      {
        assert fields[1..][i] == fields[i + 1];
      }
      GetMissing(fields[1..], key);
    }
  }

  // ----- positions in a tree ---------------------------------------------------

  datatype Step = Key(k: string) | Index(i: nat)

  /** The node reached by following `steps` from `v`, if they all exist. */
  ghost function Resolve(v: Json, steps: seq<Step>): Option<Json>
    decreases |steps|
  {
    if steps == [] then Some(v)
    else
      match (v, steps[0])
      case (Obj(fields), Key(k)) => if Has(fields, k) then Resolve(Get(fields, k), steps[1..]) else None
      case (Arr(items), Index(i)) => if i < |items| then Resolve(items[i], steps[1..]) else None
      case _ => None
  }

  /** `steps` leads to a child stored under a denied key. */
  ghost predicate Occurs(v: Json, denied: set<string>, steps: seq<Step>) {
    && steps != []
    && steps[|steps| - 1].Key? && steps[|steps| - 1].k in denied
    && Resolve(v, steps).Some?
  }

  // ----- the walk that reports denied keys ------------------------------------------

  /** The path text of one more step: a key is joined with a dot unless it is first, an index is put in brackets. */
  function RenderStep(prefix: string, step: Step): string {
    match step
    case Key(k) => if prefix == "" then k else prefix + "." + k
    case Index(i) => prefix + "[" + Decimal.Text(i) + "]"
  }

  function RenderPath(steps: seq<Step>): string {
    if steps == [] then "" else RenderStep(RenderPath(steps[..|steps| - 1]), steps[|steps| - 1])
  }

  /** The paths the walk reports below `prefix`, in the order it reports them. */
  function DeniedPaths(v: Json, denied: set<string>, prefix: string): seq<string>
    decreases v, 0
  {
    match v
    case Obj(fields) => DeniedInFields(fields, denied, prefix)
    case Arr(items) => DeniedInItems(items, denied, prefix)
    case _ => []
  }

  function DeniedInFields(fields: seq<Field>, denied: set<string>, prefix: string): seq<string>
    decreases fields, 1
  {
    if fields == [] then []
    else
      var last := fields[|fields| - 1];
      var path := RenderStep(prefix, Key(last.key));
      DeniedInFields(fields[..|fields| - 1], denied, prefix)
      + (if last.key in denied then [path] else [])
      + DeniedPaths(last.value, denied, path)
  }

  function DeniedInItems(items: seq<Json>, denied: set<string>, prefix: string): seq<string>
    decreases items, 1
  {
    if items == [] then []
    else
      var n := |items| - 1;
      DeniedInItems(items[..n], denied, prefix) + DeniedPaths(items[n], denied, RenderStep(prefix, Index(n)))
  }

  /** The walk as the code runs it: loops over the fields or the items, appending hits. */
  method ContainsDeniedKeyPath(v: Json, denied: set<string>, prefix: string) returns (hits: seq<string>)
    ensures hits == DeniedPaths(v, denied, prefix)
    decreases v
  {
    hide Decimal.Text;
    hits := [];
    match v
    case Obj(fields) =>
      for n := 0 to |fields|
        invariant hits == DeniedInFields(fields[..n], denied, prefix)
      {
        var path := if prefix == "" then fields[n].key else prefix + "." + fields[n].key;
        assert fields[..n + 1][..n] == fields[..n];
        var below := ContainsDeniedKeyPath(fields[n].value, denied, path);
        hits := hits + (if fields[n].key in denied then [path] else []) + below;
      }
      assert fields[..|fields|] == fields;
    case Arr(items) =>
      for n := 0 to |items|
        invariant hits == DeniedInItems(items[..n], denied, prefix)
      {
        assert items[..n + 1][..n] == items[..n];
        var below := ContainsDeniedKeyPath(items[n], denied, prefix + "[" + Decimal.Text(n) + "]");
        hits := hits + below;
      }
      assert items[..|items|] == items;
    case _ =>
  }

  /** The same walk, reporting positions instead of their texts. */
  ghost function Walk(v: Json, denied: set<string>, at: seq<Step>): seq<seq<Step>>
    decreases v, 0
  {
    match v
    case Obj(fields) => WalkFields(fields, denied, at)
    case Arr(items) => WalkItems(items, denied, at)
    case _ => []
  }

  ghost function WalkFields(fields: seq<Field>, denied: set<string>, at: seq<Step>): seq<seq<Step>>
    decreases fields, 1
  {
    if fields == [] then []
    else
      var last := fields[|fields| - 1];
      var here := at + [Key(last.key)];
      WalkFields(fields[..|fields| - 1], denied, at)
      + (if last.key in denied then [here] else [])
      + Walk(last.value, denied, here)
  }

  ghost function WalkItems(items: seq<Json>, denied: set<string>, at: seq<Step>): seq<seq<Step>>
    decreases items, 1
  {
    if items == [] then []
    else
      var n := |items| - 1;
      WalkItems(items[..n], denied, at) + Walk(items[n], denied, at + [Index(n)])
  }

  ghost function Rendered(paths: seq<seq<Step>>): seq<string> {
    seq(|paths|, i requires 0 <= i < |paths| => RenderPath(paths[i]))
  }

  lemma RenderedConcat(a: seq<seq<Step>>, b: seq<seq<Step>>)
    ensures Rendered(a + b) == Rendered(a) + Rendered(b)
  {
  }

  lemma {:induction false} RenderOneMore(at: seq<Step>, step: Step)
    ensures RenderPath(at + [step]) == RenderStep(RenderPath(at), step)
  {
  }

  /** The reported texts are the texts of the walked positions, one for one. */
  lemma {:induction false} WalkRendered(v: Json, denied: set<string>, at: seq<Step>)
    ensures DeniedPaths(v, denied, RenderPath(at)) == Rendered(Walk(v, denied, at))
    decreases v, 0
  {
    match v
    case Obj(fields) => WalkFieldsRendered(fields, denied, at);
    case Arr(items) => WalkItemsRendered(items, denied, at);
    case _ =>
  }

  lemma {:induction false} WalkFieldsRendered(fields: seq<Field>, denied: set<string>, at: seq<Step>)
    ensures DeniedInFields(fields, denied, RenderPath(at)) == Rendered(WalkFields(fields, denied, at))
    decreases fields, 1
  {
    hide Decimal.Text;
    if fields != [] {
      var front, last := fields[..|fields| - 1], fields[|fields| - 1];
      var here := at + [Key(last.key)];
      WalkFieldsRendered(front, denied, at);
      WalkRendered(last.value, denied, here);
      RenderOneMore(at, Key(last.key));
      hide RenderStep, RenderPath, Walk, DeniedPaths;
      var hit := if last.key in denied then [here] else [];
      RenderedConcat(WalkFields(front, denied, at), hit);
      RenderedConcat(WalkFields(front, denied, at) + hit, Walk(last.value, denied, here));
    }
  }

  lemma {:induction false} WalkItemsRendered(items: seq<Json>, denied: set<string>, at: seq<Step>)
    ensures DeniedInItems(items, denied, RenderPath(at)) == Rendered(WalkItems(items, denied, at))
    decreases items, 1
  {
    hide Decimal.Text;
    if items != [] {
      var n := |items| - 1;
      var here := at + [Index(n)];
      WalkItemsRendered(items[..n], denied, at);
      WalkRendered(items[n], denied, here);
      RenderOneMore(at, Index(n));
      RenderedConcat(WalkItems(items[..n], denied, at), Walk(items[n], denied, here));
    }
  }

  // ----- the walk reports every occurrence, once ---------------------------------------

  /** Where a reported position comes from: the step right below `at`, and either a hit there or a hit deeper down. */
  lemma {:induction false} FromField(
    fields: seq<Field>, denied: set<string>, at: seq<Step>, p: seq<Step>) returns (i: nat)
    requires p in WalkFields(fields, denied, at)
    ensures i < |fields|
    ensures var here := at + [Key(fields[i].key)];
            (p == here && fields[i].key in denied) || p in Walk(fields[i].value, denied, here)
    decreases |fields|
  {
    i := |fields| - 1;
    if p in WalkFields(fields[..i], denied, at) {
      i := FromField(fields[..i], denied, at, p);
    }
  }

  lemma {:induction false} FromItem(items: seq<Json>, denied: set<string>, at: seq<Step>, p: seq<Step>) returns (i: nat)
    requires p in WalkItems(items, denied, at)
    ensures i < |items| && p in Walk(items[i], denied, at + [Index(i)])
    decreases |items|
  {
    i := |items| - 1;
    if p in WalkItems(items[..i], denied, at) {
      i := FromItem(items[..i], denied, at, p);
    }
  }

  lemma {:induction false} ToField(fields: seq<Field>, denied: set<string>, at: seq<Step>, i: nat, p: seq<Step>)
    requires i < |fields|
    requires var here := at + [Key(fields[i].key)];
             (p == here && fields[i].key in denied) || p in Walk(fields[i].value, denied, here)
    ensures p in WalkFields(fields, denied, at)
    decreases |fields|
  {
    if i < |fields| - 1 {
      ToField(fields[..|fields| - 1], denied, at, i, p);
    }
  }

  lemma {:induction false} ToItem(items: seq<Json>, denied: set<string>, at: seq<Step>, i: nat, p: seq<Step>)
    requires i < |items| && p in Walk(items[i], denied, at + [Index(i)])
    ensures p in WalkItems(items, denied, at)
    decreases |items|
  {
    if i < |items| - 1 {
      ToItem(items[..|items| - 1], denied, at, i, p);
    }
  }

  /** Everything reported below `at` is an occurrence. */
  lemma {:induction false} WalkSound(v: Json, denied: set<string>, at: seq<Step>, p: seq<Step>)
    requires WellFormed(v) && p in Walk(v, denied, at)
    ensures |at| < |p| && p[..|at|] == at && Occurs(v, denied, p[|at|..])
    decreases v
  {
    match v
    case Obj(fields) =>
      var i := FromField(fields, denied, at, p);
      var here := at + [Key(fields[i].key)];
      GetAt(fields, i);
      if p == here && fields[i].key in denied {
        OneStep(v, at, Key(fields[i].key), fields[i].value, p);
      } else {
        WalkSound(fields[i].value, denied, here, p);
        OneStep(v, at, Key(fields[i].key), fields[i].value, p);
      }
    case Arr(items) =>
      var i := FromItem(items, denied, at, p);
      WalkSound(items[i], denied, at + [Index(i)], p);
      OneStep(v, at, Index(i), items[i], p);
  }

  /** A position that starts with one valid step resolves as the rest does from there. */
  lemma {:induction false} OneStep(v: Json, at: seq<Step>, step: Step, child: Json, p: seq<Step>)
    requires |at| < |p| && p[..|at| + 1] == at + [step] && Resolve(v, [step]) == Some(child)
    ensures p[..|at|] == at && p[|at|..] == [step] + p[|at| + 1..]
    ensures Resolve(v, p[|at|..]) == Resolve(child, p[|at| + 1..])
  {
  }

  /** Every occurrence is reported. */
  lemma {:induction false} WalkComplete(v: Json, denied: set<string>, at: seq<Step>, q: seq<Step>)
    requires Occurs(v, denied, q)
    ensures at + q in Walk(v, denied, at)
    decreases |q|
  {
    var step, rest := q[0], q[1..];
    assert at + q == (at + [step]) + rest;
    match (v, step)
    case (Obj(fields), Key(k)) =>
      var i := IndexOf(fields, k);
      if rest == [] {
        assert at + q == at + [Key(fields[i].key)];
      } else {
        WalkComplete(fields[i].value, denied, at + [step], rest);
      }
      ToField(fields, denied, at, i, at + q);
    case (Arr(items), Index(i)) =>
      assert rest != [];
      WalkComplete(items[i], denied, at + [step], rest);
      ToItem(items, denied, at, i, at + q);
  }

  /** The first field with the key, which is the one `get` returns. */
  lemma {:induction false} IndexOf(fields: seq<Field>, key: string) returns (i: nat)
    requires Has(fields, key)
    ensures i < |fields| && fields[i].key == key && fields[i].value == Get(fields, key)
  {
    if fields[0].key == key {
      i := 0;
    } else {
      var j :| 0 <= j < |fields| && fields[j].key == key;
      assert fields[1..][j - 1].key == key;
      i := IndexOf(fields[1..], key);
      i := i + 1;
    }
  }

  ghost predicate Distinct(paths: seq<seq<Step>>) {
    forall i, j :: 0 <= i < j < |paths| ==> paths[i] != paths[j]
  }

  lemma DistinctConcat(a: seq<seq<Step>>, b: seq<seq<Step>>)
    requires Distinct(a) && Distinct(b)
    requires forall p :: p in a ==> p !in b
    ensures Distinct(a + b)
  {
    forall i, j | 0 <= i < j < |a + b|
      ensures (a + b)[i] != (a + b)[j]
    {
      if i < |a| <= j {
        assert a[i] in a && b[j - |a|] in b;
      }
    }
  }

  /** No occurrence is reported twice. */
  lemma {:induction false} WalkDistinct(v: Json, denied: set<string>, at: seq<Step>)
    requires WellFormed(v)
    ensures Distinct(Walk(v, denied, at))
    decreases v, 0
  {
    match v
    case Obj(fields) => WalkFieldsDistinct(fields, denied, at);
    case Arr(items) => WalkItemsDistinct(items, denied, at);
    case _ =>
  }

  lemma {:induction false} WalkFieldsDistinct(fields: seq<Field>, denied: set<string>, at: seq<Step>)
    requires WellFormed(Obj(fields))
    ensures Distinct(WalkFields(fields, denied, at))
    decreases fields, 1
  {
    if fields != [] {
      var n := |fields| - 1;
      WalkFieldsDistinct(fields[..n], denied, at);
      WalkDistinct(fields[n].value, denied, at + [Key(fields[n].key)]);
      LastFieldDistinct(fields[..n], fields[n], denied, at);
    }
  }

  lemma {:induction false} LastFieldDistinct(front: seq<Field>, last: Field, denied: set<string>, at: seq<Step>)
    requires WellFormed(Obj(front)) && WellFormed(last.value)
    requires forall i :: 0 <= i < |front| ==> front[i].key != last.key
    requires Distinct(WalkFields(front, denied, at)) && Distinct(Walk(last.value, denied, at + [Key(last.key)]))
    ensures var here := at + [Key(last.key)];
            Distinct(WalkFields(front, denied, at)
                     + (if last.key in denied then [here] else [])
                     + Walk(last.value, denied, here))
  {
    var here := at + [Key(last.key)];
    var before, below := WalkFields(front, denied, at), Walk(last.value, denied, here);
    var hit := if last.key in denied then [here] else [];
    forall p | p in below
      ensures |p| > |at| + 1 && p[|at|] == Key(last.key)
    {
      StepBelow(last.value, denied, at, Key(last.key), p);
    }
    forall p | p in before
      ensures |p| > |at| && p[|at|] != Key(last.key)
    {
      StepOfField(front, denied, at, p);
    }
    hide Walk, WalkFields, WellFormed;
    assert forall p :: p in hit ==> p == here;
    DistinctConcat(before, hit);
    DistinctConcat(before + hit, below);
  }

  /** The step right below `at` of a reported position names one of the fields. */
  lemma {:induction false} StepOfField(fields: seq<Field>, denied: set<string>, at: seq<Step>, p: seq<Step>)
    requires WellFormed(Obj(fields)) && p in WalkFields(fields, denied, at)
    ensures |p| > |at| && exists i :: 0 <= i < |fields| && p[|at|] == Key(fields[i].key)
  {
    var i := FromField(fields, denied, at, p);
    var here := at + [Key(fields[i].key)];
    if p != here {
      StepBelow(fields[i].value, denied, at, Key(fields[i].key), p);
    }
  }

  /** A position reported below a step goes through that step. */
  lemma {:induction false} StepBelow(child: Json, denied: set<string>, at: seq<Step>, step: Step, p: seq<Step>)
    requires WellFormed(child) && p in Walk(child, denied, at + [step])
    ensures |p| > |at| + 1 && p[|at|] == step
  {
    WalkSound(child, denied, at + [step], p);
    assert p[|at|] == p[..|at| + 1][|at|];
  }

  lemma {:induction false} WalkItemsDistinct(items: seq<Json>, denied: set<string>, at: seq<Step>)
    requires WellFormed(Arr(items))
    ensures Distinct(WalkItems(items, denied, at))
    decreases items, 1
  {
    if items != [] {
      var n := |items| - 1;
      WalkItemsDistinct(items[..n], denied, at);
      WalkDistinct(items[n], denied, at + [Index(n)]);
      LastItemDistinct(items[..n], items[n], denied, at);
    }
  }

  lemma {:induction false} LastItemDistinct(front: seq<Json>, last: Json, denied: set<string>, at: seq<Step>)
    requires WellFormed(Arr(front)) && WellFormed(last)
    requires Distinct(WalkItems(front, denied, at)) && Distinct(Walk(last, denied, at + [Index(|front|)]))
    ensures Distinct(WalkItems(front, denied, at) + Walk(last, denied, at + [Index(|front|)]))
  {
    var step := Index(|front|);
    var before, below := WalkItems(front, denied, at), Walk(last, denied, at + [step]);
    forall p | p in before
      ensures |p| > |at| && p[|at|] != step
    {
      var i := FromItem(front, denied, at, p);
      StepBelow(front[i], denied, at, Index(i), p);
    }
    forall p | p in below
      ensures |p| > |at| && p[|at|] == step
    {
      StepBelow(last, denied, at, step, p);
    }
    DistinctConcat(before, below);
  }

  /** One reported path per occurrence of a denied key anywhere in the tree, and nothing else. */
  lemma {:induction false} WalkReportsOccurrences(v: Json, denied: set<string>, q: seq<Step>)
    requires WellFormed(v)
    ensures |DeniedPaths(v, denied, "")| == |Walk(v, denied, [])| && Distinct(Walk(v, denied, []))
    ensures q in Walk(v, denied, []) <==> Occurs(v, denied, q)
    ensures forall i :: 0 <= i < |Walk(v, denied, [])| ==> DeniedPaths(v, denied, "")[i] == RenderPath(Walk(v, denied, [])[i])
  {
    WalkRendered(v, denied, []);
    WalkDistinct(v, denied, []);
    if q in Walk(v, denied, []) {
      WalkSound(v, denied, [], q);
      assert q[0..] == q;
    }
    if Occurs(v, denied, q) {
      WalkComplete(v, denied, [], q);
      assert [] + q == q;
    }
  }

  // ----- the independent search for one key ----------------------------------------------

  predicate HasKey(v: Json, key: string) {
    match v
    case Obj(fields) => exists i :: 0 <= i < |fields| && (fields[i].key == key || HasKey(fields[i].value, key))
    case Arr(items) => exists i :: 0 <= i < |items| && HasKey(items[i], key)
    case _ => false
  }

  /** The key search is false for every denied key. */
  ghost predicate Clear(v: Json, denied: set<string>) {
    forall k :: k in denied ==> !HasKey(v, k)
  }

  /** The walk is empty exactly when the key search is false for every denied key. */
  lemma {:induction false} WalkEmptyExactly(v: Json, denied: set<string>, prefix: string)
    ensures DeniedPaths(v, denied, prefix) == [] <==> Clear(v, denied)
    decreases v, 0
  {
    hide Decimal.Text;
    match v
    case Obj(fields) =>
      FieldsEmptyExactly(fields, denied, prefix);
      ClearObject(fields, denied);
    case Arr(items) =>
      ItemsEmptyExactly(items, denied, prefix);
      ClearArray(items, denied);
    case _ =>
  }

  lemma EmptyConcat(a: seq<string>, b: seq<string>)
    ensures a + b == [] <==> a == [] && b == []
  {
  }

  ghost predicate FieldsClear(fields: seq<Field>, denied: set<string>) {
    forall i :: 0 <= i < |fields| ==> fields[i].key !in denied && Clear(fields[i].value, denied)
  }

  lemma ClearObject(fields: seq<Field>, denied: set<string>)
    ensures Clear(Obj(fields), denied) <==> FieldsClear(fields, denied)
  {
  }

  lemma FieldsClearOneMore(fields: seq<Field>, last: Field, denied: set<string>)
    ensures FieldsClear(fields + [last], denied)
            <==> FieldsClear(fields, denied) && last.key !in denied && Clear(last.value, denied)
  {
    hide Clear;
    var longer := fields + [last];
    assert longer[|fields|] == last;
    assert forall i :: 0 <= i < |fields| ==> longer[i] == fields[i];
  }

  lemma {:induction false} FieldsEmptyExactly(fields: seq<Field>, denied: set<string>, prefix: string)
    ensures DeniedInFields(fields, denied, prefix) == [] <==> FieldsClear(fields, denied)
    decreases fields, 1
  {
    hide Decimal.Text;
    hide Clear;
    if fields != [] {
      var n := |fields| - 1;
      var last := fields[n];
      var path := RenderStep(prefix, Key(last.key));
      var hit := if last.key in denied then [path] else [];
      FieldsEmptyExactly(fields[..n], denied, prefix);
      WalkEmptyExactly(last.value, denied, path);
      EmptyConcat(DeniedInFields(fields[..n], denied, prefix), hit);
      EmptyConcat(DeniedInFields(fields[..n], denied, prefix) + hit, DeniedPaths(last.value, denied, path));
      hide DeniedPaths, RenderStep, FieldsClear;
      assert FieldsClear(fields, denied)
          == (FieldsClear(fields[..n], denied) && last.key !in denied && Clear(last.value, denied)) by {
        FieldsClearOneMore(fields[..n], last, denied);
        SplitLast(fields);
      }
    }
  }

  ghost predicate AllClear(items: seq<Json>, denied: set<string>) {
    forall i :: 0 <= i < |items| ==> Clear(items[i], denied)
  }

  lemma ClearArray(items: seq<Json>, denied: set<string>)
    ensures Clear(Arr(items), denied) <==> AllClear(items, denied)
  {
  }

  lemma AllClearOneMore(items: seq<Json>, last: Json, denied: set<string>)
    ensures AllClear(items + [last], denied) <==> AllClear(items, denied) && Clear(last, denied)
  {
    hide Clear;
    var longer := items + [last];
    assert longer[|items|] == last;
    assert forall i :: 0 <= i < |items| ==> longer[i] == items[i];
  }

  lemma {:induction false} ItemsEmptyExactly(items: seq<Json>, denied: set<string>, prefix: string)
    ensures DeniedInItems(items, denied, prefix) == [] <==> AllClear(items, denied)
    decreases items, 1
  {
    hide Decimal.Text;
    hide Clear;
    if items != [] {
      var n := |items| - 1;
      var path := RenderStep(prefix, Index(n));
      ItemsEmptyExactly(items[..n], denied, prefix);
      WalkEmptyExactly(items[n], denied, path);
      EmptyConcat(DeniedInItems(items[..n], denied, prefix), DeniedPaths(items[n], denied, path));
      hide DeniedPaths, RenderStep, AllClear;
      assert AllClear(items, denied) == (AllClear(items[..n], denied) && Clear(items[n], denied)) by {
        AllClearOneMore(items[..n], items[n], denied);
        SplitLast(items);
      }
    }
  }
}
