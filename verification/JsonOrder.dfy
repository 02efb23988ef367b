/** The order in which denied keys are reported: that of the document, a parent before what lies below it. */
module JsonOrder {
  import opened Prelude
  import opened JsonTree

  /** In one node, the one step comes before the other: an earlier field, or an earlier item. */
  ghost predicate Precedes(v: Json, a: Step, b: Step) {
    match (v, a, b)
    case (Obj(fields), Key(k), Key(l)) =>
      exists i, j :: 0 <= i < j < |fields| && fields[i].key == k && fields[j].key == l
    case (Arr(_), Index(i), Index(j)) => i < j
    case _ => false
  }

  /** Document order: a position comes before those below it, and otherwise the first step that differs decides. */
  ghost predicate Before(v: Json, p: seq<Step>, q: seq<Step>)
    decreases |p|
  {
    if p == [] || q == [] then p == [] && q != []
    else if p[0] == q[0] then Resolve(v, [p[0]]).Some? && Before(Resolve(v, [p[0]]).value, p[1..], q[1..])
    else Precedes(v, p[0], q[0])
  }

  /** The positions lie below `at`, each before the next ones in `v`, which is the node there. */
  ghost predicate Sorted(v: Json, at: seq<Step>, paths: seq<seq<Step>>) {
    && (forall i :: 0 <= i < |paths| ==> at <= paths[i])
    && (forall i, j :: 0 <= i < j < |paths| ==> Before(v, paths[i][|at|..], paths[j][|at|..]))
  }

  lemma {:induction false} SortedConcat(v: Json, at: seq<Step>, a: seq<seq<Step>>, b: seq<seq<Step>>)
    requires Sorted(v, at, a) && Sorted(v, at, b)
    requires forall p, q :: p in a && q in b ==> Before(v, p[|at|..], q[|at|..])
    ensures Sorted(v, at, a + b)
  {
    hide Before;
    var ab := a + b;
    forall i, j | 0 <= i < j < |ab|
      ensures Before(v, ab[i][|at|..], ab[j][|at|..])
    {
      if i < |a| <= j {
        assert a[i] in a && b[j - |a|] in b;
      }
    }
  }

  // ----- below one step ------------------------------------------------------------

  /** Two positions through the same step are in the order their rests are in below it. */
  lemma {:induction false} BeforeBelow(v: Json, at: seq<Step>, step: Step, child: Json, p: seq<Step>, q: seq<Step>)
    requires Resolve(v, [step]) == Some(child)
    requires at + [step] <= p && at + [step] <= q
    requires Before(child, p[|at| + 1..], q[|at| + 1..])
    ensures Before(v, p[|at|..], q[|at|..])
  {
    StepFirst(at, step, p);
    StepFirst(at, step, q);
  }

  lemma StepFirst(at: seq<Step>, step: Step, p: seq<Step>)
    requires at + [step] <= p
    ensures |at| < |p| && at <= p && p[|at|] == step
    ensures p[|at|..] != [] && p[|at|..][0] == step && p[|at|..][1..] == p[|at| + 1..]
  {
  }

  lemma {:induction false} SortedBelow(v: Json, at: seq<Step>, step: Step, child: Json, paths: seq<seq<Step>>)
    requires Resolve(v, [step]) == Some(child) && Sorted(child, at + [step], paths)
    ensures Sorted(v, at, paths)
  {
    hide Before;
    forall i | 0 <= i < |paths|
      ensures at <= paths[i]
    {
      StepFirst(at, step, paths[i]);
    }
    forall i, j | 0 <= i < j < |paths|
      ensures Before(v, paths[i][|at|..], paths[j][|at|..])
    {
      BeforeBelow(v, at, step, child, paths[i], paths[j]);
    }
  }

  lemma {:induction false} BelowStartsWith(child: Json, denied: set<string>, at: seq<Step>, step: Step, p: seq<Step>)
    requires WellFormed(child) && p in Walk(child, denied, at + [step])
    ensures at + [step] <= p && p != at + [step]
  {
    WalkSound(child, denied, at + [step], p);
  }

  /** The positions of two steps are in the order of the steps. */
  lemma {:induction false} BeforeByStep(v: Json, at: seq<Step>, a: Step, b: Step, p: seq<Step>, q: seq<Step>)
    requires at + [a] <= p && at + [b] <= q && a != b && Precedes(v, a, b)
    ensures at <= p && at <= q && Before(v, p[|at|..], q[|at|..])
  {
    StepFirst(at, a, p);
    StepFirst(at, b, q);
    hide Precedes;
  }

  // ----- the walk --------------------------------------------------------------------

  /** The walk reports in document order. */
  lemma {:induction false} WalkSorted(v: Json, denied: set<string>, at: seq<Step>)
    requires WellFormed(v)
    ensures Sorted(v, at, Walk(v, denied, at))
    decreases v, 2, 0
  {
    match v
    case Obj(fields) =>
      assert fields[..|fields|] == fields;
      FieldsSorted(v, |fields|, denied, at);
    case Arr(items) =>
      assert items[..|items|] == items;
      ItemsSorted(v, |items|, denied, at);
    case _ =>
  }

  lemma {:induction false} FieldsSorted(v: Json, n: nat, denied: set<string>, at: seq<Step>)
    requires WellFormed(v) && v.Obj? && n <= |v.fields|
    ensures Sorted(v, at, WalkFields(v.fields[..n], denied, at))
    decreases v, 1, n
  {
    if n > 0 {
      var front, last := v.fields[..n - 1], v.fields[n - 1];
      assert v.fields[..n][..n - 1] == front;
      FieldsSorted(v, n - 1, denied, at);
      WalkSorted(last.value, denied, at + [Key(last.key)]);
      FieldSorted(v, n - 1, denied, at);
      FieldAfter(v, n - 1, denied, at);
      hide Sorted, Before, Walk, WellFormed;
      SortedConcat(v, at, WalkFields(front, denied, at), OfField(last, denied, at));
      ConcatAssociative(
        WalkFields(front, denied, at),
        if last.key in denied then [at + [Key(last.key)]] else [],
        Walk(last.value, denied, at + [Key(last.key)]));
    }
  }

  /** What is reported of one field: its key, if that is denied, and then what lies below. */
  ghost function OfField(field: Field, denied: set<string>, at: seq<Step>): seq<seq<Step>> {
    var here := at + [Key(field.key)];
    (if field.key in denied then [here] else []) + Walk(field.value, denied, here)
  }

  lemma OfFieldStart(field: Field, denied: set<string>, at: seq<Step>, p: seq<Step>)
    requires WellFormed(field.value) && p in OfField(field, denied, at)
    ensures at + [Key(field.key)] <= p
  {
    var here := at + [Key(field.key)];
    if p in Walk(field.value, denied, here) {
      BelowStartsWith(field.value, denied, at, Key(field.key), p);
    }
  }

  lemma {:induction false} FieldSorted(v: Json, n: nat, denied: set<string>, at: seq<Step>)
    requires WellFormed(v) && v.Obj? && n < |v.fields|
    requires var last := v.fields[n];
             Sorted(last.value, at + [Key(last.key)], Walk(last.value, denied, at + [Key(last.key)]))
    ensures Sorted(v, at, OfField(v.fields[n], denied, at))
  {
    var last := v.fields[n];
    var here := at + [Key(last.key)];
    var below := Walk(last.value, denied, here);
    FieldThere(v, n);
    var hit := if last.key in denied then [here] else [];
    forall p | p in below
      ensures Before(last.value, here[|here|..], p[|here|..])
    {
      BelowStartsWith(last.value, denied, at, Key(last.key), p);
    }
    hide Walk, WellFormed, Before;
    SortedConcat(last.value, here, hit, below);
    SortedBelow(v, at, Key(last.key), last.value, hit + below);
  }

  lemma {:induction false} FieldThere(v: Json, n: nat)
    requires WellFormed(v) && v.Obj? && n < |v.fields|
    ensures Resolve(v, [Key(v.fields[n].key)]) == Some(v.fields[n].value)
  {
    GetAt(v.fields, n);
    assert [Key(v.fields[n].key)][1..] == [];
  }

  lemma {:induction false} FieldAfter(v: Json, n: nat, denied: set<string>, at: seq<Step>)
    requires WellFormed(v) && v.Obj? && n < |v.fields|
    ensures forall p, q :: p in WalkFields(v.fields[..n], denied, at) && q in OfField(v.fields[n], denied, at) ==>
              at <= p && at <= q && Before(v, p[|at|..], q[|at|..])
  {
    forall p, q | p in WalkFields(v.fields[..n], denied, at) && q in OfField(v.fields[n], denied, at)
      ensures at <= p && at <= q && Before(v, p[|at|..], q[|at|..])
    {
      var i := FromField(v.fields[..n], denied, at, p);
      assert p in OfField(v.fields[i], denied, at);
      hide OfField, Before;
      OfFieldStart(v.fields[i], denied, at, p);
      OfFieldStart(v.fields[n], denied, at, q);
      BeforeByStep(v, at, Key(v.fields[i].key), Key(v.fields[n].key), p, q);
    }
  }

  lemma {:induction false} ItemsSorted(v: Json, n: nat, denied: set<string>, at: seq<Step>)
    requires WellFormed(v) && v.Arr? && n <= |v.items|
    ensures Sorted(v, at, WalkItems(v.items[..n], denied, at))
    decreases v, 1, n
  {
    if n > 0 {
      var front, last := v.items[..n - 1], v.items[n - 1];
      var here := Walk(last, denied, at + [Index(n - 1)]);
      assert v.items[..n][..n - 1] == front;
      ItemsSorted(v, n - 1, denied, at);
      WalkSorted(last, denied, at + [Index(n - 1)]);
      assert [Index(n - 1)][1..] == [];
      SortedBelow(v, at, Index(n - 1), last, here);
      ItemAfter(v, n - 1, denied, at);
      hide Sorted, Before, Walk, WellFormed;
      SortedConcat(v, at, WalkItems(front, denied, at), here);
    }
  }

  lemma {:induction false} ItemAfter(v: Json, n: nat, denied: set<string>, at: seq<Step>)
    requires WellFormed(v) && v.Arr? && n < |v.items|
    ensures forall p, q :: p in WalkItems(v.items[..n], denied, at) && q in Walk(v.items[n], denied, at + [Index(n)]) ==>
              at <= p && at <= q && Before(v, p[|at|..], q[|at|..])
  {
    forall p, q | p in WalkItems(v.items[..n], denied, at) && q in Walk(v.items[n], denied, at + [Index(n)])
      ensures at <= p && at <= q && Before(v, p[|at|..], q[|at|..])
    {
      var i := FromItem(v.items[..n], denied, at, p);
      hide Before;
      BelowStartsWith(v.items[i], denied, at, Index(i), p);
      BelowStartsWith(v.items[n], denied, at, Index(n), q);
      BeforeByStep(v, at, Index(i), Index(n), p, q);
    }
  }

  /** The i-th text reported is that of the i-th denied position in document order. */
  lemma {:induction false} ReportedInOrder(v: Json, denied: set<string>, i: nat, j: nat)
    requires WellFormed(v) && i < j < |DeniedPaths(v, denied, "")|
    ensures var paths := Walk(v, denied, []);
            && |paths| == |DeniedPaths(v, denied, "")|
            && Before(v, paths[i], paths[j])
            && DeniedPaths(v, denied, "")[i] == RenderPath(paths[i])
            && DeniedPaths(v, denied, "")[j] == RenderPath(paths[j])
  {
    WalkSorted(v, denied, []);
    WalkRendered(v, denied, []);
    var paths := Walk(v, denied, []);
    assert paths[i][0..] == paths[i] && paths[j][0..] == paths[j];
  }
}
