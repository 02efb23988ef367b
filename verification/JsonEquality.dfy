/** Python's `==` on JSON values, and what it means for two trees. */
module JsonEquality {
  import opened Prelude
  import opened JsonTree

  /** A number, or a bool as the number it equals. */
  function Numeric(v: Json): Option<real> {
    match v
    case Bool(b) => Some(if b then 1.0 else 0.0)
    case Num(n) => Some(n)
    case _ => None
  }

  /** Python's `==`: numbers and bools by value, lists by item, dictionaries by key whatever their order. */
  predicate PyEqual(a: Json, b: Json)
    decreases a
  {
    if Numeric(a).Some? || Numeric(b).Some? then Numeric(a) == Numeric(b)
    else
      match (a, b)
      case (Null, Null) => true
      case (Str(s), Str(t)) => s == t
      case (Arr(xs), Arr(ys)) => |xs| == |ys| && forall i :: 0 <= i < |xs| ==> PyEqual(xs[i], ys[i])
      case (Obj(fs), Obj(gs)) =>
        |fs| == |gs| && forall i :: 0 <= i < |fs| ==> Has(gs, fs[i].key) && PyEqual(fs[i].value, Get(gs, fs[i].key))
      case _ => false
  }

  // ----- what it compares ---------------------------------------------------------

  /** The leaf stands for the number `x`: itself, or a bool for 0 or 1. */
  ghost predicate StandsFor(v: Json, x: real) {
    v == Num(x) || (v == Bool(true) && x == 1.0) || (v == Bool(false) && x == 0.0)
  }

  /** The two nodes are of one kind, with the same content if they are leaves and the same length if they are lists. */
  ghost predicate SameNode(a: Json, b: Json) {
    || (a.Null? && b.Null?)
    || (exists x :: StandsFor(a, x) && StandsFor(b, x))
    || (a.Str? && b.Str? && a.s == b.s)
    || (a.Arr? && b.Arr? && |a.items| == |b.items|)
    || (a.Obj? && b.Obj?)
  }

  /** The position exists in both trees, with the same node, or in neither. */
  ghost predicate SameAt(a: Json, b: Json, steps: seq<Step>) {
    && (Resolve(a, steps).Some? <==> Resolve(b, steps).Some?)
    && (Resolve(a, steps).Some? && Resolve(b, steps).Some? ==>
          SameNode(Resolve(a, steps).value, Resolve(b, steps).value))
  }

  ghost predicate Alike(a: Json, b: Json) {
    forall steps :: SameAt(a, b, steps)
  }

  lemma NumericExactly(v: Json, x: real)
    ensures Numeric(v) == Some(x) <==> StandsFor(v, x)
  {
  }

  lemma {:induction false} EqualNodes(a: Json, b: Json)
    requires PyEqual(a, b)
    ensures SameNode(a, b)
  {
    if Numeric(a).Some? {
      NumericExactly(a, Numeric(a).value);
      NumericExactly(b, Numeric(a).value);
    }
  }

  // ----- keys ---------------------------------------------------------------------

  ghost predicate DistinctKeys(fields: seq<Field>) {
    forall i, j :: 0 <= i < j < |fields| ==> fields[i].key != fields[j].key
  }

  ghost function KeySet(fields: seq<Field>): set<string> {
    set i | 0 <= i < |fields| :: fields[i].key
  }

  lemma {:induction false} KeyCount(fields: seq<Field>)
    requires DistinctKeys(fields)
    ensures |KeySet(fields)| == |fields|
  {
    if fields != [] {
      var n := |fields| - 1;
      KeyCount(fields[..n]);
      assert fields[n].key !in KeySet(fields[..n]);
      assert KeySet(fields) == KeySet(fields[..n]) + {fields[n].key} by {
        assert forall i :: 0 <= i < n ==> fields[..n][i] == fields[i];
        assert forall k :: k in KeySet(fields[..n]) ==> k in KeySet(fields);
      }
    }
  }

  lemma SameSize<T>(a: set<T>, b: set<T>)
    requires a <= b && |a| == |b|
    ensures a == b
  {
    assert b == a + (b - a);
  }

  /** Two dictionaries of one size, all keys of one being keys of the other, have the same keys. */
  lemma SameKeySets(fs: seq<Field>, gs: seq<Field>)
    requires DistinctKeys(fs) && DistinctKeys(gs)
    ensures (|fs| == |gs| && forall i :: 0 <= i < |fs| ==> Has(gs, fs[i].key)) <==> KeySet(fs) == KeySet(gs)
  {
    KeyCount(fs);
    KeyCount(gs);
    if |fs| == |gs| && forall i :: 0 <= i < |fs| ==> Has(gs, fs[i].key) {
      assert KeySet(fs) <= KeySet(gs);
      SameSize(KeySet(fs), KeySet(gs));
    }
    if KeySet(fs) == KeySet(gs) {
      forall i | 0 <= i < |fs|
        ensures Has(gs, fs[i].key)
      {
        assert fs[i].key in KeySet(fs);
      }
    }
  }

  lemma HasExactly(fields: seq<Field>, k: string)
    ensures Has(fields, k) <==> k in KeySet(fields)
  {
  }

  // ----- main result ----------------------------------------------------------------

  /** Equal values are alike at every position. */
  lemma {:induction false} EqualIsAlike(a: Json, b: Json, steps: seq<Step>)
    requires WellFormed(a) && WellFormed(b) && PyEqual(a, b)
    ensures SameAt(a, b, steps)
    decreases |steps|
  {
    EqualNodes(a, b);
    if steps != [] {
      match (a, b, steps[0])
      case (Arr(xs), Arr(ys), Index(i)) =>
        if i < |xs| {
          EqualIsAlike(xs[i], ys[i], steps[1..]);
        }
      case (Obj(fs), Obj(gs), Key(k)) =>
        SameKeySets(fs, gs);
        HasExactly(fs, k);
        HasExactly(gs, k);
        if Has(fs, k) {
          var i := IndexOf(fs, k);
          var j := IndexOf(gs, k);
          EqualIsAlike(fs[i].value, gs[j].value, steps[1..]);
        }
      case _ =>
    }
  }

  lemma {:induction false} ChildAlike(a: Json, b: Json, step: Step, u: Json, v: Json)
    requires Alike(a, b) && Resolve(a, [step]) == Some(u) && Resolve(b, [step]) == Some(v)
    ensures Alike(u, v)
  {
    forall steps
      ensures SameAt(u, v, steps)
    {
      assert ([step] + steps)[1..] == steps && [step][1..] == [];
      assert SameAt(a, b, [step] + steps);
    }
  }

  /** Values that are alike at every position are equal. */
  lemma {:induction false} AlikeIsEqual(a: Json, b: Json)
    requires WellFormed(a) && WellFormed(b) && Alike(a, b)
    ensures PyEqual(a, b)
    decreases a
  {
    assert SameAt(a, b, []);
    if exists x :: StandsFor(a, x) && StandsFor(b, x) {
      var x :| StandsFor(a, x) && StandsFor(b, x);
      NumericExactly(a, x);
      NumericExactly(b, x);
    } else {
      match (a, b)
      case (Arr(xs), Arr(ys)) =>
        forall i | 0 <= i < |xs|
          ensures PyEqual(xs[i], ys[i])
        {
          ChildAlike(a, b, Index(i), xs[i], ys[i]);
          AlikeIsEqual(xs[i], ys[i]);
        }
      case (Obj(fs), Obj(gs)) =>
        AlikeKeys(fs, gs);
        forall i | 0 <= i < |fs|
          ensures Has(gs, fs[i].key) && PyEqual(fs[i].value, Get(gs, fs[i].key))
        {
          GetAt(fs, i);
          var j := IndexOf(gs, fs[i].key);
          ChildAlike(a, b, Key(fs[i].key), fs[i].value, gs[j].value);
          AlikeIsEqual(fs[i].value, gs[j].value);
        }
      case _ =>
    }
  }

  lemma OneKeyStep(fields: seq<Field>, k: string)
    ensures Resolve(Obj(fields), [Key(k)]).Some? <==> Has(fields, k)
  {
    assert [Key(k)][1..] == [];
  }

  lemma AlikeKeys(fs: seq<Field>, gs: seq<Field>)
    requires DistinctKeys(fs) && DistinctKeys(gs) && Alike(Obj(fs), Obj(gs))
    ensures |fs| == |gs| && forall i :: 0 <= i < |fs| ==> Has(gs, fs[i].key)
  {
    forall k
      ensures k in KeySet(fs) <==> k in KeySet(gs)
    {
      assert SameAt(Obj(fs), Obj(gs), [Key(k)]);
      OneKeyStep(fs, k);
      OneKeyStep(gs, k);
      HasExactly(fs, k);
      HasExactly(gs, k);
    }
    SameKeySets(fs, gs);
  }

  /** Two values are equal exactly if they have the same positions, and the same node at each. */
  lemma {:induction false} EqualExactly(a: Json, b: Json)
    requires WellFormed(a) && WellFormed(b)
    ensures PyEqual(a, b) <==> Alike(a, b)
  {
    if PyEqual(a, b) {
      forall steps
        ensures SameAt(a, b, steps)
      {
        EqualIsAlike(a, b, steps);
      }
    }
    if Alike(a, b) {
      AlikeIsEqual(a, b);
    }
  }

  /** In particular numbers are equal exactly if they are the same number. */
  lemma NumbersEqualExactly(x: real, y: real)
    ensures PyEqual(Num(x), Num(y)) <==> x == y
  {
    EqualExactly(Num(x), Num(y));
  }
}
