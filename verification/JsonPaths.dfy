/** The dotted-path lookup, and exactly which reported paths it resolves. */
module JsonPaths {
  import opened Prelude
  import opened JsonTree
  import Decimal

  /** `path.split(".")`. */
  function Split(path: string): (parts: seq<string>)
    ensures parts != []
  {
    if path == "" then [""]
    else
      var rest := Split(path[1..]);
      if path[0] == '.' then [""] + rest else [[path[0]] + rest[0]] + rest[1..]
  }

  /** Descends into objects part by part; an empty part, a missing key or a value that is no object gives Null. */
  function Follow(v: Json, parts: seq<string>): Json
    decreases |parts|
  {
    if parts == [] then v
    else if parts[0] == "" || !v.Obj? then Null
    else Follow(Get(v.fields, parts[0]), parts[1..])
  }

  function ValueAtPath(v: Json, path: string): Json {
    Follow(v, Split(path))
  }

  /** The lookup as the code runs it. */
  method CliValueAtPath(v: Json, path: string) returns (current: Json)
    ensures current == ValueAtPath(v, path)
  {
    current := v;
    var parts := Split(path);
    for n := 0 to |parts|
      invariant Follow(v, parts) == Follow(current, parts[n..])
    {
      assert parts[n..][1..] == parts[n + 1..];
      if parts[n] == "" {
        return Null;
      }
      if current.Obj? {
        current := Get(current.fields, parts[n]);
      } else {
        return Null;
      }
    }
  }

  // ----- splitting ------------------------------------------------------------

  predicate DotFree(s: string) {
    forall i :: 0 <= i < |s| ==> s[i] != '.'
  }

  lemma {:induction false} SplitParts(path: string)
    ensures forall i :: 0 <= i < |Split(path)| ==> DotFree(Split(path)[i])
  {
    if path != "" {
      SplitParts(path[1..]);
    }
  }

  /** Joining with a dot splits at that dot, when what comes before it has none. */
  lemma {:induction false} SplitJoined(k: string, rest: string)
    requires DotFree(k)
    ensures Split(k) == [k]
    ensures Split(k + "." + rest) == [k] + Split(rest)
  {
    var t := k + "." + rest;
    if k == "" {
      assert t[1..] == rest;
    } else {
      SplitJoined(k[1..], rest);
      assert t[1..] == k[1..] + "." + rest;
      assert k == [k[0]] + k[1..];
    }
  }

  /** The first part is at least as long as any dot-free beginning. */
  lemma {:induction false} FirstPartLength(k: string, rest: string)
    requires DotFree(k)
    ensures |Split(k + rest)[0]| >= |k|
  {
    if k != "" {
      FirstPartLength(k[1..], rest);
      assert (k + rest)[1..] == k[1..] + rest;
    }
  }

  // ----- which positions the lookup finds ------------------------------------------

  /** A position whose text says where it is: keys only, none of them empty or with a dot. */
  predicate Clean(steps: seq<Step>) {
    forall i :: 0 <= i < |steps| ==> steps[i].Key? && steps[i].k != "" && DotFree(steps[i].k)
  }

  lemma CleanFromLeft(k: string, rest: seq<Step>)
    ensures Clean([Key(k)] + rest) <==> k != "" && DotFree(k) && Clean(rest)
  {
    var steps := [Key(k)] + rest;
    assert steps[0] == Key(k);
    assert forall i :: 0 <= i < |rest| ==> rest[i] == steps[i + 1];
    assert forall i :: 0 < i < |steps| ==> steps[i] == rest[i - 1];
  }

  /** The text of the steps after the first, when what comes before is not empty. */
  function Suffix(steps: seq<Step>): string {
    if steps == [] then ""
    else StepText(steps[0]) + Suffix(steps[1..])
  }

  function StepText(step: Step): string {
    match step
    case Key(k) => "." + k
    case Index(i) => "[" + Decimal.Text(i) + "]"
  }

  lemma {:induction false} SuffixOneMore(steps: seq<Step>, step: Step)
    ensures Suffix(steps + [step]) == Suffix(steps) + Suffix([step])
  {
    hide Decimal.Text;
    if steps == [] {
      assert [] + [step] == [step];
    } else {
      assert (steps + [step])[1..] == steps[1..] + [step];
      SuffixOneMore(steps[1..], step);
      ConcatAssociative(StepText(steps[0]), Suffix(steps[1..]), Suffix([step]));
    }
  }

  /** A rendered path, read from its first step on. */
  lemma {:induction false} RenderFromLeft(first: Step, rest: seq<Step>)
    requires RenderStep("", first) != ""
    ensures RenderPath([first] + rest) == RenderStep("", first) + Suffix(rest)
  {
    hide Decimal.Text;
    if rest == [] {
      assert [first] + rest == [] + [first];
      RenderOneMore([], first);
    } else {
      var front, last := rest[..|rest| - 1], rest[|rest| - 1];
      var head := RenderStep("", first);
      RenderFromLeft(first, front);
      RenderOneMore([first] + front, last);
      SuffixOneMore(front, last);
      StepSuffix(head + Suffix(front), last);
      hide RenderStep, RenderPath, Suffix;
      SplitLast(rest);
      ConcatAssociative([first], front, [last]);
      ConcatAssociative(head, Suffix(front), Suffix([last]));
    }
  }

  lemma StepSuffix(prefix: string, step: Step)
    requires prefix != ""
    ensures RenderStep(prefix, step) == prefix + Suffix([step])
  {
  }

  /** The text of a clean position splits back into its keys. */
  lemma {:induction false} CleanSplits(first: string, rest: seq<Step>)
    requires Clean([Key(first)] + rest)
    ensures Clean(rest) && Split(first + Suffix(rest)) == [first] + Keys(rest)
    decreases |rest|
  {
    hide Decimal.Text;
    CleanFromLeft(first, rest);
    if rest == [] {
      SplitJoined(first, "");
      assert first + Suffix(rest) == first;
    } else {
      var next, more := rest[0].k, rest[1..];
      SuffixOfKey(first, rest);
      assert [Key(next)] + more == rest;
      assert Keys(rest) == [next] + Keys(more);
      hide Suffix, Keys, Split, Clean;
      CleanSplits(next, more);
      SplitJoined(first, next + Suffix(more));
    }
  }

  lemma {:induction false} SuffixOfKey(first: string, rest: seq<Step>)
    requires rest != [] && rest[0].Key?
    ensures first + Suffix(rest) == first + "." + (rest[0].k + Suffix(rest[1..]))
  {
  }

  ghost function Keys(steps: seq<Step>): seq<string>
    requires Clean(steps)
  {
    seq(|steps|, i requires 0 <= i < |steps| => steps[i].k)
  }

  lemma {:induction false} FollowKeys(v: Json, steps: seq<Step>)
    requires Clean(steps) && Resolve(v, steps).Some?
    ensures Follow(v, Keys(steps)) == Resolve(v, steps).value
    decreases |steps|
  {
    if steps != [] {
      FollowKeys(Get(v.fields, steps[0].k), steps[1..]);
      assert Keys(steps)[1..] == Keys(steps[1..]);
    }
  }

  /** At a clean position the lookup of its text gives exactly the child stored there. */
  lemma {:induction false} CleanPathResolves(v: Json, steps: seq<Step>)
    requires steps != [] && Clean(steps) && Resolve(v, steps).Some?
    ensures ValueAtPath(v, RenderPath(steps)) == Resolve(v, steps).value
  {
    hide Decimal.Text;
    var first, rest := steps[0].k, steps[1..];
    assert steps == [Key(first)] + rest;
    CleanFromLeft(first, rest);
    RenderFromLeft(Key(first), rest);
    assert RenderStep("", Key(first)) == first;
    assert Keys(steps) == [first] + Keys(rest);
    hide Suffix, Split, RenderPath, Keys;
    CleanSplits(first, rest);
    FollowKeys(v, steps);
  }

  /** The smallest tree that has the position, with a number there. */
  ghost function Build(steps: seq<Step>): Json {
    if steps == [] then Num(1.0)
    else
      match steps[0]
      case Key(k) => Obj([Field(k, Build(steps[1..]))])
      case Index(i) => Arr(seq(i, _ => Null) + [Build(steps[1..])])
  }

  lemma {:induction false} BuildHasPosition(steps: seq<Step>)
    ensures WellFormed(Build(steps)) && Resolve(Build(steps), steps) == Some(Num(1.0))
  {
    if steps != [] {
      BuildHasPosition(steps[1..]);
      if steps[0].Key? {
        var fields := [Field(steps[0].k, Build(steps[1..]))];
        assert fields[0].key == steps[0].k;
        assert Has(fields, steps[0].k);
      }
    }
  }

  lemma {:induction false} FollowNull(parts: seq<string>)
    ensures Follow(Null, parts) == Null
  {
  }

  /** An object with one key answers Null to any path that does not start with that key. */
  lemma {:induction false} FollowOtherKey(k: string, child: Json, parts: seq<string>)
    requires parts != [] && (parts[0] == "" || parts[0] != k)
    ensures Follow(Obj([Field(k, child)]), parts) == Null
  {
    if parts[0] != "" {
      var fields := [Field(k, child)];
      assert fields[1..] == [];
      assert Get(fields, parts[0]) == Null;
      FollowNull(parts[1..]);
    }
  }

  /** From a key on: if the position is not clean, the text of the position misses the built tree. */
  lemma {:induction false} UncleanMisses(k: string, rest: seq<Step>)
    requires !Clean([Key(k)] + rest)
    ensures Follow(Build([Key(k)] + rest), Split(k + Suffix(rest))) == Null
    decreases |rest|
  {
    hide Decimal.Text;
    var steps := [Key(k)] + rest;
    assert steps[1..] == rest;
    if k == "" || !DotFree(k) {
      SplitParts(k + Suffix(rest));
      FollowOtherKey(k, Build(rest), Split(k + Suffix(rest)));
    } else if rest == [] {
      assert false;
    } else if rest[0].Index? {
      IndexHidesKey(k, rest);
    } else {
      KeyAfterKey(k, rest);
      CleanFromLeft(k, rest);
      assert rest == [Key(rest[0].k)] + rest[1..];
      UncleanMisses(rest[0].k, rest[1..]);
    }
  }

  lemma {:induction false} IndexHidesKey(k: string, rest: seq<Step>)
    requires DotFree(k) && rest != [] && rest[0].Index?
    ensures Follow(Obj([Field(k, Build(rest))]), Split(k + Suffix(rest))) == Null
  {
    hide Decimal.Text;
    var digits, more := Decimal.Text(rest[0].i) + "]", Suffix(rest[1..]);
    var after := digits + more;
    assert Suffix(rest) == ("[" + digits) + more by {
      ConcatAssociative("[", Decimal.Text(rest[0].i), "]");
    }
    hide Suffix, Build;
    ConcatAssociative("[", digits, more);
    ConcatAssociative(k, "[", after);
    FirstPartLength(k + "[", after);
    FollowOtherKey(k, Build(rest), Split(k + Suffix(rest)));
  }

  lemma {:induction false} KeyAfterKey(k: string, rest: seq<Step>)
    requires k != "" && DotFree(k) && rest != [] && rest[0].Key?
    ensures Follow(Obj([Field(k, Build(rest))]), Split(k + Suffix(rest)))
         == Follow(Build(rest), Split(rest[0].k + Suffix(rest[1..])))
  {
    var text := rest[0].k + Suffix(rest[1..]);
    SuffixOfKey(k, rest);
    hide Suffix, Build;
    SplitJoined(k, text);
    hide Split;
    DropPrefix([k], Split(text));
  }

  /** At any other position the text can miss: the tree built for it answers Null. */
  lemma {:induction false} UncleanPathMisses(steps: seq<Step>)
    requires steps != [] && !Clean(steps)
    ensures ValueAtPath(Build(steps), RenderPath(steps)) == Null
  {
    hide Decimal.Text;
    var parts := Split(RenderPath(steps));
    assert steps == [steps[0]] + steps[1..];
    match steps[0]
    case Index(i) =>
    case Key(k) =>
      if k == "" {
        FollowOtherKey(k, Build(steps[1..]), parts);
      } else {
        RenderFromLeft(Key(k), steps[1..]);
        UncleanMisses(k, steps[1..]);
      }
  }

  /** The lookup returns the child at a position in every tree that has it, exactly when the position is clean. */
  lemma {:induction false} PathTextIsFaithfulExactly(steps: seq<Step>)
    requires steps != []
    ensures Clean(steps) <==>
      forall v :: WellFormed(v) && Resolve(v, steps).Some? ==> ValueAtPath(v, RenderPath(steps)) == Resolve(v, steps).value
  {
    if Clean(steps) {
      forall v | WellFormed(v) && Resolve(v, steps).Some?
        ensures ValueAtPath(v, RenderPath(steps)) == Resolve(v, steps).value
      {
        CleanPathResolves(v, steps);
      }
    } else {
      BuildHasPosition(steps);
      UncleanPathMisses(steps);
    }
  }

  /** A denied-key path whose position is clean leads the lookup to the child stored under that denied key. */
  lemma {:induction false} DeniedPathResolves(v: Json, denied: set<string>, i: nat)
    requires WellFormed(v) && i < |Walk(v, denied, [])| && Clean(Walk(v, denied, [])[i])
    ensures var p := Walk(v, denied, [])[i];
            && i < |DeniedPaths(v, denied, "")|
            && p != [] && p[|p| - 1].k in denied && Resolve(v, p).Some?
            && ValueAtPath(v, DeniedPaths(v, denied, "")[i]) == Resolve(v, p).value
  {
    var p := Walk(v, denied, [])[i];
    WalkReportsOccurrences(v, denied, p);
    CleanPathResolves(v, p);
  }

  // ----- what a lookup that finds something has found ---------------------------------

  ghost function KeySteps(parts: seq<string>): seq<Step> {
    seq(|parts|, i requires 0 <= i < |parts| => Key(parts[i]))
  }

  /** A path that resolves names a node reached through keys only. */
  lemma {:induction false} FollowedPosition(v: Json, parts: seq<string>)
    requires Follow(v, parts) != Null
    ensures Resolve(v, KeySteps(parts)) == Some(Follow(v, parts))
    decreases |parts|
  {
    if parts != [] {
      var k := parts[0];
      if !Has(v.fields, k) {
        GetMissing(v.fields, k);
        FollowNull(parts[1..]);
      }
      FollowedPosition(Get(v.fields, k), parts[1..]);
      assert KeySteps(parts)[1..] == KeySteps(parts[1..]);
    }
  }

  /** In a tree the denied-key walk passes, a resolving path goes through no denied key. */
  lemma {:induction false} ResolvedAvoidsDenied(v: Json, denied: set<string>, parts: seq<string>)
    requires Clear(v, denied) && Follow(v, parts) != Null
    ensures forall i :: 0 <= i < |parts| ==> parts[i] !in denied
    decreases |parts|
  {
    if parts != [] {
      var k := parts[0];
      if !Has(v.fields, k) {
        GetMissing(v.fields, k);
        FollowNull(parts[1..]);
      }
      var j := IndexOf(v.fields, k);
      assert HasKey(v, k);
      forall d | d in denied
        ensures !HasKey(v.fields[j].value, d)
      {
        assert !HasKey(v, d);
      }
      ResolvedAvoidsDenied(Get(v.fields, k), denied, parts[1..]);
      forall i | 0 <= i < |parts|
        ensures parts[i] !in denied
      {
        if i > 0 {
          assert parts[i] == parts[1..][i - 1];
        }
      }
    }
  }
}
