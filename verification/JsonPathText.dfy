/** Reading a reported path back into the position it stands for. */
module JsonPathText {
  import opened Prelude
  import opened JsonTree
  import opened JsonPaths
  import Decimal

  /** The longest beginning without any of the given characters. */
  function Before(t: string, stops: string): (s: string)
    ensures |s| <= |t|
  {
    if t == "" || t[0] in stops then "" else [t[0]] + Before(t[1..], stops)
  }

  /** A dot is followed by a key, which ends at the next dot or bracket; an index stands between brackets. */
  ghost function ReadSteps(t: string): seq<Step>
    decreases |t|
  {
    if t == "" then []
    else if t[0] == '[' then
      var digits := Before(t[1..], "]");
      var rest := t[1..][|digits|..];
      var i := Decimal.Value(digits);
      [Index(if i < 0 then 0 else i)] + ReadSteps(if rest == "" then "" else rest[1..])
    else
      var key := Before(t[1..], ".[");
      [Key(key)] + ReadSteps(t[1..][|key|..])
  }

  /** The first step has no dot. */
  ghost function ReadPath(t: string): seq<Step> {
    if t == "" then [] else if t[0] == '[' then ReadSteps(t) else ReadSteps("." + t)
  }

  /** Free of the characters that end a key. */
  predicate Simple(k: string) {
    forall c :: c in k ==> c != '.' && c != '['
  }

  ghost predicate SimpleSteps(steps: seq<Step>) {
    forall i :: 0 <= i < |steps| && steps[i].Key? ==> Simple(steps[i].k)
  }

  // ----- reading one step ---------------------------------------------------------

  lemma {:induction false} BeforeStop(s: string, stops: string, rest: string)
    requires forall c :: c in s ==> c !in stops
    requires rest == "" || rest[0] in stops
    ensures Before(s + rest, stops) == s && (s + rest)[|s|..] == rest
  {
    if s == "" {
      assert s + rest == rest;
    } else {
      BeforeStop(s[1..], stops, rest);
      assert (s + rest)[1..] == s[1..] + rest;
    }
  }

  lemma {:induction false} BeforeHasNone(t: string, stops: string)
    ensures forall c :: c in Before(t, stops) ==> c !in stops
  {
    if t != "" && t[0] !in stops {
      BeforeHasNone(t[1..], stops);
    }
  }

  lemma {:induction false} KeyFirst(t: string)
    requires t != "" && t[0] != '['
    ensures var key := Before(t[1..], ".[");
            ReadSteps(t) == [Key(key)] + ReadSteps(t[1..][|key|..])
  {
  }

  lemma IndexFirst(t: string)
    requires t != "" && t[0] == '['
    ensures var digits := Before(t[1..], "]");
            var rest := t[1..][|digits|..];
            var i := Decimal.Value(digits);
            ReadSteps(t) == [Index(if i < 0 then 0 else i)] + ReadSteps(if rest == "" then "" else rest[1..])
  {
  }

  lemma {:induction false} ReadKey(k: string, rest: string)
    requires Simple(k) && (rest == "" || rest[0] in ".[")
    ensures ReadSteps("." + k + rest) == [Key(k)] + ReadSteps(rest)
  {
    hide ReadSteps;
    var t := "." + k + rest;
    ConcatAssociative(".", k, rest);
    DropPrefix(".", k + rest);
    BeforeStop(k, ".[", rest);
    hide Before;
    KeyFirst(t);
  }

  lemma {:induction false} ReadIndex(i: nat, rest: string)
    ensures ReadSteps(StepText(Index(i)) + rest) == [Index(i)] + ReadSteps(rest)
  {
    hide ReadSteps, Decimal.Value;
    var digits := Decimal.Text(i);
    Decimal.TextShape(i);
    hide Decimal.Text;
    var t := StepText(Index(i)) + rest;
    assert t[0] == '[' && t[1..] == digits + ("]" + rest);
    BeforeStop(digits, "]", "]" + rest);
    hide Before;
    IndexFirst(t);
    DropPrefix("]", rest);
  }

  // ----- reading a whole path -----------------------------------------------------

  lemma {:induction false} SuffixStart(steps: seq<Step>)
    ensures Suffix(steps) == "" || Suffix(steps)[0] in ".["
  {
  }

  lemma {:induction false} SuffixReadsBack(steps: seq<Step>)
    requires SimpleSteps(steps)
    ensures ReadSteps(Suffix(steps)) == steps
  {
    if steps != [] {
      var rest := steps[1..];
      SuffixReadsBack(rest);
      SuffixStart(rest);
      assert steps == [steps[0]] + rest;
      hide ReadSteps, Decimal.Text;
      match steps[0]
      case Key(k) => ReadKey(k, Suffix(rest));
      case Index(i) => ReadIndex(i, Suffix(rest));
    }
  }

  /** With a dot put before a first key, the text is that of steps coming after something. */
  lemma {:induction false} FirstAsAnyOther(first: Step, rest: seq<Step>)
    requires first != Key("")
    ensures first.Key? ==> Suffix([first] + rest) == "." + RenderPath([first] + rest)
    ensures first.Index? ==> Suffix([first] + rest) == RenderPath([first] + rest)
  {
    TextFromFirst(first, rest);
    SuffixFirst(first, rest);
    hide RenderPath, Suffix, Decimal.Text;
    match first
    case Key(k) => ConcatAssociative(".", k, Suffix(rest));
    case Index(i) =>
  }

  lemma {:induction false} TextFromFirst(first: Step, rest: seq<Step>)
    requires first != Key("")
    ensures first.Key? ==> RenderPath([first] + rest) == first.k + Suffix(rest)
    ensures first.Index? ==> RenderPath([first] + rest) == StepText(first) + Suffix(rest)
  {
    assert first.Key? ==> RenderStep("", first) == first.k;
    assert first.Index? ==> RenderStep("", first) == StepText(first) != "";
    RenderFromLeft(first, rest);
    hide RenderPath, Suffix, RenderStep, StepText;
  }

  lemma {:induction false} SuffixFirst(first: Step, rest: seq<Step>)
    ensures Suffix([first] + rest) == StepText(first) + Suffix(rest)
  {
    hide StepText;
    assert ([first] + rest)[1..] == rest;
  }

  lemma {:induction false} ReadsBack(first: Step, rest: seq<Step>)
    requires SimpleSteps([first] + rest) && first != Key("")
    ensures ReadPath(RenderPath([first] + rest)) == [first] + rest
  {
    FirstAsAnyOther(first, rest);
    SuffixReadsBack([first] + rest);
    FirstCharacter(first, rest);
    hide RenderPath, ReadSteps, Suffix;
  }

  lemma {:induction false} FirstCharacter(first: Step, rest: seq<Step>)
    requires first != Key("") && (first.Key? ==> Simple(first.k))
    ensures RenderPath([first] + rest) != ""
    ensures RenderPath([first] + rest)[0] == '[' <==> first.Index?
  {
    hide Decimal.Text;
    RenderFromLeft(first, rest);
    hide RenderPath, Suffix;
    if first.Key? {
      assert first.k[0] in first.k;
    }
  }

  // ----- what cannot be read back ---------------------------------------------------

  /** Every key that is read is simple. */
  lemma {:induction false} ReadIsSimple(t: string)
    ensures SimpleSteps(ReadSteps(t))
    decreases |t|
  {
    if t != "" {
      if t[0] == '[' {
        var digits := Before(t[1..], "]");
        var rest := t[1..][|digits|..];
        ReadIsSimple(if rest == "" then "" else rest[1..]);
      } else {
        var key := Before(t[1..], ".[");
        BeforeHasNone(t[1..], ".[");
        ReadIsSimple(t[1..][|key|..]);
      }
    }
  }

  /** Text that starts with an empty key never starts with a dot, if the keys are simple. */
  lemma {:induction false} NoLeadingDot(steps: seq<Step>)
    requires SimpleSteps(steps) && steps != [] && steps[0] == Key("")
    ensures RenderPath(steps) == "" || RenderPath(steps)[0] != '.'
    decreases |steps|
  {
    hide Decimal.Text;
    var n := |steps| - 1;
    if n > 0 {
      NoLeadingDot(steps[..n]);
      var before := RenderPath(steps[..n]);
      match steps[n]
      case Key(k) => assert k != "" ==> k[0] in k;
      case Index(i) => assert before == "" ==> RenderStep(before, steps[n])[0] == '[';
    }
  }

  /**
   * The text of a position can be read back if and only if no key on the way has a dot or an opening bracket and the
   * first key is not empty.
   */
  lemma {:induction false} PathReadsBackExactly(steps: seq<Step>)
    ensures ReadPath(RenderPath(steps)) == steps
            <==> SimpleSteps(steps) && (steps == [] || steps[0] != Key(""))
  {
    var t := RenderPath(steps);
    if SimpleSteps(steps) && steps != [] && steps[0] != Key("") {
      assert steps == [steps[0]] + steps[1..];
      ReadsBack(steps[0], steps[1..]);
    }
    if ReadPath(t) == steps && steps != [] {
      ReadIsSimple(if t[0] == '[' then t else "." + t);
      if steps[0] == Key("") {
        NoLeadingDot(steps);
        FirstRead(t);
      }
    }
  }

  /** The first step read is an empty key only if the text starts with a dot. */
  lemma FirstRead(t: string)
    requires t != "" && t[0] != '.'
    ensures ReadPath(t) != [] && ReadPath(t)[0] != Key("")
  {
    if t[0] != '[' {
      assert ("." + t)[1..] == t;
    }
  }

  /** Hence every path the walk reports in a tree with simple keys names one position: the texts are all different. */
  lemma {:induction false} ReportedPathsDiffer(v: Json, denied: set<string>, i: nat, j: nat)
    requires WellFormed(v) && i < j < |DeniedPaths(v, denied, "")|
    requires forall at :: Resolve(v, at).Some? ==> SimpleSteps(at) && (at == [] || at[0] != Key(""))
    ensures DeniedPaths(v, denied, "")[i] != DeniedPaths(v, denied, "")[j]
  {
    var paths := Walk(v, denied, []);
    WalkRendered(v, denied, []);
    WalkDistinct(v, denied, []);
    WalkSound(v, denied, [], paths[i]);
    WalkSound(v, denied, [], paths[j]);
    assert paths[i][0..] == paths[i] && paths[j][0..] == paths[j];
    PathReadsBackExactly(paths[i]);
    PathReadsBackExactly(paths[j]);
  }
}
