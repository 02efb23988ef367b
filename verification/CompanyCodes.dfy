/** The migration that gives every company a code: "default" gets 10000, the others count up from there. */
module CompanyCodes {
  import Decimal

  const DEFAULT_CODE := "10000"
  const DEFAULT_COMPANY := "default"

  /** `f"{n:05d}"`. */
  function Code(n: nat): string {
    Decimal.Padded(Decimal.Digits(n), 5)
  }

  lemma DefaultIsCode()
    ensures Code(10_000) == DEFAULT_CODE
  {
  }

  lemma CodesDiffer(m: nat, n: nat)
    requires Code(m) == Code(n)
    ensures m == n
  {
    Decimal.PaddedDigitsInjective(m, n, 5);
  }

  /** How many companies other than the default one there are. */
  function Others(companies: seq<string>): nat {
    if companies == [] then 0
    else Others(companies[..|companies| - 1]) + if companies[|companies| - 1] == DEFAULT_COMPANY then 0 else 1
  }

  /** The code of the company at a position: the k-th other company, from zero, gets 10001 + k. */
  function CodeAt(companies: seq<string>, i: nat): string
    requires i < |companies|
  {
    if companies[i] == DEFAULT_COMPANY then DEFAULT_CODE else Code(10_001 + Others(companies[..i]))
  }

  /** The first unused number: the skipped one is passed when the first other company is reached. */
  function NextCode(companies: seq<string>): nat {
    if Others(companies) == 0 then 10_000 else 10_001 + Others(companies)
  }

  lemma {:induction false} OthersOneMore(companies: seq<string>, company: string)
    ensures Others(companies + [company]) == Others(companies) + if company == DEFAULT_COMPANY then 0 else 1
  {
  }

  /** The codes handed out so far are the default one and those of numbers already passed. */
  ghost predicate Passed(used: set<string>, next: nat) {
    forall code :: code in used ==> code == DEFAULT_CODE || exists n: nat :: 10_001 <= n < next && code == Code(n)
  }

  lemma NonePassed()
    ensures Passed({}, 10_000)
  {
  }

  lemma PassedOneMore(used: set<string>, before: nat, code: string, next: nat)
    requires Passed(used, before) && before <= next
    requires code == DEFAULT_CODE || (next > 10_001 && code == Code(next - 1))
    ensures Passed(used + {code}, next)
  {
  }

  lemma NotPassed(used: set<string>, next: nat, n: nat)
    requires Passed(used, next) && n >= next && n > 10_000
    ensures Code(n) !in used && Code(n) != DEFAULT_CODE
  {
    DefaultIsCode();
    if Code(n) == DEFAULT_CODE {
      CodesDiffer(n, 10_000);
    }
    if Code(n) in used {
      var m: nat :| 10_001 <= m < next && Code(n) == Code(m);
      CodesDiffer(n, m);
    }
  }

  /** The search loop: skip the default code and codes in use. `skips` counts how often it did. */
  method FindCode(used: set<string>, nextCode: nat) returns (code: string, next: nat, ghost skips: nat)
    requires nextCode >= 10_000 && Passed(used, nextCode)
    ensures code !in used && code != DEFAULT_CODE
    ensures skips == if nextCode == 10_000 then 1 else 0
    ensures code == Code(nextCode + skips) && next == nextCode + skips + 1
  {
    next, skips := nextCode, 0;
    while true
      invariant nextCode <= next && skips == next - nextCode
      invariant skips == if nextCode == 10_000 && next > 10_000 then 1 else 0
      decreases 10_001 - next
    {
      var candidate := Code(next);
      DefaultIsCode();
      if next > 10_000 {
        NotPassed(used, nextCode, next);
      }
      next := next + 1;
      if candidate == DEFAULT_CODE || candidate in used {
        skips := skips + 1;
        continue;
      }
      code := candidate;
      if nextCode == 10_000 && next == 10_001 {
        assert false;
      }
      break;
    }
  }

  /** The codes of all companies, in the order of their rows, and how often a candidate was skipped. */
  method AssignCodes(companies: seq<string>) returns (codes: seq<string>, ghost skips: nat)
    ensures |codes| == |companies|
    ensures forall i :: 0 <= i < |codes| ==> codes[i] == CodeAt(companies, i)
    ensures skips == if Others(companies) == 0 then 0 else 1
  {
    hide Code, Passed;
    codes, skips := [], 0;
    NonePassed();
    var used: set<string> := {};
    var nextCode: nat := 10_000;
    for n := 0 to |companies|
      invariant |codes| == n
      invariant nextCode == NextCode(companies[..n]) && Passed(used, nextCode)
      invariant forall i :: 0 <= i < n ==> codes[i] == CodeAt(companies, i)
      invariant skips == if Others(companies[..n]) == 0 then 0 else 1
    {
      OthersOneMore(companies[..n], companies[n]);
      assert companies[..n + 1] == companies[..n] + [companies[n]];
      var code;
      if companies[n] == DEFAULT_COMPANY {
        code := DEFAULT_CODE;
      } else {
        ghost var skipped: nat;
        code, nextCode, skipped := FindCode(used, nextCode);
        skips := skips + skipped;
      }
      PassedOneMore(used, NextCode(companies[..n]), code, nextCode);
      codes := codes + [code];
      used := used + {code};
    }
    assert companies[..|companies|] == companies;
  }

  // ----- what the codes are like -----------------------------------------------------------

  lemma {:induction false} OthersGrow(companies: seq<string>, i: nat, j: nat)
    requires i <= j <= |companies|
    ensures Others(companies[..i]) <= Others(companies[..j])
    ensures i < j && companies[i] != DEFAULT_COMPANY ==> Others(companies[..i]) < Others(companies[..j])
    decreases j
  {
    if i < j {
      assert companies[..j] == companies[..j - 1] + [companies[j - 1]];
      OthersOneMore(companies[..j - 1], companies[j - 1]);
      OthersGrow(companies, i, j - 1);
    }
  }

  ghost predicate DefaultOnce(companies: seq<string>) {
    forall i, j :: 0 <= i < j < |companies| ==> companies[i] != DEFAULT_COMPANY || companies[j] != DEFAULT_COMPANY
  }

  /** All codes are distinct exactly when "default" is listed at most once; other repeated ids do no harm. */
  lemma CodesDistinctExactly(companies: seq<string>)
    ensures (forall i, j :: 0 <= i < j < |companies| ==> CodeAt(companies, i) != CodeAt(companies, j))
            <==> DefaultOnce(companies)
  {
    DefaultIsCode();
    if DefaultOnce(companies) {
      forall i, j | 0 <= i < j < |companies|
        ensures CodeAt(companies, i) != CodeAt(companies, j)
      {
        CodesAtDiffer(companies, i, j);
      }
    } else {
      var i, j :| 0 <= i < j < |companies| && companies[i] == DEFAULT_COMPANY && companies[j] == DEFAULT_COMPANY;
      assert CodeAt(companies, i) == CodeAt(companies, j);
    }
  }

  lemma CodesAtDiffer(companies: seq<string>, i: nat, j: nat)
    requires i < j < |companies| && (companies[i] != DEFAULT_COMPANY || companies[j] != DEFAULT_COMPANY)
    ensures CodeAt(companies, i) != CodeAt(companies, j)
  {
    DefaultIsCode();
    OthersGrow(companies, i, j);
    if CodeAt(companies, i) == CodeAt(companies, j) {
      var m := if companies[i] == DEFAULT_COMPANY then 10_000 else 10_001 + Others(companies[..i]);
      var n := if companies[j] == DEFAULT_COMPANY then 10_000 else 10_001 + Others(companies[..j]);
      CodesDiffer(m, n);
    }
  }

  /**
   * A code is a decimal number of at least five digits: 10000 for "default", and for another company 10001 and one more
   * for each of the companies before it that is not "default".
   */
  lemma {:induction false} CodeNumber(companies: seq<string>, i: nat)
    requires i < |companies|
    ensures var code := CodeAt(companies, i);
            && |code| >= 5
            && (|code| > 5 ==> code[0] != '0')
            && (forall c :: c in code ==> '0' <= c <= '9')
            && Decimal.Value(code) == if companies[i] == "default" then 10_000
                                      else 10_001 + |OtherPositions(companies, i)|
  {
    DefaultIsCode();
    OthersCounted(companies, i);
    var n := if companies[i] == "default" then 10_000 else 10_001 + Others(companies[..i]);
    Decimal.ValueOfDigits(n);
    Decimal.ValueOfPadded(Decimal.Digits(n), 5);
    Decimal.PaddedShape(n, 5);
  }

  /** The positions before `i` whose company is not the default one. */
  ghost function OtherPositions(companies: seq<string>, i: nat): set<nat>
    requires i <= |companies|
  {
    set j | 0 <= j < i && companies[j] != "default"
  }

  lemma {:induction false} OthersCounted(companies: seq<string>, i: nat)
    requires i <= |companies|
    ensures Others(companies[..i]) == |OtherPositions(companies, i)|
  {
    if i > 0 {
      OthersCounted(companies, i - 1);
      assert companies[..i] == companies[..i - 1] + [companies[i - 1]];
      OthersOneMore(companies[..i - 1], companies[i - 1]);
      OnePositionMore(companies, i - 1);
    }
  }

  lemma OnePositionMore(companies: seq<string>, i: nat)
    requires i < |companies|
    ensures |OtherPositions(companies, i + 1)|
         == |OtherPositions(companies, i)| + if companies[i] == "default" then 0 else 1
  {
    var before := OtherPositions(companies, i);
    assert OtherPositions(companies, i + 1) == if companies[i] == "default" then before else before + {i};
  }

  /** Only "default" gets 10000. */
  lemma DefaultCodeExactly(companies: seq<string>, i: nat)
    requires i < |companies|
    ensures CodeAt(companies, i) == DEFAULT_CODE <==> companies[i] == DEFAULT_COMPANY
  {
    DefaultIsCode();
    if CodeAt(companies, i) == DEFAULT_CODE && companies[i] != DEFAULT_COMPANY {
      CodesDiffer(10_001 + Others(companies[..i]), 10_000);
    }
  }

  /** All codes fit the five-character column exactly when there are at most 89,999 other companies. */
  lemma {:induction false} FiveDigitsExactly(companies: seq<string>)
    ensures (forall i :: 0 <= i < |companies| ==> |CodeAt(companies, i)| == 5) <==> Others(companies) <= 89_999
  {
    if Others(companies) <= 89_999 {
      forall i | 0 <= i < |companies|
        ensures |CodeAt(companies, i)| == 5
      {
        OthersGrow(companies, i, |companies|);
        assert companies[..|companies|] == companies;
        Decimal.FiveDigits(10_001 + Others(companies[..i]));
      }
    } else {
      var i := LastOther(companies);
      Decimal.FiveDigits(10_001 + Others(companies[..i]));
      assert |CodeAt(companies, i)| != 5;
    }
  }

  /** The last company that is not the default one has all the others but itself before it. */
  lemma {:induction false} LastOther(companies: seq<string>) returns (i: nat)
    requires Others(companies) > 0
    ensures i < |companies| && companies[i] != DEFAULT_COMPANY && Others(companies[..i]) == Others(companies) - 1
  {
    var n := |companies| - 1;
    if companies[n] != DEFAULT_COMPANY {
      i := n;
    } else {
      i := LastOther(companies[..n]);
      assert companies[..n][..i] == companies[..i];
    }
  }
}
