/** Python's `str.strip()`. */
module PyText {
  import opened Prelude

  /** The characters `str.isspace` accepts. */
  predicate IsSpace(c: char) {
    var n := c as int;
    9 <= n <= 13 || 28 <= n <= 32 || n == 0x85 || n == 0xA0 || n == 0x1680 || 0x2000 <= n <= 0x200A
    || n == 0x2028 || n == 0x2029 || n == 0x202F || n == 0x205F || n == 0x3000
  }

  function StripLeft(s: string): string {
    if s != "" && IsSpace(s[0]) then StripLeft(s[1..]) else s
  }

  function StripRight(s: string): string {
    if s != "" && IsSpace(s[|s| - 1]) then StripRight(s[..|s| - 1]) else s
  }

  function Strip(s: string): string {
    StripRight(StripLeft(s))
  }

  lemma {:induction false} StripLeftEnds(s: string)
    ensures StripLeft(s) == "" || !IsSpace(StripLeft(s)[0])
  {
    if s != "" && IsSpace(s[0]) {
      StripLeftEnds(s[1..]);
    }
  }

  lemma {:induction false} StripRightEnds(s: string)
    ensures StripRight(s) == "" || !IsSpace(StripRight(s)[|StripRight(s)| - 1])
    ensures StripRight(s) != "" ==> StripRight(s)[0] == s[0]
  {
    if s != "" && IsSpace(s[|s| - 1]) {
      StripRightEnds(s[..|s| - 1]);
    }
  }

  /** Stripping again strips nothing. */
  lemma StripTwice(s: string)
    ensures Strip(Strip(s)) == Strip(s)
  {
    StripLeftEnds(s);
    StripRightEnds(StripLeft(s));
  }

  /** The 25 whitespace characters of Unicode, and the four separators that Python adds to them. */
  ghost predicate WhiteSpace(c: char) {
    c in "\t\n\U{0B}\U{0C}\r\U{1C}\U{1D}\U{1E}\U{1F} \U{85}\U{A0}\U{1680}\U{2000}\U{2001}\U{2002}\U{2003}\U{2004}"
    || c in "\U{2005}\U{2006}\U{2007}\U{2008}\U{2009}\U{200A}\U{2028}\U{2029}\U{202F}\U{205F}\U{3000}"
  }

  ghost predicate Blank(s: string) {
    forall i :: 0 <= i < |s| ==> WhiteSpace(s[i])
  }

  lemma SpaceIsBlank(c: char)
    ensures IsSpace(c) <==> WhiteSpace(c)
  {
  }

  lemma BlankConcat(a: string, b: string)
    requires Blank(a) && Blank(b)
    ensures Blank(a + b)
  {
    hide WhiteSpace;
  }

  lemma {:induction false} StripLeftCuts(s: string) returns (before: string)
    ensures Blank(before) && s == before + StripLeft(s)
  {
    before := "";
    if s != "" && IsSpace(s[0]) {
      var first, back := s[0], s[1..];
      SpaceIsBlank(first);
      var rest := StripLeftCuts(back);
      before := [first] + rest;
      BlankConcat([first], rest);
      hide IsSpace, WhiteSpace, Blank;
      assert StripLeft(s) == StripLeft(back);
      hide StripLeft;
      assert s == [first] + back;
      ConcatAssociative([first], rest, StripLeft(back));
    }
  }

  lemma {:induction false} StripRightCuts(s: string) returns (after: string)
    ensures Blank(after) && s == StripRight(s) + after
  {
    after := "";
    if s != "" && IsSpace(s[|s| - 1]) {
      var front, last := s[..|s| - 1], s[|s| - 1];
      SpaceIsBlank(last);
      var rest := StripRightCuts(front);
      after := rest + [last];
      BlankConcat(rest, [last]);
      hide IsSpace, WhiteSpace, Blank;
      assert StripRight(s) == StripRight(front);
      hide StripRight;
      SplitLast(s);
      ConcatAssociative(StripRight(front), rest, [last]);
    }
  }

  /** Stripping cuts off blanks at both ends, and as many as there are. */
  lemma StripExactly(s: string) returns (before: string, after: string)
    ensures Blank(before) && Blank(after) && s == before + Strip(s) + after
    ensures Strip(s) != "" ==> !WhiteSpace(Strip(s)[0]) && !WhiteSpace(Strip(s)[|Strip(s)| - 1])
  {
    forall c {
      SpaceIsBlank(c);
    }
    hide IsSpace, WhiteSpace;
    before := StripLeftCuts(s);
    after := StripRightCuts(StripLeft(s));
    StripLeftEnds(s);
    StripRightEnds(StripLeft(s));
  }
}
