/** Rendering a VALUES list, and reading it back under the rules of SQL. */
module SqlText {
  import opened Prelude

  // ----- rendering -------------------------------------------------------

  /** `value.replace("'", "''")`. */
  function Doubled(s: string): string {
    if s == "" then "" else (if s[0] == '\'' then "''" else [s[0]]) + Doubled(s[1..])
  }

  function Quoted(s: string): string {
    "'" + Doubled(s) + "'"
  }

  /** A Python value of a row: `Number` holds what `str` gives for an int or a float. */
  datatype Value = Timestamp(iso: string) | Str(text: string) | Number(digits: string) | Missing

  /** What one column carries once it is SQL: a literal, a literal cast to json, or a bare word (a number or NULL). */
  datatype Cell = Literal(s: string) | Json(s: string) | Bare(word: string)

  function CellText(c: Cell): string {
    match c
    case Literal(s) => Quoted(s)
    case Json(s) => Quoted(s) + "::json"
    case Bare(w) => w
  }

  /** The cell for a column: `metadata_json` of a raw row is always the empty object, unless it is a string. */
  function CellOf(column: string, value: Value, rawTable: bool): Cell {
    match value
    case Timestamp(iso) => Literal(iso)
    case Str(s) => Literal(s)
    case Number(digits) => if rawTable && column == "metadata_json" then Json("{}") else Bare(digits)
    case Missing => if rawTable && column == "metadata_json" then Json("{}") else Bare("NULL")
  }

  function Lookup(row: map<string, Value>, column: string): Value {
    if column in row then row[column] else Missing
  }

  function Cells(columns: seq<string>, row: map<string, Value>, rawTable: bool): seq<Cell> {
    seq(|columns|, i requires 0 <= i < |columns| => CellOf(columns[i], Lookup(row, columns[i]), rawTable))
  }

  function Join(parts: seq<string>, separator: string): string {
    if parts == [] then ""
    else if |parts| == 1 then parts[0]
    else parts[0] + separator + Join(parts[1..], separator)
  }

  function Texts(cells: seq<Cell>): seq<string> {
    seq(|cells|, i requires 0 <= i < |cells| => CellText(cells[i]))
  }

  function RowText(cells: seq<Cell>): string {
    "(" + Join(Texts(cells), ", ") + ")"
  }

  /** Renders the columns of one row in order. */
  method RowValuesSql(columns: seq<string>, row: map<string, Value>, rawTable: bool) returns (text: string)
    ensures text == RowText(Cells(columns, row, rawTable))
  {
    var values: seq<string> := [];
    for n := 0 to |columns|
      invariant values == Texts(Cells(columns, row, rawTable))[..n]
    {
      values := values + [CellText(CellOf(columns[n], Lookup(row, columns[n]), rawTable))];
    }
    assert values == Texts(Cells(columns, row, rawTable));
    text := "(" + Join(values, ", ") + ")";
  }

  function RowTexts(rows: seq<seq<Cell>>): seq<string> {
    seq(|rows|, i requires 0 <= i < |rows| => RowText(rows[i]))
  }

  /** The whole VALUES list of one INSERT. */
  function ValuesText(rows: seq<seq<Cell>>): string {
    Join(RowTexts(rows), ",\n")
  }

  // ----- reading -----------------------------------------------------------

  predicate StartsWith(s: string, prefix: string) {
    |prefix| <= |s| && s[..|prefix|] == prefix
  }

  /** Reads a literal after its opening quote: a doubled quote stands for one, a single quote closes. */
  function ReadLiteral(t: string): (r: Option<(string, string)>)
    ensures r.Some? ==> |r.value.1| < |t|
  {
    if t == "" then None
    else if t[0] != '\'' then
      match ReadLiteral(t[1..])
      case None => None
      case Some((s, rest)) => Some(([t[0]] + s, rest))
    else if |t| > 1 && t[1] == '\'' then
      match ReadLiteral(t[2..])
      case None => None
      case Some((s, rest)) => Some(("'" + s, rest))
    else Some(("", t[1..]))
  }

  /** Reads a bare word up to the next comma or closing parenthesis. */
  function ReadBare(t: string): (r: (string, string))
    ensures |r.1| <= |t|
  {
    if t == "" || t[0] == ',' || t[0] == ')' then ("", t)
    else
      var (w, rest) := ReadBare(t[1..]);
      ([t[0]] + w, rest)
  }

  function ReadCell(t: string): (r: Option<(Cell, string)>)
    ensures r.Some? ==> |r.value.1| <= |t|
  {
    if StartsWith(t, "'") then
      match ReadLiteral(t[1..])
      case None => None
      case Some((s, rest)) =>
        if StartsWith(rest, "::json") then Some((Json(s), rest[6..])) else Some((Literal(s), rest))
    else
      var (w, rest) := ReadBare(t);
      Some((Bare(w), rest))
  }

  /** Reads cells separated by commas up to the closing parenthesis. */
  function ReadCells(t: string): (r: Option<(seq<Cell>, string)>)
    ensures r.Some? ==> |r.value.1| < |t|
    decreases |t|
  {
    match ReadCell(t)
    case None => None
    case Some((c, rest)) =>
      if StartsWith(rest, ")") then Some(([c], rest[1..]))
      else if StartsWith(rest, ", ") then
        match ReadCells(rest[2..])
        case None => None
        case Some((cs, after)) => Some(([c] + cs, after))
      else None
  }

  function ReadRow(t: string): (r: Option<(seq<Cell>, string)>)
    ensures r.Some? ==> |r.value.1| < |t|
  {
    if StartsWith(t, "(") then ReadCells(t[1..]) else None
  }

  /** Reads rows separated by commas up to whatever follows the list. */
  function ReadRows(t: string): Option<(seq<seq<Cell>>, string)>
    decreases |t|
  {
    match ReadRow(t)
    case None => None
    case Some((row, rest)) =>
      if StartsWith(rest, ",\n") then
        match ReadRows(rest[2..])
        case None => None
        case Some((rows, after)) => Some(([row] + rows, after))
      else Some(([row], rest))
  }

  // ----- the round trip ---------------------------------------------------------

  /** A literal reads back to its string, and stops at its own closing quote, exactly when no quote follows it. */
  lemma {:induction false} LiteralRoundTrip(s: string, rest: string)
    ensures ReadLiteral(Doubled(s) + "'" + rest) == Some((s, rest)) <==> !StartsWith(rest, "'")
  {
    var t := Doubled(s) + "'" + rest;
    if s == "" {
      assert t[1..] == rest;
      if StartsWith(rest, "'") {
        assert rest[0] == '\'';
        assert t[1] == '\'';
      }
    } else {
      LiteralRoundTrip(s[1..], rest);
      var tail := Doubled(s[1..]) + "'" + rest;
      assert s == [s[0]] + s[1..];
      if s[0] == '\'' {
        assert t[0] == '\'' && t[1] == '\'' && t[2..] == tail;
      } else {
        assert t[0] == s[0] && t[1..] == tail;
      }
      if ReadLiteral(t) == Some((s, rest)) {
        assert ReadLiteral(tail).Some?;
        var (u, v) := ReadLiteral(tail).value;
        assert [s[0]] + u == s;
        assert u == s[1..];
      }
    }
  }

  /** A word SQL reads as one token: neither empty nor containing a quote, a comma or a parenthesis. */
  predicate Word(w: string) {
    w != "" && forall i :: 0 <= i < |w| ==> w[i] !in {'\'', ',', ')'}
  }

  predicate Readable(c: Cell) {
    c.Bare? ==> Word(c.word)
  }

  lemma {:induction false} BareRoundTrip(w: string, rest: string)
    requires forall i :: 0 <= i < |w| ==> w[i] !in {'\'', ',', ')'}
    requires StartsWith(rest, ",") || StartsWith(rest, ")")
    ensures ReadBare(w + rest) == (w, rest)
  {
    if w == "" {
      assert w + rest == rest;
      assert rest[0] == rest[..1][0];
    } else {
      BareRoundTrip(w[1..], rest);
      assert (w + rest)[1..] == w[1..] + rest;
      assert w == [w[0]] + w[1..];
    }
  }

  lemma PrefixOfConcat(prefix: string, rest: string)
    ensures StartsWith(prefix + rest, prefix)
    ensures (prefix + rest)[|prefix|..] == rest
  {
  }

  /** A text starting with one thing does not start with another that differs in its first character. */
  lemma OtherPrefix(t: string, prefix: string, other: string)
    requires StartsWith(t, prefix) && prefix != "" && other != "" && prefix[0] != other[0]
    ensures !StartsWith(t, other)
  {
  }

  lemma QuotedCellRoundTrip(c: Cell, rest: string)
    requires !c.Bare? && (StartsWith(rest, ",") || StartsWith(rest, ")"))
    ensures ReadCell(CellText(c) + rest) == Some((c, rest))
  {
    var tail := if c.Json? then "::json" + rest else rest;
    var body := Doubled(c.s) + "'" + tail;
    assert CellText(c) + rest == "'" + body;
    PrefixOfConcat("'", body);
    PrefixOfConcat("::json", rest);
    if c.Json? {
      OtherPrefix(tail, "::json", "'");
    } else if StartsWith(rest, ",") {
      OtherPrefix(rest, ",", "'");
      OtherPrefix(rest, ",", "::json");
    } else {
      OtherPrefix(rest, ")", "'");
      OtherPrefix(rest, ")", "::json");
    }
    hide StartsWith, ReadLiteral, Doubled;
    LiteralRoundTrip(c.s, tail);
  }

  lemma CellRoundTrip(c: Cell, rest: string)
    requires Readable(c) && (StartsWith(rest, ",") || StartsWith(rest, ")"))
    ensures ReadCell(CellText(c) + rest) == Some((c, rest))
  {
    if c.Bare? {
      BareRoundTrip(c.word, rest);
      assert (c.word + rest)[0] == c.word[0];
    } else {
      QuotedCellRoundTrip(c, rest);
    }
  }

  lemma {:induction false} CellsRoundTrip(cells: seq<Cell>, rest: string)
    requires cells != [] && forall i :: 0 <= i < |cells| ==> Readable(cells[i])
    ensures ReadCells(Join(Texts(cells), ", ") + ")" + rest) == Some((cells, rest))
    decreases |cells|
  {
    hide CellText, ReadCells;
    if |cells| == 1 {
      LastCell(cells[0], rest);
      assert Texts(cells) == [CellText(cells[0])];
      assert Join(Texts(cells), ", ") + ")" + rest == CellText(cells[0]) + (")" + rest);
      assert cells == [cells[0]];
    } else {
      assert Texts(cells)[1..] == Texts(cells[1..]);
      JoinStep(Texts(cells), ", ", rest);
      CellsRoundTrip(cells[1..], rest);
      NextCell(cells[0], Join(Texts(cells[1..]), ", ") + ")" + rest);
      assert cells == [cells[0]] + cells[1..];
    }
  }

  lemma {:induction false} JoinStep(parts: seq<string>, separator: string, rest: string)
    requires |parts| > 1
    ensures Join(parts, separator) + ")" + rest == parts[0] + (separator + (Join(parts[1..], separator) + ")" + rest))
  {
  }

  lemma {:induction false} LastCell(c: Cell, rest: string)
    requires Readable(c)
    ensures ReadCells(CellText(c) + (")" + rest)) == Some(([c], rest))
  {
    PrefixOfConcat(")", rest);
    hide StartsWith, CellText, ReadCell;
    CellRoundTrip(c, ")" + rest);
  }

  lemma {:induction false} NextCell(c: Cell, tail: string)
    requires Readable(c)
    ensures ReadCells(CellText(c) + (", " + tail))
         == match ReadCells(tail) case None => None case Some((cs, after)) => Some(([c] + cs, after))
  {
    var after := ", " + tail;
    PrefixOfConcat(", ", tail);
    assert StartsWith(after, ",");
    OtherPrefix(after, ", ", ")");
    hide StartsWith, CellText, ReadCell;
    CellRoundTrip(c, after);
  }

  /** A rendered row reads back as exactly its columns. */
  lemma RowRoundTrip(cells: seq<Cell>, rest: string)
    requires cells != [] && forall i :: 0 <= i < |cells| ==> Readable(cells[i])
    ensures ReadRow(RowText(cells) + rest) == Some((cells, rest))
  {
    CellsRoundTrip(cells, rest);
    assert (RowText(cells) + rest)[1..] == Join(Texts(cells), ", ") + ")" + rest;
  }

  /** The columns of a row, rendered by the code, read back as one cell per column, whatever text they hold. */
  lemma RenderedRowRoundTrip(columns: seq<string>, row: map<string, Value>, rawTable: bool, rest: string)
    requires columns != []
    requires forall column :: column in row && row[column].Number? ==> Word(row[column].digits)
    ensures ReadRow(RowText(Cells(columns, row, rawTable)) + rest) == Some((Cells(columns, row, rawTable), rest))
  {
    assert Word("NULL");
    RowRoundTrip(Cells(columns, row, rawTable), rest);
  }

  /**
   * What a database reads in a column of a rendered row: the text of a string or a time, the digits of a number, and
   * NULL for what is missing, except that raw metadata that is no string or time is always the empty json object.
   */
  lemma {:induction false} ColumnReadsBack(columns: seq<string>, row: map<string, Value>, rawTable: bool, i: nat)
    requires i < |columns|
    requires forall column :: column in row && row[column].Number? ==> Word(row[column].digits)
    ensures var read := ReadRow(RowText(Cells(columns, row, rawTable)));
            var column := columns[i];
            var emptyObject := rawTable && column == "metadata_json";
            read.Some? && read.value.1 == "" && |read.value.0| == |columns|
            && (column !in row ==> read.value.0[i] == if emptyObject then Json("{}") else Bare("NULL"))
            && (column in row ==>
                  match row[column]
                  case Timestamp(iso) => read.value.0[i] == Literal(iso)
                  case Str(text) => read.value.0[i] == Literal(text)
                  case Number(digits) => read.value.0[i] == if emptyObject then Json("{}") else Bare(digits)
                  case Missing => read.value.0[i] == if emptyObject then Json("{}") else Bare("NULL"))
  {
    RenderedRowRoundTrip(columns, row, rawTable, "");
    hide ReadRow, RowText;
    assert RowText(Cells(columns, row, rawTable)) + "" == RowText(Cells(columns, row, rawTable));
  }

  /** A whole rendered VALUES list reads back as exactly its rows, whatever strings the columns hold. */
  lemma {:induction false} ValuesRoundTrip(rows: seq<seq<Cell>>, rest: string)
    requires rows != [] && !StartsWith(rest, ",\n")
    requires forall i :: 0 <= i < |rows| ==> rows[i] != []
    requires forall i, j :: 0 <= i < |rows| && 0 <= j < |rows[i]| ==> Readable(rows[i][j])
    ensures ReadRows(ValuesText(rows) + rest) == Some((rows, rest))
    decreases |rows|
  {
    hide StartsWith, ReadRow, RowText;
    var texts := RowTexts(rows);
    if |rows| == 1 {
      RowRoundTrip(rows[0], rest);
      assert ValuesText(rows) == RowText(rows[0]);
      assert rows == [rows[0]];
    } else {
      assert texts[1..] == RowTexts(rows[1..]);
      ValuesRoundTrip(rows[1..], rest);
      var tail := ValuesText(rows[1..]) + rest;
      assert ValuesText(rows) + rest == RowText(rows[0]) + (",\n" + tail);
      PrefixOfConcat(",\n", tail);
      RowRoundTrip(rows[0], ",\n" + tail);
      assert rows == [rows[0]] + rows[1..];
    }
  }

  /** Hence two VALUES lists that read the same carry the same cells: quoting loses nothing. */
  lemma RenderingIsInjective(p: seq<seq<Cell>>, q: seq<seq<Cell>>)
    requires p != [] && q != []
    requires forall i :: 0 <= i < |p| ==> p[i] != []
    requires forall i :: 0 <= i < |q| ==> q[i] != []
    requires forall i, j :: 0 <= i < |p| && 0 <= j < |p[i]| ==> Readable(p[i][j])
    requires forall i, j :: 0 <= i < |q| && 0 <= j < |q[i]| ==> Readable(q[i][j])
    requires ValuesText(p) == ValuesText(q)
    ensures p == q
  {
    ValuesRoundTrip(p, ";");
    ValuesRoundTrip(q, ";");
  }
}
