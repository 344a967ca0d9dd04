/**
 * A reader for the INSERT text, following the way MySQL reads a
 * single-quoted string literal (section 11.1.1, "String Literals", of the
 * MySQL 8.0 Reference Manual): a backslash starts an escape pair, two
 * quotes in a row stand for one quote, and a lone quote ends the literal.
 * Reading the generated text back gives exactly the rows it was made from,
 * whatever characters the fields hold. The reader takes one character to
 * be one byte, backslash escapes to be enabled (the NO_BACKSLASH_ESCAPES
 * SQL mode off), and the connection character set to be one in which a
 * backslash or a quote is never part of a multibyte character (utf8mb4 or
 * latin1, but not GBK, Big5, SJIS or CP932); the escaping is safe under
 * those conditions.
 */
module SqlParse {
  import opened Wrappers
  import opened PhpStrings
  import opened SqlText

  /** The characters MySQL reads for the escape pair `\c`. */
  function UnescapePair(c: char): string
  {
    if c == '0' then [NUL]
    else if c == 'b' then [8 as char]
    else if c == 'n' then ['\n']
    else if c == 'r' then ['\r']
    else if c == 't' then ['\t']
    else if c == 'Z' then [26 as char]
    else if c == '%' || c == '_' then [BACKSLASH, c]
    else [c]
  }

  /**
   * Reads a literal's body, the opening quote already consumed: the decoded
   * value and the text after the closing quote, or None when the text ends
   * inside the literal.
   */
  function ScanLiteral(s: string): (r: Option<(string, string)>)
    ensures r.Some? ==> |r.value.1| < |s|
    decreases |s|
  {
    if s == [] then None
    else if s[0] == '\'' then
      if |s| >= 2 && s[1] == '\'' then
        match ScanLiteral(s[2..])
        case None => None
        case Some((v, rest)) => Some((['\''] + v, rest))
      else Some(([], s[1..]))
    else if s[0] == BACKSLASH then
      if |s| < 2 then None
      else
        match ScanLiteral(s[2..])
        case None => None
        case Some((v, rest)) => Some((UnescapePair(s[1]) + v, rest))
    else
      match ScanLiteral(s[1..])
      case None => None
      case Some((v, rest)) => Some(([s[0]] + v, rest))
  }

  /** One value of a value list: NULL or a quoted literal. */
  function ParseValue(s: string): (r: Option<(SqlValue, string)>)
    ensures r.Some? ==> |r.value.1| < |s|
  {
    if |s| >= 4 && s[..4] == "NULL" then Some((Null, s[4..]))
    else if s != [] && s[0] == '\'' then
      match ScanLiteral(s[1..])
      case None => None
      case Some((v, rest)) => Some((Str(v), rest))
    else None
  }

  /** Values separated by `, ` up to and including the closing parenthesis. */
  function ParseValueItems(s: string): (r: Option<(seq<SqlValue>, string)>)
    ensures r.Some? ==> |r.value.1| < |s|
    decreases |s|
  {
    match ParseValue(s)
    case None => None
    case Some((v, rest)) =>
      if |rest| >= 2 && rest[..2] == ", " then
        match ParseValueItems(rest[2..])
        case None => None
        case Some((vs, after)) => Some(([v] + vs, after))
      else if rest != [] && rest[0] == ')' then Some(([v], rest[1..]))
      else None
  }

  /** A parenthesised value list, possibly empty. */
  function ParseValueList(s: string): (r: Option<(seq<SqlValue>, string)>)
    ensures r.Some? ==> |r.value.1| < |s|
  {
    if s == [] || s[0] != '(' then None
    else if |s| >= 2 && s[1] == ')' then Some(([], s[2..]))
    else ParseValueItems(s[1..])
  }

  /** One statement that opens with `head`, then a value list and `;`. */
  function ParseInsert(head: string, s: string): (r: Option<(seq<SqlValue>, string)>)
    ensures r.Some? ==> |r.value.1| < |s|
  {
    if |s| < |head| || s[..|head|] != head then None
    else
      match ParseValueList(s[|head|..])
      case None => None
      case Some((vs, rest)) =>
        if rest != [] && rest[0] == ';' then Some((vs, rest[1..])) else None
  }

  /** Statements separated by newlines, up to the end of the text. */
  function ParseInserts(head: string, s: string): Option<seq<seq<SqlValue>>>
    decreases |s|
  {
    match ParseInsert(head, s)
    case None => None
    case Some((vs, rest)) =>
      if rest == [] then Some([vs])
      else if rest[0] == '\n' then
        match ParseInserts(head, rest[1..])
        case None => None
        case Some(more) => Some([vs] + more)
      else None
  }

  /** The whole INSERT text: nothing at all, or one or more statements. */
  function ParseData(head: string, s: string): Option<seq<seq<SqlValue>>>
  {
    if s == [] then Some([]) else ParseInserts(head, s)
  }

  /** The value lists the rows should read back as, one per row. */
  function AllRowValues(rows: seq<seq<string>>, synthesizedId: bool): (r: seq<seq<SqlValue>>)
    ensures |r| == |rows|
  {
    seq(|rows|, i requires 0 <= i < |rows| => RowValues(rows[i], synthesizedId))
  }

  // ---------------------------------------------------------------------
  // Round trips
  // ---------------------------------------------------------------------

  /** The reader turns one character as addslashes writes it back into that character. */
  lemma ScanEscapedChar(c: char, tail: string)
    ensures ScanLiteral(EscapeChar(c) + tail)
         == match ScanLiteral(tail)
            case None => None
            case Some((v, rest)) => Some(([c] + v, rest))
  {
    var e := EscapeChar(c);
    var s := e + tail;
    if IsSpecial(c) {
      assert s[0] == BACKSLASH && s[2..] == tail;
      assert UnescapePair(s[1]) == [c];
    } else {
      assert s[0] == c && s[1..] == tail;
    }
  }

  /**
   * An escaped value followed by a quote reads as one literal holding
   * exactly that value, and reading stops right after the quote.
   */
  lemma {:induction false} ScanLiteralReadsEscaped(v: string, rest: string)
    requires rest == [] || rest[0] != '\''
    ensures ScanLiteral(AddSlashes(v) + "'" + rest) == Some((v, rest))
  {
    if v == [] {
      var s := "'" + rest;
      assert AddSlashes(v) + "'" + rest == s;
      assert s[1..] == rest;
    } else {
      var tail := AddSlashes(v[1..]) + "'" + rest;
      ScanLiteralReadsEscaped(v[1..], rest);
      assert AddSlashes(v) == EscapeChar(v[0]) + AddSlashes(v[1..]);
      AppendAssoc(EscapeChar(v[0]), AddSlashes(v[1..]), "'");
      AppendAssoc(EscapeChar(v[0]), AddSlashes(v[1..]) + "'", rest);
      ScanEscapedChar(v[0], tail);
      FirstAndRest(v);
    }
  }

  lemma ParseValueReadsNull(rest: string)
    ensures ParseValue("NULL" + rest) == Some((Null, rest))
  {
    var s := "NULL" + rest;
    assert s[..4] == "NULL";
    assert s[4..] == rest;
  }

  /** A value that opens with a quote is read by the literal scanner. */
  lemma ParseValueQuoted(body: string)
    ensures ParseValue("'" + body)
         == match ScanLiteral(body)
            case None => None
            case Some((v, rest)) => Some((Str(v), rest))
  {
    var s := "'" + body;
    assert s[0] == '\'' && s[1..] == body;
    assert |s| >= 4 ==> s[..4][0] != 'N';
  }

  lemma ParseValueReadsString(x: string, rest: string)
    requires rest == [] || rest[0] != '\''
    ensures ParseValue("'" + AddSlashes(x) + "'" + rest) == Some((Str(x), rest))
  {
    AppendAssoc("'", AddSlashes(x), "'");
    AppendAssoc("'", AddSlashes(x) + "'", rest);
    ParseValueQuoted(AddSlashes(x) + "'" + rest);
    ScanLiteralReadsEscaped(x, rest);
  }

  /** A rendered value reads back as that value, whatever follows it (but a quote). */
  lemma ParseValueReadsRender(v: SqlValue, rest: string)
    requires rest == [] || rest[0] != '\''
    ensures ParseValue(Render(v) + rest) == Some((v, rest))
  {
    match v
    case Null => ParseValueReadsNull(rest);
    case Str(x) => ParseValueReadsString(x, rest);
  }

  lemma ParseValueItemsStepLast(v: SqlValue, rest: string)
    ensures ParseValueItems(Render(v) + ")" + rest) == Some(([v], rest))
  {
    var tail := ")" + rest;
    ParseValueReadsRender(v, tail);
    AppendAssoc(Render(v), ")", rest);
    assert tail[0] == ')' && tail[1..] == rest;
    assert |tail| >= 2 ==> tail[..2][0] != ", "[0];
  }

  lemma ParseValueItemsStepMore(v: SqlValue, after: string)
    ensures ParseValueItems(Render(v) + ", " + after)
         == match ParseValueItems(after)
            case None => None
            case Some((vs, a)) => Some(([v] + vs, a))
  {
    var tail := ", " + after;
    ParseValueReadsRender(v, tail);
    assert Render(v) + ", " + after == Render(v) + tail;
    assert tail[..2] == ", " && tail[2..] == after;
  }

  /** A rendered, non-empty value list reads back as its values. */
  lemma {:induction false} ParseValueItemsRoundTrip(vs: seq<SqlValue>, rest: string)
    requires vs != []
    ensures ParseValueItems(Join(", ", RenderAll(vs)) + ")" + rest) == Some((vs, rest))
  {
    var parts := RenderAll(vs);
    if |vs| == 1 {
      assert Join(", ", parts) == Render(vs[0]);
      ParseValueItemsStepLast(vs[0], rest);
      assert vs == [vs[0]];
    } else {
      var after := Join(", ", parts[1..]) + ")" + rest;
      assert parts[1..] == RenderAll(vs[1..]);
      assert Join(", ", parts) == Render(vs[0]) + ", " + Join(", ", parts[1..]);
      assert Join(", ", parts) + ")" + rest == Render(vs[0]) + ", " + after;
      ParseValueItemsStepMore(vs[0], after);
      ParseValueItemsRoundTrip(vs[1..], rest);
      assert [vs[0]] + vs[1..] == vs;
    }
  }

  lemma ParseValueListRoundTrip(vs: seq<SqlValue>, rest: string)
    ensures ParseValueList(ValuesText(vs) + rest) == Some((vs, rest))
  {
    var s := ValuesText(vs) + rest;
    if vs == [] {
      assert s == "()" + rest;
      assert s[2..] == rest;
    } else {
      assert s[1..] == Join(", ", RenderAll(vs)) + ")" + rest;
      ParseValueItemsRoundTrip(vs, rest);
      var first := Render(vs[0]);
      JoinStartsWithFirst(", ", RenderAll(vs));
      assert first[0] == 'N' || first[0] == '\'';
      assert s[1] == first[0];
    }
  }

  /** A statement reads back as its row's value list. */
  lemma ParseInsertRoundTrip(table: string, columns: seq<string>, row: seq<string>, synthesizedId: bool, rest: string)
    ensures ParseInsert(InsertHead(table, columns), InsertStatement(table, columns, row, synthesizedId) + rest)
         == Some((RowValues(row, synthesizedId), rest))
  {
    var head := InsertHead(table, columns);
    var vs := RowValues(row, synthesizedId);
    var v := ValuesText(vs);
    var s := InsertStatement(table, columns, row, synthesizedId) + rest;
    assert s == head + v + ";" + rest;
    AppendAssoc(head + v, ";", rest);
    AppendAssoc(head, v, ";" + rest);
    assert s[..|head|] == head;
    assert s[|head|..] == v + (";" + rest);
    ParseValueListRoundTrip(vs, ";" + rest);
    assert (";" + rest)[1..] == rest;
  }

  lemma ParseInsertsLast(head: string, s: string, vs: seq<SqlValue>)
    requires ParseInsert(head, s) == Some((vs, []))
    ensures ParseInserts(head, s) == Some([vs])
  {
  }

  lemma ParseInsertsNext(head: string, s: string, vs: seq<SqlValue>, later: string)
    requires ParseInsert(head, s) == Some((vs, EOL + later))
    ensures ParseInserts(head, s)
         == match ParseInserts(head, later)
            case None => None
            case Some(more) => Some([vs] + more)
  {
    var tail := EOL + later;
    assert tail[0] == '\n' && tail[1..] == later;
  }

  /**
   * The statements of one or more rows, joined by newlines, read back as
   * the rows' value lists, in order.
   */
  lemma {:induction false} ParseStatementsRoundTrip(table: string, columns: seq<string>, rows: seq<seq<string>>,
                                                    synthesizedId: bool)
    requires rows != []
    ensures ParseInserts(InsertHead(table, columns), Join(EOL, Statements(table, columns, rows, synthesizedId)))
         == Some(AllRowValues(rows, synthesizedId))
    decreases |rows|
  {
    var head := InsertHead(table, columns);
    var st := Statements(table, columns, rows, synthesizedId);
    var values := AllRowValues(rows, synthesizedId);
    assert st[0] == InsertStatement(table, columns, rows[0], synthesizedId);
    assert values[0] == RowValues(rows[0], synthesizedId);
    if |rows| == 1 {
      ParseInsertRoundTrip(table, columns, rows[0], synthesizedId, []);
      assert st[0] + [] == Join(EOL, st);
      ParseInsertsLast(head, Join(EOL, st), values[0]);
      assert values == [values[0]];
    } else {
      ParseStatementsRoundTrip(table, columns, rows[1..], synthesizedId);
      StatementsTail(table, columns, rows, synthesizedId);
      AllRowValuesTail(rows, synthesizedId);
      ParseStatementsStep(head, st, values, InsertStatement(table, columns, rows[0], synthesizedId), 
                          RowValues(rows[0], synthesizedId), table, columns, rows[0], synthesizedId);
    }
  }

  /** The step of the round trip: the first statement, a newline, then the others. */
  lemma ParseStatementsStep(head: string, st: seq<string>, values: seq<seq<SqlValue>>, first: string,
                            firstValues: seq<SqlValue>, table: string, columns: seq<string>, row: seq<string>,
                            synthesizedId: bool)
    requires |st| == |values| > 1 && head == InsertHead(table, columns)
    requires st[0] == first == InsertStatement(table, columns, row, synthesizedId)
    requires values[0] == firstValues == RowValues(row, synthesizedId)
    requires ParseInserts(head, Join(EOL, st[1..])) == Some(values[1..])
    ensures ParseInserts(head, Join(EOL, st)) == Some(values)
  {
    var later := Join(EOL, st[1..]);
    assert Join(EOL, st) == first + (EOL + later);
    ParseInsertRoundTrip(table, columns, row, synthesizedId, EOL + later);
    ParseInsertsNext(head, Join(EOL, st), firstValues, later);
    FirstAndRest(values);
  }

  lemma StatementsTail(table: string, columns: seq<string>, rows: seq<seq<string>>, synthesizedId: bool)
    requires rows != []
    ensures Statements(table, columns, rows[1..], synthesizedId) == Statements(table, columns, rows, synthesizedId)[1..]
  {
    var f := StatementFor(table, columns, synthesizedId);
    MapDrop(f, rows, 1);
  }

  lemma AllRowValuesTail(rows: seq<seq<string>>, synthesizedId: bool)
    requires rows != []
    ensures AllRowValues(rows[1..], synthesizedId) == AllRowValues(rows, synthesizedId)[1..]
  {
  }

  lemma FirstAndRest<T>(s: seq<T>)
    requires s != []
    ensures s == [s[0]] + s[1..]
  {
  }

  /**
   * The INSERT text reads back, statement by statement, as exactly the
   * rows it was made from: one statement per row, in order, each value the
   * row's field (after a NULL when the id column was added).
   */
  lemma DataTextRoundTrip(table: string, columns: seq<string>, rows: seq<seq<string>>, synthesizedId: bool)
    ensures ParseData(InsertHead(table, columns), DataText(table, columns, rows, synthesizedId))
         == Some(AllRowValues(rows, synthesizedId))
  {
    if rows == [] {
      assert DataText(table, columns, rows, synthesizedId) == "";
      assert AllRowValues(rows, synthesizedId) == [];
    } else {
      DataTextOpensWithFirstRow(table, columns, rows, synthesizedId);
      ParseStatementsRoundTrip(table, columns, rows, synthesizedId);
    }
  }
}
