/**
 * The SQL text the generator writes, as specification functions: the
 * column-type rule table, the CREATE TABLE statement, one INSERT statement
 * per row, and the composition of the two.
 */
module SqlText {
  import opened Wrappers
  import opened PhpStrings

  /** A name between backticks, as every table and column name is written. */
  function Ident(name: string): string
  {
    "`" + name + "`"
  }

  // ---------------------------------------------------------------------
  // Column types: an ordered rule table, first match wins
  // ---------------------------------------------------------------------

  datatype ColumnKind = AutoIncrementKey | DateTime | Text

  datatype Test = IsExactly(name: string) | HasSubstring(part: string) | Always

  datatype Rule = Rule(test: Test, kind: ColumnKind)

  predicate Passes(test: Test, column: string)
  {
    match test
    case IsExactly(name) => column == name
    case HasSubstring(part) => Contains(column, part)
    case Always => true
  }

  /** The type rules in the order they are tried. */
  const TypeRules: seq<Rule> := [
    Rule(IsExactly("id"), AutoIncrementKey),
    Rule(HasSubstring("date"), DateTime),
    Rule(Always, Text)
  ]

  /** The kind given by the first rule whose test the column passes. */
  function FirstMatch(rules: seq<Rule>, column: string): (r: Option<ColumnKind>)
    ensures r.Some? <==> exists i :: 0 <= i < |rules| && Passes(rules[i].test, column)
  {
    if rules == [] then None
    else if Passes(rules[0].test, column) then Some(rules[0].kind)
    else
      var r := FirstMatch(rules[1..], column);
      assert forall i :: 1 <= i < |rules| ==> rules[i] == rules[1..][i - 1];
      r
  }

  /** The kind found is that of a passing rule before which no rule passes: order decides. */
  lemma {:induction false} FirstMatchIsFirst(rules: seq<Rule>, column: string)
    ensures var r := FirstMatch(rules, column);
      r.Some? ==> exists i :: 0 <= i < |rules| && Passes(rules[i].test, column) && r.value == rules[i].kind &&
                              forall j :: 0 <= j < i ==> !Passes(rules[j].test, column)
  {
    if rules != [] && !Passes(rules[0].test, column) {
      var rest := rules[1..];
      FirstMatchIsFirst(rest, column);
      var r := FirstMatch(rest, column);
      if r.Some? {
        var k :| 0 <= k < |rest| && Passes(rest[k].test, column) && r.value == rest[k].kind &&
                 forall j :: 0 <= j < k ==> !Passes(rest[j].test, column);
        assert rules[k + 1] == rest[k];
        assert forall j :: 0 <= j < k + 1 ==> !Passes(rules[j].test, column) by {
          forall j | 0 <= j < k + 1 ensures !Passes(rules[j].test, column) {
            if j > 0 { assert rules[j] == rest[j - 1]; }
          }
        }
      }
    }
  }

  function KindOf(column: string): ColumnKind
  {
    assert Passes(TypeRules[2].test, column);
    FirstMatch(TypeRules, column).value
  }

  /** The rule table in words: `id` first, then a `date` substring, then text. */
  lemma KindOfRules(column: string)
    ensures column == "id" ==> KindOf(column) == AutoIncrementKey
    ensures column != "id" && Contains(column, "date") ==> KindOf(column) == DateTime
    ensures column != "id" && !Contains(column, "date") ==> KindOf(column) == Text
  {
    var rest := TypeRules[1..];
    assert rest == [Rule(HasSubstring("date"), DateTime), Rule(Always, Text)];
    assert rest[1..] == [Rule(Always, Text)];
    assert FirstMatch(rest[1..], column) == Some(Text);
    if column != "id" {
      assert FirstMatch(TypeRules, column) == FirstMatch(rest, column);
    }
  }

  /**
   * One column definition line of the CREATE TABLE statement. The key line
   * names `id` outright, which is the only name the first rule lets through.
   */
  function Definition(column: string): string
  {
    match KindOf(column)
    case AutoIncrementKey => " `id` int(11) NOT NULL AUTO_INCREMENT, " + EOL
    case DateTime => NullableDefinition(column, "DATETIME")
    case Text => NullableDefinition(column, "VARCHAR(255)")
  }

  /** The definition each rule gives: the key line, a DATETIME line or a VARCHAR(255) line. */
  lemma DefinitionByRule(column: string)
    ensures column == "id" ==> Definition(column) == " `id` int(11) NOT NULL AUTO_INCREMENT, " + EOL
    ensures column != "id" && Contains(column, "date") ==> Definition(column) == NullableDefinition(column, "DATETIME")
    ensures column != "id" && !Contains(column, "date") ==> Definition(column) == NullableDefinition(column, "VARCHAR(255)")
  {
    KindOfRules(column);
  }

  function NullableDefinition(column: string, sqlType: string): string
  {
    " `" + column + "` " + sqlType + " DEFAULT NULL, " + EOL
  }

  /** The definitions of all columns, in column order. */
  function Definitions(columns: seq<string>): string
  {
    Concat(Map(Definition, columns))
  }

  /** `f` applied to each element, in order. */
  function Map<A, B>(f: A -> B, xs: seq<A>): (r: seq<B>)
    ensures |r| == |xs|
  {
    seq(|xs|, i requires 0 <= i < |xs| => f(xs[i]))
  }

  /** Mapping commutes with taking a prefix ... */
  lemma MapTake<A, B>(f: A -> B, xs: seq<A>, i: nat)
    requires i <= |xs|
    ensures Map(f, xs[..i]) == Map(f, xs)[..i]
  {
  }

  /** ... and with dropping one. */
  lemma MapDrop<A, B>(f: A -> B, xs: seq<A>, i: nat)
    requires i <= |xs|
    ensures Map(f, xs[i..]) == Map(f, xs)[i..]
  {
  }

  /** The pieces one after another, as a loop of `.=` builds them. */
  function Concat(pieces: seq<string>): string
  {
    if pieces == [] then "" else Concat(pieces[..|pieces| - 1]) + pieces[|pieces| - 1]
  }

  /** Concatenation splits at any piece into the ones before, that piece, and the ones after. */
  lemma {:induction false} ConcatSplit(pieces: seq<string>, i: nat)
    requires i < |pieces|
    ensures Concat(pieces) == Concat(pieces[..i]) + pieces[i] + Concat(pieces[i + 1..])
    decreases |pieces|
  {
    var n := |pieces|;
    var front := pieces[..n - 1];
    if i == n - 1 {
      assert pieces[i + 1..] == [];
      assert pieces[..i] == front;
    } else {
      ConcatSplit(front, i);
      assert front[..i] == pieces[..i];
      var rest := pieces[i + 1..];
      assert rest[..|rest| - 1] == front[i + 1..];
    }
  }

  function CreateHead(table: string): string
  {
    "CREATE TABLE IF NOT EXISTS `" + table + "` (" + EOL
  }

  const CreateFoot: string := " PRIMARY KEY (`id`)" + EOL + ");"

  function CreateText(table: string, columns: seq<string>): string
  {
    CreateHead(table) + Definitions(columns) + CreateFoot
  }

  /**
   * The CREATE statement holds each column's definition in column order:
   * before the definition of column i come the opening and the definitions
   * of the columns before it, and after it those of the columns after it
   * and the primary-key clause.
   */
  lemma CreateTextShape(table: string, columns: seq<string>, i: nat)
    requires i < |columns|
    ensures CreateText(table, columns)
         == CreateHead(table) + Definitions(columns[..i]) + Definition(columns[i])
          + Definitions(columns[i + 1..]) + CreateFoot
  {
    var lines := Map(Definition, columns);
    ConcatSplit(lines, i);
    MapTake(Definition, columns, i);
    MapDrop(Definition, columns, i + 1);
    var h, a := CreateHead(table), Definitions(columns[..i]);
    AppendAssoc(h, a, lines[i]);
    AppendAssoc(h, a + lines[i], Definitions(columns[i + 1..]));
  }

  /** The CREATE statement opens with the table clause and closes with the primary key on `id`. */
  lemma CreateTextFrame(table: string, columns: seq<string>)
    ensures var text := CreateText(table, columns);
      |text| >= |CreateHead(table)| + |CreateFoot| &&
      text[..|CreateHead(table)|] == CreateHead(table) &&
      text[|text| - |CreateFoot|..] == CreateFoot
  {
    var head, body := CreateHead(table), Definitions(columns);
    var text := head + body + CreateFoot;
    assert text[..|head|] == head;
    assert text[|text| - |CreateFoot|..] == CreateFoot;
  }

  /** Concatenation is associative; the solver sometimes needs to be told. */
  lemma AppendAssoc<T>(a: seq<T>, b: seq<T>, c: seq<T>)
    ensures a + b + c == a + (b + c)
  {
  }

  // ---------------------------------------------------------------------
  // INSERT statements
  // ---------------------------------------------------------------------

  /** A value in an INSERT statement: the NULL placeholder or a quoted string. */
  datatype SqlValue = Null | Str(s: string)

  function Render(v: SqlValue): string
  {
    match v
    case Null => "NULL"
    case Str(s) => "'" + AddSlashes(s) + "'"
  }

  function RenderAll(vs: seq<SqlValue>): (r: seq<string>)
    ensures |r| == |vs|
  {
    seq(|vs|, i requires 0 <= i < |vs| => Render(vs[i]))
  }

  /** The values of one row: NULL first when the id column was added, then each field. */
  function RowValues(row: seq<string>, synthesizedId: bool): (r: seq<SqlValue>)
    ensures |r| == |row| + (if synthesizedId then 1 else 0)
  {
    (if synthesizedId then [Null] else []) + seq(|row|, i requires 0 <= i < |row| => Str(row[i]))
  }

  function ColumnList(columns: seq<string>): string
  {
    Join(", ", seq(|columns|, i requires 0 <= i < |columns| => Ident(columns[i])))
  }

  /** Everything of an INSERT statement before its value list. */
  function InsertHead(table: string, columns: seq<string>): string
  {
    "INSERT INTO `" + table + "` (" + ColumnList(columns) + ") VALUES "
  }

  /** A parenthesised value list, values separated by a comma and a space. */
  function ValuesText(vs: seq<SqlValue>): string
  {
    "(" + Join(", ", RenderAll(vs)) + ")"
  }

  function InsertStatement(table: string, columns: seq<string>, row: seq<string>, synthesizedId: bool): string
  {
    InsertHead(table, columns) + ValuesText(RowValues(row, synthesizedId)) + ";"
  }

  /** The statement writer for one table and column list, as a function of the row. */
  function StatementFor(table: string, columns: seq<string>, synthesizedId: bool): seq<string> -> string
  {
    row => InsertStatement(table, columns, row, synthesizedId)
  }

  function Statements(table: string, columns: seq<string>, rows: seq<seq<string>>, synthesizedId: bool): (r: seq<string>)
    ensures |r| == |rows|
  {
    Map(StatementFor(table, columns, synthesizedId), rows)
  }

  /** One INSERT statement per row, in row order, a newline between neighbours. */
  function DataText(table: string, columns: seq<string>, rows: seq<seq<string>>, synthesizedId: bool): string
  {
    Join(EOL, Statements(table, columns, rows, synthesizedId))
  }

  /** The CREATE statement and a blank line before the INSERT statements when asked for. */
  function QueryText(withCreate: bool, table: string, columns: seq<string>, rows: seq<seq<string>>, synthesizedId: bool): string
  {
    var data := DataText(table, columns, rows, synthesizedId);
    if withCreate then CreateText(table, columns) + EOL + EOL + data else data
  }

  /** With at least one row the INSERT text opens with the first row's statement. */
  lemma DataTextOpensWithFirstRow(table: string, columns: seq<string>, rows: seq<seq<string>>, synthesizedId: bool)
    requires rows != []
    ensures var first := InsertStatement(table, columns, rows[0], synthesizedId);
      |first| > 0 && |DataText(table, columns, rows, synthesizedId)| >= |first| &&
      DataText(table, columns, rows, synthesizedId)[..|first|] == first
  {
    var st := Statements(table, columns, rows, synthesizedId);
    JoinStartsWithFirst(EOL, st);
    assert st[0] == InsertStatement(table, columns, rows[0], synthesizedId);
  }

  /** With at least one row the generated text is never empty. */
  lemma QueryTextNonEmpty(withCreate: bool, table: string, columns: seq<string>, rows: seq<seq<string>>, synthesizedId: bool)
    requires rows != []
    ensures QueryText(withCreate, table, columns, rows, synthesizedId) != ""
  {
    DataTextOpensWithFirstRow(table, columns, rows, synthesizedId);
  }
}
