/**
 * The generator object: it holds the file path, the options, the parsed
 * header and rows and the response in fields, and its methods update them
 * one step after another. Each method is proved against the specification
 * functions of the Pipeline and SqlText modules.
 */
module CsvToQuery {
  import opened Wrappers
  import opened PhpStrings
  import opened SqlText
  import opened Pipeline

  /** The two response types setResponse is called with. */
  datatype Status = Succeeded | Failed

  class Generator {
    var tableName: string
    /** Both are set once, by the constructor, and only read afterwards. */
    const filePath: string
    const createQuery: bool
    var response: Response
    var columns: seq<string>
    var rows: seq<seq<string>>
    var hasIdColumn: bool

    /** The state of an object no run has touched yet. */
    ghost predicate Initial()
      reads this
    {
      response == Unset && columns == [] && rows == [] && hasIdColumn
    }

    constructor (filePath: string, createQuery: bool := false, tableName: string := "")
      ensures this.filePath == filePath && this.createQuery == createQuery && this.tableName == tableName
      ensures Initial()
    {
      this.filePath := filePath;
      this.createQuery := createQuery;
      this.tableName := tableName;
      response := Unset;
      columns := [];
      rows := [];
      hasIdColumn := true;
    }

    /**
     * One run: read the records, then report no columns, no rows, or the
     * generated query. The file facts and the parsed records stand for the
     * file system and the CSV reader.
     */
    method Generate(isFile: bool, probe: string, records: seq<seq<string>>) returns (r: Response)
      requires Initial()
      modifies this
      ensures r == response
      ensures r == Outcome(filePath, createQuery, old(tableName), isFile, probe, records)
    {
      ghost var configured := tableName;
      var extracted := ExtractCSVData(isFile, probe, records);
      if extracted {
        OutcomeWhenValid(filePath, createQuery, configured, isFile, probe, records);
        ReportRecords(configured, Header(records), DataRows(records));
      } else {
        OutcomeWhenInvalid(filePath, createQuery, configured, isFile, probe, records);
      }
      r := response;
    }

    /**
     * The part of a run after the file was read: report that there are no
     * columns, that there are no rows, or the generated query.
     */
    method ReportRecords(ghost configured: string, ghost header: seq<string>, ghost data: seq<seq<string>>)
      requires tableName == configured && columns == header && rows == data && hasIdColumn
      modifies this`response, this`columns, this`hasIdColumn, this`tableName
      ensures response == Report(filePath, createQuery, configured, header, data)
    {
      if columns == [] {
        SetResponse(Failed, NoColumns);
      } else if rows == [] {
        SetResponse(Failed, NoRows);
      } else {
        var query := GenerateQuery();
        SetResponse(Succeeded, Generated, query);
      }
    }

    /** Normalise the columns, settle the table name, then write the SQL text. */
    method GenerateQuery() returns (query: string)
      modifies this`columns, this`hasIdColumn, this`tableName
      ensures columns == NormalizedColumns(old(columns))
      ensures hasIdColumn == (old(hasIdColumn) && !SynthesizesId(old(columns)))
      ensures tableName == TableName(old(tableName), filePath)
      ensures query == QueryText(createQuery, tableName, columns, rows, !hasIdColumn)
    {
      PrepareColumns();
      SetTableName();
      query := GenerateDataQuery();
      if createQuery {
        var createText := GenerateCreateQuery();
        query := createText + EOL + EOL + query;
      }
    }

    /** The CREATE TABLE statement for the current table name and columns. */
    method GenerateCreateQuery() returns (query: string)
      ensures query == CreateText(tableName, columns)
    {
      query := "CREATE TABLE IF NOT EXISTS `" + tableName + "` (" + EOL;
      var i := 0;
      while i < |columns|
        invariant 0 <= i <= |columns|
        invariant query == CreateHead(tableName) + Definitions(columns[..i])
      {
        var column := columns[i];
        var line;
        if column == "id" {
          line := " `id` int(11) NOT NULL AUTO_INCREMENT, " + EOL;
        } else {
          var columnType := if Contains(column, "date") then "DATETIME" else "VARCHAR(255)";
          line := " `" + column + "` " + columnType + " DEFAULT NULL, " + EOL;
        }
        assert line == Definition(column) by {
          KindOfRules(column);
        }
        DefinitionsAppend(columns, i);
        AppendAssoc(CreateHead(tableName), Definitions(columns[..i]), line);
        query := query + line;
        i := i + 1;
      }
      assert columns[..i] == columns;
      query := query + (" PRIMARY KEY (`id`)" + EOL + ");");
    }

    /** One INSERT statement per row, joined by newlines. */
    method GenerateDataQuery() returns (query: string)
      ensures query == DataText(tableName, columns, rows, !hasIdColumn)
    {
      var columnNames := ColumnList(columns);
      var insertQueries: seq<string> := [];
      var i := 0;
      while i < |rows|
        invariant 0 <= i <= |rows|
        invariant insertQueries == Statements(tableName, columns, rows[..i], !hasIdColumn)
      {
        var row := rows[i];
        var values: seq<string> := [];
        if !hasIdColumn {
          values := values + ["NULL"];
        }
        var j := 0;
        while j < |row|
          invariant 0 <= j <= |row|
          invariant values == RenderAll(RowValues(row[..j], !hasIdColumn))
        {
          RenderedValuesAppend(row, j, !hasIdColumn);
          values := values + ["'" + AddSlashes(row[j]) + "'"];
          j := j + 1;
        }
        assert row[..j] == row;
        var insertValues := "(" + Join(", ", values) + ")";
        var statement := "INSERT INTO `" + tableName + "` (" + columnNames + ") VALUES " + insertValues + ";";
        assert statement == InsertStatement(tableName, columns, row, !hasIdColumn);
        StatementsAppend(tableName, columns, rows, i, !hasIdColumn);
        insertQueries := insertQueries + [statement];
        i := i + 1;
      }
      assert rows[..i] == rows;
      query := Join(EOL, insertQueries);
    }

    /** Use the file's name when no table name was given, then replace its spaces. */
    method SetTableName()
      modifies this`tableName
      ensures tableName == TableName(old(tableName), filePath)
    {
      if tableName == "" {
        tableName := FileName(filePath);
      }
      tableName := ReplaceSpaces(tableName);
    }

    /** Replace spaces in every column name, then add `id` at the front if it is missing. */
    method PrepareColumns()
      modifies this`columns, this`hasIdColumn
      ensures columns == NormalizedColumns(old(columns))
      ensures hasIdColumn == (old(hasIdColumn) && !SynthesizesId(old(columns)))
    {
      var normalized: seq<string> := [];
      var i := 0;
      while i < |columns|
        invariant 0 <= i <= |columns|
        invariant normalized == Underscored(columns[..i])
      {
        normalized := normalized + [ReplaceSpaces(columns[i])];
        i := i + 1;
      }
      assert columns[..i] == columns;
      if "id" !in normalized {
        hasIdColumn := false;
        normalized := ["id"] + normalized;
      }
      columns := normalized;
    }

    /**
     * Check the file, then take the first record as the header and append
     * every later one to the rows.
     */
    method ExtractCSVData(isFile: bool, probe: string, records: seq<seq<string>>) returns (ok: bool)
      modifies this`response, this`columns, this`rows
      ensures ok <==> ValidationError(filePath, isFile, probe) == None
      ensures !ok ==> response == Error(ValidationError(filePath, isFile, probe).value)
      ensures !ok ==> columns == old(columns) && rows == old(rows)
      ensures ok ==> response == old(response)
      ensures ok ==> columns == (if records == [] then old(columns) else Header(records))
      ensures ok ==> rows == old(rows) + DataRows(records)
    {
      ok := ValidateFile(isFile, probe);
      if ok {
        ReadRecords(records);
      }
    }

    /**
     * The reading loop of extractCSVData: the first record becomes the
     * column list, every later one is appended to the rows.
     */
    method ReadRecords(records: seq<seq<string>>)
      modifies this`columns, this`rows
      ensures columns == (if records == [] then old(columns) else Header(records))
      ensures rows == old(rows) + DataRows(records)
    {
      var skipFirstRow := true;
      var i := 0;
      while i < |records|
        invariant 0 <= i <= |records|
        invariant skipFirstRow <==> i == 0
        invariant columns == if i == 0 then old(columns) else records[0]
        invariant rows == old(rows) + (if i == 0 then [] else records[1..i])
      {
        var data := records[i];
        if skipFirstRow {
          columns := data;
          skipFirstRow := false;
        } else {
          SliceGrows(records, 1, i);
          AppendAssoc(old(rows), records[1..i], [data]);
          rows := rows + [data];
        }
        i := i + 1;
      }
      assert records != [] ==> records[1..i] == records[1..];
    }

    /** The file checks, recording the first failure in the response. */
    method ValidateFile(isFile: bool, probe: string) returns (ok: bool)
      modifies this`response
      ensures ok <==> ValidationError(filePath, isFile, probe) == None
      ensures !ok ==> response == Error(ValidationError(filePath, isFile, probe).value)
      ensures ok ==> response == old(response)
    {
      if !isFile {
        SetResponse(Failed, InvalidPath);
        return false;
      }
      var extension := Extension(filePath);
      if Lower(extension) != "csv" {
        SetResponse(Failed, OnlyCsv);
        return false;
      }
      if PhpEmpty(probe) {
        SetResponse(Failed, InvalidCsv);
        return false;
      }
      return true;
    }

    /** Record the outcome; a query is attached only when it is not empty. */
    method SetResponse(status: Status, message: string, query: string := "")
      modifies this`response
      ensures response == if status == Succeeded then Success(message, if query != "" then Some(query) else None)
                          else Error(message)
    {
      if status == Succeeded {
        response := Success(message, if query != "" then Some(query) else None);
      } else {
        response := Error(message);
      }
    }
  }

  /** Adding the next column's definition extends the definitions by one column. */
  lemma DefinitionsAppend(columns: seq<string>, i: nat)
    requires i < |columns|
    ensures Definitions(columns[..i + 1]) == Definitions(columns[..i]) + Definition(columns[i])
  {
    var lines := Map(Definition, columns[..i + 1]);
    MapTake(Definition, columns[..i + 1], i);
    assert columns[..i + 1][..i] == columns[..i];
  }

  /** Rendering the next field extends the rendered values by that field's literal. */
  lemma RenderedValuesAppend(row: seq<string>, j: nat, synthesizedId: bool)
    requires j < |row|
    ensures RenderAll(RowValues(row[..j + 1], synthesizedId))
         == RenderAll(RowValues(row[..j], synthesizedId)) + ["'" + AddSlashes(row[j]) + "'"]
  {
    var before := RowValues(row[..j], synthesizedId);
    assert RowValues(row[..j + 1], synthesizedId) == before + [Str(row[j])];
    RenderAllAppend(before, Str(row[j]));
  }

  lemma RenderAllAppend(vs: seq<SqlValue>, v: SqlValue)
    ensures RenderAll(vs + [v]) == RenderAll(vs) + [Render(v)]
  {
  }

  /** Adding the next row's statement extends the statements by one row. */
  lemma StatementsAppend(table: string, columns: seq<string>, rows: seq<seq<string>>, i: nat, synthesizedId: bool)
    requires i < |rows|
    ensures Statements(table, columns, rows[..i + 1], synthesizedId)
         == Statements(table, columns, rows[..i], synthesizedId) + [InsertStatement(table, columns, rows[i], synthesizedId)]
  {
    var f := StatementFor(table, columns, synthesizedId);
    var longer := Map(f, rows[..i + 1]);
    MapTake(f, rows[..i + 1], i);
    assert rows[..i + 1][..i] == rows[..i];
    assert longer == longer[..i] + [longer[i]];
  }

  /** A slice that reaches one element further ends with that element. */
  lemma SliceGrows<T>(s: seq<T>, lo: nat, hi: nat)
    requires lo <= hi < |s|
    ensures s[lo..hi + 1] == s[lo..hi] + [s[hi]]
  {
  }
}
