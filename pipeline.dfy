/**
 * What one run of the generator produces, as pure functions of its inputs:
 * the file checks, the column normalisation, the table name and the
 * response. The class in the CsvToQuery module computes the same thing
 * step by step in its fields.
 */
module Pipeline {
  import opened Wrappers
  import opened PhpStrings
  import opened SqlText

  /** The response the generator hands back; Unset is the fresh, empty response object. */
  datatype Response = Unset | Success(message: string, query: Option<string>) | Error(message: string)

  const InvalidPath: string := "Invalid file path"
  const OnlyCsv: string := "Only CSV files are allowed"
  const InvalidCsv: string := "Invalid CSV file"
  const NoColumns: string := "No columns found from CSV"
  const NoRows: string := "No row data found to generate query"
  const Generated: string := "Query generated"

  // ---------------------------------------------------------------------
  // File checks
  // ---------------------------------------------------------------------

  /** The extension test: `csv` in any letter case. */
  predicate IsCsvPath(path: string)
  {
    Lower(Extension(path)) == "csv"
  }

  /** PHP's empty() on the string fread returned: the empty string and "0" are both empty. */
  predicate PhpEmpty(bytes: string)
  {
    bytes == "" || bytes == "0"
  }

  /**
   * The first failing file check, in the order they are made: the path
   * names a regular file, its extension is csv, its first bytes are not empty.
   */
  function ValidationError(path: string, isFile: bool, probe: string): Option<string>
  {
    if !isFile then Some(InvalidPath)
    else if !IsCsvPath(path) then Some(OnlyCsv)
    else if PhpEmpty(probe) then Some(InvalidCsv)
    else None
  }

  /** A file is accepted exactly when all three checks pass. */
  lemma ValidationPasses(path: string, isFile: bool, probe: string)
    ensures ValidationError(path, isFile, probe) == None <==> isFile && IsCsvPath(path) && !PhpEmpty(probe)
  {
  }

  /** The extension test ignores letter case: `.csv`, `.CSV` and `.Csv` all pass. */
  lemma CsvExtensionAnyCase(dir: string, stem: string, ext: string)
    requires '/' !in stem && |ext| == 3
    requires (ext[0] == 'c' || ext[0] == 'C') && (ext[1] == 's' || ext[1] == 'S') && (ext[2] == 'v' || ext[2] == 'V')
    ensures IsCsvPath(dir + "/" + stem + "." + ext)
  {
    LowerCsv(ext);
    PathInfoParts(dir, stem, ext);
  }

  /** Every letter-case spelling of `csv` lowers to `csv`. */
  lemma LowerCsv(ext: string)
    requires |ext| == 3
    requires (ext[0] == 'c' || ext[0] == 'C') && (ext[1] == 's' || ext[1] == 'S') && (ext[2] == 'v' || ext[2] == 'V')
    ensures '/' !in ext && '.' !in ext && Lower(ext) == "csv"
  {
    var low := Lower(ext);
    assert low[0] == 'c' && low[1] == 's' && low[2] == 'v';
  }

  /** The extension test ignores letter case for a bare file name `stem.ext` as well. */
  lemma CsvExtensionAnyCaseBare(stem: string, ext: string)
    requires '/' !in stem && |ext| == 3
    requires (ext[0] == 'c' || ext[0] == 'C') && (ext[1] == 's' || ext[1] == 'S') && (ext[2] == 'v' || ext[2] == 'V')
    ensures IsCsvPath(stem + "." + ext)
  {
    LowerCsv(ext);
    PathInfoBare(stem, ext);
  }

  /** A `.txt` file is turned away by the extension test. */
  lemma TxtIsNotCsv(dir: string, stem: string)
    requires '/' !in stem
    ensures !IsCsvPath(dir + "/" + stem + ".txt")
  {
    assert '/' !in "txt" && '.' !in "txt";
    assert dir + "/" + stem + ".txt" == dir + "/" + stem + "." + "txt";
    PathInfoParts(dir, stem, "txt");
    assert Lower("txt")[0] == 't';
  }

  // ---------------------------------------------------------------------
  // Column normalisation and table name
  // ---------------------------------------------------------------------

  /** Each header name with its spaces turned into underscores, in header order. */
  function Underscored(header: seq<string>): (r: seq<string>)
    ensures |r| == |header|
  {
    seq(|header|, i requires 0 <= i < |header| => ReplaceSpaces(header[i]))
  }

  /** True when no column is named `id` after the replacement, so one is added. */
  predicate SynthesizesId(header: seq<string>)
  {
    "id" !in Underscored(header)
  }

  /** The columns the SQL is written with: `id` is added at the front only when missing. */
  function NormalizedColumns(header: seq<string>): seq<string>
  {
    var names := Underscored(header);
    if "id" in names then names else ["id"] + names
  }

  /** The configured table name, or else the file's name without extension, spaces replaced. */
  function TableName(configured: string, path: string): string
  {
    ReplaceSpaces(if configured == "" then FileName(path) else configured)
  }

  /**
   * After normalisation there is an `id` column, no name holds a space,
   * and the names are the header's own in header order: behind a new `id`
   * when the header had none, and otherwise exactly in place.
   */
  lemma NormalizedColumnsShape(header: seq<string>)
    ensures var cols := NormalizedColumns(header);
      "id" in cols &&
      (forall c :: c in cols ==> ' ' !in c) &&
      (SynthesizesId(header) ==> cols == ["id"] + Underscored(header) && |cols| == |header| + 1) &&
      (!SynthesizesId(header) ==> cols == Underscored(header) && |cols| == |header|)
  {
    var cols := NormalizedColumns(header);
    forall c | c in cols ensures ' ' !in c {
      if c != "id" {
        var i :| 0 <= i < |header| && Underscored(header)[i] == c;
        ReplaceSpacesLeavesNoSpace(header[i]);
      }
    }
  }

  /** An `id` column is added exactly when the header has no name that is exactly `id`. */
  lemma SynthesizesIdIffNoIdInHeader(header: seq<string>)
    ensures SynthesizesId(header) <==> "id" !in header
  {
    var names := Underscored(header);
    forall i | 0 <= i < |header| ensures names[i] == "id" <==> header[i] == "id" {
      ReplaceSpacesReflects(header[i], "id");
    }
    if "id" in header {
      var i :| 0 <= i < |header| && header[i] == "id";
      assert names[i] == "id";
    }
  }

  /** An existing `id` keeps its position: the columns hold `id` exactly where the header does. */
  lemma IdKeepsItsPlace(header: seq<string>)
    requires "id" in header
    ensures !SynthesizesId(header)
    ensures |NormalizedColumns(header)| == |header|
    ensures forall i :: 0 <= i < |header| ==> (NormalizedColumns(header)[i] == "id" <==> header[i] == "id")
  {
    SynthesizesIdIffNoIdInHeader(header);
    var names := Underscored(header);
    forall i | 0 <= i < |header| ensures names[i] == "id" <==> header[i] == "id" {
      ReplaceSpacesReflects(header[i], "id");
    }
  }

  /** The table name holds no space; a configured name is kept, an empty one taken from the path. */
  lemma TableNameShape(configured: string, path: string)
    ensures ' ' !in TableName(configured, path)
    ensures configured != "" ==> TableName(configured, path) == ReplaceSpaces(configured)
    ensures configured == "" ==> TableName(configured, path) == ReplaceSpaces(FileName(path))
  {
    ReplaceSpacesLeavesNoSpace(if configured == "" then FileName(path) else configured);
  }

  /** With no configured name, `dir/my data.csv` gives the table `my_data`. */
  lemma TableNameFromPath(dir: string, stem: string)
    requires '/' !in stem
    ensures TableName("", dir + "/" + stem + ".csv") == ReplaceSpaces(stem)
  {
    CsvSuffix(dir + "/" + stem);
    PathInfoParts(dir, stem, "csv");
  }

  /** The same for a bare file name: `my data.csv` gives the table `my_data`. */
  lemma TableNameFromBarePath(stem: string)
    requires '/' !in stem
    ensures TableName("", stem + ".csv") == ReplaceSpaces(stem)
  {
    CsvSuffix(stem);
    PathInfoBare(stem, "csv");
  }

  /**
   * `.csv` is a dot followed by the extension `csv`, which holds neither
   * a slash nor a dot.
   */
  lemma CsvSuffix(front: string)
    ensures front + ".csv" == front + "." + "csv"
    ensures '/' !in "csv" && '.' !in "csv"
  {
  }

  /** A file named only `.csv` yields an empty table name: nothing prevents it. */
  lemma TableNameCanBeEmpty(dir: string)
    ensures TableName("", dir + "/.csv") == ""
  {
    assert '/' !in "csv" && '.' !in "csv";
    assert dir + "/.csv" == dir + "/" + "" + "." + "csv";
    PathInfoParts(dir, "", "csv");
  }

  /**
   * A row's value list is as long as the column list exactly when the row
   * has as many fields as the header; nothing checks this.
   */
  lemma ValueCountMatchesColumns(header: seq<string>, row: seq<string>)
    ensures |RowValues(row, SynthesizesId(header))| == |NormalizedColumns(header)| <==> |row| == |header|
  {
    NormalizedColumnsShape(header);
  }

  // ---------------------------------------------------------------------
  // The response
  // ---------------------------------------------------------------------

  /** The first parsed record is the header. */
  function Header(records: seq<seq<string>>): seq<string>
  {
    if records == [] then [] else records[0]
  }

  /** Every later record is a data row. */
  function DataRows(records: seq<seq<string>>): seq<seq<string>>
  {
    if records == [] then [] else records[1..]
  }

  /** The success response: the query is attached only when it is not empty. */
  function SuccessWith(query: string): Response
  {
    Success(Generated, if query != "" then Some(query) else None)
  }

  /**
   * The response once the file checks passed: no columns, no rows, or the
   * generated query for the header and rows that were read.
   */
  function Report(path: string, withCreate: bool, configured: string,
                  header: seq<string>, rows: seq<seq<string>>): Response
  {
    if header == [] then Error(NoColumns)
    else if rows == [] then Error(NoRows)
    else
      SuccessWith(QueryText(withCreate, TableName(configured, path), NormalizedColumns(header),
                            rows, SynthesizesId(header)))
  }

  /**
   * The response of one run on a fresh generator, given the file facts
   * (whether the path is a regular file, the bytes the probe read) and the
   * records the CSV reader returned.
   */
  function Outcome(path: string, withCreate: bool, configured: string,
                   isFile: bool, probe: string, records: seq<seq<string>>): Response
  {
    match ValidationError(path, isFile, probe)
    case Some(message) => Error(message)
    case None => Report(path, withCreate, configured, Header(records), DataRows(records))
  }

  /**
   * The error cases, in the order they are checked: a file check, then an
   * empty header (even when there are no rows either), then no rows.
   */
  lemma OutcomeErrors(path: string, withCreate: bool, configured: string,
                      isFile: bool, probe: string, records: seq<seq<string>>)
    ensures var r := Outcome(path, withCreate, configured, isFile, probe, records);
      (!isFile ==> r == Error(InvalidPath)) &&
      (isFile && !IsCsvPath(path) ==> r == Error(OnlyCsv)) &&
      (isFile && IsCsvPath(path) && PhpEmpty(probe) ==> r == Error(InvalidCsv)) &&
      (ValidationError(path, isFile, probe) == None && Header(records) == [] ==> r == Error(NoColumns)) &&
      (ValidationError(path, isFile, probe) == None && Header(records) != [] && DataRows(records) == [] ==> r == Error(NoRows))
  {
  }

  /**
   * A run succeeds exactly when every check passes and there are a header
   * and at least one row; then the response carries a non-empty query: the
   * INSERT text, after the CREATE statement and a blank line when asked for.
   */
  lemma OutcomeSuccess(path: string, withCreate: bool, configured: string,
                       isFile: bool, probe: string, records: seq<seq<string>>)
    ensures var r := Outcome(path, withCreate, configured, isFile, probe, records);
      r.Success? <==> ValidationError(path, isFile, probe) == None && |records| >= 2 && records[0] != []
    ensures var r := Outcome(path, withCreate, configured, isFile, probe, records);
      r.Success? ==>
        var header := records[0];
        var table, cols, synthesized := TableName(configured, path), NormalizedColumns(header), SynthesizesId(header);
        var data := DataText(table, cols, records[1..], synthesized);
        r.message == Generated &&
        r.query == Some(if withCreate then CreateText(table, cols) + EOL + EOL + data else data)
  {
    var r := Outcome(path, withCreate, configured, isFile, probe, records);
    if ValidationError(path, isFile, probe) == None && |records| >= 2 && records[0] != [] {
      var header := records[0];
      QueryTextNonEmpty(withCreate, TableName(configured, path), NormalizedColumns(header),
                        records[1..], SynthesizesId(header));
    }
  }

  /** Once the file checks pass, the response is the report on the header and rows read. */
  lemma OutcomeWhenValid(path: string, withCreate: bool, configured: string,
                         isFile: bool, probe: string, records: seq<seq<string>>)
    requires ValidationError(path, isFile, probe) == None
    ensures Outcome(path, withCreate, configured, isFile, probe, records)
         == Report(path, withCreate, configured, Header(records), DataRows(records))
  {
  }

  lemma OutcomeWhenInvalid(path: string, withCreate: bool, configured: string,
                           isFile: bool, probe: string, records: seq<seq<string>>)
    requires ValidationError(path, isFile, probe).Some?
    ensures Outcome(path, withCreate, configured, isFile, probe, records)
         == Error(ValidationError(path, isFile, probe).value)
  {
  }
}
