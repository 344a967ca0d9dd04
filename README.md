# csv-to-query, modelled in Dafny

The `Generator` class of csv-to-query turns a CSV file into MySQL text. It
checks the file, reads the first record as the column header and the
remaining records as rows, and normalises the columns: spaces become
underscores, and an `id` column is added at the front when the header has
none. It then settles the table name and writes one `INSERT` statement per
row, each value escaped with `addslashes`. When asked, it puts a
`CREATE TABLE IF NOT EXISTS` statement in front. The result is a response
object: an error with a message, or a success carrying the query.

The project has these modules:

- `Wrappers` (wrappers.dfy): the `Option` type.
- `PhpStrings` (php_strings.dfy): the PHP built-ins the class calls, as
  pure functions. These are `str_replace` of a space, `str_contains`,
  `addslashes` (with `stripslashes` as its inverse), `implode`,
  `strtolower` and the `PATHINFO_FILENAME` and `PATHINFO_EXTENSION` parts
  of `pathinfo`.
- `SqlText` (sql_text.dfy): the SQL text as specification functions. The
  column types are an ordered rule table: exactly `id`, then names
  containing `date`, then everything else. This module also builds the
  `CREATE TABLE` statement, the `INSERT` statements and the two together.
- `SqlParse` (sql_parse.dfy): a reader for the `INSERT` text. It reads a
  single-quoted string literal the way section 11.1.1 ("String Literals")
  of the MySQL 8.0 Reference Manual describes it. It is the partner of
  the writer: the generated text reads back as exactly the rows it was
  made from, whatever characters the fields hold, under the conditions
  listed under "Left out" (backslash escapes enabled, a connection
  character set such as utf8mb4 or latin1, one character per byte).
- `Pipeline` (pipeline.dfy): what one run produces, as pure functions of
  its inputs. These are the first failing file check, the normalised
  columns, the table name, and the response (`Outcome`).
- `CsvToQuery` (generator.dfy): the class `Generator`, with the PHP
  object's fields. Its methods update those fields step by step. Each
  method is proved against the `Pipeline` and `SqlText` functions, and
  `Generate` returns exactly `Outcome` of its inputs.

The file system stays outside the model. `Generate` takes three inputs
that stand for it:

- whether the path names an existing regular file;
- the bytes the four-byte probe read;
- the records the CSV reader returned.

The code behaves as follows in cases a reader may not expect, and the
model does the same:

- An `id` column already in the header keeps its position. It is not
  moved to the front (`Pipeline.IdKeepsItsPlace`).
- The derived table name can be empty. A file named `.csv` gives the
  table name `""` (`Pipeline.TableNameCanBeEmpty`).
- A probe of `"0"` counts as empty, because PHP's `empty("0")` is true.
  Such a file is rejected as an invalid CSV file.
- `addslashes` writes NUL as a backslash followed by the digit `0`.

## Model

| member | source | states |
|---|---|---|
| CsvToQuery.Generator.constructor | src/Generator.php:24-31 | stores the path, the create option and the configured table name; the object starts with no response, no columns, no rows, and "has id" set |
| CsvToQuery.Generator.Generate | src/Generator.php:46-65 | the response returned and stored is exactly `Outcome` of the path, the options, the file facts and the records |
| CsvToQuery.Generator.ReportRecords | src/Generator.php:53-62 | after the file was read: no columns gives the no-columns error, no rows the no-rows error, otherwise a success carrying the generated query (`Report`) |
| CsvToQuery.Generator.GenerateQuery | src/Generator.php:73-89 | columns become the normalised columns; "has id" is cleared exactly when an id was synthesised; the table name is settled; the query is the INSERT text, after the CREATE statement and a blank line when asked for |
| CsvToQuery.Generator.GenerateCreateQuery | src/Generator.php:96-121 | the loop builds exactly the CREATE statement of the rule table, one definition per column in order, then the primary key on `id` |
| CsvToQuery.Generator.GenerateDataQuery | src/Generator.php:128-162 | the loops build exactly one INSERT statement per row, in row order and joined by newlines, with NULL first when the id was synthesised and every field escaped |
| CsvToQuery.Generator.SetTableName | src/Generator.php:168-175 | the table name becomes the configured name, or the file name when none was configured, with its spaces replaced |
| CsvToQuery.Generator.PrepareColumns | src/Generator.php:180-197 | every column's spaces are replaced; `id` is put in front, and "has id" cleared, exactly when no column is `id` |
| CsvToQuery.Generator.ExtractCSVData | src/Generator.php:204-231 | it succeeds exactly when the file checks pass; on failure the response is the first failing check's error and the columns and rows are unchanged; on success the first record is the header and every later record is appended to the rows |
| CsvToQuery.Generator.ReadRecords | src/Generator.php:214-225 | the first record becomes the columns (kept as before when there are no records); every later record is appended to the rows, in order |
| CsvToQuery.Generator.ValidateFile | src/Generator.php:238-266 | it passes exactly when the path is a file, its extension lowers to `csv` and the probe is not empty; otherwise the response holds the first failing check's message |
| CsvToQuery.Generator.SetResponse | src/Generator.php:277-285 | the response is a success with the message (the query attached only when non-empty) or an error with the message |
| PhpStrings.ReplaceSpaces | src/Generator.php:174 | same length; each space becomes `_` and every other character is kept |
| PhpStrings.ReplaceSpacesLeavesNoSpace | src/Generator.php:174 | no space is left after the replacement |
| PhpStrings.ReplaceSpacesIdempotent | src/Generator.php:174 | replacing twice is the same as replacing once |
| PhpStrings.ReplaceSpacesReflects | src/Generator.php:186-190 | for a target without spaces or underscores (such as `id`), a name becomes the target exactly when it already is the target |
| PhpStrings.Contains | src/Generator.php:113 | `str_contains` is true exactly when the substring occurs at some position |
| PhpStrings.AddSlashes | src/Generator.php:151 | the escaped text is longer by one character per quote, double quote, backslash and NUL |
| PhpStrings.StripSlashesInvertsAddSlashes | src/Generator.php:151 | stripping the slashes gives back the original value |
| PhpStrings.AddSlashesInjective | src/Generator.php:151 | different values never escape to the same text |
| PhpStrings.Join | src/Generator.php:161 | `implode` (also used at lines 135 and 155): the parts in order with the separator between neighbours; nothing for no parts, the part itself for one; its partner is `JoinStartsWithFirst` |
| PhpStrings.JoinStartsWithFirst | src/Generator.php:161 | the joined text starts with its first part |
| PhpStrings.Lower | src/Generator.php:247 | same length; each ASCII capital is lowered and every other character is kept |
| PhpStrings.LastIndexOf | src/Generator.php:171 | the index found holds the character and no later index does; there is none exactly when the character is absent |
| PhpStrings.BaseName | src/Generator.php:171 | the base name is a suffix of the path without any `/`, and it is either the whole path or preceded by a `/` |
| PhpStrings.FileName | src/Generator.php:171 | the file name holds no `/` |
| PhpStrings.Extension | src/Generator.php:246 | the extension holds neither `/` nor `.` |
| PhpStrings.PathInfoParts | src/Generator.php:171 | a path `dir/stem.ext` gives back `stem` as its file name and `ext` as its extension |
| PhpStrings.PathInfoBare | src/Generator.php:246 | a bare file name `stem.ext` (no directory) gives back `stem` as its file name and `ext` as its extension |
| SqlText.FirstMatch | src/Generator.php:105-115 | a rule matches exactly when some rule's test passes |
| SqlText.FirstMatchIsFirst | src/Generator.php:105-115 | the kind found is that of a passing rule before which no rule passes, so the order of the rules decides |
| SqlText.KindOfRules | src/Generator.php:107-113 | `id` is the auto-increment key; any other name containing `date` is DATETIME; the rest are text; the `id` test comes first |
| SqlText.DefinitionByRule | src/Generator.php:107-114 | the definition line each rule gives: the key line, a nullable DATETIME line or a nullable VARCHAR(255) line |
| SqlText.Definition | src/Generator.php:105-115 | one definition line per column, chosen by the rule table: the auto-increment key line for `id`, a nullable DATETIME or VARCHAR(255) line otherwise; see `DefinitionByRule` |
| SqlText.CreateText | src/Generator.php:102-118 | the CREATE statement: the table clause, every column's definition in column order, the primary key on `id`; see `CreateTextShape` and `CreateTextFrame` |
| SqlText.CreateTextShape | src/Generator.php:102-118 | column i's definition sits after the opening and the definitions of the columns before it, and before those after it and the primary key clause |
| SqlText.CreateTextFrame | src/Generator.php:102-118 | the CREATE statement opens with the table clause and ends with the primary key on `id` |
| SqlText.ColumnList | src/Generator.php:135-137 | every column name between backticks, in column order, separated by a comma and a space |
| SqlText.InsertStatement | src/Generator.php:145-158 | one row's statement: `INSERT INTO`, the table and the column list, then `VALUES` and the row's rendered values in parentheses, then `;`; see `ParseInsertRoundTrip` |
| SqlText.DataText | src/Generator.php:142-161 | one statement per row, in row order, a newline between neighbours; see `DataTextRoundTrip` |
| SqlText.QueryText | src/Generator.php:80-88 | the INSERT text, after the CREATE statement and a blank line when the create option is set; see `QueryTextNonEmpty` |
| SqlText.RowValues | src/Generator.php:145-152 | a row gives one value per field, plus one NULL in front when the id was synthesised |
| SqlText.DataTextOpensWithFirstRow | src/Generator.php:158-161 | with at least one row the INSERT text opens with the first row's statement |
| SqlText.QueryTextNonEmpty | src/Generator.php:80-88 | with at least one row the generated query is never empty |
| SqlParse.ScanLiteralReadsEscaped | src/Generator.php:151 | a quoted `addslashes` value reads back, under MySQL's literal rules, as the value itself when the next character is not a quote, with the text after the closing quote left over |
| SqlParse.ParseValueReadsRender | src/Generator.php:146-151 | a rendered value (NULL or a quoted escaped field) reads back as itself when the next character is not a quote |
| SqlParse.ParseValueListRoundTrip | src/Generator.php:155 | a parenthesised value list reads back as its values |
| SqlParse.ParseInsertRoundTrip | src/Generator.php:158 | an INSERT statement reads back as its row's values |
| SqlParse.ParseStatementsRoundTrip | src/Generator.php:142-161 | one or more statements joined by newlines read back as the rows' values, in order |
| SqlParse.DataTextRoundTrip | src/Generator.php:128-162 | the whole INSERT text reads back as exactly the rows it was made from |
| Pipeline.PhpEmpty | src/Generator.php:256 | PHP's `empty()` on the probed string: true for `""` and for `"0"` |
| Pipeline.ValidationError | src/Generator.php:241-258 | the first failing check, in source order, with its message: not a regular file, extension not `csv` in any case, empty probe; none when all pass; see `ValidationPasses` |
| Pipeline.ValidationPasses | src/Generator.php:238-266 | a file is accepted exactly when it is a regular file, its extension is `csv` in any case, and its probe is not empty |
| Pipeline.CsvExtensionAnyCase | src/Generator.php:246-247 | `.csv`, `.CSV` and every other letter-case spelling pass the extension check |
| Pipeline.CsvExtensionAnyCaseBare | src/Generator.php:246-247 | the same for a bare file name `stem.ext` with no directory part |
| Pipeline.LowerCsv | src/Generator.php:247 | every letter-case spelling of `csv` lowers to `csv` |
| Pipeline.TxtIsNotCsv | src/Generator.php:246-250 | a `.txt` file fails the extension check |
| Pipeline.Underscored | src/Generator.php:185-187 | one renamed column per header name |
| Pipeline.NormalizedColumns | src/Generator.php:182-196 | the header's names with spaces replaced, behind a new `id` only when no name is `id`; see `NormalizedColumnsShape` |
| Pipeline.NormalizedColumnsShape | src/Generator.php:180-197 | after normalisation `id` is present and no name has a space; the header's names keep their order, behind a new `id` or exactly in place |
| Pipeline.SynthesizesIdIffNoIdInHeader | src/Generator.php:190-193 | an id is added exactly when no header name is exactly `id` |
| Pipeline.IdKeepsItsPlace | src/Generator.php:186-196 | when the header has `id`, nothing is added and `id` stays at the positions where the header has it |
| Pipeline.TableName | src/Generator.php:170-174 | the configured name, or the file name of the path when none is configured, with spaces replaced; see `TableNameShape` |
| Pipeline.TableNameShape | src/Generator.php:168-175 | the table name has no space; a configured name is kept with its spaces replaced; otherwise the file name is used |
| Pipeline.TableNameFromPath | src/Generator.php:170-174 | with no configured name, `dir/my data.csv` gives the table `my_data` |
| Pipeline.TableNameFromBarePath | src/Generator.php:170-174 | with no configured name, a bare `my data.csv` gives the table `my_data` |
| Pipeline.TableNameCanBeEmpty | src/Generator.php:171 | a file named `.csv` gives an empty table name |
| Pipeline.ValueCountMatchesColumns | src/Generator.php:135-155 | a row's value list is as long as the column list exactly when the row has as many fields as the header |
| Pipeline.Report | src/Generator.php:54-62 | after the file checks: no columns, else no rows, else success with the query for the settled table name and the normalised columns |
| Pipeline.Outcome | src/Generator.php:49-64 | a failing file check's error, else the report on the first record as header and the later records as rows; see `OutcomeErrors` and `OutcomeSuccess` |
| Pipeline.OutcomeErrors | src/Generator.php:46-65 | the error for each failure, in the order checked: not a file, not csv, empty probe, no columns, no rows |
| Pipeline.OutcomeSuccess | src/Generator.php:46-65 | a run succeeds exactly when the checks pass and there is a non-empty header and at least one row; the success carries the query text |
| Pipeline.OutcomeWhenValid | src/Generator.php:49-62 | once the file checks pass, the response is the report on the header and rows read |
| Pipeline.OutcomeWhenInvalid | src/Generator.php:49-50 | a failing file check is returned as that check's error |

## Left out

- File-system access (`file_exists`, `is_file`, `fopen`, `fread`, `fclose`) is not modelled. Its results are inputs: whether the path is a regular file, and the bytes the four-byte probe read.
- `fgetcsv`'s parsing of the file is not modelled. The records it returns are an input. The record PHP produces for a blank line, which holds one null field, is not modelled.
- The `catch (\Exception $e)` branch of `validateFile` is not modelled. The calls inside the `try` that could throw are file-system calls, and those are inputs here.
- CsvToQuery.Generator.Generate: requires a fresh object. A second `generate` call on the same object would append the rows again, and that case is not modelled.
- CsvToQuery.Generator.SetResponse: the response keeps no earlier `query` property. PHP's response object would keep one across calls; with one call per object this never shows.
- PhpStrings.BaseName: covers the cases the generator meets. Trailing slashes, the root path and PHP's multibyte and locale handling in `pathinfo` are not modelled.
- PhpStrings.Lower: lowers only ASCII letters, as `strtolower` does from PHP 8.2 on. Older locale-dependent behaviour is not modelled.
- Backticks inside table or column names are written out unescaped, as the code does. The model states no property for such names.
- The loose comparisons in the code (`==` against `""` in `setTableName`, `in_array` without strict mode, `!=` in `setResponse`) are modelled as plain string equality. For string operands that are not numeric, PHP 8 gives the same result.
- PHP_EOL is modelled as `"\n"`.
- SqlParse.DataTextRoundTrip: the reader takes one character to be one byte, backslash escapes to be enabled (the NO_BACKSLASH_ESCAPES SQL mode off), and a connection character set in which a backslash or a quote is never part of a multibyte character (utf8mb4, latin1). Under GBK, Big5, SJIS or CP932 a lead byte can absorb the backslash `addslashes` adds, and with NO_BACKSLASH_ESCAPES a backslash escapes nothing; the round trip is not promised there.
- example.php, which only constructs a generator and prints the response, is not part of this model.
