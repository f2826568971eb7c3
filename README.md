# Energy cost simulation: a verified model

This project models two parts of the electricity cost simulator:

- **The `simulateCost` pipeline** of `src/lib/actions.ts`. It takes an uploaded meter-reading export, a CSV text or a spreadsheet grid, and runs these steps:
  1. find the `Datos lecturas` section;
  2. take the header row two rows below the marker;
  3. resolve the six `Consumo Activa P1`…`P6` columns;
  4. sum every period over the data rows;
  5. rate every tariff (fixed fee, energy cost, mocked other costs);
  6. rank the costs with a stable sort by total cost;
  7. compute the savings of the cheapest option against `Tu Compañía Actual`.
- **The tariff catalogue routes** of `src/app/api/tariffs/route.ts`: GET, POST, PUT and DELETE on the stored list of tariffs.

Each imperative step of the source has its own method, proved against a specification function:

- the decoder loop (`Decoding.DecodeText`);
- the summation loop (`Readings.SumPeriods`);
- the in-place sort (`Ranking.SortByTotalCost`, an insertion sort on an `array`);
- the whole pipeline (`Simulation.SimulateCost`).

The functions carry the properties: first-match searches, iff-characterised errors, sortedness, permutation and stability of the ranking, savings bounds, a round trip for `parseCsv` on a single line of clean fields, and one for `parseFloat` on the decimal rendering of natural numbers. The tariff routes are a class `TariffStore.Store` whose field `tariffs` stands for the JSON file.

Modules follow the program's structure:

| Module | What it models |
|---|---|
| `Wrappers` | `Option` and `Result` |
| `Text` | the JavaScript string primitives used: `trim`, `split`, `includes`, `replace` |
| `Numbers` | `parseFloat` on a decimal grammar |
| `NumberValues` | the value `parseFloat` gives signed decimal and exponent literals |
| `Csv` | `parseCsv` |
| `Decoding` | the decoder loop |
| `Data` | the records of `src/lib/data.ts` |
| `Readings` | section, header, columns and summation |
| `Rating` | the rating formula |
| `Ranking` | sort, ranks and savings |
| `Simulation` | the whole pipeline and its errors |
| `TariffStore` | the routes |

Modelling decisions:

- **Cells.** A grid cell is `Str`, `Num` or `Blank`. `Blank` is a hole in a `sheet_to_json` row, or a read past the end of a row.
- **Non-string header cells** (`String(h)` of a number) are mapped to no label. No number renders as one of the six `Consumo Activa` labels.
- **Decoders.** Each `TextDecoder` becomes an input: the decoded text, or `None` when the decoder threw.
- **Spreadsheets.** The spreadsheet path receives the first sheet already converted, or `None` when the workbook has no sheet. A file that `xlsx.read` cannot read is the upload `UnreadableSpreadsheet`, and fails with `SpreadsheetUnreadable` (`actions.ts:108`).
- **Thrown errors** become `Failure`s of `Simulation.Error`. Two `TypeError`s are named explicitly:
  - `HeaderRowMissing`: `rawData[headersRowIndex]` is undefined;
  - `NoTariffs`: `details[0]` is undefined, so `bestOption.name` throws.
- **Tariff list.** The tariffs are a parameter of the pipeline, not the fixed list `MOCK_TARIFFS`.
- **Numbers.** Money and kWh are `real`.

What the code does, as the model follows it:

- The section marker is matched case-sensitively, and only in string cells (`actions.ts:120`).
- The header row is the marker row + 2 (`actions.ts:126`).
- The data rows are every row after the header row, to the end of the grid (`actions.ts:127`).
- Only the `Datos lecturas` section is searched (`actions.ts:120`).
- The decoder loop accepts the first text containing `;`. Otherwise it keeps the last decoded text, which is an error only when it is empty (`actions.ts:87-101`).
- The six columns are checked together, with one error for any missing label (`actions.ts:137-139`).
- `otherCosts` is the mock `25 + 2·index` (`actions.ts:172`). There is no annualisation and no tax.
- Only the first comma is replaced, and a dot is a decimal point (`actions.ts:146`). So `"1.234,56"` is read as 1.234 (`Readings.ThousandsSeparatorCell`).

## Model

| member | source | states |
|---|---|---|
| Text.Trim | src/lib/actions.ts:34 | `String.prototype.trim`: the result is the infix of the input between its leading white space and its trailing white space, has no white space at either end, and is empty exactly when the input is all white space |
| Text.TrimStart | src/lib/actions.ts:34 | the result is a suffix of the input with only white space removed before it, and starts with a non-white character when non-empty |
| Text.TrimEnd | src/lib/actions.ts:34 | the result is a prefix of the input with only white space removed after it, and ends with a non-white character when non-empty |
| Text.Split | src/lib/actions.ts:36 | `split(';')` yields one more piece than there are separators, and no piece contains the separator |
| Text.JoinSplit | src/lib/actions.ts:36 | joining the pieces of a split with the separator gives back the original text |
| Text.RemoveAll | src/lib/actions.ts:36 | `replace(/"/g, '')`: no quote is left, every other character is kept, and the length shrinks by the number of quotes |
| Text.RemoveAllAppend | src/lib/actions.ts:36 | removal distributes over concatenation, so the kept characters stay in their order |
| Text.RemoveAllChar | src/lib/actions.ts:36 | a single character is dropped exactly when it is the quote |
| Text.Contains | src/lib/actions.ts:120 | `includes`: true for the empty pattern and for every text of the form a + pattern + z, and only when the pattern fits |
| Text.ContainsSplits | src/lib/actions.ts:120 | conversely, a text that includes the pattern is some a + pattern + z |
| Text.ContainsChar | src/lib/actions.ts:92 | `includes(';')` holds exactly when the character occurs in the text |
| Text.LeadingWhite | src/lib/actions.ts:34 | the number of leading white-space characters: all of them white, followed by a non-white character or the end |
| Text.TrailingWhite | src/lib/actions.ts:34 | the number of trailing white-space characters: all of them white, preceded by a non-white character or the start |
| Text.ReplaceFirst | src/lib/actions.ts:146 | `replace(',', '.')`: exactly the first occurrence of the comma becomes a dot, the rest is unchanged |
| Text.ReplaceFirstAfter | src/lib/actions.ts:146 | a comma after a comma-free prefix is the one replaced, the rest stays as it was |
| Numbers.DigitPrefix | src/lib/actions.ts:146 | the longest prefix of decimal digits: all digits, and followed by a non-digit or the end |
| Numbers.Scan | src/lib/actions.ts:146 | the literal grammar: a literal is scanned exactly when a digit, or a point and a digit, begins the text, and its parts are digit strings |
| Numbers.ParseMagnitude | src/lib/actions.ts:146 | an unsigned text has a value exactly when a number begins it |
| Numbers.IntegerMagnitude | src/lib/actions.ts:146 | a non-empty digit string reads as its decimal value |
| Numbers.DecimalMagnitude | src/lib/actions.ts:146 | digits, a point and digits, followed by anything but a digit or an exponent, read as whole part plus fraction |
| Numbers.ParseFloat | src/lib/actions.ts:146 | `parseFloat` gives NaN (`None`) exactly when, after leading white space and a sign, neither a digit nor a point followed by a digit begins the text |
| NumberValues.TrimStartAfterWhite | src/lib/actions.ts:146 | leading white space, and only it, is skipped before the literal |
| NumberValues.ParseFloatOfLiteral | src/lib/actions.ts:146 | white space, an optional sign and a text that begins a number read as the magnitude of that text, negated exactly after `-` |
| NumberValues.DecimalStartsNumber | src/lib/actions.ts:146 | digits, a point and digits, with a digit on either side, begin a number |
| NumberValues.ExponentOfDigits | src/lib/actions.ts:146 | `e` or `E`, an optional sign and digits give the exponent, negative exactly after `-` |
| NumberValues.ExponentMagnitude | src/lib/actions.ts:146 | digits, a point, digits and an exponent read as the mantissa scaled by ten to the exponent |
| NumberValues.IntegerThenTail | src/lib/actions.ts:146 | digits followed by anything but a digit or a point (`"12 kWh"`, `"1e5"`) read as their value scaled by the exponent the rest begins with |
| NumberValues.DecimalThenTail | src/lib/actions.ts:146 | digits, a point and digits followed by anything but a digit read as the mantissa scaled by the exponent the rest begins with |
| NumberValues.NoExponentMark | src/lib/actions.ts:146 | a rest not starting with `e` or `E` has exponent 0 |
| NumberValues.DanglingExponent | src/lib/actions.ts:146 | an `e` or `E` and an optional sign not followed by a digit (`"1.5e"`, `"1e+"`, `"1e+-5"`) have exponent 0 |
| NumberValues.SecondExponentSignIgnored | src/lib/actions.ts:146 | `"1e+-5"` reads as 1: a second sign ends the literal before the exponent |
| Numbers.ParseFloatNatText | src/lib/actions.ts:146 | round trip: `parseFloat` reads the decimal rendering of every natural number back as that number |
| Csv.Lines | src/lib/actions.ts:34 | `split(/\r?\n/)`: one line per newline in the text plus one, none containing a newline |
| Csv.LinesOfLine | src/lib/actions.ts:34 | a text without newline is one line |
| Csv.LinesCons | src/lib/actions.ts:34 | the text up to the first newline, without a carriage return before it, is the first line, and the rest are the lines of the remainder |
| Csv.KeepNonEmpty | src/lib/actions.ts:34 | `filter(line => line)`: a line is kept exactly when it is a non-empty input line, the list never grows, and trimmed lines stay trimmed |
| Csv.KeepNonEmptyAppend | src/lib/actions.ts:34 | the filter distributes over concatenation, so the kept lines stay in their order |
| Csv.KeepNonEmptyOne | src/lib/actions.ts:34 | a single line is dropped exactly when it is empty |
| Csv.TrimAll | src/lib/actions.ts:34 | `map(line => line.trim())`: one trimmed line per line, position by position |
| Csv.RecordLines | src/lib/actions.ts:34 | every kept line is trimmed and non-empty |
| Csv.RecordLinesOfLine | src/lib/actions.ts:34 | a single line gives nothing when it is all white space, otherwise its trim |
| Csv.RecordLinesCons | src/lib/actions.ts:34 | the first line contributes its trim (after the carriage return is cut) unless it is blank, followed by the record lines of the rest |
| Csv.RecordLinesOfLines | src/lib/actions.ts:34 | a line is kept exactly when it is the trim of an input line that is not all white space, so no row comes from a blank line |
| Csv.CleanField | src/lib/actions.ts:36 | a cleaned field is the field with every quote removed and then its leading and trailing white space cut: an infix of the unquoted field with only white space around it |
| Csv.Fields | src/lib/actions.ts:36 | a record line gives (number of `;`) + 1 fields, field k being the k-th piece of the split, cleaned |
| Csv.ParseCsv | src/lib/actions.ts:33-38 | one row per kept line, row i being the fields of the i-th kept line; each row has (number of `;` in its line) + 1 fields; no field contains a quote or starts or ends with white space |
| Csv.ParseCsvOfJoinedFields | src/lib/actions.ts:33-38 | round trip: clean, non-empty fields joined with `;` parse back as that single row |
| Decoding.FirstWithSemicolon | src/lib/actions.ts:88-94 | the index of the first decoded text that contains `;`, or none exactly when no attempt has one |
| Decoding.LastDecodedIsLastSuccess | src/lib/actions.ts:87-98 | the text kept without a `;` is that of the last decoder that did not throw, or `""` when all threw |
| Decoding.ChosenFirst | src/lib/actions.ts:88-94 | the `break`: the first decoded text with a `;` is the text chosen |
| Decoding.ChosenLast | src/lib/actions.ts:87-98 | without any `;`, the last decoded text is the text chosen |
| Decoding.ChosenTextCases | src/lib/actions.ts:87-98 | some decoded text contains `;` exactly when the chosen one does, and then it is the first such text; every decoder throwing leaves the empty text |
| Decoding.LastDecodedIsAnAttempt | src/lib/actions.ts:87-98 | a non-empty result is the output of some decoder |
| Decoding.DecodeText | src/lib/actions.ts:87-98 | the loop with its `break` computes exactly the chosen text |
| Data.Tariff.EnergyPrices | src/lib/data.ts:94-112 | the six energy prices, P1 to P6 in order |
| Readings.FindSectionFrom | src/lib/actions.ts:120 | the first row at or after a position having a string cell that contains `Datos lecturas` |
| Readings.FindSection | src/lib/actions.ts:120 | `findIndex`: the smallest marker row index, or none exactly when no row is a marker row |
| Readings.HeaderLabels | src/lib/actions.ts:129 | `map(h => String(h).trim())`: one label per cell, the trimmed text of each string cell |
| Readings.IndexOf | src/lib/actions.ts:130-135 | `indexOf`: the first position holding the label, or none exactly when it is absent |
| Readings.ResolveColumns | src/lib/actions.ts:130-139 | none exactly when one of the six labels is absent; otherwise each column is the first position of its label |
| Readings.Truthy | src/lib/actions.ts:144 | `!row[0]`: a cell is falsy exactly when it is the empty string, the number 0 or undefined |
| Readings.CellKwh | src/lib/actions.ts:146-151 | `parseFloat(String(cell).replace(',', '.')) \|\| 0`: a number is itself, undefined is 0, and a text is the value of its comma-replaced form, or 0 when that is NaN |
| Readings.WhiteTextCellIsZero | src/lib/actions.ts:146-151 | a text cell of nothing but white space adds 0 |
| Readings.SumPeriods | src/lib/actions.ts:141-152 | the loop with its `continue` computes exactly the six column sums |
| Readings.PeriodSumAppend | src/lib/actions.ts:143-152 | a total over two blocks of rows is the sum of their totals |
| Readings.PeriodSumSwap | src/lib/actions.ts:143-152 | a total does not depend on the order of two blocks of rows |
| Readings.SkippedRowAddsNothing | src/lib/actions.ts:144 | a row with a falsy first cell, or one too short for the column, adds exactly 0 |
| Readings.UnparsableCellAddsNothing | src/lib/actions.ts:146-151 | a cell whose text parses to NaN adds exactly 0 |
| Readings.DecimalCommaCell | src/lib/actions.ts:146 | "12,5" is read as 12.5 |
| Readings.ThousandsSeparatorCell | src/lib/actions.ts:146 | "1.234,56" is read as 1.234, since only the first comma is replaced |
| Rating.TotalKwh | src/lib/actions.ts:154 | `totalKwh` is the sum of the six period totals |
| Rating.Rate | src/lib/actions.ts:162-184 | fixed fee 12 × fixed term, consumption cost the dot product of prices and totals, other costs 25 + 2 × index, total their sum, rank 0, id and name of the tariff |
| Rating.RateAll | src/lib/actions.ts:162-184 | one cost per tariff, the one at position i rated with index i |
| Rating.DotNonNegative | src/lib/actions.ts:164-170 | nonnegative prices and totals give a nonnegative consumption cost |
| Rating.RateLowerBound | src/lib/actions.ts:162-173 | with nonnegative prices, totals and fixed term, the total cost is at least 25 + 2 × index |
| Ranking.StableSortSorted | src/lib/actions.ts:186 | the sort result is nondecreasing in total cost |
| Ranking.StableSortPermutes | src/lib/actions.ts:186 | the sort result is a permutation of its input |
| Ranking.StableSortKeepsTies | src/lib/actions.ts:186 | for every cost value, the entries with that cost keep their input order (stability) |
| Ranking.ShiftLarger | src/lib/actions.ts:186 | the inner loop moves the run of entries costlier than the inserted one, just below position i, one place right, stops at the gap after the first entry not costlier, and touches nothing else |
| Ranking.InsertAt | src/lib/actions.ts:186 | one insertion step: the first i + 1 entries become `a[i]` inserted into the first i, the rest of the array is untouched |
| Ranking.SortByTotalCost | src/lib/actions.ts:186 | the in-place sort leaves the array holding the stable sort of its old contents |
| Ranking.AssignRanks | src/lib/actions.ts:187 | rank is position + 1, every other field unchanged |
| Ranking.FindByName | src/lib/actions.ts:189 | `find`: the first entry with the name, or none exactly when there is none |
| Ranking.Savings | src/lib/actions.ts:189-194 | with a current company, its first entry's cost minus the first entry's cost, clamped at 0; 0 without a current company; never negative |
| Ranking.SavingsOfSorted | src/lib/actions.ts:189-208 | on a sorted list the savings equal the current cost minus the first cost |
| Simulation.Report | src/lib/actions.ts:154-212 | the result fails only for zero consumption or no tariffs, and for zero consumption exactly when the six totals sum to 0 |
| Simulation.LoadGrid | src/lib/actions.ts:78-118 | each error exactly for its kind of file: undecodable CSV when every decoder left the text empty, unreadable and sheetless workbooks, other files; a CSV gives the grid of `parseCsv` on the chosen text, a workbook its first sheet |
| Simulation.DataRows | src/lib/actions.ts:126-127 | `slice(headersRowIndex + 1)`: exactly the rows after the header row, in order |
| Simulation.Locate | src/lib/actions.ts:120-139 | a success is the first marker row with the first-match columns of the header row two rows below it; header-row-missing exactly when the marker row is among the last two rows; otherwise a failure is section-not-found or columns-missing |
| Simulation.ReadUpload | src/lib/actions.ts:78-118 | the branch on the file kind with the decoder loop computes exactly the grid, or the decoding, unreadable-workbook, no-sheet or unsupported-format error |
| Simulation.RankTariffs | src/lib/actions.ts:154-212 | rating, the in-place sort, ranking and the conditional savings update compute exactly the report |
| Simulation.EvaluateGrid | src/lib/actions.ts:120-212 | from the grid on, the method computes exactly the specified evaluation |
| Simulation.SimulateCost | src/lib/actions.ts:69-212 | the whole pipeline computes exactly the specified simulation |
| Simulation.UnrankedOfRanked | src/lib/actions.ts:187 | ranking changes nothing but the ranks |
| Simulation.RankedIsStableSortedPermutation | src/lib/actions.ts:186-187 | `details` has one entry per tariff, is sorted by total cost, has ranks 1..N in order, and apart from ranks is a permutation of the rated list that keeps the input order among equal costs |
| Simulation.ReportSummary | src/lib/actions.ts:196-212 | a successful report holds the ranked list, the six totals and their nonzero sum, the period and the first entry's name as best option |
| Simulation.RankedSavings | src/lib/actions.ts:189-208 | the first ranked entry costs no more than any other, and the savings are 0 without the current company, otherwise its first entry's cost minus the first cost |
| Simulation.ReportProperties | src/lib/actions.ts:189-212 | period totals and their nonzero sum are reported; the best option is the first and cheapest entry; savings are nonnegative, 0 without `Tu Compañía Actual`, otherwise its cheapest entry's cost minus the best cost |
| Simulation.NoTariffsIff | src/lib/actions.ts:190-207 | with nonzero consumption the report fails exactly when the tariff list is empty |
| Simulation.SectionNotFoundIff | src/lib/actions.ts:120-124 | the section-not-found error arises exactly when no row is a marker row |
| Simulation.HeaderRowMissingIff | src/lib/actions.ts:126-129 | `rawData[headersRowIndex].map` throws exactly when the marker row is found and the header row two rows below it is past the end of the grid |
| Simulation.ZeroConsumptionIff | src/lib/actions.ts:127-158 | once the columns are located, zero consumption is reported exactly when the totals over the rows after the header row sum to 0 |
| Simulation.ColumnsMissingIff | src/lib/actions.ts:129-139 | given the header row, the columns error arises exactly when some label is absent from it |
| Simulation.EvaluateSuccess | src/lib/actions.ts:120-158 | a success went through the first marker row, the header row two below it and the six first-match columns, and sums exactly the rows after the header row |
| Simulation.CsvCellsAreClean | src/lib/actions.ts:99-102 | every cell of a parsed CSV grid is a string without quotes or surrounding white space |
| TariffStore.FindById | src/app/api/tariffs/route.ts:52 | `findIndex` by id: the first matching position, or none exactly when no entry has the id |
| TariffStore.RemoveById | src/app/api/tariffs/route.ts:83 | `filter`: exactly the entries with another id are kept; the length is unchanged exactly when no entry has the id |
| TariffStore.ReplaceInList | src/app/api/tariffs/route.ts:52-57 | not-found exactly when the id is absent; otherwise same length and ids, the first match becomes the body, and every entry that changed is that first match |
| TariffStore.DeleteFromList | src/app/api/tariffs/route.ts:72-90 | bad-request exactly for a missing or empty id, not-found exactly when no entry has it, otherwise a shorter list: the filtered list, holding exactly the entries with other ids |
| TariffStore.RemoveByIdAppend | src/app/api/tariffs/route.ts:83 | filtering distributes over concatenation, so remaining entries keep their order |
| TariffStore.RemoveByIdAbsent | src/app/api/tariffs/route.ts:83-87 | an id nobody has filters out nothing |
| TariffStore.PostThenDeleteRestores | src/app/api/tariffs/route.ts:27-90 | deleting the entry just posted under a new id restores the list |
| TariffStore.DeleteTwiceNotFound | src/app/api/tariffs/route.ts:83-87 | repeating a successful delete is not-found |
| TariffStore.PutThenFind | src/app/api/tariffs/route.ts:52-57 | after a put, a lookup of the id finds the body at the same position |
| TariffStore.PutIdempotent | src/app/api/tariffs/route.ts:52-57 | repeating a put changes nothing |
| TariffStore.Store.Get | src/app/api/tariffs/route.ts:7-11 | GET returns the stored list unchanged |
| TariffStore.Store.Post | src/app/api/tariffs/route.ts:27-36 | POST returns the body with the new id, and the list is the old list with it appended |
| TariffStore.Store.Put | src/app/api/tariffs/route.ts:52-62 | PUT returns not-found with the list untouched, or the body with the list as specified by the replacement |
| TariffStore.Store.Delete | src/app/api/tariffs/route.ts:72-92 | DELETE returns the refusal with the list untouched, or success with the filtered list stored |

## Left out

- Form validation with zod and the contextual-help and summary text generation (`actions.ts:11-13`, `42-67`, `214-259`) are calls into a schema library and a language model, not part of the computation.
- `TextDecoder`, `xlsx.read` and `sheet_to_json` are foreign libraries. Their outcomes are inputs of `Simulation.Upload`, a throw of `xlsx.read` included. The file-kind test on MIME type and extension is an input too: the upload's constructor.
- The wrapping of CSV errors into a message (`actions.ts:103-104`) and all message texts are not modelled. Each error is a constructor of `Simulation.Error`.
- `MOCK_TARIFFS` and the ids `"1"`… given to them (`actions.ts:23-29`, `70`): the tariff list is a parameter of the pipeline.
- `Numbers.ParseFloat`: does not accept `Infinity` and does not round to IEEE doubles. Sums and products are exact reals, not floating point.
- `Numbers.ParseFloat`, `Numbers.ParseMagnitude`, `Numbers.Scan`: their own contracts state only when the result is NaN. The value is stated by lemmas. `NumberValues.ParseFloatOfLiteral` covers white space and sign. `NumberValues.IntegerThenTail` and `NumberValues.DecimalThenTail` cover digits with or without a point followed by any text. `NumberValues.ExponentOfDigits`, `NumberValues.DanglingExponent` and `NumberValues.NoExponentMark` give the exponent of that text. There is no single lemma composing all of them for one signed literal.
- `Readings.HeaderLabels`: a header cell that is a number or a blank becomes no label. Its `String()` rendering is not modelled, since it can never equal one of the six consumption labels.
- JavaScript booleans, `null` and `undefined` rows of a sheet are not cells of the model. A spreadsheet row is a sequence of strings, numbers and blanks.
- The file read, `JSON.parse`, `JSON.stringify`, the file write and the response construction of the tariff routes. The read-failure responses (status 500) are not modelled either. The stored list is the `tariffs` field of `TariffStore.Store`.
- `Date.now().toString()` is the `newId` parameter of `TariffStore.Store.Post`.
- The bodies of POST and PUT are typed tariffs. Untyped JSON bodies with missing or extra fields are not modelled.
- The React pages, the Firebase authentication and storage, and the mock simulation result of `src/lib/data.ts:30-92` are presentation and fixtures.
