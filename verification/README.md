# Bubble chart data join, in Dafny

This project models the data step of the BubbleChartIVA bubble chart (`script.js`). The step runs once both CSV tables
have loaded. It has two parts:

1. **Numeric conversion.** Every row of the GDP table and of the life-expectancy table is a map from column name to text.
   In each row, every column except `country` is replaced by its number (JavaScript's unary `+`). The `country` column
   keeps its text.
2. **Left join by country.** For each GDP row, in table order, the code finds the first life-expectancy row with the
   same `country` (`Array.prototype.find` with `===`). It then builds the record `{country, gdp: row, lifeExpectancy: match}`.
   The match is `undefined` when no row has that country.

Modules:

- `Options` (options.dfy): `Option`. `None` stands for `undefined`.
- `Rows` (rows.dfy): loaded rows (`CsvRow`), converted rows (`Row`), the property view of a row (`Field`, `Columns`), and the
  conversion of one row and of one table.
- `Join` (join.dfy): the first-match lookup (`Find`), the lookup as a loop (`FindScan`), the left join (`LeftJoin`), and a
  reference join through an index that keeps the first row per country (`IndexByCountry`, `IndexedJoin`).
- `Pipeline` (pipeline.dfy): conversion followed by the join, stated against the loaded tables.

Modelling decisions:

- Text-to-number conversion is the parameter `parse: string -> Num`, and `Num` is an abstract type. NaN and the rest of
  JavaScript number semantics stay out of the proofs.
- A converted row is `Row(country, years)`. `country` is `Option<string>`, and `years` maps every other column to a `Num`.
  The key is therefore never a number, and comparing keys with `===` is equality of `Option<string>`.
- A loaded row with no `country` column: the statement `d.country = d.country` creates the property and stores `undefined`
  in it. So the converted row's column set is the loaded column set plus `country`, and its key is `None`. Because
  `undefined === undefined` holds, such a GDP row matches the first life-expectancy row that also has no `country`. The
  model keeps this behaviour.
- The two `forEach` loops mutate the loaded rows in place, and the join then refers to those same objects. The model
  computes new rows instead. Each joined record holds the converted row itself.

## Model

| member | source | states |
|---|---|---|
| Rows.ConvertRow | script.js:12-19 | The converted row keeps `country` exactly as loaded. Every other loaded column reads back as `parse` of its text. Reading an own property the row did not have gives `undefined`. The column set is the loaded set plus `country`. |
| Rows.ConvertTable | script.js:12-28 | Conversion keeps the number and the order of rows: row `i` of the result is row `i` of the table, converted. |
| Rows.ConvertTableCountriesIndependentOfParse | script.js:13-17 | Conversion changes only the non-key columns. Each row's key and its set of numeric columns do not depend on the text-to-number function. |
| Join.Find | script.js:32 | The lookup returns nothing exactly when no row has the key. Otherwise it returns a row that has the key, with no earlier row having it. |
| Join.FindReturnsFirstMatch | script.js:32 | Whenever row `i` is the first row with the key, the lookup returns exactly row `i`. |
| Join.FindScan | script.js:32 | A front-to-back scan that stops at the first row with the key returns the first match, or nothing exactly when no row has the key. Its result is the functional lookup's result. |
| Join.LeftJoin | script.js:31-38 | There is one record per GDP row, in order. Record `i` has row `i`'s key and holds GDP row `i` itself. Its life-expectancy part is the first life-expectancy row with that key. It is absent exactly when no such row exists. A present match is a row of the life-expectancy table with the record's key. |
| Join.RightOnlyRowsDropped | script.js:31-38 | If a life-expectancy row's key is the key of no GDP row, that row appears in no record. |
| Join.LeftJoinAppend | script.js:31 | The join works row by row: joining a concatenation of GDP tables gives the concatenation of their joins. |
| Join.IndexAgreesWithFind | script.js:32 | An index that keeps the first row per key gives the same answer as the linear scan, for every key. |
| Join.IndexedJoinIsLeftJoin | script.js:31-38 | Replacing the scan with that index changes no record of the join. |
| Pipeline.MergeTables | script.js:12-38 | Stated against the loaded tables, there is one record per GDP row, in order. Each record carries its converted GDP row. Its life-expectancy part is the converted first loaded row with the same key, and it is absent exactly when no loaded row has that key. |
| Pipeline.MatchesIndependentOfParse | script.js:12-32 | Whether a record has a life-expectancy match does not depend on the text-to-number function. |
| Pipeline.SampleJoin | script.js:12-38 | Worked example: GDP rows `A` and `B`, and life-expectancy row `A`. `A` gets both rows with their year-2000 values converted. `B` gets no life-expectancy row. |

## Left out

- Loading the two CSV files with `Promise.all` and `d3.csv` (script.js:7-10): this is asynchronous I/O through a library.
  The loaded tables are inputs instead.
- The semantics of unary `+` on text, NaN included (script.js:16, 25): this is floating-point number parsing. It is the
  abstract parameter `parse`.
- Rows.ConvertRow: property reads are own-property reads. A name inherited from `Object.prototype` (`toString`, `constructor`, ...) reads as `undefined` in the model, whereas JavaScript returns the inherited value. The join reads only `country`, which is never inherited.
- Object-key enumeration details of `for (let year in d)`, such as inherited enumerable properties (script.js:14, 23):
  rows are plain maps. Each column is converted exactly once.
- `createBubbleChart` (script.js:45-129) is not part of this model:
  - the scales built with `d3.scaleLinear`, `d3.scaleSqrt` and `d3.max`, which depend on a foreign library and floating point;
  - the SVG, axis, label and circle rendering, and the tooltip with its mouse events, which are UI and DOM;
  - the random fill colour, which is nondeterministic and only affects presentation.
