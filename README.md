# spreadsheet-models in Dafny

A model of the spreadsheet-models helper library for a hosted spreadsheet
scripting environment. The library maps the rows of a named sheet (a header
row followed by data rows) to records keyed by a schema's `fields`, and back:
`getData` and `getRows` read, `appendRow`, `appendRows` and `updateRow`
write, `createSheet` provisions a sheet, and `fillWithUnderScore` pads a
string. Two versions are modelled: `src/lib/model.ts` (module `SheetLib`)
and the older root `model.ts` (module `LegacyModel`).

Modules:

- `Outcomes` (outcomes.dfy): `Option`, the errors a call can throw, `Result`.
- `Records` (records.dfy): cells (`Str`, `Int`, `Bool`), the loose-equality
  blank test, and records as insertion-ordered association lists with unique
  keys; `Set` is the JavaScript property assignment (an existing key is
  overwritten in place, a new key goes last). Since keys are unique, a
  record holding the pair `(k, v)` is the statement `r[k] == v`.
- `Workbook` (workbook.dfy): an in-memory stand-in for the backend. The
  class `Spreadsheet` holds the sheets by name; each sheet is a grid of
  cells, a hidden flag and a list of protections. The backend calls the
  library makes that change something (`insertSheet`, `hideSheet`,
  `appendRow`, `getRange(...).setValues`, `protect` and the protection
  setters) are small methods that update the sheet state in place;
  `getLastRow` is a read. `getDataRange().getValues()` is the grid padded
  with blank cells to its widest row.
- `Mapping` (mapping.dfy): the logic both versions share: the decoding
  loops of `getData` proved against `DecodeAll`, the `getRows` counter, the
  encoding of records to rows, the header row and the protection step of
  `createSheet`, and the lemmas about decoding.
- `Padding` (padding.dfy): the loop of `fillWithUnderScore` and its
  specification `Filled`.
- `SheetLib` (sheetlib.dfy) and `LegacyModel` (legacy.dfy): the operations
  of the two versions.

How the code decides some corners, and how the model follows it:

- The blank test is JavaScript's loose `value[c] != ""`. It is false for
  `""`, for `0` and for `false`. So a row holding only zeros and `false` in
  its mapped columns ends the data (`Mapping.ZeroAndFalseAreBlank`): 0 and
  false count as blank because the comparison is loose.
- A row wider than `fields` reads `fields[c]` as `undefined`. That is not
  equal to `""`, so the column is kept under the key `"undefined"` and
  counts as data (`Mapping.FieldAt`, `Mapping.ColumnPastFieldsExample`).
- With two columns mapped to the same field, the later cell overwrites the
  earlier one, while the has-data flag is computed from the cells. A row
  with data can therefore yield a record whose values are all blank
  (`Mapping.DuplicateFieldCanBlankARecord`). With distinct mapped fields, a
  record read from a row with data is guaranteed to hold a non-blank value
  (`Mapping.RecordOfDataRowIsNotBlank`); with a repeated field it may not.
- Errors are values. A missing sheet gives `Thrown(message)` with the
  library's own message. The older `getData` fails with `NullDereference`
  instead, since it calls `getDataRange` on null. A range that starts above
  row 1 or has no columns gives `InvalidRange`, which is the backend's
  refusal. This happens for `updateRow` with `row < 1` or an empty record,
  and for `appendRows` with records that have no keys.

## Model

| member | source | states |
|---|---|---|
| `SheetLib.GetData` | src/lib/model.ts:13-43 | a missing sheet throws "Spreadsheet not found"; otherwise the result is the decoding of the rows below the header, and the spreadsheet is only read |
| `SheetLib.GetRows` | src/lib/model.ts:54-59 | the same error as getData; otherwise exactly getData's records in order, the k-th paired with row `firstDataRow + k`, with `firstDataRow` defaulting to 2 |
| `SheetLib.AppendRow` | src/lib/model.ts:68-77 | a missing sheet throws "... does not exist" and changes nothing; otherwise exactly one row is added below the last: the record's values in its key order. Nothing else changes |
| `SheetLib.AppendRows` | src/lib/model.ts:85-102 | an empty list returns before the lookup and changes nothing, even if the sheet is missing; otherwise a missing sheet throws "... is not created"; otherwise the rows become the old rows followed by each record's values in input order and key order |
| `SheetLib.UpdateRow` | src/lib/model.ts:110-120 | a missing sheet throws "... is not created"; otherwise row `row.row` takes the record's values in columns 1 to the number of keys, and every other cell of every sheet keeps its value |
| `SheetLib.CreateSheet` | src/lib/model.ts:127-155 | the sheet is created only if absent and other sheets are untouched; hidden is set, never cleared; row 1 holds `columns` when non-empty; protections gain exactly `ProtectionsAdded` |
| `SheetLib.CreateSheetTwice` | src/lib/model.ts:131-132 | two calls never make a second sheet of that name, and leave two protections when `protected` |
| `SheetLib.FillWithUnderScore` | src/lib/model.ts:166-172 | the result has length max(len, length of `str`), starts with `str`, and is '_' after it |
| `LegacyModel.GetData` | model.ts:11-38 | no existence check: a missing sheet fails on the null dereference; otherwise the same decoding of the rows below the header |
| `LegacyModel.GetRows` | model.ts:49-54 | getData's records in order, the k-th paired with `firstDataRow + k`, default 2 |
| `LegacyModel.CreateSheet` | model.ts:62-90 | reuses or creates the sheet named by `sheet`; hidden is set, never cleared; row 1 holds `columns` when non-empty; protections gain exactly `LegacyProtectionsAdded` |
| `LegacyModel.ProtectionsAddedAgree` | model.ts:82-89 | the two versions add the same protection when the exempted range is given; when it is absent the older one exempts it as undefined and the newer one exempts nothing |
| `LegacyModel.FillWithUnderScore` | model.ts:101-107 | pads with '_' up to `len` and never truncates |
| `Mapping.DecodeValues` | src/lib/model.ts:20-42 | the outer loop returns exactly `DecodeAll` of the data rows |
| `Mapping.DecodeRow` | src/lib/model.ts:22-36 | the inner loop builds `EntryOf` the row, and its flag is true exactly when a column that is not skipped holds a non-blank cell |
| `Mapping.DecodeAll` | src/lib/model.ts:21-41 | at most one record per data row; the k-th is the record of row k, which has data; the row right after the last record, if any, has no data |
| `Mapping.DecodeAllIsLongestRun` | src/lib/model.ts:37-40 | conversely, any record sequence with those properties equals DecodeAll, so the result is the longest leading run of rows with data |
| `Mapping.RunLengthSpec` | src/lib/model.ts:37-39 | every row within the run has data and the row that ends it has none |
| `Mapping.RunLengthUnique` | src/lib/model.ts:37-39 | the run length is the only count with that property |
| `Mapping.StopsAtFirstBlankRow` | src/lib/model.ts:37-39 | rows below the first row without data are never read: two grids that agree down to it decode alike |
| `Mapping.DecodedFromRowsBelowHeader` | src/lib/model.ts:18-19 | the header row is dropped: an empty sheet gives no records, otherwise at most one fewer than its rows, and the data rows are the cells from row 2 down |
| `Mapping.SkippedColumnIgnored` | src/lib/model.ts:29-31 | a column whose field is "" is not stored: changing its cell leaves the record unchanged |
| `Mapping.SkippedColumnNotCounted` | src/lib/model.ts:29-34 | nor does such a column count toward the row having data |
| `Mapping.EntryKeys` | src/lib/model.ts:25-36 | a key is in the record exactly when some kept column has it as its field |
| `Mapping.EntryValue` | src/lib/model.ts:35 | the record holds each kept column's field paired with that column's cell, provided no later column has the same field; a later column overwrites an earlier one |
| `Mapping.RecordOfDataRowIsNotBlank` | src/lib/model.ts:32-40 | with distinct fields, a record read from a row with data holds a non-blank value |
| `Mapping.DuplicateFieldCanBlankARecord` | src/lib/model.ts:32-35 | with a repeated field, a row with data can give a record whose only value is blank |
| `Mapping.StopsAtBlankRowExample` | src/lib/model.ts:37-39 | rows {a:"1"}, {}, {a:"3"} read as just [{a:"1"}] |
| `Mapping.ZeroAndFalseAreBlank` | src/lib/model.ts:32 | a row of 0 and false has no data and ends the read |
| `Mapping.ColumnPastFieldsExample` | src/lib/model.ts:29-35 | a column past the end of `fields` is stored under "undefined" and counts as data |
| `Mapping.DataBeforeNextColumn` | src/lib/model.ts:32-34 | one more column sets the flag exactly when it is kept and not blank, and leaves it set otherwise |
| `Mapping.DecodeEncodeAll` | src/lib/model.ts:85-102 | round trip: decoding the rows appendRows writes gives back the records, when each is keyed by the leading non-empty fields and holds a non-blank value |
| `Mapping.EncodeDecodeAll` | src/lib/model.ts:97-99 | the other direction: with non-empty distinct fields covering every column, encoding the decoded records gives back the rows they were read from |
| `Mapping.RecordRoundTrip` | src/lib/model.ts:76 | a record keyed by the leading fields in order reads back unchanged from its written row |
| `Mapping.EncodeDecodeRow` | src/lib/model.ts:76 | round trip: with non-empty distinct fields, the record read from a row has the fields as keys in column order, and writing it back gives the same cells |
| `Mapping.NumberRows` | src/lib/model.ts:55-58 | the counter closure pairs the k-th record with `firstDataRow + k` |
| `Mapping.ProtectSheet` | src/lib/model.ts:148-153 | exactly one protection is appended, with the given description, exemptions and warning-only set; nothing else changes |
| `Records.KeysAfterSet` | src/lib/model.ts:35 | after an assignment the keys are the old keys and the assigned one |
| `Records.AssignNewKey` | src/lib/model.ts:35 | assigning a key the record lacks appends it last, with its value after all the others |
| `Records.AssignExistingKey` | src/lib/model.ts:35 | assigning a key the record has keeps every key in its position |
| `Records.SetHolds` | src/lib/model.ts:35 | after `r[k] = v` the record holds `v` under `k` |
| `Records.SetKeepsOthers` | src/lib/model.ts:35 | an assignment leaves every property under another key as it was, neither adding nor removing one |
| `Records.OneValuePerKey` | src/lib/model.ts:35 | a record holds at most one value under a key, so holding `(k, v)` means `r[k]` is `v` |
| `Workbook.DataRange` | src/lib/model.ts:18 | the data range has one row per grid row, each as wide as the widest, holding the grid's cells |
| `Workbook.Width` | src/lib/model.ts:18 | the data range's width is the length of the widest row |
| `Workbook.WriteRowAt` | src/lib/model.ts:119 | writing a row changes only that row's first cells, and a row below the last grows the grid |
| `Workbook.WriteBlock` | src/lib/model.ts:101 | writing a block changes only the cells it covers |
| `Workbook.WriteBlockAtEnd` | src/lib/model.ts:101 | a block written from `getLastRow() + 1` appends exactly its rows |
| `Workbook.Spreadsheet.SetValues` | src/lib/model.ts:101 | a range above row 1 or without rows or columns is refused; otherwise the block is written from the given row, column 1 |
| `Workbook.Spreadsheet.AppendRow` | src/lib/model.ts:76 | one row is added below the last |
| `Workbook.Spreadsheet.InsertSheet` | src/lib/model.ts:132 | a new sheet is empty, visible and unprotected |
| `Workbook.Spreadsheet.HideSheet` | src/lib/model.ts:135 | only the hidden flag is set |
| `Workbook.Spreadsheet.Protect` | src/lib/model.ts:148 | a new protection is appended |
| `Workbook.Spreadsheet.SetDescription` | src/lib/model.ts:148 | only that protection's description changes |
| `Workbook.Spreadsheet.SetUnprotectedRanges` | src/lib/model.ts:151 | only that protection's exempted ranges change |
| `Workbook.Spreadsheet.SetWarningOnly` | src/lib/model.ts:153 | only that protection's warning-only flag changes |
| `Padding.Filled` | src/lib/model.ts:157-172 | the padded string has length max(len, length of `str`), starts with `str`, and is '_' after it |
| `Padding.FilledUnique` | src/lib/model.ts:157-172 | those three properties determine the padded string |
| `Padding.FilledIdempotent` | src/lib/model.ts:166-172 | padding twice to the same length is padding once |
| `Padding.FillExamples` | src/lib/model.ts:166-172 | "ab" to 5 is "ab___", "abcdef" to 3 is unchanged, "" to 0 is "" |
| `Padding.FillWithUnderScore` | src/lib/model.ts:167-171 | the loop returns exactly `Filled(str, len)` |

## Left out

- Header styling (background, font weight, font colour) and `autoResizeColumns` in `createSheet`: cosmetic calls into the backend with no state the model keeps.
- Resolving the A1 address of `unprotectedRange` (or `unprotected`) to a range: the address is stored as given on the protection, and an undefined address in the older version is stored as `None`. What the backend does with an undefined address is not modelled.
- `getLastRow` is the number of rows the grid holds, and `getDataRange` is as wide as the widest row. Trailing rows and trailing columns whose cells are all explicitly blank are still counted; the hosted backend stops at the last row and column with content. A blank cell past the end of `fields` can therefore appear in a record under "undefined" where the hosted backend would not read it.
- `protect()` in the model always appends a new protection, so repeated `createSheet` calls accumulate protections. The hosted backend hands back the sheet's existing protection instead; that is not modelled.
- Backend refusals other than a bad range: hiding the only visible sheet, writing values whose shape differs from the range, and appending an empty row. `appendRows` requires all records to have the same number of keys, instead of modelling the backend's refusal of ragged input.
- `Object.keys` listing integer-like keys first in ascending order, the special key "__proto__" (assigning it creates no own property, while the model's `Set` adds it like any other key), and Date, float or NaN cell values under loose equality: keys are assumed non-numeric and cells are strings, integers or booleans.
- `getDataRange` on an empty sheet returns one blank cell in the hosted backend; the model returns no rows. Both give no records once the header is dropped.
- Mapping.DecodeEncodeAll: decodes the written rows themselves, not the sheet's data range; a record narrower than the widest row reads back through `getDataRange` with the missing fields as blank strings.
- Workbook.Spreadsheet.SetValues: stores the written cells exactly as given. The hosted backend parses text as typed input: "0" or "007" becomes a number, "TRUE" a boolean, date-like text a Date. So after writing "0" the hosted sheet holds 0, which the blank test treats as empty, and `getData` stops there; the model reads "0" back. It also has no sheet size: the hosted backend refuses a range past the sheet's last row or column (a new sheet is 1000 rows by 26 columns), so `createSheet` with more than 26 columns, and `updateRow` or `appendRows` past the last row, throw there, while the model grows the grid and succeeds.
- Workbook.Spreadsheet.AppendRow: stores the appended cells exactly as given; the hosted backend parses number-, boolean- and date-like text in the row as typed input, with the same effect on the blank test as for `SetValues`.
- Formulas: the model stores written cells as given. The hosted `setValues` and `appendRow` treat a string starting with "=" as a formula, and the cell then reads back as the formula's value.
- A non-integer `len` in `fillWithUnderScore`: `len` is an integer.
- Padding.Filled: lengths are counted in Unicode scalar values, not in the UTF-16 code units JavaScript's `length` counts, so a string with a character outside the Basic Multilingual Plane gets one more underscore than the library appends.
- Padding.FillWithUnderScore: counts length in Unicode scalar values, not UTF-16 code units, as for `Padding.Filled`.
- SheetLib.FillWithUnderScore: counts length in Unicode scalar values, not UTF-16 code units, as for `Padding.Filled`.
- LegacyModel.FillWithUnderScore: counts length in Unicode scalar values, not UTF-16 code units, as for `Padding.Filled`.
- The transpiled copy `build/gas/Code.js`, its declarations `build/gas/Code.d.ts` and the build ordering in `src/index.ts` have no behaviour of their own beyond `src/lib/model.ts`.
- Concurrency and the host's serialisation of script runs.
