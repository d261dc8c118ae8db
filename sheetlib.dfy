/**
 * The sheet mapper of the `SheetLib` namespace: reading a named sheet into
 * records, appending and updating rows from records, and provisioning a
 * sheet from its schema, against the active spreadsheet.
 */
module SheetLib {
  import opened Outcomes
  import opened Records
  import opened Workbook
  import opened Mapping
  import Padding

  /**
   * The schema of one sheet. `fields[c]` names the property for column c
   * ("" skips the column). The optional `hidden` and `protected` flags read
   * as false when absent; `unprotectedRange` is an A1 address or absent.
   */
  datatype Sheet = Sheet(
    name: string,
    columns: seq<string>,
    fields: seq<string>,
    hidden: bool,
    protected: bool,
    unprotectedRange: Option<string>)

  /** The records of the named sheet, or the "Spreadsheet not found" error. The spreadsheet is only read. */
  method GetData(ss: Spreadsheet, sheet: Sheet) returns (r: Result<seq<Record>>)
    ensures sheet.name !in ss.sheets ==> r == Failure(Thrown("Spreadsheet not found"))
    ensures sheet.name in ss.sheets ==> r == Success(DecodeAll(sheet.fields, DataRows(ss.sheets[sheet.name].rows)))
  {
    if sheet.name !in ss.sheets {
      return Failure(Thrown("Spreadsheet not found"));
    }
    var values := DataRange(ss.sheets[sheet.name].rows);
    if |values| > 0 {
      values := values[1..];
    }
    var entries := DecodeValues(sheet.fields, values);
    return Success(entries);
  }

  /** The records of `getData`, the k-th paired with row `firstDataRow + k`. */
  method GetRows(ss: Spreadsheet, sheet: Sheet, firstDataRow: int := 2) returns (r: Result<seq<Row>>)
    ensures sheet.name !in ss.sheets ==> r == Failure(Thrown("Spreadsheet not found"))
    ensures sheet.name in ss.sheets ==>
              var records := DecodeAll(sheet.fields, DataRows(ss.sheets[sheet.name].rows));
              && r.Success? && |r.value| == |records|
              && forall k :: 0 <= k < |records| ==> r.value[k] == Row(records[k], firstDataRow + k)
  {
    var data := GetData(ss, sheet);
    if data.Failure? {
      return Failure(data.error);
    }
    var rows := NumberRows(data.value, firstDataRow);
    return Success(rows);
  }

  /** Appends the record's values, in its key order, as a new last row of the named sheet. */
  method AppendRow(ss: Spreadsheet, sheetModel: Sheet, data: Record) returns (r: Result<()>)
    modifies ss
    ensures sheetModel.name !in old(ss.sheets) ==>
              r == Failure(Thrown("The spreadsheet with the name " + sheetModel.name + " does not exist")) &&
              ss.sheets == old(ss.sheets)
    ensures sheetModel.name in old(ss.sheets) ==>
              r == Success(()) &&
              ss.sheets == old(ss.sheets)[sheetModel.name := old(ss.sheets[sheetModel.name]).(rows := old(ss.sheets[sheetModel.name].rows) + [Values(data)])]
  {
    if sheetModel.name !in ss.sheets {
      return Failure(Thrown("The spreadsheet with the name " + sheetModel.name + " does not exist"));
    }
    ss.AppendRow(sheetModel.name, Values(data));
    return Success(());
  }

  /**
   * Appends the records, each as its values in key order, below the last row
   * of the named sheet in one block write. Nothing is looked up or written
   * for an empty list. The records all have the same number of keys.
   */
  method AppendRows(ss: Spreadsheet, sheetModel: Sheet, rows: seq<Record>) returns (r: Result<()>)
    requires forall i :: 0 <= i < |rows| ==> |rows[i]| == |rows[0]|
    modifies ss
    ensures rows == [] ==> r == Success(()) && ss.sheets == old(ss.sheets)
    ensures rows != [] && sheetModel.name !in old(ss.sheets) ==>
              r == Failure(Thrown("The spreadsheet with the name " + sheetModel.name + " is not created")) &&
              ss.sheets == old(ss.sheets)
    ensures rows != [] && sheetModel.name in old(ss.sheets) && |rows[0]| == 0 ==>
              r == Failure(InvalidRange) && ss.sheets == old(ss.sheets)
    ensures rows != [] && sheetModel.name in old(ss.sheets) && |rows[0]| > 0 ==>
              r == Success(()) &&
              ss.sheets == old(ss.sheets)[sheetModel.name := old(ss.sheets[sheetModel.name]).(rows := old(ss.sheets[sheetModel.name].rows) + Encode(rows))]
  {
    if |rows| == 0 {
      return Success(());
    }
    if sheetModel.name !in ss.sheets {
      return Failure(Thrown("The spreadsheet with the name " + sheetModel.name + " is not created"));
    }
    var dataValues := Encode(rows);
    ghost var before := ss.sheets[sheetModel.name].rows;
    WriteBlockAtEnd(before, dataValues);
    r := ss.SetValues(sheetModel.name, ss.GetLastRow(sheetModel.name) + 1, |dataValues|, |dataValues[0]|, dataValues);
  }

  /**
   * Overwrites row `row.row` of the named sheet, from column 1, with the
   * record's values in key order; every other cell keeps its value.
   */
  method UpdateRow(ss: Spreadsheet, sheetModel: Sheet, row: Row) returns (r: Result<()>)
    modifies ss
    ensures sheetModel.name !in old(ss.sheets) ==>
              r == Failure(Thrown("The spreadsheet with the name " + sheetModel.name + " is not created")) &&
              ss.sheets == old(ss.sheets)
    ensures sheetModel.name in old(ss.sheets) && (row.row < 1 || |row.data| == 0) ==>
              r == Failure(InvalidRange) && ss.sheets == old(ss.sheets)
    ensures sheetModel.name in old(ss.sheets) && row.row >= 1 && |row.data| > 0 ==>
              r == Success(()) &&
              ss.sheets == old(ss.sheets)[sheetModel.name := old(ss.sheets[sheetModel.name]).(rows := WriteRowAt(old(ss.sheets[sheetModel.name].rows), row.row - 1, Values(row.data)))] &&
              forall i, j :: CellAt(ss.sheets[sheetModel.name].rows, i, j) ==
                               if i == row.row - 1 && 0 <= j < |row.data| then row.data[j].1
                               else CellAt(old(ss.sheets[sheetModel.name].rows), i, j)
  {
    if sheetModel.name !in ss.sheets {
      return Failure(Thrown("The spreadsheet with the name " + sheetModel.name + " is not created"));
    }
    var values := Values(row.data);
    r := ss.SetValues(sheetModel.name, row.row, 1, |values|, [values]);
    if r.Success? {
      ghost var g := old(ss.sheets[sheetModel.name].rows);
      assert WriteBlock(g, row.row - 1, [values]) == WriteRowAt(g, row.row - 1, values);
    }
  }

  /**
   * Creates the sheet when absent, hides it when asked, writes the header
   * row when there are columns, and adds a warning-only protection named
   * after the sheet when asked, exempting `unprotectedRange` when that is a
   * non-empty address. Formatting and column sizing are not modelled.
   */
  method CreateSheet(ss: Spreadsheet, sheetModel: Sheet)
    modifies ss
    ensures var before := if sheetModel.name in old(ss.sheets) then old(ss.sheets[sheetModel.name]) else NewSheet;
            ss.sheets == old(ss.sheets)[sheetModel.name := SheetState(
              rows := if |sheetModel.columns| > 0 then WriteRowAt(before.rows, 0, HeaderCells(sheetModel.columns)) else before.rows,
              hidden := before.hidden || sheetModel.hidden,
              protections := before.protections + ProtectionsAdded(sheetModel))]
    ensures forall j :: 0 <= j < |sheetModel.columns| ==> CellAt(ss.sheets[sheetModel.name].rows, 0, j) == Str(sheetModel.columns[j])
  {
    var name := sheetModel.name;
    if name !in ss.sheets {
      ss.InsertSheet(name);
    }
    if sheetModel.hidden {
      ss.HideSheet(name);
    }
    if |sheetModel.columns| > 0 {
      var header := HeaderCells(sheetModel.columns);
      ghost var g := ss.sheets[name].rows;
      var _ := ss.SetValues(name, 1, 1, |header|, [header]);
      assert WriteBlock(g, 0, [header]) == WriteRowAt(g, 0, header);
    }
    if sheetModel.protected {
      var exempt := if sheetModel.unprotectedRange.Some? && sheetModel.unprotectedRange.value != "" then [sheetModel.unprotectedRange] else [];
      ProtectSheet(ss, name, exempt);
    } else {
      assert ss.sheets[name].protections + ProtectionsAdded(sheetModel) == ss.sheets[name].protections;
    }
  }

  /** The protection `createSheet` adds: none, or one described after the sheet, warning only, exempting a non-empty range. */
  function ProtectionsAdded(sheetModel: Sheet): (ps: seq<Protection>)
    ensures |ps| == if sheetModel.protected then 1 else 0
    ensures sheetModel.protected ==>
              ps[0].description == sheetModel.name + " protection" && ps[0].warningOnly &&
              ps[0].unprotectedRanges == if sheetModel.unprotectedRange.Some? && sheetModel.unprotectedRange.value != "" then [sheetModel.unprotectedRange] else []
  {
    if !sheetModel.protected then []
    else
      var exempt := if sheetModel.unprotectedRange.Some? && sheetModel.unprotectedRange.value != "" then [sheetModel.unprotectedRange] else [];
      [Protection(sheetModel.name + " protection", exempt, true)]
  }

  /**
   * Calling `createSheet` twice never adds a second sheet of that name, but a
   * protected schema leaves one more protection per call.
   */
  method CreateSheetTwice(ss: Spreadsheet, sheetModel: Sheet)
    modifies ss
    ensures ss.sheets.Keys == old(ss.sheets.Keys) + {sheetModel.name}
    ensures forall n :: n in old(ss.sheets) && n != sheetModel.name ==> ss.sheets[n] == old(ss.sheets[n])
    ensures var before := if sheetModel.name in old(ss.sheets) then old(ss.sheets[sheetModel.name]) else NewSheet;
            ss.sheets[sheetModel.name].protections == before.protections + ProtectionsAdded(sheetModel) + ProtectionsAdded(sheetModel)
  {
    CreateSheet(ss, sheetModel);
    CreateSheet(ss, sheetModel);
  }

  /** `fillWithUnderScore(str, len)` */
  method FillWithUnderScore(str: string, len: int) returns (r: string)
    ensures |r| == if len <= |str| then |str| else len
    ensures r[..|str|] == str
    ensures forall i :: |str| <= i < |r| ==> r[i] == '_'
  {
    r := Padding.FillWithUnderScore(str, len);
  }
}
