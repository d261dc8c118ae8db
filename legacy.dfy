/**
 * The older, global version of the mapper: the schema names its sheet with
 * `sheet` and its exempted range with `unprotected`, reading data does not
 * check that the sheet exists, and there are no append or update operations. The
 * row-to-record mapping is the same as in `SheetLib`.
 */
module LegacyModel {
  import opened Outcomes
  import opened Records
  import opened Workbook
  import opened Mapping
  import Padding
  import SheetLib

  /** The older schema: `unprotected` may be absent (undefined). */
  datatype LegacySheet = LegacySheet(
    sheet: string,
    columns: seq<string>,
    fields: seq<string>,
    hidden: bool,
    protected: bool,
    unprotected: Option<string>)

  /**
   * The records of the named sheet. A missing sheet is not checked for: the
   * call fails by calling `getDataRange` on null.
   */
  method GetData(ss: Spreadsheet, sheetModel: LegacySheet) returns (r: Result<seq<Record>>)
    ensures sheetModel.sheet !in ss.sheets ==> r == Failure(NullDereference)
    ensures sheetModel.sheet in ss.sheets ==> r == Success(DecodeAll(sheetModel.fields, DataRows(ss.sheets[sheetModel.sheet].rows)))
  {
    if sheetModel.sheet !in ss.sheets {
      return Failure(NullDereference);
    }
    var values := DataRange(ss.sheets[sheetModel.sheet].rows);
    if |values| > 0 {
      values := values[1..];
    }
    var entries := DecodeValues(sheetModel.fields, values);
    return Success(entries);
  }

  /** The records of `getData`, the k-th paired with row `firstDataRow + k`. */
  method GetRows(ss: Spreadsheet, sheet: LegacySheet, firstDataRow: int := 2) returns (r: Result<seq<Row>>)
    ensures sheet.sheet !in ss.sheets ==> r == Failure(NullDereference)
    ensures sheet.sheet in ss.sheets ==>
              var records := DecodeAll(sheet.fields, DataRows(ss.sheets[sheet.sheet].rows));
              && r.Success? && |r.value| == |records|
              && forall k :: 0 <= k < |records| ==> r.value[k] == Row(records[k], firstDataRow + k)
  {
    var data := GetData(ss, sheet);
    if data.Failure? {
      return Failure(data.error);
    }
    var rows := NumberRows(data.value, firstDataRow);
    return Success(rows);
  }

  /** The protection the older `createSheet` adds: its exemption is taken whenever `unprotected` is not exactly "", undefined included. */
  function LegacyProtectionsAdded(sheetModel: LegacySheet): (ps: seq<Protection>)
    ensures |ps| == if sheetModel.protected then 1 else 0
    ensures sheetModel.protected ==>
              ps[0].description == sheetModel.sheet + " protection" && ps[0].warningOnly &&
              ps[0].unprotectedRanges == if sheetModel.unprotected != Some("") then [sheetModel.unprotected] else []
  {
    if !sheetModel.protected then []
    else
      var exempt := if sheetModel.unprotected != Some("") then [sheetModel.unprotected] else [];
      [Protection(sheetModel.sheet + " protection", exempt, true)]
  }

  /**
   * The two versions protect alike when the exempted range is given; when it
   * is absent the older one still exempts it (as undefined) while the newer
   * one exempts nothing.
   */
  lemma ProtectionsAddedAgree(current: SheetLib.Sheet, older: LegacySheet)
    requires current.name == older.sheet && current.protected == older.protected
    requires current.unprotectedRange == older.unprotected
    ensures older.unprotected.Some? ==> LegacyProtectionsAdded(older) == SheetLib.ProtectionsAdded(current)
    ensures older.protected && older.unprotected.None? ==>
              LegacyProtectionsAdded(older)[0].unprotectedRanges == [None] &&
              SheetLib.ProtectionsAdded(current)[0].unprotectedRanges == []
  {
  }

  /**
   * Reuses or creates the sheet, hides it when asked, writes the header row
   * when there are columns, and adds a warning-only protection when asked.
   */
  method CreateSheet(ss: Spreadsheet, sheetModel: LegacySheet)
    modifies ss
    ensures var before := if sheetModel.sheet in old(ss.sheets) then old(ss.sheets[sheetModel.sheet]) else NewSheet;
            ss.sheets == old(ss.sheets)[sheetModel.sheet := SheetState(
              rows := if |sheetModel.columns| > 0 then WriteRowAt(before.rows, 0, HeaderCells(sheetModel.columns)) else before.rows,
              hidden := before.hidden || sheetModel.hidden,
              protections := before.protections + LegacyProtectionsAdded(sheetModel))]
    ensures forall j :: 0 <= j < |sheetModel.columns| ==> CellAt(ss.sheets[sheetModel.sheet].rows, 0, j) == Str(sheetModel.columns[j])
  {
    var name := sheetModel.sheet;
    if name !in ss.sheets {
      ss.InsertSheet(name);
    }
    if sheetModel.hidden {
      ss.HideSheet(name);
    }
    if |sheetModel.columns| > 0 {
      var header := HeaderCells(sheetModel.columns);
      ghost var g := ss.sheets[name].rows;
      var _ := ss.SetValues(name, 1, 1, |header|, [header]);
      assert WriteBlock(g, 0, [header]) == WriteRowAt(g, 0, header);
    }
    if sheetModel.protected {
      var exempt := if sheetModel.unprotected != Some("") then [sheetModel.unprotected] else [];
      ProtectSheet(ss, name, exempt);
    } else {
      assert ss.sheets[name].protections + LegacyProtectionsAdded(sheetModel) == ss.sheets[name].protections;
    }
  }

  /** `fillWithUnderScore(str, len)`, the same loop as in `SheetLib`. */
  method FillWithUnderScore(str: string, len: int) returns (r: string)
    ensures |r| == if len <= |str| then |str| else len
    ensures r[..|str|] == str
    ensures forall i :: |str| <= i < |r| ==> r[i] == '_'
  {
    r := Padding.FillWithUnderScore(str, len);
  }
}
