/**
 * The row-to-record mapping shared by both versions of the library: how a row
 * of cells becomes a record under a schema's `fields`, where reading stops,
 * how records are numbered with their rows, and how a record is written back.
 */
module Mapping {
  import opened Outcomes
  import opened Records
  import opened Workbook

  /** A record together with the 1-based row it was read from. */
  datatype Row = Row(data: Record, row: int)

  /**
   * The property name for column c: `fields[c]`, or "undefined" past the end
   * of `fields`, since JavaScript reads `undefined` there and uses its string
   * form as the key. Only a field that is exactly "" skips its column.
   */
  function FieldAt(fields: seq<string>, c: nat): string {
    if c < |fields| then fields[c] else "undefined"
  }

  predicate IsMapped(fields: seq<string>, c: nat) {
    FieldAt(fields, c) != ""
  }

  /** Some column before `n` that is not skipped holds a non-blank cell. */
  predicate DataBefore(fields: seq<string>, row: seq<Cell>, n: nat)
    requires n <= |row|
  {
    exists c :: 0 <= c < n && IsMapped(fields, c) && !IsBlank(row[c])
  }

  /** Some column of the row that is not skipped holds a non-blank cell. */
  predicate HasData(fields: seq<string>, row: seq<Cell>) {
    DataBefore(fields, row, |row|)
  }

  /** The record the inner loop has built after the first `n` columns, each assigned to its field in turn. */
  function EntryUpTo(fields: seq<string>, row: seq<Cell>, n: nat): Record
    requires n <= |row|
    decreases n
  {
    if n == 0 then []
    else
      var e := EntryUpTo(fields, row, n - 1);
      if FieldAt(fields, n - 1) == "" then e else Set(e, FieldAt(fields, n - 1), row[n - 1])
  }

  /** The record read from a whole row. */
  function EntryOf(fields: seq<string>, row: seq<Cell>): Record {
    EntryUpTo(fields, row, |row|)
  }

  /** How many rows from the top have data before the first that has none. */
  function RunLength(fields: seq<string>, values: seq<seq<Cell>>): (n: nat)
    ensures n <= |values|
    decreases |values|
  {
    if values == [] || !HasData(fields, values[0]) then 0
    else 1 + RunLength(fields, values[1..])
  }

  lemma {:induction false} RunLengthSpec(fields: seq<string>, values: seq<seq<Cell>>)
    ensures forall k :: 0 <= k < RunLength(fields, values) ==> HasData(fields, values[k])
    ensures RunLength(fields, values) < |values| ==> !HasData(fields, values[RunLength(fields, values)])
    decreases |values|
  {
    if values != [] && HasData(fields, values[0]) {
      RunLengthSpec(fields, values[1..]);
      assert forall k :: 1 <= k < |values| ==> values[k] == values[1..][k - 1];
    }
  }

  /** The run length is the only count of leading rows with data that is followed by a row without. */
  lemma {:induction false} RunLengthUnique(fields: seq<string>, values: seq<seq<Cell>>, m: nat)
    requires m <= |values|
    requires forall k :: 0 <= k < m ==> HasData(fields, values[k])
    requires m < |values| ==> !HasData(fields, values[m])
    ensures RunLength(fields, values) == m
    decreases m
  {
    if m > 0 {
      assert HasData(fields, values[0]);
      assert forall k :: 0 <= k < m - 1 ==> values[1..][k] == values[k + 1];
      RunLengthUnique(fields, values[1..], m - 1);
    }
  }

  /**
   * The records `getData` returns for the data rows `values` (header already
   * removed): one per row, in order, up to the first row that has no data.
   */
  function DecodeAll(fields: seq<string>, values: seq<seq<Cell>>): (rs: seq<Record>)
    ensures |rs| <= |values|
    ensures forall k :: 0 <= k < |rs| ==> HasData(fields, values[k]) && rs[k] == EntryOf(fields, values[k])
    ensures |rs| < |values| ==> !HasData(fields, values[|rs|])
  {
    RunLengthSpec(fields, values);
    var n := RunLength(fields, values);
    seq(n, k requires 0 <= k < n => EntryOf(fields, values[k]))
  }

  /** Conversely, any sequence of records with those three properties is what DecodeAll returns. */
  lemma DecodeAllIsLongestRun(fields: seq<string>, values: seq<seq<Cell>>, rs: seq<Record>)
    requires |rs| <= |values|
    requires forall k :: 0 <= k < |rs| ==> HasData(fields, values[k]) && rs[k] == EntryOf(fields, values[k])
    requires |rs| < |values| ==> !HasData(fields, values[|rs|])
    ensures rs == DecodeAll(fields, values)
  {
    RunLengthUnique(fields, values, |rs|);
  }

  /** The rows below the header: `values.shift()` on the data range. */
  function DataRows(g: Grid): Grid {
    if g == [] then [] else DataRange(g)[1..]
  }

  /** `getData` returns fewer records than the sheet has rows, each read from the row below the previous one. */
  lemma DecodedFromRowsBelowHeader(fields: seq<string>, g: Grid)
    ensures var rs := DecodeAll(fields, DataRows(g));
            && (g == [] ==> rs == [])
            && (g != [] ==> |rs| <= |g| - 1)
            && forall k, j :: 0 <= k < |rs| && 0 <= j < Width(g) ==> DataRows(g)[k][j] == CellAt(g, k + 1, j)
  {
  }

  /**
   * The sentinel: once a row without data is reached nothing below it is
   * read, so two grids that agree down to that row decode alike.
   */
  lemma {:induction false} StopsAtFirstBlankRow(fields: seq<string>, v1: seq<seq<Cell>>, v2: seq<seq<Cell>>, n: nat)
    requires n < |v1| && n < |v2| && v1[..n + 1] == v2[..n + 1]
    requires !HasData(fields, v1[n])
    ensures DecodeAll(fields, v1) == DecodeAll(fields, v2)
  {
    var r1 := DecodeAll(fields, v1);
    assert |r1| <= n;
    assert forall k :: 0 <= k <= n ==> v1[k] == v1[..n + 1][k] == v2[..n + 1][k] == v2[k];
    DecodeAllIsLongestRun(fields, v2, r1);
  }

  /** A column whose field is "" plays no part in the record: changing its cell leaves the record as it was. */
  lemma SkippedColumnIgnored(fields: seq<string>, row: seq<Cell>, c: nat, x: Cell)
    requires c < |row| && FieldAt(fields, c) == ""
    ensures EntryOf(fields, row[c := x]) == EntryOf(fields, row)
  {
    SkippedColumnIgnoredUpTo(fields, row, c, x, |row|);
  }

  lemma {:induction false} SkippedColumnIgnoredUpTo(fields: seq<string>, row: seq<Cell>, c: nat, x: Cell, n: nat)
    requires c < |row| && FieldAt(fields, c) == "" && n <= |row|
    ensures EntryUpTo(fields, row[c := x], n) == EntryUpTo(fields, row, n)
    decreases n
  {
    if n > 0 {
      SkippedColumnIgnoredUpTo(fields, row, c, x, n - 1);
      var e := EntryUpTo(fields, row, n - 1);
      var f := FieldAt(fields, n - 1);
      if f == "" {
        assert EntryUpTo(fields, row, n) == e;
      } else {
        assert row[c := x][n - 1] == row[n - 1];
        assert EntryUpTo(fields, row, n) == Set(e, f, row[n - 1]);
      }
    }
  }

  /** Nor does it count towards the row having data. */
  lemma SkippedColumnNotCounted(fields: seq<string>, row: seq<Cell>, c: nat, x: Cell)
    requires c < |row| && FieldAt(fields, c) == ""
    ensures HasData(fields, row[c := x]) == HasData(fields, row)
  {
    var row' := row[c := x];
    if HasData(fields, row) {
      var d :| 0 <= d < |row| && IsMapped(fields, d) && !IsBlank(row[d]);
      assert row'[d] == row[d];
    }
    if HasData(fields, row') {
      var d :| 0 <= d < |row'| && IsMapped(fields, d) && !IsBlank(row'[d]);
      assert row'[d] == row[d];
    }
  }

  /** A key is in the record exactly when some column that is not skipped has it as its field. */
  lemma EntryKeys(fields: seq<string>, row: seq<Cell>, k: string)
    ensures k in Keys(EntryOf(fields, row)) <==> exists c :: 0 <= c < |row| && IsMapped(fields, c) && FieldAt(fields, c) == k
  {
    EntryKeysUpTo(fields, row, k, |row|);
  }

  lemma {:induction false} EntryKeysUpTo(fields: seq<string>, row: seq<Cell>, k: string, n: nat)
    requires n <= |row|
    ensures k in Keys(EntryUpTo(fields, row, n)) <==> exists c :: 0 <= c < n && IsMapped(fields, c) && FieldAt(fields, c) == k
    decreases n
  {
    if n > 0 {
      EntryKeysUpTo(fields, row, k, n - 1);
      var f := FieldAt(fields, n - 1);
      if f != "" {
        KeysAfterSet(EntryUpTo(fields, row, n - 1), f, row[n - 1], k);
      }
      if exists c :: 0 <= c < n && IsMapped(fields, c) && FieldAt(fields, c) == k {
        var c :| 0 <= c < n && IsMapped(fields, c) && FieldAt(fields, c) == k;
        if c < n - 1 {
          assert exists d :: 0 <= d < n - 1 && IsMapped(fields, d) && FieldAt(fields, d) == k;
        }
      }
    }
  }

  /**
   * The record pairs a kept column's field with that column's cell when no
   * later column has the same field: the LAST column mapped to a key wins.
   */
  lemma EntryValue(fields: seq<string>, row: seq<Cell>, c: nat)
    requires c < |row| && IsMapped(fields, c)
    requires forall d :: c < d < |row| ==> FieldAt(fields, d) != FieldAt(fields, c)
    ensures (FieldAt(fields, c), row[c]) in EntryOf(fields, row)
  {
    EntryValueUpTo(fields, row, c, |row|);
  }

  lemma {:induction false} EntryValueUpTo(fields: seq<string>, row: seq<Cell>, c: nat, n: nat)
    requires c < n <= |row| && IsMapped(fields, c)
    requires forall d :: c < d < n ==> FieldAt(fields, d) != FieldAt(fields, c)
    ensures (FieldAt(fields, c), row[c]) in EntryUpTo(fields, row, n)
    decreases n
  {
    var e := EntryUpTo(fields, row, n - 1);
    var f := FieldAt(fields, n - 1);
    if c == n - 1 {
      SetHolds(e, f, row[c]);
    } else {
      EntryValueUpTo(fields, row, c, n - 1);
      if f != "" {
        SetKeepsOthers(e, f, row[n - 1], (FieldAt(fields, c), row[c]));
      }
    }
  }

  /** No two columns of the first `width` that are not skipped share a field. */
  predicate DistinctFields(fields: seq<string>, width: nat) {
    forall c, d :: 0 <= c < d < width && IsMapped(fields, c) ==> FieldAt(fields, c) != FieldAt(fields, d)
  }

  /** With distinct fields, a record read from a row with data holds a non-blank value. */
  lemma RecordOfDataRowIsNotBlank(fields: seq<string>, row: seq<Cell>)
    requires DistinctFields(fields, |row|) && HasData(fields, row)
    ensures exists i :: 0 <= i < |EntryOf(fields, row)| && !IsBlank(EntryOf(fields, row)[i].1)
  {
    var c :| 0 <= c < |row| && IsMapped(fields, c) && !IsBlank(row[c]);
    EntryValue(fields, row, c);
    var e := EntryOf(fields, row);
    var i :| 0 <= i < |e| && e[i] == (FieldAt(fields, c), row[c]);
  }

  /**
   * Without distinct fields that fails: the blank cell of a later column with
   * the same field overwrites the data of an earlier one, yet the row counts
   * as having data and its all-blank record is returned.
   */
  lemma DuplicateFieldCanBlankARecord()
    ensures var row := [Int(1), Str("")];
            && HasData(["a", "a"], row)
            && EntryOf(["a", "a"], row) == [("a", Str(""))]
  {
    var row := [Int(1), Str("")];
    assert !IsBlank(row[0]) && IsMapped(["a", "a"], 0);
    var e: Record := [("a", Int(1))];
    assert EntryUpTo(["a", "a"], row, 1) == e by {
      assert "a" !in Keys([]);
    }
    assert Keys(e)[0] == "a";
    assert Set(e, "a", Str(""))[0] == ("a", Str(""));
  }

  /** Rows `{a:"1"}`, `{}`, `{a:"3"}` read as just the first: the blank second row hides the third. */
  lemma StopsAtBlankRowExample()
    ensures DecodeAll(["a"], [[Str("1")], [Str("")], [Str("3")]]) == [[("a", Str("1"))]]
  {
    var values := [[Str("1")], [Str("")], [Str("3")]];
    assert HasData(["a"], values[0]) by { assert IsMapped(["a"], 0) && !IsBlank(values[0][0]); }
    assert EntryOf(["a"], values[0]) == [("a", Str("1"))] by {
      assert EntryUpTo(["a"], values[0], 0) == [];
      assert FieldAt(["a"], 0) == "a" && "a" !in Keys([]);
    }
    DecodeAllIsLongestRun(["a"], values, [[("a", Str("1"))]]);
  }

  /** 0 and false are as blank as "": a row holding only them ends the data. */
  lemma ZeroAndFalseAreBlank()
    ensures !HasData(["a", "b"], [Int(0), Bool(false)])
    ensures DecodeAll(["a", "b"], [[Int(0), Bool(false)], [Str("x"), Str("y")]]) == []
  {
  }

  /** A column past the end of `fields` is stored under "undefined" and counts as data. */
  lemma ColumnPastFieldsExample()
    ensures EntryOf(["a"], [Str(""), Str("y")]) == [("a", Str("")), ("undefined", Str("y"))]
    ensures HasData(["a"], [Str(""), Str("y")])
  {
    var row := [Str(""), Str("y")];
    assert IsMapped(["a"], 1) && !IsBlank(row[1]);
    assert EntryUpTo(["a"], row, 1) == [("a", Str(""))];
  }

  /**
   * `Object.keys(record).map(...)` for each record: the 2-D array that
   * `appendRows` writes.
   */
  function Encode(records: seq<Record>): (values: Grid)
    ensures |values| == |records|
    ensures forall i :: 0 <= i < |records| ==> values[i] == Values(records[i]) && |values[i]| == |records[i]|
  {
    seq(|records|, i requires 0 <= i < |records| => Values(records[i]))
  }

  /**
   * Round trip: when the fields of the columns read are non-empty and
   * distinct, the record read from a row has those fields as its keys, in
   * column order, and writing it back yields the same cells.
   */
  lemma EncodeDecodeRow(fields: seq<string>, row: seq<Cell>)
    requires |row| <= |fields|
    requires forall c :: 0 <= c < |row| ==> fields[c] != ""
    requires forall c, d :: 0 <= c < d < |row| ==> fields[c] != fields[d]
    ensures Keys(EntryOf(fields, row)) == fields[..|row|]
    ensures Values(EntryOf(fields, row)) == row
  {
    EncodeDecodeUpTo(fields, row, |row|);
    WholePrefix(row);
  }

  /**
   * Reading back what `appendRows` wrote: with non-empty distinct fields on
   * every column written, the records read from the encoded rows are the
   * rows themselves, down to the first row without data.
   */
  lemma EncodeDecodeAll(fields: seq<string>, values: seq<seq<Cell>>)
    requires forall k :: 0 <= k < |values| ==> |values[k]| <= |fields|
    requires forall c :: 0 <= c < |fields| ==> fields[c] != ""
    requires forall c, d :: 0 <= c < d < |fields| ==> fields[c] != fields[d]
    ensures Encode(DecodeAll(fields, values)) == values[..|DecodeAll(fields, values)|]
  {
    var rs := DecodeAll(fields, values);
    forall k | 0 <= k < |rs|
      ensures Encode(rs)[k] == values[..|rs|][k]
    {
      EncodeDecodeRow(fields, values[k]);
    }
  }

  /**
   * A record whose keys are the leading fields, in order, reads back from
   * its encoded row unchanged.
   */
  lemma RecordRoundTrip(fields: seq<string>, r: Record)
    requires |r| <= |fields| && Keys(r) == fields[..|r|] && "" !in Keys(r)
    ensures EntryOf(fields, Values(r)) == r
  {
    var row := Values(r);
    forall c | 0 <= c < |row| ensures fields[c] != "" {
      assert Keys(r)[c] == fields[c];
    }
    forall c, d | 0 <= c < d < |row| ensures fields[c] != fields[d] {
      assert Keys(r)[c] == fields[c] && Keys(r)[d] == fields[d];
    }
    EncodeDecodeRow(fields, row);
    var e := EntryOf(fields, row);
    forall i | 0 <= i < |r| ensures e[i] == r[i] {
      assert Keys(e)[i] == Keys(r)[i] && Values(e)[i] == Values(r)[i];
    }
  }

  /**
   * Round trip: decoding the rows `appendRows` writes gives back the
   * records, when each is keyed by the leading fields and holds a non-blank
   * value. The blank padding `getDataRange` adds to a record narrower than
   * the widest row is not part of this statement.
   */
  lemma DecodeEncodeAll(fields: seq<string>, records: seq<Record>)
    requires forall k :: 0 <= k < |records| ==>
               |records[k]| <= |fields| && Keys(records[k]) == fields[..|records[k]|] && "" !in Keys(records[k])
    requires forall k :: 0 <= k < |records| ==> exists i :: 0 <= i < |records[k]| && !IsBlank(records[k][i].1)
    ensures DecodeAll(fields, Encode(records)) == records
  {
    var values := Encode(records);
    forall k | 0 <= k < |records|
      ensures HasData(fields, values[k]) && records[k] == EntryOf(fields, values[k])
    {
      var r := records[k];
      RecordRoundTrip(fields, r);
      var i :| 0 <= i < |r| && !IsBlank(r[i].1);
      assert Keys(r)[i] == fields[i] && Values(r)[i] == r[i].1;
      assert IsMapped(fields, i);
    }
    DecodeAllIsLongestRun(fields, values, records);
  }

  lemma {:induction false} EncodeDecodeUpTo(fields: seq<string>, row: seq<Cell>, n: nat)
    requires n <= |row| <= |fields|
    requires forall c :: 0 <= c < |row| ==> fields[c] != ""
    requires forall c, d :: 0 <= c < d < |row| ==> fields[c] != fields[d]
    ensures Keys(EntryUpTo(fields, row, n)) == fields[..n]
    ensures Values(EntryUpTo(fields, row, n)) == row[..n]
    decreases n
  {
    if n > 0 {
      var last := n - 1;
      var e := EntryUpTo(fields, row, last);
      EncodeDecodeUpTo(fields, row, last);
      assert fields[last] !in Keys(e) by {
        forall c | 0 <= c < last ensures Keys(e)[c] != fields[last] {
          assert Keys(e)[c] == fields[..last][c] == fields[c];
        }
      }
      AssignNewKey(e, fields[last], row[last]);
      PrefixSnoc(fields, last);
      PrefixSnoc(row, last);
    }
  }

  lemma WholePrefix<T>(s: seq<T>)
    ensures s[..|s|] == s
  {
  }

  lemma PrefixSnoc<T>(s: seq<T>, n: nat)
    requires n < |s|
    ensures s[..n] + [s[n]] == s[..n + 1]
  {
  }

  /** One more column: the row has data before it if it had before or this column is mapped and not blank. */
  lemma DataBeforeNextColumn(fields: seq<string>, row: seq<Cell>, c: nat)
    requires c < |row|
    ensures DataBefore(fields, row, c + 1) == (DataBefore(fields, row, c) || (IsMapped(fields, c) && !IsBlank(row[c])))
  {
    if DataBefore(fields, row, c + 1) && !(IsMapped(fields, c) && !IsBlank(row[c])) {
      var d :| 0 <= d < c + 1 && IsMapped(fields, d) && !IsBlank(row[d]);
      assert d < c;
    }
  }

  /**
   * The inner loop of `getData` over one row's columns: skip a column whose
   * field is "", note whether the cell is non-blank, assign it to its field.
   */
  method DecodeRow(fields: seq<string>, value: seq<Cell>) returns (entry: Record, isData: bool)
    ensures entry == EntryOf(fields, value)
    ensures isData == HasData(fields, value)
  {
    entry := [];
    isData := false;
    var c := 0;
    while c < |value|
      invariant 0 <= c <= |value|
      invariant entry == EntryUpTo(fields, value, c)
      invariant isData == DataBefore(fields, value, c)
    {
      DataBeforeNextColumn(fields, value, c);
      if FieldAt(fields, c) != "" {
        if !IsBlank(value[c]) {
          isData := true;
        }
        entry := Set(entry, FieldAt(fields, c), value[c]);
      }
      c := c + 1;
    }
  }

  /**
   * The outer loop of `getData`: decode each data row in turn, stop at the
   * first row without data, otherwise keep its record.
   */
  method DecodeValues(fields: seq<string>, values: seq<seq<Cell>>) returns (entries: seq<Record>)
    ensures entries == DecodeAll(fields, values)
  {
    entries := [];
    var i := 0;
    while i < |values|
      invariant 0 <= i <= |values| && |entries| == i
      invariant forall k :: 0 <= k < i ==> HasData(fields, values[k]) && entries[k] == EntryOf(fields, values[k])
    {
      var entry, isData := DecodeRow(fields, values[i]);
      if !isData {
        break;
      }
      entries := entries + [entry];
      i := i + 1;
    }
    DecodeAllIsLongestRun(fields, values, entries);
  }

  /** The counter closure of `getRows`: the k-th record is paired with row `firstDataRow + k`. */
  method NumberRows(records: seq<Record>, firstDataRow: int) returns (rows: seq<Row>)
    ensures |rows| == |records|
    ensures forall k :: 0 <= k < |rows| ==> rows[k] == Row(records[k], firstDataRow + k)
  {
    var i := firstDataRow;
    rows := [];
    for k := 0 to |records|
      invariant |rows| == k && i == firstDataRow + k
      invariant forall m :: 0 <= m < k ==> rows[m] == Row(records[m], firstDataRow + m)
    {
      rows := rows + [Row(records[k], i)];
      i := i + 1;
    }
  }

  /** The header row as cells. */
  function HeaderCells(columns: seq<string>): (cells: seq<Cell>)
    ensures |cells| == |columns| && forall j :: 0 <= j < |columns| ==> cells[j] == Str(columns[j])
  {
    seq(|columns|, j requires 0 <= j < |columns| => Str(columns[j]))
  }

  /**
   * `sheet.protect()` followed by setting the description to the sheet's name
   * and " protection", the exempted ranges, and warning-only.
   */
  method ProtectSheet(ss: Spreadsheet, name: string, exempt: seq<Option<string>>)
    requires name in ss.sheets
    modifies ss
    ensures ss.sheets == old(ss.sheets)[name := old(ss.sheets[name]).(protections := old(ss.sheets[name].protections) + [Protection(name + " protection", exempt, true)])]
  {
    ghost var before := ss.sheets[name];
    var k := ss.Protect(name);
    ss.SetDescription(name, k, name + " protection");
    assert ss.sheets[name].protections == before.protections + [Protection(name + " protection", [], false)];
    if exempt != [] {
      ss.SetUnprotectedRanges(name, k, exempt);
    }
    assert ss.sheets[name].protections == before.protections + [Protection(name + " protection", exempt, false)];
    ss.SetWarningOnly(name, k, true);
    assert ss.sheets[name].protections == before.protections + [Protection(name + " protection", exempt, true)];
    assert ss.sheets[name] == before.(protections := before.protections + [Protection(name + " protection", exempt, true)]);
  }
}
