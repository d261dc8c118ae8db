/**
 * An in-memory stand-in for the hosted spreadsheet backend: the sheets of the
 * active spreadsheet by name, each a grid of cells with a hidden flag and a
 * list of protections. Only the backend calls the library makes are modelled.
 */
module Workbook {
  import opened Outcomes
  import opened Records

  /** Rows top to bottom (row 1 first), each row's cells left to right. */
  type Grid = seq<seq<Cell>>

  /**
   * A protection object: its description, the ranges exempted from it (each
   * by the address the caller passed to `getRange`, None when that argument
   * was undefined), and whether it only warns instead of blocking edits.
   */
  datatype Protection = Protection(description: string, unprotectedRanges: seq<Option<string>>, warningOnly: bool)

  datatype SheetState = SheetState(rows: Grid, hidden: bool, protections: seq<Protection>)

  /** What `insertSheet` creates: no cells, visible, unprotected. */
  const NewSheet := SheetState([], false, [])

  /** The cell at 0-based row i and column j; a cell never written is blank. */
  function CellAt(g: Grid, i: int, j: int): Cell {
    if 0 <= i < |g| && 0 <= j < |g[i]| then g[i][j] else Str("")
  }

  /** The number of columns of the occupied range: the widest row. */
  function Width(g: Grid): (w: nat)
    ensures forall i :: 0 <= i < |g| ==> |g[i]| <= w
    ensures g == [] ==> w == 0
    ensures g != [] ==> exists i :: 0 <= i < |g| && |g[i]| == w
    decreases |g|
  {
    if g == [] then 0
    else
      var w := Width(g[1..]);
      assert forall i :: 1 <= i < |g| ==> g[i] == g[1..][i - 1];
      if |g[0]| >= w then |g[0]| else w
  }

  /**
   * `getDataRange().getValues()`: every occupied row, each as wide as the
   * widest, so that every cell of the rectangle is the grid's cell there.
   */
  function DataRange(g: Grid): (v: Grid)
    ensures |v| == |g|
    ensures forall i :: 0 <= i < |v| ==> |v[i]| == Width(g)
    ensures forall i, j :: 0 <= i < |v| && 0 <= j < |v[i]| ==> v[i][j] == CellAt(g, i, j)
  {
    var w := Width(g);
    seq(|g|, i requires 0 <= i < |g| => g[i] + seq(w - |g[i]|, _ => Str("")))
  }

  /**
   * `getRange(r + 1, 1, 1, |vals|).setValues([vals])` on a grid: row r (0-based)
   * takes vals in its first |vals| columns, every other cell keeps its value,
   * and the grid grows by empty rows when r lies below its last row.
   */
  function WriteRowAt(g: Grid, r: nat, vals: seq<Cell>): (h: Grid)
    ensures |h| == if r < |g| then |g| else r + 1
    ensures forall i :: 0 <= i < |h| && i != r ==> h[i] == if i < |g| then g[i] else []
    ensures r >= |g| ==> h[r] == vals
    ensures forall i, j :: CellAt(h, i, j) == if i == r && 0 <= j < |vals| then vals[j] else CellAt(g, i, j)
  {
    var padded := if r < |g| then g else g + seq(r + 1 - |g|, _ => []);
    var prev := padded[r];
    padded[r := vals + if |vals| < |prev| then prev[|vals|..] else []]
  }

  /**
   * `getRange(r + 1, 1, |block|, w).setValues(block)`: the rows of block are
   * written one below the other from row r (0-based), column 1.
   */
  function WriteBlock(g: Grid, r: nat, block: Grid): (h: Grid)
    ensures forall i, j ::
              CellAt(h, i, j) == if r <= i < r + |block| && 0 <= j < |block[i - r]| then block[i - r][j] else CellAt(g, i, j)
    decreases |block|
  {
    if block == [] then g
    else WriteBlock(WriteRowAt(g, r, block[0]), r + 1, block[1..])
  }

  /** A block written right below the last row extends the grid by exactly that block. */
  lemma {:induction false} WriteBlockAtEnd(g: Grid, block: Grid)
    ensures WriteBlock(g, |g|, block) == g + block
    decreases |block|
  {
    if block != [] {
      var g1 := WriteRowAt(g, |g|, block[0]);
      assert g1 == g + [block[0]];
      WriteBlockAtEnd(g1, block[1..]);
      assert g1 + block[1..] == g + block;
    }
  }

  /** The active spreadsheet: its sheets by name. */
  class Spreadsheet {
    var sheets: map<string, SheetState>

    constructor ()
      ensures sheets == map[]
    {
      sheets := map[];
    }

    /** `insertSheet(name)`, which the library only calls when no sheet has that name. */
    method InsertSheet(name: string)
      requires name !in sheets
      modifies this
      ensures sheets == old(sheets)[name := NewSheet]
    {
      sheets := sheets[name := NewSheet];
    }

    /** `sheet.hideSheet()` */
    method HideSheet(name: string)
      requires name in sheets
      modifies this
      ensures sheets == old(sheets)[name := old(sheets[name]).(hidden := true)]
    {
      sheets := sheets[name := sheets[name].(hidden := true)];
    }

    /** `sheet.getLastRow()`: the number of rows the sheet holds. */
    function GetLastRow(name: string): (n: nat)
      reads this
      requires name in sheets
      ensures n == |sheets[name].rows|
    {
      |sheets[name].rows|
    }

    /** `sheet.appendRow(vals)`: one new row below the last. */
    method AppendRow(name: string, vals: seq<Cell>)
      requires name in sheets
      modifies this
      ensures sheets == old(sheets)[name := old(sheets[name]).(rows := old(sheets[name].rows) + [vals])]
    {
      sheets := sheets[name := sheets[name].(rows := sheets[name].rows + [vals])];
    }

    /**
     * `getRange(row, 1, numRows, numColumns).setValues(values)`. The backend
     * rejects a range that starts above row 1 or has no rows or no columns;
     * the values always have the range's shape where the library calls it.
     */
    method SetValues(name: string, row: int, numRows: int, numColumns: int, values: Grid) returns (r: Result<()>)
      requires name in sheets
      requires |values| == numRows && forall i :: 0 <= i < |values| ==> |values[i]| == numColumns
      modifies this
      ensures row < 1 || numRows < 1 || numColumns < 1 ==> r == Failure(InvalidRange) && sheets == old(sheets)
      ensures row >= 1 && numRows >= 1 && numColumns >= 1 ==>
                r == Success(()) &&
                sheets == old(sheets)[name := old(sheets[name]).(rows := WriteBlock(old(sheets[name].rows), row - 1, values))]
    {
      if row < 1 || numRows < 1 || numColumns < 1 {
        return Failure(InvalidRange);
      }
      sheets := sheets[name := sheets[name].(rows := WriteBlock(sheets[name].rows, row - 1, values))];
      return Success(());
    }

    /** `sheet.protect()`: a new protection, at index k, with no description, no exemptions, enforced. */
    method Protect(name: string) returns (k: nat)
      requires name in sheets
      modifies this
      ensures k == |old(sheets[name].protections)|
      ensures sheets == old(sheets)[name := old(sheets[name]).(protections := old(sheets[name].protections) + [Protection("", [], false)])]
    {
      k := |sheets[name].protections|;
      sheets := sheets[name := sheets[name].(protections := sheets[name].protections + [Protection("", [], false)])];
    }

    /** `protection.setDescription(d)` on the sheet's protection k. */
    method SetDescription(name: string, k: nat, d: string)
      requires name in sheets && k < |sheets[name].protections|
      modifies this
      ensures sheets == old(sheets)[name := old(sheets[name]).(protections := old(sheets[name].protections)[k := old(sheets[name].protections[k]).(description := d)])]
    {
      var ps := sheets[name].protections;
      sheets := sheets[name := sheets[name].(protections := ps[k := ps[k].(description := d)])];
    }

    /** `protection.setUnprotectedRanges(ranges)` on the sheet's protection k. */
    method SetUnprotectedRanges(name: string, k: nat, ranges: seq<Option<string>>)
      requires name in sheets && k < |sheets[name].protections|
      modifies this
      ensures sheets == old(sheets)[name := old(sheets[name]).(protections := old(sheets[name].protections)[k := old(sheets[name].protections[k]).(unprotectedRanges := ranges)])]
    {
      var ps := sheets[name].protections;
      sheets := sheets[name := sheets[name].(protections := ps[k := ps[k].(unprotectedRanges := ranges)])];
    }

    /** `protection.setWarningOnly(w)` on the sheet's protection k. */
    method SetWarningOnly(name: string, k: nat, w: bool)
      requires name in sheets && k < |sheets[name].protections|
      modifies this
      ensures sheets == old(sheets)[name := old(sheets[name]).(protections := old(sheets[name].protections)[k := old(sheets[name].protections[k]).(warningOnly := w)])]
    {
      var ps := sheets[name].protections;
      sheets := sheets[name := sheets[name].(protections := ps[k := ps[k].(warningOnly := w)])];
    }
  }
}
