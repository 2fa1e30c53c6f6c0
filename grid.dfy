/** The spreadsheet document reduced to what the scripts touch: named tables made
    of rows of cells. A cell has an optional `office:value` attribute and the text
    of its paragraphs. The document is mutated in place, so it is a class whose one
    field, the sequence of tables, every in-place operation reassigns. */
module Grid {
  import opened Strings

  /** One table cell: the `value` attribute, if present, and its paragraphs' text. */
  datatype Cell = Cell(value: Option<string>, paras: seq<string>)

  type Row = seq<Cell>

  datatype Table = Table(name: string, rows: seq<Row>)

  /** A freshly created `TableCell()`: no attribute, no paragraph. */
  const EmptyCell: Cell := Cell(None, [])

  function Concat(ps: seq<string>): string {
    if ps == [] then "" else ps[0] + Concat(ps[1..])
  }

  predicate HasValue(c: Cell) {
    c.value.Some? && c.value.value != ""
  }

  /** `get_cell_value`: a non-empty `value` attribute wins; otherwise the joined
      paragraph text; `None` when there is neither. */
  function CellText(c: Cell): Option<string> {
    if HasValue(c) then c.value
    else if |c.paras| > 0 then Some(Concat(c.paras))
    else None
  }

  /** `set_cell_value` on an existing cell: every child node goes, one paragraph
      holding the new text comes back unless the value is `None`. The `value`
      attribute is not a child node and stays. */
  function Written(c: Cell, v: Option<string>): Cell {
    Cell(c.value, if v.Some? then [v.value] else [])
  }

  /** What a write leaves for `get_cell_value`: the new text, unless the cell
      carries a non-empty `value` attribute, which keeps winning over it. */
  lemma ReadAfterWrite(c: Cell, v: Option<string>)
    ensures CellText(Written(c, v)) == if HasValue(c) then c.value else v
  {
    if v.Some? && !HasValue(c) {
      assert [v.value][1..] == [];
      assert Concat([v.value]) == v.value + Concat([]) == v.value;
    }
  }

  /** Writing the same value twice leaves what writing it once leaves. */
  lemma WrittenIdempotent(c: Cell, v: Option<string>)
    ensures Written(Written(c, v), v) == Written(c, v)
  {
  }

  // ---------------------------------------------------------------- addressing cells

  /** `get_cell(sheet, r, c)`: the cell, or `None` when the row or the column is
      beyond what the sheet holds. */
  function GetCell(rows: seq<Row>, r: nat, c: nat): (cell: Option<Cell>)
    ensures cell.Some? <==> r < |rows| && c < |rows[r]|
    ensures cell.Some? ==> cell.value == rows[r][c]
  {
    if r < |rows| && c < |rows[r]| then Some(rows[r][c]) else None
  }

  /** `set_cell_value` applied to what `get_cell` returned: `None` stays `None`. */
  function WriteAt(cell: Option<Cell>, v: Option<string>): Option<Cell> {
    match cell
    case None => None
    case Some(c) => Some(Written(c, v))
  }

  /** Same number of rows, and every row the same number of cells. */
  ghost predicate SameShape(a: seq<Row>, b: seq<Row>) {
    |a| == |b| && forall i :: 0 <= i < |a| ==> |a[i]| == |b[i]|
  }

  /** `set_cell_value(get_cell(sheet, r, c), v)` on the rows of a sheet. */
  function SetCell(rows: seq<Row>, r: nat, c: nat, v: Option<string>): (res: seq<Row>)
    ensures SameShape(rows, res)
    ensures forall i: nat, j: nat :: GetCell(res, i, j) ==
              if i == r && j == c then WriteAt(GetCell(rows, i, j), v) else GetCell(rows, i, j)
  {
    if r < |rows| && c < |rows[r]| then rows[r := rows[r][c := Written(rows[r][c], v)]] else rows
  }

  /** The values `vals` written into row `r` from column `c0` on, one cell after the
      other, as `procesar_reservas` does with its runs of `set_cell_value` calls. */
  function WriteRow(rows: seq<Row>, r: nat, c0: nat, vals: seq<string>): (res: seq<Row>)
    ensures SameShape(rows, res)
    ensures forall i: nat, j: nat :: GetCell(res, i, j) ==
              if i == r && c0 <= j < c0 + |vals| then WriteAt(GetCell(rows, i, j), Some(vals[j - c0]))
              else GetCell(rows, i, j)
  {
    if vals == [] then rows
    else
      var n := |vals| - 1;
      var prev := WriteRow(rows, r, c0, vals[..n]);
      SetCell(prev, r, c0 + n, Some(vals[n]))
  }

  /** Two grids of the same shape with the same cells everywhere are equal. */
  lemma GridExt(a: seq<Row>, b: seq<Row>)
    requires SameShape(a, b)
    requires forall i: nat, j: nat :: GetCell(a, i, j) == GetCell(b, i, j)
    ensures a == b
  {
    forall i | 0 <= i < |a| ensures a[i] == b[i] {
      forall j | 0 <= j < |a[i]| ensures a[i][j] == b[i][j] {
        assert GetCell(a, i, j) == GetCell(b, i, j);
      }
    }
  }

  /** One more value of a run of writes is one more `SetCell`. */
  lemma WriteRowStep(rows: seq<Row>, r: nat, c0: nat, vals: seq<string>, k: nat)
    requires k < |vals|
    ensures WriteRow(rows, r, c0, vals[..k + 1]) == SetCell(WriteRow(rows, r, c0, vals[..k]), r, c0 + k, Some(vals[k]))
  {
    assert vals[..k + 1][..k] == vals[..k];
  }

  // ---------------------------------------------------------------- finding sheets

  function Names(tables: seq<Table>): (ns: seq<string>)
    ensures |ns| == |tables| && forall k :: 0 <= k < |tables| ==> ns[k] == tables[k].name
  {
    seq(|tables|, k requires 0 <= k < |tables| => tables[k].name)
  }

  /** `get_sheet_by_name`: the first table carrying the name, if any. */
  function SheetIndex(tables: seq<Table>, name: string): (r: Option<nat>)
    ensures r.Some? ==> r.value < |tables| && tables[r.value].name == name
                        && forall j :: 0 <= j < r.value ==> tables[j].name != name
    ensures r.None? <==> forall j :: 0 <= j < |tables| ==> tables[j].name != name
  {
    if tables == [] then None
    else if tables[0].name == name then Some(0)
    else match SheetIndex(tables[1..], name)
      case None => None
      case Some(k) => Some(k + 1)
  }

  /** The exact-name sheet search of `import_to_ods` and `filter_sheet_by_year`:
      a walk over the tables stopping at the first with that name. */
  method FindSheet(tables: seq<Table>, name: string) returns (target: Option<nat>)
    ensures target == SheetIndex(tables, name)
  {
    var k := 0;
    while k < |tables|
      invariant k <= |tables|
      invariant forall j :: 0 <= j < k ==> tables[j].name != name
    {
      if tables[k].name == name {
        return Some(k);
      }
      k := k + 1;
    }
    return None;
  }

  /** A sheet looked up under a first name and, failing that, under a second. */
  function SheetWithFallback(tables: seq<Table>, name: string, alt: string): Option<nat> {
    match SheetIndex(tables, name)
    case Some(k) => Some(k)
    case None => SheetIndex(tables, alt)
  }

  /** Looking a sheet up depends on the names only. */
  lemma SheetIndexByNames(a: seq<Table>, b: seq<Table>, name: string)
    requires Names(a) == Names(b)
    ensures SheetIndex(a, name) == SheetIndex(b, name)
  {
    assert forall j :: 0 <= j < |a| ==> a[j].name == Names(a)[j] == Names(b)[j] == b[j].name;
  }

  function WithRows(tables: seq<Table>, t: nat, rows: seq<Row>): (res: seq<Table>)
    requires t < |tables|
    ensures |res| == |tables| && Names(res) == Names(tables)
  {
    tables[t := Table(tables[t].name, rows)]
  }

  /** Replacing a table's rows twice keeps only the second replacement. */
  lemma WithRowsTwice(tables: seq<Table>, t: nat, a: seq<Row>, b: seq<Row>)
    requires t < |tables|
    ensures WithRows(WithRows(tables, t, a), t, b) == WithRows(tables, t, b)
  {
  }

  // ---------------------------------------------------------------- the document

  class Workbook {
    var tables: seq<Table>

    constructor (tables: seq<Table>)
      ensures this.tables == tables
    {
      this.tables := tables;
    }

    /** `set_cell_value(get_cell(sheet, r, c), v)` on table `t`: clear the cell's
        children, then add one paragraph unless `v` is `None`; a cell that does
        not exist is left alone. */
    method SetCellValue(t: nat, r: nat, c: nat, v: Option<string>)
      requires t < |tables|
      modifies this
      ensures tables == WithRows(old(tables), t, SetCell(old(tables)[t].rows, r, c, v))
    {
      var rows := tables[t].rows;
      if r < |rows| && c < |rows[r]| {
        var cell: Cell := rows[r][c];
        cell := cell.(paras := []);
        if v.Some? {
          cell := cell.(paras := cell.paras + [v.value]);
        }
        assert cell == Written(rows[r][c], v);
        tables := WithRows(tables, t, rows[r := rows[r][c := cell]]);
      }
    }

    /** `sheet.addElement(row)`: a new last row. */
    method AppendRow(t: nat, row: Row)
      requires t < |tables|
      modifies this
      ensures tables == WithRows(old(tables), t, old(tables)[t].rows + [row])
    {
      tables := WithRows(tables, t, tables[t].rows + [row]);
    }

    /** `sheet.removeChild(row)` for the row now at position `p`. */
    method RemoveRowAt(t: nat, p: nat)
      requires t < |tables| && p < |tables[t].rows|
      modifies this
      ensures tables == WithRows(old(tables), t, old(tables)[t].rows[..p] + old(tables)[t].rows[p + 1..])
    {
      var rows := tables[t].rows;
      tables := WithRows(tables, t, rows[..p] + rows[p + 1..]);
    }
  }

  /** A run of `set_cell_value` calls on row `r` of table `t`, column `c0` first,
      one value per column. */
  method WriteCells(wb: Workbook, t: nat, r: nat, c0: nat, vals: seq<string>)
    requires t < |wb.tables|
    modifies wb
    ensures wb.tables == WithRows(old(wb.tables), t, WriteRow(old(wb.tables)[t].rows, r, c0, vals))
  {
    ghost var tables0 := wb.tables;
    ghost var rows0 := wb.tables[t].rows;
    var col := 0;
    while col < |vals|
      invariant col <= |vals|
      invariant wb.tables == WithRows(tables0, t, WriteRow(rows0, r, c0, vals[..col]))
    {
      ghost var before := wb.tables;
      wb.SetCellValue(t, r, c0 + col, Some(vals[col]));
      WriteRowStep(rows0, r, c0, vals, col);
      WithRowsTwice(tables0, t, before[t].rows, wb.tables[t].rows);
      col := col + 1;
    }
    assert vals[..col] == vals;
  }
}
