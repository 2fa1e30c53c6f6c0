/** The ledger import of `procesar_reservas`: find the first blank row of the
    ledger sheet, then write record i into row `start + i`, columns A to N,
    appending rows of fourteen empty cells while the row does not exist yet. */
module Ledger {
  import opened Strings
  import opened Grid
  import opened Records

  /** The ledger sheet's name, and the name tried when it is missing. */
  const LEDGER_SHEET: string := "Ingresos 23 D MAYO"
  const LEDGER_SHEET_ALT: string := "Ingresos_23_D_MAYO"

  /** Columns per ledger row, one per header. */
  const LEDGER_WIDTH: nat := 14

  function LedgerSheet(tables: seq<Table>): Option<nat> {
    SheetWithFallback(tables, LEDGER_SHEET, LEDGER_SHEET_ALT)
  }

  /** Row `idx` has a column-A cell, and that cell reads empty (`None` or ''). */
  predicate IsBlankAt(rows: seq<Row>, idx: nat) {
    match GetCell(rows, idx, 0)
    case None => false
    case Some(c) => CellText(c) == None || CellText(c) == Some("")
  }

  /** The first blank row at or after `k`. */
  function FirstBlankFrom(rows: seq<Row>, k: nat): (r: Option<nat>)
    ensures r.Some? ==> k <= r.value < |rows| && IsBlankAt(rows, r.value)
                        && forall j :: k <= j < r.value ==> !IsBlankAt(rows, j)
    ensures r.None? ==> forall j :: k <= j < |rows| ==> !IsBlankAt(rows, j)
    decreases |rows| - k
  {
    if k >= |rows| then None
    else if IsBlankAt(rows, k) then Some(k)
    else FirstBlankFrom(rows, k + 1)
  }

  /** Where the import starts: the first blank row from index 1 on, and row 1
      itself when there is none. */
  function LedgerStart(rows: seq<Row>): (s: nat)
    ensures 1 <= s
    ensures forall j :: 1 <= j < s ==> !IsBlankAt(rows, j)
    ensures (exists j :: 1 <= j < |rows| && IsBlankAt(rows, j)) ==> s < |rows| && IsBlankAt(rows, s)
    ensures (forall j :: 1 <= j < |rows| ==> !IsBlankAt(rows, j)) ==> s == 1
  {
    match FirstBlankFrom(rows, 1)
    case None => 1
    case Some(i) => i
  }

  /** The start-row search of `procesar_reservas`: a scan from index 1 that stops
      at the first blank row. */
  method FindStartRow(rows: seq<Row>) returns (start: nat)
    ensures start == LedgerStart(rows)
  {
    start := 1;
    var idx := 1;
    while idx < |rows|
      invariant 1 <= idx
      invariant start == 1
      invariant FirstBlankFrom(rows, 1) == FirstBlankFrom(rows, idx)
    {
      var cell := GetCell(rows, idx, 0);
      if cell.Some? {
        var v := CellText(cell.value);
        if v.None? || v.value == "" {
          start := idx;
          return;
        }
      }
      idx := idx + 1;
    }
  }

  // ---------------------------------------------------------------- padding

  /** A new ledger row: fourteen fresh cells. */
  const EMPTY_ROW: Row :=
    [EmptyCell, EmptyCell, EmptyCell, EmptyCell, EmptyCell, EmptyCell, EmptyCell,
     EmptyCell, EmptyCell, EmptyCell, EmptyCell, EmptyCell, EmptyCell, EmptyCell]

  /** `new_row` of `procesar_reservas`, built one cell at a time. */
  method NewLedgerRow() returns (row: Row)
    ensures row == EMPTY_ROW
  {
    row := [];
    var k := 0;
    while k < LEDGER_WIDTH
      invariant k <= LEDGER_WIDTH
      invariant row == seq(k, i => EmptyCell)
    {
      row := row + [EmptyCell];
      k := k + 1;
    }
  }

  /** The rows after `while r >= len(rows)` has appended empty rows. */
  function PadTo(rows: seq<Row>, r: nat): (res: seq<Row>)
    ensures |res| == if r < |rows| then |rows| else r + 1
    ensures forall i :: 0 <= i < |rows| ==> res[i] == rows[i]
    ensures forall i :: |rows| <= i < |res| ==> res[i] == EMPTY_ROW
    decreases r + 1 - |rows|
  {
    if r < |rows| then rows else PadTo(rows + [EMPTY_ROW], r)
  }

  // ---------------------------------------------------------------- the import

  /** The ledger rows after `recs` were imported from row `start` on. */
  function LedgerRows(rows: seq<Row>, start: nat, recs: seq<Record>): seq<Row> {
    if recs == [] then rows
    else
      var n := |recs| - 1;
      WriteRow(PadTo(LedgerRows(rows, start, recs[..n]), start + n), start + n, 0, Fields(recs[n]))
  }

  /** `while row_idx >= len(rows)`: empty ledger rows appended to table `t` until
      row `r` exists. */
  method PadLedger(wb: Workbook, t: nat, r: nat)
    requires t < |wb.tables|
    modifies wb
    ensures wb.tables == WithRows(old(wb.tables), t, PadTo(old(wb.tables)[t].rows, r))
  {
    ghost var tables0 := wb.tables;
    ghost var rows0 := wb.tables[t].rows;
    while r >= |wb.tables[t].rows|
      invariant t < |wb.tables| && wb.tables == WithRows(tables0, t, wb.tables[t].rows)
      invariant PadTo(wb.tables[t].rows, r) == PadTo(rows0, r)
      decreases r + 1 - |wb.tables[t].rows|
    {
      var newRow := NewLedgerRow();
      ghost var before := wb.tables;
      wb.AppendRow(t, newRow);
      WithRowsTwice(tables0, t, before[t].rows, wb.tables[t].rows);
    }
  }

  /** One record of the import: rows appended until row `r` exists, then the
      record's fourteen fields written into it. */
  method ImportRecord(wb: Workbook, t: nat, r: nat, registro: Record)
    requires t < |wb.tables|
    modifies wb
    ensures wb.tables == WithRows(old(wb.tables), t, WriteRow(PadTo(old(wb.tables)[t].rows, r), r, 0, Fields(registro)))
  {
    ghost var tables0 := wb.tables;
    PadLedger(wb, t, r);
    ghost var padded := wb.tables;
    WriteCells(wb, t, r, 0, Fields(registro));
    WithRowsTwice(tables0, t, padded[t].rows, wb.tables[t].rows);
  }

  lemma LedgerRowsStep(rows: seq<Row>, start: nat, recs: seq<Record>, k: nat)
    requires k < |recs|
    ensures LedgerRows(rows, start, recs[..k + 1]) ==
              WriteRow(PadTo(LedgerRows(rows, start, recs[..k]), start + k), start + k, 0, Fields(recs[k]))
  {
    assert recs[..k + 1][..k] == recs[..k];
  }

  /** The import as `procesar_reservas` performs it on the ledger sheet `t`. */
  method ImportLedger(wb: Workbook, t: nat, start: nat, registros: seq<Record>)
    requires t < |wb.tables|
    modifies wb
    ensures wb.tables == WithRows(old(wb.tables), t, LedgerRows(old(wb.tables)[t].rows, start, registros))
  {
    ghost var tables0 := wb.tables;
    ghost var rows0 := wb.tables[t].rows;
    var idx := 0;
    while idx < |registros|
      invariant idx <= |registros|
      invariant wb.tables == WithRows(tables0, t, LedgerRows(rows0, start, registros[..idx]))
    {
      ghost var before := wb.tables;
      ImportRecord(wb, t, start + idx, registros[idx]);
      WithRowsTwice(tables0, t, before[t].rows, wb.tables[t].rows);
      LedgerRowsStep(rows0, start, registros, idx);
      idx := idx + 1;
    }
    assert registros[..idx] == registros;
  }

  // ---------------------------------------------------------------- where things land

  /** How many rows the ledger has once `n` records were imported from `start`. */
  function LedgerLength(rows: seq<Row>, start: nat, n: nat): nat {
    if n == 0 || start + n <= |rows| then |rows| else start + n
  }

  /** A cell as it stands before the writes, padding included: an existing cell, or
      a fresh cell of an appended row. */
  function BaseCell(rows: seq<Row>, i: nat, j: nat): Option<Cell> {
    if i < |rows| then GetCell(rows, i, j)
    else if j < LEDGER_WIDTH then Some(EmptyCell)
    else None
  }

  /** What the import leaves at row `i`, column `j`: record `i - start`'s field `j`
      written over the cell in the import's window, the cell as it was elsewhere. */
  function LedgerCell(rows: seq<Row>, start: nat, recs: seq<Record>, i: nat, j: nat): Option<Cell> {
    if i >= LedgerLength(rows, start, |recs|) then None
    else if start <= i < start + |recs| && j < LEDGER_WIDTH then
      WriteAt(BaseCell(rows, i, j), Some(Fields(recs[i - start])[j]))
    else BaseCell(rows, i, j)
  }

  lemma PadToCells(rows: seq<Row>, r: nat)
    ensures forall i: nat, j: nat :: GetCell(PadTo(rows, r), i, j) ==
              if i < |rows| then GetCell(rows, i, j)
              else if i < |PadTo(rows, r)| && j < LEDGER_WIDTH then Some(EmptyCell)
              else None
  {
  }

  /** One record more, at one cell: `prev` is the cell before the record (`len`
      rows so far), `p` after the padding, `w` after the record's row was written. */
  lemma LedgerCellStep(rows: seq<Row>, start: nat, recs: seq<Record>, len: nat, i: nat, j: nat,
                       prev: Option<Cell>, p: Option<Cell>, w: Option<Cell>)
    requires recs != [] && len == LedgerLength(rows, start, |recs| - 1)
    requires i < len ==> prev == LedgerCell(rows, start, recs[..|recs| - 1], i, j)
    requires p == if i < len then prev
                  else if i < (if start + |recs| - 1 < len then len else start + |recs|) && j < LEDGER_WIDTH then Some(EmptyCell)
                  else None
    requires w == if i == start + |recs| - 1 && j < LEDGER_WIDTH then WriteAt(p, Some(Fields(recs[|recs| - 1])[j])) else p
    ensures w == LedgerCell(rows, start, recs, i, j)
  {
  }

  /** The import, cell by cell: record `k` lands in row `start + k`, columns 0 to
      13, written over what was there (a cell missing from a short existing row
      stays missing); rows of fourteen empty cells are appended up to the last
      record's row; every other cell is left as it was. */
  lemma {:induction false} LedgerPlacement(rows: seq<Row>, start: nat, recs: seq<Record>)
    ensures |LedgerRows(rows, start, recs)| == LedgerLength(rows, start, |recs|)
    ensures forall i :: 0 <= i < |LedgerRows(rows, start, recs)| ==>
              |LedgerRows(rows, start, recs)[i]| == if i < |rows| then |rows[i]| else LEDGER_WIDTH
    ensures forall i: nat, j: nat :: GetCell(LedgerRows(rows, start, recs), i, j) == LedgerCell(rows, start, recs, i, j)
  {
    if recs != [] {
      var n := |recs| - 1;
      var prevRecs := recs[..n];
      LedgerPlacement(rows, start, prevRecs);
      var prev := LedgerRows(rows, start, prevRecs);
      var padded := PadTo(prev, start + n);
      PadToCells(prev, start + n);
      forall i: nat, j: nat
        ensures GetCell(LedgerRows(rows, start, recs), i, j) == LedgerCell(rows, start, recs, i, j)
      {
        LedgerCellStep(rows, start, recs, |prev|, i, j, GetCell(prev, i, j), GetCell(padded, i, j),
                       GetCell(LedgerRows(rows, start, recs), i, j));
      }
    }
  }

  /** Rows outside the import's window keep their content. */
  lemma LedgerKeepsOtherRows(rows: seq<Row>, start: nat, recs: seq<Record>, i: nat)
    requires i < |rows| && !(start <= i < start + |recs|)
    ensures i < |LedgerRows(rows, start, recs)| && LedgerRows(rows, start, recs)[i] == rows[i]
  {
    LedgerPlacement(rows, start, recs);
    var res := LedgerRows(rows, start, recs);
    forall j | 0 <= j < |rows[i]| ensures res[i][j] == rows[i][j] {
      assert GetCell(res, i, j) == GetCell(rows, i, j);
    }
  }

  /** Reading a written cell gives the record's field back, on an appended row and
      on an existing cell without a `value` attribute. */
  lemma LedgerReadBack(rows: seq<Row>, start: nat, recs: seq<Record>, k: nat, j: nat)
    requires k < |recs| && j < LEDGER_WIDTH
    requires start + k >= |rows| || (j < |rows[start + k]| && !HasValue(rows[start + k][j]))
    ensures GetCell(LedgerRows(rows, start, recs), start + k, j).Some?
    ensures CellText(GetCell(LedgerRows(rows, start, recs), start + k, j).value) == Some(Fields(recs[k])[j])
  {
    LedgerPlacement(rows, start, recs);
    var base := BaseCell(rows, start + k, j).value;
    ReadAfterWrite(base, Some(Fields(recs[k])[j]));
  }
}
