/** `procesar_reservas`: the unified run. The export's rows become records, the
    records are appended to the ledger sheet from its first blank row on, the
    summary cells under the ledger are rewritten, and the records are grouped by
    room and written into the floor grids. */
module Reservas {
  import opened Strings
  import opened Grid
  import opened Records
  import opened Floors
  import opened HeaderParser
  import opened Ledger
  import opened Summary
  import opened Grouping
  import opened Placement

  /** What a run leaves: nothing, when it stops early, or the new sheets with the
      number of records imported and of passengers placed in the grids. */
  datatype Outcome = Failed | Done(tables: seq<Table>, imported: nat, distributed: nat)

  /** Every floor of a distribution has a sheet name. */
  lemma DistributionKnown(recs: seq<Record>)
    ensures KnownFloors(Distribution(recs))
  {
    var d := Distribution(recs);
    DistributionFloors(recs);
    forall a | 0 <= a < |d| ensures d[a].floor in PISO_SHEET_NAMES {
      assert FloorIndex(d, d[a].floor).Some?;
      var i :| 0 <= i < |recs| && PisoForRoom(recs[i].hab) == Some(d[a].floor);
    }
  }

  /** The ledger sheet `t` after step 1: the records written from its first blank
      row on, then the three summary cells. */
  function LedgerStep(tables: seq<Table>, t: nat, recs: seq<Record>): seq<Table>
    requires t < |tables|
  {
    var rows := tables[t].rows;
    WithRows(tables, t, SummaryRows(LedgerRows(rows, LedgerStart(rows), recs), |recs|, |RoomSet(recs)|, MealPlanCount(recs)))
  }

  /** The whole run on the document's sheets and the export's rows. */
  function Process(tables: seq<Table>, csvRows: seq<CsvRow>): Outcome {
    var recs := HeaderRecords(csvRows);
    if recs == [] then Failed
    else
      match LedgerSheet(tables)
      case None => Failed
      case Some(t) =>
        DistributionKnown(recs);
        var p := PlaceAll(LedgerStep(tables, t, recs), Distribution(recs));
        Done(p.tables, |recs|, p.count)
  }

  /** The run, step by step, on the document in place. `ok` is `False` when the
      export yields no record or the document has no ledger sheet; the document
      is then untouched. */
  method ProcessReservations(wb: Workbook, csvRows: seq<CsvRow>) returns (ok: bool, importados: nat, actualizaciones: nat)
    modifies wb
    ensures ok <==> Process(old(wb.tables), csvRows).Done?
    ensures !ok ==> wb.tables == old(wb.tables)
    ensures ok ==> wb.tables == Process(old(wb.tables), csvRows).tables
                   && importados == Process(old(wb.tables), csvRows).imported
                   && actualizaciones == Process(old(wb.tables), csvRows).distributed
  {
    var registros := ReadCsvData(csvRows);
    if |registros| == 0 {
      return false, 0, 0;
    }
    var sheet := LedgerSheet(wb.tables);
    if sheet.None? {
      return false, 0, 0;
    }
    ghost var tables0 := wb.tables;
    var t := sheet.value;
    // Step 1: the ledger.
    var start := FindStartRow(wb.tables[t].rows);
    ImportLedger(wb, t, start, registros);
    var totalPax, cantHabitaciones, totalMap := ComputeSummary(registros);
    WriteSummary(wb, t, totalPax, cantHabitaciones, totalMap);
    WithRowsTwice(tables0, t, LedgerRows(tables0[t].rows, start, registros),
                  SummaryRows(LedgerRows(tables0[t].rows, start, registros), totalPax, cantHabitaciones, totalMap));
    assert wb.tables == LedgerStep(tables0, t, registros);
    // Step 2: the floor grids.
    var distribuidos := GroupByRoom(registros);
    DistributionKnown(registros);
    actualizaciones := DistributeFloors(wb, distribuidos);
    ok, importados := true, |registros|;
  }

  // ---------------------------------------------------------------- properties

  /** The run stops exactly when the export yields no record or the document has
      neither ledger sheet name. */
  lemma ProcessFails(tables: seq<Table>, csvRows: seq<CsvRow>)
    ensures Process(tables, csvRows).Failed? <==> HeaderRecords(csvRows) == [] || LedgerSheet(tables).None?
  {
  }

  /** No floor's sheet is the ledger sheet: their names differ in the first
      letter. */
  lemma FloorSheetNotLedger(tables: seq<Table>, t: nat, f: string)
    requires LedgerSheet(tables) == Some(t) && f in PISO_SHEET_NAMES
    ensures FloorSheet(tables, f) != Some(t)
  {
    assert tables[t].name[0] == 'I';
    var name := PISO_SHEET_NAMES[f];
    assert name[0] == 'P';
    assert ReplaceChar(name, ' ', '_')[0] == 'P';
  }

  /** After a run the ledger sheet holds the imported rows followed by the
      summary, and the document keeps its sheets, by name and order. */
  lemma ProcessedLedger(tables: seq<Table>, csvRows: seq<CsvRow>, t: nat)
    requires Process(tables, csvRows).Done? && LedgerSheet(tables) == Some(t)
    ensures var out := Process(tables, csvRows).tables;
            var recs := HeaderRecords(csvRows);
            var rows := tables[t].rows;
            Names(out) == Names(tables)
            && out[t] == Table(tables[t].name,
                               SummaryRows(LedgerRows(rows, LedgerStart(rows), recs), |recs|, |RoomSet(recs)|, MealPlanCount(recs)))
  {
    var recs := HeaderRecords(csvRows);
    var mid := LedgerStep(tables, t, recs);
    DistributionKnown(recs);
    forall f | f in PISO_SHEET_NAMES ensures FloorSheet(mid, f) != Some(t) {
      FloorSheetNotLedger(tables, t, f);
      FloorSheetByNames(tables, mid, f);
    }
    PlaceAllOtherSheet(mid, Distribution(recs), t);
    PlaceAllKeepsSheets(mid, Distribution(recs));
  }

  /** A run imports every record and places, in the grids, exactly the
      passengers of the rooms found on the floor sheets the document has, as the
      document was before the run. */
  lemma ProcessedCounts(tables: seq<Table>, csvRows: seq<CsvRow>)
    requires Process(tables, csvRows).Done?
    ensures KnownFloors(Distribution(HeaderRecords(csvRows)))
    ensures Process(tables, csvRows).imported == |HeaderRecords(csvRows)|
    ensures Process(tables, csvRows).distributed == FoundPax(tables, Distribution(HeaderRecords(csvRows)))
  {
    var recs := HeaderRecords(csvRows);
    var t := LedgerSheet(tables).value;
    var mid := LedgerStep(tables, t, recs);
    DistributionKnown(recs);
    forall f | f in PISO_SHEET_NAMES ensures FloorSheet(tables, f) != Some(t) {
      FloorSheetNotLedger(tables, t, f);
    }
    PlaceAllCount(mid, Distribution(recs));
    FoundPaxOtherSheet(tables, t, mid[t].rows, Distribution(recs));
  }

  /** A sheet that is neither the ledger nor a floor's sheet comes out of a run
      as it went in. */
  lemma ProcessedOtherSheets(tables: seq<Table>, csvRows: seq<CsvRow>, k: nat)
    requires Process(tables, csvRows).Done? && k < |tables|
    requires LedgerSheet(tables) != Some(k)
    requires forall f :: f in PISO_SHEET_NAMES ==> FloorSheet(tables, f) != Some(k)
    ensures k < |Process(tables, csvRows).tables| && Process(tables, csvRows).tables[k] == tables[k]
  {
    var recs := HeaderRecords(csvRows);
    var t := LedgerSheet(tables).value;
    var mid := LedgerStep(tables, t, recs);
    DistributionKnown(recs);
    forall f | f in PISO_SHEET_NAMES ensures FloorSheet(mid, f) != Some(k) {
      FloorSheetByNames(tables, mid, f);
    }
    PlaceAllOtherSheet(mid, Distribution(recs), k);
  }
}
