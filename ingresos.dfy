/** `read_csv_with_js_logic` and the append logic of `import_to_ods`: the
    positional importer. Every line after the header is split at each comma and
    the record's fields are taken at fixed positions; the records are then
    appended as new rows after whatever the ledger sheet already holds. */
module Ingresos {
  import opened Strings
  import opened Grid
  import opened Records

  /** The one name this importer looks the ledger sheet up under. */
  const SHEET_NAME: string := "Ingresos 23 D MAYO"

  /** The field position each ledger column is read from, in `HEADERS` order. */
  const POSITIONS: seq<nat> := [2, 8, 9, 5, 11, 12, 13, 14, 6, 16, 23, 17, 7, 4]

  /** The highest position read is 23, so a line needs 24 fields. */
  const MIN_FIELDS: nat := 24

  /** The record a line's fields give: column k of the ledger is field
      `POSITIONS[k]`, taken as it is, untrimmed. */
  function PositionalRecord(fields: seq<string>): (r: Record)
    requires |fields| >= MIN_FIELDS
    ensures forall k :: 0 <= k < |HEADERS| ==> Fields(r)[k] == fields[POSITIONS[k]]
  {
    Record(fields[2], fields[8], fields[9], fields[5], fields[11], fields[12], fields[13],
           fields[14], fields[6], fields[16], fields[23], fields[17], fields[7], fields[4])
  }

  /** What happens to one line after the header. */
  datatype LineOutcome = Blank | Short | Parsed(record: Record)

  /** The line is stripped and skipped when empty; otherwise it is split at the
      commas, and refused (the `IndexError`) when it has fewer than 24 fields. */
  function ParseLine(line: string): LineOutcome {
    var s := Strip(line);
    if s == "" then Blank
    else
      var fields := Split(s, ',');
      if |fields| < MIN_FIELDS then Short else Parsed(PositionalRecord(fields))
  }

  /** What happens to each line of a file, line 0 included. */
  function Outcomes(lines: seq<string>): (os: seq<LineOutcome>)
    ensures |os| == |lines|
  {
    if lines == [] then [] else Outcomes(lines[..|lines| - 1]) + [ParseLine(lines[|lines| - 1])]
  }

  /** The records of lines 1 to n - 1 (line 0 is the header), in line order. */
  function ReadRecords(os: seq<LineOutcome>, n: nat): seq<Record>
    requires n <= |os|
  {
    if n <= 1 then []
    else
      var prev := ReadRecords(os, n - 1);
      match os[n - 1]
      case Parsed(r) => prev + [r]
      case _ => prev
  }

  /** The records of a whole file. */
  function PositionalRecords(lines: seq<string>): seq<Record> {
    ReadRecords(Outcomes(lines), |lines|)
  }

  /** The numbers of the lines among 1 to n - 1 that give a record, ascending. */
  function RecordLines(os: seq<LineOutcome>, n: nat): (r: seq<nat>)
    requires n <= |os|
    ensures forall a :: 0 <= a < |r| ==> 1 <= r[a] < n
    ensures forall a, b :: 0 <= a < b < |r| ==> r[a] < r[b]
    ensures forall j :: j in r <==> 1 <= j < n && os[j].Parsed?
  {
    if n <= 1 then []
    else
      var prev := RecordLines(os, n - 1);
      if os[n - 1].Parsed? then prev + [n - 1] else prev
  }

  /** The numbers of the lines among 1 to n - 1 refused for having too few
      fields, ascending: the lines reported as incomplete. */
  function ShortLines(os: seq<LineOutcome>, n: nat): seq<nat>
    requires n <= |os|
  {
    if n <= 1 then []
    else
      var prev := ShortLines(os, n - 1);
      if os[n - 1].Short? then prev + [n - 1] else prev
  }

  /** The lines reported as incomplete are exactly those among 1 to n - 1 with
      too few fields, each once and in ascending order. */
  lemma {:induction false} ShortLinesAre(os: seq<LineOutcome>, n: nat)
    requires n <= |os|
    ensures forall a :: 0 <= a < |ShortLines(os, n)| ==> 1 <= ShortLines(os, n)[a] < n
    ensures forall a, b :: 0 <= a < b < |ShortLines(os, n)| ==> ShortLines(os, n)[a] < ShortLines(os, n)[b]
    ensures forall j :: j in ShortLines(os, n) <==> 1 <= j < n && os[j].Short?
  {
    if n > 1 {
      ShortLinesAre(os, n - 1);
    }
  }

  /** One more line read: its record, if it gives one, comes last; its number,
      if it is incomplete, is reported last. */
  lemma ReadStep(os: seq<LineOutcome>, o: LineOutcome)
    requires |os| >= 1
    ensures ReadRecords(os + [o], |os| + 1) == ReadRecords(os, |os|) + match o case Parsed(r) => [r] case _ => []
    ensures ShortLines(os + [o], |os| + 1) == ShortLines(os, |os|) + if o.Short? then [|os|] else []
  {
    ReadRecordsPrefix(os, [o], |os|);
    ShortLinesPrefix(os, [o], |os|);
    assert (os + [o])[|os|] == o;
  }

  /** Line `i`'s outcome is what parsing line `i` gives. */
  lemma {:induction false} OutcomeAt(lines: seq<string>, i: nat)
    requires i < |lines|
    ensures |Outcomes(lines)| == |lines| && Outcomes(lines)[i] == ParseLine(lines[i])
  {
    var n := |lines| - 1;
    if i < n {
      OutcomeAt(lines[..n], i);
    }
  }

  lemma OutcomesSnoc(lines: seq<string>, line: string)
    ensures Outcomes(lines + [line]) == Outcomes(lines) + [ParseLine(line)]
  {
    assert (lines + [line])[..|lines|] == lines;
  }

  /** Reading depends only on the lines read so far. */
  lemma {:induction false} ReadRecordsPrefix(os: seq<LineOutcome>, more: seq<LineOutcome>, n: nat)
    requires n <= |os|
    ensures ReadRecords(os + more, n) == ReadRecords(os, n)
  {
    if n > 1 {
      assert (os + more)[n - 1] == os[n - 1];
      ReadRecordsPrefix(os, more, n - 1);
    }
  }

  lemma {:induction false} ShortLinesPrefix(os: seq<LineOutcome>, more: seq<LineOutcome>, n: nat)
    requires n <= |os|
    ensures ShortLines(os + more, n) == ShortLines(os, n)
  {
    if n > 1 {
      assert (os + more)[n - 1] == os[n - 1];
      ShortLinesPrefix(os, more, n - 1);
    }
  }

  /** `read_csv_with_js_logic` over the file's lines: the records, the `room_count`
      dictionary, `people_count`, and the numbers of the lines reported as
      incomplete. */
  method ReadWithJsLogic(lines: seq<string>)
    returns (records: seq<Record>, roomCount: map<string, nat>, peopleCount: nat, skipped: seq<nat>)
    ensures records == PositionalRecords(lines)
    ensures roomCount == CountByRoom(records)
    ensures peopleCount == |records|
    ensures skipped == ShortLines(Outcomes(lines), |lines|)
  {
    records, roomCount, peopleCount, skipped := [], map[], 0, [];
    if |lines| <= 1 {
      return;
    }
    ghost var os := Outcomes(lines);
    var i := 1;
    while i < |lines|
      invariant 1 <= i <= |lines|
      invariant records == ReadRecords(os, i)
      invariant roomCount == CountByRoom(records)
      invariant peopleCount == |records|
      invariant skipped == ShortLines(os, i)
    {
      var outcome := ParseLine(lines[i]);
      OutcomeAt(lines, i);
      match outcome {
        case Blank =>
        case Short =>
          skipped := skipped + [i];
        case Parsed(record) =>
          var roomNumber := record.hab;
          CountByRoomSnoc(records, record);
          records := records + [record];
          if roomNumber in roomCount {
            roomCount := roomCount[roomNumber := roomCount[roomNumber] + 1];
          } else {
            roomCount := roomCount[roomNumber := 1];
          }
          peopleCount := peopleCount + 1;
      }
      i := i + 1;
    }
  }

  // ---------------------------------------------------------------- reading properties

  /** A line gives a record exactly when, stripped, it is not empty and holds at
      least 23 commas; it is reported as incomplete exactly when it is not empty
      and holds fewer. */
  lemma ParseLineByCommas(line: string)
    ensures ParseLine(line).Parsed? <==> Strip(line) != "" && Occurrences(Strip(line), ',') >= MIN_FIELDS - 1
    ensures ParseLine(line).Short? <==> Strip(line) != "" && Occurrences(Strip(line), ',') < MIN_FIELDS - 1
    ensures ParseLine(line).Blank? <==> Strip(line) == ""
    ensures ParseLine(line).Parsed? ==>
              |Split(Strip(line), ',')| >= MIN_FIELDS &&
              forall k :: 0 <= k < |HEADERS| ==> Fields(ParseLine(line).record)[k] == Split(Strip(line), ',')[POSITIONS[k]]
  {
    SplitCount(Strip(line), ',');
  }

  /** The fields of a line are taken as they are: a line made of 24 or more
      comma-free fields, with no blank at either end, gives the record of those
      very fields, spaces inside a field and an empty room included. */
  lemma JoinedLineParsed(fields: seq<string>)
    requires |fields| >= MIN_FIELDS
    requires forall k :: 0 <= k < |fields| ==> ',' !in fields[k]
    requires Strip(Join(fields, ',')) == Join(fields, ',')
    ensures ParseLine(Join(fields, ',')) == Parsed(PositionalRecord(fields))
  {
    SplitJoin(fields, ',');
    assert Join(fields, ',') != "";
  }

  /** Records are the parsed lines, in line order, one per parsed line. */
  lemma {:induction false} RecordsFromLines(os: seq<LineOutcome>, n: nat)
    requires n <= |os|
    ensures |ReadRecords(os, n)| == |RecordLines(os, n)|
    ensures forall k :: 0 <= k < |RecordLines(os, n)| ==> os[RecordLines(os, n)[k]] == Parsed(ReadRecords(os, n)[k])
  {
    if n > 1 {
      RecordsFromLines(os, n - 1);
    }
  }

  /** Line 0 is never read: whatever it holds, the records are the same. */
  lemma {:induction false} HeaderLineIgnored(os: seq<LineOutcome>, n: nat, o: LineOutcome)
    requires 1 <= n <= |os|
    ensures ReadRecords(os[0 := o], n) == ReadRecords(os, n)
  {
    if n > 1 {
      HeaderLineIgnored(os, n - 1, o);
    }
  }

  /** A line after the header adds its record, or nothing, to those of the lines
      before it, whatever happened to those: an incomplete line does not stop
      the reading. */
  lemma AppendLine(lines: seq<string>, line: string)
    requires |lines| >= 1
    ensures PositionalRecords(lines + [line]) ==
              PositionalRecords(lines) + match ParseLine(line) case Parsed(r) => [r] case _ => []
  {
    OutcomesSnoc(lines, line);
    ReadStep(Outcomes(lines), ParseLine(line));
  }

  /** No more records than lines after the header. */
  lemma {:induction false} RecordsBound(os: seq<LineOutcome>, n: nat)
    requires n <= |os|
    ensures |ReadRecords(os, n)| <= if n == 0 then 0 else n - 1
  {
    if n > 1 {
      RecordsBound(os, n - 1);
    }
  }

  // ---------------------------------------------------------------- appending to the ledger

  /** A new cell: one paragraph holding `v`, or no paragraph when `v` is ''. */
  function TextCell(v: string): Cell {
    if v != "" then Cell(None, [v]) else EmptyCell
  }

  function TextRow(vals: seq<string>): Row {
    seq(|vals|, k requires 0 <= k < |vals| => TextCell(vals[k]))
  }

  lemma TextRowSnoc(vals: seq<string>, k: nat)
    requires k < |vals|
    ensures TextRow(vals[..k + 1]) == TextRow(vals[..k]) + [TextCell(vals[k])]
  {
    assert |TextRow(vals[..k + 1])| == k + 1;
    forall j | 0 <= j < k + 1 ensures TextRow(vals[..k + 1])[j] == (TextRow(vals[..k]) + [TextCell(vals[k])])[j] {
      assert vals[..k + 1][j] == vals[j];
    }
  }

  /** One row per record, in order, its cells in `HEADERS` order. */
  function RecordRows(recs: seq<Record>): seq<Row> {
    seq(|recs|, k requires 0 <= k < |recs| => TextRow(Fields(recs[k])))
  }

  lemma RecordRowsSnoc(recs: seq<Record>, k: nat)
    requires k < |recs|
    ensures RecordRows(recs[..k + 1]) == RecordRows(recs[..k]) + [TextRow(Fields(recs[k]))]
  {
    assert |RecordRows(recs[..k + 1])| == k + 1;
    forall j | 0 <= j < k + 1 ensures RecordRows(recs[..k + 1])[j] == (RecordRows(recs[..k]) + [TextRow(Fields(recs[k]))])[j] {
      assert recs[..k + 1][j] == recs[j];
    }
  }

  /** The sheet's rows after the import: the old rows, the header row when there
      were none, then the records' rows. */
  function ImportedRows(rows: seq<Row>, recs: seq<Record>): seq<Row> {
    rows + (if rows == [] then [TextRow(HEADERS)] else []) + RecordRows(recs)
  }

  /** The ledger's columns read back from a row: a cell without text reads as
      ''. */
  function ReadRow(row: Row): Record
    requires |row| == |HEADERS|
  {
    FromFields(seq(|HEADERS|, j requires 0 <= j < |HEADERS| => match CellText(row[j]) case None => "" case Some(s) => s))
  }

  lemma HeadersNonEmpty()
    ensures forall k :: 0 <= k < |HEADERS| ==> HEADERS[k] != ""
  {
  }

  /** The header row: one cell per header, each with its header's text. */
  method NewHeaderRow() returns (headerRow: Row)
    ensures headerRow == TextRow(HEADERS)
  {
    headerRow := [];
    var k := 0;
    while k < |HEADERS|
      invariant k <= |HEADERS|
      invariant headerRow == TextRow(HEADERS[..k])
    {
      var cell := EmptyCell;
      cell := cell.(paras := cell.paras + [HEADERS[k]]);
      HeadersNonEmpty();
      assert cell == TextCell(HEADERS[k]);
      TextRowSnoc(HEADERS, k);
      headerRow := headerRow + [cell];
      k := k + 1;
    }
    assert HEADERS[..k] == HEADERS;
  }

  /** The row of one record: a cell per header, with text only when the value
      is not ''. */
  method NewRecordRow(record: Record) returns (newRow: Row)
    ensures newRow == TextRow(Fields(record))
  {
    var values := Fields(record);
    newRow := [];
    var k := 0;
    while k < |values|
      invariant k <= |values|
      invariant newRow == TextRow(values[..k])
    {
      var cell := EmptyCell;
      if values[k] != "" {
        cell := cell.(paras := cell.paras + [values[k]]);
      }
      assert cell == TextCell(values[k]);
      TextRowSnoc(values, k);
      newRow := newRow + [cell];
      k := k + 1;
    }
    assert values[..k] == values;
  }

  /** `import_to_ods` on the document in place: without a sheet of that exact
      name nothing changes and `found` is false (the script exits); otherwise
      the header row is added to an empty sheet and one row per record is
      appended. */
  method ImportToOds(wb: Workbook, records: seq<Record>) returns (found: bool)
    modifies wb
    ensures found <==> SheetIndex(old(wb.tables), SHEET_NAME).Some?
    ensures !found ==> wb.tables == old(wb.tables)
    ensures found ==> var t := SheetIndex(old(wb.tables), SHEET_NAME).value;
                      wb.tables == WithRows(old(wb.tables), t, ImportedRows(old(wb.tables)[t].rows, records))
  {
    var target := FindSheet(wb.tables, SHEET_NAME);
    if target.None? {
      return false;
    }
    ghost var tables0 := wb.tables;
    var t := target.value;
    var hasHeaders := |wb.tables[t].rows| > 0;
    if !hasHeaders {
      var headerRow := NewHeaderRow();
      wb.AppendRow(t, headerRow);
    }
    ghost var base := tables0[t].rows + (if tables0[t].rows == [] then [TextRow(HEADERS)] else []);
    assert RecordRows(records[..0]) == [];
    assert base + RecordRows(records[..0]) == base;
    if hasHeaders {
      assert tables0[t] == Table(tables0[t].name, base);
      assert wb.tables == WithRows(tables0, t, base);
    }
    var k := 0;
    while k < |records|
      invariant k <= |records| && t < |wb.tables|
      invariant wb.tables == WithRows(tables0, t, base + RecordRows(records[..k]))
    {
      var newRow := NewRecordRow(records[k]);
      wb.AppendRow(t, newRow);
      RecordRowsSnoc(records, k);
      assert base + RecordRows(records[..k]) + [newRow] == base + RecordRows(records[..k + 1]);
      WithRowsTwice(tables0, t, base + RecordRows(records[..k]), base + RecordRows(records[..k + 1]));
      k := k + 1;
    }
    assert records[..k] == records;
    return true;
  }

  // ---------------------------------------------------------------- appending properties

  lemma ConcatOne(v: string)
    ensures Concat([v]) == v
  {
    assert [v][1..] == [];
  }

  /** A record's row reads back as the record: empty values as empty cells,
      every other value as its own text. */
  lemma RecordRowRoundTrip(r: Record)
    ensures |TextRow(Fields(r))| == |HEADERS|
    ensures ReadRow(TextRow(Fields(r))) == r
  {
    var row := TextRow(Fields(r));
    var vals := seq(|HEADERS|, j requires 0 <= j < |HEADERS| => match CellText(row[j]) case None => "" case Some(s) => s);
    forall j | 0 <= j < |HEADERS| ensures vals[j] == Fields(r)[j] {
      ConcatOne(Fields(r)[j]);
    }
    assert vals == Fields(r);
    FieldsRoundTrip(r, vals);
  }

  /** The header row spells out the fourteen headers, one cell each. */
  lemma HeaderRowCells()
    ensures |TextRow(HEADERS)| == |HEADERS|
    ensures forall k :: 0 <= k < |HEADERS| ==> CellText(TextRow(HEADERS)[k]) == Some(HEADERS[k])
  {
    forall k | 0 <= k < |HEADERS| ensures CellText(TextRow(HEADERS)[k]) == Some(HEADERS[k]) {
      ConcatOne(HEADERS[k]);
    }
  }

  /** The import only appends: the old rows stay as they were, and the header
      row comes first exactly when there were none. */
  lemma ImportedKeepsRows(rows: seq<Row>, recs: seq<Record>)
    ensures |ImportedRows(rows, recs)| == |rows| + (if rows == [] then 1 else 0) + |recs|
    ensures ImportedRows(rows, recs)[..|rows|] == rows
    ensures rows == [] ==> ImportedRows(rows, recs)[0] == TextRow(HEADERS)
    ensures rows != [] ==> ImportedRows(rows, recs)[|rows|..] == RecordRows(recs)
  {
    var header: seq<Row> := if rows == [] then [TextRow(HEADERS)] else [];
    assert ImportedRows(rows, recs) == rows + (header + RecordRows(recs));
  }

  /** Record k is row `|rows| + h + k`, where h is 1 for a new header row and 0
      otherwise, and reads back as the record. */
  lemma ImportedRecordAt(rows: seq<Row>, recs: seq<Record>, k: nat)
    requires k < |recs|
    ensures var i := |rows| + (if rows == [] then 1 else 0) + k;
            i < |ImportedRows(rows, recs)| && ImportedRows(rows, recs)[i] == TextRow(Fields(recs[k]))
            && ReadRow(ImportedRows(rows, recs)[i]) == recs[k]
  {
    var header: seq<Row> := if rows == [] then [TextRow(HEADERS)] else [];
    var res := ImportedRows(rows, recs);
    assert res == (rows + header) + RecordRows(recs);
    assert res[|rows + header| + k] == RecordRows(recs)[k];
    RecordRowRoundTrip(recs[k]);
  }
}
