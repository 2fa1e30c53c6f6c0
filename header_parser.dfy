/** `read_csv_data`: reservation rows keyed by the export's column names (what
    `csv.DictReader` yields) turned into ledger records. */
module HeaderParser {
  import opened Strings
  import opened Records

  /** One row of the export, column name to text. */
  type CsvRow = map<string, string>

  /** `row.get(column, '')`. */
  function Get(row: CsvRow, column: string): string {
    if column in row then row[column] else ""
  }

  const ROOM_COLUMN: string := "Nro. habitación"

  /** The export column each ledger field is read from, in `HEADERS` order; the
      last field, OBSERVACIONES, has none and is always empty. */
  const SOURCE_COLUMNS: seq<string> :=
    [ROOM_COLUMN, "Fecha de ingreso", "Fecha de egreso", "Cantidad plazas", "Tipo documento",
     "Nro. doc.", "Apellido y nombre", "Edad", "Voucher", "Servicios", "Estado", "Paquete", "Sede"]

  /** A row whose stripped room is empty yields no record. */
  predicate HasRoom(row: CsvRow) {
    Strip(Get(row, ROOM_COLUMN)) != ""
  }

  /** The record built from one row: HAB stripped, every other field as found
      (a missing column giving ''), OBSERVACIONES ''. */
  function HeaderRecord(row: CsvRow): (r: Record)
    ensures r.hab == Strip(Get(row, SOURCE_COLUMNS[0]))
    ensures forall k :: 1 <= k < |SOURCE_COLUMNS| ==> Fields(r)[k] == Get(row, SOURCE_COLUMNS[k])
    ensures r.notes == ""
  {
    Record(
      Strip(Get(row, "Nro. habitación")),
      Get(row, "Fecha de ingreso"),
      Get(row, "Fecha de egreso"),
      Get(row, "Cantidad plazas"),
      Get(row, "Tipo documento"),
      Get(row, "Nro. doc."),
      Get(row, "Apellido y nombre"),
      Get(row, "Edad"),
      Get(row, "Voucher"),
      Get(row, "Servicios"),
      Get(row, "Estado"),
      Get(row, "Paquete"),
      Get(row, "Sede"),
      "")
  }

  /** The records `read_csv_data` returns for `rows`. */
  function HeaderRecords(rows: seq<CsvRow>): seq<Record> {
    if rows == [] then []
    else
      var prev := HeaderRecords(rows[..|rows| - 1]);
      var row := rows[|rows| - 1];
      if HasRoom(row) then prev + [HeaderRecord(row)] else prev
  }

  /** `read_csv_data` over rows already read: the loop that skips rows without a
      room and appends one record per other row. */
  method ReadCsvData(rows: seq<CsvRow>) returns (registros: seq<Record>)
    ensures registros == HeaderRecords(rows)
  {
    registros := [];
    var i := 0;
    while i < |rows|
      invariant i <= |rows|
      invariant registros == HeaderRecords(rows[..i])
    {
      var row := rows[i];
      assert rows[..i + 1][..i] == rows[..i];
      var hab := Strip(Get(row, "Nro. habitación"));
      if hab != "" {
        var registro := Record(
          hab,
          Get(row, "Fecha de ingreso"),
          Get(row, "Fecha de egreso"),
          Get(row, "Cantidad plazas"),
          Get(row, "Tipo documento"),
          Get(row, "Nro. doc."),
          Get(row, "Apellido y nombre"),
          Get(row, "Edad"),
          Get(row, "Voucher"),
          Get(row, "Servicios"),
          Get(row, "Estado"),
          Get(row, "Paquete"),
          Get(row, "Sede"),
          "");
        registros := registros + [registro];
      }
      i := i + 1;
    }
    assert rows[..i] == rows;
  }

  /** Rows are parsed one at a time: the records of two stretches of rows are the
      records of the first followed by those of the second. */
  lemma {:induction false} HeaderRecordsAppend(a: seq<CsvRow>, b: seq<CsvRow>)
    ensures HeaderRecords(a + b) == HeaderRecords(a) + HeaderRecords(b)
    decreases |b|
  {
    if b == [] {
      assert a + b == a;
    } else {
      var n := |b| - 1;
      assert (a + b)[..|a + b| - 1] == a + b[..n];
      HeaderRecordsAppend(a, b[..n]);
    }
  }

  /** A single row yields its record exactly when its stripped room is not empty. */
  lemma HeaderRecordsSingle(row: CsvRow)
    ensures HeaderRecords([row]) == if HasRoom(row) then [HeaderRecord(row)] else []
  {
    assert [row][..0] == [];
  }

  /** Every record has a room, stripped, and an empty OBSERVACIONES. */
  lemma {:induction false} HeaderRecordsHaveRooms(rows: seq<CsvRow>)
    ensures forall r :: r in HeaderRecords(rows) ==> r.hab != "" && Strip(r.hab) == r.hab && r.notes == ""
  {
    if rows != [] {
      HeaderRecordsHaveRooms(rows[..|rows| - 1]);
      StripIdempotent(Get(rows[|rows| - 1], ROOM_COLUMN));
    }
  }

  /** At most one record per row. */
  lemma {:induction false} HeaderRecordsLength(rows: seq<CsvRow>)
    ensures |HeaderRecords(rows)| <= |rows|
  {
    if rows != [] {
      HeaderRecordsLength(rows[..|rows| - 1]);
    }
  }
}
