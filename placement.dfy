/** The floor distribution of `procesar_reservas`: for each floor of the grouping,
    find its grid sheet; for each room, find the room's anchor row in column B;
    write the room's passengers one per row from the anchor on, columns C to L;
    count every passenger written. */
module Placement {
  import opened Strings
  import opened Grid
  import opened Records
  import opened Floors
  import opened Grouping

  /** Column B holds the room numbers of a floor grid. */
  const ROOM_COLUMN: nat := 1

  /** Column C, the first one written. */
  const FIRST_COLUMN: nat := 2

  /** `str()` of what `get_cell_value` returned: `None` prints as "None". */
  function PyStr(v: Option<string>): string {
    match v
    case None => "None"
    case Some(s) => s
  }

  /** Row `i` has a column-B cell whose text, trimmed, is the trimmed room. */
  predicate IsAnchor(rows: seq<Row>, i: nat, room: string) {
    match GetCell(rows, i, ROOM_COLUMN)
    case None => false
    case Some(c) => Strip(PyStr(CellText(c))) == Strip(room)
  }

  function AnchorFrom(rows: seq<Row>, room: string, k: nat): (r: Option<nat>)
    ensures r.Some? ==> k <= r.value < |rows| && IsAnchor(rows, r.value, room)
                        && forall j :: k <= j < r.value ==> !IsAnchor(rows, j, room)
    ensures r.None? ==> forall j :: k <= j < |rows| ==> !IsAnchor(rows, j, room)
    decreases |rows| - k
  {
    if k >= |rows| then None
    else if IsAnchor(rows, k, room) then Some(k)
    else AnchorFrom(rows, room, k + 1)
  }

  /** The room's anchor: the first row from index 1 on that is an anchor. */
  function AnchorRow(rows: seq<Row>, room: string): (r: Option<nat>)
    ensures r.Some? ==> 1 <= r.value < |rows| && IsAnchor(rows, r.value, room)
                        && forall j :: 1 <= j < r.value ==> !IsAnchor(rows, j, room)
    ensures r.None? <==> forall j :: 1 <= j < |rows| ==> !IsAnchor(rows, j, room)
  {
    AnchorFrom(rows, room, 1)
  }

  /** The ten values written for one passenger, columns C to L: IN, OUT, PAX,
      ID, N.º, NOMBRE, EDAD, VOUCHER, MAP, ESTADO. */
  function GridFields(r: Record): seq<string> {
    [r.checkIn, r.checkOut, r.pax, r.docType, r.docNumber, r.name, r.age, r.voucher, r.mealPlan, r.status]
  }

  /** The grid's columns C to L carry the ledger's columns B to K. */
  lemma GridFieldsAreLedgerFields(r: Record)
    ensures |GridFields(r)| == 10 && GridFields(r) == Fields(r)[1..11]
  {
  }

  /** The rows once passengers `pax` were written from row `anchor` on. */
  function WritePax(rows: seq<Row>, anchor: nat, pax: seq<Record>): seq<Row> {
    if pax == [] then rows
    else
      var n := |pax| - 1;
      WriteRow(WritePax(rows, anchor, pax[..n]), anchor + n, FIRST_COLUMN, GridFields(pax[n]))
  }

  /** One room: written from its anchor, or left alone when it has none. */
  datatype RoomsPlaced = RoomsPlaced(rows: seq<Row>, count: nat)

  function PlaceRoom(rows: seq<Row>, g: RoomGroup): RoomsPlaced {
    match AnchorRow(rows, g.room)
    case None => RoomsPlaced(rows, 0)
    case Some(a) => RoomsPlaced(WritePax(rows, a, g.paxList), |g.paxList|)
  }

  /** The rooms of one floor, one after the other, on that floor's sheet. */
  function PlaceRooms(rows: seq<Row>, gs: seq<RoomGroup>): RoomsPlaced {
    if gs == [] then RoomsPlaced(rows, 0)
    else
      var prev := PlaceRooms(rows, gs[..|gs| - 1]);
      var last := PlaceRoom(prev.rows, gs[|gs| - 1]);
      RoomsPlaced(last.rows, prev.count + last.count)
  }

  /** The grid sheet of a floor: its name, or that name with underscores for
      spaces. */
  function FloorSheet(tables: seq<Table>, floor: string): Option<nat>
    requires floor in PISO_SHEET_NAMES
  {
    var name := PISO_SHEET_NAMES[floor];
    SheetWithFallback(tables, name, ReplaceChar(name, ' ', '_'))
  }

  datatype Placed = Placed(tables: seq<Table>, count: nat)

  ghost predicate KnownFloors(d: seq<FloorGroups>) {
    forall a :: 0 <= a < |d| ==> d[a].floor in PISO_SHEET_NAMES
  }

  /** One floor: its rooms placed on its sheet, or nothing when the sheet is
      missing. */
  function PlaceFloor(tables: seq<Table>, fg: FloorGroups): Placed
    requires fg.floor in PISO_SHEET_NAMES
  {
    match FloorSheet(tables, fg.floor)
    case None => Placed(tables, 0)
    case Some(k) =>
      var p := PlaceRooms(tables[k].rows, fg.rooms);
      Placed(WithRows(tables, k, p.rows), p.count)
  }

  /** The whole distribution, floor after floor. */
  function PlaceAll(tables: seq<Table>, d: seq<FloorGroups>): Placed
    requires KnownFloors(d)
  {
    if d == [] then Placed(tables, 0)
    else
      var prev := PlaceAll(tables, d[..|d| - 1]);
      var last := PlaceFloor(prev.tables, d[|d| - 1]);
      Placed(last.tables, prev.count + last.count)
  }

  lemma WritePaxStep(rows: seq<Row>, anchor: nat, pax: seq<Record>, k: nat)
    requires k < |pax|
    ensures WritePax(rows, anchor, pax[..k + 1]) ==
              WriteRow(WritePax(rows, anchor, pax[..k]), anchor + k, FIRST_COLUMN, GridFields(pax[k]))
  {
    assert pax[..k + 1][..k] == pax[..k];
  }

  lemma PlaceRoomsStep(rows: seq<Row>, gs: seq<RoomGroup>, k: nat)
    requires k < |gs|
    ensures PlaceRooms(rows, gs[..k + 1]) ==
              var prev := PlaceRooms(rows, gs[..k]);
              var last := PlaceRoom(prev.rows, gs[k]);
              RoomsPlaced(last.rows, prev.count + last.count)
  {
    assert gs[..k + 1][..k] == gs[..k];
  }

  lemma PlaceAllStep(tables: seq<Table>, d: seq<FloorGroups>, k: nat)
    requires KnownFloors(d) && k < |d|
    ensures KnownFloors(d[..k]) && KnownFloors(d[..k + 1])
    ensures PlaceAll(tables, d[..k + 1]) ==
              var prev := PlaceAll(tables, d[..k]);
              var last := PlaceFloor(prev.tables, d[k]);
              Placed(last.tables, prev.count + last.count)
  {
    assert d[..k + 1][..k] == d[..k];
  }

  // ---------------------------------------------------------------- properties

  /** Where a room's passengers land: passenger k in row `anchor + k`, columns C
      to L, written with its ten grid values; a write to a row or column the sheet
      lacks is dropped; every other cell is unchanged and so is the shape. */
  lemma {:induction false} WritePaxCells(rows: seq<Row>, anchor: nat, pax: seq<Record>)
    ensures SameShape(rows, WritePax(rows, anchor, pax))
    ensures forall i: nat, j: nat :: GetCell(WritePax(rows, anchor, pax), i, j) ==
              if anchor <= i < anchor + |pax| && FIRST_COLUMN <= j < FIRST_COLUMN + 10 then
                WriteAt(GetCell(rows, i, j), Some(GridFields(pax[i - anchor])[j - FIRST_COLUMN]))
              else GetCell(rows, i, j)
  {
    if pax != [] {
      var n := |pax| - 1;
      WritePaxCells(rows, anchor, pax[..n]);
      forall i: nat, j: nat
        ensures GetCell(WritePax(rows, anchor, pax), i, j) ==
                  if anchor <= i < anchor + |pax| && FIRST_COLUMN <= j < FIRST_COLUMN + 10 then
                    WriteAt(GetCell(rows, i, j), Some(GridFields(pax[i - anchor])[j - FIRST_COLUMN]))
                  else GetCell(rows, i, j)
      {
        if anchor <= i < anchor + n {
          assert pax[..n][i - anchor] == pax[i - anchor];
        }
      }
    }
  }

  /** Same number of rows and the same column-B cells: what the anchor search
      reads. */
  ghost predicate SameRoomColumn(a: seq<Row>, b: seq<Row>) {
    |a| == |b| && forall i: nat :: GetCell(a, i, ROOM_COLUMN) == GetCell(b, i, ROOM_COLUMN)
  }

  lemma IsAnchorByRoomColumn(a: seq<Row>, b: seq<Row>, room: string, k: nat)
    requires GetCell(a, k, ROOM_COLUMN) == GetCell(b, k, ROOM_COLUMN)
    ensures IsAnchor(a, k, room) == IsAnchor(b, k, room)
  {
  }

  /** The anchor search reads column B only. */
  lemma {:induction false} AnchorFromByRoomColumn(a: seq<Row>, b: seq<Row>, room: string, k: nat)
    requires SameRoomColumn(a, b)
    ensures AnchorFrom(a, room, k) == AnchorFrom(b, room, k)
  {
    forall j: nat | k <= j < |a|
      ensures IsAnchor(a, j, room) == IsAnchor(b, j, room)
    {
      assert GetCell(a, j, ROOM_COLUMN) == GetCell(b, j, ROOM_COLUMN);
      IsAnchorByRoomColumn(a, b, room, j);
    }
    AnchorFromByAnchors(a, b, room, k);
  }

  lemma {:induction false} AnchorFromByAnchors(a: seq<Row>, b: seq<Row>, room: string, k: nat)
    requires |a| == |b|
    requires forall j: nat :: k <= j < |a| ==> IsAnchor(a, j, room) == IsAnchor(b, j, room)
    ensures AnchorFrom(a, room, k) == AnchorFrom(b, room, k)
    decreases |a| - k
  {
    if k < |a| && !IsAnchor(a, k, room) {
      AnchorFromByAnchors(a, b, room, k + 1);
    }
  }

  /** Placing rooms never touches column B nor the shape of the sheet, so later
      rooms find the anchors the sheet had to begin with. */
  lemma {:induction false} PlaceRoomsKeepsRoomColumn(rows: seq<Row>, gs: seq<RoomGroup>)
    ensures SameShape(rows, PlaceRooms(rows, gs).rows)
    ensures SameRoomColumn(rows, PlaceRooms(rows, gs).rows)
  {
    if gs != [] {
      var n := |gs| - 1;
      PlaceRoomsKeepsRoomColumn(rows, gs[..n]);
      var prev := PlaceRooms(rows, gs[..n]).rows;
      match AnchorRow(prev, gs[n].room)
      case None =>
      case Some(a) => WritePaxCells(prev, a, gs[n].paxList);
    }
  }

  /** The passengers of the rooms of `gs` that have an anchor in `rows`. */
  function FoundPaxRooms(rows: seq<Row>, gs: seq<RoomGroup>): nat {
    if gs == [] then 0
    else
      var g := gs[|gs| - 1];
      FoundPaxRooms(rows, gs[..|gs| - 1]) + if AnchorRow(rows, g.room).Some? then |g.paxList| else 0
  }

  lemma {:induction false} FoundPaxRoomsByRoomColumn(a: seq<Row>, b: seq<Row>, gs: seq<RoomGroup>)
    requires SameRoomColumn(a, b)
    ensures FoundPaxRooms(a, gs) == FoundPaxRooms(b, gs)
  {
    if gs != [] {
      FoundPaxRoomsByRoomColumn(a, b, gs[..|gs| - 1]);
      AnchorFromByRoomColumn(a, b, gs[|gs| - 1].room, 1);
    }
  }

  /** On one sheet, the count is every passenger of every room whose anchor the
      sheet has, whether or not its rows exist; a room without an anchor adds
      nothing. */
  lemma {:induction false} PlaceRoomsCount(rows: seq<Row>, gs: seq<RoomGroup>)
    ensures PlaceRooms(rows, gs).count == FoundPaxRooms(rows, gs)
  {
    if gs != [] {
      var n := |gs| - 1;
      PlaceRoomsCount(rows, gs[..n]);
      PlaceRoomsKeepsRoomColumn(rows, gs[..n]);
      AnchorFromByRoomColumn(rows, PlaceRooms(rows, gs[..n]).rows, gs[n].room, 1);
    }
  }

  /** Same sheet names and, sheet by sheet, the same column B. */
  ghost predicate SameSheets(a: seq<Table>, b: seq<Table>) {
    |a| == |b| && Names(a) == Names(b)
    && forall k :: 0 <= k < |a| ==> SameRoomColumn(a[k].rows, b[k].rows)
  }

  /** A floor's sheet is found by name only. */
  lemma FloorSheetByNames(a: seq<Table>, b: seq<Table>, floor: string)
    requires Names(a) == Names(b) && floor in PISO_SHEET_NAMES
    ensures FloorSheet(a, floor) == FloorSheet(b, floor)
  {
    var name := PISO_SHEET_NAMES[floor];
    SheetIndexByNames(a, b, name);
    SheetIndexByNames(a, b, ReplaceChar(name, ' ', '_'));
  }

  lemma {:induction false} PlaceAllKeepsSheets(tables: seq<Table>, d: seq<FloorGroups>)
    requires KnownFloors(d)
    ensures SameSheets(tables, PlaceAll(tables, d).tables)
  {
    if d != [] {
      var n := |d| - 1;
      PlaceAllStep(tables, d, n);
      assert d[..n + 1] == d;
      PlaceAllKeepsSheets(tables, d[..n]);
      var prev := PlaceAll(tables, d[..n]).tables;
      match FloorSheet(prev, d[n].floor)
      case None =>
      case Some(k) =>
        PlaceRoomsKeepsRoomColumn(prev[k].rows, d[n].rooms);
        SameSheetsWithRows(tables, prev, k, PlaceRooms(prev[k].rows, d[n].rooms).rows);
    }
  }

  /** Replacing one sheet's rows by rows with the same column B keeps the sheets
      the same. */
  lemma SameSheetsWithRows(tables: seq<Table>, prev: seq<Table>, k: nat, rows: seq<Row>)
    requires SameSheets(tables, prev) && k < |prev| && SameRoomColumn(prev[k].rows, rows)
    ensures SameSheets(tables, WithRows(prev, k, rows))
  {
  }

  /** The passengers of the rooms that have an anchor on their floor's sheet, for
      every floor whose sheet exists, all read from the sheets as they were. */
  function FoundPax(tables: seq<Table>, d: seq<FloorGroups>): nat
    requires KnownFloors(d)
  {
    if d == [] then 0
    else FoundPax(tables, d[..|d| - 1]) + FoundOnFloor(tables, d[|d| - 1])
  }

  /** The passengers found on one floor's sheet, none when it is missing. */
  function FoundOnFloor(tables: seq<Table>, fg: FloorGroups): nat
    requires fg.floor in PISO_SHEET_NAMES
  {
    match FloorSheet(tables, fg.floor)
    case None => 0
    case Some(k) => FoundPaxRooms(tables[k].rows, fg.rooms)
  }

  /** The final count of the distribution is the total number of passengers of
      the rooms found on the sheets of the floors whose sheet exists. */
  lemma {:induction false} PlaceAllCount(tables: seq<Table>, d: seq<FloorGroups>)
    requires KnownFloors(d)
    ensures PlaceAll(tables, d).count == FoundPax(tables, d)
  {
    if d != [] {
      var n := |d| - 1;
      PlaceAllStep(tables, d, n);
      assert d[..n + 1] == d;
      PlaceAllCount(tables, d[..n]);
      PlaceAllKeepsSheets(tables, d[..n]);
      var prev := PlaceAll(tables, d[..n]).tables;
      FloorSheetByNames(tables, prev, d[n].floor);
      match FloorSheet(prev, d[n].floor)
      case None =>
      case Some(k) =>
        PlaceRoomsCount(prev[k].rows, d[n].rooms);
        FoundPaxRoomsByRoomColumn(prev[k].rows, tables[k].rows, d[n].rooms);
    }
  }

  /** A sheet that is no floor's sheet leaves the distribution as it was. */
  lemma {:induction false} PlaceAllOtherSheet(tables: seq<Table>, d: seq<FloorGroups>, k: nat)
    requires KnownFloors(d) && k < |tables|
    requires forall f :: f in PISO_SHEET_NAMES ==> FloorSheet(tables, f) != Some(k)
    ensures k < |PlaceAll(tables, d).tables| && PlaceAll(tables, d).tables[k] == tables[k]
  {
    if d != [] {
      var n := |d| - 1;
      PlaceAllStep(tables, d, n);
      assert d[..n + 1] == d;
      PlaceAllOtherSheet(tables, d[..n], k);
      PlaceAllKeepsSheets(tables, d[..n]);
      var prev := PlaceAll(tables, d[..n]).tables;
      FloorSheetByNames(tables, prev, d[n].floor);
      assert FloorSheet(prev, d[n].floor) != Some(k);
      match FloorSheet(prev, d[n].floor)
      case None =>
      case Some(q) =>
        assert WithRows(prev, q, PlaceRooms(prev[q].rows, d[n].rooms).rows)[k] == prev[k];
    }
  }

  /** The passengers found do not depend on the rows of a sheet that is no
      floor's sheet. */
  lemma {:induction false} FoundPaxOtherSheet(tables: seq<Table>, t: nat, rows: seq<Row>, d: seq<FloorGroups>)
    requires KnownFloors(d) && t < |tables|
    requires forall f :: f in PISO_SHEET_NAMES ==> FloorSheet(tables, f) != Some(t)
    ensures FoundPax(WithRows(tables, t, rows), d) == FoundPax(tables, d)
  {
    if d != [] {
      var n := |d| - 1;
      FoundPaxOtherSheet(tables, t, rows, d[..n]);
      FoundOnFloorOtherSheet(tables, t, rows, d[n]);
    }
  }

  lemma FoundOnFloorOtherSheet(tables: seq<Table>, t: nat, rows: seq<Row>, fg: FloorGroups)
    requires fg.floor in PISO_SHEET_NAMES && t < |tables| && FloorSheet(tables, fg.floor) != Some(t)
    ensures FoundOnFloor(WithRows(tables, t, rows), fg) == FoundOnFloor(tables, fg)
  {
    var w := WithRows(tables, t, rows);
    FloorSheetByNames(tables, w, fg.floor);
    match FloorSheet(tables, fg.floor)
    case None =>
    case Some(k) => assert w[k] == tables[k];
  }

  /** An empty column-B cell reads as `None`, whose `str()` is "None": it is the
      anchor of a room written "None". */
  lemma EmptyCellReadsNone(rows: seq<Row>, i: nat)
    requires GetCell(rows, i, ROOM_COLUMN) == Some(EmptyCell)
    ensures IsAnchor(rows, i, "None")
  {
    StripOfStripped("None");
  }

  // ---------------------------------------------------------------- the methods

  /** The passengers of one room written from row `anchor` on, ten cells per
      passenger, one row down per passenger, counting each. */
  method WritePaxFrom(wb: Workbook, t: nat, anchor: nat, paxList: seq<Record>) returns (escritos: nat)
    requires t < |wb.tables|
    modifies wb
    ensures wb.tables == WithRows(old(wb.tables), t, WritePax(old(wb.tables)[t].rows, anchor, paxList))
    ensures escritos == |paxList|
  {
    ghost var tables0 := wb.tables;
    ghost var rows0 := wb.tables[t].rows;
    escritos := 0;
    var currentRow := anchor;
    var idx := 0;
    while idx < |paxList|
      invariant idx <= |paxList| && currentRow == anchor + idx && escritos == idx
      invariant wb.tables == WithRows(tables0, t, WritePax(rows0, anchor, paxList[..idx]))
    {
      var data := paxList[idx];
      ghost var before := wb.tables;
      WriteCells(wb, t, currentRow, FIRST_COLUMN, GridFields(data));
      WithRowsTwice(tables0, t, before[t].rows, wb.tables[t].rows);
      WritePaxStep(rows0, anchor, paxList, idx);
      escritos := escritos + 1;
      currentRow := currentRow + 1;
      idx := idx + 1;
    }
    assert paxList[..idx] == paxList;
  }

  /** One room of a floor: the column-B scan from row 1, stopping at the first
      anchor, then the passengers' writes; a room without an anchor is skipped. */
  method PlaceRoomGroup(wb: Workbook, t: nat, g: RoomGroup) returns (encontrado: bool, escritos: nat)
    requires t < |wb.tables|
    modifies wb
    ensures wb.tables == WithRows(old(wb.tables), t, PlaceRoom(old(wb.tables)[t].rows, g).rows)
    ensures escritos == PlaceRoom(old(wb.tables)[t].rows, g).count
    ensures encontrado <==> AnchorRow(old(wb.tables)[t].rows, g.room).Some?
  {
    ghost var rows0 := wb.tables[t].rows;
    encontrado := false;
    escritos := 0;
    var rowIdx := 1;
    while rowIdx < |wb.tables[t].rows|
      invariant 1 <= rowIdx
      invariant wb.tables == old(wb.tables)
      invariant AnchorRow(rows0, g.room) == AnchorFrom(rows0, g.room, rowIdx)
    {
      var cell := GetCell(wb.tables[t].rows, rowIdx, ROOM_COLUMN);
      if cell.Some? {
        var habValue := CellText(cell.value);
        if Strip(PyStr(habValue)) == Strip(g.room) {
          encontrado := true;
          escritos := WritePaxFrom(wb, t, rowIdx, g.paxList);
          return;
        }
      }
      rowIdx := rowIdx + 1;
    }
    assert wb.tables[t].rows == rows0;
    assert WithRows(old(wb.tables), t, rows0) == old(wb.tables);
  }

  /** The rooms of one floor placed in turn on sheet `t`. */
  method PlaceFloorRooms(wb: Workbook, t: nat, rooms: seq<RoomGroup>) returns (escritos: nat)
    requires t < |wb.tables|
    modifies wb
    ensures wb.tables == WithRows(old(wb.tables), t, PlaceRooms(old(wb.tables)[t].rows, rooms).rows)
    ensures escritos == PlaceRooms(old(wb.tables)[t].rows, rooms).count
  {
    ghost var tables0 := wb.tables;
    ghost var rows0 := wb.tables[t].rows;
    escritos := 0;
    var b := 0;
    while b < |rooms|
      invariant b <= |rooms|
      invariant wb.tables == WithRows(tables0, t, PlaceRooms(rows0, rooms[..b]).rows)
      invariant escritos == PlaceRooms(rows0, rooms[..b]).count
    {
      PlaceRoomsStep(rows0, rooms, b);
      ghost var before := wb.tables;
      var encontrado, n := PlaceRoomGroup(wb, t, rooms[b]);
      WithRowsTwice(tables0, t, before[t].rows, wb.tables[t].rows);
      escritos := escritos + n;
      b := b + 1;
    }
    assert rooms[..b] == rooms;
  }

  /** One floor of the distribution loop: its sheet looked up by name and by the
      underscored name; a missing sheet skips the floor, a found one gets every
      room placed in turn. */
  method PlaceFloorGroup(wb: Workbook, fg: FloorGroups) returns (escritos: nat)
    requires fg.floor in PISO_SHEET_NAMES
    modifies wb
    ensures Placed(wb.tables, escritos) == PlaceFloor(old(wb.tables), fg)
  {
    var sheetName := PISO_SHEET_NAMES[fg.floor];
    var sheet := SheetIndex(wb.tables, sheetName);
    if sheet.None? {
      var sheetNameAlt := ReplaceChar(sheetName, ' ', '_');
      sheet := SheetIndex(wb.tables, sheetNameAlt);
    }
    assert sheet == FloorSheet(wb.tables, fg.floor);
    escritos := 0;
    if sheet.Some? {
      escritos := PlaceFloorRooms(wb, sheet.value, fg.rooms);
    }
  }

  /** The distribution loop of `procesar_reservas`: the floors in turn. */
  method DistributeFloors(wb: Workbook, distribuidos: seq<FloorGroups>) returns (actualizaciones: nat)
    requires KnownFloors(distribuidos)
    modifies wb
    ensures wb.tables == PlaceAll(old(wb.tables), distribuidos).tables
    ensures actualizaciones == PlaceAll(old(wb.tables), distribuidos).count
  {
    ghost var tables0 := wb.tables;
    actualizaciones := 0;
    var a := 0;
    while a < |distribuidos|
      invariant a <= |distribuidos|
      invariant Placed(wb.tables, actualizaciones) == PlaceAll(tables0, distribuidos[..a])
    {
      PlaceAllStep(tables0, distribuidos, a);
      var n := PlaceFloorGroup(wb, distribuidos[a]);
      actualizaciones := actualizaciones + n;
      a := a + 1;
    }
    assert distribuidos[..a] == distribuidos;
  }
}
