# Reservation spreadsheet pipeline, modelled in Dafny

The repository keeps a hotel's passenger grid ("Grilla de Pax") up to date. The grid is an
OpenDocument spreadsheet. Three scripts work on it, and this project models what they do to the
document.

- `procesar_reservas_ods.py` reads the reservation export. It writes one row per passenger into the
  ledger sheet "Ingresos 23 D MAYO", starting at the first blank row, and fills in the three summary
  counters at H277:H279. Then it groups the passengers by room and by floor and copies each room's
  passengers into the floor grids ("PISO 1", "PISO 2", "PISO 3"). There it writes them from the row
  where column B holds the room number.
- `importar_ingresos.py` reads the same export positionally (a plain comma split, fixed field
  positions). It appends the records to the ledger sheet, with a header row first when the sheet is
  empty.
- `reducir_archivo.py` shrinks the grid to its recent stays. It removes every row, past the two header
  rows, whose latest year is earlier than the cut-off.

A sheet is a sequence of rows, and each row is a sequence of cells (`Grid`). A cell has an optional
`value` attribute and a sequence of paragraph texts. Reads prefer a non-empty attribute. Writes
replace the paragraphs and leave the attribute alone. A cell that does not exist reads as `None`, and
writing to it does nothing.

The document is a `Workbook` object whose methods change its tables in place. Each script's loops are
methods with loop invariants. Each method is proved equal to a recursive specification function, and
the lemmas state the properties of those functions.

Modules, in dependency order:

- `Strings`: Python's `strip`, `split`, `lower`, `in`, `int()` and `str()`.
- `Grid`: cells, sheets and the workbook.
- `Records`: the 14-column record and the per-room views.
- `Floors`: `get_piso_for_room`.
- `HeaderParser`: `read_csv_data`.
- `Grouping`: `agrupar_por_habitacion`.
- `Ledger` and `Summary`: the ledger import and the counters of `procesar_reservas`.
- `Placement`: the floor distribution.
- `Reservas`: the whole `procesar_reservas` run.
- `Ingresos`: `importar_ingresos.py`.
- `Reducir`: `reducir_archivo.py`.

## Model

| member | source | states |
|---|---|---|
| Strings.Strip | procesar_reservas_ods.py:119 | `strip()` never lengthens a string, and what it returns neither starts nor ends with whitespace |
| Strings.StripSlice | procesar_reservas_ods.py:119 | `strip()` returns a contiguous slice of the input and removes only whitespace, all of it at the two ends |
| Strings.StripIdempotent | procesar_reservas_ods.py:326 | stripping an already stripped string changes nothing |
| Strings.Split | importar_ingresos.py:64 | `split(',')` gives at least one piece, and no piece contains a comma |
| Strings.JoinSplit | importar_ingresos.py:64 | joining the pieces of `split(',')` with commas gives the line back |
| Strings.SplitJoin | importar_ingresos.py:64 | splitting comma-free fields joined by commas gives the fields back |
| Strings.SplitCount | importar_ingresos.py:64 | a line with k commas splits into exactly k + 1 fields |
| Strings.ReplaceChar | procesar_reservas_ods.py:306 | `replace(' ', '_')` keeps the length and swaps exactly the spaces |
| Strings.Lower | procesar_reservas_ods.py:274 | `lower()` maps every character through the lowercase mapping and keeps the length |
| Strings.LowerKeepsOccurrence | procesar_reservas_ods.py:274 | lowercasing a string keeps each occurrence of a word in place, lowercased |
| Strings.ContainsIff | procesar_reservas_ods.py:274 | `sub in s` holds exactly when `sub` occurs at some position of `s` |
| Strings.ParseInt | procesar_reservas_ods.py:43 | `int(s.strip())` succeeds exactly on an optional sign followed by digits |
| Strings.NatToString | procesar_reservas_ods.py:280-282 | `str(n)` of a count is a non-empty run of digits |
| Strings.IntOfStr | procesar_reservas_ods.py:280-282 | `int(str(n)) == n`: a counter written as text reads back as the count |
| Strings.NonNumericRefused | procesar_reservas_ods.py:42-49 | a room holding anything other than a signed run of digits makes `int()` fail, so it never raises past the handler |
| Grid.GetCell | procesar_reservas_ods.py:98-106 | `get_cell` returns the cell exactly when both the row and the column exist, and `None` otherwise |
| Grid.ReadAfterWrite | procesar_reservas_ods.py:51-83 | after `set_cell_value(c, v)`, `get_cell_value` gives `v`, except that a non-empty `value` attribute still wins |
| Grid.WrittenIdempotent | procesar_reservas_ods.py:70-83 | writing the same value twice leaves what one write leaves |
| Grid.SetCell | procesar_reservas_ods.py:70-83 | writing a cell keeps the sheet's shape and changes that one cell only; a missing cell is a no-op |
| Grid.WriteRow | procesar_reservas_ods.py:247-260 | a run of writes along a row changes exactly the cells of that run, each to its own value |
| Grid.GridExt | procesar_reservas_ods.py:98-106 | two sheets of the same shape that agree at every `get_cell` are the same sheet |
| Grid.SheetIndex | procesar_reservas_ods.py:85-91 | `get_sheet_by_name` finds the first table with that name, or `None` when no table has it |
| Grid.FindSheet | importar_ingresos.py:132-138 | the loop over the tables stops at the first table with the name, or finds none |
| Grid.SheetIndexByNames | procesar_reservas_ods.py:85-91 | the sheet lookup depends on the table names only |
| Grid.WriteCells | procesar_reservas_ods.py:247-260 | a run of `set_cell_value` calls along one row leaves that table's rows as `WriteRow` of the old rows, and no other table changes |
| Grid.Workbook.SetCellValue | procesar_reservas_ods.py:70-83 | in place, the sheet's new rows are `SetCell` of the old rows, and no other table changes |
| Grid.Workbook.AppendRow | importar_ingresos.py:158 | `appendChild(row)` adds the row after the last one and changes nothing else |
| Grid.Workbook.RemoveRowAt | reducir_archivo.py:114 | `removeChild(row)` deletes that row and closes the gap |
| Records.FieldsRoundTrip | importar_ingresos.py:20-35 | a record is exactly its 14 values in `HEADERS` order, in both directions |
| Records.RoomsDistinct | procesar_reservas_ods.py:154-158 | the dict's keys are listed once each |
| Records.RoomsAre | procesar_reservas_ods.py:154-158 | a room is a key of the dict exactly when some record carries it |
| Records.PaxOf | procesar_reservas_ods.py:156-158 | a room's list holds exactly the records of that room |
| Records.PaxPositionsAre | procesar_reservas_ods.py:154-158 | the positions behind a room's list are exactly the positions of the records carrying that room |
| Records.PaxPositionsAscending | procesar_reservas_ods.py:154-158 | those positions are strictly ascending, the order the loop appends in |
| Records.PaxOfAtPositions | procesar_reservas_ods.py:154-158 | a room's list has one entry per position, and entry k is the record at the k-th position, so input order and repeated records are kept |
| Records.RoomsInFirstAppearanceOrder | procesar_reservas_ods.py:154-162 | the rooms come in the order of their first record |
| Records.CountByRoomIsPaxCount | importar_ingresos.py:103-106 | the keys of `room_count` are the distinct rooms, and each room's count is the number of its records |
| Records.CountsAddUp | importar_ingresos.py:103-108 | the values of `room_count` add up to the number of records |
| Floors.FirstCovering | procesar_reservas_ods.py:44-46 | the first range, in table order, that holds the number, or none when no range holds it |
| Floors.PisoForRoom | procesar_reservas_ods.py:40-49 | the floor returned is always one of the floors with a grid sheet |
| Floors.FirstRangeWins | procesar_reservas_ods.py:44-46 | among overlapping ranges, the first one in table order decides the floor |
| Floors.OutsideEveryRange | procesar_reservas_ods.py:44-49 | a number outside every range has no floor |
| Floors.NonNumericUnassigned | procesar_reservas_ods.py:42-49 | a room that is not a number has no floor |
| Floors.PisoOfNumber | procesar_reservas_ods.py:20-24 | room n is on PISO_1 for 101..121, PISO_2 for 222..242, PISO_3 for 343..353, and on no floor otherwise |
| Floors.LowerBoundaryRoom | procesar_reservas_ods.py:20-24 | "101" is on PISO_1 (the ranges are closed) |
| Floors.UpperBoundaryRoom | procesar_reservas_ods.py:20-24 | "121" is on PISO_1 |
| Floors.PastBoundaryRoom | procesar_reservas_ods.py:20-24 | "122" is on no floor |
| Floors.AnnexUnassigned | procesar_reservas_ods.py:42-49 | "ANEXO" is on no floor, and no exception escapes |
| HeaderParser.HeaderRecord | procesar_reservas_ods.py:127-142 | HAB is the stripped room, every other field is its column or '' when the column is missing, and OBSERVACIONES is '' |
| HeaderParser.ReadCsvData | procesar_reservas_ods.py:112-150 | the loop returns one record per row whose stripped room is not empty, in row order |
| HeaderParser.HeaderRecordsAppend | procesar_reservas_ods.py:118-144 | rows are parsed independently: the records of two stretches of rows concatenate |
| HeaderParser.HeaderRecordsSingle | procesar_reservas_ods.py:119-122 | a row yields its record exactly when its stripped room is not empty |
| HeaderParser.HeaderRecordsHaveRooms | procesar_reservas_ods.py:119-141 | every record has a non-empty room that is already stripped, and an empty OBSERVACIONES |
| HeaderParser.HeaderRecordsLength | procesar_reservas_ods.py:118-144 | there is at most one record per row |
| Grouping.RoomGroups | procesar_reservas_ods.py:154-158 | one group per distinct room, in first-appearance order, holding that room's records |
| Grouping.FloorIndex | procesar_reservas_ods.py:165 | `piso in distribuidos` finds the floor's entry exactly when it exists |
| Grouping.GroupsOn | procesar_reservas_ods.py:162-170 | the groups on a floor are exactly the groups whose room maps to that floor |
| Grouping.RoomMapStep | procesar_reservas_ods.py:156-158 | each step of the first loop keeps the room map exact: its keys in insertion order, each room's records |
| Grouping.FillRoomMap | procesar_reservas_ods.py:154-158 | the first loop's keys are the rooms in first-appearance order, and each room maps to exactly its records |
| Grouping.FillFloors | procesar_reservas_ods.py:160-172 | the second loop files each room group under its floor, as `Bucket` does |
| Grouping.GroupByRoom | procesar_reservas_ods.py:152-172 | the two loops produce `Distribution(registros)` |
| Grouping.AddToFloorEffect | procesar_reservas_ods.py:164-170 | appending a group adds it to the end of its floor's list only, keeping floors distinct and non-empty |
| Grouping.BucketShape | procesar_reservas_ods.py:160-172 | floors are distinct and non-empty, and each floor's list is exactly its groups, in order |
| Grouping.DistributionFloors | procesar_reservas_ods.py:160-172 | each floor entry holds exactly that floor's room groups, and a floor has an entry exactly when some record's room is on it |
| Grouping.DistributionGroups | procesar_reservas_ods.py:154-170 | every filed group's room is on its floor; its pax list is never empty, and its k-th passenger is the record at the k-th of the ascending positions of that room's records |
| Grouping.GroupsOnNonEmpty | procesar_reservas_ods.py:163-166 | a floor has groups exactly when some record's room is on that floor |
| Grouping.EveryAssignedRecordPlaced | procesar_reservas_ods.py:152-172 | every record whose room has a floor appears in its room's group under that floor |
| Grouping.FiledOnce | procesar_reservas_ods.py:152-172 | a room is filed at one place only: the grouping is a partition |
| Grouping.GroupsOnDistinctRooms | procesar_reservas_ods.py:162-170 | no room appears twice on a floor |
| Grouping.FloorInFirstAppearanceOrder | procesar_reservas_ods.py:162-170 | the rooms of a floor are ordered by their first record |
| Ledger.FirstBlankFrom | procesar_reservas_ods.py:226-230 | the first row at or after k whose column-A cell exists and reads empty |
| Ledger.LedgerStart | procesar_reservas_ods.py:221-230 | `start_row` is the first index from 1 whose column-A cell exists and reads empty, and stays 1 when there is none |
| Ledger.FindStartRow | procesar_reservas_ods.py:221-230 | the search loop computes `LedgerStart` |
| Ledger.NewLedgerRow | procesar_reservas_ods.py:240-242 | a new row is 14 empty cells |
| Ledger.PadTo | procesar_reservas_ods.py:239-244 | rows of 14 empty cells are appended until row r exists; the existing rows are kept |
| Ledger.PadToCells | procesar_reservas_ods.py:239-244 | after padding, the old cells are unchanged, the new rows' 14 cells are empty, and there is nothing beyond them |
| Ledger.PadLedger | procesar_reservas_ods.py:239-244 | in place, rows of 14 empty cells are appended until row r exists, and no other table changes |
| Ledger.ImportRecord | procesar_reservas_ods.py:236-260 | one record: the sheet is padded to its row, then its 14 fields are written there, column A first |
| Ledger.ImportLedger | procesar_reservas_ods.py:235-260 | in place, the ledger's rows become `LedgerRows` of the old rows, and no other table changes |
| Ledger.LedgerPlacement | procesar_reservas_ods.py:235-260 | record i is written to row start + i, columns 0 to 13; every other cell is as before, and rows are only appended |
| Ledger.LedgerKeepsOtherRows | procesar_reservas_ods.py:235-260 | rows outside the import window are unchanged |
| Ledger.LedgerReadBack | procesar_reservas_ods.py:247-260 | a written cell without a `value` attribute reads back as the record's field |
| Summary.MealPlanCount | procesar_reservas_ods.py:274-275 | the meal-plan count never exceeds the number of records |
| Summary.ComputeSummary | procesar_reservas_ods.py:267-277 | passengers = number of records, rooms = number of distinct HAB values, MAP = number of meal-plan records |
| Summary.DistinctRoomCount | procesar_reservas_ods.py:267-277 | the size of the set of rooms is the number of distinct rooms in order of appearance |
| Summary.MealPlanCountAppend | procesar_reservas_ods.py:271-275 | the meal-plan count of two stretches of records is the sum of their counts |
| Summary.NoMealPlans | procesar_reservas_ods.py:274-275 | the count is 0 exactly when no record's MAP mentions 'comida' or 'pensión' |
| Summary.HalfBoardCounts | procesar_reservas_ods.py:274 | "Media Pensión" counts as a meal plan |
| Summary.WriteSummary | procesar_reservas_ods.py:279-282 | in place, the ledger's rows become `SummaryRows`, and no other table changes |
| Summary.SummaryCells | procesar_reservas_ods.py:280-282 | the three counters go to column 7 of rows 276, 277 and 278; every other cell and the shape are unchanged |
| Summary.SummaryIdempotent | procesar_reservas_ods.py:280-282 | writing the same counters again changes nothing |
| Summary.SummaryDroppedOnShortSheet | procesar_reservas_ods.py:280-282 | on a sheet without row 276 the writes are silently dropped |
| Summary.SummaryReadBack | procesar_reservas_ods.py:280-282 | a counter cell without a `value` attribute reads back, through `int()`, as the counter |
| Placement.AnchorFrom | procesar_reservas_ods.py:322-327 | the first row at or after k whose column-B text, trimmed, equals the trimmed room |
| Placement.AnchorRow | procesar_reservas_ods.py:320-327 | the anchor is the first row from 1 whose column-B text, trimmed, equals the trimmed room; none exactly when there is no such row |
| Placement.EmptyCellReadsNone | procesar_reservas_ods.py:323-326 | an empty column-B cell reads as `None`, whose `str()` is "None", so it anchors the room "None" |
| Placement.GridFieldsAreLedgerFields | procesar_reservas_ods.py:334-343 | the grid's columns C to L get IN, OUT, PAX, ID, N.º, NOMBRE, EDAD, VOUCHER, MAP and ESTADO, the ledger's columns 1 to 10 |
| Placement.WritePaxCells | procesar_reservas_ods.py:331-347 | passenger i goes to row anchor + i, columns 2 to 11; no other cell changes; writes past the last row are no-ops |
| Placement.PlaceRoomsKeepsRoomColumn | procesar_reservas_ods.py:316-349 | distributing never changes the sheet's shape or its column B, so later rooms find the same anchors |
| Placement.PlaceRoomsCount | procesar_reservas_ods.py:316-349 | the count for a floor is the total passengers of its rooms that have an anchor, with no-op writes counted too |
| Placement.FloorSheetByNames | procesar_reservas_ods.py:304-307 | a floor's sheet (its name, then that name with underscores) depends on the table names only |
| Placement.PlaceAllKeepsSheets | procesar_reservas_ods.py:300-349 | the distribution keeps every table's name, shape and column B |
| Placement.PlaceAllCount | procesar_reservas_ods.py:298-352 | the final count is the total passengers of the rooms found on floor sheets that exist; a missing sheet or room adds nothing |
| Placement.PlaceAllOtherSheet | procesar_reservas_ods.py:300-352 | a table that is no floor's sheet is untouched |
| Placement.FoundPaxOtherSheet | procesar_reservas_ods.py:300-352 | rewriting a table that is no floor's sheet does not change what the distribution finds |
| Placement.WritePaxFrom | procesar_reservas_ods.py:331-347 | the `current_row` loop writes `WritePax` in place and counts every passenger |
| Placement.PlaceRoomGroup | procesar_reservas_ods.py:316-352 | one room: found exactly when it has an anchor; its passengers are written from there and counted, or nothing changes |
| Placement.PlaceFloorRooms | procesar_reservas_ods.py:314-352 | the rooms of one floor, in order, on its sheet, with their count |
| Placement.PlaceFloorGroup | procesar_reservas_ods.py:300-352 | one floor: its sheet is looked up by name, then by the underscored name; a missing sheet skips it, and otherwise its rooms are placed and counted |
| Placement.DistributeFloors | procesar_reservas_ods.py:298-352 | the floor loop leaves `PlaceAll` of the document and returns its count |
| Reservas.ProcessReservations | procesar_reservas_ods.py:195-357 | fails, leaving the document untouched, exactly when there is no record or no ledger sheet; otherwise the document and both counts are those of `Process` |
| Reservas.ProcessFails | procesar_reservas_ods.py:197-219 | the run fails exactly when the export has no record or the document has no ledger sheet under either name |
| Reservas.FloorSheetNotLedger | procesar_reservas_ods.py:209-211 | no floor's sheet can be the ledger sheet, so the distribution never overwrites the import |
| Reservas.ProcessedLedger | procesar_reservas_ods.py:209-282 | the ledger ends up as the import from `start_row` followed by the three counters; all sheet names are kept |
| Reservas.ProcessedCounts | procesar_reservas_ods.py:298-357 | the imported count is the number of records, and the distributed count is the passengers of the rooms found in the original floor sheets |
| Reservas.ProcessedOtherSheets | procesar_reservas_ods.py:205-352 | a table that is neither the ledger nor a floor sheet is untouched |
| Reservas.DistributionKnown | procesar_reservas_ods.py:300-301 | every floor of the grouping has a sheet name, so `PISO_SHEET_NAMES[piso_interno]` never fails |
| Ingresos.PositionalRecord | importar_ingresos.py:68-98 | ledger column k comes from field `POSITIONS[k]` (HAB=2, IN=8, OUT=9, PAX=5, ID=11, N.º=12, NOMBRE=13, EDAD=14, VOUCHER=6, MAP=16, ESTADO=23, BENEFICIO=17, SEDE=7, OBSERVACIONES=4), untrimmed |
| Ingresos.OutcomeAt | importar_ingresos.py:60-67 | there is one outcome per line, and line i's outcome is what stripping, splitting and picking the fields of line i gives |
| Ingresos.RecordLines | importar_ingresos.py:60-100 | the lines that give a record are exactly those from line 1 on that parse, in ascending order |
| Ingresos.ShortLinesAre | importar_ingresos.py:110-112 | the lines skipped as incomplete are exactly those from line 1 on with too few fields, in ascending order |
| Ingresos.ReadWithJsLogic | importar_ingresos.py:52-118 | the loop returns `PositionalRecords`; `room_count` is the per-room count of the records, `people_count` is their number, and the incomplete lines are reported |
| Ingresos.ParseLineByCommas | importar_ingresos.py:61-98 | a line is blank exactly when it is empty once stripped; a non-blank stripped line gives a record exactly when it has at least 23 commas, and is skipped as short otherwise; a parsed line's ledger column k is its field `POSITIONS[k]` |
| Ingresos.JoinedLineParsed | importar_ingresos.py:64-98 | a line of 24 or more comma-free fields gives the record at the fixed positions |
| Ingresos.RecordsFromLines | importar_ingresos.py:60-100 | record k is the record of the k-th parsing line: records keep line order |
| Ingresos.HeaderLineIgnored | importar_ingresos.py:59-60 | line 0 never contributes, whatever it holds |
| Ingresos.AppendLine | importar_ingresos.py:60-112 | one more line adds its record, when it has one, at the end; a short line does not stop the rest |
| Ingresos.RecordsBound | importar_ingresos.py:60 | there are at most `len(lines) - 1` records |
| Ingresos.HeadersNonEmpty | importar_ingresos.py:20-35 | every header is non-empty text |
| Ingresos.NewHeaderRow | importar_ingresos.py:153-157 | the header row, one text cell per header |
| Ingresos.HeaderRowCells | importar_ingresos.py:153-157 | the header row has 14 cells, and cell k reads as header k |
| Ingresos.NewRecordRow | importar_ingresos.py:163-170 | a record's row, one cell per header in order, empty for an empty value |
| Ingresos.RecordRowRoundTrip | importar_ingresos.py:163-170 | a record's row has 14 cells and reads back as the record |
| Ingresos.ImportToOds | importar_ingresos.py:132-172 | without the sheet nothing changes; otherwise the sheet's rows become `ImportedRows`, and no other table changes |
| Ingresos.ImportedKeepsRows | importar_ingresos.py:146-172 | the old rows are untouched, the header row comes first only when the sheet was empty, and one row per record follows |
| Ingresos.ImportedRecordAt | importar_ingresos.py:162-172 | record k is appended at row `len(rows) + k` (one further down below a new header row) and reads back as record k |
| Reducir.MaxYear | reducir_archivo.py:55-57 | `None` exactly when no year was found, otherwise a found year that no other found year exceeds |
| Reducir.ExtractYear | reducir_archivo.py:19-57 | collects the years cell by cell and returns the latest, or `None` when no cell holds one |
| Reducir.KeptPositionsAre | reducir_archivo.py:84-94 | the kept positions are exactly the rows examined whose decision is to keep |
| Reducir.RemovedPositionsAre | reducir_archivo.py:90-98 | the removed positions are exactly the rows examined whose decision is to remove |
| Reducir.RowsRemovedAre | reducir_archivo.py:84-98 | a row is removed exactly when it is past the headers and dated before `min_year`, and kept exactly when it is a header row, undated, or dated `min_year` or later |
| Reducir.KeptPositionsAscending | reducir_archivo.py:84-94 | the kept rows are listed in their original order |
| Reducir.RemovedPositionsAscending | reducir_archivo.py:90-98 | the rows to remove are listed in their original order |
| Reducir.KeptRowsAtPositions | reducir_archivo.py:84-94 | `rows_to_keep` holds the rows at the kept positions, in order |
| Reducir.FilterPartitions | reducir_archivo.py:77-119 | removed + kept = total rows |
| Reducir.KeptRowsPrefix | reducir_archivo.py:84-98 | the filter only drops rows: what is kept of a shorter stretch begins what is kept of a longer one |
| Reducir.HeadersKept | reducir_archivo.py:84-88 | rows 0 and 1 are always kept, at the top, whatever they hold |
| Reducir.AllKept | reducir_archivo.py:84-98 | when every row stays, the sheet is unchanged |
| Reducir.EarlyCutOffKeepsAll | reducir_archivo.py:93 | a cut-off no later than 2000 removes nothing |
| Reducir.FilterIdempotent | reducir_archivo.py:59-119 | reducing an already reduced sheet removes nothing more |
| Reducir.YearStatsCount | reducir_archivo.py:93-99 | `year_stats` counts every dated row past the headers exactly once under its year, kept or removed, and holds no other year |
| Reducir.AfterRemovalsBeforeLast | reducir_archivo.py:111-115 | removals before the last row keep it last, and each removal takes exactly one row |
| Reducir.RemovalKeepsKept | reducir_archivo.py:111-117 | removing `rows_to_remove` one by one leaves exactly `rows_to_keep`, in order |
| Reducir.ClassifyRows | reducir_archivo.py:84-99 | the first loop builds the rows to keep, the positions to remove and the year counts of the specification |
| Reducir.RemoveRows | reducir_archivo.py:111-115 | the `removeChild` loop removes each listed row, in place, and counts them |
| Reducir.FilterSheetByYear | reducir_archivo.py:59-119 | without that exact sheet, (0, 0) and nothing changes; otherwise the sheet keeps just the kept rows, in order, and the counts are the removed and kept rows, adding up to the total |

## Left out

- The odfpy document layer (`load`, `getElementsByType`, `addElement`, `removeChild`) is replaced
  by the grid of `Grid`: tables of rows of cells, each cell an optional `value` attribute and its
  paragraph texts. Rows nested inside row groups, repeated-column attributes and cell types other
  than text are not modelled.
- File input and output are not modelled: backups with `shutil.copy2`, `doc.save`, the `TEMP_` file
  written when the ledger file is locked, and the `Path.exists` checks. The export arrives as
  values: a list of column-to-text maps for `read_csv_data`, and a list of lines for
  `read_csv_with_js_logic`.
- `csv.DictReader` is not modelled. `HeaderParser` takes its rows already decoded, so short rows
  with `None` values do not arise.
- Reservas.ProcessReservations: the success value is that of the import and distribution. A failing
  `doc.save` would also return `False`, and saving is not modelled.
- The regular expressions of `extract_year_from_row` are not modelled. The years found in a row are
  an input, `yearsIn` (per cell for `ExtractYear`). A year is what `20\d{2}` matches, so it lies in
  2000..2099 and the `if year:` test is always true for it.
- Reducir.FilterSheetByYear: every row is identified by its original position. `removeChild`
  removes a row by identity, and the model computes where that row now stands.
- `year_stats` is only printed by the script. `ClassifyRows` returns it so that its contents can be
  stated. The per-1000-rows progress line and the per-year report are left out.
- `strip()` and `int()` strip the characters `str.isspace()` accepts, written out as a fixed list. `lower()` knows the ASCII capitals and the Spanish
  accented capitals. `int()` accepts an optional sign and ASCII digits, with no underscores and no
  other Unicode digits.
- Printing, `sys.exit`, argument handling, the percentage and file-size report of
  `reducir_archivo.py`, and `create_backup`'s timestamp are left out.
- `importar_y_distribuir.py` only runs other scripts, and `templates/exportador.py` is a pandas
  report. Neither is part of this model.
- When the positional importer cannot find its sheet, the script exits. In the model,
  `ImportToOds` returns `false` and leaves the document unchanged.
