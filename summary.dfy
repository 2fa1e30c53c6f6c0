/** The summary block of `procesar_reservas`: passengers, distinct rooms and
    meal-plan passengers, recomputed from the records and written as text to
    H277:H279 of the ledger sheet. */
module Summary {
  import opened Strings
  import opened Grid
  import opened Records

  /** Column H, and the rows of H277, H278 and H279 (0-based). */
  const SUMMARY_COLUMN: nat := 7
  const PAX_ROW: nat := 276
  const ROOMS_ROW: nat := 277
  const MEALS_ROW: nat := 278

  /** The lowercased MAP field mentions 'comida' or 'pensión'. */
  predicate IsMealPlan(r: Record) {
    Contains(Lower(r.mealPlan), "comida") || Contains(Lower(r.mealPlan), "pensión")
  }

  /** How many records have a meal plan. */
  function MealPlanCount(recs: seq<Record>): (n: nat)
    ensures n <= |recs|
  {
    if recs == [] then 0
    else MealPlanCount(recs[..|recs| - 1]) + if IsMealPlan(recs[|recs| - 1]) then 1 else 0
  }

  /** The counting loop of `procesar_reservas`: a set of rooms and two counters. */
  method ComputeSummary(registros: seq<Record>) returns (totalPax: nat, cantHabitaciones: nat, totalMap: nat)
    ensures totalPax == |registros|
    ensures cantHabitaciones == |RoomSet(registros)|
    ensures totalMap == MealPlanCount(registros)
  {
    var habitacionesUnicas: set<string> := {};
    totalPax := 0;
    totalMap := 0;
    var i := 0;
    while i < |registros|
      invariant i <= |registros|
      invariant habitacionesUnicas == RoomSet(registros[..i])
      invariant totalPax == i
      invariant totalMap == MealPlanCount(registros[..i])
    {
      var registro := registros[i];
      assert registros[..i + 1] == registros[..i] + [registro];
      assert registros[..i + 1][..i] == registros[..i];
      RoomSetSnoc(registros[..i], registro);
      assert MealPlanCount(registros[..i + 1]) ==
             MealPlanCount(registros[..i]) + if IsMealPlan(registro) then 1 else 0;
      habitacionesUnicas := habitacionesUnicas + {registro.hab};
      totalPax := totalPax + 1;
      var servicio := Lower(registro.mealPlan);
      if Contains(servicio, "comida") || Contains(servicio, "pensión") {
        totalMap := totalMap + 1;
      }
      i := i + 1;
    }
    assert registros[..i] == registros;
    cantHabitaciones := |habitacionesUnicas|;
  }

  /** The number of distinct rooms is the length of the first-appearance list. */
  lemma {:induction false} DistinctRoomCount(recs: seq<Record>)
    ensures |RoomSet(recs)| == |Rooms(recs)|
  {
    if recs != [] {
      var n := |recs| - 1;
      var prev := recs[..n];
      var x := recs[n];
      assert recs == prev + [x];
      DistinctRoomCount(prev);
      RoomSetIsRooms(prev);
      RoomSetSnoc(prev, x);
      RoomsSnoc(prev, x);
      if x.hab in RoomSet(prev) {
        assert RoomSet(prev) + {x.hab} == RoomSet(prev);
      } else {
        assert x.hab !in Rooms(prev);
        assert |RoomSet(prev) + {x.hab}| == |RoomSet(prev)| + 1;
      }
    }
  }

  /** The meal-plan count over two stretches of records is the sum of the two. */
  lemma {:induction false} MealPlanCountAppend(a: seq<Record>, b: seq<Record>)
    ensures MealPlanCount(a + b) == MealPlanCount(a) + MealPlanCount(b)
    decreases |b|
  {
    if b == [] {
      assert a + b == a;
    } else {
      var n := |b| - 1;
      assert (a + b)[..|a + b| - 1] == a + b[..n];
      MealPlanCountAppend(a, b[..n]);
    }
  }

  /** The count is zero exactly when no record has a meal plan. */
  lemma {:induction false} NoMealPlans(recs: seq<Record>)
    ensures MealPlanCount(recs) == 0 <==> forall k :: 0 <= k < |recs| ==> !IsMealPlan(recs[k])
  {
    if recs != [] {
      var n := |recs| - 1;
      NoMealPlans(recs[..n]);
      assert forall k :: 0 <= k < n ==> recs[..n][k] == recs[k];
    }
  }

  lemma LowerPension()
    ensures Lower("Pensión") == "pensión"
  {
  }

  /** A MAP field reading "Media Pensión" counts. */
  lemma HalfBoardCounts(r: Record)
    requires r.mealPlan == "Media Pensión"
    ensures IsMealPlan(r)
  {
    var low := Lower(r.mealPlan);
    assert OccursAt(r.mealPlan, "Pensión", 6);
    LowerKeepsOccurrence(r.mealPlan, "Pensión", 6);
    LowerPension();
    ContainsAt(low, "pensión", 6);
  }

  // ---------------------------------------------------------------- writing

  /** The ledger rows once the three values were written, as decimal text. */
  function SummaryRows(rows: seq<Row>, pax: nat, rooms: nat, meals: nat): seq<Row> {
    var r1 := SetCell(rows, PAX_ROW, SUMMARY_COLUMN, Some(NatToString(pax)));
    var r2 := SetCell(r1, ROOMS_ROW, SUMMARY_COLUMN, Some(NatToString(rooms)));
    SetCell(r2, MEALS_ROW, SUMMARY_COLUMN, Some(NatToString(meals)))
  }

  /** The three writes of `procesar_reservas`, each dropped when its cell is
      missing. */
  method WriteSummary(wb: Workbook, t: nat, pax: nat, rooms: nat, meals: nat)
    requires t < |wb.tables|
    modifies wb
    ensures wb.tables == WithRows(old(wb.tables), t, SummaryRows(old(wb.tables)[t].rows, pax, rooms, meals))
  {
    ghost var tables0 := wb.tables;
    wb.SetCellValue(t, PAX_ROW, SUMMARY_COLUMN, Some(NatToString(pax)));
    ghost var t1 := wb.tables;
    wb.SetCellValue(t, ROOMS_ROW, SUMMARY_COLUMN, Some(NatToString(rooms)));
    WithRowsTwice(tables0, t, t1[t].rows, wb.tables[t].rows);
    ghost var t2 := wb.tables;
    wb.SetCellValue(t, MEALS_ROW, SUMMARY_COLUMN, Some(NatToString(meals)));
    WithRowsTwice(tables0, t, t2[t].rows, wb.tables[t].rows);
  }

  /** Only H277, H278 and H279 change, each written with its value; the shape of
      the sheet stays. */
  lemma SummaryCells(rows: seq<Row>, pax: nat, rooms: nat, meals: nat)
    ensures SameShape(rows, SummaryRows(rows, pax, rooms, meals))
    ensures forall i: nat, j: nat :: GetCell(SummaryRows(rows, pax, rooms, meals), i, j) ==
              if j == SUMMARY_COLUMN && i == PAX_ROW then WriteAt(GetCell(rows, i, j), Some(NatToString(pax)))
              else if j == SUMMARY_COLUMN && i == ROOMS_ROW then WriteAt(GetCell(rows, i, j), Some(NatToString(rooms)))
              else if j == SUMMARY_COLUMN && i == MEALS_ROW then WriteAt(GetCell(rows, i, j), Some(NatToString(meals)))
              else GetCell(rows, i, j)
  {
  }

  /** The values are recomputed from scratch: writing the same summary twice
      leaves the sheet as writing it once. */
  lemma SummaryIdempotent(rows: seq<Row>, pax: nat, rooms: nat, meals: nat)
    ensures SummaryRows(SummaryRows(rows, pax, rooms, meals), pax, rooms, meals) == SummaryRows(rows, pax, rooms, meals)
  {
    var once := SummaryRows(rows, pax, rooms, meals);
    var twice := SummaryRows(once, pax, rooms, meals);
    SummaryCells(rows, pax, rooms, meals);
    SummaryCells(once, pax, rooms, meals);
    forall i: nat, j: nat ensures GetCell(twice, i, j) == GetCell(once, i, j) {
      if GetCell(rows, i, j).Some? {
        var c := GetCell(rows, i, j).value;
        WrittenIdempotent(c, Some(NatToString(pax)));
        WrittenIdempotent(c, Some(NatToString(rooms)));
        WrittenIdempotent(c, Some(NatToString(meals)));
      }
    }
    GridExt(twice, once);
  }

  /** A sheet too short to hold H277 is left unchanged. */
  lemma SummaryDroppedOnShortSheet(rows: seq<Row>, pax: nat, rooms: nat, meals: nat)
    requires |rows| <= PAX_ROW
    ensures SummaryRows(rows, pax, rooms, meals) == rows
  {
  }

  /** Each of H277, H278 and H279 reads back as its number when the cell has no
      `value` attribute. */
  lemma SummaryReadBack(rows: seq<Row>, pax: nat, rooms: nat, meals: nat, i: nat, v: nat)
    requires (i == PAX_ROW && v == pax) || (i == ROOMS_ROW && v == rooms) || (i == MEALS_ROW && v == meals)
    requires GetCell(rows, i, SUMMARY_COLUMN).Some? && !HasValue(GetCell(rows, i, SUMMARY_COLUMN).value)
    ensures GetCell(SummaryRows(rows, pax, rooms, meals), i, SUMMARY_COLUMN).Some?
    ensures match CellText(GetCell(SummaryRows(rows, pax, rooms, meals), i, SUMMARY_COLUMN).value)
            case None => false
            case Some(text) => ParseInt(text) == Some(v)
  {
    SummaryCells(rows, pax, rooms, meals);
    ReadAfterWrite(GetCell(rows, i, SUMMARY_COLUMN).value, Some(NatToString(v)));
    IntOfStr(v);
  }
}
