/** `reducir_archivo.py`: the pax grid shrunk to its recent stays. Every row of
    the named sheet after the two header rows is dated by the latest year found in
    its cells; rows dated before the cut-off year are removed from the document,
    undated rows and rows of the cut-off year or later stay, in their order. */
module Reducir {
  import opened Strings
  import opened Grid

  /** The sheet the script reduces. */
  const SHEET_NAME: string := "Ingresos 23 D MAYO"

  /** The rows before this index are headers and always stay. */
  const HEADER_ROWS: nat := 2

  /** What the pattern `20\d{2}` can match: a year of this century. */
  type Year = y: int | 2000 <= y <= 2099 witness 2000

  // ---------------------------------------------------------------- dating a row

  /** `max(years_found)`, or `None` when no year was found. */
  function MaxYear(ys: seq<Year>): (r: Option<Year>)
    ensures r.None? <==> ys == []
    ensures r.Some? ==> r.value in ys && forall y :: y in ys ==> y <= r.value
  {
    if ys == [] then None
    else
      var last := ys[|ys| - 1];
      assert ys == ys[..|ys| - 1] + [last];
      match MaxYear(ys[..|ys| - 1])
      case None => Some(last)
      case Some(m) => Some(if last > m then last else m)
  }

  /** The years found in each cell, one cell after the other. */
  function Flatten(cellYears: seq<seq<Year>>): seq<Year> {
    if cellYears == [] then [] else Flatten(cellYears[..|cellYears| - 1]) + cellYears[|cellYears| - 1]
  }

  lemma {:induction false} InFlatten(cellYears: seq<seq<Year>>, y: Year)
    ensures y in Flatten(cellYears) <==> exists c :: 0 <= c < |cellYears| && y in cellYears[c]
  {
    if cellYears != [] {
      var n := |cellYears| - 1;
      InFlatten(cellYears[..n], y);
      assert forall c :: 0 <= c < n ==> cellYears[..n][c] == cellYears[c];
    }
  }

  /** `extract_year_from_row` given what the scan finds in each cell: the years are
      collected cell by cell into `years_found`, and the latest is returned, or
      `None` when there is none. */
  method ExtractYear(cellYears: seq<seq<Year>>) returns (year: Option<Year>)
    ensures year == MaxYear(Flatten(cellYears))
    ensures year.None? <==> forall c :: 0 <= c < |cellYears| ==> cellYears[c] == []
    ensures year.Some? ==> (exists c :: 0 <= c < |cellYears| && year.value in cellYears[c])
                           && forall c, y :: 0 <= c < |cellYears| && y in cellYears[c] ==> y <= year.value
  {
    var yearsFound: seq<Year> := [];
    for i := 0 to |cellYears|
      invariant yearsFound == Flatten(cellYears[..i])
    {
      assert cellYears[..i + 1][..i] == cellYears[..i];
      yearsFound := yearsFound + cellYears[i];
    }
    assert cellYears[..|cellYears|] == cellYears;
    year := MaxYear(yearsFound);
    if year.Some? {
      InFlatten(cellYears, year.value);
      forall c, y | 0 <= c < |cellYears| && y in cellYears[c]
        ensures y <= year.value
      {
        InFlatten(cellYears, y);
      }
    } else {
      forall c | 0 <= c < |cellYears|
        ensures cellYears[c] == []
      {
        if cellYears[c] != [] {
          InFlatten(cellYears, cellYears[c][0]);
        }
      }
    }
  }

  /** `extract_year_from_row`: the latest of the years `yearsIn` finds in the
      row's cells. */
  function YearOf(rows: seq<Row>, yearsIn: Row -> seq<Year>, i: nat): Option<Year>
    requires i < |rows|
  {
    MaxYear(yearsIn(rows[i]))
  }

  /** Whether row `i` stays: a header row, an undated row, or a row dated
      `minYear` or later. */
  predicate Kept(rows: seq<Row>, yearsIn: Row -> seq<Year>, minYear: int, i: nat)
    requires i < |rows|
  {
    i < HEADER_ROWS || YearOf(rows, yearsIn, i).None? || YearOf(rows, yearsIn, i).value >= minYear
  }

  // ---------------------------------------------------------------- the filter as values

  ghost predicate Ascending(r: seq<nat>) {
    forall a, b :: 0 <= a < b < |r| ==> r[a] < r[b]
  }

  /** The verdict on every row, in order: `true` for the rows that stay. */
  function Decisions(rows: seq<Row>, yearsIn: Row -> seq<Year>, minYear: int): (keep: seq<bool>)
    ensures |keep| == |rows| && forall i :: 0 <= i < |rows| ==> keep[i] == Kept(rows, yearsIn, minYear, i)
  {
    seq(|rows|, i requires 0 <= i < |rows| => Kept(rows, yearsIn, minYear, i))
  }

  /** `rows_to_keep` after the first `n` rows, given the verdicts `keep`. */
  function KeptRows<T>(rows: seq<T>, keep: seq<bool>, n: nat): seq<T>
    requires n <= |rows| && n <= |keep|
  {
    if n == 0 then []
    else KeptRows(rows, keep, n - 1) + (if keep[n - 1] then [rows[n - 1]] else [])
  }

  /** The positions of the rows kept among the first `n`, in order. */
  function KeptPositions(keep: seq<bool>, n: nat): (r: seq<nat>)
    requires n <= |keep|
    ensures forall k :: 0 <= k < |r| ==> r[k] < n
  {
    if n == 0 then []
    else KeptPositions(keep, n - 1) + (if keep[n - 1] then [n - 1] else [])
  }

  /** The positions of `rows_to_remove` among the first `n` rows, in order. */
  function RemovedPositions(keep: seq<bool>, n: nat): (r: seq<nat>)
    requires n <= |keep|
    ensures forall k :: 0 <= k < |r| ==> r[k] < n
  {
    if n == 0 then []
    else RemovedPositions(keep, n - 1) + (if keep[n - 1] then [] else [n - 1])
  }

  /** `year_stats[year] = year_stats.get(year, 0) + 1`. */
  function Bump(m: map<Year, nat>, y: Year): map<Year, nat> {
    m[y := (if y in m then m[y] else 0) + 1]
  }

  /** `year_stats` after the first `n` rows: one more for the year of every dated
      row past the headers, whether it stays or goes. */
  function YearStats(rows: seq<Row>, yearsIn: Row -> seq<Year>, n: nat): map<Year, nat>
    requires n <= |rows|
  {
    if n == 0 then map[]
    else
      var prev := YearStats(rows, yearsIn, n - 1);
      if n - 1 >= HEADER_ROWS && YearOf(rows, yearsIn, n - 1).Some? then Bump(prev, YearOf(rows, yearsIn, n - 1).value)
      else prev
  }

  /** The rows past the headers, among the first `n`, dated `y`. */
  function DatedIn(rows: seq<Row>, yearsIn: Row -> seq<Year>, y: Year, n: nat): set<nat>
    requires n <= |rows|
  {
    set i: nat | HEADER_ROWS <= i < n && YearOf(rows, yearsIn, i) == Some(y)
  }

  /** `removeChild` of the row at position `p`; a position past the end removes
      nothing. */
  function RemovePos<T>(rows: seq<T>, p: int): (res: seq<T>)
    ensures 0 <= p < |rows| ==> |res| == |rows| - 1
  {
    if 0 <= p < |rows| then rows[..p] + rows[p + 1..] else rows
  }

  /** The sheet after the first `j` of the `removeChild` calls for the positions
      `rem`: the `j`-th removal finds the row it removes `j` places earlier than it
      was, the earlier removals having closed up the rows before it. */
  function AfterRemovals<T>(rows: seq<T>, rem: seq<nat>, j: nat): seq<T>
    requires j <= |rem|
  {
    if j == 0 then rows else RemovePos(AfterRemovals(rows, rem, j - 1), rem[j - 1] - (j - 1))
  }

  // ---------------------------------------------------------------- what the filter keeps

  /** The kept positions are listed in increasing order. */
  lemma {:induction false} KeptPositionsAscending(keep: seq<bool>, n: nat)
    requires n <= |keep|
    ensures Ascending(KeptPositions(keep, n))
  {
    if n > 0 {
      KeptPositionsAscending(keep, n - 1);
    }
  }

  /** The kept positions are exactly the positions below `n` whose row stays. */
  lemma {:induction false} KeptPositionsAre(keep: seq<bool>, n: nat)
    requires n <= |keep|
    ensures forall i: nat :: i in KeptPositions(keep, n) <==> i < n && keep[i]
  {
    if n > 0 {
      KeptPositionsAre(keep, n - 1);
    }
  }

  /** The removed positions are listed in increasing order. */
  lemma {:induction false} RemovedPositionsAscending(keep: seq<bool>, n: nat)
    requires n <= |keep|
    ensures Ascending(RemovedPositions(keep, n))
  {
    if n > 0 {
      RemovedPositionsAscending(keep, n - 1);
    }
  }

  /** The removed positions are exactly the positions below `n` whose row goes. */
  lemma {:induction false} RemovedPositionsAre(keep: seq<bool>, n: nat)
    requires n <= |keep|
    ensures forall i: nat :: i in RemovedPositions(keep, n) <==> i < n && !keep[i]
  {
    if n > 0 {
      RemovedPositionsAre(keep, n - 1);
    }
  }

  /** The rows the script removes are exactly the rows past the headers dated
      before the cut-off; every other row stays. */
  lemma RowsRemovedAre(rows: seq<Row>, yearsIn: Row -> seq<Year>, minYear: int)
    ensures forall i: nat :: i in RemovedPositions(Decisions(rows, yearsIn, minYear), |rows|) <==>
              HEADER_ROWS <= i < |rows| && YearOf(rows, yearsIn, i).Some? && YearOf(rows, yearsIn, i).value < minYear
    ensures forall i: nat :: i in KeptPositions(Decisions(rows, yearsIn, minYear), |rows|) <==>
              i < |rows| && (i < HEADER_ROWS || YearOf(rows, yearsIn, i).None? || YearOf(rows, yearsIn, i).value >= minYear)
  {
    RemovedPositionsAre(Decisions(rows, yearsIn, minYear), |rows|);
    KeptPositionsAre(Decisions(rows, yearsIn, minYear), |rows|);
  }

  /** The kept rows are the rows at the kept positions: the sheet after the
      filter is a subsequence of the sheet before, in the same order. */
  lemma {:induction false} KeptRowsAtPositions<T>(rows: seq<T>, keep: seq<bool>, n: nat)
    requires n <= |rows| && n <= |keep|
    ensures |KeptRows(rows, keep, n)| == |KeptPositions(keep, n)|
    ensures forall k :: 0 <= k < |KeptRows(rows, keep, n)| ==> KeptRows(rows, keep, n)[k] == rows[KeptPositions(keep, n)[k]]
  {
    if n > 0 {
      KeptRowsAtPositions(rows, keep, n - 1);
    }
  }

  /** Every row either stays or goes. */
  lemma {:induction false} FilterPartitions<T>(rows: seq<T>, keep: seq<bool>, n: nat)
    requires n <= |rows| && n <= |keep|
    ensures |KeptRows(rows, keep, n)| + |RemovedPositions(keep, n)| == n
  {
    if n > 0 {
      FilterPartitions(rows, keep, n - 1);
    }
  }

  /** The filter only drops rows: what is kept of a shorter stretch begins what is
      kept of a longer one. */
  lemma {:induction false} KeptRowsPrefix<T>(rows: seq<T>, keep: seq<bool>, m: nat, n: nat)
    requires m <= n <= |rows| && n <= |keep|
    ensures KeptRows(rows, keep, m) <= KeptRows(rows, keep, n)
    decreases n
  {
    if m < n {
      KeptRowsPrefix(rows, keep, m, n - 1);
    }
  }

  /** The two header rows survive, at the top, whatever their cells hold. */
  lemma HeadersKept(rows: seq<Row>, yearsIn: Row -> seq<Year>, minYear: int)
    requires |rows| >= HEADER_ROWS
    ensures |KeptRows(rows, Decisions(rows, yearsIn, minYear), |rows|)| >= HEADER_ROWS
    ensures KeptRows(rows, Decisions(rows, yearsIn, minYear), |rows|)[..HEADER_ROWS] == rows[..HEADER_ROWS]
  {
    var keep := Decisions(rows, yearsIn, minYear);
    KeptRowsPrefix(rows, keep, HEADER_ROWS, |rows|);
    assert KeptRows(rows, keep, 1) == [rows[0]];
    assert KeptRows(rows, keep, HEADER_ROWS) == [rows[0], rows[1]];
  }

  /** When no row goes, the sheet stays as it is. */
  lemma {:induction false} AllKept<T>(rows: seq<T>, keep: seq<bool>, n: nat)
    requires n <= |rows| && n <= |keep|
    requires forall i :: 0 <= i < n ==> keep[i]
    ensures KeptRows(rows, keep, n) == rows[..n]
  {
    if n > 0 {
      AllKept(rows, keep, n - 1);
      assert rows[..n] == rows[..n - 1] + [rows[n - 1]];
    }
  }

  /** A cut-off no later than 2000 keeps every row: no year the scan finds is
      earlier. */
  lemma EarlyCutOffKeepsAll(rows: seq<Row>, yearsIn: Row -> seq<Year>, minYear: int)
    requires minYear <= 2000
    ensures KeptRows(rows, Decisions(rows, yearsIn, minYear), |rows|) == rows
    ensures RemovedPositions(Decisions(rows, yearsIn, minYear), |rows|) == []
  {
    var keep := Decisions(rows, yearsIn, minYear);
    AllKept(rows, keep, |rows|);
    assert rows[..|rows|] == rows;
    FilterPartitions(rows, keep, |rows|);
  }

  lemma {:induction false} AscendingAtLeastIndex(r: seq<nat>, k: nat)
    requires Ascending(r) && k < |r|
    ensures r[k] >= k
  {
    if k > 0 {
      AscendingAtLeastIndex(r, k - 1);
    }
  }

  /** Reducing a reduced sheet again removes nothing: every row it holds past the
      headers was past the headers before and was kept for its own year. */
  lemma FilterIdempotent(rows: seq<Row>, yearsIn: Row -> seq<Year>, minYear: int)
    ensures var once := KeptRows(rows, Decisions(rows, yearsIn, minYear), |rows|);
            KeptRows(once, Decisions(once, yearsIn, minYear), |once|) == once
  {
    var keep := Decisions(rows, yearsIn, minYear);
    var once := KeptRows(rows, keep, |rows|);
    var pos := KeptPositions(keep, |rows|);
    KeptRowsAtPositions(rows, keep, |rows|);
    KeptPositionsAscending(keep, |rows|);
    KeptPositionsAre(keep, |rows|);
    var keep2 := Decisions(once, yearsIn, minYear);
    forall p | 0 <= p < |once|
      ensures keep2[p]
    {
      AscendingAtLeastIndex(pos, p);
      assert pos[p] in pos;
      assert Kept(rows, yearsIn, minYear, pos[p]);
    }
    AllKept(once, keep2, |once|);
    assert once[..|once|] == once;
  }

  // ---------------------------------------------------------------- the year counts

  lemma DatedInStep(rows: seq<Row>, yearsIn: Row -> seq<Year>, y: Year, n: nat)
    requires n < |rows|
    ensures DatedIn(rows, yearsIn, y, n + 1) ==
              DatedIn(rows, yearsIn, y, n) + (if n >= HEADER_ROWS && YearOf(rows, yearsIn, n) == Some(y) then {n} else {})
  {
  }

  /** `year_stats` counts, for every year, exactly the dated rows past the headers
      carrying that year, and holds no other year. */
  lemma {:induction false} YearStatsCount(rows: seq<Row>, yearsIn: Row -> seq<Year>, n: nat, y: Year)
    requires n <= |rows|
    ensures y in YearStats(rows, yearsIn, n) <==> |DatedIn(rows, yearsIn, y, n)| > 0
    ensures y in YearStats(rows, yearsIn, n) ==> YearStats(rows, yearsIn, n)[y] == |DatedIn(rows, yearsIn, y, n)|
  {
    if n > 0 {
      YearStatsCount(rows, yearsIn, n - 1, y);
      DatedInStep(rows, yearsIn, y, n - 1);
      assert n - 1 !in DatedIn(rows, yearsIn, y, n - 1);
    }
  }

  // ---------------------------------------------------------------- removal by position

  lemma RemovePosBeforeLast<T>(rows: seq<T>, x: T, p: int)
    requires 0 <= p < |rows|
    ensures RemovePos(rows + [x], p) == RemovePos(rows, p) + [x]
  {
    assert (rows + [x])[..p] == rows[..p];
    assert (rows + [x])[p + 1..] == rows[p + 1..] + [x];
  }

  /** Positions that the removals, one after the other, can all reach: the
      `k`-th, found `k` places earlier, is still a row of the shrinking sheet. */
  ghost predicate Removable(rem: seq<nat>, len: nat) {
    forall k :: 0 <= k < |rem| ==> k <= rem[k] < len
  }

  lemma {:induction false} RemovedPositionsRemovable(keep: seq<bool>, n: nat)
    requires n <= |keep|
    ensures |RemovedPositions(keep, n)| <= n && Removable(RemovedPositions(keep, n), n)
  {
    if n > 0 {
      RemovedPositionsRemovable(keep, n - 1);
    }
  }

  /** The first `j` removals depend on the first `j` positions only. */
  lemma {:induction false} AfterRemovalsExtended<T>(rows: seq<T>, rem: seq<nat>, more: seq<nat>, j: nat)
    requires j <= |rem|
    ensures AfterRemovals(rows, rem + more, j) == AfterRemovals(rows, rem, j)
  {
    if j > 0 {
      AfterRemovalsExtended(rows, rem, more, j - 1);
    }
  }

  /** Removing rows at positions before the last row leaves the last row last, and
      each removal takes exactly one row. */
  lemma {:induction false} AfterRemovalsBeforeLast<T>(rows: seq<T>, x: T, rem: seq<nat>, j: nat)
    requires Removable(rem, |rows|) && j <= |rem|
    ensures AfterRemovals(rows + [x], rem, j) == AfterRemovals(rows, rem, j) + [x]
    ensures |AfterRemovals(rows, rem, j)| == |rows| - j
  {
    if j > 0 {
      AfterRemovalsBeforeLast(rows, x, rem, j - 1);
      RemovePosBeforeLast(AfterRemovals(rows, rem, j - 1), x, rem[j - 1] - (j - 1));
    }
  }

  /** Removing, after rows at earlier positions, the row that was last removes
      just that row. */
  lemma AfterRemovalsLast<T>(rows: seq<T>, x: T, rem: seq<nat>)
    requires Removable(rem, |rows|)
    ensures AfterRemovals(rows + [x], rem + [|rows|], |rem| + 1) == AfterRemovals(rows, rem, |rem|)
  {
    AfterRemovalsExtended(rows + [x], rem, [|rows|], |rem|);
    AfterRemovalsBeforeLast(rows, x, rem, |rem|);
    var prev := AfterRemovals(rows, rem, |rem|);
    assert (rem + [|rows|])[|rem|] == |rows|;
    assert (prev + [x])[..|prev|] == prev;
  }

  /** One more row, kept or removed: the removals leave what they left before,
      followed by the row when it is kept. */
  lemma RemovalStep<T>(rows: seq<T>, x: T, rem: seq<nat>, kept: bool, last: nat, before: seq<T>, grown: seq<T>, remAfter: seq<nat>)
    requires last == |rows| && Removable(rem, last) && AfterRemovals(rows, rem, |rem|) == before
    requires grown == rows + [x]
    requires remAfter == rem + if kept then [] else [last]
    ensures AfterRemovals(grown, remAfter, |remAfter|) == before + if kept then [x] else []
  {
    if kept {
      assert remAfter == rem;
      AfterRemovalsBeforeLast(rows, x, rem, |rem|);
    } else {
      AfterRemovalsLast(rows, x, rem);
    }
  }

  /** One more row under the verdicts `keep`. */
  lemma FilterStep<T>(rows: seq<T>, keep: seq<bool>, n: nat)
    requires 0 < n <= |rows| && n <= |keep|
    ensures KeptRows(rows, keep, n) == KeptRows(rows, keep, n - 1) + if keep[n - 1] then [rows[n - 1]] else []
    ensures RemovedPositions(keep, n) == RemovedPositions(keep, n - 1) + if keep[n - 1] then [] else [n - 1]
    ensures rows[..n] == rows[..n - 1] + [rows[n - 1]]
  {
  }

  /** Applying the removals, position by position, to the rows leaves exactly the
      rows the filter keeps. */
  lemma {:induction false} RemovalKeepsKept<T>(rows: seq<T>, keep: seq<bool>, n: nat)
    requires n <= |rows| && n <= |keep|
    ensures AfterRemovals(rows[..n], RemovedPositions(keep, n), |RemovedPositions(keep, n)|) == KeptRows(rows, keep, n)
  {
    if n > 0 {
      RemovalKeepsKept(rows, keep, n - 1);
      RemovedPositionsRemovable(keep, n - 1);
      FilterStep(rows, keep, n);
      RemovalStep(rows[..n - 1], rows[n - 1], RemovedPositions(keep, n - 1), keep[n - 1], n - 1,
                  KeptRows(rows, keep, n - 1), rows[..n], RemovedPositions(keep, n));
    }
  }

  // ---------------------------------------------------------------- the script's loops

  /** One more row: kept or removed, and counted under its year when dated past
      the headers. */
  lemma ClassifyStep(rows: seq<Row>, yearsIn: Row -> seq<Year>, minYear: int, i: nat)
    requires i < |rows|
    ensures var keep := Decisions(rows, yearsIn, minYear);
            && KeptRows(rows, keep, i + 1) == KeptRows(rows, keep, i) + (if Kept(rows, yearsIn, minYear, i) then [rows[i]] else [])
            && RemovedPositions(keep, i + 1) == RemovedPositions(keep, i) + (if Kept(rows, yearsIn, minYear, i) then [] else [i])
    ensures YearStats(rows, yearsIn, i + 1) ==
              if i >= HEADER_ROWS && YearOf(rows, yearsIn, i).Some? then Bump(YearStats(rows, yearsIn, i), YearOf(rows, yearsIn, i).value)
              else YearStats(rows, yearsIn, i)
  {
  }

  /** The first loop of `filter_sheet_by_year`: sort every row into the rows to
      keep and the rows to remove (by position), counting the years seen. */
  method ClassifyRows(rows: seq<Row>, yearsIn: Row -> seq<Year>, minYear: int)
    returns (rowsToKeep: seq<Row>, rowsToRemove: seq<nat>, yearStats: map<Year, nat>)
    ensures rowsToKeep == KeptRows(rows, Decisions(rows, yearsIn, minYear), |rows|)
    ensures rowsToRemove == RemovedPositions(Decisions(rows, yearsIn, minYear), |rows|)
    ensures yearStats == YearStats(rows, yearsIn, |rows|)
  {
    ghost var keep := Decisions(rows, yearsIn, minYear);
    rowsToKeep, rowsToRemove, yearStats := [], [], map[];
    for idx := 0 to |rows|
      invariant rowsToKeep == KeptRows(rows, keep, idx)
      invariant rowsToRemove == RemovedPositions(keep, idx)
      invariant yearStats == YearStats(rows, yearsIn, idx)
    {
      ClassifyStep(rows, yearsIn, minYear, idx);
      if idx < HEADER_ROWS {
        rowsToKeep := rowsToKeep + [rows[idx]];
        continue;
      }
      var year := MaxYear(yearsIn(rows[idx]));
      assert year == YearOf(rows, yearsIn, idx);
      if year.None? || year.value >= minYear {
        rowsToKeep := rowsToKeep + [rows[idx]];
        if year.Some? && year.value != 0 {
          yearStats := Bump(yearStats, year.value);
        }
      } else {
        rowsToRemove := rowsToRemove + [idx];
        yearStats := Bump(yearStats, year.value);
      }
    }
  }

  /** The second loop: `removeChild` for every row to remove, counting them. */
  method RemoveRows(wb: Workbook, t: nat, rowsToRemove: seq<nat>) returns (removedCount: nat)
    requires t < |wb.tables|
    requires Ascending(rowsToRemove) && forall k :: 0 <= k < |rowsToRemove| ==> rowsToRemove[k] < |wb.tables[t].rows|
    modifies wb
    ensures wb.tables == WithRows(old(wb.tables), t, AfterRemovals(old(wb.tables)[t].rows, rowsToRemove, |rowsToRemove|))
    ensures removedCount == |rowsToRemove|
  {
    ghost var tables0 := wb.tables;
    ghost var rows := wb.tables[t].rows;
    removedCount := 0;
    for j := 0 to |rowsToRemove|
      invariant removedCount == j
      invariant wb.tables == WithRows(tables0, t, AfterRemovals(rows, rowsToRemove, j))
      invariant |AfterRemovals(rows, rowsToRemove, j)| == |rows| - j
    {
      AscendingAtLeastIndex(rowsToRemove, j);
      wb.RemoveRowAt(t, rowsToRemove[j] - j);
      removedCount := removedCount + 1;
    }
  }

  /** `filter_sheet_by_year`: without a sheet of exactly that name nothing changes
      and the counts are (0, 0); otherwise the sheet keeps just the rows the filter
      keeps, and the counts are the rows removed and the rows kept. */
  method FilterSheetByYear(wb: Workbook, sheetName: string, minYear: int, yearsIn: Row -> seq<Year>)
    returns (removedCount: nat, keptCount: nat)
    modifies wb
    ensures SheetIndex(old(wb.tables), sheetName).None? ==>
              removedCount == 0 && keptCount == 0 && wb.tables == old(wb.tables)
    ensures SheetIndex(old(wb.tables), sheetName).Some? ==>
              var t := SheetIndex(old(wb.tables), sheetName).value;
              var rows := old(wb.tables)[t].rows;
              var keep := Decisions(rows, yearsIn, minYear);
              && wb.tables == WithRows(old(wb.tables), t, KeptRows(rows, keep, |rows|))
              && removedCount == |RemovedPositions(keep, |rows|)|
              && keptCount == |KeptRows(rows, keep, |rows|)|
              && removedCount + keptCount == |rows|
  {
    var target := FindSheet(wb.tables, sheetName);
    if target.None? {
      return 0, 0;
    }
    var t := target.value;
    var rows := wb.tables[t].rows;
    ghost var keep := Decisions(rows, yearsIn, minYear);
    var rowsToKeep, rowsToRemove, yearStats := ClassifyRows(rows, yearsIn, minYear);
    RemovedPositionsAscending(keep, |rows|);
    removedCount := RemoveRows(wb, t, rowsToRemove);
    keptCount := |rowsToKeep|;
    RemovalKeepsKept(rows, keep, |rows|);
    assert rows[..|rows|] == rows;
    FilterPartitions(rows, keep, |rows|);
  }
}
