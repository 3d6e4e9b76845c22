/**
 * The reports keyed by one column of the receipt row: `/reports/by-governorate` (column 4),
 * `/reports/by-mosque` (column 3) and `updateGovernorateReports`.
 */
module Governorates {
  import opened Results
  import opened Text
  import opened Sheet
  import opened Grouping
  import Layout
  import Summary

  const GovernorateColumn: nat := 4
  const MosqueColumn: nat := 3

  /** A row takes part when it has a timestamp and a value in column `c`. */
  predicate HasKey(c: nat, r: Row) {
    NonEmpty(At(r, 0)) && NonEmpty(At(r, c))
  }

  /** `if (r[0] && r[c])`, keyed by `r[c]`. */
  function ColumnKey(c: nat): (keyOf: KeyOf)
    ensures forall r :: keyOf(r).Some? <==> HasKey(c, r)
    ensures forall r :: keyOf(r).Some? ==> keyOf(r).value == At(r, c)
  {
    r => if HasKey(c, r) then Some(At(r, c)) else None
  }

  /** The keys a column report can show are the non-empty column values of timestamped rows. */
  lemma KeysArePresentValues(rows: Table, c: nat)
    ensures KeySet(rows, ColumnKey(c)) == Summary.PresentValues(rows, c)
  {
    var keyOf := ColumnKey(c);
    forall x | x in Summary.PresentValues(rows, c) ensures x in KeySet(rows, keyOf) {
      var i :| 0 <= i < |rows| && Summary.Counted(rows[i]) && NonEmpty(At(rows[i], c)) && x == At(rows[i], c);
      assert keyOf(rows[i]).Some?;
    }
  }

  /**
   * `/reports/by-governorate` and `/reports/by-mosque`: one entry per distinct non-empty value
   * of column `c` among timestamped rows, largest material total first, the counts adding up to
   * the rows that take part and the totals to their material cells.
   */
  function ByColumn(receipts: Table, c: nat): (gs: seq<Group>)
    ensures forall i, j :: 0 <= i < j < |gs| ==> gs[i].total >= gs[j].total
    ensures UniqueKeys(gs)
    ensures Keys(gs) == Summary.PresentValues(Summary.ReportRows(receipts), c)
    ensures forall g :: g in gs ==> g.count == CountKey(Summary.ReportRows(receipts), ColumnKey(c), g.key) >= 1
    ensures forall g :: g in gs ==> g.total == SumKey(Summary.ReportRows(receipts), ColumnKey(c), g.key)
    ensures SumCounts(gs) == CountWhere(Summary.ReportRows(receipts), r => HasKey(c, r))
    ensures SumTotals(gs) == QualifyingTotal(Summary.ReportRows(receipts), ColumnKey(c))
  {
    var rows := Summary.ReportRows(receipts);
    KeysArePresentValues(rows, c);
    CountWhereAgree(rows, r => Qualifies(ColumnKey(c), r), r => HasKey(c, r));
    SortedReport(rows, ColumnKey(c))
  }

  function ByGovernorate(receipts: Table): seq<Group> {
    ByColumn(receipts, GovernorateColumn)
  }

  function ByMosque(receipts: Table): seq<Group> {
    ByColumn(receipts, MosqueColumn)
  }

  /** A group's count is the number of rows carrying its key, read straight off the rows. */
  lemma {:induction false} CountKeyIsFilter(rows: Table, c: nat, k: string)
    ensures CountKey(rows, ColumnKey(c), k) == CountWhere(rows, r => HasKey(c, r) && At(r, c) == k)
  {
    if |rows| > 0 {
      CountKeyIsFilter(rows[..|rows| - 1], c, k);
    }
  }

  // ---------------------------------------------------------------------------------------
  // Agreement with the summary

  /**
   * The summary's distinct governorates (or mosques) are the column report's keys, plus the
   * empty text when some timestamped row holds an empty cell there, plus `undefined` when some
   * timestamped row ends before the column: the two blanks are counted apart. The column
   * report never shows a blank key.
   */
  lemma SummaryCountsEmptyKey(rows: Table, c: nat)
    ensures Summary.ColumnValues(rows, c) ==
      (set v | v in Summary.PresentValues(rows, c) :: Some(v))
      + (if exists i :: 0 <= i < |rows| && Summary.Counted(rows[i]) && Summary.CellValue(rows[i], c) == Some("") then {Some("")} else {})
      + (if exists i :: 0 <= i < |rows| && Summary.Counted(rows[i]) && Summary.CellValue(rows[i], c) == None then {None} else {})
  {
    var lhs := Summary.ColumnValues(rows, c);
    var present := Summary.PresentValues(rows, c);
    forall x | x in lhs
      ensures x in (set v | v in present :: Some(v)) || x == Some("") || x == None
    {
      var i :| 0 <= i < |rows| && Summary.Counted(rows[i]) && x == Summary.CellValue(rows[i], c);
      if x.Some? && x.value != "" {
        assert x.value == At(rows[i], c) && x.value in present;
      }
    }
    forall v | v in present ensures Some(v) in lhs {
      var i :| 0 <= i < |rows| && Summary.Counted(rows[i]) && NonEmpty(At(rows[i], c)) && v == At(rows[i], c);
      assert Summary.CellValue(rows[i], c) == Some(v);
    }
    forall v | Some(v) in lhs && v != "" ensures v in present {
      var i :| 0 <= i < |rows| && Summary.Counted(rows[i]) && Some(v) == Summary.CellValue(rows[i], c);
      assert At(rows[i], c) == v;
    }
  }

  /**
   * When every timestamped row has a value in column `c`, the summary's distinct values are
   * the column report's keys, one for one.
   */
  lemma {:induction false} PresentValuesCounted(rows: Table, c: nat)
    requires forall i :: 0 <= i < |rows| && Summary.Counted(rows[i]) ==> NonEmpty(At(rows[i], c))
    ensures forall v :: Some(v) in Summary.ColumnValues(rows, c) <==> v in Summary.PresentValues(rows, c)
    ensures None !in Summary.ColumnValues(rows, c)
    ensures |Summary.ColumnValues(rows, c)| == |Summary.PresentValues(rows, c)|
  {
    if |rows| > 0 {
      var init := rows[..|rows| - 1];
      var last := rows[|rows| - 1];
      var before, values := Summary.ColumnValues(init, c), Summary.PresentValues(init, c);
      PresentValuesCounted(init, c);
      Summary.ColumnValuesSnoc(rows, c);
      Summary.PresentValuesSnoc(rows, c);
      if Summary.Counted(last) {
        var v := At(last, c);
        assert NonEmpty(v) && Summary.CellValue(last, c) == Some(v);
        assert Summary.ColumnValues(rows, c) == before + {Some(v)};
        assert Summary.PresentValues(rows, c) == values + {v};
        assert Some(v) in before <==> v in values;
      }
    }
  }

  /** A row's material cells from column 16 to its end, when it ends by column `16 + m`. */
  lemma RowWithinMaterials(r: Row, m: nat)
    requires |r| <= FirstMaterialColumn + m
    ensures RowMaterials(r) == SumCells(r, FirstMaterialColumn, FirstMaterialColumn + m)
  {
    if |r| >= FirstMaterialColumn {
      SumCellsBeyondEnd(r, FirstMaterialColumn, FirstMaterialColumn + m);
    } else {
      SumCellsZero(r, FirstMaterialColumn, FirstMaterialColumn + m);
    }
  }

  /**
   * When every timestamped row has a value in column `c` and ends by column `16 + m`, the
   * column report's grand total is the summary's material total.
   */
  lemma {:induction false} TotalsAgree(rows: Table, c: nat, m: nat)
    requires forall i :: 0 <= i < |rows| && Summary.Counted(rows[i]) ==> NonEmpty(At(rows[i], c)) && |rows[i]| <= FirstMaterialColumn + m
    ensures QualifyingTotal(rows, ColumnKey(c)) == Summary.ColumnSums(rows, m)
  {
    if |rows| > 0 {
      var last := rows[|rows| - 1];
      TotalsAgree(rows[..|rows| - 1], c, m);
      Summary.ColumnSumsSnoc(rows, m);
      if Summary.Counted(last) {
        RowWithinMaterials(last, m);
      }
    } else {
      Summary.ColumnSumsNoRows(rows, m);
    }
  }

  lemma SummaryAgreesWithGovernorates(receipts: Table, materials: Table, users: Table)
    requires var rows := Summary.ReportRows(receipts);
      forall i :: 0 <= i < |rows| && Summary.Counted(rows[i]) ==>
        NonEmpty(At(rows[i], GovernorateColumn)) && |rows[i]| <= FirstMaterialColumn + |DataRows(materials)|
    ensures SumTotals(ByGovernorate(receipts)) == Summary.ComputeSummary(receipts, materials, users).totalMaterialsDistributed
    ensures |Keys(ByGovernorate(receipts))| == Summary.ComputeSummary(receipts, materials, users).uniqueGovernorates
  {
    var rows := Summary.ReportRows(receipts);
    TotalsAgree(rows, GovernorateColumn, |DataRows(materials)|);
    PresentValuesCounted(rows, GovernorateColumn);
  }

  /** A receipt whose row has one cell past the materials: the by-governorate total sees it, the summary does not. */
  const OverlongReceipt: Row := ["t", "", "", "", "g"] + Blank(11) + ["5"]

  lemma SummaryDisagreesOnOverlongRow()
    ensures var receipts := [[], OverlongReceipt];
      && SumTotals(ByGovernorate(receipts)) == 5
      && Summary.ComputeSummary(receipts, [[]], []).totalMaterialsDistributed == 0
  {
    var receipts := [[], OverlongReceipt];
    var rows := Summary.ReportRows(receipts);
    assert rows == [OverlongReceipt];
    assert rows[..0] == [];
    ParseIntToString(5);
    assert IntToString(5) == "5";
    assert |OverlongReceipt| == 17 && At(OverlongReceipt, 16) == "5";
    assert SumCells(OverlongReceipt, 16, 17) == SumCells(OverlongReceipt, 16, 16) + Num("5");
    assert RowMaterials(OverlongReceipt) == 5;
    assert QualifyingTotal(rows, ColumnKey(GovernorateColumn)) == 5;
  }

  // ---------------------------------------------------------------------------------------
  // updateGovernorateReports

  /** The governorate groups in order of first appearance, as `updateGovernorateReports` builds them. */
  function GovernorateGroups(receipts: Table): (gs: seq<Group>)
    ensures UniqueKeys(gs)
    ensures Keys(gs) == Summary.PresentValues(Summary.ReportRows(receipts), GovernorateColumn)
    ensures forall g :: g in gs ==> g.count == CountKey(Summary.ReportRows(receipts), ColumnKey(GovernorateColumn), g.key) >= 1
    ensures forall g :: g in gs ==> g.total == SumKey(Summary.ReportRows(receipts), ColumnKey(GovernorateColumn), g.key)
    ensures multiset(gs) == multiset(ByGovernorate(receipts))
  {
    var rows := Summary.ReportRows(receipts);
    var gs := Aggregate(rows, ColumnKey(GovernorateColumn));
    KeysArePresentValues(rows, GovernorateColumn);
    forall g | g in gs ensures g.count == CountKey(rows, ColumnKey(GovernorateColumn), g.key) >= 1 && g.total == SumKey(rows, ColumnKey(GovernorateColumn), g.key) {
      AggregateGroup(rows, ColumnKey(GovernorateColumn), g);
    }
    gs
  }

  /** One governorate row of the Reports sheet, columns A-E. */
  function GovernorateReportRow(g: Group, now: string): (row: Row)
    ensures |row| == 5 && row[0] == Layout.GovernorateTag && row[1] == g.key
  {
    [Layout.GovernorateTag, g.key, IntToString(g.count), IntToString(g.total), now]
  }

  /** The rows `updateGovernorateReports` returns. */
  function GovernorateReportRows(receipts: Table, now: string): (rows: seq<Row>)
    ensures |rows| == |GovernorateGroups(receipts)|
    ensures forall i :: 0 <= i < |rows| ==> rows[i] == GovernorateReportRow(GovernorateGroups(receipts)[i], now)
  {
    var gs := GovernorateGroups(receipts);
    seq(|gs|, i requires 0 <= i < |gs| => GovernorateReportRow(gs[i], now))
  }

  /**
   * `updateGovernorateReports`: governorate row `i` is written to sheet row `7 + i`, columns A-E;
   * every row outside that block is left as it was.
   */
  function UpdateGovernorateReports(receipts: Table, reports: Table, now: string): (u: Table)
    ensures var rows := GovernorateReportRows(receipts, now);
      && (|rows| > 0 ==> |u| >= Layout.GovernorateRowIndex(|rows|))
      && (forall i, j :: 0 <= i < |rows| && 0 <= j < 5 ==> At(u[Layout.GovernorateRowIndex(i)], j) == rows[i][j])
      && (forall i :: 0 <= i < |u| && !(Layout.GovernorateRowIndex(0) <= i < Layout.GovernorateRowIndex(|rows|)) ==> u[i] == RowOf(reports, i))
  {
    var rows := GovernorateReportRows(receipts, now);
    WriteRowsEffect(reports, Layout.GovernorateRowIndex(0), rows);
    WriteRowsPlacement(reports, Layout.GovernorateRowIndex(0), rows);
    WriteRows(reports, Layout.GovernorateRowIndex(0), rows)
  }
}
