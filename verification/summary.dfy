/**
 * The general summary: `/reports/summary` and `updateSummaryReport`. One pass over the receipt
 * rows that have a timestamp counts them, collects the distinct mosques, governorates and
 * workers, and sums the first `m` material columns, `m` being the number of materials.
 */
module Summary {
  import opened Results
  import opened Text
  import opened Sheet
  import Layout

  /** A receipt row takes part when it has a timestamp (`if (r[0])`). */
  predicate Counted(r: Row) {
    NonEmpty(At(r, 0))
  }

  /** The receipt rows every report reads: `AllReceipts!A:AG` without its header. */
  function ReportRows(receipts: Table): (rows: Table)
    ensures |rows| == |DataRows(receipts)|
    ensures forall i :: 0 <= i < |rows| ==> rows[i] == Take(DataRows(receipts)[i], ReportWindow)
  {
    WindowDataRows(receipts, ReportWindow);
    DataRows(Window(receipts, ReportWindow))
  }

  /**
   * `r[c]` as the `Set` receives it: `None` stands for `undefined`, a cell past the row's end,
   * which is a different member from the empty text.
   */
  function CellValue(r: Row, c: int): Option<string> {
    if 0 <= c < |r| then Some(r[c]) else None
  }

  /** The running state of the `forEach`. */
  datatype Totals = Totals(receipts: nat, materials: int, mosques: set<Option<string>>,
                           governorates: set<Option<string>>, workers: set<string>)

  /** The workers a row names: column 9 and column 11, each when present. */
  function RowWorkers(r: Row): set<string> {
    (if NonEmpty(At(r, 9)) then {At(r, 9)} else {}) + (if NonEmpty(At(r, 11)) then {At(r, 11)} else {})
  }

  /** The `forEach` itself, row by row. */
  function Scan(rows: Table, m: nat): Totals {
    if |rows| == 0 then Totals(0, 0, {}, {}, {})
    else
      var t := Scan(rows[..|rows| - 1], m);
      var r := rows[|rows| - 1];
      if Counted(r) then
        Totals(t.receipts + 1, t.materials + SumCells(r, FirstMaterialColumn, FirstMaterialColumn + m),
               t.mosques + {CellValue(r, 3)}, t.governorates + {CellValue(r, 4)}, t.workers + RowWorkers(r))
      else t
  }

  // Reference definitions: what the pass computes, stated over the rows as a whole.

  /** The values of column `c` among the counted rows, empty and missing cells included. */
  function ColumnValues(rows: Table, c: int): set<Option<string>> {
    set i | 0 <= i < |rows| && Counted(rows[i]) :: CellValue(rows[i], c)
  }

  /** The non-empty values of column `c` among the counted rows. */
  function PresentValues(rows: Table, c: int): set<string> {
    set i | 0 <= i < |rows| && Counted(rows[i]) && NonEmpty(At(rows[i], c)) :: At(rows[i], c)
  }

  /** Every worker named in a counted row, first or second. */
  function Workers(rows: Table): set<string> {
    PresentValues(rows, 9) + PresentValues(rows, 11)
  }

  /** Column `c` summed over the counted rows. */
  function ColumnTotal(rows: Table, c: int): int {
    if |rows| == 0 then 0
    else ColumnTotal(rows[..|rows| - 1], c) + (if Counted(rows[|rows| - 1]) then Num(At(rows[|rows| - 1], c)) else 0)
  }

  /** The per-material column totals for materials `0 .. m - 1`, added up. */
  function ColumnSums(rows: Table, m: nat): int {
    if m == 0 then 0 else ColumnSums(rows, m - 1) + ColumnTotal(rows, FirstMaterialColumn + m - 1)
  }

  lemma ColumnValuesSnoc(rows: Table, c: int)
    requires |rows| > 0
    ensures ColumnValues(rows, c) == ColumnValues(rows[..|rows| - 1], c) +
      (if Counted(rows[|rows| - 1]) then {CellValue(rows[|rows| - 1], c)} else {})
  {
    var init := rows[..|rows| - 1];
    forall x | x in ColumnValues(init, c) ensures x in ColumnValues(rows, c) {
      var i :| 0 <= i < |init| && Counted(init[i]) && x == CellValue(init[i], c);
      assert rows[i] == init[i];
    }
  }

  lemma PresentValuesSnoc(rows: Table, c: int)
    requires |rows| > 0
    ensures PresentValues(rows, c) == PresentValues(rows[..|rows| - 1], c) +
      (if Counted(rows[|rows| - 1]) && NonEmpty(At(rows[|rows| - 1], c)) then {At(rows[|rows| - 1], c)} else {})
  {
    var init := rows[..|rows| - 1];
    forall x | x in PresentValues(init, c) ensures x in PresentValues(rows, c) {
      var i :| 0 <= i < |init| && Counted(init[i]) && NonEmpty(At(init[i], c)) && x == At(init[i], c);
      assert rows[i] == init[i];
    }
  }

  /** Adding one more row to the totals adds its first `m` material cells, when it is counted. */
  lemma {:induction false} ColumnSumsSnoc(rows: Table, m: nat)
    requires |rows| > 0
    ensures ColumnSums(rows, m) == ColumnSums(rows[..|rows| - 1], m) +
      (if Counted(rows[|rows| - 1]) then SumCells(rows[|rows| - 1], FirstMaterialColumn, FirstMaterialColumn + m) else 0)
  {
    if m > 0 {
      ColumnSumsSnoc(rows, m - 1);
    }
  }

  /**
   * The pass computes the reference values: the counted rows, the distinct mosques and
   * governorates among them, their named workers, and the sum of the per-material totals.
   */
  lemma {:induction false} ScanComputes(rows: Table, m: nat)
    ensures Scan(rows, m).receipts == CountWhere(rows, Counted)
    ensures Scan(rows, m).materials == ColumnSums(rows, m)
    ensures Scan(rows, m).mosques == ColumnValues(rows, 3)
    ensures Scan(rows, m).governorates == ColumnValues(rows, 4)
    ensures Scan(rows, m).workers == Workers(rows)
  {
    if |rows| > 0 {
      ScanComputes(rows[..|rows| - 1], m);
      ColumnSumsSnoc(rows, m);
      ColumnValuesSnoc(rows, 3);
      ColumnValuesSnoc(rows, 4);
      PresentValuesSnoc(rows, 9);
      PresentValuesSnoc(rows, 11);
    } else {
      ColumnSumsNoRows(rows, m);
    }
  }

  lemma {:induction false} ColumnSumsNoRows(rows: Table, m: nat)
    requires |rows| == 0
    ensures ColumnSums(rows, m) == 0
  {
    if m > 0 {
      ColumnSumsNoRows(rows, m - 1);
    }
  }

  datatype Summary = Summary(
    totalReceipts: nat,
    totalMaterialsDistributed: int,
    uniqueMosques: nat,
    uniqueGovernorates: nat,
    totalUsers: nat,
    totalWorkers: nat)

  /**
   * `/reports/summary` over the sheets `AllReceipts!A:AG`, `Materials!A:C` and `Users!A:E`.
   */
  function ComputeSummary(receipts: Table, materials: Table, users: Table): (s: Summary)
    ensures s.totalReceipts == CountWhere(ReportRows(receipts), Counted)
    ensures s.totalMaterialsDistributed == ColumnSums(ReportRows(receipts), |DataRows(materials)|)
    ensures s.uniqueMosques == |ColumnValues(ReportRows(receipts), 3)|
    ensures s.uniqueGovernorates == |ColumnValues(ReportRows(receipts), 4)|
    ensures s.totalWorkers == |Workers(ReportRows(receipts))|
    ensures s.totalUsers == |DataRows(users)|
  {
    var rows := ReportRows(receipts);
    var t := Scan(rows, |DataRows(materials)|);
    ScanComputes(rows, |DataRows(materials)|);
    Summary(t.receipts, t.materials, |t.mosques|, |t.governorates|, |DataRows(users)|, |t.workers|)
  }

  /** The summary counts never exceed the number of counted receipts. */
  lemma SummaryBounds(receipts: Table, materials: Table, users: Table)
    ensures var s := ComputeSummary(receipts, materials, users);
      s.uniqueMosques <= s.totalReceipts && s.uniqueGovernorates <= s.totalReceipts &&
      s.totalWorkers <= 2 * s.totalReceipts
  {
    var rows := ReportRows(receipts);
    CountedSetBound(rows, 3);
    CountedSetBound(rows, 4);
    PresentSetBound(rows, 9);
    PresentSetBound(rows, 11);
  }

  lemma {:induction false} CountedSetBound(rows: Table, c: int)
    ensures |ColumnValues(rows, c)| <= CountWhere(rows, Counted)
  {
    if |rows| > 0 {
      CountedSetBound(rows[..|rows| - 1], c);
      ColumnValuesSnoc(rows, c);
    }
  }

  lemma {:induction false} PresentSetBound(rows: Table, c: int)
    ensures |PresentValues(rows, c)| <= CountWhere(rows, Counted)
  {
    if |rows| > 0 {
      PresentSetBound(rows[..|rows| - 1], c);
      PresentValuesSnoc(rows, c);
    }
  }

  /**
   * A row with an empty governorate cell and a row that ends before the column give two
   * distinct governorates, the empty text and `undefined`.
   */
  lemma BlanksCountedApart()
    ensures ComputeSummary([[], ["t", "", "", "", ""], ["t"]], [[]], []).uniqueGovernorates == 2
  {
    var rows := ReportRows([[], ["t", "", "", "", ""], ["t"]]);
    assert rows == [["t", "", "", "", ""], ["t"]];
    assert CellValue(rows[0], 4) == Some("") && CellValue(rows[1], 4) == None;
    assert ColumnValues(rows, 4) == {Some(""), None};
  }

  /**
   * The window `A:AG` ends at column 32, so material 17 (column 33) and every later one never
   * reach the summary: with more than 17 materials the total is that of the first 17.
   */
  lemma LateMaterialsUncounted(receipts: Table, m: nat)
    requires m >= 17
    ensures ColumnSums(ReportRows(receipts), m) == ColumnSums(ReportRows(receipts), 17)
  {
    var rows := ReportRows(receipts);
    PastWindowSums(rows, m);
  }

  lemma {:induction false} PastWindowSums(rows: Table, m: nat)
    requires m >= 17
    requires forall i :: 0 <= i < |rows| ==> |rows[i]| <= ReportWindow
    ensures ColumnSums(rows, m) == ColumnSums(rows, 17)
  {
    if m > 17 {
      PastWindowSums(rows, m - 1);
      PastWindowColumn(rows, FirstMaterialColumn + m - 1);
    }
  }

  lemma {:induction false} PastWindowColumn(rows: Table, c: int)
    requires c >= ReportWindow
    requires forall i :: 0 <= i < |rows| ==> |rows[i]| <= ReportWindow
    ensures ColumnTotal(rows, c) == 0
  {
    if |rows| > 0 {
      PastWindowColumn(rows[..|rows| - 1], c);
      assert At(rows[|rows| - 1], c) == "";
      assert Num("") == 0;
    }
  }

  /** `updateSummaryReport`'s row, written to `Reports!A2:K2`. */
  function SummaryReportRow(s: Summary, formatAverage: (int, nat) -> string, now: string): (row: Row)
    ensures |row| == 11 && row[0] == Layout.SummaryTag
    ensures s.totalReceipts == 0 ==> row[8] == "0"
    ensures s.totalReceipts > 0 ==> row[8] == formatAverage(s.totalMaterialsDistributed, s.totalReceipts)
  {
    var average := if s.totalReceipts > 0 then formatAverage(s.totalMaterialsDistributed, s.totalReceipts) else "0";
    [Layout.SummaryTag, "الشهر الحالي",
     IntToString(s.totalReceipts), IntToString(s.totalMaterialsDistributed),
     IntToString(s.uniqueMosques), IntToString(s.uniqueGovernorates),
     IntToString(s.totalWorkers), IntToString(s.totalUsers),
     average, now, "محدث تلقائياً"]
  }

  /**
   * `updateSummaryReport`: the summary computed as the route does, written over the second row
   * of the Reports sheet; every other row is left as it was.
   */
  function UpdateSummaryReport(receipts: Table, materials: Table, users: Table, reports: Table,
                               formatAverage: (int, nat) -> string, now: string): (out: (Summary, Table))
    ensures out.0 == ComputeSummary(receipts, materials, users)
    ensures forall i :: 0 <= i < |out.1| && i != Layout.SummaryRowIndex ==> out.1[i] == RowOf(reports, i)
    ensures |out.1| > Layout.SummaryRowIndex
    ensures forall j :: 0 <= j < 11 ==> At(out.1[Layout.SummaryRowIndex], j) == SummaryReportRow(out.0, formatAverage, now)[j]
  {
    var s := ComputeSummary(receipts, materials, users);
    (s, WriteRow(reports, Layout.SummaryRowIndex, SummaryReportRow(s, formatAverage, now)))
  }
}
