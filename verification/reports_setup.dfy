/**
 * The layout part of the Reports sheet setup script: the headers of each report section, the
 * governorate grid header (one governorate per three columns), its sub-headers, and the material
 * names down column A from row 5.
 */
module ReportsSetup {
  import opened Results
  import opened Text
  import opened Sheet
  import Columns
  import Layout
  import Summary
  import Allocation
  import ReportsSheet

  /** At most this many governorates get a column triple. */
  const GovernorateCap: nat := 10

  const SummaryHeaders: Row := [
    "نوع التقرير", "الفترة", "إجمالي الفواتير", "إجمالي المواد الموزعة", "عدد المساجد",
    "عدد المحافظات", "عدد العمال", "عدد المستخدمين", "متوسط المواد للفاتورة", "تاريخ التحديث", "ملاحظات"
  ]
  const MonthlyHeaders: Row := [
    "التقرير الشهري", "الفترة", "عدد الفواتير", "المواد الموزعة", "متوسط المواد للفاتورة", "تاريخ التحديث"
  ]
  const GovernorateSectionHeaders: Row := [
    "تقرير المحافظات", "المحافظة", "عدد الفواتير", "المواد الموزعة", "تاريخ التحديث"
  ]
  const MaterialsLabel: string := "المواد"
  const AllocatedLabel: string := "المخصص"
  const ReceivedLabel: string := "المستلم"
  const NotReceivedLabel: string := "غير مستلم"

  /** The placeholder summary written to row 2. */
  function DemoSummaryRow(now: string): (row: Row)
    ensures |row| == 11 && row[0] == Layout.SummaryTag
    ensures forall c :: 2 <= c <= 8 ==> row[c] == "0"
  {
    [Layout.SummaryTag, "الشهر الحالي", "0", "0", "0", "0", "0", "0", "0", now, "بيانات تجريبية"]
  }

  /** Keeps the first `GovernorateCap` elements: `.slice(0, 10)`. */
  function Cap(s: seq<string>): (r: seq<string>)
    ensures |r| <= GovernorateCap && |r| <= |s| && r == s[..|r|]
    ensures |s| <= GovernorateCap ==> r == s
  {
    if |s| <= GovernorateCap then s else s[..GovernorateCap]
  }

  /** The distinct non-empty values of column E below the header, first appearance first, at most ten. */
  function SetupGovernorates(receipts: Table): (govs: seq<string>)
    ensures |govs| <= GovernorateCap
    ensures NoDuplicates(govs)
    ensures forall g :: g in govs ==> NonEmpty(g)
  {
    var all := Distinct(NonEmptyOnly(ColumnCells(DataRows(receipts), 4)));
    assert forall k :: 0 <= k < |Cap(all)| ==> Cap(all)[k] == all[k];
    Cap(all)
  }

  /**
   * The grid lists the governorates `updateMaterialsByGovernorate` reports, in the same order,
   * cut to the first ten.
   */
  lemma SetupMatchesReport(receipts: Table)
    ensures SetupGovernorates(receipts) == Cap(Allocation.ReportGovernorates(Summary.ReportRows(receipts)))
  {
    var rows := Summary.ReportRows(receipts);
    assert ColumnCells(rows, 4) == ColumnCells(DataRows(receipts), 4);
  }

  /** `governorateHeaders`: each governorate's name, then two blanks. */
  function GovernorateHeaders(govs: seq<string>): (h: Row)
    ensures |h| == 3 * |govs|
    ensures forall g :: 0 <= g < |govs| ==> h[3 * g] == govs[g] && h[3 * g + 1] == "" && h[3 * g + 2] == ""
  {
    if |govs| == 0 then []
    else GovernorateHeaders(govs[..|govs| - 1]) + [govs[|govs| - 1], "", ""]
  }

  /** `subHeaders`: the materials label, then the allocated / received / not received triple per governorate. */
  function SubHeaders(govs: seq<string>): (h: Row)
    ensures |h| == 1 + 3 * |govs| && h[0] == MaterialsLabel
    ensures forall g :: 0 <= g < |govs| ==>
      h[3 * g + 1] == AllocatedLabel && h[3 * g + 2] == ReceivedLabel && h[3 * g + 3] == NotReceivedLabel
  {
    if |govs| == 0 then [MaterialsLabel]
    else SubHeaders(govs[..|govs| - 1]) + [AllocatedLabel, ReceivedLabel, NotReceivedLabel]
  }

  // ---------------------------------------------------------------------------------------
  // The last column of the header ranges

  /** The script's `String.fromCharCode(65 + subHeaders.length - 1)` for `n` governorates. */
  function RangeEndAsWritten(n: nat): (s: string)
    requires n <= GovernorateCap
  {
    [(65 + (1 + 3 * n) - 1) as char]
  }

  /** The column letter is a letter only up to eight governorates, yet the list holds up to ten. */
  lemma RangeEndPastZ(n: nat)
    requires n <= GovernorateCap
    ensures Columns.AllLetters(RangeEndAsWritten(n)) <==> n <= 8
    ensures RangeEndAsWritten(9) == "\\" && RangeEndAsWritten(10) == "_"
  {
    assert RangeEndAsWritten(n)[0] as int == 65 + 3 * n;
  }

  /** The name of column `1 + 3n`, the last one the sub-headers fill. */
  function RangeEnd(n: nat): (s: string)
    ensures |s| >= 1 && Columns.AllLetters(s)
    ensures Columns.ColumnNumber(s) == 1 + 3 * n
  {
    Columns.ColumnNumberOfLetter(1 + 3 * n);
    Columns.ColumnLetter(1 + 3 * n)
  }

  /** Where the script's letter is a letter at all, it is the right one. */
  lemma RangeEndAgrees(n: nat)
    requires n <= 8
    ensures RangeEnd(n) == RangeEndAsWritten(n)
  {
    Columns.SingleLetter(1 + 3 * n);
  }

  // ---------------------------------------------------------------------------------------
  // Materials down column A

  /** `Materials!A:A` below the header, empty names dropped. */
  function SetupMaterialNames(materialsSheet: Table): (names: seq<string>)
    ensures forall x :: x in names ==> NonEmpty(x)
  {
    NonEmptyOnly(ColumnCells(DataRows(materialsSheet), 0))
  }

  /** When every material has a name, column A lists exactly the names the receipt headers use. */
  lemma SetupNamesAreMaterialNames(materialsSheet: Table)
    requires forall i :: 0 <= i < |DataRows(materialsSheet)| ==> NonEmpty(At(DataRows(materialsSheet)[i], 0))
    ensures SetupMaterialNames(materialsSheet) == Columns.MaterialNames(DataRows(materialsSheet))
  {
    var cells := ColumnCells(DataRows(materialsSheet), 0);
    Columns.NonEmptyKeepsAll(cells);
  }

  /** One single-cell row per material. */
  function MaterialColumnRows(names: seq<string>): (rows: seq<Row>)
    ensures |rows| == |names| && forall k :: 0 <= k < |names| ==> rows[k] == [names[k]]
  {
    seq(|names|, k requires 0 <= k < |names| => [names[k]])
  }

  /**
   * The script's writes in order, with the grid header and sub-header ranges ending at
   * `RangeEnd` (see `SetupReportsAsWritten` for the script's own range end): summary headers
   * (row 1), placeholder summary (row 2), monthly headers (row 4), governorate headers (row 6),
   * the grid header (row 3), the sub-headers over row 4, then the material names from row 5
   * when there are any.
   */
  function SetupReports(receipts: Table, materialsSheet: Table, reports: Table, now: string): (u: Table)
    ensures |u| > 5
    ensures forall c :: 0 <= c < 11 ==> At(u[1], c) == DemoSummaryRow(now)[c]
    ensures var govs := SetupGovernorates(receipts);
      forall c :: 0 <= c < 3 * |govs| ==> At(u[2], c) == GovernorateHeaders(govs)[c]
    ensures var govs := SetupGovernorates(receipts);
      forall c :: 0 <= c <= 3 * |govs| ==> At(u[3], c) == SubHeaders(govs)[c]
    ensures var names := SetupMaterialNames(materialsSheet);
      forall k :: 0 <= k < |names| ==> 4 + k < |u| && At(u[4 + k], 0) == names[k]
  {
    SetupLayout(SetupGovernorates(receipts), SetupMaterialNames(materialsSheet), reports, now)
  }

  /** The headers for `govs`, then the names from row 5. */
  function SetupLayout(govs: seq<string>, names: seq<string>, reports: Table, now: string): (u: Table)
    ensures |u| > 5
    ensures forall c :: 0 <= c < 11 ==> At(u[1], c) == DemoSummaryRow(now)[c]
    ensures forall c :: 0 <= c < 3 * |govs| ==> At(u[2], c) == GovernorateHeaders(govs)[c]
    ensures forall c :: 0 <= c <= 3 * |govs| ==> At(u[3], c) == SubHeaders(govs)[c]
    ensures forall k :: 0 <= k < |names| ==> 4 + k < |u| && At(u[4 + k], 0) == names[k]
  {
    var t := HeadersWritten(govs, reports, now);
    var v := PlaceNames(t, names);
    assert v[1] == t[1] && v[2] == t[2] && v[3] == t[3];
    v
  }

  /** How a run of the script ends: the Reports sheet as it is left, and whether it exited with an error. */
  datatype SetupRun = SetupRun(reports: Table, failed: bool)

  /**
   * The script as written. The grid header and sub-header ranges end at `RangeEndAsWritten`;
   * when that is not a column name the Sheets service refuses the update, the catch exits with
   * status 1, and only the section headers written before stay.
   */
  function SetupReportsAsWritten(receipts: Table, materialsSheet: Table, reports: Table, now: string): (run: SetupRun)
    ensures run.failed <==> |SetupGovernorates(receipts)| > 8
    ensures !run.failed ==> run.reports == SetupReports(receipts, materialsSheet, reports, now)
  {
    var govs := SetupGovernorates(receipts);
    RangeEndPastZ(|govs|);
    if Columns.AllLetters(RangeEndAsWritten(|govs|)) then
      SetupRun(SetupLayout(govs, SetupMaterialNames(materialsSheet), reports, now), false)
    else
      SetupRun(SectionHeaders(reports, now), true)
  }

  /**
   * With nine or ten governorates the script stops before the grid: it exits with an error, the
   * reader still sees the placeholder summary, and the old third row and the rows the material
   * names would have filled are left as they were.
   */
  lemma SetupAbortsPastEight(receipts: Table, materialsSheet: Table, reports: Table, now: string)
    requires |SetupGovernorates(receipts)| > 8
    ensures var run := SetupReportsAsWritten(receipts, materialsSheet, reports, now);
      && run.failed
      && ReportsSheet.GetReportsData(run.reports).summary == Some(ReportsSheet.SummaryView(0, 0, 0, 0, 0, 0, 0))
      && ReportsSheet.GridHeader(run.reports) == ReportsSheet.GridHeader(reports)
      && (forall i :: i == 4 || i >= 6 ==> RowOf(run.reports, i) == RowOf(reports, i))
  {
    var t := SectionHeaders(reports, now);
    DemoSummaryReadsZero(t, now);
  }

  /** The ranges the corrected script writes end exactly at the last sub-header. */
  lemma RangeCoversHeaders(govs: seq<string>)
    requires |govs| <= GovernorateCap
    ensures Columns.ColumnNumber(RangeEnd(|govs|)) == |SubHeaders(govs)|
    ensures |GovernorateHeaders(govs)| < Columns.ColumnNumber(RangeEnd(|govs|))
  {
  }

  /**
   * The material names written down column A from row 5, skipped when there are none: each
   * name lands in its row, and the rows above are left alone.
   */
  function PlaceNames(t: Table, names: seq<string>): (u: Table)
    ensures |u| >= |t| && (|names| > 0 ==> |u| >= 4 + |names|)
    ensures forall i :: 0 <= i < 4 && i < |t| ==> u[i] == t[i]
    ensures forall k :: 0 <= k < |names| ==> 4 + k < |u| && At(u[4 + k], 0) == names[k]
  {
    if |names| == 0 then t
    else
      MaterialColumnPlaced(t, names);
      WriteRowsEffect(t, 4, MaterialColumnRows(names));
      WriteRows(t, 4, MaterialColumnRows(names))
  }

  /** The header writes, before the material names. */
  function HeadersWritten(govs: seq<string>, reports: Table, now: string): (u: Table)
    ensures |u| > 5
    ensures forall c :: 0 <= c < 11 ==> At(u[1], c) == DemoSummaryRow(now)[c]
    ensures forall c :: 0 <= c < 3 * |govs| ==> At(u[2], c) == GovernorateHeaders(govs)[c]
    ensures forall c :: 0 <= c <= 3 * |govs| ==> At(u[3], c) == SubHeaders(govs)[c]
  {
    GridHeaders(SectionHeaders(reports, now), govs)
  }

  /**
   * The section headers and the placeholder summary: the summary row reads as the placeholder
   * and the third row is not touched.
   */
  function SectionHeaders(reports: Table, now: string): (t: Table)
    ensures |t| > 5
    ensures forall c :: 0 <= c < 11 ==> At(t[1], c) == DemoSummaryRow(now)[c]
    ensures t[2] == RowOf(reports, 2)
    ensures forall i :: i == 4 || i >= 6 ==> RowOf(t, i) == RowOf(reports, i)
  {
    var t1 := WriteRow(reports, 0, SummaryHeaders);
    var t2 := WriteRow(t1, Layout.SummaryRowIndex, DemoSummaryRow(now));
    var t3 := WriteRow(t2, 3, MonthlyHeaders);
    assert t3[1] == t2[1];
    var t4 := WriteRow(t3, 5, GovernorateSectionHeaders);
    assert t4[1] == t3[1];
    assert RowOf(t1, 2) == RowOf(reports, 2);
    t4
  }

  /**
   * The grid header over row 3 and the sub-headers over row 4: row 3 shows the governorate
   * headers and keeps whatever stood to their right; the summary row is not touched.
   */
  function GridHeaders(t: Table, govs: seq<string>): (u: Table)
    requires |t| > 5
    ensures |u| == |t| && u[1] == t[1]
    ensures forall c :: 0 <= c < 3 * |govs| ==> At(u[2], c) == GovernorateHeaders(govs)[c]
    ensures forall c :: c >= 3 * |govs| ==> At(u[2], c) == At(t[2], c)
    ensures forall c :: 0 <= c <= 3 * |govs| ==> At(u[3], c) == SubHeaders(govs)[c]
  {
    var t5 := WriteRow(t, 2, GovernorateHeaders(govs));
    var t6 := WriteRow(t5, 3, SubHeaders(govs));
    assert t6[2] == t5[2];
    t6
  }

  lemma MaterialColumnPlaced(t: Table, names: seq<string>)
    requires |names| > 0
    ensures var u := WriteRows(t, 4, MaterialColumnRows(names));
      forall k :: 0 <= k < |names| ==> 4 + k < |u| && At(u[4 + k], 0) == names[k]
  {
    var rows := MaterialColumnRows(names);
    WriteRowsPlacement(t, 4, rows);
    forall k | 0 <= k < |names| ensures At(WriteRows(t, 4, rows)[4 + k], 0) == names[k] {
      assert rows[k] == [names[k]] && |rows[k]| == 1;
      assert At(WriteRows(t, 4, rows)[4 + k], 0) == rows[k][0];
    }
  }

  // ---------------------------------------------------------------------------------------
  // Reading the grid header back

  /** Every third cell from `p` on is empty: nothing more is listed. */
  lemma {:induction false} HeaderBlank(h: Row, p: nat)
    requires forall q :: p <= q < |h| ==> h[q] == ""
    ensures ReportsSheet.HeaderFrom(h, p) == []
    decreases |h| - p
  {
    if p < |h| {
      HeaderBlank(h, p + 3);
    }
  }

  /**
   * A header row holding governorate `k` at position `3k` and nothing from `3n` on lists the
   * governorates from `i` on.
   */
  lemma {:induction false} HeaderThirds(h: Row, govs: seq<string>, i: nat)
    requires i <= |govs|
    requires forall k :: 0 <= k < |govs| ==> At(h, 3 * k) == govs[k] && NonEmpty(govs[k])
    requires forall q :: 3 * |govs| <= q < |h| ==> h[q] == ""
    ensures ReportsSheet.HeaderFrom(h, 3 * i) == govs[i..]
    decreases |govs| - i
  {
    if i == |govs| {
      HeaderBlank(h, 3 * i);
    } else {
      HeaderThirds(h, govs, i + 1);
      assert At(h, 3 * i) == govs[i];
      assert govs[i..] == [govs[i]] + govs[i + 1..];
    }
  }

  /**
   * What the grid reader takes from the header row the setup writes: the governorates
   * themselves, in order, for up to nine of them (nine only once the range end is corrected,
   * see `SetupAbortsPastEight`).
   */
  lemma HeaderRoundTrip(govs: seq<string>)
    requires |govs| <= 9 && forall g :: g in govs ==> NonEmpty(g)
    ensures ReportsSheet.HeaderGovernorates(Take(GovernorateHeaders(govs), ReportsSheetWindow)) == govs
  {
    var h := GovernorateHeaders(govs);
    assert forall c :: c >= 3 * |govs| ==> At(h, c) == At([], c);
    HeaderRowReads(govs, h, []);
  }

  /**
   * With the range end corrected, a tenth governorate's name sits in column AB, past the
   * `A3:Z3` the reader looks at.
   */
  lemma TenthGovernorateUnread(govs: seq<string>)
    requires |govs| == 10 && forall g :: g in govs ==> NonEmpty(g)
    ensures ReportsSheet.HeaderGovernorates(Take(GovernorateHeaders(govs), ReportsSheetWindow)) == govs[..9]
  {
    var h := Take(GovernorateHeaders(govs), ReportsSheetWindow);
    var nine := govs[..9];
    forall k | 0 <= k < 9 ensures At(h, 3 * k) == nine[k] && NonEmpty(nine[k]) {
      assert govs[k] in govs;
    }
    HeaderThirds(h, nine, 0);
  }

  /** The rows the reader needs are past row 4, untouched by the material names. */
  lemma SetupKeepsHeaderRows(receipts: Table, materialsSheet: Table, reports: Table, now: string)
    ensures var t := HeadersWritten(SetupGovernorates(receipts), reports, now);
      var u := SetupReports(receipts, materialsSheet, reports, now);
      |u| >= |t| > 5 && u[1] == t[1] && u[2] == t[2]
  {
  }

  /** A sheet whose second row holds the placeholder summary reads back a summary of zeros. */
  lemma DemoSummaryReadsZero(u: Table, now: string)
    requires |u| > 1 && forall c :: 0 <= c < 11 ==> At(u[1], c) == DemoSummaryRow(now)[c]
    ensures ReportsSheet.GetReportsData(u).summary == Some(ReportsSheet.SummaryView(0, 0, 0, 0, 0, 0, 0))
  {
    var w := Window(u, ReportsSheetWindow);
    ReportsSheet.TaggedSummary(w);
    assert IntToString(0) == "0";
    ParseIntToString(0);
    var r := w[1];
    assert At(r, 0) == Layout.SummaryTag;
    assert At(r, 2) == "0" && At(r, 3) == "0" && At(r, 4) == "0" && At(r, 5) == "0";
    assert At(r, 6) == "0" && At(r, 7) == "0" && At(r, 8) == "0";
  }

  /** After the setup, the placeholder summary reads back as all zeros. */
  lemma SetupSummaryReadsZero(receipts: Table, materialsSheet: Table, reports: Table, now: string)
    ensures ReportsSheet.GetReportsData(SetupReports(receipts, materialsSheet, reports, now)).summary
      == Some(ReportsSheet.SummaryView(0, 0, 0, 0, 0, 0, 0))
  {
    DemoSummaryReadsZero(SetupReports(receipts, materialsSheet, reports, now), now);
  }

  /**
   * After the corrected setup, when the old third row held nothing past the new header, the
   * grid reader lists exactly the setup's governorates.
   */
  lemma SetupHeaderReadBack(receipts: Table, materialsSheet: Table, reports: Table, now: string)
    requires |SetupGovernorates(receipts)| <= 9
    requires |RowOf(reports, 2)| <= 3 * |SetupGovernorates(receipts)|
    ensures ReportsSheet.HeaderGovernorates(ReportsSheet.GridHeader(SetupReports(receipts, materialsSheet, reports, now)))
      == SetupGovernorates(receipts)
  {
    var govs := SetupGovernorates(receipts);
    var u := SetupReports(receipts, materialsSheet, reports, now);
    SetupKeepsHeaderRows(receipts, materialsSheet, reports, now);
    HeaderRowReads(govs, u[2], RowOf(reports, 2));
  }

  /** A written header row with nothing stale after it reads back as the governorates. */
  lemma HeaderRowReads(govs: seq<string>, row: Row, before: Row)
    requires |govs| <= 9 && forall g :: g in govs ==> NonEmpty(g)
    requires |before| <= 3 * |govs|
    requires forall c :: 0 <= c < 3 * |govs| ==> At(row, c) == GovernorateHeaders(govs)[c]
    requires forall c :: c >= 3 * |govs| ==> At(row, c) == At(before, c)
    ensures ReportsSheet.HeaderGovernorates(Take(row, ReportsSheetWindow)) == govs
  {
    var h := Take(row, ReportsSheetWindow);
    forall k | 0 <= k < |govs| ensures At(h, 3 * k) == govs[k] && NonEmpty(govs[k]) {
      assert govs[k] in govs;
    }
    forall q | 3 * |govs| <= q < |h| ensures h[q] == "" {
      assert At(h, q) == At(before, q);
    }
    HeaderThirds(h, govs, 0);
  }

  /**
   * After the corrected setup, each material named in the first 46 rows of column A is a key
   * of the grid the reader builds.
   */
  lemma SetupMaterialsListed(receipts: Table, materialsSheet: Table, reports: Table, now: string, k: nat)
    requires 1 <= |SetupGovernorates(receipts)| <= 9
    requires |RowOf(reports, 2)| <= 3 * |SetupGovernorates(receipts)|
    requires k < |SetupMaterialNames(materialsSheet)| && 4 + k < 50
    ensures SetupMaterialNames(materialsSheet)[k] in
      ReportsSheet.GetReportsData(SetupReports(receipts, materialsSheet, reports, now)).materialsByGovernorate
  {
    var u := SetupReports(receipts, materialsSheet, reports, now);
    var names := SetupMaterialNames(materialsSheet);
    SetupHeaderReadBack(receipts, materialsSheet, reports, now);
    assert names[k] in names;
    ReportsSheet.AnyNamedRowIsMaterial(u, 4 + k);
  }
}
