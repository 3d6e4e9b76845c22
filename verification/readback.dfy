/**
 * Reading back what the report writers put on the Reports sheet: each `update*` method's rows,
 * parsed by `getReportsData`, give the figures that were written, as far as integers go.
 */
module ReadBack {
  import opened Results
  import opened Text
  import opened Sheet
  import opened Grouping
  import Layout
  import Summary
  import Monthly
  import Governorates
  import Allocation
  import opened ReportsSheet

  /** A passing element of `s` is among the filtered ones. */
  lemma FilterKeeps<T>(s: seq<T>, keep: T -> bool, i: nat)
    requires i < |s| && keep(s[i])
    ensures s[i] in Filter(s, keep)
  {
    var idx := FilterPicks(s, keep);
    var k :| 0 <= k < |idx| && idx[k] == i;
  }

  /** The rows read through `Reports!A:Z` show the first 26 cells of what was written. */
  lemma WindowCell(u: Table, i: nat, c: nat)
    requires i < |u| && c < ReportsSheetWindow
    ensures At(Window(u, ReportsSheetWindow)[i], c) == At(u[i], c)
  {
  }

  /** The entry a written row reads back as, when it sits in the tagged list from `from` on. */
  lemma EntryListed(t: Table, tag: string, from: nat, i: nat)
    requires from <= i < |t| && At(t[i], 0) == tag
    ensures EntryOf(t[i]) in EntriesFrom(t, tag, from)
  {
    var rest := Rest(t, from);
    assert rest[i - from] == t[i];
    FilterKeeps(rest, TaggedWith(tag), i - from);
    var f := Filter(rest, TaggedWith(tag));
    var k :| 0 <= k < |f| && f[k] == t[i];
    assert EntriesOf(f)[k] == EntryOf(t[i]);
  }

  /** A row holding the summary row's cells reads back as the summary it was made from. */
  lemma SummaryRowParses(s: Summary.Summary, formatAverage: (int, nat) -> string, now: string, r: Row)
    requires forall c :: 0 <= c < 11 ==> At(r, c) == Summary.SummaryReportRow(s, formatAverage, now)[c]
    ensures SummaryOf(r) == SummaryView(
      s.totalReceipts, s.totalMaterialsDistributed, s.uniqueMosques, s.uniqueGovernorates,
      s.totalWorkers, s.totalUsers, Num(Summary.SummaryReportRow(s, formatAverage, now)[8]))
  {
    var row := Summary.SummaryReportRow(s, formatAverage, now);
    assert row[2] == IntToString(s.totalReceipts) && row[3] == IntToString(s.totalMaterialsDistributed);
    assert row[4] == IntToString(s.uniqueMosques) && row[5] == IntToString(s.uniqueGovernorates);
    assert row[6] == IntToString(s.totalWorkers) && row[7] == IntToString(s.totalUsers);
    ParseIntToString(s.totalReceipts);
    ParseIntToString(s.totalMaterialsDistributed);
    ParseIntToString(s.uniqueMosques);
    ParseIntToString(s.uniqueGovernorates);
    ParseIntToString(s.totalWorkers);
    ParseIntToString(s.totalUsers);
  }

  /**
   * `updateSummaryReport` then `getReportsData`: the summary comes back with the counts and the
   * material total that were computed; the average is whatever its text reads as.
   */
  lemma SummaryReadBack(receipts: Table, materials: Table, users: Table, reports: Table,
                        formatAverage: (int, nat) -> string, now: string)
    ensures var (s, u) := Summary.UpdateSummaryReport(receipts, materials, users, reports, formatAverage, now);
      GetReportsData(u).summary == Some(SummaryView(
        s.totalReceipts, s.totalMaterialsDistributed, s.uniqueMosques, s.uniqueGovernorates,
        s.totalWorkers, s.totalUsers, Num(Summary.SummaryReportRow(s, formatAverage, now)[8])))
  {
    var (s, u) := Summary.UpdateSummaryReport(receipts, materials, users, reports, formatAverage, now);
    var w := Window(u, ReportsSheetWindow);
    TaggedSummary(w);
    forall c | 0 <= c < 11 ensures At(w[1], c) == Summary.SummaryReportRow(s, formatAverage, now)[c] {
      WindowCell(u, 1, c);
    }
    SummaryRowParses(s, formatAverage, now, w[1]);
  }

  /** A row holding an entry's key, count and total in columns B-D reads back as that entry. */
  lemma EntryParses(key: string, count: int, total: int, r: Row)
    requires At(r, 1) == key && At(r, 2) == IntToString(count) && At(r, 3) == IntToString(total)
    ensures EntryOf(r) == Entry(key, count, total)
  {
    ParseIntToString(count);
    ParseIntToString(total);
  }

  /**
   * `updateGovernorateReports` then `getReportsData`: every governorate written comes back with
   * its name, receipt count and material total.
   */
  lemma GovernorateReadBack(receipts: Table, reports: Table, now: string, i: nat)
    requires i < |Governorates.GovernorateGroups(receipts)|
    ensures var g := Governorates.GovernorateGroups(receipts)[i];
      Entry(g.key, g.count, g.total) in GetReportsData(Governorates.UpdateGovernorateReports(receipts, reports, now)).governorateData
  {
    var g := Governorates.GovernorateGroups(receipts)[i];
    var u := Governorates.UpdateGovernorateReports(receipts, reports, now);
    var w := Window(u, ReportsSheetWindow);
    var k := Layout.GovernorateRowIndex(i);
    var row := Governorates.GovernorateReportRow(g, now);
    WindowCell(u, k, 0);
    WindowCell(u, k, 1);
    WindowCell(u, k, 2);
    WindowCell(u, k, 3);
    EntryParses(g.key, g.count, g.total, w[k]);
    TaggedLists(w);
    EntryListed(w, Layout.GovernorateTag, 6, k);
  }

  /**
   * `updateMonthlyReports` then `getReportsData`: every month written comes back with its period
   * text, receipt count and material total.
   */
  lemma MonthlyReadBack(receipts: Table, reports: Table, formatAverage: (int, nat) -> string, now: string, i: nat)
    requires i < |Monthly.MonthlyGroups(receipts)|
    ensures var g := Monthly.MonthlyGroups(receipts)[i];
      Entry(Monthly.Period(g.key), g.count, g.total) in GetReportsData(Monthly.UpdateMonthlyReports(receipts, reports, formatAverage, now)).monthlyData
  {
    var g := Monthly.MonthlyGroups(receipts)[i];
    var u := Monthly.UpdateMonthlyReports(receipts, reports, formatAverage, now);
    var w := Window(u, ReportsSheetWindow);
    var k := Layout.MonthlyRowIndex(i);
    var row := Monthly.MonthlyReportRow(g, formatAverage, now);
    WindowCell(u, k, 0);
    WindowCell(u, k, 1);
    WindowCell(u, k, 2);
    WindowCell(u, k, 3);
    EntryParses(Monthly.Period(g.key), g.count, g.total, w[k]);
    TaggedLists(w);
    EntryListed(w, Layout.MonthlyTag, 4, k);
  }

  /**
   * Once the grid header names a governorate, the first monthly row that `updateMonthlyReports`
   * writes (sheet row 5) is read back by the grid pass as a material named after the monthly tag.
   */
  lemma MonthlyRowReadAsMaterial(receipts: Table, reports: Table, formatAverage: (int, nat) -> string, now: string)
    requires |Monthly.MonthlyGroups(receipts)| > 0
    requires |HeaderGovernorates(GridHeader(reports))| > 0
    ensures Layout.MonthlyTag in GetReportsData(Monthly.UpdateMonthlyReports(receipts, reports, formatAverage, now)).materialsByGovernorate
  {
    var u := Monthly.UpdateMonthlyReports(receipts, reports, formatAverage, now);
    var k := Layout.MonthlyRowIndex(0);
    assert At(u[k], 0) == Monthly.MonthlyReportRow(Monthly.MonthlyGroups(receipts)[0], formatAverage, now)[0];
    assert u[2] == RowOf(reports, 2);
    assert GridHeader(u) == GridHeader(reports);
    AnyNamedRowIsMaterial(u, k);
  }

  // ---------------------------------------------------------------------------------------
  // The material rows

  /** No material row of an older, longer report survives below the freshly written block. */
  predicate NoStaleMaterialRows(reports: Table, from: int) {
    forall i :: 0 <= i < |reports| && from <= i ==> At(reports[i], 0) != Layout.MaterialTag
  }

  /** A row index inside the block is the row of some material and governorate. */
  lemma BlockPosition(k: nat, nm: nat, ng: nat) returns (j: nat, g: nat)
    requires 8 <= k < 8 + nm * ng
    ensures j < nm && g < ng && k == Layout.MaterialRowIndex(j, g, ng)
  {
    var d := k - 8;
    assert ng > 0;
    j, g := d / ng, d % ng;
    assert d == j * ng + g;
  }

  /** A row holding a material row's cells reads back as the entry it was made from. */
  lemma MaterialRowParses(rep: Allocation.Report, j: nat, gi: nat, now: string, r: Row)
    requires Allocation.Complete(rep) && j < |rep.materials| && gi < |rep.governorates|
    requires forall c :: 0 <= c < 7 ==> At(r, c) == Allocation.MaterialReportRow(rep, j, gi, now)[c]
    ensures rep.materials[j] in rep.data && rep.governorates[gi] in rep.data[rep.materials[j]]
    ensures MaterialRowFor(r, rep.materials[j], rep.governorates[gi])
    ensures MaterialCellOf(r) == rep.data[rep.materials[j]][rep.governorates[gi]]
  {
    assert rep.materials[j] in rep.materials && rep.governorates[gi] in rep.governorates;
    var cell := rep.data[rep.materials[j]][rep.governorates[gi]];
    ParseIntToString(cell.received);
    ParseIntToString(cell.allocation);
    ParseIntToString(cell.notDelivered);
  }

  /** The row read at a given index of the written sheet is the written row there. */
  lemma WrittenCells(rep: Allocation.Report, reports: Table, now: string, j: nat, gi: nat)
    requires Allocation.Complete(rep) && j < |rep.materials| && gi < |rep.governorates|
    ensures var u := WriteRows(reports, 8, Allocation.MaterialReportRows(rep, now));
      var k := Layout.MaterialRowIndex(j, gi, |rep.governorates|);
      && k < |u|
      && forall c :: 0 <= c < 7 ==> At(Window(u, ReportsSheetWindow)[k], c) == Allocation.MaterialReportRow(rep, j, gi, now)[c]
  {
    var u := WriteRows(reports, 8, Allocation.MaterialReportRows(rep, now));
    var k := Layout.MaterialRowIndex(j, gi, |rep.governorates|);
    Allocation.WrittenRow(rep, reports, now, j, gi);
    forall c | 0 <= c < 7 ensures At(Window(u, ReportsSheetWindow)[k], c) == Allocation.MaterialReportRow(rep, j, gi, now)[c] {
      WindowCell(u, k, c);
    }
  }

  /** Below the block the sheet keeps its old rows, so no material row is found there. */
  lemma PastBlock(rep: Allocation.Report, reports: Table, now: string, k: nat)
    requires Allocation.Complete(rep)
    requires NoStaleMaterialRows(reports, 8 + |rep.materials| * |rep.governorates|)
    requires 8 + |rep.materials| * |rep.governorates| <= k < |WriteRows(reports, 8, Allocation.MaterialReportRows(rep, now))|
    ensures At(Window(WriteRows(reports, 8, Allocation.MaterialReportRows(rep, now)), ReportsSheetWindow)[k], 0) != Layout.MaterialTag
  {
    var u := WriteRows(reports, 8, Allocation.MaterialReportRows(rep, now));
    Allocation.WrittenRows(rep, reports, now);
    WindowCell(u, k, 0);
    assert u[k] == RowOf(reports, k);
  }

  /** Inside the block, a material row for the same material and governorate is their own row. */
  lemma InBlock(rep: Allocation.Report, reports: Table, now: string, j: nat, gi: nat, k: nat)
    requires Allocation.Complete(rep) && NoDuplicates(rep.materials) && NoDuplicates(rep.governorates)
    requires j < |rep.materials| && gi < |rep.governorates|
    requires 8 <= k < 8 + |rep.materials| * |rep.governorates|
    requires var u := WriteRows(reports, 8, Allocation.MaterialReportRows(rep, now));
      k < |u| && MaterialRowFor(Window(u, ReportsSheetWindow)[k], rep.materials[j], rep.governorates[gi])
    ensures k == Layout.MaterialRowIndex(j, gi, |rep.governorates|)
  {
    var u := WriteRows(reports, 8, Allocation.MaterialReportRows(rep, now));
    var w := Window(u, ReportsSheetWindow);
    var j2, g2 := BlockPosition(k, |rep.materials|, |rep.governorates|);
    WrittenCells(rep, reports, now, j2, g2);
    RowIdentifiesEntry(rep, now, j, gi, j2, g2, w[k]);
  }

  /** With distinct names and governorates, a written row names only the entry it was made from. */
  lemma RowIdentifiesEntry(rep: Allocation.Report, now: string, j: nat, gi: nat, j2: nat, g2: nat, r: Row)
    requires Allocation.Complete(rep) && NoDuplicates(rep.materials) && NoDuplicates(rep.governorates)
    requires j < |rep.materials| && gi < |rep.governorates| && j2 < |rep.materials| && g2 < |rep.governorates|
    requires forall c :: 0 <= c < 7 ==> At(r, c) == Allocation.MaterialReportRow(rep, j2, g2, now)[c]
    requires MaterialRowFor(r, rep.materials[j], rep.governorates[gi])
    ensures j2 == j && g2 == gi
  {
    MaterialRowParses(rep, j2, g2, now, r);
    assert rep.materials[j2] == rep.materials[j] && rep.governorates[g2] == rep.governorates[gi];
  }

  /**
   * Writing a complete report from row 9 on, then reading the tagged rows: when the material
   * names and the governorates are each distinct and no stale material row lies below the block,
   * every entry comes back exactly as computed.
   */
  lemma ReportReadBack(rep: Allocation.Report, reports: Table, now: string, j: nat, gi: nat)
    requires Allocation.Complete(rep) && NoDuplicates(rep.materials) && NoDuplicates(rep.governorates)
    requires NoStaleMaterialRows(reports, 8 + |rep.materials| * |rep.governorates|)
    requires j < |rep.materials| && gi < |rep.governorates|
    ensures rep.materials[j] in rep.data && rep.governorates[gi] in rep.data[rep.materials[j]]
    ensures var tagged := ReadTagged(Window(WriteRows(reports, 8, Allocation.MaterialReportRows(rep, now)), ReportsSheetWindow)).materials;
      var n, g := rep.materials[j], rep.governorates[gi];
      && n in tagged && g in tagged[n] && tagged[n][g] == rep.data[n][g]
  {
    var u := WriteRows(reports, 8, Allocation.MaterialReportRows(rep, now));
    var w := Window(u, ReportsSheetWindow);
    var n, g := rep.materials[j], rep.governorates[gi];
    var i0 := Layout.MaterialRowIndex(j, gi, |rep.governorates|);
    WrittenCells(rep, reports, now, j, gi);
    MaterialRowParses(rep, j, gi, now, w[i0]);
    LastMaterialRowFound(w, n, g, i0);
    var last := LastMaterialRow(w, n, g).value;
    if last >= 8 + |rep.materials| * |rep.governorates| {
      PastBlock(rep, reports, now, last);
    } else {
      InBlock(rep, reports, now, j, gi, last);
    }
    TaggedMaterials(w, n, g);
  }

  /**
   * `updateMaterialsByGovernorate` then the tagged pass of `getReportsData`: with distinct
   * material names and no stale material row below the block, every entry comes back as computed.
   */
  lemma MaterialReadBack(receipts: Table, materialsSheet: Table, reports: Table, now: string, j: nat, gi: nat)
    requires var rep := Allocation.ComputeReport(receipts, materialsSheet);
      && NoDuplicates(rep.materials)
      && NoStaleMaterialRows(reports, 8 + |rep.materials| * |rep.governorates|)
      && j < |rep.materials| && gi < |rep.governorates|
    ensures var (rep, u) := Allocation.UpdateMaterialsByGovernorate(receipts, materialsSheet, reports, now);
      var tagged := ReadTagged(Window(u, ReportsSheetWindow)).materials;
      && rep.materials[j] in rep.data && rep.governorates[gi] in rep.data[rep.materials[j]]
      && rep.materials[j] in tagged && rep.governorates[gi] in tagged[rep.materials[j]]
      && tagged[rep.materials[j]][rep.governorates[gi]] == rep.data[rep.materials[j]][rep.governorates[gi]]
  {
    var rep := Allocation.ComputeReport(receipts, materialsSheet);
    Allocation.ReportShape(receipts, materialsSheet);
    ReportReadBack(rep, reports, now, j, gi);
  }
}
