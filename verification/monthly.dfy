/**
 * The report by month: `/reports/by-month` and `updateMonthlyReports`. Receipts with a
 * timestamp, a month and a year are grouped under the key `year-MM`; each group is shown as
 * the period `"<month name> <year>"`.
 */
module Monthly {
  import opened Results
  import opened Text
  import opened Sheet
  import opened Grouping
  import Layout
  import Summary

  /** `${year}-${month.toString().padStart(2, '0')}`. */
  function MonthKey(year: int, month: int): string {
    IntToString(year) + "-" + PadStart2(IntToString(month))
  }

  /** A row takes part when its timestamp, month (column 13) and year (column 14) are all present. */
  predicate HasPeriod(r: Row) {
    NonEmpty(At(r, 0)) && NonEmpty(At(r, 13)) && NonEmpty(At(r, 14))
  }

  /** The grouping key of a receipt row, or `None` when the row is skipped. */
  function MonthKeyOf(r: Row): (k: Option<string>)
    ensures k.Some? <==> HasPeriod(r)
  {
    if HasPeriod(r) then Some(MonthKey(Num(At(r, 14)), Num(At(r, 13)))) else None
  }

  /** The twelve month names, January first. */
  const MonthNames: seq<string> := [
    "يناير", "فبراير", "مارس", "أبريل", "مايو", "يونيو",
    "يوليو", "أغسطس", "سبتمبر", "أكتوبر", "نوفمبر", "ديسمبر"
  ]

  const UnknownMonth: string := "شهر غير معروف"

  /** `monthNames[n] || 'شهر غير معروف'`. */
  function MonthName(n: int): (name: string)
    ensures 1 <= n <= 12 ==> name == MonthNames[n - 1]
    ensures !(1 <= n <= 12) ==> name == UnknownMonth
  {
    if 1 <= n <= 12 then MonthNames[n - 1] else UnknownMonth
  }

  /**
   * `const [year, month] = key.split('-')` and then `${monthNames[parseInt(month)] || …} ${year}`.
   * A missing second piece reads as `undefined`, whose `parseInt` is NaN, like the empty text.
   */
  function Period(key: string): string {
    var parts := Split(key, '-');
    var month := if |parts| > 1 then parts[1] else "";
    MonthName(Num(month)) + " " + parts[0]
  }

  /** The digits of a non-negative number hold no dash. */
  lemma NoDashInNat(n: nat)
    ensures '-' !in IntToString(n) && '-' !in PadStart2(IntToString(n))
  {
    var s := IntToString(n);
    var p := PadStart2(s);
    assert AllDigits(s);
    assert p == p[..|p| - |s|] + s;
    forall i | 0 <= i < |p| ensures p[i] != '-' {
      if i >= |p| - |s| {
        assert p[i] == s[i - (|p| - |s|)];
      }
    }
  }

  /** A key splits back into its year and month, which read back as the numbers put in. */
  lemma MonthKeyRoundTrip(year: nat, month: nat)
    ensures Split(MonthKey(year, month), '-') == [IntToString(year), PadStart2(IntToString(month))]
    ensures Num(IntToString(year)) == year && Num(PadStart2(IntToString(month))) == month
  {
    NoDashInNat(year);
    NoDashInNat(month);
    SplitAt(IntToString(year), '-', PadStart2(IntToString(month)));
    SplitNone(PadStart2(IntToString(month)), '-');
    ParseIntToString(year);
    ParsePaddedNat(month);
  }

  /** Distinct (year, month) pairs get distinct keys, so each has its own group. */
  lemma MonthKeyInjective(y1: nat, m1: nat, y2: nat, m2: nat)
    requires MonthKey(y1, m1) == MonthKey(y2, m2)
    ensures y1 == y2 && m1 == m2
  {
    MonthKeyRoundTrip(y1, m1);
    MonthKeyRoundTrip(y2, m2);
  }

  /** The period shown for a key is the month's name followed by the year. */
  lemma PeriodOfKey(year: nat, month: nat)
    ensures Period(MonthKey(year, month)) == MonthName(month) + " " + IntToString(year)
  {
    MonthKeyRoundTrip(year, month);
  }

  /**
   * The grouped report rows, before any sorting: one group per key, holding the number of
   * qualifying receipts with that key and the sum of their material cells to the row's end.
   */
  function MonthlyGroups(receipts: Table): (gs: seq<Group>)
    ensures UniqueKeys(gs)
    ensures Keys(gs) == KeySet(Summary.ReportRows(receipts), MonthKeyOf)
    ensures forall g :: g in gs ==> g.count == CountKey(Summary.ReportRows(receipts), MonthKeyOf, g.key) >= 1
    ensures forall g :: g in gs ==> g.total == SumKey(Summary.ReportRows(receipts), MonthKeyOf, g.key)
    ensures SumCounts(gs) == CountWhere(Summary.ReportRows(receipts), HasPeriod)
    ensures SumTotals(gs) == QualifyingTotal(Summary.ReportRows(receipts), MonthKeyOf)
  {
    var rows := Summary.ReportRows(receipts);
    var gs := Aggregate(rows, MonthKeyOf);
    CountWhereAgree(rows, r => Qualifies(MonthKeyOf, r), HasPeriod);
    forall g | g in gs ensures g.count == CountKey(rows, MonthKeyOf, g.key) >= 1 && g.total == SumKey(rows, MonthKeyOf, g.key) {
      AggregateGroup(rows, MonthKeyOf, g);
    }
    gs
  }

  /** Every group's key is the key of some qualifying row: a real (year, month) pair. */
  lemma GroupKeysFromRows(receipts: Table, g: Group)
    requires g in MonthlyGroups(receipts)
    ensures exists i :: (0 <= i < |Summary.ReportRows(receipts)| && HasPeriod(Summary.ReportRows(receipts)[i]) &&
      g.key == MonthKey(Num(At(Summary.ReportRows(receipts)[i], 14)), Num(At(Summary.ReportRows(receipts)[i], 13))))
  {
    assert g.key in Keys(MonthlyGroups(receipts));
  }

  /** The groups with their keys shown as periods. */
  function AsPeriods(gs: seq<Group>): (ps: seq<Group>)
    ensures |ps| == |gs|
    ensures forall i :: 0 <= i < |gs| ==> ps[i] == Group(Period(gs[i].key), gs[i].count, gs[i].total)
  {
    seq(|gs|, i requires 0 <= i < |gs| => Group(Period(gs[i].key), gs[i].count, gs[i].total))
  }

  // ---------------------------------------------------------------------------------------
  // The route's sort

  /** `parseInt(x)`: `None` stands for NaN. */
  function ParseOrNaN(s: string): Option<int> {
    ParseInt(s)
  }

  /** `Object.keys(monthNames).find(key => monthNames[key] === name)`, as a number. */
  function MonthIndex(name: string): (k: Option<int>)
    ensures k.Some? ==> 1 <= k.value <= 12 && MonthNames[k.value - 1] == name
    ensures k.None? ==> name !in MonthNames
  {
    if name in MonthNames then
      var i :| 0 <= i < |MonthNames| && MonthNames[i] == name;
      Some(i + 1)
    else None
  }

  /** The piece at `i` of a split, or the text of `undefined`'s stand-in. */
  function Piece(parts: seq<string>, i: nat): string {
    if i < |parts| then parts[i] else ""
  }

  /**
   * The comparator as written: `const [yearA, monthA] = a.period.split(' ')` takes the month name
   * as the year and the year as the month. `None` is NaN.
   */
  function ComparePeriodsAsWritten(a: string, b: string): Option<int> {
    var pa := Split(a, ' ');
    var pb := Split(b, ' ');
    var yearA := Piece(pa, 0);
    var yearB := Piece(pb, 0);
    if yearA != yearB then
      match (ParseOrNaN(yearB), ParseOrNaN(yearA))
      case (Some(x), Some(y)) => Some(x - y)
      case _ => None
    else
      match (MonthIndex(Piece(pb, 1)), MonthIndex(Piece(pa, 1)))
      case (Some(x), Some(y)) => Some(x - y)
      case _ => None
  }

  /**
   * `Array.prototype.sort` treats a NaN comparison as 0, "keep in place"; otherwise `a` may stay
   * ahead of `b` when the comparison is not positive.
   */
  function JsBefore(compare: (string, string) -> Option<int>): Before {
    (a: Group, b: Group) => match compare(a.key, b.key) case None => true case Some(d) => d <= 0
  }

  /** `/reports/by-month` as written. */
  function ByMonthAsWritten(receipts: Table): (gs: seq<Group>)
    ensures |gs| == |MonthlyGroups(receipts)|
    ensures multiset(gs) == multiset(AsPeriods(MonthlyGroups(receipts)))
    ensures SumCounts(gs) == CountWhere(Summary.ReportRows(receipts), HasPeriod)
  {
    var ps := AsPeriods(MonthlyGroups(receipts));
    SortMembers(ps, JsBefore(ComparePeriodsAsWritten));
    SortSums(ps, JsBefore(ComparePeriodsAsWritten));
    AsPeriodsSums(MonthlyGroups(receipts));
    SortGroups(ps, JsBefore(ComparePeriodsAsWritten))
  }

  lemma {:induction false} AsPeriodsSums(gs: seq<Group>)
    ensures SumCounts(AsPeriods(gs)) == SumCounts(gs)
    ensures SumTotals(AsPeriods(gs)) == SumTotals(gs)
  {
    if |gs| > 0 {
      AsPeriodsSums(gs[1..]);
      assert AsPeriods(gs)[1..] == AsPeriods(gs[1..]);
    }
  }

  /** No month name starts with a digit or a sign, so none reads as a number. */
  lemma MonthWordsAreNaN(name: string)
    requires name in MonthNames || name == "شهر"
    ensures ParseOrNaN(name) == None
  {
    assert |name| > 0 && !IsDigit(name[0]) && name[0] != '-' && name[0] != '+';
  }

  /** A run of digits, the empty one included, is never a month name. */
  lemma DigitsAreNoMonthName(y: string)
    requires AllDigits(y)
    ensures MonthIndex(y) == None
  {
    if |y| > 0 {
      assert IsDigit(y[0]);
    }
  }

  /**
   * The piece of a key before its first dash: the year's digits, or nothing at all when the
   * year is negative and the key starts with its sign.
   */
  lemma KeyYearPiece(year: int, month: int)
    ensures AllDigits(Split(MonthKey(year, month), '-')[0])
  {
    var m := PadStart2(IntToString(month));
    if year >= 0 {
      NoDashInNat(year);
      assert MonthKey(year, month) == IntToString(year) + ['-'] + m;
      SplitAt(IntToString(year), '-', m);
    } else {
      var rest := NatToString(-year) + "-" + m;
      assert MonthKey(year, month) == "" + ['-'] + rest;
      SplitAt("", '-', rest);
    }
  }

  /** The period shown for any key the route builds, split at its spaces. */
  lemma PeriodWords(year: int, month: int)
    ensures var p := Split(Period(MonthKey(year, month)), ' ');
      ParseOrNaN(Piece(p, 0)) == None &&
      MonthIndex(Piece(p, 1)) == None
  {
    var parts := Split(MonthKey(year, month), '-');
    KeyYearPiece(year, month);
    var n := Num(if |parts| > 1 then parts[1] else "");
    assert Period(MonthKey(year, month)) == MonthName(n) + " " + parts[0];
    if 1 <= n <= 12 {
      KnownMonthWords(MonthNames[n - 1], parts[0]);
    } else {
      UnknownMonthWords(parts[0]);
    }
  }

  lemma KnownMonthWords(name: string, y: string)
    requires name in MonthNames && AllDigits(y)
    ensures var p := Split(name + " " + y, ' ');
      ParseOrNaN(Piece(p, 0)) == None && MonthIndex(Piece(p, 1)) == None
  {
    assert ' ' !in name;
    assert ' ' !in y;
    assert name + " " + y == name + [' '] + y;
    SplitAt(name, ' ', y);
    SplitNone(y, ' ');
    MonthWordsAreNaN(name);
    DigitsAreNoMonthName(y);
  }

  lemma UnknownMonthWords(y: string)
    requires AllDigits(y)
    ensures var p := Split(UnknownMonth + " " + y, ' ');
      ParseOrNaN(Piece(p, 0)) == None && MonthIndex(Piece(p, 1)) == None
  {
    var rest := "معروف" + [' '] + y;
    assert UnknownMonth + " " + y == "شهر" + [' '] + ("غير" + [' '] + rest);
    SplitAt("شهر", ' ', "غير" + [' '] + rest);
    SplitAt("غير", ' ', rest);
    MonthWordsAreNaN("شهر");
    assert "غير" !in MonthNames;
  }

  /** For any two periods the route can build, whatever numbers the cells hold, the comparator returns NaN. */
  lemma ComparatorAlwaysNaN(y1: int, m1: int, y2: int, m2: int)
    ensures ComparePeriodsAsWritten(Period(MonthKey(y1, m1)), Period(MonthKey(y2, m2))) == None
  {
    PeriodWords(y1, m1);
    PeriodWords(y2, m2);
  }

  /** A comparison that lets every element stay where it is leaves the sequence unsorted. */
  lemma {:induction false} SortKeepsOrder(gs: seq<Group>, before: Before)
    requires forall i, j :: 0 <= i < |gs| && 0 <= j < |gs| ==> before(gs[i], gs[j])
    ensures SortGroups(gs, before) == gs
  {
    if |gs| > 0 {
      SortKeepsOrder(gs[1..], before);
      if |gs| > 1 {
        assert before(gs[0], gs[1]);
      }
    }
  }

  /**
   * The sort in `/reports/by-month` does nothing: the result keeps the order in which the
   * months first appear, however the comment above it promises newest first.
   */
  lemma AsWrittenKeepsOrder(receipts: Table)
    ensures ByMonthAsWritten(receipts) == AsPeriods(MonthlyGroups(receipts))
  {
    var gs := MonthlyGroups(receipts);
    var ps := AsPeriods(gs);
    var rows := Summary.ReportRows(receipts);
    forall i, j | 0 <= i < |ps| && 0 <= j < |ps| ensures JsBefore(ComparePeriodsAsWritten)(ps[i], ps[j]) {
      var a := KeyParts(receipts, gs[i]);
      var b := KeyParts(receipts, gs[j]);
      ComparatorAlwaysNaN(a.0, a.1, b.0, b.1);
    }
    SortKeepsOrder(ps, JsBefore(ComparePeriodsAsWritten));
  }

  lemma KeyParts(receipts: Table, g: Group) returns (ym: (int, int))
    requires g in MonthlyGroups(receipts)
    ensures g.key == MonthKey(ym.0, ym.1)
  {
    var r := KeyRow(receipts, g);
    var year, month := Num(At(r, 14)), Num(At(r, 13));
    ym := (year, month);
  }

  /** The row a group's key was taken from. */
  lemma KeyRow(receipts: Table, g: Group) returns (r: Row)
    requires g in MonthlyGroups(receipts)
    ensures g.key == MonthKey(Num(At(r, 14)), Num(At(r, 13)))
  {
    var rows := Summary.ReportRows(receipts);
    GroupKeysFromRows(receipts, g);
    var i :| 0 <= i < |rows| && HasPeriod(rows[i]) && g.key == MonthKey(Num(At(rows[i], 14)), Num(At(rows[i], 13)));
    r := rows[i];
  }

  // ---------------------------------------------------------------------------------------
  // The intended order

  /** The (year, month) a key was built from. */
  function KeyYear(key: string): int {
    Num(Split(key, '-')[0])
  }

  function KeyMonth(key: string): int {
    Num(Piece(Split(key, '-'), 1))
  }

  /** Newest first: a later year, or the same year and a later or equal month, goes ahead. */
  function NewestFirst(): Before {
    (a: Group, b: Group) =>
      KeyYear(a.key) > KeyYear(b.key) || (KeyYear(a.key) == KeyYear(b.key) && KeyMonth(a.key) >= KeyMonth(b.key))
  }

  lemma NewestFirstIsPreorder()
    ensures TotalPreorder(NewestFirst())
  {
  }

  /**
   * `/reports/by-month` with the order its comment describes: the month groups sorted newest
   * first on the key, then shown as periods. The groups are those of the report as written.
   */
  function ByMonthSorted(receipts: Table): (ps: seq<Group>)
    ensures SumCounts(ps) == CountWhere(Summary.ReportRows(receipts), HasPeriod)
    ensures exists gs :: Sorted(gs, NewestFirst()) && multiset(gs) == multiset(MonthlyGroups(receipts)) && ps == AsPeriods(gs)
  {
    var gs0 := MonthlyGroups(receipts);
    var gs := SortGroups(gs0, NewestFirst());
    NewestFirstIsPreorder();
    SortSorted(gs0, NewestFirst());
    SortMembers(gs0, NewestFirst());
    SortSums(gs0, NewestFirst());
    AsPeriodsSums(gs);
    var ps := AsPeriods(gs);
    assert Sorted(gs, NewestFirst()) && multiset(gs) == multiset(gs0) && ps == AsPeriods(gs);
    ps
  }

  /** With keys read back as numbers, the corrected report is newest first by (year, month). */
  lemma SortedNewestFirst(year1: nat, month1: nat, year2: nat, month2: nat)
    ensures NewestFirst()(Group(MonthKey(year1, month1), 1, 0), Group(MonthKey(year2, month2), 1, 0)) <==>
      year1 > year2 || (year1 == year2 && month1 >= month2)
  {
    MonthKeyRoundTrip(year1, month1);
    MonthKeyRoundTrip(year2, month2);
    assert KeyYear(MonthKey(year1, month1)) == year1 && KeyMonth(MonthKey(year1, month1)) == month1;
    assert KeyYear(MonthKey(year2, month2)) == year2 && KeyMonth(MonthKey(year2, month2)) == month2;
  }

  // ---------------------------------------------------------------------------------------
  // updateMonthlyReports

  /** One monthly row of the Reports sheet, columns A-F. */
  function MonthlyReportRow(g: Group, formatAverage: (int, nat) -> string, now: string): (row: Row)
    ensures |row| == 6 && row[0] == Layout.MonthlyTag
  {
    [Layout.MonthlyTag, Period(g.key), IntToString(g.count), IntToString(g.total), formatAverage(g.total, g.count), now]
  }

  /** The rows `updateMonthlyReports` returns: one per month group, in first-appearance order. */
  function MonthlyReportRows(receipts: Table, formatAverage: (int, nat) -> string, now: string): (rows: seq<Row>)
    ensures |rows| == |MonthlyGroups(receipts)|
    ensures forall i :: 0 <= i < |rows| ==> rows[i] == MonthlyReportRow(MonthlyGroups(receipts)[i], formatAverage, now)
  {
    var gs := MonthlyGroups(receipts);
    seq(|gs|, i requires 0 <= i < |gs| => MonthlyReportRow(gs[i], formatAverage, now))
  }

  /**
   * `updateMonthlyReports`: monthly row `i` is written to sheet row `5 + i`, columns A-F; every
   * row outside that block is left as it was.
   */
  function UpdateMonthlyReports(receipts: Table, reports: Table, formatAverage: (int, nat) -> string, now: string): (u: Table)
    ensures var rows := MonthlyReportRows(receipts, formatAverage, now);
      && (|rows| > 0 ==> |u| >= Layout.MonthlyRowIndex(|rows|))
      && (forall i, j :: 0 <= i < |rows| && 0 <= j < 6 ==> At(u[Layout.MonthlyRowIndex(i)], j) == rows[i][j])
      && (forall i :: 0 <= i < |u| && !(Layout.MonthlyRowIndex(0) <= i < Layout.MonthlyRowIndex(|rows|)) ==> u[i] == RowOf(reports, i))
  {
    var rows := MonthlyReportRows(receipts, formatAverage, now);
    WriteRowsEffect(reports, Layout.MonthlyRowIndex(0), rows);
    WriteRowsPlacement(reports, Layout.MonthlyRowIndex(0), rows);
    WriteRows(reports, Layout.MonthlyRowIndex(0), rows)
  }
}
