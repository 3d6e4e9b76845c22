/**
 * `getReportsData`: reading the Reports sheet back. A first pass over `Reports!A:Z` dispatches
 * on the tag in column A (and on the row's index); a second pass reads the governorate grid,
 * governorate names from every third cell of row 3 and one material per row from row 5 to 50,
 * and its values override what the tagged rows gave for the same material and governorate.
 */
module ReportsSheet {
  import opened Results
  import opened Text
  import opened Sheet
  import Layout
  import Allocation

  type Cell = Allocation.Cell
  type Grid = Allocation.Grid

  /** The summary as read back from the second row. */
  datatype SummaryView = SummaryView(
    totalReceipts: int, totalMaterialsDistributed: int, uniqueMosques: int,
    uniqueGovernorates: int, totalWorkers: int, totalUsers: int, avgMaterialsPerReceipt: int)

  /** A monthly or governorate entry: its key (period or governorate), receipts and materials. */
  datatype Entry = Entry(key: string, receiptsCount: int, materialsDistributed: int)

  /** What the tagged rows give; `summary` is `None` when no summary row was found. */
  datatype Tagged = Tagged(summary: Option<SummaryView>, monthly: seq<Entry>, governorates: seq<Entry>, materials: Grid)

  datatype Kind = SummaryRow | MonthlyRow | GovernorateRow | MaterialRow | Other

  /** The `if … else if` chain: which branch the row at `index` takes. */
  function KindOf(index: nat, r: Row): (k: Kind)
    ensures k.SummaryRow? <==> index == Layout.SummaryRowIndex && At(r, 0) == Layout.SummaryTag
    ensures k.MonthlyRow? <==> index >= 4 && At(r, 0) == Layout.MonthlyTag
    ensures k.GovernorateRow? <==> index >= 6 && At(r, 0) == Layout.GovernorateTag
    ensures k.MaterialRow? <==> index >= 8 && At(r, 0) == Layout.MaterialTag
  {
    if index == 1 && At(r, 0) == Layout.SummaryTag then SummaryRow
    else if At(r, 0) == Layout.MonthlyTag && index >= 4 then MonthlyRow
    else if At(r, 0) == Layout.GovernorateTag && index >= 6 then GovernorateRow
    else if At(r, 0) == Layout.MaterialTag && index >= 8 then MaterialRow
    else Other
  }

  function SummaryOf(r: Row): SummaryView {
    SummaryView(Num(At(r, 2)), Num(At(r, 3)), Num(At(r, 4)), Num(At(r, 5)), Num(At(r, 6)), Num(At(r, 7)), Num(At(r, 8)))
  }

  function EntryOf(r: Row): Entry {
    Entry(At(r, 1), Num(At(r, 2)), Num(At(r, 3)))
  }

  /** A material row: governorate in B, material in C, then received, allocated, not delivered. */
  function MaterialCellOf(r: Row): Cell {
    Allocation.Cell(Num(At(r, 4)), Num(At(r, 3)), Num(At(r, 5)))
  }

  /** `data[m] ??= {}; data[m][g] = c`. */
  function Put(grid: Grid, m: string, g: string, c: Cell): (out: Grid)
    ensures m in out && g in out[m] && out[m][g] == c
  {
    grid[m := (if m in grid then grid[m] else map[])[g := c]]
  }

  /** Every other entry is untouched by `Put`. */
  lemma PutElsewhere(grid: Grid, m: string, g: string, c: Cell, n: string, h: string)
    requires n != m || h != g
    ensures var out := Put(grid, m, g, c);
      && ((n in out && h in out[n]) <==> (n in grid && h in grid[n]))
      && (n in grid && h in grid[n] ==> out[n][h] == grid[n][h])
  {
  }

  function Step(acc: Tagged, index: nat, r: Row): Tagged {
    match KindOf(index, r)
    case SummaryRow => acc.(summary := Some(SummaryOf(r)))
    case MonthlyRow => acc.(monthly := acc.monthly + [EntryOf(r)])
    case GovernorateRow => acc.(governorates := acc.governorates + [EntryOf(r)])
    case MaterialRow => acc.(materials := Put(acc.materials, At(r, 2), At(r, 1), MaterialCellOf(r)))
    case Other => acc
  }

  /** The `forEach((row, index) => …)` over the sheet, row by row. */
  function ReadTagged(t: Table): Tagged {
    if |t| == 0 then Tagged(None, [], [], map[])
    else Step(ReadTagged(t[..|t| - 1]), |t| - 1, t[|t| - 1])
  }

  // ---------------------------------------------------------------------------------------
  // What the tagged pass reads, stated over the sheet as a whole

  /** The rows from index `k` on. */
  function Rest(t: Table, k: nat): (r: Table)
    ensures |r| == if |t| <= k then 0 else |t| - k
    ensures forall i :: 0 <= i < |r| ==> r[i] == t[k + i]
  {
    if |t| <= k then [] else t[k..]
  }

  function TaggedWith(tag: string): Row -> bool {
    r => At(r, 0) == tag
  }

  function EntriesOf(rows: Table): (es: seq<Entry>)
    ensures |es| == |rows| && forall i :: 0 <= i < |rows| ==> es[i] == EntryOf(rows[i])
  {
    seq(|rows|, i requires 0 <= i < |rows| => EntryOf(rows[i]))
  }

  /** The summary is the row at index 1, and only when it carries the summary tag. */
  lemma {:induction false} TaggedSummary(t: Table)
    ensures ReadTagged(t).summary == if |t| > 1 && At(t[1], 0) == Layout.SummaryTag then Some(SummaryOf(t[1])) else None
  {
    if |t| > 0 {
      var p := t[..|t| - 1];
      TaggedSummary(p);
      if |t| > 2 {
        assert p[1] == t[1];
      }
    }
  }

  lemma RestSnoc(t: Table, k: nat)
    requires |t| > k
    ensures Rest(t, k) == Rest(t[..|t| - 1], k) + [t[|t| - 1]]
  {
  }

  lemma FilterSnoc<T>(s: seq<T>, x: T, keep: T -> bool)
    ensures Filter(s + [x], keep) == Filter(s, keep) + (if keep(x) then [x] else [])
  {
    assert (s + [x])[..|s|] == s;
  }

  /** The entries of rows tagged `tag` from index `k` on, in sheet order. */
  function EntriesFrom(t: Table, tag: string, k: nat): seq<Entry> {
    EntriesOf(Filter(Rest(t, k), TaggedWith(tag)))
  }

  lemma EntriesFromSnoc(t: Table, tag: string, k: nat)
    requires |t| > 0
    ensures EntriesFrom(t, tag, k) ==
      EntriesFrom(t[..|t| - 1], tag, k) + (if |t| - 1 >= k && At(t[|t| - 1], 0) == tag then [EntryOf(t[|t| - 1])] else [])
  {
    var p := t[..|t| - 1];
    if |t| - 1 >= k {
      RestSnoc(t, k);
      FilterSnoc(Rest(p, k), t[|t| - 1], TaggedWith(tag));
    }
  }

  /**
   * The monthly entries are the rows tagged monthly from index 4 on, and the governorate entries
   * the rows tagged governorate from index 6 on, each in sheet order.
   */
  lemma {:induction false} TaggedLists(t: Table)
    ensures ReadTagged(t).monthly == EntriesFrom(t, Layout.MonthlyTag, 4)
    ensures ReadTagged(t).governorates == EntriesFrom(t, Layout.GovernorateTag, 6)
  {
    if |t| > 0 {
      TaggedLists(t[..|t| - 1]);
      EntriesFromSnoc(t, Layout.MonthlyTag, 4);
      EntriesFromSnoc(t, Layout.GovernorateTag, 6);
    }
  }

  /** Row `r` is a material row for material `m` in governorate `g`. */
  predicate MaterialRowFor(r: Row, m: string, g: string) {
    At(r, 0) == Layout.MaterialTag && At(r, 2) == m && At(r, 1) == g
  }

  /** The last row from index 8 on that is a material row for `m` and `g`. */
  function LastMaterialRow(t: Table, m: string, g: string): (k: Option<nat>)
    ensures k.None? <==> forall i :: 8 <= i < |t| ==> !MaterialRowFor(t[i], m, g)
    ensures k.Some? ==> 8 <= k.value < |t| && MaterialRowFor(t[k.value], m, g)
    ensures k.Some? ==> forall i :: k.value < i < |t| ==> !MaterialRowFor(t[i], m, g)
  {
    if |t| <= 8 then None
    else if MaterialRowFor(t[|t| - 1], m, g) then Some(|t| - 1)
    else
      var k := LastMaterialRow(t[..|t| - 1], m, g);
      assert forall i :: 0 <= i < |t| - 1 ==> t[..|t| - 1][i] == t[i];
      k
  }

  /** A material row for `m` and `g` at index `i` means the last one is at `i` or later. */
  lemma {:induction false} LastMaterialRowFound(t: Table, m: string, g: string, i: nat)
    requires 8 <= i < |t| && MaterialRowFor(t[i], m, g)
    ensures LastMaterialRow(t, m, g).Some? && LastMaterialRow(t, m, g).value >= i
  {
    if !MaterialRowFor(t[|t| - 1], m, g) {
      var p := t[..|t| - 1];
      assert p[i] == t[i];
      LastMaterialRowFound(p, m, g, i);
    }
  }

  /**
   * A material and governorate have an entry exactly when some row from index 8 on is a
   * material row for them, and the entry is read from the last such row.
   */
  lemma {:induction false} TaggedMaterials(t: Table, m: string, g: string)
    ensures (m in ReadTagged(t).materials && g in ReadTagged(t).materials[m]) <==> LastMaterialRow(t, m, g).Some?
    ensures LastMaterialRow(t, m, g).Some? ==>
      ReadTagged(t).materials[m][g] == MaterialCellOf(t[LastMaterialRow(t, m, g).value])
  {
    if |t| > 0 {
      var p := t[..|t| - 1];
      var last := t[|t| - 1];
      TaggedMaterials(p, m, g);
      if |t| - 1 >= 8 && MaterialRowFor(last, m, g) {
        assert KindOf(|t| - 1, last).MaterialRow?;
      } else {
        LaterRowElsewhere(p, |t| - 1, last, m, g);
        assert LastMaterialRow(t, m, g) == LastMaterialRow(p, m, g);
      }
    }
  }

  /** A step that is not a material row for `m` and `g` leaves their entry as it was. */
  lemma LaterRowElsewhere(p: Table, index: nat, r: Row, m: string, g: string)
    requires !(index >= 8 && MaterialRowFor(r, m, g))
    ensures var before := ReadTagged(p).materials;
      var after := Step(ReadTagged(p), index, r).materials;
      && ((m in after && g in after[m]) <==> (m in before && g in before[m]))
      && (m in before && g in before[m] ==> after[m][g] == before[m][g])
  {
    if KindOf(index, r).MaterialRow? {
      PutElsewhere(ReadTagged(p).materials, At(r, 2), At(r, 1), MaterialCellOf(r), m, g);
    }
  }

  // ---------------------------------------------------------------------------------------
  // The governorate grid

  /** Governorate names from every third cell of the header row, from position `i` on, skipping empty cells. */
  function HeaderFrom(h: Row, i: nat): (govs: seq<string>)
    ensures forall x :: x in govs ==> NonEmpty(x)
    decreases |h| - i
  {
    if i >= |h| then [] else (if NonEmpty(h[i]) then [h[i]] else []) + HeaderFrom(h, i + 3)
  }

  function HeaderGovernorates(h: Row): seq<string> {
    HeaderFrom(h, 0)
  }

  /** The `govIndex`-th listed governorate's three cells: allocated, received, not delivered. */
  function GridCellOf(r: Row, govIndex: nat): Cell {
    Allocation.Cell(Num(At(r, 3 * govIndex + 1)), Num(At(r, 3 * govIndex + 2)), Num(At(r, 3 * govIndex + 3)))
  }

  /** One grid row: every listed governorate, in order, gets its cells under the row's material. */
  function GridRow(acc: Grid, r: Row, govs: seq<string>): Grid {
    if |govs| == 0 then acc
    else Put(GridRow(acc, r, govs[..|govs| - 1]), At(r, 0), govs[|govs| - 1], GridCellOf(r, |govs| - 1))
  }

  /** The rows `A5:Z50`, each with a material name in column A. */
  function ReadGrid(acc: Grid, rows: Table, govs: seq<string>): Grid {
    if |rows| == 0 then acc
    else
      var prev := ReadGrid(acc, rows[..|rows| - 1], govs);
      var r := rows[|rows| - 1];
      if NonEmpty(At(r, 0)) then GridRow(prev, r, govs) else prev
  }

  /** The last position holding `x`. */
  function LastIndexOf(s: seq<string>, x: string): (k: Option<nat>)
    ensures k.None? <==> x !in s
    ensures k.Some? ==> k.value < |s| && s[k.value] == x && forall i :: k.value < i < |s| ==> s[i] != x
  {
    if |s| == 0 then None
    else if s[|s| - 1] == x then Some(|s| - 1)
    else LastIndexOf(s[..|s| - 1], x)
  }

  /** The last row whose column A is `m`. */
  function LastRowNamed(rows: Table, m: string): (k: Option<nat>)
    ensures k.None? <==> forall i :: 0 <= i < |rows| ==> At(rows[i], 0) != m
    ensures k.Some? ==> k.value < |rows| && At(rows[k.value], 0) == m && forall i :: k.value < i < |rows| ==> At(rows[i], 0) != m
  {
    if |rows| == 0 then None
    else if At(rows[|rows| - 1], 0) == m then Some(|rows| - 1)
    else
      var k := LastRowNamed(rows[..|rows| - 1], m);
      assert forall i :: 0 <= i < |rows| - 1 ==> rows[..|rows| - 1][i] == rows[i];
      k
  }

  /**
   * One grid row sets, under its material, every listed governorate to the cells of its last
   * position in the list; every other entry stays.
   */
  lemma {:induction false} GridRowEntry(acc: Grid, r: Row, govs: seq<string>, m: string, g: string)
    ensures var out := GridRow(acc, r, govs);
      && ((m in out && g in out[m]) <==> (m == At(r, 0) && g in govs) || (m in acc && g in acc[m]))
      && (m == At(r, 0) && g in govs ==> out[m][g] == GridCellOf(r, LastIndexOf(govs, g).value))
      && (!(m == At(r, 0) && g in govs) && m in acc && g in acc[m] ==> out[m][g] == acc[m][g])
  {
    if |govs| > 0 {
      var init := govs[..|govs| - 1];
      var last := govs[|govs| - 1];
      GridRowEntry(acc, r, init, m, g);
      assert g in govs <==> g in init || g == last;
      if m != At(r, 0) || g != last {
        PutElsewhere(GridRow(acc, r, init), At(r, 0), last, GridCellOf(r, |govs| - 1), m, g);
      }
    }
  }

  /**
   * After the grid pass, a material named in column A of some row, in a governorate the header
   * lists, holds the cells of the last row with that name at the governorate's last position;
   * every other entry is what the tagged rows gave.
   */
  lemma {:induction false} GridEntry(acc: Grid, rows: Table, govs: seq<string>, m: string, g: string)
    ensures var out := ReadGrid(acc, rows, govs);
      var hit := NonEmpty(m) && g in govs && LastRowNamed(rows, m).Some?;
      && ((m in out && g in out[m]) <==> hit || (m in acc && g in acc[m]))
      && (hit ==> out[m][g] == GridCellOf(rows[LastRowNamed(rows, m).value], LastIndexOf(govs, g).value))
      && (!hit && m in acc && g in acc[m] ==> out[m][g] == acc[m][g])
  {
    if |rows| > 0 {
      var init := rows[..|rows| - 1];
      var r := rows[|rows| - 1];
      GridEntry(acc, init, govs, m, g);
      if NonEmpty(At(r, 0)) {
        GridRowEntry(ReadGrid(acc, init, govs), r, govs, m, g);
      }
      if LastRowNamed(rows, m).Some? && LastRowNamed(rows, m).value < |init| {
        assert LastRowNamed(init, m) == LastRowNamed(rows, m);
      }
    }
  }

  // ---------------------------------------------------------------------------------------
  // getReportsData

  datatype ReportsData = ReportsData(summary: Option<SummaryView>, monthlyData: seq<Entry>, governorateData: seq<Entry>, materialsByGovernorate: Grid)

  /** Rows `lo .. hi - 1` of a sheet, as far as it reaches. */
  function Rows(t: Table, lo: nat, hi: nat): (r: Table)
    ensures |r| == if |t| <= lo || hi <= lo then 0 else (if |t| < hi then |t| else hi) - lo
    ensures forall i :: 0 <= i < |r| ==> r[i] == t[lo + i]
  {
    if |t| <= lo || hi <= lo then [] else if |t| < hi then t[lo..] else t[lo..hi]
  }

  /** `Reports!A3:Z3`. */
  function GridHeader(reports: Table): Row {
    Take(RowOf(reports, 2), ReportsSheetWindow)
  }

  /** `Reports!A5:Z50`. */
  function GridRows(reports: Table): Table {
    Window(Rows(reports, 4, 50), ReportsSheetWindow)
  }

  /** `getReportsData` over the whole Reports sheet. */
  function GetReportsData(reports: Table): (d: ReportsData)
    ensures var t := ReadTagged(Window(reports, ReportsSheetWindow));
      && d.summary == t.summary && d.monthlyData == t.monthly && d.governorateData == t.governorates
  {
    var t := ReadTagged(Window(reports, ReportsSheetWindow));
    ReportsData(t.summary, t.monthly, t.governorates,
                ReadGrid(t.materials, GridRows(reports), HeaderGovernorates(GridHeader(reports))))
  }

  /**
   * Any row from `A5` to `A50` with something in column A is taken for a material row, tagged
   * report rows included, as soon as the header names a governorate.
   */
  lemma AnyNamedRowIsMaterial(reports: Table, i: nat)
    requires 4 <= i < 50 && i < |reports| && NonEmpty(At(reports[i], 0))
    requires |HeaderGovernorates(GridHeader(reports))| > 0
    ensures At(reports[i], 0) in GetReportsData(reports).materialsByGovernorate
  {
    var m := At(reports[i], 0);
    var rows := GridRows(reports);
    var govs := HeaderGovernorates(GridHeader(reports));
    assert At(rows[i - 4], 0) == m;
    GridEntry(ReadTagged(Window(reports, ReportsSheetWindow)).materials, rows, govs, m, govs[0]);
  }

  /**
   * An empty header cell shifts every later governorate onto the columns of the one before it:
   * with `A3` empty and `D3` naming "X", X is read from columns B-D rather than E-G.
   */
  lemma EmptyHeaderShift()
    ensures HeaderGovernorates(["", "", "", "X"]) == ["X"]
    ensures var d := ReadGrid(map[], [["m", "1", "2", "3", "4", "5", "6"]], ["X"]);
      "m" in d && "X" in d["m"] && d["m"]["X"] == Allocation.Cell(1, 2, 3)
  {
    ShiftedHeader();
    ShiftedCells();
  }

  lemma ShiftedHeader()
    ensures HeaderGovernorates(["", "", "", "X"]) == ["X"]
  {
    var h: Row := ["", "", "", "X"];
    assert HeaderFrom(h, 6) == [];
    assert HeaderFrom(h, 3) == ["X"];
  }

  lemma ShiftedCells()
    ensures var d := ReadGrid(map[], [["m", "1", "2", "3", "4", "5", "6"]], ["X"]);
      "m" in d && "X" in d["m"] && d["m"]["X"] == Allocation.Cell(1, 2, 3)
  {
    var r: Row := ["m", "1", "2", "3", "4", "5", "6"];
    FirstCells(r);
    var rows: Table := [r];
    assert rows[..0] == [];
    assert ReadGrid(map[], rows, ["X"]) == GridRow(map[], r, ["X"]);
  }

  lemma FirstCells(r: Row)
    requires r == ["m", "1", "2", "3", "4", "5", "6"]
    ensures GridCellOf(r, 0) == Allocation.Cell(1, 2, 3)
  {
    assert IntToString(1) == "1" && IntToString(2) == "2" && IntToString(3) == "3";
    ParseIntToString(1);
    ParseIntToString(2);
    ParseIntToString(3);
  }
}
