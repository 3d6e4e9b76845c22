/**
 * Materials by governorate: the fallback of `/reports/materials-by-governorate` and
 * `updateMaterialsByGovernorate`, which compute the same table. For every material and every
 * governorate seen in the receipts: the quantity allocated (the material's quantity per mosque
 * times the governorate's receipts), the quantity received (the material's column summed over
 * the governorate's receipts) and what is still owed. The table is keyed by material NAME.
 */
module Allocation {
  import opened Text
  import opened Sheet
  import opened Grouping
  import Columns
  import Governorates
  import Summary
  import Layout

  datatype Material = Material(name: string, unit: string, quantityPerMosque: int)

  /** `{ name: row[0] || 'مادة', unit: row[1] || '', quantityPerMosque: parseFloat(row[2]) || 0 }`. */
  function MaterialOf(row: Row): (m: Material)
    ensures NonEmpty(m.name)
    ensures NonEmpty(At(row, 0)) ==> m.name == At(row, 0)
    ensures m.quantityPerMosque == Num(At(row, 2))
  {
    Material(if NonEmpty(At(row, 0)) then At(row, 0) else Columns.DefaultMaterialName, At(row, 1), Num(At(row, 2)))
  }

  /** The materials, one per data row of `Materials!A:C`, in sheet order. */
  function Materials(materialsSheet: Table): (ms: seq<Material>)
    ensures |ms| == |DataRows(materialsSheet)|
    ensures forall j :: 0 <= j < |ms| ==> ms[j] == MaterialOf(DataRows(materialsSheet)[j])
  {
    var rows := DataRows(materialsSheet);
    seq(|rows|, j requires 0 <= j < |rows| => MaterialOf(rows[j]))
  }

  function Names(ms: seq<Material>): (names: seq<string>)
    ensures |names| == |ms| && forall j :: 0 <= j < |ms| ==> names[j] == ms[j].name
  {
    seq(|ms|, j requires 0 <= j < |ms| => ms[j].name)
  }

  /** The material names of this report are those the setup script writes as receipt headers. */
  lemma NamesAreHeaderNames(materialsSheet: Table)
    ensures Names(Materials(materialsSheet)) == Columns.MaterialNames(DataRows(materialsSheet))
  {
    var a := Names(Materials(materialsSheet));
    var b := Columns.MaterialNames(DataRows(materialsSheet));
    assert |a| == |b|;
    forall i | 0 <= i < |a| ensures a[i] == b[i] {
      if NonEmpty(At(DataRows(materialsSheet)[i], 0)) {
        assert b[i] == DataRows(materialsSheet)[i][0];
      }
    }
  }

  /**
   * `[...new Set(receipts.slice(1).map(r => r[4]).filter(g => g))]`: the distinct non-empty
   * governorates in order of first appearance. Column 0 is not consulted.
   */
  function ReportGovernorates(rows: Table): (govs: seq<string>)
    ensures NoDuplicates(govs)
    ensures forall g :: g in govs <==> NonEmpty(g) && exists i :: 0 <= i < |rows| && At(rows[i], Governorates.GovernorateColumn) == g
  {
    var cells := ColumnCells(rows, Governorates.GovernorateColumn);
    assert forall g :: g in cells <==> exists i :: 0 <= i < |rows| && At(rows[i], Governorates.GovernorateColumn) == g by {
      forall g | g in cells ensures exists i :: 0 <= i < |rows| && At(rows[i], Governorates.GovernorateColumn) == g {
        var i :| 0 <= i < |cells| && cells[i] == g;
      }
    }
    Distinct(NonEmptyOnly(cells))
  }

  /** The receipts of governorate `g` that take part: a timestamp and the governorate. */
  function ReceiptCount(rows: Table, g: string): nat {
    CountKey(rows, Governorates.ColumnKey(Governorates.GovernorateColumn), g)
  }

  /** `receiptsByGovernorate`: zero for every listed governorate, then one more per qualifying row. */
  function CountLoop(rows: Table, govs: seq<string>): map<string, nat> {
    if |rows| == 0 then map g | g in govs :: 0
    else
      var counts := CountLoop(rows[..|rows| - 1], govs);
      var r := rows[|rows| - 1];
      var g := At(r, Governorates.GovernorateColumn);
      if Governorates.HasKey(Governorates.GovernorateColumn, r) && g in counts then counts[g := counts[g] + 1] else counts
  }

  /** The loop counts, for every listed governorate, exactly its qualifying receipts. */
  lemma {:induction false} CountLoopCounts(rows: Table, govs: seq<string>)
    ensures CountLoop(rows, govs).Keys == set g | g in govs
    ensures forall g :: g in govs ==> CountLoop(rows, govs)[g] == ReceiptCount(rows, g)
  {
    if |rows| > 0 {
      CountLoopCounts(rows[..|rows| - 1], govs);
    }
  }

  // ---------------------------------------------------------------------------------------
  // The table

  /** One entry of the table; `allocation` is the source's `allocated` field. */
  datatype Cell = Cell(allocation: int, received: int, notDelivered: int)
  type Grid = map<string, map<string, Cell>>

  /** `Math.max(0, x)`. */
  function Max0(x: int): (r: int)
    ensures r >= 0 && r >= x && (r == 0 || r == x)
  {
    if x > 0 then x else 0
  }

  /** What is owed is the allocation less what was received, never below zero. */
  predicate Settled(c: Cell) {
    c.notDelivered == Max0(c.allocation - c.received)
  }

  /** A material's allocation in a governorate: its quantity per mosque for each qualifying receipt. */
  function Allotted(quantityPerMosque: int, receipts: nat): int {
    quantityPerMosque * receipts
  }

  /** One material's entries: every governorate starts with its allocation and nothing received. */
  function InitRow(govs: seq<string>, quantityPerMosque: int, counts: map<string, nat>): (row: map<string, Cell>)
    requires forall g :: g in govs ==> g in counts
    ensures row.Keys == set g | g in govs
    ensures forall g :: g in row ==> row[g] == Cell(Allotted(quantityPerMosque, counts[g]), 0, 0)
  {
    map g | g in govs :: Cell(Allotted(quantityPerMosque, counts[g]), 0, 0)
  }

  /** The names the materials carry. */
  function NameSet(ms: seq<Material>): set<string> {
    set j | 0 <= j < |ms| :: ms[j].name
  }

  lemma NameSetSnoc(ms: seq<Material>)
    requires |ms| > 0
    ensures NameSet(ms) == NameSet(ms[..|ms| - 1]) + {ms[|ms| - 1].name}
  {
    var init := ms[..|ms| - 1];
    forall x | x in NameSet(ms) ensures x in NameSet(init) + {ms[|ms| - 1].name} {
      var j :| 0 <= j < |ms| && ms[j].name == x;
      if j < |ms| - 1 {
        assert init[j].name == x;
      }
    }
    forall x | x in NameSet(init) ensures x in NameSet(ms) {
      var j :| 0 <= j < |init| && init[j].name == x;
      assert ms[j].name == x;
    }
  }

  /** The initialising `forEach`: a later material with the same name replaces the earlier entry. */
  function InitGrid(ms: seq<Material>, govs: seq<string>, counts: map<string, nat>): (grid: Grid)
    requires forall g :: g in govs ==> g in counts
    ensures grid.Keys == NameSet(ms)
    ensures forall n :: n in grid ==> grid[n].Keys == set g | g in govs
  {
    if |ms| == 0 then map[]
    else
      var prev := InitGrid(ms[..|ms| - 1], govs, counts);
      var m := ms[|ms| - 1];
      NameSetSnoc(ms);
      prev[m.name := InitRow(govs, m.quantityPerMosque, counts)]
  }

  /** The entry of a name is that of the LAST material carrying it. */
  lemma {:induction false} InitGridLastWins(ms: seq<Material>, govs: seq<string>, counts: map<string, nat>, j: nat)
    requires forall g :: g in govs ==> g in counts
    requires j < |ms| && forall k :: j < k < |ms| ==> ms[k].name != ms[j].name
    ensures ms[j].name in InitGrid(ms, govs, counts)
    ensures InitGrid(ms, govs, counts)[ms[j].name] == InitRow(govs, ms[j].quantityPerMosque, counts)
  {
    if j < |ms| - 1 {
      InitGridLastWins(ms[..|ms| - 1], govs, counts, j);
    }
  }

  /** `received += amount`, then `notDelivered = Math.max(0, allocated - received)`. */
  function Settle(c: Cell, amount: int): (d: Cell)
    ensures d.allocation == c.allocation && d.received == c.received + amount
    ensures Settled(d)
  {
    var received := c.received + amount;
    Cell(c.allocation, received, Max0(c.allocation - received))
  }

  /** The guarded update: nothing happens when the table has no entry for the pair. */
  function AddReceived(grid: Grid, n: string, g: string, amount: int): (out: Grid)
    ensures out.Keys == grid.Keys
    ensures forall n' :: n' in grid ==> out[n'].Keys == grid[n'].Keys
    ensures forall n', g' :: n' in grid && g' in grid[n'] ==>
      out[n'][g'] == if n' == n && g' == g then Settle(grid[n][g], amount) else grid[n'][g']
  {
    if n in grid && g in grid[n] then grid[n := grid[n][g := Settle(grid[n][g], amount)]] else grid
  }

  /** The inner `materials.forEach` for one receipt row, over materials `0 .. k - 1`. */
  function ProcessMaterials(grid: Grid, ms: seq<Material>, r: Row, k: nat): Grid
    requires k <= |ms|
  {
    if k == 0 then grid
    else AddReceived(ProcessMaterials(grid, ms, r, k - 1), ms[k - 1].name, At(r, Governorates.GovernorateColumn),
                     Num(At(r, FirstMaterialColumn + k - 1)))
  }

  /** The outer `forEach` over the receipt rows that have a timestamp and a governorate. */
  function ProcessRows(grid: Grid, ms: seq<Material>, rows: Table): Grid {
    if |rows| == 0 then grid
    else
      var prev := ProcessRows(grid, ms, rows[..|rows| - 1]);
      var r := rows[|rows| - 1];
      if Governorates.HasKey(Governorates.GovernorateColumn, r) then ProcessMaterials(prev, ms, r, |ms|) else prev
  }

  // Reference definitions for the received quantities.

  /** Row `r`'s cells for the materials among `0 .. k - 1` named `n`. */
  function RowReceived(r: Row, ms: seq<Material>, n: string, k: nat): int
    requires k <= |ms|
  {
    if k == 0 then 0
    else RowReceived(r, ms, n, k - 1) + (if ms[k - 1].name == n then Num(At(r, FirstMaterialColumn + k - 1)) else 0)
  }

  /** Everything received under the name `n` in governorate `g`. */
  function Received(rows: Table, ms: seq<Material>, n: string, g: string): int {
    if |rows| == 0 then 0
    else
      var r := rows[|rows| - 1];
      Received(rows[..|rows| - 1], ms, n, g) +
        (if Governorates.HasKey(Governorates.GovernorateColumn, r) && At(r, Governorates.GovernorateColumn) == g
         then RowReceived(r, ms, n, |ms|) else 0)
  }

  /** Column `c` summed over the receipts of governorate `g` that take part. */
  function ColumnReceived(rows: Table, g: string, c: int): int {
    if |rows| == 0 then 0
    else
      var r := rows[|rows| - 1];
      ColumnReceived(rows[..|rows| - 1], g, c) +
        (if Governorates.HasKey(Governorates.GovernorateColumn, r) && At(r, Governorates.GovernorateColumn) == g
         then Num(At(r, c)) else 0)
  }

  /** Two tables with the same names, governorates and allocations. */
  predicate SameShape(a: Grid, b: Grid) {
    && a.Keys == b.Keys
    && (forall n :: n in a ==> a[n].Keys == b[n].Keys)
    && (forall n, g :: n in a && g in a[n] ==> a[n][g].allocation == b[n][g].allocation)
  }

  /** Some material among `0 .. k - 1` is named `n`. */
  predicate NamedBefore(ms: seq<Material>, n: string, k: nat)
    requires k <= |ms|
  {
    exists j :: 0 <= j < k && ms[j].name == n
  }

  /**
   * Processing one row adds the row's cells to the row's governorate, under each material name,
   * and settles every entry it touches; other governorates are left alone.
   */
  lemma ProcessMaterialsEffect(grid: Grid, ms: seq<Material>, r: Row, k: nat)
    requires k <= |ms|
    ensures SameShape(ProcessMaterials(grid, ms, r, k), grid)
    ensures forall n, g :: n in grid && g in grid[n] ==>
      ProcessMaterials(grid, ms, r, k)[n][g].received ==
        grid[n][g].received + (if g == At(r, Governorates.GovernorateColumn) then RowReceived(r, ms, n, k) else 0)
    ensures forall n, g :: n in grid && g in grid[n] && (g != At(r, Governorates.GovernorateColumn) || !NamedBefore(ms, n, k)) ==>
      ProcessMaterials(grid, ms, r, k)[n][g] == grid[n][g]
    ensures forall n, g :: n in grid && g in grid[n] && g == At(r, Governorates.GovernorateColumn) && NamedBefore(ms, n, k) ==>
      Settled(ProcessMaterials(grid, ms, r, k)[n][g])
  {
    ProcessMaterialsShape(grid, ms, r, k);
    forall n, g | n in grid && g in grid[n]
      ensures ProcessMaterials(grid, ms, r, k)[n][g].received ==
        grid[n][g].received + (if g == At(r, Governorates.GovernorateColumn) then RowReceived(r, ms, n, k) else 0)
      ensures (g != At(r, Governorates.GovernorateColumn) || !NamedBefore(ms, n, k)) ==>
        ProcessMaterials(grid, ms, r, k)[n][g] == grid[n][g]
      ensures g == At(r, Governorates.GovernorateColumn) && NamedBefore(ms, n, k) ==>
        Settled(ProcessMaterials(grid, ms, r, k)[n][g])
    {
      ProcessMaterialsAt(grid, ms, r, k, n, g);
    }
  }

  lemma {:induction false} ProcessMaterialsShape(grid: Grid, ms: seq<Material>, r: Row, k: nat)
    requires k <= |ms|
    ensures SameShape(ProcessMaterials(grid, ms, r, k), grid)
  {
    if k > 0 {
      var prev := ProcessMaterials(grid, ms, r, k - 1);
      ProcessMaterialsShape(grid, ms, r, k - 1);
      AddReceivedShape(prev, ms[k - 1].name, At(r, Governorates.GovernorateColumn), Num(At(r, FirstMaterialColumn + k - 1)));
      SameShapeTrans(ProcessMaterials(grid, ms, r, k), prev, grid);
    }
  }

  lemma AddReceivedShape(grid: Grid, n: string, g: string, amount: int)
    ensures SameShape(AddReceived(grid, n, g, amount), grid)
  {
    var out: Grid := AddReceived(grid, n, g, amount);
    forall n': string, g': string | n' in out && g' in out[n'] ensures out[n'][g'].allocation == grid[n'][g'].allocation {
    }
  }

  lemma SameShapeTrans(a: Grid, b: Grid, c: Grid)
    requires SameShape(a, b) && SameShape(b, c)
    ensures SameShape(a, c)
  {
    forall n: string, g: string | n in a && g in a[n] ensures a[n][g].allocation == c[n][g].allocation {
      assert n in b && g in b[n];
    }
  }

  /** One entry through the first `k` materials of a row. */
  lemma ProcessMaterialsAt(grid: Grid, ms: seq<Material>, r: Row, k: nat, n: string, g: string)
    requires k <= |ms|
    requires n in grid && g in grid[n]
    ensures var out := ProcessMaterials(grid, ms, r, k);
      var gov := At(r, Governorates.GovernorateColumn);
      && n in out && g in out[n]
      && out[n][g].received == grid[n][g].received + (if g == gov then RowReceived(r, ms, n, k) else 0)
      && ((g != gov || !NamedBefore(ms, n, k)) ==> out[n][g] == grid[n][g])
      && (g == gov && NamedBefore(ms, n, k) ==> Settled(out[n][g]))
  {
    ProcessMaterialsReceivedAt(grid, ms, r, k, n, g);
    if g != At(r, Governorates.GovernorateColumn) || !NamedBefore(ms, n, k) {
      ProcessMaterialsUntouchedAt(grid, ms, r, k, n, g);
    } else {
      ProcessMaterialsSettledAt(grid, ms, r, k, n, g);
    }
  }

  lemma NamedBeforeStep(ms: seq<Material>, n: string, k: nat)
    requires 0 < k <= |ms|
    ensures NamedBefore(ms, n, k) <==> ms[k - 1].name == n || NamedBefore(ms, n, k - 1)
  {
    if NamedBefore(ms, n, k) && ms[k - 1].name != n {
      var j :| 0 <= j < k && ms[j].name == n;
      assert j < k - 1;
    }
  }

  /** One step of the inner loop, at one entry. */
  lemma StepAt(grid: Grid, ms: seq<Material>, r: Row, k: nat, n: string, g: string)
    requires 0 < k <= |ms|
    requires n in ProcessMaterials(grid, ms, r, k - 1) && g in ProcessMaterials(grid, ms, r, k - 1)[n]
    ensures var prev := ProcessMaterials(grid, ms, r, k - 1);
      var out := ProcessMaterials(grid, ms, r, k);
      && n in out && g in out[n]
      && out[n][g] == if n == ms[k - 1].name && g == At(r, Governorates.GovernorateColumn)
                      then Settle(prev[n][g], Num(At(r, FirstMaterialColumn + k - 1))) else prev[n][g]
  {
  }

  lemma {:induction false} ProcessMaterialsReceivedAt(grid: Grid, ms: seq<Material>, r: Row, k: nat, n: string, g: string)
    requires k <= |ms|
    requires n in grid && g in grid[n]
    ensures var out := ProcessMaterials(grid, ms, r, k);
      && n in out && g in out[n]
      && out[n][g].received == grid[n][g].received + (if g == At(r, Governorates.GovernorateColumn) then RowReceived(r, ms, n, k) else 0)
  {
    if k > 0 {
      ProcessMaterialsReceivedAt(grid, ms, r, k - 1, n, g);
      StepAt(grid, ms, r, k, n, g);
      assert RowReceived(r, ms, n, k) ==
        RowReceived(r, ms, n, k - 1) + (if ms[k - 1].name == n then Num(At(r, FirstMaterialColumn + k - 1)) else 0);
    }
  }

  lemma {:induction false} ProcessMaterialsUntouchedAt(grid: Grid, ms: seq<Material>, r: Row, k: nat, n: string, g: string)
    requires k <= |ms|
    requires n in grid && g in grid[n]
    requires g != At(r, Governorates.GovernorateColumn) || !NamedBefore(ms, n, k)
    ensures var out := ProcessMaterials(grid, ms, r, k);
      n in out && g in out[n] && out[n][g] == grid[n][g]
  {
    if k > 0 {
      NamedBeforeStep(ms, n, k);
      ProcessMaterialsUntouchedAt(grid, ms, r, k - 1, n, g);
      StepAt(grid, ms, r, k, n, g);
    }
  }

  lemma {:induction false} ProcessMaterialsSettledAt(grid: Grid, ms: seq<Material>, r: Row, k: nat, n: string, g: string)
    requires k <= |ms|
    requires n in grid && g in grid[n]
    requires g == At(r, Governorates.GovernorateColumn) && NamedBefore(ms, n, k)
    ensures var out := ProcessMaterials(grid, ms, r, k);
      n in out && g in out[n] && Settled(out[n][g])
  {
    ProcessMaterialsShape(grid, ms, r, k - 1);
    StepAt(grid, ms, r, k, n, g);
    NamedBeforeStep(ms, n, k);
    if ms[k - 1].name != n {
      ProcessMaterialsSettledAt(grid, ms, r, k - 1, n, g);
    }
  }

  lemma {:induction false} ProcessRowsReceived(grid: Grid, ms: seq<Material>, rows: Table)
    ensures SameShape(ProcessRows(grid, ms, rows), grid)
    ensures forall n, g :: n in grid && g in grid[n] ==>
      ProcessRows(grid, ms, rows)[n][g].received == grid[n][g].received + Received(rows, ms, n, g)
  {
    if |rows| > 0 {
      var prev := ProcessRows(grid, ms, rows[..|rows| - 1]);
      ProcessRowsReceived(grid, ms, rows[..|rows| - 1]);
      ProcessMaterialsEffect(prev, ms, rows[|rows| - 1], |ms|);
    }
  }

  /** A receipt row's step of the receipt count. */
  lemma ReceiptCountStep(rows: Table, g: string)
    requires |rows| > 0
    ensures var r := rows[|rows| - 1];
      ReceiptCount(rows, g) == ReceiptCount(rows[..|rows| - 1], g) +
        (if Governorates.HasKey(Governorates.GovernorateColumn, r) && At(r, Governorates.GovernorateColumn) == g then 1 else 0)
  {
  }

  /**
   * After processing, every entry is settled, or else it is untouched and its governorate has no
   * qualifying receipt.
   */
  lemma {:induction false} ProcessRowsSettles(grid: Grid, ms: seq<Material>, rows: Table)
    requires forall n :: n in grid ==> NamedBefore(ms, n, |ms|)
    ensures forall n, g {:trigger grid[n][g]} :: n in grid && g in grid[n] ==>
      n in ProcessRows(grid, ms, rows) && g in ProcessRows(grid, ms, rows)[n] &&
      (Settled(ProcessRows(grid, ms, rows)[n][g]) ||
       (ProcessRows(grid, ms, rows)[n][g] == grid[n][g] && ReceiptCount(rows, g) == 0))
  {
    if |rows| > 0 {
      ProcessRowsSettles(grid, ms, rows[..|rows| - 1]);
      ProcessRowsReceived(grid, ms, rows[..|rows| - 1]);
      forall n, g {:trigger grid[n][g]} | n in grid && g in grid[n]
        ensures n in ProcessRows(grid, ms, rows) && g in ProcessRows(grid, ms, rows)[n] &&
          (Settled(ProcessRows(grid, ms, rows)[n][g]) ||
           (ProcessRows(grid, ms, rows)[n][g] == grid[n][g] && ReceiptCount(rows, g) == 0))
      {
        SettlesStep(grid, ms, rows, n, g);
      }
    } else {
      assert ProcessRows(grid, ms, rows) == grid;
      assert forall g :: ReceiptCount(rows, g) == 0;
    }
  }

  /** The step of `ProcessRowsSettles` for one entry. */
  lemma SettlesStep(grid: Grid, ms: seq<Material>, rows: Table, n: string, g: string)
    requires |rows| > 0 && n in grid && g in grid[n] && NamedBefore(ms, n, |ms|)
    requires var prev := ProcessRows(grid, ms, rows[..|rows| - 1]);
      && SameShape(prev, grid)
      && (Settled(prev[n][g]) || (prev[n][g] == grid[n][g] && ReceiptCount(rows[..|rows| - 1], g) == 0))
    ensures n in ProcessRows(grid, ms, rows) && g in ProcessRows(grid, ms, rows)[n]
    ensures Settled(ProcessRows(grid, ms, rows)[n][g]) ||
      (ProcessRows(grid, ms, rows)[n][g] == grid[n][g] && ReceiptCount(rows, g) == 0)
  {
    var prev := ProcessRows(grid, ms, rows[..|rows| - 1]);
    var r := rows[|rows| - 1];
    var out := ProcessRows(grid, ms, rows);
    ReceiptCountStep(rows, g);
    if Governorates.HasKey(Governorates.GovernorateColumn, r) {
      assert out == ProcessMaterials(prev, ms, r, |ms|);
      ProcessMaterialsEffect(prev, ms, r, |ms|);
      assert n in prev && g in prev[n];
    } else {
      assert out == prev;
    }
  }

  /** Every name in a table initialised from the materials is the name of one of them. */
  lemma InitGridNamed(ms: seq<Material>, govs: seq<string>, counts: map<string, nat>)
    requires forall g :: g in govs ==> g in counts
    ensures forall n :: n in InitGrid(ms, govs, counts) ==> NamedBefore(ms, n, |ms|)
  {
    forall n | n in NameSet(ms) ensures NamedBefore(ms, n, |ms|) {
      var k :| 0 <= k < |ms| && ms[k].name == n;
    }
  }

  /**
   * One entry of the processed table, for a table initialised from the materials: its allocation
   * is that of the last material with its name, its received quantity that name's cells, and it
   * is settled unless the governorate has no qualifying receipt.
   */
  lemma GridCell(ms: seq<Material>, govs: seq<string>, counts: map<string, nat>, rows: Table, j: nat, g: string)
    requires forall g :: g in govs ==> g in counts
    requires j < |ms| && forall k :: j < k < |ms| ==> ms[k].name != ms[j].name
    requires g in govs && counts[g] == ReceiptCount(rows, g)
    ensures var out := ProcessRows(InitGrid(ms, govs, counts), ms, rows);
      && ms[j].name in out && g in out[ms[j].name]
      && out[ms[j].name][g].allocation == Allotted(ms[j].quantityPerMosque, counts[g])
      && out[ms[j].name][g].received == Received(rows, ms, ms[j].name, g)
      && Settled(out[ms[j].name][g])
  {
    var grid := InitGrid(ms, govs, counts);
    InitGridLastWins(ms, govs, counts, j);
    InitGridNamed(ms, govs, counts);
    EntryProcessed(grid, ms, rows, ms[j].name, g);
    if counts[g] == 0 {
      FreshCellSettled(ms[j].quantityPerMosque);
    }
  }

  /** One entry through the whole processing: its allocation kept, its receipts added, settled or untouched. */
  lemma EntryProcessed(grid: Grid, ms: seq<Material>, rows: Table, n: string, g: string)
    requires forall n :: n in grid ==> NamedBefore(ms, n, |ms|)
    requires n in grid && g in grid[n]
    ensures var out := ProcessRows(grid, ms, rows);
      && n in out && g in out[n]
      && out[n][g].allocation == grid[n][g].allocation
      && out[n][g].received == grid[n][g].received + Received(rows, ms, n, g)
      && (Settled(out[n][g]) || (out[n][g] == grid[n][g] && ReceiptCount(rows, g) == 0))
  {
    ProcessRowsReceived(grid, ms, rows);
    ProcessRowsSettles(grid, ms, rows);
    assert grid[n][g] == grid[n][g];
  }

  /** An entry with no receipts starts out settled: nothing allocated, nothing owed. */
  lemma FreshCellSettled(quantityPerMosque: int)
    ensures Settled(Cell(Allotted(quantityPerMosque, 0), 0, 0))
  {
  }

  // ---------------------------------------------------------------------------------------
  // The report

  datatype Report = Report(materials: seq<string>, governorates: seq<string>, data: Grid)

  /** Every material name has an entry for every listed governorate. */
  predicate Complete(rep: Report) {
    forall n, g :: n in rep.materials && g in rep.governorates ==> n in rep.data && g in rep.data[n]
  }

  /** The table itself: initialised from the materials and the counts, then filled from the rows. */
  function ReportData(rows: Table, ms: seq<Material>, govs: seq<string>): (data: Grid)
    ensures data.Keys == NameSet(ms)
    ensures forall n :: n in data ==> data[n].Keys == set g | g in govs
  {
    CountLoopCounts(rows, govs);
    var grid := InitGrid(ms, govs, CountLoop(rows, govs));
    ProcessRowsReceived(grid, ms, rows);
    ProcessRows(grid, ms, rows)
  }

  /** The whole computation, over `AllReceipts!A:AG` and `Materials!A:C`. */
  function ComputeReport(receipts: Table, materialsSheet: Table): (rep: Report)
    ensures rep.materials == Names(Materials(materialsSheet))
    ensures rep.governorates == ReportGovernorates(Summary.ReportRows(receipts))
  {
    var rows := Summary.ReportRows(receipts);
    var ms := Materials(materialsSheet);
    var govs := ReportGovernorates(rows);
    Report(Names(ms), govs, ReportData(rows, ms, govs))
  }

  /**
   * The table has an entry for exactly the material names, and each entry exactly the listed
   * governorates.
   */
  lemma ReportShape(receipts: Table, materialsSheet: Table)
    ensures var rep := ComputeReport(receipts, materialsSheet);
      && rep.data.Keys == (set n | n in rep.materials)
      && (forall n :: n in rep.data ==> rep.data[n].Keys == set g | g in rep.governorates)
      && Complete(rep)
  {
    var ms := Materials(materialsSheet);
    assert NameSet(ms) == set n | n in Names(ms) by {
      forall n | n in Names(ms) ensures n in NameSet(ms) {
        var j :| 0 <= j < |Names(ms)| && Names(ms)[j] == n;
      }
    }
  }

  /** One entry of `ReportData`, with the counts read as receipt counts. */
  lemma DataCell(rows: Table, ms: seq<Material>, govs: seq<string>, j: nat, g: string)
    requires j < |ms| && forall k :: j < k < |ms| ==> ms[k].name != ms[j].name
    requires g in govs
    ensures ms[j].name in ReportData(rows, ms, govs) && g in ReportData(rows, ms, govs)[ms[j].name]
    ensures var c := ReportData(rows, ms, govs)[ms[j].name][g];
      && c.allocation == Allotted(ms[j].quantityPerMosque, ReceiptCount(rows, g))
      && c.received == Received(rows, ms, ms[j].name, g)
      && Settled(c)
  {
    var counts := CountLoop(rows, govs);
    CountLoopCounts(rows, govs);
    GridCell(ms, govs, counts, rows, j, g);
    assert ReportData(rows, ms, govs) == ProcessRows(InitGrid(ms, govs, counts), ms, rows);
  }

  /**
   * Every entry of the table, in general: the allocation of the last material with its name
   * times the governorate's qualifying receipts, the cells received under that name, and what
   * is owed, never negative.
   */
  lemma CellFacts(receipts: Table, materialsSheet: Table, j: nat, g: string)
    requires j < |Materials(materialsSheet)|
    requires forall k :: j < k < |Materials(materialsSheet)| ==> Materials(materialsSheet)[k].name != Materials(materialsSheet)[j].name
    requires g in ComputeReport(receipts, materialsSheet).governorates
    ensures var ms := Materials(materialsSheet);
      var rows := Summary.ReportRows(receipts);
      var data := ComputeReport(receipts, materialsSheet).data;
      && ms[j].name in data && g in data[ms[j].name]
      && data[ms[j].name][g].allocation == Allotted(ms[j].quantityPerMosque, ReceiptCount(rows, g))
      && data[ms[j].name][g].received == Received(rows, ms, ms[j].name, g)
      && Settled(data[ms[j].name][g])
  {
    var rows := Summary.ReportRows(receipts);
    DataCell(rows, Materials(materialsSheet), ReportGovernorates(rows), j, g);
  }

  lemma {:induction false} NoReceiptsNothingReceived(rows: Table, ms: seq<Material>, n: string, g: string)
    requires ReceiptCount(rows, g) == 0
    ensures Received(rows, ms, n, g) == 0
  {
    if |rows| > 0 {
      ReceiptCountStep(rows, g);
      NoReceiptsNothingReceived(rows[..|rows| - 1], ms, n, g);
    }
  }

  /** With distinct names, material `j`'s received quantity is its own column, 16 + j. */
  lemma {:induction false} RowReceivedOwnColumn(r: Row, ms: seq<Material>, j: nat, k: nat)
    requires j < |ms| && k <= |ms|
    requires forall i :: 0 <= i < |ms| && i != j ==> ms[i].name != ms[j].name
    ensures RowReceived(r, ms, ms[j].name, k) == if j < k then Num(At(r, FirstMaterialColumn + j)) else 0
  {
    if k > 0 {
      RowReceivedOwnColumn(r, ms, j, k - 1);
    }
  }

  lemma {:induction false} ReceivedOwnColumn(rows: Table, ms: seq<Material>, j: nat, g: string)
    requires j < |ms|
    requires forall i :: 0 <= i < |ms| && i != j ==> ms[i].name != ms[j].name
    ensures Received(rows, ms, ms[j].name, g) == ColumnReceived(rows, g, FirstMaterialColumn + j)
  {
    if |rows| > 0 {
      ReceivedOwnColumn(rows[..|rows| - 1], ms, j, g);
      RowReceivedOwnColumn(rows[|rows| - 1], ms, j, |ms|);
    }
  }

  /**
   * When material names are distinct, every entry is what the report promises: allocated is the
   * quantity per mosque times the governorate's receipts, received is column `16 + j` summed
   * over them, and not delivered is `max(0, allocated - received)`.
   */
  lemma DistinctNamesCell(receipts: Table, materialsSheet: Table, j: nat, g: string)
    requires NoDuplicates(Names(Materials(materialsSheet)))
    requires j < |Materials(materialsSheet)|
    requires g in ComputeReport(receipts, materialsSheet).governorates
    ensures var ms := Materials(materialsSheet);
      var rows := Summary.ReportRows(receipts);
      var data := ComputeReport(receipts, materialsSheet).data;
      && ms[j].name in data && g in data[ms[j].name]
      && data[ms[j].name][g].allocation == Allotted(ms[j].quantityPerMosque, ReceiptCount(rows, g))
      && data[ms[j].name][g].received == ColumnReceived(rows, g, FirstMaterialColumn + j)
      && Settled(data[ms[j].name][g])
  {
    var ms := Materials(materialsSheet);
    assert forall i :: 0 <= i < |ms| && i != j ==> ms[i].name != ms[j].name by {
      forall i | 0 <= i < |ms| && i != j ensures ms[i].name != ms[j].name {
        assert Names(ms)[i] == ms[i].name && Names(ms)[j] == ms[j].name;
      }
    }
    CellFacts(receipts, materialsSheet, j, g);
    ReceivedOwnColumn(Summary.ReportRows(receipts), ms, j, g);
  }

  /**
   * Two materials with the same name share one entry: it carries the second one's allocation
   * and the sum of BOTH columns as received.
   */
  lemma DuplicateNamesMerge(receipts: Table, materialsSheet: Table, g: string)
    requires |Materials(materialsSheet)| == 2
    requires Materials(materialsSheet)[0].name == Materials(materialsSheet)[1].name
    requires g in ComputeReport(receipts, materialsSheet).governorates
    ensures var ms := Materials(materialsSheet);
      var rows := Summary.ReportRows(receipts);
      var data := ComputeReport(receipts, materialsSheet).data;
      && ms[0].name in data && g in data[ms[0].name]
      && data[ms[0].name][g].allocation == Allotted(ms[1].quantityPerMosque, ReceiptCount(rows, g))
      && data[ms[0].name][g].received == ColumnReceived(rows, g, FirstMaterialColumn) + ColumnReceived(rows, g, FirstMaterialColumn + 1)
  {
    var ms := Materials(materialsSheet);
    var rows := Summary.ReportRows(receipts);
    CellFacts(receipts, materialsSheet, 1, g);
    ReceivedBothColumns(rows, ms, g);
  }

  lemma {:induction false} ReceivedBothColumns(rows: Table, ms: seq<Material>, g: string)
    requires |ms| == 2 && ms[0].name == ms[1].name
    ensures Received(rows, ms, ms[0].name, g) == ColumnReceived(rows, g, FirstMaterialColumn) + ColumnReceived(rows, g, FirstMaterialColumn + 1)
  {
    if |rows| > 0 {
      ReceivedBothColumns(rows[..|rows| - 1], ms, g);
      var r := rows[|rows| - 1];
      assert RowReceived(r, ms, ms[0].name, 1) == Num(At(r, FirstMaterialColumn));
      assert RowReceived(r, ms, ms[0].name, 2) == Num(At(r, FirstMaterialColumn)) + Num(At(r, FirstMaterialColumn + 1));
    }
  }

  /**
   * A governorate whose receipts all lack a timestamp is still listed, with zero receipts and so
   * zero allocated, received and owed, whatever the quantities.
   */
  lemma UntimedGovernorate(receipts: Table, materialsSheet: Table, j: nat, g: string)
    requires j < |Materials(materialsSheet)|
    requires forall k :: j < k < |Materials(materialsSheet)| ==> Materials(materialsSheet)[k].name != Materials(materialsSheet)[j].name
    requires g in ComputeReport(receipts, materialsSheet).governorates
    requires forall i :: 0 <= i < |Summary.ReportRows(receipts)| && At(Summary.ReportRows(receipts)[i], Governorates.GovernorateColumn) == g ==>
      !NonEmpty(At(Summary.ReportRows(receipts)[i], 0))
    ensures var data := ComputeReport(receipts, materialsSheet).data;
      var n := Materials(materialsSheet)[j].name;
      n in data && g in data[n] && data[n][g] == Cell(0, 0, 0)
  {
    var rows := Summary.ReportRows(receipts);
    NoReceiptsHere(rows, g);
    EmptyCell(rows, Materials(materialsSheet), ReportGovernorates(rows), j, g);
  }

  /** The entry of a governorate without qualifying receipts is all zeros. */
  lemma EmptyCell(rows: Table, ms: seq<Material>, govs: seq<string>, j: nat, g: string)
    requires j < |ms| && forall k :: j < k < |ms| ==> ms[k].name != ms[j].name
    requires g in govs && ReceiptCount(rows, g) == 0
    ensures var data := ReportData(rows, ms, govs);
      ms[j].name in data && g in data[ms[j].name] && data[ms[j].name][g] == Cell(0, 0, 0)
  {
    DataCell(rows, ms, govs, j, g);
    NoReceiptsNothingReceived(rows, ms, ms[j].name, g);
    assert Allotted(ms[j].quantityPerMosque, 0) == 0;
  }

  lemma {:induction false} NoReceiptsHere(rows: Table, g: string)
    requires forall i :: 0 <= i < |rows| && At(rows[i], Governorates.GovernorateColumn) == g ==> !NonEmpty(At(rows[i], 0))
    ensures ReceiptCount(rows, g) == 0
  {
    if |rows| > 0 {
      NoReceiptsHere(rows[..|rows| - 1], g);
      ReceiptCountStep(rows, g);
    }
  }

  // ---------------------------------------------------------------------------------------
  // updateMaterialsByGovernorate: the rows written from sheet row 9 on

  /** The row of material `j` in governorate `g`, columns A-G. */
  function MaterialReportRow(rep: Report, j: nat, g: nat, now: string): (row: Row)
    requires Complete(rep) && j < |rep.materials| && g < |rep.governorates|
    ensures |row| == 7 && row[0] == Layout.MaterialTag
    ensures row[1] == rep.governorates[g] && row[2] == rep.materials[j]
  {
    assert rep.materials[j] in rep.materials && rep.governorates[g] in rep.governorates;
    var c := rep.data[rep.materials[j]][rep.governorates[g]];
    [Layout.MaterialTag, rep.governorates[g], rep.materials[j],
     IntToString(c.received), IntToString(c.allocation), IntToString(c.notDelivered), now]
  }

  /** The rows of material `j`, one per governorate in list order. */
  function MaterialBlock(rep: Report, j: nat, now: string): (rows: seq<Row>)
    requires Complete(rep) && j < |rep.materials|
    ensures |rows| == |rep.governorates|
    ensures forall g :: 0 <= g < |rows| ==> rows[g] == MaterialReportRow(rep, j, g, now)
  {
    seq(|rep.governorates|, g requires 0 <= g < |rep.governorates| => MaterialReportRow(rep, j, g, now))
  }

  /** Where the block of material `j` starts: `j` blocks of `n` rows, that is `j * n`. */
  function BlockStart(j: nat, n: nat): nat {
    if j == 0 then 0 else BlockStart(j - 1, n) + n
  }

  lemma {:induction false} BlockStartIsProduct(j: nat, n: nat)
    ensures BlockStart(j, n) == j * n
  {
    if j > 0 {
      BlockStartIsProduct(j - 1, n);
      assert (j - 1) * n + n == j * n;
    }
  }

  /** An earlier block ends before a later block starts. */
  lemma {:induction false} BlocksInOrder(j: nat, k: nat, n: nat)
    requires j < k
    ensures BlockStart(j, n) + n <= BlockStart(k, n)
  {
    if j < k - 1 {
      BlocksInOrder(j, k - 1, n);
    }
  }

  /** The blocks one after another. */
  function Flatten(blocks: seq<seq<Row>>): seq<Row> {
    if |blocks| == 0 then [] else Flatten(blocks[..|blocks| - 1]) + blocks[|blocks| - 1]
  }

  /** When every block holds `n` rows, row `g` of block `j` is row `j * n + g` of the whole. */
  lemma {:induction false} FlattenIndex(blocks: seq<seq<Row>>, n: nat, j: nat, g: nat)
    requires forall i :: 0 <= i < |blocks| ==> |blocks[i]| == n
    requires j < |blocks| && g < n
    ensures |Flatten(blocks)| == BlockStart(|blocks|, n)
    ensures BlockStart(j, n) + g < |Flatten(blocks)| && Flatten(blocks)[BlockStart(j, n) + g] == blocks[j][g]
  {
    var init := blocks[..|blocks| - 1];
    if j < |blocks| - 1 {
      FlattenIndex(init, n, j, g);
      BlocksInOrder(j, |blocks| - 1, n);
    } else {
      FlattenLength(init, n);
    }
  }

  lemma {:induction false} FlattenLength(blocks: seq<seq<Row>>, n: nat)
    requires forall i :: 0 <= i < |blocks| ==> |blocks[i]| == n
    ensures |Flatten(blocks)| == BlockStart(|blocks|, n)
  {
    if |blocks| > 0 {
      FlattenLength(blocks[..|blocks| - 1], n);
    }
  }

  /** The rows in the order the two `forEach` loops write them: governorates inside materials. */
  function MaterialReportRows(rep: Report, now: string): (rows: seq<Row>)
    requires Complete(rep)
    ensures |rows| == |rep.materials| * |rep.governorates|
  {
    var blocks := MaterialBlocks(rep, now);
    FlattenLength(blocks, |rep.governorates|);
    BlockStartIsProduct(|rep.materials|, |rep.governorates|);
    Flatten(blocks)
  }

  function MaterialBlocks(rep: Report, now: string): (blocks: seq<seq<Row>>)
    requires Complete(rep)
    ensures |blocks| == |rep.materials|
    ensures forall j :: 0 <= j < |blocks| ==> blocks[j] == MaterialBlock(rep, j, now)
  {
    seq(|rep.materials|, j requires 0 <= j < |rep.materials| => MaterialBlock(rep, j, now))
  }

  /** The row of material `j` in governorate `g` sits `j * |G| + g` rows into the block. */
  lemma MaterialRowAt(rep: Report, now: string, j: nat, g: nat)
    requires Complete(rep) && j < |rep.materials| && g < |rep.governorates|
    ensures BlockStart(j, |rep.governorates|) + g < |MaterialReportRows(rep, now)|
    ensures MaterialReportRows(rep, now)[BlockStart(j, |rep.governorates|) + g] == MaterialReportRow(rep, j, g, now)
  {
    FlattenIndex(MaterialBlocks(rep, now), |rep.governorates|, j, g);
  }

  /** `updateMaterialsByGovernorate`: the report, and the Reports sheet with its rows written from row 9 on. */
  function UpdateMaterialsByGovernorate(receipts: Table, materialsSheet: Table, reports: Table, now: string): (out: (Report, Table))
    ensures out.0 == ComputeReport(receipts, materialsSheet)
    ensures Complete(out.0)
  {
    var rep := ComputeReport(receipts, materialsSheet);
    ReportShape(receipts, materialsSheet);
    (rep, WriteRows(reports, 8, MaterialReportRows(rep, now)))
  }

  /**
   * The row of material `j` in governorate `g` lands at sheet row `9 + j * |G| + g`, columns
   * A-G, and every row outside the block is left as it was.
   */
  lemma MaterialRowsPlaced(receipts: Table, materialsSheet: Table, reports: Table, now: string)
    ensures var (rep, u) := UpdateMaterialsByGovernorate(receipts, materialsSheet, reports, now);
      && (forall j, g, col :: 0 <= j < |rep.materials| && 0 <= g < |rep.governorates| && 0 <= col < 7 ==>
            Layout.MaterialRowIndex(j, g, |rep.governorates|) < |u| &&
            At(u[Layout.MaterialRowIndex(j, g, |rep.governorates|)], col) == MaterialReportRow(rep, j, g, now)[col])
      && (forall i :: 0 <= i < |u| && !(8 <= i < 8 + |rep.materials| * |rep.governorates|) ==> u[i] == RowOf(reports, i))
  {
    var rep := ComputeReport(receipts, materialsSheet);
    ReportShape(receipts, materialsSheet);
    WrittenRows(rep, reports, now);
  }

  lemma WrittenRows(rep: Report, reports: Table, now: string)
    requires Complete(rep)
    ensures forall j, g :: 0 <= j < |rep.materials| && 0 <= g < |rep.governorates| ==>
      Layout.MaterialRowIndex(j, g, |rep.governorates|) < |WriteRows(reports, 8, MaterialReportRows(rep, now))|
    ensures forall j, g, col :: 0 <= j < |rep.materials| && 0 <= g < |rep.governorates| && 0 <= col < 7 ==>
      At(WriteRows(reports, 8, MaterialReportRows(rep, now))[Layout.MaterialRowIndex(j, g, |rep.governorates|)], col) == MaterialReportRow(rep, j, g, now)[col]
    ensures forall i :: 0 <= i < |WriteRows(reports, 8, MaterialReportRows(rep, now))| && !(8 <= i < 8 + |rep.materials| * |rep.governorates|) ==>
      WriteRows(reports, 8, MaterialReportRows(rep, now))[i] == RowOf(reports, i)
  {
    var rows := MaterialReportRows(rep, now);
    WriteRowsEffect(reports, 8, rows);
    forall j, g | 0 <= j < |rep.materials| && 0 <= g < |rep.governorates|
      ensures Layout.MaterialRowIndex(j, g, |rep.governorates|) < |WriteRows(reports, 8, rows)|
    {
      WrittenRow(rep, reports, now, j, g);
    }
    forall j, g, col | 0 <= j < |rep.materials| && 0 <= g < |rep.governorates| && 0 <= col < 7
      ensures At(WriteRows(reports, 8, rows)[Layout.MaterialRowIndex(j, g, |rep.governorates|)], col) == MaterialReportRow(rep, j, g, now)[col]
    {
      WrittenRow(rep, reports, now, j, g);
    }
  }

  lemma WrittenRow(rep: Report, reports: Table, now: string, j: nat, g: nat)
    requires Complete(rep) && j < |rep.materials| && g < |rep.governorates|
    ensures var u := WriteRows(reports, 8, MaterialReportRows(rep, now));
      && Layout.MaterialRowIndex(j, g, |rep.governorates|) < |u|
      && forall col :: 0 <= col < 7 ==> At(u[Layout.MaterialRowIndex(j, g, |rep.governorates|)], col) == MaterialReportRow(rep, j, g, now)[col]
  {
    var rows := MaterialReportRows(rep, now);
    var i := BlockStart(j, |rep.governorates|) + g;
    MaterialRowAt(rep, now, j, g);
    BlockStartIsProduct(j, |rep.governorates|);
    WriteRowsAt(reports, 8, rows, i);
    assert Layout.MaterialRowIndex(j, g, |rep.governorates|) == 8 + i;
  }
}
