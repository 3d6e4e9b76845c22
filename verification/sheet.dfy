/**
 * The spreadsheet as the backend sees it: a table of rows of text cells, read through
 * column windows such as `AllReceipts!A:AG`, and written row by row with `updateData`.
 */
module Sheet {
  import opened Text

  type Row = seq<string>
  type Table = seq<Row>

  /** `AllReceipts!A:AG`, the window every report reads: 33 columns. */
  const ReportWindow: nat := 33
  /** `AllReceipts!A:AI`, the window of `/receipts` and `/search-receipts`: 35 columns. */
  const WideWindow: nat := 35
  /** `Reports!A:Z`: 26 columns. */
  const ReportsSheetWindow: nat := 26
  /** `Materials!A:C`: 3 columns. */
  const MaterialsWindow: nat := 3

  /** Column of the first material quantity (Q) in an AllReceipts row. */
  const FirstMaterialColumn: nat := 16

  /** `r[i]`, where a cell past the end of the row (`undefined`) reads as the empty string. */
  function At(r: Row, i: int): string {
    if 0 <= i < |r| then r[i] else ""
  }

  /** JavaScript truthiness of a cell. */
  predicate NonEmpty(c: string) {
    c != ""
  }

  /** `rows.slice(1)`: everything below the header row. */
  function DataRows(t: Table): (d: Table)
    ensures |d| == if |t| == 0 then 0 else |t| - 1
    ensures forall i :: 0 <= i < |d| ==> d[i] == t[i + 1]
  {
    if |t| == 0 then [] else t[1..]
  }

  /** The first `w` cells of a row. */
  function Take(r: Row, w: nat): (c: Row)
    ensures |c| == if |r| <= w then |r| else w
    ensures forall i :: 0 <= i < w ==> At(c, i) == At(r, i)
    ensures forall i :: i >= w ==> At(c, i) == ""
  {
    if |r| <= w then r else r[..w]
  }

  /** What a read of columns A.. up to the `w`-th returns: every row cut to `w` cells. */
  function Window(t: Table, w: nat): (v: Table)
    ensures |v| == |t|
    ensures forall i :: 0 <= i < |t| ==> v[i] == Take(t[i], w)
  {
    seq(|t|, i requires 0 <= i < |t| => Take(t[i], w))
  }

  lemma WindowDataRows(t: Table, w: nat)
    ensures DataRows(Window(t, w)) == Window(DataRows(t), w)
  {
  }

  /** Sum of `Num` over the cells in columns `lo` .. `hi - 1`, missing cells counting 0. */
  function SumCells(r: Row, lo: int, hi: int): int
    decreases hi - lo
  {
    if hi <= lo then 0 else SumCells(r, lo, hi - 1) + Num(At(r, hi - 1))
  }

  /** The quantity cells of a row summed to its end: `for (i = 16; i < r.length; i++)`. */
  function RowMaterials(r: Row): int {
    SumCells(r, FirstMaterialColumn, |r|)
  }

  /** Cells past a row's end are empty, so summing further adds nothing. */
  lemma {:induction false} SumCellsBeyondEnd(r: Row, lo: int, hi: int)
    requires lo <= |r| <= hi
    ensures SumCells(r, lo, hi) == SumCells(r, lo, |r|)
    decreases hi
  {
    if hi > |r| {
      assert At(r, hi - 1) == "";
      assert Num("") == 0;
      SumCellsBeyondEnd(r, lo, hi - 1);
    }
  }

  /** A sum over a column range depends only on the cells in that range. */
  lemma {:induction false} SumCellsAgree(r: Row, s: Row, lo: int, hi: int)
    requires forall i :: lo <= i < hi ==> At(r, i) == At(s, i)
    ensures SumCells(r, lo, hi) == SumCells(s, lo, hi)
    decreases hi - lo
  {
    if hi > lo {
      SumCellsAgree(r, s, lo, hi - 1);
    }
  }

  /** A sum over a range splits at any column inside it. */
  lemma {:induction false} SumCellsSplit(r: Row, lo: int, mid: int, hi: int)
    requires lo <= mid <= hi
    ensures SumCells(r, lo, hi) == SumCells(r, lo, mid) + SumCells(r, mid, hi)
    decreases hi - mid
  {
    if hi > mid {
      SumCellsSplit(r, lo, mid, hi - 1);
    }
  }

  /** The row cut to `w` cells: the range sum from `lo` sees only the columns below `w`. */
  lemma SumCellsTake(r: Row, w: nat, lo: int, hi: int)
    requires lo <= w <= hi
    ensures SumCells(Take(r, w), lo, hi) == SumCells(r, lo, w)
  {
    SumCellsSplit(Take(r, w), lo, w, hi);
    SumCellsAgree(Take(r, w), r, lo, w);
    SumCellsZero(Take(r, w), w, hi);
  }

  lemma {:induction false} SumCellsZero(r: Row, lo: int, hi: int)
    requires forall i :: lo <= i < hi ==> At(r, i) == ""
    ensures SumCells(r, lo, hi) == 0
    decreases hi - lo
  {
    if hi > lo {
      assert Num("") == 0;
      SumCellsZero(r, lo, hi - 1);
    }
  }

  /** A row of `n` empty cells. */
  function Blank(n: nat): (r: Row)
    ensures |r| == n && forall i :: 0 <= i < n ==> r[i] == ""
  {
    seq(n, i => "")
  }

  /**
   * `updateData('Sheet!A{k+1}:…{k+1}', cells)`: the row at index `k` (sheet row number k + 1)
   * gets `cells` from column A on; cells further right keep their value, and a sheet that is too
   * short grows empty rows.
   */
  function WriteRow(t: Table, k: nat, cells: Row): (u: Table)
    ensures |u| == if |t| > k then |t| else k + 1
    ensures forall i :: 0 <= i < |u| && i != k ==> u[i] == RowOf(t, i)
    ensures forall j :: 0 <= j < |cells| ==> At(u[k], j) == cells[j]
    ensures forall j :: j >= |cells| ==> At(u[k], j) == At(RowOf(t, k), j)
  {
    var padded := if |t| > k then t else t + seq(k + 1 - |t|, i => []);
    var old_ := padded[k];
    var row := if |old_| <= |cells| then cells else cells + old_[|cells|..];
    padded[k := row]
  }

  /** Row `i` of a table, or an empty row when the table has no such row. */
  function RowOf(t: Table, i: int): Row {
    if 0 <= i < |t| then t[i] else []
  }

  /** Writes `rows[i]` to the row at index `first + i`, in order. */
  function WriteRows(t: Table, first: nat, rows: seq<Row>): (u: Table)
    decreases |rows|
  {
    if |rows| == 0 then t else WriteRows(WriteRow(t, first, rows[0]), first + 1, rows[1..])
  }

  /**
   * After writing a block of rows from index `first` on, each written row shows its cells and
   * every row outside the block is as it was.
   */
  lemma {:induction false} WriteRowsEffect(t: Table, first: nat, rows: seq<Row>)
    ensures |WriteRows(t, first, rows)| >= |t|
    ensures |rows| > 0 ==> |WriteRows(t, first, rows)| >= first + |rows|
    ensures forall i :: 0 <= i < |WriteRows(t, first, rows)| && !(first <= i < first + |rows|) ==>
      WriteRows(t, first, rows)[i] == RowOf(t, i)
    ensures forall k, j :: first <= k < first + |rows| && 0 <= j < |rows[k - first]| ==>
      At(WriteRows(t, first, rows)[k], j) == rows[k - first][j]
    decreases |rows|
  {
    if |rows| > 0 {
      var t1 := WriteRow(t, first, rows[0]);
      WriteRowsEffect(t1, first + 1, rows[1..]);
      var u := WriteRows(t, first, rows);
      assert u == WriteRows(t1, first + 1, rows[1..]);
      forall k, j | first <= k < first + |rows| && 0 <= j < |rows[k - first]|
        ensures At(u[k], j) == rows[k - first][j]
      {
        if k == first {
          assert u[k] == RowOf(t1, first);
        } else {
          assert rows[k - first] == rows[1..][k - (first + 1)];
        }
      }
    }
  }

  /** The block's row `i` lands at index `first + i`. */
  lemma WriteRowsPlacement(t: Table, first: nat, rows: seq<Row>)
    ensures |rows| > 0 ==> |WriteRows(t, first, rows)| >= first + |rows|
    ensures forall i, j :: 0 <= i < |rows| && 0 <= j < |rows[i]| ==> At(WriteRows(t, first, rows)[first + i], j) == rows[i][j]
  {
    WriteRowsEffect(t, first, rows);
    forall i, j | 0 <= i < |rows| && 0 <= j < |rows[i]| ensures At(WriteRows(t, first, rows)[first + i], j) == rows[i][j] {
      assert rows[(first + i) - first] == rows[i];
    }
  }

  /** One written row, cell by cell. */
  lemma WriteRowsAt(t: Table, first: nat, rows: seq<Row>, i: nat)
    requires i < |rows|
    ensures first + i < |WriteRows(t, first, rows)|
    ensures forall c :: 0 <= c < |rows[i]| ==> At(WriteRows(t, first, rows)[first + i], c) == rows[i][c]
  {
    WriteRowsPlacement(t, first, rows);
  }

  /** Cell `c` of every row: `t.map(r => r[c])`. */
  function ColumnCells(t: Table, c: int): (cells: seq<string>)
    ensures |cells| == |t| && forall i :: 0 <= i < |t| ==> cells[i] == At(t[i], c)
  {
    seq(|t|, i requires 0 <= i < |t| => At(t[i], c))
  }

  /** The non-empty elements, in order: `.filter(x => x)`. */
  function NonEmptyOnly(s: seq<string>): (r: seq<string>)
    ensures forall x :: x in r <==> x in s && NonEmpty(x)
    ensures |r| <= |s|
  {
    if |s| == 0 then []
    else if NonEmpty(s[|s| - 1]) then NonEmptyOnly(s[..|s| - 1]) + [s[|s| - 1]]
    else NonEmptyOnly(s[..|s| - 1])
  }

  predicate NoDuplicates<T(==)>(s: seq<T>) {
    forall i, j :: 0 <= i < j < |s| ==> s[i] != s[j]
  }

  /** `[...new Set(s)]`: the elements of `s`, each once, in order of first appearance. */
  function Distinct(s: seq<string>): (r: seq<string>)
    ensures NoDuplicates(r)
    ensures forall x :: x in r <==> x in s
    ensures |r| <= |s|
  {
    if |s| == 0 then []
    else
      var p := Distinct(s[..|s| - 1]);
      assert forall x :: x in s <==> x in s[..|s| - 1] || x == s[|s| - 1];
      if s[|s| - 1] in p then p else p + [s[|s| - 1]]
  }

  /** Distinct keeps the first appearance of each value ahead of later ones. */
  lemma {:induction false} DistinctKeepsOrder(s: seq<string>, i: nat, j: nat)
    requires i < j < |s| && s[i] !in s[..i] && s[j] !in s[..j] && s[i] != s[j]
    ensures exists a, b :: 0 <= a < b < |Distinct(s)| && Distinct(s)[a] == s[i] && Distinct(s)[b] == s[j]
    decreases |s|
  {
    var p := s[..|s| - 1];
    if j < |s| - 1 {
      assert s[..i] == p[..i] && s[..j] == p[..j];
      DistinctKeepsOrder(p, i, j);
      var a, b :| 0 <= a < b < |Distinct(p)| && Distinct(p)[a] == s[i] && Distinct(p)[b] == s[j];
      assert Distinct(s)[..|Distinct(p)|] == Distinct(p);
      assert Distinct(s)[a] == s[i] && Distinct(s)[b] == s[j];
    } else {
      assert s[i] in p by { assert p[i] == s[i]; }
      assert s[j] !in p by { assert s[..j] == p; }
      var a :| 0 <= a < |Distinct(p)| && Distinct(p)[a] == s[i];
      assert Distinct(s) == Distinct(p) + [s[j]];
      assert Distinct(s)[a] == s[i] && Distinct(s)[|Distinct(p)|] == s[j];
    }
  }

  /** `s.filter(keep)`: the elements that pass, in their original order. */
  function Filter<T>(s: seq<T>, keep: T -> bool): (r: seq<T>)
    ensures |r| <= |s|
    ensures forall i :: 0 <= i < |r| ==> keep(r[i])
  {
    if |s| == 0 then []
    else if keep(s[|s| - 1]) then Filter(s[..|s| - 1], keep) + [s[|s| - 1]]
    else Filter(s[..|s| - 1], keep)
  }

  /** `idx` picks a strictly increasing run of positions of `s` whose elements are `r`. */
  ghost predicate Picks<T>(s: seq<T>, r: seq<T>, idx: seq<int>) {
    && |idx| == |r|
    && (forall k :: 0 <= k < |idx| ==> 0 <= idx[k] < |s| && s[idx[k]] == r[k])
    && (forall k, l :: 0 <= k < l < |idx| ==> idx[k] < idx[l])
  }

  /**
   * Filtering keeps exactly the passing elements, in order: the result is the subsequence of
   * `s` at the positions that pass, and every passing position is picked.
   */
  lemma {:induction false} FilterPicks<T>(s: seq<T>, keep: T -> bool) returns (idx: seq<int>)
    ensures Picks(s, Filter(s, keep), idx)
    ensures forall i :: 0 <= i < |s| && keep(s[i]) ==> i in idx
    ensures forall k :: 0 <= k < |idx| ==> keep(s[idx[k]])
  {
    if |s| == 0 {
      idx := [];
    } else {
      var p := s[..|s| - 1];
      var pidx := FilterPicks(p, keep);
      if keep(s[|s| - 1]) {
        idx := pidx + [|s| - 1];
      } else {
        idx := pidx;
      }
    }
  }

  /** Filtering twice is filtering once by both tests. */
  lemma {:induction false} FilterFilter<T>(s: seq<T>, p: T -> bool, q: T -> bool, pq: T -> bool)
    requires forall x :: pq(x) == (p(x) && q(x))
    ensures Filter(Filter(s, p), q) == Filter(s, pq)
  {
    if |s| > 0 {
      var init := s[..|s| - 1];
      FilterFilter(init, p, q, pq);
      if p(s[|s| - 1]) {
        assert Filter(s, p)[..|Filter(s, p)| - 1] == Filter(init, p);
      }
    }
  }

  /** Tests that agree on every element keep the same elements. */
  lemma {:induction false} FilterSame<T>(s: seq<T>, p: T -> bool, q: T -> bool)
    requires forall i :: 0 <= i < |s| ==> p(s[i]) == q(s[i])
    ensures Filter(s, p) == Filter(s, q)
  {
    if |s| > 0 {
      FilterSame(s[..|s| - 1], p, q);
    }
  }

  /** Tests that agree on every element count the same elements. */
  lemma {:induction false} CountWhereAgree<T>(s: seq<T>, p: T -> bool, q: T -> bool)
    requires forall i :: 0 <= i < |s| ==> p(s[i]) == q(s[i])
    ensures CountWhere(s, p) == CountWhere(s, q)
  {
    if |s| > 0 {
      CountWhereAgree(s[..|s| - 1], p, q);
    }
  }

  /** The number of elements that pass. */
  function CountWhere<T>(s: seq<T>, keep: T -> bool): (n: nat)
    ensures n == |Filter(s, keep)|
  {
    if |s| == 0 then 0
    else CountWhere(s[..|s| - 1], keep) + (if keep(s[|s| - 1]) then 1 else 0)
  }
}
