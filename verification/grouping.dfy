/**
 * The group-count-sum pattern every report repeats: scan the data rows, skip the rows that
 * lack the key, and per key count the rows and add up their material cells.
 * Groups are kept in order of first appearance of their key.
 */
module Grouping {
  import opened Results
  import opened Sheet

  /** One entry of a report: `{ count, materials }` under its key. */
  datatype Group = Group(key: string, count: nat, total: int)

  /** The grouping key of a row, or `None` when the report skips the row. */
  type KeyOf = Row -> Option<string>

  function Keys(gs: seq<Group>): set<string> {
    set g | g in gs :: g.key
  }

  predicate UniqueKeys(gs: seq<Group>) {
    forall i, j :: 0 <= i < j < |gs| ==> gs[i].key != gs[j].key
  }

  function SumCounts(gs: seq<Group>): int {
    if |gs| == 0 then 0 else gs[0].count + SumCounts(gs[1..])
  }

  function SumTotals(gs: seq<Group>): int {
    if |gs| == 0 then 0 else gs[0].total + SumTotals(gs[1..])
  }

  /** Count recorded under key `k` (0 when there is no such group). */
  function CountIn(gs: seq<Group>, k: string): int {
    if |gs| == 0 then 0 else (if gs[0].key == k then gs[0].count else 0) + CountIn(gs[1..], k)
  }

  /** Material total recorded under key `k` (0 when there is no such group). */
  function TotalIn(gs: seq<Group>, k: string): int {
    if |gs| == 0 then 0 else (if gs[0].key == k then gs[0].total else 0) + TotalIn(gs[1..], k)
  }

  /** With unique keys, the recorded count and total of a key are those of its group. */
  lemma {:induction false} GroupOfKey(gs: seq<Group>, i: nat)
    requires UniqueKeys(gs) && i < |gs|
    ensures CountIn(gs, gs[i].key) == gs[i].count
    ensures TotalIn(gs, gs[i].key) == gs[i].total
  {
    if i == 0 {
      AbsentKey(gs[1..], gs[0].key);
    } else {
      GroupOfKey(gs[1..], i - 1);
    }
  }

  lemma {:induction false} AbsentKey(gs: seq<Group>, k: string)
    requires forall i :: 0 <= i < |gs| ==> gs[i].key != k
    ensures CountIn(gs, k) == 0 && TotalIn(gs, k) == 0
  {
    if |gs| > 0 {
      AbsentKey(gs[1..], k);
    }
  }

  /**
   * `if (!data[k]) data[k] = { count: 0, materials: 0 }; data[k].count++; data[k].materials += amount`.
   */
  function Bump(gs: seq<Group>, k: string, amount: int): (r: seq<Group>)
    ensures |r| == |gs| || |r| == |gs| + 1
  {
    if |gs| == 0 then [Group(k, 1, amount)]
    else if gs[0].key == k then [Group(k, gs[0].count + 1, gs[0].total + amount)] + gs[1..]
    else [gs[0]] + Bump(gs[1..], k, amount)
  }

  /** Bumping adds one row and its amount under `k` and nothing under any other key. */
  lemma {:induction false} BumpCounts(gs: seq<Group>, k: string, amount: int)
    ensures forall k' :: CountIn(Bump(gs, k, amount), k') == CountIn(gs, k') + (if k' == k then 1 else 0)
    ensures forall k' :: TotalIn(Bump(gs, k, amount), k') == TotalIn(gs, k') + (if k' == k then amount else 0)
    ensures SumCounts(Bump(gs, k, amount)) == SumCounts(gs) + 1
    ensures SumTotals(Bump(gs, k, amount)) == SumTotals(gs) + amount
  {
    if |gs| > 0 && gs[0].key != k {
      BumpCounts(gs[1..], k, amount);
      assert Bump(gs, k, amount)[1..] == Bump(gs[1..], k, amount);
    } else if |gs| > 0 {
      assert Bump(gs, k, amount)[1..] == gs[1..];
    }
  }

  /** Bumping changes the group at `k` or appends one there, and leaves every other group alone. */
  lemma {:induction false} BumpMembers(gs: seq<Group>, k: string, amount: int)
    ensures forall g :: g in Bump(gs, k, amount) ==> g in gs || g.key == k
    ensures forall g :: g in gs && g.key != k ==> g in Bump(gs, k, amount)
    ensures exists g :: g in Bump(gs, k, amount) && g.key == k
    ensures (forall g :: g in gs ==> g.count >= 1) ==> forall g :: g in Bump(gs, k, amount) ==> g.count >= 1
  {
    var r := Bump(gs, k, amount);
    if |gs| > 0 {
      assert gs == [gs[0]] + gs[1..];
      if gs[0].key == k {
        assert r == [r[0]] + gs[1..];
      } else {
        BumpMembers(gs[1..], k, amount);
        assert r == [gs[0]] + Bump(gs[1..], k, amount);
      }
    } else {
      assert r[0] in r;
    }
  }

  /** Bumping creates the key if it is new. */
  lemma BumpKeySet(gs: seq<Group>, k: string, amount: int)
    ensures Keys(Bump(gs, k, amount)) == Keys(gs) + {k}
  {
    BumpMembers(gs, k, amount);
    var r := Bump(gs, k, amount);
    forall x | x in Keys(gs) + {k} ensures x in Keys(r) {
      if x != k {
        var g :| g in gs && g.key == x;
        assert g in r;
      } else {
        var g :| g in r && g.key == k;
      }
    }
  }

  /** Bumping never duplicates a key. */
  lemma {:induction false} BumpUnique(gs: seq<Group>, k: string, amount: int)
    requires UniqueKeys(gs)
    ensures UniqueKeys(Bump(gs, k, amount))
  {
    var r := Bump(gs, k, amount);
    if |gs| > 0 {
      assert gs == [gs[0]] + gs[1..];
      if gs[0].key == k {
        assert r[1..] == gs[1..];
      } else {
        var rest := Bump(gs[1..], k, amount);
        BumpUnique(gs[1..], k, amount);
        BumpMembers(gs[1..], k, amount);
        assert r == [gs[0]] + rest;
        forall i, j | 0 <= i < j < |r| ensures r[i].key != r[j].key {
          if i == 0 {
            assert r[j] in rest;
            if r[j] in gs[1..] {
              var l :| 0 <= l < |gs[1..]| && gs[1..][l] == r[j];
              assert gs[l + 1] == r[j];
            }
          }
        }
      }
    }
  }

  /** Rows whose key is `k`, counted. */
  function CountKey(rows: Table, keyOf: KeyOf, k: string): nat {
    if |rows| == 0 then 0
    else CountKey(rows[..|rows| - 1], keyOf, k) + (if keyOf(rows[|rows| - 1]) == Some(k) then 1 else 0)
  }

  /** Material cells of the rows whose key is `k`, summed. */
  function SumKey(rows: Table, keyOf: KeyOf, k: string): int {
    if |rows| == 0 then 0
    else SumKey(rows[..|rows| - 1], keyOf, k) + (if keyOf(rows[|rows| - 1]) == Some(k) then RowMaterials(rows[|rows| - 1]) else 0)
  }

  /** The keys the rows carry. */
  function KeySet(rows: Table, keyOf: KeyOf): set<string> {
    set i | 0 <= i < |rows| && keyOf(rows[i]).Some? :: keyOf(rows[i]).value
  }

  /** Rows that take part in the report. */
  predicate Qualifies(keyOf: KeyOf, r: Row) {
    keyOf(r).Some?
  }

  /** Material cells of all the rows that take part, summed. */
  function QualifyingTotal(rows: Table, keyOf: KeyOf): int {
    if |rows| == 0 then 0
    else QualifyingTotal(rows[..|rows| - 1], keyOf) + (if keyOf(rows[|rows| - 1]).Some? then RowMaterials(rows[|rows| - 1]) else 0)
  }

  /**
   * The `forEach` that fills the report object. Each key appears once; a key's count and total
   * are those of the rows carrying it; the groups partition the rows that take part.
   */
  function Aggregate(rows: Table, keyOf: KeyOf): (gs: seq<Group>)
    ensures UniqueKeys(gs)
    ensures Keys(gs) == KeySet(rows, keyOf)
    ensures forall k :: CountIn(gs, k) == CountKey(rows, keyOf, k)
    ensures forall k :: TotalIn(gs, k) == SumKey(rows, keyOf, k)
    ensures SumCounts(gs) == CountWhere(rows, r => Qualifies(keyOf, r))
    ensures SumTotals(gs) == QualifyingTotal(rows, keyOf)
    ensures forall g :: g in gs ==> g.count >= 1
  {
    if |rows| == 0 then []
    else
      var init := rows[..|rows| - 1];
      var last := rows[|rows| - 1];
      var prev := Aggregate(init, keyOf);
      KeySetSnoc(rows, keyOf);
      match keyOf(last)
      case None => prev
      case Some(k) =>
        BumpCounts(prev, k, RowMaterials(last));
        BumpMembers(prev, k, RowMaterials(last));
        BumpKeySet(prev, k, RowMaterials(last));
        BumpUnique(prev, k, RowMaterials(last));
        Bump(prev, k, RowMaterials(last))
  }

  lemma KeySetSnoc(rows: Table, keyOf: KeyOf)
    requires |rows| > 0
    ensures KeySet(rows, keyOf) == KeySet(rows[..|rows| - 1], keyOf) +
      (if keyOf(rows[|rows| - 1]).Some? then {keyOf(rows[|rows| - 1]).value} else {})
  {
    var init := rows[..|rows| - 1];
    var last := rows[|rows| - 1];
    forall x | x in KeySet(rows, keyOf) ensures x in KeySet(init, keyOf) || (keyOf(last).Some? && x == keyOf(last).value) {
      var i :| 0 <= i < |rows| && keyOf(rows[i]).Some? && keyOf(rows[i]).value == x;
      if i < |rows| - 1 {
        assert rows[i] == init[i];
      }
    }
    forall x | x in KeySet(init, keyOf) ensures x in KeySet(rows, keyOf) {
      var i :| 0 <= i < |init| && keyOf(init[i]).Some? && keyOf(init[i]).value == x;
      assert rows[i] == init[i];
    }
    if keyOf(last).Some? {
      assert keyOf(rows[|rows| - 1]).value in KeySet(rows, keyOf);
    }
  }

  /** Each group's count and total are exactly those of the rows carrying its key. */
  lemma AggregateGroup(rows: Table, keyOf: KeyOf, g: Group)
    requires g in Aggregate(rows, keyOf)
    ensures g.count == CountKey(rows, keyOf, g.key) >= 1
    ensures g.total == SumKey(rows, keyOf, g.key)
  {
    var gs := Aggregate(rows, keyOf);
    var i :| 0 <= i < |gs| && gs[i] == g;
    GroupOfKey(gs, i);
  }

  // ---------------------------------------------------------------------------------------
  // Sorting

  /** `before(a, b)`: `a` may stand ahead of `b`. */
  type Before = (Group, Group) -> bool

  ghost predicate TotalPreorder(before: Before) {
    && (forall a, b :: before(a, b) || before(b, a))
    && (forall a, b, c :: before(a, b) && before(b, c) ==> before(a, c))
  }

  ghost predicate Sorted(gs: seq<Group>, before: Before) {
    forall i, j :: 0 <= i < j < |gs| ==> before(gs[i], gs[j])
  }

  function InsertGroup(x: Group, s: seq<Group>, before: Before): (r: seq<Group>)
    ensures |r| == |s| + 1
  {
    if |s| == 0 then [x]
    else if before(x, s[0]) then [x] + s
    else [s[0]] + InsertGroup(x, s[1..], before)
  }

  /** Insertion adds `x` and nothing else. */
  lemma {:induction false} InsertMembers(x: Group, s: seq<Group>, before: Before)
    ensures forall g :: g in InsertGroup(x, s, before) <==> g == x || g in s
    ensures multiset(InsertGroup(x, s, before)) == multiset(s) + multiset{x}
    ensures Keys(InsertGroup(x, s, before)) == Keys(s) + {x.key}
  {
    var r := InsertGroup(x, s, before);
    if |s| > 0 {
      assert s == [s[0]] + s[1..];
      if !before(x, s[0]) {
        InsertMembers(x, s[1..], before);
        assert r == [s[0]] + InsertGroup(x, s[1..], before);
      }
    }
  }

  /** Insertion adds `x`'s count and total under its key. */
  lemma {:induction false} InsertSums(x: Group, s: seq<Group>, before: Before)
    ensures SumCounts(InsertGroup(x, s, before)) == SumCounts(s) + x.count
    ensures SumTotals(InsertGroup(x, s, before)) == SumTotals(s) + x.total
    ensures forall k :: CountIn(InsertGroup(x, s, before), k) == CountIn(s, k) + (if x.key == k then x.count else 0)
    ensures forall k :: TotalIn(InsertGroup(x, s, before), k) == TotalIn(s, k) + (if x.key == k then x.total else 0)
  {
    var r := InsertGroup(x, s, before);
    if |s| > 0 {
      if before(x, s[0]) {
        assert r[1..] == s;
      } else {
        InsertSums(x, s[1..], before);
        assert r[1..] == InsertGroup(x, s[1..], before);
      }
    }
  }

  /** Inserting a new key into a list of unique keys keeps them unique. */
  lemma {:induction false} InsertUnique(x: Group, s: seq<Group>, before: Before)
    requires UniqueKeys(s) && x.key !in Keys(s)
    ensures UniqueKeys(InsertGroup(x, s, before))
  {
    var r := InsertGroup(x, s, before);
    if |s| > 0 {
      assert s == [s[0]] + s[1..];
      if before(x, s[0]) {
        forall i, j | 0 <= i < j < |r| ensures r[i].key != r[j].key {
          if i == 0 {
            assert r[j] in s;
          }
        }
      } else {
        var rest := InsertGroup(x, s[1..], before);
        InsertUnique(x, s[1..], before);
        InsertMembers(x, s[1..], before);
        assert r == [s[0]] + rest;
        forall i, j | 0 <= i < j < |r| ensures r[i].key != r[j].key {
          if i == 0 {
            assert r[j] in rest;
            assert r[j] == x || r[j] in s[1..];
          }
        }
      }
    }
  }

  /** Inserting into a sorted list by a total preorder keeps it sorted. */
  lemma {:induction false} InsertSorted(x: Group, s: seq<Group>, before: Before)
    requires TotalPreorder(before) && Sorted(s, before)
    ensures Sorted(InsertGroup(x, s, before), before)
  {
    var r := InsertGroup(x, s, before);
    if |s| > 0 {
      if before(x, s[0]) {
        forall i, j | 0 <= i < j < |r| ensures before(r[i], r[j]) {
          if i == 0 && j > 1 {
            assert before(s[0], s[j - 1]);
          }
        }
      } else {
        var rest := InsertGroup(x, s[1..], before);
        InsertSorted(x, s[1..], before);
        InsertMembers(x, s[1..], before);
        assert r == [s[0]] + rest;
        assert before(s[0], x);
        forall i, j | 0 <= i < j < |r| ensures before(r[i], r[j]) {
          if i == 0 {
            assert r[j] in rest;
            if r[j] != x {
              var l :| 0 <= l < |s[1..]| && s[1..][l] == r[j];
              assert before(s[0], s[l + 1]);
            }
          }
        }
      }
    }
  }

  /** Insertion sort by `before`, standing in for `Array.prototype.sort` with a comparator. */
  function SortGroups(gs: seq<Group>, before: Before): (r: seq<Group>)
    ensures |r| == |gs|
  {
    if |gs| == 0 then [] else InsertGroup(gs[0], SortGroups(gs[1..], before), before)
  }

  /** Sorting permutes the groups. */
  lemma {:induction false} SortMembers(gs: seq<Group>, before: Before)
    ensures forall g :: g in SortGroups(gs, before) <==> g in gs
    ensures multiset(SortGroups(gs, before)) == multiset(gs)
    ensures Keys(SortGroups(gs, before)) == Keys(gs)
  {
    SortPermutes(gs, before);
    var r := SortGroups(gs, before);
    forall g ensures g in r <==> g in gs {
      assert g in r <==> g in multiset(r);
      assert g in gs <==> g in multiset(gs);
    }
    assert Keys(r) == Keys(gs);
  }

  lemma {:induction false} SortPermutes(gs: seq<Group>, before: Before)
    ensures multiset(SortGroups(gs, before)) == multiset(gs)
  {
    if |gs| > 0 {
      SortPermutes(gs[1..], before);
      InsertMembers(gs[0], SortGroups(gs[1..], before), before);
      assert gs == [gs[0]] + gs[1..];
    }
  }

  /** Sorting keeps the sums of counts and totals. */
  lemma {:induction false} SortSums(gs: seq<Group>, before: Before)
    ensures SumCounts(SortGroups(gs, before)) == SumCounts(gs)
    ensures SumTotals(SortGroups(gs, before)) == SumTotals(gs)
  {
    if |gs| > 0 {
      SortSums(gs[1..], before);
      InsertSums(gs[0], SortGroups(gs[1..], before), before);
    }
  }

  /** Sorting keeps keys unique. */
  lemma {:induction false} SortUnique(gs: seq<Group>, before: Before)
    requires UniqueKeys(gs)
    ensures UniqueKeys(SortGroups(gs, before))
  {
    if |gs| > 0 {
      var rest := SortGroups(gs[1..], before);
      assert gs == [gs[0]] + gs[1..];
      SortUnique(gs[1..], before);
      SortMembers(gs[1..], before);
      assert gs[0].key !in Keys(gs[1..]);
      InsertUnique(gs[0], rest, before);
    }
  }

  /** Sorting by a total preorder yields a sorted list. */
  lemma {:induction false} SortSorted(gs: seq<Group>, before: Before)
    requires TotalPreorder(before)
    ensures Sorted(SortGroups(gs, before), before)
  {
    if |gs| > 0 {
      SortSorted(gs[1..], before);
      InsertSorted(gs[0], SortGroups(gs[1..], before), before);
    }
  }

  /** `(a, b) => b.materialsDistributed - a.materialsDistributed`: larger totals first. */
  function ByTotalDescending(): Before {
    (a: Group, b: Group) => a.total >= b.total
  }

  lemma ByTotalDescendingIsPreorder()
    ensures TotalPreorder(ByTotalDescending())
  {
  }

  /**
   * A report sorted by material total: the same groups as `Aggregate`, non-increasing by total,
   * one per key, partitioning the rows that take part.
   */
  function SortedReport(rows: Table, keyOf: KeyOf): (gs: seq<Group>)
    ensures forall i, j :: 0 <= i < j < |gs| ==> gs[i].total >= gs[j].total
    ensures multiset(gs) == multiset(Aggregate(rows, keyOf))
    ensures UniqueKeys(gs)
    ensures Keys(gs) == KeySet(rows, keyOf)
    ensures forall g :: g in gs ==> g.count == CountKey(rows, keyOf, g.key) >= 1 && g.total == SumKey(rows, keyOf, g.key)
    ensures SumCounts(gs) == CountWhere(rows, r => Qualifies(keyOf, r))
    ensures SumTotals(gs) == QualifyingTotal(rows, keyOf)
  {
    var agg := Aggregate(rows, keyOf);
    ByTotalDescendingIsPreorder();
    SortMembers(agg, ByTotalDescending());
    SortSums(agg, ByTotalDescending());
    SortUnique(agg, ByTotalDescending());
    SortSorted(agg, ByTotalDescending());
    var gs := SortGroups(agg, ByTotalDescending());
    assert Sorted(gs, ByTotalDescending());
    forall g | g in gs ensures g.count == CountKey(rows, keyOf, g.key) >= 1 && g.total == SumKey(rows, keyOf, g.key) {
      AggregateGroup(rows, keyOf, g);
    }
    gs
  }
}
