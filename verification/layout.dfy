/**
 * Where the report writers put their rows on the Reports sheet, and the tags in column A the
 * reader dispatches on. Indices are 0-based: index `k` is sheet row `k + 1`.
 */
module Layout {

  const SummaryTag: string := "ملخص عام"
  const MonthlyTag: string := "تقرير شهري"
  const GovernorateTag: string := "تقرير محافظة"
  const MaterialTag: string := "مادة بالمحافظة"

  /** `Reports!A2:K2`. */
  const SummaryRowIndex: nat := 1

  /** Monthly row `i` goes to `Reports!A{5+i}`. */
  function MonthlyRowIndex(i: nat): nat {
    4 + i
  }

  /** Governorate row `i` goes to `Reports!A{7+i}`. */
  function GovernorateRowIndex(i: nat): nat {
    6 + i
  }

  /**
   * Material `j`, governorate `g` (of `nGov`) goes to `Reports!A{9 + j * nGov + g}`: the running
   * `rowIndex` starts at 9 and steps once per (material, governorate) pair, governorates inner.
   */
  function MaterialRowIndex(j: nat, g: nat, nGov: nat): (k: nat)
    ensures k >= 8 + g
  {
    8 + j * nGov + g
  }

  /** The material rows never collide with each other: each pair has its own row. */
  lemma MaterialRowsDistinct(j1: nat, g1: nat, j2: nat, g2: nat, nGov: nat)
    requires g1 < nGov && g2 < nGov
    requires MaterialRowIndex(j1, g1, nGov) == MaterialRowIndex(j2, g2, nGov)
    ensures j1 == j2 && g1 == g2
  {
    if j1 < j2 {
      StepApart(j1, j2, nGov);
    } else if j2 < j1 {
      StepApart(j2, j1, nGov);
    }
  }

  lemma StepApart(a: nat, b: nat, n: nat)
    requires a < b
    ensures a * n + n <= b * n
  {
    assert (b - a) * n >= n by {
      assert b - a >= 1;
    }
    assert b * n == a * n + (b - a) * n;
  }

  /** The sheet rows the monthly writer touches for `months` monthly entries. */
  function MonthlyRows(months: nat): set<nat> {
    set i | 0 <= i < months :: MonthlyRowIndex(i)
  }

  function GovernorateRows(govs: nat): set<nat> {
    set i | 0 <= i < govs :: GovernorateRowIndex(i)
  }

  function MaterialRows(materials: nat, govs: nat): set<nat> {
    set j, g | 0 <= j < materials && 0 <= g < govs :: MaterialRowIndex(j, g, govs)
  }

  /**
   * The writers' row ranges overlap: the monthly block runs into the governorate block as soon as
   * there are three months (and any governorate), and the governorate block runs into the
   * material block as soon as there are three governorates (and any material).
   */
  lemma MonthlyMeetsGovernorates(months: nat, govs: nat)
    ensures MonthlyRows(months) * GovernorateRows(govs) != {} <==> months >= 3 && govs >= 1
  {
    if months >= 3 && govs >= 1 {
      assert MonthlyRowIndex(2) == GovernorateRowIndex(0);
      assert GovernorateRowIndex(0) in MonthlyRows(months) * GovernorateRows(govs);
    }
    if MonthlyRows(months) * GovernorateRows(govs) != {} {
      var x :| x in MonthlyRows(months) * GovernorateRows(govs);
      var i :| 0 <= i < months && x == MonthlyRowIndex(i);
      var k :| 0 <= k < govs && x == GovernorateRowIndex(k);
    }
  }

  lemma GovernoratesMeetMaterials(govs: nat, materials: nat)
    ensures GovernorateRows(govs) * MaterialRows(materials, govs) != {} <==> govs >= 3 && materials >= 1
  {
    if govs >= 3 && materials >= 1 {
      assert GovernorateRowIndex(2) == MaterialRowIndex(0, 0, govs);
      assert GovernorateRowIndex(2) in GovernorateRows(govs) * MaterialRows(materials, govs);
    }
    if GovernorateRows(govs) * MaterialRows(materials, govs) != {} {
      var x :| x in GovernorateRows(govs) * MaterialRows(materials, govs);
      var i :| 0 <= i < govs && x == GovernorateRowIndex(i);
      var j, g :| 0 <= j < materials && 0 <= g < govs && x == MaterialRowIndex(j, g, govs);
    }
  }
}
