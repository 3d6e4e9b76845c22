/**
 * Spreadsheet column names and the AllReceipts header row built by the setup script:
 * `getColumnLetter`, the header list and its last column.
 */
module Columns {
  import opened Sheet

  predicate IsLetter(c: char) {
    'A' <= c <= 'Z'
  }

  predicate AllLetters(s: string) {
    forall i :: 0 <= i < |s| ==> IsLetter(s[i])
  }

  function LetterFor(d: int): (c: char)
    requires 0 <= d < 26
    ensures IsLetter(c)
  {
    (65 + d) as char
  }

  /**
   * `getColumnLetter(col)`: bijective base 26, 1 = "A", 26 = "Z", 27 = "AA".
   * Column numbers of 0 or less give the empty string (the loop never runs).
   */
  function ColumnLetter(col: int): (s: string)
    ensures AllLetters(s)
    ensures |s| == 0 <==> col <= 0
    decreases col
  {
    if col <= 0 then "" else ColumnLetter((col - 1) / 26) + [LetterFor((col - 1) % 26)]
  }

  /** The usual reading of a column name: letters as base-26 digits A = 1 .. Z = 26. */
  function ColumnNumber(s: string): (n: nat)
    requires AllLetters(s)
  {
    if |s| == 0 then 0 else ColumnNumber(s[..|s| - 1]) * 26 + ((s[|s| - 1] as int) - 64)
  }

  /** The loop of `getColumnLetter`, statement by statement. */
  method GetColumnLetter(col0: int) returns (letter: string)
    ensures letter == ColumnLetter(col0)
    ensures col0 >= 1 ==> ColumnNumber(letter) == col0
  {
    var col := col0;
    letter := "";
    while col > 0
      invariant ColumnLetter(col0) == ColumnLetter(col) + letter
      decreases col
    {
      col := col - 1;
      letter := [LetterFor(col % 26)] + letter;
      col := col / 26;
    }
    ColumnNumberOfLetter(col0);
  }

  /** Reading a produced column name back gives the column number. */
  lemma {:induction false} ColumnNumberOfLetter(col: int)
    ensures col >= 0 ==> ColumnNumber(ColumnLetter(col)) == col
    decreases col
  {
    if col > 0 {
      var s := ColumnLetter(col);
      ColumnNumberOfLetter((col - 1) / 26);
      assert s[..|s| - 1] == ColumnLetter((col - 1) / 26);
    }
  }

  /** Every name made of capital letters is produced, by exactly its own number. */
  lemma {:induction false} ColumnLetterOfNumber(s: string)
    requires AllLetters(s)
    ensures ColumnLetter(ColumnNumber(s)) == s
  {
    if |s| > 0 {
      var p := s[..|s| - 1];
      var d := (s[|s| - 1] as int) - 65;
      ColumnLetterOfNumber(p);
      var q := ColumnNumber(p);
      DigitSplit(q, d);
      assert ColumnLetter(q * 26 + d + 1) == ColumnLetter(q) + [LetterFor(d)];
      assert LetterFor(d) == s[|s| - 1];
      assert s == p + [s[|s| - 1]];
    }
  }

  /** Base-26 digit arithmetic behind `ColumnLetterOfNumber`. */
  lemma DigitSplit(q: nat, d: int)
    requires 0 <= d < 26
    ensures (q * 26 + d) / 26 == q && (q * 26 + d) % 26 == d
  {
  }

  /** Different columns have different names. */
  lemma ColumnLetterInjective(a: int, b: int)
    requires a >= 1 && b >= 1 && ColumnLetter(a) == ColumnLetter(b)
    ensures a == b
  {
    ColumnNumberOfLetter(a);
    ColumnNumberOfLetter(b);
  }

  /** The names the setup script's comments rely on. */
  lemma ColumnLetterExamples()
    ensures ColumnLetter(1) == "A" && ColumnLetter(26) == "Z"
    ensures ColumnLetter(27) == "AA" && ColumnLetter(52) == "AZ" && ColumnLetter(53) == "BA"
  {
    assert ColumnLetter(0) == "";
    assert ColumnLetter(1) == "" + [LetterFor(0)];
    assert ColumnLetter(2) == "" + [LetterFor(1)];
    assert ColumnLetter(26) == "" + [LetterFor(25)];
  }

  /** A one-letter name is exactly the character `String.fromCharCode(64 + col)`. */
  lemma SingleLetter(col: int)
    requires 1 <= col <= 26
    ensures ColumnLetter(col) == [(64 + col) as char]
  {
    assert (col - 1) / 26 == 0;
  }

  /** Default name the routes give a material whose name cell is empty. */
  const DefaultMaterialName: string := "مادة"

  /** `materials.map(row => row[0] || 'مادة').filter(Boolean)` over `Materials!A2:C`. */
  function MaterialNames(materialRows: Table): (names: seq<string>)
    ensures |names| == |materialRows|
    ensures forall i :: 0 <= i < |names| ==> NonEmpty(names[i])
    ensures forall i :: 0 <= i < |names| && NonEmpty(At(materialRows[i], 0)) ==> names[i] == materialRows[i][0]
    ensures forall i :: 0 <= i < |names| && !NonEmpty(At(materialRows[i], 0)) ==> names[i] == DefaultMaterialName
  {
    var named := seq(|materialRows|, i requires 0 <= i < |materialRows| =>
      if NonEmpty(At(materialRows[i], 0)) then At(materialRows[i], 0) else DefaultMaterialName);
    NonEmptyKeepsAll(named);
    NonEmptyOnly(named)
  }

  lemma {:induction false} NonEmptyKeepsAll(s: seq<string>)
    requires forall i :: 0 <= i < |s| ==> NonEmpty(s[i])
    ensures NonEmptyOnly(s) == s
  {
    if |s| > 0 {
      NonEmptyKeepsAll(s[..|s| - 1]);
      assert s[..|s| - 1] + [s[|s| - 1]] == s;
    }
  }

  /** The nine fixed headers (A-I), then the worker's national id and the phone. */
  const StaticHeaders: seq<string> := [
    "التاريخ والوقت", "رقم المدني للمسجل", "اسم المسجل", "اسم المسجد", "المحافظة",
    "المنطقة", "الرقم المدني للمسجد", "القطعة", "اسم العامل"
  ]

  /** `allHeaders`: the static headers, two more, then one header per material. */
  function AllHeaders(materialRows: Table): (h: seq<string>)
    ensures |h| == 11 + |materialRows|
    ensures h[..9] == StaticHeaders
    ensures h[9] == "رقم المدني للعامل" && h[10] == "رقم الهاتف"
    ensures h[11..] == MaterialNames(materialRows)
  {
    StaticHeaders + ["رقم المدني للعامل", "رقم الهاتف"] + MaterialNames(materialRows)
  }

  /** `lastColumn`: the name of the column holding the last header. */
  function LastColumn(materialRows: Table): (c: string)
    ensures |c| >= 1 && AllLetters(c)
    ensures ColumnNumber(c) == 11 + |materialRows|
  {
    ColumnNumberOfLetter(|AllHeaders(materialRows)|);
    ColumnLetter(|AllHeaders(materialRows)|)
  }
}
