/**
 * `/search-receipts`: every AllReceipts row decoded into a receipt (its fixed fields and the
 * materials with a positive quantity), then narrowed by each query field that is present.
 */
module Search {
  import opened Results
  import opened Text
  import opened Sheet
  import Receipts

  /** One `{ materialId, materialName, receivedQuantity }` of a found receipt. */
  datatype FoundLine = FoundLine(materialId: int, materialName: string, receivedQuantity: int)

  /** A decoded receipt. */
  datatype Found = Found(
    timestamp: string, registrarNationalId: string, registrarName: string, mosque: string,
    governorate: string, zone: string, section: string, mosqueName: string, registrarPhone: string,
    workerName: string, workerNationalId: string, secondWorkerName: string, secondWorkerNationalId: string,
    month: string, year: string, materials: seq<FoundLine>)

  /** The query string; an absent parameter is the empty string. */
  datatype Query = Query(
    governorate: string, zone: string, mosque: string, registrarName: string,
    registrarPhone: string, workerName: string, month: string, year: string)

  /** The columns the decoder takes the month and the year from. */
  datatype PeriodColumns = PeriodColumns(month: nat, year: nat)

  /** The route reads month and year from columns O and P. */
  const AsWrittenColumns: PeriodColumns := PeriodColumns(14, 15)

  /** `/add-receipt` writes them to columns N and O. */
  const ReceiptColumns: PeriodColumns := PeriodColumns(13, 14)

  /** One candidate line per material, quantity `parseFloat(r[16 + i]) || 0`. */
  function Candidates(r: Row, names: seq<string>): (c: seq<FoundLine>)
    ensures |c| == |names|
    ensures forall i :: 0 <= i < |names| ==> c[i] == FoundLine(i + 1, names[i], Num(At(r, Receipts.FixedCells + i)))
  {
    seq(|names|, i requires 0 <= i < |names| => FoundLine(i + 1, names[i], Num(At(r, Receipts.FixedCells + i))))
  }

  predicate Delivered(l: FoundLine) {
    l.receivedQuantity > 0
  }

  /** The materials pushed by the decoding loop: those with a positive quantity. */
  function FoundLines(r: Row, names: seq<string>): seq<FoundLine> {
    Filter(Candidates(r, names), Delivered)
  }

  function Decode(r: Row, names: seq<string>, cols: PeriodColumns): Found {
    Found(At(r, 0), At(r, 1), At(r, 2), At(r, 3), At(r, 4), At(r, 5), At(r, 6), At(r, 7), At(r, 8),
          At(r, 9), At(r, 10), At(r, 11), At(r, 12), At(r, cols.month), At(r, cols.year), FoundLines(r, names))
  }

  /** Every data row of `AllReceipts!A:AI`, decoded against the material names. */
  function DecodeAll(receiptsSheet: Table, materialsSheet: Table, cols: PeriodColumns): (found: seq<Found>)
    ensures var rows := DataRows(Window(receiptsSheet, WideWindow));
      && |found| == |rows|
      && forall k :: 0 <= k < |rows| ==> found[k] == Decode(rows[k], Receipts.MaterialNamesOf(materialsSheet), cols)
  {
    var rows := DataRows(Window(receiptsSheet, WideWindow));
    var names := Receipts.MaterialNamesOf(materialsSheet);
    seq(|rows|, k requires 0 <= k < |rows| => Decode(rows[k], names, cols))
  }

  // ---------------------------------------------------------------------------------------
  // The filters

  /** `cell && cell.toLowerCase().includes(q.toLowerCase())`. */
  predicate TextMatch(cell: string, q: string) {
    NonEmpty(cell) && Contains(Lower(cell), Lower(q))
  }

  /** `cell && cell.includes(q)`: the phone filter does not fold case. */
  predicate ExactMatch(cell: string, q: string) {
    NonEmpty(cell) && Contains(cell, q)
  }

  /** `String(parseInt(cell))`: the canonical digits, or "NaN". */
  function Canonical(cell: string): string {
    match ParseInt(cell)
    case None => "NaN"
    case Some(n) => IntToString(n)
  }

  /** `cell && parseInt(cell).toString() === q`. */
  predicate NumberMatch(cell: string, q: string) {
    NonEmpty(cell) && Canonical(cell) == q
  }

  /** A filter step: skipped when its query field is absent. */
  datatype Stage = Stage(active: bool, test: Found -> bool)

  /** The route's eight filters, in the order it applies them. */
  function Stages(q: Query): (st: seq<Stage>)
    ensures |st| == 8
  {
    [ Stage(NonEmpty(q.governorate), (x: Found) => TextMatch(x.governorate, q.governorate)),
      Stage(NonEmpty(q.zone), (x: Found) => TextMatch(x.zone, q.zone)),
      Stage(NonEmpty(q.mosque), (x: Found) => TextMatch(x.mosque, q.mosque)),
      Stage(NonEmpty(q.registrarName), (x: Found) => TextMatch(x.registrarName, q.registrarName)),
      Stage(NonEmpty(q.registrarPhone), (x: Found) => ExactMatch(x.registrarPhone, q.registrarPhone)),
      Stage(NonEmpty(q.workerName), (x: Found) => TextMatch(x.workerName, q.workerName) || TextMatch(x.secondWorkerName, q.workerName)),
      Stage(NonEmpty(q.month), (x: Found) => NumberMatch(x.month, q.month)),
      Stage(NonEmpty(q.year), (x: Found) => NumberMatch(x.year, q.year)) ]
  }

  /** `result = result.filter(...)` for each present field, one after the other. */
  function Apply(s: seq<Found>, stages: seq<Stage>): seq<Found>
    decreases |stages|
  {
    if |stages| == 0 then s
    else Apply(if stages[0].active then Filter(s, stages[0].test) else s, stages[1..])
  }

  function SearchWith(receiptsSheet: Table, materialsSheet: Table, q: Query, cols: PeriodColumns): seq<Found> {
    Apply(DecodeAll(receiptsSheet, materialsSheet, cols), Stages(q))
  }

  /** The route as written, month and year one column too far right. */
  function SearchReceiptsAsWritten(receiptsSheet: Table, materialsSheet: Table, q: Query): seq<Found> {
    SearchWith(receiptsSheet, materialsSheet, q, AsWrittenColumns)
  }

  /** The route reading month and year where `/add-receipt` puts them. */
  function SearchReceipts(receiptsSheet: Table, materialsSheet: Table, q: Query): seq<Found> {
    SearchWith(receiptsSheet, materialsSheet, q, ReceiptColumns)
  }

  /** What the search asks of a receipt: every present field matches. */
  predicate Matches(x: Found, q: Query) {
    && (NonEmpty(q.governorate) ==> TextMatch(x.governorate, q.governorate))
    && (NonEmpty(q.zone) ==> TextMatch(x.zone, q.zone))
    && (NonEmpty(q.mosque) ==> TextMatch(x.mosque, q.mosque))
    && (NonEmpty(q.registrarName) ==> TextMatch(x.registrarName, q.registrarName))
    && (NonEmpty(q.registrarPhone) ==> ExactMatch(x.registrarPhone, q.registrarPhone))
    && (NonEmpty(q.workerName) ==> TextMatch(x.workerName, q.workerName) || TextMatch(x.secondWorkerName, q.workerName))
    && (NonEmpty(q.month) ==> NumberMatch(x.month, q.month))
    && (NonEmpty(q.year) ==> NumberMatch(x.year, q.year))
  }

  predicate PassesAll(stages: seq<Stage>, x: Found) {
    forall i :: 0 <= i < |stages| && stages[i].active ==> stages[i].test(x)
  }

  /** Applying the steps one after the other keeps the elements that pass every present step. */
  lemma {:induction false} ApplyIsFilter(s: seq<Found>, stages: seq<Stage>)
    ensures Apply(s, stages) == Filter(s, x => PassesAll(stages, x))
    decreases |stages|
  {
    if |stages| == 0 {
      FilterSame(s, x => PassesAll(stages, x), x => true);
      FilterAll(s);
    } else {
      var rest := stages[1..];
      var s1 := if stages[0].active then Filter(s, stages[0].test) else s;
      ApplyIsFilter(s1, rest);
      forall x ensures PassesAll(stages, x) == ((stages[0].active ==> stages[0].test(x)) && PassesAll(rest, x)) {
        if PassesAll(stages, x) {
          forall i | 0 <= i < |rest| && rest[i].active ensures rest[i].test(x) {
            assert rest[i] == stages[i + 1];
          }
        }
        if (stages[0].active ==> stages[0].test(x)) && PassesAll(rest, x) {
          forall i | 0 <= i < |stages| && stages[i].active ensures stages[i].test(x) {
            if i > 0 {
              assert stages[i] == rest[i - 1];
            }
          }
        }
      }
      if stages[0].active {
        FilterFilter(s, stages[0].test, x => PassesAll(rest, x), x => PassesAll(stages, x));
      } else {
        FilterSame(s, x => PassesAll(rest, x), x => PassesAll(stages, x));
      }
    }
  }

  lemma {:induction false} FilterAll<T>(s: seq<T>)
    ensures Filter(s, x => true) == s
  {
    if |s| > 0 {
      FilterAll(s[..|s| - 1]);
    }
  }

  /** The eight steps ask exactly what `Matches` asks. */
  lemma StagesAreMatches(q: Query, x: Found)
    ensures PassesAll(Stages(q), x) == Matches(x, q)
  {
    var st := Stages(q);
    if Matches(x, q) {
      forall i | 0 <= i < 8 && st[i].active ensures st[i].test(x) {
        assert i == 0 || i == 1 || i == 2 || i == 3 || i == 4 || i == 5 || i == 6 || i == 7;
      }
    }
    if PassesAll(st, x) {
      assert st[0].active ==> st[0].test(x);
      assert st[1].active ==> st[1].test(x);
      assert st[2].active ==> st[2].test(x);
      assert st[3].active ==> st[3].test(x);
      assert st[4].active ==> st[4].test(x);
      assert st[5].active ==> st[5].test(x);
      assert st[6].active ==> st[6].test(x);
      assert st[7].active ==> st[7].test(x);
    }
  }

  /** The filters are conjunctive: the search keeps the decoded receipts that match every present field. */
  lemma SearchIsConjunction(receiptsSheet: Table, materialsSheet: Table, q: Query, cols: PeriodColumns)
    ensures SearchWith(receiptsSheet, materialsSheet, q, cols)
      == Filter(DecodeAll(receiptsSheet, materialsSheet, cols), x => Matches(x, q))
  {
    var found := DecodeAll(receiptsSheet, materialsSheet, cols);
    ApplyIsFilter(found, Stages(q));
    forall i | 0 <= i < |found| ensures PassesAll(Stages(q), found[i]) == Matches(found[i], q) {
      StagesAreMatches(q, found[i]);
    }
    FilterSame(found, x => PassesAll(Stages(q), x), x => Matches(x, q));
  }

  /**
   * The result is the decoded sheet thinned out, in sheet order: the receipts at increasing
   * positions `idx`, each matching, and every matching receipt among them.
   */
  lemma SearchKeepsOrder(receiptsSheet: Table, materialsSheet: Table, q: Query) returns (idx: seq<int>)
    ensures var found := DecodeAll(receiptsSheet, materialsSheet, ReceiptColumns);
      var result := SearchReceipts(receiptsSheet, materialsSheet, q);
      && |idx| == |result|
      && (forall k :: 0 <= k < |idx| ==> 0 <= idx[k] < |found| && found[idx[k]] == result[k] && Matches(result[k], q))
      && (forall k, l :: 0 <= k < l < |idx| ==> idx[k] < idx[l])
      && (forall i :: 0 <= i < |found| && Matches(found[i], q) ==> i in idx)
  {
    var found := DecodeAll(receiptsSheet, materialsSheet, ReceiptColumns);
    SearchIsConjunction(receiptsSheet, materialsSheet, q, ReceiptColumns);
    idx := MatchingPicks(found, q);
  }

  lemma MatchingPicks(found: seq<Found>, q: Query) returns (idx: seq<int>)
    ensures var result := Filter(found, x => Matches(x, q));
      && |idx| == |result|
      && (forall k :: 0 <= k < |idx| ==> 0 <= idx[k] < |found| && found[idx[k]] == result[k] && Matches(result[k], q))
      && (forall k, l :: 0 <= k < l < |idx| ==> idx[k] < idx[l])
      && (forall i :: 0 <= i < |found| && Matches(found[i], q) ==> i in idx)
  {
    idx := FilterPicks(found, x => Matches(x, q));
  }

  /** With no query field present the search returns every decoded row. */
  lemma EmptyQueryKeepsAll(receiptsSheet: Table, materialsSheet: Table)
    ensures SearchReceipts(receiptsSheet, materialsSheet, Query("", "", "", "", "", "", "", ""))
      == DecodeAll(receiptsSheet, materialsSheet, ReceiptColumns)
  {
    var q := Query("", "", "", "", "", "", "", "");
    var found := DecodeAll(receiptsSheet, materialsSheet, ReceiptColumns);
    SearchIsConjunction(receiptsSheet, materialsSheet, q, ReceiptColumns);
    FilterSame(found, x => Matches(x, q), x => true);
    FilterAll(found);
  }

  /** The text filters ignore letter case on both sides; the phone filter does not. */
  lemma CaseFolding(cell: string, q: string)
    ensures TextMatch(Lower(cell), q) == TextMatch(cell, q)
    ensures TextMatch(cell, Lower(q)) == TextMatch(cell, q)
    ensures TextMatch("AB", "ab") && !ExactMatch("AB", "ab")
  {
    LowerIdempotent(cell);
    LowerIdempotent(q);
    assert IsPrefix(Lower("ab"), Lower("AB"));
    assert "AB"[..2][0] == 'A' != "ab"[0];
    assert !IsPrefix("ab", "AB"[1..]);
  }

  // ---------------------------------------------------------------------------------------
  // Decoding what `/add-receipt` wrote

  /** The quantity listed for material `id`, 0 when it is not listed. */
  function QuantityOf(lines: seq<FoundLine>, id: int): int {
    if |lines| == 0 then 0
    else if lines[|lines| - 1].materialId == id then lines[|lines| - 1].receivedQuantity
    else QuantityOf(lines[..|lines| - 1], id)
  }

  /** Filtering lines numbered 1, 2, ... keeps line `id` exactly when it is delivered. */
  lemma {:induction false} QuantityOfFiltered(c: seq<FoundLine>, id: int)
    requires forall k :: 0 <= k < |c| ==> c[k].materialId == k + 1
    ensures QuantityOf(Filter(c, Delivered), id) == if 1 <= id <= |c| && Delivered(c[id - 1]) then c[id - 1].receivedQuantity else 0
  {
    if |c| > 0 {
      var p := c[..|c| - 1];
      QuantityOfFiltered(p, id);
      if Delivered(c[|c| - 1]) {
        assert Filter(c, Delivered)[..|Filter(c, Delivered)| - 1] == Filter(p, Delivered);
      }
    }
  }

  /**
   * The decoded lines are the delivered materials in id order: each has a positive quantity,
   * an id in 1..m, that material's name and the quantity in its column.
   */
  lemma FoundLinesShape(r: Row, names: seq<string>)
    ensures var lines := FoundLines(r, names);
      && (forall k :: 0 <= k < |lines| ==>
            && 1 <= lines[k].materialId <= |names|
            && lines[k].receivedQuantity > 0
            && lines[k].materialName == names[lines[k].materialId - 1]
            && lines[k].receivedQuantity == Num(At(r, Receipts.FixedCells + lines[k].materialId - 1)))
      && (forall k, l :: 0 <= k < l < |lines| ==> lines[k].materialId < lines[l].materialId)
  {
    var idx := FoundLinesPicked(r, names);
  }

  /** The decoded lines are the candidates at increasing positions `idx`, each delivered. */
  lemma FoundLinesPicked(r: Row, names: seq<string>) returns (idx: seq<int>)
    ensures var lines := FoundLines(r, names);
      && |idx| == |lines|
      && (forall k :: 0 <= k < |lines| ==>
            && 0 <= idx[k] < |names|
            && Delivered(lines[k])
            && lines[k] == FoundLine(idx[k] + 1, names[idx[k]], Num(At(r, Receipts.FixedCells + idx[k]))))
      && (forall k, l :: 0 <= k < l < |idx| ==> idx[k] < idx[l])
  {
    var c := Candidates(r, names);
    idx := FilterPicks(c, Delivered);
  }

  /**
   * Round trip: decoding a row `/add-receipt` wrote gives back the form's fields, month and
   * year included.
   */
  lemma DecodeAddedFields(user: Receipts.User, f: Receipts.ReceiptForm, materialsSheet: Table, timestamp: string)
    requires Receipts.HasRequiredFields(f)
    ensures var row := Take(Receipts.AddReceipt(user, f, materialsSheet, timestamp).value, WideWindow);
      var x := Decode(row, Receipts.MaterialNamesOf(materialsSheet), ReceiptColumns);
      && x.timestamp == timestamp && x.registrarNationalId == user.nationalId && x.registrarName == user.name
      && x.mosque == f.mosque && x.governorate == f.governorate && x.zone == f.zone && x.section == f.section
      && x.mosqueName == f.mosqueName && x.registrarPhone == f.registrarPhone
      && x.workerName == f.workerName && x.workerNationalId == f.workerNationalId
      && x.secondWorkerName == f.secondWorkerName && x.secondWorkerNationalId == f.secondWorkerNationalId
      && x.month == f.month && x.year == f.year
  {
  }

  /**
   * Round trip: the decoded receipt lists material `i + 1` with the quantity submitted for it
   * exactly when that quantity is positive and its column is inside `A:AI` (the first 19
   * materials); every other material is left off.
   */
  lemma DecodeAddedMaterials(user: Receipts.User, f: Receipts.ReceiptForm, materialsSheet: Table, timestamp: string, i: nat)
    requires Receipts.HasRequiredFields(f)
    requires i < |DataRows(materialsSheet)|
    ensures var row := Take(Receipts.AddReceipt(user, f, materialsSheet, timestamp).value, WideWindow);
      var x := Decode(row, Receipts.MaterialNamesOf(materialsSheet), ReceiptColumns);
      var q := Num(Receipts.MaterialSlots(f.materials.value, |DataRows(materialsSheet)|)[i]);
      QuantityOf(x.materials, i + 1) == if Receipts.FixedCells + i < WideWindow && q > 0 then q else 0
  {
    var full := Receipts.AddReceipt(user, f, materialsSheet, timestamp).value;
    var row := Take(full, WideWindow);
    var names := Receipts.MaterialNamesOf(materialsSheet);
    var c := Candidates(row, names);
    QuantityOfFiltered(c, i + 1);
    assert c[i].receivedQuantity == Num(At(row, Receipts.FixedCells + i));
  }

  /** A submitted quantity as the decoder sees it: a blank reads as 0 either way. */
  lemma SubmittedQuantity(es: seq<Receipts.MaterialEntry>, m: nat, i: nat)
    requires i < m
    ensures Num(Receipts.MaterialSlots(es, m)[i]) ==
      match Receipts.LastEntryFor(es, i + 1)
      case None => 0
      case Some(e) => Num(e.receivedQuantity)
  {
    ParseIntToString(0);
    assert IntToString(0) == "0";
  }

  // ---------------------------------------------------------------------------------------
  // Month and year columns

  /** The route as written reads the form's year as the month and the registrar's id as the year. */
  lemma PeriodColumnsMisread(user: Receipts.User, f: Receipts.ReceiptForm, materialsSheet: Table, timestamp: string)
    requires Receipts.HasRequiredFields(f)
    ensures var row := Take(Receipts.AddReceipt(user, f, materialsSheet, timestamp).value, WideWindow);
      var x := Decode(row, Receipts.MaterialNamesOf(materialsSheet), AsWrittenColumns);
      x.month == f.year && x.year == user.nationalId
  {
  }

  function YearQuery(year: string): Query {
    Query("", "", "", "", "", "", "", year)
  }

  /**
   * A sheet holding one receipt for year `y` by a registrar whose id reads as a different
   * number: searching for year `y` finds it with the corrected columns and not as written.
   */
  lemma YearSearchMissesOwnReceipt(user: Receipts.User, f: Receipts.ReceiptForm, materialsSheet: Table,
                                   timestamp: string, header: Row, y: int, n: int)
    requires Receipts.HasRequiredFields(f)
    requires f.year == IntToString(y) && user.nationalId == IntToString(n) && n != y
    ensures var sheet := [header, Receipts.AddReceipt(user, f, materialsSheet, timestamp).value];
      && |SearchReceipts(sheet, materialsSheet, YearQuery(f.year))| == 1
      && SearchReceiptsAsWritten(sheet, materialsSheet, YearQuery(f.year)) == []
  {
    var sheet := [header, Receipts.AddReceipt(user, f, materialsSheet, timestamp).value];
    var q := YearQuery(f.year);
    ParseIntToString(y);
    ParseIntToString(n);
    if IntToString(n) == IntToString(y) {
      IntToStringInjective(n, y);
    }
    DecodeAddedFields(user, f, materialsSheet, timestamp);
    PeriodColumnsMisread(user, f, materialsSheet, timestamp);
    SearchIsConjunction(sheet, materialsSheet, q, ReceiptColumns);
    SearchIsConjunction(sheet, materialsSheet, q, AsWrittenColumns);
    var good := DecodeAll(sheet, materialsSheet, ReceiptColumns);
    var bad := DecodeAll(sheet, materialsSheet, AsWrittenColumns);
    assert DataRows(Window(sheet, WideWindow)) == [Take(sheet[1], WideWindow)];
    assert Matches(good[0], q);
    assert !Matches(bad[0], q);
    assert good[..0] == [] && bad[..0] == [];
  }
}
