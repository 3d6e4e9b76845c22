/**
 * The user routes: `/add-receipt` flattens a delivery into one AllReceipts row (16 fixed cells,
 * then one quantity per material, by position); `/receipts` reads a user's own rows back;
 * `/governorates-zones` groups the zone list under each governorate.
 */
module Receipts {
  import opened Results
  import opened Text
  import opened Sheet
  import Columns

  /** The signed-in user, as the session token carries it. */
  datatype User = User(nationalId: string, name: string)

  /** One `{ materialId, receivedQuantity }` entry of the submitted form. */
  datatype MaterialEntry = MaterialEntry(materialId: int, receivedQuantity: string)

  /** The body of `/add-receipt`; `materials` is `None` when the field is missing. */
  datatype ReceiptForm = ReceiptForm(
    mosque: string, governorate: string, zone: string, section: string, mosqueName: string,
    registrarPhone: string, workerName: string, workerNationalId: string,
    secondWorkerName: string, secondWorkerNationalId: string,
    materials: Option<seq<MaterialEntry>>, month: string, year: string)

  const RequiredFieldsError: string := "جميع البيانات مطلوبة"

  /** Number of fixed cells (A-P) before the first material quantity. */
  const FixedCells: nat := 16

  /** Every field the route insists on; the second worker's two fields are optional. */
  predicate HasRequiredFields(f: ReceiptForm) {
    && NonEmpty(f.mosque) && NonEmpty(f.governorate) && NonEmpty(f.zone) && NonEmpty(f.section)
    && NonEmpty(f.mosqueName) && NonEmpty(f.registrarPhone) && NonEmpty(f.workerName)
    && NonEmpty(f.workerNationalId) && f.materials.Some? && NonEmpty(f.month) && NonEmpty(f.year)
  }

  /** `receivedQuantity || 0`. */
  function QuantityCell(q: string): string {
    if NonEmpty(q) then q else "0"
  }

  /** The last submitted entry for material `id`, if any: the one whose value survives. */
  function LastEntryFor(entries: seq<MaterialEntry>, id: int): Option<MaterialEntry> {
    if |entries| == 0 then None
    else if entries[|entries| - 1].materialId == id then Some(entries[|entries| - 1])
    else LastEntryFor(entries[..|entries| - 1], id)
  }

  /**
   * The positional quantity array: `m` slots filled with 0, then every entry whose id is in
   * 1..m writes slot `id - 1`, in submission order.
   */
  function MaterialSlots(entries: seq<MaterialEntry>, m: nat): (slots: seq<string>)
    ensures |slots| == m
    ensures forall i :: 0 <= i < m ==>
      slots[i] == match LastEntryFor(entries, i + 1)
                  case None => "0"
                  case Some(e) => QuantityCell(e.receivedQuantity)
  {
    if |entries| == 0 then seq(m, _ => "0")
    else
      var prev := MaterialSlots(entries[..|entries| - 1], m);
      var k := entries[|entries| - 1].materialId - 1;
      if 0 <= k < m then prev[k := QuantityCell(entries[|entries| - 1].receivedQuantity)] else prev
  }

  /** The 16 fixed cells A-P. */
  function FixedPart(user: User, f: ReceiptForm, timestamp: string): (row: Row)
    ensures |row| == FixedCells
    ensures row[0] == timestamp && row[1] == user.nationalId && row[2] == user.name
    ensures row[3] == f.mosque && row[4] == f.governorate && row[5] == f.zone && row[6] == f.section
    ensures row[7] == f.mosqueName && row[8] == f.registrarPhone
    ensures row[9] == f.workerName && row[10] == f.workerNationalId
    ensures row[11] == f.secondWorkerName && row[12] == f.secondWorkerNationalId
    ensures row[13] == f.month && row[14] == f.year && row[15] == user.nationalId
  {
    [timestamp, user.nationalId, user.name, f.mosque, f.governorate, f.zone, f.section,
     f.mosqueName, f.registrarPhone, f.workerName, f.workerNationalId,
     f.secondWorkerName, f.secondWorkerNationalId, f.month, f.year, user.nationalId]
  }

  /**
   * `/add-receipt`: the row appended to AllReceipts, or the 400 error. `materialsSheet` is the
   * Materials sheet (header included) and `timestamp` the clock reading.
   */
  function AddReceipt(user: User, f: ReceiptForm, materialsSheet: Table, timestamp: string): (r: Result<Row>)
    ensures r.Err? <==> !HasRequiredFields(f)
    ensures r.Err? ==> r.message == RequiredFieldsError
    ensures r.Ok? ==>
      var row := r.value;
      var m := |DataRows(materialsSheet)|;
      && |row| == FixedCells + m
      && row[0] == timestamp && row[1] == user.nationalId && row[2] == user.name
      && row[3] == f.mosque && row[4] == f.governorate && row[5] == f.zone && row[6] == f.section
      && row[7] == f.mosqueName && row[8] == f.registrarPhone
      && row[9] == f.workerName && row[10] == f.workerNationalId
      && row[11] == f.secondWorkerName && row[12] == f.secondWorkerNationalId
      && row[13] == f.month && row[14] == f.year && row[15] == user.nationalId
      && (forall i :: 0 <= i < m ==> row[FixedCells + i] == MaterialSlots(f.materials.value, m)[i])
  {
    if !HasRequiredFields(f) then Err(RequiredFieldsError)
    else
      var m := |DataRows(materialsSheet)|;
      var fixed := FixedPart(user, f, timestamp);
      var slots := MaterialSlots(f.materials.value, m);
      Ok(fixed + slots)
  }

  /**
   * Where a submitted quantity lands: an entry with id k in 1..m that no later entry overrides
   * puts its quantity (0 when blank) at column 16 + k - 1; slots no entry names hold "0".
   */
  lemma AddReceiptPlacesEntry(user: User, f: ReceiptForm, materialsSheet: Table, timestamp: string, j: nat)
    requires HasRequiredFields(f)
    requires j < |f.materials.value|
    requires 1 <= f.materials.value[j].materialId <= |DataRows(materialsSheet)|
    requires forall l :: j < l < |f.materials.value| ==> f.materials.value[l].materialId != f.materials.value[j].materialId
    ensures AddReceipt(user, f, materialsSheet, timestamp).value[FixedCells + f.materials.value[j].materialId - 1]
            == QuantityCell(f.materials.value[j].receivedQuantity)
  {
    var es := f.materials.value;
    var m := |DataRows(materialsSheet)|;
    var k := es[j].materialId - 1;
    LastEntryIsLastWithId(es, j);
    var slots := MaterialSlots(es, m);
    assert slots[k] == QuantityCell(es[j].receivedQuantity);
    var row := FixedPart(user, f, timestamp) + slots;
    assert AddReceipt(user, f, materialsSheet, timestamp).value == row;
    assert row[FixedCells + k] == slots[k];
  }

  lemma {:induction false} LastEntryIsLastWithId(es: seq<MaterialEntry>, j: nat)
    requires j < |es|
    requires forall l :: j < l < |es| ==> es[l].materialId != es[j].materialId
    ensures LastEntryFor(es, es[j].materialId) == Some(es[j])
  {
    if j < |es| - 1 {
      LastEntryIsLastWithId(es[..|es| - 1], j);
    }
  }

  /** An id outside 1..m changes nothing: the array is the same as without that entry. */
  lemma {:induction false} OutOfRangeIgnored(es: seq<MaterialEntry>, e: MaterialEntry, m: nat)
    requires !(1 <= e.materialId <= m)
    ensures MaterialSlots(es + [e], m) == MaterialSlots(es, m)
  {
    assert (es + [e])[..|es|] == es;
  }

  // ---------------------------------------------------------------------------------------
  // `/receipts`

  /** One material line of a receipt as the routes return it. */
  datatype MaterialLine = MaterialLine(materialId: int, materialName: string, receivedQuantity: string)

  /** A receipt row decoded for display. */
  datatype ReceiptView = ReceiptView(
    timestamp: string, registrarName: string, mosque: string, governorate: string, zone: string,
    section: string, mosqueName: string, registrarPhone: string, workerName: string,
    workerNationalId: string, secondWorkerName: string, secondWorkerNationalId: string,
    month: string, year: string, materials: seq<MaterialLine>)

  /** `materialsData.slice(1).map(row => row[0] || 'مادة')`. */
  function MaterialNamesOf(materialsSheet: Table): seq<string> {
    Columns.MaterialNames(DataRows(materialsSheet))
  }

  /** The test at user.js:91, `quantity > 0 || quantity !== ''`, on `quantity = r[c] || 0`. */
  predicate ShownQuantity(q: string) {
    Num(q) > 0 || q != ""
  }

  /** The material lines of `/receipts`: columns 16 .. 16 + n - 1 read as `r[c] || 0`. */
  function ReceiptLines(r: Row, names: seq<string>, n: nat): (lines: seq<MaterialLine>)
    requires n <= |names|
    ensures |lines| == n
    ensures forall i :: 0 <= i < n ==>
      lines[i] == MaterialLine(i + 1, names[i], QuantityCell(At(r, FixedCells + i)))
  {
    if n == 0 then []
    else
      var q := QuantityCell(At(r, FixedCells + n - 1));
      var prev := ReceiptLines(r, names, n - 1);
      if ShownQuantity(q) then prev + [MaterialLine(n, names[n - 1], q)] else prev
  }

  function ViewReceipt(r: Row, names: seq<string>): ReceiptView {
    ReceiptView(At(r, 0), At(r, 2), At(r, 3), At(r, 4), At(r, 5), At(r, 6), At(r, 7), At(r, 8),
                At(r, 9), At(r, 10), At(r, 11), At(r, 12), At(r, 13), At(r, 14),
                ReceiptLines(r, names, |names|))
  }

  /** `r[1] === user.nationalId`: a cell that is not there never matches. */
  predicate OwnedBy(r: Row, nationalId: string) {
    |r| > 1 && r[1] == nationalId
  }

  /** `/receipts`: the caller's own rows of `AllReceipts!A:AI`, decoded, in sheet order. */
  function UserReceipts(receiptsSheet: Table, materialsSheet: Table, nationalId: string): (views: seq<ReceiptView>)
    ensures var own := Filter(DataRows(Window(receiptsSheet, WideWindow)), r => OwnedBy(r, nationalId));
      && |views| == |own|
      && forall k :: 0 <= k < |views| ==> views[k] == ViewReceipt(own[k], MaterialNamesOf(materialsSheet))
  {
    var names := MaterialNamesOf(materialsSheet);
    var own := Filter(DataRows(Window(receiptsSheet, WideWindow)), r => OwnedBy(r, nationalId));
    seq(|own|, k requires 0 <= k < |own| => ViewReceipt(own[k], names))
  }

  /**
   * Every decoded receipt lists every material, 1..m in order, whatever its cells hold:
   * `r[c] || 0` is never `''`, so the display test never drops a line.
   */
  lemma EveryMaterialShown(receiptsSheet: Table, materialsSheet: Table, nationalId: string, k: nat)
    requires k < |UserReceipts(receiptsSheet, materialsSheet, nationalId)|
    ensures var v := UserReceipts(receiptsSheet, materialsSheet, nationalId)[k];
      && |v.materials| == |DataRows(materialsSheet)|
      && forall i :: 0 <= i < |v.materials| ==> v.materials[i].materialId == i + 1
  {
  }

  /** The test at user.js:91 holds for every value `r[c] || 0` can take. */
  lemma QuantityAlwaysShown(cell: string)
    ensures ShownQuantity(QuantityCell(cell))
  {
  }

  /**
   * `/receipts` answers exactly the caller's rows: `idx` lists, in increasing order, the
   * positions among the data rows of `A:AI` (sheet row `idx[k] + 2`) whose national id is the
   * caller's, every such position is listed, and each view decodes the row at its position.
   */
  lemma UserReceiptsPicks(receiptsSheet: Table, materialsSheet: Table, nationalId: string) returns (idx: seq<int>)
    ensures var rows := DataRows(Window(receiptsSheet, WideWindow));
      var views := UserReceipts(receiptsSheet, materialsSheet, nationalId);
      && |idx| == |views|
      && (forall k :: 0 <= k < |idx| ==>
            && 0 <= idx[k] < |rows|
            && OwnedBy(rows[idx[k]], nationalId)
            && views[k] == ViewReceipt(rows[idx[k]], MaterialNamesOf(materialsSheet)))
      && (forall k, l :: 0 <= k < l < |idx| ==> idx[k] < idx[l])
      && (forall i :: 0 <= i < |rows| && OwnedBy(rows[i], nationalId) ==> i in idx)
  {
    var rows := DataRows(Window(receiptsSheet, WideWindow));
    idx := FilterPicks(rows, r => OwnedBy(r, nationalId));
  }

  /**
   * A row written by `/add-receipt` comes back to its registrar: it is theirs, it decodes to the
   * form's place and period, and appended below a header it adds exactly its own view, last,
   * to what `/receipts` answers.
   */
  lemma OwnReceiptReturned(user: User, f: ReceiptForm, materialsSheet: Table, timestamp: string, sheet: Table)
    requires AddReceipt(user, f, materialsSheet, timestamp).Ok?
    ensures OwnedBy(Take(AddReceipt(user, f, materialsSheet, timestamp).value, WideWindow), user.nationalId)
    ensures var v := ViewReceipt(Take(AddReceipt(user, f, materialsSheet, timestamp).value, WideWindow), MaterialNamesOf(materialsSheet));
      v.mosque == f.mosque && v.governorate == f.governorate && v.month == f.month && v.year == f.year
    ensures var row := AddReceipt(user, f, materialsSheet, timestamp).value;
      |sheet| >= 1 ==>
        UserReceipts(sheet + [row], materialsSheet, user.nationalId)
          == UserReceipts(sheet, materialsSheet, user.nationalId)
             + [ViewReceipt(Take(row, WideWindow), MaterialNamesOf(materialsSheet))]
  {
    var row := AddReceipt(user, f, materialsSheet, timestamp).value;
    if |sheet| >= 1 {
      var before := DataRows(Window(sheet, WideWindow));
      var after := DataRows(Window(sheet + [row], WideWindow));
      assert after == before + [Take(row, WideWindow)];
      var keep := (r: Row) => OwnedBy(r, user.nationalId);
      assert after[..|after| - 1] == before;
      assert Filter(after, keep) == Filter(before, keep) + [Take(row, WideWindow)];
    }
  }

  // ---------------------------------------------------------------------------------------
  // `/governorates-zones`

  /** A GovernoratesZones row that takes part: both cells present. */
  predicate ZoneRow(r: Row) {
    NonEmpty(At(r, 0)) && NonEmpty(At(r, 1))
  }

  /** The zones listed for governorate `g`, in sheet order, duplicates kept. */
  function ZonesOf(rows: Table, g: string): seq<string> {
    if |rows| == 0 then []
    else
      var r := rows[|rows| - 1];
      ZonesOf(rows[..|rows| - 1], g) + (if ZoneRow(r) && At(r, 0) == g then [At(r, 1)] else [])
  }

  /** The forEach of `/governorates-zones` over the data rows. */
  function GroupZones(rows: Table): (result: map<string, seq<string>>)
    ensures forall g :: g in result <==> |ZonesOf(rows, g)| > 0
    ensures forall g :: g in result ==> result[g] == ZonesOf(rows, g)
  {
    if |rows| == 0 then map[]
    else
      var prev := GroupZones(rows[..|rows| - 1]);
      var r := rows[|rows| - 1];
      if ZoneRow(r) then
        prev[At(r, 0) := (if At(r, 0) in prev then prev[At(r, 0)] else []) + [At(r, 1)]]
      else prev
  }

  /** `/governorates-zones`: governorate name to its zones. */
  function GovernoratesZones(data: Table): map<string, seq<string>> {
    GroupZones(DataRows(data))
  }

  /** Only non-empty governorates are keys, and every listed zone is non-empty. */
  lemma {:induction false} ZonesNonEmpty(rows: Table, g: string)
    ensures |ZonesOf(rows, g)| > 0 ==> NonEmpty(g)
    ensures forall z :: z in ZonesOf(rows, g) ==> NonEmpty(z)
  {
    if |rows| > 0 {
      ZonesNonEmpty(rows[..|rows| - 1], g);
    }
  }
}
