/**
 * The administration routes that keep the Materials and Users sheets, and the raw Reports-sheet
 * view: a material's id is its position in the Materials list, update and delete address the
 * sheet row through that id, and the user list hides the password column.
 */
module Admin {
  import opened Results
  import opened Text
  import opened Sheet

  const ServerError: string := "حدث خطأ في السيرفر"
  const MaterialFieldsError: string := "جميع البيانات مطلوبة (الاسم، الوحدة، الكمية)"
  const RequiredFieldsError: string := "جميع البيانات مطلوبة"

  // ---------------------------------------------------------------------------------------
  // Materials

  /** One entry of `/materials` (and of `/allocations/:mosque`); a `None` quantity is `NaN`. */
  datatype Material = Material(id: int, name: string, unit: string, quantity: Option<int>)

  /** `material[2] ? parseFloat(material[2]) : 0`. */
  function QuantityOf(cell: string): (q: Option<int>)
    ensures !NonEmpty(cell) ==> q == Some(0)
    ensures NonEmpty(cell) ==> q == ParseInt(cell)
  {
    if NonEmpty(cell) then ParseInt(cell) else Some(0)
  }

  function MaterialOf(index: nat, r: Row): Material {
    Material(index + 1, At(r, 0), At(r, 1), QuantityOf(At(r, 2)))
  }

  /** `/materials`: each row below the header, numbered from 1. */
  function MaterialsList(materialsSheet: Table): (ms: seq<Material>)
    ensures |ms| == |DataRows(materialsSheet)|
    ensures forall k :: 0 <= k < |ms| ==> ms[k] == MaterialOf(k, materialsSheet[k + 1])
  {
    var rows := DataRows(materialsSheet);
    seq(|rows|, k requires 0 <= k < |rows| => MaterialOf(k, rows[k]))
  }

  /** `/add-material`: the three fields are required; the row is appended. */
  function AddMaterial(materialsSheet: Table, name: string, unit: string, quantity: string): (r: Result<Table>)
    ensures r.Err? <==> !(NonEmpty(name) && NonEmpty(unit) && NonEmpty(quantity))
    ensures r.Err? ==> r.message == MaterialFieldsError
  {
    if !(NonEmpty(name) && NonEmpty(unit) && NonEmpty(quantity)) then Err(MaterialFieldsError)
    else Ok(materialsSheet + [[name, unit, quantity]])
  }

  /** An added material appears last in the list, with the next id and its own fields. */
  lemma AddMaterialListed(materialsSheet: Table, name: string, unit: string, quantity: string)
    requires |materialsSheet| >= 1
    requires NonEmpty(name) && NonEmpty(unit) && NonEmpty(quantity)
    ensures MaterialsList(AddMaterial(materialsSheet, name, unit, quantity).value)
      == MaterialsList(materialsSheet) + [Material(|materialsSheet|, name, unit, ParseInt(quantity))]
  {
    var t := AddMaterial(materialsSheet, name, unit, quantity).value;
    var before := MaterialsList(materialsSheet);
    var after := MaterialsList(t);
    forall k | 0 <= k < |before| ensures after[k] == before[k] {
      assert t[k + 1] == materialsSheet[k + 1];
    }
  }

  /**
   * `/update-material/:id`: the fields are required; the range `A{id+1}:C{id+1}` is sheet row
   * `id` counted from 0. A non-numeric id gives the range `ANaN`, and an id below 0 a row 0 or
   * less, which the sheet refuses.
   */
  function UpdateMaterial(materialsSheet: Table, id: string, name: string, unit: string, quantity: string): (r: Result<Table>)
    ensures !(NonEmpty(name) && NonEmpty(unit) && NonEmpty(quantity)) ==> r == Err(RequiredFieldsError)
    ensures r.Ok? <==> NonEmpty(name) && NonEmpty(unit) && NonEmpty(quantity) && ParseInt(id).Some? && ParseInt(id).value >= 0
  {
    if !(NonEmpty(name) && NonEmpty(unit) && NonEmpty(quantity)) then Err(RequiredFieldsError)
    else match ParseInt(id)
      case None => Err(ServerError)
      case Some(n) => if n < 0 then Err(ServerError) else Ok(WriteRow(materialsSheet, n, [name, unit, quantity]))
  }

  /**
   * Updating material `n` (of the list's ids 1..m) gives that entry the new fields and leaves
   * every other entry as it was.
   */
  lemma UpdateMaterialEffect(materialsSheet: Table, id: string, name: string, unit: string, quantity: string, n: int)
    requires NonEmpty(name) && NonEmpty(unit) && NonEmpty(quantity)
    requires ParseInt(id) == Some(n) && 1 <= n <= |MaterialsList(materialsSheet)|
    ensures var after := MaterialsList(UpdateMaterial(materialsSheet, id, name, unit, quantity).value);
      var before := MaterialsList(materialsSheet);
      && |after| == |before|
      && after[n - 1] == Material(n, name, unit, ParseInt(quantity))
      && forall k :: 0 <= k < |before| && k != n - 1 ==> after[k] == before[k]
  {
    var t := UpdateMaterial(materialsSheet, id, name, unit, quantity).value;
    var row := [name, unit, quantity];
    assert t == WriteRow(materialsSheet, n, row);
    assert At(t[n], 0) == name && At(t[n], 1) == unit && At(t[n], 2) == quantity;
  }

  /**
   * `/delete-material/:id`: removes sheet row `parseInt(id)` counted from 0. A non-numeric or
   * negative index is refused; an index past the last row deletes nothing.
   */
  function DeleteMaterial(materialsSheet: Table, id: string): (r: Result<Table>)
    ensures r.Ok? <==> ParseInt(id).Some? && ParseInt(id).value >= 0
    ensures r.Ok? && ParseInt(id).value < |materialsSheet| ==> |r.value| == |materialsSheet| - 1
  {
    match ParseInt(id)
    case None => Err(ServerError)
    case Some(n) =>
      if n < 0 then Err(ServerError)
      else if n < |materialsSheet| then Ok(materialsSheet[..n] + materialsSheet[n + 1..])
      else Ok(materialsSheet)
  }

  /**
   * Deleting material `n` removes exactly the entry update would have rewritten: the entries
   * before it stay, the ones after it move up one place and their ids drop by one.
   */
  lemma DeleteMaterialEffect(materialsSheet: Table, id: string, n: int)
    requires ParseInt(id) == Some(n) && 1 <= n <= |MaterialsList(materialsSheet)|
    ensures var after := MaterialsList(DeleteMaterial(materialsSheet, id).value);
      var before := MaterialsList(materialsSheet);
      && |after| == |before| - 1
      && (forall k :: 0 <= k < n - 1 ==> after[k] == before[k])
      && (forall k :: n - 1 <= k < |after| ==>
            after[k] == before[k + 1].(id := before[k + 1].id - 1))
  {
    var t := DeleteMaterial(materialsSheet, id).value;
    assert t == materialsSheet[..n] + materialsSheet[n + 1..];
    var after := MaterialsList(t);
    var before := MaterialsList(materialsSheet);
    forall k | n - 1 <= k < |after| ensures after[k] == before[k + 1].(id := before[k + 1].id - 1) {
      assert t[k + 1] == materialsSheet[k + 2];
    }
  }

  // ---------------------------------------------------------------------------------------
  // Users

  /** One entry of `/users`: the password column is not part of it. */
  datatype UserView = UserView(nationalId: string, name: string, mosque: string, role: string)

  const DefaultRole: string := "User"

  /** `user[4] || 'User'`. */
  function RoleOf(cell: string): (role: string)
    ensures NonEmpty(role)
    ensures NonEmpty(cell) ==> role == cell
  {
    if NonEmpty(cell) then cell else DefaultRole
  }

  function UserOf(r: Row): UserView {
    UserView(At(r, 0), At(r, 1), At(r, 2), RoleOf(At(r, 4)))
  }

  /** `/users`: every row below the header. */
  function UsersList(usersSheet: Table): (us: seq<UserView>)
    ensures |us| == |DataRows(usersSheet)|
    ensures forall k :: 0 <= k < |us| ==> us[k] == UserOf(usersSheet[k + 1])
  {
    var rows := DataRows(usersSheet);
    seq(|rows|, k requires 0 <= k < |rows| => UserOf(rows[k]))
  }

  /** `/add-user`: four required fields; the password column gets the national id. */
  function AddUser(usersSheet: Table, nationalId: string, name: string, mosque: string, role: string): (r: Result<Table>)
    ensures r.Err? <==> !(NonEmpty(nationalId) && NonEmpty(name) && NonEmpty(mosque) && NonEmpty(role))
    ensures r.Err? ==> r.message == RequiredFieldsError
    ensures r.Ok? ==> |r.value| == |usersSheet| + 1 && At(r.value[|usersSheet|], 3) == nationalId
  {
    if !(NonEmpty(nationalId) && NonEmpty(name) && NonEmpty(mosque) && NonEmpty(role)) then Err(RequiredFieldsError)
    else Ok(usersSheet + [[nationalId, name, mosque, nationalId, role]])
  }

  /** A user added by `/add-user` is listed last by `/users`, with the role given. */
  lemma AddUserListed(usersSheet: Table, nationalId: string, name: string, mosque: string, role: string)
    requires |usersSheet| >= 1
    requires NonEmpty(nationalId) && NonEmpty(name) && NonEmpty(mosque) && NonEmpty(role)
    ensures UsersList(AddUser(usersSheet, nationalId, name, mosque, role).value)
      == UsersList(usersSheet) + [UserView(nationalId, name, mosque, role)]
  {
    var t := AddUser(usersSheet, nationalId, name, mosque, role).value;
    var before := UsersList(usersSheet);
    var after := UsersList(t);
    forall k | 0 <= k < |before| ensures after[k] == before[k] {
      assert t[k + 1] == usersSheet[k + 1];
    }
  }

  /** The list does not depend on the password column: sheets that differ only there list the same users. */
  lemma PasswordHidden(a: Table, b: Table)
    requires |a| == |b|
    requires forall i, c :: 0 <= i < |a| && c != 3 ==> At(a[i], c) == At(b[i], c)
    ensures UsersList(a) == UsersList(b)
  {
    var ua := UsersList(a);
    var ub := UsersList(b);
    forall k | 0 <= k < |ua| ensures ua[k] == ub[k] {
      assert At(a[k + 1], 0) == At(b[k + 1], 0) && At(a[k + 1], 1) == At(b[k + 1], 1);
      assert At(a[k + 1], 2) == At(b[k + 1], 2) && At(a[k + 1], 4) == At(b[k + 1], 4);
    }
  }

  // ---------------------------------------------------------------------------------------
  // `/reports/sheet-data`

  /** `row.some(cell => cell !== '')`. */
  predicate HasContent(r: Row) {
    exists c :: 0 <= c < |r| && NonEmpty(r[c])
  }

  datatype SheetData = SheetData(data: Table, totalRows: nat, totalCols: nat)

  /** `Reports!A:Z` without its blank rows, with the row count and the first row's width. */
  function ReportsSheetData(reports: Table): (d: SheetData)
    ensures d.totalRows == |d.data|
    ensures forall i :: 0 <= i < |d.data| ==> HasContent(d.data[i])
    ensures d.totalCols == if |d.data| == 0 then 0 else |d.data[0]|
  {
    var cleaned := Filter(Window(reports, ReportsSheetWindow), HasContent);
    SheetData(cleaned, |cleaned|, if |cleaned| == 0 then 0 else |cleaned[0]|)
  }

  /**
   * The cleaned rows are the sheet's rows with some content, cut to A:Z, in sheet order, and no
   * such row is dropped.
   */
  lemma SheetDataKeepsContent(reports: Table) returns (idx: seq<int>)
    ensures var w := Window(reports, ReportsSheetWindow);
      var d := ReportsSheetData(reports).data;
      && |idx| == |d|
      && (forall k :: 0 <= k < |idx| ==> 0 <= idx[k] < |reports| && d[k] == Take(reports[idx[k]], ReportsSheetWindow))
      && (forall k, l :: 0 <= k < l < |idx| ==> idx[k] < idx[l])
      && (forall i :: 0 <= i < |reports| && HasContent(w[i]) ==> i in idx)
  {
    idx := FilterPicks(Window(reports, ReportsSheetWindow), HasContent);
  }

  /** Cleaning is idempotent: cleaning the cleaned rows changes nothing. */
  lemma SheetDataIdempotent(reports: Table)
    ensures Filter(ReportsSheetData(reports).data, HasContent) == ReportsSheetData(reports).data
  {
    var w := Window(reports, ReportsSheetWindow);
    FilterFilter(w, HasContent, HasContent, HasContent);
  }

  /** A row with content never loses it to the A:Z cut when its content is in A:Z. */
  lemma ContentInWindow(r: Row, c: nat)
    requires c < ReportsSheetWindow && c < |r| && NonEmpty(r[c])
    ensures HasContent(Take(r, ReportsSheetWindow))
  {
    assert At(Take(r, ReportsSheetWindow), c) == r[c];
  }
}
