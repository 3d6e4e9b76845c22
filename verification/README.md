# Cleaning-material receipts: a Dafny model

The system is an Express backend for a ministry programme that delivers cleaning materials to
mosques. All of its data lives in one Google Sheets spreadsheet. Each delivery is one
"receipt" row of the `AllReceipts` sheet:

- sixteen fixed cells A-P: timestamp, registrar, mosque, governorate, zone, section, workers,
  month, year and the registrar's id again;
- then one quantity cell per material, from column Q on, in the order of the `Materials` sheet.

Around those rows the backend offers:

- **the routes** for registrars (`/add-receipt`, `/receipts`, `/governorates-zones`) and for
  administrators (users, materials, the reports, the receipt search, the raw Reports sheet);
- **the report writer** (`reportsService.js`), which fills the `Reports` sheet with tagged rows:
  a summary, monthly and per-governorate figures, and an allocation table of materials by
  governorate;
- **the reader** (`getReportsData`), which parses those tagged rows back;
- **two setup scripts**, which write the receipt headers and the Reports sheet's header grid.

Every sheet is a `Table`, a sequence of rows of string cells. A read through a range such as
`A:AG` is modelled as `Window`, which cuts every row to the range's width. A cell past the end
of a row reads as the empty string, except where a `Set` collects the cells: there it is
`undefined`, a member apart from the empty string. JavaScript's `parseInt`, `toString`, `padStart`, `split`,
`toLowerCase`, `includes` and truthiness are written out in module `Text`.

The model is organised by module:

| module | file | models |
|---|---|---|
| `Results`, `Text` | `text.dfy` | option and error results; JavaScript string primitives |
| `Sheet` | `sheet.dfy` | rows, windows, row writes, `filter`, `[...new Set()]`, cell sums |
| `Columns` | `columns.dfy` | `getColumnLetter` and the receipt headers of `setupNewAllReceipts.js` |
| `Receipts` | `receipts.dfy` | `/add-receipt`, `/receipts`, `/governorates-zones` |
| `Admin` | `admin.dfy` | users and materials routes, `/reports/sheet-data` |
| `Summary` | `summary.dfy` | `/reports/summary` and `updateSummaryReport` |
| `Grouping` | `grouping.dfy` | the keyed `forEach` aggregation and the comparator sort the reports share |
| `Governorates` | `governorates.dfy` | `/reports/by-governorate`, `/reports/by-mosque`, `updateGovernorateReports` |
| `Monthly` | `monthly.dfy` | `/reports/by-month` and `updateMonthlyReports` |
| `Layout` | `layout.dfy` | which Reports rows each writer uses |
| `Allocation` | `allocation.dfy` | `updateMaterialsByGovernorate` and the `/reports/materials-by-governorate` fallback |
| `ReportsSheet` | `reports_sheet.dfy` | `getReportsData` |
| `ReadBack` | `readback.dfy` | a writer followed by the reader |
| `ReportsSetup` | `reports_setup.dfy` | `setupReportsSheet.js` |
| `Search` | `search.dfy` | `/search-receipts` |

## Model

| member | source | states |
|---|---|---|
| Text.ParseIntToString | backend/services/reportsService.js:277-294 | a number written with `toString` and read back with `parseInt` is the same number |
| Text.IntToStringInjective | backend/services/reportsService.js:86 | different integers have different decimal texts |
| Text.ParsePaddedNat | backend/services/reportsService.js:86 | a month padded to two digits with `padStart` still reads back as that month |
| Text.Split | backend/routes/admin.js:238 | `split` always returns at least one piece |
| Text.SplitAt | backend/routes/admin.js:238 | splitting at the first separator returns the text before it whole, then splits the rest |
| Text.Lower | backend/routes/admin.js:508-520 | lower-casing keeps the length and maps each character on its own |
| Text.LowerIdempotent | backend/routes/admin.js:508-520 | lower-casing twice is the same as lower-casing once |
| Text.ContainsAt | backend/routes/admin.js:508-520 | `includes` holds exactly when the needle occurs at some offset of the text |
| Sheet.DataRows | backend/routes/admin.js:38 | `slice(1)` drops the header row and keeps every other row in order |
| Sheet.Window | backend/routes/admin.js:148 | a ranged read keeps every row and shows each cell inside the range as stored, cells outside as empty |
| Sheet.WriteRow | backend/services/reportsService.js:54 | an update writes its cells at the addressed row; all other rows, and the row's cells past the written ones, keep their old values |
| Sheet.WriteRowsEffect | backend/services/reportsService.js:116-118 | writing a block of rows from row `first` on places each row at `first + i` and leaves every row outside the block as it was |
| Sheet.FilterPicks | backend/routes/admin.js:506-533 | `filter` keeps exactly the passing elements, in their original order |
| Sheet.FilterFilter | backend/routes/admin.js:506-533 | filtering twice is the same as filtering once by both tests |
| Sheet.Distinct | backend/services/reportsService.js:182 | `[...new Set(s)]` holds each value of `s` exactly once |
| Sheet.DistinctKeepsOrder | backend/services/reportsService.js:182 | values keep the order of their first appearance |
| Sheet.NonEmptyOnly | backend/setupReportsSheet.js:194 | `filter(x => x)` keeps exactly the non-empty values |
| Sheet.SumCellsSplit | backend/routes/admin.js:175-178 | a sum over a column range splits at any column inside it |
| Columns.ColumnLetter | backend/setupNewAllReceipts.js:67-75 | a column name is made of capital letters, and is empty exactly when the column number is not positive |
| Columns.GetColumnLetter | backend/setupNewAllReceipts.js:67-75 | the loop computes the column name, and reading that name back gives the column number |
| Columns.ColumnNumberOfLetter | backend/setupNewAllReceipts.js:67-75 | base-26 reading (A = 1 .. Z = 26) inverts the column name |
| Columns.ColumnLetterOfNumber | backend/setupNewAllReceipts.js:67-75 | every name made of capital letters is produced, by exactly its own number |
| Columns.ColumnLetterInjective | backend/setupNewAllReceipts.js:67-75 | different columns get different names |
| Columns.ColumnLetterExamples | backend/setupNewAllReceipts.js:67-75 | 1, 26, 27, 52 and 53 are named A, Z, AA, AZ and BA |
| Columns.SingleLetter | backend/setupNewAllReceipts.js:67-75 | for columns 1 to 26 the name is the single character with code `64 + col` |
| Columns.MaterialNames | backend/setupNewAllReceipts.js:34 | one name per material row, in order: the row's first cell, or the default name when that cell is empty |
| Columns.AllHeaders | backend/setupNewAllReceipts.js:42-60 | the receipt headers are the nine fixed headers, the worker's id and the phone, then one header per material |
| Columns.LastColumn | backend/setupNewAllReceipts.js:77 | the last header's column name reads back as `11 + m` for `m` materials |
| Receipts.AddReceipt | backend/routes/user.js:13-55 | rejected with the 400 message exactly when a required field is missing; the second worker is optional. Otherwise the row holds the sixteen fixed cells in column order (registrar id in B and P, month in N, year in O), then one slot per material row |
| Receipts.MaterialSlots | backend/routes/user.js:24-32 | one slot per material. Slot `i` holds the quantity of the last entry naming id `i + 1`, "0" when that quantity is blank, and "0" when no entry names it |
| Receipts.FixedPart | backend/routes/user.js:35-52 | the sixteen cells A-P are the timestamp, the registrar, the form's fields in order, month, year and the registrar's id again |
| Receipts.AddReceiptPlacesEntry | backend/routes/user.js:27-32 | an entry with id `k` in 1..m that no later entry overrides lands in column `16 + k - 1` |
| Receipts.OutOfRangeIgnored | backend/routes/user.js:28-29 | an entry whose id is outside 1..m changes nothing |
| Receipts.ReceiptLines | backend/routes/user.js:87-97 | one line per material, in id order, each holding its column's cell or "0" |
| Receipts.UserReceipts | backend/routes/user.js:82-118 | exactly the rows whose column B is the caller's id, in sheet order, each decoded |
| Receipts.UserReceiptsPicks | backend/routes/user.js:82-86 | the answer is the caller's data rows at increasing positions, every row with the caller's id is among them, and each view decodes its own row |
| Receipts.EveryMaterialShown | backend/routes/user.js:87-97 | every returned receipt lists all materials 1..m, whatever its cells hold |
| Receipts.QuantityAlwaysShown | backend/routes/user.js:89-91 | the display test holds for every value `r[c] \|\| 0` can take |
| Receipts.OwnReceiptReturned | backend/routes/user.js:82-114 | a row `/add-receipt` wrote belongs to its registrar and decodes to the mosque, governorate, month and year submitted; appended below the header, it adds exactly its own view, last, to what `/receipts` answers that registrar |
| Receipts.GroupZones | backend/routes/user.js:137-144 | a governorate is a key exactly when some row names it with a zone; its zones are listed in sheet order, duplicates kept |
| Receipts.ZonesNonEmpty | backend/routes/user.js:138 | neither keys nor zones are ever empty |
| Admin.QuantityOf | backend/routes/admin.js:79 | an empty quantity cell is 0; any other cell is its parsed number, or NaN |
| Admin.MaterialsList | backend/routes/admin.js:75-80 | one entry per data row of the Materials sheet, in order; entry `k` has id `k + 1` and its own row's name, unit and quantity |
| Admin.AddMaterial | backend/routes/admin.js:57-61 | rejected with the 400 message exactly when the name, unit or quantity is missing |
| Admin.AddMaterialListed | backend/routes/admin.js:57-61 | an added material is listed last, with the next id and its own fields |
| Admin.UpdateMaterial | backend/routes/admin.js:95-100 | missing fields give the 400 message. The write succeeds exactly when the id parses to a row number that is not negative |
| Admin.UpdateMaterialEffect | backend/routes/admin.js:95-100 | updating material `n` replaces that entry's fields and leaves every other entry as it was |
| Admin.DeleteMaterial | backend/routes/admin.js:112-117 | refused for an id that is not a number or is negative; otherwise the addressed row, when there is one, is removed |
| Admin.DeleteMaterialEffect | backend/routes/admin.js:112-117 | deleting material `n` keeps the entries before it and moves every later entry up one place with its id lowered by one |
| Admin.RoleOf | backend/routes/admin.js:42 | a role is never empty: the cell's value, or "User" |
| Admin.UsersList | backend/routes/admin.js:38-43 | one user per data row of the Users sheet, in order |
| Admin.AddUser | backend/routes/admin.js:12-23 | rejected with the 400 message exactly when a field is missing; otherwise one row is appended with the national id as the password |
| Admin.AddUserListed | backend/routes/admin.js:17-23 | an added user is listed last with the id, name, mosque and role given |
| Admin.PasswordHidden | backend/routes/admin.js:38-43 | the user list does not depend on the password column |
| Admin.ReportsSheetData | backend/routes/admin.js:545-556 | every returned row has content; the row count is the number of rows returned, and the width is that of the first |
| Admin.SheetDataKeepsContent | backend/routes/admin.js:548-550 | the rows returned are the A:Z rows with content, in sheet order, and none of those rows is dropped |
| Admin.SheetDataIdempotent | backend/routes/admin.js:548-550 | cleaning the cleaned rows changes nothing |
| Admin.ContentInWindow | backend/routes/admin.js:545-550 | a row with a non-empty cell within A:Z is never dropped |
| Summary.ReportRows | backend/routes/admin.js:148 | the reports see every data row of `AllReceipts`, cut to columns A:AG |
| Summary.ScanComputes | backend/routes/admin.js:160-180 | the single pass counts timestamped rows and adds their first `m` material cells. It collects their mosques, governorates and first and second workers |
| Summary.ComputeSummary | backend/routes/admin.js:146-189 | each summary figure is its count over the timestamped rows. The user count is the data rows of the Users sheet |
| Summary.BlanksCountedApart | backend/routes/admin.js:163-164 | an empty governorate cell and a row that ends before the governorate column count as two distinct governorates |
| Summary.SummaryBounds | backend/routes/admin.js:160-172 | there are no more mosques or governorates than receipts, and no more than two workers per receipt |
| Summary.LateMaterialsUncounted | backend/routes/admin.js:175-178 | with 17 or more materials, the total equals the total of the first 17: later quantity columns lie past AG and are never read |
| Summary.SummaryReportRow | backend/services/reportsService.js:36-52 | eleven cells under the summary tag; the average is "0" without receipts and the formatted average otherwise |
| Summary.UpdateSummaryReport | backend/services/reportsService.js:19-54 | the computed summary is written to the second row, and every other row is left as it was |
| Grouping.Aggregate | backend/routes/admin.js:271-285 | one group per key, each key once. A group's count and total are those of the rows carrying its key; together they account for every qualifying row |
| Grouping.AggregateGroup | backend/routes/admin.js:271-285 | each group counts exactly its key's rows (at least one) and sums exactly their materials |
| Grouping.BumpCounts | backend/routes/admin.js:274-283 | adding a row bumps its key by one receipt and its materials, and no other key |
| Grouping.BumpUnique | backend/routes/admin.js:274-283 | adding a row never duplicates a key |
| Grouping.SortMembers | backend/routes/admin.js:291 | sorting is a permutation of the groups |
| Grouping.SortSums | backend/routes/admin.js:291 | sorting keeps the sums of counts and totals |
| Grouping.SortUnique | backend/routes/admin.js:291 | sorting keeps the keys unique |
| Grouping.SortSorted | backend/routes/admin.js:291 | sorting by a total preorder yields a sorted list |
| Grouping.ByTotalDescendingIsPreorder | backend/routes/admin.js:291 | larger-total-first is a total preorder, so the comparator sort is well defined |
| Grouping.SortedReport | backend/routes/admin.js:287-291 | the report is the aggregation permuted so that totals never increase down the list |
| Governorates.ColumnKey | backend/routes/admin.js:272-273 | a row takes part exactly when it has a timestamp and a value in the column, and is keyed by that value |
| Governorates.KeysArePresentValues | backend/routes/admin.js:272-277 | the report's keys are the non-empty column values of timestamped rows |
| Governorates.ByColumn | backend/routes/admin.js:271-291 | governorates (and, with column D, mosques at admin.js:429-449) each appear once, largest total first. Each one carries its own rows' count and material total |
| Governorates.CountKeyIsFilter | backend/routes/admin.js:272-277 | a key's count is the number of timestamped rows holding that value in the column |
| Governorates.SummaryCountsEmptyKey | backend/routes/admin.js:163-164 | the summary's distinct values are the column report's keys, plus the empty text when a timestamped row holds an empty cell there, plus `undefined` when one ends before the column |
| Governorates.PresentValuesCounted | backend/routes/admin.js:163-164 | when every timestamped row has a value in the column, the summary's distinct values match the column report's keys one for one |
| Governorates.TotalsAgree | backend/routes/admin.js:280-283 | when every timestamped row has the value and ends within its materials, the report's total equals the summary's |
| Governorates.SummaryAgreesWithGovernorates | backend/routes/admin.js:280-283 | under those conditions the by-governorate totals and key count match the summary's |
| Governorates.SummaryDisagreesOnOverlongRow | backend/routes/admin.js:280-283 | a row with a quantity one column past the materials counts in the by-governorate total but not in the summary |
| Governorates.GovernorateGroups | backend/services/reportsService.js:134-148 | the writer's governorate groups are the route's groups, in first-appearance order |
| Governorates.GovernorateReportRow | backend/services/reportsService.js:150-156 | five cells under the governorate tag, naming the governorate |
| Governorates.GovernorateReportRows | backend/services/reportsService.js:150-156 | one row per governorate group, in order |
| Governorates.UpdateGovernorateReports | backend/services/reportsService.js:159-161 | governorate row `i` is written to sheet row `7 + i`, and every other row is left as it was |
| Monthly.MonthKeyOf | backend/services/reportsService.js:83-86 | a row takes part exactly when it has a timestamp, a month and a year |
| Monthly.MonthName | backend/routes/admin.js:239 | months 1-12 get their names; anything else gets the unknown-month text |
| Monthly.MonthKeyRoundTrip | backend/routes/admin.js:237-238 | a key splits back into the year and padded month that built it, and both read back as those numbers |
| Monthly.MonthKeyInjective | backend/services/reportsService.js:86 | different (year, month) pairs get different keys |
| Monthly.PeriodOfKey | backend/routes/admin.js:237-241 | the period shown is the month's name, a space, then the year |
| Monthly.MonthlyGroups | backend/services/reportsService.js:82-99 | one group per (year, month), each key once, each with its own rows' count and total; together they account for every dated row |
| Monthly.GroupKeysFromRows | backend/services/reportsService.js:86-91 | every group's key comes from some dated row |
| Monthly.AsPeriods | backend/routes/admin.js:237-244 | each group is shown under its period, with its count and total unchanged |
| Monthly.ByMonthAsWritten | backend/routes/admin.js:237-255 | the route returns a permutation of the month groups shown as periods |
| Monthly.KeyYearPiece | backend/routes/admin.js:238 | the piece of a key before its first dash is the year's digits, or empty for a negative year |
| Monthly.PeriodWords | backend/routes/admin.js:239-248 | the first word of any period the route builds reads as NaN, and its second word is no month name |
| Monthly.ComparatorAlwaysNaN | backend/routes/admin.js:245-254 | for any two periods the route can build, whatever integers the month and year cells hold, the comparator returns NaN |
| Monthly.SortKeepsOrder | backend/routes/admin.js:245 | a comparator that never asks for a swap leaves the list as it was |
| Monthly.AsWrittenKeepsOrder | backend/routes/admin.js:245-255 | the route returns the months in first-appearance order, not newest first |
| Monthly.NewestFirstIsPreorder | backend/routes/admin.js:246 | the corrected comparator is a total preorder |
| Monthly.ByMonthSorted | backend/routes/admin.js:245-246 | the corrected route returns the month groups, sorted newest first, shown as periods |
| Monthly.SortedNewestFirst | backend/routes/admin.js:246 | the corrected order puts a later year first, and within a year the later month first |
| Monthly.MonthlyReportRow | backend/services/reportsService.js:102-113 | six cells under the monthly tag |
| Monthly.MonthlyReportRows | backend/services/reportsService.js:102-113 | one row per month group, in first-appearance order |
| Monthly.UpdateMonthlyReports | backend/services/reportsService.js:116-118 | monthly row `i` is written to sheet row `5 + i`, and every other row is left as it was |
| Layout.MaterialRowIndex | backend/services/reportsService.js:235-251 | the material rows start at row 9 |
| Layout.MaterialRowsDistinct | backend/services/reportsService.js:235-251 | each (material, governorate) pair gets its own row |
| Layout.MonthlyMeetsGovernorates | backend/services/reportsService.js:116-161 | the monthly rows overlap the governorate rows exactly when there are three or more months and at least one governorate |
| Layout.GovernoratesMeetMaterials | backend/services/reportsService.js:159-251 | the governorate rows overlap the material rows exactly when there are three or more governorates and at least one material |
| Allocation.MaterialOf | backend/services/reportsService.js:176-180 | a material's name is never empty; its allocation per mosque is its quantity cell read as a number, or 0 |
| Allocation.Materials | backend/services/reportsService.js:176-180 | one material per data row of the Materials sheet, in order |
| Allocation.NamesAreHeaderNames | backend/services/reportsService.js:176-177 | the report's material names are the names the setup script writes as receipt headers |
| Allocation.ReportGovernorates | backend/services/reportsService.js:182 | each non-empty governorate appearing in column E, once each |
| Allocation.CountLoopCounts | backend/services/reportsService.js:185-197 | the loop counts, for every listed governorate, exactly its timestamped receipts |
| Allocation.Max0 | backend/services/reportsService.js:228 | `Math.max(0, x)` is never negative, never below `x`, and is either 0 or `x` |
| Allocation.InitRow | backend/services/reportsService.js:204-212 | each listed governorate starts with the per-mosque quantity times its receipts, and nothing received or owed |
| Allocation.InitGrid | backend/services/reportsService.js:202-214 | one entry per material name, each holding exactly the listed governorates |
| Allocation.InitGridLastWins | backend/services/reportsService.js:202-203 | of two materials sharing a name, the later one's allocation is kept |
| Allocation.Settle | backend/services/reportsService.js:226-228 | receiving adds the amount and keeps the allocation; what is owed becomes the allocation less what was received, never below zero |
| Allocation.AddReceived | backend/services/reportsService.js:225-229 | only an existing (material, governorate) entry is updated; every other entry is unchanged |
| Allocation.ProcessMaterialsEffect | backend/services/reportsService.js:221-230 | one receipt adds its cells to the entries of its governorate under their materials' names, settles those, and leaves the rest alone |
| Allocation.ProcessRowsReceived | backend/services/reportsService.js:217-232 | after all receipts, each entry has received everything its governorate's timestamped receipts hold for its name |
| Allocation.ProcessRowsSettles | backend/services/reportsService.js:217-232 | after all receipts, each entry is settled, or else untouched because its governorate had no timestamped receipt |
| Allocation.GridCell | backend/services/reportsService.js:202-232 | an entry's allocation is the last same-named material's quantity times the receipts. It has received that name's cells and is settled |
| Allocation.EntryProcessed | backend/services/reportsService.js:217-232 | processing keeps an entry's allocation and adds its receipts; the entry ends settled or untouched |
| Allocation.ComputeReport | backend/services/reportsService.js:171-214 | the report lists the material names in sheet order and the governorates in first-appearance order |
| Allocation.ReportShape | backend/services/reportsService.js:199-214 | the table has an entry for every material name and, under each, every listed governorate and nothing else |
| Allocation.CellFacts | backend/services/reportsService.js:202-232 | every entry holds its allocation, what was received under its name, and what is owed |
| Allocation.DistinctNamesCell | backend/routes/admin.js:357-389 | with distinct names, material `j` receives exactly column `16 + j` of its governorate's receipts and owes `max(0, allocated - received)` |
| Allocation.DuplicateNamesMerge | backend/services/reportsService.js:221-226 | two materials with one name share one entry: the second one's allocation, and both columns as received |
| Allocation.UntimedGovernorate | backend/services/reportsService.js:182-197 | a governorate whose receipts all lack a timestamp is still listed, with all zeros |
| Allocation.MaterialReportRow | backend/services/reportsService.js:238-247 | seven cells under the material tag, naming the governorate and the material |
| Allocation.MaterialReportRows | backend/services/reportsService.js:235-251 | one row per (material, governorate) pair, governorates inside materials |
| Allocation.MaterialRowAt | backend/services/reportsService.js:235-251 | the row for material `j` in governorate `g` is row `j * \|G\| + g` of the block |
| Allocation.UpdateMaterialsByGovernorate | backend/services/reportsService.js:171-258 | the writer returns the computed report, complete for every material and governorate |
| Allocation.MaterialRowsPlaced | backend/services/reportsService.js:235-251 | the row for material `j` in governorate `g` lands at sheet row `9 + j * \|G\| + g`, and rows outside the block are left as they were |
| ReportsSheet.KindOf | backend/services/reportsService.js:275-296 | a row is a summary, monthly, governorate or material row exactly when it carries that tag at or below that section's first row |
| ReportsSheet.Put | backend/services/reportsService.js:302-309 | storing an entry makes it readable under its material and governorate |
| ReportsSheet.PutElsewhere | backend/services/reportsService.js:302-309 | storing an entry leaves every other entry alone |
| ReportsSheet.TaggedSummary | backend/services/reportsService.js:276-283 | the summary is read only from the second row, and only when that row carries the summary tag |
| ReportsSheet.TaggedLists | backend/services/reportsService.js:284-295 | the monthly and governorate lists are the tagged rows from their first section rows down, in sheet order |
| ReportsSheet.LastMaterialRow | backend/services/reportsService.js:296-311 | the last material row for a (material, governorate) pair, when there is one |
| ReportsSheet.TaggedMaterials | backend/services/reportsService.js:296-311 | a pair has an entry exactly when some material row names it, and the entry comes from the last such row |
| ReportsSheet.HeaderFrom | backend/services/reportsService.js:321-326 | the governorates read from the header are never empty |
| ReportsSheet.LastIndexOf | backend/services/reportsService.js:336-351 | the last position of a governorate in the header list |
| ReportsSheet.GridRowEntry | backend/services/reportsService.js:336-351 | one grid row sets its material's entry for every listed governorate from that governorate's last header position, and nothing else |
| ReportsSheet.GridEntry | backend/services/reportsService.js:331-353 | after the grid pass, a named material in a listed governorate holds the cells of the last row with that name. Every other entry is what the tagged rows gave |
| ReportsSheet.GetReportsData | backend/services/reportsService.js:266-367 | the summary and the two lists come from the tagged pass over A:Z |
| ReportsSheet.AnyNamedRowIsMaterial | backend/services/reportsService.js:329-340 | once the header names a governorate, any row from 5 to 50 with something in column A is read as a material, tagged report rows included |
| ReportsSheet.EmptyHeaderShift | backend/services/reportsService.js:321-340 | an empty header cell shifts every later governorate onto the columns of the one before it |
| ReadBack.EntryParses | backend/services/reportsService.js:284-295 | a row holding a key, count and total as text reads back as that entry |
| ReadBack.SummaryReadBack | backend/services/reportsService.js:276-283 | the summary written by `updateSummaryReport` reads back with the counts and totals computed |
| ReadBack.MonthlyReadBack | backend/services/reportsService.js:284-289 | every month written reads back with its period, count and total |
| ReadBack.GovernorateReadBack | backend/services/reportsService.js:290-295 | every governorate written reads back with its name, count and total |
| ReadBack.MonthlyRowReadAsMaterial | backend/services/reportsService.js:329-340 | once the header names a governorate, the first monthly row is also read as a material named after the monthly tag |
| ReadBack.MaterialRowParses | backend/services/reportsService.js:296-310 | a written material row reads back as the entry it was made from |
| ReadBack.ReportReadBack | backend/services/reportsService.js:296-311 | with distinct names and governorates and no stale material rows below, every written entry reads back exactly |
| ReadBack.MaterialReadBack | backend/services/reportsService.js:235-311 | `updateMaterialsByGovernorate` and then the reader give back every computed entry, under the same conditions |
| ReportsSetup.DemoSummaryRow | backend/setupReportsSheet.js:94-113 | the placeholder summary is eleven cells under the summary tag, with zeros in the figures |
| ReportsSetup.Cap | backend/setupReportsSheet.js:157 | `slice(0, 10)` keeps a prefix of at most ten elements, and the whole list when it is short enough |
| ReportsSetup.SetupGovernorates | backend/setupReportsSheet.js:155-157 | at most ten governorates, each non-empty and listed once |
| ReportsSetup.SetupMatchesReport | backend/setupReportsSheet.js:155-157 | the setup's governorates are the first ten of the report writer's list |
| ReportsSetup.GovernorateHeaders | backend/setupReportsSheet.js:160-164 | each governorate's name is followed by two blanks |
| ReportsSetup.SubHeaders | backend/setupReportsSheet.js:161-165 | the materials label, then the allocated, received and not-received labels per governorate |
| ReportsSetup.RangeEndPastZ | backend/setupReportsSheet.js:171 | the range letter is a letter only up to eight governorates; nine and ten give `\` and `_` |
| ReportsSetup.RangeEnd | backend/setupReportsSheet.js:181 | the corrected name of the last sub-header column reads back as `1 + 3n` |
| ReportsSetup.RangeEndAgrees | backend/setupReportsSheet.js:171 | up to eight governorates the script's letter is the right column name |
| ReportsSetup.SetupMaterialNames | backend/setupReportsSheet.js:194 | the listed material names are never empty |
| ReportsSetup.SetupNamesAreMaterialNames | backend/setupReportsSheet.js:194 | when every material has a name, the list is exactly the receipt-header names |
| ReportsSetup.MaterialColumnRows | backend/setupReportsSheet.js:197 | one single-cell row per material |
| ReportsSetup.PlaceNames | backend/setupReportsSheet.js:196-207 | material `k`'s name goes to column A of row `5 + k`, and the first four rows are left as they were |
| ReportsSetup.SectionHeaders | backend/setupReportsSheet.js:72-146 | the placeholder summary lands in the second row; the third row, the fifth and every row from the seventh on are not touched |
| ReportsSetup.GridHeaders | backend/setupReportsSheet.js:159-186 | the governorate headers land in the third row, and cells past them keep their old values; the sub-headers land in the fourth row |
| ReportsSetup.HeadersWritten | backend/setupReportsSheet.js:72-186 | after the header writes the second row holds the placeholder summary, the third the governorate headers and the fourth the sub-headers |
| ReportsSetup.SetupReports | backend/setupReportsSheet.js:72-207 | with the range end corrected, the setup leaves the placeholder summary, the governorate headers, the sub-headers and material `k`'s name in column A of row `5 + k` |
| ReportsSetup.SetupReportsAsWritten | backend/setupReportsSheet.js:169-224 | as written, the setup exits with an error exactly when there are more than eight governorates; otherwise it does what the corrected setup does |
| ReportsSetup.SetupAbortsPastEight | backend/setupReportsSheet.js:169-224 | with nine or ten governorates the script exits after the section headers: the summary reads as zeros, and the third row, the fifth row and the rows from the seventh on are left as they were |
| ReportsSetup.RangeCoversHeaders | backend/setupReportsSheet.js:169-186 | the corrected range ends exactly at the last sub-header, past the last governorate header |
| ReportsSetup.MaterialColumnPlaced | backend/setupReportsSheet.js:196-207 | each material's name lands in column A of its row |
| ReportsSetup.HeaderRoundTrip | backend/setupReportsSheet.js:163-176 | up to nine governorates, the reader gets back exactly the header's governorates; nine are reached only with the range end corrected |
| ReportsSetup.TenthGovernorateUnread | backend/setupReportsSheet.js:157-164 | with the range end corrected, a tenth governorate's name sits in column AB, past the A3:Z3 the reader looks at, so it is never read |
| ReportsSetup.SetupSummaryReadsZero | backend/setupReportsSheet.js:94-113 | after the setup, the reader sees a summary of zeros |
| ReportsSetup.SetupHeaderReadBack | backend/setupReportsSheet.js:169-176 | after the corrected setup, the reader lists exactly the setup's governorates, provided the old third row was no longer |
| ReportsSetup.SetupMaterialsListed | backend/setupReportsSheet.js:196-207 | after the corrected setup, each material in the first 46 rows is a key of the grid the reader builds |
| Search.Candidates | backend/routes/admin.js:473-484 | one candidate line per material, in order |
| Search.DecodeAll | backend/routes/admin.js:469-504 | every data row of A:AI, decoded in order |
| Search.Stages | backend/routes/admin.js:506-533 | the route applies eight filters |
| Search.ApplyIsFilter | backend/routes/admin.js:506-533 | applying the filters one after another keeps the receipts that pass every active filter |
| Search.StagesAreMatches | backend/routes/admin.js:506-533 | the eight filters ask exactly what the conjunctive match asks |
| Search.SearchIsConjunction | backend/routes/admin.js:506-533 | the result is the decoded receipts that match every present query field |
| Search.SearchKeepsOrder | backend/routes/admin.js:506-535 | the result is the matching receipts, none missing, in sheet order |
| Search.MatchingPicks | backend/routes/admin.js:506-533 | the matching receipts sit at increasing positions of the decoded sheet |
| Search.EmptyQueryKeepsAll | backend/routes/admin.js:506-533 | an empty query returns every decoded receipt |
| Search.CaseFolding | backend/routes/admin.js:508-520 | the text filters ignore letter case on both sides; the phone filter does not |
| Search.QuantityOfFiltered | backend/routes/admin.js:477-483 | a material is listed exactly when its quantity is positive |
| Search.FoundLinesShape | backend/routes/admin.js:473-484 | the listed materials are the delivered ones in id order, each with its own name and its own column's quantity |
| Search.FoundLinesPicked | backend/routes/admin.js:473-484 | the listed materials are candidates at increasing positions, each delivered |
| Search.DecodeAddedFields | backend/routes/admin.js:486-501 | decoding a row `/add-receipt` wrote gives back every form field, month and year included, when month and year are read from where they were written |
| Search.DecodeAddedMaterials | backend/routes/admin.js:473-484 | the decoded receipt lists each submitted positive quantity of the first 19 materials, and nothing else |
| Search.SubmittedQuantity | backend/routes/user.js:30 | a blank submitted quantity reads as 0 |
| Search.PeriodColumnsMisread | backend/routes/admin.js:500-501 | the route as written reads the form's year as the month and the registrar's id as the year |
| Search.YearSearchMissesOwnReceipt | backend/routes/admin.js:531-533 | a year search finds a freshly added receipt with the corrected columns and misses it as written |

## Left out

- The Google Sheets client (`sheetsService.js`), its API errors and the sheets' grid limits: every read is a `Table` passed in and every write a pure table update.
- The clock: `new Date().toISOString()` is the `timestamp` or `now` parameter.
- `toFixed(1)` and the average's division are the `formatAverage` parameter, because the model has no floating point.
- Sheet.SumCells: `parseFloat` reads whole numbers only; fractional quantities and exponent notation are not modelled. The same integer reading (`Text.Num`) stands for every `parseFloat` of a cell: reportsService.js:31, 95, 144, 179, 223, 283 and 338-340, and admin.js:79, 135, 176, 231, 281, 336, 380, 439 and 475.
- ReportsSheet.SummaryOf: the average cell is read with the integer reading, so an average such as "2.5" reads as 2, where `parseFloat` gives 2.5.
- ReadBack.SummaryReadBack: the average read back is the integer prefix of the text `formatAverage` writes, not the fraction `parseFloat` would give.
- ReportsSheet.GridCellOf: fractional allocated, received and not-received cells are read as their integer prefix.
- Allocation.MaterialOf: a fractional quantity per mosque is read as its integer prefix.
- Admin.MaterialsList: a fractional quantity is read as its integer prefix.
- Text.ParseInt: leading white space, `0x` prefixes and digits beyond the leading run are not modelled; `Infinity` is not produced.
- Text.Lower: only ASCII letters are folded; Arabic text has no case, so this covers the data the routes meet.
- The order of JavaScript object keys: groups and maps are kept in first-appearance order. This matches insertion order for string keys that are not array indices.
- Admin.UpdateMaterial: the sheet's refusal of a negative or non-numeric row, and its error text, are one error value; the 500 response is not modelled.
- Admin.DeleteMaterial: an index past the last row is modelled as deleting nothing.
- The try/catch blocks that answer 500 on any thrown error.
- Authentication: `verifyToken`, the admin check, login, bcrypt and JWT issuing.
- `addUser.js`, the migration scripts, `server.js` and the frontend.
- `/reports/materials-by-governorate` reading from the Reports sheet (admin.js:306-323) is `ReportsSheet.GetReportsData`; the route's key lists are taken from object keys, which are not modelled separately.
- The writes at reportsService.js:249 are not awaited. The model applies them in order and ignores any interleaving with other requests.
- `/allocations/:mosque` (admin.js:131-136) maps the Materials rows exactly as `/materials` does; `Admin.MaterialsList` covers both.
- Receipts.AddReceipt: `receivedQuantity` is a string. A JSON number is modelled by its decimal text.
- Receipts.UserReceipts: for an empty or missing quantity cell, `r[columnIndex] || 0` answers the number 0 (user.js:89); the model gives the text "0", so a client cannot tell them apart here.
- ReportsSetup.SetupHeaderReadBack: requires the old third row to be no longer than the new header, since stale cells past it would be read as governorates.
- ReportsSetup.SetupReportsAsWritten: assumes the Sheets service refuses a range whose end is not a column name, such as `A3:\3`; the service itself is not modelled.
- ReadBack.ReportReadBack: requires distinct names and no stale material rows below the block. Otherwise an older row can win, which `DuplicateNamesMerge` and `TaggedMaterials` describe.
- Summary.LateMaterialsUncounted: stated for the A:AG window of the summary and the other reports; `/receipts` and the search read A:AI.
- Console logging.

## Findings

| source | as written | input that shows it | evidently intended | confidence | as-written member | corrected member |
|---|---|---|---|---|---|---|
| backend/routes/admin.js:500-501 | the search decodes month from `r[14]` and year from `r[15]` | any receipt from `/add-receipt`, which writes month to `r[13]` and year to `r[14]`, with year `2024` and a registrar id other than 2024: searching `year=2024` returns nothing | month from `r[13]`, year from `r[14]` | not executed | Search.YearSearchMissesOwnReceipt | Search.DecodeAddedFields |
| backend/setupReportsSheet.js:171 | the range end is `String.fromCharCode(65 + subHeaders.length - 1)` | nine or ten governorates (the list allows ten) give `\` or `_`, which is not a column name: the update fails and the script exits before the grid header, the sub-headers and the material names | the name of column `1 + 3n`, as `getColumnLetter` would give | not executed | ReportsSetup.SetupAbortsPastEight | ReportsSetup.SetupReports |
| backend/routes/admin.js:245-255 | the comparator splits `"<month name> <year>"` as `[year, month]`, so it compares month names with `parseInt` | any two periods, e.g. January 2024 and March 2025: the comparator returns NaN, so the months stay in first-appearance order | newest first by year, then by month | not executed | Monthly.AsWrittenKeepsOrder | Monthly.ByMonthSorted |
