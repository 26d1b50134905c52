# Order tracking back end: a Dafny model of its stock and order core

The order tracking back end is a small web service with a few maintenance
scripts. It sells bottled product. Each unit carries its own GTS barcode and
is packed into a package (a box) that has its own barcode. The service keeps
two databases:

- the products database, one row per unit, read and written by the GTS
  endpoints and filled and refreshed by the scripts under `gts/`;
- the orders database, holding the legacy `order` table, the `client_order`
  table and the `payment_log` table.

This project models the following parts of that core:

- **The products table** (`product_table.dfy`). Rows with the barcode as
  primary key. The two filtered queries, by unit barcode and by package
  barcode. The package keys in first-appearance order.
- **The package report** served at `/api/products` (`package_report.dfy`):
  - units grouped by package;
  - per package: completion, pending volume, warehouse and stock flag;
  - totals over all units;
  - the (size, pending) frequency table and the detailed summary built from
    it, largest first;
  - the package list ordered by the key `(not all_gts_done, count)`.
- **The GTS lookups** `get_gts_status`, `get_product_details` and
  `update_product` (`gts_lookup.dfy`). A code is first looked up as a unit
  barcode and, only when no unit has it, as a package barcode.
- **The stock refresh script** `gts/update_stocks.py` (`stock_refresh.dfy`).
  It resets every unit to warehouse `ENDER`, out of stock. Then each row of
  the stock listing puts one package back in stock at the warehouse that row
  names. The listing is read as pandas reads it: as wide as its first line,
  with short lines padded with NaN, and unreadable when a line is longer. A
  row that raises ends the file.
- **The CSV import script** `gts/save_to_db.py` (`csv_import.dfy`):
  - a file is imported only when it has exactly the 8 expected columns;
  - a line whose QR code is known changes nothing;
  - a line with a new QR code adds a record with order id `""`, amount
    0.25 L and GTS not done.
- **The orders database** (`orders_db.dfy`) and two of its endpoints
  (`order_update.dfy`):
  - `update_order`, a partial update in which every absent key keeps its
    field, and which the commit rejects when it writes `null` into a
    required column;
  - `add_payment`, which logs a payment and lowers the client order's
    remaining amount by it.
- **The one-off patch script** `gts/update_orders.py` (`client_order_patch.dfy`).
- **The upload file-name check** `allowed_file` (`uploads.dfy`).

### How the model is built

Database tables are sequences in query order. Their primary keys are ghost
uniqueness predicates kept as class invariants (`Valid`). Each script and
endpoint that changes rows is a module-level method that takes the
database object as a parameter and modifies its table fields. The database
classes are:

- `ProductTable.ProductDb`
- `CsvImport.ImportDb`
- `OrdersDb.OrdersDb`

Each such method is specified by a pure function of the old table. Lemmas
about that function carry the properties: what is kept, what is written,
idempotence, the last line winning, and conservation of money.

Several Python conventions are written out explicitly:

- A flag counts as true only when it is `True` (`Truthy`). `None` is falsy.
- `x or 0` and `data.get(key, old)` become `Option.GetOr`.
- `retVal and p.is_gts_done` returns the first falsy flag itself, not
  `False` (`GtsLookup.PackageFlag`).

Amounts are whole centilitres, so 0.25 L is `25`. Order quantities are exact
`real`s.

### Sort order

The package list is sorted by the key `(not all_gts_done, count)`. `False`
sorts before `True`, so **complete** packages come first, and within each
half smaller packages come first. See `PackageReport.CompleteBeforeIncomplete`
and `PackageReport.SortExample`.

## Model

| member | source | states |
|---|---|---|
| ProductTable.Query | order_tracking_app.py:791-794 | a filtered query returns at most the table's rows, and only rows whose column equals the value |
| ProductTable.QuerySnoc | order_tracking_app.py:791-794 | appending a row extends a query's answer by that row exactly when it matches, so answers keep table order |
| ProductTable.QueryEmpty | order_tracking_app.py:792-794 | a filtered query is empty exactly when no row has that value in the column (the `if not products` fallback) |
| ProductTable.QueryComplete | order_tracking_app.py:791-794 | a filtered query misses no row: every row whose column holds the value is in the answer |
| ProductTable.QueryByKey | order_tracking_app.py:36-51 | because barcode is the primary key, the query by a unit's barcode returns just that unit |
| ProductTable.DistinctPackagesSpec | order_tracking_app.py:856-858 | the grouping keys are exactly the package barcodes that occur, each once |
| ProductTable.AbsentPackageIsEmpty | order_tracking_app.py:856-858 | a package barcode that is not a grouping key has no units |
| ProductTable.ProductDb.constructor | order_tracking_app.py:36-51 | the products table starts from rows with distinct barcodes |
| PackageReport.PackageOf | order_tracking_app.py:868-904 | computes one package's entry from its units: the size, the warehouse and stock flag of the last unit (`""` and false when there is none), the pending amount, `all_gts_done` and the detail records |
| PackageReport.Grouped | order_tracking_app.py:856-907 | computes the unsorted package list: one entry per package barcode, in first-appearance order, built from the units the package query returns |
| PackageReport.Details | order_tracking_app.py:874-882 | each package lists one detail record per unit, in unit order, with that unit's barcode, warehouse, order id, flags and amount |
| PackageReport.UnitTotalIsLength | order_tracking_app.py:885 | counting each unit once gives the number of units |
| PackageReport.DoneAndNotDoneSplitUnits | order_tracking_app.py:887-890 | every unit is counted either as GTS done or as not done, never both |
| PackageReport.AllDoneIffNothingPending | order_tracking_app.py:870-890 | `all_gts_done` holds exactly when no unit of the package is counted as not done |
| PackageReport.DoneUnitAddsNoPending | order_tracking_app.py:887-891 | a unit whose GTS is done adds nothing to the pending amount, wherever it stands |
| PackageReport.GroupedCoversEveryUnit | order_tracking_app.py:856-858 | every unit belongs to exactly one package entry, with distinct package barcodes, and that entry's units are exactly the units with its barcode |
| PackageReport.PartitionTotal | order_tracking_app.py:868-907 | summing any per-unit quantity package by package gives the same as summing it over the table |
| PackageReport.PackageSizesSumToUnits | order_tracking_app.py:885-893 | the package sizes add up to the number of units |
| PackageReport.Insert | order_tracking_app.py:909-911 | computes the list with one entry placed before the first entry whose key is not smaller |
| PackageReport.SortPackages | order_tracking_app.py:909-911 | computes the package list sorted by `(not all_gts_done, count)`, by insertion from the back |
| PackageReport.SortPackagesSorted | order_tracking_app.py:909-911 | the sorted list is ordered by `(not all_gts_done, count)` and is a permutation of the grouped list |
| PackageReport.SortPackagesStable | order_tracking_app.py:909-911 | the sort is stable: entries with the same key keep their grouping order |
| PackageReport.CompleteBeforeIncomplete | order_tracking_app.py:909-911 | every complete package precedes every incomplete one, and within each half sizes do not decrease |
| PackageReport.SortExample | order_tracking_app.py:909-911 | A(2 units, open), B(1, done), C(1, open) sort to B, C, A |
| PackageReport.InsertSorted | order_tracking_app.py:909-911 | inserting one entry into an ordered list keeps it ordered and adds exactly that entry |
| PackageReport.CountSignatureOfMember | order_tracking_app.py:894 | every package's (size, pending) pair has a positive count in the frequency table |
| PackageReport.LargestSignatureExists | order_tracking_app.py:921 | every non-empty set of (size, pending) pairs has a largest one under tuple order |
| PackageReport.EmitLargest | order_tracking_app.py:921-925 | emitting the largest remaining pair (when its pending amount is positive) keeps the lines strictly descending, correctly counted, and covering every pair no longer pending |
| PackageReport.DescendingLines | order_tracking_app.py:921-926 | the detailed summary has one line per pair with positive pending amount, with its count, strictly descending by (size, pending) |
| PackageReport.TallyPackage | order_tracking_app.py:869-904 | one package's entry: its size, pending amount, done and not-done counts, and `all_gts_done` exactly when no unit is not done |
| PackageReport.GroupUnits | order_tracking_app.py:856-858 | the `defaultdict` grouping: keys in first-appearance order, and each key maps to the package's units in table order |
| PackageReport.CounterStep | order_tracking_app.py:894 | adding one package to the counter keeps it equal to the count of each pair among the packages seen |
| PackageReport.AddPackage | order_tracking_app.py:868-907 | one pass of the package loop appends the next grouped entry, adds its units to the four totals and tallies its (size, pending) pair |
| PackageReport.AccumulatePackages | order_tracking_app.py:868-907 | the loop over packages builds the grouped list and the running totals and counter, package by package |
| PackageReport.ProductsGrouped | order_tracking_app.py:847-935 | error exactly for an empty table; otherwise the package list is the sorted grouped list, the totals are the unit, done, not-done and pending totals (done plus not done is the unit count), and the detailed summary is the frequency table's lines |
| PackageReport.TwoPendingUnits | order_tracking_app.py:868-904 | two pending 0.25 L units of one package give one incomplete entry of size 2 with 0.5 L pending |
| GtsLookup.ResolveColumn | order_tracking_app.py:949-954 | computes the column a code is looked up on: the unit barcode when some unit carries it, the package barcode otherwise |
| GtsLookup.Resolved | order_tracking_app.py:949-954 | computes the units a code names: the query on the column it resolves on |
| GtsLookup.ResolvesUnitFirst | order_tracking_app.py:949-951 | a code that is some unit's barcode resolves to that unit alone, by the barcode column |
| GtsLookup.ResolvesPackageOtherwise | order_tracking_app.py:952-954 | a code that is no unit's barcode resolves to the units of the package with that barcode |
| GtsLookup.NothingResolves | order_tracking_app.py:956-957 | nothing resolves exactly when the code is neither a unit barcode nor a package barcode |
| GtsLookup.PackageFlag | order_tracking_app.py:799-801 | computes the folded flag: `True` when every unit is done, and otherwise the first falsy flag itself, `None` or `False` |
| GtsLookup.StatusOf | order_tracking_app.py:791-806 | computes `get_gts_status`'s answer: the first unit's own flag for a unit barcode, the folded flag of the package's units for a package barcode, and an error for an unknown code |
| GtsLookup.FirstFalsy | order_tracking_app.py:798-801 | when not every unit is done, the fold stops at the first unit whose flag is falsy |
| GtsLookup.PackageFlagIsConjunction | order_tracking_app.py:798-801 | the folded flag is truthy exactly when every unit's flag is `True` |
| GtsLookup.PackageFlagSnoc | order_tracking_app.py:800-801 | the fold over one more unit is the Python `and` of the previous value and that unit's flag |
| GtsLookup.GtsStatus | order_tracking_app.py:786-809 | error exactly when nothing resolves; otherwise the reported flag is truthy exactly when every resolved unit is done |
| GtsLookup.ProductDetails | order_tracking_app.py:811-845 | error exactly when no unit has the code as barcode or package barcode; otherwise the resolved units in table order |
| GtsLookup.Assign | order_tracking_app.py:959-961 | every resolved unit gets the new order id and flag, every other unit is unchanged, and the table keeps its length |
| GtsLookup.AssignKeepsKeys | order_tracking_app.py:959-961 | the update keeps barcodes distinct |
| GtsLookup.AssignKeepsColumns | order_tracking_app.py:959-961 | the update writes neither the barcode nor the package barcode of any unit |
| GtsLookup.StatusAfterUnitUpdate | order_tracking_app.py:949-961 | after updating one unit by barcode, its reported status is the flag written |
| GtsLookup.UniformPackageFlag | order_tracking_app.py:798-801 | when every unit of a package carries the same flag, the folded status is that flag |
| GtsLookup.AssignedMembersCarryFlag | order_tracking_app.py:952-961 | after a package update, every unit the package query finds carries the flag written |
| GtsLookup.StatusAfterPackageUpdate | order_tracking_app.py:952-961 | after updating a package, its reported status is the flag written |
| GtsLookup.StatusAfterUpdate | order_tracking_app.py:786-809 | after a successful update of a code, `get_gts_status` of that code reports exactly the flag written |
| GtsLookup.UpdateProduct | order_tracking_app.py:937-971 | not found (reported with the package search type) and no change when nothing resolves; failure and rollback on an exception; otherwise the count of resolved units, the search type, and the assigned table |
| StockRefresh.Cell | gts/update_stocks.py:70 | computes a cell of the frame pandas builds: the field, or NaN (`None`) for an empty field or one past the end of a short line |
| StockRefresh.FrameWidth | gts/update_stocks.py:70 | computes the frame's width, the number of fields of the first line, or none when the read raises: no lines, or a line longer than the first |
| StockRefresh.SameExceptStockKeepsKeys | gts/update_stocks.py:51-65 | a change that writes only warehouse and stock keeps every barcode and package barcode, and so the primary key |
| StockRefresh.SameExceptStockTransitive | gts/update_stocks.py:51-65 | two such changes in a row write only warehouse and stock |
| StockRefresh.ResetAll | gts/update_stocks.py:51-55 | after the reset every unit is in warehouse `ENDER` and out of stock, and no other column changes |
| StockRefresh.ResetAllIdempotent | gts/update_stocks.py:51-55 | resetting twice is resetting once |
| StockRefresh.MarkPackage | gts/update_stocks.py:58-64 | every unit of the row's package is in stock at the row's warehouse cell (NULL for NaN), every other unit is unchanged |
| StockRefresh.MarkPackagePointwise | gts/update_stocks.py:58-64 | each row after marking is that row marked on its own |
| StockRefresh.MarkAbsentPackage | gts/update_stocks.py:58-60 | a row naming no known package changes nothing |
| StockRefresh.ApplyLine | gts/update_stocks.py:57-65 | computes one row's effect in a frame of the given width: it raises when the frame has fewer than two columns; it changes nothing when cell 1 is NaN or no unit has that package; it raises when the frame has fewer than six columns; otherwise it marks the package at cell 5 |
| StockRefresh.AbortsDependsOnPackages | gts/update_stocks.py:58-64 | whether a row raises depends only on the frame's width, the row's cells and which packages exist |
| StockRefresh.ApplyLines | gts/update_stocks.py:81-100 | computes the table after a frame's rows, applied in order, with the first row that raises ending the file |
| StockRefresh.Refresh | gts/update_stocks.py:51-100 | computes the table after the whole script: the reset, then the rows of the listing when it can be read, and the reset alone otherwise |
| StockRefresh.ApplyLinesOnlyStock | gts/update_stocks.py:81-84 | processing the rows writes only warehouse and stock |
| StockRefresh.RefreshOnlyStock | gts/update_stocks.py:51-84 | the whole script writes only warehouse and stock and keeps barcodes distinct |
| StockRefresh.StopsAtFirstAbort | gts/update_stocks.py:81-100 | the rows after the first row that raises have no effect |
| StockRefresh.LastWarehouse | gts/update_stocks.py:81-84 | computes the warehouse cell, possibly NaN, of the last row whose package cell names a package in a frame at least six columns wide, or none |
| StockRefresh.LastWarehouseSpec | gts/update_stocks.py:81-84 | the last warehouse cell for a package is absent exactly when no row names it; otherwise it comes from a row naming it with no later such row |
| StockRefresh.LastNamingLine | gts/update_stocks.py:81-84 | the warehouse that sticks for a package is the one on the last row naming it |
| StockRefresh.LastLineWins | gts/update_stocks.py:81-84 | when the last row names a package, its warehouse is the one that sticks |
| StockRefresh.ApplyLinesEffect | gts/update_stocks.py:57-84 | when no row raises, each unit ends in stock at the last warehouse cell named for its package, or unchanged when none is |
| StockRefresh.ResetKeepsAborts | gts/update_stocks.py:51-64 | the reset makes no row raise that would not raise on the table before it |
| StockRefresh.RefreshEffect | gts/update_stocks.py:51-84 | for a readable listing in which no row raises, each unit ends in stock at the last warehouse cell named for its package, or in `ENDER` out of stock when no row names it |
| StockRefresh.ApplyLinesKeepsUnnamed | gts/update_stocks.py:57-100 | a unit whose package is in no row's package cell keeps its row through the rows, whether or not some row raises |
| StockRefresh.UnnamedStaysReset | gts/update_stocks.py:51-100 | a unit whose package is in no row's package cell ends in `ENDER`, out of stock, with every other column kept, even when a row raises or the listing cannot be read |
| StockRefresh.ShortLinePadded | gts/update_stocks.py:58-84 | in a six-column listing the lines `a;P1;c;d;e;W1`, `x;P1`, `a;P1;c;d;e;W2` leave P1 in stock at W2, the short middle line marking it with a NULL warehouse rather than raising |
| StockRefresh.LongerLineRejectsListing | gts/update_stocks.py:70-100 | a second line longer than the first makes the listing unreadable, so only the reset takes effect |
| StockRefresh.ResetStock | gts/update_stocks.py:51-55 | the reset loop leaves the table equal to the reset table |
| StockRefresh.InsertOrUpdateProduct | gts/update_stocks.py:57-65 | completes exactly when the row does not raise in a frame of the given width, and then commits the marked table; otherwise nothing changes |
| StockRefresh.RefreshStock | gts/update_stocks.py:51-100 | the script leaves the table equal to the reset followed, for a readable listing, by the rows up to the first that raises |
| CsvImport.AttributeName | gts/save_to_db.py:52 | computes `key.lower().replace(' ', '_')` character by character |
| CsvImport.NameLength | gts/save_to_db.py:52 | `key.lower().replace(' ', '_')` keeps the length of a key without a dotted capital I |
| CsvImport.NameShape | gts/save_to_db.py:52 | the attribute name starts with the lower-cased first character of the key |
| CsvImport.NameIsNotColumn | gts/save_to_db.py:52 | a key whose attribute name cannot match any column by length and first character names no column |
| CsvImport.AttributeNamesAreNotColumns | gts/save_to_db.py:51-52 | none of the 8 headings the script gives the columns (line 77), lower-cased with spaces replaced, names a column of the product model (lines 20-33), so the setattr loop writes no column |
| CsvImport.SetAttribute | gts/save_to_db.py:51-52 | setting an attribute that is not a column leaves the record unchanged |
| CsvImport.NewRecord | gts/save_to_db.py:55-67 | computes the record a new QR code inserts: the eight cells in column order, order id `""`, amount 0.25 L and GTS not done |
| CsvImport.FirstWith | gts/save_to_db.py:48 | the lookup by QR code is absent exactly when no record has it, and otherwise points at a record that does |
| CsvImport.Upsert | gts/save_to_db.py:47-69 | the old records are kept as a prefix; a known QR code adds nothing, a new one appends exactly its fresh record; either way the code is present afterwards |
| CsvImport.UpsertKeepsKeys | gts/save_to_db.py:47-69 | the upsert keeps QR codes distinct |
| CsvImport.UpsertIdempotent | gts/save_to_db.py:47-69 | importing the same line twice is importing it once |
| CsvImport.ImportLines | gts/save_to_db.py:88-90 | computes the table after a file's lines, each upserted in order |
| CsvImport.ImportFrame | gts/save_to_db.py:76-99 | computes the table after one file: its lines when it is non-empty with exactly eight columns, and no change otherwise |
| CsvImport.ImportFrames | gts/save_to_db.py:71-106 | computes the table after the files of a run, in the given order |
| CsvImport.RejectedFrameWritesNothing | gts/save_to_db.py:76-99 | an empty file, or one without exactly 8 columns, writes nothing |
| CsvImport.ImportLinesExtends | gts/save_to_db.py:88-90 | importing lines only appends, at most one record per line |
| CsvImport.PresentInExtension | gts/save_to_db.py:88-90 | a code present before an append is present after it |
| CsvImport.ImportLinesCovers | gts/save_to_db.py:88-90 | after the import every line's QR code is present |
| CsvImport.ImportLinesAddsNew | gts/save_to_db.py:55-68 | every appended record is new, and is the fresh record of some line |
| CsvImport.ImportKnownLines | gts/save_to_db.py:49-52 | a file whose every code is known changes nothing |
| CsvImport.ImportLinesIdempotent | gts/save_to_db.py:47-69 | importing a file twice is importing it once |
| CsvImport.ImportLinesKeepsKeys | gts/save_to_db.py:88-90 | importing lines keeps QR codes distinct |
| CsvImport.ImportFramesKeepsKeys | gts/save_to_db.py:71-106 | importing every file keeps QR codes distinct |
| CsvImport.ImportDb.constructor | gts/save_to_db.py:20-36 | the import table starts from records with distinct QR codes |
| CsvImport.InsertOrUpdateProduct | gts/save_to_db.py:47-69 | the method, including its setattr loop, leaves the table equal to the upsert |
| CsvImport.ImportFile | gts/save_to_db.py:72-99 | one file: every line is imported when the file is non-empty with 8 columns, and nothing is imported otherwise |
| CsvImport.ImportAll | gts/save_to_db.py:71-106 | the script imports the files in turn |
| OrdersDb.FindBy | order_tracking_app.py:612 | the lookup by primary key, used for legacy orders here and for client orders at line 729, is absent exactly when no row has the id, and otherwise points at a row that has it |
| OrdersDb.OrdersDb.constructor | order_tracking_app.py:53-121 | the three tables start with distinct primary keys |
| OrderUpdate.Merge | order_tracking_app.py:617-637 | for a request that writes no `null` into a required column, the merge never changes the id or `last_update`, and a request with no keys changes nothing |
| OrderUpdate.MergeThen | order_tracking_app.py:617-637 | two accepted updates in a row equal one accepted update with the later request's keys winning |
| OrderUpdate.MergeIdempotent | order_tracking_app.py:617-637 | sending the same update twice is sending it once |
| OrderUpdate.UpdateOrder | order_tracking_app.py:605-643 | not found and no change when the id is missing or unknown; rejected and no change when the request writes `null` into one of the nine required columns, as the commit raises; otherwise only that order changes, to the merge of the request into it |
| OrderUpdate.LogEntry | order_tracking_app.py:733-740 | computes the logged payment: the request's fields, `"Cash"` and `""` for an absent method or note, and the current time for an absent payment date |
| OrderUpdate.Pay | order_tracking_app.py:742 | computes the client order with `remaining_amount` set to `(remaining_amount or 0) - amount` |
| OrderUpdate.PayTwice | order_tracking_app.py:742 | two payments lower the remaining amount by their sum |
| OrderUpdate.PaidSnoc | order_tracking_app.py:733-745 | logging one payment adds its amount to that order's paid total and nothing to any other's |
| OrderUpdate.PaymentKeepsBalance | order_tracking_app.py:733-745 | after a payment, every client order's remaining amount plus the payments logged for it is unchanged |
| OrderUpdate.AddPayment | order_tracking_app.py:719-747 | unknown order: not found and no change; duplicate payment id: the commit fails and nothing changes; otherwise the payment is appended with "Cash" and "" as defaults and the current time for a missing date, and only that order's remaining amount goes down by the amount |
| ClientOrderPatch.Patch | gts/update_orders.py:47-49 | computes one client order after the script: intermediary amount 0, intermediary id `""` and product type "Cropsil" |
| ClientOrderPatch.PatchAll | gts/update_orders.py:45-49 | every client order ends with intermediary amount 0, intermediary id "" and product type "Cropsil", and no other column changes |
| ClientOrderPatch.PatchAllKeepsIds | gts/update_orders.py:45-49 | the patch keeps every primary key |
| ClientOrderPatch.PatchAllIdempotent | gts/update_orders.py:45-52 | running the script twice is running it once |
| ClientOrderPatch.PatchClientOrders | gts/update_orders.py:45-53 | the loop leaves the table patched, the other tables unchanged, and reports the number of orders |
| Uploads.Lower | order_tracking_app.py:685 | lower-casing keeps the length and lower-cases each character |
| Uploads.LastDot | order_tracking_app.py:685 | `rsplit('.', 1)` cuts at a dot with no dot after it, and there is none exactly when the name has no dot |
| Uploads.AllowedFile | order_tracking_app.py:684-685 | computes the verdict: the name has a dot and the lower-cased text after its last dot is png, jpg, jpeg or gif |
| Uploads.AllowedFileSpec | order_tracking_app.py:684-685 | a name is accepted exactly when it has a dot followed by a dot-free extension whose lower-case form is png, jpg, jpeg or gif |
| Uploads.AllowedBySuffix | order_tracking_app.py:684-685 | stem, dot and dot-free extension are judged by the extension alone |
| Uploads.LowerKeepsLastDot | order_tracking_app.py:685 | lower-casing moves no dot |
| Uploads.LowerIdempotent | order_tracking_app.py:685 | lower-casing twice is lower-casing once |
| Uploads.AllowedFileIgnoresCase | order_tracking_app.py:684-685 | a name and its lower-case form get the same verdict |
| Uploads.UpperCaseExtension | order_tracking_app.py:684-685 | `photo.JPG` is accepted |
| Uploads.LastDotCounts | order_tracking_app.py:684-685 | `scan.final.png` is accepted: an earlier dot does not matter |
| Uploads.InnerExtensionIgnored | order_tracking_app.py:684-685 | `image.png.exe` is rejected: only the text after the last dot counts |
| Uploads.DotEdgeCases | order_tracking_app.py:684-685 | `.gif` is accepted; `png` and `photo.` are rejected |

## Left out

- The web layer is not modelled: Flask routing, JSON encoding, HTTP status codes and session opening and closing. The endpoints' results are datatypes that name each response case.
- The message strings are not modelled, in particular the Turkish summary sentences. The report returns their figures.
- The product `amount` is a float in litres. The model counts whole centilitres (0.25 L is `25`). Order quantities are exact `real`s. No floating-point rounding is modelled.
- NULL text columns of the products table are plain strings, except `warehouse`, which the stock refresh can set to NULL. Only `amount`, `is_gts_done`, `warehouse` and `in_stock` are nullable in the model.
- pandas is modelled only as far as the frame's shape goes. For the import script, a CSV file is a frame: a column count and rows of that many cells. For the stock listing, a file is its lines split at `;`: the frame is as wide as the first line, a longer line makes the read fail, and a missing or empty field is NaN.
- pandas' quoting, blank-line skipping, header skipping and type inference are not modelled. Numeric-looking cells become numbers in pandas; in the model every cell is text.
- The order of `glob.glob` is not modelled. The files are taken as a given sequence.
- `GtsLookup.GtsStatus` requires distinct barcodes, which the primary key guarantees.
- `GtsLookup.GtsStatus`: when nothing is found, the code raises `UnboundLocalError` on `retVal`, so the intended 404 answer is never sent. The model reports this case as an error value.
- `PackageReport.SortPackages` is a stable insertion sort. Python's Timsort is not modelled. Only its promise is: an ordered, stable permutation.
- `GtsLookup.UpdateProduct`: the model does not say which database errors raise. An exception during the update is the `failure` parameter, and the table is rolled back.
- `OrderUpdate.AddPayment`: a duplicate `payment_id` makes the commit raise. The model answers `DuplicatePayment` and changes nothing, as the rollback of the failed session does.
- `OrderUpdate.AddPayment`: missing `payment_id`, `order_id` or `amount` keys, and a JSON `null` for any of them or for `method` or `note`, are not modelled. Those fields are plain values in the request, and `method` and `note` are either absent or a string. An absent or `null` `payment_date` is modelled: the column default writes the current time.
- `OrderUpdate.AddPayment`: the clock is not modelled. The current time, formatted as `%Y-%m-%d %H:%M:%S`, is the `now` parameter.
- `OrderUpdate.UpdateOrder`: JSON values of the wrong type for a column are not modelled. Each key carries a value of its column's type or `null`.
- `StockRefresh.InsertOrUpdateProduct`: when a matching package's row is in a frame narrower than six columns, the code has already written `in_stock` on the first unit when it raises. That write is never committed, and the model drops it.
- `CsvImport.SetAttribute`: `str.lower` is modelled on ASCII plus the two capitals the headings use, `İ` and `Ü`.
- `CsvImport.SetAttribute`: a text cell written into `amount` or `is_gts_done` is not modelled; those two names leave the record unchanged. No heading's attribute name is a column, so the import never reaches them.
- `Uploads.LowerChar` lower-cases ASCII only. This gives the same verdict as `str.lower` on every name. Outside ASCII, only the Kelvin sign lower-cases to an ASCII letter, `k`, and no allowed extension contains `k`. `İ` lower-cases to a pair that ends in a combining dot.
- `CsvImport.Upsert`: the setattr branch is proved to change nothing, because no heading maps to a column name. So the amount and GTS flag of a known record are never rewritten.
- Other endpoints are not modelled:
  - `summarize_stock` and the warehouse summary;
  - `get_unpaid_orders`, the export endpoints and `delete_payment`;
  - the client and order listing and creation endpoints;
  - image upload and serving, except `allowed_file`.
- Moving data between databases is not part of this core.
