# Orders page: search, export and grid rows

This project models the client-side data logic of the restaurant back office's
orders page (`web/src/Restaurant/Orders.js`). That logic has three parts:

- **Search.** The search box keeps an order when the lower-cased query occurs in the
  text of one of its non-null fields, or in the name or quantity of one of its line items.
- **PDF export.** The export turns the filtered orders into flat report rows. It drops the
  action and image columns, joins the customer's first and last name, lists the items as
  `name (quantity)` strings, and passes the creation date through the date formatter.
- **Grid rows.** The data grid receives each filtered order with an `id`. The `id` is
  the order's own `id` field when it has one, because the spread of the row comes after
  `id: row._id`. Otherwise it is the order's `_id`. The status cell is coloured by the
  order's status.

Modules:

- `JsStrings` (`js_strings.dfy`) has `toLowerCase`, `includes` and letter-case equivalence.
- `Sequences` (`sequences.dfy`) has the subsequence relation.
- `JsValues` (`js_values.dfy`) defines the JSON values the orders endpoint returns. It
  also defines property reads, with `undefined` as `Option.None`, and JavaScript
  truthiness. A string's `toString` is the string itself. `${…}` gives "null" and
  "undefined" for those values.
- `OrderSearch` (`order_search.dfy`) models `filterData`.
- `OrderReport` (`order_report.dfy`) models `generatePDF` and `prepareDataForReport`.
  `PrepareRow` fills one report row in a loop over the columns, as the `forEach` loop in
  `Orders.js` does.
- `OrderGrid` (`order_grid.dfy`) models `transformedRows` and the status colour switch.

The exceptions come from the code itself, not from a specified error path. Calling
`.some` on missing or non-array `items` raises a TypeError. So do `null.name`,
`.toLowerCase()` on a name that is not a string, and `.toString()` on an `undefined`
quantity. The model has `Result.Err(TypeError)` for each of these cases; no
precondition rules them out.

Two operations are taken as parameters because their bodies are not in this repository:

- JavaScript's `toString` of numbers, booleans, arrays and objects is `toStr: Json -> string`.
- `formatDate` is `fmt: Option<Json> -> string`.

Nothing is assumed about either parameter.

Where the code does less than one would expect of a search box, the model follows the code:

- One would expect the empty query to return the whole collection. In the code this
  holds only when no row throws (`EmptyQueryKeepsAll`). Every row that does not throw
  is kept, because its `items` array is itself a non-null field (`EmptyQueryKeepsRow`).
- One would expect the query "Jo" to find the sample order `SampleOrder`, whose customer
  has the first name "Jo". The code never looks inside `user`: it matches `user.toString()`,
  which for a JavaScript object is not its fields. So the model does not derive that
  match. It proves the item-name match "soup", a status match, and the "xyz" miss.
  The "xyz" miss is proved under the assumption that the text of the object and array
  fields does not contain "xyz" (`SampleOrderFound`, `SampleOrderNotFound`).

Clearing the search box restores the collection whenever no row throws. `filterData`
always filters the fetched `data` (`Orders.js:172`), never the previous result. The effect
at `Orders.js:199-201` runs it again whenever `searchQuery` or `data` changes. So the empty query
shows the filter of `data` by `""`, which is all of `data` (`EmptyQueryKeepsAll`).
Filtering a result again by the same query also leaves it unchanged (`FilterIdempotent`).

## Model

| member | source | states |
|---|---|---|
| JsStrings.Lower | web/src/Restaurant/Orders.js:177 | `toLowerCase` keeps the length, leaves no capital A-Z and changes no other character; `EqualIgnoringCaseIff` characterises when two results are equal |
| JsStrings.Contains | web/src/Restaurant/Orders.js:177 | `includes` holds only when the query is no longer than the text; `ContainsIff` states that it holds exactly when the query occurs at some index |
| JsStrings.ContainsIff | web/src/Restaurant/Orders.js:177 | `includes` holds exactly when the query occurs at some index of the text |
| JsStrings.EqualIgnoringCaseIff | web/src/Restaurant/Orders.js:177 | two strings differ only in letter case exactly when their `toLowerCase` results are equal (both directions) |
| OrderSearch.AttributesMatch | web/src/Restaurant/Orders.js:173-178 | the `Object.values(row).some` test; with the empty query it holds exactly when the row has a non-null field (`NullFieldIgnored` states that null fields never count) |
| OrderSearch.ItemMatch | web/src/Restaurant/Orders.js:180-188 | the item callback returns true exactly when the item is an object with a string name and a non-null quantity, and the name or the quantity text contains the query; it throws exactly in the TypeError cases (non-object item, non-string name, missing quantity after a name miss); a null name or quantity gives false |
| OrderSearch.ItemsSome | web/src/Restaurant/Orders.js:180-188 | `items.some` throws only when some item's callback throws; `ItemsSomeSpec` states its full outcome |
| OrderSearch.ItemsSomeSpec | web/src/Restaurant/Orders.js:180-188 | `items.some` is false exactly when every item is skipped; otherwise its outcome is that of the first item that is not skipped: true, or its exception |
| OrderSearch.RowItemsMatch | web/src/Restaurant/Orders.js:180 | `row.items.some(...)` returns a value only when `items` is an array |
| OrderSearch.MatchRow | web/src/Restaurant/Orders.js:172-190 | the row callback returns a value only for a row with an items array, and a false result means no field matched; `MatchRowSpec` states when it is true |
| OrderSearch.MatchRowSpec | web/src/Restaurant/Orders.js:172-190 | a row whose callback does not throw has an `items` array, and it is kept exactly when a non-null field's lower-cased text contains the query or some line item hits |
| OrderSearch.FilterRows | web/src/Restaurant/Orders.js:172-191 | `data.filter` on the lower-cased query returns no more rows than the data, only rows of the data, and only when every row has an items array; `FilterRowsSpec` states the rest |
| OrderSearch.FilterData | web/src/Restaurant/Orders.js:171-193 | `filterData` returns rows of the data, no more than the data holds, each with an items array; `FilterRowsSpec` and `FilterMembership` state exactly which rows |
| OrderSearch.FilterRowsSpec | web/src/Restaurant/Orders.js:172-191 | the filter throws exactly when some row's callback throws; otherwise its result is a subsequence of the data (order kept) holding each matching row as often as the data does and no other row |
| OrderSearch.FilterMembership | web/src/Restaurant/Orders.js:172-191 | a record is in the result exactly when it is in the data and matches the lower-cased query |
| OrderSearch.FilterCaseInsensitive | web/src/Restaurant/Orders.js:177-186 | two queries that differ only in letter case give identical outcomes |
| OrderSearch.FilterKeepsMatchingRows | web/src/Restaurant/Orders.js:172-191 | a collection whose every row's callback returns true is returned unchanged |
| OrderSearch.EmptyQueryKeepsRow | web/src/Restaurant/Orders.js:173-190 | with the empty query no row's callback returns false |
| OrderSearch.EmptyQueryKeepsAll | web/src/Restaurant/Orders.js:171-193 | filtering by the empty query returns the whole collection whenever it does not throw |
| OrderSearch.FilterIdempotent | web/src/Restaurant/Orders.js:172-191 | filtering the result again by the same query returns the same result |
| OrderSearch.NullFieldIgnored | web/src/Restaurant/Orders.js:174-176 | a null top-level field never contributes a match: removing it leaves the outcome unchanged |
| OrderSearch.NullItemFieldIgnored | web/src/Restaurant/Orders.js:181-183 | an item with a null name or quantity never contributes: removing it leaves the outcome of `some` unchanged |
| OrderSearch.WellFormedRowsDoNotThrow | web/src/Restaurant/Orders.js:180-187 | rows whose `items` is an array of objects with a null field, or with a string name and a present quantity, never make the filter throw |
| OrderSearch.SampleOrderFound | web/src/Restaurant/Orders.js:172-191 | the sample order is found by "soup" through its item name and by "PENDING" through its status |
| OrderSearch.SampleOrderNotFound | web/src/Restaurant/Orders.js:172-191 | the sample order is not found by "xyz" when the text of its object and array fields does not contain "xyz" |
| OrderReport.ColumnsToExport | web/src/Restaurant/Orders.js:138-140 | the column filter returns no more columns than it was given and none for `action` or `imageUrls`; `ColumnsToExportSpec` states which |
| OrderReport.ColumnsToExportSpec | web/src/Restaurant/Orders.js:138-140 | the exported columns are a subsequence of the columns; each column whose field is neither `action` nor `imageUrls` occurs as often as in the input, and the others do not occur |
| OrderReport.ExportedOrderColumns | web/src/Restaurant/Orders.js:28-115 | exporting the orders table keeps its first seven columns and drops `action`; the exported fields are orderId, user, items, totalPrice, deliveryAddress, status, createdAt |
| OrderReport.NamePart | web/src/Restaurant/Orders.js:144 | one half of the customer name: "N/A" for a falsy user, and the template text of the user's property for an object user |
| OrderReport.CustomerName | web/src/Restaurant/Orders.js:144 | "N/A N/A" when `user` is falsy; for an object user, its `firstName` and `lastName` template texts joined by a space; "undefined undefined" for a truthy non-object user |
| OrderReport.CustomerNameOfNamedUser | web/src/Restaurant/Orders.js:144 | a user with string first and last names is shown as `first + " " + last` |
| OrderReport.ItemLabel | web/src/Restaurant/Orders.js:147 | an item with string name and quantity is labelled `name (quantity)`; a non-object item is labelled "undefined (undefined)" |
| OrderReport.LabelAll | web/src/Restaurant/Orders.js:146-148 | mapping the items throws exactly when an item is null; otherwise it gives one `name (quantity)` label per item, in order |
| OrderReport.ItemLabels | web/src/Restaurant/Orders.js:146-148 | `order.items?.map` is undefined for null or missing items, one label per item for an array (throwing exactly on a null item), and a TypeError for any other value |
| OrderReport.ReportCell | web/src/Restaurant/Orders.js:150-160 | the branch of the `forEach` body: text cells exactly for `createdAt` and `user`, the label list exactly for `items`, and `order[field]` copied for every other field; `PrepareRow` and `ReportRowCells` state the cell values |
| OrderReport.PrepareRow | web/src/Restaurant/Orders.js:143-161 | the row throws exactly when the item labels do; otherwise its keys are exactly the exported fields, with the formatted date, the customer name, the labels, and every other field copied as it is |
| OrderReport.PrepareDataForReport | web/src/Restaurant/Orders.js:141-163 | exactly one report row per order, in order, each the report row of its order; it throws exactly when some order's item labels throw |
| OrderReport.GeneratePdf | web/src/Restaurant/Orders.js:137-169 | the report columns are exactly the first seven columns of the orders table, in order and with their headers, so no `action` or `imageUrls` column; one row per filtered order, each the report row of its order with keys exactly the seven exported fields; the title "Orders Report"; it throws exactly when some order's item labels throw |
| OrderReport.ReportRowCells | web/src/Restaurant/Orders.js:150-160 | in a report row `user` is the customer name, `createdAt` the formatted date, `items` one label per item of an items array, and every other field is `order[field]`; a row built from a filtered column list has no `action` or `imageUrls` key |
| OrderReport.ExportOfFilteredRows | web/src/Restaurant/Orders.js:146-148 | every order the search kept has an items array, so its export throws only when that array holds a null item |
| OrderGrid.TransformRow | web/src/Restaurant/Orders.js:132-135 | the grid row carries every field of the row unchanged plus `id`, which is the row's own `id` when present and otherwise its `_id` |
| OrderGrid.GridRowUnique | web/src/Restaurant/Orders.js:132-135 | the grid-row description determines the grid row uniquely |
| OrderGrid.TransformedRows | web/src/Restaurant/Orders.js:132-135 | same length and order as the filtered rows, each element the grid row of its row |
| OrderGrid.DistinctGridIds | web/src/Restaurant/Orders.js:133 | rows without an own `id` and with distinct `_id`s get distinct grid ids |
| OrderGrid.StatusColor | web/src/Restaurant/Orders.js:61-79 | orange, green, brown and red exactly for Pending, Confirmed, Delivered and Cancelled; black exactly for every other value |
| OrderGrid.StatusColorIsCaseSensitive | web/src/Restaurant/Orders.js:63-78 | the colour switch compares exactly, so "pending" is black |

## Left out

- `toLowerCase` lower-cases only the ASCII letters A-Z. JavaScript applies full Unicode
  case mapping, which this model does not.
- JavaScript's `toString` of numbers, booleans, arrays and objects is the parameter
  `toStr`, because JavaScript's coercion rules are not modelled. Numbers are reals, so
  NaN, the infinities and -0 do not occur.
- `formatDate` is not part of this model. It is the parameter `fmt`, and its result is
  taken to be a string.
- `exportToPDF` and jsPDF are not part of this model. `GeneratePdf` returns what would be
  passed to them.
- Object key order is not modelled, because records and report rows are maps. This
  affects the order of `Object.values` and the insertion order of `rowData`. Neither
  changes a result here: `some` is an existential, and the rows are read by column.
- Each fetched order is assumed to be an object. The callbacks on a non-object entry of
  `data` are not modelled.
- Property reads on non-objects give `undefined`. This holds for the properties the code
  reads (`name`, `quantity`, `firstName`, `lastName`), which no built-in value has.
- React state and effects (`useState`, `useEffect`) are not modelled, because they are
  framework scheduling. `filterData` is a function of the data and the query.
- The HTTP calls `fetchOrders`, `handleConfirm`, `handleCancel` and `deleteItem` are
  network I/O with an external backend.
- The confirmation dialogs and the success toasts are UI.
- The `localStorage` reads are browser I/O.
- The JSX layout, the DataGrid configuration and the column widths are UI. So are the
  cell renderers for user, items and createdAt. Only the createdAt renderer
  (`Orders.js:86-88`) shows the same value as the export.
- The user cell renderer (`Orders.js:34-36`) is not modelled. It differs from the export:
  it shows only `firstName`, and a single "N/A" for a falsy user.
- The items cell renderer (`Orders.js:43-53`) is not modelled. It differs from the export:
  it calls `params.value.map` without `?.`, so it throws for null or missing items where
  the export gives `undefined`. It also renders through JSX, which draws `null` and
  `undefined` names or quantities as nothing rather than as text.
- `web/src/Department/AddEditDepartment.js` is not part of this model. It is a
  declarative form whose required-field checks are enforced by the UI library.
