# Daily Recap bookkeeping, modelled in Dafny

The Daily Recap app is a small tool for a textile manufacturer. Staff enter customer
purchase orders (PO), each with a list of shades and the kilograms required per shade.
They log daily production recaps per shade: yarn bags received, knitting processed and
dyeing processed, each with a balance. They export the recaps of one date as a PDF table.

This project models the bookkeeping of `app.py` as an in-memory store:

- `strings.dfy` (module `Strings`): the Python string operations the app relies on.
  These are `','.join`, `str.split(',')`, `str.strip()`, `str(int)` and `int(str)`.
- `store.dfy` (module `Store`): the two tables, `customers` and `daily_recaps`. Class
  `Database` holds them as sequences in insertion order, and its methods are the app's SQL
  statements. `Valid()` is the `UNIQUE(customer_name, po_number)` constraint.
- `orders.dfy` (module `Orders`): `add_customer`. It covers the shade-collection loop,
  the comma-joined encoding, the guarded insert, and the decoding the recap page applies
  to what was stored.
- `recaps.dfy` (module `Recaps`): `daily_recap`. It covers the `"<name> - PO: <po>"`
  label map, the per-shade sections, the balance computation and the recap append.
- `report.dfy` (module `Report`): `generate_report`. It covers the date filter, the fixed
  12-column header and the 12 cells of each row.
- `app.py`'s top level is modelled in `app.dfy` (module `App`): one execution of the
  script, which calls `create_tables()` and then runs the chosen page.

The buttons are inputs to the operations: `submit` for "Add Customer", `pressed` for the
index of the shade whose "Add Daily Recap" button was pressed, and `download` for
"Download PDF Report". Warnings and errors the page shows become outcome values
(`AddOutcome`, `RecapOutcome`). Python exceptions become outcomes too:

- `add_customer` catches `sqlite3.IntegrityError` (app.py:79) and shows an error; that is
  `DuplicateOrder`.
- `daily_recap` catches nothing around the label lookup (app.py:99) or the decoding
  (app.py:110). A `KeyError` or a `ValueError` there is uncaught, and the page stops with
  a traceback. `UnknownSelection` stands for the `KeyError` and `BadRequirement` for the
  `ValueError`.

Three consequences of the code are worth stating up front:

- `create_tables()` runs at the top of the script (app.py:191), and the script re-runs on
  every interaction, so the customers table is dropped on every execution. `App.Run`
  states what follows within one execution. Adding an order always succeeds and leaves
  only that order. The recap page always reports "No customers found.". Recaps and
  reports see the recap table, which is kept.
- An order stored with no kept shade has empty text in both shade columns, and decoding
  then fails on `int('')` (`Orders.DecodeNoShades`).
- A recap row stores the shade name after `strip()`, not the name as stored with the order.

## Model

| member | source | states |
|---|---|---|
| Strings.Split | app.py:109 | `s.split(',')` always gives at least one piece, and no piece contains the separator |
| Strings.JoinSplit | app.py:109 | re-joining the pieces of a split gives back the original text, for every text |
| Strings.SplitJoin | app.py:74 | joining at least one comma-free part with commas and splitting again gives back exactly those parts |
| Strings.JoinSeparators | app.py:74 | `','.join` of n >= 1 comma-free parts writes exactly n - 1 commas, and every other character comes from a part |
| Strings.NatToString | app.py:66 | `str(kg)` of a non-negative integer is a non-empty string of decimal digits |
| Strings.IntToString | app.py:175-183 | `str(x)` of a report number is decimal digits, led by a single `-` for a negative balance |
| Strings.ParseInt | app.py:110 | `int(s)` succeeds exactly on one or more ASCII digits, optionally after a single `+` or `-`, and gives their decimal value with that sign; every other text, `""` included, is None where Python raises ValueError |
| Strings.ParseIntToString | app.py:110 | `int(str(i)) == i` for every integer, negative ones included |
| Strings.ParseIntEmpty | app.py:110 | `int('')` fails |
| Strings.Strip | app.py:113 | `strip()` leaves no whitespace at either end, never lengthens a name, and leaves a name without surrounding whitespace unchanged |
| Strings.StripSlice | app.py:134 | `strip()` keeps a slice of the name and cuts only whitespace from either end |
| Strings.StripIdempotent | app.py:113 | a sanity property of `Strip` only (the app strips each raw piece once): stripping a stripped name changes nothing |
| Store.Find | app.py:104-106 | the `WHERE customer_name = ? AND po_number = ?` lookup finds a row exactly when the key is in the table, and the row it finds has that key |
| Store.AppendFreshKey | app.py:25 | appending a row with a new key keeps the UNIQUE constraint, adds exactly that key at the end, makes the lookup of that key find the new row, and leaves every other lookup unchanged |
| Store.KeyNamesOneRow | app.py:25 | under the constraint a key in the table names exactly one row |
| Store.WithDate | app.py:152 | every row the date query returns has that date, and it returns no more rows than the table holds |
| Store.WithDateMembers | app.py:152 | a recap is returned by the date query exactly when it is in the table and has that date |
| Store.WithDateNone | app.py:152 | a date no recap carries returns nothing |
| Store.WithDateConcat | app.py:152 | the date query keeps insertion order: the matches of earlier rows come before those of later rows |
| Store.WithDateCount | app.py:152 | the number of rows returned equals the number of table positions whose date matches |
| Store.Database.constructor | app.py:28-44 | a new database file has both tables empty |
| Store.Database.CreateTables | app.py:10-45 | the customers table is dropped and recreated empty, and the recap table is left exactly as it was |
| Store.Database.InsertCustomer | app.py:72-80 | the insert fails exactly when the (customer name, PO number) pair already exists, and then neither table changes; otherwise exactly the new row is appended |
| Store.Database.SelectKeys | app.py:86 | the listed orders are the (customer name, PO number) pairs of the table, one per row, listed in insertion order |
| Store.Database.SelectShades | app.py:104-106 | the shade columns are returned exactly when the order exists, and they are that order's stored columns |
| Store.Database.InsertRecap | app.py:129-139 | a recap insert appends exactly one row, changes no earlier row, and leaves the customers table alone; identical inputs add a second identical row |
| Store.Database.SelectRecapsByDate | app.py:152 | the report query returns exactly the recaps of that date, in insertion order |
| Orders.Kept | app.py:61-66 | the loop keeps at most one pair per entered pair, and every kept pair has a non-empty name |
| Orders.CollectShades | app.py:58-66 | the loop's two lists are the names and the `str(kg)` values of exactly the kept pairs, in entry order |
| Orders.KeptConcat | app.py:61-66 | the kept pairs of consecutive entries are the kept pairs of each part in order, so entry order is preserved |
| Orders.KeptMembers | app.py:64-66 | a pair is kept exactly when some entered pair with a non-empty name and kg >= 0 is it |
| Orders.KeptAllIffNamed | app.py:63-64 | with the widget's kg >= 0, every entered pair is kept exactly when every name is non-empty, so only the name test decides |
| Orders.KeptListsAligned | app.py:64-66 | `shade_names` and `shade_requirements` have equal length, at most `num_shades`, and position k of both describes the same kept pair |
| Orders.OrderRow | app.py:72-75 | the inserted row has the entered key and the requested `num_shades`, not the number of kept shades |
| Orders.NumShadesNotKeptCount | app.py:74 | with one blank shade name out of two, the stored count is 2 but the stored names decode to one name |
| Orders.ParseAll | app.py:110 | `map(int, ...)` gives one integer per piece, each what `int` gives for it, or fails because some piece does not parse |
| Orders.DecodeShades | app.py:108-110 | the decoded names are the split name column; decoding succeeds exactly when every requirement piece parses, and the decoded integers are then those pieces' values, one per piece |
| Orders.ParseAllRequirements | app.py:110 | parsing the stored `str(kg)` values gives back the kilograms |
| Orders.EncodeDecode | app.py:109-110 | with at least one kept shade and no comma in any name, decoding the stored comma-joined columns gives the kept names and kilograms back in the same order |
| Orders.DecodeNoShades | app.py:108-110 | for any order in which no shade pair is kept, both stored shade columns are empty text, and decoding that order's columns fails on `int('')` |
| Orders.CommaInNameSplits | app.py:109 | a shade named `Navy,Red` is decoded as the two names `Navy` and `Red` |
| Orders.AddCustomer | app.py:48-80 | nothing is stored unless the button is pressed; an existing (customer name, PO number) pair gives the duplicate outcome and leaves the table unchanged; a new pair appends exactly the encoded row; recaps are untouched |
| Orders.AddThenDecode | app.py:104-110 | after adding an order with a fresh key, the lookup finds that row and its shades decode to the kept names and kilograms |
| Orders.SecondAddIsDuplicate | app.py:25 | once an order is stored, a second order with the same pair is reported as a duplicate, whatever else differs |
| Recaps.LabelParts | app.py:92 | a label is the customer name, then `" - PO: "`, then the PO number |
| Recaps.LabelInjectiveOnNameLength | app.py:92 | two orders whose customer names have the same length and whose labels are equal are the same order |
| Recaps.LabelMap | app.py:92 | every label in the map selects a listed order that carries that label, and every listed order's label is in the map |
| Recaps.LabelMapLastWins | app.py:92 | a label selects the last order in listing order that carries it |
| Recaps.SelectByLabel | app.py:99 | when no two listed orders share a label, selecting an order's label gives back that order |
| Recaps.LabelsCanCollide | app.py:92 | two different orders can have the same label, and then only the one listed later can be selected |
| Recaps.ShadeForms | app.py:112-113 | one shade section per position of the shorter of the decoded lists, section i showing stripped name i with requirement i |
| Recaps.MakeRecap | app.py:115-137 | the recap row stores the date, the order key, the shade name and the six entered numbers as given, and each balance is required minus received or processed, unclamped |
| Recaps.BalanceBounds | app.py:115-125 | with non-negative entries no balance exceeds its required value, and a balance is negative exactly when more was received or processed than required |
| Recaps.AppendBalanced | app.py:127-139 | appending a row that satisfies the balance equations keeps every row of the log balanced |
| Recaps.RecapOutcomes | app.py:86-99 | the page shows "No customers found." exactly for an empty table, "Please select a customer." exactly for an empty selection, and raises the KeyError exactly for a selection that is no listed order's label |
| Recaps.BadRequirementIff | app.py:108-110 | for a selected listed order, the ValueError is raised exactly when its stored requirement pieces do not all parse |
| Recaps.NeverMissingOrder | app.py:143-144 | a label offered by the page always names a stored order, so "No shade information found" never appears |
| Recaps.AddedRowBelongs | app.py:127-139 | a recap is only added for a listed order whose label was selected, for the decoded shade whose button was pressed (name stripped), with the given date, all six entered numbers as given and consistent balances |
| Recaps.NewOrderShowsItsShades | app.py:108-115 | right after an order is added, selecting its label shows one section per kept shade in entry order, each with the stripped name and its kilograms as the yarn-bag default |
| Recaps.NewOrderWithoutShadesFails | app.py:108-110 | right after an order with no kept shade is added, selecting its label ends the page on the ValueError of `int('')` |
| Recaps.DailyRecap | app.py:83-144 | the page's outcome is `RecapResult` of the customers table; the customers table is not changed; the recap table grows by exactly the added row, or not at all; consistent balances are preserved for the whole log |
| Report.RowCells | app.py:171-184 | each data row emits 12 cells, whose widths are the header's 12 widths in order |
| Report.HeaderMatchesRows | app.py:161-183 | the header has 12 names paired with 12 widths, covering 12 distinct columns; cell k of every row shows the field that header name k names, with the same width |
| Report.BuildReport | app.py:152-184 | the report's header cell k has width `col_widths[k]` and text `col_names[k]` for all 12 columns, and every data row has 12 cells |
| Report.ReportRowsAreMatches | app.py:152 | the report has one row per recap of the date, counted by table position, and every row comes from a recap of that date |
| Report.EmptyReport | app.py:171 | a date with no recap gives a header-only table |
| Report.ReportAfterAppend | app.py:152 | appending a recap adds its row at the end of its own date's report and leaves the report of every other date unchanged |
| Report.GenerateReport | app.py:147-187 | the header and row loops produce exactly `BuildReport` of the recap table, and nothing when the button is not pressed |
| App.Run | app.py:190-200 | one script execution resets the customers table and keeps the recap table. Adding always succeeds and leaves only the new order; the recap page always finds no customers; the report is built from the recaps as they were |

## Left out

- Widget rendering, `st.experimental_rerun`, widget keys and the texts of success, warning and error messages. These are UI. They appear only as operation inputs and outcome values.
- The SQLite connection, commits and transaction scope. The tables are in-memory sequences, so an insert cannot fail. The generic `except Exception` path of the recap insert (app.py:141-142) therefore has no counterpart.
- The NOT NULL constraints on `customer_name` and `po_number`: text inputs always give a string, so they never fire.
- How the date query string is built with an f-string (app.py:152), including its quoting hazard. It is modelled as an equality filter on the date text. Dates are text on both sides, in the form Python's `str(date)` gives.
- pandas data frames and the `pd.to_datetime("today")` default date. The date is an input.
- FPDF fonts, page setup, cell height, borders, line breaks and the `pdf.output` file write. The report is the logical title, file name, header cells and row cells.
- Store.Database.SelectKeys: `SELECT customer_name, po_number FROM customers` has no ORDER BY, and SQLite may answer it from the UNIQUE index in key order. The model lists the orders in insertion order. That order decides which order a shared label selects (`Recaps.LabelMapLastWins`); within one execution the recap page never sees a customer row anyway (`App.Run`).
- Store.Database.SelectRecapsByDate: the date query has no ORDER BY either; the model lists the matching recaps in insertion order.
- Strings.ParseInt: Python's `int` also accepts surrounding whitespace, `_` between digits and non-ASCII digits; these are not modelled. The only text the app parses is what `str` wrote for a non-negative integer.
- main.py (a PyQt5 window with one label) and setup.py (cx_Freeze build settings) hold no bookkeeping logic and are not part of this model.
