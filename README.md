# Beaches admin dashboard — a Dafny model of its page logic

The dashboard is a Next.js application with these parts:

- seven admin pages: customers, credit, orders, users, products, promotions and deliveries;
- a sidebar with collapsible menus;
- a breadcrumb trail.

Every page holds mock records in a table that the user can sort by a column and page through. Most pages also have an add/edit dialog. This project models the logic behind those screens:

- The table view that all pages share, in `TableView`:
  - the sort toggle;
  - a stable sort of a copy of the rows by the page's comparator, in `Sorting`;
  - the page slice `slice((page - 1) * rows, (page - 1) * rows + rows)` and `totalPages = Math.ceil(n / rows)`, in `Paging`;
  - the pager buttons and the rows-per-page select.
- The string codec for rupiah amounts, in `Currency`:
  - `formatCurrency` groups digits in threes, with `,` or `.` between the groups;
  - `parseCurrency` keeps the digits and parses them.
- The credit status thresholds, the promotion status, and the delivery page's pieces:
  - its tab filter and the grouping of orders by customer;
  - its area list, which uses `trim`;
  - its order checkboxes.
- The product image manager, whose image entries are objects that are changed in place.
- The sidebar's active-link test and its open-menu toggle, and the breadcrumb builder.

How the code is modelled:

- Each page's React state is a Dafny `class`. Its fields are the `useState` variables, and its methods are the event handlers, with `modifies` clauses.
- Sorting and paging state that every page repeats is one generic class, `TableView.TableState`. Each page holds one.
- Pure helpers are Dafny functions, with lemmas that state what they guarantee.
- The sort is computed by an insertion sort in place on a fresh array (`Sorting.SortCopy`). Its specification is the functional `Sorting.StableSort`.
  - `Sorting.StableSortUnique` proves StableSort is the only ordered rearrangement of the rows that keeps rows with equal keys in their input order.
  - So any stable sort, including the engine's `Array.prototype.sort`, gives the same rows. ECMAScript requires that sort to be stable.
- Strings are `seq<char>`. JavaScript's `<` on strings is the UTF-16 code-unit order, modelled by `Ordering.LexLess` on `char`s. The two orders agree on text without characters outside the Basic Multilingual Plane, which covers the sort keys (they are ASCII).

## Behaviour worth knowing

- The current page is never clamped.
- An empty table has `totalPages` 0. The Next button is then enabled on page 1 (`Paging.EmptyTablePager`).
- Switching a delivery tab keeps the page number, which can leave a page past the end (`DeliveryPage.StalePageShowsNothing`).

## Model

| member | source | states |
|---|---|---|
| Ordering.LexLessMeansPosition | src/app/customer/page.tsx:122-124 | string `<` holds only at a proper prefix or at a first differing code unit that is smaller |
| Ordering.PositionMeansLexLess | src/app/customer/page.tsx:122-124 | conversely, a smaller first differing code unit makes the string smaller |
| Ordering.ProperPrefixIsLexLess | src/app/customer/page.tsx:122-124 | a proper prefix sorts before the longer string |
| Ordering.LexLessIrreflexive | src/app/customer/page.tsx:122-124 | no string is less than itself |
| Ordering.LexLessTransitive | src/app/customer/page.tsx:122-124 | string `<` is transitive |
| Ordering.LexLessTotal | src/app/customer/page.tsx:122-124 | of two different strings one is less than the other |
| Ordering.KeyLessStrictTotal | src/app/customer/page.tsx:122-124 | the comparison of column values is a strict total order, so the comparator is consistent |
| Sorting.Flip | src/app/customer/page.tsx:113 | toggling the direction always changes it |
| Sorting.CompareProperties | src/app/customer/page.tsx:122-126 | the comparator is antisymmetric, returns -1, 0 or 1, and returns 0 exactly on equal values |
| Sorting.CompareTransitive | src/app/customer/page.tsx:122-126 | "does not go after" is transitive for either direction |
| Sorting.InsertMultiset | src/app/customer/page.tsx:122 | inserting a row adds exactly that row |
| Sorting.InsertStable | src/app/customer/page.tsx:122-126 | inserting a row keeps every group of equal keys as appending it would |
| Sorting.InsertOrdered | src/app/customer/page.tsx:122-126 | inserting into an ordered sequence keeps it ordered |
| Sorting.SortPermutation | src/app/customer/page.tsx:122 | the sorted rows are a permutation of the input, the same length |
| Sorting.SortOrdered | src/app/customer/page.tsx:122-126 | the sorted rows are in comparator order |
| Sorting.SortKeepsGroup | src/app/customer/page.tsx:122-126 | the sorted rows with any one key appear in their input order |
| Sorting.SortStable | src/app/customer/page.tsx:122-126 | the sort is stable for every key |
| Sorting.OrderedMeansMonotoneKeys | src/app/customer/page.tsx:123-124 | ordered means non-decreasing values ascending and non-increasing descending |
| Sorting.OrderedGroupsDetermine | src/app/customer/page.tsx:122-126 | two ordered sequences with the same groups are equal |
| Sorting.StableSortUnique | src/app/customer/page.tsx:122-126 | every ordered, stable rearrangement of the rows is StableSort's result |
| Sorting.SortPrefixStep | src/app/customer/page.tsx:122 | sorting one more row inserts it into the sorted prefix |
| Sorting.FindSlot | src/app/customer/page.tsx:122-126 | the scan returns the position where inserting the row agrees with `Insert` |
| Sorting.ShiftRight | src/app/customer/page.tsx:122 | rows `a[j..i]` move one place right; the rest of the array is unchanged |
| Sorting.InsertStep | src/app/customer/page.tsx:122-126 | one insertion step leaves `Insert(prefix, row)` in front and the tail unchanged |
| Sorting.SortCopy | src/app/customer/page.tsx:122-126 | `[...rows].sort(cmp)` gives a fresh array holding exactly `StableSort(rows)` |
| Paging.SliceIndex | src/app/customer/page.tsx:129 | `slice` clamps an index into 0..length, counting negatives from the end |
| Paging.PageSliceIs | src/app/customer/page.tsx:128-129 | from page 1 on, the visible rows are `sorted[start..min(start + rows, n)]`, or none past the end, at most `rows` of them |
| Paging.TotalPages | src/app/customer/page.tsx:132 | `Math.ceil(n / rows)`: 0 for no rows, else the least page count whose pages hold every row |
| Paging.EveryPageHasRows | src/app/customer/page.tsx:658-666 | every numbered page button leads to a page with between 1 and `rows` rows |
| Paging.PageBeforeEnd | src/app/customer/page.tsx:658-666 | a numbered page starts before the end of the data |
| Paging.RangeCountsVisibleRows | src/app/customer/page.tsx:642-644 | on a numbered page, "Showing X to Y" counts exactly the visible rows |
| Paging.PastTheDataIsEmpty | src/app/customer/page.tsx:128-129 | a page after the last one shows no row |
| Paging.PagesArePrefix | src/app/customer/page.tsx:128-132 | the first `count` full pages, concatenated, are the first `count * rows` rows |
| Paging.PagesCoverRows | src/app/customer/page.tsx:128-132 | all numbered pages together show every sorted row once, in order |
| Paging.RunKeepsPageAtLeastOne | src/app/customer/page.tsx:620-673 | any sequence of pager clicks keeps the page at 1 or above |
| Paging.RunStaysOnAPage | src/app/customer/page.tsx:620-673 | starting on a real page, pager clicks never leave 1..totalPages |
| Paging.EmptyTablePager | src/app/customer/page.tsx:630-633 | with no rows there are 0 pages; Next stays enabled and two clicks reach page 3; "Showing 1 to 0" |
| TableView.ToggleSort | src/app/customer/page.tsx:111-118 | the clicked column becomes the sort column; the same column flips the direction, another starts at the page's default |
| TableView.ToggleTwiceRestores | src/app/customer/page.tsx:111-118 | clicking the current column twice restores the sort |
| TableView.NewFieldThenSame | src/app/customer/page.tsx:111-118 | a new column clicked twice ends in the opposite of the start direction |
| TableView.SortedAndPaginated | src/app/customer/page.tsx:121-130 | the rows shown are the current page of the stably sorted rows |
| TableView.VisibleRows | src/app/customer/page.tsx:121-130 | what is sliced is a permutation of the rows, ordered and stable, and the slice has at most `rows` rows |
| TableView.TableState.constructor | src/app/customer/page.tsx:89-94 | a table starts on its initial column and direction, page 1, 10 rows |
| TableView.TableState.HandleSort | src/app/customer/page.tsx:111-118 | the sort becomes `ToggleSort` of the old one; the page and rows per page stay |
| TableView.TableState.HandlePageChange | src/app/customer/page.tsx:134-136 | the page becomes the argument; nothing else changes |
| TableView.TableState.HandleRowsPerPageChange | src/app/customer/page.tsx:138-141 | the rows per page becomes the chosen option and the page goes back to 1 |
| TableView.TableState.OnPager | src/app/customer/page.tsx:620-673 | a pager click moves the page as its button says: Previous is disabled on page 1, Next on the last page |
| Text.LeadingSpace | src/app/delivery/page.tsx:475 | the length of the run of ECMAScript white space at the front |
| Text.TrailingSpace | src/app/delivery/page.tsx:475 | the length of the run of white space at the end |
| Text.Trim | src/app/delivery/page.tsx:475-476 | `trim()`: a slice of the input with only white space outside it and none at its ends |
| Text.TrimIdempotent | src/app/delivery/page.tsx:475-476 | trimming twice is trimming once |
| Text.TrimKeepsContent | src/app/delivery/page.tsx:475 | a text with a non-space character trims to a non-empty text that keeps it |
| Text.LowerChar | src/app/delivery/page.tsx:190 | ASCII lower-casing of one character |
| Text.UpperChar | src/components/ui/navigation/Breadcrumbs.tsx:13 | ASCII upper-casing of one character |
| Text.ToLower | src/app/delivery/page.tsx:190 | `toLowerCase()` lower-cases each character and keeps the length |
| Text.ToLowerIdempotent | src/app/delivery/page.tsx:190 | a lower-cased text has no capital letter and lower-casing it again changes nothing |
| Text.Capitalize | src/components/ui/navigation/Breadcrumbs.tsx:13 | the first character upper-cased, the rest kept |
| Text.Split | src/components/ui/navigation/Breadcrumbs.tsx:9 | `split("/")` gives at least one piece, none containing the separator |
| Text.JoinSplit | src/components/ui/navigation/Breadcrumbs.tsx:9-12 | joining the pieces of a split gives back the text |
| Text.JoinCons | src/components/ui/navigation/Breadcrumbs.tsx:12 | joining a piece in front of a list puts one separator between |
| Text.JoinSnoc | src/components/ui/navigation/Breadcrumbs.tsx:12 | joining one more piece at the end adds a separator and the piece |
| Text.SplitPieceThenSep | src/components/ui/navigation/Breadcrumbs.tsx:9 | a separator-free piece and a separator split off as one piece |
| Text.SplitPiece | src/components/ui/navigation/Breadcrumbs.tsx:9 | a separator-free text splits into itself |
| Text.SplitJoin | src/components/ui/navigation/Breadcrumbs.tsx:9-12 | splitting a join of separator-free pieces gives back the pieces |
| ListOps.Filter | src/app/delivery/page.tsx:188-191 | `filter` keeps exactly the elements that pass, in order, and is no longer than the input |
| ListOps.FilterAppend | src/app/delivery/page.tsx:188-191 | filtering distributes over concatenation |
| ListOps.FilterAll | src/app/delivery/page.tsx:189 | a filter that passes everything returns the list unchanged |
| ListOps.RemoveAll | src/app/products/promotion/page.tsx:161 | `filter(id => id !== x)`: x is gone, everything else stays, the rest keeps its order (RemoveAllAppend), and the result is no longer |
| ListOps.RemoveAbsent | src/app/products/promotion/page.tsx:161 | removing an absent element changes nothing |
| ListOps.RemoveAllAppend | src/app/products/promotion/page.tsx:161 | removing distributes over concatenation |
| ListOps.RemoveAllIdempotent | src/app/products/promotion/page.tsx:161 | removing twice is removing once |
| ListOps.Toggle | src/app/products/promotion/page.tsx:158-166 | a present element is removed everywhere; an absent one is appended |
| ListOps.ToggleKeepsOthers | src/app/products/promotion/page.tsx:158-166 | toggling x leaves every other element where it was |
| ListOps.ToggleTwiceAbsent | src/app/products/promotion/page.tsx:158-166 | toggling an absent element twice restores the list |
| ListOps.ToggleTwicePresent | src/app/products/promotion/page.tsx:158-166 | toggling a present element twice removes its old copies and puts it at the end |
| ListOps.SetChecked | src/app/delivery/page.tsx:549-554 | ticking appends the id; unticking removes every copy |
| ListOps.RemoveAt | src/app/delivery/page.tsx:495-497 | `filter((_, i) => i !== index)` drops that index when in range and changes nothing otherwise |
| Currency.DigitChar | src/app/customer/page.tsx:97 | the decimal digit character of a value below 10 |
| Currency.Digits | src/app/customer/page.tsx:97 | `n.toString()`: at least one digit, all digits, no leading zero except for 0 |
| Currency.SmallHasFewDigits | src/app/customer/page.tsx:97 | a number below 1000 has at most three digits |
| Currency.DigitsValue | src/app/customer/page.tsx:101 | `parseInt` of `n.toString()` is n |
| Currency.SepChar | src/app/customer/page.tsx:97 | the separators `,` and `.` are not digits |
| Currency.ShortRunUnchanged | src/app/customer/page.tsx:97 | the replacement leaves a run of at most three digits alone |
| Currency.GroupSplitsLastThree | src/app/customer/page.tsx:97 | a longer run ends in a separator and the last three digits |
| Currency.GroupIsChunked | src/app/customer/page.tsx:97 | the left-to-right regex replacement equals grouping by threes from the right |
| Currency.Ungroup | src/app/customer/page.tsx:97-101 | deleting the separators from a grouped run gives back the digits |
| Currency.GroupShape | src/app/products/page.tsx:106-108 | a grouped run of d digits has `d + (d - 1) / 3` characters and begins and ends with a digit |
| Currency.FormatCurrency | src/app/customer/page.tsx:96-98 | the digits of the result are those of the value, behind a `-` when it is negative |
| Currency.NoSeparatorBelowThousand | src/app/customer/page.tsx:96-98 | numbers below 1000 are printed as plain digits |
| Currency.KeepDigits | src/app/customer/page.tsx:101 | `replace(/[^\d]/g, '')` leaves only digits |
| Currency.ParseCurrency | src/app/customer/page.tsx:100-102 | NaN exactly when the text has no digit, otherwise the value of all its digits read as one number |
| Currency.FormatAmount | src/app/customer/page.tsx:216 | NaN prints as "NaN" |
| Currency.PrefixAddsNoDigit | src/app/customer/page.tsx:216 | the "Rp " prefix adds no digit |
| Currency.ParseDigitsOf | src/app/customer/page.tsx:216-219 | a field text whose digits are those of n reads back as n |
| Currency.ParseFormatted | src/app/customer/page.tsx:216-219 | a formatted amount behind "Rp " reads back as the amount |
| Currency.AmountRoundTrip | src/app/customer/page.tsx:216-219 | the credit field round-trips every value it can hold, NaN included |
| Currency.NegativeLosesSign | src/app/customer/page.tsx:96-102 | reading back a formatted negative number gives its absolute value |
| CustomerPage.CustomerList.constructor | src/app/customer/page.tsx:79-94 | the page starts sorted by name ascending, page 1 of 10, credit limit 0 |
| CustomerPage.CustomerList.HandleSort | src/app/customer/page.tsx:111-118 | a new column starts ascending, the same column flips, the paging stays |
| CustomerPage.CustomerList.SortedAndPaginatedData | src/app/customer/page.tsx:121-130 | the rows shown are the current page of the customers stably sorted by the current column |
| CustomerPage.CustomerList.CreditLimitText | src/app/customer/page.tsx:216 | the credit field's text reads back as the stored credit limit |
| CustomerPage.CustomerList.OnCreditLimitInput | src/app/customer/page.tsx:217-219 | the stored credit limit becomes what the typed text parses to, and the field shows it reformatted |
| CreditPage.GetCreditStatus | src/app/credit/page.tsx:98-103 | critical at 90% or more, warning from 75% to below 90%, good below 75%; a zero limit is critical exactly when something is used |
| CreditPage.ThresholdsInclusive | src/app/credit/page.tsx:100-101 | exactly 75% is a warning and exactly 90% is critical |
| CreditPage.StatusMonotone | src/app/credit/page.tsx:98-103 | for a fixed limit, more use never gives a better status |
| CreditPage.CreditList.constructor | src/app/credit/page.tsx:78-88 | the settings start at 50,000,000 and 30 days; the table is sorted by name ascending on page 1 of 10 |
| CreditPage.CreditList.HandleSort | src/app/credit/page.tsx:105-112 | a new column starts ascending, the same column flips, the paging stays |
| CreditPage.CreditList.SortedAndPaginatedData | src/app/credit/page.tsx:114-123 | the rows shown are the current page of the customers stably sorted by the current column |
| CreditPage.CreditList.DefaultCreditLimitText | src/app/credit/page.tsx:351 | the default-limit field's text, with `.` separators, reads back as the stored limit |
| CreditPage.CreditList.OnDefaultCreditLimitInput | src/app/credit/page.tsx:352-354 | only the default limit changes, to the parse of the text |
| CreditPage.CreditList.OnDefaultPaymentTermsInput | src/app/credit/page.tsx:363 | only the payment terms change |
| OrdersPage.OrderManagement.constructor | src/app/orders/page.tsx:113-118 | the page starts sorted by order date descending, page 1 of 10, with no dialog open |
| OrdersPage.OrderManagement.HandleSort | src/app/orders/page.tsx:121-128 | a new column starts descending, the same column flips, the paging stays |
| OrdersPage.OrderManagement.SortedAndPaginatedData | src/app/orders/page.tsx:130-139 | the rows shown are the current page of the orders stably sorted by the current column |
| OrdersPage.OrderManagement.OnDialogOpenChange | src/app/orders/page.tsx:386-395 | closing clears both dialog flags, the selection and the delivery options; opening changes nothing |
| OrdersPage.OrderManagement.Cancel | src/app/orders/page.tsx:544-548 | the form's Cancel turns both flags off and clears the selection, but keeps the delivery options |
| OrdersPage.NewestFirst | src/app/orders/page.tsx:113-139 | under the initial sort, dates never increase down the list and orders with the same date keep their list order |
| UserPage.UserManagement.constructor | src/app/user/page.tsx:107-111 | the page starts sorted by name ascending, page 1 of 10, with no dialog open |
| UserPage.UserManagement.HandleSort | src/app/user/page.tsx:114-121 | a new column starts ascending, the same column flips, the paging stays |
| UserPage.UserManagement.SortedAndPaginatedData | src/app/user/page.tsx:123-132 | the rows shown are the current page of the users stably sorted by the current column |
| UserPage.UserManagement.OnDialogOpenChange | src/app/user/page.tsx:278-284 | closing clears both dialog flags and the selection; opening changes nothing |
| UserPage.UserManagement.Cancel | src/app/user/page.tsx:358-361 | the form's Cancel leaves the state closing the dialog leaves |
| UserPage.NumberedPagesShowUsers | src/app/user/page.tsx:406-407 | each numbered page shows 1 to `rows` users, and "Showing X to Y" counts them |
| ProductsPage.UploadedImage.constructor | src/app/products/page.tsx:121-125 | a new entry holds its file and preview with an empty alt |
| ProductsPage.EntryAt | src/app/products/page.tsx:94 | each image entry's value is its object's current file, preview and alt, position by position |
| ProductsPage.MakeImages | src/app/products/page.tsx:121-125 | `files.map(...)` makes one fresh, distinct entry object per file, holding `NewEntries` |
| ProductsPage.NewEntries | src/app/products/page.tsx:121-125 | one entry per file, in file order, with its preview and no alt |
| ProductsPage.ProductList.constructor | src/app/products/page.tsx:86-104 | the page starts sorted by name ascending, page 1 of 10, no dialog, no images, details tab, tax rate 11 |
| ProductsPage.ProductList.HandleSort | src/app/products/page.tsx:110-117 | a new column starts ascending, the same column flips, the paging stays |
| ProductsPage.ProductList.SortedAndPaginatedData | src/app/products/page.tsx:157-166 | the rows shown are the current page of the products stably sorted by the current column |
| ProductsPage.ProductList.HandleImageUpload | src/app/products/page.tsx:119-127 | fresh entries for the files are appended after the existing ones, which are unchanged; every other field of the page is kept |
| ProductsPage.ProductList.HandleRemoveImage | src/app/products/page.tsx:129-134 | the entry at the index leaves the list and the others keep their order; every other field is kept |
| ProductsPage.ProductList.HandleAltChange | src/app/products/page.tsx:136-140 | only the alt of the entry at the index changes, in place |
| ProductsPage.ProductList.HandleEditProduct | src/app/products/page.tsx:142-146 | the product is selected and the edit dialog opens on the images tab; the add flag, the images and the tax rate are kept |
| ProductsPage.ProductList.HandleSetThumbnail | src/app/products/page.tsx:148-155 | with a selection only its thumbnail index changes; without one nothing changes; every other field is kept |
| ProductsPage.ProductList.Cancel | src/app/products/page.tsx:508-512 | the form's Cancel turns both flags off and clears the selection, keeping the images, the tab and the tax rate |
| ProductsPage.ProductList.OnTaxRateInput | src/app/products/page.tsx:550 | only the tax rate changes, to the number typed, fractions included |
| ProductsPage.ProductList.OnDialogOpenChange | src/app/products/page.tsx:344-352 | closing clears the flags, the selection and the images and goes back to the details tab, keeping the tax rate; opening changes nothing |
| ProductsPage.SetThumbnail | src/app/products/page.tsx:148-155 | the spread copy differs from the product only in `thumbnailIndex` |
| ProductsPage.PriceText | src/app/products/page.tsx:106-108 | a price prints as its digits with a `.` every three from the right (the chunked grouping), and its digits read back |
| PromotionPage.GetPromotionStatus | src/app/products/promotion/page.tsx:148-156 | scheduled before the start, expired after the end, active in between, start tested first |
| PromotionPage.EndBeforeStartNeverActive | src/app/products/promotion/page.tsx:148-156 | a promotion ending before it starts is never active |
| PromotionPage.StatusMovesForward | src/app/products/promotion/page.tsx:148-156 | as time passes the status only moves from scheduled to active to expired |
| PromotionPage.PromotionList.constructor | src/app/products/promotion/page.tsx:113-133 | the page starts sorted by start date ascending on page 1 of 10, with nothing selected |
| PromotionPage.PromotionList.HandleSort | src/app/products/promotion/page.tsx:139-146 | a new column starts ascending, the same column flips, the paging stays |
| PromotionPage.PromotionList.SortedAndPaginatedData | src/app/products/promotion/page.tsx:168-177 | the rows shown are the current page of the promotions stably sorted by the current column |
| PromotionPage.PromotionList.HandleProductSelection | src/app/products/promotion/page.tsx:158-166 | the picked products become the old ones with the id toggled; the selection and the dialog flag are kept |
| PromotionPage.PromotionList.OpenEdit | src/app/products/promotion/page.tsx:367-371 | the promotion is selected, its products are ticked, the dialog opens |
| DeliveryPage.FilteredDeliveries | src/app/delivery/page.tsx:187-192 | "all" keeps every delivery; any other tab keeps exactly the deliveries whose lower-cased status is the tab |
| DeliveryPage.OrdersOf | src/app/delivery/page.tsx:213-222 | a customer's group holds exactly that customer's orders |
| DeliveryPage.CustomerNames | src/app/delivery/page.tsx:213-222 | the group keys are distinct and are exactly the customers with an order |
| DeliveryPage.GroupOrders | src/app/delivery/page.tsx:213-222 | the loop builds one group per customer, keyed in first-seen order, holding that customer's orders in list order |
| DeliveryPage.GroupStep | src/app/delivery/page.tsx:216-220 | one pass of the grouping loop keeps the groups and names of the orders seen so far |
| DeliveryPage.EachOrderInOneGroup | src/app/delivery/page.tsx:213-222 | every order is in its customer's group and in no other |
| DeliveryPage.DeliveryManagement.constructor | src/app/delivery/page.tsx:152-176 | the page starts on the pending tab sorted by planned date ascending, page 1 of 10, with the mock areas |
| DeliveryPage.DeliveryManagement.HandleSort | src/app/delivery/page.tsx:178-185 | a new column starts ascending, the same column flips, the paging stays |
| DeliveryPage.DeliveryManagement.SetActiveTab | src/app/delivery/page.tsx:288-322 | only the tab changes: every other field and the table's page are kept |
| DeliveryPage.DeliveryManagement.SortedAndPaginatedData | src/app/delivery/page.tsx:194-203 | the rows shown are the current page of the tab's deliveries stably sorted by the current column |
| DeliveryPage.DeliveryManagement.OnNewAreaInput | src/app/delivery/page.tsx:467-469 | the field text follows the input; every other field is kept |
| DeliveryPage.DeliveryManagement.AddArea | src/app/delivery/page.tsx:474-479 | a text that trims to nothing changes no field; otherwise the trimmed text is appended, the field cleared, and every other field kept |
| DeliveryPage.DeliveryManagement.RemoveArea | src/app/delivery/page.tsx:495-497 | the area at the index leaves the list; every other field is kept |
| DeliveryPage.DeliveryManagement.OnOrderChecked | src/app/delivery/page.tsx:549-554 | ticking appends the order id, unticking removes every copy; every other field is kept |
| DeliveryPage.Closed | src/app/delivery/page.tsx:509-516 | closing the dialog turns both flags off and clears the selection and the ticked orders; the tab, the area field and the areas are kept |
| DeliveryPage.DeliveryManagement.OnDialogOpenChange | src/app/delivery/page.tsx:509-516 | closing leaves `Closed` of the old state; opening changes nothing |
| DeliveryPage.DeliveryManagement.Cancel | src/app/delivery/page.tsx:638-643 | Cancel leaves `Closed` of the old state, the same state as closing the dialog |
| DeliveryPage.StalePageShowsNothing | src/app/delivery/page.tsx:194-205 | a page beyond the current tab's last page shows no delivery |
| Sidebar.IsActive | src/components/ui/navigation/AppSidebar.tsx:97-99 | a link is active on its own path or on a path below it, never on a longer name that only shares a prefix |
| Sidebar.ProductLinks | src/components/ui/navigation/AppSidebar.tsx:53-99 | the product entry is active on the promotion page but not on `/productsfjkd` |
| Sidebar.TopLinksExclusive | src/components/ui/navigation/AppSidebar.tsx:24-39 | no path highlights both top links, Customer Management and Credit |
| Sidebar.AppSidebar.constructor | src/components/ui/navigation/AppSidebar.tsx:91-95 | the sidebar starts with the first entry's submenu open |
| Sidebar.AppSidebar.ToggleMenu | src/components/ui/navigation/AppSidebar.tsx:101-107 | the open menus become the old ones with the name toggled, so its openness flips |
| Sidebar.ToggleTwiceRestoresOpen | src/components/ui/navigation/AppSidebar.tsx:101-107 | toggling a menu twice restores whether it is open |
| Breadcrumbs.Segments | src/components/ui/navigation/Breadcrumbs.tsx:9 | the segments are non-empty and contain no slash |
| Breadcrumbs.Crumbs | src/components/ui/navigation/Breadcrumbs.tsx:11-21 | one crumb per segment, linking to the path so far, labelled by the capitalized segment; only the last is current |
| Breadcrumbs.BuildBreadcrumbs | src/components/ui/navigation/Breadcrumbs.tsx:9-23 | no trail exactly when the path has no segment, otherwise the crumbs of its segments |
| Breadcrumbs.OneCurrentCrumb | src/components/ui/navigation/Breadcrumbs.tsx:14 | exactly one crumb is current, the last |
| Breadcrumbs.HrefChain | src/components/ui/navigation/Breadcrumbs.tsx:12 | the first link is "/" and the first segment; each later link extends the previous one by "/" and its segment |
| Breadcrumbs.RootHasNoTrail | src/components/ui/navigation/Breadcrumbs.tsx:23 | the root and the empty path render no trail |
| Breadcrumbs.NormalPathRoundTrip | src/components/ui/navigation/Breadcrumbs.tsx:9-14 | on a path without empty segments the segments read back exactly and the last crumb links to the path |
| Breadcrumbs.PromotionTrail | src/components/ui/navigation/Breadcrumbs.tsx:9-21 | `/products/promotion` shows "Products" then the current "Promotion" |

## Left out

- Rendering: the JSX, styling, icons, tooltips and charts are not modelled. Only the state they read or write is.
- The mock data arrays are not reproduced. Each page takes its records as a constructor parameter.
- `URL.createObjectURL` and `URL.revokeObjectURL` are host calls. Upload takes the previews as a parameter, and removal does not model the revoke.
- `usePathname` is a host call. The pathname is a parameter of the sidebar and of the breadcrumb builder.
- `console.log` in the delivery status handler is output only; that handler is not modelled.
- `new Date()` and date parsing: PromotionPage.GetPromotionStatus takes the current time and the parsed start and end as timestamps. How `new Date("2024-06-30")` fixes the time of day is not modelled.
- CreditPage.GetCreditStatus compares `used * 100` with `90 * limit` exactly, where the code divides in floating point. Rounding at the thresholds is not modelled.
- The utilisation bar's width and the `toFixed` percentages are not modelled. They are floating-point display.
- Currency.ParseCurrency reads any number of digits exactly. `parseInt` loses precision above 2^53, which is not modelled.
- Currency.Digits writes every number in plain decimal, so Currency.AmountRoundTrip holds for every amount. `toString` switches to exponential form from 1e21: the credit field would then show "Rp 1e+21", which reads back as 121. That region is not modelled.
- Comparisons between mixed or null column values cannot happen: each sortable column is of one kind. `Ordering.KeyLess` still gives mixed keys a fixed order so that it is total.
- Only the columns that have a sort button are sort fields.
- Text.ToLower and Text.Capitalize map ASCII letters only. Unicode case mapping is not modelled.
- A Dafny `char` is a Unicode scalar value. It cannot hold a lone surrogate, and a character outside the Basic Multilingual Plane is one `char` where JavaScript sees two code units. So string order and lengths are modelled only for text without such characters.
- DeliveryPage.GroupOrders returns the keys as a separate sequence in first-seen order. JavaScript lists integer-like keys first, and `groups[name]` on a name like "constructor" reads an inherited property. Neither is modelled.
- The search boxes, status filters, export buttons and form submits have no logic beyond opening or closing a dialog, and neither do the Cancel buttons of the single-purpose dialogs (delete, password reset, credit limit, payment terms, notes, the promotion dialogs, tax settings). Each of those only turns its own open flag off, and those flags are not modelled.
- The add/edit forms' Cancel buttons are modelled one by one. They differ from closing the dialog in two places: on the orders page, Cancel keeps `showDeliveryOptions` (OrdersPage.OrderManagement.Cancel). On the products page, it keeps the uploaded images and the tab (ProductsPage.ProductList.Cancel).
- `Array.prototype.sort` is an engine algorithm, TimSort in V8. The model sorts by insertion instead. Sorting.StableSortUnique shows that every stable sort gives the same rows.
- The payment-terms field's `Number(e.target.value)`: CreditPage.CreditList.OnDefaultPaymentTermsInput takes the resulting number.
- The tax-rate field's `Number(e.target.value)`: ProductsPage.ProductList.OnTaxRateInput takes the resulting number as an exact `real`. Floating-point rounding of decimal rates is not modelled, and neither is the tax dialog's own open flag.
- TableView.TableState.HandleRowsPerPageChange requires one of the options 10, 20, 50 or 100. Those are the only values the rows-per-page select can send; `Number` of any other text is not modelled.
- ProductsPage.ProductList.HandleRemoveImage and HandleAltChange require an index inside the list. Those are the only indices the image list's buttons pass. In the code, an index outside it throws.
