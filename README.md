# Product catalog listing (remarcable `products` app) in Dafny

This project models the product catalog of the remarcable Django app: the
`Category`, `Tag` and `Product` models with their timestamps, column limits,
uniqueness rules, default orderings and the PROTECT rule on a product's
category, and the public `ProductListView`. For each request the view keeps the
active products that match a search text, a category and any number of tags.
It drops the duplicate rows that the tag join produces, orders the rest newest
first and serves them ten to a page. It also sets a flag that tells the page
whether any filter input was given.

Modules, one per concern:

- `Wrappers`: `Option`, `Result` and `Outcome`.
- `Text`: the string functions the view relies on:
  - Python's `str.strip()` and `int()` as applied to query-string values;
  - the ASCII case fold behind Django's `icontains`;
  - code-point order on names.
- `Sorting`: a stable insertion sort by a total preorder, with its sortedness and permutation lemmas.
- `Models`: the records, `TimeStampedModel`'s stamps, `Currency`, the price column and the `Meta.ordering` of each model.
- `Store`: the rows of the three tables and the writes on them.
  - `Store.Catalog` is a class whose methods insert, save and delete rows.
  - Each method either keeps every table constraint or refuses the write with the database's reason and changes nothing.
- `Paging`: Django's `Paginator` and `paginate_queryset` as `ListView` applies them with `paginate_by = 10`.
- `Views`: `get_queryset` and `get_context_data`, in four parts:
  - the listing rule per product (`Selected`) and over a table (`Listing`);
  - a lazy query set (a list of lookups plus the `distinct()` flag);
  - the imperative `GetQueryset`, proved equal to `Listing`;
  - the context (`initial_data`, `active_filters`, the page).

Three points where the code behaves differently from what a reader of the view might expect:

- A category or tag input that `int()` cannot read (`?category=abc`) makes Django's lookup raise `ValueError`.
  - The request fails. It does not yield an empty listing.
  - The model returns `Failure(InvalidId(raw))`, checking the category first and then the tags in request order, as the filters are built.
  - `int()` skips less white space than `str.strip()` does: an id with U+001C to U+001F at an end is unreadable.
- `Product.Meta.ordering` is `["-created_at"]` only, with no tie-break on the id.
  - The model therefore promises only that `created_at` never increases down the listing.
  - Rows with equal `created_at` keep their stored order.
- `Product` declares no `description` field, yet the search filters on `description__icontains`. See "## Findings".
  - The rest of the model uses the corrected `Product`, which carries a `description`.

## Model

| member | source | states |
|---|---|---|
| Models.Inserted | products/models.py:20-22 | a new row's created_at and updated_at each take their own clock reading, made as the row is inserted |
| Models.Resaved | products/models.py:20-22 | saving again keeps created_at and sets updated_at to the save time |
| Models.HistoryStamps | products/models.py:18-22 | after any number of saves, created_at is still its insertion reading and updated_at is the last save's reading |
| Models.ParseCurrency | products/models.py:62-64 | exactly the codes "CAD" and "USD" name a currency, and the currency read back has that code |
| Models.CurrencyCodeRoundTrip | products/models.py:62-64 | each currency's stored code reads back as that currency; its label differs from its code |
| Models.DigitCount | products/models.py:72 | a number has at most d decimal digits exactly when it is below 10^d |
| Models.PriceFitsBound | products/models.py:72 | a price fits max_digits=14 with decimal_places=2 exactly when its amount in cents lies within ±99 999 999 999 999 |
| Models.CategoryOrderTotal | products/models.py:40 | ordering by name is a total preorder on categories |
| Models.TagOrderTotal | products/models.py:55 | ordering by name is a total preorder on tags |
| Models.OrderCategories | products/models.py:40 | categories come out as a permutation of the input, sorted by name |
| Models.OrderTags | products/models.py:55 | tags come out as a permutation of the input, sorted by name |
| Models.OrderProducts | products/models.py:92 | products come out as a permutation of the input, with created_at never increasing (newest first) |
| Models.OrderedNamesStrict | products/models.py:30 | with unique names, the ordered categories have strictly distinct names |
| Text.Strip | products/views.py:36 | strip() never lengthens its input; what it returns is stated by Text.StripSpec |
| Text.StripSpec | products/views.py:36 | strip() returns the factor of the input between all-white-space ends. The result has no white space at either end; it is empty exactly when the input is all white space; an input with no white space at its ends is unchanged |
| Text.TrimStartSpec | products/views.py:36 | lstrip() keeps a suffix and drops only white space, stopping at the first other character |
| Text.TrimEndSpec | products/views.py:36 | rstrip() keeps a prefix and drops only white space, stopping at the last other character |
| Text.StripFactor | products/views.py:36 | the stripped search is a factor of the raw one with only white space around it |
| Text.StripEnds | products/views.py:36 | a non-empty stripped search starts and ends with a character other than white space |
| Text.StripEmptyIffBlank | products/views.py:36 | the stripped search is empty exactly when the raw one is all white space |
| Text.StripKeeps | products/views.py:36 | a search with no white space at its ends is left as it is |
| Text.ContainsIff | products/views.py:40-41 | the substring test holds exactly when the needle occurs at some position of the haystack |
| Text.IContainsIgnoresCase | products/views.py:40-41 | icontains gives the same answer whatever the ASCII case of either string |
| Text.LowerIdempotent | products/views.py:40-41 | folding case twice is folding once |
| Text.ParseIntNeedsDigit | products/views.py:44 | int() succeeds only on a string holding a digit: an empty or all-white-space id fails |
| Text.ParseIntSpec | products/views.py:44 | int() returns v exactly when the input is a literal of value v (an optional sign, then at most 4300 digits with single underscores between them) with only the white space int() skips (space, U+0009 to U+000D, and non-ASCII white space) before and after it |
| Text.ParseIntKeepsSeparators | products/views.py:44 | an input that starts or ends with U+001C to U+001F fails: int() does not skip these, though str.strip() does |
| Text.StripPadded | products/views.py:36 | a factor with non-white-space ends and only white space around it is exactly what the strip returns |
| Views.SeparatedCategoryFails | products/views.py:43-44 | a category input that starts or ends with U+001C to U+001F fails the request with InvalidId |
| Text.ParseDecimalString | products/models.py:47 | int() reads back the decimal spelling str() writes for every natural number of at most 4300 digits, and refuses a longer one |
| Text.ParseIntDigits | products/views.py:44 | a non-empty string of digits only is read as the number it spells when it has at most 4300 digits, and makes int() fail when it has more |
| Text.LexLeqTotal | products/models.py:40 | code-point order on names is total |
| Text.LexLeqTransitive | products/models.py:40 | code-point order on names is transitive |
| Text.LexLeqAntisymmetric | products/models.py:40 | two names each ordered before the other are equal |
| Sorting.SortBySorted | products/models.py:92 | sorting by a total preorder gives a sorted sequence |
| Sorting.SortBySameElements | products/models.py:92 | sorting keeps exactly the same elements, with the same multiplicities |
| Store.FindCategory | products/models.py:74-80 | finds the row of a category id, and finds none exactly when no category has that id |
| Store.FindTag | products/models.py:82-86 | finds the row of a tag id, and finds none exactly when no tag has that id |
| Store.FindProduct | products/models.py:67 | finds the row of a product id, and finds none exactly when no product has that id |
| Store.CheckCategory | products/models.py:30-32 | a category write passes exactly when name and slug fit their max_length and no other category has that name or slug; a taken name is reported as NameTaken |
| Store.CheckTag | products/models.py:51-52 | a tag write passes exactly when name and slug fit and no other tag has that name or slug; a taken name is reported as NameTaken |
| Store.CheckProduct | products/models.py:69-80 | a product write passes exactly when name, slug and price fit, the slug is not another product's, and the category exists; the name need not be unique |
| Store.RemoveAt | products/models.py:78 | deleting a row keeps every other row, in order |
| Store.WithoutTag | products/models.py:82-86 | deleting a tag removes it from every product's tags and changes nothing else |
| Store.Catalog.constructor | products/models.py:28-92 | an empty catalog is valid and every id counter starts at 1 |
| Store.Catalog.AddCategory | products/models.py:28-34 | inserts the category with the next id, stamped now, or refuses with the check's reason and changes nothing; keeps every table constraint |
| Store.Catalog.SaveCategory | products/models.py:28-34 | rewrites the category's fields, keeping created_at and refreshing updated_at; refuses an unknown id or a clash and changes nothing |
| Store.Catalog.DeleteCategory | products/models.py:78 | refuses with Protected, changing nothing, while any product references the category; otherwise removes just that row |
| Store.Catalog.AddTag | products/models.py:50-52 | inserts the tag with the next id, stamped now, or refuses and changes nothing |
| Store.Catalog.SaveTag | products/models.py:50-52 | rewrites the tag, keeping created_at and refreshing updated_at, or refuses and changes nothing |
| Store.Catalog.DeleteTag | products/models.py:82-86 | removes the tag and its many-to-many rows; the product rows are otherwise untouched |
| Store.Catalog.AddProduct | products/models.py:67-88 | inserts the product with the next id, no tags and is_active defaulting to true, or refuses and changes nothing |
| Store.Catalog.SaveProduct | products/models.py:67-88 | rewrites the product, keeping its tags and created_at and refreshing updated_at, or refuses and changes nothing |
| Store.Catalog.SetProductTags | products/models.py:82-86 | replaces the product's tags when every tag exists, leaving its stamps alone, or refuses with UnknownTag |
| Store.Catalog.DeleteProduct | products/models.py:67-92 | removes just that product row, or refuses an unknown id |
| Store.RemovedIds | products/models.py:78 | removing a category row removes exactly its id from the set of category ids |
| Store.RemovedTagIds | products/models.py:82-86 | removing a tag row removes exactly its id from the set of tag ids |
| Store.ProtectedDeleteWouldDangle | products/models.py:78 | deleting a category that a product references would break the rule that every product references an existing category |
| Store.UnreferencedDeleteKeepsProducts | products/models.py:74-80 | deleting a category that no product references keeps every product's references valid |
| Paging.NumPages | products/views.py:23 | just enough pages of 10 rows to hold the listing, and one page when it is empty |
| Paging.RequestedPage | products/views.py:23 | no page input or an empty one asks for page 1, and "last" asks for the last page. An input int() reads asks for that number. Any other input fails with PageNotAnInteger, and nothing else fails |
| Paging.LastIsNotANumber | products/views.py:23 | int("last") fails, so "last" reaches its special case |
| Paging.Page | products/views.py:23 | a page exists exactly for the numbers 1 to the last page, and a missing one is EmptyPage. A page holds at most 10 rows, and exactly 10 unless it is the last. Entry k of page n is row 10(n-1)+k of the listing |
| Paging.PaginateQueryset | products/views.py:23 | the requested number's page is served when that page exists. A number outside 1 to the last page fails with EmptyPage, and a page-input failure is passed on. No page input serves page 1 |
| Paging.ServesRequestedPage | products/views.py:23 | a page number written into the query string serves exactly that page whenever it exists; one of more than 4300 digits fails with PageNotAnInteger |
| Paging.PagesArePrefix | products/views.py:23 | the first n pages, one after another, are the first 10n rows |
| Paging.PagesCoverAll | products/views.py:23 | all pages, one after another, are the whole listing in order |
| Paging.PageOfIndex | products/views.py:23 | row i of the listing is entry i mod 10 of page i div 10 + 1 |
| Views.FirstMalformed | products/views.py:46-48 | finds no malformed tag input exactly when every tag input is readable; when it finds one, that input is in the request and malformed |
| Views.FirstMalformedAt | products/views.py:46-48 | a malformed input after only readable ones is the one reported |
| Views.Select | products/views.py:39-48 | keeps exactly the rows the product conditions select |
| Views.Distinct | products/views.py:53 | keeps every row, each exactly once |
| Views.Filter | products/views.py:39-48 | adding a lookup adds exactly its condition and leaves distinct() alone |
| Views.RowsAreSelection | products/views.py:27-53 | lookups that hold of exactly the selected products return exactly the selected rows |
| Views.FilterTag | products/views.py:47-48 | an empty tag input adds no condition. A readable one adds "carries this tag". An unreadable one fails with InvalidId |
| Views.FilterTags | products/views.py:46-48 | after the tag loop, a product is kept exactly when it carries every non-empty tag input. The loop fails exactly when some input is unreadable, with the first such input |
| Views.GetQueryset | products/views.py:27-53 | the method's result is the listing rule: a failure on the first malformed id, otherwise the selected rows, each once, newest first |
| Views.CarriesTagsSnoc | products/views.py:46-48 | one more tag input adds exactly its own condition |
| Views.SelectedMeans | products/views.py:28-48 | a product is listed exactly when it is active, matches the stripped search in its name or description, is in the category when one is given, and carries every non-empty tag input (AND) |
| Views.CarriesTagsMeans | products/views.py:46-48 | the tag inputs are ANDed, and empty inputs are ignored |
| Views.ListingFailsIffMalformed | products/views.py:43-48 | the request fails exactly when the category input or some tag input is a non-empty string int() cannot read; the reported input is such an input |
| Views.ListingShape | products/views.py:27-53 | a successful listing is sound and complete for the listing rule, has no repeated row, and is newest first |
| Views.OrderingKeepsRows | products/models.py:92 | ordering rows without repeats keeps the same rows, as many, and adds no repeat |
| Views.CountAtMostOnce | products/views.py:53 | in a sequence without repeats, no element is counted twice |
| Views.ListingIdsUnique | products/views.py:50-53 | with unique product ids, no product id appears twice in the listing |
| Views.BlankSearchMatchesAll | products/views.py:36-42 | an empty or all-white-space search imposes no restriction |
| Views.BlankRequestListsActive | products/views.py:27-53 | with no search, category or non-empty tag input, the listing is exactly the active products |
| Views.CategoryLinkLists | products/models.py:46-47 | following a category's link lists exactly the active products of that category; a pk of more than 4300 digits fails the request with InvalidId |
| Views.AnyTruthy | products/views.py:71 | any() holds exactly when some value is a non-empty string or a non-empty list |
| Views.InitialData | products/views.py:63-67 | the form is pre-filled with the raw search, category and tag inputs |
| Views.ActiveFilters | products/views.py:71 | the flag is set exactly when the raw search, the raw category or the raw tag list is non-empty |
| Views.SameSelection | products/views.py:27-53 | requests that select the same products give the same rows |
| Views.BlankInputsSelectActive | products/views.py:36-48 | a blank search with only empty tag inputs leaves just the is_active condition |
| Views.FlagWithoutNarrowing | products/views.py:71 | a white-space search or empty tag inputs set the flag, yet list exactly what a request with no inputs lists |
| Views.GetContextData | products/views.py:57-73 | a failing query fails the view. Otherwise the view succeeds exactly when the page input resolves to an existing page, and fails with that page error when it does not. On success the context holds the requested page number and that page of the listing (at most 10 listed products), the page count, the raw inputs as initial data, and the flag set exactly when a raw input is non-empty |
| Views.FirstUnknown | products/views.py:39-42 | finds the first looked-up name the model does not declare, and finds none exactly when every name is declared |
| Views.AsWrittenAlwaysFails | products/views.py:39-42 | with the fields Product declares, every request fails with a FieldError on description |
| Views.CorrectedResolves | products/views.py:39-42 | with description declared, every lookup resolves and the listing rule applies |

## Left out

- admin.py, forms.py and apps.py are not part of this model.
  - The filter form is reduced to the `initial_data` it receives.
  - Slugs are taken as given: the signal that derives a blank slug is not part of this model.
- HTTP and the query string:
  - Request parsing, URL routing and template rendering are left out.
  - The request is the three raw inputs that `GET.get` and `GET.getlist` return.
  - When a parameter is repeated, `GET.get` returns its last value; the model takes that value as given.
  - `is_paginated`, `page_obj` and the other context entries that Django adds are reduced to the `Context` fields.
- `select_related` and `prefetch_related` change how many queries run, not which rows are returned, so the model leaves them out.
- Database behaviour outside the schema:
  - Column limits and uniqueness are checked before each write. Real databases differ in when they enforce max_length; SQLite does not enforce it at all.
  - Collation: the model folds ASCII case only for `icontains` and orders names by code point. Other databases differ: PostgreSQL compares with `UPPER()` and sorts by the column's collation.
  - An id too large for the database's integer column is not modelled.
- Text.ParseInt: models `int()` for ASCII digits with an optional sign and single underscores between digits, with the white space `int()` skips around them, and at most 4300 digits (the default of `sys.int_info.default_max_str_digits`). Non-ASCII digits, which Python also accepts, are left out, and so is a digit limit changed with `sys.set_int_max_str_digits` or `PYTHONINTMAXSTRDIGITS`.
- djmoney: currency conversion and the money arithmetic are left out. A price is an exact amount in cents; rounding of amounts with more than two decimals is not modelled.
- The clock: the caller supplies every clock reading. An insert takes two, one for `created_at` and one for `updated_at`, because each field reads the clock on its own; a later save takes one. Whether later saves carry later times is not modelled, so orderings by time are stated over whatever values the rows hold.
- Views.GetQueryset: the query set is evaluated in one step, and the rows come from the table as a sequence. The SQL join and the database's own duplicate removal are reduced to `Rows` and `Distinct`.
- Models.OrderProducts: rows with equal `created_at` come out in their stored order. The database may return such rows in any order, because the ordering has no tie-break.
- Store.Catalog: concurrent writers and transactions are left out; each write is atomic.

## Findings

| source | as written | input that shows it | evidently intended | confidence | as-written member | corrected member |
|---|---|---|---|---|---|---|
| products/views.py:40 | the search filter names `description`, a field `Product` (products/models.py:67-88) does not declare, so building the query set raises FieldError on every listing request | any request, for example `GET /` with no parameters | `Product` declares a `description` field (as `Category` does at products/models.py:34), and the search matches it or the name, case-insensitively | not executed | Views.AsWrittenAlwaysFails | Views.GetQueryset |
