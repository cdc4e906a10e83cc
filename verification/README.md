# Product listing filters, from the page state to the SQL query

This project models the product listing feature of the shop in two halves.

The first half is the filter panel of the product page (`SortMenu` in
`frontend/src/pages/Product.tsx`). It covers:

- the `TypeParams` state and its defaults;
- the `setParams` updaters behind the category checkboxes, the minimum and
  maximum price inputs and the condition radios;
- the effect that serialises the state into `URLSearchParams` pairs;
- the `categoriesByType` reduce that groups the categories for display.

The second half is the `get_products` handler of `backend/app/api/products.py`.
It covers:

- request validation;
- `sort_by` parsing;
- the step-by-step assembly of the query text, with its single `AND`→`WHERE`
  rewrite;
- the bind parameters;
- the pagination block of the response.

A third module joins the halves. The page writes its state into its own URL
(`setSearchParams`). The module reads that URL as the endpoint would, as a
`get_products` request, and proves what the endpoint would see for every
state the panel can reach. The page's own products request does not go
through these pairs. It is made by the generated `ProductService.getProducts`
client straight from the state (`Product.tsx:33-44`), and that client is not
part of this model.

Files:

- `common.dfy`:
  - `Wrappers`: `Option` and `Result`.
  - `Seqs`: order-preserving sub-sequences.
  - `Decimal`: JavaScript's `toString` of integers and the endpoint's integer
    parsing, with their round trip.
- `product_page.dfy` (`ProductPage`):
  - the state and the four updaters, as functions;
  - the reducer `Replay` over panel events, and the `Reachable` invariant;
  - the serialiser, as a method with loops proved against `QueryPairs`.
- `category_groups.dfy` (`CategoryGroups`): the reduce as a method that
  updates a map step by step. It is proved against the specification
  functions `Types` (key order) and `Members` (each group).
- `products_api.dfy` (`ProductsApi`):
  - the query as a sequence of pieces: the SELECT head, the filter clauses
    with their keyword, and the ORDER BY/LIMIT tail;
  - the assembly as methods;
  - `ReplaceFirstAnd` for `str.replace(..., 1)`;
  - `Bind`, `Paginate` and the handler `GetProducts`.
- `query_roundtrip.dfy` (`QueryRoundTrip`):
  - `Decode`, the framework reading of query pairs, where the last value of
    a scalar key wins;
  - the round trip from page state to request;
  - the price finding below.

Checking a category appends the id without a presence check, so checking an
id that is already present duplicates it (`ProductPage.RecheckDuplicates`).

The `sort_by` and `condition` patterns are tested with Python's `re.match`,
where `$` also matches before a final newline. The model accepts those values
as the endpoint does. `"Title a_z\n"` then sorts by title descending, because
its second word is `"a_z\n"`. `"Newest\n"` and `"Oldest\n"` pass validation
but bind no ordering.

## Model

| member | source | states |
|---|---|---|
| ProductPage.InitialQuery | frontend/src/pages/Product.tsx:23-31 | The initial state (page 1, page size 20, "Title a_z", nothing else) serialises to exactly the pairs page=1, page_size=20, sort_by=Title a_z |
| ProductPage.QueryPairs | frontend/src/pages/Product.tsx:108-129 | The pairs the effect appends: the header, one pair per category, one per truthy price slot, then the non-empty condition and product name (its layout is stated by `QueryLayout` and `QueryPriceLayout`) |
| ProductPage.TruthyPrices | frontend/src/pages/Product.tsx:117-121 | The `if (single_price)` filter: never longer than the slots, and no kept value is 0 |
| ProductPage.OnCategoryChange | frontend/src/pages/Product.tsx:168-183 | Only `category` changes. The id is in the new list iff the box was checked. Checking appends it at the end, adding one occurrence. Unchecking keeps the others in order. No other id's count changes |
| ProductPage.Without | frontend/src/pages/Product.tsx:178-180 | The filter removes every occurrence of the id, keeps every other id's count, and keeps order (sub-sequence) |
| ProductPage.WithoutAppended | frontend/src/pages/Product.tsx:173-180 | Filtering out an id that was absent and then appended gives back the original list |
| ProductPage.CheckThenUncheckRestores | frontend/src/pages/Product.tsx:168-183 | Checking and then unchecking an absent id restores the whole state |
| ProductPage.RecheckDuplicates | frontend/src/pages/Product.tsx:170-174 | Checking an id that is already present leaves it at least twice in the list |
| ProductPage.OnMinPriceBlur | frontend/src/pages/Product.tsx:208-216 | An empty input leaves the state unchanged. Otherwise the price list becomes two slots, slot 0 is the input and slot 1 is the previous slot 1. Only `price` changes |
| ProductPage.OnMaxPriceBlur | frontend/src/pages/Product.tsx:229-237 | An empty input leaves the state unchanged. Otherwise slot 1 is the input, slot 0 keeps a truthy previous minimum and becomes 0 otherwise. Only `price` changes |
| ProductPage.PriceBlursCommute | frontend/src/pages/Product.tsx:208-237 | Setting a minimum and a maximum gives [min, max] in either order |
| ProductPage.PriceOrderNotChecked | frontend/src/pages/Product.tsx:208-237 | For any state and any minimum above the maximum, the two blurs store [min, max] as entered: no min ≤ max check |
| ProductPage.OnConditionChange | frontend/src/pages/Product.tsx:252-260 | An unchecked radio changes nothing. A checked radio sets `condition` to its value, and only `condition` changes |
| ProductPage.ReplayReachable | frontend/src/pages/Product.tsx:168-260 | Every sequence of panel events from the initial state gives a state where page, page size, sort and product name keep their defaults. The condition is "", "new" or "used". The price list is empty, or two slots with slot 0 defined |
| ProductPage.SelectedIffLastChecked | frontend/src/pages/Product.tsx:168-183 | After any sequence of panel events, an id is selected iff its last checkbox event checked it |
| ProductPage.SerializeParams | frontend/src/pages/Product.tsx:108-129 | The append loops produce exactly `QueryPairs(p)` |
| ProductPage.QueryLayout | frontend/src/pages/Product.tsx:110-116 | The pairs begin with page, page_size (as decimal text) and sort_by, then one category pair per entry in list order, duplicates included |
| ProductPage.QueryPriceLayout | frontend/src/pages/Product.tsx:117-127 | After the categories come one price pair per truthy slot in slot order, then condition and then product_name, each only when non-empty |
| ProductPage.TruthyPricesMembers | frontend/src/pages/Product.tsx:117-121 | A value is serialised as a price iff it is non-zero and held by some slot |
| ProductPage.TwoSlotPrices | frontend/src/pages/Product.tsx:117-121 | For two slots the serialised prices are the truthy ones among [min, max], min first |
| ProductPage.SerializeExample | frontend/src/pages/Product.tsx:108-129 | A worked state with two categories, an undefined maximum and condition "new" serialises to the expected pairs |
| Decimal.ParseIntToString | frontend/src/pages/Product.tsx:111-112 | The full decimal text of any integer is parsed back by the endpoint as the same integer. This is JavaScript's `toString` only for safe integers (see "## Left out") |
| Decimal.IntToString | frontend/src/pages/Product.tsx:111-112 | `toString()` of a safe integer: non-empty, with a leading `-` exactly for negative numbers |
| Decimal.ParseInt | backend/app/api/products.py:125-130 | The integer reading of a query value: it succeeds only on a non-empty text, which is all digits unless it starts with `-`, and a negative result comes from a leading `-` |
| CategoryGroups.Members | frontend/src/pages/Product.tsx:140-147 | A group keeps its categories in input order (sub-sequence) and is empty iff no category has that type |
| CategoryGroups.Types | frontend/src/pages/Product.tsx:140-147 | The keys are exactly the types that occur |
| CategoryGroups.TypesCount | frontend/src/pages/Product.tsx:142-144 | Each occurring type is a key exactly once |
| CategoryGroups.GroupedStep | frontend/src/pages/Product.tsx:141-146 | One reduce step (create the group if missing, push the category) keeps the dictionary equal to the grouping of the prefix |
| CategoryGroups.GroupByType | frontend/src/pages/Product.tsx:140-147 | The reduce creates keys in first-occurrence order, has a key iff its type occurs, and each group is exactly that type's categories in input order |
| CategoryGroups.KeysInFirstOccurrenceOrder | frontend/src/pages/Product.tsx:140-155 | Keys are ordered by the first index at which their type occurs |
| CategoryGroups.GroupSizesSum | frontend/src/pages/Product.tsx:140-147 | The group sizes add up to the number of categories |
| CategoryGroups.GroupMembership | frontend/src/pages/Product.tsx:140-147 | A category is in group t iff it is in the input and has type t. The group is a sub-sequence of the input |
| CategoryGroups.GroupExample | frontend/src/pages/Product.tsx:140-147 | Three categories whose first and last share a type give two groups [x, z] and [y], in that key order |
| ProductsApi.SplitJoin | backend/app/api/products.py:134 | `split(" ")` loses nothing: joining the fields gives the input back, and no field holds a space |
| ProductsApi.Split | backend/app/api/products.py:134 | `split(" ")`: always at least one field (`SplitJoin` states that the fields lose nothing) |
| ProductsApi.Lower | backend/app/api/products.py:142 | `lower()`: same length, each ASCII capital mapped to its lower case |
| ProductsApi.ParseSort | backend/app/api/products.py:134-143 | The `sorts` branches: Newest, Oldest, then any two-word value; `None` where no branch binds `order` (its meaning per option is stated by `SortOptionsParse` and `SortNewlineParse`) |
| ProductsApi.ParseOneWord | backend/app/api/products.py:134-143 | A one-word value sorts by creation time for Newest (DESC) and Oldest (ASC). Any other one-word value binds no ordering |
| ProductsApi.ParseTwoWords | backend/app/api/products.py:141-143 | A two-word value that is not a date option sorts by the lower-cased first word, ASC exactly when the second is "a_z" |
| ProductsApi.ValidRequest | backend/app/api/products.py:124-131 | The framework checks: page ≥ 1, page_size ≥ 1, each price ≥ 0, sort_by and condition matching their patterns with the optional final newline that `$` admits |
| ProductsApi.SortOptionsParse | backend/app/api/products.py:134-143 | Each accepted sort_by maps to its column and direction. The empty value binds none |
| ProductsApi.SortNewlineParse | backend/app/api/products.py:134-143 | The accepted values with a trailing newline: the two-word ones always sort descending, the one-word ones bind no ordering |
| ProductsApi.ValidSortParses | backend/app/api/products.py:127-143 | Among validated requests, an ordering is bound iff sort_by is none of "", "\n", "Newest\n" and "Oldest\n" |
| ProductsApi.FilterGuards | backend/app/api/products.py:154-163 | Each clause is on iff its guard holds: categories non-empty, name non-empty, ≥1 price, ≥2 prices, condition non-empty |
| ProductsApi.FilterOrder | backend/app/api/products.py:154-163 | Active clauses keep the fixed order category, name, min price, max price, condition |
| ProductsApi.ActiveFilters | backend/app/api/products.py:154-163 | The filters the guards switch on, in the order they are tested (stated by `FilterGuards`, `FilterOrder` and `PriceClauses`) |
| ProductsApi.PriceClauses | backend/app/api/products.py:158-176 | No price gives no price clause. One price gives a minimum only, with max_price bound to 0. Two give both, bound to the first and second values |
| ProductsApi.AppendClause | backend/app/api/products.py:154-163 | One guarded `query +=` adds one AND-led clause exactly when its guard holds |
| ProductsApi.AppendFilters | backend/app/api/products.py:145-163 | The appends give the head followed by the active filters, each led by AND |
| ProductsApi.ReplaceFirstAnd | backend/app/api/products.py:168 | Only the first AND becomes WHERE. A query without AND is unchanged |
| ProductsApi.ReplaceInAssembledQuery | backend/app/api/products.py:145-168 | On the assembled query the rewrite gives WHERE on the first clause and AND on the rest |
| ProductsApi.WhereClausesShape | backend/app/api/products.py:168 | Any filter yields exactly one WHERE, on the first clause. No filter yields none |
| ProductsApi.BuildQuery | backend/app/api/products.py:145-168 | Building fails (unbound `order`) iff sort_by binds no ordering. Otherwise it gives head, WHERE/AND clauses and the ORDER BY tail |
| ProductsApi.Bind | backend/app/api/products.py:170-181 | category and condition are bound as given. min_price/max_price are the first/second price when their clause is on, else 0. product_name is the name wrapped in `%`. offset is (page-1)·page_size and limit is page_size |
| ProductsApi.OffsetIsPageStart | backend/app/api/products.py:178-179 | For page ≥ 1 and page_size ≥ 1 the offset is non-negative, a multiple of page_size, and skips exactly page-1 pages |
| ProductsApi.ConsecutivePagesTile | backend/app/api/products.py:178-179 | The next page starts where this one ends (offset + limit) |
| ProductsApi.CeilDiv | backend/app/api/products.py:190 | The page count is the exact ceiling: (q-1)·size < total ≤ q·size |
| ProductsApi.Paginate | backend/app/api/products.py:183-194 | total_rows is the row count. page and page_size are echoed. With no rows total_item is 0 and total_page 1. Otherwise total_item is the first row's count and total_page its ceiling |
| ProductsApi.Fetch | backend/app/api/products.py:170-181 | The database call, abstracted: at most `limit` rows, exactly the part of the `matching` rows after `offset`, each carrying the full count |
| ProductsApi.ListingOfPage | backend/app/api/products.py:183-194 | At most a page of rows comes back and total_page ≥ 1. A page has rows iff it is within the page count, and then the totals are true. Earlier pages are full and the last holds the remainder |
| ProductsApi.Respond | backend/app/api/products.py:170-194 | The response carries the query, `Bind(req)` and exactly the pagination block of the page's rows. That block has at most page_size rows and total_page ≥ 1; it has rows iff the page is in range, and then total_item is the match count |
| ProductsApi.GetProducts | backend/app/api/products.py:121-194 | A request failing validation gets 422. A valid request whose sort_by binds no ordering fails on the unbound order. Otherwise it succeeds with the WHERE-rewritten query, `Bind(req)` and exactly the pagination block of the page's rows |
| QueryRoundTrip.DecodeDefaults | backend/app/api/products.py:124-132 | An empty query reads as the default request, which is valid and sorts by title ascending |
| QueryRoundTrip.Decode | backend/app/api/products.py:124-132 | How the framework fills the parameters from query pairs: lists collect every value in order, a repeated scalar takes its last value (and a missing one its default), and a non-integer page, page size or price is rejected |
| QueryRoundTrip.ParseInts | backend/app/api/products.py:130 | A list of texts parses iff every text parses, element by element |
| QueryRoundTrip.ParsePriceTexts | backend/app/api/products.py:130 | Prices written as decimal text read back as the same list |
| QueryRoundTrip.HeaderValues | frontend/src/pages/Product.tsx:110-113 | The URL the page writes carries page, page_size and sort_by once each, with the state's values as decimal text |
| QueryRoundTrip.CategoryValues | frontend/src/pages/Product.tsx:114-116 | The URL carries the category list under `category`, in order, duplicates included |
| QueryRoundTrip.PriceValues | frontend/src/pages/Product.tsx:117-121 | The URL carries exactly the written price texts under `price`, in order |
| QueryRoundTrip.OptionalValues | frontend/src/pages/Product.tsx:122-127 | The URL carries condition and product_name once when non-empty and not at all otherwise |
| QueryRoundTrip.DecodeQueryWith | frontend/src/pages/Product.tsx:108-129 | The endpoint reading the page's URL gets the state's fields and the written prices |
| QueryRoundTrip.UrlReadsTruthyPrices | frontend/src/pages/Product.tsx:117-121 | The endpoint reading the page's URL gets the state's fields and, as prices, the truthy slots only |
| QueryRoundTrip.ReachableRequestValid | backend/app/api/products.py:124-131 | A request read from a reachable state's URL, with non-negative prices, passes validation |
| QueryRoundTrip.MaxOnlyPriceReadAsMinimum | frontend/src/pages/Product.tsx:229-237 | From a reachable state with no minimum, entering only a maximum m > 0 stores [0, m] and writes only price=m into the URL. The endpoint reading that URL takes m as a minimum (price >= m), with no maximum |
| QueryRoundTrip.DefinedPrices | frontend/src/pages/Product.tsx:117-121 | The corrected serialisation keeps every defined slot, 0 included |
| QueryRoundTrip.DefinedSlotPositions | frontend/src/pages/Product.tsx:117-121 | For reachable price lists, defined slot i is at position i of the corrected prices |
| QueryRoundTrip.CorrectedPricesKeepSlots | backend/app/api/products.py:158-176 | With the corrected serialisation each price clause is on iff its slot is defined, and binds that slot's value |
| QueryRoundTrip.MaxOnlyPriceCorrected | backend/app/api/products.py:158-176 | With the correction, the maximum-only URL carries [0, m], and the endpoint reading it filters 0 ≤ price ≤ m |
| QueryRoundTrip.ReachableStatesAccepted | backend/app/api/products.py:124-143 | The URL of every reachable state with non-negative prices, written as the page does and as corrected, reads as a valid request that binds an ordering. The ordering is bound because the sort dropdown is left out, so sort_by stays "Title a_z" |

## Left out

- Rendering, JSX and the loading, error and empty branches of the page are not modelled. They are UI only.
- The react-query fetches, `useSearchParams`/`setSearchParams` and `console.log` are not modelled. They are asynchronous I/O; the serialiser's result is the pairs it would hand to `setSearchParams`.
- The products request the page actually sends, through the generated `ProductService.getProducts` client (`Product.tsx:33-44`), is not modelled. That client is not part of this model, so how it encodes the price list, including a 0 minimum, is unknown here. The `QueryRoundTrip` lemmas are about the page's URL read by the endpoint.
- The `pluralize`/`capitalCase` labels are not modelled. They are library text formatting.
- The sort dropdown is not modelled. Its state change lies outside the updaters; `sortBy` stays at its default in `Reachable`.
- Decimal.IntToString: JavaScript numbers are taken as safe integers (|n| ≤ 2^53). It writes every decimal digit of an unbounded integer. `Number.prototype.toString()` matches that only for safe integers. Above 2^53 the number itself has lost precision and prints as rounded digits: 2^60 prints as "1152921504606847000", which Python's `int()` reads as a different integer. From 1e21 on it prints in exponent form ("1e+21"), which `int()` rejects with a 422. Decimal.ParseIntToString, QueryRoundTrip.ParsePriceTexts, QueryRoundTrip.DecodeQueryWith and QueryRoundTrip.UrlReadsTruthyPrices hold for the page's real output only within that range.
- `Number(value)` is not modelled. Blur inputs arrive as `Option<int>`, where `None` is the empty string; float, NaN and non-integral prices are not covered.
- JavaScript object-key quirks are not modelled: integer-like keys iterating first in `Object.entries`, and prototype keys such as `constructor` in `acc[type]`. The grouping treats every type as an ordinary string key.
- Regrouping the flattened groups is not stated as a lemma. What is proved is each group's contents and order and the key order.
- ValidRequest does not check the UUID format of `category`, and ids are kept as text.
- Decimal.ParseInt: Python's `int()` also accepts a leading `+`, surrounding whitespace and `_` between digits; the model reads only an optional `-` followed by digits, so it rejects those spellings.
- `lower()` is modelled on ASCII letters only.
- The query text is not modelled as a string. It is a sequence of pieces whose SELECT head holds no `AND`; a `CLOUD_STORAGE` setting containing "AND" would break the rewrite, and that is not modelled.
- SQL execution is not modelled: `LIKE`, `IN`, grouping, ordering of rows and their data. The database is `Fetch`, a window of `matching` rows, each carrying `COUNT(*) OVER()` as `matching`.
- `math.ceil` on a float quotient is modelled as exact integer ceiling division.
- The other endpoints of `products.py` are not part of this model: create, update, delete, get one, and image search.

## Findings

| source | as written | input that shows it | evidently intended | confidence | as-written member | corrected member |
|---|---|---|---|---|---|---|
| frontend/src/pages/Product.tsx:117-121 with backend/app/api/products.py:158-161 | The URL serialiser drops falsy price slots. The `0` that the maximum blur writes into slot 0 is left out of the URL, so the maximum moves to position 0, and the endpoint reads position 0 as `min_price` | From the initial state, enter only a maximum of 50: the state's price is [0, 50] and the URL carries only `price=50`. The endpoint reading that URL applies `price >= 50` with no upper bound | The URL keeps slot positions, so reading it filters `price <= 50` | not executed | QueryRoundTrip.MaxOnlyPriceReadAsMinimum | QueryRoundTrip.CorrectedPricesKeepSlots |
