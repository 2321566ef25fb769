# Supplier RFM dashboard — a Dafny model

The dashboard (`Supplier_RFM_App/App.js`) loads a CSV of Miami-Dade purchase
orders. Each row has a supplier name, a PO date, a PO number, a PO amount and an
item description. The dashboard:

- drops the rows it cannot use;
- offers a menu of the distinct supplier names, headed by the sentinel "all";
- for the selected supplier, computes an RFM summary: **R**ecency (days since
  the last order), **F**requency (orders per 30.44-day month between the first
  and last order) and **M**onetary value (total and average amount), together
  with the order count and the first and last order dates.

The model has these parts:

- `js_values.dfy`. `JsValues` holds the cell values the CSV parser produces with
  dynamic typing: `undefined`, `null`, booleans, numbers and strings. It also
  holds their truthiness and the JavaScript conversions the dashboard applies:
  - `new Date(v)` on non-strings: ToNumber, then TimeClip;
  - `parseFloat(v)` on non-strings;
  - ToString.

  Date parsing of strings, `parseFloat` of strings and number-to-string
  conversion are parameters, gathered in a `Host` value. `StringOrder` is the
  code-unit order JavaScript compares strings with.
- `row_validator.dfy`. `RowValidator` is the filter the parser's `complete`
  callback applies to the parsed rows.
- `supplier_list.dfy`. `SupplierList` is the `suppliers` memo:
  - `new Set` deduplication, in first-occurrence order;
  - JavaScript's default `sort()`, which is stable, compares by ToString and
    puts `undefined` last;
  - the "all" sentinel at the head.
- `rfm_analysis.dfy`. `RfmAnalysis` is `calculateRFM`, with the clock reading as
  a parameter `now`. `RfmExamples` holds two worked examples.
- `dashboard.dfy`. `Dashboard.App` is the component's state: `data`,
  `loading`, `selectedSupplier` and `rfmAnalysis`. Its methods are the events
  that change that state: the parser callbacks, the menu's `onChange`, and the
  summary effect that re-runs when the data or the selection changes.

Dates are epoch milliseconds (`int`). Amounts and ratios are exact reals.

## Model

| member | source | states |
|---|---|---|
| `JsValues.Trunc` | Supplier_RFM_App/App.js:67 | the integer part of a finite number, rounded toward zero, as `new Date(number)` truncates |
| `JsValues.TimeClip` | Supplier_RFM_App/App.js:67-68 | a number gives a valid date exactly when its magnitude is at most 8.64e15 ms; the result then stays in that range |
| `JsValues.Truthy` | Supplier_RFM_App/App.js:62 | a cell is truthy exactly when it is none of JavaScript's falsy values `undefined`, `null`, `false`, `0` and `""` |
| `JsValues.ParseDate` | Supplier_RFM_App/App.js:67-68 | `new Date(v)`: `undefined` is invalid, `null` and `false` are the epoch itself and `true` is 1 ms after it, and a number is valid exactly when it lies within the time range |
| `JsValues.ParseAmount` | Supplier_RFM_App/App.js:73-74 | `parseFloat(v)` of a non-string is a number exactly when `v` is one, and then `v` itself |
| `JsValues.ToText` | Supplier_RFM_App/App.js:45 | the sort key: a string is its own key; `undefined`, `null` and booleans have the keys "undefined", "null", "true" and "false" |
| `StringOrder.LexLeReflexive` | Supplier_RFM_App/App.js:45 | the string order used by `sort()` is reflexive |
| `StringOrder.LexLeTotal` | Supplier_RFM_App/App.js:45 | any two strings are comparable |
| `StringOrder.LexLeAntisymmetric` | Supplier_RFM_App/App.js:45 | two strings that sort no later than each other are equal |
| `StringOrder.LexLeTransitive` | Supplier_RFM_App/App.js:45 | the string order is transitive |
| `RowValidator.Keep` | Supplier_RFM_App/App.js:62-79 | a row that passes is an object whose date is a number, a string or `true`, and whose amount is a number or a string; a numeric amount that passes is not zero |
| `RowValidator.Validate` | Supplier_RFM_App/App.js:61-80 | the output is no longer than the input; every output row passes the filter and is a row of the input |
| `RowValidator.ValidateIsFilter` | Supplier_RFM_App/App.js:61-80 | the output is the input with exactly the failing rows removed: kept rows are unchanged, in their original order, and a position survives exactly when its row passes |
| `RowValidator.ValidateMembership` | Supplier_RFM_App/App.js:61-80 | a row is in the output exactly when it is in the input and passes |
| `RowValidator.ValidateAllKept` | Supplier_RFM_App/App.js:61-80 | input in which every row passes comes back unchanged |
| `RowValidator.ValidateIdempotent` | Supplier_RFM_App/App.js:61-80 | validating the output again changes nothing |
| `RowValidator.ValidateAppend` | Supplier_RFM_App/App.js:61-80 | rows are judged one by one: validating a concatenation validates each part |
| `RowValidator.FalsyFieldRejected` | Supplier_RFM_App/App.js:62-65 | a null entry, or a row whose supplier name, date or amount is falsy, never survives |
| `RowValidator.UnparseableRejected` | Supplier_RFM_App/App.js:67-77 | a row whose date is invalid or whose amount parses to NaN never survives |
| `RowValidator.NumericAmountRule` | Supplier_RFM_App/App.js:62-76 | a row with a truthy name, a valid date and a numeric amount `x` survives exactly when it is an input row and `x` is not zero |
| `SupplierList.Names` | Supplier_RFM_App/App.js:43 | one name per row, each the supplier name of the row at the same position |
| `SupplierList.NamesCover` | Supplier_RFM_App/App.js:43 | a value is among the names exactly when some row carries it as supplier name |
| `SupplierList.Dedupe` | Supplier_RFM_App/App.js:43 | the result holds each value once, and exactly the values of the input |
| `SupplierList.DedupeFirstOccurrenceOrder` | Supplier_RFM_App/App.js:43 | the deduplicated values are in the order of their first occurrences in the input, as a Set iterates them |
| `SupplierList.Insert` | Supplier_RFM_App/App.js:45 | one insertion step of the sort adds exactly the inserted value |
| `SupplierList.SortByText` | Supplier_RFM_App/App.js:45 | the sort of the non-`undefined` names is a permutation of its input |
| `SupplierList.InsertSorted` | Supplier_RFM_App/App.js:45 | an insertion step keeps a sorted sequence sorted |
| `SupplierList.SortByTextSorted` | Supplier_RFM_App/App.js:45 | the sort's output is in ascending string order |
| `SupplierList.SortByTextStable` | Supplier_RFM_App/App.js:45 | the sort is stable: values with the same string keep their relative order |
| `SupplierList.SplitPreservesElements` | Supplier_RFM_App/App.js:45 | separating out the `undefined` entries loses nothing |
| `SupplierList.SortMenu` | Supplier_RFM_App/App.js:45 | the default sort is a permutation of its input; its order is stated by `SortMenuOrdered` |
| `SupplierList.SortMenuOrdered` | Supplier_RFM_App/App.js:45 | after the default sort, `undefined` comes after every other value, and the other values are in ascending string order |
| `SupplierList.Suppliers` | Supplier_RFM_App/App.js:41-48 | the menu is never empty and starts with the sentinel "all" |
| `SupplierList.SuppliersListed` | Supplier_RFM_App/App.js:43-45 | after the sentinel, a value is listed exactly when some row carries it as supplier name |
| `SupplierList.SuppliersDistinct` | Supplier_RFM_App/App.js:43-45 | after the sentinel, no name is listed twice |
| `SupplierList.SuppliersOrdered` | Supplier_RFM_App/App.js:45 | after the sentinel, the names are in the default sort's order |
| `SupplierList.SupplierNamedAllListedTwice` | Supplier_RFM_App/App.js:45 | a supplier literally named "all" makes "all" appear twice in the menu |
| `RfmAnalysis.Orders` | Supplier_RFM_App/App.js:109 | the selection is no longer than the data |
| `RfmAnalysis.OrdersKept` | Supplier_RFM_App/App.js:109 | every selected row passes the filter and carries the selected supplier name |
| `RfmAnalysis.OrdersOccurrences` | Supplier_RFM_App/App.js:109 | each row with the selected name is selected as many times as it occurs; no other row is selected |
| `RfmAnalysis.OrdersMembership` | Supplier_RFM_App/App.js:109 | a row is selected exactly when it is in the data and has the selected name |
| `RfmAnalysis.OrdersAppend` | Supplier_RFM_App/App.js:109 | selecting from concatenated data selects from each part in turn |
| `RfmAnalysis.OrdersCount` | Supplier_RFM_App/App.js:109-110 | the number of selected rows is the number of rows with the selected name |
| `RfmAnalysis.OrdersTotal` | Supplier_RFM_App/App.js:116 | the sum of the selected amounts is the sum, over all rows, of the amounts with the selected name |
| `RfmAnalysis.Dates` | Supplier_RFM_App/App.js:115 | one date per order, each the order's own date |
| `RfmAnalysis.Total` | Supplier_RFM_App/App.js:116 | non-negative amounts give a non-negative total; `OrdersTotal` ties it to the amounts of the matching rows |
| `RfmAnalysis.MaxOf` | Supplier_RFM_App/App.js:117 | the latest date is one of the dates and no date is later |
| `RfmAnalysis.MinOf` | Supplier_RFM_App/App.js:118 | the earliest date is one of the dates and no date is earlier |
| `RfmAnalysis.RoundDays` | Supplier_RFM_App/App.js:119 | the nearest whole number of days, with halves rounded up |
| `RfmAnalysis.SpanMonths` | Supplier_RFM_App/App.js:120 | the span in months is zero exactly when the two dates coincide, and positive when the first is earlier |
| `RfmAnalysis.Summarize` | Supplier_RFM_App/App.js:115-133 | the count is the number of orders, and the first date is no later than the last |
| `RfmAnalysis.Calculate` | Supplier_RFM_App/App.js:102-138 | a summary, when there is one, counts at least one order and has the first date no later than the last |
| `RfmAnalysis.OtherSuppliersIgnored` | Supplier_RFM_App/App.js:104-113 | adding rows of other suppliers to the data leaves the selected supplier's summary unchanged, including the empty-data case |
| `RfmAnalysis.RfmAbsent` | Supplier_RFM_App/App.js:104-113 | there is no summary exactly when the selection is falsy, is "all", or matches no row (which covers empty data) |
| `RfmAnalysis.SupplierNamedAllHasNoSummary` | Supplier_RFM_App/App.js:104 | a supplier literally named "all" never gets a summary |
| `RfmAnalysis.RfmMonetary` | Supplier_RFM_App/App.js:116-130 | when there is a summary, its order count is the number of matching rows (at least one); the total is their sum; the average times the count is the total |
| `RfmAnalysis.RfmOrderDates` | Supplier_RFM_App/App.js:115-118 | when there is a summary, its first and last dates are the dates of actual matching rows, and every matching row's date lies between them |
| `RfmAnalysis.RfmFrequency` | Supplier_RFM_App/App.js:120-121 | when there is a summary: a one-instant history has frequency equal to the order count; otherwise the frequency is positive and times the span in months gives the count |
| `RfmAnalysis.RfmRecency` | Supplier_RFM_App/App.js:119 | when there is a summary, its recency is the days from the last order to `now`, to the nearest day; it is negative exactly when the last order lies more than half a day after `now` |
| `RfmExamples.SingleOrder` | Supplier_RFM_App/App.js:102-133 | one order of 100 on 2024-03-01, ten days later: recency 10, frequency 1, total and average 100, one order |
| `RfmExamples.SixtyOneDays` | Supplier_RFM_App/App.js:120 | 2024-01-01 to 2024-03-02 spans 61/30.44 months |
| `RfmExamples.TwoOrderSummary` | Supplier_RFM_App/App.js:115-133 | two orders of 200 and 300, 61 days apart: total 500, average 250, frequency 60.88/61 |
| `RfmExamples.SelectFirstAndLast` | Supplier_RFM_App/App.js:109 | the selection picks the first and the third of three rows when only they match |
| `RfmExamples.TwoOrders` | Supplier_RFM_App/App.js:102-133 | the two-order example, with another supplier's row in between and the second amount given as text |
| `Dashboard.App.constructor` | Supplier_RFM_App/App.js:23-26 | the initial state: no data, loading, "all" selected, no summary |
| `Dashboard.App.Recalculate` | Supplier_RFM_App/App.js:101-141 | the summary effect stores `calculateRFM`'s result for the current data and selection |
| `Dashboard.App.Complete` | Supplier_RFM_App/App.js:61-84 | the data becomes the validated rows, loading stops, and the summary is recomputed for the new data |
| `Dashboard.App.Fail` | Supplier_RFM_App/App.js:86-94 | a parse or fetch error only stops loading |
| `Dashboard.App.Select` | Supplier_RFM_App/App.js:162 | a new selection recomputes the summary; re-selecting the current value changes nothing |
| `Dashboard.App.Menu` | Supplier_RFM_App/App.js:41-48 | the menu over the current data starts with "all" |
| `Dashboard.App.ShowsSummary` | Supplier_RFM_App/App.js:149-172 | the cards are shown, outside the loading branch, exactly when a summary is held: there is no data while loading, and "all" never has a summary |
| `Dashboard.SummaryIsForListedSupplier` | Supplier_RFM_App/App.js:172 | whenever a summary is held, the cards are shown, and the selected supplier is listed in the menu after "all" |

## Left out

- Rendering is not modelled: the data grid, the cards, the spinner, and the `toFixed(2)`, `toLocaleString` and `toLocaleDateString` display formatting. The model keeps the unformatted numbers and dates those strings are made from.
- The download and parsing of the CSV by Papa Parse, and the network, are not modelled. The parsed rows are an input to `Dashboard.App.Complete`.
- Date parsing of strings, `parseFloat` of strings and number-to-string conversion are parameters (`Host`), not definitions. Which strings `Date` accepts, and what `parseFloat` makes of text such as `"1,234.50"`, depend on `Host`.
- With dynamic typing, Papa Parse turns cells that look like ISO dates into `Date` objects. The model has no object values. A date cell of that kind behaves like the string case, through `Host.dateText`. A supplier name or amount of that kind is not modelled.
- Numbers are exact reals. IEEE-754 rounding, NaN, the infinities and -0 are not modelled; a numeric cell is always finite.
- Characters stand for UTF-16 code units in the string order.
- Console logging is not modelled.
- The `try`/`catch` blocks are not modelled. In `calculateRFM` the catch is reached only when `Math.max(...orderDates)` or `Math.min(...orderDates)` throws because one supplier has more orders than the engine accepts as arguments; the summary then becomes `null`. The model has no such limit and always yields the summary. In the fetch effect the catch only stops loading, which `Dashboard.App.Fail` models.
- React's scheduling is not modelled. Each event is followed at once by the effects it triggers. The clock reading `now` is a parameter.
- `SupplierList.Suppliers` requires every row to be an object. A null entry would make the source's `map` throw. The model only applies it to validated data.
- `RfmAnalysis.Calculate` requires validated data. The component only ever stores the validator's output.
- `RfmAnalysis.Orders`: its own contract states only a length bound. What it selects is stated by `OrdersOccurrences`, `OrdersMembership`, `OrdersCount` and `OrdersTotal`.

## Notes on the code

- Recency is not clamped. It is negative when the last order lies more than half a day after `now` (`RfmRecency`).
- Only a span of exactly zero counts as one month (`monthsBetweenOrders || 1`, App.js:121). A span shorter than a month gives a frequency above the order count (`RfmFrequency`).
- 2024 is a leap year, so 2024-01-01 to 2024-03-02 is 61 days. Two orders on those dates give a frequency of 60.88/61, which displays as 1.00 (`RfmExamples.TwoOrders`).
- A date cell holding `true` passes the filter as the instant 1 ms after the epoch, and one holding `null` or `false` is rejected only because it is falsy (`RowValidator.Keep`, `JsValues.ParseDate`).
