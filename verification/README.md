# Cash-book dashboard analytics, modelled in Dafny

The dashboard has two datasets, India and UAE. Each is read as four CSV sheets: expenses,
receipts, contras (transfers between payment modes) and opening balances ("ob"). Everything is
drawn from the rows held in memory, and every cell is text. This project models the in-memory
core of `public/app.js`:

- how a cell's text is read as an amount (`toNumber`);
- how rows are cleaned (`cleanRow`, `removeEmptyRows`);
- the month, mode, group and search filters and the sorting of the sheet tables;
- the options of the three dropdowns;
- the summary cards;
- the per-mode balance cards;
- the data behind the four charts;
- the unified transaction list, and the modal's type filter, search and sort applied to it;
- the paging of the tables and of the modal.

The modules follow that structure:

| module | file | what it holds |
|---|---|---|
| `Wrappers`, `Seqs`, `Text`, `Assoc`, `Order` | wrappers, seqs, text, assoc, order | `Option`, filtering, string trimming, lower-casing and search, association lists (JS objects), strictly sorted unique lists |
| `Amounts`, `AmountLaws`, `MarkerLaws` | amounts, amount_laws, markers | `toNumber` and `parseFloat`; the laws of `toNumber` and its worked examples; currency markers and spaces anywhere in a cell |
| `Rows`, `Fields`, `Dates` | rows, fields, dates | rows, `cleanRow` / `removeEmptyRows`, the `Amount` and date readers, `parseDateValue` |
| `Filters`, `Sorting` | filters, sorting | `applyFilters`, `applySorting` |
| `Ledgers`, `Balances` | ledgers, balances | per-key running totals; `updateModeBalances` |
| `Charts`, `Dropdowns` | charts, dropdowns | `updateSummary`, `updateCharts`, `fillDropdowns` |
| `Unified`, `Modal`, `Paging` | unified, modal, paging | `buildUnifiedTransactions`, `applyModalFilters`, `applyModalSorting`, paging |

## Representation

- **Amounts.** Amounts are exact reals.
- **Rows.** A row is an association list from header to cell, in insertion order. A JS object
  enumerates non-numeric keys in that order (see "Left out" for integer-like keys). A raw CSV row may hold undefined cells (`None`).
- **Ledgers.** Per-mode and per-group totals are association lists too. A key is added at the end
  the first time it is assigned.
- **Readers.** The balances, the unified list and the charts take as a parameter how a row's
  number is read. `ModeBalancesWith` and `BuildWith` are examples. The page's own readers are
  `OpeningValue` and `Amount`, which `ModeBalances` and `BuildUnified` fix. The laws about them
  hold for any reader, and so hold for the page's.
- **Inputs from the environment.** Things the browser decides are parameters:
  - `instant: string -> int` stands for `new Date(text)` read as a time value;
  - `show: real -> string` stands for how a number prints when the modal joins an entry's values
    for its search.
- **DOM inputs.** The values of the filter and sort controls are explicit arguments, for example
  a `Selection` for the month, mode, group and search boxes.

## Model

| member | source | states |
|---|---|---|
| Amounts.StripMarkersElements | public/app.js:64-68 | after removing the currency codes, the rupee sign and all whitespace, every remaining character comes from the input and none is whitespace or ₹ |
| AmountLaws.ToNumberBlank | public/app.js:59-62 | a missing value, or one that is only whitespace, reads as 0 |
| AmountLaws.ToNumberNoDigits | public/app.js:58-88 | text with no digit reads as 0: `parseFloat` finds no number and yields NaN, or it reads an "Infinity" spelling, which the source returns as ±Infinity and the model as 0 (see "Left out") |
| AmountLaws.ParseNoDigits | public/app.js:82-83 | `parseFloat` of text without a digit is not a finite number |
| AmountLaws.ToNumberClean | public/app.js:70-88 | for trimmed text without markers, the value is the signed literal after the bracket and trailing-minus handling |
| AmountLaws.StripTrim | public/app.js:61-68 | stripping the markers and every whitespace character already removes what `trim` removes |
| AmountLaws.ReadStripped | public/app.js:58-88 | for every text, including the empty and all-space ones, the value is what the text left once the markers are stripped reads as |
| AmountLaws.StripDecides | public/app.js:58-88 | two texts whose markers strip down to the same characters read as the same value |
| AmountLaws.StripRupeeMarker | public/app.js:66-68 | a leading "₹ " is removed entirely |
| AmountLaws.StripAfterCodes | public/app.js:64-68 | once the AED/INR codes are gone, the rupee sign and spaces are stripped and nothing else changes |
| Text.RemoveAround | public/app.js:64-65 | a case-insensitive global `replace` of a pattern without a border (no proper suffix that is also a prefix, as for "AED" and "INR") deletes an occurrence wherever it stands: the text before it and the text after it come out as if each were scanned alone |
| AmountLaws.AedRemoved | public/app.js:64 | an "AED" in any letter case is deleted wherever it stands; the text before it and the text after it are scanned as if it were not there |
| AmountLaws.InrRemoved | public/app.js:65 | an "INR" in any letter case is deleted wherever it stands, in the same way |
| AmountLaws.ReadRupeeMarked | public/app.js:66-68 | a "₹ " prefix does not change the value read |
| AmountLaws.ReadCodeMarked | public/app.js:64-68 | a three-letter code prefix that the AED/INR removal deletes does not change the value read |
| AmountLaws.MarkerIgnored | public/app.js:64-68 | any of the currency prefixes (₹, AED, INR, any case) leaves the value unchanged |
| MarkerLaws.RemoveCodePass | public/app.js:64-65 | when an occurrence can only start at a piece spelling the code, one pass deletes exactly those pieces and keeps everything else in order |
| MarkerLaws.StripDecorated | public/app.js:64-68 | codes, rupee signs and spaces before, between or after the amount characters are all deleted, and the amount characters remain in order |
| MarkerLaws.ToNumberDecorated | public/app.js:58-88 | currency markers and whitespace anywhere in the cell ("1,200 AED", "₹1,200", "AED  150", "1 200.50") do not change the value read |
| AmountLaws.ParseNegate | public/app.js:82 | `parseFloat` of "-" followed by an unsigned literal is the negation of the literal's value |
| AmountLaws.UnwrapBracketed | public/app.js:70-74 | text in parentheses is unwrapped and flagged negative |
| AmountLaws.SignedBrackets | public/app.js:70-85 | the bracket flag negates the parsed number |
| AmountLaws.BracketsNegate | public/app.js:58-88 | `toNumber("(x)") == -toNumber("x")` |
| AmountLaws.UnwrapUnsigned | public/app.js:70-80 | an unsigned literal passes the bracket and minus steps untouched, losing only its commas |
| AmountLaws.SignedTrailing | public/app.js:76-78 | a trailing minus is moved to the front and negates the value |
| AmountLaws.TrailingMinusNegates | public/app.js:58-88 | `toNumber("x-") == -toNumber("x")` |
| AmountLaws.SignedLeading | public/app.js:76-82 | a leading minus negates the value |
| AmountLaws.LeadingMinusNegates | public/app.js:58-88 | `toNumber("-x") == -toNumber("x")` |
| AmountLaws.DigitRunSpec | public/app.js:82 | the digit prefix `parseFloat` reads is all digits and maximal |
| AmountLaws.DigitRunAppend | public/app.js:82 | a run of digits followed by other text is read as exactly that run |
| AmountLaws.ParseWhole | public/app.js:82 | `parseFloat` of a digit string is its decimal value |
| AmountLaws.ParseFraction | public/app.js:82 | `parseFloat` of digits "." digits is the whole part plus the fraction |
| AmountLaws.ParseDecimal | public/app.js:82 | the same, with or without a fractional part |
| AmountLaws.MagnitudeValue | public/app.js:80-82 | a comma-grouped number such as "1,200.50" reads as its value without the commas |
| AmountLaws.BodySigned | public/app.js:70-85 | each of the notations (plain, leading minus, trailing minus, brackets) gives the magnitude times its sign |
| AmountLaws.ToNumberRender | public/app.js:58-88 | for every marker, notation, grouped whole part and fraction, the text reads as sign times (whole + fraction) |
| AmountLaws.ToNumberBracketExample | public/app.js:58-88 | `toNumber("(150.00)") == -150` |
| AmountLaws.ToNumberTrailingExample | public/app.js:58-88 | `toNumber("150.00-") == -150` |
| AmountLaws.ToNumberGrouped | public/app.js:58-88 | a comma-grouped whole number, with or without a currency marker in front, reads as the value of its digits |
| AmountLaws.ToNumberRupeeExample | public/app.js:58-88 | `toNumber("₹ 1,200") == 1200` |
| AmountLaws.ToNumberZeroExamples | public/app.js:58-88 | `toNumber("") == 0` and `toNumber("garbage") == 0` |
| AmountLaws.ToNumberWhole | public/app.js:58-88 | a plain digit string reads as its decimal value |
| AmountLaws.ToNumberWholeBracketed | public/app.js:58-88 | a bracketed digit string reads as minus its value |
| AmountLaws.ToNumberBracketed200 | public/app.js:58-88 | `toNumber("(200)") == -200` |
| Rows.Values | public/app.js:109 | `Object.values(row)` lists the cells in key order |
| Rows.CleanRowClean | public/app.js:100-106 | a cleaned row has unique keys, and every key and cell is trimmed |
| Rows.CleanRowGet | public/app.js:100-106 | a header is present after cleaning exactly when some raw key trims to it; its cell is the trimmed cell of the last such key, with undefined read as "" |
| Rows.CleanRowFixed | public/app.js:100-106 | cleaning an already clean row gives back the same row |
| Rows.RemoveEmptyRowsSpec | public/app.js:108-110 | the result is a subsequence of the cleaned rows; each cleaned row with a non-empty cell is kept as many times as it occurs, no other row is kept, and every kept row is clean |
| Rows.RemoveEmptyRowsIdempotent | public/app.js:108-110 | applying `removeEmptyRows` again changes nothing |
| Dates.DateText | public/app.js:112-113 | an empty date falls back to 1900-01-01 |
| Dates.DateTextIgnoresAfterComma | public/app.js:115 | everything from the first comma on is ignored |
| Dates.DateTextDayMonthYear | public/app.js:116-123 | "d/m/y" is handed to `Date` as "d m y" |
| Dates.DateTextPlain | public/app.js:115-125 | text without "/" or "," is handed to `Date` trimmed |
| Filters.ApplyFiltersSpec | public/app.js:197-233 | the staged filters keep, in order, exactly the rows `Matches` accepts: a Date, the month, the mode (From or To for contras), the group for expenses only, and the search |
| Filters.ApplyFiltersShown | public/app.js:197-233 | the result is a subsequence of the input; every row in it matches, and every matching row is in it |
| Filters.ApplyFiltersOff | public/app.js:203-230 | with every dropdown on ALL and an empty search, only the rows without a Date are dropped |
| Filters.MatchesMonotone | public/app.js:205-230 | a row that matches a narrower selection also matches a wider one |
| Filters.ApplyFiltersMonotone | public/app.js:197-233 | narrowing the selection yields a subsequence of the wider result |
| Sorting.InsertPermutes | public/app.js:235-244 | inserting into the sorted list adds exactly that element |
| Sorting.InsertSorted | public/app.js:235-244 | insertion keeps the list sorted by key |
| Sorting.SortByPermutes | public/app.js:236 | the sorted copy is a permutation of the input |
| Sorting.SortBySorted | public/app.js:238-241 | the sorted copy is ascending by key |
| Sorting.InsertKeepsTies | public/app.js:238-241 | insertion puts a new element after the elements with an equal key |
| Sorting.SortByStable | public/app.js:238-241 | elements with equal keys keep their relative order, as `Array.prototype.sort` guarantees |
| Sorting.ApplySortingSpec | public/app.js:235-244 | a permutation of the input in the requested date or amount order; any other sort value returns the rows unchanged |
| Sorting.ApplySortingStable | public/app.js:235-244 | rows the chosen key cannot tell apart keep their order |
| Ledgers.AddBal | public/app.js:341-342 | `obj[k] = (obj[k] ?? 0) + d` changes only `k`'s balance, by `d`, and adds `k` if it was missing, for a name that is not an `Object.prototype` member (see "Left out") |
| Ledgers.AddTotal | public/app.js:341-342 | such an update adds `d` to the sum of all balances |
| Ledgers.PutTotal | public/app.js:333-334 | an assignment replaces the key's old balance in the sum of all balances |
| Ledgers.TallyBal | public/app.js:337-343 | after a `forEach` over the rows, a non-empty key's balance grows by the amounts of the rows whose trimmed cell is that key |
| Ledgers.TallyKeys | public/app.js:337-343 | after such a pass a key is present exactly when it was before, or it is non-empty and some row names it |
| Ledgers.TallyTotal | public/app.js:337-343 | such a pass adds every amount except those of rows whose cell is empty |
| Ledgers.TallyUnique | public/app.js:337-343 | the keys stay distinct, as object keys do |
| Ledgers.SumNegate | public/app.js:349-350 | summing the negated amounts gives minus the sum |
| Balances.OpeningCell | public/app.js:332 | the opening cell is the first non-empty of OpeningBalance, OB and Balance, in that order of precedence; it is absent only when all three are empty |
| Balances.OpeningsHas | public/app.js:328-335 | a mode has an opening balance exactly when it is non-empty and some opening row names it |
| Balances.OpeningsLast | public/app.js:328-335 | when several opening rows name a mode, the last one wins |
| Balances.MoveBal | public/app.js:353-367 | one contra takes its amount from the From mode and gives it to the To mode; an empty end is skipped |
| Balances.MoveTotal | public/app.js:353-367 | one contra leaves the sum of balances unchanged unless one of its ends is empty |
| Balances.PostContrasBal | public/app.js:353-367 | after all contras, a mode's balance is its prior balance, minus what it sent, plus what it received |
| Balances.PostContrasKeys | public/app.js:353-367 | the contras add exactly the non-empty From and To modes |
| Balances.PostContrasTotal | public/app.js:353-367 | the contras change the sum of balances only through contras with an empty end |
| Balances.ModeBalanceFormula | public/app.js:324-367 | a mode's balance is its opening balance + its receipts − its expenses − the contras it sent + the contras it received |
| Balances.OpeningBalanceOf | public/app.js:328-335 | a mode without an opening row opens at 0; otherwise it opens at the last opening row's value |
| Balances.ModeBalanceKeys | public/app.js:324-367 | a mode gets a balance exactly when it is non-empty and named by an opening row, a receipt, an expense, or either end of a contra |
| Balances.ModeBalancesTotal | public/app.js:324-367 | the balances add up to the openings plus the receipts minus the expenses, leaving out rows with no mode and contras with an empty end |
| Balances.ModeBalancesConserve | public/app.js:324-367 | when every receipt and expense has a mode and every contra has both ends, the balances add up to openings + receipts − expenses |
| Balances.CardsFor | public/app.js:374-386 | one card per mode, in the given order, each showing the mode's balance and its opening balance or 0 |
| Balances.CardsOfSpec | public/app.js:372-386 | the cards come in strictly ascending mode order, one for each mode that has a balance, with that balance and the mode's opening balance |
| Balances.OneOfEach | public/app.js:324-351 | with one opening row, one receipt and one expense for a mode, its balance is opening + receipt − expense |
| Balances.CashScenario | public/app.js:324-351 | Cash opening "1000", receipt "500" and expense "(200)" leave Cash at 1700 |
| Balances.OneContra | public/app.js:353-367 | a single contra moves its amount from From to To |
| Balances.ContraScenario | public/app.js:353-367 | a 300 contra from Cash to Bank leaves Cash at −300 and Bank at 300 |
| Charts.UpdateSummary | public/app.js:306-320 | net cash flow is total receipts minus total expense |
| Charts.SummarySpec | public/app.js:306-320 | each card sums the amounts of exactly the rows of its sheet that match the selection |
| Charts.Totals | public/app.js:568 | `Object.values(totals)` lists the totals in key order |
| Charts.BreakdownGet | public/app.js:554-559 | a key gets a total exactly when it is non-empty and some row names it; the total is the sum of that key's rows |
| Charts.BreakdownTotal | public/app.js:554-559 | the totals add up to every amount except those of rows with an empty key |
| Charts.BarChartSpec | public/app.js:554-589 | the labels are distinct and are exactly the non-empty keys; each value is the sum of its label's rows |
| Charts.MonthTrendSpec | public/app.js:529-537 | the trend covers every expense regardless of the filters; its months are strictly ascending, exactly those named, each with its month's sum |
| Charts.UpdateCharts | public/app.js:592-606 | the pie chart has exactly two slices |
| Charts.ChartsMatchSummary | public/app.js:527-606 | the pie shows the expense and receipt cards; the mode and group charts plus their rows with an empty key make up the expense card |
| Dropdowns.Collect | public/app.js:253-273 | one value is collected per row at most |
| Dropdowns.CollectSpec | public/app.js:253-273 | a non-empty value is collected exactly when some row's trimmed cell equals it |
| Dropdowns.OptionsSpec | public/app.js:275-277 | the options are the distinct non-empty values, strictly ascending |
| Dropdowns.FillDropdownsSpec | public/app.js:249-277 | months come from all three transaction sheets; modes from expense and receipt Mode, contra From and To, and opening-balance Mode; groups from expenses only; each list is strictly ascending |
| Dropdowns.ModeOptionsAreCardModes | public/app.js:249-277 | the mode dropdown lists exactly the modes that get a balance card, in the same order (for names that are not `Object.prototype` members; see "Left out") |
| Dropdowns.TrendMonthsOffered | public/app.js:529-537 | every month on the trend chart is offered by the month dropdown |
| Unified.ExpenseTxns | public/app.js:704-719 | one entry per expense |
| Unified.ReceiptTxns | public/app.js:721-736 | one entry per receipt |
| Unified.ContraLegs | public/app.js:738-771 | two legs per contra |
| Unified.BuildUnified | public/app.js:701-774 | the list holds every expense, every receipt and two legs per contra |
| Unified.ExpenseTxnsAt | public/app.js:704-719 | the i-th expense becomes the i-th entry |
| Unified.ReceiptTxnsAt | public/app.js:721-736 | the i-th receipt becomes the i-th receipt entry |
| Unified.ContraLegsAt | public/app.js:738-771 | contra j's outgoing and incoming legs sit at positions 2j and 2j+1 |
| Unified.UnifiedLayout | public/app.js:701-774 | expenses come first, then receipts, then each contra's two legs, in sheet order |
| Unified.ContraLegsPair | public/app.js:739-771 | both legs carry the contra's date, month, From, To and amount; the outgoing leg is listed under From and the incoming one under To |
| Unified.ContraLegsOfKind | public/app.js:738-771 | the contra legs hold one CONTRA_OUT and one CONTRA_IN per contra, and nothing else |
| Unified.OfKindUnified | public/app.js:701-774 | selecting one type from the list distributes over its three parts |
| Unified.UnifiedExpenses | public/app.js:704-719 | the EXPENSE entries are exactly the expenses, in sheet order |
| Unified.UnifiedReceipts | public/app.js:721-736 | the RECEIPT entries are exactly the receipts, in sheet order |
| Unified.UnifiedContraCounts | public/app.js:738-771 | there are as many CONTRA_OUT entries, and as many CONTRA_IN entries, as contras |
| Unified.FlowToContras | public/app.js:738-771 | under a mode, the signed contra legs add up to what it received minus what it sent |
| Unified.UnifiedMatchesBalances | public/app.js:701-774 | for every mode, the signed amounts listed under it add up to its balance card less its opening balance |
| Modal.ApplyModalFiltersSpec | public/app.js:776-793 | the type filter followed by the search keeps exactly the entries that pass both, in order |
| Modal.ApplyModalFiltersShown | public/app.js:776-793 | what the modal lists is a subsequence of the entries; every entry in it matches, and every matching entry is in it |
| Modal.TypeFilterOnly | public/app.js:782-784 | with one type chosen and no search, exactly the entries of that type are listed |
| Modal.ExpenseTypeListsExpenses | public/app.js:776-793 | applied to the unified list, choosing EXPENSE with no search lists every expense, in sheet order |
| Modal.ApplyModalSortingSpec | public/app.js:795-805 | a permutation in the requested date or amount order; an unknown sort value leaves the entries unchanged |
| Modal.ApplyModalSortingStable | public/app.js:795-805 | entries the key cannot tell apart keep their order |
| Paging.SliceIndex | public/app.js:395 | a `slice` index in range is used as is; any other is clamped into `0..n` |
| Paging.Paginate | public/app.js:393-396 | a page never holds more rows than the data |
| Paging.CeilDivSpec | public/app.js:399 | `Math.ceil(n / d)` is the least multiple count covering `n` |
| Paging.TotalPagesSpec | public/app.js:398-400 | there is at least one page; the pages hold every row; the last page is not empty unless there are no rows |
| Paging.ClampSpec | public/app.js:423-425 | the clamped page is in range; a page already in range is unchanged; pages too high or too low go to the last or the first page |
| Paging.PageStartStep | public/app.js:394 | each page starts `size` rows after the one before it |
| Paging.PageStartMonotone | public/app.js:394 | a later page starts no earlier |
| Paging.PaginateSpec | public/app.js:393-396 | page p ≥ 1 holds the rows from `(p-1)*size` on, at most `size` of them |
| Paging.ShowPageSpec | public/app.js:807-816 | the drawn page is in range, holds at most `size` rows, is never empty while there are rows, and is that page's slice |
| Paging.PagesPrefix | public/app.js:393-396 | pages 1 to k together are the first `k*size` rows |
| Paging.PagesCover | public/app.js:393-400 | paging through every page shows each row exactly once, in order |
| Paging.RowOnPage | public/app.js:393-396 | row i is on page `i/size + 1`, at position `i % size` |
| Paging.StepClamped | public/app.js:402-427 | "next" on the last page, or "previous" on the first, is undone by the clamp |
| Paging.SixtyRowsExample | public/app.js:393-427 | sixty rows, 25 to a page, asked for page 10: page 3 is shown, holding the last ten rows |

## Left out

- Reading CSV from the network (`parseCSV`, `loadAllData`), the server, the loading UI, the DOM,
  Chart.js rendering and `formatMoney`/`money` are outside the model. The control values they
  would supply are arguments; the results they would draw are returned values.
- AmountLaws: `parseFloat` reading "Infinity" is modelled as 0, because exact reals have no
  infinity.
- AmountLaws.ToNumberNoDigits: the source returns ±Infinity for "Infinity", "-Infinity" and
  "(Infinity)", which contain no digit; the model reads them as 0, as the line above says.
- AmountLaws: amounts are exact reals; IEEE double rounding and loss of precision in large
  numbers are not modelled.
- Text.Lower: lower-casing covers ASCII letters only. Full Unicode case mapping is not modelled.
- Order.SortUnique: `localeCompare` is modelled as code-point order, not the browser's
  locale-aware collation.
- Dates: `new Date(text)` is the parameter `instant`. A date that does not parse is a NaN time
  value in the source, and NaN makes the sort comparator inconsistent; the model treats every
  date as an ordinary number.
- Modal: how a number prints inside the modal's search text is the parameter `show`, since
  `Number.prototype.toString` is not modelled.
- Ledgers, Rows.CleanRow, Filters.Mentions: JS objects enumerate keys that look like array
  indexes ("1", "2", …) first, in ascending order, and then the other keys. The model keeps plain
  insertion order for every key. This matters only when a key is a bare integer. For a mode or
  group name, that changes the chart order. For a CSV header, it changes the order of
  `Object.values(row)`, and so the order of the words in the sheet search text
  (public/app.js:228). A search for text that spans two cells can then match differently.
- Ledgers, Balances, Charts, Rows.CleanRow, Dropdowns.ModeOptionsAreCardModes: the source's
  maps are plain `{}` objects, so a name that is a member of `Object.prototype` ("constructor",
  "toString", "valueOf", "__proto__", …) reads the inherited member instead of `undefined`. The
  model treats every name as a fresh key, and its laws hold as stated only for other names.
  - For "constructor" and its kind, the check `modeBalances[mode] === undefined` is false, so
    the first `+=` appends the number to the function's text and a `-=` gives NaN
    (public/app.js:341-364). The card then shows "0.00" (public/app.js:92). Without an opening
    row, `openingMap[mode] || 0` is the inherited function (public/app.js:375). The chart totals
    `(totals[k] || 0) + …` become text in the same way (public/app.js:533, 558, 577).
  - For "__proto__", every assignment is ignored, so the mode gets no balance card
    (public/app.js:333-364) and the charts get no slice. The mode dropdown is built from a `Set`
    and still lists it (public/app.js:256), so the dropdown and the cards differ for that name.
    `cleanRow` drops a "__proto__" column header (public/app.js:103).
- Unified.BuildUnified, Modal.ExpenseTypeListsExpenses: public/app.js never calls
  `buildUnifiedTransactions` or `openTransactionModal`. The modal filters `modalData`, which
  is set only from the rows passed to `openTransactionModal` (public/app.js:847-850), and
  that caller is outside this file. The model assumes the modal is opened on the full unified
  list, the row shape its columns render (public/app.js:827-837). The modal laws other than
  this one hold for any list of entries.
- Unified.FlowToContras, Unified.UnifiedMatchesBalances: the unified list is grouped by its
  entries' trimmed Mode. The source never sums the list; these lemmas cross-check it against the
  balance cards.
- Balances.ModeBalancesConserve: "balances add up to openings + receipts − expenses" holds only
  when every receipt and expense has a mode and every contra has both ends. The source skips
  blank modes and one-sided contras. The model follows the code, and
  Balances.ModeBalancesTotal states the general case.
- The table renderers (`updateExpenseTable` and its two siblings) are modelled only through
  their filter, sort, clamp and page steps (Paging.ShowPage).
