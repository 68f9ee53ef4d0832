# Money tracker ledger — a Dafny model

This project models the core of `money.js`, a single-page personal finance tracker.
The user records income and expense transactions. The page shows a running balance,
a list filtered by type, report statistics and two small charts.

The model has two halves, following the source:

- **State that changes in place** (`tracker.dfy`): the module-level `transactions` array,
  its copy in local storage and the list filter, as the class `Tracker.MoneyTracker`.
  Its methods `Add`, `Delete` and `Undo` are `handleAddTransaction`, `deleteTransaction`
  and the UNDO button of the delete toast. The `settings` object is the class `Tracker.Settings`.
- **Pure computations over a ledger snapshot**: the record type and form validation
  (`transactions.dfy`), the type filter and removal by id (`views.dfy`), totals, balance,
  report statistics and chart series (`aggregates.dfy`), and the currency, date and
  greeting text (`formatting.dfy`).

Amounts are exact `real`s. Timestamps are integer epoch milliseconds. The clock, the random
id and the local-time calendar are parameters: `now`, `id` and `monthOf`.

Behaviour of the code worth knowing, which the model follows:

- Deleting an unknown id is not an error. The filter leaves the ledger as it was, it is saved again,
  and the toast still appears.
- Undo is not a single shared slot. Each delete toast keeps its own captured record, and its
  UNDO button puts that record first. It does not check whether the id is already present.
  After deleting A and then B, both toasts can still restore their records while they are shown.
- Ids are `Date.now()` plus a random number below 1000, so they are not guaranteed unique.
  Delete removes every record that carries the id (`UndoAfterSharedId` shows what undo then loses).
- The record's type is taken from the radio button as is; the form does not validate it.
- The date buckets count whole 24-hour periods of `|now - date|`, so future dates are bucketed too.
  They are not calendar days.
- The recent-activity widths divide by the largest of the first five amounts without a guard.

## Model

| member | source | states |
|---|---|---|
| `Transactions.Trim` | money.js:212 | `trim()` gives the slice of the input left after removing whitespace at both ends; the result is empty exactly when every character is whitespace |
| `Transactions.Validate` | money.js:212-219 | the submission is accepted exactly when the description has a non-whitespace character and the amount is a number greater than zero (NaN, 0 and negatives are rejected); on success it yields the trimmed description and the amount |
| `Tracker.MoneyTracker.Load` | money.js:196-201 | start-up takes the stored ledger if there is one, else an empty ledger; storage and memory agree |
| `Tracker.MoneyTracker.Add` | money.js:209-237 | a rejected submission leaves the ledger unchanged; an accepted one prepends `{id, trimmed description, amount, type, now}` at index 0 and keeps all old records after it in order; storage is updated; positive amounts stay positive |
| `Tracker.MoneyTracker.Delete` | money.js:240-246 | the captured record is the first with the id; the ledger becomes the old one without every record of that id; storage is updated |
| `Tracker.MoneyTracker.Undo` | money.js:559-565 | the captured record is put back at index 0 in front of the current ledger; storage is updated |
| `Tracker.MoneyTracker.SetFilter` | money.js:249-254 | the pressed button's filter becomes the current filter |
| `Tracker.MoneyTracker.Visible` | money.js:315-320 | the visible list is the ledger under 'all'; under a type filter it is an order-preserving subsequence holding every record of that type as often as the ledger does, and no other record |
| `Tracker.UndoRestoresRecords` | money.js:240-246 | deleting a record whose id is unique and then undoing it gives the same multiset of records |
| `Tracker.UndoRestoresNewest` | money.js:240-246 | if that record was at index 0, delete followed by undo gives exactly the same ledger |
| `Tracker.UndoAfterSharedId` | money.js:241-242 | when two or more records share the id, delete removes all of them and undo brings back one, so the ledger ends up shorter |
| `Tracker.Settings.constructor` | money.js:4-9 | the default settings: light theme, USD, empty profile name and picture |
| `Tracker.Settings.SetTheme` | money.js:155-156 | the theme is set to the chosen one |
| `Tracker.Settings.SetCurrency` | money.js:177-178 | the currency code is set, and every amount formatted afterwards starts with that code's symbol |
| `Tracker.Settings.SetProfileName` | money.js:108-110 | the trimmed text of the name field is stored |
| `Tracker.Settings.GreetingAt` | money.js:620-638 | the greeting with the stored profile name starts with the salutation for the hour; it is the salutation alone exactly when no name is stored, and otherwise continues with ", name!" |
| `Views.OfKind` | money.js:319 | the filter by type returns only records of that type, all drawn from the ledger, as an order-preserving subsequence |
| `Views.View` | money.js:315-320 | the 'all' filter returns the ledger unchanged; any other filter returns an order-preserving subsequence whose records all have that type |
| `Views.OfKindCounts` | money.js:319 | the type filter keeps every record of its type, as often as it occurs in the ledger, and no other record |
| `Views.ViewCounts` | money.js:315-320 | each filter keeps every record it selects ('all' selects every record), as often as it occurs in the ledger, and no other record |
| `Views.ViewIdempotent` | money.js:315-320 | filtering the filtered list again with the same filter changes nothing |
| `Views.KindsPartition` | money.js:352-358 | the income list and the expense list together are as long as the ledger |
| `Views.RemoveId` | money.js:242 | no record with the id remains; the rest is an order-preserving subsequence; an id no record carries leaves the ledger unchanged |
| `Views.RemoveIdCounts` | money.js:242 | removal shortens the ledger by exactly the number of records with the id, and keeps every other record as often as before |
| `Views.FindFirst` | money.js:241 | `find` returns nothing exactly when no record has the id; otherwise the record at the first index carrying the id |
| `Aggregates.BalanceIsSignedSum` | money.js:265-274 | `Balance`, the income `Total` minus the expense `Total`, equals the sum of each record's amount signed by its type; it is 0 on an empty ledger |
| `Aggregates.TotalNonNegative` | money.js:266-272 | with positive amounts neither the income nor the expense `Total` is negative |
| `Aggregates.BalanceAfterUndo` | money.js:559-562 | deleting a record whose id is unique and undoing the delete gives back the same balance |
| `Aggregates.AverageTimesCount` | money.js:352-362 | a type's `Average` is 0 when it has no records, and otherwise times the count equals the type's total |
| `Aggregates.AverageBounds` | money.js:352-367 | with positive amounts an average is greater than 0 and at most the highest amount |
| `Aggregates.MeanBounds` | money.js:352-367 | the mean of a non-empty selection of positive ledger records is greater than 0 and at most the highest amount |
| `Aggregates.MaxAmount` | money.js:365 | `Math.max` over the amounts is one of the amounts and at least every amount |
| `Aggregates.Highest` | money.js:364-366 | the highest amount is 0 on an empty ledger; otherwise it is some record's amount and at least every amount |
| `Aggregates.InMonth` | money.js:370-374 | the month filter returns an order-preserving subsequence of records dated in that month; all of them when all are, none when none are |
| `Aggregates.InMonthCounts` | money.js:370-374 | the month filter keeps every record dated in the month, as often as it occurs in the ledger, and no other record |
| `Aggregates.MonthNetOfNewRecord` | money.js:369-381 | a record dated in the current month changes the month's net (`MonthNet`, the `Balance` of the month's records) by its signed amount; a record dated in another month leaves it unchanged |
| `Aggregates.MonthNetExtremes` | money.js:369-381 | when every record is dated this month `MonthNet` is the `Balance`; when none is, it is 0 |
| `Aggregates.TrendOf` | money.js:391-400 | the trend is Positive exactly when the balance is above 0, Negative exactly when it is below 0, Neutral exactly when it is 0 |
| `Aggregates.Reports` | money.js:340-401 | the report's count is the ledger length; its trend is Positive exactly when income exceeds expense and Negative exactly when expense exceeds income; its average income and expense are `Average` of each type (see `AverageTimesCount`, `AverageBounds`); its highest is `Highest`, positive for a non-empty ledger with positive amounts; its month net is `MonthNet` (see `MonthNetOfNewRecord`, `MonthNetExtremes`) |
| `Aggregates.BarScale` | money.js:417 | the bar divisor is at least 1 and at least both totals, and is one of them or 1 |
| `Aggregates.Bars` | money.js:410-419 | with positive amounts both bar heights lie in [0, 100]; the larger total, when at least 1, gets exactly 100; the income bar is higher exactly when income exceeds expense; each height, multiplied by the divisor `Math.max(income, expense, 1)`, is its total times 100 |
| `Aggregates.Recent` | money.js:432 | the recent series is the first min(5, n) records of the ledger, in ledger order |
| `Aggregates.Widths` | money.js:439-442 | there is one width per entry; each width, multiplied by the largest amount, is its entry's amount times 100; an entry with the largest amount gets exactly 100; with positive amounts every width lies in (0, 100] |
| `Aggregates.Percents` | money.js:441-442 | the `map` keeps one entry per record, in order, and each entry multiplied by the scale is its amount times 100 |
| `Aggregates.PercentsOfMax` | money.js:439-442 | percentages of the largest amount: the entry of the largest amount is 100, and with positive amounts every entry lies in (0, 100] |
| `Formatting.Symbol` | money.js:458 | a known currency code gives its symbol, any other code gives '$'; the symbol is one character and not a minus, digit, comma or point |
| `Formatting.Cents` | money.js:459 | `toFixed(2)` of the absolute value rounds to the nearest hundredth, the larger one on a tie |
| `Formatting.InsertCommasOfFixed` | money.js:459 | on `digits.dd` the regular expression replace (`InsertCommas`) inserts exactly the thousands separators of the integer digits and leaves the decimals alone |
| `Formatting.GroupOfThrees` | money.js:459 | the separators put a comma before every group of three integer digits counted from the point; the leading group has one to three digits |
| `Formatting.StripGroup` | money.js:459 | removing the commas gives the integer digits back |
| `Formatting.FormatCurrencyShape` | money.js:457-460 | the output of `FormatCurrency` starts with the symbol, never contains a minus sign, ends with a point and exactly two digits, and has only digits and separators in between |
| `Formatting.FormatCurrencyReadsBack` | money.js:457-460 | read back without commas, the output of `FormatCurrency` is the absolute amount rounded to hundredths |
| `Formatting.RelativeDate` | money.js:463-482 | Today under one day apart, Yesterday from one to two days, "N days ago" from two to seven days, with N the number of whole days apart, the absolute date from seven days, counting either direction |
| `Formatting.PartOfDay` | money.js:626-634 | morning before 12, afternoon from 12 to before 17, evening from 17 to before 21, night from 21 |
| `Formatting.Greeting` | money.js:636-637 | the greeting starts with the salutation for the hour; it is the salutation alone exactly when no name is set, and otherwise is followed by ", name!" |

## Left out

- Rendering: DOM access, event listeners, `innerHTML` templates, the modal, page navigation,
  applying the theme, the balance colour, notifications and toasts with their timers, and `escapeHtml`.
  These are presentation only.
- Persistence: local storage is modelled only as the `stored` snapshot that every ledger change updates.
  JSON encoding, `loadSettings`/`saveSettings` and malformed stored data are not modelled.
- Numbers: amounts are exact reals, so float rounding in the sums and averages is not modelled.
  `parseFloat` is modelled by its outcome (NaN or a number); an input that parses to `Infinity`
  is not modelled. `toFixed` on values of 1e21 or more switches to exponent notation, which is not modelled.
- Clock and randomness: `generateId` and `new Date()` are the `id` and `now` parameters.
  The local-time `getMonth`/`getFullYear` is the `monthOf` parameter.
  `toLocaleDateString`, used for the absolute date and the current-date line, is not modelled.
  The text "N days ago" is represented by the `DaysAgo(N)` label.
- Tracker.MoneyTracker.Undo: takes a record. When a stale button deletes an unknown id, the source's toast
  captures `undefined` and its undo would prepend it; the model's `Delete` returns `None` then and offers nothing to undo.
- Aggregates.Widths: requires the largest of the first five amounts to be non-zero. The source would divide by zero and show NaN widths,
  which cannot happen for records the form created.
- Formatting.Symbol: looks the code up among the eight listed currencies only. A code naming an inherited
  object property would find that property in the source; the currency comes from a fixed select list.
- The profile picture upload (`FileReader`) and `updateCurrentDate` are not modelled.
