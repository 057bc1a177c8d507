# Lucca Cell point of sale: the logic behind the screens, in Dafny

Lucca Cell is a small phone-shop point-of-sale web app. Sales (`vendas`) are rows
with a product name, a quantity, a unit price, an instant and an owner. This project
models the pure logic that the app's hooks and form handlers run over those rows once
they are in hand, and proves what that logic guarantees:

- the dashboard load (`useDashboardData`):
  - the period boundaries: today, yesterday, this and last week, this and last month, the last seven days;
  - the half-open range totals of `quantidade * valor` and the period-over-period comparisons;
  - the average ticket, the seven zero-filled daily chart buckets, and the top-five product ranking;
- what the dashboard derives from that: the comparison badge, the progress-bar width, and whether the ranking chart is drawn;
- the local sale list of `useSales`: add, update, delete, and the weekly report, whose total sums unit prices only;
- the single-day report of `useSalesByDate`, with a closed day range and a unit-price total;
- the period report of `usePeriodSales`, with closed normalised bounds and a `quantidade * valor` total;
- the entry and edit handlers:
  - the sale form's `handleSubmit`;
  - the sale list's `startEdit` / `cancelEdit` / `saveEdit` / `handleDelete`;
  - the product form's `handleSubmit` and `startEdit` / `saveEdit`, and the product search;
- the printer settings: defaults, the load merge and partial updates.

Conventions of the model:

- **Instants** are integer milliseconds on the shop's local wall clock. Days are day numbers counted from 1970-01-01, which was a Thursday, and the weekday numbering is JavaScript's (0 is Sunday).
- **The current moment** is a local calendar reading `Clock(year, month 0..11, date, ms of day)`.
- **`new Date(y, m, 1)`** is `Calendar.MakeDay`. It follows ECMAScript's normalisation of the month, so month -1 is December of the year before. The constructor's other two rules, for years 0 to 99 and for instants out of range, are listed under "Left out".
- **The chart's day keys**, which come from `toISOString`, are UTC day numbers: the instant minus the shop's UTC offset, divided by a day.
- **Money** is an exact `real`.
- **Inputs rather than computations:**
  - the numbers `parseInt` / `parseFloat` give;
  - the text a real number prints as;
  - the rows a store query returns, passed as a `Result`;
  - whether a store mutation reported success.
- **React state** becomes immutable records. Each setter sequence becomes a pure `state -> state` function.

Each hook's quirks are kept as written:

- On a Sunday, `getDate() - getDay() + 1` is tomorrow. The dashboard's current week is then empty, its "last week" is the seven days ending today, and the weekly report of `useSales` covers the coming week.
- The weekly and single-day reports sum `valor` alone, while the dashboard and period reports use `quantidade * valor`.
- The weekly report of `useSales` reads each entry's `date` and `value`, which the `Sale` record does not declare. The sale form and the list's edit hand over only `nome_produto`, `quantidade` and `valor`, and `updateSale` replaces an entry's fields wholesale. An entry they write therefore has no date, its `new Date(undefined)` compares false with both ends of the window, and it is never reported. Only entries that carry `date` and `value` from earlier saved data can be. An entry in the window without a `value` makes the total `NaN`, modelled as `None`.
- The Saturday chart label is the byte sequence that is in the source, `"SÃ¡b"`.
- The product edit saves without any check.

## Model

| member | source | states |
|---|---|---|
| SaleRecords.LineTotal | src/hooks/useDashboardData.ts:134 | a sale's contribution to the dashboard and period totals is its quantity times its unit price: at least the unit price for a sale with at least one unit and a positive price, exactly the unit price for one unit, and nothing for none |
| Comparison.Compare | src/hooks/useDashboardData.ts:39-50 | against a positive baseline the change is (current - previous) / previous * 100 (stated without division); against none it is 100 when something was sold and 0 otherwise; both amounts are echoed; positive exactly when the change is not negative |
| Comparison.PositiveIffNotBelow | src/hooks/useDashboardData.ts:40-48 | with a positive baseline, the comparison is positive exactly when the current amount has not fallen below the previous one |
| Comparison.DropIsAtMostFull | src/hooks/useDashboardData.ts:40-42 | a non-negative current amount never shows a change below -100% |
| Comparison.ZeroBaselineIsPositive | src/hooks/useDashboardData.ts:63-71 | with nothing before, the comparison is always positive; comparing 0 with 0 gives exactly the initial neutral comparison |
| Comparison.PercentMonotonic | src/hooks/useDashboardData.ts:40-42 | against the same positive baseline, a larger current amount shows a strictly larger change |
| Comparison.NothingNowIsNoGain | src/hooks/useDashboardData.ts:40-42 | selling nothing never reads as growth, and against a positive baseline it reads as exactly -100% |
| RangeTotals.InRange | src/hooks/useDashboardData.ts:129-133 | keeps exactly the sales with start <= instant < end, each as often as it occurs, in their original order |
| RangeTotals.Total | src/hooks/useDashboardData.ts:128-135 | is 0 when no sale falls in the half-open range |
| RangeTotals.TotalAppend | src/hooks/useDashboardData.ts:128-135 | the total over two lists of rows is the sum of their totals |
| RangeTotals.TotalSplit | src/hooks/useDashboardData.ts:132 | for a <= b <= c, the total over [a, c) is the total over [a, b) plus the total over [b, c): no boundary instant is counted twice or missed |
| RangeTotals.TotalOfOne | src/hooks/useDashboardData.ts:129-134 | a single sale contributes its line total if it is in the range and nothing otherwise |
| RangeTotals.TotalNonNegative | src/hooks/useDashboardData.ts:128-135 | over well-formed sales (at least one unit, positive price) every total is non-negative |
| Periods.PreviousMonth | src/hooks/useDashboardData.ts:107 | the month before is the same year's previous month, or December of the previous year in January |
| Periods.WeekStartDay | src/hooks/useDashboardData.ts:93-95 | the day `getDate() - getDay() + 1` is always a Monday; it is within the last six days up to today, except on a Sunday, when it is tomorrow |
| Periods.LastMonthStartDay | src/hooks/useDashboardData.ts:107-108 | the first of last month lies exactly one month-length of the previous month before the first of this month |
| Periods.BoundariesAt | src/hooks/useDashboardData.ts:80-114 | today is the current day's midnight and the current instant lies in [today, tomorrow); yesterday, today and tomorrow are a day apart; this week starts on a Monday midnight, at most today except on a Sunday, when it is tomorrow; last week is the seven days before it and ends where it starts; this month starts at the first's midnight, (date - 1) days before today; last month ends where this month starts and is one previous-month length long; the seven-day window starts six days before today |
| Calendar.MakeDay | src/hooks/useDashboardData.ts:103-107 | `new Date(y, m, 1)` for a month in range is the civil day, and month -1 is December of the year before |
| Calendar.MonthLength | src/hooks/useDashboardData.ts:103-109 | the first of the next month is the first of this month plus this month's length, leap years included |
| Calendar.ShiftDate | src/hooks/useDashboardData.ts:86-90 | `setDate(getDate() + k)` moves exactly k days, across month and year ends |
| Calendar.EpochAnchors | src/hooks/useDashboardData.ts:94 | the day numbering starts at 1970-01-01 and agrees with JavaScript's weekday numbering (2024-01-01 is a Monday) |
| DailyBuckets.EmptyBuckets | src/hooks/useDashboardData.ts:166-176 | exactly seven buckets, oldest first, keyed by the UTC day of now minus 6..0 days, labelled by local weekday, each with zero total and count |
| DailyBuckets.AddToBucket | src/hooks/useDashboardData.ts:178-188 | one sale changes at most the bucket whose key is its UTC day, and only if it is not before the window start; keys and labels never change |
| DailyBuckets.FillAddsLanding | src/hooks/useDashboardData.ts:178-188 | after every sale is folded in, each bucket holds exactly the line-total sum and the number of the sales landing on its key |
| DailyBuckets.DailySales | src/hooks/useDashboardData.ts:163-190 | the chart is seven buckets whose totals and counts are the sums and counts of the in-window sales with that day key; a sale whose key has no bucket is dropped |
| DailyBuckets.BucketsPartitionWindow | src/hooks/useDashboardData.ts:163-190 | when local time is UTC, the buckets partition the window: their totals add up to the range total from six days before today to tomorrow, and their counts to the number of sales in it |
| TopProducts.Group | src/hooks/useDashboardData.ts:193-207 | one category per distinct product name, in first-seen order, whose value is the line-total sum and whose count is the sum of the quantities of the sales with that exact name |
| TopProducts.Insert | src/hooks/useDashboardData.ts:209-210 | inserting after the equal values keeps a list sorted by descending value, one longer, with the same elements plus the new one |
| TopProducts.InsertPermutes | src/hooks/useDashboardData.ts:209-210 | insertion neither loses nor duplicates a category |
| TopProducts.InsertTies | src/hooks/useDashboardData.ts:209-210 | insertion keeps the relative order of categories with equal values (the sort is stable) |
| TopProducts.SortByValueDesc | src/hooks/useDashboardData.ts:209-210 | the sort by `b.value - a.value` is a permutation, sorted by descending value, and stable: ties keep their first-seen order |
| TopProducts.Take | src/hooks/useDashboardData.ts:211 | `slice(0, n)` is the prefix of length min(n, length) |
| TopProducts.Top | src/hooks/useDashboardData.ts:193-211 | at most five categories and never more than the distinct names, exactly five when there are that many; sorted by descending value; distinct groups drawn from the real groups, none repeated; no group left out is worth more than one kept; among equal values, the kept groups are the first-seen ones in first-seen order |
| TopProducts.GroupCount | src/hooks/useDashboardData.ts:193-207 | there are exactly as many groups as distinct product names |
| TopProducts.TopEmptyIff | src/hooks/useDashboardData.ts:193-211 | the ranking is empty exactly when the month has no sale |
| DashboardData.AvgTicket | src/hooks/useDashboardData.ts:160 | with at least one sale, the average times the count is the month total; with none it is 0 |
| DashboardData.Fetch | src/hooks/useDashboardData.ts:117-125 | the query returns the rows at or after the start of last month, in table order, each as often as in the table, and no other row |
| DashboardData.FetchCovers | src/hooks/useDashboardData.ts:116-120 | every range that starts at or after the query's lower bound totals the same over the fetched rows as over the whole table |
| DashboardData.Period | src/hooks/useDashboardData.ts:138-155 | a comparison's current and previous amounts are the totals of its current and previous half-open ranges, and its percent change and sign are `calculateComparison` of those two amounts |
| DashboardData.Figures | src/hooks/useDashboardData.ts:137-213 | loading ends; each comparison's current amount is the figure shown, and the whole comparison, percent change and sign included, is `calculateComparison` of that figure and its baseline; the chart is the seven-day chart of the fetched rows; the ranking is the top five of the rows at or after the start of the month; the sales count is the number of those rows; the average ticket is the month total over that count |
| DashboardData.FiguresTotals | src/hooks/useDashboardData.ts:137-155 | today, this week and this month total [today, tomorrow), [startOfWeek, tomorrow) and [startOfMonth, tomorrow); their baselines total yesterday, last week and last month |
| DashboardData.Load | src/hooks/useDashboardData.ts:77-220 | loading ends either way; a failed fetch leaves every figure as it was; a successful one computes the figures at the current clock reading |
| DashboardData.QueryBoundFirst | src/hooks/useDashboardData.ts:80-120 | the first of last month is at or before yesterday, last week's Monday, the first of this month and the first of the chart's seven days, which is the `sevenDaysAgo` boundary |
| DashboardData.ChartIgnoresEarlier | src/hooks/useDashboardData.ts:178-188 | dropping rows dated before the chart's first day leaves the chart unchanged |
| DashboardData.FetchSuffices | src/hooks/useDashboardData.ts:116-213 | loading the rows the query fetches gives exactly the dashboard that loading the whole table gives: the fetch covers every comparison, the ranking, the count and the chart |
| DashboardData.AdjacentFigures | src/hooks/useDashboardData.ts:138-145 | when a baseline and a current figure cover adjacent ranges, their sum is the total over the union |
| DashboardData.TodayAfterYesterday | src/hooks/useDashboardData.ts:138-143 | yesterday's and today's totals add up to exactly the total of the last two days |
| DashboardData.SundayBoundaries | src/hooks/useDashboardData.ts:93-100 | on a Sunday, this week starts tomorrow and last week is the seven days ending today |
| DashboardData.SundayFigures | src/hooks/useDashboardData.ts:139-154 | with those Sunday boundaries, this week totals 0, never reads as growth, and last week's total is that of the seven days ending today |
| DashboardData.SundayWeek | src/hooks/useDashboardData.ts:93-154 | a Sunday load shows an empty week that never reads as growth, compared with the Monday-to-Sunday span that ends today |
| DashboardData.WeekdayBoundaries | src/hooks/useDashboardData.ts:93-100 | on any other day, last week starts on a Monday and ends where this week starts, which is at most tomorrow |
| DashboardData.WeekAfterLastWeek | src/hooks/useDashboardData.ts:139-144 | on any other day, last week's and this week's totals add up to the total from last week's Monday to tomorrow |
| DashboardData.MonthBoundaries | src/hooks/useDashboardData.ts:103-109 | last month starts at the first of the previous month (December of the year before in January) and ends where this month starts |
| DashboardData.MonthAfterLastMonth | src/hooks/useDashboardData.ts:140-145 | last month's and this month's totals add up to the total from the first of last month to tomorrow |
| DashboardData.FailedLoadKeepsFigures | src/hooks/useDashboardData.ts:215-219 | a failed load keeps the totals, the chart and the ranking, and ends loading |
| DashboardView.ProgressWidth | src/components/Dashboard.tsx:216 | the bar width is within [0, 100]; against a positive baseline it is current / previous * 50 capped at 100 and 0 for nothing sold; against no baseline it is full when something was sold and empty otherwise |
| DashboardView.EqualIsHalf | src/components/Dashboard.tsx:244 | equal current and previous amounts fill half the bar |
| DashboardView.HalfBarIffPositive | src/components/Dashboard.tsx:272 | against a positive baseline, the bar reaches the middle exactly when the comparison is positive |
| DashboardView.BadgeFor | src/components/Dashboard.tsx:41-56 | "Sem dados" exactly when the previous amount and the change are both 0; otherwise the arrow points up, and the '+' sign appears, exactly when the comparison is positive |
| DashboardView.BadgeOfComparison | src/components/Dashboard.tsx:41-56 | for a computed comparison, "Sem dados" shows exactly when nothing was sold before or now; with a positive baseline the arrow is up exactly when the current amount has not fallen below the previous one |
| DashboardView.ChartShownIffSales | src/components/Dashboard.tsx:338-385 | the ranking chart is drawn exactly when the month has a sale; otherwise the empty-state message shows |
| LocalSales.FromInput | src/components/SaleForm.tsx:47-51 | what the forms hand to `addSale` and `updateSale` keeps the name, quantity and price and has neither `value` nor `date` |
| LocalSales.AddSale | src/hooks/useSales.ts:20-26 | the new entry, with the clock's decimal text as its id, goes in front of the unchanged list |
| LocalSales.UpdateSale | src/hooks/useSales.ts:28-34 | same length and ids in the same order; entries with another id are untouched; every entry with the id gets the new fields |
| LocalSales.UpdateAbsent | src/hooks/useSales.ts:30-32 | updating an id that is not in the list changes nothing |
| LocalSales.UpdateIdempotent | src/hooks/useSales.ts:28-34 | updating twice with the same fields is updating once |
| LocalSales.DeleteSale | src/hooks/useSales.ts:36-38 | keeps exactly the entries with another id, each as often as it occurs, in their order |
| LocalSales.DeleteIdempotent | src/hooks/useSales.ts:36-38 | deleting twice is deleting once |
| LocalSales.DeleteAbsent | src/hooks/useSales.ts:36-38 | deleting an id that is not in the list changes nothing |
| LocalSales.DeleteAfterUpdate | src/hooks/useSales.ts:28-38 | deleting an id after updating it gives the same list as deleting it straight away |
| LocalSales.DeleteAfterAdd | src/hooks/useSales.ts:20-38 | deleting a freshly added entry by its new id gives back the list as it was |
| LocalSales.WeeklyWindow | src/hooks/useSales.ts:41-48 | the window runs from Monday midnight to 23:59:59.999 six days later; it contains now on any day but Sunday, when it starts tomorrow |
| LocalSales.ValueSum | src/hooks/useSales.ts:55 | the sum of the `value` fields when every entry has one, and `NaN` (`None`) exactly when one does not |
| LocalSales.GetWeeklyReport | src/hooks/useSales.ts:40-62 | the report lists the entries dated in the closed window, in list order and each as often as it occurs; it counts them; its total is the sum of their `value` fields, or `NaN` exactly when one of them has none |
| LocalSales.SundayReportIsAhead | src/hooks/useSales.ts:43 | on a Sunday every entry in the report is dated after now |
| LocalSales.AddedFromFormNotReported | src/hooks/useSales.ts:20-26 | a sale added through the form leaves the weekly report exactly as it was |
| LocalSales.UpdatedFromFormNotReported | src/hooks/useSales.ts:28-34 | after an edit through the list, no entry with the edited id is in the weekly report |
| LocalSales.UndatedListReportsNothing | src/hooks/useSales.ts:50-61 | a list with no dated entry gives an empty report, a count of 0 and a total of 0 |
| LocalSales.QuantityIgnored | src/hooks/useSales.ts:55 | changing an entry's quantity does not change the weekly total |
| SalesByDate.GetDateRange | src/hooks/useSalesByDate.ts:12-20 | 00:00:00.000 and 23:59:59.999 of the given instant's own day, start before end, the instant between them |
| SalesByDate.Initial | src/hooks/useSalesByDate.ts:7-9 | starts at now, with no sales and not loading |
| SalesByDate.BeginLoad | src/hooks/useSalesByDate.ts:23 | a load starts loading and keeps the selection |
| SalesByDate.FinishLoad | src/hooks/useSalesByDate.ts:22-48 | loading ends either way; a success selects the date and lists the rows between the day's two ends, both included, in table order, each as often as in the table, and no other row; a failure keeps the date and the list |
| SalesByDate.LoadedSameDay | src/hooks/useSalesByDate.ts:25-37 | a successful load lists the rows whose day is the chosen day, in table order, each as often as in the table, and no other row |
| SalesByDate.SelectedDateReport | src/hooks/useSalesByDate.ts:50-53 | the day total is 0 for no sales |
| SalesByDate.ReportAddsUnitPrice | src/hooks/useSalesByDate.ts:51 | each further sale adds its unit price and not its line total |
| SalesByDate.UnitTotalAtMostLineTotal | src/hooks/useSalesByDate.ts:51 | over well-formed sales the day total is at most the quantity-weighted total, and equal when every quantity is 1 |
| PeriodSales.NormaliseBounds | src/hooks/usePeriodSales.ts:29-33 | the start moves back to midnight of its day and the end forward to the last millisecond of its day |
| PeriodSales.BeginLoad | src/hooks/usePeriodSales.ts:26 | a load starts loading and keeps the report |
| PeriodSales.FinishLoad | src/hooks/usePeriodSales.ts:25-64 | loading ends either way; a success reports the rows between the normalised bounds, both included, in table order, each as often as in the table, and no other row; their number, the sum of quantity times price, and the bounds; a failure keeps the report |
| PeriodSales.SearchedOnlyAfterSuccess | src/components/PeriodReport.tsx:47 | the initial report is not "searched"; it becomes so after a successful load, and a failed one does not change it |
| PeriodSales.OneDayIsTheDailyRange | src/hooks/usePeriodSales.ts:29-33 | a one-day period has the same bounds as the single-day report |
| PeriodSales.ReversedPeriodIsEmpty | src/hooks/usePeriodSales.ts:38-39 | an end day before the start day finds nothing and totals 0 |
| PeriodSales.WiderPeriodFindsMore | src/hooks/usePeriodSales.ts:38-39 | widening the bounds never finds fewer rows |
| SaleEntry.CheckSale | src/components/SaleForm.tsx:26-51 | refused for a missing field exactly when the trimmed name or the quantity or price text is empty; refused as non-positive exactly when the fields are present but the quantity or the price is not positive; otherwise accepted with the trimmed name and the parsed numbers |
| SaleEntry.AcceptedIsSound | src/components/SaleForm.tsx:47-51 | what is accepted has a trimmed, non-blank name, at least one unit and a positive price |
| SaleEntry.BlankNameRefused | src/components/SaleForm.tsx:26 | an all-whitespace name is always refused as a missing field |
| SaleForm.HandleSubmit | src/components/SaleForm.tsx:23-56 | `onSubmit` is called once on acceptance and never on refusal; the refusal reason follows the two checks; an accepted submission clears all three fields and a refused one keeps them |
| SaleForm.SubmittedIsSound | src/components/SaleForm.tsx:47-51 | everything handed to `onSubmit` has a trimmed, non-blank name, at least one unit and a positive price |
| SaleForm.NoDoubleSubmit | src/components/SaleForm.tsx:54-56 | submitting the cleared form again is refused |
| SaleForm.RefusalIsStable | src/components/SaleForm.tsx:26-45 | repeating a refused submission changes nothing |
| SalesList.StartEdit | src/components/SalesList.tsx:42-49 | the sale's id is being edited and the form holds its name, its quantity as decimal text that reads back as the quantity, and its price text |
| SalesList.CancelEdit | src/components/SalesList.tsx:51-54 | nothing is being edited and the form is empty |
| SalesList.SaveEdit | src/components/SalesList.tsx:56-85 | at most one `onUpdate`, made exactly when nothing is refused; a refused save keeps the state and edit mode; an accepted one sends the trimmed name and parsed numbers for the id and leaves edit mode |
| SalesList.SameRulesAsNewSale | src/components/SalesList.tsx:57-82 | an edit is refused for the same reason as the same texts and numbers in the new-sale form, and otherwise sends the same payload |
| SalesList.ResaveUnchanged | src/components/SalesList.tsx:42-84 | opening a well-formed sale with a non-blank name and saving it untouched is accepted and writes its trimmed name, quantity and price |
| SalesList.HandleDelete | src/components/SalesList.tsx:87-91 | `onDelete` is called with the id exactly when the user confirms |
| Products.BarcodeOf | src/components/Products.tsx:34 | none exactly when the barcode text is all whitespace; otherwise its non-empty trimmed core |
| Products.HandleSubmit | src/components/Products.tsx:24-43 | refused exactly when the name is blank or the price text is empty, with nothing sent; otherwise one product is sent; the fields are cleared only when the store reports success |
| Products.Submitted | src/components/Products.tsx:30-35 | the product sent has the trimmed name and the parsed price, stock 0 for a blank stock field, and no barcode exactly when the barcode text is blank |
| Products.SubmitRules | src/components/Products.tsx:26-31 | refused exactly when the name is all whitespace or the price text is empty; what is sent has a trimmed, non-blank name |
| Products.BlankStockIsZero | src/components/Products.tsx:33 | a blank stock field registers 0 units, whatever the parse gave |
| Products.StartEdit | src/components/Products.tsx:45-51 | the product's id is being edited; the fields hold its name, its price text, its stock as decimal text that reads back as the stock, and its barcode or '' for none |
| Products.CancelEdit | src/components/Products.tsx:199 | nothing is being edited and the fields are kept |
| Products.SaveEdit | src/components/Products.tsx:53-65 | nothing happens when no id, or the empty one, is being edited; otherwise exactly one update for that id with the trimmed name, the parsed numbers and the trimmed barcode or none; edit mode ends exactly when the store reports success |
| Products.EmptyIdNeverSaved | src/components/Products.tsx:45-54 | a product whose id is the empty text opens for edit but its save sends nothing and leaves the form open |
| Products.EditDoesNotValidate | src/components/Products.tsx:53-60 | a blank name and a non-positive price are sent as they are |
| Products.Filter | src/components/Products.tsx:72-74 | keeps exactly the products whose lower-cased name contains the lower-cased search, each as often as it occurs, in their original order |
| Products.EmptySearchKeepsAll | src/components/Products.tsx:72-74 | an empty search shows every product, in order |
| Products.SearchIgnoresCase | src/components/Products.tsx:73 | searching the lower-cased text finds the same products as the text itself |
| Products.FoundByOwnName | src/components/Products.tsx:72-74 | every product is found by its own name |
| Text.Trim | src/components/SaleForm.tsx:48 | the result has no whitespace at either end and is what is left after removing whitespace from both ends |
| Text.TrimEmptyIff | src/components/SaleForm.tsx:26 | trimming leaves nothing exactly when the text is all whitespace |
| Text.TrimIdempotent | src/components/SalesList.tsx:79 | trimming twice is trimming once |
| Text.Lower | src/components/Products.tsx:73 | same length, every letter lower-cased position by position |
| Text.LowerIdempotent | src/components/Products.tsx:73 | lower-casing twice is lower-casing once |
| Text.Contains | src/components/Products.tsx:73 | true exactly when the needle occurs at some position |
| Text.IntToString | src/hooks/useSales.ts:23 | the decimal text of an integer is non-empty and reads back as that integer |
| Store.Since | src/hooks/useDashboardData.ts:120 | keeps exactly the rows at or after the bound, each as often as it occurs, in their order; the same filter gives the month's sales kept for the ranking and the count |
| Store.Between | src/hooks/useSalesByDate.ts:30-31 | keeps exactly the rows between the two bounds, both included, each as often as it occurs, in their order |
| PrinterSettings.Merge | src/hooks/usePrinterSettings.ts:30 | each field the partial has replaces the base's, and every other field keeps its value |
| PrinterSettings.LoadSettings | src/hooks/usePrinterSettings.ts:17-23 | nothing stored or unparseable text gives exactly the defaults (58mm, no auto-print, "LUCCA CELL"); otherwise stored fields override the defaults |
| PrinterSettings.UpdateSettings | src/hooks/usePrinterSettings.ts:28-34 | the next settings are the previous ones overridden by the partial, and the whole of them is what is written |
| PrinterSettings.SavedReloads | src/hooks/usePrinterSettings.ts:30-32 | loading what an update wrote gives back exactly the settings it returned |
| PrinterSettings.EmptyUpdateIsIdentity | src/hooks/usePrinterSettings.ts:30 | an update with no fields changes nothing |
| PrinterSettings.UpdateIdempotent | src/hooks/usePrinterSettings.ts:30 | applying the same update twice is applying it once |
| PrinterSettings.UpdateKeepsOthers | src/hooks/usePrinterSettings.ts:30 | a field the update does not name keeps its value |
| PrinterSettings.WholeRoundTrip | src/hooks/usePrinterSettings.ts:20-31 | any settings, written whole and loaded, come back unchanged |
| PrinterSettings.UpdatesCompose | src/hooks/usePrinterSettings.ts:28-30 | two updates in a row are one update in which the later fields win |
| Seqs.KeepCounts | src/hooks/useSales.ts:37 | `filter` keeps every passing element exactly as often as it occurs and no other |
| Seqs.KeepUnique | src/hooks/useSales.ts:37 | an in-order subsequence with those counts is the filter's result, so the two properties describe `filter` completely |
| Seqs.KeepKeep | src/hooks/useDashboardData.ts:120-132 | filtering by a weaker condition and then a stronger one is filtering by the stronger one alone |
| Seqs.KeepAppend | src/hooks/useDashboardData.ts:129-133 | filtering distributes over concatenation |
| Seqs.SumAppend | src/hooks/useDashboardData.ts:134 | a reduce-sum over a concatenation is the sum of the two sums |

## Left out

- Store queries, mutations and `localStorage`: the rows a query returns, the success flags of `addProduct` / `updateProduct` and the text read back from storage are parameters. The remote store's ordering (`order('data_venda', ...)`) is not modelled: the fetched rows are taken in the order given.
- `parseInt` / `parseFloat`: the parsed numbers are parameters, so NaN (which passes the `<= 0` checks in the source) is not modelled.
- Number-to-text conversion of prices (`toString`, `String(preco)`): the text is a parameter. Integer quantities and stocks are written as decimal text by `Text.IntToString`.
- Floating-point rounding: money is an exact real.
- Time zones and daylight saving: the local clock is a fixed offset from UTC, and the chart's day keys are its UTC day numbers. The mismatch between local and UTC days in the chart shows only as a key that has no bucket.
- The second `new Date()` taken inside the chart's bucket loop is the same moment as the first.
- `sales || []` and `data || []`: a missing data array with no error is the empty list.
- Toasts, `console.error`, the confirmation dialog (its answer is a parameter), form `preventDefault`, and the `useEffect` hooks that load and save the local sale list.
- Products `handleDelete`: it hands the id to the store and only shows a toast.
- `JSON.parse` results that are not objects, or whose fields have the wrong type: a parsed settings object is modelled by which of its three fields are present.
- `Text.Lower`: case mapping covers ASCII and Latin-1 letters, not the whole of Unicode.
- Calendar.MakeDay: `new Date(y, m, 1)` maps a year from 0 to 99 to 1900 to 1999, and it gives an invalid date when the result lies more than 8.64e15 ms from the epoch. Neither rule is modelled: a valid clock may hold any year, and instants are unbounded. So the dashboard's month and week boundaries are not modelled for clock readings before the year 100 or beyond the year 275760.
- LocalSales: an entry's `date` stands for the instant `new Date(sale.date)` gives. Date strings and their parsing are not modelled, and neither is a `value` that is present but not a number.
- DashboardData.Figures: states the average ticket through `DashboardData.AvgTicket` (the average times the count is the month total), not as a division.
- DailyBuckets.BucketsPartitionWindow: the exact partition is proved for a zero UTC offset only; with another offset a sale can land on a key that has no bucket and be dropped.
- Presentation (JSX, styling, chart rendering, currency formatting), PDF generation, label printing and authentication are not part of this model.
