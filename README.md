# Personal finance tracker: data layer and dashboard figures, in Dafny

This project models the core of a browser-based personal finance tracker.
It also proves properties of that model.

- **The transaction store.** It keeps transactions and monthly budget rules under two keys of a key-value store. It lists transactions after:
  1. expanding recurring templates into dated occurrences;
  2. filtering them by type, category, date range and a notes search;
  3. sorting them newest first.

  It also creates, updates and removes transactions, and replaces the budget rules wholesale.
- **The CSV codec.** Export writes one quoted-where-needed line per transaction under a fixed header. Import reads a file back by header name. It skips blank lines and rows without a positive amount.
- **The aggregations the dashboard shows.**
  - The budget bars: this month's spending per category, and each rule's spent, remaining, over-budget and bar widths.
  - The summary cards: all-time, this-month and last-month income and expense, with the month-over-month change.
  - Three charts: income and expense per month, expense per category, and expense per month.
- **The category lists and the filter bar's state.**

The store is a class whose two fields are the two keys of the key-value store; `None` means the key was never written.

Some inputs of the source are parameters here:
- The current day is a parameter `today`.
- The generated id is a parameter `newId`.
- The current and previous `YYYY-MM` keys are parameters of the dashboard loop.
- `String(amount)` and `Number(text)` with its `isFinite` test are parameters `show` and `parse` of the CSV codec.

The date library's `addDays`, `addWeeks`, `addMonths`, `isBefore`, `parseISO` and `formatISO` are modelled as Gregorian calendar arithmetic on `Date(year, month, day)`:
- `addMonths` clamps to the last day of a shorter month;
- `parseISO` reads the `yyyy-MM-dd` form.

JavaScript's `Map` with its insertion order becomes a sequence of entries. `Array.prototype.sort`, which is stable, becomes a stable insertion sort.

Where the program works step by step, the model does too, and each such method is proved equal to a function:
- the recurrence expansion;
- the store's operations;
- `splitCSV`;
- the export and import loops;
- the accumulation loops of the dashboard and the charts.

The promised properties are then proved about those functions.

## Model

| member | source | states |
|---|---|---|
| Calendar.DaysInMonth | src/services/mockApi.ts:95-101 | A month has 28 to 31 days; February has 29 exactly in leap years (the calendar behind `addDays`/`addMonths`) |
| Calendar.BeforeIsCalendarOrder | src/services/mockApi.ts:36-37 | On valid dates, `isBefore` is the (year, month, day) order |
| Calendar.BeforeTotal | src/services/mockApi.ts:36-37 | Two different valid dates are ordered one way or the other |
| Calendar.Before | src/services/mockApi.ts:36-37 | `isBefore`; `BeforeIsCalendarOrder` and `BeforeTotal` state its meaning |
| Calendar.NextDay | src/services/mockApi.ts:98 | `addDays(d, 1)` is a valid date after `d` |
| Calendar.NextDayIsSuccessor | src/services/mockApi.ts:98 | No valid date lies strictly between a day and the next |
| Calendar.AddDays | src/services/mockApi.ts:98-100 | `addDays(d, n)` is valid, is `d` for n = 0 and after `d` otherwise |
| Calendar.MonthAfter | src/services/mockApi.ts:95 | The (year, month) n months later, counted as year*12+month |
| Calendar.AddMonths | src/services/mockApi.ts:95-101 | `addMonths(d, n)` lands n months on, on the same day clamped to the target month's length, after `d` when n > 0 |
| Calendar.Step | src/services/mockApi.ts:96-101 | One daily, weekly or monthly step gives a valid later date |
| Calendar.ParseDate | src/services/mockApi.ts:14 | `parseISO` yields only valid dates with four-digit years |
| Calendar.ParseFormat | src/services/mockApi.ts:13-16 | Parsing a formatted date gives the date back, and the text is 10 characters |
| Calendar.Format | src/services/mockApi.ts:15 | `formatISO(d, { representation: 'date' })`; `ParseFormat` shows it reads back and `FormatOrder` that its text order is date order |
| Calendar.FormatOrder | src/services/mockApi.ts:46 | String order on formatted dates is chronological order |
| Calendar.FieldOrder | src/services/mockApi.ts:46 | A zero-padded field of width w compares as its number, both `<` and `=` |
| Calendar.ThreeFields | src/services/mockApi.ts:46 | Dash-separated fixed-width fields compare field by field |
| Calendar.CanonicalOrder | src/services/mockApi.ts:46 | On canonical date texts, `<` is `isBefore` of the dates they denote |
| Calendar.ToDateOnly | src/services/mockApi.ts:13-16 | `toDateOnly` succeeds exactly when the text parses, and yields a canonical text of the same date |
| Calendar.ToDateOnlyIdempotent | src/services/mockApi.ts:13-16 | Canonicalising twice is canonicalising once |
| Calendar.YearMonthDecides | src/components/DashboardCards.tsx:9-10 | Two dates share their `YYYY-MM` exactly when they fall in the same month |
| Calendar.PrevMonthStart | src/components/DashboardCards.tsx:10 | `new Date(y, m - 1, 1)` is day 1 of the month before |
| Calendar.PrevDay | src/components/DashboardCards.tsx:10 | The day before `d` is valid, and its next day is `d` |
| Strings.LexLessIrreflexive | src/services/mockApi.ts:46 | No string is `<` itself |
| Strings.LexLessTransitive | src/services/mockApi.ts:46 | String `<` is transitive |
| Strings.LexLessTotal | src/services/mockApi.ts:46 | Two different strings are ordered one way or the other |
| Strings.LexLessAsymmetric | src/services/mockApi.ts:46 | `a < b` excludes `b < a` |
| Strings.LexLessDigits | src/services/mockApi.ts:46 | On equal-length numerals, text `<` and `=` are numeric `<` and `=` |
| Strings.LexLessAppend | src/services/mockApi.ts:46 | Equal-length prefixes decide the comparison unless they are equal |
| Strings.TrimStart | src/utils/exportToCSV.ts:70 | Drops exactly the leading white space, ECMAScript's full set (see `Strings.IsSpace`) |
| Strings.TrimEnd | src/utils/exportToCSV.ts:70 | Drops exactly the trailing white space, ECMAScript's full set |
| Strings.Trim | src/utils/exportToCSV.ts:70 | `trim` leaves no white space (including every Unicode space separator) at either end, keeps an already trimmed text, and is empty exactly for all-white-space text |
| Strings.TrimIdempotent | src/utils/exportToCSV.ts:70 | Trimming twice is trimming once |
| Strings.IsSpace | src/utils/exportToCSV.ts:29 | The characters `trim` removes: ECMAScript white space and line terminators; `TrimDropsLeadingSpace` and `TrimDropsTrailingSpace` give it its meaning |
| Strings.TrimDropsLeadingSpace | src/utils/exportToCSV.ts:29 | One white-space character before a trimmed header name, an ideographic space included, is removed |
| Strings.TrimDropsTrailingSpace | src/utils/exportToCSV.ts:29 | One white-space character after a trimmed header name is removed |
| Strings.Contains | src/services/mockApi.ts:40 | `includes`: some position holds the needle; `ContainsInfix` shows every infix is found |
| Strings.ContainsInfix | src/services/mockApi.ts:40 | A text contains whatever lies inside it |
| Strings.LexLess | src/services/mockApi.ts:46 | The string `<` of the sort; `LexLessIrreflexive`, `LexLessTransitive`, `LexLessTotal` and `LexLessAsymmetric` make it a strict total order |
| Strings.ToLower | src/services/mockApi.ts:39-40 | `toLowerCase` maps each ASCII capital to its lower case and keeps every other character |
| Strings.Split | src/utils/exportToCSV.ts:29 | `split` never returns an empty list |
| Strings.SplitNoSep | src/utils/exportToCSV.ts:29 | A piece without the separator is split off whole |
| Strings.SplitJoin | src/utils/exportToCSV.ts:29 | Splitting a join gives back the pieces when no piece holds the separator |
| Strings.SplitLines | src/utils/exportToCSV.ts:28 | Splitting on `\r?\n` never returns an empty list |
| Strings.SplitLinesOne | src/utils/exportToCSV.ts:28 | A line without breaks is split off whole |
| Strings.SplitLinesJoin | src/utils/exportToCSV.ts:28 | Splitting lines joined with `\n` gives back the lines when none holds a break |
| Strings.DigitChar | src/services/mockApi.ts:15 | The digit character of k denotes k |
| Strings.Decimal | src/services/mockApi.ts:15 | A decimal numeral is non-empty digits |
| Strings.Padded | src/services/mockApi.ts:15 | A zero-padded numeral is digits and at least w long |
| Strings.ZeroPad | src/services/mockApi.ts:15 | Zero padding keeps digits and reaches width w |
| Strings.DigitsValueBound | src/services/mockApi.ts:15 | A numeral of k digits is below 10^k |
| Strings.DecimalValue | src/services/mockApi.ts:15 | A decimal numeral reads back as its number |
| Strings.DecimalLength | src/services/mockApi.ts:15 | A number below 10^k takes at most k digits |
| Strings.LeadingZeroValue | src/services/mockApi.ts:15 | A leading zero does not change the value |
| Strings.ZeroPadValue | src/services/mockApi.ts:15 | Padding keeps the value and gives the stated length |
| Strings.PaddedRoundTrip | src/services/mockApi.ts:15 | A number below 10^w is written in exactly w digits and reads back as itself |
| Types.MonthOf | src/components/DashboardCards.tsx:16 | `date.slice(0, 7)` is the first seven characters, or the whole text when shorter |
| Sums.SumOfSnoc | src/components/Charts/IncomeExpenseLineChart.tsx:12-13 | One more element adds its measure to the sum |
| Sums.SumOfUpdate | src/components/Charts/IncomeExpenseLineChart.tsx:14 | Replacing an element changes the sum by the difference |
| Sorting.PrecedesFacts | src/services/mockApi.ts:46 | The sort's comparison is irreflexive, transitive and total on different keys |
| Sorting.Insert | src/services/mockApi.ts:46 | Inserting adds exactly the element (as multisets) |
| Sorting.SortBy | src/services/mockApi.ts:46 | Sorting is a permutation |
| Sorting.InsertSorted | src/services/mockApi.ts:46 | Inserting into a sorted list keeps it sorted |
| Sorting.InsertFrom | src/services/mockApi.ts:46 | Every element after an insert is the new one or an old one |
| Sorting.SortBySorted | src/services/mockApi.ts:46 | The sort's result is sorted |
| Sorting.InsertDistinct | src/components/Charts/MonthlyBarChart.tsx:14 | Inserting a new key keeps keys distinct |
| Sorting.SortByDistinct | src/components/Charts/MonthlyBarChart.tsx:14 | Sorting keeps keys distinct |
| Sorting.StrictlyAscending | src/components/Charts/MonthlyBarChart.tsx:14 | Sorted ascending with distinct keys is strictly ascending |
| Sorting.SumOfInsert | src/components/Charts/MonthlyBarChart.tsx:14 | Inserting adds the element's measure to the sum |
| Sorting.SumOfSortBy | src/components/Charts/MonthlyBarChart.tsx:14 | Sorting keeps the sum |
| Lists.Keep | src/services/mockApi.ts:33-43 | `filter` keeps, from the input, exactly the elements that pass, never more of them |
| Lists.KeepAppend | src/services/mockApi.ts:33 | Filtering distributes over concatenation, so order is kept |
| Lists.KeepAll | src/services/mockApi.ts:33 | Filtering with a predicate everything passes changes nothing |
| Lists.KeepSubMultiset | src/services/mockApi.ts:33 | The filtered list is a sub-multiset of the input |
| Grouping.Find | src/components/Charts/ExpensePieChart.tsx:13 | `map.get` finds the entry with the key, or reports that none has it |
| Grouping.GroupTotalsSnoc | src/components/Charts/ExpensePieChart.tsx:13 | One more pair is one more `map.set` |
| Grouping.GroupTotalsEntries | src/components/Charts/ExpensePieChart.tsx:10-15 | The map holds one entry per key that occurs and none other, each with its key's sum |
| Grouping.UpsertFacts | src/components/Charts/ExpensePieChart.tsx:13 | One `map.set` of a key's old total plus `a` adds `a` to that key alone and keeps keys distinct |
| Grouping.UpsertNew | src/components/Charts/ExpensePieChart.tsx:13 | A new key is appended after the existing entries |
| Grouping.UpsertExisting | src/components/Charts/ExpensePieChart.tsx:13 | Updating an existing key moves no key |
| Grouping.HasPairSnoc | src/components/Charts/ExpensePieChart.tsx:13 | One more pair adds its key to the keys present |
| Grouping.FindAfterUpdate | src/components/Charts/ExpensePieChart.tsx:13 | Updating an entry's total leaves every key's position |
| Grouping.GroupTotalsSum | src/components/Charts/ExpensePieChart.tsx:11-14 | The entries add up to the sum of all amounts |
| Grouping.UpsertKeys | src/components/Charts/ExpensePieChart.tsx:13-15 | A `map.set` keeps existing keys in place and appends only a new key |
| Grouping.LookupOwnKey | src/components/Charts/ExpensePieChart.tsx:13 | With distinct keys, an entry's own key finds that entry |
| Grouping.Lookup | src/components/Charts/ExpensePieChart.tsx:13 | `map.get(k) || 0`; `LookupOwnKey` and `GroupTotalsEntries` state what it finds |
| Grouping.Upsert | src/components/Charts/ExpensePieChart.tsx:13 | One `map.set`; `UpsertFacts`, `UpsertNew`, `UpsertExisting` and `UpsertKeys` state its effect |
| Grouping.GroupTotals | src/components/Charts/ExpensePieChart.tsx:10-15 | The map after the loop; `GroupTotalsEntries` and `GroupTotalsSum` state its contents |
| Grouping.ReorderedTotals | src/components/Charts/MonthlyBarChart.tsx:14 | A reordering of the entries keeps each key's total |
| Grouping.ReorderedKeys | src/components/Charts/MonthlyBarChart.tsx:14 | A reordering of the entries keeps the set of keys |
| Selection.SumWhereSnoc | src/components/DashboardCards.tsx:12-22 | One more transaction adds its amount exactly when selected |
| Selection.SumWhere | src/components/DashboardCards.tsx:12-22 | A running sum over the selected transactions; `SumWhereSnoc` and `SumWhereIgnoresUnselected` state its meaning |
| Selection.IncomePlusRestIsAll | src/components/DashboardCards.tsx:14-15 | Each transaction is counted in exactly one of income and the rest |
| Selection.NarrowerSumIsSmaller | src/components/DashboardCards.tsx:16-22 | With positive amounts, a narrower selection sums to no more, and not below 0 |
| Selection.MonthSumAtMostTotal | src/components/DashboardCards.tsx:14-22 | With positive amounts, a month's total is between 0 and the all-time total |
| Selection.SumWhereIgnoresUnselected | src/components/BudgetProgress.tsx:10-11 | Transactions the loop skips contribute nothing |
| Selection.Pairs | src/components/BudgetProgress.tsx:9-13 | The loop adds at most one pair per transaction |
| Selection.PairsSnoc | src/components/BudgetProgress.tsx:9-13 | One more transaction adds its pair exactly when selected |
| Selection.GroupedUpToPairs | src/components/BudgetProgress.tsx:9-13 | After n transactions the loop's map is the grouping of the selected ones among them |
| Selection.PairsSumKey | src/components/BudgetProgress.tsx:12 | The amounts paired with a key sum to the selected transactions under that key |
| Selection.PairsSum | src/components/Charts/ExpensePieChart.tsx:11-14 | All paired amounts sum to all selected transactions |
| Selection.PairsKeys | src/components/BudgetProgress.tsx:9-13 | A key is paired exactly when a selected transaction is filed under it |
| Selection.GroupedSelection | src/components/BudgetProgress.tsx:6-15 | The grouped map has distinct keys, one per key that occurs, each the sum of its selected transactions, adding up to the sum of all of them |
| Selection.GroupedKeyOccurs | src/components/Charts/ExpensePieChart.tsx:13 | Every key in the map comes from a selected transaction |
| Selection.GroupedSnoc | src/components/Charts/ExpensePieChart.tsx:13-15 | A step keeps earlier keys in place and appends at most the last transaction's key, which was new |
| Selection.GroupedSelectionOrder | src/components/Charts/ExpensePieChart.tsx:15 | Entries come in the order their keys first occur |
| Selection.KeyBeforeLastIsOld | src/components/Charts/ExpensePieChart.tsx:15 | A key filed earlier was already in the map before the last step |
| Recurrence.Occurrences | src/services/mockApi.ts:103-111 | Every visited date is valid and between the start and the end |
| Recurrence.OccurrencesChain | src/services/mockApi.ts:96-110 | The visited dates start at the start, each is one step after the previous, and the next step would pass the end; none when start is after end |
| Recurrence.OccurrencesIncreasing | src/services/mockApi.ts:103-110 | Visited dates strictly increase |
| Recurrence.AddOccurrences | src/services/mockApi.ts:103-111 | The inner loop only appends |
| Recurrence.SeriesOf | src/services/mockApi.ts:94-103 | A template's dates lie within its start and its end (end date, or today plus two months) |
| Recurrence.Window | src/services/mockApi.ts:94-95 | Start and end of a series; `ExpandFromFails` states when it throws and `SeriesOf` where its dates lie |
| Recurrence.Occurrence | src/services/mockApi.ts:108 | The pushed copy with id `<id>:<date>`; `AddOccurrencesOrigin` and `ListAmountsPositive` use what it copies |
| Recurrence.SameKey | src/services/mockApi.ts:106 | The five-field duplicate test; `ExpandFromNoRepeat` states that no appended entry repeats a key |
| Recurrence.HasKey | src/services/mockApi.ts:106 | `expanded.some(...)`; `ExpandCoversSeries` states an occurrence is skipped only when this holds |
| Recurrence.Expand | src/services/mockApi.ts:89-114 | `_expandRecurring`; `ExpandAppendsFreshOccurrences`, `ExpandCoversSeries`, `ExpandFromFails` and `ExpandPlain` state its meaning |
| Recurrence.ExpandFrom | src/services/mockApi.ts:91-112 | The outer loop only appends |
| Recurrence.StartAfterEndVisitsNothing | src/services/mockApi.ts:103 | A start after the end visits nothing |
| Recurrence.MonthlySeriesDrifts | src/services/mockApi.ts:95-110 | A monthly series from 31 January 2024 with no end, expanded on 1 March 2024, visits Jan 31, Feb 29, Mar 29, Apr 29 |
| Recurrence.AddOccurrencesNoRepeat | src/services/mockApi.ts:106-109 | No appended occurrence repeats the key of an earlier entry |
| Recurrence.AddOccurrencesOrigin | src/services/mockApi.ts:108 | Every appended entry is the occurrence on one of the dates |
| Recurrence.AddOccurrencesCovers | src/services/mockApi.ts:106-109 | Every date's occurrence key is present afterwards |
| Recurrence.ExpandFromStep | src/services/mockApi.ts:92-111 | One outer iteration appends the template's series |
| Recurrence.ExpandFromNoRepeat | src/services/mockApi.ts:106-109 | Over all templates, no appended entry repeats an earlier key |
| Recurrence.ExpandFromOrigin | src/services/mockApi.ts:92-111 | Every appended entry is generated by some template on a date of its series |
| Recurrence.ExpandFromCovers | src/services/mockApi.ts:103-111 | Every series date of every template is represented |
| Recurrence.ExpandAppendsFreshOccurrences | src/services/mockApi.ts:91-113 | The stored list is an unchanged prefix; the rest are template occurrences, none repeating an earlier key |
| Recurrence.ExpandCoversSeries | src/services/mockApi.ts:103-109 | An occurrence is only ever skipped because its key is already present |
| Recurrence.ExpandFromFails | src/services/mockApi.ts:93-95 | Expansion throws exactly when a recurring template's start date, or non-empty end date, does not parse; with no template it returns the list |
| Recurrence.ExpandPlain | src/services/mockApi.ts:91-93 | A list with no recurring template expands to itself |
| Recurrence.ExpandRecurring | src/services/mockApi.ts:89-114 | The nested loops compute the expansion |
| MockApi.NewTransaction | src/services/mockApi.ts:50-57 | `create` succeeds exactly for a positive amount and a parseable date; it refuses a non-positive amount first; the record has the new id, the canonical same date and every other field copied |
| MockApi.ApplyNoChange | src/services/mockApi.ts:63 | An empty patch changes nothing |
| MockApi.ApplyThen | src/services/mockApi.ts:63 | Two patches in turn are their merge; a patch applied twice is applied once |
| MockApi.Updated | src/services/mockApi.ts:63-65 | `update` succeeds exactly when the merged amount is positive and the merged date is empty or parses; the result is the merge with its date canonicalised when non-empty |
| MockApi.FindId | src/services/mockApi.ts:61 | `findIndex` gives the first index with the id, or -1 exactly when there is none |
| MockApi.RemoveIdFacts | src/services/mockApi.ts:73 | Removal drops every record with the id and keeps every other; an absent id changes nothing; removing twice is removing once |
| MockApi.Store.constructor | src/services/mockApi.ts:5-6 | Both keys start unwritten |
| MockApi.Store.List | src/services/mockApi.ts:27-48 | `list` is the expansion, filtered when filters are given, sorted newest first; on a valid store every listed amount is above zero |
| MockApi.Store.Create | src/services/mockApi.ts:50-57 | Appends exactly the new record or writes nothing; budgets untouched; keeps every record well formed, and ids distinct for a fresh id |
| MockApi.Store.Update | src/services/mockApi.ts:59-69 | Unknown id throws Not found; otherwise only index idx is replaced by the validated merge, or nothing is written |
| MockApi.Store.Remove | src/services/mockApi.ts:71-75 | Writes back the list without the id; budgets untouched |
| MockApi.Store.ClearAll | src/services/mockApi.ts:77-79 | Empties the transactions and keeps the budget rules |
| MockApi.Store.Budgets | src/services/mockApi.ts:81-83 | The stored rules, or none when never set |
| MockApi.Store.SetBudgets | src/services/mockApi.ts:85-87 | The rules replace the stored ones; transactions untouched |
| MockApi.ListContents | src/services/mockApi.ts:31-44 | A record is listed exactly when it is in the expansion and passes every present filter, and is listed no more often than the expansion holds it (a sub-multiset) |
| MockApi.ListHonoursFilters | src/services/mockApi.ts:33-43 | Every listed record has the filter's type and category, a date neither before `from` nor after `to`, and notes containing the search text, ASCII case ignored |
| MockApi.DateBoundsInclusive | src/services/mockApi.ts:36-37 | The date bounds are inclusive: a record dated on both bounds passes |
| MockApi.ListAmountsPositive | src/services/mockApi.ts:28-30 | With every stored amount above zero, every listed amount is too, occurrences included |
| MockApi.ExpandedAmountPositive | src/services/mockApi.ts:91-108 | Every entry of the expansion carries a stored record's amount, so it is above zero when they all are |
| MockApi.EarlierText | src/services/mockApi.ts:36 | `isBefore(parseISO(a), parseISO(b))`, false on an Invalid Date; `DateBoundsInclusive` and `ListHonoursFilters` give its effect |
| MockApi.Matches | src/services/mockApi.ts:33-43 | The filter callback; `ListContents` and `ListHonoursFilters` state what passes it |
| MockApi.Filter | src/services/mockApi.ts:33 | `out.filter(...)`; `ListContents` states its contents and multiplicities |
| MockApi.ListSpec | src/services/mockApi.ts:28-47 | What `list` returns; `ListContents`, `ListSortedByDate`, `ListNewestFirst` and `ListFails` state its meaning |
| MockApi.Apply | src/services/mockApi.ts:63 | `{ ...list[idx], ...patch }`; `ApplyNoChange` and `ApplyThen` give its laws |
| MockApi.RemoveId | src/services/mockApi.ts:73 | `list.filter(t => t.id !== id)`; `RemoveIdFacts` states what remains |
| MockApi.ListSortedByDate | src/services/mockApi.ts:46 | The list is ordered by date text, non-increasing |
| MockApi.ListNewestFirst | src/services/mockApi.ts:46 | On canonical dates, no listed record is dated before one listed after it |
| MockApi.ListUnfiltered | src/services/mockApi.ts:31-46 | With no filter or only falsy fields, the list is a reordering of the whole expansion |
| MockApi.ListPlainStore | src/services/mockApi.ts:28-46 | A store with no recurring record lists a reordering of what it holds |
| MockApi.ListFails | src/services/mockApi.ts:93-95 | `list` throws exactly when a recurring record's window does not parse |
| MockApi.ListShowsEverySeriesDate | src/services/mockApi.ts:103-109 | Unfiltered, every series date of every template is represented in the list |
| Csv.DoubleQuotes | src/utils/exportToCSV.ts:48 | A value without quotes is unchanged by quote doubling |
| Csv.Safe | src/utils/exportToCSV.ts:46-51 | A value without comma, quote or line feed is unchanged; otherwise it is wrapped in quotes |
| Csv.NeedsQuotes | src/utils/exportToCSV.ts:47 | The test for quoting; `Safe` states what each outcome does |
| Csv.RowLine | src/utils/exportToCSV.ts:7-15 | One exported line; `RowLineFields` and `RowLineParses` show it reads back |
| Csv.CsvText | src/utils/exportToCSV.ts:4-17 | The exported text; `ExportThenImport` shows import gives the rows back |
| Csv.CsvLines | src/utils/exportToCSV.ts:4-16 | The header line, then one line per row in order |
| Csv.CsvLinesSnoc | src/utils/exportToCSV.ts:6-16 | Each loop step appends one row line |
| Csv.ExportText | src/utils/exportToCSV.ts:3-17 | The export loop writes the lines joined with `\n` |
| Csv.Scan | src/utils/exportToCSV.ts:57-69 | The character loop ends at least one field |
| Csv.TrimAll | src/utils/exportToCSV.ts:70 | Every field is trimmed, none lost |
| Csv.SplitFields | src/utils/exportToCSV.ts:53-71 | `splitCSV` never returns an empty list |
| Csv.SplitCSV | src/utils/exportToCSV.ts:53-71 | The loop with its `i++` skip computes the fields |
| Csv.ScanFieldCount | src/utils/exportToCSV.ts:64-69 | One field per comma outside quotes, plus one |
| Csv.SplitFieldsCount | src/utils/exportToCSV.ts:53-71 | `splitCSV` returns one more field than there are commas outside quotes |
| Csv.ScanPlain | src/utils/exportToCSV.ts:66 | Ordinary characters join the current field |
| Csv.ScanDoubled | src/utils/exportToCSV.ts:59-62 | Inside quotes a doubled quote reads as one quote, so a doubled value reads back whole |
| Csv.ScanSafe | src/utils/exportToCSV.ts:46-71 | An exported value before a comma or the end reads back as the value |
| Csv.ScanJoin | src/utils/exportToCSV.ts:53-69 | Reading a line of exported values gives back the values |
| Csv.IndexOf | src/utils/exportToCSV.ts:30 | `indexOf` gives the first position of the name, or -1 exactly when absent |
| Csv.Column | src/utils/exportToCSV.ts:35-39 | A column out of range, including -1, is undefined |
| Csv.Field | src/utils/exportToCSV.ts:35-39 | `cols[idx(name)]` is the column under the first header cell with that name, or undefined when there is none |
| Csv.RowOfSwap | src/utils/exportToCSV.ts:30-39 | Columns are found by name: swapping two header names together with their columns leaves the row unchanged |
| Csv.FieldSwap | src/utils/exportToCSV.ts:30-39 | The same for one named column |
| Csv.HeaderOf | src/utils/exportToCSV.ts:28-29 | The trimmed names of the first line; `HeaderReadsBack` shows the exported header reads back |
| Csv.RowOf | src/utils/exportToCSV.ts:35-41 | A row is produced exactly when the amount column reads as a number above zero; each field is the column its header names, empty notes dropped |
| Csv.ParseRow | src/utils/exportToCSV.ts:33-41 | A line yields a row exactly when it is not blank and its amount column reads as a number above zero |
| Csv.Collect | src/utils/exportToCSV.ts:32-42 | At most one row per line |
| Csv.CollectStep | src/utils/exportToCSV.ts:32-42 | One loop step appends the line's row, if any |
| Csv.CollectFrom | src/utils/exportToCSV.ts:41 | Every collected row comes from some line |
| Csv.CollectAll | src/utils/exportToCSV.ts:32-42 | When every line yields a row, all are collected in order |
| Csv.ParseRowCases | src/utils/exportToCSV.ts:33-34 | A blank line yields no row; any other line is read through `splitCSV` |
| Csv.Imported | src/utils/exportToCSV.ts:28-42 | At most one row per line after the header |
| Csv.ImportedRowsValid | src/utils/exportToCSV.ts:40-41 | Every imported row has a positive amount and no empty notes |
| Csv.ImportCSV | src/utils/exportToCSV.ts:26-44 | The import loop computes the rows |
| Csv.ExportThenImport | src/utils/exportToCSV.ts:3-71 | Importing the export of rows with plain values gives back every row in order, without id and recurrence, empty notes as absent |
| Csv.ReimportedAll | src/utils/exportToCSV.ts:41 | One re-imported row per exported row |
| Csv.HeaderNoBreak | src/utils/exportToCSV.ts:4-5 | The header line has no line break |
| Csv.HeaderReadsBack | src/utils/exportToCSV.ts:29-30 | The header line reads back as the header |
| Csv.HeaderColumns | src/utils/exportToCSV.ts:29-30 | Columns are found by name at positions 1 to 5 |
| Csv.RowLineNoBreak | src/utils/exportToCSV.ts:7-15 | A row of values without breaks is one line |
| Csv.SafeNoBreak | src/utils/exportToCSV.ts:46-51 | Quoting adds no line break |
| Csv.DoubleQuotesNoBreak | src/utils/exportToCSV.ts:48 | Doubling quotes adds no line break |
| Csv.JoinNoBreak | src/utils/exportToCSV.ts:15 | Joining with commas adds no line break |
| Csv.RowLineParses | src/utils/exportToCSV.ts:3-44 | An exported row line imports as the row |
| Csv.RowLineFields | src/utils/exportToCSV.ts:53-71 | `splitCSV` of an exported row line gives back its six values |
| Csv.FieldsOfJoin | src/utils/exportToCSV.ts:46-71 | `splitCSV(join(",", map(safe, vs))) == vs` for trimmed values |
| Csv.TrimAllTrimmed | src/utils/exportToCSV.ts:70 | Trimming trimmed fields changes nothing |
| Csv.RowOfValues | src/utils/exportToCSV.ts:35-41 | The six exported values import as the row |
| Csv.RowLineNotBlank | src/utils/exportToCSV.ts:33 | A row line is never blank |
| Csv.JoinFirst | src/utils/exportToCSV.ts:15 | A joined row has a comma after its first value |
| Csv.NotBlank | src/utils/exportToCSV.ts:33 | A text with a non-space character is not blank |
| Csv.ScanUnquoted | src/utils/exportToCSV.ts:63-69 | Without quotes the loop splits on every comma |
| Csv.SplitFieldsUnquoted | src/utils/exportToCSV.ts:53-71 | Without quotes, `splitCSV` is `split(',')` with each piece trimmed |
| BudgetProgress.SpentByCategory | src/components/BudgetProgress.tsx:6-15 | `byCat[c]` is the sum of this month's expenses in category c, with an entry exactly for categories that have one |
| BudgetProgress.BarFor | src/components/BudgetProgress.tsx:21-41 | Spent is 0 without an entry; limit is max(0, monthlyLimit); remaining is never negative; over iff spent > limit, then over by spent - limit; pctSpent at most 100, 100 when over, 100 or 0 with a zero limit; the two widths add to 100 when the limit is positive, pctRemain 0 otherwise |
| BudgetProgress.SpentWidth | src/components/BudgetProgress.tsx:28 | `pctSpent` is at most 100, 100 once spending passes the limit, the exact share of the limit below it, not negative for non-negative spending, and 100 or 0 with a zero limit |
| BudgetProgress.RatioFacts | src/components/BudgetProgress.tsx:28 | Against a positive limit, `spent / limit` exceeds one exactly when spending exceeds the limit |
| BudgetProgress.BarOfMonth | src/components/BudgetProgress.tsx:6-25 | A bar's spent is the rule category's expenses this month; with positive amounts it is not negative and the bar is over iff it exceeds the clamped limit |
| DashboardCards.ComputeCards | src/components/DashboardCards.tsx:11-24 | Each total is the sum its selection defines: income, everything else as expense, each also for the current and the previous month; balance is income minus expense |
| DashboardCards.CardsAddUp | src/components/DashboardCards.tsx:14-22 | Income and expense split the sum of all amounts; with positive amounts a month's figure is between 0 and the all-time one |
| DashboardCards.Round | src/components/DashboardCards.tsx:29 | `Math.round` is within a half of its argument |
| DashboardCards.Delta | src/components/DashboardCards.tsx:27-30 | With nothing last month, 100 when there is something now, else 0; otherwise the rounded percent change |
| DashboardCards.DeltaFacts | src/components/DashboardCards.tsx:27-30 | No change is 0%, doubling +100%, dropping to nothing -100%; after a positive month growth is never negative and a fall never positive |
| DashboardCards.LastMonthIsPreviousMonth | src/components/DashboardCards.tsx:10 | The intended key matches every date of the previous month and never the current month |
| DashboardCards.LastMonthAsWrittenByZone | src/components/DashboardCards.tsx:10 | As written, at UTC or west the key is last month's; east of UTC it is the month two before |
| DashboardCards.LastMonthAsWrittenExample | src/components/DashboardCards.tsx:10 | On 15 June 2024 at UTC+3 the key is April, not May |
| DashboardCards.LastMonth | src/components/DashboardCards.tsx:10 | The intended key of the previous month; `LastMonthIsPreviousMonth` states its meaning |
| DashboardCards.LastMonthAsWritten | src/components/DashboardCards.tsx:10 | The key as written, through UTC; `LastMonthAsWrittenByZone` states how it depends on the time zone |
| IncomeExpenseLineChart.FindRow | src/components/Charts/IncomeExpenseLineChart.tsx:11 | `map.get(ym)` finds the month's row or reports none |
| IncomeExpenseLineChart.MonthRowsSnoc | src/components/Charts/IncomeExpenseLineChart.tsx:9-15 | One loop step is one `AddTo` |
| IncomeExpenseLineChart.AddRow | src/components/Charts/IncomeExpenseLineChart.tsx:10-14 | The loop body fetches or starts the row, adds the amount and stores it back |
| IncomeExpenseLineChart.ChartRows | src/components/Charts/IncomeExpenseLineChart.tsx:7-17 | The loop and the sort compute the chart rows |
| IncomeExpenseLineChart.MonthRowsCover | src/components/Charts/IncomeExpenseLineChart.tsx:8-15 | One row per month with a transaction and none for other months |
| IncomeExpenseLineChart.MonthRowsTotal | src/components/Charts/IncomeExpenseLineChart.tsx:12-13 | Each row holds its month's income and the rest as expense |
| IncomeExpenseLineChart.HasMonthSnoc | src/components/Charts/IncomeExpenseLineChart.tsx:10 | One more transaction adds its month |
| IncomeExpenseLineChart.AddToCovers | src/components/Charts/IncomeExpenseLineChart.tsx:10-14 | A step keeps one row per month |
| IncomeExpenseLineChart.AddToTotals | src/components/Charts/IncomeExpenseLineChart.tsx:12-13 | A step keeps every row's sums |
| IncomeExpenseLineChart.FindRowAfterUpdate | src/components/Charts/IncomeExpenseLineChart.tsx:14 | Storing a row back moves no month |
| IncomeExpenseLineChart.AddToSums | src/components/Charts/IncomeExpenseLineChart.tsx:12-13 | A step adds the amount to the income line or to the expense line |
| IncomeExpenseLineChart.MonthRowsSums | src/components/Charts/IncomeExpenseLineChart.tsx:9-15 | The income line adds up to all income, the expense line to everything else |
| IncomeExpenseLineChart.RowsOrderAndSums | src/components/Charts/IncomeExpenseLineChart.tsx:9-16 | Months strictly increase; the two lines add up to all income and everything else |
| IncomeExpenseLineChart.ReorderedTotal | src/components/Charts/IncomeExpenseLineChart.tsx:16 | The sort keeps every row's sums |
| IncomeExpenseLineChart.ReorderedMonths | src/components/Charts/IncomeExpenseLineChart.tsx:16 | The sort keeps the set of months |
| IncomeExpenseLineChart.RowsContents | src/components/Charts/IncomeExpenseLineChart.tsx:7-17 | A row for exactly the months with a transaction, each with that month's income and the rest as expense |
| IncomeExpenseLineChart.AddTo | src/components/Charts/IncomeExpenseLineChart.tsx:10-14 | One loop step; `AddToCovers`, `AddToTotals` and `AddToSums` state its effect |
| IncomeExpenseLineChart.MonthRows | src/components/Charts/IncomeExpenseLineChart.tsx:8-15 | The map after the loop; `MonthRowsCover`, `MonthRowsTotal` and `MonthRowsSums` state its contents |
| IncomeExpenseLineChart.Rows | src/components/Charts/IncomeExpenseLineChart.tsx:16 | The sorted rows; `RowsContents` and `RowsOrderAndSums` state their meaning |
| ExpensePieChart.CategoryBreakdown | src/components/Charts/ExpensePieChart.tsx:9-16 | One slice per expense category, distinct, each the category's expense sum over all months, adding up to total expense |
| ExpensePieChart.SliceOrder | src/components/Charts/ExpensePieChart.tsx:15 | Slices come in the order their categories first appear among expenses |
| MonthlyBarChart.MonthlyExpenses | src/components/Charts/MonthlyBarChart.tsx:7-15 | The loop and the sort compute the bars |
| MonthlyBarChart.BarsOrderAndSum | src/components/Charts/MonthlyBarChart.tsx:9-14 | Months strictly increase and the bars add up to total expense |
| MonthlyBarChart.BarsContents | src/components/Charts/MonthlyBarChart.tsx:9-14 | A bar for exactly the months with an expense, each that month's expense sum |
| MonthlyBarChart.Bars | src/components/Charts/MonthlyBarChart.tsx:8-14 | The sorted bars; `BarsContents` and `BarsOrderAndSum` state their meaning |
| Categories.Dedup | src/utils/categories.ts:19-21 | `[...new Set(xs)]` has no repeats, the same elements, and is no longer |
| Categories.DedupDistinct | src/utils/categories.ts:19-21 | A list without repeats is unchanged by the set |
| Categories.CategoryLists | src/utils/categories.ts:1-21 | The two lists are disjoint and repeat nothing; the flat list is the expense list then the income list, eleven names |
| Categories.CategoriesByTypeCovers | src/utils/categories.ts:19-25 | A name is offered for some type exactly when it is in the flat list |
| Categories.CategoriesByType | src/utils/categories.ts:23-25 | The list for a type; `CategoriesByTypeCovers` ties it to the flat list |
| Categories.AllCategories | src/utils/categories.ts:19-21 | The flat list; `CategoryLists` states its contents and order |
| Categories.OtherIncomeUndeclared | src/utils/categories.ts:15 | 'Other Income' is offered but not declared by `Category`; every other listed name is declared |
| FiltersStore.MergeLaws | src/hooks/useFiltersStore.ts:22-23 | `set({})` changes nothing; a patch twice is once; two patches compose; the reset patch yields the initial state |
| FiltersStore.MergeSetsPresentFields | src/hooks/useFiltersStore.ts:22 | Each of the five fields takes the patch's value when present, `undefined` included, and keeps the old value otherwise |
| FiltersStore.Merge | src/hooks/useFiltersStore.ts:22 | `{ ...s, ...patch }`; `MergeSetsPresentFields` and `MergeLaws` state its meaning |
| FiltersStore.InitialFiltersNothing | src/hooks/useFiltersStore.ts:17-21 | The initial filters let every transaction through |
| FiltersStore.FilterStore.constructor | src/hooks/useFiltersStore.ts:16-21 | Type, category, from and to undefined, and q empty |
| FiltersStore.FilterStore.Set | src/hooks/useFiltersStore.ts:22 | The state becomes the merge of the patch |
| FiltersStore.FilterStore.Reset | src/hooks/useFiltersStore.ts:23 | The state becomes the initial state, from any state |

## Left out

- The key-value store I/O (`get`/`set` of idb-keyval) and the `async`/`await` plumbing: the two keys are the `Store` object's fields.
- `uid()`: its random and clock-based id is the `newId` parameter of `Create`.
- `new Date()`: it is the `today` parameter of `List` and of the expansion, and the `ym`/`last` parameters of the dashboard loop.
- Time of day and time zones, except where the dashboard's `last` key depends on them (see Findings).
- Floating point: amounts are exact reals. NaN passing `amount <= 0`, rounding errors and `toFixed` are not modelled.
- `String(amount)` and `Number(text)` with `isFinite` are the abstract `show` and `parse` parameters.
- Strings.LexLess: compares characters as Unicode code points, where JavaScript's `<` compares UTF-16 code units; the two orders differ only between a character above U+FFFF and one in U+E000 to U+FFFF. Canonical date texts are ASCII, so both orders agree on them.
- `toLowerCase` is modelled on ASCII letters only; the Unicode case mappings are not part of this model.
- `parseISO` is modelled on `yyyy-MM-dd`, optionally followed by `T` and a time part; its other ISO forms, and years of five or more digits, read as invalid.
- Calendar.ParseDate: accepts any text after the `T` as the time part, where `parseISO` checks it; a date such as `2024-01-05Tzz` is an Invalid Date in the service, so `create` and `update` throw where the model stores the date.
- An end date that does not parse makes the source loop until the date range is exhausted and then throw; the model throws at once (`Err(InvalidDate)`).
- The `nextOccurrence` field of a recurrence is never read by the core and is not modelled.
- `Csv.ExportThenImport`: only for values with no line break and no surrounding spaces, and an amount whose text needs no quoting. Import splits lines before reading quotes, so a quoted line break cannot be read back.
- The Blob, object URL and anchor click of the download, and `file.text()`: export is modelled up to the text and import from the text.
- A patch that sets `id`, `amount`, `type`, `category` or `date` explicitly to `undefined` is not modelled: those patch fields are either absent or hold a value. `notes` and `recurring` can be cleared.
- The JSX rendering of the bars, cards and charts. `rules.map` is modelled one rule at a time by `BudgetProgress.BarFor`.
- `BudgetProgress.BarFor`: `0 <= pctSpent` is stated only when `spent >= 0`. A category whose expenses sum below zero gives a negative width, as in the source.
- The zustand store's subscription mechanism: the filter store is a class with `Set` and `Reset`.
- The monthly recurrence follows the code, not the description of it: each step is one month after the previous date, so a series that starts on the 31st drifts (`Recurrence.MonthlySeriesDrifts`).

## Findings

| source | as written | input that shows it | evidently intended | confidence | as-written member | corrected member |
|---|---|---|---|---|---|---|
| src/components/DashboardCards.tsx:10 | local midnight on the first of last month, then `toISOString()` (UTC) | 15 June 2024, three hours east of UTC: the key is "2024-04" | the previous calendar month, "2024-05" | not executed | DashboardCards.LastMonthAsWrittenByZone | DashboardCards.LastMonthIsPreviousMonth |
