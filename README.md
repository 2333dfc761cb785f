# nice-barber, modelled in Dafny

nice-barber is a booking board for a barbershop. It stores appointments (one row per treatment) in a database. It shows the day's visits on a paginated board and exports them to a Google spreadsheet. This project models the in-memory logic of that system and proves what it promises:

- **Export reconciliation** (`POST /api/export`): appointment rows are grouped into visits by `customerName_time_capsterName`. Phone numbers are normalised. Identifiers are collected from the rows already in the sheet. Only unseen visits are appended, numbered on from the sheet's data rows, with a header on an empty sheet. The central promise is idempotence: after what the export appended is in the sheet, a second run exports nothing. This holds only for visits whose normalised phone number does not start with "+"; a visit whose phone does is exported again on every run (see below).
- **Debug reconciliation** (`GET /api/export/debug-export`): the same grouping, read-only, with a weaker three-field identifier and a looser row filter.
- **The board** (`src/app/page.tsx`): a second grouping. It drops incomplete rows, keys by customer id and merges by prefix search over the group ids. The board also has page slicing, page buttons with ellipses, the "Total Treatment" and "Treatment Favorit" cards, and the submit fan-out.
- **Period summary** (`GET /api/summary`): the week or month window, totals, distinct customers, and three counting dictionaries.
- **Export status** (`GET /api/export/summary`): the header-aware sheet count and the first-three and last-three previews.
- **`.env.local` loader** (`scripts/seed.mjs`, `scripts/check-customers.mjs`): line parsing, quote stripping, first-occurrence-wins loading, and the credential choice of each script.

Where the source updates state step by step, the model does too:

- the grouping dictionaries, the identifier sets, the counting dictionaries and the environment loader are methods with loops;
- the spreadsheet and `process.env` are classes whose methods modify their fields.

Each such method is proved equal to a specification function, and the lemmas are about those functions. The database's answer, the environment, the sheet's content, whether the sheet read succeeded, and "today" are all inputs.

Modules, one per source file, plus three shared ones:

- `Basics`: `Option` and `Result`.
- `Text`: JavaScript's `trim`, `startsWith`, `indexOf`, `join` and `String(n)`.
- `Sheets`: the sheet as a grid of strings, with its header-aware data-row count and the `Spreadsheet` class.
- `ExportGrouping` and `Export`: src/app/api/export/route.ts. The debug route's `groupAppointments` is an identical copy, and `DebugExport` imports `ExportGrouping` for it.
- `DebugExport`: src/app/api/export/debug-export/route.ts.
- `PageGrouping` and `PageView`: src/app/page.tsx.
- `PeriodSummary`: src/app/api/summary/route.ts.
- `ExportSummary`: src/app/api/export/summary/route.ts.
- `DotEnv`: the loader that scripts/seed.mjs:10-26 and scripts/check-customers.mjs:10-24 share, identical in behaviour,, and the credential checks of both scripts.

Where the code and its written description disagree, the model follows the code:

- The export identifier contains no time, although the comments speak of "date, customer name, time, and capster". So two visits of one customer with one capster at different times on one day share an identifier (`Export.TimeBlindIdentifier`).
- The debug route accepts rows of four cells or more, where the export route requires six.
- The board merges a row into the first group whose id starts with the row's base key followed by `_`. That also merges rows whose capster names differ, when one name is the other followed by `_` and more (`PageGrouping.PrefixQuirk`).
- The export is not idempotent for a phone number stored with white space before a "+", such as " +628…". `normalizeWhatsApp` trims last, so the row is written with "+628…". The next run normalises that cell once more to "0…", which no longer matches the visit, so the visit is appended again on every run (`Export.ExportRepeatsPlusPhone`).

## Model

| member | source | states |
|---|---|---|
| Text.Trim | src/app/api/export/route.ts:99 | `trim` leaves no white space at either end and never lengthens its input |
| Text.LeadingSpaces | src/app/api/export/route.ts:99 | the count of leading white space is at most the length |
| Text.TrimIsSlice | src/app/api/export/route.ts:99 | `trim` keeps exactly the slice between the leading and trailing white space, all of which is white space |
| Text.TrimTrimmed | src/app/api/export/route.ts:99 | a string without white space at its ends is unchanged by `trim` |
| Text.TrimLeadingSpace | src/app/api/export/route.ts:99 | a leading white-space character is dropped by `trim` |
| Text.TrimIdempotent | src/app/api/export/route.ts:99 | trimming twice is trimming once |
| Text.IndexOf | scripts/seed.mjs:13 | `indexOf` is -1 exactly when the character is absent, and otherwise the first position holding it |
| Text.DigitChar | src/app/api/export/route.ts:165 | a digit character whose code is the digit's value |
| Text.NatToString | src/app/api/export/route.ts:162-165 | the written row number is a non-empty string of decimal digits |
| Text.DecimalRoundTrip | src/app/page.tsx:964-965 | `Number` of a written numeral is the number that was written |
| Text.NatToStringInjective | src/app/api/export/route.ts:162-165 | distinct row numbers are written as distinct numerals |
| Text.NumeralIsNotWord | src/app/api/export/route.ts:110-115 | a written row number is never "No", "" or "Column 1" (any string not starting with a digit) |
| Sheets.DataRowCount | src/app/api/export/route.ts:156-161 | the data-row count is the sheet length less one exactly when the first row's first cell is "No"; 0 for an empty sheet |
| Sheets.DataRowCountAppend | src/app/api/export/route.ts:156-162 | appending rows below a first row adds exactly their number to the data-row count |
| Sheets.Spreadsheet.Append | src/lib/googleSheets.ts:34-39 | an append leaves the sheet as its old rows followed by the batch |
| ExportGrouping.Keys | src/app/api/export/route.ts:28-32 | the distinct grouping keys in first-seen order are no more than the rows |
| ExportGrouping.KeysCover | src/app/api/export/route.ts:28-32 | every row's key `customerName_time_capsterName` is listed |
| ExportGrouping.KeysDistinct | src/app/api/export/route.ts:32-46 | no key is listed twice |
| ExportGrouping.FirstIndex | src/app/api/export/route.ts:37-45 | the row that creates a group is the first row with its key |
| ExportGrouping.KeysStep | src/app/api/export/route.ts:32-46 | one more row adds its key at the end exactly when the key is new |
| ExportGrouping.GroupForOtherKey | src/app/api/export/route.ts:32-36 | a row leaves the groups of other keys unchanged |
| ExportGrouping.GroupForSeenKey | src/app/api/export/route.ts:32-36 | a row with a seen key appends its truthy treatment name to that group |
| ExportGrouping.GroupForNewKey | src/app/api/export/route.ts:37-45 | a row with a new key creates a group from its date, time, customer, capster and treatment |
| ExportGrouping.NoTreatmentsForUnseenKey | src/app/api/export/route.ts:32-45 | a key no row carries has no treatments |
| ExportGrouping.GroupAppointments | src/app/api/export/route.ts:14-50 | the dictionary loop followed by `Object.values` returns exactly the groups of the keys in first-seen order |
| ExportGrouping.FileRows | src/app/api/export/route.ts:17-47 | after the loop, the insertion order lists the keys of all rows and each key maps to its group |
| ExportGrouping.Values | src/app/api/export/route.ts:49 | `Object.values` lists the groups in key-insertion order |
| ExportGrouping.AddRow | src/app/api/export/route.ts:32-46 | the callback extends an existing group or inserts a new one at the end of the order |
| ExportGrouping.FiledValues | src/app/api/export/route.ts:49 | listing the loop's dictionary in insertion order is the specified grouping |
| ExportGrouping.FiledStep | src/app/api/export/route.ts:19-47 | one callback call takes the loop state after i rows to the state after i + 1 |
| ExportGrouping.FiledAppend | src/app/api/export/route.ts:19-47 | one callback call takes the state after `seen` to the state after `seen + [r]` |
| ExportGrouping.GroupedCoversRows | src/app/api/export/route.ts:14-50 | grouping drops no row: at most as many groups as rows, at least one for non-empty input, distinct keys, every row's key present |
| ExportGrouping.KeysInFirstSeenOrder | src/app/api/export/route.ts:17-49 | groups come out in the order of their keys' first rows |
| ExportGrouping.TreatmentsAreTheKeysNames | src/app/api/export/route.ts:34-43 | a group's list is exactly the truthy treatment names of the rows of its key, in input order, none empty |
| ExportGrouping.KeyRows | src/app/api/export/route.ts:32 | the rows selected for a key are rows of the input with that key |
| ExportGrouping.FlatContributionsAppend | src/app/api/export/route.ts:34-43 | the contributed names of two row sequences concatenate |
| Export.NormalizeWhatsApp | src/app/api/export/route.ts:95-100 | the normalised number has no white space at its ends and is never longer than the input |
| Export.NormalizeCountryCode | src/app/api/export/route.ts:97 | a leading "+62" becomes "0" |
| Export.NormalizeOtherPlus | src/app/api/export/route.ts:98-99 | any other leading "+" is dropped and the rest trimmed |
| Export.NormalizeFixesNationalForm | src/app/api/export/route.ts:95-100 | a trimmed number without "+" is unchanged |
| Export.NormalizeExampleCountryCode | src/app/api/export/route.ts:97 | "+628123456789" becomes "08123456789" |
| Export.NormalizeExampleForeign | src/app/api/export/route.ts:98 | "+18005551234" becomes "18005551234" |
| Export.NormalizeExampleNational | src/app/api/export/route.ts:95-100 | "08123456789" is unchanged |
| Export.NormalizeIdempotentIff | src/app/api/export/route.ts:95-100 | normalising again changes nothing exactly when the first result does not start with "+" |
| Export.NormalizeWithoutPlus | src/app/api/export/route.ts:99 | without a leading "+", normalising only trims |
| Export.NormalizeNotIdempotentExample | src/app/api/export/route.ts:95-100 | " +628" normalises to "+628", which normalises again to "08": `trim` runs last |
| Export.ExistingIdsLast | src/app/api/export/route.ts:109-128 | a further sheet row adds its identifier exactly when it is a data row |
| Export.ExistingIdsMembers | src/app/api/export/route.ts:108-128 | an identifier is in the set exactly when some row with six or more cells, not "No", "" or "Column 1" first, carries it |
| Export.ExistingIdsAppend | src/app/api/export/route.ts:109-128 | the identifiers of appended rows join the set and none are lost |
| Export.CollectExistingIdentifiers | src/app/api/export/route.ts:108-128 | the `Set.add` loop builds exactly the identifier set of the data rows |
| Export.Unseen | src/app/api/export/route.ts:131-150 | the kept visits are those, and only those, whose identifier is not in the set |
| Export.Seen | src/app/api/export/route.ts:138 | the dropped visits are those whose identifier is in the set |
| Export.UnseenNone | src/app/api/export/route.ts:131-150 | when every identifier is known nothing is kept |
| Export.UnseenPartition | src/app/api/export/route.ts:131-150 | kept and dropped visits are order-preserving subsequences whose sizes add up to the number of visits |
| Export.FormatRow | src/app/api/export/route.ts:164-171 | a written row has six cells, is a data row, and its first cell is the decimal numeral of its number |
| Export.WrittenRowIsRecognised | src/app/api/export/route.ts:118-125 | a written row is read back as its visit's identifier when the phone does not normalise to a "+" form |
| Export.NewRows | src/app/api/export/route.ts:153-172 | one row per new visit |
| Export.NewRowsNumbered | src/app/api/export/route.ts:156-165 | the i-th new row is a data row numbered existing count + i + 1 |
| Export.BuildPlan | src/app/api/export/route.ts:108-192 | the loop, filter, map and pushes build exactly the specified plan |
| Export.PlanWriteRules | src/app/api/export/route.ts:175-192 | header written exactly when the sheet is empty; something written exactly when the sheet is empty or a visit is new; new visits are the unseen ones, in order |
| Export.PlanNumbering | src/app/api/export/route.ts:153-192 | written rows follow the optional header, are numbered on from the data-row count, and raise that count by exactly their number |
| Export.NumberingExample | src/app/api/export/route.ts:156-165 | after a header and five data rows the next row is numbered "6" |
| Export.NewRowsRecognised | src/app/api/export/route.ts:118-137 | every exported visit's identifier is among those of the rows written for it |
| Export.TimeBlindIdentifier | src/app/api/export/route.ts:125-137 | visits differing only in time share an identifier, so once one is in the sheet the other is never exported |
| Export.PlanIdempotent | src/app/api/export/route.ts:108-192 | when no visit's normalised phone starts with "+": after appending what a plan wrote, planning again finds nothing new and writes nothing |
| Export.IdentifierPhoneInjective | src/app/api/export/route.ts:124-137 | with date, customer and capster fixed, equal identifiers mean equal phone numbers |
| Export.PlusPhoneReexported | src/app/api/export/route.ts:95-137 | a visit whose normalised phone starts with "+" and is not in the sheet is exported, and after the append it is still not recognised and is exported again |
| Export.WrittenPlusRowMismatch | src/app/api/export/route.ts:118-125 | the row written for a visit whose normalised phone starts with "+" reads back under a different identifier |
| Export.LeadingSpacePlusPhone | src/app/api/export/route.ts:95-100 | " +628" normalises to a form that still starts with "+" |
| Export.MessageSaysNothingNew | src/app/api/export/route.ts:199-202 | the "already exported" message appears exactly when no row is new |
| Export.ExportToday | src/app/api/export/route.ts:52-229 | the handler's response and the sheet's new content are those of the specification, the sheet only growing by the appended rows |
| Export.ExportEarlyExits | src/app/api/export/route.ts:70-89 | store error, empty day or missing settings: nothing written; an empty day is reported before the settings are checked; unconfigured returns the raw rows |
| Export.ExportResponseRules | src/app/api/export/route.ts:194-229 | exported visits and rows are the plan's; an append is reported exactly when one happened; message, new count, visit count and sheet count agree |
| Export.ExportIdempotent | src/app/api/export/route.ts:52-229 | when no visit's normalised phone starts with "+": a second run over the sheet extended by the first run's rows exports nothing and appends nothing |
| Export.ExportRepeatsPlusPhone | src/app/api/export/route.ts:52-229 | a day with one visit whose normalised phone starts with "+", not yet in the sheet: the first run exports it, and the second run exports it again and appends again |
| DebugExport.AcceptedIds | src/app/api/export/debug-export/route.ts:119-136 | the identifier list has at most one entry per sheet row |
| DebugExport.AcceptedIdsMembers | src/app/api/export/debug-export/route.ts:121-135 | an identifier is listed exactly when some row with four or more cells, not "No", "" or "Column 1" first, carries it |
| DebugExport.ListedIdHasRow | src/app/api/export/debug-export/route.ts:121-135 | every listed identifier comes from an accepted row |
| DebugExport.RowIdIsListed | src/app/api/export/debug-export/route.ts:121-135 | every accepted row's identifier is listed |
| DebugExport.AcceptedIdsLast | src/app/api/export/debug-export/route.ts:121-135 | a further row adds its identifier exactly when accepted |
| DebugExport.AcceptedIdsAppend | src/app/api/export/debug-export/route.ts:121-135 | the list of a concatenated sheet is the concatenation of the lists |
| DebugExport.DuplicatesCounted | src/app/api/export/debug-export/route.ts:119-134 | two identical accepted rows give a list of two but a set of one |
| DebugExport.CollectIdentifiers | src/app/api/export/debug-export/route.ts:118-136 | the loop builds exactly the identifier list and its set |
| DebugExport.NotExistingIsUnseen | src/app/api/export/debug-export/route.ts:161-163 | the visits kept by the checks are exactly the unseen ones, in order |
| DebugExport.DebugExport | src/app/api/export/debug-export/route.ts:52-182 | the handler returns the specified response and has no write access to the sheet |
| DebugExport.ReportCounts | src/app/api/export/debug-export/route.ts:167-181 | new visits are the unseen subsequence; new plus found equals the group count; group count at most the rows; sheet count is the list length, repeats included |
| DebugExport.DebugEarlyExits | src/app/api/export/debug-export/route.ts:72-111 | an empty day answers before grouping; missing settings answer with the raw rows and the grouping |
| DebugExport.CapsterBlind | src/app/api/export/debug-export/route.ts:132-146 | one sheet row for a customer on a date marks every visit of that customer that day as existing |
| PageGrouping.GroupKey | src/app/page.tsx:101-104 | a group id starts with its row's base key followed by "_" |
| PageGrouping.FirstMatch | src/app/page.tsx:107-109 | the first key with the prefix, or -1 exactly when no key has it |
| PageGrouping.Grouped | src/app/page.tsx:81-132 | one group per listed key |
| PageGrouping.StepInv | src/app/page.tsx:86-129 | one callback call keeps the board invariant: keys listed once, each group keyed by the base of its key, no empty treatment name |
| PageGrouping.JoinInv | src/app/page.tsx:111-115 | joining an existing group keeps the invariant |
| PageGrouping.CreateInv | src/app/page.tsx:116-127 | creating a group under a new key keeps the invariant |
| PageGrouping.FoldInv | src/app/page.tsx:86-129 | every board the rows produce satisfies the invariant |
| PageGrouping.FoldLast | src/app/page.tsx:86-129 | one more row is one more callback call |
| PageGrouping.GroupAppointments | src/app/page.tsx:81-132 | the dictionary loop with its key search returns exactly the specified groups |
| PageGrouping.FindKey | src/app/page.tsx:107-109 | the search returns the first matching key's index, or -1 |
| PageGrouping.IncompleteIgnored | src/app/page.tsx:88-98 | a row without customer id, time or capster name changes nothing |
| PageGrouping.CompleteCount | src/app/page.tsx:88-98 | the complete rows are at most all rows |
| PageGrouping.NewGroupIff | src/app/page.tsx:106-128 | a complete row creates a group under its own id exactly when no listed key starts with its base key and "_"; otherwise the key order is unchanged, the row joins the first group whose id has that prefix, and every other group is unchanged |
| PageGrouping.StepAppends | src/app/page.tsx:111-128 | a row never reorders or removes keys, and only appends to treatment lists |
| PageGrouping.GroupCountBound | src/app/page.tsx:86-131 | there are never more groups than complete rows |
| PageGrouping.BaseCovered | src/app/page.tsx:101-128 | after a complete row some key starts with its base key |
| PageGrouping.SameBaseJoins | src/app/page.tsx:106-115 | a row whose base key an earlier complete row had never creates a group |
| PageGrouping.PrefixQuirk | src/app/page.tsx:104-115 | capster "X_Y" then "X" at the same customer and time end up in one group |
| PageGrouping.CapsterExtensionMatches | src/app/page.tsx:101-109 | the id under capster "X_Y" starts with the base key of capster "X" and "_" |
| PageGrouping.ListedTotalUpdate | src/app/page.tsx:114 | changing one listed group changes the listed total by the change in its list length |
| PageGrouping.ListedTotalAppend | src/app/page.tsx:118-127 | listing a new group adds its list length to the total |
| PageGrouping.FoldTotal | src/app/page.tsx:111-127 | the groups list exactly as many treatments as the complete rows contribute |
| PageView.TotalPages | src/app/page.tsx:615 | the least number of 10-item pages holding all items |
| PageView.PageItems | src/app/page.tsx:616-618 | a page shows at most 10 items, the ones at positions (p-1)*10 onward, and is non-empty exactly when p is at most the page count |
| PageView.PagesArePrefix | src/app/page.tsx:616-618 | the first k pages together are the first 10k items |
| PageView.PagesCoverItems | src/app/page.tsx:615-618 | all pages together are all items, in order |
| PageView.RangeLabelCountsItems | src/app/page.tsx:765 | the "a-b dari n" label spans exactly the items on the page |
| PageView.ButtonsStayInRange | src/app/page.tsx:772-818 | previous and next stay within 1..total, move by one, and stay put exactly where they are disabled |
| PageView.ShownUpTo | src/app/page.tsx:781-788 | the buttons are exactly the pages 1, last and within one of the current page, ascending |
| PageView.PageButtons | src/app/page.tsx:781-791 | first, last and current page get buttons; an ellipsis precedes a button exactly when its predecessor is not the page before; nothing between is shown |
| PageView.TotalOfValues | src/app/page.tsx:328-332 | the card's total over the listed groups is the sum of their list lengths |
| PageView.TotalTreatmentsCountsRows | src/app/page.tsx:328-332 | "Total Treatment" is the number of truthy treatment names of complete rows |
| PageView.DistinctMembers | src/app/page.tsx:354-362 | the dictionary's key order lists every counted name once |
| PageView.TallyKeys | src/app/page.tsx:354-360 | the dictionary has an entry exactly for the names that occur |
| PageView.TallyCounts | src/app/page.tsx:354-360 | each entry is the number of occurrences of its name |
| PageView.NoOccurrences | src/app/page.tsx:354-360 | a name not in the list occurs zero times |
| PageView.CountTreatments | src/app/page.tsx:354-360 | the nested loops build exactly the counting dictionary and its key order |
| PageView.CountNames | src/app/page.tsx:356-359 | the inner loop adds one group's names to the dictionary |
| PageView.TallyStep | src/app/page.tsx:357-358 | one more name increments its entry, starting from 0 |
| PageView.MostPopularIndex | src/app/page.tsx:362-364 | the first entry with the largest count, -1 for none (the stable descending sort's head) |
| PageView.MostPopular | src/app/page.tsx:352-364 | no favourite exactly when no treatment; otherwise a listed name whose count is its occurrences and at least every other name's; among names tied at the top count it is the one counted first (the stable sort's head) |
| PageView.SubmitCarriesSelection | src/app/page.tsx:958-966 | the requests carry exactly the selected ids, in selection order |
| PeriodSummary.WeekStartIsMonday | src/app/api/summary/route.ts:15-19 | the week starts at most six days back, on a Monday, with no later Monday in between |
| PeriodSummary.WeeklyUnlessOtherType | src/app/api/summary/route.ts:6-22 | the week's window applies exactly when `type` is missing, empty or "weekly" |
| PeriodSummary.WindowOf | src/app/api/summary/route.ts:13-23 | "weekly" starts at most six days back on a Monday with no Monday in between; every other type starts on day 1 of the current month |
| PeriodSummary.Counted | src/app/api/summary/route.ts:66-87 | at most every row is counted, and by date every row is |
| PeriodSummary.TallyEntries | src/app/api/summary/route.ts:66-87 | a key has an entry exactly when some row counts under it, and the entry is the number of such rows |
| PeriodSummary.TallyOrderKeys | src/app/api/summary/route.ts:66-87 | the key order lists every key of the dictionary once |
| PeriodSummary.ListedSumIncrement | src/app/api/summary/route.ts:68 | incrementing one entry raises the sum by one |
| PeriodSummary.TallySumStep | src/app/api/summary/route.ts:68 | counting one more row, under a listed or a new key, raises the sum over the listed keys by one |
| PeriodSummary.TallySum | src/app/api/summary/route.ts:66-87 | the entries add up to the number of counted rows |
| PeriodSummary.CountBy | src/app/api/summary/route.ts:66-87 | each `forEach` builds exactly the specified dictionary and key order |
| PeriodSummary.CustomerIdsMembers | src/app/api/summary/route.ts:56-57 | a customer is counted exactly when some row carries its id |
| PeriodSummary.CustomerIdsBound | src/app/api/summary/route.ts:56-57 | there are at most as many distinct customers as rows, and at least one when there is a row |
| PeriodSummary.Summarize | src/app/api/summary/route.ts:4-89 | the handler returns the specified summary, or the store's error |
| PeriodSummary.SummaryFacts | src/app/api/summary/route.ts:51-87 | totals equal the rows; customers at most the total; entries count rows; daily entries sum to the total, the others to at most it; names non-empty; revenue 0 |
| PeriodSummary.NamedKeysNonEmpty | src/app/api/summary/route.ts:74-83 | a counted treatment or capster name is never empty |
| ExportSummary.NameOfEitherShape | src/app/api/export/summary/route.ts:54-59 | an array starting with a record and the record itself yield the same name |
| ExportSummary.RecentAppointmentsStable | src/app/api/export/summary/route.ts:52 | appointments after the third do not change the preview |
| ExportSummary.RecentSheetEntriesAfterAppend | src/app/api/export/summary/route.ts:61 | after three or more appended rows the preview shows only appended rows |
| ExportSummary.StatusFacts | src/app/api/export/summary/route.ts:23-67 | store errors pass through; the store count is the rows; sheet count and preview come from the read sheet, empty when unconfigured or failed |
| ExportSummary.HeaderOnlySheet | src/app/api/export/summary/route.ts:44-49 | a sheet holding only the header counts no data rows |
| DotEnv.DropCR | scripts/seed.mjs:10 | a piece loses at most one trailing carriage return |
| DotEnv.Lines | scripts/seed.mjs:10 | at least one line, none containing a line feed |
| DotEnv.LinesRoundTrip | scripts/seed.mjs:10 | text without carriage returns splits into lines that join back into it |
| DotEnv.LinesCRLF | scripts/seed.mjs:10 | a line ended by "\r\n" splits like one ended by "\n" |
| DotEnv.Unquote | scripts/seed.mjs:17-22 | unquoting never lengthens the value |
| DotEnv.UnquoteQuoted | scripts/seed.mjs:17-22 | a value wrapped in matching quotes comes back out, one layer only |
| DotEnv.UnquotePlain | scripts/seed.mjs:17-22 | a value not starting with a quote is kept |
| DotEnv.UnquoteMismatched | scripts/seed.mjs:17-22 | mismatched quotes are kept |
| DotEnv.ParseLineAccepts | scripts/seed.mjs:11-16 | a line is accepted exactly when, trimmed, it is non-blank, not a comment and holds "="; its key is trimmed |
| DotEnv.ParseLineWritten | scripts/seed.mjs:13-16 | `KEY=value` reads back as that key and the unquoted value, which may itself hold "=" |
| DotEnv.CommentsIgnored | scripts/seed.mjs:12 | blank and comment lines contribute nothing |
| DotEnv.Parsed | scripts/seed.mjs:10-22 | one entry per line |
| DotEnv.ParsedAt | scripts/seed.mjs:10-22 | entry i is what line i parses to |
| DotEnv.LoadedStep | scripts/seed.mjs:23-25 | one more line adds its key exactly when still absent |
| DotEnv.FirstValueNone | scripts/seed.mjs:23-25 | no first value exactly when no line sets the key |
| DotEnv.FirstValueIsEarliest | scripts/seed.mjs:23-25 | the first value comes from the earliest line setting the key |
| DotEnv.LoadedFirstWins | scripts/seed.mjs:23-25 | existing variables keep their values; a new variable takes the first value in the file |
| DotEnv.NewKeysFromLines | scripts/check-customers.mjs:23 | every added variable comes from the first accepted line that sets it |
| DotEnv.ProcessEnv.LoadDotEnv | scripts/seed.mjs:8-26 | without a file the environment is unchanged; with one it is the specified load of its lines |
| DotEnv.SeedCredentials | scripts/seed.mjs:32-40 | the seeding script runs exactly when URL and service-role key are both set |
| DotEnv.CheckCredentials | scripts/check-customers.mjs:30-40 | the checking script runs exactly when the URL and one key are set, preferring the service-role key |
| DotEnv.CheckAcceptsWhatSeedAccepts | scripts/check-customers.mjs:30-40 | the checking script accepts whatever the seeding script accepts, with the same key; with only an anon key only the checking script runs |
| DotEnv.LoadingKeepsSetCredentials | scripts/seed.mjs:23-40 | credentials already in the environment are not changed by the file |

## Left out

- Sheet cells are read back as written. Google Sheets' USER_ENTERED coercion (a lost leading zero, numbers stored as numbers) is not modelled. The written row number is a numeral string.
- The sheet read of src/lib/googleSheets.ts:67-78 omits trailing empty cells, which is not modelled. Because of it, a written row whose capster cell is "" reads back with five cells. It then fails the `row.length >= 6` test and is exported again on every run; the model, which reads six cells back, does not show this.
- The Google and database calls are not modelled. Their results are inputs: a store error, a row list, the sheet's content, and whether the read succeeded. A failed read counts as an empty sheet.
- Exceptions caught by each route's outer `catch` (500 "Failed to …" responses) are not modelled. This includes a failing append, a malformed credential and `JSON.parse`.
- Export.ExportToday: the response reports whether an append happened instead of the raw append result, `exportResult`.
- DebugExport.DebugEarlyExits: the `rawAppointments` field of the empty-day response (src/app/api/export/debug-export/route.ts:80-84) is not carried by the `NoAppointments` constructor. On that path it is the store's empty (or null) list.
- Export.ExportEarlyExits: the `exported: []` field of the empty-day response is implicit in the `NothingToExport` constructor.
- The clock is not modelled. "Today" is an input: a date string for the export routes, and (year, month, day, day of week) for the summary. `setDate` rollover into the previous month, the UTC shift of `toISOString`, and the window's end date are not modelled. PeriodSummary.WindowOf gives the week start as a number of days back.
- PeriodSummary.CustomerIds: `customer_id` is a natural number. A null id is not modelled.
- JavaScript orders integer-like object keys numerically, before the others. The counting dictionaries' key order is modelled as insertion order, which matches the JSON only for non-numeric keys. The summary's daily keys are dates, so they are not affected.
- PageView.PageItems requires page ≥ 1. The component starts at page 1 and its buttons never leave 1..total.
- PageView.SubmitRequests requires the selected ids to be decimal numerals, as the select options' `id.toString()` values are. `Number` of other strings is not modelled.
- The "latest appointment" cards (src/app/page.tsx:289-308) are not modelled, because they sort with the locale-dependent `localeCompare`.
- React state, effects, the 1-second clock, debounced search, JSX rendering, logging and the `Promise.all` timing of the submit requests are not modelled. Neither is the board's date navigation.
- The export grouping treats a missing customer, treatment or capster as absent. A joined record whose `name` or `whatsapp` field is itself missing is modelled as the empty string.
- PageView.CountTreatments: the counting object of src/app/page.tsx:355-358 is a plain object. A name such as "constructor" or "toString" reads an inherited function, so `(counts[name] || 0) + 1` stores a string, not 1. The model counts 1 for such a name.
- PeriodSummary.CountBy: the same inherited-name behaviour of the plain counting objects of src/app/api/summary/route.ts:66-87 is not modelled; the model counts every key from 0.
- DotEnv.ProcessEnv.LoadDotEnv: `key in process.env` also holds for names inherited from `Object.prototype`, such as `toString`, and for those the model would add the key. Node's treatment of an empty key `""` is not modelled either; the model stores it like any other key.
- The Supabase calls of scripts/seed.mjs (the upserts of treatments, capsters and a customer) and of scripts/check-customers.mjs (the customer listing) are not modelled.
