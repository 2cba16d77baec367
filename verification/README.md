# Competitor monitoring core, modelled in Dafny

This project models the decision logic of a realty competitor analyzer. That logic is
small: it is sequential record processing over snapshots of competitor records.

- **Monitor.** `ChangeMonitor` diffs two snapshots by `id`. It classifies each changed
  field as CRITICAL, WARNING or INFO and attaches an impact. It records every change in
  a history, fires the watchers registered for the competitor, and routes the change
  to subscribers through `NotificationManager`. The history can be read newest first
  and summarised in analytics.
- **Export.** `ExportManager` writes CSV with the double-quote rule of section 2 of
  RFC 4180 and builds a spreadsheet row matrix. It dispatches on the export format and
  counts competitors by status and by region.
- **Sheets.** The Google Sheets integration writes a 26-column sheet, reads a sheet
  back into records keyed by the header row, and converts records to and from the
  sheet shape (`DataTransformer`). It also has a second, simpler snapshot diff
  (`compareData`).
- **RBC validation.** The RBC Companies validation reads revenue texts with units
  (`млрд`, `млн`, `тыс`). It decides VERIFIED / DISCREPANCY / NOT_FOUND /
  NO_FINANCIAL_DATA, scores each company 0, 50 or 100, stores results by id and
  reports statistics.
- **API routes.** The competitor-list route filters by category and search term. The
  export route writes its own CSV.

JavaScript values are modelled by `JsValue.Value`:
- Arrays and objects carry a reference, so `===` compares them by identity.
- Numbers are integers.
- Records are maps from key to value that remember the order in which keys were added.
  `Object.keys` and `Object.entries` list array-index keys first, by ascending index,
  and the other keys in that order (`KeyOrder`).

JavaScript built-ins are modelled with their own semantics in `JsText` and `JsValue`:
`join`, `includes`, `toLowerCase`, `parseInt`, `parseFloat`, `split`, `String(v)`,
truthiness, `||`, and `Map`. A `Map` compares keys by SameValueZero, which differs from
`===` only on `NaN`; numbers here are integers, so `Map` keys are compared with `===`.

Clocks become integer parameters, and so do other outside services:
- `new Date()` is a `now` argument.
- `JSON.stringify` and `toLocaleDateString` are function parameters.
- The RBC registry is a pair of functions (`Rbc.Registry`).

Modules:
- `Wrappers`: `Option`, `Result` and the exceptions.
- `JsText`, `JsValue`: the built-ins.
- `Seqs`: subsequences and `filter`.
- `KeyOrder`: the order of an object's own keys.
- `Sorting`: a stable sort.
- `Tally`: the counting idiom.
- `Snapshot`: id matching and field diffs.
- `Changes`: `detectChanges` and `calculateImpact`.
- `Notifications`: subscribers and filters.
- `Monitor`: the monitor's state.
- `Csv`: quoted fields and their reader.
- `ExportManager`, `Sheets`, `Rbc`, `Routes`.

## Model

| member | source | states |
|---|---|---|
| Changes.NewItemChange | lib/monitoringSystem.js:39-52 | A record whose id no old record has (under `===`) gives exactly one change: a NEW_COMPETITOR change of severity INFO, carrying the record, its id, its name and the detection time. It gives no field change. |
| Changes.MatchedItemChanges | lib/monitoringSystem.js:40-84 | For a matched record, the changed fields are exactly the keys of the new record whose values are not `===`, in `Object.keys` order. Each change carries the competitor's id and name, the detection time, the old value, the new value, the severity of its field and the impact of the values. |
| Changes.SeverityTable | lib/monitoringSystem.js:55-70 | CRITICAL exactly for revenue/marketShare/employees/status. WARNING exactly for pricing/services/features. INFO for every other field, since the info list is never consulted. Type and severity always go together. |
| Changes.ImpactCases | lib/monitoringSystem.js:91-125 | A field outside revenue/marketShare/employees, and only such a field, gives `Изменение зафиксировано`. Unparseable employee counts, market shares or falsy revenues give `Неизвестно`. |
| Changes.EmployeesTextReadsBack | lib/monitoringSystem.js:111-117 | The employee impact text reads back with `parseInt` as the delta. It starts with `+` exactly when the delta is positive. |
| Changes.EmployeeImpact | lib/monitoringSystem.js:111-117 | Numeric employee counts give the exact difference as impact. |
| Changes.MonitorAmount | lib/monitoringSystem.js:128-133 | The monitor's amount reading gives `null` for a falsy value. Any amount it does find is non-negative. |
| Changes.DetectChangesOrigin | lib/monitoringSystem.js:36-88 | Every reported change comes from one record of the new snapshot. Records only in the old snapshot contribute nothing. |
| Changes.DetectChangesComplete | lib/monitoringSystem.js:36-88 | Every change that any new record gives rise to is reported. |
| Changes.NoChangesAgainstItself | lib/monitoringSystem.js:36-88 | A snapshot with unique ids, compared with itself, gives no change. |
| Snapshot.FindById | lib/monitoringSystem.js:40 | `find` by id gives nothing exactly when no record has a `===` id. Otherwise it gives the first record that has it. |
| Snapshot.ChangedKeysSpec | lib/googleSheetsIntegration.js:291-292 | The changed keys are exactly the new record's keys whose values are not `===`, in `Object.keys` order. Keys only the old record has, and equal values, give nothing. |
| Snapshot.FindSelf | lib/monitoringSystem.js:40 | In a snapshot with unique ids, every record finds itself. |
| Monitor.WatchersOf | lib/monitoringSystem.js:141 | The watchers of an id are the registered watchers whose id is `===` to it, in registration order, each as often as it was registered, and no others. |
| Monitor.AddWatcherRegisters | lib/monitoringSystem.js:12-22 | A new watcher goes last in its own id's list. Every other id's list is unchanged. |
| Monitor.AddWatcher | lib/monitoringSystem.js:12-22 | Adding a watcher leaves the history and the subscribers as they were. |
| Monitor.ProcessChange | lib/monitoringSystem.js:136-157 | Processing appends exactly the change to the history and leaves the watchers and subscribers alone. It fires what the watcher loop over the competitor's watchers fires. It succeeds exactly when neither the watcher loop nor notifying throws, and then delivers exactly what notifying delivers. A rejected call delivers nothing. |
| Monitor.ProcessChangeFires | lib/monitoringSystem.js:136-154 | When every field list is an array or a string, the callbacks fired are, in registration order, those of the watchers under the change's competitor whose fields include `'*'` or the change's field. The call rejects exactly when notifying throws. On success the deliveries are those to the subscribers the change reaches, in order. |
| Monitor.FireSpec | lib/monitoringSystem.js:143-151 | When every field list is an array or a string, the watcher loop fires, in order, exactly the callbacks of the watchers that want the change, and it does not throw. |
| Monitor.WantsSpec | lib/monitoringSystem.js:144 | Asking whether a watcher wants a change throws exactly when its field list is neither an array nor a string. Otherwise the answer is whether the list contains `'*'` or the field. |
| Monitor.FireStops | lib/monitoringSystem.js:141-151 | The first watcher whose field list cannot be asked ends the loop with a TypeError, after the callbacks of the wanting watchers before it. |
| Monitor.ProcessAllHistory | lib/monitoringSystem.js:25-33 | Processing a list of changes only appends: the history grows by the processed changes, in order. |
| Monitor.ProcessAll | lib/monitoringSystem.js:28-30 | Changes are processed in order. Every change before the last processed one succeeded, and processing stops only at a rejection. |
| Monitor.CheckChanges | lib/monitoringSystem.js:25-33 | `checkChanges` resolves to exactly the detected changes after processing all of them. Otherwise it rejects with the error of the change that failed. |
| Monitor.OfCompetitor | lib/monitoringSystem.js:163-165 | The competitor filter keeps, in order, exactly the history entries whose id is `===` to the requested one, each as often as it occurs. |
| Monitor.SliceEnd | lib/monitoringSystem.js:169 | `slice(0, limit)` keeps `min(limit, len)` entries for a non-negative limit. A negative limit counts from the end. |
| Monitor.ByTimeDesc | lib/monitoringSystem.js:167-168 | Sorting is a permutation of the history into non-increasing timestamp order. |
| Monitor.NewestFirstSpec | lib/monitoringSystem.js:167-169 | Sorting and slicing gives `min(limit, len)` entries for a non-negative limit, newest first, all taken from the input. Every entry left out is no newer than any entry kept. |
| Monitor.GetChangeHistory | lib/monitoringSystem.js:160-170 | Reading the history may reorder the stored history, since it is sorted in place, but never adds or removes entries. Watchers and subscribers are untouched. |
| Monitor.GetChangeHistorySpec | lib/monitoringSystem.js:160-170 | The result has the slice length of the candidate entries (the competitor's, for a truthy id), newest first, all from the history. With a truthy id, all entries are of that competitor. No candidate left out is newer than an entry returned. |
| Monitor.Since | lib/monitoringSystem.js:177-179 | The recent changes are, in order, exactly the history entries newer than the cutoff, each as often as it occurs. |
| Monitor.TopSpec | lib/monitoringSystem.js:202-205 | The most active list has `min(n, len)` entries from the histogram, by non-increasing count. Every entry left out counts no more than any entry kept. |
| Monitor.AnalyticsSpec | lib/monitoringSystem.js:173-208 | For a given cutoff, the analytics summarise exactly the changes newer than it. The total equals their number and the sum of each histogram. The type, severity and competitor histograms count each name exactly. The top five (fewer only with fewer competitors) are ordered and dominate the rest. The trending fields are empty. |
| Notifications.AddSubscriber | lib/monitoringSystem.js:223-230 | A subscriber is appended last. Absent filters become the empty object. |
| Notifications.FiltersAreConjunction | lib/monitoringSystem.js:251-269 | With array filters, a change matches exactly when every present filter admits it. Severity must equal the change's severity string. The field filter applies only to changes with a field. |
| Notifications.EmptyFiltersMatchAll | lib/monitoringSystem.js:251-269 | An object with none of the four filters, the default `{}` included, matches every change. |
| Notifications.FieldsIgnoredWithoutField | lib/monitoringSystem.js:264 | The field filter cannot exclude a new-competitor change, which has no field. |
| Notifications.NullishFiltersThrow | lib/monitoringSystem.js:252 | Filters of `null` or `undefined` throw. |
| Notifications.ArraySeverityNeverMatches | lib/monitoringSystem.js:256 | A severity filter given as an array never equals the change's severity, so it never matches. |
| Notifications.PageSubscription | app/monitoring/page.js:126-128 | With the filters the monitoring page subscribes with, the source admits no change. The intended reading admits exactly the critical and warning changes. |
| Notifications.MatchesFiltersIntended | app/monitoring/page.js:126-128 | The corrected filter admits a change under a severity list only when the list contains the change's severity. Like the source, it throws on `null` or `undefined` filters. |
| Notifications.IntendedAgreesWithoutSeverityList | lib/monitoringSystem.js:256 | Without a severity list, the corrected filter agrees with the source's. |
| Notifications.SendNotificationSpec | lib/monitoringSystem.js:233-248 | The call throws exactly when some subscriber's filters throw. Otherwise one delivery goes out, in subscription order, for each subscriber on a known channel (email, telegram, webhook) whose filters admit the change. |
| Notifications.SendNotificationDelivers | lib/monitoringSystem.js:233-248 | On success the deliveries are exactly those to the subscribers the change reaches, in subscription order. |
| Notifications.UnfilteredSubscriberHearsAll | lib/monitoringSystem.js:223-248 | A subscriber added without filters on a known channel receives every change after the existing deliveries. |
| ExportManager.ExportDispatch | lib/exportManager.js:10-25 | A string format is accepted exactly when its lower-case form is csv/xlsx/json/pdf/google-sheets, and case does not matter. Anything else throws `Unsupported format: <format>`, never a TypeError. |
| ExportManager.CsvLinesSpec | lib/exportManager.js:28-59 | One header line unless `includeHeaders === false`, then one line per competitor. Each data line reads back under RFC 4180 as exactly its cell texts, one per column, whatever quotes they contain. |
| ExportManager.DataCells | lib/exportManager.js:41-51 | A row has one cell per field. A cell is the text of the record's own value: arrays joined with `'; '`, objects as JSON, null/undefined as empty. |
| ExportManager.HeaderReadsBack | lib/exportManager.js:35-37 | Header labels are quoted but not escaped. Labels without quotes read back unchanged. |
| ExportManager.TerminatedLines | lib/exportManager.js:34-58 | Every line, the last included, ends with a line feed. |
| ExportManager.CsvIgnoresFallback | lib/exportManager.js:42 | The CSV export calls `getFieldValue` without the field's fallback. Every column whose own key is null or undefined is empty, even where `getFieldValue` with the fallback would find the fallback's value. Some default column has a fallback. |
| ExportManager.FieldValueFallback | lib/exportManager.js:327-335 | The fallback key is read only when the value is null or undefined and a fallback is given. Otherwise the lookup is the plain property read. |
| ExportManager.DefaultFields | lib/exportManager.js:309-325 | There are thirteen default columns. |
| ExportManager.SheetsDataSpec | lib/exportManager.js:238-257 | The header row holds the default labels. Every row is exactly 13 wide. No cell is falsy other than `''`. A truthy scalar value is copied as it is. |
| ExportManager.SheetCell | lib/exportManager.js:246-252 | A spreadsheet cell is truthy or the empty string. |
| ExportManager.StatusStatisticsSpec | lib/exportManager.js:343-350 | Status counts sum to the number of competitors and count each status exactly. Missing statuses are counted under `Неизвестен`. |
| ExportManager.RegionStatisticsSpec | lib/exportManager.js:352-365 | One count per truthy region entry. A record with no regions, headquarters or geography counts once under `Не указан`. A non-array `regions` is one entry. |
| Tally.Tally | lib/exportManager.js:344-349 | The counting idiom yields one entry per distinct key, counting its occurrences. The counts sum to the number of items. |
| Tally.Entries | lib/monitoringSystem.js:202 | `Object.entries` lists every entry of the histogram exactly once. |
| Tally.EntriesOrder | lib/monitoringSystem.js:202 | `Object.entries` lists the array-index keys first, by ascending index, then the other keys in insertion order. |
| Tally.EntriesWithoutIndices | lib/monitoringSystem.js:202 | Without array-index keys, `Object.entries` lists the entries in insertion order. |
| KeyOrder.EnumerateSpec | lib/monitoringSystem.js:59 | Key order lists every key once: array indices first by ascending index, then the other keys in insertion order. |
| KeyOrder.EnumerateWithoutIndices | lib/monitoringSystem.js:59 | Without array-index keys, key order is insertion order. |
| Sorting.SortDesc | lib/monitoringSystem.js:201-205 | The sort is a permutation into non-increasing key order. |
| Sorting.SortDescIsStable | lib/monitoringSystem.js:201-205 | Entries with equal keys keep their original order. |
| Sheets.CompareItemAdded | lib/googleSheetsIntegration.js:278-288 | A record whose id the old data lacks is reported once, as `added`. |
| Sheets.CompareItemUpdated | lib/googleSheetsIntegration.js:290-303 | A matched record gives `updated` entries exactly for the keys of the new record whose values are not `===`, in key order, and nothing else. |
| Sheets.Updates | lib/googleSheetsIntegration.js:293-301 | Each `updated` entry carries its key and the old and new values read from the two records. |
| Sheets.CompareDataMirrorsDetectChanges | lib/googleSheetsIntegration.js:275-307 | `compareData` reports, entry for entry and in order, the changes `detectChanges` finds, without severity and impact. |
| Sheets.CompareWithItself | lib/googleSheetsIntegration.js:275-307 | Data with unique ids compared with itself gives nothing. |
| Sheets.ToSheetsRecordSpec | lib/googleSheetsIntegration.js:248-259 | Each competitor becomes a record with exactly the eight keys, in order. `companyName` falls back to `name` and `website` to `url` when falsy. The other six are copied unchanged. |
| Sheets.ToSheetsFormat | lib/googleSheetsIntegration.js:248-259 | The length is preserved. |
| Sheets.FromSheetsRecordSpec | lib/googleSheetsIntegration.js:262-272 | Each row becomes a record with exactly seven keys: `id` is the integer the ID cell starts with, or 0; the text fields fall back to `''`; `status` falls back to `Unknown`. |
| Sheets.FromSheetsFormatSpec | lib/googleSheetsIntegration.js:262-272 | Every converted row, in place, has the seven keys, a numeric id and a non-empty status, whatever the row holds. |
| Sheets.SheetId | lib/googleSheetsIntegration.js:264 | `parseInt(...) \|\| 0` is always a number. |
| Sheets.ReadFromSheet | lib/googleSheetsIntegration.js:133-147 | A missing or empty range gives `[]`. Otherwise there is one record per row after the header row. |
| Sheets.ReadFromSheetSpec | lib/googleSheetsIntegration.js:138-145 | A record maps the text of each header to the cell in its column, or `''` for a missing or falsy cell. With repeated headers, the rightmost column wins. |
| Sheets.ReadFromSheetKeys | lib/googleSheetsIntegration.js:138-145 | With distinct headers, a record is given exactly the header texts as keys, in column order. `Object.keys` lists them in key order: headers that are array indices (such as `2023`) first, by ascending index, then the others in column order; without such headers, in column order. |
| Sheets.CellAt | lib/googleSheetsIntegration.js:142 | A cell read from a sheet is truthy or `''`. |
| Sheets.SyncValuesShape | lib/googleSheetsIntegration.js:65-105 | The written sheet is rectangular. The header row and every competitor row have 26 cells, and row i+1 is competitor i's. |
| Sheets.SyncThenRead | lib/googleSheetsIntegration.js:65-147 | For at most 999 competitors, reading back a written sheet gives one record per competitor. Its value under each header is the written cell, or `''` for a falsy one. |
| Sheets.SyncThenReadKeys | lib/googleSheetsIntegration.js:65-147 | For at most 999 competitors, each record read back has exactly the 26 headers as keys, in column order, and `Object.keys` lists them so. |
| Sheets.SheetRoundTrip | lib/googleSheetsIntegration.js:262-272 | For at most 999 competitors, writing, reading and converting back keeps a numeric id, the company name or name, the website or url, and the status, with `Активный` for a missing one. A missing revenue comes back as `Не указано`. |
| Sheets.RowRoundTrip | lib/googleSheetsIntegration.js:262-272 | `fromSheetsFormat` of a record holding a written row's cells gives back the competitor's id, name, website, revenue and status. |
| Rbc.UnitOf | lib/rbcCompaniesIntegration.js:137-148 | The unit is billions exactly when the text contains `млрд`. Otherwise it is millions for `млн`, otherwise thousands for `тыс`, checked in that order. |
| Rbc.ParseFinancialValue | lib/rbcCompaniesIntegration.js:130-151 | A falsy value gives 0. A truthy non-string throws. A string scales its number by 10^9/10^6/10^3 according to its unit, or gives `number \|\| 0` without one. Results are non-negative, and NaN only arises with a unit. |
| Rbc.AmountTextReadsBack | lib/rbcCompaniesIntegration.js:130-151 | A whole amount written with a unit, such as `12 млн`, reads back as the amount times the unit's factor. |
| Rbc.Amount | lib/rbcCompaniesIntegration.js:134-135 | The cleaned number is NaN or non-negative. |
| Rbc.ToleranceBand | lib/rbcCompaniesIntegration.js:70-74 | For non-negative amounts, the 20% tolerance holds exactly when the official amount is positive and the reported one lies within 80%..120% of it. |
| Rbc.ValidateFinancialData | lib/rbcCompaniesIntegration.js:72-74 | `isValid` holds exactly when the status is VERIFIED. |
| Rbc.ValidateFinancialDataSpec | lib/rbcCompaniesIntegration.js:40-95 | An empty search is NOT_FOUND and invalid. Missing details or financial data is NO_FINANCIAL_DATA and invalid. The status is VERIFIED exactly when both revenues read as numbers within tolerance, and DISCREPANCY exactly when both read as numbers outside it. A DISCREPANCY carries the reported value. |
| Rbc.ValidateFinancialDataFails | lib/rbcCompaniesIntegration.js:40-95 | The result is ERROR exactly when the first search hit is null or undefined, or when a financial check starts and either revenue cannot be read. |
| Rbc.SameAmountVerified | lib/rbcCompaniesIntegration.js:65-84 | A reported revenue that reads as the same positive amount as the official one is VERIFIED. |
| Rbc.MissingAmountDiscrepancy | lib/rbcCompaniesIntegration.js:65-84 | A falsy reported revenue against a positive official one is a DISCREPANCY. |
| Rbc.GetLegalInfo | lib/rbcCompaniesIntegration.js:98-127 | Legal information is found exactly when the company's details exist and hold a `legalInfo` that is not null or undefined. It is then that value. |
| Rbc.ValidateCompany | lib/rbcCompaniesIntegration.js:235-258 | The report names the competitor. The financial check runs exactly when the revenue is truthy. |
| Rbc.ScoreSpec | lib/rbcCompaniesIntegration.js:260-270 | Without a financial check the score is 0 or 100, as the legal check fails or passes. With one it is 0, 50 or 100, 50 per passed check. The score is 100 exactly when every check that ran passed. |
| Rbc.Lookup | lib/rbcCompaniesIntegration.js:303 | `get` finds nothing exactly when no stored key is `===` to the key. Otherwise it gives the value stored under the first such key. |
| Rbc.PutSpec | lib/rbcCompaniesIntegration.js:272 | After `set`, the key (and any `===` key) gives the new value and every other key is unchanged. The map grows exactly when the key was new. |
| Rbc.ValidateAndStoreSpec | lib/rbcCompaniesIntegration.js:235-273 | A validation is stored under the competitor's id and no other entry changes. |
| Rbc.ValidateAll | lib/rbcCompaniesIntegration.js:286-298 | There is one report per competitor, in order, each the competitor's own validation. |
| Rbc.ValidateAllLastWins | lib/rbcCompaniesIntegration.js:286-298 | After validating a list, an id holds the report of the last competitor with that id. |
| Rbc.ValidateAllKeepsOthers | lib/rbcCompaniesIntegration.js:286-298 | Ids that no validated competitor has keep their earlier results. |
| Rbc.GetValidationResults | lib/rbcCompaniesIntegration.js:301-306 | A truthy id gives a stored result, found exactly when some stored key is `===` to it, and then one stored under such a key. Otherwise all results come back in insertion order. |
| Rbc.RoundedMean | lib/rbcCompaniesIntegration.js:318 | `Math.round(sum / count)` is the integer nearest the mean, with halves rounded up. |
| Rbc.StatsSpec | lib/rbcCompaniesIntegration.js:309-321 | Every result is counted exactly once as verified (≥80), partial (50..79) or unverified (<50). The average is 0 without results. |
| Rbc.StatsAverageBounded | lib/rbcCompaniesIntegration.js:317-319 | The average stays within 0..100 when every score does. |
| Routes.SearchMatch | app/api/competitors/route.js:16-19 | The search callback succeeds exactly when the name is a string and either matches or the description is a string. When it succeeds, it keeps an item exactly when the lower-cased name or description contains the lower-cased term. |
| Routes.FilterBySearchSpec | app/api/competitors/route.js:15-20 | The search filter fails exactly when some item cannot be searched. Otherwise it keeps exactly the matching items, in order. |
| Routes.OfCategorySpec | app/api/competitors/route.js:11-13 | The category filter keeps, in order, exactly the items whose category equals the requested one, each as often as it occurs. |
| Routes.GetCompetitorsSpec | app/api/competitors/route.js:9-26 | The listing is the input, in order, with exactly the items left out that fail the category filter (skipped for none or `Все`) or the search filter. `total` is its length. With neither filter the list is returned whole. The request fails only on an item of the category that cannot be searched. |
| Routes.GetCompetitorsIsFilter | app/api/competitors/route.js:9-26 | A successful listing is the input filtered by one test: the item passes the category filter and the search filter. |
| Routes.GetCompetitorsThrows | app/api/competitors/route.js:15-20 | The request fails only with a search term, on an item of the category that cannot be searched. |
| Routes.HeaderLineReadsBack | app/api/export/route.js:6-13 | The header line reads back as the thirteen column names and is a single line. |
| Routes.ExportCsvLines | app/api/export/route.js:12-29 | Split at line feeds, the body is the header line and then exactly one line per competitor, with no trailing line feed, provided no field holds a line feed. |
| Routes.RowReadsBack | app/api/export/route.js:14-28 | When no quoted field holds a double quote and the unquoted ones hold no comma or quote, a line reads back as its thirteen fields. A falsy market share or revenue reads as `н/д`. |
| Routes.UnescapedQuoteBreaksRow | app/api/export/route.js:16 | A name containing a double quote makes the line unreadable. The escaped line reads back. |
| Routes.EscapedRowReadsBack | app/api/export/route.js:14-28 | With quotes doubled inside quoted fields, every line reads back as its thirteen fields, whatever the quoted fields contain. |
| Routes.EscapedExportCsvLines | app/api/export/route.js:12-29 | The escaped body has the same line structure: a header line, then one line per competitor. |
| Routes.OrNoData | app/api/export/route.js:26-27 | A falsy value renders as `н/д`, and a truthy one as its text. |
| Csv.ParseRenderedLine | lib/exportManager.js:53-55 | A line written with escaped quoted fields and readable plain fields reads back as exactly the field texts. |
| Csv.ParseQuotedRecord | lib/exportManager.js:53-58 | A record of quoted, escaped fields reads back as the original texts, whatever they contain. |
| Csv.ParseEscaped | lib/exportManager.js:54-55 | Reading an escaped field body gives back the text and leaves what follows it. |
| Csv.Escape | lib/exportManager.js:54 | Escaping never shortens a text and changes nothing in a text without double quotes. |
| Csv.EscapeKeepsOthers | lib/exportManager.js:54 | Escaping adds only double quotes: every other character occurs in the escaped text exactly when it occurs in the original. |

## Left out

- Floating-point arithmetic. Amounts are exact reals, so `toFixed`, rounding error, `Infinity` and `-0` are not modelled.
- The revenue percentage and market-share impact texts are kept as their operands (`Changes.Impact`), not as text.
- `Rbc.ParseFinancialValue`: `NaN` is modelled only as the result of a failed `parseFloat` (`Figure.NaN`).
- JavaScript numbers are integer-valued in `Value`, so a fractional `id` or score is not representable.
- `toLowerCase` covers Latin and Cyrillic capitals only.
- Property keys named `__proto__` and other prototype effects are not modelled.
- Clocks, `toISOString`, `toLocaleDateString` and `JSON.stringify` are parameters. A call reads the clock once, so `detectChanges` stamps every change with the same time.
- Messages whose text formats floating-point numbers are not modelled: `message` in `validateFinancialData` and the comparison's `difference`.
- `getLegalInfo` is modelled as whether it finds an object. The field-by-field copy of the registry's legal data is not modelled, and neither is its `TypeError` when `legalInfo` is missing (it is caught and gives `null`).
- `validateCompany`'s `catch` branch is not modelled. Every call inside it catches its own errors, so it cannot be reached; the model's `ValidateAndStore` always stores.
- `Rbc.ValidateFinancialData` folds every exception its `try` would catch into the ERROR result. It does not say which property read failed.
- The 1-second delay in `validateAllCompanies` and every `async`/`await` are sequential calls here.
- The Google Sheets API (authentication, `values.update`, `values.get`, formatting requests), ExcelJS workbooks, JSON and PDF output, console logging and the notifiers' sending are I/O. An export's `Exported` value records only which exporter ran, except for CSV.
- The static competitor list that the competitors route filters (lib/competitors) is not part of this model. It is the parameter `all`.
- Next.js request parsing and response headers are not modelled. The export route's body is taken to be a list of objects.
- `Sheets.SyncThenRead`, `Sheets.SyncThenReadKeys`, `Sheets.SheetRoundTrip`: these take `values.get` to return the cells `values.update` wrote, unformatted. Sheets' display formatting of cells is not modelled. They also require fewer than 1000 rows in all, the `A1:Z1000` range `readFromSheet` reads by default; longer sheets are cut off there.
- `Monitor.GetChangeAnalytics`: the cutoff is a parameter. The source computes it with `setDate(getDate() - period)` in local time, whose length in milliseconds changes across a daylight-saving switch; that calendar arithmetic is not modelled.
- `Monitor.ProcessChangeFires`, `Monitor.FireSpec`: they describe field lists that are arrays or strings. Any other value throws a TypeError in the loop, which `Monitor.FireStops` describes.
- Callbacks of watchers are numbers. What a callback does is not modelled, and the source catches whatever it throws.

## Findings

| source | as written | input that shows it | evidently intended | confidence | as-written member | corrected member |
|---|---|---|---|---|---|---|
| app/api/export/route.js:16-27 | Text fields are wrapped in `"` without doubling embedded quotes | a competitor with no id whose name is `a"b` gives a line that starts `,"a"b",`, which no RFC 4180 reader can read | quotes doubled inside quoted fields, as lib/exportManager.js:54 does | high; not executed | Routes.UnescapedQuoteBreaksRow | Routes.EscapedRowReadsBack |
| app/monitoring/page.js:126-128 with lib/monitoringSystem.js:256 | The page subscribes with `severity: ['CRITICAL', 'WARNING']`, and the filter compares it to the change's severity string with `!==` | any change: an array is never `===` to a string, so the subscriber receives nothing | a severity list admits any severity it contains | high; not executed | Notifications.PageSubscription | Notifications.MatchesFiltersIntended |
