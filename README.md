# WHO mortality viewer: a verified model

The WHO mortality viewer lets a user choose a scope and a set of causes of death. The scope is one country, a region or `Global`; each cause is a `list::cause` code. The viewer then shows, year by year, the deaths, the population and the internet usage of that scope. It also shows a per-cause breakdown of every year and a summary: extremes, averages and the dominant cause.

This project models the core of that system in Dafny and proves properties of the model:

- **The v2 PHP endpoints.**
  - `get_data.php`: the year series and the breakdown.
  - `get_stats.php`: the summary and the top causes.
  - `export.php`: the series as a CSV attachment.
  - `get_causes.php` and `get_causes_by_country.php`: the cause catalogue.

  They share four pieces:
  - scope resolution (module `Scope`);
  - cause-code parsing (`CauseFilter`);
  - the request guard (`Requests`);
  - the wide-row sum `COALESCE(Deaths1, 0) + … + COALESCE(Deaths26, 0)` (`Facts`).

  Each SQL query is a function over the fact tables:
  - `Aggregation` holds the series and the breakdown;
  - `StatsEndpoint` holds the summary and the window queries;
  - `Catalogue` holds the catalogue queries.

  Each endpoint is the function that maps a request to its JSON answer (`DataEndpoint`, `StatsEndpoint`, `Export`, `Catalogue`).
- **The browser logic of `index.php` and `dashboard.php`** (`Client`):
  - the cause selection kept in local storage, as a class `Selection` whose methods change it;
  - the catalogue filter;
  - the guards before a request is sent;
  - the pie chart's years, slices, labels and total;
  - the chart's mortality rate;
  - the dashboard's panel ids.
- **The v1 Python tools:**
  - the query builder and form parsing of `who_data_viewer.py` (`Viewer`);
  - the validator and query builder of `analyzer.py` (`Analyzer`);
  - the batched CSV importer `whodata.py` (`Importer`), with the database connection as a class whose `executemany`, `commit` and `rollback` change its state;
  - the INSERT generator `idc10mortality.py` (`IcdInserts`);
  - the WSGI wrapper `passenger_wsgi.py` (`Wsgi`).

The loops of the source are methods proved against the functions that specify them. Examples are the `setdefault` loop, the hint search, the validation loops, the batch loop and the header loop.

Six helper modules hold the generic definitions the others are stated with:
- `Wrappers`: `Option` and `Result`;
- `Collections`: filters, distinctness and maps built by overwriting;
- `Strings`: PHP and Python trimming, splitting, joining and replacing;
- `Numbers`: sums and extremes;
- `Sorting`: a stable insertion sort for `ORDER BY`;
- `Grouping`: `GROUP BY` with a sum.

Fact tables are sequences of rows in storage order, with `Option` for SQL NULL.

Two collaborators whose code is not part of this model are parameters of the model (`Facts.Env`):
- the region table of `regions.php`, a function from a lower-cased name to an optional list of country codes;
- MySQL's conversion of a decimal text to a number.

The database connection of `config.php` is not part of this model either.

Where the code's behaviour departs from what its interface or messages suggest, the model follows the code:
- **Blank cause halves.** A cause code such as `" :: "` splits into two parts that are empty after trimming. The PHP keeps it and filters on the empty list and cause, so the model keeps it too.
- **`empty()` versus the browser guard.** PHP's `empty("0")` holds, so a request for the country `"0"` is refused as missing input. The browser only refuses the empty name, so it sends that request (`Client.IndexRequestGuard`).
- **The internet average in get_data.php.** The query takes `COALESCE` inside the derived table. A year with no internet rows gets NULL. A year whose rows are all NULL gets 0. `export.php` and `get_stats.php` give NULL in both cases.

## Model

| member | source | states |
|---|---|---|
| Facts.CoalesceSumIsZeroFilledSum | v2-php/get_data.php:23-27 | the wide-row sum of `COALESCE(Deaths<i>, 0)` terms equals the plain sum of the zero-filled cells |
| Facts.CoalesceSumAllNull | v2-php/get_data.php:24 | a row whose age-group cells are all NULL contributes 0, not NULL |
| Facts.CoalesceSumNonNegative | v2-php/get_data.php:23-27 | non-negative counts give a non-negative row total |
| Facts.CoalesceSumAppend | v2-php/get_data.php:27 | the row sum splits over any split of the columns |
| Facts.RowDeathsNonNegative | v2-php/get_data.php:97 | a row with no negative death count has a non-negative `TotalDeaths` contribution |
| Facts.InternetValue | v2-php/get_data.php:121 | a `Valor %` cell has a numeric value exactly when it is not NULL (comma replaced by a point, then cast) |
| Facts.SumTerms | v2-php/get_data.php:23-26 | the loop builds exactly 26 summands, summand `i` naming column `<prefix><i+1>` |
| Facts.SumTermInjective | v2-php/get_data.php:24 | two summands that read alike name the same column |
| Facts.SumTermsDistinct | v2-php/get_data.php:23-28 | the 26 generated summands are pairwise different, so no column is summed twice |
| Scope.FirstCountryMatch | v2-php/get_data.php:46-48 | `Nombre LIKE '%text%' LIMIT 1` yields the first country in storage order whose name contains the text, and nothing when none does |
| Scope.Resolve | v2-php/get_data.php:33-52 | "global" (any case) gives the global scope and only it does; a region name gives its country list; otherwise the first matching country, or the not-found error exactly when no name contains the search text |
| Scope.PlaceholdersCount | v2-php/get_data.php:59 | `implode(',', array_fill(0, n, '?'))` holds exactly n placeholders |
| Scope.ScopeClauseArity | v2-php/get_data.php:58-67 | the country filter holds exactly one placeholder per bound country code (none for the global scope) |
| CauseFilter.Kept | v2-php/get_data.php:69-80 | no more pairs are kept than codes were requested |
| CauseFilter.KeptMembers | v2-php/get_data.php:71-79 | a pair is kept exactly when some requested code parses to it |
| CauseFilter.KeptNone | v2-php/get_data.php:71-83 | when no code parses, nothing is kept |
| CauseFilter.MatchesOne | v2-php/get_data.php:76 | one kept pair selects exactly the rows whose trimmed list and cause equal it |
| CauseFilter.Params | v2-php/get_data.php:77-78 | two parameters are bound per kept pair |
| CauseFilter.ParamsAt | v2-php/get_data.php:77-78 | pair i binds parameter 2i to its list and parameter 2i+1 to its cause |
| CauseFilter.ParamsSnoc | v2-php/get_data.php:77-78 | keeping one more pair appends its list and its cause, in that order |
| CauseFilter.BuildCauseFilter | v2-php/get_data.php:69-80 | the `foreach` collects one condition per kept pair and the parameters of the kept pairs, in request order |
| CauseFilter.ConditionShapeCount | v2-php/get_data.php:76 | a condition of that shape holds exactly two placeholders |
| CauseFilter.ConditionCount | v2-php/get_data.php:76 | one condition holds exactly two placeholders |
| CauseFilter.JoinConditionsCount | v2-php/get_data.php:84 | n conditions joined with ` OR ` hold exactly 2n placeholders |
| CauseFilter.CauseClauseArity | v2-php/get_data.php:84 | the cause clause holds exactly one placeholder per bound cause parameter |
| CauseFilter.ParseWellFormed | v2-php/get_data.php:72-75 | a well-formed `list::cause` code parses to its two trimmed halves |
| CauseFilter.ParseNoSeparator | v2-php/get_data.php:72-73 | a code without `::` is dropped |
| CauseFilter.ParseThreeParts | v2-php/get_data.php:72-73 | a code with two separators is dropped |
| CauseFilter.ParseKeepsBlankHalves | v2-php/get_data.php:73-75 | a code whose halves trim to nothing is still kept, as the empty pair |
| Requests.Prepare | v2-php/get_data.php:41-83 | an unresolved scope is the not-found error; a resolved scope with no kept pair is the no-valid-causes error; otherwise the query of the scope and the kept pairs, and only then |
| Requests.NoSeparatorNothingKept | v2-php/get_data.php:71-83 | when no code holds `::`, no pair is kept |
| Requests.PrepareRejectsMalformed | v2-php/get_data.php:81-83 | a cause list none of whose codes holds `::` is rejected, with the not-found error first when the scope does not resolve |
| Requests.PrepareAcceptsWellFormed | v2-php/get_data.php:71-79 | one well-formed code is enough for a request whose scope resolves, and its pair is in the query |
| Aggregation.Matched | v2-php/get_data.php:98-103 | the rows the `WHERE` admits are exactly the stored rows in scope that match a kept pair |
| Aggregation.MatchedNonNegative | v2-php/get_data.php:98-103 | selecting rows keeps death counts non-negative |
| Aggregation.DeathsWhereExtensional | v2-php/get_data.php:97 | two row predicates that agree on the rows give the same death sum |
| Aggregation.DeathsWhereNonNegative | v2-php/get_data.php:97 | non-negative rows give a non-negative death sum |
| Aggregation.DeathItemsKeys | v2-php/get_data.php:104-105 | a group key occurs among the grouping items exactly when some row has it |
| Aggregation.DeathItemsSum | v2-php/get_data.php:97 | the items' amounts under a key predicate add up to the death sum of the rows whose key satisfies it |
| Aggregation.DeathItemsNonNegative | v2-php/get_data.php:97 | non-negative rows give non-negative item amounts |
| Aggregation.YearTotals | v2-php/get_data.php:95-105 | one entry per year in strictly ascending year order, a permutation of the grouped per-year sums |
| Aggregation.YearTotalsYears | v2-php/get_data.php:104-105 | a year has an entry exactly when some selected row has that year |
| Aggregation.YearTotalsAmount | v2-php/get_data.php:97 | each year's `TotalDeaths` is the death sum of that year's selected rows |
| Aggregation.PopItemsSpec | v2-php/get_data.php:109-116 | a year has a population group exactly when an eligible row (sex 1 or 2, in scope) has it, and the group's amount is the population sum of those rows |
| Aggregation.PopItemsKeys | v2-php/get_data.php:112-115 | a year has a population item exactly when an eligible row has that year |
| Aggregation.PopItemsSum | v2-php/get_data.php:110 | the population items of a year add up to that year's population sum |
| Aggregation.HasPopulationCons | v2-php/get_data.php:112-114 | a year has eligible population exactly when the first row gives it or the other rows do |
| Aggregation.PopulationOf | v2-php/get_data.php:107-116 | the `LEFT JOIN` gives a year's population sum when an eligible row exists, and NULL otherwise |
| Aggregation.InternetValues | v2-php/get_data.php:119-125 | a year with numeric internet values has an in-scope internet row, and there are no more values than rows |
| Aggregation.RealSumBounds | v2-php/get_data.php:121 | values between two bounds sum to between n times each bound |
| Aggregation.AverageBounds | v2-php/get_data.php:121 | `AVG` of values between two bounds lies between them |
| Aggregation.InternetAvg | v2-php/get_data.php:117-126 | with `COALESCE` the average is NULL exactly when the year has no in-scope internet row, and 0 when all its values are NULL; without it, NULL exactly when no value is numeric; otherwise the mean of the values |
| Aggregation.TimeSeries | v2-php/get_data.php:87-129 | one series row per year of the selected mortality rows |
| Aggregation.TimeSeriesSpec | v2-php/get_data.php:87-129 | the years come in strictly ascending order, a year appears exactly when a selected row has it, and each row carries that year's death sum, its population (or NULL) and its internet average |
| Aggregation.SeriesEmpty | v2-php/get_data.php:136-140 | the series is empty exactly when no mortality row is selected |
| Aggregation.TimeSeriesAt | v2-php/get_data.php:87-129 | series row i carries its year's death sum, population and internet average |
| Aggregation.BreakdownLeTotal | v2-php/get_data.php:159 | `ORDER BY M.Year, Deaths DESC` is a total preorder |
| Aggregation.YearLeTotal | v2-php/get_data.php:128 | ordering by year is a total preorder |
| Aggregation.Breakdown | v2-php/get_data.php:143-160 | each (year, trimmed list, trimmed cause) group appears once, with a positive amount, ordered by year and then by deaths descending; the entries are a permutation of the positive grouped sums |
| Aggregation.BreakdownAmount | v2-php/get_data.php:148 | each breakdown entry's `Deaths` is the death sum of its group's rows |
| Aggregation.BreakdownComplete | v2-php/get_data.php:155-158 | every group with a positive death sum has an entry |
| Aggregation.BreakdownAddsUp | v2-php/get_data.php:143-160 | with non-negative counts, a year's breakdown entries add up to that year's death sum |
| Aggregation.SeriesBreakdownAgree | v2-php/get_data.php:87-160 | with non-negative counts, the breakdown of each series year adds up to that year's `TotalDeaths` |
| DataEndpoint.GetData | v2-php/get_data.php:12-174 | a missing country or cause list is the "Falta el país" error; a failed preparation is its message; a success carries a non-empty series and the breakdown of the prepared query |
| DataEndpoint.GetDataNoData | v2-php/get_data.php:138-140 | after a successful preparation, the answer is an error exactly when no row is selected, with the "no data" message |
| DataEndpoint.BreakdownYearsInSeries | v2-php/get_data.php:143-160 | every breakdown year is a year of the series |
| DataEndpoint.GetDataConsistent | v2-php/get_data.php:166-170 | a success has strictly ascending years, every breakdown year in the series, and each year's breakdown adding up to its `TotalDeaths` |
| StatsEndpoint.RealSumToReals | v2-php/get_stats.php:145 | summing the totals as reals gives the integer sum |
| StatsEndpoint.MeanBetween | v2-php/get_stats.php:145-147 | the mean of the totals lies between their minimum and their maximum |
| StatsEndpoint.FirstIndexOf | v2-php/get_stats.php:151-153 | `array_search` finds the first position holding the value, and nothing exactly when the value is absent |
| StatsEndpoint.BaseRows | v2-php/get_stats.php:89-128 | one base row per year of the series, each with a non-NULL `TotalDeaths` |
| StatsEndpoint.AvgInternet | v2-php/get_stats.php:148-149 | the mean of the non-NULL internet values, or 0 when there are none |
| StatsEndpoint.Summarize | v2-php/get_stats.php:130-154 | no base rows is the "no summary data" error; rows with no non-NULL total the "no mortality data" error; otherwise the summary, and only then |
| StatsEndpoint.YearSpan | v2-php/get_stats.php:143-144 | `start_year` and `end_year` bound every row's year and are years of some row |
| StatsEndpoint.YearOfFirst | v2-php/get_stats.php:151-154 | the year reported for a total is that of the first row holding it |
| StatsEndpoint.TotalsBetween | v2-php/get_stats.php:146-147 | every non-NULL total lies between `min_deaths` and `max_deaths` |
| StatsEndpoint.SummaryOf | v2-php/get_stats.php:143-154 | the years span all rows and are attained; every total lies between min and max; the average is the mean of the totals and lies between them; each extreme's year is that of the first row holding it; the internet average and the top cause are passed through |
| StatsEndpoint.NoMortalityUnreachable | v2-php/get_stats.php:138-141 | on the base query's rows the "no mortality data" exception cannot be raised: the summary exists exactly when there are rows |
| StatsEndpoint.CauseYearGroups | v2-php/get_stats.php:158-171 | each (year, trimmed list, trimmed cause) group appears once |
| StatsEndpoint.GroupsOfYear | v2-php/get_stats.php:163 | `PARTITION BY M.Year`: the groups of one year, exactly |
| StatsEndpoint.TopOfYear | v2-php/get_stats.php:163-175 | a year has a top cause exactly when it has a group; it is one of that year's groups with no group of the year larger |
| StatsEndpoint.TopsOf | v2-php/get_stats.php:173-176 | one slot per year, in descending year order, each the top of its year |
| StatsEndpoint.RowHasGroup | v2-php/get_stats.php:170-171 | a selected row's own key has a group |
| StatsEndpoint.KeyGivesYear | v2-php/get_stats.php:170-171 | a group key's year has a group |
| StatsEndpoint.YearHasGroup | v2-php/get_stats.php:170-171 | a selected row's year has a group |
| StatsEndpoint.TopsOfAt | v2-php/get_stats.php:173-176 | when every year has a group, row i of the result is the top of the year i-th from the end |
| StatsEndpoint.TopByYearAt | v2-php/get_stats.php:156-181 | each row of `top_causes_by_year` is the top of its year, the years taken newest first |
| StatsEndpoint.TopsOfDescending | v2-php/get_stats.php:176 | years taken in reverse of an ascending list are strictly descending |
| StatsEndpoint.TopByYearDescending | v2-php/get_stats.php:176 | `ORDER BY Year DESC`: the years strictly descend |
| StatsEndpoint.TopsOfYears | v2-php/get_stats.php:173-176 | a year is reported exactly when it is one of the listed years |
| StatsEndpoint.TopByYearYears | v2-php/get_stats.php:156-181 | a year has a top cause exactly when some selected row has that year |
| StatsEndpoint.TopsAlignedIsTop | v2-php/get_stats.php:163-175 | an aligned row is one of its year's groups, with no group of the year larger |
| StatsEndpoint.TopByYearIsTop | v2-php/get_stats.php:163-175 | `rn = 1`: each reported row is a group of its year of largest total |
| StatsEndpoint.TopByYearTotal | v2-php/get_stats.php:162 | each reported `Cause_Total` is the death sum of its group's rows |
| StatsEndpoint.TopOverallOf | v2-php/get_stats.php:183-198 | there is an overall top cause exactly when some row is selected; it is a (list, cause) group with no group larger |
| StatsEndpoint.TopOverallTotal | v2-php/get_stats.php:185 | `Total_Count` is the death sum of the rows of that (list, cause) |
| StatsEndpoint.GetStats | v2-php/get_stats.php:11-210 | a missing input is the "Falta el país" error without suffix; a failed preparation its message with " (en get_stats.php)"; a success carries the summary of the base rows and the per-year top causes |
| StatsEndpoint.GetStatsOutcome | v2-php/get_stats.php:130-204 | after a successful preparation the answer is an error exactly when no row is selected, with the suffixed "no summary data" message, and a success always carries a top cause |
| Export.CollapseFrom | v2-php/export.php:29 | the replacement leaves only lower-case letters, digits and `_`, never two `_` in a row |
| Export.CollapseKeepsAlnum | v2-php/export.php:29 | `preg_replace('/[^a-z0-9]+/', '_', …)` keeps every letter and digit, in order |
| Export.CollapseFixes | v2-php/export.php:29 | text already of the replacement's shape is left as it is |
| Export.SafeNameIdempotent | v2-php/export.php:29 | making a name file-safe twice changes nothing more |
| Export.SafeNameOfAlnum | v2-php/export.php:29 | a lower-case alphanumeric name is used unchanged |
| Export.FilenameCharacters | v2-php/export.php:29-30 | the attachment name holds only lower-case letters, digits, `_` and `.` |
| Export.MortalityRate | v2-php/export.php:91 | the rate is NULL exactly when the population is NULL or 0 (MySQL division by zero), and otherwise rate × population = deaths × 100000 |
| Export.ExportRows | v2-php/export.php:85-130 | one exported row per row of the year series |
| Export.ExportRowsYears | v2-php/export.php:85-122 | the rows come in strictly ascending year order, one for each year of the selected mortality rows and no other |
| Export.ExportRowValues | v2-php/export.php:87-91 | each row carries its year's death sum, its population, an internet average that is NULL exactly when no value is numeric, and the rate of those two |
| Export.HeaderLine | v2-php/export.php:133-134 | the header line names the five columns in order |
| Export.RowLineRoundTrip | v2-php/export.php:135 | a written row has as many cells as the header and reads back as the same row |
| Export.ExportLines | v2-php/export.php:132-136 | the header line, then one line per row in order, every line as wide as the header |
| Export.CsvStream.constructor | v2-php/export.php:132 | a freshly opened output holds no lines |
| Export.CsvStream.WriteLine | v2-php/export.php:133-135 | `fputcsv` appends exactly one line |
| Export.WriteExport | v2-php/export.php:132-136 | the stream gains exactly the header line and the row lines, in order |
| Export.ExportOf | v2-php/export.php:11-141 | a missing input is exactly the 400 answer; a failed preparation the "Error al generar el archivo" text; otherwise, and only then, the attachment under the file-safe name with the export lines |
| Export.Export | v2-php/export.php:11-141 | the endpoint answers as `ExportOf` says |
| Export.ExportEmptyIsHeaderOnly | v2-php/export.php:133-134 | with no selected row the file holds only the fixed header line |
| Catalogue.CatalogueRows | v2-php/get_causes.php:21-25 | the rows the catalogue reads are exactly the stored rows in scope whose trimmed list and cause are non-empty and whose trimmed cause is at most 4 bytes long in UTF-8, as `LENGTH` counts |
| Strings.Utf8Length | v2-php/get_causes.php:25 | `LENGTH` of a text is its UTF-8 size in bytes, at least one and at most four per character |
| Strings.AsciiUtf8Length | v2-php/get_causes.php:25 | an ASCII text is as many bytes long as it has characters |
| Catalogue.MultibyteCauseDropped | v2-php/get_causes.php:25 | a cause of 3 characters and 5 bytes, `ÑÑ1`, fails `LENGTH(TRIM(M.Cause)) <= 4` and is not listed |
| Catalogue.AsciiCauseListable | v2-php/get_causes.php:23-25 | an ASCII cause is listed exactly when the trimmed list is non-empty and the trimmed cause has one to four characters |
| Catalogue.CountItems | v2-php/get_causes_by_country.php:59 | one counting item of 1 per row, under the row's trimmed (list, cause) |
| Catalogue.CountItemsKeys | v2-php/get_causes.php:26 | a pair has a counting item exactly when some row trims to it |
| Catalogue.PairLtTransitive | v2-php/get_causes.php:27 | `ORDER BY list_code, cause_code` is transitive |
| Catalogue.PairLtTotal | v2-php/get_causes.php:27 | any two different pairs are ordered one way or the other |
| Catalogue.PairLeTotal | v2-php/get_causes.php:27 | the ordering is a total preorder |
| Catalogue.SortedDistinctStrict | v2-php/get_causes.php:26-27 | sorted groups with distinct keys are strictly ordered |
| Catalogue.PairCounts | v2-php/get_causes.php:26-27 | one group per pair, strictly ordered by list code then cause code, a permutation of the grouped counts |
| Catalogue.RowsOfPair | v2-php/get_causes.php:26 | the rows of one group are exactly the rows trimming to its pair |
| Catalogue.CountriesOf | v2-php/get_causes.php:18 | the countries of a group's rows, each of them and no other |
| Catalogue.YearsOfMembers | v2-php/get_causes.php:19-20 | a year occurs in a group exactly when one of its rows has it |
| Catalogue.GroupOf | v2-php/get_causes.php:15-20 | a catalogue row carries its pair and its record count |
| Catalogue.GroupsOf | v2-php/get_causes.php:30 | one catalogue row per group, in group order |
| Catalogue.PairCountsPresent | v2-php/get_causes.php:26 | every group comes from some row |
| Catalogue.CatalogueOrdered | v2-php/get_causes.php:27 | the catalogue is strictly ordered by list code then cause code, so no pair appears twice |
| Catalogue.CatalogueIsGroups | v2-php/get_causes.php:14-30 | the catalogue has the groups, one for one and in order |
| Catalogue.PairCountsKeys | v2-php/get_causes.php:26 | a pair has a group exactly when some row trims to it |
| Catalogue.CatalogueComplete | v2-php/get_causes.php:14-28 | a pair is listed exactly when some stored row in scope passes the filter (non-empty trimmed list and cause, cause at most 4 UTF-8 bytes) and trims to it |
| Catalogue.CountRowsOfPair | v2-php/get_causes_by_country.php:59 | the counting items of a pair add up to its number of rows |
| Catalogue.PairCountsAmount | v2-php/get_causes_by_country.php:59 | `COUNT(*)` of a group is the number of its rows |
| Catalogue.GroupOfSpec | v2-php/get_causes.php:18-20 | a group's first and last year bound its rows' years and are attained, and its country count is the number of distinct countries of its rows |
| Catalogue.CatalogueAt | v2-php/get_causes.php:14-30 | catalogue row i is the row of group i |
| Catalogue.CatalogueFiltered | v2-php/get_causes.php:23-25 | every listed list code and cause code is non-empty, the cause at most 4 bytes in UTF-8 and so at most 4 characters |
| Catalogue.CatalogueGroupSpec | v2-php/get_causes.php:15-20 | every listed row carries its group's year span, distinct-country count and record count |
| Catalogue.DescriptionPairs | v2-php/get_causes.php:38-44 | one (trimmed short code, trimmed description and revision) pair per description row, in row order |
| Catalogue.BuildDescriptions | v2-php/get_causes.php:45-51 | the `foreach` fills `$descriptions` as storing the pairs in order, a later row overwriting an earlier one |
| Catalogue.DescriptionMapKeys | v2-php/get_causes.php:45-51 | a code has a description exactly when some description row trims to it |
| Catalogue.DescriptionMapLastWins | v2-php/get_causes.php:47 | the description kept under a code is that of the last row carrying it |
| Catalogue.Enrich | v2-php/get_causes.php:54-72 | the entry's code is `list::cause` and its list the group's; a described cause takes its description and revision, any other "Causa <code>" and "Unknown"; the year span (and in get_causes the country count) is appended |
| Catalogue.EnrichedAll | v2-php/get_causes.php:53-73 | one entry per group, in group order |
| Catalogue.EnrichAll | v2-php/get_causes.php:53-73 | the loop builds exactly those entries |
| Catalogue.EntryCodeRoundTrip | v2-php/get_causes.php:55 | the composite code of a listed pair parses back, in the data endpoints, to that pair, which selects exactly that pair's rows |
| Catalogue.GetCausesOf | v2-php/get_causes.php:10-79 | the answer is the "no causes" error exactly when the global catalogue is empty, and otherwise its enriched entries with the country count |
| Catalogue.GetCauses | v2-php/get_causes.php:10-79 | the endpoint answers as `GetCausesOf` says |
| Catalogue.GetCausesByCountryOf | v2-php/get_causes_by_country.php:11-125 | an empty country is the missing-parameter error; an unresolved one the "no encontrado" error; a resolved one with an empty catalogue the "no causes for" error; otherwise, and only then, the country and its enriched catalogue without the country count |
| Catalogue.GetCausesByCountry | v2-php/get_causes_by_country.php:11-125 | the endpoint answers as `GetCausesByCountryOf` says |
| Catalogue.ScopedCatalogueInScope | v2-php/get_causes_by_country.php:46-66 | every pair listed for a country scope comes from a row of one of its countries |
| Client.LoadedCauses | v2-php/index.php:234-249 | the causes kept from local storage are the saved list when it is empty or in the `list::cause` format, and nothing otherwise (the legacy format is discarded) |
| Client.Checked | v2-php/index.php:371 | checking a box adds the code once: the result holds exactly the old codes and the new one, stays repetition-free, and is unchanged when the code was already there |
| Client.Unchecked | v2-php/index.php:373 | unchecking removes every occurrence of the code and nothing else |
| Client.UncheckUndoesCheck | v2-php/index.php:367-377 | checking and then unchecking a fresh code restores the selection |
| Client.UncheckedKeepsOrder | v2-php/index.php:373 | unchecking leaves the codes around the removed one in their order |
| Client.Selection.constructor | v2-php/index.php:213 | the page starts with no selected causes, over whatever local storage holds |
| Client.Selection.Load | v2-php/index.php:234-249 | loading replaces the selection by the stored list or by nothing, and writes the selection back to storage |
| Client.Selection.Toggle | v2-php/index.php:367-377 | a checkbox change applies the check or the uncheck and persists the new selection |
| Client.Selection.DeselectAll | v2-php/index.php:293-297 | "deselect all" empties the selection and the stored copy |
| Client.IndexFetch | v2-php/index.php:389-426 | the search page alerts on an empty name, then on an empty selection, and otherwise posts the name and the selected causes |
| Client.DashboardFetch | v2-php/dashboard.php:448-465 | a dashboard panel shows the no-causes notice on an empty selection and otherwise posts its country and the causes |
| Client.IndexRequestGuard | v2-php/get_data.php:16-19 | a request the search page sends is refused by the endpoint's missing-input check only for the name "0", which JavaScript treats as present and PHP's `empty` as missing |
| Client.DashboardRequestGuard | v2-php/get_data.php:16-19 | a request a dashboard panel sends is refused exactly when its country name is one PHP's `empty` treats as missing |
| Client.ResultsList | v2-php/index.php:333-349 | the result list holds exactly the catalogue entries whose lower-cased description or code contains the lower-cased filter text and whose revision matches the revision filter when one is chosen |
| Client.SelectedList | v2-php/index.php:351-359 | the selected list holds exactly the catalogue entries whose code is selected |
| Client.LowerIdempotent | v2-php/index.php:323 | lower-casing twice is lower-casing once |
| Client.FilterIgnoresCase | v2-php/index.php:323-336 | the filter gives the same verdict for the typed text and its lower-cased form |
| Client.EmptyFilterListsAll | v2-php/index.php:334-339 | an empty search box with no revision chosen lists the whole catalogue, in order |
| Client.LabelOf | v2-php/index.php:274-275 | a pie label starts with the bracketed list name |
| Client.LabelPairs | v2-php/index.php:273-276 | one label is stored per catalogue entry, under its code |
| Client.BuildLabels | v2-php/index.php:272-276 | the label map is built by storing every entry's label in catalogue order, a later entry overwriting an earlier one with the same code |
| Client.PieLabel | v2-php/index.php:628-631 | a pie slice always has a nonempty label |
| Client.LabelOfCatalogueEntry | v2-php/index.php:274-275 | for a catalogue entry the label reads `[list] cause (revision)` |
| Client.PieLabelFound | v2-php/index.php:628-631 | a slice whose `list::cause` code is in the catalogue is labelled with the last such entry's label |
| Client.PieLabelFallback | v2-php/index.php:630 | a slice whose code is not in the catalogue is labelled with the code itself |
| Client.InsertYear | v2-php/index.php:601 | adding a year keeps the list strictly descending and adds exactly that year |
| Client.PieYears | v2-php/index.php:601 | the year selector lists each breakdown year exactly once, most recent first |
| Client.StrictlyDescendingUnique | v2-php/index.php:601 | two strictly descending lists of the same years are equal, so the selector's order is determined by the years alone |
| Client.PieFirstYearIsLatest | v2-php/index.php:601-612 | a nonempty breakdown preselects a year it contains that is no earlier than any breakdown year |
| Client.PieRows | v2-php/index.php:626 | the pie draws exactly the breakdown rows of the selected year |
| Client.PieTotalIsYearSum | v2-php/index.php:633 | the pie's total is the sum of the selected year's breakdown deaths |
| Client.PieTotalMatchesSeries | v2-php/index.php:626-633 | for every year of the time series, the pie total equals that year's `TotalDeaths` |
| Client.ClientRate | v2-php/index.php:523 | the chart's rate is deaths per 100000 inhabitants when the population is positive, and 0 otherwise |
| Client.ClientRateAgreesWithExport | v2-php/index.php:523 | where the population is positive the chart's rate is the one the export writes; for a zero population the export leaves the cell empty while the chart shows 0 |
| Client.CountryIdSafe | v2-php/dashboard.php:124 | a panel id is `c_` followed only by ASCII letters and digits, never longer than the code plus two |
| Client.CountryIdOfAlnum | v2-php/dashboard.php:124 | an alphanumeric country code is kept as it is after the prefix |
| Client.CountryIdStable | v2-php/dashboard.php:124 | cleaning an already cleaned id changes nothing |
| Viewer.OrElse | v1/who_data_viewer.py:239-242 | `value or default`: a present nonempty form value is kept, an absent or empty one gives the default |
| Viewer.StripAll | v1/who_data_viewer.py:238 | every comma-separated part is stripped, position by position |
| Viewer.SplitList | v1/who_data_viewer.py:238 | the column and y-axis lists hold only nonempty, already stripped names |
| Viewer.SplitListJoin | v1/who_data_viewer.py:238 | splitting the comma-joined list of stripped, nonempty, comma-free names gives the names back |
| Viewer.ParseForm | v1/who_data_viewer.py:221-252 | a single `tables` string becomes a one-element list and a list is kept; the column lists are split, absent text fields take their defaults (`table_complex`, `none`, no x axis) |
| Viewer.LoadMetadata | v1/who_data_viewer.py:120-129 | the whitelist is built by the `setdefault(...).append` loop over the schema rows |
| Viewer.MetadataSpec | v1/who_data_viewer.py:126-129 | a table is in the whitelist exactly when some schema row names it, and its columns are those rows' columns in row order |
| Viewer.ColumnsOfMembers | v1/who_data_viewer.py:128 | a column is listed under a table exactly when that (table, column) row was read |
| Viewer.MetadataMembers | v1/who_data_viewer.py:120-129 | the whitelist admits a table and column exactly when the schema holds that pair |
| Viewer.HintSymmetric | v1/who_data_viewer.py:75-80 | join hints are keyed by unordered pairs, so the order of the two tables does not matter |
| Viewer.HintNeedsTwoTables | v1/who_data_viewer.py:75-80 | no hint joins a table with itself |
| Viewer.FirstUnknown | v1/who_data_viewer.py:268-270 | the rejected table is the first selected one the whitelist lacks, and none is rejected when all are known |
| Viewer.ColumnHitsMembers | v1/who_data_viewer.py:278-283 | a bare column yields one `t.c AS` alias exactly for each selected known table that has it |
| Viewer.AliasesOf | v1/who_data_viewer.py:293-295 | every column of a table is aliased as `t.c`, in order |
| Viewer.QueryOf | v1/who_data_viewer.py:255-340 | no tables gives the "no tables" error, and an unknown table gives the error naming the first unknown one |
| Viewer.Hits | v1/who_data_viewer.py:279-283 | the inner loop over the tables collects exactly the aliases of the matching columns |
| Viewer.FindHint | v1/who_data_viewer.py:305-310 | the hint search returns the first used table's hint with the new table, or none |
| Viewer.ScanForbidden | v1/who_data_viewer.py:328-331 | the WHERE text is refused exactly when it contains, ignoring case, one of the forbidden tokens |
| Viewer.CheckTables | v1/who_data_viewer.py:268-270 | the table check stops at the first table the whitelist lacks |
| Viewer.ChosenColumns | v1/who_data_viewer.py:275-290 | the column loop resolves the columns in order and reports the first one not allowed |
| Viewer.EveryColumn | v1/who_data_viewer.py:291-295 | with no columns chosen, every column of every selected table is selected, table by table |
| Viewer.BuildJoins | v1/who_data_viewer.py:298-322 | one clause per table after the first: a `LEFT JOIN ... ON` with the first matching hint, otherwise a comma cross join |
| Viewer.BuildSqlQuery | v1/who_data_viewer.py:255-340 | the method returns exactly the query or the error message the model of `build_sql_query` defines |
| Viewer.ResolveAllErrorStays | v1/who_data_viewer.py:288-289 | once a column cannot be resolved, the whole column list fails with that column's message |
| Viewer.ResolveColumnWhitelisted | v1/who_data_viewer.py:277-287 | every alias a column resolves to names a whitelisted table and column |
| Viewer.ResolveAllWhitelisted | v1/who_data_viewer.py:275-290 | every selected alias from a chosen column list is whitelisted |
| Viewer.AllColumnsWhitelisted | v1/who_data_viewer.py:291-295 | every alias from the select-everything branch is whitelisted |
| Viewer.SelectListWhitelisted | v1/who_data_viewer.py:272-296 | whichever branch builds the select list, only whitelisted `table.column` names reach the query |
| Viewer.ColumnFromSelectedTables | v1/who_data_viewer.py:278-283 | a bare column found in a selected table resolves to exactly the aliases of the selected tables holding it |
| Viewer.FirstHintSpec | v1/who_data_viewer.py:305-310 | a found hint comes from some used table, and none is found exactly when no used table has a hint with the new one |
| Viewer.QueryTextEnds | v1/who_data_viewer.py:296-336 | the query starts with its `SELECT ... FROM` head and ends with its WHERE part and `LIMIT 10000` |
| Viewer.QueryShape | v1/who_data_viewer.py:296-337 | an accepted query starts with the select list over the first table, ends with the stripped WHERE text and `LIMIT 10000`, and that WHERE text holds no forbidden token |
| Viewer.UnknownColumnRejected | v1/who_data_viewer.py:275-290 | the first column that resolves nowhere makes the whole query fail with that column's message |
| Analyzer.RelationWithinWhitelist | v1/analyzer.py:35-80 | every automatic relation joins two different whitelisted tables |
| Analyzer.ParseForm | v1/analyzer.py:143-183 | lists are taken as sent; absent fields take their defaults (`raw`, `none`, empty x axis and WHERE); a parsed `limit` replaces the default of 1000 and an unparsable one keeps it |
| Analyzer.ValidateSelections | v1/analyzer.py:185-198 | the two loops return exactly the verdict the model of `validate_selections` defines: the first table refused, else the first column refused, else success |
| Analyzer.ValidateColumns | v1/analyzer.py:193-198 | the column loop reports the first column refused, raises the unpacking error for a column without a dot, and succeeds otherwise |
| Analyzer.ValidExactlyWhitelisted | v1/analyzer.py:185-198 | a selection is accepted, with the success message, exactly when every table and every `table.column` is whitelisted |
| Analyzer.UnqualifiedColumnRaises | v1/analyzer.py:194 | once the tables pass, the first column with no dot makes `split('.')` unpacking raise instead of returning a verdict |
| Analyzer.RenderAll | v1/analyzer.py:219 | each join clause is rendered as `JOIN t ON left = right`, in order |
| Analyzer.Targets | v1/analyzer.py:215-229 | the joined tables are read off the join clauses one for one |
| Analyzer.TargetsAppend | v1/analyzer.py:215-229 | the joined tables of two join lists put together are those of each, in order |
| Analyzer.SqlQueries | v1/analyzer.py:200-256 | as the code is written: both queries are empty exactly when no table or no column is selected; otherwise the paged query is `SELECT` the columns `FROM` the base table, then every join as written (the relation joins, then the dimension joins with the unguarded Paises join), the WHERE clause and `LIMIT`, and the counting query has the same FROM, joins and WHERE |
| Analyzer.SqlQueriesIntended | v1/analyzer.py:200-256 | as evidently intended: the same two queries over the corrected joins, empty exactly when no table or no column is selected |
| Analyzer.JoinsAsWrittenAgree | v1/analyzer.py:222-229 | the joins as written equal the corrected joins if and only if it is not the case that Mortalidad and Paises are selected, Estado_Desarrollo is not, and the columns name Estado_Desarrollo but not Paises |
| Analyzer.SqlQueriesAgree | v1/analyzer.py:200-256 | outside that case the queries as written are the corrected queries |
| Analyzer.RelationJoins | v1/analyzer.py:215-219 | the relation loop emits exactly the relation joins of the later tables to the base table |
| Analyzer.MentionsScan | v1/analyzer.py:223-226 | the `any(...)` scan is true exactly when some selected column contains the prefix |
| Analyzer.AddDimensionJoins | v1/analyzer.py:222-229 | as the code is written, the dimension loop appends for each Mortalidad table the Paises join when a Paises column is named and Paises is not selected, else both the Paises and the status joins when a status column is named and Estado_Desarrollo is not selected, and nothing for any other table |
| Analyzer.WhereScan | v1/analyzer.py:233-240 | the WHERE scan keeps the clause exactly when every character is allowed |
| Analyzer.BuildSqlQuery | v1/analyzer.py:200-256 | the method, with its join loops and WHERE scan as written, returns exactly the two queries `SqlQueries` states, duplicated Paises join included |
| Analyzer.CountMatchesQuery | v1/analyzer.py:241-255 | the counting query shares the paged query's joins and WHERE part and starts `SELECT COUNT(*) as total FROM` the base table |
| Analyzer.WhereClauseSafe | v1/analyzer.py:233-240 | a WHERE part is kept exactly when it is nonempty and made of allowed characters, so no `;`, `-`, `#` or `/` ever reaches the query |
| Analyzer.ExplicitJoinsSpec | v1/analyzer.py:215-219 | the relation joins target exactly the later tables related to the base table, in order, each with its relation's columns |
| Analyzer.MortalityTargets | v1/analyzer.py:223-229 | the corrected Mortalidad joins target distinct tables none of which is selected |
| Analyzer.DimensionTargets | v1/analyzer.py:222-229 | with the corrected Paises guard, over distinct selected tables the dimension joins target distinct tables none of which is selected (the joins as written do not: see `Analyzer.DuplicatePaisesJoinShown`) |
| Analyzer.ExplicitTargetsFresh | v1/analyzer.py:215-219 | over distinct tables the relation joins target distinct selected tables other than the base one |
| Analyzer.JoinTargetsDistinct | v1/analyzer.py:210-229 | with the corrected dimension rule, the base table and every joined table are pairwise different, so no table is joined twice |
| Analyzer.QualifiedColumnAllowed | v1/analyzer.py:193-196 | `t.c` is accepted for a whitelisted table `t` and one of its columns `c` |
| Analyzer.DuplicateSampleValid | v1/analyzer.py:185-198 | the selection of Mortalidad and Paises with the development-status column passes validation |
| Analyzer.DuplicateSampleMentions | v1/analyzer.py:223-226 | that selection names a status column and no `Paises.` column |
| Analyzer.DuplicatePaisesJoin | v1/analyzer.py:215-229 | as written, Mortalidad plus Paises with a status column joins Paises twice; the corrected rule joins it once |
| Analyzer.DuplicatePaisesJoinShown | v1/analyzer.py:185-229 | a validated selection makes the code as written join a table twice, while the corrected joins are distinct |
| Importer.FlattenChunks | whodata.py:100-121 | cutting the rows into batches of 1000 and a remainder loses no row and repeats none: the batches put back together are the rows, in order |
| Importer.ChunkSizes | whodata.py:109-121 | every batch holds between 1 and 1000 rows, and all but the last hold exactly 1000 |
| Importer.ChunksStep | whodata.py:109-114 | with at least 1000 rows left, the next batch is the next 1000 rows |
| Importer.ChunksAfterWhole | whodata.py:109-121 | rows that fill whole batches are batched independently of what follows them |
| Importer.ProcessRow | whodata.py:105 | exactly the empty cells become NULL; every other cell is kept |
| Importer.ProcessRowRoundTrip | whodata.py:105 | reading NULL back as the empty string recovers the CSV row |
| Importer.ProcessAll | whodata.py:103-105 | every data row is converted, one for one |
| Importer.PlaceholderMarks | whodata.py:95 | `', '.join(['%s'] * n)` holds exactly n placeholder marks |
| Importer.InsertPlaceholders | whodata.py:95-96 | the INSERT statement for a table name without `%` holds one placeholder per header column |
| Importer.Connection.constructor | whodata.py:53-59 | a fresh connection has nothing pending and no statement sent, over the rows already in the table |
| Importer.Connection.ExecuteMany | whodata.py:111 | a batch is accepted exactly when the placeholder count matches the table's columns and every row fills them; an accepted batch becomes pending, a refused one changes nothing |
| Importer.Connection.Commit | whodata.py:112 | commit makes the pending rows permanent |
| Importer.Connection.Rollback | whodata.py:129 | rollback discards the pending rows and keeps the committed ones |
| Importer.AcceptedPrefixSpec | whodata.py:103-129 | the batches that go through are exactly those before the first one the server refuses |
| Importer.AcceptedPrefixIs | whodata.py:103-129 | a prefix of fitting batches followed by a refused one (or the end) is the accepted prefix |
| Importer.ChunkMember | whodata.py:107 | every row of a batch is one of the file's rows |
| Importer.FitImportsAll | whodata.py:91-123 | when the header and every row have the table's width, the whole file is imported and every row is committed, in order |
| Importer.ImportedExactlyWhenFit | whodata.py:91-129 | a nonempty file is imported completely exactly when the header and every row have the table's width |
| Importer.FlattenAllFit | whodata.py:111-121 | every committed row of accepted batches has the table's width |
| Importer.SendBatch | whodata.py:111-113 | sending and committing a batch either commits it whole, exactly when it fits, or leaves everything as it was |
| Importer.Flush | whodata.py:109-114 | a full batch is sent and committed; on a refusal the rows committed so far are exactly the accepted batches before it |
| Importer.FlushLast | whodata.py:117-121 | the remaining partial batch is sent last; when it goes through every batch of the file has been committed |
| Importer.ImportRows | whodata.py:91-129 | importing a file commits exactly the batches before the first refused one, records those statements, and reports the outcome the import model defines |
| Importer.FullBatch | whodata.py:109-114 | a full batch cut from the accumulated rows is the next batch of the file |
| Importer.LastBatch | whodata.py:117-121 | the leftover rows form the file's last batch, or there are none |
| Importer.FailedAt | whodata.py:125-129 | a refused batch stops the import at that batch, and the rows committed are those of the batches before it |
| Importer.Basename | whodata.py:47 | the base name is the part of the path after its last `/` |
| Importer.PartNames | whodata.py:46-47 | each ICD-10 part found contributes its base name, in glob order |
| Importer.BuildFileMap | whodata.py:34-47 | the file map is built by the three fixed names followed by each new part name |
| Importer.AddKeysSpec | whodata.py:46-47 | adding keys to the map keeps the existing ones first, adds the new ones and repeats none |
| Importer.FileMapSpec | whodata.py:34-47 | the files imported are the three fixed ones, in order, then the part files found (upper case first, lower case only when none), each once |
| Importer.AllStep | whodata.py:75-129 | the rows and statements of the files so far grow by one file's share per file |
| Importer.ImportFile | whodata.py:77-129 | a missing file is skipped, a file with no header fails at once, and otherwise the file's accepted batches are committed |
| Importer.ImportAll | whodata.py:75-129 | the files are imported in map order, each with its own outcome, and the table ends up holding every file's committed rows in that order |
| IcdInserts.Escape | idc10mortality.py:31 | escaping never shortens the title |
| IcdInserts.EscapeIsReplace | idc10mortality.py:31 | the escape is `replace("'", "''")`: every single quote is doubled and nothing else changes |
| IcdInserts.EscapeRoundTrip | idc10mortality.py:31 | undoing the doubling recovers the original title |
| IcdInserts.EscapeIsLiteralBody | idc10mortality.py:31-37 | an escaped title has its quotes in pairs, so it cannot close the SQL string literal early |
| IcdInserts.LiteralBodyIsEscaped | idc10mortality.py:31 | every text whose quotes come in pairs is the escape of exactly one title |
| IcdInserts.FramedRoundTrip | idc10mortality.py:34-38 | a statement framed by any fixed head and tail can be read back into its quote-free code and its title |
| IcdInserts.InsertLineRoundTrip | idc10mortality.py:34-38 | each generated INSERT into `who_mortality_causes` (revision ICD-10, list `Detailed 2019`, table reference `Table 9 (Detailed)`) determines its code and its unescaped title |
| IcdInserts.InsertLineEnds | idc10mortality.py:37 | every statement ends with a newline |
| IcdInserts.RowStatement | idc10mortality.py:26-31 | a row fails exactly when it lacks the `sub-code` or `definition` column or its title is missing; a missing `sub-code` is reported first |
| IcdInserts.Generate | idc10mortality.py:23-42 | the loop writes one statement per row up to the first failing row, counts them, and reports that row's failure |
| IcdInserts.AfterFailure | idc10mortality.py:24-51 | rows after the first failure change nothing |
| IcdInserts.ScriptSucceeds | idc10mortality.py:24-44 | the run succeeds exactly when every row yields a statement, and then it writes one per row, in order |
| IcdInserts.ScriptStopsAtFirst | idc10mortality.py:24-49 | a failed run stops at the first failing row, having written exactly the statements of the rows before it |
| IcdInserts.Message | idc10mortality.py:46-47 | without the input file the run prints the file-not-found message |
| IcdInserts.Run | idc10mortality.py:17-51 | the output file exists exactly when the input does, holds the statements written before the run ended, and the printed message is the one for the run's outcome |
| Wsgi.SplitLines | v1/passenger_wsgi.py:61 | `splitlines()` yields lines free of line breaks, and none exactly for the empty text |
| Wsgi.SplitLinesJoin | v1/passenger_wsgi.py:61 | splitting break-free lines joined by newlines, the last one nonempty, gives the lines back |
| Wsgi.HeaderOf | v1/passenger_wsgi.py:62-64 | a header line yields a header exactly when it contains a colon |
| Wsgi.ParseHeaders | v1/passenger_wsgi.py:60-64 | the loop over the header lines collects exactly the stripped name and value of every line with a colon, in order |
| Wsgi.HeaderLines | v1/passenger_wsgi.py:59-64 | each header is printed as one `Name: value` line, in order |
| Wsgi.StripSpaced | v1/passenger_wsgi.py:64 | stripping removes the space printed after the colon and nothing of an already stripped value |
| Wsgi.HeaderLineRoundTrip | v1/passenger_wsgi.py:62-64 | a printed header whose name has no colon and whose parts are stripped and break-free reads back as itself |
| Wsgi.HeadersRoundTrip | v1/passenger_wsgi.py:59-64 | the headers a script prints one per line read back as the same headers, in order |
| Wsgi.HeadersOfLines | v1/passenger_wsgi.py:61-64 | the lines of printable headers parse back to those headers |
| Wsgi.HeadersOfSnoc | v1/passenger_wsgi.py:61-64 | one more line with a colon adds its header at the end |
| Wsgi.SplitOutput | v1/passenger_wsgi.py:58-68 | output without a blank line is sent whole as the body with the default headers |
| Wsgi.SplitOutputRoundTrip | v1/passenger_wsgi.py:55-68 | output made of printed headers, a blank line and a body is split back into exactly those headers and that body, whatever the body holds |
| Wsgi.SplitOutputAt | v1/passenger_wsgi.py:58-65 | the split happens at the first blank line, and the body is everything after it |
| Wsgi.HeaderLineNoBreak | v1/passenger_wsgi.py:61 | a printable header prints as one nonempty break-free line |
| Wsgi.SmoothJoin | v1/passenger_wsgi.py:59 | nonempty newline-free lines joined by newlines contain no blank line |
| Wsgi.FirstBlankLine | v1/passenger_wsgi.py:59 | the first `\n\n` of the output is the one right after the header part |
| Wsgi.Application | v1/passenger_wsgi.py:21-88 | a failed import answers 500 with the default headers and the import-failure page; a raising `main` answers 500 with the default headers and the main-failure page around the traceback as line 73 writes it (line breaks and spaces replaced, `<` not escaped); a `main` that prints answers 200 with the headers and body its output splits into |
| Wsgi.ApplicationRoundTrip | v1/passenger_wsgi.py:55-68 | a `main` that prints header lines, a blank line and a body is answered 200 with exactly those headers and that body |
| Wsgi.ApplicationShowsTraceback | v1/passenger_wsgi.py:70-80 | a raising `main` gets the main-failure page, whose traceback keeps every `<` of the raw traceback, plus one `<br>` per line break |
| Wsgi.ReplaceKeepsCount | v1/passenger_wsgi.py:73 | replacing one character by text free of another leaves that other character's count alone |
| Wsgi.ReplaceAddsCount | v1/passenger_wsgi.py:73 | replacing a character by text holding one `d` adds one `d` per replaced character |
| Wsgi.ReplaceRemoves | v1/passenger_wsgi.py:30 | replacing a character by text without it removes it entirely |
| Wsgi.ImportFailureEscaped | v1/passenger_wsgi.py:30 | the import-failure page shows the traceback with no raw `<` |
| Wsgi.TracebackKeepsTags | v1/passenger_wsgi.py:73 | as written, the page's traceback holds one `<` per raw `<` of the traceback plus one per line break, so the traceback's own `<` reach the page unescaped |
| Wsgi.AngleFrameShown | v1/passenger_wsgi.py:73 | a one-line traceback starting with a frame name like `<module>` puts a raw `<` into the page |
| Wsgi.ComprehensionFrameShown | v1/passenger_wsgi.py:73 | the frame name `<listcomp>` reaches the page as a raw tag |
| Wsgi.EscapedTracebackTags | v1/passenger_wsgi.py:73 | with `<` escaped first, as the import-failure page does, the only `<` left are the `<br>` of the line breaks |
| Wsgi.CgiVariables | v1/passenger_wsgi.py:41-44 | exactly the four CGI variables are set, each from the request when present and otherwise to its default (`GET`, empty, empty, `0`) |

## Left out

- Rendering: HTML and CSS output, Chart.js drawing, DOM updates and the `render_*` functions of the v1 files are presentation. The model stops at the lists, labels and totals they display.
- Browser storage: `localStorage` reads and writes are modelled only as the saved value (`Client.Selection.saved`). The JSON encoding of the list is not modelled.
- Database connections: `config.php`, `connect_to_db` in both v1 files, and PDO and pymysql cursors are left out. Tables are given sequences and queries are functions over them.
- The server's acceptance rule: `Importer.Connection.ExecuteMany` accepts a batch exactly when the placeholder count equals the table's width and every row fills it. This stands in for MySQL's own checks. Type errors and constraint violations are not modelled.
- regions.php: its code is not part of this model. `get_country_codes_for_region` is the parameter `Facts.Env.regions`. An empty region list yields `IN ()`, which the model treats as selecting no country.
- Numeric conversion: the `CAST(... AS DECIMAL(10,2))` of the internet value is the parameter `Facts.Env.toDecimal`, after the comma-to-point replacement, which is modelled. Averages and rates use exact `real` arithmetic. Rounding and float formatting in MySQL, PHP and JavaScript are not modelled.
- LIKE and collation: the country lookup `Nombre LIKE '%text%' LIMIT 1` (get_data.php:46-47, get_stats.php:42, export.php:45, get_causes_by_country.php:31) and the SQL comparisons of codes are modelled on exact characters.
  - Scope.FirstCountryMatch: a case-sensitive substring test. MySQL's case and accent folding is not modelled.
  - Scope.FirstCountryMatch: `%` and `_` typed into the search name are LIKE wildcards in the source; the model reads them as literal characters.
  - Scope.FirstCountryMatch: `LIMIT 1` has no `ORDER BY`, so the store may return any matching country; the model takes the first match in storage order.
  - CauseFilter.MatchesOne: `TRIM(M.List) = ?` (get_data.php:76) is compared under the column's collation, case-insensitive by default; the model uses exact equality after trimming.
  - Aggregation.Breakdown: `GROUP BY TRIM(M.List), TRIM(M.Cause)` merges groups whose codes differ only in case under that collation; the model groups by exact codes.
  - Catalogue.PairCounts: the same holds for the catalogue's `GROUP BY`.
  - Catalogue.PairLt: `ORDER BY list_code, cause_code` (get_causes.php:26-27) orders under the collation; the model orders by code points (`StrLt`).
- Unicode case mapping: `strtolower`, `lower()` and `toLowerCase()` are modelled on ASCII letters only. PHP `trim` and Python `strip` keep their own whitespace sets.
- Ties: when groups have equal totals, `ORDER BY … LIMIT 1` and `ROW_NUMBER()` may return either, depending on the store. `StatsEndpoint.TopOfYear`, `StatsEndpoint.TopByYearIsTop` and `StatsEndpoint.TopOverallOf` state maximality only, not which tied group wins. The breakdown order likewise promises sortedness and a permutation, not the order among equal rows.
- The base query of get_stats.php has no `ORDER BY`. The model takes the year series in ascending year order, so `max_deaths_year` and `min_deaths_year` are stated for that order.
- Viewer.FirstHintSpec: `build_sql_query` in who_data_viewer.py iterates a Python set, whose order is not defined. The model visits the used tables in insertion order and states only that a found hint is shared with some used table, and that none is found exactly when no used table has one.
- Viewer.QueryOf: the `except Exception` branch that returns `(None, str(e))` is not modelled. No step of the modelled builder raises.
- Analyzer.ParseForm: the `int(...)` parse of `limit` is an input. A form value is either a parsed integer or a failed parse that keeps the default of 1000.
- `cgi.FieldStorage` parsing, pandas `read_sql`/`to_html`, matplotlib and base64 encoding are library calls and are left out.
- Analyzer.UnqualifiedColumnRaises: the `ValueError` that unpacking raises for a column without a dot is modelled as the verdict `Raises`. What the caller then prints is not modelled.
- File plumbing:
  - `glob`, file opening and the CSV reader are left out; the files are given as a map from name to header and rows (`Importer.CsvFile`).
  - `fputcsv` quoting is left out; a line is a sequence of cells.
  - UTF-8 encoding and `output.encode` are left out.
- Catalogue.Listable: `LENGTH` is modelled as the UTF-8 size of the trimmed cause, which assumes the column is stored as UTF-8. A single-byte character set would count characters instead.
- Printing: `print`, progress output and stdout redirection are left out, except where the printed text is the result. The INSERT generator's final message and the captured CGI output in the WSGI wrapper (`Wsgi.MainRun.Printed`) are modelled.
- Startup of the WSGI wrapper: `imp.load_source` and restoring `sys.stdin` are left out. The outcome of the import is the input `Wsgi.Startup`, and the traceback text is an input.
- Programs stopped early: `exit` in the PHP endpoints and `SystemExit` are modelled as the response being final.
- HTTP headers: the headers set by `header()` in export.php, including the attachment name and the 400 status, are fields of the response datatype. The HTTP layer itself is not modelled.
- Client.ClientRate: `parseFloat` of the JSON numbers is not modelled. The rate is computed on exact integers and reals.

## Findings

| source | as written | input that shows it | evidently intended | confidence | as-written member | corrected member |
|---|---|---|---|---|---|---|
| v1/analyzer.py:226-229 | selecting `Estado_Desarrollo.` columns from Mortalidad adds `JOIN Paises` even when Paises is already a selected table, so Paises is joined twice | tables `Mortalidad`, `Paises`; column `Estado_Desarrollo.Descripcion` (it passes `validate_selections`), which yields `JOIN Paises … JOIN Paises … JOIN Estado_Desarrollo …` | add the Paises join only when Paises is not already selected, so that no table is joined twice | not executed | Analyzer.DuplicatePaisesJoinShown | Analyzer.JoinTargetsDistinct |
| v1/passenger_wsgi.py:73 | the traceback shown when `main()` fails has its line breaks and spaces replaced, but its `<` is not escaped, unlike the import-failure page at line 30 | a traceback naming the frame `<listcomp>` (or `<module>`), which reaches the page as a raw tag | escape `<` as `&lt;` before replacing the line breaks, so the only tags in the traceback are its `<br>` | not executed | Wsgi.ComprehensionFrameShown | Wsgi.EscapedTracebackTags |
