# Referral measures pipeline, modelled in Dafny

This project models the batch measure pipeline of the referrals dashboard, the
part that turns a referral extract and a Direct Secure Message (DSM) extract
into the month-keyed tables the dashboard reads.

- **Referrals.** The master table of referrals gets derived columns:
  - lagged reporting dates 5, 30 and 90 days after the sent date;
  - days until each milestone, with fallbacks to another date and then to the as-of date 2023-03-01;
  - the aged flag and the 0/1 date flags;
  - an age category in bands of 7d, 14d, 30d, 60d, 90d and >90d, or "(none)".
- **Process time.** For each of the twelve stored report months there is a month table.
  - The rows are `*ALL*` followed by the sorted clinics.
  - Urgent referrals are counted after 5 days, routine ones after 30 days, and all referrals after 90 days.
  - Each count is taken over the calendar month and over moving windows of 28, 91, 182 and 364 days.
  - The table then gets targets, twenty variances with ▲/▼/- direction glyphs, and four rubric categories.
  - A 90-day distribution by clinic, priority and age category sits beside it.
  - Getters return 0 for a clinic without a row.
- **CRM use.** Per month, the pipeline counts appointments linked and referrals seen in the CRM over 90 days. It also builds a distribution by status of aged referrals that are not accepted. A placeholder test table crosses every clinic with five milestones, and one row at a time gets its Result and Score.
- **DSM use.** Per month, the pipeline counts distinct patients with a DSM and distinct patients whose DSM carries a referral. A master table of messages gets a 90-day lag and a masked Referral Person ID column.
- **Pending status.** For referrals On Hold, Pending Reschedule, Pending Acceptance or Accepted, the pipeline sums aged flags by clinic and age category, and by clinic and hold reason or sub-status. Lookups default to 0.
- **Rounding.** `half_up_int` rounds half away from zero. The pipeline's percentages are `int(ratio*100 + 0.5)`, and scores use `round(x, 2)`.

How the source is represented:

- Dates are integer day numbers. A missing date (NaT) is `None`.
- Month keys are `year * 12 + month - 1`, and `Calendar.FirstDay` maps a key to its first day.
- pandas frames become sequences of row datatypes.
- A left merge followed by `fillna(0)` is a lookup with a zero default.
- The module-level dictionaries are `class` fields filled by the twelve-month loops (`ProcessTimeStore`, `CrmUseStore`, `DsmUseStore`).
- `PendingStore` holds the eight pending DataFrames as fields, each built once from the master table in its constructor.
- The in-place column steps are methods:
  - `MonthFrame` adds targets, variances and categories;
  - `SetCrmUsageScoreForClinic` does the in-place score update;
  - the `CreateMasterDataFrame` methods do the masked assignments;
  - `CalculateAgeCategory` applies the successive band overwrites.
- Floats are exact `real`s.

## Model

| member | source | states |
|---|---|---|
| Rounding.Trunc | app/common.py:55-58 | `int()` on a float truncates toward zero: the result is within one below a non-negative input and within one above a negative one |
| Rounding.HalfUpIntNonNegative | app/common.py:55-56 | for v >= 0, half_up_int(v) is floor(v + 0.5) |
| Rounding.HalfUpIntNegative | app/common.py:57-58 | for v < 0, half_up_int(v) is -floor(-v + 0.5) |
| Rounding.HalfUpIntOdd | app/common.py:49-58 | rounding is symmetric: half_up_int(-v) = -half_up_int(v) |
| Rounding.HalfUpIntError | app/common.py:49-58 | the rounded value is within 0.5 of the input |
| Rounding.HalfUpIntOfInteger | app/common.py:49-58 | an integer input is returned unchanged |
| Rounding.HalfUpIntMonotone | app/common.py:49-58 | half_up_int is monotone non-decreasing |
| Rounding.PercentOf | model/ProcessTime.py:338-342 | int(ratio*100 + 0.5) equals half_up_int(ratio*100) for a non-negative ratio and lies in 0..100 for a ratio in [0, 1] |
| Rounding.RoundHalfEven | model/CRMUse.py:91 | Python's round() lands within one half of the value and picks the even neighbour on a tie |
| Rounding.Round2 | model/CRMUse.py:91 | round(x, 2) is within 0.005 of x |
| Rounding.Round2Between | model/CRMUse.py:89-91 | round(x, 2) of a value between 0 and an integer bound stays between them |
| Calendar.MonthLength | model/ProcessTime.py:778 | a month key's next month starts 28 to 31 days after it, so the moving windows reach back from a real month end |
| Calendar.AsOfDateValue | model/Referrals.py:15 | the as-of date 2023-03-01 is day 19417 of the day numbering |
| Referrals.AsOfIsFirstOfMarch2023 | model/Referrals.py:15 | the as-of constant used by the derived columns is the first day of March 2023 |
| Referrals.Add | model/Referrals.py:63-65 | adding days to a date keeps NaT as NaT and otherwise shifts by exactly that many days |
| Referrals.Diff | model/Referrals.py:70-107 | a date difference is present exactly when both dates are, and adds back to the later date |
| Referrals.Coalesce | model/Referrals.py:70-72 | the fillna of one date column from another keeps the first when present and takes the second otherwise |
| Referrals.CreateMasterDataFrame | model/Referrals.py:62-157 | the column-by-column masked assignments give one row per referral, each equal to the declarative derivation `Derive` |
| Referrals.LaggedDates | model/Referrals.py:63-65 | each reporting date is the sent date plus 5, 30 or 90 days, and is missing when the sent date is missing |
| Referrals.DaysUntilSeenFallback | model/Referrals.py:70-77 | days until seen is seen date, else check-in date, else as-of date, minus sent date |
| Referrals.DaysUntilScheduledFallback | model/Referrals.py:87-101 | days until scheduled is the linked appointment, else a similar appointment, else the as-of date, minus sent date; days until completed falls back to the as-of date |
| Referrals.UnsentHasNoDays | model/Referrals.py:70-115 | a referral without a sent date has no day counts and is neither aged nor sent |
| Referrals.WaitingDays | model/Referrals.py:104-107 | days on hold and days pending reschedule are the as-of date minus the held or pending date, present exactly when that date is |
| Referrals.FlagsMatchDates | model/Referrals.py:118-154 | each Yn flag is 1 exactly when its date is present (sent, seen or checked in, similar appointment, linked appointment, accepted, completed, seen) |
| Referrals.AgedMeaning | model/Referrals.py:111-115 | aged holds iff the referral was sent, is not Rejected or Cancelled, and is not Closed or Completed unless it has a seen or check-in date |
| Referrals.AgedHasDays | model/Referrals.py:111-115 | an aged referral has a day count to every milestone |
| Referrals.AcceptedAsWrittenAgreement | model/Referrals.py:75-84 | the accepted-days column as written agrees with the intended one exactly when the acceptance date or both seen and check-in dates are missing |
| Referrals.AcceptedAsWrittenCounterexample | model/Referrals.py:80-81 | a referral sent on day 0, accepted on day 3 and seen on day 10 gets NaN as written, but 3 as intended |
| Referrals.DaysUntilAcceptedCorrected | model/Referrals.py:80-84 | corrected days until accepted is the acceptance date, else the as-of date, minus the sent date |
| Referrals.AsAge | model/Referrals.py:176-188 | a day count read as the float column keeps its value and its missingness |
| Referrals.OverrideBand | model/Referrals.py:176-188 | one masked overwrite sets the category of exactly the rows whose age lies in (lo, hi] and leaves the others |
| Referrals.CalculateAgeCategory | model/Referrals.py:161-189 | the successive overwrites leave every row with the category of its age band |
| Referrals.AgeCategoryTotal | model/Referrals.py:173-188 | 7d iff age <= 7, 14d iff 7 < age <= 14, ..., >90d iff age > 90, and (none) iff the age is missing |
| Referrals.AgeCategoryMonotone | model/Referrals.py:176-188 | an older referral never lands in a younger category |
| Stats.Sort | model/ProcessTime.py:531-536 | sorting gives an ascending permutation |
| Stats.MedianOf | model/ProcessTime.py:531-536 | the median is missing for no values and otherwise lies between two of the values |
| Stats.MedianOrderIndependent | model/ProcessTime.py:531-536 | the median depends only on the multiset of values, not their order |
| Stats.MedianSingleton | model/ProcessTime.py:531-536 | the median of one value is that value |
| Stats.MedianRank | model/ProcessTime.py:531-536 | the median of a non-empty column has at most half of the values strictly below it and at most half strictly above it, and for an odd count it is one of the values |
| Stats.SortedEqual | model/ProcessTime.py:531-536 | two ascending permutations of the same values are equal |
| Strings.SortedUnique | model/ProcessTime.py:786-788 | np.sort(unique()) gives a strictly ascending list of exactly the names that occur |
| Strings.StrictlySortedDistinct | model/ProcessTime.py:786-788 | a strictly ascending list has no repeated name |
| Strings.ReplaceAllAbsent | model/PendingTime.py:98-102 | str.replace leaves a value without the pattern unchanged |
| Strings.ReplaceAllWhole | model/PendingTime.py:98-102 | str.replace turns the pattern itself into the replacement |
| ProcessWindows.Select | model/ProcessTime.py:191-194 | a referral is in the window's source frame iff its clinic is listed and start <= lagged date < end |
| ProcessWindows.OfPriority | model/ProcessTime.py:199 | the priority filter keeps exactly the referrals of that priority |
| ProcessWindows.OfClinic | model/ProcessTime.py:200 | a clinic's group holds exactly that clinic's referrals |
| ProcessWindows.CountIds | model/ProcessTime.py:201 | a "count" of Referral ID never exceeds the number of referrals |
| ProcessWindows.RoundedPct | model/ProcessTime.py:338-342 | the rounded percentage is 0 when nothing aged, 100 when all aged referrals met the criterion, half_up_int of the ratio times 100 otherwise, and always in 0..100 |
| ProcessWindows.RawPct | model/ProcessTime.py:757-761 | the unrounded routine percentage is NaN exactly when nothing aged and otherwise lies in 0..100 |
| ProcessWindows.AgedDays | model/ProcessTime.py:531-536 | the medians read one day count per aged referral |
| ProcessWindows.CountMonotone | model/ProcessTime.py:408-488 | a criterion implied by another counts at least as many referrals |
| ProcessWindows.CountAgedBelowSum | model/ProcessTime.py:198-201 | counting aged IDs never exceeds summing the aged flag, and equals it when no ID is missing |
| ProcessWindows.SeenWithinBelowAged | model/ProcessTime.py:325-342 | the seen-within count never exceeds the aged sum, so the percentage is at most 100 |
| ProcessWindows.ScheduledSplitsAged | model/ProcessTime.py:459-491 | scheduled after 90d plus not scheduled after 90d equals the aged count |
| ProcessWindows.OutcomesExclusive | model/ProcessTime.py:414-446 | rejected, cancelled, closed without being seen and aged are mutually exclusive for a derived referral |
| ProcessWindows.OutcomeCountsBelowSent | model/ProcessTime.py:403-446 | the four outcome counts together never exceed the referrals counted |
| ProcessWindows.MeasuresAfter90DaysAt | model/ProcessTime.py:400-543 | a per-clinic row of the 90-day aggregation is computed from exactly that clinic's window referrals |
| ProcessWindows.PriorityMeasuresAt | model/ProcessTime.py:189-300 | a per-clinic row of the 5-day or 30-day aggregation is computed from that clinic's window referrals of the priority |
| ProcessWindows.AllGroupPartition | model/ProcessTime.py:449-521 | within one clinic, scheduled + not scheduled = aged, waiting <= scheduled, seen <= aged, completed and seen <= completed |
| ProcessWindows.PriorityGroupPartition | model/ProcessTime.py:225-300 | the same partition for the urgent and routine counts, and seen within N days <= aged |
| ProcessWindows.ClinicScheduledPartition | model/ProcessTime.py:400-543 | every clinic row of the 90-day aggregation satisfies the scheduled/not-scheduled partition when no ID is missing |
| ProcessWindows.PriorityScheduledPartition | model/ProcessTime.py:189-300 | every clinic row of the 5-day and 30-day aggregations satisfies the partition when no ID is missing |
| ProcessWindows.PercentagesBounded | model/ProcessTime.py:336-342 | Pct Urgent Seen in 5d is present, in 0..100, and 0 when nothing aged |
| ProcessWindows.Percentages90Bounded | model/ProcessTime.py:576-590 | Pct Seen and Pct Scheduled After 90d are in 0..100 and 0 when nothing aged |
| ProcessWindows.Percentages30Bounded | model/ProcessTime.py:757-761 | Pct Routine Seen in 30d is NaN exactly when nothing aged and otherwise in 0..100 |
| ProcessWindows.AggregationKeys | model/ProcessTime.py:545-574 | the 90-day table has a `*ALL*` row iff the clinic list names it, and a clinic row iff a referral of that clinic is in the window |
| ProcessWindows.SumPerClinicTotal | model/ProcessTime.py:307-334 | summing a count over the groups of a duplicate-free clinic list that covers every referral gives the count over the whole window |
| ProcessWindows.OverallIsClinicSum | model/ProcessTime.py:307-334 | the `*ALL*` row's Aged and Seen-in-Nd counts, computed over the whole window, equal the sums of the per-clinic rows (when no ID is missing) |
| ProcessWindows.RowSumIsGroupSum | model/ProcessTime.py:307-334 | summing a column over the clinic rows, a missing row counting 0, is summing the counts of the clinic groups |
| ProcessWindows.DistributionGroups | model/ProcessTime.py:363-377 | the 90-day distribution has a (clinic, priority, age category to seen) row exactly when a referral of a listed clinic reached 90 days in the window in that group; the row, and any lookup, is that group's aged count (0 for an absent group) |
| ProcessWindows.DistributionTotal | model/ProcessTime.py:363-377 | for each clinic and priority, the counts over the seven age categories add up to the aged referrals of that clinic and priority in the window |
| ProcessFrame.WindowsNest | model/ProcessTime.py:778-782 | the 364-, 182-, 91- and 28-day windows nest and all end where the next month starts; the calendar month starts inside the 91-day window, and the 28-day window starts at most 3 days after the month does |
| ProcessFrame.UpOrDown | model/ProcessTime.py:996-1009 | the glyph is ▼ iff x < 0, ▲ iff x > 0, and - iff x = 0 |
| ProcessFrame.ApplyVarianceKeeps | model/ProcessTime.py:1024-1028 | adding a variance leaves every other numeric column unchanged |
| ProcessFrame.ApplyVariances | model/ProcessTime.py:1024-1028 | adding variances changes only the variance and direction columns |
| ProcessFrame.ApplyVariancesNext | model/ProcessTime.py:1024-1028 | applying one more definition applies it to the row built so far, and it reads the original values |
| ProcessFrame.ApplyVariancesLast | model/ProcessTime.py:1024-1028 | the last definition sets its variance and glyph from the original row's value and standard |
| ProcessFrame.VarianceMeaning | model/ProcessTime.py:1012-1031 | with distinct names, every variance column is value - standard and its Dir column is that difference's glyph |
| ProcessFrame.VarianceKeys | model/ProcessTime.py:1024-1028 | exactly the defined variance and direction columns are added |
| ProcessFrame.DependentVariancesDistinct | model/ProcessTime.py:36-116 | the twenty variance definitions name twenty different columns |
| ProcessFrame.ScoreOf | model/ProcessTime.py:1056-1066 | the score is 1, 10 and 100 for a near-, mid- and long-term variance >= 0 (zero counts), so it is one of the eight sums 0..111 and each digit says which variance was non-negative |
| ProcessFrame.ApplyCategories | model/ProcessTime.py:1062-1067 | tagging categories changes only the category columns |
| ProcessFrame.RubricsTotal | model/ProcessTime.py:118-166 | every rubric names all eight possible scores |
| ProcessFrame.CategoryAlwaysNamed | model/ProcessTime.py:1062-1067 | with a total rubric, every clinic gets the rubric's name for its score, never NaN |
| ProcessFrame.ConsistentPerformer | model/ProcessTime.py:118-129 | a clinic is a Consistent Performer iff its 91-, 182- and 364-day routine variances against target are all >= 0 |
| ProcessFrame.MonthFrame.constructor | model/ProcessTime.py:1081-1082 | the frame holds the merged month table |
| ProcessFrame.MonthFrame.AddTargets | model/ProcessTime.py:1035-1044 | every row gets both targets, 50.0, and nothing else changes |
| ProcessFrame.MonthFrame.CalculateDependentVariances | model/ProcessTime.py:1012-1031 | after the loop each row is the original with all variances applied in order |
| ProcessFrame.MonthFrame.CalculateVarianceCategories | model/ProcessTime.py:1047-1069 | after the loop each row is the original with every category tagged |
| ProcessTime.ClinicList | model/ProcessTime.py:786-788 | the month table's clinics are `*ALL*` followed by a strictly ascending list of exactly the clinics that occur |
| ProcessTime.FillPriority | model/ProcessTime.py:859-876 | a clinic without an urgent or routine row reads as zeros, and a NaN percentage becomes 0 |
| ProcessTime.FillAll | model/ProcessTime.py:869-876 | a clinic without a 90-day row reads as zeros |
| ProcessTime.BuildRow | model/ProcessTime.py:790-882 | a clinic's merged row has every window of every aggregation, with its percentages filled |
| ProcessTime.ProcessMeasuresForMonth | model/ProcessTime.py:767-884 | the merged month table has one complete row per listed clinic, in list order |
| ProcessTime.MonthRowAt | model/ProcessTime.py:859-876 | row i of the month table is the merged, zero-filled row of the i-th listed clinic |
| ProcessTime.TargetsMakeVariancesApplicable | model/ProcessTime.py:1083-1084 | once targets are added, every variance definition reads two numeric columns |
| ProcessTime.CategoriesScorable | model/ProcessTime.py:1084-1085 | once the variances are added, every category's three variances exist |
| ProcessTime.FinalRows | model/ProcessTime.py:1083-1085 | each final row is its merged row with targets, variances and categories added |
| ProcessTime.FinishRows | model/ProcessTime.py:1083-1085 | the three in-place steps on the month frame produce exactly the final rows |
| ProcessTime.CalculateMonth | model/ProcessTime.py:1081-1085 | one month's computation yields the month table |
| ProcessTime.MonthTable | model/ProcessTime.py:1081-1085 | a month table has one row per listed clinic |
| ProcessTime.TablesBetweenKeys | model/ProcessTime.py:1074-1077 | the stored months are exactly first .. first + 11 |
| ProcessTime.FirstIndex | model/ProcessTime.py:909-914 | the selected row is the first one of the clinic, and there is none iff no row has the clinic |
| ProcessTime.ProcessTimeStore.constructor | model/ProcessTime.py:1073-1098 | the store holds the tables and distributions of the twelve months from the as-of month - 12, and last_month is the as-of month - 1 |
| ProcessTime.ProcessTimeStore.CalculateProcessTimeMeasures | model/ProcessTime.py:1073-1090 | the loop adds exactly the twelve months' tables and distributions |
| ProcessTime.ProcessTimeStore.StoreMonth | model/ProcessTime.py:1088-1089 | one month's table and distribution are stored under its key and nothing else changes |
| ProcessTime.ProcessTimeStore.GetClinicMeasure | model/ProcessTime.py:906-914 | the measure of the clinic's first row, or 0 when the clinic has no row |
| ProcessTime.ProcessTimeStore.GetOverallMeasure | model/ProcessTime.py:888-891 | the overall measure is the cell of the table's leading `*ALL*` row, and 0 when the table has no `*ALL*` row |
| ProcessTime.ProcessTimeStore.GetClinicRateMeasure | model/ProcessTime.py:917-935 | reads the month offset months later; 0.0 for a clinic without a row; nothing for a non-numeric column |
| ProcessTime.ProcessTimeStore.GetOverallRateMeasure | model/ProcessTime.py:894-897 | the overall rate is the numeric cell of the leading `*ALL*` row; nothing for a column that is not numeric |
| ProcessTime.ProcessTimeStore.GetClinicCountMeasure | model/ProcessTime.py:938-956 | the rate lookup converted with int(), present exactly when that is |
| ProcessTime.ProcessTimeStore.GetOverallCountMeasure | model/ProcessTime.py:900-903 | the overall count is that cell of the `*ALL*` row truncated by int(); nothing for a column that is not numeric |
| ProcessTime.ProcessTimeStore.GetClinics | model/ProcessTime.py:959-967 | the clinic names of the month once each, without `*ALL*` |
| ProcessTime.ProcessTimeStore.GetClinicDistributionCount | model/ProcessTime.py:970-992 | 0 when no (clinic, priority, category) row exists |
| ProcessTime.DistributionsBetweenAt | model/ProcessTime.py:1073-1090 | the store's distribution of each of the twelve months is that month's 90-day distribution (ProcessTime.py:855-856) |
| ProcessTime.StoredDistributionCounts | model/ProcessTime.py:970-992 | in a store filled from the referrals, get_clinic_distribution_count is the aged count of the (clinic, priority, category) group among the month's 90-day referrals, and a clinic and priority's seven age counts add up to its aged referrals |
| ProcessTime.UniqueExcept | model/ProcessTime.py:966 | unique() without the skipped name gives each other name once |
| ProcessTime.MonthTableClinics | model/ProcessTime.py:786-788 | a stored table's clinic column is `*ALL*` followed by the sorted distinct clinics |
| ProcessTime.MonthTableStartsWithAll | model/ProcessTime.py:786-788 | every month table starts with the `*ALL*` row, so the overall getters read the all-clinic measures |
| ProcessTime.StoredClinics | model/ProcessTime.py:959-967 | get_clinics returns the sorted distinct clinics of the referrals |
| Distributions.Entries | model/PendingTime.py:50-59 | the grouping reads each referral's clinic, group value and aged flag |
| Distributions.AgedSumConcat | model/PendingTime.py:50-53 | the aged sum of two parts is the sum of their aged sums |
| Distributions.OfGroup | model/PendingTime.py:50-53 | a (clinic, category) group holds exactly the entries with that clinic and that non-missing value |
| Distributions.Categories | model/PendingTime.py:50-53 | a clinic's categories are strictly ascending and are exactly its non-missing group values |
| Distributions.Blocks | model/PendingTime.py:50-53 | the grouped rows are exactly the listed clinics' categories, each with its group's aged sum |
| Distributions.GroupTableRows | model/PendingTime.py:50-59 | a row is in the grouped table iff its group is non-empty and the row holds the group's aged sum |
| Distributions.FirstGroupRow | model/PendingTime.py:109-115 | the first matching row is returned, and none iff no row matches |
| Distributions.LookupIsGroupSum | model/PendingTime.py:106-115 | a lookup returns the group's aged sum, and the zero default is the empty group's sum |
| Distributions.EntriesGroupMeaning | model/PendingTime.py:50-59 | a group is non-empty iff some referral has that clinic and group value |
| Distributions.NoEntriesInGroup | model/PendingTime.py:106-115 | a group no referral falls into is empty |
| Distributions.ClinicRowsOfTable | model/PendingTime.py:98-102 | a clinic's rows are its categories in ascending order, each with its group's sum |
| Distributions.CategoryListOfTable | model/Pending.py:54-59 | a clinic's value list is strictly ascending and names exactly its non-empty groups |
| Distributions.BlockTotal | model/PendingTime.py:50-59 | over distinct categories covering a clinic's groups, the rows add up to the clinic's aged sum |
| Distributions.ClinicRowsTotal | model/PendingTime.py:56-59 | a clinic's rows add up to the aged sum of its referrals that have a group value |
| Distributions.AgeEntriesTotal | model/PendingTime.py:47-53 | grouped by age category every referral has a group, so a clinic's age rows cover all its aged referrals |
| Distributions.KeyedBelowAged | model/PendingTime.py:50-59 | a clinic's grouped rows never count more than its aged referrals, and count all of them when every referral has a group value |
| PendingTime.OfStatus | model/PendingTime.py:44 | the status filter keeps exactly the referrals in that status |
| PendingTime.AgeColumn | model/PendingTime.py:47 | the age categories are computed from the status's day count (Days On Hold, Days Pending Reschedule, Days until Referral Accepted, Days until Patient Seen or Check In) |
| PendingTime.CalculateStatusMeasures | model/PendingTime.py:34-62 | the filtered copy with its age category column yields the age and reason distributions of the status |
| PendingTime.Relabel | model/PendingTime.py:98-102 | the display shortening changes only the value column |
| PendingTime.PendingStore.constructor | model/PendingTime.py:286-292 | the store holds the eight distributions of the referrals |
| PendingTime.PendingStore.GetAgeByCategory | model/PendingTime.py:106-115 | the count of the first (clinic, age category) row of the status's age table, 0 when there is none |
| PendingTime.PendingStore.GetCountsByReasonRaw | model/Pending.py:45-51 | exactly the clinic's rows of the status's reason table |
| PendingTime.PendingStore.GetCountsByReason | model/PendingTime.py:98-102 | one displayed row per clinic row, keeping the clinic and the count, with the category relabelled by replacing every occurrence of the status's pattern; the counts add up to the same total |
| PendingTime.PendingStore.GetReasonList | model/Pending.py:54-59 | the reason column of the clinic's rows, entry for entry |
| PendingTime.PendingStore.GetCountsByCategory | model/PendingTime.py:65-79 | the named count function's rows; an unknown name raises |
| PendingTime.PendingStore.GetCountByAgeCategory | model/PendingTime.py:82-95 | the named age lookup's count; an unknown name raises |
| PendingTime.StoredTables | model/PendingTime.py:286-292 | the store's tables are the distributions of its referrals |
| PendingTime.StoreGetters | model/PendingTime.py:98-115 | for a store built from some referrals: the age getter is the aged sum of that clinic's referrals in the status and age category (0 for none), the seven age counts add up to its aged referrals in the status, the reason list is its distinct reasons ascending, and the displayed reason rows add up to its aged referrals that have a reason |
| PendingTime.AgeByCategoryMeaning | model/PendingTime.py:106-115 | an age lookup is the aged sum of the status's referrals of that clinic and age category, and 0 when there are none |
| PendingTime.AgeCountsTotal | model/PendingTime.py:44-53 | a clinic's seven age counts add up to its aged referrals in that status |
| PendingTime.ReasonCountsTotal | model/PendingTime.py:56-59 | a clinic's reason rows add up to its aged referrals in that status that have a reason |
| PendingTime.ReasonsWithinAges | model/PendingTime.py:50-59 | the reason and age tables count the same referrals: reasons never exceed the age total, and equal it when no reason is missing |
| PendingTime.ReasonListMeaning | model/Pending.py:54-59 | the reason list is strictly ascending and names exactly the reasons of the clinic's referrals in that status |
| PendingTime.ReasonGroupMeaning | model/PendingTime.py:56-59 | a reason group is non-empty iff a referral of the status has that reason |
| PendingTime.DisplayedReasons | model/PendingTime.py:98-102 | the displayed rows keep clinic, count, position and total; only the value is shortened |
| PendingTime.RelabelTotal | model/PendingTime.py:98-102 | shortening the value column keeps the total of the counts |
| PendingTime.DisplayShortening | model/PendingTime.py:98-102 | a value without the long name is shown unchanged, and the long name is shown shortened |
| CrmUse.Placeholders | model/CRMUse.py:43-55 | the cross join has 5 rows per clinic: row k is clinic k / 5 with test k % 5, unscored |
| CrmUse.MilestonesDistinct | model/CRMUse.py:43 | the five milestones have different names |
| CrmUse.FirstTest | model/CRMUse.py:86-87 | min(index) selects the first (milestone, clinic) row, and there is none iff no row matches |
| CrmUse.PlaceholderFound | model/CRMUse.py:114-123 | the placeholder table has a row for a (milestone, clinic) iff the clinic is listed and the milestone is one of the five, and that row is the unscored test |
| CrmUse.PlaceholderClinicRows | model/CRMUse.py:184-188 | a listed clinic's test results are its five unscored tests in template order |
| CrmUse.Score | model/CRMUse.py:88-91 | the score is within 0.005 of points * ratio, and between 0 and the points for a ratio in [0, 1] |
| CrmUse.ScoreTable | model/CRMUse.py:85-91 | scoring fails iff no row matches, and keeps every key column |
| CrmUse.ScoreTableChanges | model/CRMUse.py:85-91 | only the first matching row changes: its Result becomes int(ratio*100 + 0.5) and its Score lies within 0.005 of points * ratio |
| CrmUse.ScoreIdempotent | model/CRMUse.py:85-91 | scoring the same test twice with the same ratio gives the table of scoring it once |
| CrmUse.ScoresCommute | model/CRMUse.py:85-91 | scores of two different tests can be written in either order |
| CrmUse.MonthView | model/CRMUse.py:110-111 | a referral is in the month view iff its 90-day lagged date lies in [month start, next month start) |
| CrmUse.CountsByClinic | model/CRMUse.py:126-140 | the groupby count has an entry exactly for the clinics with a matching referral |
| CrmUse.FillCount | model/CRMUse.py:134-146 | after the left merge and fillna, a clinic's count is the count of its matching referrals, 0 for none |
| CrmUse.MonthMeasures | model/CRMUse.py:107-148 | the month table lists `*ALL*` and the sorted clinics, each with its aged linked and aged seen-in-CRM counts |
| CrmUse.CountsWithinAged | model/CRMUse.py:126-146 | both counts stay within the clinic's aged referrals of the month |
| CrmUse.AllRowZero | model/CRMUse.py:114-146 | the `*ALL*` row gets no aggregate, so its counts are 0 |
| CrmUse.OverallIsZero | model/CRMUse.py:204 | overall_measures of a month is the single zero `*ALL*` row |
| CrmUse.ClinicMeasuresRows | model/CRMUse.py:205 | clinic_measures has no `*ALL*` row and has a counted row for every clinic of the referrals |
| CrmUse.NotAccepted | model/CRMUse.py:118-119 | the distribution's source keeps exactly the aged, not accepted referrals of the view |
| CrmUse.NotAcceptedGroup | model/CRMUse.py:118-120 | a (clinic, status) group exists iff an aged, not accepted referral of the view has them |
| CrmUse.NotAcceptedCount | model/CRMUse.py:66-70 | every referral of the distribution is aged, so a group's sum is its number of referrals |
| CrmUse.DistributionRows | model/CRMUse.py:118-120 | a clinic's distribution rows are its statuses among aged, not accepted referrals, each with their number; `*ALL*` has none |
| CrmUse.StatusListSorted | model/CRMUse.py:165-169 | the status list is strictly ascending and names exactly the clinic's statuses among aged, not accepted referrals |
| CrmUse.StoredMonths | model/CRMUse.py:195-208 | the four dictionaries hold exactly the twelve stored months, each with that month's tables |
| CrmUse.FirstCrmRow | model/CRMUse.py:178-181 | the first row of the clinic, and none iff the clinic has no row |
| CrmUse.CrmUseStore.constructor | model/CRMUse.py:195-208 | the store holds the four tables of the twelve months from the as-of month - 12 |
| CrmUse.CrmUseStore.CalculateCrmMeasures | model/CRMUse.py:199-208 | the loop adds exactly the twelve months' tables |
| CrmUse.CrmUseStore.StoreMonth | model/CRMUse.py:202-208 | one month's `*ALL*` rows, clinic rows, distribution without `*ALL*`, and tests are stored under its key |
| CrmUse.CrmUseStore.SetCrmUsageScoreForClinic | model/CRMUse.py:76-91 | with a matching row, the month's table becomes the scored table; with no month or no match, nothing changes and the call fails |
| CrmUse.CrmUseStore.GetCountsByNotAcceptedReferralStatus | model/CRMUse.py:152-162 | exactly the clinic's distribution rows |
| CrmUse.CrmUseStore.GetNotAcceptedReferralStatusList | model/CRMUse.py:165-169 | the Referral Status column of the clinic's distribution rows, entry for entry |
| CrmUse.CrmUseStore.GetClinicCountMeasure | model/CRMUse.py:172-181 | no value for a non-numeric measure, 0 for a clinic without a row, the row's count otherwise |
| CrmUse.CrmUseStore.GetCrmUsageTestResults | model/CRMUse.py:184-188 | exactly the clinic's test rows |
| CrmUse.ClinicCountMeaning | model/CRMUse.py:172-181 | a clinic's stored count is its number of aged linked (or seen-in-CRM) referrals in the month; `*ALL*` has no row |
| CrmUse.ClinicListDistinct | model/CRMUse.py:114-115 | the clinic list repeats no name |
| CrmUse.TestsReady | model/CRMUse.py:122-123 | after the cross join, every listed clinic has each of the five tests, so a score can be set for any of them, and before any score its results are its five unscored tests |
| DsmUse.Derive | model/source/DSMs.py:53-58 | the lagged date is the message date plus 90, and Referral Person ID is Person ID exactly when a Referral ID is present, missing otherwise |
| DsmUse.CreateMasterDataFrame | model/source/DSMs.py:44-61 | one row per loaded message, original columns unchanged, lag and masked Referral Person ID set as `Derive` states |
| DsmUse.Filter | model/DSMUse.py:45-46 | a filter keeps exactly the messages that satisfy it |
| DsmUse.MonthViewMeaning | model/DSMUse.py:42-46 | a master-table message is in the month view iff its date lies in [month start - 90, next month start - 90) |
| DsmUse.Ids | model/DSMUse.py:53-56 | the distinct values are exactly the non-missing column values of the clinic's messages |
| DsmUse.MessagesOf | model/DSMUse.py:53-56 | a clinic's group holds exactly its messages |
| DsmUse.UniqueWithinMessages | model/DSMUse.py:53-56 | nunique never exceeds the clinic's number of messages |
| DsmUse.ReferralPatientsWithin | model/DSMUse.py:62-65 | the distinct Referral Person IDs are among the distinct Person IDs, so their count never exceeds the patient count |
| DsmUse.ReferralPatientsAll | model/DSMUse.py:53-65 | when every message of the clinic carries a Referral ID, the two counts are equal |
| DsmUse.Grouped | model/DSMUse.py:53-65 | the groupby nunique has an entry for each clinic with a row, holding its distinct count |
| DsmUse.FillUnique | model/DSMUse.py:59-71 | after the left merge and fillna, a clinic's count is its distinct count, 0 for none |
| DsmUse.WithReferralPersonIds | model/DSMUse.py:62 | dropping rows without a Referral Person ID does not change that column's distinct values |
| DsmUse.ClinicList | model/DSMUse.py:49-50 | the clinics are `*ALL*` followed by a strictly ascending list of exactly the message clinics |
| DsmUse.MonthMeasures | model/DSMUse.py:34-73 | the month table lists `*ALL*` and the sorted clinics, each with its two distinct-patient counts |
| DsmUse.AllRowZero | model/DSMUse.py:49-71 | the `*ALL*` row gets no aggregate, so its counts are 0 |
| DsmUse.OverallIsZero | model/DSMUse.py:101 | overall_measures of a month is the single zero `*ALL*` row |
| DsmUse.ClinicMeasuresRows | model/DSMUse.py:102 | clinic_measures has no `*ALL*` row and has a counted row for every clinic of the messages |
| DsmUse.StoredMonths | model/DSMUse.py:96-102 | the two dictionaries hold exactly the twelve stored months, each with that month's tables |
| DsmUse.FirstDsmRow | model/DSMUse.py:88-92 | the first row of the clinic, and none iff the clinic has no row |
| DsmUse.DsmUseStore.constructor | model/DSMUse.py:96-111 | the store holds the two tables of the twelve months from the as-of month - 12 |
| DsmUse.DsmUseStore.CalculateDsmMeasures | model/DSMUse.py:96-102 | the loop adds exactly the twelve months' tables |
| DsmUse.DsmUseStore.StoreMonth | model/DSMUse.py:100-102 | one month's `*ALL*` rows and clinic rows are stored under its key |
| DsmUse.DsmUseStore.GetClinicCountMeasure | model/DSMUse.py:77-92 | no value for a non-numeric measure, 0 for a clinic without a row, the row's count otherwise |
| DsmUse.ClinicCountMeaning | model/DSMs.py:111-118 | a clinic's stored count is its number of distinct patients (or distinct referral patients) in the month; `*ALL*` has no row |
| DsmUse.StoredCountsOrdered | model/DSMUse.py:53-71 | in every stored month a clinic's DSM-and-CRM patient count never exceeds its DSM patient count |

## Left out

- Reading the CSV extracts. The model takes the loaded records as input.
- The Bokeh applications, plots and widgets, the server wiring, and the presentation helpers of `app/common.py` other than `half_up_int`.
- Floating point. Ratios, medians and scores are exact reals, so IEEE rounding of `x*100 + 0.5` near a tie is not modelled.
- Print logging and concurrency. The model is sequential.
- The twelve-month loops: the store loops run from the oldest month to the newest.
  - The CRM and DSM loops in the source run from `last_month` backwards.
  - Both orders fill the same twelve keys with independent values, so the stored maps are equal.
- Calendar arithmetic uses day numbers and month keys (`Calendar`) in place of `datetime`/`relativedelta`.
- Referral and message records are assumed never to carry the placeholder clinic name `*ALL*`. The lemmas that need this say so.
- DSM Clinic values are never missing.
- A referral's Clinic, Priority and Status are never missing: they are plain strings here, although the extract reads them as nullable columns.
  - With a missing Clinic, the source raises when it sorts the clinic list (`np.sort` of `unique()` in the process-time, CRM and DSM month computations). The model has no such referral.
  - With a missing Status, a sent referral counts as aged and not accepted, but the status `groupby` of the not-accepted distribution drops it. The model does not capture this.
- Day counts are whole days. The source divides timestamp differences by one day, which gives fractional days when a timestamp carries a time of day. The model's dates are whole day numbers, so the age bands and medians are not modelled for fractional ages.
- A missing month in a store dictionary raises KeyError in the source. The getters here require the month to be stored.
- ProcessTime.ProcessTimeStore.GetClinicRateMeasure: a column counts as numeric when the month's first row holds a number in it. pandas' dtype test is not modelled further. The value for a clinic with a row is not constrained beyond the column's cell.
- ProcessTime.ProcessTimeStore.GetClinicDistributionCount: its own contract states only the zero default; the value of a present group is stated by `StoredDistributionCounts` for a store filled from the referrals. The `measure` argument always names the one age-category column, so it is not a parameter.
- PendingTime.PendingStore.GetCountsByCategory: the `category_column` and `values_column` arguments only shape an empty default that is unreachable, so they are not parameters.
- The apps import `model.WaitTimes` and `model.source.Referrals`, which are not part of this model. The CRM counts are modelled over the `Referrals` master table.
- The older variants `model/CRM.py`, `model/DSMs.py` and `model/Pending.py` compute the same tables as `CRMUse.py`, `DSMUse.py` and `PendingTime.py`. They share one definition here.
  - Pending.py's `get_counts_by_*` do not shorten reason names. That is `PendingTime.PendingStore.GetCountsByReasonRaw`.
- The pending distributions take the master table as given. The twelve-month windows do not apply to them, as in the source.
- Referrals.CreateMasterDataFrame: days until accepted follows the corrected reading (see Findings). The as-written column is `Referrals.DaysUntilAcceptedAsWritten`.

## Findings

| source | as written | input that shows it | evidently intended | confidence | as-written member | corrected member |
|---|---|---|---|---|---|---|
| model/Referrals.py:80-81 | Days until accepted subtracts the sent date using the row mask left over from the seen-days fallback (rows without a seen or check-in date), so every other row with an acceptance date gets NaN | sent day 0, accepted day 3, seen day 10: the column is NaN | acceptance date minus sent date, here 3 | not executed | Referrals.AcceptedAsWrittenCounterexample | Referrals.DaysUntilAcceptedCorrected |
