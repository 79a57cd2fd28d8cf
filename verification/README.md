# Student risk dashboard — a Dafny model of its data logic

The dashboard reads a table of student records, one row per student per term. It
reduces the table to a latest-term snapshot and lists students with a high predicted
dropout probability, each with advisor recommendations. It also filters the at-risk
students for an advisor and reports at-risk counts and rates per cohort and per
binned range of a continuous attribute. Professors log in against a username to
password-hash store.

This project models that logic as pure Dafny functions over immutable data and
proves what each operation computes:

- `Students`: the record (`Row`) with the columns the logic reads.
- `Recommendations`: the five-rule recommendation generator. It is also given as a
  selection over an enumeration of checks, and the two are proved equal.
- `Snapshot`: the latest-row-per-student reducer (sort by term, group by student id,
  take the last row). Also the student search's latest-row lookup and the at-risk data
  page's flagged-then-latest variant.
- `Selection`: the alert cut (probability strictly above 0.4) and the major, GPA and
  attendance filter chain.
- `Cohorts`: grouping with per-group at-risk sum, row count and percentage.
- `Ranking`: the top-10 ascending and top-8 descending truncations.
- `Binning`: right-closed fixed-edge binning with an optional closed first bin, and
  per-bin weighted tallies.
- `Reports`: the analytics page's call sites, with their exact edges and labels.
- `Credentials`: login, registration and the sign-up form. The password digest is a
  function parameter.
- `Seqs`, `StringOrder`, `Wrappers`: order-preserving filtering, Python's
  code-point string order, and `Option`.

Three facts about the code shape the model:

- Bins are right-closed `(lo, hi]`, as `pd.cut` makes them.
- The code defines no weighted scoring rule. `display_manual_prediction` is called but
  never defined, so the only probability cut is `> 0.4`.
- pandas' default sort is not stable, so which of several same-term rows is kept is
  not stated.

## Model

| member | source | states |
|---|---|---|
| Recommendations.Recommend | my_app.py:129-141 | Each of the five messages is present exactly when its condition holds (GPA < 2.5, attendance < 80, on-time < 75, drops > 0, probation == 1). Only those messages appear, in rule order, at most five; the list is empty exactly when no condition holds. |
| Recommendations.RecommendIsSelection | my_app.py:129-141 | The recommendations equal the messages of the checks that fire, taken from the fixed check list in order. |
| Recommendations.RecommendDistinct | my_app.py:129-141 | No message is recommended twice. |
| Recommendations.Messages | my_app.py:129-141 | One message per check, in order: position i holds the message of check i. |
| Snapshot.Upsert | my_app.py:148 | Folding one row into an id-sorted snapshot keeps it id-sorted and adds the row's student id. Every row comes from the snapshot or is the new row, and every student's term is at least as late as any folded row of that student. |
| Snapshot.Latest | my_app.py:148 | The snapshot is sorted by student id with one row per student. It covers exactly the students of the input and uses only input rows; each row carries that student's latest term. |
| Snapshot.LatestCount | my_app.py:150 | The snapshot has exactly as many rows as there are distinct student ids. |
| Snapshot.IdSortedUnique | my_app.py:148 | A snapshot sorted by student id holds at most one row per student. |
| Snapshot.LastByTerm | my_app.py:699 | Sorting by term and taking the last row yields a row of maximal term, and nothing exactly when there are no rows. |
| Snapshot.SearchLatest | my_app.py:696-699 | The search finds nothing exactly when the id is absent. Otherwise it returns an input row of that student with that student's latest term. |
| Snapshot.SearchAgreesWithLatest | my_app.py:148 | The search and the snapshot agree on whether a student exists and on that student's latest term. |
| Snapshot.AtRiskLatest | my_app.py:193-194 | One row per flagged student, sorted by id, covering exactly the students with a flagged row. Each row is flagged and has the latest term among that student's flagged rows. |
| Selection.Alerts | my_app.py:162-163 | The alert list keeps snapshot order and holds exactly the snapshot rows with probability strictly above 0.4, each as many times as in the snapshot. |
| Selection.ThresholdExcluded | my_app.py:163 | A row at exactly 0.4 is not alerted. |
| Selection.FilterChain | my_app.py:204-208 | The filtered list keeps snapshot order. It holds exactly the rows with a selected major (any major when none is selected), GPA at most the GPA slider and attendance at most the attendance slider, each as many times as in the snapshot. |
| Selection.FilterChainIsConjunction | my_app.py:204-208 | Applying the three masks one after another selects the same rows as their conjunction. |
| Selection.FilterChainIdentity | my_app.py:198-208 | With no major selected and sliders at or above every row's values, the whole at-risk snapshot is shown. |
| Seqs.Filter | my_app.py:163 | Boolean masking keeps the order of the rows and exactly the rows that satisfy the mask, every copy of each. |
| Seqs.FilterFuse | my_app.py:206-208 | Two masks applied in turn select what their conjunction selects. |
| Cohorts.AddRow | my_app.py:276 | Accounting for one more row bumps its key's count by one and sum by its flag, adds the key if new, and leaves every other key unchanged. |
| Cohorts.Groups | my_app.py:276 | One group per key value present. Each group's count and sum are that key's row count and flag sum; every count is at least 1; counts add up to the row total and sums to the flag total. |
| Cohorts.GroupFigures | my_app.py:276 | Each emitted group's count and sum are read off the input rows for its key. |
| Cohorts.Rate | my_app.py:277 | The percentage is defined exactly when the count is positive; multiplied by the count it gives back 100 times the flag sum, and it lies in [0, 100] when the sum lies between 0 and the count. |
| Cohorts.GroupRatesBounded | my_app.py:276-277 | With 0/1 flags every group's sum lies between 0 and its count, every percentage is defined and lies in [0, 100], and the groups' sums total between 0 and the number of rows. |
| Ranking.Insert | my_app.py:278 | Inserting into an ascending list keeps it ascending and adds exactly one element. |
| Ranking.SortBySum | my_app.py:278 | Sorting by sum yields an ascending permutation. |
| Ranking.LargestAscending | my_app.py:278 | `sort_values('sum').tail(n)`: the n groups with the largest sums (all when fewer), ascending, drawn from the input. No dropped group has a larger sum than a kept one. |
| Ranking.LargestDescending | my_app.py:627 | `sort_values('sum', ascending=False).head(n)`: the n groups with the largest sums, descending, drawn from the input. No dropped group has a larger sum than a kept one. |
| Reports.RiskByMajor | my_app.py:276-278 | At most ten majors, ascending by at-risk count. Each holds its major's true count and sum; no omitted major has more at-risk students than a shown one. |
| Reports.RiskByFinancialAid | my_app.py:393-394 | One group per financial-aid value, with that value's true count and sum; totals match the snapshot. |
| Reports.RiskByResidence | my_app.py:536-537 | One group per residence type, with that type's true count and sum; totals match the snapshot. |
| Reports.RiskByLateRegistration | my_app.py:554-555 | One group per late-registration value, with that value's true count and sum; totals match the snapshot. |
| Reports.RiskByEthnicity | my_app.py:625-627 | At most eight ethnicities, descending by at-risk count. Each holds its true count and sum; no omitted ethnicity has more at-risk students than a shown one. |
| Reports.GroupsDescribe | my_app.py:276 | Every group describes its key: count at least 1, equal to the key's rows, sum equal to the key's flags. |
| Binning.BinOf | my_app.py:308-311 | `pd.cut` places a value in bin i exactly when `edges[i] < v <= edges[i+1]` (the first bin also admits `edges[0]` with `include_lowest`). Values outside all bins get no bin. |
| Binning.BinUnique | my_app.py:308-311 | A value falls in at most one bin. |
| Binning.Tally | my_app.py:308-311 | Per-bin weight totals in bin order; their total is the weight of the values that fall in some bin. |
| Binning.CountsBounded | my_app.py:311 | Bin counts are non-negative and add up to at most the number of values, exactly that number when every value falls in some bin. |
| Reports.Distribution | my_app.py:308-311 | One count per bin in bin order, each the number of rows in that bin; the counts add up to at most the snapshot size. |
| Reports.AttendanceBins | my_app.py:308-311 | Counts for ranges (0,60], (60,70], (70,80], (80,90], (90,100], in that order. |
| Reports.RiskLevelBins | my_app.py:377-380 | Counts for dropout-probability levels (0,.25], (.25,.5], (.5,.75], (.75,1]. |
| Reports.WorkHoursBins | my_app.py:408-411 | Counts for work hours (-1,0], (0,10], (10,20], (20,30], (30,100], in that order. |
| Reports.BalanceBins | my_app.py:586-589 | Counts for balances (-1,0], (0,1000], (1000,5000], (5000,10000], (10000,100000], in that order. |
| Reports.Bands | my_app.py:656 | One group per age band, carrying that band's sum and count, in band order. |
| Reports.AgeBandRisk | my_app.py:654-657 | Every age band appears, in band order, including empty ones. Each has the number of snapshot rows in that band and their at-risk flag sum; ages outside the bands are counted nowhere. |
| Reports.ZeroAttendanceDropped | my_app.py:308-311 | As written, a student with exactly 0% attendance is counted in no attendance range. |
| Reports.AttendanceBinsInclusive | my_app.py:308-311 | With the first range closed on the left, every attendance rate in [0, 100] is counted in exactly one range. |
| Reports.ZeroProbabilityDropped | my_app.py:377-380 | As written, a student with a predicted dropout probability of exactly 0 is counted in no risk level. |
| Reports.RiskLevelBinsInclusive | my_app.py:377-380 | With the first level closed on the left, every probability in [0, 1] is counted in exactly one level. |
| StringOrder.LessTransitive | my_app.py:148 | The student-id order used by the grouping is transitive. |
| StringOrder.LessTotal | my_app.py:148 | Any two different student ids are ordered one way or the other. |
| Credentials.VerifyLogin | my_app.py:37-41 | Login succeeds only for a known user, and exactly when the stored hash equals the password's hash. |
| Credentials.Register | my_app.py:43-49 | Registration succeeds exactly for a new username: it stores the password's hash under it and reports success. Otherwise the store is unchanged and "Username already exists" is reported. Existing entries are never altered. |
| Credentials.RegisterThenLogin | my_app.py:37-49 | Right after registering, the new user can log in with that password. |
| Credentials.RegisterPreservesOtherLogins | my_app.py:37-49 | Registering one user never changes whether any other user can log in. |
| Credentials.RegisterIgnoresEmail | my_app.py:43-49 | The e-mail address affects neither the outcome nor the store. |
| Credentials.LoginDependsOnHashOnly | my_app.py:37-41 | Two passwords with the same hash are accepted or refused alike. |
| Credentials.LoginForm | my_app.py:62-71 | Nothing is checked unless both fields are filled in. The user is logged in, under the typed name, exactly when the stored hash matches. |
| Credentials.SignUp | my_app.py:80-91 | Nothing happens unless all four fields are filled in. With all filled in, a mismatch is reported first, then a password shorter than six characters, and otherwise registration is attempted. A successful sign-up lets the user log in. |

## Left out

- Page rendering, widgets, session state, page navigation and reruns: presentation only. The form inputs and slider values become parameters.
- Reading the student file and the user file, and writing the user file: file I/O. The data and the store are parameters and results.
- SHA-256: the digest is an uninterpreted function parameter `hash`; no collision resistance is assumed.
- Sending the notification e-mail (SMTP) and formatting its body, including the float formatting of GPA, attendance and probability.
- Charts, the 1000-row random sample, the correlation matrix, histograms without fixed edges, and `.round(1)` on percentages: plotting, randomness and floating-point rounding.
- The overview page's metrics (unique-student count, sums and means of flags, low-attendance and low-GPA counts): simple aggregates of the snapshot, not modelled separately.
- Cohorts.Groups: emits groups in order of first appearance, while pandas sorts the group keys. Key order only affects display order. Under the top-N truncations the unstable sort settles ties in the sum in no fixed way, and the Ranking contracts fix no tie-break.
- Reports.RiskLevelBins: returns counts in bin order; the page orders the pie slices by count (`value_counts()` without `sort_index`).
- Reports.AgeBandRisk: the age-band groups have no `count >= 1` guarantee, because the categorical grouping keeps empty bands.
- Snapshot.Latest: when a student has several rows with the same latest term, which one is kept is not stated. Pandas' default sort is not stable. The contracts fix only the latest term.
- Snapshot.Latest: `groupby().last()` takes the last non-null value per column; with rows free of nulls this is the last row, and the per-column behaviour is not modelled.
- Missing values: rows are modelled without nulls or NaN everywhere. In pandas, a NaN fails every comparison (the recommendation rules, the 0.4 cut, the filter sliders); `groupby` drops NaN keys and `count` skips NaN flags; `pd.cut` puts NaN in no bin. None of this is modelled.
- Row values are exact reals and unbounded integers. Floating-point comparison at the bin edges and at the 0.4 cut is not modelled.
- The prediction form (`display_manual_prediction`) and any weighted scoring rule: the code calls the function but never defines it.

## Findings

| source | as written | input that shows it | evidently intended | confidence | as-written member | corrected member |
|---|---|---|---|---|---|---|
| my_app.py:308-311 | `pd.cut` with edges starting at 0 and no `include_lowest`, so the "<60%" range is (0, 60] | a student with attendance rate exactly 0 is counted in no range | every attendance rate from 0 to 100 falls in one range, 0 counting as "<60%" | medium, not executed | Reports.ZeroAttendanceDropped | Reports.AttendanceBinsInclusive |
| my_app.py:377-380 | `pd.cut` with edges starting at 0 and no `include_lowest`, so "Low (0-25%)" is (0, 0.25] | a student with predicted dropout probability exactly 0 is counted in no level | every probability from 0 to 1 falls in one level, 0 counting as "Low (0-25%)" | medium, not executed | Reports.ZeroProbabilityDropped | Reports.RiskLevelBinsInclusive |
