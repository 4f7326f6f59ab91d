# Boston crimes analysis — a Dafny model

`use-cases/boston-crimes/analysis.py` reads the Boston police incident table,
cleans three columns in place and answers five questions. The model covers the cleaning of DISTRICT and STREET (lines 41-42). The date conversion of OCCURRED_ON_DATE (line 43) is left out. The five questions are:

- **Q1**: Auto Theft and Towed incidents counted per phase of day and per month.
- **Q2**: the most frequent offense in each district.
- **Q3**: a new column holding, for each incident, the time of the next incident in the same district.
- **Q4**: the street with the most incidents in each district.
- **Q5**: the ten most recent incidents of every street.

The model has one module per stage:

- `Incidents`: the row type. A missing value becomes `None`. Timestamps are integers, such as seconds since an epoch.
- `Counting`: counting and filtering over sequences.
- `Cleaning`: `fillna("not available")` on DISTRICT. `str.strip()` on STREET, using Python's whitespace set.
- `CrimeSummary`: Q1.
  - The offense-group filter.
  - The right-open `pd.cut` into day phases.
  - The month abbreviations.
  - The dense 4×12 pivot of counts.
- `TopPerDistrict`: the group / size / sort / `head(1)` primitive that Q2 and Q4 share.
- `TopQueries`: Q2 and Q4 built on that primitive.
- `TopQueriesExample`: a worked Q2 instance.
- `LastIncident`: Q3, the shift within each district.
- `RecentIncidents`: Q5.
- `Analysis`: the dataframe as a class whose methods change it in place, plus the script's flow from cleaning to the five answers.

Pandas leaves rows whose grouping key is missing out of every group. The model does the same.

The comment above Q3 (line 112) and its printed heading speak of the "previous" incident. The code sorts ascending and shifts by -1, which gives each row the time of the FOLLOWING incident of its district. The model follows the code (`LastIncident.NextIsFollowing`).

## Model

| member | source | states |
|---|---|---|
| Cleaning.LeadingSpaces | use-cases/boston-crimes/analysis.py:42 | the whitespace run at the start of a street: every character before the index is whitespace, and the one at the index is not |
| Cleaning.TrailingStart | use-cases/boston-crimes/analysis.py:42 | the start of the whitespace run at the end: every character from the index on is whitespace, and the one before it is not |
| Cleaning.Strip | use-cases/boston-crimes/analysis.py:42 | Python's `str.strip()`: the result is no longer than the input and has no whitespace at either end; `StripSpec` adds that it is the middle of the input left after removing only whitespace |
| Cleaning.StripSpec | use-cases/boston-crimes/analysis.py:42 | a stripped street is the middle of the original with only whitespace removed at both ends, and has no whitespace at either end |
| Cleaning.StripOfTrimmed | use-cases/boston-crimes/analysis.py:42 | stripping a string without whitespace at its ends leaves it unchanged |
| Cleaning.StripIdempotent | use-cases/boston-crimes/analysis.py:42 | stripping twice is the same as stripping once |
| Cleaning.FillDistricts | use-cases/boston-crimes/analysis.py:41 | the table keeps its length; a row's district becomes "not available" exactly where it was missing and is unchanged otherwise; no other column changes |
| Cleaning.StripStreets | use-cases/boston-crimes/analysis.py:42 | the table keeps its length; a street is present iff it was, and is then the stripped old street, with no whitespace at either end; no other column changes |
| Cleaning.Clean | use-cases/boston-crimes/analysis.py:41-42 | the district fill, then the street strip: the table keeps its length and becomes clean (every district present, every present street trimmed); `CleanSpec` adds which value each cell gets |
| Cleaning.CleanSpec | use-cases/boston-crimes/analysis.py:41-42 | cleaning keeps every row and its order; every district is present, and it is "not available" exactly where it was missing; a street is present iff it was, and is then stripped; no other column changes |
| Cleaning.CleanIdempotent | use-cases/boston-crimes/analysis.py:41-42 | cleaning a cleaned table changes nothing |
| CrimeSummary.Crimes | use-cases/boston-crimes/analysis.py:62-63 | every selected row's offense group is "Auto Theft" or "Towed"; every such row of the table is selected; the selection has as many rows as the table has targeted rows and is a sub-multiset of the table |
| CrimeSummary.PhaseOf | use-cases/boston-crimes/analysis.py:66-72 | an hour in bin [edge b, edge b+1) gets label b; an hour below 0 or at 24 and above gets no phase |
| CrimeSummary.PhasePartition | use-cases/boston-crimes/analysis.py:66-72 | Night is 0-5 and 20-23, Morning 6-10, Noon 11-16, Evening 17-19, and no other hour has a phase (each iff) |
| CrimeSummary.PhaseExamples | use-cases/boston-crimes/analysis.py:66-72 | hours 2 and 23 are Night, 10 is Morning, 17 is Evening; 24 and -1 have no phase |
| CrimeSummary.MonthAbbr | use-cases/boston-crimes/analysis.py:75 | each month 1..12 is renamed to one of the twelve three-letter names, namely the first three letters of its full English name (`calendar.month_name`) |
| CrimeSummary.MonthAbbrExamples | use-cases/boston-crimes/analysis.py:75 | month 1 is "Jan", month 6 is "Jun" and month 12 is "Dec" |
| CrimeSummary.MonthAbbrInjective | use-cases/boston-crimes/analysis.py:75 | two months get the same name iff they are the same month |
| CrimeSummary.Summary | use-cases/boston-crimes/analysis.py:77 | the pivot has 4 phase rows and 12 month columns |
| CrimeSummary.SummaryCell | use-cases/boston-crimes/analysis.py:62-77 | each cell counts the rows of the whole table that are Auto Theft or Towed and fall in that cell's phase and month |
| CrimeSummary.SummaryTotal | use-cases/boston-crimes/analysis.py:62-77 | the cells add up to the number of selected rows with a phase, so each such row is counted exactly once |
| TopPerDistrict.GroupSizes | use-cases/boston-crimes/analysis.py:98-99 | one group per distinct key; every input key has a group; each group's size is how often its key occurs |
| TopPerDistrict.Best | use-cases/boston-crimes/analysis.py:100-102 | the group taken for a district is one of that district's groups, and no group of the district is larger |
| TopPerDistrict.TopPerDistrict | use-cases/boston-crimes/analysis.py:100-102 | one group per district that occurs; each is an input group of maximal size in its district |
| TopPerDistrict.TopByCount | use-cases/boston-crimes/analysis.py:96-103 | one row per district among the keys; its key occurs in the input; its size counts that key; no key of the district occurs more often |
| TopQueries.OccurrencesOfCollect | use-cases/boston-crimes/analysis.py:98-99 | a key occurs in the key column as often as there are table rows with that key |
| TopQueries.TopSizes | use-cases/boston-crimes/analysis.py:96-103 | for any key function, a chosen group's size is its number of table rows, and it is positive |
| TopQueries.TopMaximal | use-cases/boston-crimes/analysis.py:96-103 | for any key function, no key of a chosen district has more table rows than the chosen group |
| TopQueries.TopCovers | use-cases/boston-crimes/analysis.py:96-103 | for any key function, every row with a complete key has its district among the chosen groups |
| TopQueries.TopOffenses | use-cases/boston-crimes/analysis.py:96-103 | Q2 is `TopByCount` over the (district, code, description) keys of the rows that have all three; at most one row per district. `TopOffensesSizes`, `TopOffensesMaximal` and `TopOffensesCover` state the counts, the maximality and that every district gets a row |
| TopQueries.TopOffensesSizes | use-cases/boston-crimes/analysis.py:96-103 | each Q2 row's size is the number of incidents of its district with its offense code and description, and is positive |
| TopQueries.TopOffensesMaximal | use-cases/boston-crimes/analysis.py:96-103 | no offense of a Q2 row's district has more incidents there than the chosen offense |
| TopQueries.TopOffensesCover | use-cases/boston-crimes/analysis.py:96-103 | every district with an incident whose key is complete has a Q2 row |
| TopQueries.WorstStreets | use-cases/boston-crimes/analysis.py:133-140 | Q4 is `TopByCount` over the (district, street) keys of the rows that have both; at most one row per district. `WorstStreetsSizes`, `WorstStreetsMaximal` and `WorstStreetsCover` state the counts, the maximality and that every district gets a row |
| TopQueries.WorstStreetsSizes | use-cases/boston-crimes/analysis.py:133-140 | each Q4 row's size is the number of incidents of its district on its street, and is positive |
| TopQueries.WorstStreetsMaximal | use-cases/boston-crimes/analysis.py:133-140 | no street of a Q4 row's district has more incidents than the chosen street |
| TopQueries.WorstStreetsCover | use-cases/boston-crimes/analysis.py:133-140 | every district with an incident that has a street has a Q4 row |
| TopQueriesExample.LarcenyWins | use-cases/boston-crimes/analysis.py:96-103 | a single-district table with two larcenies and one tow yields exactly one Q2 row: the larceny, with size 2 |
| TopQueriesExample.ThreeRowDistrict | use-cases/boston-crimes/analysis.py:96-103 | that result on a concrete three-row table |
| LastIncident.Successor | use-cases/boston-crimes/analysis.py:115-121 | the row following a row in its district's (time, then table order) sort: it comes later, nothing in the district lies between, and there is none iff no district row comes later |
| LastIncident.LastIncidentDates | use-cases/boston-crimes/analysis.py:115-121 | the new column has one cell per row |
| LastIncident.NextIsFollowing | use-cases/boston-crimes/analysis.py:115-121 | a present value is the time of another incident of the same district; it is not earlier than the row's time; no district incident lies strictly between the two |
| LastIncident.NoneIsLast | use-cases/boston-crimes/analysis.py:115-121 | a cell is empty iff every other row of the district comes before it in the sorted order |
| LastIncident.AtMostOneLast | use-cases/boston-crimes/analysis.py:115-121 | two different rows of one district never both get an empty cell |
| LastIncident.LastOfDistrict | use-cases/boston-crimes/analysis.py:115-121 | the last row of a district in the sorted order: every other district row comes before it |
| LastIncident.SomeLast | use-cases/boston-crimes/analysis.py:115-121 | every district that occurs has a row with an empty cell |
| LastIncident.MissingDistrictGetsNone | use-cases/boston-crimes/analysis.py:115-121 | a row without a district gets an empty cell |
| LastIncident.ThreeIncidents | use-cases/boston-crimes/analysis.py:115-121 | three incidents T1 < T2 < T3 of one district get T2, T3 and nothing |
| RecentIncidents.Select | use-cases/boston-crimes/analysis.py:151-156 | a row mask keeps a sub-multiset of the rows |
| RecentIncidents.Recent | use-cases/boston-crimes/analysis.py:151-156 | Q5 returns only rows of the table |
| RecentIncidents.Rank | use-cases/boston-crimes/analysis.py:153 | a row's position within its street after the stable newest-first sort: the number of rows of the street that are newer, or as new and earlier in the table. `RankMonotone` and `RankBelowCount` state its properties |
| RecentIncidents.Kept | use-cases/boston-crimes/analysis.py:153-155 | `groupby(STREET).head(10)` after that sort keeps a row exactly when it has a street and a rank below 10. `KeptRowCount`, `KeptAreMostRecent`, `KeptInRecent` and `RecentAreKept` state what that means |
| RecentIncidents.RankMonotone | use-cases/boston-crimes/analysis.py:153 | a row that sorts before another on the same street has a smaller rank |
| RecentIncidents.RankBelowCount | use-cases/boston-crimes/analysis.py:153 | a row's rank within its street is less than the street's number of rows |
| RecentIncidents.RanksInRange | use-cases/boston-crimes/analysis.py:153-155 | a set of rows of one street whose ranks all lie in [lo, hi) has at most hi - lo members, because ranks within a street are distinct |
| RecentIncidents.KeptRowCount | use-cases/boston-crimes/analysis.py:151-156 | the kept rows of a street number min(10, the street's rows) |
| RecentIncidents.RecentPerStreet | use-cases/boston-crimes/analysis.py:151-156 | Q5's output has min(10, incidents on the street) rows of every street |
| RecentIncidents.SmallStreetKeptWhole | use-cases/boston-crimes/analysis.py:151-156 | a street with at most ten incidents keeps all of them: its output rows are the same multiset as its table rows |
| RecentIncidents.StreetOutputIsKept | use-cases/boston-crimes/analysis.py:151-156 | for every street, the output rows of that street are, as a multiset, exactly its kept table rows, each once |
| RecentIncidents.KeptAreMostRecent | use-cases/boston-crimes/analysis.py:151-156 | no dropped incident of a street is more recent than a kept one |
| RecentIncidents.KeptInRecent | use-cases/boston-crimes/analysis.py:151-156 | every row among the ten newest of its street appears in Q5's output |
| RecentIncidents.RecentAreKept | use-cases/boston-crimes/analysis.py:151-156 | every row of Q5's output is a table row among the ten newest of its street, so `KeptAreMostRecent` is about the output itself |
| RecentIncidents.RecentRowsHaveStreet | use-cases/boston-crimes/analysis.py:151-156 | every output row is a table row and has a street |
| Analysis.CrimeFrame.constructor | use-cases/boston-crimes/analysis.py:36 | the table holds the rows read, with no Q3 column yet |
| Analysis.CrimeFrame.FillDistrict | use-cases/boston-crimes/analysis.py:41 | the rows become the district-filled rows; afterwards every district is present; the Q3 column is untouched |
| Analysis.CrimeFrame.StripStreet | use-cases/boston-crimes/analysis.py:42 | the rows become the street-stripped rows; afterwards every present street is trimmed; the Q3 column is untouched |
| Analysis.CrimeFrame.AddLastIncidentDate | use-cases/boston-crimes/analysis.py:115 | the rows do not change; the Q3 column becomes the shifted times of the current rows |
| Analysis.Analyze | use-cases/boston-crimes/analysis.py:41-156 | after cleaning in place, each answer is its query on the cleaned table; the cleaned table is clean; the Q3 column has one cell per input row |

## Left out

- Reading the CSV file with latin1 decoding (line 36) is left out as I/O. The table is a parameter.
- `pd.to_datetime` on OCCURRED_ON_DATE (line 43) is left out: timestamps are already integers, and parsing text is not modelled.
- `df.dtypes`, `df.describe()`, the pandas display options and every `print` are left out as output only.
- The Q1 chart saved to a PNG file (lines 79-80) is left out as output only.
- The category display orders are left out. The model states no order for the pivot's month labels, beyond the column index being the month. The phase reorder (line 71) is kept as the row order `PhaseOrder`.
- Q2 and Q4 return their rows in an order the model does not state. Pandas sorts them by district, descending.
- RecentIncidents.Recent: the model emits the kept rows in table order. Pandas emits them by street descending, and within a street newest first. The Q5 lemmas therefore state which rows are kept, as a multiset per street (`StreetOutputIsKept`), and how many, not their order.
- TopPerDistrict.Best: among groups of equal size the model takes the one that appeared first, which is what the stable descending sort gives. No contract claims this tie-break, because the script does not rely on it.
- CrimeSummary.Summary: requires every Auto Theft and Towed row to have a month 1..12. `rename_categories` with twelve names also fails when fewer than twelve distinct months occur; that error is not modelled.
- CrimeSummary.Summary: the count aggregate counts non-missing INCIDENT_NUMBER values. Incident numbers are never missing in the model.
- CrimeSummary.Summary: a row whose hour has no phase is in no pivot row, like the NaN category.
- Q5 output rows are incidents without the `last_incident_date` column that Q3 added to the table.
- Missing grouping keys are modelled by leaving the row out of every group. The float NaN values that pandas produces are not represented.
