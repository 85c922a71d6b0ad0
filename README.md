# Equipment dashboard analytics: a Dafny model

This project models the logic of a chemical-equipment monitoring dashboard and its
small back end:

- **The web dashboard** (`frontend-web/src/App.js`). It turns the rows of an uploaded CSV
  (name, type, flow rate, temperature, pressure) into a health score, flow and pressure
  averages, a per-type average temperature for the bar chart, a case-insensitive name
  search, category colours and a pressure bar per table row. It also holds the
  dashboard state that an upload or a restored history entry replaces.
- **The upload history** (`api/views.py`). Each upload stores one record and only the
  five most recent are kept. The history view lists them newest first, and the PDF
  export reports on the newest one or answers 404.
- **The headline selection** of the scraper (`src/processor.py`). It keeps the headlines
  that contain a keyword, ignoring case, and then applies Python's `[:limit]` slice.

Files:
- `wrappers.dfy`: `Option` and `Result`.
- `seqs.dfy`: filter, subsequence, counting and summing, each with its lemmas.
- `ascii.dfy`: lower-casing and substring search.
- `equipment.dfy`: the row record and how each field is read, with its default.
- `dashboard.dfy`: App.js.
- `history.dfy`: views.py.
- `headlines.dfy`: processor.py.

Each numeric field of a row is given already parsed, as `Option<real>`. `None` stands
for a missing, null or unparseable value. Averages are exact `real` divisions.

Points worth knowing about the code:
- The health penalty is 5 points per critical unit (App.js:46).
- The averages after an upload divide by the row count with no guard. An empty
  upload shows `NaN` (JavaScript's `0 / 0`), which the model gives as `Mean.NaN`.
- The category is read from the `Type` column only. No `type` or `Equipment Type`
  synonym is accepted.

## Model

| member | source | states |
|---|---|---|
| `Equipment.NameOf` | my-awesome-project/frontend-web/src/App.js:167 | a missing equipment name is searched as "", a present one as itself |
| `Equipment.TypeOf` | my-awesome-project/frontend-web/src/App.js:81 | a missing or empty type is grouped as "Other", a present non-empty type as itself; the label is never empty |
| `Equipment.TemperatureOf` | my-awesome-project/frontend-web/src/App.js:82 | a missing or zero temperature reads as 25, any other reading as itself; the result is never 0 |
| `Equipment.PressureOf` | my-awesome-project/frontend-web/src/App.js:45 | a missing pressure reads as 0, a present one as itself |
| `Equipment.FlowOf` | my-awesome-project/frontend-web/src/App.js:63 | a missing or unparseable flow rate contributes 0 |
| `Equipment.IsCritical` | my-awesome-project/frontend-web/src/App.js:45 | a unit is critical exactly when it has a pressure and that pressure exceeds 8.0; a missing pressure is never critical |
| `Ascii.Lower` | my-awesome-project/frontend-web/src/App.js:167 | lower-casing maps each capital letter to its small letter and leaves other characters alone |
| `Ascii.LowerStr` | my-awesome-project/frontend-web/src/App.js:167 | lower-casing keeps the length, lower-cases each character, and leaves no capital letter |
| `Ascii.Contains` | my-awesome-project/frontend-web/src/App.js:167 | a text contains only terms no longer than itself |
| `Ascii.ContainsIff` | my-awesome-project/frontend-web/src/App.js:167 | the substring test holds exactly when the term occurs at some position of the text |
| `Ascii.ContainsIgnoreCase` | my-awesome-project/src/processor.py:44 | a case-insensitive match needs a term no longer than the text |
| `Ascii.EmptyMatchesAll` | my-awesome-project/frontend-web/src/App.js:167 | an empty term matches every text, ignoring case |
| `Dashboard.CalculateHealth` | my-awesome-project/frontend-web/src/App.js:43-47 | the score is in [0, 100], and it is 100 for absent or empty rows |
| `Dashboard.HealthFormula` | my-awesome-project/frontend-web/src/App.js:45-46 | the score is max(0, 100 - 5k), where k counts the rows with pressure above 8.0 |
| `Dashboard.PerfectHealthIff` | my-awesome-project/frontend-web/src/App.js:45-46 | the score is 100 if and only if no row has pressure above 8.0 |
| `Dashboard.HealthOfOneMoreRow` | my-awesome-project/frontend-web/src/App.js:45-46 | one more critical row lowers the score by 5, down to 0; any other row leaves it unchanged |
| `Dashboard.HealthNeverRises` | my-awesome-project/frontend-web/src/App.js:45-46 | adding a row never raises the score |
| `Dashboard.Average` | my-awesome-project/frontend-web/src/App.js:67-68 | the result is NaN exactly when there are no rows |
| `Dashboard.AverageBetween` | my-awesome-project/frontend-web/src/App.js:63-68 | the average of non-empty values lies between any lower and upper bound of those values |
| `Dashboard.FlowValues` | my-awesome-project/frontend-web/src/App.js:63 | one summand per row, the flow rate read with its default of 0 |
| `Dashboard.PressureValues` | my-awesome-project/frontend-web/src/App.js:64 | one summand per row, the pressure read with its default of 0 |
| `Dashboard.MissingFlowAddsNothing` | my-awesome-project/frontend-web/src/App.js:63 | a row with no flow rate leaves the flow sum unchanged but still counts in the divisor |
| `Dashboard.ExampleBatch` | my-awesome-project/frontend-web/src/App.js:63-69 | a pump at 100 m³/h and 9 bar with a compressor at 140 m³/h and 5 bar give averages 120 and 7 and health 95 |
| `Dashboard.GroupTemps` | my-awesome-project/frontend-web/src/App.js:80-84 | a group holds at most one temperature per row |
| `Dashboard.Labels` | my-awesome-project/frontend-web/src/App.js:86 | there are at most as many labels as rows, and at least one for a non-empty batch |
| `Dashboard.LabelsDistinct` | my-awesome-project/frontend-web/src/App.js:86 | no thermal label is listed twice |
| `Dashboard.LabelsAreTypes` | my-awesome-project/frontend-web/src/App.js:81-86 | the labels are exactly the types present in the rows |
| `Dashboard.LabelsAreNonEmptyGroups` | my-awesome-project/frontend-web/src/App.js:83-86 | a label is listed if and only if its group has a row, so no average divides by zero |
| `Dashboard.GroupTempsAreRowsOfType` | my-awesome-project/frontend-web/src/App.js:80-84 | a group is the defaulted temperature of each row of that type, one per row, in row order |
| `Dashboard.GroupTempsBounded` | my-awesome-project/frontend-web/src/App.js:82-84 | any bounds on the defaulted temperatures of a type's rows bound every value of its group |
| `Dashboard.GroupAverageBetween` | my-awesome-project/frontend-web/src/App.js:87 | a group's average lies between its lowest and highest defaulted temperature |
| `Dashboard.DroppingATypeDropsItsLabel` | my-awesome-project/frontend-web/src/App.js:81-86 | removing every row of one type removes its label and keeps every other label |
| `Dashboard.TotalsStep` | my-awesome-project/frontend-web/src/App.js:80-85 | reading one row adds its temperature to its type's running total and 1 to its count, starting both from 0, and adds a label only for a new type |
| `Dashboard.TotalsKeys` | my-awesome-project/frontend-web/src/App.js:83-86 | a running total and count exist exactly for the types already listed as labels |
| `Dashboard.AccumulateByType` | my-awesome-project/frontend-web/src/App.js:78-86 | the `forEach` loop leaves the key order, totals and counts of the reference fold over all rows |
| `Dashboard.TotalsAreGroupSums` | my-awesome-project/frontend-web/src/App.js:83-87 | the running total and count kept for a type exist exactly for the listed labels and equal the sum and the (positive) size of that type's group |
| `Dashboard.ThermalAggregate` | my-awesome-project/frontend-web/src/App.js:76-89 | no data gives empty labels and averages; otherwise the labels are the types in first-occurrence order, with one average per label equal to the group's sum divided by its size |
| `Dashboard.FilteredEquipment` | my-awesome-project/frontend-web/src/App.js:164-169 | no data gives []; every row listed has a name containing the term, ignoring case |
| `Dashboard.FilteredEquipmentSelects` | my-awesome-project/frontend-web/src/App.js:166-168 | the search result is an order-preserving subsequence that keeps every occurrence of a matching row and no other row |
| `Dashboard.EmptySearchShowsAll` | my-awesome-project/frontend-web/src/App.js:167 | an empty search term lists every row |
| `Dashboard.ColorFor` | my-awesome-project/frontend-web/src/App.js:133 | a known category gets its listed colour; any other label gets the `Default` colour |
| `Dashboard.DefaultColorIff` | my-awesome-project/frontend-web/src/App.js:22-30 | the fallback grey is given exactly to labels that are not a listed category |
| `Dashboard.ChartColors` | my-awesome-project/frontend-web/src/App.js:158 | the bar chart has one colour per label, in label order, from the fallback lookup |
| `Dashboard.TagColor` | my-awesome-project/frontend-web/src/App.js:243 | the type tag has a colour only for a listed type, with no fallback |
| `Dashboard.PressureBar` | my-awesome-project/frontend-web/src/App.js:249 | the width is at most 100% and reaches 100% exactly at 10 bar; below that it is 10% per bar; the bar is red exactly for the rows the health score penalises |
| `Dashboard.DashboardState.constructor` | my-awesome-project/frontend-web/src/App.js:33-39 | starts with no file, no data, an empty search, averages 0 and health 100 |
| `Dashboard.DashboardState.ChooseFile` | my-awesome-project/frontend-web/src/App.js:200 | choosing a file, or emptying the selection, sets only the chosen file |
| `Dashboard.DashboardState.SetSearchTerm` | my-awesome-project/frontend-web/src/App.js:232 | typing in the search box changes only the search term |
| `Dashboard.DashboardState.HandleUpload` | my-awesome-project/frontend-web/src/App.js:56-74 | nothing changes without a file, on a failed request, or on a reply without rows; otherwise `currentData` is the reply and the stats are the flow and pressure averages and the health of its rows; the health shown always belongs to the rows shown |
| `Dashboard.DashboardState.RestoreHistoryItem` | my-awesome-project/frontend-web/src/App.js:273-276 | `currentData` becomes the entry's rows and type counts, the averages are the stored ones, and the health is recomputed from the stored rows |
| `Dashboard.DashboardState.Listed` | my-awesome-project/frontend-web/src/App.js:238 | every row in the table matches the current search term |
| `History.RecordFor` | my-awesome-project/api/views.py:25-33 | the stored record keeps the file name; rows, type counts, count and averages are stored as given, and fall back to [], {}, 0 and 0 when the analysis lacks them |
| `History.StatusCode` | my-awesome-project/api/views.py:17-41 | a created record answers 201 and every rejected upload answers 400 |
| `History.AfterUpload` | my-awesome-project/api/views.py:25-36 | an upload grows the table by one up to five records; the result is the newest records of the old table followed by the new one |
| `History.UploadAppendsAndEvicts` | my-awesome-project/api/views.py:25-36 | an upload appends exactly one record; when five or more were stored, exactly the oldest is removed and nothing else changes |
| `History.UploadKeepsBound` | my-awesome-project/api/views.py:35-36 | at most five records before an upload means at most five after it, and the new record is kept as the newest |
| `History.UploadsKeepMostRecent` | my-awesome-project/api/views.py:25-36 | after any series of uploads the table is exactly the last five of all records ever stored |
| `History.NewestFirst` | my-awesome-project/api/views.py:46 | position i holds the i-th most recent record |
| `History.HistoryList` | my-awesome-project/api/views.py:46 | the history view lists at most five records |
| `History.HistoryIsMostRecent` | my-awesome-project/api/views.py:46 | the history lists the min(5, n) most recent records, newest first |
| `History.HistoryShowsWholeBoundedTable` | my-awesome-project/api/views.py:46 | a table of at most five records is listed in full |
| `History.HistoryStartsWithLatestUpload` | my-awesome-project/api/views.py:46 | right after an upload, the uploaded record heads the history |
| `History.ExportPdf` | my-awesome-project/api/views.py:52-54 | the export answers 404 exactly when no record exists; otherwise it reports on the most recent record |
| `History.ExportMatchesHistoryHead` | my-awesome-project/api/views.py:52 | the export reports on the record the history lists first |
| `History.DatasetTable.Post` | my-awesome-project/api/views.py:14-41 | no file gives 400 with the table unchanged; a failed analysis gives 400 with its message and the table unchanged; otherwise 201, with the record appended and the oldest evicted beyond five |
| `Headlines.KeywordFilter` | my-awesome-project/src/processor.py:41-45 | an empty keyword leaves the list unfiltered; with a keyword, every headline kept contains it, ignoring case |
| `Headlines.KeywordFilterSelects` | my-awesome-project/src/processor.py:43-45 | with a keyword, the result is an order-preserving subsequence that keeps every occurrence of a matching headline and drops every other one |
| `Headlines.GuardIsRedundant` | my-awesome-project/src/processor.py:41-45 | the `if keyword:` guard is redundant, because filtering by "" keeps everything |
| `Headlines.SliceStop` | my-awesome-project/src/processor.py:48 | the slice ends at min(limit, n) for a non-negative limit, and at max(0, n + limit) for a negative one |
| `Headlines.SelectHeadlines` | my-awesome-project/src/processor.py:40-48 | the selection has no more headlines than were fetched, and every one of them was fetched |
| `Headlines.SelectionIsPrefix` | my-awesome-project/src/processor.py:48 | the final list is a prefix of the filtered list, of length min(limit, n) for limit ≥ 0 |
| `Headlines.SelectionMentionsKeyword` | my-awesome-project/src/processor.py:40-48 | every headline returned contains the keyword, and there are at most `limit` of them |
| `Headlines.RunTask` | my-awesome-project/src/processor.py:29-78 | a failed request returns [] and writes nothing; otherwise the file holds exactly the returned headlines, and the metadata count is their number |

## Left out

- Network and UI plumbing are not modelled: the axios calls, `fetchHistory` and the `history` list it fills, alerts, the summary modal, chart option objects, JSX rendering and the scatter-plot points.
- Number formatting is not modelled: `toFixed(2)`, `toFixed(1)` and the PDF's `:.2f`. Averages are exact reals, so the stats are numbers in the model where the dashboard holds strings after an upload.
- `parseFloat` on text is not modelled: fields arrive as `Option<real>`. A non-empty but unparseable temperature, which the dashboard would read as `NaN`, is read as missing (25).
- The doughnut chart's labels and values come from `Object.keys` of the type counts. Only the colour of each label is modelled.
- JavaScript objects list integer-like keys first and carry prototype keys such as `constructor`. Type labels are assumed to be ordinary non-numeric strings.
- Case folding covers ASCII letters only, not Unicode `toLowerCase` / `str.lower`.
- views.py: the ORM, record ids and `uploaded_at` clock values are left out. The table is an upload-ordered sequence, so timestamps are distinct and there are no ties. The CSV analysis (`process_csv`, pandas) is a parameter. Exceptions raised by the database are not modelled. An uploaded file counts as absent only when none is sent.
- The PDF drawing is not modelled; the report is the record's fields.
- processor.py: the HTTP fetch, HTML parsing, the clock and the JSON file write are left out. Fetched headlines and the timestamp are parameters, and a failure to write the file is not modelled.
