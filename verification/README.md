# Vacancy dashboard data pipeline in Dafny

A model of the data side of a recruitment dashboard (`app.py`): a Dash
application that loads a semicolon-separated table of job vacancies (one
row per vacancy, with columns "Código da Vaga", "Título do Cargo",
"Grupo Econômico", "UF da OI", "Status da Vaga", "STATUS",
"Recrutamento e Seleção", "Dias em Aberto", "Situação Vagas" and
"Descrição do Motivo") and shows two tabs. The tabs are identical except for
the status column they filter and chart on: "Status da Vaga" (the
lifecycle status) or "STATUS" (the internal status).

The model covers:

- **Loading** (`loader.dfy`, with `dates.dfy` and `text.dfy`): each row's
  recruitment date is parsed as `%d/%m/%Y`. A row whose date does not parse is
  dropped. The internal status is stripped of surrounding whitespace, and a
  missing or blank one becomes "Não especificado". The date parser follows
  the `strptime` field grammar:
  - the day and month take one or two digits, and the day may also be a
    space then a digit;
  - the year takes exactly four digits;
  - the whole text must be consumed;
  - the date must exist in the calendar;
  - pandas' nanosecond timestamp range (1677-09-22 to 2262-04-11) must
    contain it, since a date outside it coerces to a missing value.
- **Filtering** (`filters.dfy`): one filter per stage, in the source's
  order:
  - an inclusive date range;
  - membership of the active status column in the checked statuses;
  - economic group;
  - state (UF).

  A selection that is absent or empty does not constrain.
- **KPIs** (`kpis.dfy`):
  - total vacancies;
  - mean days open, skipping missing values, with no values giving NaN;
  - the number of vacancies flagged "Fora do SLA";
  - the breach rate as a percentage, or "N/A" when there are no rows.
- **Chart data** (`histograms.dfy`, `toplist.dfy`, `sorting.dfy`):
  - `value_counts` over the active status column and over the closure
    reason;
  - the status chart ordered by ascending count;
  - the fifteen open vacancies (not "Finalizado - Vaga Preenchida") with the
    most days open, and their axis labels;
  - that chart ordered by ascending days open.
- **One tab callback** (`dashboard.dfy`):
  - filter first;
  - then the empty-state guard (no rows left, or no status checked) that
    shows zero/"N/A" cards and three placeholder figures;
  - otherwise the four KPIs and the three charts.
- **Checklist controls** (`controls.dfy`):
  - the checklist options, which are the distinct statuses of the loaded
    table in sorted order;
  - the "Marcar Todos" / "Limpar Todos" callback, which picks its answer
    from the id of the triggering button;
  - the collapse toggle, which flips only on a click count that is present
    and non-zero.

Missing cells are `Option` values. Days open is an `Option<real>`, and the
mean and the rate are exact rationals (`Metric`). Python string order is
modelled as code-point order (`Text.StrLess`). Wall-clock time, files and the
browser are outside the model: the date-picker bounds come in as `Date`
values, and the triggering property id comes in as an optional string.

## Model

| member | source | states |
|---|---|---|
| Dates.DaysInMonth | app.py:21 | the Gregorian month lengths: 28 for February of a common year, 29 for February of a leap year, 30 for April, June, September and November, 31 for the other months |
| Dates.ParseDmy | app.py:21 | a parsed date is a real calendar date inside the pandas timestamp range, and the text splits into exactly three `/`-separated fields |
| Dates.ParseFields | app.py:21 | `d/m/y` parses exactly when each field matches the `%d`, `%m`, `%Y` grammar and the date exists and is representable |
| Dates.ParseFormat | app.py:21 | every representable date written as DD/MM/YYYY parses back to itself |
| Dates.ShortFieldsAccepted | app.py:21 | single-digit day and month fields and a space-padded day are accepted: `1/6/2024` and ` 1/06/2024` both parse to 1 June 2024 |
| Dates.ThirtyFirstOfAprilRejected | app.py:21 | a day beyond the month's length is coerced to missing, e.g. `31/04/2024` |
| Dates.LeapDayOutsideLeapYearRejected | app.py:21 | 29 February of a common year is coerced to missing, e.g. `29/02/2023` |
| Dates.LeapDayAccepted | app.py:21 | `29/02/2024` parses to 29 February 2024 |
| Dates.BeforeWindowRejected | app.py:21 | a date before 1677-09-22 is coerced to missing, e.g. `21/09/1677` |
| Dates.AfterWindowRejected | app.py:21 | a date after 2262-04-11 is coerced to missing, e.g. `12/04/2262` |
| Text.Strip | app.py:30 | the result has no leading or trailing whitespace, and it is the original with only whitespace removed from each end |
| Text.StripIdempotent | app.py:30 | stripping twice is stripping once |
| Loader.NormaliseStatus | app.py:30-31 | the internal status is never blank or padded; a missing or blank cell becomes "Não especificado", and any other cell is stripped |
| Loader.NormaliseRow | app.py:21-31 | a row survives exactly when its recruitment date parses; it keeps that date, the normalised status and every other cell unchanged |
| Loader.LoadTable | app.py:21-31 | the loop builds exactly the table of surviving, normalised rows in input order |
| Loader.LoadedRowsWellFormed | app.py:21-31 | every loaded row has a representable date and a clean internal status |
| Loader.LoadMembership | app.py:21-24 | a row is loaded exactly when some input row normalises to it |
| Loader.LoadKeepsParsedRows | app.py:21-24 | the loaded count is the number of rows whose date parses, never more than the input |
| Loader.NothingDroppedIffAllParse | app.py:21-24 | no row is dropped exactly when every row's date parses |
| Loader.LoadAppend | app.py:21-24 | loading works row by row: loading a concatenation concatenates the loads |
| Filters.Where | app.py:288-295 | a boolean mask keeps exactly the rows satisfying it, each as often as it occurs in the table (identical rows included) and none that fails it |
| Filters.FiltersAreConjunction | app.py:288-295 | the staged filters equal one mask that is the conjunction of the active conditions |
| Filters.FilterMembership | app.py:288-295 | a row is kept exactly when it is in the table, its date is within the inclusive range, and for each non-empty selection its cell is present and selected |
| Filters.FilterIsSubsequence | app.py:288-295 | the filtered rows are an order-preserving subsequence of the table |
| Filters.FilterIdempotent | app.py:288-295 | filtering an already filtered table changes nothing |
| Filters.DateRangeScenario | app.py:288 | both range ends are inclusive: a row on the start date is kept and one after the end is not |
| Kpis.BreachCountBounds | app.py:325 | the breach count is at most the row count; zero exactly when no row is flagged "Fora do SLA"; equal to it exactly when all are |
| Kpis.DaysValues | app.py:318 | the values averaged include every present days-open value, never outnumber the rows, and are empty exactly when all are missing |
| Kpis.DaysValuesCount | app.py:318 | each value is averaged exactly as many times as there are rows whose days open hold it, and no other value is averaged, so the mean is the arithmetic mean over the rows with a value |
| Kpis.MeanWithinBounds | app.py:318 | the mean is NaN exactly when no value is present, and otherwise lies between any bounds of the values |
| Kpis.BreachRateBounds | app.py:332-342 | the rate exists exactly when there are rows; it is a percentage in [0, 100], 0 exactly when nothing breached, 100 exactly when everything did, and rate times total is 100 times breaches |
| Sorting.SortByCorrect | app.py:350 | sorting by a total preorder yields a permutation of the input that is ordered |
| Histograms.PresentValues | app.py:347 | the present values of a column, each as often as it occurs |
| Histograms.HistogramCorrect | app.py:347 | counting gives one bar per distinct value, whose count is the number of occurrences, positive, with counts summing to the number of values |
| Histograms.ValueCountsCorrect | app.py:361 | `value_counts` is such a histogram in descending order of count |
| Histograms.AscendingChartCorrect | app.py:347-350 | the status chart is such a histogram in ascending order of count |
| TopList.Label | app.py:376 | the label is `code (title)` on the lifecycle tab and `code [status] (title)` on the internal tab (app.py:504): the code first, a space after it, the title in parentheses last with a space before them, and on the internal tab the status in brackets in between |
| TopList.TopOpenCorrect | app.py:372-373 | at most 15 rows, all open rows of the input when fewer; none is filled; each comes from the input; no open row left out has more days open than a row kept |
| TopList.TopBarsCorrect | app.py:376-385 | the top chart has at most 15 bars, exactly the labelled top rows, in ascending order of days open |
| Dashboard.UpdateDashboard | app.py:283-394 | the view is the empty state exactly when the filters leave no row or no status is checked |
| Dashboard.KpisOnData | app.py:310-342 | on data, total is the filtered count and positive, breaches never exceed it and are zero exactly when none is flagged, the rate is a percentage, and the mean is NaN exactly when no days are present |
| Dashboard.DataViewKpis | app.py:310-342 | the same card properties for any non-empty filtered table |
| Dashboard.MeanOnData | app.py:318 | the mean days open lies within any bounds of the table's days-open values |
| Dashboard.HistogramsOnData | app.py:346-369 | each status bar and motive slice counts exactly the filtered rows carrying its value; every present status has a bar; status bars ascend |
| Dashboard.TopOnData | app.py:371-392 | the top chart shows at most 15 open filtered rows, ascending, and no open row left out has more days open than one shown |
| Controls.InsertDistinctCorrect | app.py:40 | inserting into a strictly ascending list keeps it strictly ascending and adds exactly the new value |
| Controls.SortedDistinctCorrect | app.py:40-41 | `sorted(unique())` is strictly ascending and holds exactly the input's values |
| Controls.StatusOptionsCorrect | app.py:40-41 | the checklist options are strictly ascending and are exactly the statuses present in the loaded table |
| Controls.ButtonOf | app.py:228 | the button id is everything before the first dot of the property id: a prefix of it containing no dot, followed by a dot or by the end of the id |
| Controls.ButtonOfClick | app.py:228 | a click on `<id>.n_clicks` is attributed to `<id>` |
| Controls.ManageSelection | app.py:223-233 | the selection is either all options or none; it is none whenever "Limpar Todos" triggered, and differs from all options only then (no trigger, "Marcar Todos" or any other button gives all options) |
| Controls.ClearAllBlanksTab | app.py:231-232 | after "Limpar Todos" the tab shows the empty state whatever the table and the other filters |
| Controls.SelectAllKeepsEveryStatus | app.py:229-230 | after "Marcar Todos" every status present in the table is checked |
| Controls.ToggleCollapse | app.py:213-216 | the panel flips exactly when the click count is present and non-zero |

## Left out

- Reading the CSV file and the retry with latin-1 encoding are input/output. The model starts from the rows as read.
- Stripping the column names is not modelled, because records have typed fields. The date conversion on line 21 runs before that strip on line 27, so a padded date header would fail in the source before the strip.
- The Dash layout, the Plotly figure objects, their styling and the placeholder annotation are rendering. The model keeps only the data behind each figure.
- `date.fromisoformat` on the date-picker strings is not modelled. The range bounds come in as parsed dates.
- The number formatting of the cards (mean to one decimal place, rate to two) is not modelled. The mean and rate are exact rationals rather than floating point.
- Sorting.SortByCorrect: the order among equal keys is not stated. `value_counts` and `sort_values` use algorithms whose tie order is not part of what the source relies on.
- Dates.ParseDmy: only ASCII digits are accepted, whereas Python's `\d` also matches other Unicode decimal digits.
- The timestamp window is that of pandas 2 with nanosecond resolution. Other pandas versions may accept a wider range.
- A missing vacancy code or job title is not modelled, because both cells are plain strings here. In the source, `astype(str)` writes a missing code as the text "nan", and a numeric code column with a gap writes every code as a float such as "123.0". A missing title gives a missing label.
- A non-numeric "Dias em Aberto" column is not modelled; the values are numbers or missing.
- A "STATUS" column with no string cell at all is not modelled; there the source's `.str` accessor raises at load time.
- Controls.StatusOptions: the source sorts `unique()` values, which include NaN for a missing status; mixing NaN with strings makes that sort raise at startup. The model sorts the present values only.
- The in-place assignment of the `Label` column on a slice of the frame is modelled as a pure function of each row.
- The footer timestamp (`datetime.now`) and starting the server are not modelled.
