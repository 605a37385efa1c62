# Shipment forecasting tool — Dafny model

This project models the core of a shipment forecasting tool:

- **Series builder.** `PlotOrder` folds shipment records (product, ship date, quantity) into a table of product → year → month → summed quantity. It then flattens that table into one monthly series per product: the observed years ascending, months January to December within each year. Records dated in the sentinel year 2050 are skipped.
- **Product offer.** A product is offered when it has more than ten positive months.
- **Modelling.** Modelling collects the non-zero months as training points. With more than ten of them, it records one evaluation per polynomial degree 2..8 and picks the degree with the largest test R²: it starts at degree 2 and replaces the choice only on a strictly larger value. The winner is fitted on all training points.
- **Forecast.** A forecast picks a horizon of 1, 3 or 12 months and predicts the months after the start month. It appends the predictions to the product's series in place: a negative prediction becomes 0.05, and every prediction becomes 0 when the model is untrusted (test R² below 0.20 and MAE above 100). It then lays out the month axis and the year axis of the chart.
- **Windows.** The GUI side checks the entered start date against a regular expression and passes the duration index and start year/month to the forecast. It writes a summary row and a positional snapshot of the plot data, and later reopens that snapshot from the list-box entry built from the summary row. A search box filters the product list.

| file | module | contents |
|---|---|---|
| `support.dfy` | `Support` | `Option`/`Result`, the ascending enumeration of a key set (`sorted(d.keys())`), positive and non-zero counts, `str` of an integer and its inverse |
| `series.dfy` | `Series` | what the built series is, as functions of the records, with its shape and the 2050 rule |
| `selection.dfy` | `Selection` | the degree scan as a function, its argmax meaning, and the loop |
| `forecast.dfy` | `Forecast` | horizon, start index, prediction policy, tick ranges, month labels, year labels, year tick positions, and the loops that build them |
| `visualization.dfy` | `Visualization` | class `PlotOrder` with `productOrderDB_cal`, the key order of its year dictionaries, `modelDict`, `metricsDict`, `bestDegree`, `x_forPlot` and `y_poly_pred` as fields. It holds the dictionary-building loops, modelling, and `forecastPlot` with its in-place append |
| `gui.dfy` | `Gui` | the date check, the duration loop, the summary row, the list-box entry and its split, the snapshot pack and unpack, and class `ProductPicker` for the search filter |

Each loop of the source that updates variables is a method. The one exception is the selection loop of `findAvaliableProducts` (`final_visualization.py:100-103`): it is a generator over the dictionary, so it is the set comprehension of the function `Visualization.PlotOrder.AvailableProducts`. Each method is proved against a function of its inputs or of the old state, and the lemmas state what the source promises about those functions.

Other inputs are parameters rather than computations:

- `fits` holds each degree's evaluation tuple (train RMSE, train R², test RMSE, test R², test MAE).
- `order` is the order in which the evaluation threads finished: any permutation of 2..8.
- `refit(d, x)` is the value at month index `x` of the degree-`d` model fitted on all training points.
- Today's date, the expiry date and the rendering of rounded floats are passed in.

Two consequences of how the code is written:

- **Gap years.** Only the years that occur get a year dictionary (`final_visualization.py:63`). A missing year therefore leaves no twelve zero months, and the start index `(startYear - firstYear) * 12 + startMon` stops naming the start month's position. `Forecast.StartIndexAlignedWithoutGaps` proves the alignment when there are no gaps. `Forecast.GapYearMisplacesStart` shows a two-record history where it fails.
- **Qualification.** `findAvaliableProducts` counts strictly positive months (`arr[arr > 0]`), while `modeling` counts non-zero months. `Visualization.OfferedProductCanBeModelled` proves that an offered product can be modelled, and that the two counts agree when no quantity is negative.

## Model

| member | source | states |
|---|---|---|
| Support.SortedInts | final_visualization.py:88-89 | the result lists every key exactly once, strictly ascending, as `sorted(v.items())` visits them |
| Support.PositiveAtMostNonZero | final_visualization.py:100-103 | the positive-month count never exceeds the non-zero count, and equals it when no entry is negative |
| Support.IntText | final_gui.py:85 | `str` of an integer is a non-empty string whose characters after the first are digits, and whose first character is a minus exactly when the integer is negative |
| Support.NatTextRoundTrip | final_gui.py:85 | reading the printed digits back gives the number (`int(str(n)) == n`) |
| Series.FirstSeenIsKeyOrder | final_visualization.py:60-63 | the insertion order of a product's year keys lists exactly its non-2050 years, each once |
| Series.SeriesShape | final_visualization.py:53-90 | the series has `12 * (number of distinct non-2050 years)` entries; entry `12*j + (mo-1)` is the total shipped in month `mo` of the `j`-th smallest such year, and exactly `j` years lie below that year |
| Series.BuiltSeries | final_visualization.py:85-90 | the flattened series has twelve entries per observed non-2050 year |
| Series.BlocksAt | final_visualization.py:87-90 | position `12*j + k` of the year blocks is month `k+1` of the `j`-th year, and there are twelve entries per year |
| Series.SeriesEmptyIffNoYears | final_visualization.py:60-63 | a product's series is empty exactly when it has no record outside 2050 |
| Series.SkippedYearIgnored | final_visualization.py:61-62 | removing all 2050 records leaves every built series unchanged |
| Series.SeriesNonNegative | final_visualization.py:65-75 | with non-negative quantities every entry of the built series is non-negative |
| Selection.ScanIsFirstArgmax | final_visualization.py:149-154 | the scan ends on a degree whose test R² is the largest among degree 2 and the visited degrees; degree 2 is kept when it attains that value; any other winner is the first visited degree attaining it |
| Selection.DegreeSelection | final_visualization.py:140-154 | over any completion order of 2..8 the chosen degree is in 2..8, its test R² is the maximum over all seven, and degree 2 wins every tie it is part of |
| Selection.DegreeOrderMembers | final_visualization.py:140-146 | a completion order contains every degree 2..8 |
| Selection.OrderIrrelevantForUniqueBest | final_visualization.py:139-154 | when one degree alone attains the best test R², every completion order gives the same choice, and it is that degree |
| Selection.Scan | final_visualization.py:149-154 | the selection loop as a function: start at degree 2 with its test R², and replace the choice by each visited degree whose test R² is strictly larger; its meaning is proved in `Selection.ScanIsFirstArgmax` |
| Selection.SelectBestDegree | final_visualization.py:149-154 | the loop's `(bestDegree, maxR2)` is the scan's result, a degree in 2..8 holding the maximum test R², with degree 2 kept on a tie |
| Forecast.Horizon | final_visualization.py:216-218 | choices 0, 1, 2 give 1, 3 and 12 months; any other value is used as given |
| Forecast.StartIndex | final_visualization.py:222 | the start index carries the start month's label (for a month 1..12), and it is the start month itself when the start year is the first observed year |
| Forecast.ForecastValue | final_visualization.py:235-246 | the appended value is never negative: 0 for an untrusted model, else the prediction, or 0.05 for a negative prediction |
| Forecast.LowConfidence | final_visualization.py:242 | the model is untrusted exactly when its test R² is below 0.20 and its MAE is above 100; `Forecast.AppendedPolicy` proves its effect on the appended values |
| Forecast.Appended | final_visualization.py:235-246 | one appended value per prediction, none negative |
| Forecast.AppendedPolicy | final_visualization.py:235-246 | one appended value per prediction, in order, never negative; all zero when `maxR2 < 0.20` and `mae > 100`; otherwise each is its prediction, with 0.05 for a negative one |
| Forecast.TickRange | final_visualization.py:233 | `list(range(1, n+1))`: `n` entries, entry `i` is `i+1` |
| Forecast.MonthLabel | final_visualization.py:256-260 | the label is in 1..12 and congruent to the position modulo 12 |
| Forecast.MonthLabelOfSeriesPosition | final_visualization.py:256-260 | position `12*j + mo` of the series is labelled month `mo` |
| Forecast.KeptYears | final_visualization.py:271 | the kept keys are exactly the keys at most the start year, each at most the start year |
| Forecast.YearLabels | final_visualization.py:271-277 | the labels are missing exactly when no key is kept, and defined labels are at least as many as the kept keys |
| Forecast.YearLabelsDefined | final_visualization.py:271-277 | the year labels exist exactly when some key is at most the start year (otherwise `newlabel[-1]` fails) |
| Forecast.YearLabelsShape | final_visualization.py:271-277 | defined labels contain the target year (the start year, plus one for a twelve-month horizon) and begin with the kept keys |
| Forecast.YearLabelsConsecutive | final_visualization.py:273-277 | past the kept keys the labels grow by one year at a time |
| Forecast.LabelsFromKept | final_visualization.py:272-277 | the labels built from kept years contain the target, start with the kept years, and continue only by consecutive years |
| Forecast.YearLabelsAscending | final_visualization.py:271-277 | with ascending keys the labels ascend strictly and end exactly at the target year |
| Forecast.KeptAscending | final_visualization.py:271 | filtering ascending keys keeps them ascending |
| Forecast.YearTickInBlock | final_visualization.py:279-283 | year tick `i` lies inside the `i`-th block of twelve bar positions, over its eighth month |
| Forecast.StartIndexAlignedWithoutGaps | final_visualization.py:222 | with no gap years, the start index of month `mo` of the `j`-th year is its 1-based series position `12*j + mo` |
| Forecast.GapYearMisplacesStart | final_visualization.py:222 | with shipments only in 2015 and 2017 the series has 24 entries but December 2017 gets start index 36 |
| Forecast.ForecastIndices | final_visualization.py:224-226 | `m` indices, entry `i` is `currX + i + 1` |
| Forecast.ForecastMonths | final_visualization.py:224-226 | the loop yields the `m` month indices after `currX`, in order |
| Forecast.MonthLabels | final_visualization.py:256-260 | one label per position, each in 1..12 and congruent to its position modulo 12 |
| Forecast.ExtendYearLabels | final_visualization.py:271-277 | the loop's result is the year-label list; it exists exactly when some key is at most the start year, and then contains the target year |
| Forecast.ExtendRun | final_visualization.py:273-277 | the `while` loop appends exactly the years after the last kept one up to the target |
| Forecast.YearPositions | final_visualization.py:279-283 | one position per label, `8 + 12*i`, inside block `i` |
| Visualization.TrainingPoints | final_visualization.py:112-118 | the training points are as many as the non-zero entries, strictly ascending, each naming a non-zero entry and its quantity, and every non-zero entry is named |
| Visualization.NonZeroMonths | final_visualization.py:112-118 | one month per non-zero entry, each in 1..`|s|`; `Visualization.TrainingPoints` proves that each names a non-zero entry |
| Visualization.OfferedProductCanBeModelled | final_visualization.py:100-120 | more than ten positive months give more than ten training points; without negative quantities the two conditions coincide |
| Visualization.ExtractPoints | final_visualization.py:112-118 | `monthList` and `quantityList` are the non-zero months and their quantities, one per non-zero entry, each naming a non-zero entry |
| Visualization.BuiltStateConsistent | final_visualization.py:53-90 | the table, the key order and the series built from any records agree: the key order lists the table's years, and a product with a series has years |
| Visualization.ResetProducts | final_visualization.py:53-56 | the first loop gives each product of the records an empty year dictionary |
| Visualization.AddYearKeys | final_visualization.py:58-63 | after the second loop each product's year keys are its non-2050 years, in first-appearance order, each with an empty month dictionary |
| Visualization.YearKeyStep | final_visualization.py:60-63 | recording a non-2050 record's year keeps the keys and their order equal to those of the records seen so far |
| Visualization.ZeroFill | final_visualization.py:65-70 | the third loop keeps every key and sets months 1..12 of every year to zero |
| Visualization.ZeroYears | final_visualization.py:67-70 | on one product, every year gets months 1..12 at zero |
| Visualization.AddQuantities | final_visualization.py:72-75 | after the fourth loop every month holds the total quantity of its product, year and month, with 2050 skipped |
| Visualization.AddStep | final_visualization.py:73-75 | adding one non-2050 record to its month keeps every total equal to that of the records seen so far, and adds no key |
| Visualization.TableBlocks | final_visualization.py:53-75 | each year dictionary of the built table, read in month order, is that year's block of totals |
| Visualization.Flatten | final_visualization.py:85-90 | the outer loop of `_createModelDict` yields the built series for every product with years |
| Visualization.AppendSeries | final_visualization.py:87-90 | one product's pass adds its years' months, in ascending year order, as a new entry |
| Visualization.FlattenYears | final_visualization.py:88-90 | the year loop concatenates the twelve month values of each year in order |
| Visualization.YearsSeriesBlocks | final_visualization.py:87-90 | flattening year dictionaries that hold the year blocks gives the concatenated blocks |
| Visualization.AppendMonths | final_visualization.py:89-90 | the month loop appends the twelve values January first |
| Visualization.DefaultInsertConsistent | final_visualization.py:115 | the `defaultdict` lookup that inserts an empty series keeps the dictionaries consistent |
| Visualization.FitOfMeaning | final_visualization.py:106-165 | modelling refuses exactly with ten or fewer non-zero months. Otherwise the chosen degree is in 2..8 with the maximum test R², degree 2 is kept on a tie, every degree's evaluation is recorded, the training months are exactly the non-zero months, and the fitted values are the chosen model at those months |
| Visualization.FitOf | final_visualization.py:106-165 | the outcome of `modeling`: nothing with ten or fewer non-zero months, otherwise the scan's R² and degree, every degree's evaluation, the training months and the refitted values at them; `Visualization.FitOfMeaning` states what these are |
| Visualization.RecordFits | final_visualization.py:138-146 | filling one slot per finished thread records exactly the evaluations of degrees 2..8 |
| Visualization.FitSeries | final_visualization.py:112-165 | the body of `modeling` computes the modelling outcome for the series |
| Visualization.AxisLayout | final_visualization.py:233-283 | the bar positions are the history positions then the forecast months; there is a month label per bar; the year labels are those of the keys; a tick position goes with each label |
| Visualization.PlotOrder.constructor | final_visualization.py:31-36 | construction builds the table, the key order and the series from the records, and they are consistent |
| Visualization.PlotOrder.CreateOrderDict | final_visualization.py:47-75 | `productOrderDB_cal` and its key order are those of the records; the other fields are unchanged |
| Visualization.PlotOrder.CreateModelDict | final_visualization.py:78-90 | `modelDict` holds the built series of every product with years, and the state is consistent |
| Visualization.PlotOrder.AvailableProducts | final_visualization.py:94-103 | a product is offered exactly when its series has more than ten positive months; every offered product has more than ten non-zero months |
| Visualization.PlotOrder.Modeling | final_visualization.py:106-165 | the series is looked up (an unknown product gets an empty one). With too few points nothing else changes and `None` is returned. Otherwise `metricsDict`, `bestDegree`, `x_forPlot` and `y_poly_pred` are set from the outcome and its best test R² is returned |
| Visualization.PlotOrder.EnsureSeries | final_visualization.py:115 | the `defaultdict` lookup inserts an empty series for an unknown product and changes nothing else |
| Visualization.PlotOrder.StoreFit | final_visualization.py:149-165 | a successful fit sets `metricsDict`, `bestDegree`, `x_forPlot`, `y_poly_pred` and returns its R²; no fit changes nothing |
| Visualization.PlotOrder.ForecastPlot | final_visualization.py:210-295 | for a qualifying product: the best degree is the scan's choice, `metricsDict` holds the evaluations of degrees 2..8, `getMae` is the chosen degree's test MAE, `x_forPlot` is the non-zero months of the series before the append, and `y_poly_pred` is the refitted model at those months. Exactly the policed predictions at `currX + 1 .. currX + m` are appended to that product's series, and nothing else in `modelDict` changes. The call fails exactly when no year key is at most the start year. Otherwise it returns the fitted points, `m`, the bar positions (history then forecast months, as many as the extended series), the extended series, the year labels and their positions |
| Visualization.PlotOrder.SelectedMae | final_visualization.py:202-207 | after modelling, `getMae` returns the test MAE (the fifth tuple field) of the selected degree, whose test R² is the largest of degrees 2..8 |
| Visualization.PlotOrder.GetMae | final_visualization.py:202-207 | the test MAE, the fifth field of the tuple `metricsDict` holds for `bestDegree`; `Visualization.PlotOrder.SelectedMae` ties it to the selected degree |
| Visualization.PlotOrder.AppendForecast | final_visualization.py:235-246 | the append loop extends only `modelDict[productID]`, by the policed values in order |
| Visualization.PlotOrder.SavedForecastPlot | final_visualization.py:309-313 | one month label per saved bar position, each in 1..12 |
| Visualization.ProductOfRecord | final_visualization.py:55-56 | every record's product is a key of the table |
| Visualization.YearOfRecord | final_visualization.py:60-63 | every non-2050 record's year is among its product's years |
| Gui.YearField | final_gui.py:167 | a four-digit year field matches `(20)\d\d` exactly when it is 2000..2099 |
| Gui.MonthField | final_gui.py:167 | a two-digit month field matches `0[1-9]` or `1[012]` exactly when it is 1..12 |
| Gui.DayField | final_gui.py:167 | a two-digit day field matches `0[1-9]`, `[12][0-9]` or `3[01]` exactly when it is 1..31 |
| Gui.DateAccepted | final_gui.py:167 | an accepted text has ten leading characters, all digits except the two separators at positions 4 and 7, from `- /.` |
| Gui.DateAcceptedMeaning | final_gui.py:167 | a date is accepted exactly when it has ten leading characters with digits outside positions 4 and 7, two equal separators from `- /.`, a year 2000..2099, a month 1..12 and a day 1..31 |
| Gui.TrailingIgnored | final_gui.py:167 | text after the tenth character does not change the verdict |
| Gui.ShowProductOrderForecast | final_gui.py:160-174 | a rejected date gives the error and `-1`; an accepted one opens the chart dialog with the chosen duration and the entered text |
| Gui.StartYear | final_gui.py:265 | `int(date[0:4])` of an accepted date is in 2000..2099 |
| Gui.StartMonth | final_gui.py:265 | `int(date[5:7])` of an accepted date is in 1..12 |
| Gui.Pad4Value | final_gui.py:140 | the padded four-digit year reads back as the year |
| Gui.Pad2Value | final_gui.py:140 | the padded two-digit field reads back as its value |
| Gui.TodayTextAccepted | final_gui.py:140 | today's date, the default text, is accepted exactly in the years 2000..2099, and then the chart starts at today's year and month |
| Gui.DisplayChart | final_gui.py:262-265 | a forecast is requested exactly when the choice is one of the options, with that option's position and the start year and month of the date |
| Gui.OptionHorizons | final_gui.py:28-30 | the three options are distinct and their positions select 1, 3 and 12 months |
| Gui.PeriodLabel | final_gui.py:280 | the label is the choice with its last nine characters removed (empty for shorter choices) |
| Gui.PeriodStripsForecast | final_gui.py:280 | removing nine characters strips exactly " Forecast" |
| Gui.PeriodLabels | final_gui.py:280 | the saved periods of the options are "One Month", "One Quarter" and "One Year" |
| Gui.WriteToDB | final_gui.py:276-283 | there is no row exactly when there is no fitted value. Otherwise the row holds the product, today's date, the period label, the expiry date, the last fitted value and the MAE times 100 |
| Gui.ExpiryIgnoresHorizon | final_gui.py:281 | the expiry date of the row does not depend on the duration chosen |
| Gui.EntryText | final_gui.py:81-86 | the loop builds the entry text of the fields: each field's text followed by five spaces |
| Gui.JoinedCons | final_gui.py:85 | the entry read from the front is the first field's text, the gap, then the rest |
| Gui.WordsSkipSpaces | final_gui.py:223 | `split()` skips leading whitespace |
| Gui.WordsLead | final_gui.py:223 | a word followed by whitespace or the end is split off whole |
| Gui.Words | final_gui.py:223 | `split()` yields only non-empty words without whitespace |
| Gui.EntryWords | final_gui.py:223 | splitting a row's entry yields the product number, then the run date, then the words of the other columns |
| Gui.LoadKey | final_gui.py:223-224 | a file key exists exactly when the entry has at least two words |
| Gui.SnapshotFile | final_gui.py:224 | the snapshot file name `"{product}_{run}.bin"`, in which `writeToPickle` (final_gui.py:315) saves and the saved-forecast dialog loads |
| Gui.SavedEntryOpensSnapshot | final_gui.py:223-224 | the entry of the row saved for a product on a day opens the snapshot `"{id}_{date}.bin"` written for that product on that day |
| Gui.Pack | final_gui.py:314 | the snapshot is a list of eight slots |
| Gui.PackRoundTrip | final_gui.py:224 | loading a saved snapshot gives every value back in its role |
| Gui.Unpack | final_gui.py:224 | whatever loads is exactly the list saving it would write |
| Gui.WriteToPickle | final_gui.py:309-315 | the list saved for a forecast loads back with the chosen product in the `productID` slot, and the saved chart comes back with the same bars, series, horizon, month positions, year labels and year positions |
| Gui.ContainsMeaning | final_gui.py:387 | `sub in s` holds exactly when `sub` is some slice of `s` |
| Gui.ContainsChars | final_gui.py:387 | every character of a contained string occurs in the containing one |
| Gui.LowerIntText | final_gui.py:387 | lower-casing a product number's text changes nothing |
| Gui.Matching | final_gui.py:386-388 | the shown products are at most as many as the listed ones, and each is a listed product that matches the term |
| Gui.MatchingMeaning | final_gui.py:386-388 | the shown products are exactly the listed ones whose number contains the lower-cased term |
| Gui.MatchingAscending | final_gui.py:386-388 | filtering keeps list order: an ascending list stays ascending and never grows |
| Gui.MatchingEmptyTerm | final_gui.py:386-388 | an empty term shows the whole list |
| Gui.EmptyTermMatches | final_gui.py:387 | every product matches the empty term |
| Gui.LetterTermShowsNothing | final_gui.py:386-388 | a term containing a letter shows no product |
| Gui.ProductPicker.constructor | final_gui.py:349-368 | the dialog starts with the product list it is given, and the initial empty search shows all of it |
| Gui.ProductPicker.UpdateList | final_gui.py:375-388 | the list box is cleared and refilled with exactly the matching products, in list order; the product list is unchanged |

## Left out

- Fitting and metrics: polynomial features, linear regression and the RMSE/R²/MAE computations (final_visualization.py:157-163, 176-198) are floating-point numerics in foreign libraries. Each degree's evaluation tuple is the input `fits`, and the refitted model is the function `refit`.
- The random train/test split (final_visualization.py:135) is unseeded and foreign; it only affects the `fits` input.
- Threads (final_visualization.py:139-146): each thread's slot write is a step of a sequential loop. The only effect of their timing, the order of `metricsDict`, is the parameter `order`.
- Visualization.PlotOrder.ForecastPlot: requires that the product qualifies (more than ten non-zero months). When `modeling` returns `None`, the source goes on to compare `None` or reuse the previous fit; that stale-state path is not modelled.
- Visualization.PlotOrder.ForecastPlot: the source raises an IndexError at `newlabel[-1]` after the series has already been extended. The model returns `Failure(NoYearLabel)` in that state rather than raising.
- Series.WellFormed: every ship date's month field is in 1..12, as calendar dates guarantee. This is a precondition of building the table, because any other month field would add a key beyond the twelve months to a year dictionary, and that case is not modelled.
- The text of the ship date: records carry its year and month fields as integers. The `split('-')` and `int` steps are not modelled.
- Matplotlib calls (bars, colours, titles, twin axes, the model curve) are presentation only.
- SQLite access: the records arrive as a sequence, and the Forecast table's `expirationDate > ?` query and its rows are outside the model; `Gui.Entry` takes a row's fields directly.
- The database builder scripts (`shipmentsDB.py`, `forecastDB.py`) are JSON loading and table creation, which is not part of this model.
- The callback `_showSelectProduct` (final_gui.py:240-250) only wires widgets together. It passes `sorted(findAvaliableProducts())` to the search dialog, and `Gui.ProductPicker.constructor` takes that list as its argument.
- Tkinter windows, dialogs, list-box widgets, grabs and focus are not modelled. That includes the `productList[0]` default of the search dialog, which fails on an empty list.
- Pickle and CSV file I/O: the snapshot is modelled as the list `writeToPickle` builds and the tuple `pickle.load` unpacks. The CSV export (final_gui.py:298-306) is left out, because its text depends on Python's float `str`.
- Gui.Unpack: it checks the kind of every slot, while Python's unpacking checks only that there are eight.
- Dates: today's date and the expiry date (today plus one month, computed by `relativedelta` with its month-end clamping) are parameters.
- Gui.FieldText: `str(round(x, 2))` of a float is the parameter `showReal`.
- Gui.IsSpace: `str.split()` is modelled on ASCII whitespace only; Unicode whitespace is left out.
- Gui.LowerChar: `str.lower()` is modelled on ASCII letters only.
- Gui.DateAccepted: `\d` is modelled as the ASCII digits `0-9`; Unicode decimal digits are left out.
- Visualization.AppendSeries: the source appends to `modelDict[k]` month by month; the model builds the product's series locally and stores it once. The stored value is the same.
