# fit-log core in Dafny

fit-log is a small fitness tracker. A Flask server keeps three sheets of an Excel workbook: users, activities and weight history. It computes health figures from them: BMI, BMR, TDEE, calorie goals, calories burned, the ideal weight range, body fat, weight status and activity recommendations. A browser script repeats some of these calculations and exports tables as CSV.

This project models three parts of that system and proves properties of the models:

- **The health calculators** (`utils/calculations.py`). They are pure functions, so they become Dafny functions in `calculations.dfy`.
- **The table operations and user statistics of `FitLogDB`** (`models.py`). They become the class `Models.FitLogDb` in `models.dfy`, with one `seq` field per sheet. Its add, update and delete methods replace a field. `GetUserStats` is a method that changes nothing. The queries are functions over the tables.
- **`calculateBMI`, `getBMICategory`, `estimateCalories` and `convertToCSV`** (`static/js/main.js`). They are in `mainjs.dfy`. `convertToCSV` is a method with a loop, proved against the function `CsvLines`.

Supporting modules:

- `wrappers.dfy`: `Option`, and `Result` with a `KeyError` case. `KeyError` stands for Python's `KeyError` on a missing dictionary key.
- `numerics.dfy`: Python's `round(x, n)` (round half to even on exact reals) and JavaScript's `Math.round`, with their error bounds and monotonicity.
- `tables.dfy`: boolean-mask filtering, sorting by a key, and the "largest id plus one" id allocation.

Modelling choices:

- **Numbers** are unbounded `real` or `int`.
- **Dates** are integers in chronological order.
- **Timestamps** from `datetime.now()` are string parameters. `add_user` reads the clock twice, so `AddUser` takes two stamps, which may differ.
- **Sheet writes.** `write_sheet`'s success is a boolean parameter. A failed write leaves the field unchanged, and the method returns the flag as the Python code does.
- **`sort_values`** is modelled as a stable insertion sort. Everything proved about it is that the result is sorted by date and is a permutation of the input.
- **`update_user`'s `None` case.** The code returns `None` only for a sheet with no rows. It tests `.empty` on the comparison mask, which is empty only when the sheet is. For an unknown id it writes the unchanged table and returns the write's result (`Models.UpdateUnknownUserIsNoOp`).
- **`get_weight_status`** returns formatted Thai text. The model returns the datatype `WeightStatus`, whose cases are the six distinct results of the code (its two "achieved" returns give the same text), with the two numbers the progress text shows.

## Model

| member | source | states |
|---|---|---|
| Calculations.CalculateBmi | utils/calculations.py:1-8 | 0 for a height that is not positive; otherwise weight/(height/100)² rounded to two decimals, within 0.005 of the exact value |
| Calculations.BmiMonotoneInWeight | utils/calculations.py:1-8 | for a fixed positive height, a heavier weight never gives a smaller BMI |
| Calculations.BmiNonNegative | utils/calculations.py:1-8 | a non-negative weight gives a non-negative BMI, whatever the height |
| Calculations.BmiBand | utils/calculations.py:10-19 | each of the four bands holds exactly the BMIs of its half-open interval: below 18.5, [18.5, 25), [25, 30), 30 and above |
| Calculations.GetBmiCategory | utils/calculations.py:10-19 | the result is one of the four Thai labels, namely the label of the BMI's band |
| Calculations.LabelInjective | utils/calculations.py:10-19 | two bands have the same label only if they are the same band |
| Calculations.BmiBandMonotone | utils/calculations.py:10-19 | a larger BMI never falls in a lower band |
| Calculations.BmiBandBoundaries | utils/calculations.py:12-17 | the comparisons are strict: 18.5, 25 and 30 belong to the higher band |
| Calculations.CalculateBmr | utils/calculations.py:21-28 | within 0.005 of the Harris–Benedict value: the male formula for "male", the female formula otherwise |
| Calculations.BmrMonotone | utils/calculations.py:21-28 | more weight, more height or fewer years never lowers the BMR |
| Calculations.BmrNonMaleIsFemale | utils/calculations.py:23-26 | any gender string other than "male" gets the female formula |
| Calculations.CalculateTdee | utils/calculations.py:30-42 | a KeyError naming the level iff the level is not one of the five; otherwise within 0.005 of BMR × multiplier |
| Calculations.ActivityLevelsKnown | utils/calculations.py:32-38 | exactly the five levels sedentary … extremely_active succeed |
| Calculations.TdeeOrderedByActivity | utils/calculations.py:32-40 | for a non-negative BMR, TDEE does not decrease from sedentary up to extremely active |
| Calculations.CalculateDailyCaloriesForGoal | utils/calculations.py:44-56 | "lose" and "gain" are within 0.005 of TDEE minus and plus rate·7700/7; any other goal returns the TDEE unchanged and unrounded |
| Calculations.GoalSymmetric | utils/calculations.py:47-54 | the deficit and the surplus are equal (1100 kcal per kg/week of rate), so the two goals sit symmetrically around the TDEE |
| Calculations.GoalOrdered | utils/calculations.py:44-56 | for a non-negative rate and a TDEE in hundredths: lose ≤ maintain ≤ gain |
| Calculations.EstimateWith | utils/calculations.py:58-82 | a KeyError naming the type iff the type is not in the MET table; otherwise within 0.005 of MET·3.5·weight·minutes/200, and exactly 0 for zero minutes |
| Calculations.EstimateCaloriesBurned | utils/calculations.py:58-82 | the same, for the server's MET table as written |
| Calculations.MetValuesPositive | utils/calculations.py:60-78 | every MET value in the table is positive |
| Calculations.CaloriesNonDecreasingInDuration | utils/calculations.py:58-82 | for a known type and a non-negative weight, a longer activity is never estimated lower |
| Calculations.JoggingExample | utils/calculations.py:58-82 | 30 minutes of jogging at 70 kg is 294 kcal |
| Calculations.BasketballIsMissing | utils/calculations.py:73 | the table's key is "bassketball", so "basketball" fails with a KeyError |
| Calculations.EstimateCaloriesBurnedIntended | utils/calculations.py:58-82 | the estimator with the key spelt "basketball": a KeyError iff the type is not in the corrected table |
| Calculations.IntendedBasketball | utils/calculations.py:73 | with the corrected key, basketball succeeds with MET 8.0, and every other type behaves as in the table as written |
| Calculations.CalculateIdealWeightRange | utils/calculations.py:84-94 | min ≤ max, and each end is within 0.05 of 18.5·h² and 24.9·h² (h in metres) |
| Calculations.IdealWeight170 | utils/calculations.py:84-94 | a height of 170 cm gives the range 53.5 – 72.0 kg |
| Calculations.IdealRangeIsNormalBmi | utils/calculations.py:84-94 | every weight in the unrounded range has a BMI in the normal band |
| Calculations.CalculateBodyFatPercentage | utils/calculations.py:96-104 | never negative; 0 when the formula is not positive, otherwise within 0.05 of 1.2·BMI + 0.23·age − 16.2 (male) or − 5.4 (otherwise) |
| Calculations.BodyFatGenderGap | utils/calculations.py:99-102 | before the floor at 0, the estimate for any gender other than "male" is 10.8 points above the male one |
| Calculations.GetWeightStatus | utils/calculations.py:106-127 | a constant goal iff initial equals target; achieved iff the target is reached in its direction; not started iff the weight has not moved; otherwise in progress, with the distance moved and the total goal, both positive |
| Calculations.WrongDirectionCountsAsProgress | utils/calculations.py:111-118 | moving away from the target counts as progress: 80 → 90 kg towards 70 kg reads as 10 of 10 kg lost |
| Calculations.GetActivityRecommendations | utils/calculations.py:130-152 | a list (of at least two activities) iff the table has the category and the goal; otherwise a KeyError naming the missing category, or the missing goal |
| Calculations.RecommendationGaps | utils/calculations.py:132-150 | "maintain" is defined for every category; underweight has no "lose", and overweight and obese have no "gain" |
| Calculations.RecommendationKeysAreCategories | utils/calculations.py:132-152 | the table's categories are exactly the four labels that get_bmi_category returns |
| Models.GetUserById | models.py:31-39 | None iff no row has the id; otherwise the first row of the table with that id |
| Models.UserByIdUnique | models.py:31-39 | with distinct ids, the row found is the one row with the id |
| Models.GetUserActivities | models.py:114-119 | a permutation of the user's activities, latest date first |
| Models.GetWeightHistory | models.py:147-151 | a permutation of the user's weight records, earliest date first |
| Models.InWeightHistory | models.py:147-151 | a record is in the history iff it is in the sheet and belongs to the user |
| Models.WeightHistoryEmpty | models.py:147-151 | the history is empty iff the user has no weight rows |
| Models.FirstRecordIsEarliest | models.py:147-151 | the first entry of the history has the user's earliest date and the last entry the latest |
| Models.GetLatestWeight | models.py:153-159 | None iff the user has no weight rows; otherwise the weight of one of the user's rows, and no row of the user has a later date |
| Models.SumCaloriesSorted | models.py:174-180 | sorting the activities does not change their calorie total |
| Models.Mean | models.py:181 | the mean times the number of activities is the total |
| Models.WeightProgress | models.py:185-196 | always in [0, 100]; 0 when the current or target weight is 0 or initial equals target; otherwise within 0.005 of clamp(\|current − initial\| / \|target − initial\| · 100, 0, 100) |
| Models.StatusAgreesWithProgress | models.py:189-196 | for non-zero current and target weights (the guard at models.py:189), against get_weight_status: a constant goal or a start not yet made is 0 %, a goal achieved is 100 % |
| Models.WrongDirectionIsFullProgress | models.py:195-196 | progress counts distance moved in either direction: 80 → 90 kg towards 70 kg is 100 % |
| Models.OvershootClamped | models.py:196 | overshooting the target (80 → 60 kg towards 70 kg) is clamped to 100 % |
| Models.FitLogDb.GetUserStats | models.py:168-198 | None iff the user is unknown; otherwise the user's row, the number of activities, their total and mean calories (0 for none), the first recorded weight (or the user's weight), current and target weight, and the progress percentage, which is in [0, 100] |
| Models.ApplyFieldsAppend | models.py:78-80 | applying two batches of field updates is applying their concatenation |
| Models.PatchedUserFields | models.py:71-81 | an updated row has the new value for each field given and its old value for each field not given; its id and creation date are kept and last_updated is the timestamp |
| Models.UpdateTouchesOnlyTheUser | models.py:67-81 | rows of other users are unchanged; the user's rows change only in the fields given and last_updated |
| Models.UpdateKeepsIds | models.py:78-81 | an update leaves the column of user ids as it was |
| Models.UpdateUnknownUserIsNoOp | models.py:66-83 | an id no row has leaves the table unchanged |
| Models.FitLogDb.UpdateUser | models.py:64-83 | None for an empty sheet; otherwise the write's result, and on success the sheet is UpdatedUsers; the other sheets are unchanged |
| Models.FitLogDb.AddUser | models.py:41-62 | on a successful write, the sheet gains one row at the end with the next id, the creation stamp and the update stamp; the old rows are unchanged and distinct ids stay distinct |
| Models.FitLogDb.AddActivity | models.py:94-112 | on a successful write, the sheet gains one row at the end with the next activity id; the old rows are unchanged |
| Models.FitLogDb.AddWeightRecord | models.py:128-145 | on a successful write, the sheet gains one row at the end with the next record id; the old rows are unchanged |
| Tables.NextId | models.py:46-48 | 1 for an empty table; otherwise one more than an existing id, and greater than every existing id |
| Tables.NextIdKeepsDistinct | models.py:46-61 | appending the next id to distinct ids keeps them distinct |
| Models.FitLogDb.DeleteUser | models.py:85-91 | the user's rows are removed (if that write succeeds) and the user's weight rows are removed (if that write succeeds); the activities stay; distinct user ids stay distinct |
| Models.DeleteRemovesExactly | models.py:88 | after the delete, a row remains iff it was there and has another id |
| Models.FilterKeepsDistinctIds | models.py:88 | deleting rows keeps distinct ids distinct |
| Models.FitLogDb.DeleteActivity | models.py:121-125 | on a successful write, exactly the rows with other activity ids remain, in order |
| Models.FitLogDb.DeleteWeightHistory | models.py:161-165 | on a successful write, exactly the weight rows of other users remain, in order |
| Tables.Filter | models.py:88 | the result has no more rows than the input; every row of it is a kept input row, and every kept input row is in it |
| Tables.FilterFirst | models.py:34-39 | the first row of a non-empty filter is the first row of the input that the filter keeps |
| Tables.FilterAppend | models.py:88 | filtering commutes with concatenation, so the remaining rows keep their order |
| Tables.FilterMultiset | models.py:124 | each kept row occurs as often as before, and each removed row not at all |
| Tables.SortBySorted | models.py:119 | the sorted table is ordered by the key |
| Tables.SortBy | models.py:151 | sorting is a permutation of the rows |
| MainJs.CalculateBmiJs | static/js/main.js:322-325 | for a non-zero height, exactly weight/(height/100)²; for height 0, +Infinity for a positive weight, −Infinity for a negative weight and NaN for weight 0 |
| MainJs.BmiAgreesWithServer | static/js/main.js:322-325 | for a positive height, the browser's BMI is within 0.005 of the server's rounded BMI |
| MainJs.NegativeHeightDiffers | static/js/main.js:322-325 | for a negative height and a positive weight, the server gives 0 and the browser a positive BMI |
| MainJs.JsBand | static/js/main.js:327-332 | a finite BMI falls in the same band as on the server; −Infinity is underweight; +Infinity and NaN are obese |
| MainJs.GetBmiCategoryJs | static/js/main.js:327-332 | the band's Thai label and colour; for a finite BMI the label equals the server's get_bmi_category |
| MainJs.ColorInjective | static/js/main.js:328-331 | each band has its own colour |
| MainJs.ZeroInputsLabelledObese | static/js/main.js:322-332 | zero weight and height give NaN, which is labelled obese |
| MainJs.MetFor | static/js/main.js:336-355 | the table's MET for a known type, 3.5 for any other type, always positive |
| MainJs.EstimateCaloriesJs | static/js/main.js:335-357 | never fails, and lies within 0.5 of MET·weight·duration/60 |
| MainJs.UnknownActivityFallsBack | static/js/main.js:355 | an unknown type is estimated like moderate walking (3.5 MET) |
| MainJs.JsZeroDuration | static/js/main.js:356 | zero duration gives 0 |
| MainJs.JsDurationMonotone | static/js/main.js:356 | for a non-negative weight, a longer activity is never estimated lower |
| MainJs.JoggingDiffersFromServer | static/js/main.js:335-357 | 30 minutes of jogging at 70 kg is 245 kcal in the browser and 294 kcal on the server |
| MainJs.ActivityNamesAgree | static/js/main.js:336-353 | the browser's types are the server's (with "basketball" spelt correctly) except "cycling_fast", which falls back to 3.5 |
| MainJs.Lookup | static/js/main.js:434 | undefined for a key the object lacks; otherwise undefined or one of the object's values under that key |
| MainJs.LookupFirstMatch | static/js/main.js:434 | a key the object has gives the value of the first pair with that key |
| MainJs.FieldQuoted | static/js/main.js:435 | a string field is its text between two double quotes, with nothing escaped |
| MainJs.Fields | static/js/main.js:432-435 | field i of a data line is the formatted value under header i |
| MainJs.CsvLines | static/js/main.js:429-438 | one line more than there are rows: the first row's keys joined by commas, then each row's fields joined by commas |
| MainJs.ConvertToCsv | static/js/main.js:426-441 | "" for a non-array or an empty array; otherwise CsvLines joined by newlines |
| MainJs.SplitJoin | static/js/main.js:440 | splitting a join recovers the parts when no part contains the separator |
| MainJs.CsvLineStructure | static/js/main.js:426-441 | with no newline in the headers or fields, the export reads back as exactly \|rows\| + 1 lines, header line first |
| MainJs.CsvFieldStructure | static/js/main.js:432-437 | with at least one header and no comma in the fields, data line j reads back as one field per header, holding the row's value under that header |
| MainJs.NewlineInValueBreaksRow | static/js/main.js:435 | an unescaped newline inside a string value turns one row into two lines of data |

## Left out

- Sheet I/O (`read_sheet`, `write_sheet`): the sheets are fields, and write success is a boolean parameter. A sheet that fails to read is an empty table in the source. The model takes the tables as they are.
- `get_all_users`: it only reads the sheet, so it is the field `users` itself.
- The `KeyError` pandas raises when a sheet read back empty has no `user_id` column. Every table here has all its columns.
- Default argument values (`gender='male'`, `activity_level='sedentary'`, `goal='maintain'`, `rate=0.5`, `duration_minutes=0`, `notes=''`): the model takes every argument explicitly.
- `datetime.now()`: `now` is a parameter.
- Floating point: reals stand in for IEEE doubles. `round` is exact round-half-to-even on the real value, so results that depend on a double's binary representation are not modelled. JavaScript's signed zero is not modelled either.
- The text formatting of `get_weight_status` (`:.1f`): the model returns the two numbers the text shows.
- The order of rows with equal dates after `sort_values`: the default quicksort is not stable, and the model's sort is. `Models.FitLogDb.GetUserStats` and `Models.GetLatestWeight` take the first or last record of the sorted history, so with several records on the same date the model fixes which one they get. This is why `Models.GetLatestWeight` states only that no record of the user is later.
- Models.FitLogDb.GetUserStats: the mean is stated through `Models.Mean` and the progress through `Models.WeightProgress`, not written out in the method's contract.
- Dynamic typing: weights and heights are numbers, and an activity type is a string. `estimateCalories` with a type such as `"constructor"`, whose lookup hits an object prototype property, is not modelled. `convertToCSV` is modelled only for an array whose every element is an object: a `null` or `undefined` element, which makes `Object.keys(data[0])` (static/js/main.js:429) or `row[header]` (static/js/main.js:434) throw a TypeError, is not modelled. A row is its own key–value pairs only, so `row[header]` never reaches an inherited property: a later row that lacks a header such as `constructor` gets `undefined` in the model where the browser gets the inherited function.
- `Object.keys` order for integer-like keys. A row is a sequence of keys and values in the order `Object.keys` returns.
- How `Array.prototype.join` prints a non-string value: that text is given with the value (`JsOther`).
- The DOM, charts, notifications, timers, downloads and everything else in `static/js/main.js` apart from the four functions above.
- The Flask routes in `app.py`. app.py is not part of this model beyond the remark on basketball under Findings.

## Findings

| source | as written | input that shows it | evidently intended | confidence | as-written member | corrected member |
|---|---|---|---|---|---|---|
| utils/calculations.py:73 | the MET table's key is `'bassketball'` | `estimate_calories_burned('basketball', 30, 70)` raises KeyError; the server turns the activity name "Basketball" into `'basketball'` before the lookup (app.py:141), and the browser's table spells it `'basketball'` (static/js/main.js:348) | key `'basketball'` with MET 8.0 | high, not executed | Calculations.BasketballIsMissing | Calculations.IntendedBasketball |
