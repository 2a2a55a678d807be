# Telco churn pipeline: encoder, cleaning and run selection in Dafny

This project models the pure logic at the heart of a customer-churn
prediction system and proves properties about it. The system has three such
pieces:

- **Serving encoder and `/predict` route** (`webapp/app.py`).
  - A JSON record describing one customer becomes a single row over a
    hard-coded 30-column schema. Numeric fields are coerced (`tenure` and
    `SeniorCitizen` are cast to int), the four numeric columns are copied,
    and `if`/`elif` chains set one-hot indicators.
  - The route answers with the model's prediction, or with status 500 when
    no model is loaded or anything raises.
- **Training-data cleaning** (`clean_and_transform` in `scripts/preprocess.py`).
  - `TotalCharges` is coerced to numbers, and rows where that fails are
    dropped.
  - Every column is forward-filled. pandas 2.x then re-infers the dtype of
    text columns, so a text column with no value left becomes numeric.
  - Text features are one-hot encoded with the first category dropped.
  - `Churn` is mapped to 1/0.
  - The columns are assembled as `customerID`, numeric features, indicators,
    `Churn`.
- **Best-run selection** (`scripts/evaluate.py`). A fold over the tracked
  runs keeps the first run with the highest F1 score above 0, and registers
  it under the fixed name `BestTelcoChurnModel`.

## Modules

| file | module | content |
|---|---|---|
| `results.dfy` | `Results` | `Option`, and `Result` with `:-` support |
| `numeric.dfy` | `Numeric` | The decimal numerals `pandas.to_numeric` accepts, and truncation toward zero for `astype(int)` |
| `serving_schema.dfy` | `ServingSchema` | The schema as a `(field, level)` table, the coercion list, the copy list, the `elif` chains, and the `Layout` well-formedness predicate |
| `schema_facts.dfy` | `SchemaFacts` | Entry-by-entry facts about the literal tables, and the proof that they satisfy `Layout` |
| `encoder.dfy` | `Encoder` | The table-driven encoder `Encode`, the statement-by-statement adapter `SourceEncode`, and the proof that they agree |
| `encoder_properties.dfy` | `EncoderProperties` | What the encoder promises for every request |
| `serving.dfy` | `Serving` | The `/predict` route |
| `text_order.dfy` | `TextOrder` | Python's `str` ordering and sorted distinct values |
| `frames.dfy` | `Frames` | Column-oriented data frames |
| `one_hot.dfy` | `OneHot` | The drop-first one-hot encoder |
| `cleaning.dfy` | `Cleaning` | `clean_and_transform` |
| `schema_agreement.dfy` | `SchemaAgreement` | Serving schema versus training encoder |
| `selection.dfy` | `Selection` | Best-run selection and registration |

## How the source's semantics are modelled

- **Errors are values, not exceptions.**
  - Encoding returns `Result<Row, EncodeError>`. The error names the first
    failing read, in the order the adapter performs its reads:
    1. `tenure`, then `SeniorCitizen` (the int casts);
    2. `MonthlyCharges`, then `TotalCharges`;
    3. the chain fields in statement order (`gender`, `Partner`,
       `Dependents`, `PhoneService`, `PaperlessBilling`, `MultipleLines`,
       …, `PaymentMethod`).
  - Cleaning returns `Result<DataFrame, CleanError>`, with its errors
    checked in the order the function executes its statements.
- **NaN is explicit.** A missing or non-numeric value is `NaN` (`Cell`) or
  `None` (a frame cell). `astype(int)` on NaN is an error, and otherwise
  truncates toward zero.
- **One-hot categories are the sorted distinct values.**
  - Scikit-learn itself is not part of this model. The categories are taken
    as the sorted distinct values of the column, with a missing value as an
    extra category placed last and printed as `nan`.
  - `TextOrder.SortedIsUnique` shows this list does not depend on the sorting
    algorithm used.
- **The trained model is a parameter.** It is a function from a row to an
  optional label, with `None` meaning that `predict` raised.
- **Run order and F1 scores are inputs.** The F1 scores are reals.

## Model

| member | source | states |
|---|---|---|
| Encoder.Encode | webapp/app.py:36-48 | Whatever keys the request has, a successful encoding is one row of exactly the 30 listed columns, and every indicator in it is 0.0 or 1.0 |
| Encoder.SourceEncode | webapp/app.py:30-77 | The adapter as written: the coercion loops run first, so any coercion failure is the error raised. After them only a chain's lookup can raise, a `KeyError` naming a field the request lacks. A result is a frame with one cell per column name |
| Encoder.SourceEncodeIsTableEncode | webapp/app.py:30-77 | The adapter as written and the table-driven encoder agree on every request: the same error, or a frame whose column names are the listed names in order and whose cells are the table's row. The adapter is written step by step: coercion loops, zero frame, copy loop, and `if`/`elif` chains that assign by column name |
| Encoder.CoerceAll | webapp/app.py:32-35 | The coercion loops fail exactly when a coerced field is absent or an int cast meets NaN, and the error is the first such failure. On success every listed field is coerced |
| Encoder.ToNumericCases | webapp/app.py:33-35 | `pd.to_numeric(errors="coerce")` on one value: it is NaN exactly when the value is null or a text that is not a numeral. A numeral text gives the number it writes, a JSON number passes through, and a boolean gives 1/0 |
| Encoder.ApplyCastCases | webapp/app.py:33-35 | `astype(int)` raises exactly on NaN, and otherwise gives a whole number that truncates the value toward zero. `astype(float)` keeps the value, NaN included |
| Encoder.CoercedFieldsAreListed | webapp/app.py:32-35 | On success no field other than the listed ones is coerced |
| Encoder.CoercedValue | webapp/app.py:32-35 | After successful coercion, each listed field holds its cast value: the truncated int for `tenure` and `SeniorCitizen`, the number or NaN for the charges |
| Encoder.FirstMissing | webapp/app.py:51-76 | Returns the first chain field the request lacks; none is returned exactly when all are present |
| Encoder.ElifSetsOwnLevel | webapp/app.py:56-76 | An `if`/`elif` chain over distinct levels acts like independent `if`s. It sets the column of the value's own level when that level is listed, and changes nothing otherwise |
| SchemaFacts.SchemaNamesAreTheListedColumns | webapp/app.py:36-47 | The `(field, level)` table names its columns exactly as the listed column names, position by position |
| SchemaFacts.ServingLayout | webapp/app.py:36-76 | The tables the adapter relies on are consistent: <br>• column names are unique; <br>• each chain reads its own field; <br>• every branch targets a listed indicator, and every indicator is set by its field's chain; <br>• the copy loop covers exactly the numeric columns |
| EncoderProperties.EncodeFailsAtFirstBadRead | webapp/app.py:30-77 | Encoding succeeds exactly when every read succeeds. A failure reports the first failing read in the adapter's order: a missing field (`KeyError`) or a non-numeric `tenure`/`SeniorCitizen` |
| EncoderProperties.IndicatorIsOneOnItsLevel | webapp/app.py:51-76 | An indicator is 1.0 exactly when the field holds that exact, case-sensitive level text, and 0.0 otherwise |
| EncoderProperties.AtMostOneIndicatorPerField | webapp/app.py:56-76 | Within one field's group, at most one indicator is 1.0 |
| EncoderProperties.UnlistedValueZeroesGroup | webapp/app.py:51-76 | For a request whose every read succeeds, the request encodes, and a value that matches none of a field's listed levels (an unseen text, a number, or null) leaves the whole group at 0.0 |
| EncoderProperties.ReferenceLevelZeroesGroup | webapp/app.py:51-76 | The reference level of each field (`Female`, `No`, `DSL`, `Month-to-month`, `Bank transfer (automatic)`) leaves its group at 0.0 |
| EncoderProperties.NumericColumnsCarryCoercedValues | webapp/app.py:32-50 | The four numeric columns carry the coerced request values: `SeniorCitizen` and `tenure` truncated to int, and the charges as numbers or NaN |
| EncoderProperties.UnreadFieldsAreIgnored | webapp/app.py:30-77 | Changing a key the adapter never reads does not change the encoding |
| Numeric.ParseDecimal | webapp/app.py:33-35 | A value converts to a number only when it is non-empty, is made only of digits, `.`, `+` and `-`, and holds at least one digit. Anything else is NaN |
| Numeric.ParseDecimalIffNumeral | webapp/app.py:33-35 | A text converts to a number if and only if it is an optional `+`/`-` sign followed by digits with at most one decimal point and at least one digit |
| Numeric.UnsignedParsesIffNumeral | webapp/app.py:33-35 | An unsigned text converts to a number if and only if it is digits, or digits split by one decimal point, with at least one digit |
| Numeric.ParseFixedPoint | webapp/app.py:33-35 | Every numeral with a fractional part (optional minus, whole digits, a point, `d` digits) converts back to the signed value it writes: `Scaled(whole, frac, d)`, negated when the minus is there |
| Numeric.ShiftedDivides | webapp/app.py:33-35 | The fractional part of that value is frac / 10^d, so `Scaled(whole, frac, d)` is whole + frac / 10^d |
| Numeric.PaddedValue | webapp/app.py:33-35 | The `d` zero-padded fractional digits of a number below 10^d read back as that number |
| Numeric.ParseIntToDecimal | webapp/app.py:33 | The decimal text of every integer converts back to that integer |
| Numeric.TruncateToInt | webapp/app.py:33 | The int cast truncates toward zero: the result is within 1 of the value, on the side of zero, and is 0 exactly for values strictly between -1 and 1 |
| Numeric.NonNumeralsAreNaN | webapp/app.py:34-35 | Empty, blank and alphabetic text coerce to NaN instead of raising |
| Serving.Predict | webapp/app.py:89-108 | <br>• With no model, the reply is the status-500 error. <br>• Every error reply has status 500. <br>• A prediction is returned exactly when a model is loaded, the body is a JSON object, encoding succeeds and the model answers. <br>• An encoding failure is reported as such |
| Serving.NoModelIgnoresRequest | webapp/app.py:91-92 | Without a model the reply does not depend on the request: the body is neither read nor encoded |
| Serving.WellFormedRequestIsPredicted | webapp/app.py:93-104 | A request whose every read succeeds is encoded, and is answered with the model's label whenever the model answers |
| Serving.FailedReadIsInternalError | webapp/app.py:93-108 | A request with a failing read (a missing field, or a non-numeric `tenure` or `SeniorCitizen`) gets an error reply with status 500, never a prediction. The failure is the encoding error of the first failing read in the adapter's order |
| Serving.ScenarioShapedEncoding | webapp/app.py:30-77 | Any request whose every read succeeds, with tenure 5, MonthlyCharges 70.5, TotalCharges "350.25" (as text), gender `Female`, Partner `No` and Contract `Month-to-month`, encodes with 5, 70.5 and 350.25 in the numeric columns and 0.0 in the gender, partner and contract indicators. The other fields are left free |
| Serving.ScenarioIsPredicted | webapp/app.py:89-104 | The concrete scenario request is answered with a prediction by any model that answers |
| Cleaning.Clean | scripts/preprocess.py:34-64 | Reports a missing `TotalCharges` column exactly when there is none. Reports "no rows" exactly when no `TotalCharges` value parses. A cleaned frame is rectangular with at least 1 and at most the input's number of rows |
| Cleaning.CleanKeepsParsedRows | scripts/preprocess.py:36-37 | The cleaned frame has one row per input row whose `TotalCharges` parses, in the original order, and no other rows |
| Cleaning.NoSurvivorsIffNoneParse | scripts/preprocess.py:36-37 | No row survives exactly when no `TotalCharges` cell parses. There are never more survivors than input rows |
| Cleaning.ChargesArePresent | scripts/preprocess.py:36-40 | After filtering and filling, `TotalCharges` is numeric with no missing cell. Each survivor keeps its coerced value, and the column is a numeric feature unless it is named `Churn` |
| Cleaning.SurvivorsKeepTheirCells | scripts/preprocess.py:37-40 | Every present text cell of a surviving row reaches that row's new position unchanged, in every column other than `TotalCharges` |
| Cleaning.SurvivorsKeepTheirNumbers | scripts/preprocess.py:37-40 | Every present numeric cell of a surviving row reaches that row's new position unchanged, in every column other than `TotalCharges`. With the text twin above, every present cell travels with its row |
| Cleaning.FillColumn | scripts/preprocess.py:40 | `ffill` keeps a column's name and height. The column stays text exactly when it was text and not "rows but no present cell". Such a column becomes numeric with every cell missing, as pandas 2.x's dtype re-inference after `ffill` gives float64 |
| Cleaning.TextColumnKeptIffSomeValue | scripts/preprocess.py:37-55 | Once rows survive, a text column other than `TotalCharges` is text after the fill exactly when some surviving row holds a value in it. It is then encoded unless it is `customerID` or `Churn`. Otherwise it is an all-missing numeric column and a numeric feature unless it is `Churn` |
| Cleaning.KeptRows | scripts/preprocess.py:37 | `dropna` keeps row `i` exactly when its cell is present, and keeps the rows in increasing order |
| Cleaning.FillForward | scripts/preprocess.py:40 | Forward fill keeps present cells unchanged. A missing cell takes the value of the cell above it (after filling), or the carried value in the first row |
| Cleaning.FillTakesNearestAbove | scripts/preprocess.py:40 | A missing cell takes the nearest present value above it in the same column |
| Cleaning.LeadingMissingStays | scripts/preprocess.py:40 | Cells above a column's first present value stay missing |
| Cleaning.ToNumericColumn | scripts/preprocess.py:36 | Coercion keeps the column's name and height and yields a numeric column. A cell is present exactly when the original text parses; a column that is already numeric is returned unchanged |
| Cleaning.Categorical | scripts/preprocess.py:43-44 | The encoded columns are exactly the text columns other than `customerID` and `Churn` |
| Cleaning.CategoricalAppend | scripts/preprocess.py:43-44 | The categorical selection keeps column order: selecting from a concatenation gives the concatenation of the selections |
| Cleaning.NumericFeatures | scripts/preprocess.py:54-55 | The numeric features are exactly the numeric columns other than `Churn` |
| Cleaning.NumericFeaturesAppend | scripts/preprocess.py:54-55 | The numeric selection keeps column order: selecting from a concatenation gives the concatenation of the selections |
| Cleaning.ChurnLabel | scripts/preprocess.py:61 | `Churn` maps `Yes` to 1 and `No` to 0, and every other value (and every value of a numeric column) to missing |
| Cleaning.CleanLayout | scripts/preprocess.py:40-63 | The output columns are, in order: `customerID`; the numeric columns of the filled frame other than `Churn`, in frame order; the indicators of its text columns other than `customerID` and `Churn`; and the `Churn` label last. The filled frame's kinds are those after dtype re-inference, so a text column left with no value sits among the numeric columns |
| Cleaning.Assemble | scripts/preprocess.py:61-63 | `pd.concat` then `out["Churn"] = y`: the result is rectangular, the feature columns followed by a numeric `Churn` column holding the 0/1 label of the kept `Churn` column |
| Cleaning.NoFeatureIsChurn | scripts/preprocess.py:62-63 | No concatenated feature column is called `Churn`, so `out["Churn"] = y` appends the label as a new last column rather than overwriting a feature |
| Cleaning.CleanNeedsLabelAndId | scripts/preprocess.py:61-62 | Once some row survives, a missing `Churn` column is the error; otherwise a missing `customerID` column is. With both present the frame is produced |
| OneHot.Categories | scripts/preprocess.py:45-46 | The categories cover every cell's value and include nothing else. They are sorted and distinct, with the missing value last |
| OneHot.EncodeColumn | scripts/preprocess.py:45-51 | A column with k categories yields k-1 indicator columns of the column's height |
| OneHot.FeatureNameParts | scripts/preprocess.py:50 | An indicator's name is the column name, `_`, then the category, with a missing value printed as `nan` |
| OneHot.FeatureNamesCollide | scripts/preprocess.py:50 | Within one column two categories share a name exactly when they are equal, or one is missing and the other is the text `nan` |
| OneHot.IndicatorIsOneOnItsCategory | scripts/preprocess.py:45-51 | The indicator of category c is named `<column>_c` and is 1 exactly on the rows holding c, 0 elsewhere |
| OneHot.AtMostOneHot | scripts/preprocess.py:45-51 | No row is 1 in two indicators of the same column |
| OneHot.DroppedCategoryIsAllZeros | scripts/preprocess.py:45-51 | A row is 0 in all of a column's indicators exactly when its value is the dropped first category |
| OneHot.EncodeAll | scripts/preprocess.py:45-51 | The encoded block holds, summed over the text columns, k-1 indicators per column of k categories. Every indicator is as high as the frame, and every indicator name contains `_` |
| TextOrder.SortedDistinct | scripts/preprocess.py:45-46 | The learnt categories are strictly sorted and hold exactly the values of the column |
| TextOrder.SortedIsUnique | scripts/preprocess.py:45-46 | Two strictly sorted lists with the same elements are equal, so the categories are determined by the set of values alone |
| TextOrder.LessTotal | scripts/preprocess.py:45-46 | Python's string order is total: two different strings are ordered one way or the other |
| SchemaAgreement.ReferenceSortsFirst | webapp/app.py:51-76 | For every field, the level the serving code has no column for sorts before all the levels it lists |
| SchemaAgreement.DropFirstDropsReference | scripts/preprocess.py:45-51 | A training column holding exactly a reference level and levels that sort after it is encoded into one indicator per listed level, in order, named `<field>_<level>`. Each indicator is 1 exactly on that level's rows |
| SchemaAgreement.TrainingMatchesServing | webapp/app.py:36-47 | Trained on a column holding every level serving knows for a field, the drop-first encoder produces exactly the serving schema's indicator columns for that field |
| Selection.SelectBest | scripts/evaluate.py:28-77 | <br>• The selected score is max(0, every run's F1). <br>• No run is selected exactly when no F1 exceeds 0. <br>• A selected run attains the maximum, and every earlier run scores strictly less |
| Selection.Step | scripts/evaluate.py:75-77 | One loop step: the best score afterwards is the larger of the two, and the best so far changes exactly when the run scores strictly higher, in which case it names that run |
| Selection.SelectsFirstMaximum | scripts/evaluate.py:75-77 | When the first run with the highest F1 scores above 0, it is the one selected. Ties go to the earliest run |
| Selection.BestNeverDecreases | scripts/evaluate.py:75-77 | The best score so far never decreases as the loop advances |
| Selection.SelectBestLoop | scripts/evaluate.py:28-77 | The loop as written computes the fold. It ends with no run exactly when no F1 exceeds 0 |
| Selection.TieGoesToEarliest | scripts/evaluate.py:75 | With scores 0.62, 0.71 and 0.71, the second run is selected |
| Selection.ModelUriRoundTrip | scripts/evaluate.py:81 | The run id can be read back from the registered `runs:/<id>/model` URI |
| Selection.Register | scripts/evaluate.py:80-82 | A registration happens exactly when a non-empty run id was selected. It registers that run's model under `BestTelcoChurnModel` |
| Selection.Evaluate | scripts/evaluate.py:28-82 | When no run scores above 0, including when there are no runs at all, nothing is registered |
| Selection.RegistersFirstMaximum | scripts/evaluate.py:75-82 | The one registration made is of the first run with the highest positive F1 |
| Selection.NoPositiveScoreNoRegistration | scripts/evaluate.py:28-29 | An empty run list, and a list of runs scoring 0, register nothing |

## Behaviour worth noting

- **Non-numeric charges.** Only `tenure` and `SeniorCitizen` make the
  adapter fail on a non-numeric value, because their int cast meets NaN. A
  non-numeric `MonthlyCharges` or `TotalCharges` silently becomes NaN
  (webapp/app.py:32-35).
- **Run selection.** An exception while evaluating a run ends the script;
  no run is skipped. The registration sets no alias
  (scripts/evaluate.py:31-82).
- **Emptied text columns.** A text column whose only values sat in rows
  with a non-numeric `TotalCharges` holds nothing after the row filter.
  pandas 2.x re-infers its dtype after `ffill`, so the column becomes an
  all-missing numeric column. It is then a numeric feature, not an encoded
  one (scripts/preprocess.py:37-55).
- **Empty run id.** `if best_run_id:` tests truthiness, so an empty run id
  registers nothing, just like no run.

## Left out

- **Plumbing.** I/O and infrastructure are left out: Flask app setup,
  templates, JSON parsing details, MLflow tracking, model loading and the
  registry service, DVC, CSV/parquet files, `argparse`, and printing. They
  become inputs or parameters: the loaded model, the request body, the run
  list, and the F1 scores.
- **`scripts/train.py`, `webapp/static/script.js` and `analyze_types`.** They
  are not part of this model. The first only fits estimators over a fixed
  grid, the second is asynchronous DOM code, and the third only prints.
- **Sampling.** The seeded sampling of the reduced dataset and the
  train/test split are random sampling.
- **Metrics.** Accuracy, F1 and AUC are floating-point computations, as are
  the ROC and confusion-matrix plots. F1 scores are inputs and are ordered
  as reals; a NaN F1 is not modelled.
- **Standardisation skew (observation).** Training standardises the numeric
  columns, including `SeniorCitizen`, while serving passes raw values
  (scripts/preprocess.py:54-58 against webapp/app.py:49-50). This is
  recorded here and not changed.
- **Missing alias (observation).** Registration does not set the
  `production` alias that serving loads (scripts/evaluate.py:82 against
  webapp/app.py:17-18). This is recorded here, and alias semantics are not
  modelled.
- Cleaning.Clean: the numeric feature columns are the values before
  standardisation. `StandardScaler`'s mean and variance are floating-point
  statistics and are left out.
- Cleaning.Clean: it requires a well-formed frame (equal column heights,
  distinct names), which `read_csv` guarantees.
- Cleaning.Clean: dtypes other than object and int64/float64 (bool,
  datetime, category) are not modelled.
- Cleaning.FillColumn: follows pandas 2.x, where `ffill` re-infers object
  columns. pandas 3.0 keeps the object dtype, and that behaviour is not
  modelled. Text cells are strings, so an emptied column is the only one
  the re-inference changes.
- Cleaning.Clean: with zero text features, the encoder is taken to yield
  zero indicator columns.
- Numeric.ParseDecimal: values are exact decimals, not the nearest
  double. `pandas.to_numeric` rounds to float64, so `"4.99999999999999999"`
  truncates to 4 here and to 5 in pandas; binary rounding is left out.
- Numeric.ParseDecimal: only plain decimal numerals are accepted.
  Exponents, surrounding whitespace, `inf`/`nan` spellings, thousands
  separators and Unicode digits are treated as non-numeric, which
  `pandas.to_numeric` does not always do.
- Encoder.ToNumeric: a JSON number is kept as an exact, finite real, not
  the float64 Python's `json` reads. So `4.99999999999999999` casts to 4
  here, and to 5 in the source. The non-finite values `json` accepts
  (`NaN`, `Infinity`, and literals such as `1e400` that overflow), on which
  `astype(int)` raises, are not modelled.
- Encoder.ToNumeric: a JSON boolean counts as 1/0. Nested JSON values
  (lists, objects) are not modelled.
- Encoder.CoercedValue: the cast values are those of exact reals, so for a
  JSON number it does not promise the float64 rounding the source applies
  before truncating (see `Encoder.ToNumeric` above).
- Encoder.Encode: integer overflow in `astype(int)` for huge values is not
  modelled.
- Serving.Predict: the model's own failure modes are opaque. `None` stands
  for any exception from `predict` or from the `int(...)` conversion of its
  first label.
- Selection.SelectBest: an exception while evaluating a run, which ends the
  script, is not modelled.
