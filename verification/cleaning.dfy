/** `clean_and_transform` (scripts/preprocess.py:34-64): coerce
    `TotalCharges` to numbers, drop the rows where that fails, forward-fill
    every column, one-hot encode the text features with the first category
    dropped, map `Churn` to 1/0, and assemble `customerID`, the numeric
    features, the indicators and `Churn`, in that order. */
module Cleaning {
  import opened Results
  import opened Numeric
  import opened Frames
  import opened OneHot

  /** The exceptions the function can raise: a column it indexes is absent
      (`KeyError`), or no row survives, which scikit-learn refuses to fit
      on (`ValueError`). */
  datatype CleanError = MissingColumn(column: string) | NoRows

  /** Row `i` of `c` holds a number once `pd.to_numeric(errors="coerce")`
      has been applied. */
  predicate Parses(c: Column, i: nat)
    requires i < Height(c)
  {
    match c
    case TextColumn(_, texts) => texts[i].Some? && ParseDecimal(texts[i].value).Some?
    case NumberColumn(_, numbers) => numbers[i].Some?
  }

  /** `pd.to_numeric(c, errors="coerce")`: text cells that are not numerals
      become missing; a numeric column is returned as it is. */
  function ToNumericColumn(c: Column): (r: Column)
    ensures r.NumberColumn? && r.name == c.name && Height(r) == Height(c)
    ensures forall i :: 0 <= i < Height(c) ==> (r.numbers[i].Some? <==> Parses(c, i))
    ensures c.NumberColumn? ==> r == c
  {
    match c
    case NumberColumn(_, _) => c
    case TextColumn(name, texts) =>
      NumberColumn(name, seq(|texts|, i requires 0 <= i < |texts| =>
        if texts[i].Some? then ParseDecimal(texts[i].value) else None))
  }

  /** The rows `dropna` keeps, in their original order. */
  function KeptRows<T>(cells: seq<Option<T>>): (r: seq<nat>)
    ensures forall k :: 0 <= k < |r| ==> r[k] < |cells| && cells[r[k]].Some?
    ensures forall i :: 0 <= i < |cells| && cells[i].Some? ==> i in r
    ensures forall k, l :: 0 <= k < l < |r| ==> r[k] < r[l]
  {
    if |cells| == 0 then []
    else
      var init := KeptRows(cells[..|cells| - 1]);
      if cells[|cells| - 1].Some? then init + [|cells| - 1] else init
  }

  /** The cells of `xs` at `rows`, in that order. */
  function Pick<T>(xs: seq<T>, rows: seq<nat>): (r: seq<T>)
    requires forall k :: 0 <= k < |rows| ==> rows[k] < |xs|
    ensures |r| == |rows| && forall k :: 0 <= k < |rows| ==> r[k] == xs[rows[k]]
  {
    seq(|rows|, k requires 0 <= k < |rows| => xs[rows[k]])
  }

  function SelectRows(c: Column, rows: seq<nat>): (r: Column)
    requires forall k :: 0 <= k < |rows| ==> rows[k] < Height(c)
    ensures r.name == c.name && r.TextColumn? == c.TextColumn? && Height(r) == |rows|
  {
    match c
    case TextColumn(name, texts) =>
      assert Height(c) == |texts|;
      TextColumn(name, Pick(texts, rows))
    case NumberColumn(name, numbers) =>
      assert Height(c) == |numbers|;
      NumberColumn(name, Pick(numbers, rows))
  }

  /** `ffill` on one column, `carry` being the value last seen above it. */
  function FillForward<T>(cells: seq<Option<T>>, carry: Option<T>): (r: seq<Option<T>>)
    ensures |r| == |cells|
    ensures forall i :: 0 <= i < |cells| && cells[i].Some? ==> r[i] == cells[i]
    ensures forall i :: 0 <= i < |cells| && cells[i].None? ==> r[i] == (if i == 0 then carry else r[i - 1])
  {
    if |cells| == 0 then []
    else
      var v := if cells[0].Some? then cells[0] else carry;
      var rest := FillForward(cells[1..], v);
      assert forall i :: 1 <= i < |cells| ==> cells[i] == cells[1..][i - 1];
      [v] + rest
  }

  /** A text column with rows but no present cell: pandas 2.x re-infers
      the dtype of object columns once `ffill` is done, and such a column
      comes out as float64. */
  predicate OnlyMissing(c: Column)
  {
    c.TextColumn? && |c.texts| > 0 && forall i :: 0 <= i < |c.texts| ==> c.texts[i].None?
  }

  /** `ffill` on one column, followed by the dtype re-inference of object
      columns. */
  function FillColumn(c: Column): (r: Column)
    ensures r.name == c.name && Height(r) == Height(c)
    ensures r.TextColumn? <==> c.TextColumn? && !OnlyMissing(c)
    ensures OnlyMissing(c) ==> forall i :: 0 <= i < Height(r) ==> r.numbers[i].None?
  {
    match c
    case TextColumn(name, texts) =>
      if OnlyMissing(c) then NumberColumn(name, seq(|texts|, i => None))
      else TextColumn(name, FillForward(texts, None))
    case NumberColumn(name, numbers) => NumberColumn(name, FillForward(numbers, None))
  }

  /** A missing cell takes the nearest present value above it. */
  lemma {:induction false} FillTakesNearestAbove<T>(cells: seq<Option<T>>, j: nat, i: nat)
    requires j <= i < |cells| && cells[j].Some?
    requires forall m :: j < m <= i ==> cells[m].None?
    ensures FillForward(cells, None)[i] == cells[j]
    decreases i - j
  {
    if i > j {
      FillTakesNearestAbove(cells, j, i - 1);
    }
  }

  /** Cells above a column's first present value stay missing. */
  lemma {:induction false} LeadingMissingStays<T>(cells: seq<Option<T>>, i: nat)
    requires i < |cells| && forall m :: 0 <= m <= i ==> cells[m].None?
    ensures FillForward(cells, None)[i].None?
  {
    if i > 0 {
      LeadingMissingStays(cells, i - 1);
    }
  }

  /** Coerce, drop and fill: the frame as it stands before encoding. */
  function Surviving(columns: seq<Column>, rows: seq<nat>): (r: seq<Column>)
    requires forall j, k :: 0 <= j < |columns| && 0 <= k < |rows| ==> rows[k] < Height(columns[j])
    ensures |r| == |columns| && Rectangular(|rows|, r)
    ensures forall j :: 0 <= j < |columns| ==> r[j].name == columns[j].name
    ensures forall j :: 0 <= j < |columns| ==>
              (r[j].TextColumn? <==> columns[j].TextColumn? && !OnlyMissing(SelectRows(columns[j], rows)))
  {
    seq(|columns|, j requires 0 <= j < |columns| => FillColumn(SelectRows(columns[j], rows)))
  }

  /** The text columns other than `customerID` and `Churn`, in order. */
  function Categorical(columns: seq<Column>): (r: seq<Column>)
    ensures forall j :: 0 <= j < |r| ==> r[j].TextColumn? && r[j].name != "customerID" && r[j].name != "Churn"
    ensures forall c :: c in r <==> c in columns && c.TextColumn? && c.name != "customerID" && c.name != "Churn"
    ensures forall j :: 0 <= j < |r| ==> r[j] in columns
  {
    if |columns| == 0 then []
    else
      var c := columns[0];
      (if c.TextColumn? && c.name != "customerID" && c.name != "Churn" then [c] else [])
        + Categorical(columns[1..])
  }

  /** The numeric columns other than `Churn`, in order. */
  function NumericFeatures(columns: seq<Column>): (r: seq<Column>)
    ensures forall j :: 0 <= j < |r| ==> r[j].NumberColumn? && r[j].name != "Churn"
    ensures forall c :: c in r <==> c in columns && c.NumberColumn? && c.name != "Churn"
    ensures forall j :: 0 <= j < |r| ==> r[j] in columns
  {
    if |columns| == 0 then []
    else
      var c := columns[0];
      (if c.NumberColumn? && c.name != "Churn" then [c] else []) + NumericFeatures(columns[1..])
  }

  /** How a concatenation splits into its first element and the rest. */
  lemma ConcatSplits(a: seq<Column>, b: seq<Column>)
    ensures |a| == 0 ==> a + b == b
    ensures |a| > 0 ==> (a + b)[0] == a[0] && (a + b)[1..] == a[1..] + b
  {
  }

  /** Selecting categorical columns keeps their order: the selection of a
      concatenation is the concatenation of the selections. */
  lemma {:induction false} CategoricalAppend(a: seq<Column>, b: seq<Column>)
    ensures Categorical(a + b) == Categorical(a) + Categorical(b)
  {
    ConcatSplits(a, b);
    if |a| > 0 {
      CategoricalAppend(a[1..], b);
    }
  }

  /** Selecting numeric columns keeps their order likewise. */
  lemma {:induction false} NumericFeaturesAppend(a: seq<Column>, b: seq<Column>)
    ensures NumericFeatures(a + b) == NumericFeatures(a) + NumericFeatures(b)
  {
    ConcatSplits(a, b);
    if |a| > 0 {
      NumericFeaturesAppend(a[1..], b);
    }
  }

  /** `df["Churn"].map({"No": 0, "Yes": 1})`: every other value, and every
      value of a numeric column, maps to missing. */
  function ChurnLabel(c: Column): (r: seq<Option<real>>)
    ensures |r| == Height(c)
    ensures forall i :: 0 <= i < |r| ==> (r[i] == Some(1.0) <==> c.TextColumn? && c.texts[i] == Some("Yes"))
    ensures forall i :: 0 <= i < |r| ==> (r[i] == Some(0.0) <==> c.TextColumn? && c.texts[i] == Some("No"))
    ensures forall i :: 0 <= i < |r| ==> r[i] in {None, Some(0.0), Some(1.0)}
  {
    match c
    case NumberColumn(_, numbers) => seq(|numbers|, i => None)
    case TextColumn(_, texts) =>
      seq(|texts|, i requires 0 <= i < |texts| =>
        if texts[i] == Some("Yes") then Some(1.0) else if texts[i] == Some("No") then Some(0.0) else None)
  }

  /** The rows that survive: those whose `TotalCharges` parses. */
  function Survivors(d: DataFrame, k: nat): (rows: seq<nat>)
    requires WellFormed(d) && k < |d.columns|
    ensures forall m :: 0 <= m < |rows| ==> rows[m] < d.height && Parses(d.columns[k], rows[m])
    ensures forall i :: 0 <= i < d.height && Parses(d.columns[k], i) ==> i in rows
    ensures forall m, l :: 0 <= m < l < |rows| ==> rows[m] < rows[l]
  {
    KeptRows(ToNumericColumn(d.columns[k]).numbers)
  }

  /** Strictly increasing row numbers below `n` are at most `n` many. */
  lemma {:induction false} IncreasingRowsBounded(rows: seq<nat>, n: nat)
    requires forall m :: 0 <= m < |rows| ==> rows[m] < n
    requires forall m, l :: 0 <= m < l < |rows| ==> rows[m] < rows[l]
    ensures |rows| <= n
  {
    if |rows| > 0 {
      var last := rows[|rows| - 1];
      IncreasingRowsBounded(rows[..|rows| - 1], last);
    }
  }

  /** No row survives exactly when no `TotalCharges` cell parses. */
  lemma NoSurvivorsIffNoneParse(d: DataFrame, k: nat)
    requires WellFormed(d) && k < |d.columns|
    ensures |Survivors(d, k)| == 0 <==> forall i :: 0 <= i < d.height ==> !Parses(d.columns[k], i)
    ensures |Survivors(d, k)| <= d.height
  {
    var rows := Survivors(d, k);
    IncreasingRowsBounded(rows, d.height);
    if |rows| > 0 {
      assert Parses(d.columns[k], rows[0]);
    }
  }

  /** The columns after the row filter and the forward fill. */
  function Filled(d: DataFrame, k: nat): (r: seq<Column>)
    requires WellFormed(d) && k < |d.columns|
    ensures |r| == |d.columns| && Rectangular(|Survivors(d, k)|, r)
    ensures forall j :: 0 <= j < |r| ==> r[j].name == d.columns[j].name
    ensures forall j :: 0 <= j < |r| && j != k ==>
              (r[j].TextColumn? <==> d.columns[j].TextColumn? && !OnlyMissing(SelectRows(d.columns[j], Survivors(d, k))))
    ensures r[k].NumberColumn?
  {
    var coerced := d.columns[k := ToNumericColumn(d.columns[k])];
    Surviving(coerced, Survivors(d, k))
  }

  /** The frame `clean_and_transform` returns, or the exception it raises
      first. */
  function Clean(d: DataFrame): (r: Result<DataFrame, CleanError>)
    requires WellFormed(d)
    ensures r == Err(MissingColumn("TotalCharges")) <==> Find(d.columns, "TotalCharges").None?
    ensures r == Err(NoRows) <==>
              Find(d.columns, "TotalCharges").Some? &&
              forall i :: 0 <= i < d.height ==> !Parses(d.columns[Find(d.columns, "TotalCharges").value], i)
    ensures r.Ok? ==> 0 < r.value.height <= d.height && Rectangular(r.value.height, r.value.columns)
  {
    match Find(d.columns, "TotalCharges")
    case None => Err(MissingColumn("TotalCharges"))
    case Some(k) =>
      var rows := Survivors(d, k);
      NoSurvivorsIffNoneParse(d, k);
      if |rows| == 0 then
        Err(NoRows)
      else
        Finish(Filled(d, k), |rows|)
  }

  /** From the filled columns on: the label, the feature blocks, and the
      concatenation. */
  function Finish(kept: seq<Column>, height: nat): (r: Result<DataFrame, CleanError>)
    requires Rectangular(height, kept)
    ensures r.Err? ==> r.error == MissingColumn("Churn") || r.error == MissingColumn("customerID")
    ensures r.Ok? ==> r.value.height == height && Rectangular(height, r.value.columns)
  {
    match Find(kept, "Churn")
    case None => Err(MissingColumn("Churn"))
    case Some(y) =>
      match Find(kept, "customerID")
      case None => Err(MissingColumn("customerID"))
      case Some(id) =>
        Ok(DataFrame(height, Assemble(kept, height, id, y)))
  }

  /** `pd.concat([df[["customerID"]], num_df, cat_df], axis=1)` followed by
      `out["Churn"] = y`. */
  function Assemble(kept: seq<Column>, height: nat, id: nat, y: nat): (r: seq<Column>)
    requires Rectangular(height, kept) && id < |kept| && y < |kept|
    requires kept[id].name == "customerID"
    ensures Rectangular(height, r)
    ensures r == Features(kept, height, id) + [NumberColumn("Churn", ChurnLabel(kept[y]))]
  {
    var features := Features(kept, height, id);
    var churn := NumberColumn("Churn", ChurnLabel(kept[y]));
    NoFeatureIsChurn(kept, height, id);
    assert Height(churn) == Height(kept[y]) == height;
    RectangularAppend(height, features, [churn]);
    Assign(features, churn)
  }

  /** The concatenated feature columns, before `Churn` is added. */
  function Features(kept: seq<Column>, height: nat, id: nat): (r: seq<Column>)
    requires Rectangular(height, kept) && id < |kept|
    ensures Rectangular(height, r)
  {
    var numeric := NumericFeatures(kept);
    var categorical := Categorical(kept);
    MembersRectangular(height, kept, numeric);
    MembersRectangular(height, kept, categorical);
    var encoded := EncodeAll(categorical, height);
    RectangularAppend(height, [kept[id]], numeric);
    RectangularAppend(height, [kept[id]] + numeric, encoded);
    [kept[id]] + numeric + encoded
  }

  /** No feature column is called `Churn`: `customerID` is not, the numeric
      features exclude it, and every indicator name holds an underscore. */
  lemma NoFeatureIsChurn(kept: seq<Column>, height: nat, id: nat)
    requires Rectangular(height, kept) && id < |kept| && kept[id].name == "customerID"
    ensures Find(Features(kept, height, id), "Churn").None?
  {
    var numeric := NumericFeatures(kept);
    var encoded := EncodeAll(Categorical(kept), height);
    assert Features(kept, height, id) == [kept[id]] + numeric + encoded;
    ChurnHasNoUnderscore();
    assert forall j :: 0 <= j < |encoded| ==> encoded[j].name != "Churn";
    assert Find([kept[id]], "Churn").None?;
    FindAppendNone([kept[id]], numeric, "Churn");
    FindAppendNone([kept[id]] + numeric, encoded, "Churn");
  }

  lemma ChurnHasNoUnderscore()
    ensures '_' !in "Churn"
  {
  }

  /** The columns of a cleaned frame: `customerID`, then the numeric
      columns other than `Churn` in frame order, then the indicators of the
      text columns other than `customerID` and `Churn`, then the `Churn`
      label, last. */
  lemma CleanLayout(d: DataFrame)
    requires WellFormed(d) && Clean(d).Ok?
    ensures Find(d.columns, "TotalCharges").Some?
    ensures
      var k := Find(d.columns, "TotalCharges").value;
      var kept := Filled(d, k);
      var h := |Survivors(d, k)|;
      Clean(d) == Finish(kept, h) &&
      Find(kept, "Churn").Some? && Find(kept, "customerID").Some? &&
      Clean(d).value.columns ==
        [kept[Find(kept, "customerID").value]] + NumericFeatures(kept)
        + EncodeAll(Categorical(kept), h)
        + [NumberColumn("Churn", ChurnLabel(kept[Find(kept, "Churn").value]))]
  {
    var k := Find(d.columns, "TotalCharges").value;
    var h := |Survivors(d, k)|;
    assert Clean(d) == Finish(Filled(d, k), h);
    assert Rectangular(h, Filled(d, k));
    FinishLayout(Filled(d, k), h);
  }

  lemma FinishLayout(kept: seq<Column>, h: nat)
    requires Rectangular(h, kept) && Finish(kept, h).Ok?
    ensures Find(kept, "Churn").Some? && Find(kept, "customerID").Some?
    ensures Finish(kept, h).value.columns ==
              [kept[Find(kept, "customerID").value]] + NumericFeatures(kept)
              + EncodeAll(Categorical(kept), h)
              + [NumberColumn("Churn", ChurnLabel(kept[Find(kept, "Churn").value]))]
  {
    var y := Find(kept, "Churn").value;
    var id := Find(kept, "customerID").value;
    var categorical := Categorical(kept);
    assert forall j :: 0 <= j < |categorical| ==> categorical[j] in kept;
    assert Features(kept, h, id) == [kept[id]] + NumericFeatures(kept) + EncodeAll(categorical, h);
  }

  /** Once some row survives, a missing `Churn` column is reported first,
      then a missing `customerID` column; with both present the frame is
      produced. */
  lemma CleanNeedsLabelAndId(d: DataFrame)
    requires WellFormed(d) && Find(d.columns, "TotalCharges").Some?
    requires exists i :: 0 <= i < d.height && Parses(d.columns[Find(d.columns, "TotalCharges").value], i)
    ensures Clean(d) == Err(MissingColumn("Churn")) <==> Find(d.columns, "Churn").None?
    ensures Clean(d) == Err(MissingColumn("customerID")) <==>
              Find(d.columns, "Churn").Some? && Find(d.columns, "customerID").None?
    ensures Clean(d).Ok? <==> Find(d.columns, "Churn").Some? && Find(d.columns, "customerID").Some?
  {
    var k := Find(d.columns, "TotalCharges").value;
    var kept := Filled(d, k);
    NoSurvivorsIffNoneParse(d, k);
    assert Clean(d) == Finish(kept, |Survivors(d, k)|);
    FindSeesOnlyNames(kept, d.columns, "Churn");
    FindSeesOnlyNames(kept, d.columns, "customerID");
  }

  /** The frame keeps exactly the rows whose `TotalCharges` parses, in their
      original order. */
  lemma CleanKeepsParsedRows(d: DataFrame)
    requires WellFormed(d) && Clean(d).Ok?
    ensures Find(d.columns, "TotalCharges").Some?
    ensures
      var k := Find(d.columns, "TotalCharges").value;
      var rows := Survivors(d, k);
      && Clean(d).value.height == |rows|
      && (forall i :: 0 <= i < d.height ==> (Parses(d.columns[k], i) <==> i in rows))
      && (forall m, l :: 0 <= m < l < |rows| ==> rows[m] < rows[l])
  {
  }

  /** After cleaning, `TotalCharges` is numeric with no missing cell, and
      each survivor keeps its coerced value. */
  lemma ChargesArePresent(d: DataFrame, k: nat, m: nat)
    requires WellFormed(d) && k < |d.columns| && m < |Survivors(d, k)|
    ensures Filled(d, k)[k].numbers[m].Some?
    ensures Filled(d, k)[k].numbers[m] == ToNumericColumn(d.columns[k]).numbers[Survivors(d, k)[m]]
    ensures Filled(d, k)[k] in NumericFeatures(Filled(d, k)) <==> d.columns[k].name != "Churn"
  {
    var rows := Survivors(d, k);
    var picked := Pick(ToNumericColumn(d.columns[k]).numbers, rows);
    assert Filled(d, k)[k] == NumberColumn(d.columns[k].name, FillForward(picked, None));
  }

  /** Once some row survives, a text column other than `TotalCharges` is
      still text after the fill exactly when a surviving row holds a value
      in it; otherwise it is an all-missing numeric column, a numeric
      feature unless it is `Churn`, and is not encoded. */
  lemma TextColumnKeptIffSomeValue(d: DataFrame, k: nat, j: nat)
    requires WellFormed(d) && k < |d.columns| && j < |d.columns| && j != k
    requires d.columns[j].TextColumn? && |Survivors(d, k)| > 0
    ensures
      var rows := Survivors(d, k);
      var kept := Filled(d, k);
      var present := exists m :: 0 <= m < |rows| && d.columns[j].texts[rows[m]].Some?;
      && (kept[j].TextColumn? <==> present)
      && (kept[j] in Categorical(kept) <==> present && d.columns[j].name != "customerID" && d.columns[j].name != "Churn")
      && (kept[j] in NumericFeatures(kept) <==> !present && d.columns[j].name != "Churn")
      && (!present ==> forall m :: 0 <= m < |rows| ==> kept[j].numbers[m].None?)
  {
    var rows := Survivors(d, k);
    var kept := Filled(d, k);
    var picked := SelectRows(d.columns[j], rows);
    assert picked.texts == Pick(d.columns[j].texts, rows);
    assert kept[j] == FillColumn(picked);
  }

  /** A present text cell of any column other than `TotalCharges` is
      carried to its survivor's position unchanged. */
  lemma SurvivorsKeepTheirCells(d: DataFrame, k: nat, j: nat, m: nat)
    requires WellFormed(d) && k < |d.columns| && j < |d.columns| && j != k
    requires m < |Survivors(d, k)| && d.columns[j].TextColumn?
    requires d.columns[j].texts[Survivors(d, k)[m]].Some?
    ensures Filled(d, k)[j].texts[m] == d.columns[j].texts[Survivors(d, k)[m]]
  {
    var rows := Survivors(d, k);
    var picked := Pick(d.columns[j].texts, rows);
    assert Filled(d, k)[j] == TextColumn(d.columns[j].name, FillForward(picked, None));
  }

  /** The same for a numeric column: a present number of a surviving row
      reaches that row's new position unchanged. */
  lemma SurvivorsKeepTheirNumbers(d: DataFrame, k: nat, j: nat, m: nat)
    requires WellFormed(d) && k < |d.columns| && j < |d.columns| && j != k
    requires m < |Survivors(d, k)| && d.columns[j].NumberColumn?
    requires d.columns[j].numbers[Survivors(d, k)[m]].Some?
    ensures Filled(d, k)[j].numbers[m] == d.columns[j].numbers[Survivors(d, k)[m]]
  {
    var rows := Survivors(d, k);
    var picked := Pick(d.columns[j].numbers, rows);
    assert Filled(d, k)[j] == NumberColumn(d.columns[j].name, FillForward(picked, None));
  }
}
