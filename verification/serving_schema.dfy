/** The fixed feature layout the serving adapter builds for the model
    (webapp/app.py, `preprocess_input`), written as declarative tables. */
module ServingSchema {

  /** A column of the model input: a numeric field copied from the request,
      or the one-hot indicator of one level of a categorical field. */
  datatype Column = Numeric(field: string) | Indicator(field: string, level: string)

  /** How a numeric field is coerced before it is copied. */
  datatype Cast = ToInt | ToFloat

  /** A numeric coercion step: which field, and which cast. */
  datatype Coercion = Coercion(field: string, cast: Cast)

  /** One `if`/`elif` chain: the field read, and the levels compared in order;
      the branch for level `l` sets the column `field_l` to 1.0. */
  datatype Chain = Chain(field: string, levels: seq<string>)

  /** The name pandas gives a column; indicators follow `field_level`. */
  function ColumnName(c: Column): string
  {
    match c
    case Numeric(f) => f
    case Indicator(f, l) => f + "_" + l
  }

  function ColumnNames(schema: seq<Column>): (names: seq<string>)
    ensures |names| == |schema|
    ensures forall i :: 0 <= i < |schema| ==> names[i] == ColumnName(schema[i])
  {
    seq(|schema|, i requires 0 <= i < |schema| => ColumnName(schema[i]))
  }

  /** The column list exactly as the adapter spells it out. */
  const ExpectedSchemaCols: seq<string> := [
    "SeniorCitizen", "tenure", "MonthlyCharges", "TotalCharges", "gender_Male",
    "Partner_Yes", "Dependents_Yes", "PhoneService_Yes", "MultipleLines_No phone service",
    "MultipleLines_Yes", "InternetService_Fiber optic", "InternetService_No",
    "OnlineSecurity_No internet service", "OnlineSecurity_Yes",
    "OnlineBackup_No internet service", "OnlineBackup_Yes",
    "DeviceProtection_No internet service", "DeviceProtection_Yes",
    "TechSupport_No internet service", "TechSupport_Yes", "StreamingTV_No internet service",
    "StreamingTV_Yes", "StreamingMovies_No internet service", "StreamingMovies_Yes",
    "Contract_One year", "Contract_Two year", "PaperlessBilling_Yes",
    "PaymentMethod_Credit card (automatic)", "PaymentMethod_Electronic check", "PaymentMethod_Mailed check"
  ]

  /** The same 30 columns as a table of (field, level) entries; the column
      index of an entry is its position. */
  const Schema: seq<Column> := [
    Numeric("SeniorCitizen"), Numeric("tenure"), Numeric("MonthlyCharges"), Numeric("TotalCharges"),
    Indicator("gender", "Male"),
    Indicator("Partner", "Yes"),
    Indicator("Dependents", "Yes"),
    Indicator("PhoneService", "Yes"),
    Indicator("MultipleLines", "No phone service"), Indicator("MultipleLines", "Yes"),
    Indicator("InternetService", "Fiber optic"), Indicator("InternetService", "No"),
    Indicator("OnlineSecurity", "No internet service"), Indicator("OnlineSecurity", "Yes"),
    Indicator("OnlineBackup", "No internet service"), Indicator("OnlineBackup", "Yes"),
    Indicator("DeviceProtection", "No internet service"), Indicator("DeviceProtection", "Yes"),
    Indicator("TechSupport", "No internet service"), Indicator("TechSupport", "Yes"),
    Indicator("StreamingTV", "No internet service"), Indicator("StreamingTV", "Yes"),
    Indicator("StreamingMovies", "No internet service"), Indicator("StreamingMovies", "Yes"),
    Indicator("Contract", "One year"), Indicator("Contract", "Two year"),
    Indicator("PaperlessBilling", "Yes"),
    Indicator("PaymentMethod", "Credit card (automatic)"), Indicator("PaymentMethod", "Electronic check"),
    Indicator("PaymentMethod", "Mailed check")
  ]

  /** The coercion loops, in the order they run. */
  const Coercions: seq<Coercion> := [
    Coercion("tenure", ToInt), Coercion("SeniorCitizen", ToInt),
    Coercion("MonthlyCharges", ToFloat), Coercion("TotalCharges", ToFloat)
  ]

  /** The numeric columns copied into the zero frame, in the order copied. */
  const CopiedColumns: seq<string> := ["SeniorCitizen", "tenure", "MonthlyCharges", "TotalCharges"]

  /** The indicator statements, in the order they run. */
  const Chains: seq<Chain> := [
    Chain("gender", ["Male"]),
    Chain("Partner", ["Yes"]),
    Chain("Dependents", ["Yes"]),
    Chain("PhoneService", ["Yes"]),
    Chain("PaperlessBilling", ["Yes"]),
    Chain("MultipleLines", ["No phone service", "Yes"]),
    Chain("InternetService", ["Fiber optic", "No"]),
    Chain("OnlineSecurity", ["No internet service", "Yes"]),
    Chain("OnlineBackup", ["No internet service", "Yes"]),
    Chain("DeviceProtection", ["No internet service", "Yes"]),
    Chain("TechSupport", ["No internet service", "Yes"]),
    Chain("StreamingTV", ["No internet service", "Yes"]),
    Chain("StreamingMovies", ["No internet service", "Yes"]),
    Chain("Contract", ["One year", "Two year"]),
    Chain("PaymentMethod", ["Credit card (automatic)", "Electronic check", "Mailed check"])
  ]

  predicate Distinct<T(==)>(s: seq<T>) {
    forall i, j :: 0 <= i < j < |s| ==> s[i] != s[j]
  }

  /** The well-formedness the adapter's tables rely on: column names are
      unique, each chain reads a different field, every branch of a chain
      targets an indicator column of the schema, every indicator column is
      reached by the chain of its field, and the copy loop covers exactly the
      numeric columns and the coerced fields. */
  predicate Layout(schema: seq<Column>, chains: seq<Chain>, copied: seq<string>, coercions: seq<Coercion>)
  {
    && Distinct(ColumnNames(schema))
    && Distinct(seq(|chains|, k requires 0 <= k < |chains| => chains[k].field))
    && (forall k, l :: 0 <= k < |chains| && l in chains[k].levels ==> Indicator(chains[k].field, l) in schema)
    && (forall i :: 0 <= i < |schema| && schema[i].Indicator? ==>
          exists k :: 0 <= k < |chains| && chains[k].field == schema[i].field && schema[i].level in chains[k].levels)
    && (forall k :: 0 <= k < |copied| ==> Numeric(copied[k]) in schema)
    && (forall i :: 0 <= i < |schema| && schema[i].Numeric? ==> schema[i].field in copied)
    && (forall k :: 0 <= k < |coercions| ==> coercions[k].field in copied)
  }
}
