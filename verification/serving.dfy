/** The `/predict` route (webapp/app.py, `predict`): check that a model is
    loaded, encode the request body, call the model, and turn every
    failure into an error reply with status 500. */
module Serving {
  import opened Results
  import opened Numeric
  import opened ServingSchema
  import opened Encoder
  import opened EncoderProperties
  import SchemaFacts

  /** The loaded model's `predict` on the encoded row, as the route sees
      it: the first predicted label as an int, or `None` when the call
      raises. The model itself is loaded outside this model. */
  type Classifier = Row -> Option<int>

  /** The request body as `request.get_json()` delivers it: a JSON object,
      or anything else (no JSON, malformed JSON, a non-object value), all of
      which make the handler raise. */
  datatype Body = JsonObject(fields: Record) | OtherBody

  /** Why a request failed. */
  datatype Failure =
    | ModelUnavailable
    | UnreadableBody
    | Encoding(error: EncodeError)
    | PredictionRaised

  datatype Reply = Prediction(predicted: int) | ErrorReply(status: int, failure: Failure)

  /** The route handler. `model` is `None` when loading at start-up
      failed. */
  function Predict(model: Option<Classifier>, body: Body): (r: Reply)
    ensures model.None? ==> r == ErrorReply(500, ModelUnavailable)
    ensures r.ErrorReply? ==> r.status == 500
    ensures r.Prediction? <==> model.Some? && body.JsonObject? && Encode(body.fields).Ok?
                               && model.value(Encode(body.fields).value).Some?
    ensures r.Prediction? ==> r.predicted == model.value(Encode(body.fields).value).value
    ensures model.Some? && body.JsonObject? && Encode(body.fields).Err? ==>
              r == ErrorReply(500, Encoding(Encode(body.fields).error))
  {
    match model
    case None => ErrorReply(500, ModelUnavailable)
    case Some(classify) =>
      match body
      case OtherBody => ErrorReply(500, UnreadableBody)
      case JsonObject(fields) =>
        match Encode(fields)
        case Err(e) => ErrorReply(500, Encoding(e))
        case Ok(row) =>
          match classify(row)
          case None => ErrorReply(500, PredictionRaised)
          case Some(y) => Prediction(y)
  }

  /** Without a model the reply is the same whatever the request: the body
      is neither read nor encoded. */
  lemma NoModelIgnoresRequest(a: Body, b: Body)
    ensures Predict(None, a) == Predict(None, b)
  {
  }

  /** With a model loaded, the route never replies with an error for a
      request whose every read succeeds and on which the model answers. */
  lemma WellFormedRequestIsPredicted(classify: Classifier, rec: Record)
    requires forall k :: 0 <= k < |ReadOrder| ==> !LookupFails(rec, ReadOrder[k])
    ensures Encode(rec).Ok?
    ensures classify(Encode(rec).value).Some? ==>
              Predict(Some(classify), JsonObject(rec)) == Prediction(classify(Encode(rec).value).value)
  {
    EncodeFailsAtFirstBadRead(rec);
  }

  /** A request with a failing read (a missing field, or a non-numeric
      `tenure` or `SeniorCitizen`) is answered with status 500 and the
      error of the first failing read, at or before `k`, never with a
      prediction. */
  lemma FailedReadIsInternalError(classify: Classifier, rec: Record, k: nat)
    requires k < |ReadOrder| && LookupFails(rec, ReadOrder[k])
    ensures Predict(Some(classify), JsonObject(rec)).ErrorReply?
    ensures Predict(Some(classify), JsonObject(rec)).status == 500
    ensures exists j :: 0 <= j <= k && LookupFails(rec, ReadOrder[j])
              && (forall i :: 0 <= i < j ==> !LookupFails(rec, ReadOrder[i]))
              && Predict(Some(classify), JsonObject(rec)).failure == Encoding(LookupError(rec, ReadOrder[j]))
  {
    EncodeFailsAtFirstBadRead(rec);
  }

  /** The request of the churn scenario: a female customer without partner,
      five months of tenure, every categorical field at its reference
      level, charges given as a number and as text. */
  const ScenarioRequest: Record := map[
    "gender" := Text("Female"), "SeniorCitizen" := Number(0.0), "Partner" := Text("No"),
    "Dependents" := Text("No"), "tenure" := Number(5.0), "PhoneService" := Text("No"),
    "MultipleLines" := Text("No"), "InternetService" := Text("DSL"),
    "OnlineSecurity" := Text("No"), "OnlineBackup" := Text("No"), "DeviceProtection" := Text("No"),
    "TechSupport" := Text("No"), "StreamingTV" := Text("No"), "StreamingMovies" := Text("No"),
    "Contract" := Text("Month-to-month"), "PaperlessBilling" := Text("No"),
    "PaymentMethod" := Text("Bank transfer (automatic)"),
    "MonthlyCharges" := Number(70.5), "TotalCharges" := Text("350.25")
  ]

  lemma ScenarioReadsSucceed()
    ensures forall k :: 0 <= k < |ReadOrder| ==> !LookupFails(ScenarioRequest, ReadOrder[k])
  {
    forall k | 0 <= k < |ReadOrder| ensures !LookupFails(ScenarioRequest, ReadOrder[k]) {
      if k >= |Coercions| {
        var j := k - |Coercions|;
        assert ReadOrder[k] == Lookup(Chains[j].field, false);
        ScenarioHasChainField(j);
      }
    }
  }

  lemma ScenarioHasChainField(j: nat)
    requires j < |Chains|
    ensures Chains[j].field in ScenarioRequest
  {
    if j == 0 { SchemaFacts.ChainEntry0(); }
    else if j == 1 { SchemaFacts.ChainEntry1(); }
    else if j == 2 { SchemaFacts.ChainEntry2(); }
    else if j == 3 { SchemaFacts.ChainEntry3(); }
    else if j == 4 { SchemaFacts.ChainEntry4(); }
    else if j == 5 { SchemaFacts.ChainEntry5(); }
    else if j == 6 { SchemaFacts.ChainEntry6(); }
    else if j == 7 { SchemaFacts.ChainEntry7(); }
    else if j == 8 { SchemaFacts.ChainEntry8(); }
    else if j == 9 { SchemaFacts.ChainEntry9(); }
    else if j == 10 { SchemaFacts.ChainEntry10(); }
    else if j == 11 { SchemaFacts.ChainEntry11(); }
    else if j == 12 { SchemaFacts.ChainEntry12(); }
    else if j == 13 { SchemaFacts.ChainEntry13(); }
    else { SchemaFacts.ChainEntry14(); }
  }

  /** A request shaped like the scenario: every read succeeds, tenure is
      the number 5, the charges are 70.5 and the text "350.25", and gender,
      partner and contract sit at their reference levels. */
  predicate ScenarioShaped(rec: Record)
  {
    && (forall k :: 0 <= k < |ReadOrder| ==> !LookupFails(rec, ReadOrder[k]))
    && "tenure" in rec && rec["tenure"] == Number(5.0)
    && "MonthlyCharges" in rec && rec["MonthlyCharges"] == Number(70.5)
    && "TotalCharges" in rec && rec["TotalCharges"] == Text("350.25")
    && "gender" in rec && rec["gender"] == Text("Female")
    && "Partner" in rec && rec["Partner"] == Text("No")
    && "Contract" in rec && rec["Contract"] == Text("Month-to-month")
  }

  /** Such a request encodes, with 5, 70.5 and 350.25 in the numeric
      columns and 0.0 in the gender, partner and contract indicators. */
  lemma ScenarioShapedEncoding(rec: Record)
    requires ScenarioShaped(rec)
    ensures Encode(rec).Ok?
    ensures Encode(rec).value[1] == Num(5.0)    // tenure
    ensures Encode(rec).value[2] == Num(70.5)   // MonthlyCharges
    ensures Encode(rec).value[3] == Num(350.25) // TotalCharges
    ensures Encode(rec).value[4] == Num(0.0)    // gender_Male
    ensures Encode(rec).value[5] == Num(0.0)    // Partner_Yes
    ensures Encode(rec).value[24] == Num(0.0)   // Contract_One year
    ensures Encode(rec).value[25] == Num(0.0)   // Contract_Two year
  {
    EncodeFailsAtFirstBadRead(rec);
    NumericColumnsCarryCoercedValues(rec);
    ParseChargesExample();
    SchemaFacts.Entry4();
    SchemaFacts.Entry5();
    SchemaFacts.Entry24();
    SchemaFacts.Entry25();
    IndicatorIsOneOnItsLevel(rec, 4);
    IndicatorIsOneOnItsLevel(rec, 5);
    IndicatorIsOneOnItsLevel(rec, 24);
    IndicatorIsOneOnItsLevel(rec, 25);
  }

  lemma ScenarioRequestIsShaped()
    ensures ScenarioShaped(ScenarioRequest)
  {
    ScenarioReadsSucceed();
    ScenarioNumbers();
    ScenarioTexts();
  }

  lemma ScenarioNumbers()
    ensures "tenure" in ScenarioRequest && ScenarioRequest["tenure"] == Number(5.0)
    ensures "MonthlyCharges" in ScenarioRequest && ScenarioRequest["MonthlyCharges"] == Number(70.5)
    ensures "TotalCharges" in ScenarioRequest && ScenarioRequest["TotalCharges"] == Text("350.25")
  {
  }

  lemma ScenarioTexts()
    ensures "gender" in ScenarioRequest && ScenarioRequest["gender"] == Text("Female")
    ensures "Partner" in ScenarioRequest && ScenarioRequest["Partner"] == Text("No")
    ensures "Contract" in ScenarioRequest && ScenarioRequest["Contract"] == Text("Month-to-month")
  {
  }

  /** The scenario request is answered with the model's prediction on a
      row carrying its values. */
  lemma ScenarioIsPredicted(classify: Classifier)
    requires forall row: Row :: classify(row).Some?
    ensures Encode(ScenarioRequest).Ok?
    ensures Encode(ScenarioRequest).value[3] == Num(350.25)
    ensures Predict(Some(classify), JsonObject(ScenarioRequest)).Prediction?
  {
    ScenarioRequestIsShaped();
    ScenarioShapedEncoding(ScenarioRequest);
  }
}
