/** The best-run selection of scripts/evaluate.py: every run's F1 score is
    compared, in the order the tracking server lists the runs, against the
    best so far, which starts at 0 with no run; the comparison is strict, so
    the earliest of equally good runs wins. The winner, if any, is
    registered under a fixed model name. */
module Selection {
  import opened Results

  /** A tracked run with the F1 score its model reaches on the test split.
      Computing the score is outside this model. */
  datatype Run = Run(id: string, f1: real)

  /** The accumulator `(best_f1, best_run_id)`. */
  datatype Best = Best(f1: real, runId: Option<string>)

  const Start: Best := Best(0.0, None)

  /** One iteration of the loop body (scripts/evaluate.py:75-77). */
  function Step(b: Best, r: Run): (next: Best)
    ensures next.f1 >= b.f1 && next.f1 >= r.f1
    ensures next.f1 == b.f1 || next.f1 == r.f1
    ensures next != b <==> r.f1 > b.f1
    ensures next != b ==> next.runId == Some(r.id)
  {
    if r.f1 > b.f1 then Best(r.f1, Some(r.id)) else b
  }

  /** `w` is the first run with the highest F1 score. */
  predicate FirstMaximum(runs: seq<Run>, w: int)
  {
    && 0 <= w < |runs|
    && (forall i :: 0 <= i < |runs| ==> runs[i].f1 <= runs[w].f1)
    && (forall i :: 0 <= i < w ==> runs[i].f1 < runs[w].f1)
  }

  /** The accumulator after the loop has seen all of `runs`. */
  function SelectBest(runs: seq<Run>): (b: Best)
    ensures b.f1 >= 0.0
    ensures forall i :: 0 <= i < |runs| ==> runs[i].f1 <= b.f1
    ensures b.runId.None? <==> forall i :: 0 <= i < |runs| ==> runs[i].f1 <= 0.0
    ensures b.runId.None? ==> b.f1 == 0.0
    ensures b.runId.Some? ==>
              exists w :: FirstMaximum(runs, w) && runs[w].id == b.runId.value && runs[w].f1 == b.f1
  {
    if |runs| == 0 then Start
    else
      var init := runs[..|runs| - 1];
      var last := runs[|runs| - 1];
      var b := SelectBest(init);
      assert forall i :: 0 <= i < |init| ==> init[i] == runs[i];
      if last.f1 > b.f1 then
        assert FirstMaximum(runs, |runs| - 1);
        Step(b, last)
      else
        assert b.runId.Some? ==> exists w :: FirstMaximum(runs, w) && runs[w].id == b.runId.value && runs[w].f1 == b.f1 by {
          if b.runId.Some? {
            var w :| FirstMaximum(init, w) && init[w].id == b.runId.value && init[w].f1 == b.f1;
            FirstMaximumExtends(runs, w);
          }
        }
        Step(b, last)
  }

  /** A run not above the first maximum of the earlier runs leaves it the
      first maximum. */
  lemma FirstMaximumExtends(runs: seq<Run>, w: nat)
    requires |runs| > 0 && FirstMaximum(runs[..|runs| - 1], w)
    requires runs[|runs| - 1].f1 <= runs[w].f1
    ensures FirstMaximum(runs, w)
  {
    var init := runs[..|runs| - 1];
    assert forall i :: 0 <= i < |init| ==> init[i] == runs[i];
  }

  /** When some run scores above 0, the selected run is the first one with
      the highest score, and that is the only way a run is selected. */
  lemma SelectsFirstMaximum(runs: seq<Run>, w: nat)
    requires FirstMaximum(runs, w) && runs[w].f1 > 0.0
    ensures SelectBest(runs) == Best(runs[w].f1, Some(runs[w].id))
  {
    var b := SelectBest(runs);
    var v :| FirstMaximum(runs, v) && runs[v].id == b.runId.value && runs[v].f1 == b.f1;
    FirstMaximumIsUnique(runs, v, w);
  }

  lemma FirstMaximumIsUnique(runs: seq<Run>, v: int, w: int)
    requires FirstMaximum(runs, v) && FirstMaximum(runs, w)
    ensures v == w
  {
    assert runs[v].f1 == runs[w].f1;
    assert v >= w;
    assert w >= v;
  }

  /** `best_f1` never decreases as the loop advances: the best score of a
      prefix is 0 or some run's score, and a longer prefix's best bounds
      both. */
  lemma BestNeverDecreases(runs: seq<Run>, i: nat, j: nat)
    requires i <= j <= |runs|
    ensures SelectBest(runs[..i]).f1 <= SelectBest(runs[..j]).f1
  {
    var a := SelectBest(runs[..i]);
    if a.runId.Some? {
      var w :| FirstMaximum(runs[..i], w) && runs[..i][w].f1 == a.f1;
      assert runs[..i][w] == runs[..j][w];
    }
  }

  /** The loop as the script writes it. */
  method SelectBestLoop(runs: seq<Run>) returns (bestF1: real, bestRunId: Option<string>)
    ensures Best(bestF1, bestRunId) == SelectBest(runs)
    ensures bestRunId.None? <==> forall i :: 0 <= i < |runs| ==> runs[i].f1 <= 0.0
  {
    bestF1 := 0.0;
    bestRunId := None;
    var i := 0;
    while i < |runs|
      invariant 0 <= i <= |runs|
      invariant Best(bestF1, bestRunId) == SelectBest(runs[..i])
    {
      assert runs[..i + 1][..i] == runs[..i];
      if runs[i].f1 > bestF1 {
        bestF1 := runs[i].f1;
        bestRunId := Some(runs[i].id);
      }
      i := i + 1;
    }
    assert runs[..i] == runs;
  }

  /** The call `mlflow.register_model(model_uri, name)`. */
  datatype Registration = Registration(modelUri: string, name: string)

  const RegisteredName: string := "BestTelcoChurnModel"

  function ModelUri(runId: string): string
  {
    "runs:/" + runId + "/model"
  }

  /** The run id read back from a `runs:/<id>/model` URI. */
  function RunIdOf(uri: string): (r: Option<string>)
    ensures r.Some? ==> ModelUri(r.value) == uri
  {
    if |uri| >= 12 && uri[..6] == "runs:/" && uri[|uri| - 6..] == "/model" then
      var id := uri[6..|uri| - 6];
      assert uri == uri[..6] + id + uri[|uri| - 6..];
      Some(id)
    else None
  }

  /** The URI names the run it was made from. */
  lemma ModelUriRoundTrip(runId: string)
    ensures RunIdOf(ModelUri(runId)) == Some(runId)
  {
    var uri := ModelUri(runId);
    assert uri[..6] == "runs:/";
    assert uri[|uri| - 6..] == "/model";
    assert uri[6..|uri| - 6] == runId;
  }

  /** `if best_run_id:` — an empty id is falsy, like no id at all. */
  function Register(b: Best): (r: Option<Registration>)
    ensures r.Some? <==> b.runId.Some? && b.runId.value != ""
    ensures r.Some? ==> r.value.name == RegisteredName && RunIdOf(r.value.modelUri) == b.runId
  {
    match b.runId
    case None => None
    case Some(id) =>
      if id == "" then None
      else
        ModelUriRoundTrip(id);
        Some(Registration(ModelUri(id), RegisteredName))
  }

  /** The whole script's decision: at most one registration, of the first
      best run, and none when no run scores above 0. */
  function Evaluate(runs: seq<Run>): (r: Option<Registration>)
    ensures (forall i :: 0 <= i < |runs| ==> runs[i].f1 <= 0.0) ==> r.None?
  {
    Register(SelectBest(runs))
  }

  lemma RegistersFirstMaximum(runs: seq<Run>, w: nat)
    requires FirstMaximum(runs, w) && runs[w].f1 > 0.0 && runs[w].id != ""
    ensures Evaluate(runs) == Some(Registration(ModelUri(runs[w].id), RegisteredName))
  {
    SelectsFirstMaximum(runs, w);
  }

  /** Three runs scoring 0.62, 0.71 and 0.71: the tie goes to the second
      run, the first to reach 0.71. */
  lemma TieGoesToEarliest()
    ensures SelectBest([Run("a", 0.62), Run("b", 0.71), Run("c", 0.71)]) == Best(0.71, Some("b"))
  {
    var runs := [Run("a", 0.62), Run("b", 0.71), Run("c", 0.71)];
    assert FirstMaximum(runs, 1);
    SelectsFirstMaximum(runs, 1);
  }

  /** No run, or only runs scoring 0: nothing is registered. */
  lemma NoPositiveScoreNoRegistration()
    ensures Evaluate([]) == None
    ensures Evaluate([Run("a", 0.0), Run("b", 0.0)]) == None
  {
  }
}
