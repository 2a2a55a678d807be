/** What the serving encoder promises its caller, stated over every
    request record. */
module EncoderProperties {
  import opened Results
  import opened Numeric
  import opened ServingSchema
  import opened Encoder
  import SchemaFacts

  /** One field read by the adapter, and whether it is cast to int. */
  datatype Lookup = Lookup(field: string, intCast: bool)

  /** Every field read, in the order the adapter reads it: the coerced
      fields, then the field of each indicator chain. */
  function ReadOrderOf(coercions: seq<Coercion>, chains: seq<Chain>): (r: seq<Lookup>)
    ensures |r| == |coercions| + |chains|
    ensures forall k :: 0 <= k < |coercions| ==> r[k] == Lookup(coercions[k].field, coercions[k].cast == ToInt)
    ensures forall k :: 0 <= k < |chains| ==> r[|coercions| + k] == Lookup(chains[k].field, false)
  {
    seq(|coercions|, k requires 0 <= k < |coercions| => Lookup(coercions[k].field, coercions[k].cast == ToInt))
    + seq(|chains|, k requires 0 <= k < |chains| => Lookup(chains[k].field, false))
  }

  const ReadOrder: seq<Lookup> := ReadOrderOf(Coercions, Chains)

  /** A read fails when the field is absent (`KeyError`) or when an int
      cast meets a value that is not numeric (NaN cannot be cast). */
  predicate LookupFails(rec: Record, lk: Lookup) {
    lk.field !in rec || (lk.intCast && ToNumeric(rec[lk.field]).NaN?)
  }

  function LookupError(rec: Record, lk: Lookup): EncodeError {
    if lk.field !in rec then MissingField(lk.field) else NotAnInteger(lk.field)
  }

  lemma CoercionFailsIsLookupFails(rec: Record, c: Coercion)
    ensures CoercionFails(rec, c) <==> LookupFails(rec, Lookup(c.field, c.cast == ToInt))
    ensures CoercionError(rec, c) == LookupError(rec, Lookup(c.field, c.cast == ToInt))
  {
  }

  /** The coercion reads of `ReadOrderOf` fail as the coercions do. */
  lemma CoercionReads(rec: Record, coercions: seq<Coercion>, chains: seq<Chain>)
    ensures forall k :: 0 <= k < |coercions| ==>
              && (CoercionFails(rec, coercions[k]) <==> LookupFails(rec, ReadOrderOf(coercions, chains)[k]))
              && CoercionError(rec, coercions[k]) == LookupError(rec, ReadOrderOf(coercions, chains)[k])
  {
    forall k | 0 <= k < |coercions| {
      CoercionFailsIsLookupFails(rec, coercions[k]);
    }
  }

  /** The chain reads of `ReadOrderOf` fail exactly when the field is
      absent. */
  lemma ChainReads(rec: Record, coercions: seq<Coercion>, chains: seq<Chain>)
    ensures forall k :: 0 <= k < |chains| ==>
              && (LookupFails(rec, ReadOrderOf(coercions, chains)[|coercions| + k]) <==> ChainFields(chains)[k] !in rec)
              && ReadOrderOf(coercions, chains)[|coercions| + k].field == ChainFields(chains)[k]
  {
    var order := ReadOrderOf(coercions, chains);
    forall k | 0 <= k < |chains|
      ensures order[|coercions| + k] == Lookup(ChainFields(chains)[k], false)
    {
      assert order[|coercions| + k] == Lookup(ChainFields(chains)[k], false);
    }
  }

  /** `r` succeeds exactly when every read of `order` succeeds, and
      otherwise reports the first read that fails. */
  predicate FailsAtFirstBadRead(r: Result<Row, EncodeError>, order: seq<Lookup>, rec: Record)
  {
    && (r.Ok? <==> forall k :: 0 <= k < |order| ==> !LookupFails(rec, order[k]))
    && (r.Err? ==> exists k :: 0 <= k < |order| && LookupFails(rec, order[k])
                        && r.error == LookupError(rec, order[k])
                        && forall j :: 0 <= j < k ==> !LookupFails(rec, order[j]))
  }

  lemma CoercionFailureIsFirstBadRead(schema: seq<Column>, coercions: seq<Coercion>, chains: seq<Chain>, rec: Record)
    requires CoerceAll(rec, coercions).Err?
    ensures FailsAtFirstBadRead(EncodeWith(schema, coercions, chains, rec), ReadOrderOf(coercions, chains), rec)
  {
    CoercionReads(rec, coercions, chains);
  }

  lemma CoercionsSucceed(rec: Record, coercions: seq<Coercion>, chains: seq<Chain>)
    requires CoerceAll(rec, coercions).Ok?
    ensures forall k :: 0 <= k < |coercions| ==> !LookupFails(rec, ReadOrderOf(coercions, chains)[k])
  {
    CoercionReads(rec, coercions, chains);
  }

  lemma ChainsSucceedBefore(rec: Record, coercions: seq<Coercion>, chains: seq<Chain>, k: nat)
    requires k <= |chains| && forall j :: 0 <= j < k ==> ChainFields(chains)[j] in rec
    ensures forall j :: |coercions| <= j < |coercions| + k ==> !LookupFails(rec, ReadOrderOf(coercions, chains)[j])
  {
    var order := ReadOrderOf(coercions, chains);
    var n := |coercions|;
    ChainReads(rec, coercions, chains);
    forall j | n <= j < n + k ensures !LookupFails(rec, order[j]) {
      var m := j - n;
      assert ChainFields(chains)[m] in rec && order[j] == order[n + m];
    }
  }

  lemma ChainFailureIsFirstBadRead(schema: seq<Column>, coercions: seq<Coercion>, chains: seq<Chain>, rec: Record)
    requires CoerceAll(rec, coercions).Ok? && FirstMissing(rec, ChainFields(chains)).Some?
    ensures FailsAtFirstBadRead(EncodeWith(schema, coercions, chains, rec), ReadOrderOf(coercions, chains), rec)
  {
    var order := ReadOrderOf(coercions, chains);
    var n := |coercions|;
    var fields := ChainFields(chains);
    var fm := FirstMissing(rec, fields);
    var k :| 0 <= k < |chains| && fields[k] == fm.value
             && fm.value !in rec && forall j :: 0 <= j < k ==> fields[j] in rec;
    ChainErrorIsMissingField(schema, coercions, chains, rec);
    ChainReads(rec, coercions, chains);
    FirstBadReadAt(rec, coercions, chains, k);
    var w := n + k;
    assert LookupFails(rec, order[w]) && LookupError(rec, order[w]) == MissingField(fields[k]);
    FirstBadReadIsWitnessed(EncodeWith(schema, coercions, chains, rec), order, rec, w);
  }

  /** A failure whose error is that of a failing read with none failing
      before it. */
  lemma FirstBadReadIsWitnessed(r: Result<Row, EncodeError>, order: seq<Lookup>, rec: Record, w: nat)
    requires r.Err? && w < |order| && LookupFails(rec, order[w]) && r.error == LookupError(rec, order[w])
    requires forall j :: 0 <= j < w ==> !LookupFails(rec, order[j])
    ensures FailsAtFirstBadRead(r, order, rec)
  {
  }

  lemma ChainErrorIsMissingField(schema: seq<Column>, coercions: seq<Coercion>, chains: seq<Chain>, rec: Record)
    requires CoerceAll(rec, coercions).Ok? && FirstMissing(rec, ChainFields(chains)).Some?
    ensures EncodeWith(schema, coercions, chains, rec) == Err(MissingField(FirstMissing(rec, ChainFields(chains)).value))
  {
  }

  /** When the `k`-th chain field is the first one missing, every read
      before it succeeds. */
  lemma FirstBadReadAt(rec: Record, coercions: seq<Coercion>, chains: seq<Chain>, k: nat)
    requires CoerceAll(rec, coercions).Ok?
    requires k <= |chains| && forall j :: 0 <= j < k ==> ChainFields(chains)[j] in rec
    ensures forall j :: 0 <= j < |coercions| + k ==> !LookupFails(rec, ReadOrderOf(coercions, chains)[j])
  {
    CoercionsSucceed(rec, coercions, chains);
    ChainsSucceedBefore(rec, coercions, chains, k);
  }

  lemma NoFailureIsNoBadRead(schema: seq<Column>, coercions: seq<Coercion>, chains: seq<Chain>, rec: Record)
    requires CoerceAll(rec, coercions).Ok? && FirstMissing(rec, ChainFields(chains)).None?
    ensures FailsAtFirstBadRead(EncodeWith(schema, coercions, chains, rec), ReadOrderOf(coercions, chains), rec)
  {
    CoercionsSucceed(rec, coercions, chains);
    ChainsSucceedBefore(rec, coercions, chains, |chains|);
    assert EncodeWith(schema, coercions, chains, rec).Ok?;
  }

  lemma EncodeWithFailsAtFirstBadRead(schema: seq<Column>, coercions: seq<Coercion>, chains: seq<Chain>, rec: Record)
    ensures FailsAtFirstBadRead(EncodeWith(schema, coercions, chains, rec), ReadOrderOf(coercions, chains), rec)
  {
    if CoerceAll(rec, coercions).Err? {
      CoercionFailureIsFirstBadRead(schema, coercions, chains, rec);
    } else if FirstMissing(rec, ChainFields(chains)).Some? {
      ChainFailureIsFirstBadRead(schema, coercions, chains, rec);
    } else {
      NoFailureIsNoBadRead(schema, coercions, chains, rec);
    }
  }

  /** Encoding fails exactly when some read fails, and the error raised
      names the first failing read in the adapter's order: a missing field
      (`KeyError`) or a non-numeric `tenure`/`SeniorCitizen`. */
  lemma EncodeFailsAtFirstBadRead(rec: Record)
    ensures Encode(rec).Ok? <==> forall k :: 0 <= k < |ReadOrder| ==> !LookupFails(rec, ReadOrder[k])
    ensures Encode(rec).Err? ==> exists k :: 0 <= k < |ReadOrder| && LookupFails(rec, ReadOrder[k])
                                     && Encode(rec).error == LookupError(rec, ReadOrder[k])
                                     && forall j :: 0 <= j < k ==> !LookupFails(rec, ReadOrder[j])
  {
    EncodeWithFailsAtFirstBadRead(Schema, Coercions, Chains, rec);
  }

  /** An indicator is 1.0 exactly when the field holds its level, as the
      same case-sensitive text; otherwise it stays 0.0. */
  lemma IndicatorIsOneOnItsLevel(rec: Record, i: nat)
    requires Encode(rec).Ok? && i < |Schema| && Schema[i].Indicator?
    ensures Encode(rec).value[i] == Num(1.0) <==> Schema[i].field in rec && rec[Schema[i].field] == Text(Schema[i].level)
    ensures Encode(rec).value[i] != Num(1.0) ==> Encode(rec).value[i] == Num(0.0)
  {
  }

  /** Within the group of one field, at most one indicator is 1.0. */
  lemma AtMostOneIndicatorPerField(rec: Record, i: nat, j: nat)
    requires Encode(rec).Ok?
    requires i < j < |Schema| && Schema[i].Indicator? && Schema[j].Indicator?
    requires Schema[i].field == Schema[j].field
    ensures Encode(rec).value[i] == Num(0.0) || Encode(rec).value[j] == Num(0.0)
  {
    SchemaFacts.ListedColumnsDistinct();
    SchemaFacts.SchemaNamesAreTheListedColumns();
    AtMostOneIndicatorWith(Schema, Coercions, Chains, rec, i, j);
  }

  lemma AtMostOneIndicatorWith(schema: seq<Column>, coercions: seq<Coercion>, chains: seq<Chain>,
                               rec: Record, i: nat, j: nat)
    requires Distinct(ColumnNames(schema)) && EncodeWith(schema, coercions, chains, rec).Ok?
    requires i < j < |schema| && schema[i].Indicator? && schema[j].Indicator?
    requires schema[i].field == schema[j].field
    ensures EncodeWith(schema, coercions, chains, rec).value[i] == Num(0.0)
         || EncodeWith(schema, coercions, chains, rec).value[j] == Num(0.0)
  {
    assert ColumnNames(schema)[i] != ColumnNames(schema)[j];
  }

  /** A value that is not one of the listed levels of its field (the
      reference level, an unseen level, a number, null) leaves the whole
      group at 0.0: when every read succeeds, the record encodes, and
      each indicator of the group is 0.0. */
  lemma UnlistedValueZeroesGroup(rec: Record, f: string)
    requires forall k :: 0 <= k < |ReadOrder| ==> !LookupFails(rec, ReadOrder[k])
    requires forall i :: 0 <= i < |Schema| && Schema[i].Indicator? && Schema[i].field == f ==>
               f !in rec || rec[f] != Text(Schema[i].level)
    ensures Encode(rec).Ok?
    ensures forall i :: 0 <= i < |Schema| && Schema[i].Indicator? && Schema[i].field == f ==>
              Encode(rec).value[i] == Num(0.0)
  {
    EncodeFailsAtFirstBadRead(rec);
  }

  /** The level each chain leaves out, chain by chain: the level of the
      training data that `drop="first"` dropped, so that the adapter lists
      only the others. */
  const ReferenceLevels: seq<string> := [
    "Female", "No", "No", "No", "No", "No", "DSL", "No", "No", "No", "No", "No", "No",
    "Month-to-month", "Bank transfer (automatic)"
  ]

  lemma ReferenceNotListed(k: nat)
    requires k < |Chains|
    ensures |ReferenceLevels| == |Chains|
    ensures ReferenceLevels[k] !in Chains[k].levels
  {
    if k == 0 { SchemaFacts.ChainEntry0(); }
    else if k == 1 { SchemaFacts.ChainEntry1(); }
    else if k == 2 { SchemaFacts.ChainEntry2(); }
    else if k == 3 { SchemaFacts.ChainEntry3(); }
    else if k == 4 { SchemaFacts.ChainEntry4(); }
    else if k == 5 { SchemaFacts.ChainEntry5(); }
    else if k == 6 { SchemaFacts.ChainEntry6(); }
    else if k == 7 { SchemaFacts.ChainEntry7(); }
    else if k == 8 { SchemaFacts.ChainEntry8(); }
    else if k == 9 { SchemaFacts.ChainEntry9(); }
    else if k == 10 { SchemaFacts.ChainEntry10(); }
    else if k == 11 { SchemaFacts.ChainEntry11(); }
    else if k == 12 { SchemaFacts.ChainEntry12(); }
    else if k == 13 { SchemaFacts.ChainEntry13(); }
    else if k == 14 { SchemaFacts.ChainEntry14(); }
  }

  lemma UnlistedLevelZeroesGroupWith(schema: seq<Column>, coercions: seq<Coercion>, copied: seq<string>,
                                      chains: seq<Chain>, rec: Record, k: nat, value: string)
    requires Layout(schema, chains, copied, coercions)
    requires EncodeWith(schema, coercions, chains, rec).Ok? && k < |chains|
    requires chains[k].field in rec && rec[chains[k].field] == Text(value) && value !in chains[k].levels
    ensures forall i :: 0 <= i < |schema| && schema[i].Indicator? && schema[i].field == chains[k].field ==>
              EncodeWith(schema, coercions, chains, rec).value[i] == Num(0.0)
  {
    forall i | 0 <= i < |schema| && schema[i].Indicator? && schema[i].field == chains[k].field
      ensures EncodeWith(schema, coercions, chains, rec).value[i] == Num(0.0)
    {
      UnlistedLevelIsNotIndicated(schema, coercions, copied, chains, rec, k, value, i);
      IndicatorCellWith(schema, coercions, chains, rec, i);
    }
  }

  /** The field's value is not the level of any indicator of its group. */
  lemma UnlistedLevelIsNotIndicated(schema: seq<Column>, coercions: seq<Coercion>, copied: seq<string>,
                                    chains: seq<Chain>, rec: Record, k: nat, value: string, i: nat)
    requires Layout(schema, chains, copied, coercions)
    requires k < |chains| && value !in chains[k].levels
    requires i < |schema| && schema[i].Indicator? && schema[i].field == chains[k].field
    ensures schema[i].level != value
  {
    IndicatorLevelIsListed(schema, coercions, copied, chains, k, i);
  }

  /** A field holding its reference level (`Female`, `No`, `DSL`,
      `Month-to-month`, ...) leaves its whole group at 0.0. */
  lemma ReferenceLevelZeroesGroup(rec: Record, k: nat)
    requires Encode(rec).Ok? && k < |Chains| == |ReferenceLevels|
    requires Chains[k].field in rec && rec[Chains[k].field] == Text(ReferenceLevels[k])
    ensures forall i :: 0 <= i < |Schema| && Schema[i].Indicator? && Schema[i].field == Chains[k].field ==>
              Encode(rec).value[i] == Num(0.0)
  {
    SchemaFacts.ServingLayout();
    ReferenceNotListed(k);
    UnlistedLevelZeroesGroupWith(Schema, Coercions, CopiedColumns, Chains, rec, k, ReferenceLevels[k]);
  }

  /** The four numeric columns carry the coerced request values:
      `SeniorCitizen` and `tenure` truncated to int, the charges as
      numbers or NaN. */
  lemma NumericColumnsCarryCoercedValues(rec: Record)
    requires Encode(rec).Ok?
    ensures "SeniorCitizen" in rec && ToNumeric(rec["SeniorCitizen"]).Num?
    ensures "tenure" in rec && ToNumeric(rec["tenure"]).Num?
    ensures "MonthlyCharges" in rec && "TotalCharges" in rec
    ensures Encode(rec).value[0] == Num(TruncateToInt(ToNumeric(rec["SeniorCitizen"]).x) as real)
    ensures Encode(rec).value[1] == Num(TruncateToInt(ToNumeric(rec["tenure"]).x) as real)
    ensures Encode(rec).value[2] == ToNumeric(rec["MonthlyCharges"])
    ensures Encode(rec).value[3] == ToNumeric(rec["TotalCharges"])
  {
    SchemaFacts.Entry0();
    SchemaFacts.Entry1();
    SchemaFacts.Entry2();
    SchemaFacts.Entry3();
    assert Coercions[0] == Coercion("tenure", ToInt);
    assert Coercions[1] == Coercion("SeniorCitizen", ToInt);
    assert Coercions[2] == Coercion("MonthlyCharges", ToFloat);
    assert Coercions[3] == Coercion("TotalCharges", ToFloat);
    CoercedColumn(rec, 1, 0);
    CoercedColumn(rec, 0, 1);
    CoercedColumn(rec, 2, 2);
    CoercedColumn(rec, 3, 3);
  }

  /** A numeric column of the serving schema holds its field's cast value. */
  lemma CoercedColumn(rec: Record, i: nat, k: nat)
    requires Encode(rec).Ok? && k < |Coercions| && i < |Schema| && Schema[i] == Numeric(Coercions[k].field)
    ensures Coercions[k].field in rec
    ensures ApplyCast(ToNumeric(rec[Coercions[k].field]), Coercions[k].cast) == Some(Encode(rec).value[i])
  {
    SchemaFacts.CoercedFieldsDistinct();
    NumericCellIsCoerced(Schema, Coercions, Chains, rec, i, k);
  }

  /** An indicator column holds 1.0 exactly when its field holds its level. */
  lemma IndicatorCellWith(schema: seq<Column>, coercions: seq<Coercion>, chains: seq<Chain>, rec: Record, i: nat)
    requires EncodeWith(schema, coercions, chains, rec).Ok?
    requires i < |schema| && schema[i].Indicator?
    ensures EncodeWith(schema, coercions, chains, rec).value[i]
            == if schema[i].field in rec && rec[schema[i].field] == Text(schema[i].level) then Num(1.0) else Num(0.0)
  {
  }

  /** A numeric column holds the value its field's first coercion casts. */
  lemma NumericCellIsCoerced(schema: seq<Column>, coercions: seq<Coercion>, chains: seq<Chain>,
                             rec: Record, i: nat, k: nat)
    requires EncodeWith(schema, coercions, chains, rec).Ok?
    requires i < |schema| && k < |coercions| && schema[i] == Numeric(coercions[k].field)
    requires forall j :: 0 <= j < k ==> coercions[j].field != coercions[k].field
    ensures coercions[k].field in rec
    ensures ApplyCast(ToNumeric(rec[coercions[k].field]), coercions[k].cast)
            == Some(EncodeWith(schema, coercions, chains, rec).value[i])
  {
    CoercedValue(rec, coercions, k);
  }

  lemma {:induction false} CoerceAllIgnoresUnread(rec: Record, cs: seq<Coercion>, name: string, v: RawValue)
    requires forall k :: 0 <= k < |cs| ==> cs[k].field != name
    ensures CoerceAll(rec[name := v], cs) == CoerceAll(rec, cs)
    decreases |cs|
  {
    if |cs| > 0 {
      CoerceAllIgnoresUnread(rec, cs[1..], name, v);
    }
  }

  lemma {:induction false} FirstMissingIgnoresUnread(rec: Record, fields: seq<string>, name: string, v: RawValue)
    requires name !in fields
    ensures FirstMissing(rec[name := v], fields) == FirstMissing(rec, fields)
    decreases |fields|
  {
    if |fields| > 0 {
      FirstMissingIgnoresUnread(rec, fields[1..], name, v);
    }
  }

  lemma EncodeRowIgnoresUnread(schema: seq<Column>, coerced: map<string, Cell>, rec: Record, name: string, v: RawValue)
    requires forall i :: 0 <= i < |schema| && schema[i].Indicator? ==> schema[i].field != name
    ensures EncodeRow(schema, coerced, rec[name := v]) == EncodeRow(schema, coerced, rec)
  {
    assert forall i :: 0 <= i < |schema| ==> CellFor(schema[i], coerced, rec[name := v]) == CellFor(schema[i], coerced, rec);
  }

  lemma UnreadFieldsAreIgnoredWith(schema: seq<Column>, coercions: seq<Coercion>, copied: seq<string>,
                                    chains: seq<Chain>, rec: Record, name: string, v: RawValue)
    requires Layout(schema, chains, copied, coercions)
    requires forall k :: 0 <= k < |coercions| ==> coercions[k].field != name
    requires name !in ChainFields(chains)
    ensures EncodeWith(schema, coercions, chains, rec[name := v]) == EncodeWith(schema, coercions, chains, rec)
  {
    CoerceAllIgnoresUnread(rec, coercions, name, v);
    FirstMissingIgnoresUnread(rec, ChainFields(chains), name, v);
    forall i | 0 <= i < |schema| && schema[i].Indicator? ensures schema[i].field != name {
      var k' :| 0 <= k' < |chains| && chains[k'].field == schema[i].field && schema[i].level in chains[k'].levels;
      assert ChainFields(chains)[k'] == schema[i].field;
    }
    var co := CoerceAll(rec, coercions);
    if co.Ok? {
      EncodeRowIgnoresUnread(schema, co.value, rec, name, v);
    }
  }

  /** Keys the adapter never reads make no difference: the row depends on
      the read fields only, whatever else the request carries. */
  lemma UnreadFieldsAreIgnored(rec: Record, name: string, v: RawValue)
    requires forall k :: 0 <= k < |ReadOrder| ==> ReadOrder[k].field != name
    ensures Encode(rec[name := v]) == Encode(rec)
  {
    SchemaFacts.ServingLayout();
    UnreadIsNoField(Coercions, Chains, name);
    UnreadFieldsAreIgnoredWith(Schema, Coercions, CopiedColumns, Chains, rec, name, v);
  }

  /** A name outside the read order is neither coerced nor read by a chain. */
  lemma UnreadIsNoField(coercions: seq<Coercion>, chains: seq<Chain>, name: string)
    requires forall k :: 0 <= k < |ReadOrderOf(coercions, chains)| ==> ReadOrderOf(coercions, chains)[k].field != name
    ensures forall k :: 0 <= k < |coercions| ==> coercions[k].field != name
    ensures name !in ChainFields(chains)
  {
    var order := ReadOrderOf(coercions, chains);
    forall k | 0 <= k < |coercions| ensures coercions[k].field != name {
      assert order[k].field == coercions[k].field;
    }
    forall k | 0 <= k < |chains| ensures ChainFields(chains)[k] != name {
      assert order[|coercions| + k].field == chains[k].field;
    }
  }
}
