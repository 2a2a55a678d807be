/** The serving schema (webapp/app.py:36-47) agrees with what the cleaning
    step's drop-first encoder produces from training data: for every
    categorical field, the level the serving code has no column for sorts
    before all the levels it has columns for, so it is exactly the
    category `drop="first"` drops, and the indicator names coincide. */
module SchemaAgreement {
  import opened Results
  import opened TextOrder
  import opened Frames
  import opened OneHot
  import opened ServingSchema
  import opened EncoderProperties
  import SchemaFacts

  /** For every chain, the reference level followed by the chain's levels
      is in sorted order. */
  lemma ReferenceSortsFirst(k: nat)
    requires k < |Chains|
    ensures |ReferenceLevels| == |Chains|
    ensures StrictlySorted([ReferenceLevels[k]] + Chains[k].levels)
  {
    ReferenceNotListed(k);
    if k < 5 { ReferenceSortsFirstBinary(k); }
    else if k < 7 { ReferenceSortsFirstTernary(k); }
    else if k < 13 { ReferenceSortsFirstAddOn(k); }
    else if k == 13 { SchemaFacts.ChainEntry13(); SortedTwo("Month-to-month", "One year", "Two year"); }
    else {
      SchemaFacts.ChainEntry14();
      SortedThree("Bank transfer (automatic)", "Credit card (automatic)", "Electronic check", "Mailed check");
    }
  }

  /** The yes/no style fields: gender, partner, dependents, phone service
      and paperless billing. */
  lemma ReferenceSortsFirstBinary(k: nat)
    requires k < 5
    ensures k < |Chains| && k < |ReferenceLevels|
    ensures StrictlySorted([ReferenceLevels[k]] + Chains[k].levels)
  {
    SortedOne("No", "Yes");
    if k == 0 { SchemaFacts.ChainEntry0(); SortedOne("Female", "Male"); }
    else if k == 1 { SchemaFacts.ChainEntry1(); }
    else if k == 2 { SchemaFacts.ChainEntry2(); }
    else if k == 3 { SchemaFacts.ChainEntry3(); }
    else { SchemaFacts.ChainEntry4(); }
  }

  /** Multiple lines and internet service, whose levels differ from the
      rest. */
  lemma ReferenceSortsFirstTernary(k: nat)
    requires 5 <= k < 7
    ensures k < |Chains| && k < |ReferenceLevels|
    ensures StrictlySorted([ReferenceLevels[k]] + Chains[k].levels)
  {
    if k == 5 { SchemaFacts.ChainEntry5(); SortedTwo("No", "No phone service", "Yes"); }
    else { SchemaFacts.ChainEntry6(); SortedTwo("DSL", "Fiber optic", "No"); }
  }

  /** The six add-on services, each with a "No internet service" level. */
  lemma ReferenceSortsFirstAddOn(k: nat)
    requires 7 <= k < 13
    ensures k < |Chains| && k < |ReferenceLevels|
    ensures StrictlySorted([ReferenceLevels[k]] + Chains[k].levels)
  {
    if k == 7 { SchemaFacts.ChainEntry7(); AddOnSorted(ReferenceLevels[k], Chains[k].levels); }
    else if k == 8 { SchemaFacts.ChainEntry8(); AddOnSorted(ReferenceLevels[k], Chains[k].levels); }
    else if k == 9 { SchemaFacts.ChainEntry9(); AddOnSorted(ReferenceLevels[k], Chains[k].levels); }
    else if k == 10 { SchemaFacts.ChainEntry10(); AddOnSorted(ReferenceLevels[k], Chains[k].levels); }
    else if k == 11 { SchemaFacts.ChainEntry11(); AddOnSorted(ReferenceLevels[k], Chains[k].levels); }
    else { SchemaFacts.ChainEntry12(); AddOnSorted(ReferenceLevels[k], Chains[k].levels); }
  }

  lemma AddOnSorted(reference: string, levels: seq<string>)
    requires reference == "No" && levels == ["No internet service", "Yes"]
    ensures StrictlySorted([reference] + levels)
  {
    assert [reference] + levels == ["No", "No internet service", "Yes"];
    SortedTwo("No", "No internet service", "Yes");
  }

  lemma SortedOne(a: string, b: string)
    requires Less(a, b)
    ensures StrictlySorted([a, b])
  {
  }

  lemma SortedTwo(a: string, b: string, c: string)
    requires Less(a, b) && Less(b, c)
    ensures StrictlySorted([a, b, c])
  {
    LessTransitive(a, b, c);
  }

  lemma SortedThree(a: string, b: string, c: string, d: string)
    requires Less(a, b) && Less(b, c) && Less(c, d)
    ensures StrictlySorted([a, b, c, d])
  {
    LessTransitive(a, b, c);
    LessTransitive(b, c, d);
    LessTransitive(a, c, d);
  }

  /** A training column whose values are exactly `reference` and `levels`,
      sorted in that order, is encoded into one indicator per level of
      `levels`, in order, named `<field>_<level>` and holding 1 exactly on
      the rows with that value: the reference level is the one dropped. */
  lemma DropFirstDropsReference(field: string, cells: seq<Option<string>>, reference: string, levels: seq<string>)
    requires StrictlySorted([reference] + levels)
    requires forall i :: 0 <= i < |cells| ==> cells[i].Some?
    requires forall v :: Some(v) in cells <==> v in [reference] + levels
    ensures |EncodeColumn(field, cells)| == |levels|
    ensures forall j :: 0 <= j < |levels| ==> EncodeColumn(field, cells)[j].name == field + "_" + levels[j]
    ensures forall j, i :: 0 <= j < |levels| && 0 <= i < |cells| ==>
              (EncodeColumn(field, cells)[j].numbers[i] == Some(1.0) <==> cells[i] == Some(levels[j]))
  {
    var all := [reference] + levels;
    CategoriesAreTheSortedValues(cells, all);
    var cats := Categories(cells);
    var r := EncodeColumn(field, cells);
    forall j, i | 0 <= j < |levels| && 0 <= i < |cells|
      ensures r[j].name == field + "_" + levels[j]
      ensures r[j].numbers[i] == Some(1.0) <==> cells[i] == Some(levels[j])
    {
      IndicatorIsOneOnItsCategory(field, cells, j, i);
      assert cats[j + 1] == Value(all[j + 1]);
    }
    if 0 < |levels| {
      assert |cells| > 0 by {
        assert levels[0] in all;
      }
    }
  }

  /** A column without missing cells whose values are exactly those of a
      strictly sorted list learns that list as its categories. */
  lemma CategoriesAreTheSortedValues(cells: seq<Option<string>>, all: seq<string>)
    requires StrictlySorted(all)
    requires forall i :: 0 <= i < |cells| ==> cells[i].Some?
    requires forall v :: Some(v) in cells <==> v in all
    ensures Categories(cells) == AsValues(all)
  {
    SortedIsUnique(SortedDistinct(Present(cells)), all);
    assert None !in cells;
  }

  /** Trained on a column holding every level the serving code knows for
      the field of chain `k`, and no other, the drop-first encoder yields
      exactly the serving schema's indicator columns for that field. */
  lemma TrainingMatchesServing(k: nat, cells: seq<Option<string>>)
    requires k < |Chains| == |ReferenceLevels|
    requires forall i :: 0 <= i < |cells| ==> cells[i].Some?
    requires forall v :: Some(v) in cells <==> v == ReferenceLevels[k] || v in Chains[k].levels
    ensures |EncodeColumn(Chains[k].field, cells)| == |Chains[k].levels|
    ensures forall j :: 0 <= j < |Chains[k].levels| ==>
              EncodeColumn(Chains[k].field, cells)[j].name ==
              ColumnName(ServingSchema.Indicator(Chains[k].field, Chains[k].levels[j]))
  {
    ReferenceSortsFirst(k);
    DropFirstDropsReference(Chains[k].field, cells, ReferenceLevels[k], Chains[k].levels);
  }
}
