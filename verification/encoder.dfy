/** The serving-time feature encoder (webapp/app.py, `preprocess_input`):
    one raw request record becomes one row over the fixed 30-column schema.

    `Encode` is the table-driven form: each column of `Schema` is computed
    independently. `SourceEncode` follows the adapter statement by statement
    (coercion loops, zero frame, copy loop, `if`/`elif` chains assigning by
    column name), and `SourceEncodeIsTableEncode` proves the two agree. */
module Encoder {
  import opened Results
  import opened Numeric
  import opened ServingSchema
  import SchemaFacts

  /** A JSON value of the request body. */
  datatype RawValue = Text(s: string) | Number(x: real) | Flag(b: bool) | Null

  /** The request body: field name to value. */
  type Record = map<string, RawValue>

  /** A cell of the model input: a number or NaN. */
  datatype Cell = Num(x: real) | NaN

  type Row = seq<Cell>

  /** Why encoding raised: a field lookup failed (`KeyError`), or an
      integer cast met NaN. */
  datatype EncodeError = MissingField(field: string) | NotAnInteger(field: string)

  /** `pandas.to_numeric(errors="coerce")` on one request value. */
  function ToNumeric(v: RawValue): Cell
  {
    match v
    case Text(s) => (match ParseDecimal(s) case Some(x) => Num(x) case None => NaN)
    case Number(x) => Num(x)
    case Flag(b) => Num(if b then 1.0 else 0.0)
    case Null => NaN
  }

  /** A value coerces to NaN exactly when it is null or a text that is not
      a numeral; a numeral gives the number it writes, a JSON number passes
      through and a boolean counts as 1 or 0. */
  lemma ToNumericCases(v: RawValue)
    ensures ToNumeric(v).NaN? <==> v.Null? || (v.Text? && !Numeral(v.s))
    ensures v.Text? && ToNumeric(v).Num? ==> ParseDecimal(v.s) == Some(ToNumeric(v).x)
    ensures v.Number? ==> ToNumeric(v) == Num(v.x)
    ensures v.Flag? ==> ToNumeric(v) == Num(if v.b then 1.0 else 0.0)
  {
    if v.Text? {
      ParseDecimalIffNumeral(v.s);
    }
  }

  /** `astype(int)` raises on NaN and truncates otherwise; `astype(float)`
      keeps the value, NaN included. */
  function ApplyCast(c: Cell, cast: Cast): Option<Cell>
  {
    match cast
    case ToFloat => Some(c)
    case ToInt => if c.NaN? then None else Some(Num(TruncateToInt(c.x) as real))
  }

  /** The int cast raises exactly on NaN and otherwise gives a whole number
      that truncates toward zero; the float cast keeps the value. */
  lemma ApplyCastCases(c: Cell, cast: Cast)
    ensures ApplyCast(c, cast).None? <==> cast == ToInt && c.NaN?
    ensures cast == ToFloat ==> ApplyCast(c, cast) == Some(c)
    ensures cast == ToInt && c.Num? ==> var y := ApplyCast(c, cast).value;
              && y.Num? && y.x == y.x.Floor as real
              && (0.0 <= c.x ==> y.x <= c.x < y.x + 1.0)
              && (c.x < 0.0 ==> y.x - 1.0 < c.x <= y.x)
  {
  }

  predicate CoercionFails(rec: Record, c: Coercion) {
    c.field !in rec || ApplyCast(ToNumeric(rec[c.field]), c.cast).None?
  }

  function CoercionError(rec: Record, c: Coercion): EncodeError {
    if c.field !in rec then MissingField(c.field) else NotAnInteger(c.field)
  }

  /** The coercion loops: each field is looked up and cast in turn; the
      first failure is the error raised. */
  function CoerceAll(rec: Record, cs: seq<Coercion>): (r: Result<map<string, Cell>, EncodeError>)
    ensures r.Err? <==> exists k :: 0 <= k < |cs| && CoercionFails(rec, cs[k])
    ensures r.Err? ==> (exists k :: 0 <= k < |cs| && CoercionFails(rec, cs[k])
                          && r.error == CoercionError(rec, cs[k])
                          && forall j :: 0 <= j < k ==> !CoercionFails(rec, cs[j]))
    ensures r.Ok? ==> forall k :: 0 <= k < |cs| ==> cs[k].field in r.value
  {
    if |cs| == 0 then Ok(map[])
    else
      var f := cs[0].field;
      if f !in rec then Err(MissingField(f))
      else match ApplyCast(ToNumeric(rec[f]), cs[0].cast)
        case None => Err(NotAnInteger(f))
        case Some(c) =>
          var rest := CoerceAll(rec, cs[1..]);
          if rest.Err? then
            assert forall k :: 0 < k < |cs| ==> cs[k] == cs[1..][k - 1];
            Err(rest.error)
          else
            assert forall k :: 0 < k < |cs| ==> cs[k] == cs[1..][k - 1];
            Ok(rest.value[f := c])
  }

  /** On success, a field holds the value its coercion casts (the first
      one, should a field be listed twice). */
  lemma {:induction false} CoercedValue(rec: Record, cs: seq<Coercion>, k: nat)
    requires CoerceAll(rec, cs).Ok? && k < |cs|
    requires forall j :: 0 <= j < k ==> cs[j].field != cs[k].field
    ensures cs[k].field in rec
    ensures Some(CoerceAll(rec, cs).value[cs[k].field]) == ApplyCast(ToNumeric(rec[cs[k].field]), cs[k].cast)
  {
    CoerceAllCons(rec, cs);
    if k > 0 {
      TailFieldsDiffer(cs, k);
      CoercedValue(rec, cs[1..], k - 1);
    }
  }

  /** On success the loops coerce no field other than the listed ones. */
  lemma {:induction false} CoercedFieldsAreListed(rec: Record, cs: seq<Coercion>)
    requires CoerceAll(rec, cs).Ok?
    ensures forall f :: f in CoerceAll(rec, cs).value ==> exists k :: 0 <= k < |cs| && cs[k].field == f
  {
    if |cs| > 0 {
      CoerceAllCons(rec, cs);
      CoercedFieldsAreListed(rec, cs[1..]);
      forall f | f in CoerceAll(rec, cs).value ensures exists k :: 0 <= k < |cs| && cs[k].field == f {
        if f != cs[0].field {
          var k :| 0 <= k < |cs[1..]| && cs[1..][k].field == f;
          assert cs[k + 1].field == f;
        }
      }
    }
  }

  lemma TailFieldsDiffer(cs: seq<Coercion>, k: nat)
    requires 0 < k < |cs| && forall j :: 0 <= j < k ==> cs[j].field != cs[k].field
    ensures cs[0].field != cs[k].field && cs[1..][k - 1] == cs[k]
    ensures forall j :: 0 <= j < k - 1 ==> cs[1..][j].field != cs[1..][k - 1].field
  {
    forall j | 0 <= j < k - 1 ensures cs[1..][j].field != cs[1..][k - 1].field {
      assert cs[1..][j] == cs[j + 1];
    }
  }

  /** A successful run of the loops is the first field's cast value over
      the rest's run. */
  lemma CoerceAllCons(rec: Record, cs: seq<Coercion>)
    requires |cs| > 0 && CoerceAll(rec, cs).Ok?
    ensures cs[0].field in rec && ApplyCast(ToNumeric(rec[cs[0].field]), cs[0].cast).Some?
    ensures CoerceAll(rec, cs[1..]).Ok?
    ensures CoerceAll(rec, cs).value
         == CoerceAll(rec, cs[1..]).value[cs[0].field := ApplyCast(ToNumeric(rec[cs[0].field]), cs[0].cast).value]
  {
  }

  /** The first of `fields` the record lacks. */
  function FirstMissing(rec: Record, fields: seq<string>): (r: Option<string>)
    ensures r.None? <==> forall k :: 0 <= k < |fields| ==> fields[k] in rec
    ensures r.Some? ==> (exists k :: 0 <= k < |fields| && fields[k] == r.value
                           && r.value !in rec && forall j :: 0 <= j < k ==> fields[j] in rec)
  {
    if |fields| == 0 then None
    else if fields[0] !in rec then Some(fields[0])
    else
      var r := FirstMissing(rec, fields[1..]);
      assert forall k :: 0 < k < |fields| ==> fields[k] == fields[1..][k - 1];
      r
  }

  function ChainFields(chains: seq<Chain>): (fields: seq<string>)
    ensures |fields| == |chains|
    ensures forall k :: 0 <= k < |chains| ==> fields[k] == chains[k].field
  {
    seq(|chains|, k requires 0 <= k < |chains| => chains[k].field)
  }

  /** One column of the row: a numeric column carries the coerced value
      (0.0 if it was never copied); an indicator is 1.0 exactly when the
      field holds its level. */
  function CellFor(col: Column, coerced: map<string, Cell>, rec: Record): Cell
  {
    match col
    case Numeric(f) => if f in coerced then coerced[f] else Num(0.0)
    case Indicator(f, l) => if f in rec && rec[f] == Text(l) then Num(1.0) else Num(0.0)
  }

  function EncodeRow(schema: seq<Column>, coerced: map<string, Cell>, rec: Record): (row: Row)
    ensures |row| == |schema|
    ensures forall i :: 0 <= i < |schema| ==> row[i] == CellFor(schema[i], coerced, rec)
  {
    seq(|schema|, i requires 0 <= i < |schema| => CellFor(schema[i], coerced, rec))
  }

  /** Table-driven encoding over any layout: coerce, check that every
      categorical field is present, then compute each column of `schema`
      on its own. */
  function EncodeWith(schema: seq<Column>, coercions: seq<Coercion>, chains: seq<Chain>, rec: Record)
    : (r: Result<Row, EncodeError>)
    ensures r.Ok? ==> |r.value| == |schema|
  {
    var coerced :- CoerceAll(rec, coercions);
    match FirstMissing(rec, ChainFields(chains))
    case Some(f) => Err(MissingField(f))
    case None => Ok(EncodeRow(schema, coerced, rec))
  }

  /** The serving encoder: the generic encoder over the adapter's tables. */
  function Encode(rec: Record): (r: Result<Row, EncodeError>)
    ensures r.Ok? ==> |r.value| == |Schema| == 30
    ensures r.Ok? ==> forall i :: 0 <= i < |Schema| && Schema[i].Indicator? ==>
      r.value[i] == Num(0.0) || r.value[i] == Num(1.0)
  {
    EncodeWith(Schema, Coercions, Chains, rec)
  }

  // ---------------------------------------------------------------------
  // The adapter statement by statement.

  /** A one-row pandas frame: column names and the row's cells. */
  datatype Frame = Frame(names: seq<string>, cells: Row)

  predicate Shaped(fr: Frame) {
    |fr.names| == |fr.cells|
  }

  /** The first position holding `name`. */
  function IndexOf(names: seq<string>, name: string): (r: Option<nat>)
    ensures r.Some? ==> r.value < |names| && names[r.value] == name
    ensures r.Some? ==> forall j :: 0 <= j < r.value ==> names[j] != name
    ensures r.None? <==> name !in names
  {
    if |names| == 0 then None
    else if names[0] == name then Some(0)
    else match IndexOf(names[1..], name)
      case None => None
      case Some(k) => Some(k + 1)
  }

  /** `frame[name] = v` on the one-row request frame (the assignments of
      webapp/app.py:49-76): overwrite the cell of that column, or append a
      new column when there is none. `Frames.Assign` is the same statement
      on whole columns. */
  function Assign(fr: Frame, name: string, v: Cell): (r: Frame)
    requires Shaped(fr)
    ensures Shaped(r)
  {
    match IndexOf(fr.names, name)
    case Some(i) => Frame(fr.names, fr.cells[i := v])
    case None => Frame(fr.names + [name], fr.cells + [v])
  }

  /** `pd.DataFrame(0.0, index=[0], columns=names)`. */
  function ZeroFrame(names: seq<string>): (fr: Frame)
    ensures Shaped(fr)
  {
    Frame(names, seq(|names|, _ => Num(0.0)))
  }

  /** The copy loop: each listed column present among the coerced fields
      is assigned its coerced value. */
  function CopyColumns(fr: Frame, coerced: map<string, Cell>, cols: seq<string>): (r: Frame)
    requires Shaped(fr)
    ensures Shaped(r)
    decreases |cols|
  {
    if |cols| == 0 then fr
    else
      var next := if cols[0] in coerced then Assign(fr, cols[0], coerced[cols[0]]) else fr;
      CopyColumns(next, coerced, cols[1..])
  }

  /** One `if`/`elif` chain: the first level equal to the value sets its
      column to 1.0; later branches are skipped. */
  function Elif(fr: Frame, v: RawValue, field: string, levels: seq<string>): (r: Frame)
    requires Shaped(fr)
    ensures Shaped(r)
  {
    if |levels| == 0 then fr
    else if v == Text(levels[0]) then Assign(fr, field + "_" + levels[0], Num(1.0))
    else Elif(fr, v, field, levels[1..])
  }

  /** The chains in statement order; reading an absent field raises. */
  function RunChains(fr: Frame, rec: Record, chains: seq<Chain>): (r: Result<Frame, EncodeError>)
    requires Shaped(fr)
    ensures r.Ok? ==> Shaped(r.value)
    ensures r.Err? ==> r.error.MissingField? && r.error.field !in rec
    decreases |chains|
  {
    if |chains| == 0 then Ok(fr)
    else if chains[0].field !in rec then Err(MissingField(chains[0].field))
    else RunChains(Elif(fr, rec[chains[0].field], chains[0].field, chains[0].levels), rec, chains[1..])
  }

  /** `preprocess_input` as written, over any layout: coercion loops, zero
      frame over the listed columns, copy loop, indicator chains. */
  function SourceEncodeWith(names: seq<string>, coercions: seq<Coercion>, copied: seq<string>,
                            chains: seq<Chain>, rec: Record): (r: Result<Frame, EncodeError>)
    ensures CoerceAll(rec, coercions).Err? ==> r == Err(CoerceAll(rec, coercions).error)
    ensures CoerceAll(rec, coercions).Ok? && r.Err? ==> r.error.MissingField? && r.error.field !in rec
    ensures r.Ok? ==> Shaped(r.value)
  {
    var coerced :- CoerceAll(rec, coercions);
    var fr := CopyColumns(ZeroFrame(names), coerced, copied);
    RunChains(fr, rec, chains)
  }

  /** The coercion loops run first, so a coercion failure is the error
      raised; after them only a chain's lookup of an absent field raises. */
  function SourceEncode(rec: Record): (r: Result<Frame, EncodeError>)
    ensures CoerceAll(rec, Coercions).Err? ==> r == Err(CoerceAll(rec, Coercions).error)
    ensures CoerceAll(rec, Coercions).Ok? && r.Err? ==> r.error.MissingField? && r.error.field !in rec
    ensures r.Ok? ==> Shaped(r.value)
  {
    SourceEncodeWith(ExpectedSchemaCols, Coercions, CopiedColumns, Chains, rec)
  }

  // ---------------------------------------------------------------------
  // The statement-by-statement form computes the table-driven row.

  /** An elif chain over levels acts like independent `if`s: it sets the
      column of the value's own level when that level is listed, and
      nothing otherwise. */
  lemma {:induction false} ElifSetsOwnLevel(fr: Frame, v: RawValue, field: string, levels: seq<string>)
    requires Shaped(fr)
    ensures v.Text? && v.s in levels ==> Elif(fr, v, field, levels) == Assign(fr, field + "_" + v.s, Num(1.0))
    ensures !(v.Text? && v.s in levels) ==> Elif(fr, v, field, levels) == fr
  {
    if |levels| > 0 && v != Text(levels[0]) {
      ElifSetsOwnLevel(fr, v, field, levels[1..]);
      assert v.Text? && v.s in levels ==> v.s in levels[1..];
    }
  }

  lemma AssignAt(fr: Frame, i: nat, v: Cell)
    requires Shaped(fr) && Distinct(fr.names) && i < |fr.names|
    ensures Assign(fr, fr.names[i], v) == Frame(fr.names, fr.cells[i := v])
  {
  }

  /** The cell a column holds once the copies are done and the chains of
      the fields in `done` have run. */
  function Expected(col: Column, coerced: map<string, Cell>, rec: Record, done: set<string>): Cell
  {
    match col
    case Numeric(f) => if f in coerced then coerced[f] else Num(0.0)
    case Indicator(f, l) => if f in done && f in rec && rec[f] == Text(l) then Num(1.0) else Num(0.0)
  }

  predicate Matches(schema: seq<Column>, fr: Frame, coerced: map<string, Cell>, rec: Record, done: set<string>)
  {
    && fr.names == ColumnNames(schema)
    && |fr.cells| == |schema|
    && forall i :: 0 <= i < |schema| ==> fr.cells[i] == Expected(schema[i], coerced, rec, done)
  }

  function Restrict(coerced: map<string, Cell>, keep: set<string>): map<string, Cell>
  {
    map f | f in coerced && f in keep :: coerced[f]
  }

  lemma {:induction false} CopyColumnsMatches(schema: seq<Column>, fr: Frame, coerced: map<string, Cell>,
                                              rec: Record, copied: set<string>, cols: seq<string>)
    requires Distinct(ColumnNames(schema))
    requires Matches(schema, fr, Restrict(coerced, copied), rec, {})
    requires forall k :: 0 <= k < |cols| ==> Numeric(cols[k]) in schema
    ensures Matches(schema, CopyColumns(fr, coerced, cols), Restrict(coerced, copied + set k | 0 <= k < |cols| :: cols[k]), rec, {})
    decreases |cols|
  {
    var all := copied + set k | 0 <= k < |cols| :: cols[k];
    if |cols| == 0 {
      assert all == copied;
    } else {
      var col := cols[0];
      var next := if col in coerced then Assign(fr, col, coerced[col]) else fr;
      CopyStep(schema, fr, coerced, rec, copied, col);
      forall k | 0 <= k < |cols[1..]| ensures Numeric(cols[1..][k]) in schema {
        assert cols[1..][k] == cols[k + 1];
      }
      CopyColumnsMatches(schema, next, coerced, rec, copied + {col}, cols[1..]);
      CopiedSetCons(copied, cols);
    }
  }

  /** One iteration of the copy loop keeps the frame matching, with one
      more column copied. */
  lemma CopyStep(schema: seq<Column>, fr: Frame, coerced: map<string, Cell>, rec: Record, copied: set<string>, col: string)
    requires Distinct(ColumnNames(schema))
    requires Matches(schema, fr, Restrict(coerced, copied), rec, {})
    requires Numeric(col) in schema
    ensures Matches(schema, if col in coerced then Assign(fr, col, coerced[col]) else fr,
                    Restrict(coerced, copied + {col}), rec, {})
  {
    var copied' := copied + {col};
    if col in coerced {
      var next := Assign(fr, col, coerced[col]);
      var i0 :| 0 <= i0 < |schema| && schema[i0] == Numeric(col);
      AssignAt(fr, i0, coerced[col]);
      forall i | 0 <= i < |schema|
        ensures next.cells[i] == Expected(schema[i], Restrict(coerced, copied'), rec, {})
      {
        if i != i0 && schema[i].Numeric? {
          assert ColumnName(schema[i]) != ColumnName(schema[i0]);
        }
      }
    } else {
      assert Restrict(coerced, copied') == Restrict(coerced, copied);
    }
  }

  lemma CopiedSetCons(copied: set<string>, cols: seq<string>)
    requires |cols| > 0
    ensures copied + {cols[0]} + (set k | 0 <= k < |cols[1..]| :: cols[1..][k])
         == copied + (set k | 0 <= k < |cols| :: cols[k])
  {
    var all := copied + set k | 0 <= k < |cols| :: cols[k];
    forall x | x in all ensures x in copied + {cols[0]} + (set k | 0 <= k < |cols[1..]| :: cols[1..][k]) {
      if x !in copied + {cols[0]} {
        var k :| 0 <= k < |cols| && cols[k] == x;
        assert cols[1..][k - 1] == x;
      }
    }
  }

  /** A chain that fits the schema: each branch targets an indicator of
      the schema, and each indicator of its field is one of its branches. */
  predicate ChainFits(schema: seq<Column>, c: Chain)
  {
    && (forall l :: l in c.levels ==> Indicator(c.field, l) in schema)
    && (forall i :: 0 <= i < |schema| && schema[i].Indicator? && schema[i].field == c.field ==>
          schema[i].level in c.levels)
  }

  lemma ElifStep(schema: seq<Column>, fr: Frame, coerced: map<string, Cell>, rec: Record,
                 done: set<string>, c: Chain)
    requires Distinct(ColumnNames(schema))
    requires Matches(schema, fr, coerced, rec, done)
    requires c.field in rec && c.field !in done && ChainFits(schema, c)
    ensures Matches(schema, Elif(fr, rec[c.field], c.field, c.levels), coerced, rec, done + {c.field})
  {
    var v := rec[c.field];
    ElifSetsOwnLevel(fr, v, c.field, c.levels);
    if v.Text? && v.s in c.levels {
      ElifHit(schema, fr, coerced, rec, done, c);
    } else {
      ElifMiss(schema, fr, coerced, rec, done, c);
    }
  }

  /** The value is one of the chain's levels: its indicator becomes 1.0. */
  lemma ElifHit(schema: seq<Column>, fr: Frame, coerced: map<string, Cell>, rec: Record,
                done: set<string>, c: Chain)
    requires Distinct(ColumnNames(schema))
    requires Matches(schema, fr, coerced, rec, done)
    requires c.field in rec && c.field !in done && ChainFits(schema, c)
    requires rec[c.field].Text? && rec[c.field].s in c.levels
    ensures Matches(schema, Assign(fr, c.field + "_" + rec[c.field].s, Num(1.0)), coerced, rec, done + {c.field})
  {
    var v := rec[c.field];
    var col := Indicator(c.field, v.s);
    assert col in schema;
    var i0 :| 0 <= i0 < |schema| && schema[i0] == col;
    assert fr.names[i0] == c.field + "_" + v.s;
    AssignAt(fr, i0, Num(1.0));
    forall i | 0 <= i < |schema| && i != i0 ensures schema[i] != schema[i0] {
      assert fr.names[i] != fr.names[i0];
    }
    HitCells(schema, fr.cells, coerced, rec, done, c.field, v.s, i0);
  }

  lemma HitCells(schema: seq<Column>, cells: seq<Cell>, coerced: map<string, Cell>, rec: Record,
                 done: set<string>, field: string, level: string, i0: nat)
    requires |cells| == |schema| && i0 < |schema| && schema[i0] == Indicator(field, level)
    requires forall i :: 0 <= i < |schema| ==> cells[i] == Expected(schema[i], coerced, rec, done)
    requires forall i :: 0 <= i < |schema| && i != i0 ==> schema[i] != schema[i0]
    requires field in rec && rec[field] == Text(level) && field !in done
    ensures forall i :: 0 <= i < |schema| ==> cells[i0 := Num(1.0)][i] == Expected(schema[i], coerced, rec, done + {field})
  {
  }

  /** The value is none of the chain's levels: every indicator of the
      field stays 0.0. */
  lemma ElifMiss(schema: seq<Column>, fr: Frame, coerced: map<string, Cell>, rec: Record,
                 done: set<string>, c: Chain)
    requires Matches(schema, fr, coerced, rec, done)
    requires c.field in rec && c.field !in done && ChainFits(schema, c)
    requires !(rec[c.field].Text? && rec[c.field].s in c.levels)
    ensures Matches(schema, fr, coerced, rec, done + {c.field})
  {
    forall i | 0 <= i < |schema|
      ensures fr.cells[i] == Expected(schema[i], coerced, rec, done + {c.field})
    {
      if schema[i].Indicator? && schema[i].field == c.field {
        assert schema[i].level in c.levels;
      }
    }
  }

  function FieldSet(chains: seq<Chain>): set<string>
  {
    set k | 0 <= k < |chains| :: chains[k].field
  }

  lemma {:induction false} RunChainsMatches(schema: seq<Column>, fr: Frame, coerced: map<string, Cell>,
                                            rec: Record, done: set<string>, chains: seq<Chain>)
    requires Distinct(ColumnNames(schema))
    requires Matches(schema, fr, coerced, rec, done)
    requires Distinct(ChainFields(chains))
    requires forall k :: 0 <= k < |chains| ==> chains[k].field !in done && ChainFits(schema, chains[k])
    ensures FirstMissing(rec, ChainFields(chains)).Some? ==>
      RunChains(fr, rec, chains) == Err(MissingField(FirstMissing(rec, ChainFields(chains)).value))
    ensures FirstMissing(rec, ChainFields(chains)).None? ==>
      RunChains(fr, rec, chains).Ok? && Matches(schema, RunChains(fr, rec, chains).value, coerced, rec, done + FieldSet(chains))
    decreases |chains|
  {
    if |chains| == 0 {
      assert FieldSet(chains) == {};
    } else {
      var c := chains[0];
      var fields := ChainFields(chains);
      if c.field in rec {
        ElifStep(schema, fr, coerced, rec, done, c);
        var next := Elif(fr, rec[c.field], c.field, c.levels);
        var rest := chains[1..];
        TailChainsFit(schema, done, chains);
        RunChainsMatches(schema, next, coerced, rec, done + {c.field}, rest);
        FieldSetCons(chains);
        RunChainsCons(fr, rec, chains);
        assert done + {c.field} + FieldSet(rest) == done + FieldSet(chains);
      }
    }
  }

  /** A present first field: its chain runs, then the rest. */
  lemma RunChainsCons(fr: Frame, rec: Record, chains: seq<Chain>)
    requires Shaped(fr) && |chains| > 0 && chains[0].field in rec
    ensures RunChains(fr, rec, chains) == RunChains(Elif(fr, rec[chains[0].field], chains[0].field, chains[0].levels), rec, chains[1..])
    ensures ChainFields(chains[1..]) == ChainFields(chains)[1..]
    ensures FirstMissing(rec, ChainFields(chains)) == FirstMissing(rec, ChainFields(chains[1..]))
  {
    assert ChainFields(chains[1..]) == ChainFields(chains)[1..];
  }

  /** The chains after the first still read distinct fields that have not
      been done, the first included. */
  lemma TailChainsFit(schema: seq<Column>, done: set<string>, chains: seq<Chain>)
    requires |chains| > 0 && Distinct(ChainFields(chains))
    requires forall k :: 0 <= k < |chains| ==> chains[k].field !in done && ChainFits(schema, chains[k])
    ensures ChainFields(chains[1..]) == ChainFields(chains)[1..]
    ensures Distinct(ChainFields(chains[1..]))
    ensures forall k :: 0 <= k < |chains[1..]| ==>
              chains[1..][k].field !in done + {chains[0].field} && ChainFits(schema, chains[1..][k])
  {
    var fields := ChainFields(chains);
    var rest := chains[1..];
    assert ChainFields(rest) == fields[1..];
    forall k | 0 <= k < |rest| ensures rest[k].field !in done + {chains[0].field} && ChainFits(schema, rest[k]) {
      assert rest[k] == chains[k + 1];
      assert fields[0] != fields[k + 1];
    }
  }

  lemma FieldSetCons(chains: seq<Chain>)
    requires |chains| > 0
    ensures FieldSet(chains) == {chains[0].field} + FieldSet(chains[1..])
  {
    var rest := chains[1..];
    forall x | x in FieldSet(chains) ensures x in {chains[0].field} + FieldSet(rest) {
      var k :| 0 <= k < |chains| && chains[k].field == x;
      if k > 0 { assert rest[k - 1].field == x; }
    }
    forall x | x in FieldSet(rest) ensures x in FieldSet(chains) {
      var k :| 0 <= k < |rest| && rest[k].field == x;
      assert chains[k + 1].field == x;
    }
  }

  lemma CopiedFrameMatches(schema: seq<Column>, coercions: seq<Coercion>, copied: seq<string>,
                            chains: seq<Chain>, rec: Record, coerced: map<string, Cell>)
    requires Layout(schema, chains, copied, coercions)
    requires CoerceAll(rec, coercions) == Ok(coerced)
    ensures Matches(schema, CopyColumns(ZeroFrame(ColumnNames(schema)), coerced, copied), coerced, rec, {})
  {
    var zero := ZeroFrame(ColumnNames(schema));
    ZeroFrameMatches(schema, coerced, rec);
    CopyColumnsMatches(schema, zero, coerced, rec, {}, copied);
    CoercedFieldsAreListed(rec, coercions);
    RestrictToCopied(coercions, copied, coerced);
  }

  /** Before the copy loop every cell is 0.0, as expected with nothing
      copied and no chain run. */
  lemma ZeroFrameMatches(schema: seq<Column>, coerced: map<string, Cell>, rec: Record)
    ensures Matches(schema, ZeroFrame(ColumnNames(schema)), Restrict(coerced, {}), rec, {})
  {
    assert Restrict(coerced, {}) == map[];
  }

  /** Every coerced field is copied, so copying keeps all of them. */
  lemma RestrictToCopied(coercions: seq<Coercion>, copied: seq<string>, coerced: map<string, Cell>)
    requires forall f :: f in coerced ==> exists k :: 0 <= k < |coercions| && coercions[k].field == f
    requires forall k :: 0 <= k < |coercions| ==> coercions[k].field in copied
    ensures Restrict(coerced, {} + set k | 0 <= k < |copied| :: copied[k]) == coerced
  {
    var copiedSet := {} + set k | 0 <= k < |copied| :: copied[k];
    forall f | f in coerced ensures f in copiedSet {
      var k :| 0 <= k < |coercions| && coercions[k].field == f;
      assert f in copied;
    }
  }

  lemma ChainsFit(schema: seq<Column>, coercions: seq<Coercion>, copied: seq<string>, chains: seq<Chain>)
    requires Layout(schema, chains, copied, coercions)
    ensures Distinct(ChainFields(chains))
    ensures forall k :: 0 <= k < |chains| ==> ChainFits(schema, chains[k])
  {
    assert ChainFields(chains) == seq(|chains|, k requires 0 <= k < |chains| => chains[k].field);
    forall k | 0 <= k < |chains| ensures ChainFits(schema, chains[k]) {
      forall i | 0 <= i < |schema| && schema[i].Indicator? && schema[i].field == chains[k].field
        ensures schema[i].level in chains[k].levels
      {
        IndicatorLevelIsListed(schema, coercions, copied, chains, k, i);
      }
    }
  }

  /** An indicator of a chain's field stands for one of that chain's
      levels, since no other chain reads the same field. */
  lemma IndicatorLevelIsListed(schema: seq<Column>, coercions: seq<Coercion>, copied: seq<string>, chains: seq<Chain>,
                               k: nat, i: nat)
    requires Layout(schema, chains, copied, coercions)
    requires k < |chains| && i < |schema| && schema[i].Indicator? && schema[i].field == chains[k].field
    ensures schema[i].level in chains[k].levels
  {
    var fields := seq(|chains|, j requires 0 <= j < |chains| => chains[j].field);
    var k' :| 0 <= k' < |chains| && chains[k'].field == schema[i].field && schema[i].level in chains[k'].levels;
    assert fields[k] == fields[k'];
  }

  lemma FinalFrameIsRow(schema: seq<Column>, coercions: seq<Coercion>, copied: seq<string>,
                        chains: seq<Chain>, rec: Record, coerced: map<string, Cell>, out: Frame)
    requires Layout(schema, chains, copied, coercions)
    requires Matches(schema, out, coerced, rec, FieldSet(chains))
    ensures out == Frame(ColumnNames(schema), EncodeRow(schema, coerced, rec))
  {
    forall i | 0 <= i < |schema| ensures out.cells[i] == CellFor(schema[i], coerced, rec) {
      if schema[i].Indicator? {
        var k' :| 0 <= k' < |chains| && chains[k'].field == schema[i].field && schema[i].level in chains[k'].levels;
        assert schema[i].field in FieldSet(chains);
      }
    }
  }

  /** For any well-formed layout, the statement-by-statement encoder and
      the table-driven one agree on every record. */
  lemma SourceMatchesTable(schema: seq<Column>, coercions: seq<Coercion>, copied: seq<string>,
                           chains: seq<Chain>, rec: Record)
    requires Layout(schema, chains, copied, coercions)
    ensures SourceEncodeWith(ColumnNames(schema), coercions, copied, chains, rec)
         == (match EncodeWith(schema, coercions, chains, rec)
             case Ok(row) => Ok(Frame(ColumnNames(schema), row))
             case Err(e) => Err(e))
  {
    var co := CoerceAll(rec, coercions);
    if co.Ok? {
      var coerced := co.value;
      CopiedFrameMatches(schema, coercions, copied, chains, rec, coerced);
      ChainsFit(schema, coercions, copied, chains);
      var fr := CopyColumns(ZeroFrame(ColumnNames(schema)), coerced, copied);
      RunChainsMatches(schema, fr, coerced, rec, {}, chains);
      if FirstMissing(rec, ChainFields(chains)).None? {
        var out := RunChains(fr, rec, chains).value;
        assert {} + FieldSet(chains) == FieldSet(chains);
        FinalFrameIsRow(schema, coercions, copied, chains, rec, coerced, out);
      }
    }
  }

  /** The adapter as written and the table-driven encoder agree on every
      request: the same error, or the listed columns holding `Encode`'s row. */
  lemma SourceEncodeIsTableEncode(rec: Record)
    ensures SourceEncode(rec) == (match Encode(rec)
                                  case Ok(row) => Ok(Frame(ExpectedSchemaCols, row))
                                  case Err(e) => Err(e))
  {
    SchemaFacts.ServingLayout();
    SchemaFacts.SchemaNamesAreTheListedColumns();
    SourceMatchesTable(Schema, Coercions, CopiedColumns, Chains, rec);
  }
}
