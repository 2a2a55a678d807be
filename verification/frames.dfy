/** The column-oriented tables that the training-data cleaning works on:
    a pandas data frame is a sequence of named columns of equal height,
    each either of object dtype (text cells) or of a numeric dtype. A
    missing cell (`NaN`) is `None`. */
module Frames {
  import opened Results

  datatype Column =
    | TextColumn(name: string, texts: seq<Option<string>>)
    | NumberColumn(name: string, numbers: seq<Option<real>>)

  function Height(c: Column): nat
  {
    match c
    case TextColumn(_, texts) => |texts|
    case NumberColumn(_, numbers) => |numbers|
  }

  datatype DataFrame = DataFrame(height: nat, columns: seq<Column>)

  predicate Rectangular(height: nat, columns: seq<Column>)
  {
    forall j :: 0 <= j < |columns| ==> Height(columns[j]) == height
  }

  predicate UniqueNames(columns: seq<Column>)
  {
    forall i, j :: 0 <= i < j < |columns| ==> columns[i].name != columns[j].name
  }

  /** A frame as `read_csv` produces it: every column as high as the frame
      and no column name twice. */
  predicate WellFormed(d: DataFrame)
  {
    Rectangular(d.height, d.columns) && UniqueNames(d.columns)
  }

  /** The position of the first column called `name` (`frame[name]`). */
  function Find(columns: seq<Column>, name: string): (r: Option<nat>)
    ensures r.None? <==> forall j :: 0 <= j < |columns| ==> columns[j].name != name
    ensures r.Some? ==> r.value < |columns| && columns[r.value].name == name
    ensures r.Some? ==> forall j :: 0 <= j < r.value ==> columns[j].name != name
  {
    if |columns| == 0 then None
    else if columns[0].name == name then Some(0)
    else match Find(columns[1..], name)
      case None => None
      case Some(j) => Some(j + 1)
  }

  /** `frame[c.name] = c` on a frame of whole columns (`out["Churn"] = y`,
      scripts/preprocess.py:63): replaces the column of that name in place,
      or appends `c` when there is none. `Encoder.Assign` is the same
      statement on the one-row request frame. */
  function Assign(columns: seq<Column>, c: Column): (r: seq<Column>)
    ensures Find(columns, c.name).Some? ==> |r| == |columns| && r[Find(columns, c.name).value] == c
    ensures Find(columns, c.name).None? ==> r == columns + [c]
    ensures forall j :: 0 <= j < |columns| && columns[j].name != c.name ==> r[j] == columns[j]
  {
    match Find(columns, c.name)
    case Some(j) => columns[j := c]
    case None => columns + [c]
  }

  lemma RectangularAppend(height: nat, a: seq<Column>, b: seq<Column>)
    requires Rectangular(height, a) && Rectangular(height, b)
    ensures Rectangular(height, a + b)
  {
    forall j | 0 <= j < |a + b| ensures Height((a + b)[j]) == height {
      if j >= |a| { assert (a + b)[j] == b[j - |a|]; }
    }
  }

  /** Columns picked from a rectangular frame are as high as the frame. */
  lemma MembersRectangular(height: nat, columns: seq<Column>, picked: seq<Column>)
    requires Rectangular(height, columns)
    requires forall j :: 0 <= j < |picked| ==> picked[j] in columns
    ensures Rectangular(height, picked)
  {
    forall j | 0 <= j < |picked| ensures Height(picked[j]) == height {
      var i :| 0 <= i < |columns| && columns[i] == picked[j];
    }
  }

  /** A name found in neither part is not found in the concatenation. */
  lemma FindAppendNone(a: seq<Column>, b: seq<Column>, name: string)
    requires Find(a, name).None? && Find(b, name).None?
    ensures Find(a + b, name).None?
  {
    forall j | 0 <= j < |a + b| ensures (a + b)[j].name != name {
      if j >= |a| { assert (a + b)[j] == b[j - |a|]; }
    }
  }

  /** Lookup by name sees only the names. */
  lemma {:induction false} FindSeesOnlyNames(a: seq<Column>, b: seq<Column>, name: string)
    requires |a| == |b| && forall j :: 0 <= j < |a| ==> a[j].name == b[j].name
    ensures Find(a, name) == Find(b, name)
  {
    if |a| > 0 && a[0].name != name {
      FindSeesOnlyNames(a[1..], b[1..], name);
    }
  }
}
