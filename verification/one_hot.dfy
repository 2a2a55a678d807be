/** scikit-learn's `OneHotEncoder(drop="first")` on text columns, as the
    cleaning step uses it (scripts/preprocess.py:45-51): the categories of
    a column are its distinct values in sorted order, with the missing
    value as one more category after all of them; the first category is
    dropped, and every other one becomes an indicator column named
    `<column>_<category>`. */
module OneHot {
  import opened Results
  import opened TextOrder
  import opened Frames

  datatype Category = Value(text: string) | Missing

  function CategoryOf(cell: Option<string>): Category
  {
    match cell
    case Some(s) => Value(s)
    case None => Missing
  }

  /** The values present in a column, in row order, repeats included. */
  function Present(cells: seq<Option<string>>): (r: seq<string>)
    ensures forall v :: v in r <==> Some(v) in cells
  {
    if |cells| == 0 then []
    else
      var init := cells[..|cells| - 1];
      assert cells == init + [cells[|cells| - 1]];
      match cells[|cells| - 1]
      case Some(v) => Present(init) + [v]
      case None => Present(init)
  }

  /** The categories the encoder learns from a column. */
  function Categories(cells: seq<Option<string>>): (r: seq<Category>)
    ensures forall i :: 0 <= i < |cells| ==> CategoryOf(cells[i]) in r
    ensures forall c :: c in r ==> exists i :: 0 <= i < |cells| && CategoryOf(cells[i]) == c
    ensures forall i, j :: 0 <= i < j < |r| ==> r[i].Value? && (r[j].Missing? || Less(r[i].text, r[j].text))
  {
    var texts := SortedDistinct(Present(cells));
    var r := AsValues(texts) + (if None in cells then [Missing] else []);
    CategoriesCoverCells(cells, texts, r);
    CategoriesOccur(cells, texts, r);
    r
  }

  function AsValues(texts: seq<string>): (r: seq<Category>)
    ensures |r| == |texts| && forall k :: 0 <= k < |texts| ==> r[k] == Value(texts[k])
  {
    seq(|texts|, k requires 0 <= k < |texts| => Value(texts[k]))
  }

  lemma CategoriesCoverCells(cells: seq<Option<string>>, texts: seq<string>, r: seq<Category>)
    requires forall v :: v in texts <==> v in Present(cells)
    requires r == AsValues(texts) + (if None in cells then [Missing] else [])
    ensures forall i :: 0 <= i < |cells| ==> CategoryOf(cells[i]) in r
  {
    forall i | 0 <= i < |cells| ensures CategoryOf(cells[i]) in r {
      if cells[i].Some? {
        var v := cells[i].value;
        assert v in texts;
        var k :| 0 <= k < |texts| && texts[k] == v;
        assert r[k] == Value(v);
      } else {
        assert r[|r| - 1] == Missing;
      }
    }
  }

  lemma CategoriesOccur(cells: seq<Option<string>>, texts: seq<string>, r: seq<Category>)
    requires forall v :: v in texts <==> v in Present(cells)
    requires r == AsValues(texts) + (if None in cells then [Missing] else [])
    ensures forall c :: c in r ==> exists i :: 0 <= i < |cells| && CategoryOf(cells[i]) == c
  {
    forall c | c in r ensures exists i :: 0 <= i < |cells| && CategoryOf(cells[i]) == c {
      var k :| 0 <= k < |r| && r[k] == c;
      if k < |texts| {
        assert texts[k] in Present(cells);
        var i :| 0 <= i < |cells| && cells[i] == Some(texts[k]);
        assert CategoryOf(cells[i]) == c;
      } else {
        var i :| 0 <= i < |cells| && cells[i] == None;
        assert CategoryOf(cells[i]) == c;
      }
    }
  }

  /** Categories are distinct, so each row's value is exactly one of them. */
  lemma CategoriesDistinct(cells: seq<Option<string>>, i: nat, j: nat)
    requires i < j < |Categories(cells)|
    ensures Categories(cells)[i] != Categories(cells)[j]
  {
    var r := Categories(cells);
    if r[j].Value? {
      LessIrreflexive(r[i].text);
    }
  }

  /** The name `get_feature_names_out` gives an indicator: a missing value
      prints as `nan`. */
  function FeatureName(column: string, c: Category): (r: string)
    ensures '_' in r
  {
    var name := column + "_" + (match c case Value(s) => s case Missing => "nan");
    assert name[|column|] == '_';
    name
  }

  /** An indicator's name is the column name, `_`, then the category's
      text, with a missing value printed as `nan`. */
  lemma FeatureNameParts(column: string, c: Category)
    ensures var r := FeatureName(column, c);
            && |r| > |column| && r[..|column|] == column && r[|column|] == '_'
            && r[|column| + 1..] == (if c.Missing? then "nan" else c.text)
  {
    var r := FeatureName(column, c);
    assert r[..|column|] == column;
  }

  /** Within one column, two categories get the same name exactly when
      they are equal, or one is missing and the other is the text `nan`. */
  lemma FeatureNamesCollide(column: string, c1: Category, c2: Category)
    ensures FeatureName(column, c1) == FeatureName(column, c2)
        <==> c1 == c2 || (c1 == Missing && c2 == Value("nan")) || (c1 == Value("nan") && c2 == Missing)
  {
    var t1 := match c1 case Value(s) => s case Missing => "nan";
    var t2 := match c2 case Value(s) => s case Missing => "nan";
    assert FeatureName(column, c1)[|column| + 1..] == t1;
    assert FeatureName(column, c2)[|column| + 1..] == t2;
    if t1 == t2 {
      assert FeatureName(column, c1) == column + "_" + t1;
    }
  }

  /** The indicator of category `c` over a column. */
  function Indicator(column: string, cells: seq<Option<string>>, c: Category): Column
  {
    NumberColumn(FeatureName(column, c),
                 seq(|cells|, i requires 0 <= i < |cells| => Some(if CategoryOf(cells[i]) == c then 1.0 else 0.0)))
  }

  /** The encoding of one text column: one indicator per category except
      the first. */
  function EncodeColumn(column: string, cells: seq<Option<string>>): (r: seq<Column>)
    ensures |cells| > 0 ==> |r| == |Categories(cells)| - 1
    ensures forall j :: 0 <= j < |r| ==> Height(r[j]) == |cells| && r[j].NumberColumn?
    ensures forall j :: 0 <= j < |r| ==> '_' in r[j].name
  {
    var cats := Categories(cells);
    if |cats| == 0 then []
    else
      var r := seq(|cats| - 1, j requires 0 <= j < |cats| - 1 => Indicator(column, cells, cats[j + 1]));
      assert forall j :: 0 <= j < |r| ==> r[j] == Indicator(column, cells, cats[j + 1]);
      r
  }

  /** The `j`-th indicator holds 1 exactly on the rows whose value is the
      category it stands for, and 0 on every other row. */
  lemma IndicatorIsOneOnItsCategory(column: string, cells: seq<Option<string>>, j: nat, i: nat)
    requires j < |EncodeColumn(column, cells)| && i < |cells|
    ensures EncodeColumn(column, cells)[j].name == FeatureName(column, Categories(cells)[j + 1])
    ensures EncodeColumn(column, cells)[j].numbers[i] == Some(1.0) <==> CategoryOf(cells[i]) == Categories(cells)[j + 1]
    ensures EncodeColumn(column, cells)[j].numbers[i] == Some(1.0) || EncodeColumn(column, cells)[j].numbers[i] == Some(0.0)
  {
    assert EncodeColumn(column, cells)[j] == Indicator(column, cells, Categories(cells)[j + 1]);
  }

  /** No row is 1 in two indicators of the same column. */
  lemma AtMostOneHot(column: string, cells: seq<Option<string>>, j: nat, k: nat, i: nat)
    requires j < k < |EncodeColumn(column, cells)| && i < |cells|
    ensures EncodeColumn(column, cells)[j].numbers[i] == Some(0.0) || EncodeColumn(column, cells)[k].numbers[i] == Some(0.0)
  {
    var cats := Categories(cells);
    var r := EncodeColumn(column, cells);
    assert r[j] == Indicator(column, cells, cats[j + 1]);
    assert r[k] == Indicator(column, cells, cats[k + 1]);
    CategoriesDistinct(cells, j + 1, k + 1);
  }

  /** A row is 0 in every indicator exactly when its value is the dropped
      first category. */
  lemma DroppedCategoryIsAllZeros(column: string, cells: seq<Option<string>>, i: nat)
    requires i < |cells|
    ensures (forall j :: 0 <= j < |EncodeColumn(column, cells)| ==> EncodeColumn(column, cells)[j].numbers[i] == Some(0.0))
            <==> CategoryOf(cells[i]) == Categories(cells)[0]
  {
    assert CategoryOf(cells[i]) in Categories(cells);
    if CategoryOf(cells[i]) == Categories(cells)[0] {
      DroppedRowIsZero(column, cells, i);
    } else {
      var j := KeptRowIsOne(column, cells, i);
    }
  }

  /** A row whose value is a kept category is 1 in that category's
      indicator; `j` is its position. */
  lemma KeptRowIsOne(column: string, cells: seq<Option<string>>, i: nat) returns (j: nat)
    requires i < |cells| && 0 < |Categories(cells)| && CategoryOf(cells[i]) != Categories(cells)[0]
    ensures j < |EncodeColumn(column, cells)| && EncodeColumn(column, cells)[j].numbers[i] == Some(1.0)
  {
    var cats := Categories(cells);
    assert CategoryOf(cells[i]) in cats;
    var k :| 0 <= k < |cats| && cats[k] == CategoryOf(cells[i]);
    j := k - 1;
    IndicatorIsOneOnItsCategory(column, cells, j, i);
  }

  lemma DroppedRowIsZero(column: string, cells: seq<Option<string>>, i: nat)
    requires i < |cells| && 0 < |Categories(cells)| && CategoryOf(cells[i]) == Categories(cells)[0]
    ensures forall j :: 0 <= j < |EncodeColumn(column, cells)| ==> EncodeColumn(column, cells)[j].numbers[i] == Some(0.0)
  {
    var r := EncodeColumn(column, cells);
    forall j | 0 <= j < |r| ensures r[j].numbers[i] == Some(0.0) {
      IndicatorIsOneOnItsCategory(column, cells, j, i);
      CategoriesDistinct(cells, 0, j + 1);
    }
  }

  /** The encoding of several text columns side by side, in column order. */
  function EncodeAll(columns: seq<Column>, height: nat): (r: seq<Column>)
    requires forall j :: 0 <= j < |columns| ==> columns[j].TextColumn? && Height(columns[j]) == height
    ensures forall j :: 0 <= j < |r| ==> Height(r[j]) == height && r[j].NumberColumn?
    ensures forall j :: 0 <= j < |r| ==> '_' in r[j].name
    ensures height > 0 ==> |r| == IndicatorCount(columns)
  {
    if |columns| == 0 then []
    else
      assert |columns[0].texts| == Height(columns[0]) == height;
      var first := EncodeColumn(columns[0].name, columns[0].texts);
      var rest := EncodeAll(columns[1..], height);
      assert forall j :: 0 <= j < |first| ==> Height(first[j]) == height && first[j].NumberColumn?;
      assert forall j :: 0 <= j < |first| ==> '_' in first[j].name;
      first + rest
  }

  /** k-1 indicators for a column of k categories, summed over columns. */
  function IndicatorCount(columns: seq<Column>): nat
    requires forall j :: 0 <= j < |columns| ==> columns[j].TextColumn?
  {
    if |columns| == 0 then 0
    else
      var k := |Categories(columns[0].texts)|;
      (if k == 0 then 0 else k - 1) + IndicatorCount(columns[1..])
  }
}
