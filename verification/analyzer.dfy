/** The cleaning helpers of the product analyzer: `clean_text`, the derived
    columns of `extract_features` and the column choice of `normalize_features`. */
module Analyzer {
  import opened Wrappers
  import opened Text
  import opened Catalog
  import opened Scaling

  /** `clean_text`: a NaN cell becomes the empty text, any other text is
      lower-cased and stripped. */
  function CleanText(x: Option<string>): (r: string)
    ensures x.None? ==> r == ""
    ensures NoUpper(r) && Stripped(r)
    ensures x.Some? ==> CleanedFrom(x.value, r)
    ensures x.Some? ==> |r| <= |x.value|
  {
    match x
    case None => ""
    case Some(s) => Normalize(s)
  }

  /** Cleaning a cleaned text changes nothing. */
  lemma CleanTextIdempotent(x: Option<string>)
    ensures CleanText(Some(CleanText(x))) == CleanText(x)
  {
    if x.Some? {
      NormalizeIdempotent(x.value);
    } else {
      assert |Normalize("")| == 0;
    }
  }

  /** A text that is already lower-case and stripped is its own cleaning: together
      with `CleanText`'s contract, the cleaned texts are exactly these. */
  lemma CleanTextFixedPoints(s: string)
    requires NoUpper(s) && Stripped(s)
    ensures CleanText(Some(s)) == s
  {
    LowerOfLowercase(s);
    StripOfStripped(s);
  }

  /** `s.split('/')[0]`: the text before the first slash. */
  function BeforeSlash(s: string): (r: string)
    ensures |r| <= |s| && r == s[..|r|]
    ensures '/' !in r
    ensures |r| < |s| ==> s[|r|] == '/'
  {
    if |s| == 0 || s[0] == '/' then ""
    else [s[0]] + BeforeSlash(s[1..])
  }

  /** The `main_category` of one row: the category up to its first slash, or
      `Unknown` for a NaN category. */
  function MainCategory(category: Option<string>): (r: string)
    ensures category.None? ==> r == "Unknown"
    ensures category.Some? ==> r <= category.value && '/' !in r
    ensures category.Some? && |r| < |category.value| ==> category.value[|r|] == '/'
  {
    match category
    case None => "Unknown"
    case Some(c) => BeforeSlash(c)
  }

  /** A category without a slash is its own main category. */
  lemma MainCategoryOfFlat(c: string)
    requires '/' !in c
    ensures MainCategory(Some(c)) == c
  {
  }

  /** Taking the main category twice is taking it once. */
  lemma MainCategoryIdempotent(category: Option<string>)
    ensures category.Some? ==> MainCategory(Some(MainCategory(category))) == MainCategory(category)
  {
    if category.Some? {
      MainCategoryOfFlat(MainCategory(category));
    }
  }

  /** `KeyError` for a column the table lacks; the `ValueError` a scikit-learn
      scaler raises when fitted on a column with no rows. */
  datatype AnalyzerError = MissingColumn(column: Column) | NoSamples(column: Column)

  /** The columns `extract_features` adds, one entry per row. */
  datatype Extracted = Extracted(
    titleClean: seq<string>,
    descriptionClean: Option<seq<string>>,
    mainCategory: seq<string>)

  /** `extract_features`. Reading a column the table lacks raises `KeyError`;
      the description column is optional. */
  function ExtractFeatures(t: Table): (r: Result<Extracted, AnalyzerError>)
    ensures Title !in t.columns ==> r == Failure(MissingColumn(Title))
    ensures Title in t.columns && Category !in t.columns ==> r == Failure(MissingColumn(Category))
    ensures r.Success? <==> Title in t.columns && Category in t.columns
    ensures r.Success? ==>
      && |r.value.titleClean| == |t.rows| && |r.value.mainCategory| == |t.rows|
      && (r.value.descriptionClean.Some? <==> Description in t.columns)
      && (r.value.descriptionClean.Some? ==> |r.value.descriptionClean.value| == |t.rows|)
      && (forall i :: 0 <= i < |t.rows| ==> r.value.titleClean[i] == CleanText(t.rows[i].title))
      && (forall i :: 0 <= i < |t.rows| ==> r.value.mainCategory[i] == MainCategory(t.rows[i].category))
      && (r.value.descriptionClean.Some? ==> forall i :: 0 <= i < |t.rows| ==>
            r.value.descriptionClean.value[i] == CleanText(t.rows[i].description))
  {
    if Title !in t.columns then Failure(MissingColumn(Title))
    else
      var titles := seq(|t.rows|, i requires 0 <= i < |t.rows| => CleanText(t.rows[i].title));
      var descriptions :=
        if Description in t.columns
        then Some(seq(|t.rows|, i requires 0 <= i < |t.rows| => CleanText(t.rows[i].description)))
        else None;
      if Category !in t.columns then Failure(MissingColumn(Category))
      else
        var mains := seq(|t.rows|, i requires 0 <= i < |t.rows| => MainCategory(t.rows[i].category));
        Success(Extracted(titles, descriptions, mains))
  }

  /** Cleaning a cleaned title again changes nothing. */
  lemma TitlesAreFixedPoints(t: Table, e: Extracted)
    requires ExtractFeatures(t) == Success(e)
    ensures forall i :: 0 <= i < |e.titleClean| ==> CleanText(Some(e.titleClean[i])) == e.titleClean[i]
  {
    forall i | 0 <= i < |e.titleClean|
      ensures CleanText(Some(e.titleClean[i])) == e.titleClean[i]
    {
      CleanTextIdempotent(t.rows[i].title);
    }
  }

  /** Cleaning a cleaned description again changes nothing. */
  lemma DescriptionsAreFixedPoints(t: Table, e: Extracted)
    requires ExtractFeatures(t) == Success(e)
    ensures e.descriptionClean.Some? ==> forall i :: 0 <= i < |e.descriptionClean.value| ==>
              CleanText(Some(e.descriptionClean.value[i])) == e.descriptionClean.value[i]
  {
    if e.descriptionClean.Some? {
      forall i | 0 <= i < |e.descriptionClean.value|
        ensures CleanText(Some(e.descriptionClean.value[i])) == e.descriptionClean.value[i]
      {
        CleanTextIdempotent(t.rows[i].description);
      }
    }
  }

  /** A main category has no slash left: it is its own main category. */
  lemma MainCategoriesAreFixedPoints(t: Table, e: Extracted)
    requires ExtractFeatures(t) == Success(e)
    ensures forall i :: 0 <= i < |e.mainCategory| ==>
              MainCategory(Some(e.mainCategory[i])) == e.mainCategory[i]
  {
    forall i | 0 <= i < |e.mainCategory|
      ensures MainCategory(Some(e.mainCategory[i])) == e.mainCategory[i]
    {
      MainCategoryOfFlat(e.mainCategory[i]);
    }
  }

  /** One `<column>_normalized` column added by `normalize_features`. */
  datatype Normalized = Normalized(column: Column, values: seq<Option<real>>)

  /** The raw cells of a numeric column, NaN kept. */
  function ColumnCells(t: Table, c: Column): (xs: seq<Option<real>>)
    ensures |xs| == |t.rows|
    ensures forall i :: 0 <= i < |t.rows| ==> xs[i] == NumericCell(t.rows[i], c)
  {
    seq(|t.rows|, i requires 0 <= i < |t.rows| => NumericCell(t.rows[i], c))
  }

  /** The columns after `price` that `normalize_features` scales when present. */
  const AnalyzerOptional: seq<Column> := [Rating, ReviewsCount, SalesLast30Days]

  function ColumnsOf(ns: seq<Normalized>): (cs: seq<Column>)
    ensures |cs| == |ns|
    ensures forall k :: 0 <= k < |ns| ==> cs[k] == ns[k].column
  {
    seq(|ns|, k requires 0 <= k < |ns| => ns[k].column)
  }

  /** The columns `normalize_features` scales are named once each. */
  lemma ScaledColumnsDistinct(columns: set<Column>)
    ensures var names := [Price] + PresentAmong(AnalyzerOptional, columns);
            forall k, l :: 0 <= k < l < |names| ==> names[k] != names[l]
  {
    var rest := PresentAmong(AnalyzerOptional, columns);
    PresentAmongDistinct(AnalyzerOptional, columns);
    assert Price !in rest;
    var names := [Price] + rest;
    forall k, l | 0 <= k < l < |names| ensures names[k] != names[l] {
      assert names[l] == rest[l - 1];
      if k > 0 {
        assert names[k] == rest[k - 1];
      }
    }
  }

  /** `normalize_features`: `price` always (a missing `price` raises `KeyError`),
      then those of `rating`, `reviews_count`, `sales_last_30_days` the table has,
      each min-max scaled on its own. Fitting the scaler on an empty table
      raises `ValueError`, at the `price` column already. */
  function NormalizeFeatures(t: Table): (r: Result<seq<Normalized>, AnalyzerError>)
    ensures r.Failure? <==> Price !in t.columns || |t.rows| == 0
    ensures Price !in t.columns ==> r == Failure(MissingColumn(Price))
    ensures Price in t.columns && |t.rows| == 0 ==> r == Failure(NoSamples(Price))
    ensures r.Success? ==> |r.value| >= 1 && r.value[0].column == Price
    ensures r.Success? ==> ColumnsOf(r.value) == [Price] + PresentAmong(AnalyzerOptional, t.columns)
    ensures r.Success? ==> forall c :: c in ColumnsOf(r.value)
                                       <==> c in t.columns && c in [Price] + AnalyzerOptional
    ensures r.Success? ==> forall k, l :: 0 <= k < l < |r.value| ==> r.value[k].column != r.value[l].column
    ensures r.Success? ==> forall k :: 0 <= k < |r.value| ==>
              r.value[k].values == MinMaxScale(ColumnCells(t, r.value[k].column))
    ensures r.Success? ==> forall k, i :: 0 <= k < |r.value| && 0 <= i < |t.rows| ==>
              && |r.value[k].values| == |t.rows|
              && (r.value[k].values[i].None? <==> NumericCell(t.rows[i], r.value[k].column).None?)
              && (r.value[k].values[i].Some? ==> 0.0 <= r.value[k].values[i].value <= 1.0)
  {
    if Price !in t.columns then Failure(MissingColumn(Price))
    else if |t.rows| == 0 then Failure(NoSamples(Price))
    else
      var names := [Price] + PresentAmong(AnalyzerOptional, t.columns);
      var cols := seq(|names|, k requires 0 <= k < |names| =>
        Normalized(names[k], MinMaxScale(ColumnCells(t, names[k]))));
      assert ColumnsOf(cols) == names;
      ScaledColumnsDistinct(t.columns);
      Success(cols)
  }

  /** Each scaled column keeps the order of the table's cells. */
  lemma NormalizedKeepsOrder(t: Table, k: int, i: int, j: int)
    requires NormalizeFeatures(t).Success?
    requires 0 <= k < |NormalizeFeatures(t).value| && 0 <= i < |t.rows| && 0 <= j < |t.rows|
    ensures var col := NormalizeFeatures(t).value[k];
            var x, y := NumericCell(t.rows[i], col.column), NumericCell(t.rows[j], col.column);
            x.Some? && y.Some? && x.value <= y.value ==> col.values[i].value <= col.values[j].value
  {
    var col := NormalizeFeatures(t).value[k];
    var xs := ColumnCells(t, col.column);
    if xs[i].Some? && xs[j].Some? && xs[i].value <= xs[j].value {
      ScalingIsMonotone(xs, i, j);
    }
  }

  /** A smallest cell of a scaled column becomes 0. */
  lemma NormalizedMinIsZero(t: Table, k: int, i: int)
    requires NormalizeFeatures(t).Success?
    requires 0 <= k < |NormalizeFeatures(t).value| && 0 <= i < |t.rows|
    ensures var col := NormalizeFeatures(t).value[k];
            var x := NumericCell(t.rows[i], col.column);
            && x.Some?
            && (forall m :: 0 <= m < |t.rows| && NumericCell(t.rows[m], col.column).Some?
                  ==> x.value <= NumericCell(t.rows[m], col.column).value)
            ==> col.values[i] == Some(0.0)
  {
    var col := NormalizeFeatures(t).value[k];
    var xs := ColumnCells(t, col.column);
    if xs[i].Some? && forall m :: 0 <= m < |xs| && xs[m].Some? ==> xs[i].value <= xs[m].value {
      var m :| 0 <= m < |xs| && xs[m] == Some(Lo(xs).value);
      ScalingHitsBounds(xs, i);
    }
  }

  /** A largest cell of a scaled column becomes 1 unless the column is constant. */
  lemma NormalizedMaxIsOne(t: Table, k: int, i: int, j: int)
    requires NormalizeFeatures(t).Success?
    requires 0 <= k < |NormalizeFeatures(t).value| && 0 <= i < |t.rows| && 0 <= j < |t.rows|
    ensures var col := NormalizeFeatures(t).value[k];
            var x, y := NumericCell(t.rows[i], col.column), NumericCell(t.rows[j], col.column);
            && x.Some? && y.Some? && y.value < x.value
            && (forall m :: 0 <= m < |t.rows| && NumericCell(t.rows[m], col.column).Some?
                  ==> NumericCell(t.rows[m], col.column).value <= x.value)
            ==> col.values[i] == Some(1.0)
  {
    var col := NormalizeFeatures(t).value[k];
    var xs := ColumnCells(t, col.column);
    if && xs[i].Some? && xs[j].Some? && xs[j].value < xs[i].value
       && forall m :: 0 <= m < |xs| && xs[m].Some? ==> xs[m].value <= xs[i].value
    {
      var m :| 0 <= m < |xs| && xs[m] == Some(Hi(xs).value);
      ScalingHitsBounds(xs, i);
    }
  }
}
