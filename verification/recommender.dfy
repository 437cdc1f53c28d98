/** The `ProductRecommender`: training front-end, query engine and persistence.
    The float numerics (TF-IDF weighting and the cosine kernel) are parameters;
    everything the engine does around them is modelled here. */
module Recommender {
  import opened Wrappers
  import opened Text
  import opened Catalog
  import opened Scaling
  import opened Ranking
  import opened Indexing
  import opened Slicing
  import opened Analyzer

  type Matrix = seq<seq<real>>

  /** What the TF-IDF vectorizer learns from a corpus: its vocabulary and one
      weight row per document. */
  datatype TextFit = TextFit(vocabulary: seq<string>, weights: Matrix)

  /** What the vectorizer library guarantees of a successful fit: at least one
      document and one term (otherwise it raises "empty vocabulary"), one weight
      row per document, each as wide as the vocabulary. */
  ghost predicate IsVectorizer(vectorize: seq<string> -> Option<TextFit>) {
    forall docs: seq<string> {:trigger vectorize(docs)} :: vectorize(docs).Some? ==>
      var fit := vectorize(docs).value;
      && |docs| > 0 && |fit.vocabulary| > 0
      && |fit.weights| == |docs|
      && forall i :: 0 <= i < |docs| ==> |fit.weights[i]| == |fit.vocabulary|
  }

  /** The public view of one product. A `None` price or rating is a NaN float. */
  datatype ProductInfo = ProductInfo(
    productId: int, title: string, price: Option<real>, rating: Option<real>,
    category: string, reviewsCount: int)

  /** One entry of a recommendation list. */
  datatype ProductRecommendation = ProductRecommendation(
    productId: int, title: string, category: string, price: Option<real>,
    rating: Option<real>, reviewsCount: int, similarityScore: real)

  /** The product record a recommendation entry repeats, its score set aside. */
  function InfoOf(x: ProductRecommendation): ProductInfo {
    ProductInfo(x.productId, x.title, x.price, x.rating, x.category, x.reviewsCount)
  }

  datatype RecommendationResponse = RecommendationResponse(
    productId: int, title: string, category: string,
    recommendations: seq<ProductRecommendation>)

  /** The `model_data` record training publishes and persistence stores. */
  datatype ModelData = ModelData(
    df: Table,
    productIndices: map<int, nat>,
    inverseIndices: map<nat, int>,
    similarity: Matrix,
    features: Matrix,
    vocabulary: seq<string>)

  /** The attributes of a `ProductRecommender` instance. `None` is Python's
      `None` (for `vocabulary`: an unfitted vectorizer; for `modelData`: the
      empty dictionary). */
  datatype Recommender = Recommender(
    df: Option<Table>,
    productIndices: map<int, nat>,
    inverseIndices: map<nat, int>,
    similarity: Option<Matrix>,
    features: Option<Matrix>,
    vocabulary: Option<seq<string>>,
    modelData: Option<ModelData>)

  /** A freshly constructed instance. */
  const Untrained: Recommender := Recommender(None, map[], map[], None, None, None, None)

  /** The exceptions the engine raises. All but the last two are `ValueError`s. */
  datatype Error =
    | MissingColumns              // training table lacks a required column
    | EmptyVocabulary             // the vectorizer found nothing to learn
    | NotTrained                  // `self.df is None`
    | UnknownProduct(id: int)     // id not in `product_indices`
    | ProductUnavailable(id: int) // `get_product_by_id` gave `None`
    | NothingToSave               // `model_data` is empty
    | NoSuchFile                  // `open` of a path never saved
    | Internal                    // a `TypeError`, `IndexError` or `KeyError`

  predicate IsValueError(e: Error) {
    !(e.NoSuchFile? || e.Internal?)
  }

  // ---------------------------------------------------------------- training

  /** `_preprocess_text`: a non-string (`None` here) becomes the empty text,
      a string is lower-cased and stripped, exactly as `clean_text` does. */
  function PreprocessText(x: Option<string>): (r: string)
    ensures x.None? ==> r == ""
    ensures NoUpper(r) && Stripped(r)
    ensures x.Some? ==> CleanedFrom(x.value, r)
  {
    CleanText(x)
  }

  /** The description text of a row: `row.get('description', '')`, so the empty
      text when the table has no such column, `nan` for a NaN cell. */
  function DescriptionText(columns: set<Column>, row: Row): (s: string)
    ensures Description !in columns ==> s == ""
    ensures Description in columns ==> s == StrOf(row.description)
  {
    if Description in columns then StrOf(row.description) else ""
  }

  /** The training document of one row: the three preprocessed texts joined by
      single spaces. `str()` is applied first, so a NaN description reads `nan`
      and a table without descriptions leaves two spaces in the middle. */
  function Document(columns: set<Column>, row: Row): (d: string)
    ensures NoUpper(d)
    ensures var title, category := CleanText(Some(StrOf(row.title))), CleanText(Some(StrOf(row.category)));
      && (Description !in columns ==> d == title + "  " + category)
      && (Description in columns && row.description.None? ==> d == title + " nan " + category)
      && (Description in columns && row.description.Some? ==>
            d == title + " " + CleanText(row.description) + " " + category)
  {
    var title := PreprocessText(Some(StrOf(row.title)));
    var description := PreprocessText(Some(DescriptionText(columns, row)));
    var category := PreprocessText(Some(StrOf(row.category)));
    DescriptionCleaned(columns, row);
    NoUpperJoin(title, description, category);
    JoinShapes(title, category);
    title + " " + description + " " + category
  }

  /** The middle text of a document in each of the three cases. */
  lemma DescriptionCleaned(columns: set<Column>, row: Row)
    ensures Description !in columns ==> PreprocessText(Some(DescriptionText(columns, row))) == ""
    ensures Description in columns && row.description.None? ==>
              PreprocessText(Some(DescriptionText(columns, row))) == "nan"
    ensures Description in columns && row.description.Some? ==>
              PreprocessText(Some(DescriptionText(columns, row))) == CleanText(row.description)
  {
    if Description !in columns {
      assert |Normalize("")| == 0;
    } else if row.description.None? {
      CleanTextFixedPoints("nan");
    }
  }

  lemma JoinShapes(a: string, c: string)
    ensures a + " " + "" + " " + c == a + "  " + c
    ensures a + " " + "nan" + " " + c == a + " nan " + c
  {
  }

  /** Joining lower-case texts with spaces keeps them lower-case. */
  lemma NoUpperJoin(a: string, b: string, c: string)
    requires NoUpper(a) && NoUpper(b) && NoUpper(c)
    ensures NoUpper(a + " " + b + " " + c)
  {
  }

  /** The corpus handed to the vectorizer, one document per row in row order. */
  function Corpus(t: Table): (c: seq<string>)
    ensures |c| == |t.rows|
    ensures forall i :: 0 <= i < |t.rows| ==> c[i] == Document(t.columns, t.rows[i])
  {
    seq(|t.rows|, i requires 0 <= i < |t.rows| => Document(t.columns, t.rows[i]))
  }

  /** The numeric columns training can scale, in their fixed order. */
  const NumericOrder: seq<Column> := [Price, Rating, ReviewsCount] + Additional

  /** The `numeric_features` list: the present columns of `NumericOrder`. */
  function NumericFeatures(columns: set<Column>): (names: seq<Column>)
    ensures forall c :: c in names <==> c in NumericOrder && c in columns
  {
    PresentAmong(NumericOrder, columns)
  }

  /** A numeric column with NaN cells filled by 0 (`df[[feature]].fillna(0)`). */
  function FilledColumn(t: Table, c: Column): (xs: seq<Option<real>>)
    ensures |xs| == |t.rows|
    ensures forall i :: 0 <= i < |t.rows| ==> xs[i] == Some(NumericCell(t.rows[i], c).GetOr(0.0))
  {
    seq(|t.rows|, i requires 0 <= i < |t.rows| => Some(NumericCell(t.rows[i], c).GetOr(0.0)))
  }

  /** `df[numeric_features].fillna(0).values` after each feature was min-max
      scaled on its own: one row per product, one column per feature. */
  function NumericMatrix(t: Table, names: seq<Column>): (m: Matrix)
    ensures |m| == |t.rows|
    ensures forall i :: 0 <= i < |m| ==> |m[i]| == |names|
    ensures forall i, k :: 0 <= i < |m| && 0 <= k < |names| ==> 0.0 <= m[i][k] <= 1.0
  {
    var cols := seq(|names|, k requires 0 <= k < |names| => MinMaxScale(FilledColumn(t, names[k])));
    seq(|t.rows|, i requires 0 <= i < |t.rows| =>
      seq(|names|, k requires 0 <= k < |names| => cols[k][i].GetOr(0.0)))
  }

  /** `np.hstack((a, b))`: row `i` is row `i` of `a` followed by row `i` of `b`. */
  function HStack(a: Matrix, b: Matrix): (m: Matrix)
    requires |a| == |b|
    ensures |m| == |a|
    ensures forall i :: 0 <= i < |a| ==> |m[i]| == |a[i]| + |b[i]|
    ensures forall i :: 0 <= i < |a| ==> m[i][..|a[i]|] == a[i] && m[i][|a[i]|..] == b[i]
  {
    seq(|a|, i requires 0 <= i < |a| => a[i] + b[i])
  }

  /** `cosine_similarity(features)` for a pairwise kernel: entry `(i, j)` is the
      kernel applied to rows `i` and `j`. */
  function SimilarityMatrix(features: Matrix, kernel: (seq<real>, seq<real>) -> real): (s: Matrix)
    ensures |s| == |features|
    ensures forall i :: 0 <= i < |s| ==> |s[i]| == |features|
    ensures forall i, j :: 0 <= i < |s| && 0 <= j < |s| ==> s[i][j] == kernel(features[i], features[j])
  {
    seq(|features|, i requires 0 <= i < |features| =>
      seq(|features|, j requires 0 <= j < |features| => kernel(features[i], features[j])))
  }

  /** A fit the vectorizer can produce for a table: one row per product, each
      as wide as the vocabulary. */
  predicate FitsTable(t: Table, text: TextFit) {
    |text.weights| == |t.rows| && forall i :: 0 <= i < |t.rows| ==> |text.weights[i]| == |text.vocabulary|
  }

  /** The combined feature matrix: the text weights, followed by the scaled
      numeric features when there are any. */
  function FeatureMatrix(t: Table, text: TextFit): (f: Matrix)
    requires FitsTable(t, text)
    ensures |f| == |t.rows|
    ensures forall i :: 0 <= i < |t.rows| ==>
              |f[i]| == |text.vocabulary| + |NumericFeatures(t.columns)|
    ensures forall i :: 0 <= i < |t.rows| ==> f[i][..|text.vocabulary|] == text.weights[i]
    ensures forall i, k :: 0 <= i < |t.rows| && |text.vocabulary| <= k < |f[i]| ==> 0.0 <= f[i][k] <= 1.0
  {
    var names := NumericFeatures(t.columns);
    if |names| > 0 then HStack(text.weights, NumericMatrix(t, names))
    else
      assert forall i :: 0 <= i < |t.rows| ==> text.weights[i][..|text.vocabulary|] == text.weights[i];
      text.weights
  }

  /** The state of a recommender and the exception `fit` raised, if any. */
  datatype FitOutcome = FitOutcome(state: Recommender, error: Option<Error>)

  /** `fit`. The schema check runs before anything changes. The table and both
      index tables are stored before the vectorizer runs, so a vectorizer
      failure leaves them replaced while the similarity matrix and `model_data`
      keep their earlier values. */
  function Fit(r: Recommender, t: Table, vectorize: seq<string> -> Option<TextFit>,
               kernel: (seq<real>, seq<real>) -> real): (out: FitOutcome)
    requires IsVectorizer(vectorize)
    ensures !HasSchema(t.columns) ==> out == FitOutcome(r, Some(MissingColumns))
    ensures HasSchema(t.columns) ==>
      && out.state.df == Some(t)
      && out.state.productIndices == IndexMap(Ids(t.rows))
      && out.state.inverseIndices == Invert(IndexMap(Ids(t.rows)))
    ensures out.error.None? <==> HasSchema(t.columns) && vectorize(Corpus(t)).Some?
    ensures HasSchema(t.columns) && vectorize(Corpus(t)).None? ==>
      && out.error == Some(EmptyVocabulary)
      && out.state.similarity == r.similarity && out.state.features == r.features
      && out.state.vocabulary == r.vocabulary && out.state.modelData == r.modelData
    ensures out.error.None? ==>
      && FitsTable(t, vectorize(Corpus(t)).value)
      && Consistent(out.state)
      && out.state.vocabulary == Some(vectorize(Corpus(t)).value.vocabulary)
      && out.state.features == Some(FeatureMatrix(t, vectorize(Corpus(t)).value))
      && out.state.similarity == Some(SimilarityMatrix(out.state.features.value, kernel))
  {
    if !HasSchema(t.columns) then FitOutcome(r, Some(MissingColumns))
    else
      var indices := IndexMap(Ids(t.rows));
      var partial := r.(df := Some(t), productIndices := indices, inverseIndices := Invert(indices));
      var fitted := vectorize(Corpus(t));
      if fitted.None? then FitOutcome(partial, Some(EmptyVocabulary))
      else
        var text := fitted.value;
        assert FitsTable(t, text);
        var features := FeatureMatrix(t, text);
        var sim := SimilarityMatrix(features, kernel);
        var data := ModelData(t, indices, Invert(indices), sim, features, text.vocabulary);
        FitOutcome(Recommender(Some(t), indices, Invert(indices), Some(sim), Some(features),
                               Some(text.vocabulary), Some(data)), None)
  }

  // ---------------------------------------------------------------- queries

  /** Python's `int()` of a float: truncation toward zero. */
  function Trunc(x: real): (n: int)
    ensures x >= 0.0 ==> n as real <= x < n as real + 1.0
    ensures x < 0.0 ==> n as real - 1.0 < x <= n as real
  {
    if x >= 0.0 then x.Floor else -((-x).Floor)
  }

  /** The record view of one row. Any exception while building it (a missing
      column, `int()` of a NaN review count) makes it `None`; a table without
      `rating` or `reviews_count` reads them as 0. */
  function View(columns: set<Column>, row: Row): (v: Option<ProductInfo>)
    ensures v.Some? <==> Title in columns && Price in columns && Category in columns
                         && (ReviewsCount in columns ==> row.reviewsCount.Some?)
    ensures v.Some? ==> v.value.productId == row.productId && v.value.title == StrOf(row.title)
                        && v.value.category == StrOf(row.category) && v.value.price == row.price
    ensures v.Some? ==> v.value.rating == if Rating in columns then row.rating else Some(0.0)
    ensures v.Some? ==> v.value.reviewsCount
                          == if ReviewsCount in columns then Trunc(row.reviewsCount.value) else 0
  {
    if Title !in columns || Price !in columns || Category !in columns then None
    else if ReviewsCount in columns && row.reviewsCount.None? then None
    else
      var rating := if Rating in columns then row.rating else Some(0.0);
      var reviews := if ReviewsCount in columns then Trunc(row.reviewsCount.value) else 0;
      Some(ProductInfo(row.productId, StrOf(row.title), row.price, rating, StrOf(row.category), reviews))
  }

  /** `get_product_by_id`: an id the index map does not hold, or no table, gives
      `None`; otherwise the view of the FIRST row carrying the id, `None` when no
      row carries it or the view cannot be built. */
  function GetProductById(r: Recommender, id: int): (v: Option<ProductInfo>)
    ensures id !in r.productIndices ==> v.None?
    ensures r.df.None? ==> v.None?
    ensures v.Some? ==> v.value.productId == id
    ensures id in r.productIndices && r.df.Some? ==>
              var first := FirstRowWithId(r.df.value.rows, id);
              && (first.None? ==> v.None?)
              && (first.Some? ==> v == View(r.df.value.columns, r.df.value.rows[first.value]))
  {
    if id !in r.productIndices || r.df.None? then None
    else
      var t := r.df.value;
      match FirstRowWithId(t.rows, id)
      case None => None
      case Some(k) => View(t.columns, t.rows[k])
  }

  /** The recommendation entry for one ranked row position: the record of the
      position's product with the position's score, or `None` when the lookup fails. */
  function Entry(r: Recommender, e: Scored): (x: Option<ProductRecommendation>)
    requires e.index in r.inverseIndices
    ensures x.Some? <==> GetProductById(r, r.inverseIndices[e.index]).Some?
    ensures x.Some? ==> Some(InfoOf(x.value)) == GetProductById(r, r.inverseIndices[e.index])
    ensures x.Some? ==> x.value.productId == r.inverseIndices[e.index]
                        && x.value.similarityScore == e.score
  {
    match GetProductById(r, r.inverseIndices[e.index])
    case None => None
    case Some(info) =>
      Some(ProductRecommendation(info.productId, info.title, info.category, info.price,
                                 info.rating, info.reviewsCount, e.score))
  }

  /** `x` is the entry a ranked position gives: its product, as looked up, with its score. */
  predicate Realizes(r: Recommender, x: ProductRecommendation, e: Scored) {
    e.index in r.inverseIndices && Entry(r, e) == Some(x)
  }

  /** A realizing entry names the position's product and carries its score. */
  lemma RealizedEntry(r: Recommender, x: ProductRecommendation, e: Scored)
    requires Realizes(r, x, e)
    ensures x.productId == r.inverseIndices[e.index] && x.similarityScore == e.score
  {
  }

  /** The loop over the picked entries: each position is mapped back to its id
      (a missing position raises `KeyError`), and an entry whose lookup gives
      `None` is skipped. */
  function Collect(r: Recommender, picked: seq<Scored>): (out: Option<seq<ProductRecommendation>>)
    ensures out.None? <==> exists j :: 0 <= j < |picked| && picked[j].index !in r.inverseIndices
    ensures out.Some? ==> |out.value| <= |picked|
  {
    if |picked| == 0 then Some([])
    else if picked[0].index !in r.inverseIndices then None
    else
      match Collect(r, picked[1..])
      case None =>
        assert forall j :: 0 <= j < |picked| - 1 ==> picked[1..][j] == picked[j + 1];
        None
      case Some(rest) =>
        assert forall j :: 0 <= j < |picked| - 1 ==> picked[1..][j] == picked[j + 1];
        match Entry(r, picked[0])
        case None => Some(rest)
        case Some(x) => Some([x] + rest)
  }

  /** Each collected entry is the entry of some picked position. */
  lemma {:induction false} CollectRealizes(r: Recommender, picked: seq<Scored>)
    requires Collect(r, picked).Some?
    ensures var out := Collect(r, picked).value;
            forall k :: 0 <= k < |out| ==> exists j :: 0 <= j < |picked| && Realizes(r, out[k], picked[j])
    decreases |picked|
  {
    if |picked| > 0 {
      var rest := Collect(r, picked[1..]).value;
      CollectRealizes(r, picked[1..]);
      var out := Collect(r, picked).value;
      forall k | 0 <= k < |out|
        ensures exists j :: 0 <= j < |picked| && Realizes(r, out[k], picked[j])
      {
        if Entry(r, picked[0]).Some? && k == 0 {
          assert Realizes(r, out[0], picked[0]);
        } else {
          var k' := if Entry(r, picked[0]).Some? then k - 1 else k;
          assert out[k] == rest[k'];
          var j :| 0 <= j < |picked| - 1 && Realizes(r, rest[k'], picked[1..][j]);
          assert picked[1..][j] == picked[j + 1];
        }
      }
    }
  }

  /** One turn of the loop: the first position's entry, when its lookup
      succeeds, goes before what the remaining positions give. */
  /** A successful collection resolved its first pick and collected the rest. */
  lemma CollectUnfold(r: Recommender, picked: seq<Scored>)
    requires |picked| > 0 && Collect(r, picked).Some?
    ensures picked[0].index in r.inverseIndices && Collect(r, picked[1..]).Some?
  {
  }

  /** The entry of one pick as a sequence: empty when its lookup fails. */
  function Resolved(r: Recommender, e: Scored): seq<ProductRecommendation>
    requires e.index in r.inverseIndices
  {
    if Entry(r, e).Some? then [Entry(r, e).value] else []
  }

  lemma {:induction false} CollectStep(r: Recommender, picked: seq<Scored>)
    requires |picked| > 0 && picked[0].index in r.inverseIndices && Collect(r, picked[1..]).Some?
    ensures Collect(r, picked) == Some(Resolved(r, picked[0]) + Collect(r, picked[1..]).value)
  {
    var rest := Collect(r, picked[1..]).value;
    if Entry(r, picked[0]).None? {
      assert [] + rest == rest;
    }
  }

  /** A single resolved pick collects to its entry, or to nothing when its
      product lookup fails. */
  lemma CollectSingle(r: Recommender, e: Scored)
    requires e.index in r.inverseIndices
    ensures Entry(r, e).Some? ==> Collect(r, [e]) == Some([Entry(r, e).value])
    ensures Entry(r, e).None? ==> Collect(r, [e]) == Some([])
  {
    assert [e][1..] == [];
    if Entry(r, e).Some? {
      assert [Entry(r, e).value] + [] == [Entry(r, e).value];
    }
  }

  /** Collecting two runs of positions one after the other gives the entries
      of the first run followed by those of the second: skipping a failed
      lookup never reorders the entries that remain. */
  lemma {:induction false} CollectAppend(r: Recommender, a: seq<Scored>, b: seq<Scored>)
    requires Collect(r, a).Some? && Collect(r, b).Some?
    ensures Collect(r, a + b) == Some(Collect(r, a).value + Collect(r, b).value)
    decreases |a|
  {
    if |a| == 0 {
      assert a + b == b;
      assert [] + Collect(r, b).value == Collect(r, b).value;
    } else {
      CollectUnfold(r, a);
      CollectAppend(r, a[1..], b);
      CollectAppendStep(r, a, b);
    }
  }

  lemma DropFirstOfAppend<T>(a: seq<T>, b: seq<T>)
    requires |a| > 0
    ensures (a + b)[0] == a[0] && (a + b)[1..] == a[1..] + b
  {
  }

  lemma AppendAssociates<T>(x: seq<T>, y: seq<T>, z: seq<T>)
    ensures x + (y + z) == (x + y) + z
  {
  }

  /** The inductive step of `CollectAppend`: appending after the first pick. */
  lemma {:induction false} CollectAppendStep(r: Recommender, a: seq<Scored>, b: seq<Scored>)
    requires |a| > 0 && a[0].index in r.inverseIndices
    requires Collect(r, a[1..]).Some? && Collect(r, b).Some?
    requires Collect(r, a[1..] + b) == Some(Collect(r, a[1..]).value + Collect(r, b).value)
    ensures Collect(r, a + b) == Some(Collect(r, a).value + Collect(r, b).value)
  {
    var head, front, back := Resolved(r, a[0]), Collect(r, a[1..]).value, Collect(r, b).value;
    assert Collect(r, a) == Some(head + front) by {
      CollectStep(r, a);
    }
    assert Collect(r, a + b) == Some(head + (front + back)) by {
      DropFirstOfAppend(a, b);
      CollectStep(r, a + b);
    }
    AppendAssociates(head, front, back);
  }

  /** Every position whose lookup succeeds has its entry collected: only the
      failed lookups are skipped. */
  lemma {:induction false} CollectKeepsResolved(r: Recommender, picked: seq<Scored>)
    requires Collect(r, picked).Some?
    ensures forall j :: 0 <= j < |picked| ==> picked[j].index in r.inverseIndices
    ensures forall j :: 0 <= j < |picked| && Entry(r, picked[j]).Some? ==>
              Entry(r, picked[j]).value in Collect(r, picked).value
    decreases |picked|
  {
    if |picked| > 0 {
      var tail := picked[1..];
      assert forall j :: 0 <= j < |tail| ==> tail[j] == picked[j + 1];
      CollectKeepsResolved(r, tail);
      var rest := Collect(r, tail).value;
      var out := Collect(r, picked).value;
      forall j | 0 <= j < |picked| && Entry(r, picked[j]).Some?
        ensures Entry(r, picked[j]).value in out
      {
        if j == 0 {
          assert out[0] == Entry(r, picked[0]).value;
        } else {
          assert Entry(r, tail[j - 1]).value in rest;
          assert out == (if Entry(r, picked[0]).Some? then [Entry(r, picked[0]).value] else []) + rest;
        }
      }
    }
  }

  /** Picked positions in non-increasing score order give entries in
      non-increasing score order: skipping entries keeps the order. */
  lemma {:induction false} CollectKeepsOrder(r: Recommender, picked: seq<Scored>)
    requires Collect(r, picked).Some?
    requires forall i, j :: 0 <= i < j < |picked| ==> picked[i].score >= picked[j].score
    ensures var out := Collect(r, picked).value;
            forall i, j :: 0 <= i < j < |out| ==> out[i].similarityScore >= out[j].similarityScore
    decreases |picked|
  {
    if |picked| > 0 {
      var rest := Collect(r, picked[1..]).value;
      CollectKeepsOrder(r, picked[1..]);
      if Entry(r, picked[0]).Some? {
        CollectRealizes(r, picked[1..]);
        var x := Entry(r, picked[0]).value;
        forall k | 0 <= k < |rest|
          ensures x.similarityScore >= rest[k].similarityScore
        {
          var j :| 0 <= j < |picked| - 1 && Realizes(r, rest[k], picked[1..][j]);
          assert picked[1..][j] == picked[j + 1];
        }
      }
    }
  }

  /** When every picked position resolves and every lookup succeeds, nothing
      is skipped: entry `k` is the product of position `k`. */
  lemma {:induction false} CollectComplete(r: Recommender, picked: seq<Scored>)
    requires forall j :: 0 <= j < |picked| ==> picked[j].index in r.inverseIndices
    requires forall j :: 0 <= j < |picked| ==> Entry(r, picked[j]).Some?
    ensures Collect(r, picked).Some?
    ensures |Collect(r, picked).value| == |picked|
    ensures forall k :: 0 <= k < |picked| ==> Realizes(r, Collect(r, picked).value[k], picked[k])
    decreases |picked|
  {
    if |picked| > 0 {
      var tail := picked[1..];
      assert forall j :: 0 <= j < |tail| ==> tail[j] == picked[j + 1];
      CollectComplete(r, tail);
    }
  }

  /** `get_recommendations(product_id, n)`: entries 1 to n of the ranking of
      the product's similarity row, as far as their lookups succeed. */
  function GetRecommendations(r: Recommender, id: int, n: int): (res: Result<RecommendationResponse, Error>)
    ensures r.df.None? ==> res == Failure(NotTrained)
    ensures r.df.Some? && id !in r.productIndices ==> res == Failure(UnknownProduct(id))
    ensures r.df.Some? && id in r.productIndices && GetProductById(r, id).None?
            ==> res == Failure(ProductUnavailable(id))
    ensures res.Success? ==>
      && GetProductById(r, id).Some?
      && res.value.productId == id
      && res.value.title == GetProductById(r, id).value.title
      && res.value.category == GetProductById(r, id).value.category
      && (n >= 0 ==> |res.value.recommendations| <= n)
      && forall i, j :: 0 <= i < j < |res.value.recommendations| ==>
           res.value.recommendations[i].similarityScore >= res.value.recommendations[j].similarityScore
  {
    if r.df.None? then Failure(NotTrained)
    else if id !in r.productIndices then Failure(UnknownProduct(id))
    else match GetProductById(r, id)
      case None => Failure(ProductUnavailable(id))
      case Some(info) =>
        var idx := r.productIndices[id];
        if r.similarity.None? || idx >= |r.similarity.value| then Failure(Internal)
        else
          var ranked := Rank(r.similarity.value[idx]);
          var picked := Window(ranked, n);
          WindowScoresNonIncreasing(ranked, n);
          match Collect(r, picked)
          case None => Failure(Internal)
          case Some(recs) =>
            CollectKeepsOrder(r, picked);
            Success(RecommendationResponse(id, info.title, info.category, recs))
  }

  /** The entries of `xs` in category `c`, in their order. */
  function InCategory(xs: seq<ProductRecommendation>, c: string): (ys: seq<ProductRecommendation>)
    ensures forall k :: 0 <= k < |ys| ==> ys[k].category == c
    ensures IsSubsequence(ys, xs)
    ensures |ys| == CountCategory(xs, c)
  {
    if |xs| == 0 then []
    else if xs[0].category == c then [xs[0]] + InCategory(xs[1..], c)
    else InCategory(xs[1..], c)
  }

  /** How many entries of `xs` are in category `c`. */
  function CountCategory(xs: seq<ProductRecommendation>, c: string): nat {
    if |xs| == 0 then 0
    else (if xs[0].category == c then 1 else 0) + CountCategory(xs[1..], c)
  }

  /** `a` is `b` with some elements left out, the rest kept in order. */
  predicate IsSubsequence<T(==)>(a: seq<T>, b: seq<T>) {
    if |a| == 0 then true
    else if |b| == 0 then false
    else if a[0] == b[0] then IsSubsequence(a[1..], b[1..])
    else IsSubsequence(a, b[1..])
  }

  /** What `get_similar_products` keeps of the candidates: those in category
      `c` when `byCategory`, cut to the first `n`. */
  function Select(xs: seq<ProductRecommendation>, c: string, byCategory: bool, n: int)
    : (ys: seq<ProductRecommendation>)
    ensures IsSubsequence(ys, xs)
    ensures byCategory ==> forall k :: 0 <= k < |ys| ==> ys[k].category == c
    ensures byCategory ==> |ys| <= |InCategory(xs, c)| && ys == InCategory(xs, c)[..|ys|]
    ensures byCategory && n >= 0 ==> |ys| == (if n < CountCategory(xs, c) then n else CountCategory(xs, c))
    ensures !byCategory ==> |ys| <= |xs| && ys == xs[..|ys|]
    ensures !byCategory && n >= 0 ==> |ys| == (if n < |xs| then n else |xs|)
  {
    if byCategory then
      var kept := InCategory(xs, c);
      PrefixIsSubsequence(kept, n);
      SubsequenceTransitive(Take(kept, n), kept, xs);
      Take(kept, n)
    else
      PrefixIsSubsequence(xs, n);
      Take(xs, n)
  }

  /** `get_similar_products(product_id, by_category, n)`: the recommendations
      for `2n`, kept only in the source's category when `byCategory`, then cut
      to `n`. */
  function GetSimilarProducts(r: Recommender, id: int, byCategory: bool, n: int)
    : (res: Result<RecommendationResponse, Error>)
    ensures r.df.None? ==> res == Failure(NotTrained)
    ensures r.df.Some? && GetProductById(r, id).None? ==> res == Failure(ProductUnavailable(id))
    ensures GetRecommendations(r, id, 2 * n).Failure? ==> res.Failure?
    ensures res.Success? <==>
              r.df.Some? && GetProductById(r, id).Some? && GetRecommendations(r, id, 2 * n).Success?
    ensures r.df.Some? && GetProductById(r, id).Some? && GetRecommendations(r, id, 2 * n).Failure?
            ==> res == Failure(GetRecommendations(r, id, 2 * n).error)
    ensures res.Success? ==>
      && GetRecommendations(r, id, 2 * n).Success?
      && res.value.productId == id
      && res.value.category == GetProductById(r, id).value.category
      && res.value.recommendations
           == Select(GetRecommendations(r, id, 2 * n).value.recommendations,
                     res.value.category, byCategory, n)
  {
    if r.df.None? then Failure(NotTrained)
    else match GetProductById(r, id)
      case None => Failure(ProductUnavailable(id))
      case Some(info) =>
        match GetRecommendations(r, id, 2 * n)
        case Failure(e) => Failure(e)
        case Success(resp) =>
          Success(resp.(recommendations := Select(resp.recommendations, info.category, byCategory, n)))
  }

  /** Every element of a subsequence is an element of the whole. */
  lemma {:induction false} SubsequenceMembers<T>(a: seq<T>, b: seq<T>)
    requires IsSubsequence(a, b)
    ensures forall k :: 0 <= k < |a| ==> exists m :: 0 <= m < |b| && a[k] == b[m]
    decreases |b|
  {
    if |a| > 0 {
      if a[0] == b[0] {
        SubsequenceMembers(a[1..], b[1..]);
        forall k | 0 <= k < |a|
          ensures exists m :: 0 <= m < |b| && a[k] == b[m]
        {
          if k == 0 {
            assert a[k] == b[0];
          } else {
            var m :| 0 <= m < |b| - 1 && a[1..][k - 1] == b[1..][m];
            assert a[k] == b[m + 1];
          }
        }
      } else {
        SubsequenceMembers(a, b[1..]);
        forall k | 0 <= k < |a|
          ensures exists m :: 0 <= m < |b| && a[k] == b[m]
        {
          var m :| 0 <= m < |b| - 1 && a[k] == b[1..][m];
          assert a[k] == b[m + 1];
        }
      }
    }
  }

  lemma {:induction false} PrefixIsSubsequence<T>(xs: seq<T>, n: int)
    ensures IsSubsequence(Take(xs, n), xs)
  {
    SubsequenceOfPrefix(xs, Take(xs, n));
  }

  lemma {:induction false} SubsequenceOfPrefix<T>(xs: seq<T>, p: seq<T>)
    requires |p| <= |xs| && p == xs[..|p|]
    ensures IsSubsequence(p, xs)
    decreases |p|
  {
    if |p| > 0 {
      assert xs[1..][..|p| - 1] == p[1..];
      SubsequenceOfPrefix(xs[1..], p[1..]);
    }
  }

  /** A subsequence stays one when the longer sequence gains a head. */
  lemma {:induction false} SubsequenceExtend<T>(a: seq<T>, c: seq<T>)
    requires |c| > 0 && IsSubsequence(a, c[1..])
    ensures IsSubsequence(a, c)
    decreases |c|, 0
  {
    if |a| > 0 && a[0] == c[0] {
      SubsequenceDropHead(a, c[1..]);
    }
  }

  /** A subsequence stays one when it loses its head. */
  lemma {:induction false} SubsequenceDropHead<T>(a: seq<T>, c: seq<T>)
    requires |a| > 0 && IsSubsequence(a, c)
    ensures IsSubsequence(a[1..], c)
    decreases |c|, 1
  {
    if a[0] == c[0] {
      SubsequenceExtend(a[1..], c);
    } else {
      SubsequenceDropHead(a, c[1..]);
      SubsequenceExtend(a[1..], c);
    }
  }

  lemma {:induction false} SubsequenceTransitive<T>(a: seq<T>, b: seq<T>, c: seq<T>)
    requires IsSubsequence(a, b) && IsSubsequence(b, c)
    ensures IsSubsequence(a, c)
    decreases |c|
  {
    if |a| == 0 {
    } else if b[0] == c[0] {
      if a[0] == b[0] {
        SubsequenceTransitive(a[1..], b[1..], c[1..]);
      } else {
        SubsequenceTransitive(a, b[1..], c[1..]);
        SubsequenceExtend(a, c);
      }
    } else {
      SubsequenceTransitive(a, b, c[1..]);
      SubsequenceExtend(a, c);
    }
  }

  // ---------------------------------------------------------------- persistence

  /** The files the engine has written: path to pickled `model_data`. */
  type Store = map<string, ModelData>

  /** `save_model`: refuses an empty `model_data`, otherwise writes it. */
  function SaveModel(r: Recommender, store: Store, path: string): (res: Result<Store, Error>)
    ensures res.Failure? <==> r.modelData.None?
    ensures res.Failure? ==> res.error == NothingToSave
    ensures res.Success? ==> path in res.value && res.value[path] == r.modelData.value
    ensures res.Success? ==> forall p :: p in store && p != path ==> p in res.value && res.value[p] == store[p]
  {
    if r.modelData.None? then Failure(NothingToSave)
    else Success(store[path := r.modelData.value])
  }

  /** `load_model`: a fresh instance whose attributes are the stored record's. */
  function LoadModel(store: Store, path: string): (res: Result<Recommender, Error>)
    ensures res.Failure? <==> path !in store
    ensures res.Failure? ==> res.error == NoSuchFile
    ensures res.Success? ==> res.value.modelData == Some(store[path])
                             && Consistent(res.value)
  {
    if path !in store then Failure(NoSuchFile)
    else
      var d := store[path];
      Success(Recommender(Some(d.df), d.productIndices, d.inverseIndices, Some(d.similarity),
                          Some(d.features), Some(d.vocabulary), Some(d)))
  }

  /** The attributes agree with `model_data`: what saving stores is what the
      instance answers queries from. */
  predicate Consistent(r: Recommender) {
    && r.modelData.Some?
    && r.df == Some(r.modelData.value.df)
    && r.productIndices == r.modelData.value.productIndices
    && r.inverseIndices == r.modelData.value.inverseIndices
    && r.similarity == Some(r.modelData.value.similarity)
    && r.features == Some(r.modelData.value.features)
    && r.vocabulary == Some(r.modelData.value.vocabulary)
  }
}
