/** The HTTP layer around the recommender: which answer or status code each
    endpoint gives, and the category distribution it computes itself. Token
    checks, logging and the server lifecycle are outside this model. */
module Routes {
  import opened Wrappers
  import opened Catalog
  import opened Recommender
  import opened RecommenderProperties

  /** An endpoint's answer: a body with status 200, or an `HTTPException`. */
  datatype Response<+T> = Ok(body: T) | HttpError(status: int)

  /** The two `except` arms of the recommendation endpoints: a `ValueError`
      becomes 404, any other exception 500. */
  function StatusFor(e: Error): (status: int)
    ensures status == 404 <==> IsValueError(e)
    ensures status == 500 <==> !IsValueError(e)
  {
    if IsValueError(e) then 404 else 500
  }

  /** `GET /products/{product_id}/recommendations`. The `hasattr` guard always
      passes, because the constructor sets `product_indices`. */
  function RecommendationsRoute(r: Recommender, id: int, n: int): (resp: Response<RecommendationResponse>)
    ensures resp.Ok? <==> GetRecommendations(r, id, n).Success?
    ensures resp.Ok? ==> resp.body == GetRecommendations(r, id, n).value
    ensures resp.HttpError? ==> resp.status == StatusFor(GetRecommendations(r, id, n).error)
    ensures r.df.None? ==> resp == HttpError(404)
    ensures r.df.Some? && id !in r.productIndices ==> resp == HttpError(404)
    ensures r.df.Some? && id in r.productIndices && GetProductById(r, id).None? ==> resp == HttpError(404)
    ensures GetRecommendations(r, id, n) == Failure(Internal) ==> resp == HttpError(500)
    ensures resp.HttpError? ==> resp.status == 404 || resp.status == 500
  {
    match GetRecommendations(r, id, n)
    case Success(body) => Ok(body)
    case Failure(e) => HttpError(StatusFor(e))
  }

  // ------------------------------------------------------------ similar products

  /** The JSON object a handler hands to the framework: either a response
      record itself, or one nested under `recommendations` next to the id. */
  datatype Body =
    | Flat(response: RecommendationResponse)
    | Nested(productId: int, inner: RecommendationResponse)

  /** The declared `response_model` wants `title`, `category` and a list under
      `recommendations`; a nested object has no title or category and an
      object where the list should be. */
  predicate MatchesResponseModel(b: Body) {
    b.Flat?
  }

  /** The framework's validation of a returned body against the response
      model: a mismatch is answered with status 500. */
  function Serialize(b: Body): (resp: Response<RecommendationResponse>)
    ensures resp.Ok? <==> MatchesResponseModel(b)
    ensures resp.Ok? ==> resp.body == b.response
    ensures resp.HttpError? ==> resp.status == 500
  {
    match b
    case Flat(response) => Ok(response)
    case Nested(_, _) => HttpError(500)
  }

  /** `GET /products/{product_id}/similar` as written: the recommender's whole
      response is wrapped once more under `recommendations`. */
  function SimilarRouteAsWritten(r: Recommender, id: int, byCategory: bool, n: int)
    : (resp: Response<RecommendationResponse>)
    ensures GetSimilarProducts(r, id, byCategory, n).Failure? ==>
              resp == HttpError(StatusFor(GetSimilarProducts(r, id, byCategory, n).error))
  {
    match GetSimilarProducts(r, id, byCategory, n)
    case Failure(e) => HttpError(StatusFor(e))
    case Success(inner) => Serialize(Nested(id, inner))
  }

  /** As written, the similar-products endpoint never answers 200: when the
      recommender succeeds, the wrapped body fails validation. */
  lemma SimilarRouteAsWrittenNeverSucceeds(r: Recommender, id: int, byCategory: bool, n: int)
    ensures SimilarRouteAsWritten(r, id, byCategory, n).HttpError?
    ensures GetSimilarProducts(r, id, byCategory, n).Success? ==>
              SimilarRouteAsWritten(r, id, byCategory, n) == HttpError(500)
  {
  }

  /** `GET /products/{product_id}/similar` returning the recommender's answer
      as it is, which is what the response model describes. */
  function SimilarRoute(r: Recommender, id: int, byCategory: bool, n: int)
    : (resp: Response<RecommendationResponse>)
    ensures resp.Ok? <==> GetSimilarProducts(r, id, byCategory, n).Success?
    ensures resp.HttpError? ==> resp.status == StatusFor(GetSimilarProducts(r, id, byCategory, n).error)
    ensures resp.Ok? ==> resp.body == GetSimilarProducts(r, id, byCategory, n).value
    ensures r.df.None? ==> resp == HttpError(404)
    ensures r.df.Some? && GetProductById(r, id).None? ==> resp == HttpError(404)
    ensures GetProductById(r, id).Some? && GetRecommendations(r, id, 2 * n) == Failure(Internal)
            ==> resp == HttpError(500)
    ensures resp.HttpError? ==> resp.status == 404 || resp.status == 500
  {
    match GetSimilarProducts(r, id, byCategory, n)
    case Failure(e) => HttpError(StatusFor(e))
    case Success(inner) => Serialize(Flat(inner))
  }

  /** The corrected endpoint answers 200 exactly when the recommender does,
      with at most `n` entries, all in the product's category when asked. */
  lemma SimilarRouteAnswers(r: Recommender, id: int, byCategory: bool, n: int)
    ensures var resp := SimilarRoute(r, id, byCategory, n);
            resp.Ok? ==>
              && resp.body.productId == id
              && (n >= 0 ==> |resp.body.recommendations| <= n)
              && (byCategory ==> forall k :: 0 <= k < |resp.body.recommendations| ==>
                    resp.body.recommendations[k].category == resp.body.category)
  {
  }

  /** On a table the recommender was trained on, whose rows can all be read,
      both endpoints answer 200 for the id of every row, whatever `n`. */
  lemma TrainedRoutesAnswer(r: Recommender, t: Table, j: nat, byCategory: bool, n: int)
    requires TrainedOn(r, t) && AllRowsReadable(t) && j < |t.rows|
    ensures RecommendationsRoute(r, t.rows[j].productId, n).Ok?
    ensures SimilarRoute(r, t.rows[j].productId, byCategory, n).Ok?
  {
    LookupSucceeds(r, t, j);
    RecommendationsFollowRanking(r, t, j, n);
    RecommendationsFollowRanking(r, t, j, 2 * n);
  }

  // ------------------------------------------------------- category distribution

  /** The body of the distribution endpoint. */
  datatype DistributionBody = DistributionBody(distribution: map<string, nat>, totalProducts: nat)

  /** The `category` column, NaN cells included. */
  function CategoryColumn(rows: seq<Row>): (col: seq<Option<string>>)
    ensures |col| == |rows|
    ensures forall i :: 0 <= i < |rows| ==> col[i] == rows[i].category
  {
    seq(|rows|, i requires 0 <= i < |rows| => rows[i].category)
  }

  /** `df['category'].value_counts().to_dict()`: one entry per category that
      occurs, holding how many rows carry it. NaN cells are not counted. */
  function CategoryCounts(rows: seq<Row>): (m: map<string, nat>)
    ensures forall c :: c in m <==> Some(c) in CategoryColumn(rows)
    ensures forall c :: c in m ==> m[c] == multiset(CategoryColumn(rows))[Some(c)]
    decreases |rows|
  {
    if |rows| == 0 then map[]
    else
      var front := rows[..|rows| - 1];
      var m := CategoryCounts(front);
      assert CategoryColumn(rows) == CategoryColumn(front) + [rows[|rows| - 1].category];
      match rows[|rows| - 1].category
      case None => m
      case Some(c) => m[c := if c in m then m[c] + 1 else 1]
  }

  /** `GET /metrics/category_distribution`: 500 without a recommender, without
      a table or without a `category` column. */
  function CategoryDistributionRoute(r: Option<Recommender>): (resp: Response<DistributionBody>)
    ensures resp.Ok? <==> r.Some? && r.value.df.Some? && Category in r.value.df.value.columns
    ensures resp.HttpError? ==> resp.status == 500
    ensures resp.Ok? ==>
      && resp.body.totalProducts == |r.value.df.value.rows|
      && resp.body.distribution == CategoryCounts(r.value.df.value.rows)
  {
    if r.None? || r.value.df.None? then HttpError(500)
    else
      var t := r.value.df.value;
      if Category !in t.columns then HttpError(500)
      else Ok(DistributionBody(CategoryCounts(t.rows), |t.rows|))
  }

  /** Some key of a non-empty map. */
  ghost function Pick(m: map<string, nat>): (k: string)
    requires |m| > 0
    ensures k in m
  {
    var k :| k in m; k
  }

  lemma Shrinks(m: map<string, nat>, k: string)
    requires k in m
    ensures |m - {k}| == |m| - 1
  {
    assert m.Keys == (m - {k}).Keys + {k};
  }

  /** The sum of a map's values. */
  ghost function SumValues(m: map<string, nat>): nat
    decreases |m|
  {
    if |m| == 0 then 0
    else
      Shrinks(m, Pick(m));
      m[Pick(m)] + SumValues(m - {Pick(m)})
  }

  /** Any key can be taken out first: the sum does not depend on the choice. */
  lemma {:induction false} SumValuesRemove(m: map<string, nat>, k: string)
    requires k in m
    ensures SumValues(m) == m[k] + SumValues(m - {k})
    decreases |m|
  {
    var j := Pick(m);
    if j != k {
      var rest, mk := m - {j}, m - {k};
      var both := rest - {k};
      Shrinks(m, j);
      Shrinks(m, k);
      assert SumValues(rest) == m[k] + SumValues(both) by {
        SumValuesRemove(rest, k);
      }
      assert SumValues(mk) == m[j] + SumValues(both) by {
        SumValuesRemove(mk, j);
        assert mk - {j} == both;
      }
    }
  }

  /** Setting one key's value: the sum is that value plus the rest. */
  lemma SumValuesUpdate(m: map<string, nat>, c: string, v: nat)
    ensures SumValues(m[c := v]) == v + SumValues(m - {c})
  {
    SumValuesRemove(m[c := v], c);
    assert m[c := v] - {c} == m - {c};
  }

  /** One step of `CategoryCounts`: the last row adds one to its category. */
  lemma {:induction false} CountsStep(rows: seq<Row>)
    requires |rows| > 0 && rows[|rows| - 1].category.Some?
    ensures var m := CategoryCounts(rows[..|rows| - 1]);
            var c := rows[|rows| - 1].category.value;
            CategoryCounts(rows) == m[c := if c in m then m[c] + 1 else 1]
  {
  }

  /** Appending a row adds one NaN to the column exactly when its category is NaN. */
  lemma {:induction false} MissingStep(rows: seq<Row>)
    requires |rows| > 0
    ensures multiset(CategoryColumn(rows))[None]
            == multiset(CategoryColumn(rows[..|rows| - 1]))[None]
               + (if rows[|rows| - 1].category.None? then 1 else 0)
  {
    var x := rows[|rows| - 1].category;
    assert CategoryColumn(rows) == CategoryColumn(rows[..|rows| - 1]) + [x];
  }

  /** Counting one more occurrence of a key adds one to the sum. */
  lemma SumAfterIncrement(m: map<string, nat>, c: string)
    ensures SumValues(m[c := if c in m then m[c] + 1 else 1]) == SumValues(m) + 1
  {
    var v := if c in m then m[c] + 1 else 1;
    SumValuesUpdate(m, c, v);
    if c in m {
      SumValuesRemove(m, c);
    } else {
      assert m - {c} == m;
    }
  }

  /** Appending a row adds one to the total count exactly when its category is present. */
  lemma {:induction false} SumStep(rows: seq<Row>)
    requires |rows| > 0
    ensures SumValues(CategoryCounts(rows))
            == SumValues(CategoryCounts(rows[..|rows| - 1]))
               + (if rows[|rows| - 1].category.Some? then 1 else 0)
  {
    var m := CategoryCounts(rows[..|rows| - 1]);
    if rows[|rows| - 1].category.Some? {
      CountsStep(rows);
      SumAfterIncrement(m, rows[|rows| - 1].category.value);
    } else {
      assert CategoryCounts(rows) == m;
    }
  }

  /** The counts add up to the number of rows whose category is not NaN, so
      to `total_products` when no category is missing. */
  lemma {:induction false} CountsAddUp(rows: seq<Row>)
    ensures SumValues(CategoryCounts(rows)) + multiset(CategoryColumn(rows))[None] == |rows|
    decreases |rows|
  {
    if |rows| > 0 {
      CountsAddUp(rows[..|rows| - 1]);
      MissingStep(rows);
      SumStep(rows);
    }
  }

  /** When no category is NaN, the distribution's counts add up to
      `total_products`. */
  lemma DistributionSumsToTotal(r: Option<Recommender>)
    requires r.Some? && r.value.df.Some?
    requires forall i :: 0 <= i < |r.value.df.value.rows| ==> r.value.df.value.rows[i].category.Some?
    ensures var resp := CategoryDistributionRoute(r);
            resp.Ok? ==> SumValues(resp.body.distribution) == resp.body.totalProducts
  {
    var rows := r.value.df.value.rows;
    CountsAddUp(rows);
    assert None !in multiset(CategoryColumn(rows));
  }
}
