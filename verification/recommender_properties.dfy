/** What a trained recommender promises about its answers: the index tables
    match the table, recommendations never repeat the queried product when it
    is its own best match, every recommendation is a product of the table with
    its similarity score, the list has the requested length when every row is
    readable, and saving then loading a model changes nothing. */
module RecommenderProperties {
  import opened Wrappers
  import opened Catalog
  import opened Ranking
  import opened Indexing
  import opened Recommender

  /** A state answering queries over table `t` with ids all different: the
      index tables are those of `t` and the similarity matrix is square over
      its rows. */
  predicate TrainedOn(r: Recommender, t: Table) {
    && r.df == Some(t)
    && DistinctIds(t.rows)
    && r.productIndices == IndexMap(Ids(t.rows))
    && r.inverseIndices == Invert(IndexMap(Ids(t.rows)))
    && r.similarity.Some?
    && |r.similarity.value| == |t.rows|
    && (forall i :: 0 <= i < |t.rows| ==> |r.similarity.value[i]| == |t.rows|)
  }

  /** A successful fit on a table with distinct ids gives such a state. */
  lemma FitTrains(r: Recommender, t: Table, vectorize: seq<string> -> Option<TextFit>,
                  kernel: (seq<real>, seq<real>) -> real)
    requires IsVectorizer(vectorize)
    requires DistinctIds(t.rows)
    ensures var out := Fit(r, t, vectorize, kernel);
            out.error.None? ==> TrainedOn(out.state, t) && Consistent(out.state)
  {
  }

  /** With the six required columns present, the numeric features are
      `price`, `rating`, `reviews_count`, then the present optional columns in
      their fixed order. */
  lemma NumericFeatureOrder(columns: set<Column>)
    requires HasSchema(columns)
    ensures NumericFeatures(columns) == [Price, Rating, ReviewsCount] + PresentAmong(Additional, columns)
    ensures 3 <= |NumericFeatures(columns)| <= 7
  {
    var base := [Price, Rating, ReviewsCount];
    assert Required[3] == Price && Required[4] == Rating && Required[5] == ReviewsCount;
    assert base[0] in columns && base[1] in columns && base[2] in columns;
    PresentAmongAll(base, columns);
    PresentAmongAppend(base, Additional, columns);
    assert NumericOrder == base + Additional;
  }

  /** After a successful fit every feature row holds one weight per vocabulary
      term followed by one scaled value per numeric feature. */
  lemma FitFeatureWidth(r: Recommender, t: Table, vectorize: seq<string> -> Option<TextFit>,
                        kernel: (seq<real>, seq<real>) -> real)
    requires IsVectorizer(vectorize)
    ensures var out := Fit(r, t, vectorize, kernel);
            out.error.None? ==>
              && out.state.features.Some? && out.state.vocabulary.Some?
              && |out.state.features.value| == |t.rows|
              && forall i :: 0 <= i < |t.rows| ==>
                   |out.state.features.value[i]|
                     == |out.state.vocabulary.value| + |NumericFeatures(t.columns)|
  {
  }

  /** `product_indices` and `inverse_indices` are exact over `rows`: the id of
      row `i` maps to `i`, `i` maps back to that id, one entry per row each. */
  predicate ExactTables(rows: seq<Row>, indices: map<int, nat>, inverse: map<nat, int>) {
    && |indices| == |rows| && |inverse| == |rows|
    && forall i :: 0 <= i < |rows| ==>
         && rows[i].productId in indices && indices[rows[i].productId] == i
         && i in inverse && inverse[i] == rows[i].productId
  }

  /** With distinct ids, the tables built from them are exact. */
  lemma TablesOfDistinct(rows: seq<Row>)
    requires DistinctIds(rows)
    ensures ExactTables(rows, IndexMap(Ids(rows)), Invert(IndexMap(Ids(rows))))
  {
    var ids := Ids(rows);
    assert Distinct(ids);
    IndexMapOfDistinct(ids);
    InverseOfDistinct(ids);
    IndexMapSize(ids);
    InverseSize(ids);
  }

  /** After a fit on a table with distinct ids the index tables are exact,
      whether or not the vectorizer succeeded. */
  lemma {:induction false} FitIndexTables(r: Recommender, t: Table,
                                          vectorize: seq<string> -> Option<TextFit>,
                                          kernel: (seq<real>, seq<real>) -> real)
    requires IsVectorizer(vectorize)
    requires HasSchema(t.columns) && DistinctIds(t.rows)
    ensures var s := Fit(r, t, vectorize, kernel).state;
            ExactTables(t.rows, s.productIndices, s.inverseIndices)
  {
    TablesOfDistinct(t.rows);
  }

  /** A query that gets past the product lookup answers with the entries the
      window of the ranked similarity row yields, or fails as `Collect` does. */
  lemma QueryUnfolds(r: Recommender, id: int, n: int)
    requires r.df.Some? && id in r.productIndices && GetProductById(r, id).Some?
    requires r.similarity.Some? && r.productIndices[id] < |r.similarity.value|
    ensures var picked := Window(Rank(r.similarity.value[r.productIndices[id]]), n);
            && (GetRecommendations(r, id, n).Success? <==> Collect(r, picked).Some?)
            && (Collect(r, picked).Some? ==>
                  GetRecommendations(r, id, n).value.recommendations == Collect(r, picked).value)
  {
  }

  /** The inverse table of a trained state maps a row position to that row's id. */
  lemma InverseAt(r: Recommender, t: Table, j: nat)
    requires TrainedOn(r, t) && j < |t.rows|
    ensures j in r.inverseIndices && r.inverseIndices[j] == t.rows[j].productId
  {
    assert Distinct(Ids(t.rows));
    InverseOfDistinct(Ids(t.rows));
  }

  /** The index table of a trained state maps a row's id to that row. */
  lemma IndexAt(r: Recommender, t: Table, j: nat)
    requires TrainedOn(r, t) && j < |t.rows|
    ensures t.rows[j].productId in r.productIndices
            && r.productIndices[t.rows[j].productId] == j
  {
    assert Distinct(Ids(t.rows));
    IndexMapOfDistinct(Ids(t.rows));
  }

  /** Every recommendation is the product of some row `j` of the table and
      carries the similarity between the queried row and row `j`. */
  lemma {:induction false} RecommendationsComeFromTable(r: Recommender, t: Table, id: int, n: nat)
    requires TrainedOn(r, t)
    ensures var res := GetRecommendations(r, id, n);
            res.Success? ==> forall k :: 0 <= k < |res.value.recommendations| ==>
              exists j :: 0 <= j < |t.rows|
                && t.rows[j].productId == res.value.recommendations[k].productId
                && res.value.recommendations[k].similarityScore
                     == r.similarity.value[r.productIndices[id]][j]
  {
    if GetRecommendations(r, id, n).Success? {
      assert id in r.productIndices && GetProductById(r, id).Some?;
      QueryUnfolds(r, id, n);
      CollectedFromTable(r, t, r.similarity.value[r.productIndices[id]], n);
    }
  }

  /** The entries collected from the window of a similarity row name rows of
      the table, each with that row's score. */
  lemma CollectedFromTable(r: Recommender, t: Table, row: seq<real>, n: int)
    requires TrainedOn(r, t) && |row| == |t.rows|
    ensures var out := Collect(r, Window(Rank(row), n));
            out.Some? ==> forall k :: 0 <= k < |out.value| ==>
              exists j :: 0 <= j < |t.rows|
                && t.rows[j].productId == out.value[k].productId
                && out.value[k].similarityScore == row[j]
  {
    var picked := Window(Rank(row), n);
    if Collect(r, picked).Some? {
      var recs := Collect(r, picked).value;
      CollectRealizes(r, picked);
      forall k | 0 <= k < |recs|
        ensures exists j :: 0 <= j < |t.rows| && t.rows[j].productId == recs[k].productId
                            && recs[k].similarityScore == row[j]
      {
        var p :| 0 <= p < |picked| && Realizes(r, recs[k], picked[p]);
        EntryFromTable(r, t, row, n, p);
      }
    }
  }

  /** A windowed ranked entry names a row of the table, with that row's score. */
  lemma EntryFromTable(r: Recommender, t: Table, row: seq<real>, n: int, p: nat)
    requires TrainedOn(r, t) && |row| == |t.rows| && p < |Window(Rank(row), n)|
    ensures var e := Window(Rank(row), n)[p];
            && e.index < |t.rows| && e.score == row[e.index]
            && e.index in r.inverseIndices && r.inverseIndices[e.index] == t.rows[e.index].productId
  {
    var ranked := Rank(row);
    assert Window(ranked, n)[p] == ranked[p + 1];
    RankEntries(row);
    InverseAt(r, t, ranked[p + 1].index);
  }

  /** Every row can be read back as a product record: the columns the record
      needs exist and no review count is NaN. */
  predicate AllRowsReadable(t: Table) {
    && Title in t.columns && Price in t.columns && Category in t.columns
    && (ReviewsCount in t.columns ==> forall i :: 0 <= i < |t.rows| ==> t.rows[i].reviewsCount.Some?)
  }

  /** In a trained state every id of the table can be looked up. */
  lemma LookupSucceeds(r: Recommender, t: Table, j: nat)
    requires TrainedOn(r, t) && AllRowsReadable(t) && j < |t.rows|
    ensures GetProductById(r, t.rows[j].productId).Some?
  {
    IndexAt(r, t, j);
    var k := FirstRowWithId(t.rows, t.rows[j].productId);
    assert k.Some?;
  }

  /** In a trained state, looking up the id of row `i` reads row `i` itself:
      with distinct ids it is the first row carrying the id. */
  lemma LookupReadsRow(r: Recommender, t: Table, i: nat)
    requires TrainedOn(r, t) && i < |t.rows|
    ensures GetProductById(r, t.rows[i].productId) == View(t.columns, t.rows[i])
  {
    IndexAt(r, t, i);
    var first := FirstRowWithId(t.rows, t.rows[i].productId);
    assert first == Some(i) by {
      if first.Some? && first.value != i {
        assert first.value < i || i < first.value;
      }
    }
  }

  /** With every row readable, a query for a product of the table gives
      `min(n, N - 1)` recommendations for a table of `N` products. */
  lemma {:induction false} RecommendationCount(r: Recommender, t: Table, j: nat, n: nat)
    requires TrainedOn(r, t) && AllRowsReadable(t) && j < |t.rows|
    ensures var res := GetRecommendations(r, t.rows[j].productId, n);
            && res.Success?
            && |res.value.recommendations| == if n < |t.rows| - 1 then n else |t.rows| - 1
  {
    WindowResolves(r, t, j, n);
    QueryOfRow(r, t, j, n);
  }

  /** With every row readable, a query for row `j`'s product answers with
      what the window of row `j`'s ranking yields. */
  lemma QueryOfRow(r: Recommender, t: Table, j: nat, n: int)
    requires TrainedOn(r, t) && AllRowsReadable(t) && j < |t.rows|
    ensures var picked := Window(Rank(r.similarity.value[j]), n);
            var res := GetRecommendations(r, t.rows[j].productId, n);
            && (res.Success? <==> Collect(r, picked).Some?)
            && (Collect(r, picked).Some? ==> res.value.recommendations == Collect(r, picked).value)
  {
    LookupSucceeds(r, t, j);
    IndexAt(r, t, j);
    QueryUnfolds(r, t.rows[j].productId, n);
  }

  /** With every row readable, recommendation `k` for the product of row `j`
      is the product at ranked position `k + 1` of row `j`'s similarities,
      with that position's score. */
  lemma {:induction false} RecommendationsFollowRanking(r: Recommender, t: Table, j: nat, n: int)
    requires TrainedOn(r, t) && AllRowsReadable(t) && j < |t.rows|
    ensures GetRecommendations(r, t.rows[j].productId, n).Success?
    ensures FollowsRanking(t, Rank(r.similarity.value[j]),
                           GetRecommendations(r, t.rows[j].productId, n).value.recommendations)
  {
    RankedEntries(r, t, j, n);
    QueryOfRow(r, t, j, n);
  }

  /** Entries that follow a ranking carry the title, category and price of
      the rows at the ranked positions they follow. */
  lemma FollowedRowsDescribe(t: Table, ranked: seq<Scored>, recs: seq<ProductRecommendation>)
    requires FollowsRanking(t, ranked, recs)
    ensures forall k :: 0 <= k < |recs| ==>
              && recs[k].title == StrOf(t.rows[ranked[k + 1].index].title)
              && recs[k].category == StrOf(t.rows[ranked[k + 1].index].category)
              && recs[k].price == t.rows[ranked[k + 1].index].price
  {
    forall k | 0 <= k < |recs|
      ensures recs[k].category == StrOf(t.rows[ranked[k + 1].index].category)
    {
      var x := recs[k];
      assert ranked[k + 1].index < |t.rows|;
      assert View(t.columns, t.rows[ranked[k + 1].index]) == Some(InfoOf(recs[k]));
    }
  }

  /** Entries picked in order from a list that follows a ranking, all in
      category `c`, are products of rows whose category reads `c`. */
  lemma PickedRowsInCategory(t: Table, ranked: seq<Scored>, cands: seq<ProductRecommendation>,
                             recs: seq<ProductRecommendation>, c: string)
    requires FollowsRanking(t, ranked, cands) && IsSubsequence(recs, cands)
    requires forall k :: 0 <= k < |recs| ==> recs[k].category == c
    ensures forall k :: 0 <= k < |recs| ==>
              exists i :: 0 <= i < |t.rows| && recs[k].productId == t.rows[i].productId
                          && StrOf(t.rows[i].category) == c
  {
    SubsequenceMembers(recs, cands);
    forall k | 0 <= k < |recs|
      ensures exists i :: 0 <= i < |t.rows| && recs[k].productId == t.rows[i].productId
                          && StrOf(t.rows[i].category) == c
    {
      var m :| 0 <= m < |cands| && recs[k] == cands[m];
      assert View(t.columns, t.rows[ranked[m + 1].index]) == Some(InfoOf(cands[m]));
    }
  }

  /** With every row readable and `by_category` set, every similar product of
      row `j`'s product is the product of a row whose category reads as row `j`'s. */
  lemma SimilarProductsShareCategory(r: Recommender, t: Table, j: nat, n: int)
    requires TrainedOn(r, t) && AllRowsReadable(t) && j < |t.rows|
    ensures GetSimilarProducts(r, t.rows[j].productId, true, n).Success?
    ensures var recs := GetSimilarProducts(r, t.rows[j].productId, true, n).value.recommendations;
            forall k :: 0 <= k < |recs| ==>
              exists i :: 0 <= i < |t.rows| && recs[k].productId == t.rows[i].productId
                          && StrOf(t.rows[i].category) == StrOf(t.rows[j].category)
  {
    var id := t.rows[j].productId;
    LookupSucceeds(r, t, j);
    LookupReadsRow(r, t, j);
    RecommendationsFollowRanking(r, t, j, 2 * n);
    SimilarInCategory(r, id, n);
    PickedRowsInCategory(t, Rank(r.similarity.value[j]),
                         GetRecommendations(r, id, 2 * n).value.recommendations,
                         GetSimilarProducts(r, id, true, n).value.recommendations,
                         StrOf(t.rows[j].category));
  }

  /** Entry `k` of `recs` is the product at position `k + 1` of `ranked`, with
      that position's score, and carries the record of that product's row. */
  predicate FollowsRanking(t: Table, ranked: seq<Scored>, recs: seq<ProductRecommendation>) {
    && |recs| < |ranked|
    && forall k :: 0 <= k < |recs| ==>
         && ranked[k + 1].index < |t.rows|
         && recs[k].productId == t.rows[ranked[k + 1].index].productId
         && recs[k].similarityScore == ranked[k + 1].score
         && View(t.columns, t.rows[ranked[k + 1].index]) == Some(InfoOf(recs[k]))
  }

  /** Entries that realize the ranked positions from the second one on follow
      the ranking. */
  lemma RealizedFollowsRanking(r: Recommender, t: Table, ranked: seq<Scored>,
                               picked: seq<Scored>, recs: seq<ProductRecommendation>)
    requires TrainedOn(r, t)
    requires |recs| == |picked| < |ranked|
    requires forall k :: 0 <= k < |picked| ==> picked[k] == ranked[k + 1] && picked[k].index < |t.rows|
    requires forall k :: 0 <= k < |picked| ==> Realizes(r, recs[k], picked[k])
    ensures FollowsRanking(t, ranked, recs)
  {
    forall k | 0 <= k < |recs|
      ensures recs[k].productId == t.rows[ranked[k + 1].index].productId
      ensures View(t.columns, t.rows[ranked[k + 1].index]) == Some(InfoOf(recs[k]))
    {
      InverseAt(r, t, picked[k].index);
      LookupReadsRow(r, t, picked[k].index);
    }
  }

  /** The entries collected for row `j`'s window follow its ranking from the
      second position on. */
  lemma RankedEntries(r: Recommender, t: Table, j: nat, n: int)
    requires TrainedOn(r, t) && AllRowsReadable(t) && j < |t.rows|
    ensures Collect(r, Window(Rank(r.similarity.value[j]), n)).Some?
    ensures FollowsRanking(t, Rank(r.similarity.value[j]), Collect(r, Window(Rank(r.similarity.value[j]), n)).value)
  {
    var row := r.similarity.value[j];
    var ranked := Rank(row);
    var picked := Window(ranked, n);
    WindowResolves(r, t, j, n);
    RankEntries(row);
    forall k | 0 <= k < |picked|
      ensures picked[k] == ranked[k + 1] && picked[k].index < |t.rows|
    {
      EntryFromTable(r, t, row, n, k);
    }
    RealizedFollowsRanking(r, t, ranked, picked, Collect(r, picked).value);
  }

  /** With every row readable, every windowed position of row `j`'s ranking
      resolves to a recommendation entry, in order. */
  lemma WindowResolves(r: Recommender, t: Table, j: nat, n: int)
    requires TrainedOn(r, t) && AllRowsReadable(t) && j < |t.rows|
    ensures var picked := Window(Rank(r.similarity.value[j]), n);
            && |picked| < |t.rows|
            && Collect(r, picked).Some?
            && |Collect(r, picked).value| == |picked|
            && forall k :: 0 <= k < |picked| ==> Realizes(r, Collect(r, picked).value[k], picked[k])
  {
    var row := r.similarity.value[j];
    var picked := Window(Rank(row), n);
    forall p | 0 <= p < |picked|
      ensures picked[p].index in r.inverseIndices && Entry(r, picked[p]).Some?
    {
      EntryFromTable(r, t, row, n, p);
      LookupSucceeds(r, t, picked[p].index);
    }
    CollectComplete(r, picked);
  }

  /** When a product is strictly more similar to itself than to any other
      product, it is not among its own recommendations. The slice drops the
      first ranked position whatever it holds, so this needs the premise. */
  lemma {:induction false} NoSelfRecommendation(r: Recommender, t: Table, j: nat, n: nat)
    requires TrainedOn(r, t) && j < |t.rows|
    requires forall m :: 0 <= m < |t.rows| && m != j ==> r.similarity.value[j][m] < r.similarity.value[j][j]
    ensures var res := GetRecommendations(r, t.rows[j].productId, n);
            res.Success? ==> forall k :: 0 <= k < |res.value.recommendations| ==>
              res.value.recommendations[k].productId != t.rows[j].productId
  {
    var id := t.rows[j].productId;
    if GetRecommendations(r, id, n).Success? {
      IndexAt(r, t, j);
      QueryUnfolds(r, id, n);
      CollectedAvoids(r, t, r.similarity.value[j], n, j);
    }
  }

  /** The entries collected from the window of row `j`'s similarities never
      name row `j`'s product when row `j` is its own strict maximum. */
  lemma CollectedAvoids(r: Recommender, t: Table, row: seq<real>, n: int, j: nat)
    requires TrainedOn(r, t) && |row| == |t.rows| && j < |row|
    requires forall m :: 0 <= m < |row| && m != j ==> row[m] < row[j]
    ensures var out := Collect(r, Window(Rank(row), n));
            out.Some? ==> forall k :: 0 <= k < |out.value| ==>
              out.value[k].productId != t.rows[j].productId
  {
    var picked := Window(Rank(row), n);
    if Collect(r, picked).Some? {
      var recs := Collect(r, picked).value;
      CollectRealizes(r, picked);
      forall k | 0 <= k < |recs|
        ensures recs[k].productId != t.rows[j].productId
      {
        var p :| 0 <= p < |picked| && Realizes(r, recs[k], picked[p]);
        RealizedEntry(r, recs[k], picked[p]);
        WindowAvoids(r, t, row, n, j, p);
      }
    }
  }

  /** Under the same premise, no windowed position maps back to row `j`'s product. */
  lemma WindowAvoids(r: Recommender, t: Table, row: seq<real>, n: int, j: nat, p: nat)
    requires TrainedOn(r, t) && |row| == |t.rows| && j < |row|
    requires forall m :: 0 <= m < |row| && m != j ==> row[m] < row[j]
    requires p < |Window(Rank(row), n)|
    ensures var m := Window(Rank(row), n)[p].index;
            m in r.inverseIndices && r.inverseIndices[m] != t.rows[j].productId
  {
    var ranked := Rank(row);
    RankEntries(row);
    DominantEntryRanksFirst(row, j);
    assert Window(ranked, n)[p] == ranked[p + 1];
    var m := ranked[p + 1].index;
    assert m != j by {
      assert ranked[0].index != ranked[p + 1].index;
    }
    InverseAt(r, t, m);
  }

  /** A state holding a table and its index table but no similarity matrix
      answers a query for a readable product with an internal error. */
  lemma PartialStateFails(s: Recommender, t: Table, j: nat, n: nat)
    requires s.df == Some(t) && s.productIndices == IndexMap(Ids(t.rows)) && s.similarity.None?
    requires AllRowsReadable(t) && j < |t.rows|
    ensures GetRecommendations(s, t.rows[j].productId, n) == Failure(Internal)
  {
    var id := t.rows[j].productId;
    assert GetProductById(s, id).Some? by {
      assert Ids(t.rows)[j] == id;
      var k := FirstRowWithId(t.rows, id);
      assert k.Some?;
    }
  }

  /** A fit whose vectorizer fails leaves the new table and index tables next
      to the old (here: absent) similarity matrix, so a fresh recommender then
      answers every query for a readable product with an internal error
      rather than "not trained". */
  lemma {:induction false} PartialFitQueriesFail(t: Table, vectorize: seq<string> -> Option<TextFit>,
                                                 kernel: (seq<real>, seq<real>) -> real, j: nat, n: nat)
    requires IsVectorizer(vectorize)
    requires HasSchema(t.columns) && vectorize(Corpus(t)).None?
    requires AllRowsReadable(t) && j < |t.rows|
    ensures var out := Fit(Untrained, t, vectorize, kernel);
            && out.error == Some(EmptyVocabulary)
            && out.state.df == Some(t)
            && GetRecommendations(out.state, t.rows[j].productId, n) == Failure(Internal)
  {
    PartialStateFails(Fit(Untrained, t, vectorize, kernel).state, t, j, n);
  }

  /** Loading what was just saved gives back the same recommender, so every
      query answers as before. */
  lemma SaveLoadRoundTrip(r: Recommender, store: Store, path: string)
    requires Consistent(r)
    ensures SaveModel(r, store, path).Success?
    ensures LoadModel(SaveModel(r, store, path).value, path) == Success(r)
    ensures forall id, n :: GetRecommendations(LoadModel(SaveModel(r, store, path).value, path).value, id, n)
                            == GetRecommendations(r, id, n)
  {
  }

  /** Saving an untrained recommender fails and leaves nothing to load. */
  lemma SaveUntrainedFails(store: Store, path: string)
    requires path !in store
    ensures SaveModel(Untrained, store, path) == Failure(NothingToSave)
    ensures LoadModel(store, path) == Failure(NoSuchFile)
  {
  }

  /** The category-restricted similar products are all in the queried
      product's category, at most `n` of them, in recommendation order. */
  lemma SimilarInCategory(r: Recommender, id: int, n: int)
    ensures var res := GetSimilarProducts(r, id, true, n);
            res.Success? ==>
              && (n >= 0 ==> |res.value.recommendations| <= n)
              && (forall k :: 0 <= k < |res.value.recommendations| ==>
                    res.value.recommendations[k].category == GetProductById(r, id).value.category)
              && IsSubsequence(res.value.recommendations,
                               GetRecommendations(r, id, 2 * n).value.recommendations)
  {
  }
}
