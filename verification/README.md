# Product recommender of the marketplace analysis service

This project models the recommender at the centre of the marketplace analysis service. It covers the following parts:

- **`ProductRecommender`**:
  - training front-end;
  - query engine;
  - persistence.
- **Cleaning helpers of `ProductAnalyzer`**: `clean_text`, `extract_features` and `normalize_features`.
- **Three HTTP endpoints built on them**:
  - `GET /products/{id}/recommendations`;
  - `GET /products/{id}/similar`;
  - `GET /metrics/category_distribution`.

The model is written in Dafny as immutable datatypes and pure functions. Their contracts and lemmas state what the Python code promises.

The modules follow the program's structure.

| module | file | what it holds |
|---|---|---|
| `Wrappers` | `wrappers.dfy` | `Option` and `Result`. |
| `Text` | `text.dfy` | ASCII `str.lower()` and `str.strip()`, and their composition `Normalize`. |
| `Slicing` | `slicing.dfy` | Python slicing `s[a:b]`, negative bounds included. |
| `Catalog` | `catalog.dfy` | The product table: a column set and one `Row` per product, with `None` for a NaN cell. |
| `Scaling` | `scaling.dfy` | Min-max scaling as an ideal real-valued formula. |
| `Analyzer` | `analyzer.dfy` | `clean_text`, `main_category`, `extract_features`, `normalize_features`. |
| `Ranking` | `ranking.dfy` | The stable descending sort of one similarity row, and the `[1:n+1]` window. |
| `Indexing` | `indexing.dfy` | `product_indices` and `inverse_indices`. |
| `Recommender` | `recommender.dfy` | `fit`, `get_product_by_id`, `get_recommendations`, `get_similar_products`, `save_model`, `load_model`. |
| `RecommenderProperties` | `recommender_properties.dfy` | Lemmas relating a trained state to the table it was trained on. |
| `Routes` | `routes.dfy` | The three endpoints and the exception-to-status mapping. |

Choices that shape the model:

- **Scores.** Similarity scores and numeric cells are `real`.
- **Numerics as parameters.**
  - The TF-IDF vectorizer is a parameter of `Fit`. The parameter is a function from the corpus to a vocabulary and a weight row per document, or `None` when the vectorizer raises.
  - `IsVectorizer` states the shapes the library guarantees.
  - The cosine kernel is a parameter too: the similarity matrix applies it to every pair of feature rows.
- **The sort.** `sorted(enumerate(row), key=…, reverse=True)` is Python's stable sort, so equal scores keep ascending row order. It is modelled as the sort by `Before`: higher score first, then lower position. `RankedPermutationUnique` shows that any sort with that property gives exactly `Rank(row)`.
- **Persistence.** Persistence is a map from paths to `model_data` records, so pickling is the identity.
- **Partial state on a failed fit.** `fit` stores the table and both index tables before it runs the vectorizer (recommender.py:69-89). A vectorizer failure therefore leaves a partly updated instance. The model keeps that behaviour: see `Recommender.Fit` and `PartialFitQueriesFail`.
- **Unknown ids in `get_similar_products`.** The method looks the product up before it calls `get_recommendations`, so an unknown id raises the "could not get product information" error (`ProductUnavailable`) rather than "not found". Both are `ValueError`s, so the endpoint answers 404 either way.
- **Failed lookups.** `get_product_by_id` catches every exception and returns `None`, for example `int()` of a NaN review count. `get_recommendations` silently skips such rows.

## Model

| member | source | states |
|---|---|---|
| Text.Lower | marketplace_analysis/app/services/recommender.py:56 | `lower()` keeps the length, leaves no capital, and changes exactly the capitals, each to its small letter. |
| Text.Strip | marketplace_analysis/app/services/recommender.py:56 | `strip()` keeps an infix starting after the leading whitespace. Both of its ends are non-whitespace, and everything after it is whitespace. |
| Text.Lead | marketplace_analysis/app/services/recommender.py:56 | The leading whitespace run: all of it is whitespace, and the character after it is not. |
| Text.Trail | marketplace_analysis/app/services/recommender.py:56 | The trailing whitespace run: all of it is whitespace, and the character before it is not. |
| Text.LeadIs | marketplace_analysis/app/services/recommender.py:56 | The leading run is the only whitespace prefix that ends at a non-whitespace character. |
| Text.TrailIs | marketplace_analysis/app/services/recommender.py:56 | The trailing run is the only whitespace suffix that starts after a non-whitespace character. |
| Text.Normalize | marketplace_analysis/app/services/analyzer.py:20 | `lower().strip()` has no capitals and is cleaned from its input: it is the input from its first non-whitespace character on, each character lowered, ending where only whitespace follows, with neither end whitespace. |
| Text.CleanedFromUnique | marketplace_analysis/app/services/analyzer.py:20 | At most one text is cleaned from a given input, so the content clause of `Normalize` fixes its result completely. |
| Text.LeadOfLower | marketplace_analysis/app/services/analyzer.py:20 | Lowering leaves the leading whitespace run unchanged. |
| Text.LowerOfLowercase | marketplace_analysis/app/services/analyzer.py:20 | Lowering a text without capitals changes nothing. |
| Text.StripOfStripped | marketplace_analysis/app/services/analyzer.py:20 | Stripping a text without whitespace at either end changes nothing. |
| Text.NormalizeIdempotent | marketplace_analysis/app/services/analyzer.py:20 | Cleaning a cleaned text changes nothing. |
| Text.StripOfAllSpace | marketplace_analysis/app/services/analyzer.py:20 | A text of whitespace only strips to the empty text. |
| Text.StripIgnoresPadding | marketplace_analysis/app/services/analyzer.py:20 | Whitespace added on either side does not change what `strip()` keeps. |
| Text.NormalizeIgnoresPadding | marketplace_analysis/app/services/analyzer.py:20 | Whitespace added on either side does not change the cleaned text. |
| Slicing.Slice | marketplace_analysis/app/services/recommender.py:182 | `s[a:b]` has length `max(0, b' - a')` for the clamped bounds, and element `k` is `s[a' + k]`. |
| Slicing.Take | marketplace_analysis/app/services/recommender.py:255-257 | `xs[:n]` is a prefix of `xs`. Its length is `min(n, len)` for `n >= 0`, and `max(0, len + n)` otherwise. |
| Catalog.PresentAmong | marketplace_analysis/app/services/recommender.py:99-125 | Filtering a column list by presence keeps exactly the listed columns that are present, and never grows the list. |
| Catalog.PresentAmongAppend | marketplace_analysis/app/services/recommender.py:99-125 | Filtering a concatenation filters each part, so the order of the list is kept. |
| Catalog.PresentAmongDistinct | marketplace_analysis/app/services/analyzer.py:31-33 | Filtering a list of distinct columns by presence keeps them distinct. |
| Catalog.PresentAmongAll | marketplace_analysis/app/services/recommender.py:99-111 | A list whose columns are all present is kept whole. |
| Catalog.FirstRowWithId | marketplace_analysis/app/services/recommender.py:38 | `.loc[...].iloc[0]` finds the first row carrying the id, or no row when none carries it. |
| Scaling.Lo | marketplace_analysis/app/services/recommender.py:100 | The scaler's minimum is a present value no larger than any present value, and is absent exactly when every cell is NaN. |
| Scaling.Hi | marketplace_analysis/app/services/recommender.py:100 | The scaler's maximum is a present value no smaller than any present value, and is absent exactly when every cell is NaN. |
| Scaling.ScaleValue | marketplace_analysis/app/services/analyzer.py:26-28 | A value in the range scales into [0, 1]. The minimum scales to 0 and, unless the range is a single point, the maximum scales to 1. |
| Scaling.MinMaxScale | marketplace_analysis/app/services/analyzer.py:26-28 | Scaling keeps the column's length and its NaN cells, and puts every present value in [0, 1]. |
| Scaling.ScalingIsMonotone | marketplace_analysis/app/services/analyzer.py:26-35 | Scaling keeps the order of present values. |
| Scaling.ScalingHitsBounds | marketplace_analysis/app/services/analyzer.py:26-35 | The smallest present value scales to 0. The largest scales to 1 unless the column is constant. |
| Analyzer.CleanText | marketplace_analysis/app/services/analyzer.py:16-21 | A NaN gives the empty text. Any other text is cleaned from the input in the sense of `Normalize`: the lowered characters between the leading and trailing whitespace, without capitals. |
| Analyzer.CleanTextIdempotent | marketplace_analysis/app/services/analyzer.py:16-21 | Cleaning a cleaned text changes nothing. |
| Analyzer.CleanTextFixedPoints | marketplace_analysis/app/services/analyzer.py:16-21 | Every lower-case, stripped text is its own cleaning, so these texts are exactly the outputs of cleaning. |
| Analyzer.BeforeSlash | marketplace_analysis/app/services/analyzer.py:49 | `s.split('/')[0]` is the prefix of `s` up to its first slash, or all of `s` when there is none. |
| Analyzer.MainCategory | marketplace_analysis/app/services/analyzer.py:48-50 | A NaN category gives `Unknown`. Otherwise the result is a slash-free prefix of the category, ending where the first slash stands. |
| Analyzer.MainCategoryOfFlat | marketplace_analysis/app/services/analyzer.py:49 | A category without a slash is its own main category. |
| Analyzer.MainCategoryIdempotent | marketplace_analysis/app/services/analyzer.py:48-50 | Taking the main category of a main category changes nothing. |
| Analyzer.ExtractFeatures | marketplace_analysis/app/services/analyzer.py:38-52 | On success, `title_clean` and `main_category` are always added, with one cleaned entry per row, and `description_clean` is added exactly when the table has descriptions. A missing `title` or `category` column is reported; success happens exactly when both exist. |
| Analyzer.TitlesAreFixedPoints | marketplace_analysis/app/services/analyzer.py:40-42 | Every `title_clean` entry is its own cleaning: cleaning it again changes nothing. |
| Analyzer.DescriptionsAreFixedPoints | marketplace_analysis/app/services/analyzer.py:44-46 | Every `description_clean` entry, when the column is added, is its own cleaning. |
| Analyzer.MainCategoriesAreFixedPoints | marketplace_analysis/app/services/analyzer.py:48-50 | Every `main_category` entry is its own main category: no slash is left in it. |
| Analyzer.NormalizeFeatures | marketplace_analysis/app/services/analyzer.py:23-36 | It fails exactly when `price` is missing (`KeyError`) or the table has no rows (the scaler's `ValueError`). Otherwise the columns are `price` and then the present ones of `rating`, `reviews_count` and `sales_last_30_days`, in that order, each once. Each column is the min-max scaling of that column's cells: it keeps their NaN cells and puts every present value in [0, 1]. |
| Analyzer.ScaledColumnsDistinct | marketplace_analysis/app/services/analyzer.py:25-35 | The columns `normalize_features` scales are named once each. |
| Analyzer.NormalizedKeepsOrder | marketplace_analysis/app/services/analyzer.py:26-35 | In every scaled column, a cell no larger than another scales to a value no larger than the other's. |
| Analyzer.NormalizedMinIsZero | marketplace_analysis/app/services/analyzer.py:26-35 | In every scaled column, a smallest present cell scales to 0. |
| Analyzer.NormalizedMaxIsOne | marketplace_analysis/app/services/analyzer.py:26-35 | In every scaled column that is not constant, a largest present cell scales to 1. |
| Indexing.IndexMap | marketplace_analysis/app/services/recommender.py:73 | Every id of the column, and only those, maps to a row holding it. That row is the last one holding it, and no two ids share a row. |
| Indexing.Invert | marketplace_analysis/app/services/recommender.py:74 | The inverse maps each row position back to the id that maps to it, and holds nothing else. |
| Indexing.IndexMapOfDistinct | marketplace_analysis/app/services/recommender.py:73 | With distinct ids, the id of row `i` maps to `i`. |
| Indexing.InverseOfDistinct | marketplace_analysis/app/services/recommender.py:73-74 | With distinct ids, the inverse maps exactly the row positions, each to the id of its row. |
| Indexing.IndexMapSize | marketplace_analysis/app/services/recommender.py:73 | With distinct ids, `product_indices` has one entry per row. |
| Indexing.InverseSize | marketplace_analysis/app/services/recommender.py:74 | With distinct ids, `inverse_indices` has one entry per row. |
| Ranking.Insert | marketplace_analysis/app/services/recommender.py:180 | Inserting into a ranked sequence gives a ranked sequence with exactly one more element. |
| Ranking.Sort | marketplace_analysis/app/services/recommender.py:180 | The sort is a permutation of its input, ranked by higher score first and then lower position. |
| Ranking.Rank | marketplace_analysis/app/services/recommender.py:179-180 | The ranking of a row is a ranked permutation of `enumerate(row)`. |
| Ranking.RankEntries | marketplace_analysis/app/services/recommender.py:179-180 | Every ranked entry is a valid position carrying that position's score, and no position appears twice. |
| Ranking.RankCoversRow | marketplace_analysis/app/services/recommender.py:179-180 | Every position of the row appears in its ranking. |
| Ranking.RankedPermutationUnique | marketplace_analysis/app/services/recommender.py:180 | Two ranked permutations of the same entries are equal, so the stable descending order is unique. |
| Ranking.HeadsAgree | marketplace_analysis/app/services/recommender.py:180 | Two rankings of the same entries start with the same entry. |
| Ranking.RankedScoresNonIncreasing | marketplace_analysis/app/services/recommender.py:180 | Scores never increase along a ranking. |
| Ranking.DominantEntryRanksFirst | marketplace_analysis/app/services/recommender.py:180-182 | An entry strictly above every other entry of its row is ranked first. |
| Ranking.Window | marketplace_analysis/app/services/recommender.py:182 | `ranked[1:n+1]` is ranked positions `1` to `n`, cut at the end of the ranking. A negative `n` counts from the end. |
| Ranking.WindowScoresNonIncreasing | marketplace_analysis/app/services/recommender.py:180-182 | Scores never increase along the window. |
| Recommender.PreprocessText | marketplace_analysis/app/services/recommender.py:52-56 | A non-string gives the empty text. A string gives the lowered characters between its leading and trailing whitespace, without capitals and stripped at both ends. |
| Recommender.Document | marketplace_analysis/app/services/recommender.py:78-85 | The document of a row joins the cleaned title, description and category with single spaces. A missing description column leaves two spaces, and a NaN description reads `nan`. |
| Recommender.DescriptionCleaned | marketplace_analysis/app/services/recommender.py:81 | The middle part of a document in each of its three cases. |
| Recommender.NumericFeatures | marketplace_analysis/app/services/recommender.py:93-125 | The numeric features are exactly the present columns among the seven scaled ones. |
| Recommender.NumericMatrix | marketplace_analysis/app/services/recommender.py:130-131 | The numeric matrix has one row per product and one column per numeric feature, every value in [0, 1]. |
| Recommender.FeatureMatrix | marketplace_analysis/app/services/recommender.py:130-139 | Each feature row is as wide as the vocabulary plus the numeric features. It starts with the text weights, and the numeric part lies in [0, 1]. |
| Recommender.Fit | marketplace_analysis/app/services/recommender.py:58-161 | A table without the six required columns fails and changes nothing. Otherwise the table and index tables are replaced, and the fit succeeds exactly when the vectorizer does. A vectorizer failure keeps the earlier matrices and `model_data`. A success leaves a state consistent with its new `model_data`. |
| Recommender.Trunc | marketplace_analysis/app/services/recommender.py:46 | `int()` of a float truncates toward zero. |
| Recommender.View | marketplace_analysis/app/services/recommender.py:38-47 | The record view of a row exists exactly when `title`, `price` and `category` exist and the review count is not NaN. It carries the row's id, title, category and price. Its rating is the row's (NaN kept) when the column exists and 0 otherwise. Its review count is the row's count truncated toward zero when the column exists and 0 otherwise. |
| Recommender.GetProductById | marketplace_analysis/app/services/recommender.py:31-50 | An id missing from `product_indices`, or an untrained instance, gives `None`. Otherwise the answer is the view of the first row carrying the id, and `None` when no row carries it or that row cannot be read. |
| Recommender.Entry | marketplace_analysis/app/services/recommender.py:186-197 | A ranked position gives an entry exactly when the lookup of its id succeeds. The entry then carries that lookup's whole record, the position's id and the position's score. |
| Recommender.Collect | marketplace_analysis/app/services/recommender.py:184-197 | The loop fails exactly when some picked position is missing from `inverse_indices`, and it never yields more entries than positions. |
| Recommender.CollectSingle | marketplace_analysis/app/services/recommender.py:184-197 | One position collects to its entry, or to nothing when its lookup fails. |
| Recommender.CollectAppend | marketplace_analysis/app/services/recommender.py:184-197 | Collecting two runs of positions gives the entries of the first run followed by those of the second. With `CollectSingle`, the loop's output is the entries of the positions whose lookups succeed, in the order of the positions; only failed lookups are dropped. |
| Recommender.CollectKeepsResolved | marketplace_analysis/app/services/recommender.py:184-197 | A successful loop mapped every position back to an id, and every position whose lookup succeeds has its entry in the output. |
| Recommender.CollectRealizes | marketplace_analysis/app/services/recommender.py:184-197 | Each collected entry is the product and score of some picked position. |
| Recommender.CollectKeepsOrder | marketplace_analysis/app/services/recommender.py:184-197 | Picked positions in non-increasing score order give entries in non-increasing score order. |
| Recommender.CollectComplete | marketplace_analysis/app/services/recommender.py:184-197 | When every position resolves and every lookup succeeds, nothing is skipped: entry `k` is position `k`. |
| Recommender.GetRecommendations | marketplace_analysis/app/services/recommender.py:163-204 | It fails when untrained, for an unknown id, and for a product that cannot be looked up. On success the answer names the product, holds at most `n` entries for `n >= 0`, and its scores never increase. |
| Recommender.InCategory | marketplace_analysis/app/services/recommender.py:251-254 | The filter keeps, in order, exactly as many entries as lie in the category, all of them in it. |
| Recommender.Select | marketplace_analysis/app/services/recommender.py:250-257 | With `by_category`, the result is the first `n` entries of the category filter, all in the category. Without it, the result is the first `n` entries. Either way it is a subsequence of the candidates. |
| Recommender.GetSimilarProducts | marketplace_analysis/app/services/recommender.py:236-259 | It succeeds exactly when the instance is trained, the product can be looked up and the query for `2n` succeeds. Untrained and unreadable products fail with their own errors, and a failing `2n` query passes its error on. On success it holds the selection from those `2n` answers. |
| Recommender.SubsequenceMembers | marketplace_analysis/app/services/recommender.py:251-255 | Every element of a subsequence occurs in the sequence. |
| Recommender.PrefixIsSubsequence | marketplace_analysis/app/services/recommender.py:255-257 | A slice `xs[:n]` is a subsequence of `xs`. |
| Recommender.SubsequenceTransitive | marketplace_analysis/app/services/recommender.py:251-255 | A subsequence of a subsequence is a subsequence. |
| Recommender.SaveModel | marketplace_analysis/app/services/recommender.py:206-213 | Saving fails exactly when `model_data` is empty. Otherwise it writes `model_data` at the path and leaves other paths alone. |
| Recommender.LoadModel | marketplace_analysis/app/services/recommender.py:216-234 | Loading fails exactly for a path never written. Otherwise it gives an instance consistent with the stored record. |
| RecommenderProperties.FitTrains | marketplace_analysis/app/services/recommender.py:58-157 | A successful fit on a table with distinct ids gives a state trained on that table and consistent with its `model_data`. |
| RecommenderProperties.NumericFeatureOrder | marketplace_analysis/app/services/recommender.py:99-125 | With the required columns present, the features are `price`, `rating`, `reviews_count`, then the present optional ones in their fixed order, three to seven in all. |
| RecommenderProperties.FitFeatureWidth | marketplace_analysis/app/services/recommender.py:130-139 | After a successful fit, each feature row is as wide as the vocabulary plus the numeric features. |
| RecommenderProperties.TablesOfDistinct | marketplace_analysis/app/services/recommender.py:73-74 | With distinct ids, the index tables are exact: id to row, row to id, one entry per row each. |
| RecommenderProperties.FitIndexTables | marketplace_analysis/app/services/recommender.py:64-75 | A fit that passes the schema check leaves exact index tables, even when the vectorizer fails. |
| RecommenderProperties.QueryUnfolds | marketplace_analysis/app/services/recommender.py:178-204 | A query that gets past the lookup answers with what the window of the ranked row collects. |
| RecommenderProperties.InverseAt | marketplace_analysis/app/services/recommender.py:74 | In a trained state, `inverse_indices` maps a row position to that row's id. |
| RecommenderProperties.IndexAt | marketplace_analysis/app/services/recommender.py:73 | In a trained state, `product_indices` maps a row's id to that row. |
| RecommenderProperties.RecommendationsComeFromTable | marketplace_analysis/app/services/recommender.py:178-197 | Every recommendation is the product of some row of the table, with the similarity between the queried row and that row. |
| RecommenderProperties.CollectedFromTable | marketplace_analysis/app/services/recommender.py:184-197 | The entries collected from a similarity row's window name rows of the table, each with that row's score. |
| RecommenderProperties.EntryFromTable | marketplace_analysis/app/services/recommender.py:179-186 | A windowed ranked entry is a row of the table with that row's score, and it resolves to that row's id. |
| RecommenderProperties.LookupReadsRow | marketplace_analysis/app/services/recommender.py:31-47 | In a trained state, looking up the id of a row gives that row's record view. |
| RecommenderProperties.FollowedRowsDescribe | marketplace_analysis/app/services/recommender.py:186-197 | An entry that follows the ranking carries the title, category and price of the row at its ranked position. |
| RecommenderProperties.PickedRowsInCategory | marketplace_analysis/app/services/recommender.py:250-255 | Entries chosen from ranked entries and all in category `c` are products of rows whose category is `c`. |
| RecommenderProperties.SimilarProductsShareCategory | marketplace_analysis/tests/test_recommender.py:76-98 | For every product of a table with readable rows, the category-restricted similar query succeeds, and each answer is the product of a row in the queried product's category. |
| RecommenderProperties.LookupSucceeds | marketplace_analysis/app/services/recommender.py:31-47 | In a trained state whose rows are all readable, every id of the table can be looked up. |
| RecommenderProperties.RecommendationCount | marketplace_analysis/app/services/recommender.py:178-197 | For a product of a table of `N` readable rows, the query succeeds with exactly `min(n, N - 1)` recommendations. |
| RecommenderProperties.QueryOfRow | marketplace_analysis/app/services/recommender.py:170-197 | A query for row `j`'s product answers with what row `j`'s window collects. |
| RecommenderProperties.RecommendationsFollowRanking | marketplace_analysis/app/services/recommender.py:178-197 | With readable rows, recommendation `k` is the product at ranked position `k + 1` of the queried row, with that position's score, and carries the record of that product's row. |
| RecommenderProperties.RealizedFollowsRanking | marketplace_analysis/app/services/recommender.py:182-197 | Entries realizing ranked positions `1, 2, …` follow the ranking: each is the product of its position's row, with that position's score and that row's record. |
| RecommenderProperties.RankedEntries | marketplace_analysis/app/services/recommender.py:178-197 | The entries collected for row `j`'s window follow its ranking from position 1 on. |
| RecommenderProperties.WindowResolves | marketplace_analysis/app/services/recommender.py:182-197 | With readable rows, every windowed position resolves to an entry, in order. The window is shorter than the table. |
| RecommenderProperties.NoSelfRecommendation | marketplace_analysis/app/services/recommender.py:180-182 | A product strictly more similar to itself than to any other product is never among its own recommendations. |
| RecommenderProperties.CollectedAvoids | marketplace_analysis/app/services/recommender.py:180-197 | The entries collected from a row's window never name the row's own product when the row is its own strict maximum. |
| RecommenderProperties.WindowAvoids | marketplace_analysis/app/services/recommender.py:180-186 | When a row is its own strict maximum, every windowed position maps back to an id other than the row's own. |
| RecommenderProperties.PartialStateFails | marketplace_analysis/app/services/recommender.py:174-179 | A state with a table and index table but no similarity matrix answers a query for a readable product with an internal error. |
| RecommenderProperties.PartialFitQueriesFail | marketplace_analysis/app/services/recommender.py:69-89 | After a fit whose vectorizer fails on a fresh instance, the table is set and queries fail with an internal error rather than "not trained". |
| RecommenderProperties.SaveLoadRoundTrip | marketplace_analysis/app/services/recommender.py:206-234 | Loading what was just saved gives back the same recommender, so every query answers as before. |
| RecommenderProperties.SaveUntrainedFails | marketplace_analysis/app/services/recommender.py:209-210 | Saving a fresh instance fails, and a path never written cannot be loaded. |
| RecommenderProperties.SimilarInCategory | marketplace_analysis/app/services/recommender.py:248-255 | The category-restricted similar products are all in the product's category, at most `n` of them, and in recommendation order. |
| Routes.RecommendationsRoute | marketplace_analysis/app/api/routes.py:105-141 | The endpoint answers 200 with the recommender's answer exactly when the query succeeds. Untrained, unknown and unreadable ids (`ValueError`) give 404, an internal failure gives 500, and no other status is possible. |
| Routes.SimilarRouteAsWritten | marketplace_analysis/app/api/routes.py:143-176 | A failing recommender call gives the status of its exception. |
| Routes.SimilarRouteAsWrittenNeverSucceeds | marketplace_analysis/app/api/routes.py:161-164 | As written, the similar endpoint never answers 200. Every success of the recommender becomes 500. |
| Routes.SimilarRoute | marketplace_analysis/app/api/routes.py:143-176 | The corrected endpoint answers 200 exactly when the recommender succeeds, with its answer. Untrained and unreadable products give 404, an internal failure of the `2n` query gives 500, and no other status is possible. |
| Routes.SimilarRouteAnswers | marketplace_analysis/tests/test_api.py:67-85 | A 200 answer names the product and holds at most `n` entries, all in its category when asked. |
| Routes.TrainedRoutesAnswer | marketplace_analysis/app/api/routes.py:105-176 | On a table the recommender was trained on, with every row readable, both endpoints answer 200 for every product of the table. |
| Routes.CategoryCounts | marketplace_analysis/app/api/routes.py:212 | The keys are exactly the categories that occur. Each maps to the number of rows carrying it. |
| Routes.CategoryDistributionRoute | marketplace_analysis/app/api/routes.py:178-226 | The endpoint answers 500 exactly when there is no recommender, no table or no `category` column. Otherwise it sends the category counts and the number of rows. |
| Routes.CountsAddUp | marketplace_analysis/app/api/routes.py:212-218 | The counts plus the NaN categories add up to the number of rows. |
| Routes.DistributionSumsToTotal | marketplace_analysis/app/api/routes.py:212-218 | With no NaN category, the distribution sums to `total_products`. |
| Routes.SumValuesRemove | marketplace_analysis/app/api/routes.py:212 | The sum of a map's values does not depend on which key is taken out first. |

## Left out

- **Library numerics.** The TF-IDF vectorizer, its stop words, `cosine_similarity` and `toarray()` are float computations inside libraries. They are parameters of `Fit`, and only the shapes they guarantee are assumed.
- **The scaler.** `MinMaxScaler` is modelled as the ideal real formula, so float rounding is left out. Its NaN handling is modelled: NaN cells are ignored when finding the minimum and maximum and stay NaN. In `fit`, the `fillna(0)` ahead of the scaler means no NaN reaches it there.
- **`calculate_product_score` and `load_data`.** The weighted float score and CSV loading in analyzer.py are not part of this model.
- **I/O.** Pickling, file handles and logging are not modelled. Persistence is a map from paths to records.
- **The vectorizer object.** The stored `tfidf` is represented by its vocabulary. `tfidf_matrix` is not kept as an attribute, because no query reads it.
- **Caller-table mutation.** `fit` writes `*_normalized` columns into the caller's DataFrame, and `extract_features`/`normalize_features` write into the analyzer's table. The model returns the new columns instead of mutating anything.
- **HTTP plumbing.** The token check, CORS, the lifespan bootstrap and the root endpoint are not modelled. The recommendations route's `hasattr(recommender, 'product_indices')` guard always passes, so it has no branch in the model.
- **Exception messages.** Errors are the constructors of `Recommender.Error`; message texts are not modelled.
- **Unicode.** `lower()` and `strip()` are modelled over ASCII only: capitals A-Z, and the whitespace Python's `isspace()` accepts below 128.
- **Duplicate ids.** With a repeated `product_id`, `IndexMap` keeps the last row while `GetProductById` reads the first. Both behaviours are modelled, but the properties about a trained state assume distinct ids.
- **Integer widths.** `int()` and `float()` of the cells are unbounded. NaN prices and ratings stay `None`, because `float(NaN)` is NaN.
- **Default arguments.** `n_recommendations=5` and `by_category=True` (recommender.py:163 and 236, routes.py:110 and 147-149) are defaults for callers. The model takes every argument explicitly, so these defaults are not modelled.
- **Empty tables in `fit`.** The vectorizer raises on an empty corpus before the scaler is reached. `IsVectorizer` therefore requires at least one document for a success, and the scaler's own `ValueError` on zero rows never shows in `Fit`.
- Recommender.GetRecommendations: does not state the exact recommendation list in its own contract. `RecommendationsFollowRanking` and `RecommendationCount` state it for a trained state whose rows are all readable. When some lookup fails, the contracts state only the bound on its length, its order, and that each entry is a product of the table with its score (`RecommendationsComeFromTable`).
- Routes.SimilarRouteAsWritten: states only the failure path. The success path is stated by `SimilarRouteAsWrittenNeverSucceeds`.

## Findings

| source | as written | input that shows it | evidently intended | confidence | as-written member | corrected member |
|---|---|---|---|---|---|---|
| marketplace_analysis/app/api/routes.py:161-164 | The similar endpoint returns `{"product_id": id, "recommendations": <whole response>}` against a `response_model` that requires `title`, `category` and a list under `recommendations`. | Any trained recommender and any id it knows: the recommender succeeds, the nested body fails validation, and the client gets 500. | Return the recommender's response as it is, as the response model and test_api.py:80-85 expect. | not executed | Routes.SimilarRouteAsWritten, Routes.SimilarRouteAsWrittenNeverSucceeds | Routes.SimilarRoute, Routes.SimilarRouteAnswers |
