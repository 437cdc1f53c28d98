/** The product table the engine trains on: a pandas DataFrame restricted to the
    columns the engine reads, one `Row` per catalog line, in input order. */
module Catalog {
  import opened Wrappers

  /** The columns the engine looks at. A table may lack any of them. */
  datatype Column =
    | ProductId | Title | Description | Category
    | Price | Rating | ReviewsCount
    | SalesLast30Days | Stock | SellerRating | ShippingTimeDays

  /** One catalog line. `None` is a NaN cell (or a cell of a column the table
      lacks, which the engine never reads). Counts are kept as reals because a
      pandas column with a NaN in it holds floats. */
  datatype Row = Row(
    productId: int,
    title: Option<string>,
    description: Option<string>,
    category: Option<string>,
    price: Option<real>,
    rating: Option<real>,
    reviewsCount: Option<real>,
    salesLast30Days: Option<real>,
    stock: Option<real>,
    sellerRating: Option<real>,
    shippingTimeDays: Option<real>)

  datatype Table = Table(columns: set<Column>, rows: seq<Row>)

  /** The columns training insists on, in the order its check names them. */
  const Required: seq<Column> := [ProductId, Title, Category, Price, Rating, ReviewsCount]

  /** The optional numeric columns training scales when they are present, in that order. */
  const Additional: seq<Column> := [SalesLast30Days, Stock, SellerRating, ShippingTimeDays]

  predicate HasSchema(columns: set<Column>) {
    forall c :: c in Required ==> c in columns
  }

  /** The present columns among `cs`, in the order of `cs`. */
  function PresentAmong(cs: seq<Column>, columns: set<Column>): (r: seq<Column>)
    ensures forall c :: c in r <==> c in cs && c in columns
    ensures |r| <= |cs|
  {
    if |cs| == 0 then []
    else (if cs[0] in columns then [cs[0]] else []) + PresentAmong(cs[1..], columns)
  }

  /** Filtering a concatenation filters each part. */
  lemma {:induction false} PresentAmongAppend(a: seq<Column>, b: seq<Column>, columns: set<Column>)
    ensures PresentAmong(a + b, columns) == PresentAmong(a, columns) + PresentAmong(b, columns)
    decreases |a|
  {
    if |a| > 0 {
      assert (a + b)[1..] == a[1..] + b;
      PresentAmongAppend(a[1..], b, columns);
    } else {
      assert a + b == b;
    }
  }

  /** When every column of `cs` is present, nothing is filtered out. */
  lemma {:induction false} PresentAmongAll(cs: seq<Column>, columns: set<Column>)
    requires forall i :: 0 <= i < |cs| ==> cs[i] in columns
    ensures PresentAmong(cs, columns) == cs
    decreases |cs|
  {
    if |cs| > 0 {
      PresentAmongAll(cs[1..], columns);
    }
  }

  /** Filtering a list of distinct columns keeps them distinct. */
  lemma {:induction false} PresentAmongDistinct(cs: seq<Column>, columns: set<Column>)
    requires forall i, j :: 0 <= i < j < |cs| ==> cs[i] != cs[j]
    ensures forall i, j :: 0 <= i < j < |PresentAmong(cs, columns)|
              ==> PresentAmong(cs, columns)[i] != PresentAmong(cs, columns)[j]
    decreases |cs|
  {
    if |cs| > 0 {
      var tail := cs[1..];
      PresentAmongDistinct(tail, columns);
      var rest := PresentAmong(tail, columns);
      assert cs[0] !in tail by {
        forall i | 0 <= i < |tail| ensures tail[i] != cs[0] {
          assert tail[i] == cs[i + 1];
        }
      }
      assert cs[0] !in rest;
      var head := if cs[0] in columns then [cs[0]] else [];
      var r := head + rest;
      assert PresentAmong(cs, columns) == r;
      forall i, j | 0 <= i < j < |r| ensures r[i] != r[j] {
        assert r[j] == rest[j - |head|];
        if i >= |head| {
          var i', j' := i - |head|, j - |head|;
          assert r[i] == rest[i'] && 0 <= i' < j' < |rest|;
        } else {
          assert r[i] == cs[0] && r[j] in rest;
        }
      }
    }
  }

  /** The cell of a numeric column; text columns have no numeric cell. */
  function NumericCell(row: Row, c: Column): Option<real> {
    match c
    case Price => row.price
    case Rating => row.rating
    case ReviewsCount => row.reviewsCount
    case SalesLast30Days => row.salesLast30Days
    case Stock => row.stock
    case SellerRating => row.sellerRating
    case ShippingTimeDays => row.shippingTimeDays
    case _ => None
  }

  /** Python's `str()` of a text cell: a NaN prints as `nan`. */
  function StrOf(x: Option<string>): (r: string)
    ensures x.Some? ==> r == x.value
    ensures x.None? ==> r == "nan"
  {
    match x
    case Some(s) => s
    case None => "nan"
  }

  /** The `product_id` column, in row order. */
  function Ids(rows: seq<Row>): (ids: seq<int>)
    ensures |ids| == |rows|
    ensures forall i :: 0 <= i < |rows| ==> ids[i] == rows[i].productId
  {
    seq(|rows|, i requires 0 <= i < |rows| => rows[i].productId)
  }

  predicate DistinctIds(rows: seq<Row>) {
    forall i, j :: 0 <= i < j < |rows| ==> rows[i].productId != rows[j].productId
  }

  /** `df.loc[df['product_id'] == id].iloc[0]`: the position of the first row
      carrying `id`, or `None` when no row does (`iloc[0]` then raises). */
  function FirstRowWithId(rows: seq<Row>, id: int): (r: Option<nat>)
    ensures r.Some? ==> r.value < |rows| && rows[r.value].productId == id
    ensures r.Some? ==> forall k :: 0 <= k < r.value ==> rows[k].productId != id
    ensures r.None? ==> forall k :: 0 <= k < |rows| ==> rows[k].productId != id
  {
    if |rows| == 0 then None
    else if rows[0].productId == id then Some(0)
    else match FirstRowWithId(rows[1..], id)
      case None => None
      case Some(k) => Some(k + 1)
  }
}
