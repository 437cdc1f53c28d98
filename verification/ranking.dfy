/** Ranking one row of the similarity matrix. The recommender sorts
    `enumerate(row)` by score with Python's stable `sorted(..., reverse=True)`,
    so equal scores keep their ascending row order. That is the sort by the
    strict order `Before` (higher score first, then lower position), and a
    sequence sorted by it is unique: `RankedPermutationUnique`. */
module Ranking {
  import opened Slicing

  /** One entry of `enumerate(row)`: a row position and its score. */
  datatype Scored = Scored(index: nat, score: real)

  /** `a` comes before `b` in the ranking. */
  predicate Before(a: Scored, b: Scored) {
    a.score > b.score || (a.score == b.score && a.index < b.index)
  }

  /** Every entry comes before every later entry. */
  predicate Ranked(s: seq<Scored>) {
    forall i, j :: 0 <= i < j < |s| ==> Before(s[i], s[j])
  }

  predicate DistinctIndices(s: seq<Scored>) {
    forall i, j :: 0 <= i < j < |s| ==> s[i].index != s[j].index
  }

  /** `enumerate(row)`. */
  function Enumerate(row: seq<real>): (e: seq<Scored>)
    ensures |e| == |row|
    ensures forall i :: 0 <= i < |row| ==> e[i] == Scored(i, row[i])
  {
    seq(|row|, i requires 0 <= i < |row| => Scored(i, row[i]))
  }

  /** Any two entries at different positions are ordered one way or the other. */
  lemma BeforeTotal(a: Scored, b: Scored)
    requires a.index != b.index
    ensures Before(a, b) || Before(b, a)
  {
  }

  /** Inserts `x` at its place in a ranked sequence. */
  function Insert(x: Scored, s: seq<Scored>): (r: seq<Scored>)
    requires Ranked(s)
    requires forall k :: 0 <= k < |s| ==> s[k].index != x.index
    ensures |r| == |s| + 1
    ensures multiset(r) == multiset(s) + multiset{x}
    ensures Ranked(r)
  {
    if |s| == 0 then [x]
    else if Before(x, s[0]) then
      FirstBeforeAll(x, s);
      PrependRanked(x, s);
      [x] + s
    else
      BeforeTotal(x, s[0]);
      HeadBeforeTail(s);
      RankedTail(s);
      var rest := Insert(x, s[1..]);
      PrependRanked(s[0], rest);
      HeadAndTail(s);
      [s[0]] + rest
  }

  lemma RankedTail(s: seq<Scored>)
    requires Ranked(s) && |s| > 0
    ensures Ranked(s[1..])
  {
    forall i, j | 0 <= i < j < |s| - 1
      ensures Before(s[1..][i], s[1..][j])
    {
      assert s[1..][i] == s[i + 1] && s[1..][j] == s[j + 1];
    }
  }

  /** A non-empty sequence is its head followed by its tail, as a multiset too. */
  lemma HeadAndTail<T>(s: seq<T>)
    requires |s| > 0
    ensures s == [s[0]] + s[1..]
    ensures multiset(s) == multiset{s[0]} + multiset(s[1..])
    ensures multiset(s[1..]) == multiset(s) - multiset{s[0]}
  {
    assert s == [s[0]] + s[1..];
  }

  /** An entry that comes before every element of a ranking can lead it. */
  lemma PrependRanked(y: Scored, t: seq<Scored>)
    requires Ranked(t)
    requires forall e :: e in multiset(t) ==> Before(y, e)
    ensures Ranked([y] + t)
  {
    forall j | 0 <= j < |t|
      ensures Before(y, t[j])
    {
      assert t[j] in multiset(t);
    }
  }

  /** What comes before the head of a ranking comes before all of it. */
  lemma FirstBeforeAll(x: Scored, s: seq<Scored>)
    requires Ranked(s) && |s| > 0 && Before(x, s[0])
    ensures forall e :: e in multiset(s) ==> Before(x, e)
  {
    forall e | e in multiset(s)
      ensures Before(x, e)
    {
      var k :| 0 <= k < |s| && s[k] == e;
      if k > 0 {
        assert Before(s[0], s[k]);
      }
    }
  }

  /** The head of a ranking comes before every element of its tail. */
  lemma HeadBeforeTail(s: seq<Scored>)
    requires Ranked(s) && |s| > 0
    ensures forall e :: e in multiset(s[1..]) ==> Before(s[0], e)
  {
    forall e | e in multiset(s[1..])
      ensures Before(s[0], e)
    {
      var k :| 0 <= k < |s[1..]| && s[1..][k] == e;
      assert s[k + 1] == e;
    }
  }

  /** Insertion sort by `Before`. */
  function Sort(s: seq<Scored>): (r: seq<Scored>)
    requires DistinctIndices(s)
    ensures |r| == |s|
    ensures multiset(r) == multiset(s)
    ensures Ranked(r)
  {
    if |s| == 0 then []
    else
      var rest := Sort(s[1..]);
      HeadIndexFresh(s, rest);
      HeadAndTail(s);
      Insert(s[0], rest)
  }

  /** With distinct positions, the head's position is not among the tail's,
      in whatever order the tail is arranged. */
  lemma HeadIndexFresh(s: seq<Scored>, t: seq<Scored>)
    requires DistinctIndices(s) && |s| > 0 && multiset(t) == multiset(s[1..])
    ensures forall k :: 0 <= k < |t| ==> t[k].index != s[0].index
  {
    forall k | 0 <= k < |t|
      ensures t[k].index != s[0].index
    {
      assert t[k] in multiset(s[1..]);
      var m :| 0 <= m < |s[1..]| && s[1..][m] == t[k];
      assert s[m + 1] == t[k];
    }
  }

  /** `sorted(enumerate(row), key=lambda x: x[1], reverse=True)`. */
  function Rank(row: seq<real>): (r: seq<Scored>)
    ensures |r| == |row|
    ensures multiset(r) == multiset(Enumerate(row))
    ensures Ranked(r)
  {
    Sort(Enumerate(row))
  }

  /** Each ranked entry is an entry of the row: a valid position with its own
      score, and the positions are all different. */
  lemma RankEntries(row: seq<real>)
    ensures forall k :: 0 <= k < |row| ==>
      Rank(row)[k].index < |row| && Rank(row)[k].score == row[Rank(row)[k].index]
    ensures DistinctIndices(Rank(row))
  {
    var r := Rank(row);
    var e := Enumerate(row);
    forall k | 0 <= k < |r|
      ensures r[k].index < |row| && r[k].score == row[r[k].index]
    {
      assert r[k] in multiset(e);
      var i :| 0 <= i < |e| && e[i] == r[k];
    }
    forall i, j | 0 <= i < j < |r|
      ensures r[i].index != r[j].index
    {
      assert Before(r[i], r[j]);
    }
  }

  /** Every position of the row appears in the ranking. */
  lemma RankCoversRow(row: seq<real>, i: nat)
    requires i < |row|
    ensures exists k :: 0 <= k < |row| && Rank(row)[k] == Scored(i, row[i])
  {
    var e := Enumerate(row);
    assert e[i] in multiset(e);
    assert Scored(i, row[i]) in multiset(Rank(row));
  }

  /** A ranked sequence is determined by its elements: any stable descending
      sort of the row gives exactly `Rank(row)`. */
  lemma {:induction false} RankedPermutationUnique(a: seq<Scored>, b: seq<Scored>)
    requires Ranked(a) && Ranked(b)
    requires multiset(a) == multiset(b)
    ensures a == b
    decreases |a|
  {
    assert |a| == |multiset(a)| == |multiset(b)| == |b|;
    if |a| > 0 {
      HeadsAgree(a, b);
      HeadAndTail(a);
      HeadAndTail(b);
      RankedTail(a);
      RankedTail(b);
      RankedPermutationUnique(a[1..], b[1..]);
    }
  }

  /** Two rankings of the same elements start with the same entry. */
  lemma HeadsAgree(a: seq<Scored>, b: seq<Scored>)
    requires Ranked(a) && Ranked(b) && multiset(a) == multiset(b) && |a| > 0 && |b| > 0
    ensures a[0] == b[0]
  {
    assert a[0] in multiset(b);
    assert b[0] in multiset(a);
    HeadComesFirst(b, a[0]);
    HeadComesFirst(a, b[0]);
  }

  /** The head of a ranking comes before each of its other elements. */
  lemma HeadComesFirst(s: seq<Scored>, x: Scored)
    requires Ranked(s) && x in multiset(s)
    ensures s[0] == x || Before(s[0], x)
  {
    var i :| 0 <= i < |s| && s[i] == x;
  }

  /** Scores never increase along a ranking. */
  lemma RankedScoresNonIncreasing(s: seq<Scored>, i: int, j: int)
    requires Ranked(s) && 0 <= i <= j < |s|
    ensures s[i].score >= s[j].score
  {
    if i < j {
      assert Before(s[i], s[j]);
    }
  }

  /** When a row's entry at `idx` is strictly above every other entry of the row,
      the ranking starts with `idx`. */
  lemma {:induction false} DominantEntryRanksFirst(row: seq<real>, idx: nat)
    requires idx < |row|
    requires forall j :: 0 <= j < |row| && j != idx ==> row[j] < row[idx]
    ensures Rank(row)[0].index == idx
  {
    RankCoversRow(row, idx);
    RankEntries(row);
    var r := Rank(row);
    var k :| 0 <= k < |row| && r[k] == Scored(idx, row[idx]);
  }

  /** `ranked[1:n+1]`: Python's slice, which drops the first entry and clamps
      to the sequence; a negative `n` counts the stop from the end. */
  function Window(s: seq<Scored>, n: int): (w: seq<Scored>)
    ensures n >= 0 && |s| == 0 ==> |w| == 0
    ensures n >= 0 && |s| > 0 ==> |w| == if n < |s| - 1 then n else |s| - 1
    ensures n == -1 ==> |w| == 0
    ensures n <= -2 ==> |w| == if |s| + n > 0 then |s| + n else 0
    ensures forall k :: 0 <= k < |w| ==> w[k] == s[k + 1]
  {
    Slice(s, 1, n + 1)
  }

  /** The window of a ranking lists its scores in non-increasing order. */
  lemma WindowScoresNonIncreasing(s: seq<Scored>, n: int)
    requires Ranked(s)
    ensures var w := Window(s, n);
            forall i, j :: 0 <= i < j < |w| ==> w[i].score >= w[j].score
  {
    var w := Window(s, n);
    forall i, j | 0 <= i < j < |w|
      ensures w[i].score >= w[j].score
    {
      RankedScoresNonIncreasing(s, i + 1, j + 1);
    }
  }
}
