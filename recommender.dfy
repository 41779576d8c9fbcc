/**
 * Top-N recommendation over the similarity matrix, and the lookups that turn
 * ISBNs into titles and image URLs.
 *
 * `recommend_books` takes the queried ISBN's column of the matrix (a KeyError
 * when the ISBN is not in the index), sorts it by descending similarity,
 * drops the queried ISBN, keeps the first N and resolves each remaining ISBN
 * to the first book row carrying it (an IndexError when there is none).
 * `recommend_books_with_images` does the same with title and image URL.
 */
module Recommender {
  import opened Wrappers
  import opened Seqs
  import opened Records
  import opened Similarity

  /** The two exceptions a recommendation can raise. */
  datatype LookupError = KeyError(key: Isbn) | IndexError

  /** One entry of a similarity column: an ISBN and its similarity to the query. */
  datatype Scored = Scored(isbn: Isbn, score: real)

  /** What `recommend_books_with_images` returns per book. */
  datatype BookInfo = BookInfo(title: Option<string>, imageUrl: Option<string>)

  /** A matrix as the pipeline builds it: square, with each ISBN once in the index. */
  ghost predicate WellFormed(m: SimilarityMatrix)
  {
    Square(m) && Distinct(m.index)
  }

  /** Position of the first occurrence of `b` in `s`. */
  function IndexOf(s: seq<Isbn>, b: Isbn): (k: nat)
    requires b in s
    ensures k < |s| && s[k] == b
    ensures forall i :: 0 <= i < k ==> s[i] != b
  {
    if s[0] == b then 0 else 1 + IndexOf(s[1..], b)
  }

  /** In a distinct index, the position of the k-th ISBN is k. */
  lemma IndexOfDistinct(s: seq<Isbn>, k: nat)
    requires Distinct(s) && k < |s|
    ensures IndexOf(s, s[k]) == k
  {
  }

  /** The similarity of `b` to `q` as the matrix records it. */
  function Sim(m: SimilarityMatrix, b: Isbn, q: Isbn): real
    requires Square(m) && b in m.index && q in m.index
  {
    m.sim[IndexOf(m.index, b)][IndexOf(m.index, q)]
  }

  /** `similarity_matrix[q]`: the column of `q`, in index order, or a KeyError. */
  function Column(m: SimilarityMatrix, q: Isbn): (r: Result<seq<Scored>, LookupError>)
    requires Square(m)
    ensures r.Err? <==> q !in m.index
    ensures r.Err? ==> r.error == KeyError(q)
    ensures r.Ok? ==> |r.value| == |m.index| &&
                      forall k :: 0 <= k < |m.index| ==> r.value[k].isbn == m.index[k]
  {
    if q !in m.index then Err(KeyError(q))
    else
      var j := IndexOf(m.index, q);
      Ok(seq(|m.index|, k requires 0 <= k < |m.index| => Scored(m.index[k], m.sim[k][j])))
  }

  /** Each entry of a column carries its ISBN's similarity to the query. */
  lemma ColumnScores(m: SimilarityMatrix, q: Isbn)
    requires WellFormed(m) && q in m.index
    ensures forall x :: x in Column(m, q).value ==> x.isbn in m.index && x.score == Sim(m, x.isbn, q)
  {
    var col := Column(m, q).value;
    forall x | x in col
      ensures x.isbn in m.index && x.score == Sim(m, x.isbn, q)
    {
      var k :| 0 <= k < |col| && col[k] == x;
      IndexOfDistinct(m.index, k);
    }
  }

  predicate Descending(s: seq<Scored>)
  {
    forall i, j :: 0 <= i < j < |s| ==> s[i].score >= s[j].score
  }

  function InsertDescending(x: Scored, s: seq<Scored>): (r: seq<Scored>)
    requires Descending(s)
    ensures Descending(r)
    ensures forall y :: y in r <==> y == x || y in s
    ensures multiset(r) == multiset(s) + multiset{x}
  {
    if s == [] || x.score >= s[0].score then [x] + s
    else
      var rest := InsertDescending(x, s[1..]);
      assert s == [s[0]] + s[1..];
      DescendingHead(s);
      ConsDescending(s[0], rest);
      [s[0]] + rest
  }

  /** The head of a descending sequence scores at least every element. */
  lemma DescendingHead(s: seq<Scored>)
    requires Descending(s) && s != []
    ensures forall y :: y in s ==> y.score <= s[0].score
  {
    forall y | y in s ensures y.score <= s[0].score {
      var k :| 0 <= k < |s| && s[k] == y;
    }
  }

  /** Prepending an entry that scores at least every element keeps a sequence descending. */
  lemma ConsDescending(h: Scored, s: seq<Scored>)
    requires Descending(s) && forall y :: y in s ==> y.score <= h.score
    ensures Descending([h] + s)
  {
    var r := [h] + s;
    forall i, j | 0 <= i < j < |r| ensures r[i].score >= r[j].score {
      assert r[j] == s[j - 1] && s[j - 1] in s;
      if i > 0 {
        assert r[i] == s[i - 1];
      }
    }
  }

  /**
   * `sort_values(ascending=False)`: a descending permutation. pandas does not
   * fix the order of ties; this insertion sort is one admissible order, and
   * the properties below hold for any descending permutation.
   */
  function SortDescending(s: seq<Scored>): (r: seq<Scored>)
    ensures Descending(r)
    ensures multiset(r) == multiset(s)
  {
    if s == [] then []
    else
      assert s == [s[0]] + s[1..];
      InsertDescending(s[0], SortDescending(s[1..]))
  }

  /** The mask `similar_books.index != q`. */
  function NotQuery(q: Isbn): Scored -> bool
  {
    (x: Scored) => x.isbn != q
  }

  /** Drop the query, then take the first `n` (pandas' `head`, negative `n` included). */
  function TopN(sorted: seq<Scored>, q: Isbn, n: int): (r: seq<Scored>)
    ensures forall x :: x in r ==> x in sorted && x.isbn != q
    ensures Descending(sorted) ==> Descending(r)
  {
    var f := Filter(sorted, NotQuery(q));
    assert Descending(sorted) ==> Descending(f) by {
      if Descending(sorted) {
        FilterDescending(sorted, NotQuery(q));
      }
    }
    var r := Head(f, n);
    assert forall x :: x in r ==> x in f by {
      forall x | x in r ensures x in f {
        var i :| 0 <= i < |r| && r[i] == x;
        assert f[i] == x;
      }
    }
    r
  }

  function Isbns(s: seq<Scored>): (r: seq<Isbn>)
    ensures |r| == |s| && forall i :: 0 <= i < |s| ==> r[i] == s[i].isbn
  {
    seq(|s|, i requires 0 <= i < |s| => s[i].isbn)
  }

  /** The ISBN list `recommend_books` resolves: the top `n` of `q`'s column, `q` excluded. */
  function TopSimilar(m: SimilarityMatrix, q: Isbn, n: int): (r: Result<seq<Isbn>, LookupError>)
    requires Square(m)
    ensures r.Err? <==> q !in m.index
    ensures r.Err? ==> r.error == KeyError(q)
  {
    match Column(m, q)
    case Err(e) => Err(e)
    case Ok(col) => Ok(Isbns(TopN(SortDescending(col), q, n)))
  }

  /** Filtering keeps a sequence descending. */
  lemma {:induction false} FilterDescending(s: seq<Scored>, p: Scored -> bool)
    requires Descending(s)
    ensures Descending(Filter(s, p))
  {
    if s != [] {
      FilterDescending(s[1..], p);
      var rest := Filter(s[1..], p);
      if p(s[0]) {
        var r := Filter(s, p);
        assert r == [s[0]] + rest;
        forall i, j | 0 <= i < j < |r| ensures r[i].score >= r[j].score {
          if i == 0 {
            assert r[j] == rest[j - 1] && rest[j - 1] in s[1..];
          }
        }
      }
    }
  }

  /** The entries kept by the top-N selection come from the column. */
  lemma TopInColumn(m: SimilarityMatrix, q: Isbn, n: int)
    requires Square(m) && q in m.index
    ensures forall x :: x in TopN(SortDescending(Column(m, q).value), q, n) ==> x in Column(m, q).value && x.isbn != q
  {
    var col := Column(m, q).value;
    var sorted := SortDescending(col);
    var f := Filter(sorted, NotQuery(q));
    forall x | x in TopN(sorted, q, n)
      ensures x in col && x.isbn != q
    {
      assert x in f;
      assert x in multiset(col);
    }
  }

  /** Every recommended ISBN is in the index and none is the query. */
  lemma TopSimilarExcludesQuery(m: SimilarityMatrix, q: Isbn, n: int)
    requires WellFormed(m) && q in m.index
    ensures q !in TopSimilar(m, q, n).value
    ensures forall b :: b in TopSimilar(m, q, n).value ==> b in m.index
  {
    var col := Column(m, q).value;
    var sorted := SortDescending(col);
    var f := Filter(sorted, NotQuery(q));
    var top := TopN(sorted, q, n);
    var r := TopSimilar(m, q, n).value;
    TopInColumn(m, q, n);
    ColumnScores(m, q);
    forall b | b in r
      ensures b != q && b in m.index
    {
      var i :| 0 <= i < |r| && r[i] == b;
      assert top[i] in top;
    }
  }

  /** `min(n, size - 1)` results for `n >= 0`; pandas' `head(n)` for negative `n`. */
  lemma TopSimilarLength(m: SimilarityMatrix, q: Isbn, n: int)
    requires WellFormed(m) && q in m.index
    ensures n >= 0 ==> |TopSimilar(m, q, n).value| == if n <= |m.index| - 1 then n else |m.index| - 1
    ensures n < 0 ==> |TopSimilar(m, q, n).value| == if |m.index| - 1 + n >= 0 then |m.index| - 1 + n else 0
  {
    var col := Column(m, q).value;
    var k := IndexOf(m.index, q);
    forall i | 0 <= i < |col| && i != k
      ensures NotQuery(q)(col[i])
    {
      assert col[i].isbn == m.index[i];
    }
    FilterDropsOne(col, NotQuery(q), k);
    FilterCountPermutation(SortDescending(col), col, NotQuery(q));
  }

  /** Similarity to the query does not increase along the result. */
  lemma TopSimilarDescending(m: SimilarityMatrix, q: Isbn, n: int)
    requires WellFormed(m) && q in m.index
    ensures var r := TopSimilar(m, q, n).value;
      forall i, j :: 0 <= i < j < |r| ==> r[i] in m.index && r[j] in m.index && Sim(m, r[i], q) >= Sim(m, r[j], q)
  {
    var col := Column(m, q).value;
    var sorted := SortDescending(col);
    var f := Filter(sorted, NotQuery(q));
    var top := TopN(sorted, q, n);
    FilterDescending(sorted, NotQuery(q));
    TopInColumn(m, q, n);
    ColumnScores(m, q);
    forall i | 0 <= i < |top|
      ensures top[i].isbn in m.index && top[i].score == Sim(m, top[i].isbn, q)
    {
      assert top[i] in top;
    }
  }

  /** A column lists each entry once, its ISBNs being the distinct index. */
  lemma ColumnOnce(m: SimilarityMatrix, q: Isbn)
    requires WellFormed(m) && q in m.index
    ensures forall x :: multiset(Column(m, q).value)[x] <= 1
  {
    var col := Column(m, q).value;
    forall i, j | 0 <= i < |col| && 0 <= j < |col| && i != j
      ensures col[i] != col[j]
    {
      assert col[i].isbn == m.index[i] && col[j].isbn == m.index[j];
    }
    DistinctOnce(col);
  }

  /** The selection keeps each entry of a repeat-free column at most once. */
  lemma TopNOnce(col: seq<Scored>, q: Isbn, n: int)
    requires forall x :: multiset(col)[x] <= 1
    ensures forall x :: multiset(TopN(SortDescending(col), q, n))[x] <= 1
  {
    var f := Filter(SortDescending(col), NotQuery(q));
    FilterMultiset(SortDescending(col), NotQuery(q));
    PrefixMultiset(f, |Head(f, n)|);
  }

  /** Each ISBN is recommended at most once. */
  lemma TopSimilarDistinct(m: SimilarityMatrix, q: Isbn, n: int)
    requires WellFormed(m) && q in m.index
    ensures Distinct(TopSimilar(m, q, n).value)
  {
    var col := Column(m, q).value;
    var top := TopN(SortDescending(col), q, n);
    var r := TopSimilar(m, q, n).value;
    ColumnOnce(m, q);
    TopNOnce(col, q, n);
    TopInColumn(m, q, n);
    ColumnScores(m, q);
    forall i, j | 0 <= i < |r| && 0 <= j < |r| && i != j
      ensures r[i] != r[j]
    {
      OnceAtOnePosition(top, i, j);
      assert top[i] in top && top[j] in top;
    }
  }

  /** In a descending sequence, an entry of a prefix scores at least any entry past it. */
  lemma PrefixDominates(f: seq<Scored>, top: seq<Scored>, x: Scored, y: Scored)
    requires Descending(f) && |top| <= |f| && top == f[..|top|]
    requires x in top && y in f && y !in top
    ensures x.score >= y.score
  {
    var i :| 0 <= i < |top| && top[i] == x;
    var k :| 0 <= k < |f| && f[k] == y;
    assert forall j :: 0 <= j < |top| ==> top[j] == f[j];
    assert k >= |top|;
    assert f[i] == x;
  }

  /** An entry of the column that the selection leaves out scores at most any kept entry. */
  lemma TopNDominates(col: seq<Scored>, q: Isbn, n: int, x: Scored, y: Scored)
    requires y in col && y.isbn != q
    requires x in TopN(SortDescending(col), q, n) && y !in TopN(SortDescending(col), q, n)
    ensures x.score >= y.score
  {
    var sorted := SortDescending(col);
    var f := Filter(sorted, NotQuery(q));
    FilterDescending(sorted, NotQuery(q));
    assert y in multiset(sorted);
    PrefixDominates(f, TopN(sorted, q, n), x, y);
  }

  /** No ISBN left out (other than the query) is more similar than a returned one. */
  lemma TopSimilarIsTopN(m: SimilarityMatrix, q: Isbn, n: int)
    requires WellFormed(m) && q in m.index
    ensures var r := TopSimilar(m, q, n).value;
      forall b, x :: b in m.index && b != q && b !in r && x in r ==>
        x in m.index && Sim(m, x, q) >= Sim(m, b, q)
  {
    var col := Column(m, q).value;
    var top := TopN(SortDescending(col), q, n);
    var r := TopSimilar(m, q, n).value;
    TopInColumn(m, q, n);
    ColumnScores(m, q);
    forall b, x | b in m.index && b != q && b !in r && x in r
      ensures x in m.index && Sim(m, x, q) >= Sim(m, b, q)
    {
      var y := col[IndexOf(m.index, b)];
      assert y in col && y.isbn == b;
      assert forall k :: 0 <= k < |top| ==> r[k] == top[k].isbn;
      assert y !in top;
      var i :| 0 <= i < |r| && r[i] == x;
      assert top[i] in top;
      TopNDominates(col, q, n, top[i], y);
    }
  }

  /** A book table has a row for `b`. */
  predicate HasRow(books: seq<Book>, b: Isbn)
  {
    exists i :: 0 <= i < |books| && books[i].isbn == b
  }

  /** `books_df.loc[books_df['isbn'] == b].iloc[0]`: the first row for `b`, if any. */
  function FirstRow(books: seq<Book>, b: Isbn): (r: Option<nat>)
    ensures r.None? <==> !HasRow(books, b)
    ensures r.Some? ==> r.value < |books| && books[r.value].isbn == b &&
                        forall i :: 0 <= i < r.value ==> books[i].isbn != b
  {
    if books == [] then None
    else if books[0].isbn == b then Some(0)
    else match FirstRow(books[1..], b)
      case None =>
        assert forall i :: 1 <= i < |books| ==> books[i] == books[1..][i - 1];
        None
      case Some(k) => Some(k + 1)
  }

  /** `get_book_title`: the title of the first row for `b`, or an IndexError. */
  function BookTitle(books: seq<Book>, b: Isbn): (r: Result<Option<string>, LookupError>)
    ensures r.Err? <==> !HasRow(books, b)
    ensures r.Err? ==> r.error == IndexError
    ensures r.Ok? ==> r.value == books[FirstRow(books, b).value].title
  {
    match FirstRow(books, b)
    case None => Err(IndexError)
    case Some(i) => Ok(books[i].title)
  }

  /** `get_book_info`: title and image URL of the first row for `b`, or an IndexError. */
  function BookInfoOf(books: seq<Book>, b: Isbn): (r: Result<BookInfo, LookupError>)
    ensures r.Err? <==> !HasRow(books, b)
    ensures r.Err? ==> r.error == IndexError
    ensures r.Ok? ==> var row := books[FirstRow(books, b).value];
      r.value == BookInfo(row.title, row.imageUrl)
  {
    match FirstRow(books, b)
    case None => Err(IndexError)
    case Some(i) => Ok(BookInfo(books[i].title, books[i].imageUrl))
  }

  /**
   * A list comprehension of lookups: every result, in order, or the error of
   * the first lookup that raises.
   */
  function LookupAll<V>(keys: seq<Isbn>, lookup: Isbn -> Result<V, LookupError>): (r: Result<seq<V>, LookupError>)
    ensures r.Ok? <==> forall i :: 0 <= i < |keys| ==> lookup(keys[i]).Ok?
    ensures r.Ok? ==> |r.value| == |keys| && forall i :: 0 <= i < |keys| ==> r.value[i] == lookup(keys[i]).value
    ensures r.Err? ==> exists i :: 0 <= i < |keys| && lookup(keys[i]) == Err(r.error) &&
                                   forall j :: 0 <= j < i ==> lookup(keys[j]).Ok?
  {
    if keys == [] then Ok([])
    else match lookup(keys[0])
      case Err(e) => Err(e)
      case Ok(v) =>
        match LookupAll(keys[1..], lookup)
        case Err(e) =>
          var i :| 0 <= i < |keys[1..]| && lookup(keys[1..][i]) == Err(e) &&
            forall j :: 0 <= j < i ==> lookup(keys[1..][j]).Ok?;
          assert lookup(keys[i + 1]) == Err(e);
          Err(e)
        case Ok(vs) =>
          assert forall i :: 1 <= i < |keys| ==> keys[i] == keys[1..][i - 1];
          Ok([v] + vs)
  }

  function TitleLookup(books: seq<Book>): Isbn -> Result<Option<string>, LookupError>
  {
    (b: Isbn) => BookTitle(books, b)
  }

  function InfoLookup(books: seq<Book>): Isbn -> Result<BookInfo, LookupError>
  {
    (b: Isbn) => BookInfoOf(books, b)
  }

  /**
   * `recommend_books(q, m, books, n)`: a KeyError for an ISBN outside the
   * matrix, an IndexError when a recommended ISBN has no book row, and
   * otherwise the titles of the recommended ISBNs, in order.
   */
  function RecommendBooks(q: Isbn, m: SimilarityMatrix, books: seq<Book>, n: int): (r: Result<seq<Option<string>>, LookupError>)
    requires Square(m)
    ensures q !in m.index ==> r == Err(KeyError(q))
    ensures q in m.index ==> var top := TopSimilar(m, q, n).value;
      (r.Ok? <==> forall b :: b in top ==> HasRow(books, b)) &&
      (r.Err? ==> r.error == IndexError) &&
      (r.Ok? ==> |r.value| == |top| &&
                 forall i :: 0 <= i < |top| ==> r.value[i] == books[FirstRow(books, top[i]).value].title)
  {
    match TopSimilar(m, q, n)
    case Err(e) => Err(e)
    case Ok(top) => LookupAll(top, TitleLookup(books))
  }

  /** `recommend_books_with_images`: as `RecommendBooks`, with title and image URL. */
  function RecommendBooksWithImages(q: Isbn, m: SimilarityMatrix, books: seq<Book>, n: int): (r: Result<seq<BookInfo>, LookupError>)
    requires Square(m)
    ensures q !in m.index ==> r == Err(KeyError(q))
    ensures q in m.index ==> var top := TopSimilar(m, q, n).value;
      (r.Ok? <==> forall b :: b in top ==> HasRow(books, b)) &&
      (r.Err? ==> r.error == IndexError) &&
      (r.Ok? ==> |r.value| == |top| &&
                 forall i :: 0 <= i < |top| ==>
                   var row := books[FirstRow(books, top[i]).value];
                   r.value[i] == BookInfo(row.title, row.imageUrl))
  {
    match TopSimilar(m, q, n)
    case Err(e) => Err(e)
    case Ok(top) => LookupAll(top, InfoLookup(books))
  }

  /** The mask `books_df['isbn'].isin(valid_isbns)`. */
  function InIndex(index: seq<Isbn>): Book -> bool
  {
    (x: Book) => x.isbn in index
  }

  /** `books_df_filtered`: the book rows whose ISBN is in the matrix, in order. */
  function RowsInIndex(books: seq<Book>, index: seq<Isbn>): (r: seq<Book>)
    ensures forall x :: x in r <==> x in books && x.isbn in index
    ensures forall x: Book :: x.isbn in index ==> multiset(r)[x] == multiset(books)[x]
    ensures IsSubsequence(r, books)
  {
    FilterMultiset(books, InIndex(index));
    FilterIsSubsequence(books, InIndex(index));
    Filter(books, InIndex(index))
  }

  /** No row after row `i` has the same title. */
  predicate LastWithTitle(rows: seq<Book>, i: nat)
    requires i < |rows|
  {
    forall j :: i < j < |rows| ==> rows[j].title != rows[i].title
  }

  /**
   * `books_df_filtered.set_index('Book-Title')['isbn'].to_dict()`: every
   * title of the rows is a key, and a title maps to the ISBN of the last row
   * carrying it.
   */
  function TitleToIsbn(rows: seq<Book>): (d: map<Option<string>, Isbn>)
    ensures forall i :: 0 <= i < |rows| ==> rows[i].title in d
    ensures forall t :: t in d ==> exists i :: 0 <= i < |rows| && rows[i].title == t && d[t] == rows[i].isbn
  {
    if rows == [] then map[]
    else
      var init := rows[..|rows| - 1];
      var last := rows[|rows| - 1];
      var d := TitleToIsbn(init);
      assert forall i :: 0 <= i < |init| ==> rows[i] == init[i];
      d[last.title := last.isbn]
  }

  /** For a repeated title, the last row carrying it wins. */
  lemma {:induction false} TitleToIsbnLastWins(rows: seq<Book>, i: nat)
    requires i < |rows| && LastWithTitle(rows, i)
    ensures TitleToIsbn(rows)[rows[i].title] == rows[i].isbn
  {
    var init := rows[..|rows| - 1];
    if i < |init| {
      assert rows[i] == init[i];
      assert LastWithTitle(init, i);
      TitleToIsbnLastWins(init, i);
    }
  }

  /**
   * In the app, a title chosen from the filtered rows resolves to a matrix
   * ISBN, its info lookup succeeds, and its recommendations raise nothing,
   * provided every matrix ISBN has a book row.
   */
  lemma AppLookupsSucceed(books: seq<Book>, m: SimilarityMatrix, t: Option<string>, n: int)
    requires WellFormed(m)
    requires forall b :: b in m.index ==> HasRow(books, b)
    requires t in TitleToIsbn(RowsInIndex(books, m.index))
    ensures var rows := RowsInIndex(books, m.index);
      var q := TitleToIsbn(rows)[t];
      q in m.index && BookInfoOf(rows, q).Ok? && RecommendBooksWithImages(q, m, rows, n).Ok?
  {
    var rows := RowsInIndex(books, m.index);
    var d := TitleToIsbn(rows);
    var q := d[t];
    var i :| 0 <= i < |rows| && rows[i].title == t && q == rows[i].isbn;
    assert rows[i] in rows;
    TopSimilarExcludesQuery(m, q, n);
    forall b | b in TopSimilar(m, q, n).value
      ensures HasRow(rows, b)
    {
      var k :| 0 <= k < |books| && books[k].isbn == b;
      assert books[k] in rows;
    }
  }
}
