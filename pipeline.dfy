/**
 * The script end to end: clean the three tables, apply the support filter
 * with threshold 50, pivot, and build the similarity matrix the
 * recommendation functions read. The current year and the square root are
 * parameters.
 */
module Pipeline {
  import opened Wrappers
  import opened Seqs
  import opened Keys
  import opened Records
  import opened Cleaning
  import opened Support
  import opened Pivoting
  import opened Similarity
  import opened Recommender

  /** The ratings that feed the pivot, from the raw tables. */
  function FilteredRatingsOf(books: seq<Book>, ratings: seq<Rating>, currentYear: int): seq<Rating>
  {
    SupportFiltered(CleanedRatings(ratings, CleanBooks(NormalisedYears(books, currentYear))), MinSupport)
  }

  /** The similarity matrix the script builds from the raw tables. */
  function MatrixOf(books: seq<Book>, ratings: seq<Rating>, currentYear: int, sqrt: real -> real): SimilarityMatrix
  {
    BuildSimilarity(BuildPivot(FilteredRatingsOf(books, ratings, currentYear)), sqrt)
  }

  /**
   * The script's statements in order: the year and age columns are
   * overwritten in place, the books are cleaned, the ratings are cleaned and
   * support-filtered, and the pivot and similarity matrix are built.
   */
  method BuildRecommender(books: array<Book>, users: array<User>, ratings: seq<Rating>,
                          currentYear: int, sqrt: real -> real)
    returns (cleanedBooks: seq<Book>, cleanedRatings: seq<Rating>, filtered: seq<Rating>,
             pivot: PivotTable, matrix: SimilarityMatrix)
    modifies books, users
    ensures books[..] == NormalisedYears(old(books[..]), currentYear)
    ensures forall i :: 0 <= i < users.Length ==>
      users[i] == old(users[i]).(age := NormalisedAge(old(users[i]).age))
    ensures cleanedBooks == CleanBooks(books[..])
    ensures cleanedRatings == CleanedRatings(ratings, cleanedBooks)
    ensures filtered == FilteredRatingsOf(old(books[..]), ratings, currentYear)
    ensures pivot == BuildPivot(filtered)
    ensures matrix == MatrixOf(old(books[..]), ratings, currentYear, sqrt)
  {
    NormaliseYears(books, currentYear);
    cleanedBooks := CleanBooks(books[..]);
    NormaliseAges(users);
    cleanedRatings := CleanRatings(ratings, cleanedBooks);
    filtered := SupportFilter(cleanedRatings, MinSupport);
    pivot := BuildPivot(filtered);
    matrix := BuildSimilarity(pivot, sqrt);
  }

  /** The matrix's index is the pivot's sorted ISBN list, so it is well formed for the recommender. */
  lemma MatrixWellFormed(books: seq<Book>, ratings: seq<Rating>, currentYear: int, sqrt: real -> real)
    ensures var m := MatrixOf(books, ratings, currentYear, sqrt);
      WellFormed(m) && StrictlyIncreasing(m.index, StrLess)
  {
    var p := BuildPivot(FilteredRatingsOf(books, ratings, currentYear));
    StrLessIsStrictTotal();
    IncreasingIsDistinct(p.rows, StrLess);
  }

  /**
   * Every ISBN of the matrix is a cleaned book with at least 50 ratings from
   * active users, and it has a row both in the cleaned books and in the
   * year-normalised books table the app filters.
   */
  lemma MatrixIsbnsAreCleanAndSupported(books: seq<Book>, ratings: seq<Rating>, currentYear: int, sqrt: real -> real, b: Isbn)
    requires b in MatrixOf(books, ratings, currentYear, sqrt).index
    ensures HasRow(CleanBooks(NormalisedYears(books, currentYear)), b)
    ensures HasRow(NormalisedYears(books, currentYear), b)
    ensures var cleaned := CleanedRatings(ratings, CleanBooks(NormalisedYears(books, currentYear)));
      IsbnCount(ActiveUserRatings(cleaned, MinSupport), b) >= MinSupport
  {
    var normalised := NormalisedYears(books, currentYear);
    var cleanBooks := CleanBooks(normalised);
    var cleaned := CleanedRatings(ratings, cleanBooks);
    var filtered := FilteredRatingsOf(books, ratings, currentYear);
    var x :| x in filtered && x.isbn == b;
    assert x in cleaned;
    var book :| book in cleanBooks && book.isbn == b;
    var i :| 0 <= i < |cleanBooks| && cleanBooks[i] == book;
    assert book in normalised;
    var k :| 0 <= k < |normalised| && normalised[k] == book;
    assert b in IsbnsIn(filtered);
    FilteredBooksKeepSupport(cleaned, MinSupport, b);
  }

  /** With a non-negative square root every similarity is non-negative, ratings being on 0..10. */
  lemma MatrixNonNegative(books: seq<Book>, ratings: seq<Rating>, currentYear: int, sqrt: real -> real, i: nat, j: nat)
    requires forall x :: 0.0 <= x ==> 0.0 <= sqrt(x)
    requires i < |MatrixOf(books, ratings, currentYear, sqrt).index|
    requires j < |MatrixOf(books, ratings, currentYear, sqrt).index|
    ensures MatrixOf(books, ratings, currentYear, sqrt).sim[i][j] >= 0.0
  {
    var filtered := FilteredRatingsOf(books, ratings, currentYear);
    var cleaned := CleanedRatings(ratings, CleanBooks(NormalisedYears(books, currentYear)));
    var p := BuildPivot(filtered);
    forall x | x in filtered
      ensures MinRating <= x.value <= MaxRating
    {
      assert x in cleaned;
    }
    forall k | 0 <= k < |p.cols|
      ensures p.cells[i][k] >= 0.0 && p.cells[j][k] >= 0.0
    {
      CellWithinScale(filtered, p.rows[i], p.cols[k], MinRating, MaxRating);
      CellWithinScale(filtered, p.rows[j], p.cols[k], MinRating, MaxRating);
    }
    SimilarityNonNegative(p, sqrt, i, j);
  }

  /**
   * The script's own call `recommend_books(q, similarity_matrix,
   * books_df_cleaned)` raises nothing for an ISBN of the matrix: no KeyError,
   * and no IndexError since every recommended ISBN has a cleaned book row.
   */
  lemma ScriptRecommendationSucceeds(books: seq<Book>, ratings: seq<Rating>, currentYear: int, sqrt: real -> real, q: Isbn, n: int)
    requires q in MatrixOf(books, ratings, currentYear, sqrt).index
    ensures RecommendBooks(q, MatrixOf(books, ratings, currentYear, sqrt), CleanBooks(NormalisedYears(books, currentYear)), n).Ok?
  {
    var m := MatrixOf(books, ratings, currentYear, sqrt);
    MatrixWellFormed(books, ratings, currentYear, sqrt);
    TopSimilarExcludesQuery(m, q, n);
    forall b | b in TopSimilar(m, q, n).value
      ensures HasRow(CleanBooks(NormalisedYears(books, currentYear)), b)
    {
      MatrixIsbnsAreCleanAndSupported(books, ratings, currentYear, sqrt, b);
    }
  }

  /**
   * In the app, every title offered resolves to a matrix ISBN whose info
   * lookup and recommendations raise nothing: the `except KeyError` branch
   * is never taken and no IndexError escapes.
   */
  lemma AppNeverRaises(books: seq<Book>, ratings: seq<Rating>, currentYear: int, sqrt: real -> real, t: Option<string>, n: int)
    requires var m := MatrixOf(books, ratings, currentYear, sqrt);
      t in TitleToIsbn(RowsInIndex(NormalisedYears(books, currentYear), m.index))
    ensures var m := MatrixOf(books, ratings, currentYear, sqrt);
      var rows := RowsInIndex(NormalisedYears(books, currentYear), m.index);
      var q := TitleToIsbn(rows)[t];
      q in m.index && BookInfoOf(rows, q).Ok? && RecommendBooksWithImages(q, m, rows, n).Ok?
  {
    var m := MatrixOf(books, ratings, currentYear, sqrt);
    MatrixWellFormed(books, ratings, currentYear, sqrt);
    forall b | b in m.index
      ensures HasRow(NormalisedYears(books, currentYear), b)
    {
      MatrixIsbnsAreCleanAndSupported(books, ratings, currentYear, sqrt, b);
    }
    AppLookupsSucceed(NormalisedYears(books, currentYear), m, t, n);
  }
}
