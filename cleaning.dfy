/**
 * Record cleaning: publication years and ages are normalised in place, books
 * missing a required column are dropped, and ratings must reference a
 * cleaned book and lie on the 0..10 scale.
 */
module Cleaning {
  import opened Wrappers
  import opened Seqs
  import opened Records

  const MinYear := 1800
  const MinAge := 5
  const MaxAge := 100
  const MinRating := 0
  const MaxRating := 10

  // ---------------------------------------------------------------- years

  /** A year cell after numeric coercion and the range check against the current year. */
  function NormalisedYear(y: YearCell, currentYear: int): (r: YearCell)
    ensures r.Number? <==> y.Number? && MinYear <= y.year <= currentYear
    ensures r.Number? ==> r == y
    ensures !r.Number? ==> r == Missing
  {
    match y
    case Number(n) => if n > currentYear || n < MinYear then Missing else y
    case _ => Missing
  }

  /** The books table after the year column has been rewritten; nothing else changes. */
  function NormalisedYears(books: seq<Book>, currentYear: int): (r: seq<Book>)
    ensures |r| == |books|
    ensures forall i :: 0 <= i < |r| ==> r[i] == books[i].(year := NormalisedYear(books[i].year, currentYear))
  {
    seq(|books|, i requires 0 <= i < |books| => books[i].(year := NormalisedYear(books[i].year, currentYear)))
  }

  /** Overwrites the Year-Of-Publication column in place; no row is added or removed. */
  method NormaliseYears(books: array<Book>, currentYear: int)
    modifies books
    ensures books[..] == NormalisedYears(old(books[..]), currentYear)
  {
    for i := 0 to books.Length
      invariant forall k :: 0 <= k < i ==> books[k] == old(books[k]).(year := NormalisedYear(old(books[k]).year, currentYear))
      invariant forall k :: i <= k < books.Length ==> books[k] == old(books[k])
    {
      books[i] := books[i].(year := NormalisedYear(books[i].year, currentYear));
    }
  }

  // ---------------------------------------------------------------- books

  /** None of the four columns the cleaning requires is null. */
  predicate Complete(b: Book)
  {
    b.title.Some? && b.author.Some? && b.year != Missing && b.publisher.Some?
  }

  /** `dropna` over title, author, year and publisher. */
  function CleanBooks(books: seq<Book>): (r: seq<Book>)
    ensures forall b :: b in r <==> b in books && Complete(b)
    ensures forall b :: Complete(b) ==> multiset(r)[b] == multiset(books)[b]
    ensures IsSubsequence(r, books)
  {
    FilterIsSubsequence(books, Complete);
    FilterMultiset(books, Complete);
    Filter(books, Complete)
  }

  /** After year normalisation, every cleaned book has all four columns and a year in [1800, currentYear]. */
  lemma CleanedBooksAreValid(books: seq<Book>, currentYear: int)
    ensures forall b :: b in CleanBooks(NormalisedYears(books, currentYear)) ==>
      && b.title.Some? && b.author.Some? && b.publisher.Some?
      && b.year.Number? && MinYear <= b.year.year <= currentYear
  {
    var normalised := NormalisedYears(books, currentYear);
    forall b | b in CleanBooks(normalised)
      ensures b.year.Number? && MinYear <= b.year.year <= currentYear
    {
      var i :| 0 <= i < |normalised| && normalised[i] == b;
      assert b.year == NormalisedYear(books[i].year, currentYear);
    }
  }

  // ---------------------------------------------------------------- users

  /** An age is kept only inside [5, 100]; anything else, a missing age included, becomes missing. */
  function NormalisedAge(age: Option<int>): (r: Option<int>)
    ensures r.Some? <==> age.Some? && MinAge <= age.value <= MaxAge
    ensures r.Some? ==> r == age
  {
    match age
    case Some(x) => if MinAge <= x <= MaxAge then age else None
    case None => None
  }

  /** Overwrites the age column in place; every user row is kept. */
  method NormaliseAges(users: array<User>)
    modifies users
    ensures forall i :: 0 <= i < users.Length ==> users[i] == old(users[i]).(age := NormalisedAge(old(users[i]).age))
  {
    for i := 0 to users.Length
      invariant forall k :: 0 <= k < i ==> users[k] == old(users[k]).(age := NormalisedAge(old(users[k]).age))
      invariant forall k :: i <= k < users.Length ==> users[k] == old(users[k])
    {
      users[i] := users[i].(age := NormalisedAge(users[i].age));
    }
  }

  // -------------------------------------------------------------- ratings

  /** The ISBN column of a books table, as `isin` tests it. */
  function IsbnSet(books: seq<Book>): (r: set<Isbn>)
    ensures forall b :: b in books ==> b.isbn in r
    ensures forall x :: x in r ==> exists b :: b in books && b.isbn == x
  {
    set b | b in books :: b.isbn
  }

  /** Keeps the ratings whose ISBN is in `isbns`. */
  function ReferencesBook(isbns: set<Isbn>): Rating -> bool
  {
    (r: Rating) => r.isbn in isbns
  }

  /** Keeps the ratings on the 0..10 scale. */
  function OnScale(): Rating -> bool
  {
    (r: Rating) => MinRating <= r.value <= MaxRating
  }

  /** A rating survives cleaning when it references a cleaned book and lies on the scale. */
  predicate ValidRating(r: Rating, cleanedBooks: seq<Book>)
  {
    r.isbn in IsbnSet(cleanedBooks) && MinRating <= r.value <= MaxRating
  }

  /** The cleaned ratings: exactly the valid ones, with their multiplicities, in input order. */
  function CleanedRatings(ratings: seq<Rating>, cleanedBooks: seq<Book>): (r: seq<Rating>)
    ensures forall x :: x in r <==> x in ratings && ValidRating(x, cleanedBooks)
    ensures forall x :: ValidRating(x, cleanedBooks) ==> multiset(r)[x] == multiset(ratings)[x]
    ensures IsSubsequence(r, ratings)
  {
    var keep := (x: Rating) => ValidRating(x, cleanedBooks);
    FilterIsSubsequence(ratings, keep);
    FilterMultiset(ratings, keep);
    Filter(ratings, keep)
  }

  /** The two selections of the script, one after the other: ISBN reference, then scale. */
  method CleanRatings(ratings: seq<Rating>, cleanedBooks: seq<Book>) returns (cleaned: seq<Rating>)
    ensures cleaned == CleanedRatings(ratings, cleanedBooks)
  {
    var isbns := IsbnSet(cleanedBooks);
    cleaned := Filter(ratings, ReferencesBook(isbns));
    cleaned := Filter(cleaned, OnScale());
    FilterFilter(ratings, ReferencesBook(isbns), OnScale(), x => ValidRating(x, cleanedBooks));
  }
}
