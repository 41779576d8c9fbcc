/**
 * The support filter: one forward pass that keeps the ratings of users with
 * at least 50 ratings, then, counting within what is left, the ratings of
 * books with at least 50 ratings. It is not iterated to a fixed point.
 */
module Support {
  import opened Seqs
  import opened Records

  const MinSupport := 50

  function ByUser(u: UserId): Rating -> bool
  {
    (r: Rating) => r.user == u
  }

  function ByIsbn(b: Isbn): Rating -> bool
  {
    (r: Rating) => r.isbn == b
  }

  /** How many ratings of `rs` user `u` gave (value_counts on User-ID). */
  function UserCount(rs: seq<Rating>, u: UserId): nat
  {
    CountWhere(rs, ByUser(u))
  }

  /** How many ratings of `rs` book `b` received (value_counts on isbn). */
  function IsbnCount(rs: seq<Rating>, b: Isbn): nat
  {
    CountWhere(rs, ByIsbn(b))
  }

  /** Mask: the rating's user has at least `t` ratings in `rs`. */
  function ActiveIn(rs: seq<Rating>, t: int): Rating -> bool
  {
    (r: Rating) => UserCount(rs, r.user) >= t
  }

  /** Mask: the rating's book has at least `t` ratings in `rs`. */
  function PopularIn(rs: seq<Rating>, t: int): Rating -> bool
  {
    (r: Rating) => IsbnCount(rs, r.isbn) >= t
  }

  /** The intermediate set: ratings of users with at least `t` ratings in `rs`. */
  function ActiveUserRatings(rs: seq<Rating>, t: int): (r: seq<Rating>)
    ensures forall x :: x in r <==> x in rs && UserCount(rs, x.user) >= t
    ensures forall x: Rating :: UserCount(rs, x.user) >= t ==> multiset(r)[x] == multiset(rs)[x]
    ensures IsSubsequence(r, rs)
  {
    FilterMultiset(rs, ActiveIn(rs, t));
    FilterIsSubsequence(rs, ActiveIn(rs, t));
    Filter(rs, ActiveIn(rs, t))
  }

  /**
   * The outcome of the pass, stated as one selection: a rating stays exactly
   * when its user is active in `rs` and its book is popular among the
   * active users' ratings; multiplicities and order are those of `rs`.
   */
  function SupportFiltered(rs: seq<Rating>, t: int): (r: seq<Rating>)
    ensures forall x :: x in r <==>
      x in rs && UserCount(rs, x.user) >= t && IsbnCount(ActiveUserRatings(rs, t), x.isbn) >= t
    ensures forall x: Rating :: UserCount(rs, x.user) >= t && IsbnCount(ActiveUserRatings(rs, t), x.isbn) >= t ==>
      multiset(r)[x] == multiset(rs)[x]
    ensures IsSubsequence(r, rs)
  {
    var keep := (x: Rating) => UserCount(rs, x.user) >= t && IsbnCount(ActiveUserRatings(rs, t), x.isbn) >= t;
    FilterIsSubsequence(rs, keep);
    FilterMultiset(rs, keep);
    Filter(rs, keep)
  }

  /** The script's two reassignments of the filtered ratings. */
  method SupportFilter(cleaned: seq<Rating>, t: int) returns (filtered: seq<Rating>)
    ensures filtered == SupportFiltered(cleaned, t)
  {
    filtered := Filter(cleaned, ActiveIn(cleaned, t));
    var active := filtered;
    filtered := Filter(filtered, PopularIn(active, t));
    FilterFilter(cleaned, ActiveIn(cleaned, t), PopularIn(active, t),
      (x: Rating) => UserCount(cleaned, x.user) >= t && IsbnCount(ActiveUserRatings(cleaned, t), x.isbn) >= t);
  }

  /** The one-selection statement agrees with the script's two steps. */
  lemma SupportFilteredIsTwoStep(rs: seq<Rating>, t: int)
    ensures SupportFiltered(rs, t) == Filter(ActiveUserRatings(rs, t), PopularIn(ActiveUserRatings(rs, t), t))
  {
    FilterFilter(rs, ActiveIn(rs, t), PopularIn(ActiveUserRatings(rs, t), t),
      (y: Rating) => UserCount(rs, y.user) >= t && IsbnCount(ActiveUserRatings(rs, t), y.isbn) >= t);
  }

  /**
   * Books stay dense: because the book step comes last, every book in the
   * output keeps all its intermediate ratings, so at least `t` of them.
   */
  lemma FilteredBooksKeepSupport(rs: seq<Rating>, t: int, b: Isbn)
    requires b in IsbnsIn(SupportFiltered(rs, t))
    ensures IsbnCount(SupportFiltered(rs, t), b) == IsbnCount(ActiveUserRatings(rs, t), b) >= t
  {
    var active := ActiveUserRatings(rs, t);
    var out := SupportFiltered(rs, t);
    var x :| x in out && x.isbn == b;
    SupportFilteredIsTwoStep(rs, t);
    FilterFilter(active, PopularIn(active, t), ByIsbn(b), ByIsbn(b));
  }

  /** The ISBNs occurring in a rating table. */
  function IsbnsIn(rs: seq<Rating>): (r: set<Isbn>)
    ensures forall x :: x in rs ==> x.isbn in r
    ensures forall b :: b in r ==> exists x :: x in rs && x.isbn == b
  {
    set x | x in rs :: x.isbn
  }

  /** Every rating's user is active, so the user step keeps the whole table. */
  lemma AllUsersActive(rs: seq<Rating>, t: int)
    requires forall x :: x in rs ==> UserCount(rs, x.user) >= t
    ensures ActiveUserRatings(rs, t) == rs
  {
    FilterKeepsAll(rs, ActiveIn(rs, t));
  }

  lemma ExampleUserCounts()
    ensures var rs := [Rating(1, "a", 5), Rating(1, "b", 5), Rating(2, "a", 5), Rating(2, "c", 5)];
      UserCount(rs, 1) == 2 && UserCount(rs, 2) == 2
  {
    var rs := [Rating(1, "a", 5), Rating(1, "b", 5), Rating(2, "a", 5), Rating(2, "c", 5)];
    assert rs[1..][1..][1..][1..] == [];
    assert Filter(rs, ByUser(1)) == [rs[0], rs[1]];
    assert Filter(rs, ByUser(2)) == [rs[2], rs[3]];
  }

  lemma ExampleIsbnCounts()
    ensures var rs := [Rating(1, "a", 5), Rating(1, "b", 5), Rating(2, "a", 5), Rating(2, "c", 5)];
      IsbnCount(rs, "a") == 2 && IsbnCount(rs, "b") == 1 && IsbnCount(rs, "c") == 1
  {
    var rs := [Rating(1, "a", 5), Rating(1, "b", 5), Rating(2, "a", 5), Rating(2, "c", 5)];
    assert rs[1..][1..][1..][1..] == [];
    assert Filter(rs, ByIsbn("a")) == [rs[0], rs[2]];
    assert Filter(rs, ByIsbn("b")) == [rs[1]];
    assert Filter(rs, ByIsbn("c")) == [rs[3]];
  }

  lemma ExampleBookStep()
    ensures var rs := [Rating(1, "a", 5), Rating(1, "b", 5), Rating(2, "a", 5), Rating(2, "c", 5)];
      Filter(rs, PopularIn(rs, 2)) == [rs[0], rs[2]]
  {
    var rs := [Rating(1, "a", 5), Rating(1, "b", 5), Rating(2, "a", 5), Rating(2, "c", 5)];
    ExampleIsbnCounts();
    var popular := PopularIn(rs, 2);
    assert popular(rs[0]) && !popular(rs[1]) && popular(rs[2]) && !popular(rs[3]);
  }

  lemma ExampleFirstPass()
    ensures var rs := [Rating(1, "a", 5), Rating(1, "b", 5), Rating(2, "a", 5), Rating(2, "c", 5)];
      SupportFiltered(rs, 2) == [Rating(1, "a", 5), Rating(2, "a", 5)]
  {
    var rs := [Rating(1, "a", 5), Rating(1, "b", 5), Rating(2, "a", 5), Rating(2, "c", 5)];
    ExampleUserCounts();
    AllUsersActive(rs, 2);
    SupportFilteredIsTwoStep(rs, 2);
    ExampleBookStep();
  }

  lemma ExampleSecondPass()
    ensures var out := [Rating(1, "a", 5), Rating(2, "a", 5)];
      UserCount(out, 1) == 1 && SupportFiltered(out, 2) == []
  {
    var out := [Rating(1, "a", 5), Rating(2, "a", 5)];
    assert out[1..][1..] == [];
    assert Filter(out, ByUser(1)) == [out[0]];
    assert Filter(out, ByUser(2)) == [out[1]];
    var again := SupportFiltered(out, 2);
    assert forall x :: x in again ==> x in out && UserCount(out, x.user) >= 2;
  }

  /**
   * The pass is not a fixed point: with threshold 2 both users of this table
   * are active, yet after the book step user 1 keeps a single rating, and a
   * second pass would remove everything.
   */
  lemma SupportFilterIsNotFixedPoint()
    ensures var rs := [Rating(1, "a", 5), Rating(1, "b", 5), Rating(2, "a", 5), Rating(2, "c", 5)];
      && UserCount(rs, 1) == 2
      && UserCount(SupportFiltered(rs, 2), 1) == 1
      && SupportFiltered(SupportFiltered(rs, 2), 2) == []
  {
    ExampleUserCounts();
    ExampleFirstPass();
    ExampleSecondPass();
  }
}
