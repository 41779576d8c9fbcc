/**
 * The pivot of the filtered ratings: one row per ISBN, one column per user,
 * each cell the mean of that pair's ratings, 0 where the pair has none
 * (`pivot_table(...)` with its default mean aggregation, then `fillna(0)`).
 */
module Pivoting {
  import opened Seqs
  import opened Keys
  import opened Records

  datatype PivotTable = PivotTable(rows: seq<Isbn>, cols: seq<UserId>, cells: seq<seq<real>>)

  /** One cell per row and column. */
  ghost predicate Shaped(p: PivotTable)
  {
    |p.cells| == |p.rows| && forall i :: 0 <= i < |p.cells| ==> |p.cells[i]| == |p.cols|
  }

  function IsbnColumn(rs: seq<Rating>): (r: seq<Isbn>)
    ensures forall b :: b in r <==> exists x :: x in rs && x.isbn == b
  {
    if rs == [] then []
    else
      assert rs[0] in rs && forall x :: x in rs[1..] ==> x in rs;
      assert forall x :: x in rs ==> x == rs[0] || x in rs[1..];
      [rs[0].isbn] + IsbnColumn(rs[1..])
  }

  function UserColumn(rs: seq<Rating>): (r: seq<UserId>)
    ensures forall u :: u in r <==> exists x :: x in rs && x.user == u
  {
    if rs == [] then []
    else
      assert rs[0] in rs && forall x :: x in rs[1..] ==> x in rs;
      assert forall x :: x in rs ==> x == rs[0] || x in rs[1..];
      [rs[0].user] + UserColumn(rs[1..])
  }

  /** Mask: a rating of book `b` by user `u` with value `v`. */
  function RatedWith(b: Isbn, u: UserId, v: int): Rating -> bool
  {
    (x: Rating) => x.isbn == b && x.user == u && x.value == v
  }

  /** The values user `u` gave book `b`, in table order. */
  function PairValues(rs: seq<Rating>, b: Isbn, u: UserId): (vs: seq<int>)
    ensures forall v :: v in vs ==> exists x :: x in rs && x.isbn == b && x.user == u && x.value == v
    ensures vs == [] <==> forall x :: x in rs ==> !(x.isbn == b && x.user == u)
  {
    if rs == [] then []
    else
      assert rs[0] in rs && forall x :: x in rs[1..] ==> x in rs;
      assert forall x :: x in rs ==> x == rs[0] || x in rs[1..];
      (if rs[0].isbn == b && rs[0].user == u then [rs[0].value] else []) + PairValues(rs[1..], b, u)
  }

  /**
   * Every rating of the pair contributes its value to the group, once per
   * occurrence, and nothing else does: the cell averages all of them.
   */
  lemma {:induction false} PairValuesComplete(rs: seq<Rating>, b: Isbn, u: UserId, v: int)
    ensures multiset(PairValues(rs, b, u))[v] == CountWhere(rs, RatedWith(b, u, v))
  {
    if rs != [] {
      PairValuesComplete(rs[1..], b, u, v);
      var head := if rs[0].isbn == b && rs[0].user == u then [rs[0].value] else [];
      var rest := PairValues(rs[1..], b, u);
      assert PairValues(rs, b, u) == head + rest;
      assert multiset(head + rest)[v] == multiset(head)[v] + multiset(rest)[v];
      var p := RatedWith(b, u, v);
      var fhead := if p(rs[0]) then [rs[0]] else [];
      assert Filter(rs, p) == fhead + Filter(rs[1..], p);
      assert |Filter(rs, p)| == |fhead| + |Filter(rs[1..], p)|;
    }
  }

  function Sum(vs: seq<int>): int
  {
    if vs == [] then 0 else vs[0] + Sum(vs[1..])
  }

  /** The pivot cell for book `b` and user `u`: the mean of the pair's values, or 0 if unrated. */
  function CellValue(rs: seq<Rating>, b: Isbn, u: UserId): (r: real)
    ensures (forall x :: x in rs ==> !(x.isbn == b && x.user == u)) ==> r == 0.0
  {
    var vs := PairValues(rs, b, u);
    if |vs| == 0 then 0.0 else Sum(vs) as real / |vs| as real
  }

  /** Two ratings of one pair, 4 and 6, give the cell 5: the mean of all of them. */
  lemma ExampleMeanOfTwo()
    ensures CellValue([Rating(1, "a", 4), Rating(1, "a", 6)], "a", 1) == 5.0
  {
    var rs := [Rating(1, "a", 4), Rating(1, "a", 6)];
    assert rs[1..][1..] == [];
    assert PairValues(rs, "a", 1) == [4, 6];
  }

  lemma {:induction false} SumWithin(vs: seq<int>, lo: int, hi: int)
    requires forall v :: v in vs ==> lo <= v <= hi
    ensures lo * |vs| <= Sum(vs) <= hi * |vs|
  {
    if vs != [] {
      var rest := vs[1..];
      assert vs[0] in vs && forall v :: v in rest ==> v in vs;
      SumWithin(rest, lo, hi);
      assert lo * |vs| == lo * |rest| + lo;
      assert hi * |vs| == hi * |rest| + hi;
    }
  }

  /** A sum of `n` values between `lo` and `hi`, divided by `n`, lies between `lo` and `hi`. */
  lemma MeanWithin(s: int, n: int, lo: int, hi: int)
    requires n > 0 && lo * n <= s <= hi * n
    ensures lo as real <= s as real / n as real <= hi as real
  {
    var sr, nr := s as real, n as real;
    assert (lo * n) as real == lo as real * nr;
    assert (hi * n) as real == hi as real * nr;
    assert sr / nr * nr == sr;
  }

  /** A mean of ratings on a scale stays on that scale. */
  lemma CellWithinScale(rs: seq<Rating>, b: Isbn, u: UserId, lo: int, hi: int)
    requires forall x :: x in rs ==> lo <= x.value <= hi
    requires lo <= 0 <= hi
    ensures lo as real <= CellValue(rs, b, u) <= hi as real
  {
    var vs := PairValues(rs, b, u);
    if |vs| > 0 {
      forall v | v in vs
        ensures lo <= v <= hi
      {
        var x :| x in rs && x.isbn == b && x.user == u && x.value == v;
      }
      SumWithin(vs, lo, hi);
      MeanWithin(Sum(vs), |vs|, lo, hi);
    }
  }

  lemma {:induction false} PairValuesOfSingleRating(rs: seq<Rating>, x: Rating)
    requires forall y :: y in rs && y.isbn == x.isbn && y.user == x.user ==> y == x
    requires multiset(rs)[x] == 1
    ensures PairValues(rs, x.isbn, x.user) == [x.value]
  {
    assert rs == [rs[0]] + rs[1..];
    assert forall y :: y in rs[1..] ==> y in rs;
    if rs[0] == x {
      assert multiset(rs[1..])[x] == 0;
      assert PairValues(rs[1..], x.isbn, x.user) == [];
    } else {
      assert multiset(rs[1..])[x] == 1;
      PairValuesOfSingleRating(rs[1..], x);
    }
  }

  /** A pair rated exactly once has that rating as its cell. */
  lemma CellOfSingleRating(rs: seq<Rating>, x: Rating)
    requires forall y :: y in rs && y.isbn == x.isbn && y.user == x.user ==> y == x
    requires multiset(rs)[x] == 1
    ensures CellValue(rs, x.isbn, x.user) == x.value as real
  {
    PairValuesOfSingleRating(rs, x);
    assert Sum([x.value]) == x.value;
  }

  /**
   * The pivot of `rs`: rows are the distinct ISBNs and columns the distinct
   * users, each in ascending order, and every cell is the pair's mean
   * rating (0 when unrated).
   */
  function BuildPivot(rs: seq<Rating>): (p: PivotTable)
    ensures Shaped(p)
    ensures StrictlyIncreasing(p.rows, StrLess) && forall b :: b in p.rows <==> exists x :: x in rs && x.isbn == b
    ensures StrictlyIncreasing(p.cols, IntLess) && forall u :: u in p.cols <==> exists x :: x in rs && x.user == u
    ensures forall i, j :: 0 <= i < |p.rows| && 0 <= j < |p.cols| ==> p.cells[i][j] == CellValue(rs, p.rows[i], p.cols[j])
  {
    StrLessIsStrictTotal();
    IntLessIsStrictTotal();
    var rows := SortedKeys(IsbnColumn(rs), StrLess);
    var cols := SortedKeys(UserColumn(rs), IntLess);
    PivotTable(rows, cols,
      seq(|rows|, i requires 0 <= i < |rows| =>
        seq(|cols|, j requires 0 <= j < |cols| => CellValue(rs, rows[i], cols[j]))))
  }
}
