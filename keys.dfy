/**
 * Group keys as pandas' pivot_table lays them out: each distinct key once,
 * in ascending order (code-point lexicographic for ISBN strings, numeric for
 * user ids).
 */
module Keys {

  /** `lt` is a strict total order. */
  ghost predicate StrictTotal<T(!new)>(lt: (T, T) -> bool)
  {
    && (forall x :: !lt(x, x))
    && (forall x, y, z :: lt(x, y) && lt(y, z) ==> lt(x, z))
    && (forall x, y :: x != y ==> lt(x, y) || lt(y, x))
  }

  /** Every element is below every later element; so no key appears twice. */
  ghost predicate StrictlyIncreasing<T>(s: seq<T>, lt: (T, T) -> bool)
  {
    forall i, j :: 0 <= i < j < |s| ==> lt(s[i], s[j])
  }

  /** Length of the longest common prefix of `a` and `b`. */
  function CommonPrefix(a: string, b: string): (k: nat)
    ensures k <= |a| && k <= |b| && a[..k] == b[..k]
    ensures k < |a| && k < |b| ==> a[k] != b[k]
  {
    if a == [] || b == [] || a[0] != b[0] then 0 else 1 + CommonPrefix(a[1..], b[1..])
  }

  /**
   * Python's `<` on str: code-point lexicographic order. `a` is smaller when,
   * after their common prefix, `a` has ended while `b` goes on, or `a`'s next
   * code point is the smaller one.
   */
  predicate StrLess(a: string, b: string)
    ensures StrLess(a, b) <==>
      var k := CommonPrefix(a, b);
      k < |b| && (k == |a| || a[k] < b[k])
  {
    if a == [] then b != []
    else if b == [] then false
    else if a[0] != b[0] then a[0] < b[0]
    else StrLess(a[1..], b[1..])
  }

  /** Python's `<` on int. */
  predicate IntLess(a: int, b: int)
  {
    a < b
  }

  lemma {:induction false} StrLessIrreflexive(a: string)
    ensures !StrLess(a, a)
  {
    if a != [] {
      StrLessIrreflexive(a[1..]);
    }
  }

  lemma {:induction false} StrLessTransitive(a: string, b: string, c: string)
    requires StrLess(a, b) && StrLess(b, c)
    ensures StrLess(a, c)
  {
    if a != [] && a[0] == b[0] && b[0] == c[0] {
      StrLessTransitive(a[1..], b[1..], c[1..]);
    }
  }

  lemma {:induction false} StrLessConnected(a: string, b: string)
    requires a != b
    ensures StrLess(a, b) || StrLess(b, a)
  {
    if a != [] && b != [] && a[0] == b[0] {
      assert a == [a[0]] + a[1..] && b == [b[0]] + b[1..];
      StrLessConnected(a[1..], b[1..]);
    }
  }

  /** Code-point order on strings is a strict total order. */
  lemma StrLessIsStrictTotal()
    ensures StrictTotal(StrLess)
  {
    forall a ensures !StrLess(a, a) {
      StrLessIrreflexive(a);
    }
    forall a, b, c | StrLess(a, b) && StrLess(b, c) ensures StrLess(a, c) {
      StrLessTransitive(a, b, c);
    }
    forall a, b | a != b ensures StrLess(a, b) || StrLess(b, a) {
      StrLessConnected(a, b);
    }
  }

  /** Numeric order on ints is a strict total order. */
  lemma IntLessIsStrictTotal()
    ensures StrictTotal(IntLess)
  {
  }

  /** Inserts `x` into the ascending key list `s` unless it is already there. */
  function InsertKey<T(!new,==)>(x: T, s: seq<T>, lt: (T, T) -> bool): (r: seq<T>)
    requires StrictTotal(lt) && StrictlyIncreasing(s, lt)
    ensures StrictlyIncreasing(r, lt)
    ensures forall y :: y in r <==> y == x || y in s
  {
    if s == [] then [x]
    else if x == s[0] then s
    else if lt(x, s[0]) then [x] + s
    else
      var rest := InsertKey(x, s[1..], lt);
      assert forall y :: y in rest ==> lt(s[0], y);
      [s[0]] + rest
  }

  /** The distinct elements of `s`, ascending: a pivot table's row or column index. */
  function SortedKeys<T(!new,==)>(s: seq<T>, lt: (T, T) -> bool): (r: seq<T>)
    requires StrictTotal(lt)
    ensures StrictlyIncreasing(r, lt)
    ensures forall y :: y in r <==> y in s
  {
    if s == [] then []
    else
      var rest := SortedKeys(s[1..], lt);
      assert s == [s[0]] + s[1..];
      InsertKey(s[0], rest, lt)
  }

  /** A strictly increasing key list holds no key twice. */
  lemma IncreasingIsDistinct<T(!new)>(s: seq<T>, lt: (T, T) -> bool)
    requires StrictTotal(lt) && StrictlyIncreasing(s, lt)
    ensures forall i, j :: 0 <= i < |s| && 0 <= j < |s| && i != j ==> s[i] != s[j]
  {
    forall i, j | 0 <= i < |s| && 0 <= j < |s| && i != j ensures s[i] != s[j] {
      if i < j { assert lt(s[i], s[j]); } else { assert lt(s[j], s[i]); }
    }
  }
}
