/** A stable ascending sort by a real key, the specification of JavaScript's Array.prototype.sort
    with a key-difference comparator. */
module StableSort {

  function Insert<T>(x: T, sorted: seq<T>, key: T -> real): seq<T> {
    if sorted == [] || key(x) <= key(sorted[0]) then [x] + sorted
    else [sorted[0]] + Insert(x, sorted[1..], key)
  }

  function Sort<T>(xs: seq<T>, key: T -> real): seq<T> {
    if xs == [] then [] else Insert(xs[0], Sort(xs[1..], key), key)
  }

  ghost predicate Ascending<T>(xs: seq<T>, key: T -> real) {
    forall i, j :: 0 <= i < j < |xs| ==> key(xs[i]) <= key(xs[j])
  }

  lemma {:induction false} InsertMembers<T>(x: T, sorted: seq<T>, key: T -> real)
    ensures multiset(Insert(x, sorted, key)) == multiset{x} + multiset(sorted)
  {
    if sorted != [] && key(x) > key(sorted[0]) {
      InsertMembers(x, sorted[1..], key);
      assert sorted == [sorted[0]] + sorted[1..];
    }
  }

  ghost predicate AtLeast<T>(xs: seq<T>, key: T -> real, bound: real) {
    forall i :: 0 <= i < |xs| ==> bound <= key(xs[i])
  }

  lemma {:induction false} InsertAtLeast<T>(x: T, sorted: seq<T>, key: T -> real, bound: real)
    requires AtLeast(sorted, key, bound) && bound <= key(x)
    ensures AtLeast(Insert(x, sorted, key), key, bound)
  {
    if sorted != [] && key(x) > key(sorted[0]) {
      InsertAtLeast(x, sorted[1..], key, bound);
    }
  }

  lemma {:induction false} InsertAscending<T>(x: T, sorted: seq<T>, key: T -> real)
    requires Ascending(sorted, key)
    ensures Ascending(Insert(x, sorted, key), key)
  {
    if sorted != [] && key(x) > key(sorted[0]) {
      var rest := sorted[1..];
      InsertAscending(x, rest, key);
      InsertAtLeast(x, rest, key, key(sorted[0]));
    }
  }

  /** The sort is ascending and a rearrangement. */
  lemma {:induction false} SortAscending<T>(xs: seq<T>, key: T -> real)
    ensures Ascending(Sort(xs, key), key)
    ensures multiset(Sort(xs, key)) == multiset(xs)
  {
    if xs != [] {
      SortAscending(xs[1..], key);
      InsertAscending(xs[0], Sort(xs[1..], key), key);
      InsertMembers(xs[0], Sort(xs[1..], key), key);
      assert xs == [xs[0]] + xs[1..];
    }
  }

  lemma SortMembers<T>(xs: seq<T>, key: T -> real)
    ensures forall x :: x in Sort(xs, key) <==> x in xs
  {
    SortAscending(xs, key);
    assert forall x :: x in Sort(xs, key) <==> x in multiset(Sort(xs, key));
    assert forall x :: x in xs <==> x in multiset(xs);
  }

  /** The elements with this key, in list order. */
  function WithKey<T>(xs: seq<T>, key: T -> real, k: real): seq<T> {
    if xs == [] then []
    else (if key(xs[0]) == k then [xs[0]] else []) + WithKey(xs[1..], key, k)
  }

  lemma {:induction false} InsertStable<T>(x: T, sorted: seq<T>, key: T -> real, k: real)
    requires Ascending(sorted, key)
    ensures WithKey(Insert(x, sorted, key), key, k) == WithKey([x] + sorted, key, k)
  {
    assert ([x] + sorted)[1..] == sorted;
    if sorted == [] || key(x) <= key(sorted[0]) {
    } else {
      var rest := sorted[1..];
      InsertStable(x, rest, key, k);
      assert ([x] + rest)[1..] == rest;
      var more := Insert(x, rest, key);
      assert ([sorted[0]] + more)[1..] == more;
    }
  }

  /** The sort is stable: elements of equal key keep their order. */
  lemma {:induction false} SortStable<T>(xs: seq<T>, key: T -> real, k: real)
    ensures WithKey(Sort(xs, key), key, k) == WithKey(xs, key, k)
  {
    if xs != [] {
      SortStable(xs[1..], key, k);
      SortAscending(xs[1..], key);
      var rest := Sort(xs[1..], key);
      InsertStable(xs[0], rest, key, k);
      assert ([xs[0]] + rest)[1..] == rest;
    }
  }

  /** The list without the first copy of `x`. */
  function Remove<T(==)>(xs: seq<T>, x: T): seq<T> {
    if xs == [] then [] else if xs[0] == x then xs[1..] else [xs[0]] + Remove(xs[1..], x)
  }

  lemma SortNonempty<T>(xs: seq<T>, key: T -> real)
    requires xs != []
    ensures Sort(xs, key) != [] && Sort(xs, key)[0] in xs
  {
    SortAscending(xs, key);
    assert |multiset(Sort(xs, key))| == |Sort(xs, key)|;
    assert |multiset(xs)| == |xs|;
    assert Sort(xs, key)[0] in multiset(xs);
  }

  /** Taking the minimum out and sorting again is the rest of the first sort. */
  lemma {:induction false} SortWithoutMinimum<T>(xs: seq<T>, key: T -> real)
    requires xs != []
    ensures Sort(xs, key) != []
    ensures Sort(Remove(xs, Sort(xs, key)[0]), key) == Sort(xs, key)[1..]
  {
    var x, rest := xs[0], Sort(xs[1..], key);
    if rest != [] && key(x) > key(rest[0]) {
      assert xs[1..] != [];
      SortWithoutMinimum(xs[1..], key);
      var least := Sort(xs, key)[0];
      assert least == rest[0] && least != x;
      var less := Remove(xs[1..], least);
      assert Remove(xs, least) == [x] + less;
      assert ([x] + less)[1..] == less;
    }
  }

  lemma {:induction false} AlreadySorted<T>(xs: seq<T>, key: T -> real)
    requires Ascending(xs, key)
    ensures Sort(xs, key) == xs
  {
    if xs != [] {
      AlreadySorted(xs[1..], key);
      assert xs == [xs[0]] + xs[1..];
    }
  }
}
