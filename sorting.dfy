/** `Array.prototype.sort` with a comparator, as the engine runs it: a stable
    sort. `leq(a, b)` holds when the comparator does not return a positive
    value for `(a, b)`, i.e. when `a` may stay in front of `b`. Both sorts of
    the page (chips by count, repositories by stars and update time) are this
    one sort with their own comparator. */
module Sorting {

  /** The comparator orders every pair and is transitive. */
  ghost predicate TotalPreorder<T(!new)>(leq: (T, T) -> bool)
  {
    && (forall a, b :: leq(a, b) || leq(b, a))
    && (forall a, b, c :: leq(a, b) && leq(b, c) ==> leq(a, c))
  }

  predicate SortedBy<T>(leq: (T, T) -> bool, s: seq<T>)
  {
    forall i, j :: 0 <= i < j < |s| ==> leq(s[i], s[j])
  }

  lemma ConsSorted<T(!new)>(leq: (T, T) -> bool, x: T, t: seq<T>)
    requires TotalPreorder(leq) && SortedBy(leq, t) && (t == [] || leq(x, t[0]))
    ensures SortedBy(leq, [x] + t)
  {
    var r := [x] + t;
    forall i, j | 0 <= i < j < |r| ensures leq(r[i], r[j]) {
      if i == 0 {
        assert leq(x, t[0]) && leq(t[0], t[j - 1]);
      } else {
        assert r[i] == t[i - 1] && r[j] == t[j - 1];
      }
    }
  }

  /** Inserts `x` in front of the first element it may precede, so that `x`
      lands after every element it ties with. */
  function InsertBy<T(!new)>(leq: (T, T) -> bool, x: T, s: seq<T>): (r: seq<T>)
    requires TotalPreorder(leq) && SortedBy(leq, s)
    ensures SortedBy(leq, r)
    ensures multiset(r) == multiset(s) + multiset{x}
    ensures |r| == |s| + 1
    ensures r[0] == x || (s != [] && r[0] == s[0])
  {
    if s == [] || leq(x, s[0]) then
      ConsSorted(leq, x, s);
      [x] + s
    else
      assert s == [s[0]] + s[1..];
      var t := InsertBy(leq, x, s[1..]);
      ConsSorted(leq, s[0], t);
      [s[0]] + t
  }

  /** Insertion sort from the back of the list: a permutation of `s` in which
      every element may precede every later one. */
  function SortBy<T(!new)>(leq: (T, T) -> bool, s: seq<T>): (r: seq<T>)
    requires TotalPreorder(leq)
    ensures |r| == |s|
    ensures SortedBy(leq, r)
    ensures multiset(r) == multiset(s)
  {
    if s == [] then []
    else
      assert s == [s[0]] + s[1..];
      InsertBy(leq, s[0], SortBy(leq, s[1..]))
  }

  /** Neither element may be moved in front of the other. */
  predicate Tied<T>(leq: (T, T) -> bool, a: T, b: T)
  {
    leq(a, b) && leq(b, a)
  }

  /** The elements of `s` that tie with `k`, in their order in `s`. */
  function TiedWith<T>(leq: (T, T) -> bool, s: seq<T>, k: T): seq<T>
  {
    if s == [] then []
    else (if Tied(leq, s[0], k) then [s[0]] else []) + TiedWith(leq, s[1..], k)
  }

  lemma {:induction false} InsertStable<T(!new)>(leq: (T, T) -> bool, x: T, s: seq<T>, k: T)
    requires TotalPreorder(leq) && SortedBy(leq, s)
    ensures TiedWith(leq, InsertBy(leq, x, s), k) == (if Tied(leq, x, k) then [x] else []) + TiedWith(leq, s, k)
  {
    var r := InsertBy(leq, x, s);
    if s == [] || leq(x, s[0]) {
      assert r[1..] == s;
    } else {
      assert !(leq(x, k) && leq(k, s[0]));
      InsertStable(leq, x, s[1..], k);
      assert r[1..] == InsertBy(leq, x, s[1..]);
      assert TiedWith(leq, r, k) == (if Tied(leq, s[0], k) then [s[0]] else []) + TiedWith(leq, r[1..], k);
      assert TiedWith(leq, s, k) == (if Tied(leq, s[0], k) then [s[0]] else []) + TiedWith(leq, s[1..], k);
    }
  }

  /** Stability: the elements that tie with any given one keep their
      relative order. */
  lemma {:induction false} SortStable<T(!new)>(leq: (T, T) -> bool, s: seq<T>, k: T)
    requires TotalPreorder(leq)
    ensures TiedWith(leq, SortBy(leq, s), k) == TiedWith(leq, s, k)
  {
    if s != [] {
      SortStable(leq, s[1..], k);
      InsertStable(leq, s[0], SortBy(leq, s[1..]), k);
    }
  }
}
