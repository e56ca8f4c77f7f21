/** A stable insertion sort over an arbitrary comparison, shared by the two
    places that sort: the report generator (courses by code) and the
    curriculum view (semesters by number). `leq(a, b)` stands for "the
    comparator does not put `b` before `a`". */
module Sorting {

  /** Total and transitive. */
  ghost predicate TotalPreorder<T(!new)>(leq: (T, T) -> bool) {
    && (forall a, b :: leq(a, b) || leq(b, a))
    && (forall a, b, c :: leq(a, b) && leq(b, c) ==> leq(a, c))
  }

  predicate SortedBy<T>(s: seq<T>, leq: (T, T) -> bool) {
    forall i, j :: 0 <= i < j < |s| ==> leq(s[i], s[j])
  }

  /** Places `x` before the first element it does not exceed, hence after
      every element it is not below. */
  function InsertBy<T(==,!new)>(x: T, s: seq<T>, leq: (T, T) -> bool): (r: seq<T>)
    ensures multiset(r) == multiset(s) + multiset{x}
    ensures |r| == |s| + 1
    ensures forall e :: e in r ==> e == x || e in s
    ensures TotalPreorder(leq) && SortedBy(s, leq) ==> SortedBy(r, leq)
  {
    if |s| == 0 then [x]
    else if leq(x, s[0]) then
      InsertFront(x, s, leq);
      [x] + s
    else
      var t := InsertBy(x, s[1..], leq);
      assert s == [s[0]] + s[1..];
      InsertBehind(x, s, t, leq);
      [s[0]] + t
  }

  lemma InsertFront<T(!new)>(x: T, s: seq<T>, leq: (T, T) -> bool)
    requires |s| > 0 && leq(x, s[0])
    ensures TotalPreorder(leq) && SortedBy(s, leq) ==> SortedBy([x] + s, leq)
  {
    if TotalPreorder(leq) && SortedBy(s, leq) {
      var r := [x] + s;
      forall i, j | 0 <= i < j < |r| ensures leq(r[i], r[j]) {
        if i == 0 && j > 1 {
          assert leq(s[0], s[j - 1]);
        }
      }
    }
  }

  lemma InsertBehind<T(!new)>(x: T, s: seq<T>, t: seq<T>, leq: (T, T) -> bool)
    requires |s| > 0 && !leq(x, s[0])
    requires forall e :: e in t ==> e == x || e in s[1..]
    requires TotalPreorder(leq) && SortedBy(s, leq) ==> SortedBy(t, leq)
    ensures TotalPreorder(leq) && SortedBy(s, leq) ==> SortedBy([s[0]] + t, leq)
  {
    if TotalPreorder(leq) && SortedBy(s, leq) {
      var r := [s[0]] + t;
      forall i, j | 0 <= i < j < |r| ensures leq(r[i], r[j]) {
        if i == 0 {
          assert r[j] in t;
          if r[j] != x {
            var k :| 0 <= k < |s[1..]| && s[1..][k] == r[j];
            assert leq(s[0], s[k + 1]);
          }
        } else {
          assert r[i] == t[i - 1] && r[j] == t[j - 1];
        }
      }
    }
  }

  /** A permutation of the input, in order whenever `leq` is a total
      preorder. */
  function SortBy<T(==,!new)>(s: seq<T>, leq: (T, T) -> bool): (r: seq<T>)
    ensures multiset(r) == multiset(s)
    ensures TotalPreorder(leq) ==> SortedBy(r, leq)
  {
    if |s| == 0 then []
    else
      assert s == [s[0]] + s[1..];
      InsertBy(s[0], SortBy(s[1..], leq), leq)
  }

  /** An input already in order comes back unchanged. */
  lemma {:induction false} SortSortedUnchanged<T(!new)>(s: seq<T>, leq: (T, T) -> bool)
    requires SortedBy(s, leq)
    ensures SortBy(s, leq) == s
  {
    if |s| > 0 {
      assert SortedBy(s[1..], leq);
      SortSortedUnchanged(s[1..], leq);
      if |s| > 1 {
        assert leq(s[0], s[1]);
      }
    }
  }

  /** Stability: elements the comparison ranks equal keep their relative
      order. Stated through the elements ranked equal to a given `y`. */
  function EqualTo<T>(s: seq<T>, y: T, leq: (T, T) -> bool): seq<T> {
    if |s| == 0 then []
    else (if leq(s[0], y) && leq(y, s[0]) then [s[0]] else []) + EqualTo(s[1..], y, leq)
  }

  lemma {:induction false} InsertStable<T(!new)>(x: T, s: seq<T>, y: T, leq: (T, T) -> bool)
    requires TotalPreorder(leq) && SortedBy(s, leq)
    ensures EqualTo(InsertBy(x, s, leq), y, leq) == EqualTo([x] + s, y, leq)
  {
    if |s| > 0 && !leq(x, s[0]) {
      var t := InsertBy(x, s[1..], leq);
      assert SortedBy(s[1..], leq);
      InsertStable(x, s[1..], y, leq);
      assert ([s[0]] + t)[1..] == t;
      assert ([x] + s)[1..] == s;
      if leq(s[0], y) && leq(y, s[0]) {
        // x ranks above s[0], hence above y: it is not in y's class
        assert !(leq(x, y) && leq(y, x));
      }
    }
  }

  lemma {:induction false} SortStable<T(!new)>(s: seq<T>, y: T, leq: (T, T) -> bool)
    requires TotalPreorder(leq)
    ensures EqualTo(SortBy(s, leq), y, leq) == EqualTo(s, y, leq)
  {
    if |s| > 0 {
      SortStable(s[1..], y, leq);
      InsertStable(s[0], SortBy(s[1..], leq), y, leq);
      assert ([s[0]] + SortBy(s[1..], leq))[1..] == SortBy(s[1..], leq);
      assert s == [s[0]] + s[1..];
    }
  }
}
