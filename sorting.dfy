/** Sorting by a strict total order passed as a function value: insertion
    into a strictly increasing sequence, insertion sort of a duplicate-free
    sequence, and the uniqueness of the increasing arrangement of a set of
    elements. Python's `sorted` on strings and pandas' sorted group keys are
    both instances. */
module Sorting {

  /** `less` is irreflexive, total on distinct elements and transitive. */
  ghost predicate StrictTotal<T(!new)>(less: (T, T) -> bool) {
    && (forall a :: !less(a, a))
    && (forall a, b :: a != b ==> less(a, b) || less(b, a))
    && (forall a, b, c :: less(a, b) && less(b, c) ==> less(a, c))
  }

  /** Strictly increasing under `less`. */
  predicate Increasing<T>(less: (T, T) -> bool, s: seq<T>) {
    forall i, j :: 0 <= i < j < |s| ==> less(s[i], s[j])
  }

  predicate Unique<T(==)>(s: seq<T>) {
    forall i, j :: 0 <= i < j < |s| ==> s[i] != s[j]
  }

  /** Puts `x` before the first element that is not below it. */
  function Insert<T(!new)>(less: (T, T) -> bool, s: seq<T>, x: T): (r: seq<T>)
    ensures |r| == |s| + 1
    ensures forall y :: y in r <==> y == x || y in s
  {
    if s == [] then [x]
    else if less(x, s[0]) then [x] + s
    else [s[0]] + Insert(less, s[1..], x)
  }

  /** Insertion sort, one element after another. */
  function Sort<T(!new)>(less: (T, T) -> bool, s: seq<T>): (r: seq<T>)
    ensures |r| == |s|
    ensures forall y :: y in r <==> y in s
  {
    if s == [] then [] else Insert(less, Sort(less, s[..|s| - 1]), s[|s| - 1])
  }

  // ---------------------------------------------------------------------
  // Properties

  /** Inserting a new element into an increasing sequence keeps it
      increasing. */
  lemma {:induction false} InsertIncreasing<T(!new)>(less: (T, T) -> bool, s: seq<T>, x: T)
    requires StrictTotal(less) && Increasing(less, s) && x !in s
    ensures Increasing(less, Insert(less, s, x))
    decreases |s|
  {
    if s != [] {
      if less(x, s[0]) {
        var r := Insert(less, s, x);
        assert r == [x] + s;
        forall i, j | 0 <= i < j < |r| ensures less(r[i], r[j]) {
          if i == 0 && j > 1 {
            assert less(x, s[0]) && less(s[0], s[j - 1]);
          }
        }
      } else {
        InsertIncreasing(less, s[1..], x);
        var r := Insert(less, s, x);
        assert r == [s[0]] + Insert(less, s[1..], x);
        forall j | 0 < j < |r|
          ensures less(s[0], r[j])
        {
          assert r[j] in Insert(less, s[1..], x);
        }
      }
    }
  }

  /** An increasing sequence has no element twice. */
  lemma IncreasingIsUnique<T(!new)>(less: (T, T) -> bool, s: seq<T>)
    requires StrictTotal(less) && Increasing(less, s)
    ensures Unique(s)
  {
    forall i, j | 0 <= i < j < |s| ensures s[i] != s[j] {
      assert less(s[i], s[j]);
    }
  }

  /** Sorting a sequence without duplicates gives an increasing sequence of
      the same elements. */
  lemma {:induction false} SortIncreasing<T(!new)>(less: (T, T) -> bool, s: seq<T>)
    requires StrictTotal(less) && Unique(s)
    ensures Increasing(less, Sort(less, s))
    decreases |s|
  {
    if s != [] {
      var init := s[..|s| - 1];
      assert Unique(init) by {
        forall i, j | 0 <= i < j < |init| ensures init[i] != init[j] {
          assert init[i] == s[i] && init[j] == s[j];
        }
      }
      SortIncreasing(less, init);
      assert s[|s| - 1] !in init by {
        forall i | 0 <= i < |init| ensures init[i] != s[|s| - 1] {
          assert init[i] == s[i];
        }
      }
      InsertIncreasing(less, Sort(less, init), s[|s| - 1]);
    }
  }

  /** The increasing arrangement of a set of elements is unique: two
      increasing sequences with the same elements are equal. */
  lemma {:induction false} IncreasingUnique<T(!new)>(less: (T, T) -> bool, s: seq<T>, t: seq<T>)
    requires StrictTotal(less) && Increasing(less, s) && Increasing(less, t)
    requires forall x :: x in s <==> x in t
    ensures s == t
    decreases |s|
  {
    assert s != [] ==> s[0] in t;
    assert t != [] ==> t[0] in s;
    if s != [] && t != [] {
      // The smaller of two different first elements would be missing from
      // the other sequence.
      if s[0] != t[0] {
        assert false;
      }
      forall x
        ensures x in s[1..] <==> x in t[1..]
      {
        if x in s[1..] {
          var k :| 0 <= k < |s[1..]| && s[1..][k] == x;
          assert less(s[0], s[k + 1]);
          assert x in t;
        }
        if x in t[1..] {
          var k :| 0 <= k < |t[1..]| && t[1..][k] == x;
          assert less(t[0], t[k + 1]);
          assert x in s;
        }
      }
      IncreasingUnique(less, s[1..], t[1..]);
      assert s == [s[0]] + s[1..] && t == [t[0]] + t[1..];
    }
  }
}
