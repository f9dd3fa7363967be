/** Python's `sorted` on a set of Block_ID strings: strings are compared
    character by character, and a proper prefix comes first. The ids are
    compared as text, so "10" comes before "2". */
module StringOrder {
  import opened Sorting

  /** `a < b` on Python strings. */
  predicate Below(a: string, b: string) {
    if a == [] then b != []
    else if b == [] then false
    else if a[0] != b[0] then a[0] < b[0]
    else Below(a[1..], b[1..])
  }

  /** Strictly increasing in string order, hence free of duplicates. */
  predicate Sorted(s: seq<string>) {
    Increasing(Below, s)
  }

  /** `sorted(block_ids)` for the set of ids collected from the rows. */
  method SortSet(ids: set<string>) returns (sorted: seq<string>)
    ensures Sorted(sorted)
    ensures forall x :: x in sorted <==> x in ids
  {
    sorted := [];
    var rest := ids;
    while rest != {}
      invariant Sorted(sorted)
      invariant forall x :: x in ids <==> x in sorted || x in rest
      invariant forall x :: x in rest ==> x !in sorted
      decreases rest
    {
      var x :| x in rest;
      BelowIsStrictTotal();
      InsertIncreasing(Below, sorted, x);
      sorted := Insert(Below, sorted, x);
      rest := rest - {x};
    }
  }

  // ---------------------------------------------------------------------
  // Properties

  /** No string is below itself. */
  lemma {:induction false} BelowIrreflexive(a: string)
    ensures !Below(a, a)
    decreases |a|
  {
    if a != [] {
      BelowIrreflexive(a[1..]);
    }
  }

  /** Of two different strings exactly one is below the other. */
  lemma {:induction false} BelowTotal(a: string, b: string)
    ensures a != b ==> (Below(a, b) || Below(b, a)) && !(Below(a, b) && Below(b, a))
    decreases |a|
  {
    if a != [] && b != [] && a[0] == b[0] {
      BelowTotal(a[1..], b[1..]);
      if a != b {
        assert a == [a[0]] + a[1..] && b == [b[0]] + b[1..];
      }
    }
  }

  lemma {:induction false} BelowTransitive(a: string, b: string, c: string)
    requires Below(a, b) && Below(b, c)
    ensures Below(a, c)
    decreases |a|
  {
    if a != [] && a[0] == b[0] && b[0] == c[0] {
      BelowTransitive(a[1..], b[1..], c[1..]);
    }
  }

  /** Block ids are ordered as text, not as numbers. */
  lemma TextOrderIsNotNumeric()
    ensures Below("10", "2") && Below("1", "10") && !Below("9", "10")
  {
    assert "10"[0] == '1' && "2"[0] == '2';
    assert "9"[0] == '9' && "10"[0] == '1';
    assert "10"[1..] == "0";
    assert "1"[1..] == [];
  }

  /** String order is a strict total order. */
  lemma BelowIsStrictTotal()
    ensures StrictTotal(Below)
  {
    forall a ensures !Below(a, a) {
      BelowIrreflexive(a);
    }
    forall a, b | a != b ensures Below(a, b) || Below(b, a) {
      BelowTotal(a, b);
    }
    forall a, b, c | Below(a, b) && Below(b, c) ensures Below(a, c) {
      BelowTransitive(a, b, c);
    }
  }

  /** The sorted order of a set of strings is unique: two sorted sequences
      with the same elements are equal. */
  lemma SortedUnique(s: seq<string>, t: seq<string>)
    requires Sorted(s) && Sorted(t)
    requires forall x :: x in s <==> x in t
    ensures s == t
  {
    BelowIsStrictTotal();
    IncreasingUnique(Below, s, t);
  }
}
