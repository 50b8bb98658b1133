/** Strict orders, insertion sort, and the fact that a sorted listing of a set is unique. */
module Ordering {

  ghost predicate StrictTotal<T(!new)>(lt: (T, T) -> bool) {
    && (forall x :: !lt(x, x))
    && (forall x, y, z :: lt(x, y) && lt(y, z) ==> lt(x, z))
    && (forall x, y :: x == y || lt(x, y) || lt(y, x))
  }

  ghost predicate Sorted<T(!new)>(lt: (T, T) -> bool, s: seq<T>) {
    forall i, j :: 0 <= i < j < |s| ==> lt(s[i], s[j])
  }

  ghost predicate Lists<T(!new)>(s: seq<T>, elems: set<T>) {
    && (forall i, j :: 0 <= i < j < |s| ==> s[i] != s[j])
    && (forall x :: x in s <==> x in elems)
  }

  function Insert<T(!new)>(lt: (T, T) -> bool, x: T, s: seq<T>): (r: seq<T>)
    ensures multiset(r) == multiset(s) + multiset{x}
  {
    if s == [] then [x]
    else if lt(x, s[0]) then [x] + s
    else
      assert s == [s[0]] + s[1..];
      [s[0]] + Insert(lt, x, s[1..])
  }

  /** sort.Slice and sort.Strings on distinct elements. */
  function Sort<T(!new)>(lt: (T, T) -> bool, s: seq<T>): (r: seq<T>)
    ensures multiset(r) == multiset(s)
  {
    if s == [] then []
    else
      assert s == [s[0]] + s[1..];
      Insert(lt, s[0], Sort(lt, s[1..]))
  }

  lemma {:induction false} InsertSorted<T(!new)>(lt: (T, T) -> bool, x: T, s: seq<T>)
    requires StrictTotal(lt) && Sorted(lt, s) && x !in s
    ensures Sorted(lt, Insert(lt, x, s))
  {
    if s != [] && !lt(x, s[0]) {
      InsertSorted(lt, x, s[1..]);
      var r := Insert(lt, x, s[1..]);
      forall j | 0 <= j < |r| ensures lt(s[0], r[j]) {
        assert r[j] in multiset(r);
        assert r[j] == x || r[j] in s[1..];
      }
    }
  }

  /** Sorting a listing of a set gives its sorted listing. */
  lemma {:induction false} SortSorts<T(!new)>(lt: (T, T) -> bool, s: seq<T>, elems: set<T>)
    requires StrictTotal(lt) && Lists(s, elems)
    ensures Sorted(lt, Sort(lt, s)) && forall x :: x in Sort(lt, s) <==> x in elems
    decreases |s|
  {
    forall x ensures x in Sort(lt, s) <==> x in elems {
      assert x in multiset(Sort(lt, s)) <==> x in multiset(s);
    }
    if s != [] {
      assert Lists(s[1..], elems - {s[0]});
      SortSorts(lt, s[1..], elems - {s[0]});
      InsertSorted(lt, s[0], Sort(lt, s[1..]));
    }
  }

  /** Two sorted listings of the same elements are equal. */
  lemma {:induction false} SortedUnique<T(!new)>(lt: (T, T) -> bool, a: seq<T>, b: seq<T>)
    requires StrictTotal(lt) && Sorted(lt, a) && Sorted(lt, b)
    requires forall x :: x in a <==> x in b
    ensures a == b
    decreases |a|
  {
    assert b != [] ==> b[0] in b;
    if a != [] {
      assert a[0] in b && b != [] && b[0] in a;
      assert a[0] == b[0];
      forall x ensures x in a[1..] <==> x in b[1..] {
        assert x in a[1..] ==> x in a && x != a[0];
        assert x in b[1..] ==> x in b && x != b[0];
        assert x in a ==> x == a[0] || x in a[1..];
        assert x in b ==> x == b[0] || x in b[1..];
      }
      SortedUnique(lt, a[1..], b[1..]);
    }
  }

  /** Listing a set in some order, as ranging over a Go map does. */
  method Elements<T(==, !new)>(elems: set<T>) returns (s: seq<T>)
    ensures Lists(s, elems)
  {
    s := [];
    var rest := elems;
    while rest != {}
      invariant rest <= elems && Lists(s, elems - rest)
      decreases |rest|
    {
      var x :| x in rest;
      s, rest := s + [x], rest - {x};
    }
  }

  /** Listing a set and sorting the listing. */
  method SortedElements<T(==, !new)>(lt: (T, T) -> bool, elems: set<T>) returns (s: seq<T>)
    requires StrictTotal(lt)
    ensures Sorted(lt, s) && forall x :: x in s <==> x in elems
  {
    var listed := Elements(elems);
    SortSorts(lt, listed, elems);
    return Sort(lt, listed);
  }

  // ----- the order of strings -----

  predicate StringLess(a: string, b: string) {
    if b == [] then false
    else if a == [] then true
    else if a[0] != b[0] then a[0] < b[0]
    else StringLess(a[1..], b[1..])
  }

  lemma {:induction false} StringTransitive(a: string, b: string, c: string)
    requires StringLess(a, b) && StringLess(b, c)
    ensures StringLess(a, c)
  {
    if a != [] && a[0] == b[0] == c[0] {
      StringTransitive(a[1..], b[1..], c[1..]);
    }
  }

  lemma {:induction false} StringConnected(a: string, b: string)
    ensures a == b || StringLess(a, b) || StringLess(b, a)
    ensures !StringLess(a, a)
  {
    if a != [] {
      StringConnected(a[1..], if b == [] then [] else b[1..]);
      if b != [] && a[0] == b[0] {
        assert a == [a[0]] + a[1..] && b == [b[0]] + b[1..];
      }
    }
  }

  lemma {:induction false} StringOrder()
    ensures StrictTotal(StringLess)
  {
    forall a, b ensures (a == b || StringLess(a, b) || StringLess(b, a)) && !StringLess(a, a) {
      StringConnected(a, b);
    }
    forall a, b, c | StringLess(a, b) && StringLess(b, c) ensures StringLess(a, c) {
      StringTransitive(a, b, c);
    }
  }
}
