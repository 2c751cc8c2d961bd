/** Python's `sorted(set(...))` on ints and strings, and stable sorting by a key. */
module Ordering {

  ghost predicate StrictTotal<T(!new)>(less: (T, T) -> bool) {
    && (forall x: T :: !less(x, x))
    && (forall x: T, y: T :: x != y ==> less(x, y) || less(y, x))
    && (forall x: T, y: T, z: T :: less(x, y) && less(y, z) ==> less(x, z))
  }

  ghost predicate Ascending<T>(less: (T, T) -> bool, s: seq<T>) {
    forall i, j :: 0 <= i < j < |s| ==> less(s[i], s[j])
  }

  function InsertUnique<T(==)>(less: (T, T) -> bool, s: seq<T>, x: T): seq<T> {
    if s == [] then [x]
    else if s[0] == x then s
    else if less(x, s[0]) then [x] + s
    else [s[0]] + InsertUnique(less, s[1..], x)
  }

  /** `sorted(set(s))` */
  function SortUnique<T(==)>(less: (T, T) -> bool, s: seq<T>): seq<T> {
    if s == [] then [] else InsertUnique(less, SortUnique(less, s[..|s| - 1]), s[|s| - 1])
  }

  lemma {:induction false} InsertUniqueMembers<T>(less: (T, T) -> bool, s: seq<T>, x: T, y: T)
    ensures y in InsertUnique(less, s, x) <==> y in s || y == x
  {
    if s != [] && s[0] != x && !less(x, s[0]) {
      InsertUniqueMembers(less, s[1..], x, y);
    }
  }

  lemma {:induction false} InsertUniqueAscending<T(!new)>(less: (T, T) -> bool, s: seq<T>, x: T)
    requires StrictTotal(less) && Ascending(less, s)
    ensures Ascending(less, InsertUnique(less, s, x))
  {
    if s != [] && s[0] != x && !less(x, s[0]) {
      InsertUniqueAscending(less, s[1..], x);
      forall y | y in InsertUnique(less, s[1..], x) ensures less(s[0], y) {
        InsertUniqueMembers(less, s[1..], x, y);
      }
    }
  }

  lemma {:induction false} SortUniqueMembers<T>(less: (T, T) -> bool, s: seq<T>, y: T)
    ensures y in SortUnique(less, s) <==> y in s
  {
    if s != [] {
      SortUniqueMembers(less, s[..|s| - 1], y);
      InsertUniqueMembers(less, SortUnique(less, s[..|s| - 1]), s[|s| - 1], y);
    }
  }

  lemma {:induction false} SortUniqueAscending<T(!new)>(less: (T, T) -> bool, s: seq<T>)
    requires StrictTotal(less)
    ensures Ascending(less, SortUnique(less, s))
  {
    if s != [] {
      SortUniqueAscending(less, s[..|s| - 1]);
      InsertUniqueAscending(less, SortUnique(less, s[..|s| - 1]), s[|s| - 1]);
    }
  }

  lemma EmptyHasNoMember<T>(s: seq<T>)
    ensures s == [] <==> forall x :: x !in s
  {
    if s != [] {
      assert s[0] in s;
    }
  }

  /** An ascending listing is determined by its members. */
  lemma {:induction false} AscendingUnique<T(!new)>(less: (T, T) -> bool, s: seq<T>, t: seq<T>)
    requires StrictTotal(less) && Ascending(less, s) && Ascending(less, t)
    requires forall x :: x in s <==> x in t
    ensures s == t
  {
    EmptyHasNoMember(s);
    EmptyHasNoMember(t);
    if s != [] && t != [] {
      assert s[0] in t && t[0] in s;
      assert s[0] == t[0];
      forall x ensures x in s[1..] <==> x in t[1..] {
        assert x in s[1..] <==> x in s && x != s[0];
        assert x in t[1..] <==> x in t && x != t[0];
      }
      AscendingUnique(less, s[1..], t[1..]);
    }
  }

  ghost predicate StrictOrder<T(!new)>(less: (T, T) -> bool) {
    && (forall x: T :: !less(x, x))
    && (forall x: T, y: T, z: T :: less(x, y) && less(y, z) ==> less(x, z))
  }

  ghost predicate IsMinimal<T>(less: (T, T) -> bool, s: set<T>, m: T) {
    m in s && forall x :: x in s ==> !less(x, m)
  }

  lemma {:induction false} MinimalExists<T(!new)>(less: (T, T) -> bool, s: set<T>)
    requires StrictOrder(less) && s != {}
    ensures exists m :: IsMinimal(less, s, m)
  {
    var x :| x in s;
    if s - {x} == {} {
      assert s == {x};
      assert IsMinimal(less, s, x);
    } else {
      MinimalExists(less, s - {x});
      var m :| IsMinimal(less, s - {x}, m);
      assert IsMinimal(less, s, if less(x, m) then x else m);
    }
  }

  /** The members of a set in ORDER BY order; it depends on nothing but the set. */
  ghost function Listing<T(!new)>(less: (T, T) -> bool, s: set<T>): seq<T>
    requires StrictOrder(less)
  {
    if s == {} then []
    else
      MinimalExists(less, s);
      var m :| IsMinimal(less, s, m);
      [m] + Listing(less, s - {m})
  }

  lemma {:induction false} ListingMembers<T(!new)>(less: (T, T) -> bool, s: set<T>)
    requires StrictOrder(less)
    ensures forall x :: x in Listing(less, s) <==> x in s
    ensures |Listing(less, s)| == |s|
    ensures forall i, j :: 0 <= i < j < |Listing(less, s)| ==> Listing(less, s)[i] != Listing(less, s)[j]
    ensures forall i, j :: 0 <= i < j < |Listing(less, s)| ==> !less(Listing(less, s)[j], Listing(less, s)[i])
  {
    if s != {} {
      var m := Listing(less, s)[0];
      assert IsMinimal(less, s, m);
      ListingMembers(less, s - {m});
    }
  }

  const IntLess := (x: int, y: int) => x < y

  /** Strings compare by code point, as in Python. */
  predicate StringBefore(s: string, t: string) {
    if t == [] then false
    else if s == [] then true
    else s[0] < t[0] || (s[0] == t[0] && StringBefore(s[1..], t[1..]))
  }

  const StringLess := (s: string, t: string) => StringBefore(s, t)
}
