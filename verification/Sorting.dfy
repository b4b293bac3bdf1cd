/**
  Stable sorting, the meaning of `ORDER BY ..., id` and of `sort.SliceStable`, and how it behaves under
  selection.

  Sorting first and selecting afterwards gives the same rows in the same order as selecting first.
*/
module Sorting {

  ghost predicate StrictWeakOrder<T(!new)>(less: (T, T) -> bool) {
    && (forall x, y :: less(x, y) ==> !less(y, x))
    && (forall x, y, z :: !less(y, x) && !less(z, y) ==> !less(z, x))
  }

  ghost predicate Ordered<T>(less: (T, T) -> bool, s: seq<T>) {
    forall i, j :: 0 <= i < j < |s| ==> !less(s[j], s[i])
  }

  /** x goes before the first element that is not less than it, hence before its equals. */
  function Inserted<T>(less: (T, T) -> bool, x: T, s: seq<T>): seq<T> {
    if s == [] then [x]
    else if less(s[0], x) then [s[0]] + Inserted(less, x, s[1..])
    else [x] + s
  }

  function StableSorted<T>(less: (T, T) -> bool, s: seq<T>): seq<T> {
    if s == [] then [] else Inserted(less, s[0], StableSorted(less, s[1..]))
  }

  function Selected<T>(keep: T -> bool, s: seq<T>): seq<T> {
    if s == [] then []
    else if keep(s[0]) then [s[0]] + Selected(keep, s[1..])
    else Selected(keep, s[1..])
  }

  lemma {:induction false} InsertedIsPermutation<T>(less: (T, T) -> bool, x: T, s: seq<T>)
    ensures multiset(Inserted(less, x, s)) == multiset{x} + multiset(s)
  {
    if s == [] {
    } else {
      assert s == [s[0]] + s[1..];
      InsertedIsPermutation(less, x, s[1..]);
    }
  }

  lemma {:induction false} SortedIsPermutation<T>(less: (T, T) -> bool, s: seq<T>)
    ensures multiset(StableSorted(less, s)) == multiset(s)
  {
    if s == [] {
    } else {
      assert s == [s[0]] + s[1..];
      SortedIsPermutation(less, s[1..]);
      InsertedIsPermutation(less, s[0], StableSorted(less, s[1..]));
    }
  }

  lemma SortedHasSameElements<T(!new)>(less: (T, T) -> bool, s: seq<T>)
    ensures |StableSorted(less, s)| == |s|
    ensures forall x :: x in StableSorted(less, s) <==> x in s
  {
    SortedIsPermutation(less, s);
    assert |multiset(StableSorted(less, s))| == |multiset(s)|;
    forall x
      ensures x in StableSorted(less, s) <==> x in s
    {
      assert x in multiset(StableSorted(less, s)) <==> x in multiset(s);
    }
  }

  lemma {:induction false} InsertedIsOrdered<T(!new)>(less: (T, T) -> bool, x: T, s: seq<T>)
    requires StrictWeakOrder(less) && Ordered(less, s)
    ensures Ordered(less, Inserted(less, x, s))
  {
    if s == [] {
    } else if less(s[0], x) {
      InsertedIsOrdered(less, x, s[1..]);
      InsertedIsPermutation(less, x, s[1..]);
      var r := Inserted(less, x, s[1..]);
      forall j | 0 <= j < |r|
        ensures !less(r[j], s[0])
      {
        assert r[j] in multiset(r);
        assert r[j] == x || r[j] in s[1..];
      }
    } else {
      forall j | 0 <= j < |s|
        ensures !less(s[j], x)
      {
        assert j > 0 ==> !less(s[j], s[0]);
      }
    }
  }

  lemma {:induction false} SortedIsOrdered<T(!new)>(less: (T, T) -> bool, s: seq<T>)
    requires StrictWeakOrder(less)
    ensures Ordered(less, StableSorted(less, s))
  {
    if s == [] {
    } else {
      SortedIsOrdered(less, s[1..]);
      InsertedIsOrdered(less, s[0], StableSorted(less, s[1..]));
    }
  }

  lemma {:induction false} SelectedMembers<T(!new)>(keep: T -> bool, s: seq<T>)
    ensures forall x :: x in Selected(keep, s) <==> x in s && keep(x)
  {
    if s == [] {
    } else {
      assert s == [s[0]] + s[1..];
      SelectedMembers(keep, s[1..]);
    }
  }

  lemma {:induction false} SelectedConcat<T>(keep: T -> bool, s: seq<T>, t: seq<T>)
    ensures Selected(keep, s + t) == Selected(keep, s) + Selected(keep, t)
  {
    if s == [] {
      assert s + t == t;
    } else {
      assert (s + t)[1..] == s[1..] + t;
      SelectedConcat(keep, s[1..], t);
    }
  }

  lemma SelectedAppend<T>(keep: T -> bool, s: seq<T>, x: T)
    ensures Selected(keep, s + [x]) == if keep(x) then Selected(keep, s) + [x] else Selected(keep, s)
  {
    SelectedConcat(keep, s, [x]);
    assert [x][1..] == [];
    assert Selected(keep, [x]) == if keep(x) then [x] else [];
  }

  lemma {:induction false} SelectedIsOrdered<T(!new)>(less: (T, T) -> bool, keep: T -> bool, s: seq<T>)
    requires Ordered(less, s)
    ensures Ordered(less, Selected(keep, s))
  {
    if s == [] {
    } else {
      SelectedIsOrdered(less, keep, s[1..]);
      var rest := Selected(keep, s[1..]);
      SelectedMembers(keep, s[1..]);
      forall j | 0 <= j < |rest|
        ensures !less(rest[j], s[0])
      {
        assert rest[j] in s[1..];
      }
    }
  }

  lemma {:induction false} SelectInserted<T(!new)>(less: (T, T) -> bool, keep: T -> bool, x: T, s: seq<T>)
    requires StrictWeakOrder(less) && Ordered(less, s)
    ensures Selected(keep, Inserted(less, x, s))
         == if keep(x) then Inserted(less, x, Selected(keep, s)) else Selected(keep, s)
  {
    if s == [] {
    } else if less(s[0], x) {
      SelectInserted(less, keep, x, s[1..]);
      assert ([s[0]] + Inserted(less, x, s[1..]))[1..] == Inserted(less, x, s[1..]);
    } else {
      assert ([x] + s)[1..] == s;
      if keep(x) && Selected(keep, s) != [] {
        SelectedMembers(keep, s);
        var y := Selected(keep, s)[0];
        assert y in s;
        assert !less(y, x);
      }
    }
  }

  /** Selection commutes with stable sorting, so equal rows keep their table order. */
  lemma {:induction false} SelectSorted<T(!new)>(less: (T, T) -> bool, keep: T -> bool, s: seq<T>)
    requires StrictWeakOrder(less)
    ensures Selected(keep, StableSorted(less, s)) == StableSorted(less, Selected(keep, s))
  {
    if s == [] {
    } else {
      SortedIsOrdered(less, s[1..]);
      SelectSorted(less, keep, s[1..]);
      SelectInserted(less, keep, s[0], StableSorted(less, s[1..]));
    }
  }

  lemma {:induction false} InsertedUnderAgreeingOrders<T(!new)>(less: (T, T) -> bool, less': (T, T) -> bool, x: T,
                                                                s: seq<T>)
    requires forall y :: y in s ==> less(y, x) == less'(y, x)
    ensures Inserted(less, x, s) == Inserted(less', x, s)
  {
    if s == [] {
    } else {
      assert s[0] in s;
      InsertedUnderAgreeingOrders(less, less', x, s[1..]);
    }
  }

  /** Two orders that agree on the rows at hand sort them alike. */
  lemma {:induction false} SortedUnderAgreeingOrders<T(!new)>(less: (T, T) -> bool, less': (T, T) -> bool, s: seq<T>)
    requires forall x, y :: x in s && y in s ==> less(x, y) == less'(x, y)
    ensures StableSorted(less, s) == StableSorted(less', s)
  {
    if s == [] {
    } else {
      assert s == [s[0]] + s[1..];
      SortedUnderAgreeingOrders(less, less', s[1..]);
      SortedHasSameElements(less, s[1..]);
      forall y | y in StableSorted(less, s[1..])
        ensures less(y, s[0]) == less'(y, s[0])
      {
        assert y in s[1..];
      }
      InsertedUnderAgreeingOrders(less, less', s[0], StableSorted(less, s[1..]));
    }
  }

  /** Rows already in order are left as they are. */
  lemma {:induction false} SortedOfOrdered<T>(less: (T, T) -> bool, s: seq<T>)
    requires Ordered(less, s)
    ensures StableSorted(less, s) == s
  {
    if s == [] {
    } else {
      SortedOfOrdered(less, s[1..]);
      assert s == [s[0]] + s[1..];
    }
  }

  /** Selecting twice is selecting by both tests. */
  lemma {:induction false} SelectedTwice<T(!new)>(p: T -> bool, q: T -> bool, both: T -> bool, s: seq<T>)
    requires forall x :: x in s ==> (both(x) <==> p(x) && q(x))
    ensures Selected(q, Selected(p, s)) == Selected(both, s)
  {
    if s == [] {
    } else {
      assert s == [s[0]] + s[1..];
      forall x | x in s[1..]
        ensures both(x) <==> p(x) && q(x)
      {
        assert x in s;
      }
      assert s[0] in s;
      SelectedTwice(p, q, both, s[1..]);
    }
  }

  /** A test that every row passes selects them all. */
  lemma {:induction false} SelectedAll<T>(keep: T -> bool, s: seq<T>)
    requires forall i :: 0 <= i < |s| ==> keep(s[i])
    ensures Selected(keep, s) == s
  {
    if s == [] {
    } else {
      SelectedAll(keep, s[1..]);
      assert s == [s[0]] + s[1..];
    }
  }

  // ---- Where the rows of an answer stand in their table

  /** `places` are the places in s of the rows that pass, in their order. */
  ghost predicate ArePlacesOfSelected<T>(keep: T -> bool, s: seq<T>, places: seq<nat>) {
    && Increasing(places)
    && (forall n :: 0 <= n < |places| ==> places[n] < |s| && keep(s[places[n]]))
    && (forall i :: 0 <= i < |s| && keep(s[i]) ==> i in places)
  }

  ghost predicate StandAt<T>(rows: seq<T>, s: seq<T>, places: seq<nat>) {
    |rows| == |places| && forall n :: 0 <= n < |rows| ==> places[n] < |s| && rows[n] == s[places[n]]
  }

  ghost predicate Increasing(places: seq<nat>) {
    forall m, n :: 0 <= m < n < |places| ==> places[m] < places[n]
  }

  /** Places up to n, with n itself put at the end. */
  lemma PlacesWithLast(places: seq<nat>, n: nat)
    requires Increasing(places) && forall k :: 0 <= k < |places| ==> places[k] < n
    ensures Increasing(places + [n])
    ensures forall i :: i in places + [n] <==> i in places || i == n
  {
    var all := places + [n];
    forall a, b | 0 <= a < b < |all|
      ensures all[a] < all[b]
    {
      assert all[a] == places[a];
    }
  }

  lemma SelectedPlacesWithLast<T>(keep: T -> bool, p: seq<T>, x: T, before: seq<nat>)
    requires ArePlacesOfSelected(keep, p, before) && StandAt(Selected(keep, p), p, before)
    ensures var places := if keep(x) then before + [|p|] else before;
            ArePlacesOfSelected(keep, p + [x], places) && StandAt(Selected(keep, p + [x]), p + [x], places)
  {
    var s := p + [x];
    SelectedAppend(keep, p, x);
    PlacesWithLast(before, |p|);
    var places := if keep(x) then before + [|p|] else before;
    forall i | 0 <= i < |s| && keep(s[i])
      ensures i in places
    {
      if i < |p| {
        assert keep(p[i]);
        assert i in before;
      }
    }
    forall n | 0 <= n < |places|
      ensures places[n] < |s| && keep(s[places[n]]) && Selected(keep, s)[n] == s[places[n]]
    {
      if n < |before| {
        assert s[before[n]] == p[before[n]];
      }
    }
  }

  lemma {:induction false} SelectedPlaces<T>(keep: T -> bool, s: seq<T>) returns (places: seq<nat>)
    ensures ArePlacesOfSelected(keep, s, places) && StandAt(Selected(keep, s), s, places)
  {
    places := [];
    if s != [] {
      var p, x := s[..|s| - 1], s[|s| - 1];
      places := SelectedPlaces(keep, p);
      assert s == p + [x];
      SelectedPlacesWithLast(keep, p, x, places);
      if keep(x) {
        places := places + [|p|];
      }
    }
  }

  /** The row at place a stands before the one at place b: it is less, or neither is and it comes first in the table. */
  ghost predicate ComesFirst<T>(less: (T, T) -> bool, s: seq<T>, a: nat, b: nat)
    requires a < |s| && b < |s|
  {
    less(s[a], s[b]) || (!less(s[b], s[a]) && a < b)
  }

  ghost predicate AreInOrder<T>(less: (T, T) -> bool, s: seq<T>, from: nat, places: seq<nat>) {
    && (forall n :: 0 <= n < |places| ==> from <= places[n] < |s|)
    && (forall m, n :: 0 <= m < n < |places| ==> ComesFirst(less, s, places[m], places[n]))
  }

  /** `places` are the places from `from` on, sorted by their rows. */
  ghost predicate IsSortedAt<T>(less: (T, T) -> bool, s: seq<T>, from: nat, places: seq<nat>) {
    && AreInOrder(less, s, from, places)
    && (forall i :: from <= i < |s| ==> i in places)
  }

  /** Insertion of a place by its row. */
  function InsertedPlace<T>(less: (T, T) -> bool, s: seq<T>, i: nat, places: seq<nat>): (r: seq<nat>)
    requires i < |s| && forall n :: 0 <= n < |places| ==> places[n] < |s|
    ensures |r| == |places| + 1
    ensures forall x :: x in r <==> x == i || x in places
  {
    if places == [] then [i]
    else
      assert places == [places[0]] + places[1..];
      if less(s[places[0]], s[i]) then [places[0]] + InsertedPlace(less, s, i, places[1..])
      else [i] + places
  }

  lemma {:induction false} InsertedStandsAt<T>(less: (T, T) -> bool, s: seq<T>, i: nat, rows: seq<T>, places: seq<nat>)
    requires i < |s| && StandAt(rows, s, places)
    ensures StandAt(Inserted(less, s[i], rows), s, InsertedPlace(less, s, i, places))
  {
    if places == [] {
    } else if less(s[places[0]], s[i]) {
      assert StandAt(rows[1..], s, places[1..]);
      InsertedStandsAt(less, s, i, rows[1..], places[1..]);
      StandsWithFirst(s, places[0], Inserted(less, s[i], rows[1..]), InsertedPlace(less, s, i, places[1..]));
    } else {
      StandsWithFirst(s, i, rows, places);
    }
  }

  lemma StandsWithFirst<T>(s: seq<T>, x: nat, rows: seq<T>, places: seq<nat>)
    requires x < |s| && StandAt(rows, s, places)
    ensures StandAt([s[x]] + rows, s, [x] + places)
  {
  }

  lemma InOrderWithFirst<T>(less: (T, T) -> bool, s: seq<T>, from: nat, x: nat, rest: seq<nat>)
    requires AreInOrder(less, s, from, rest) && from <= x < |s|
    requires forall y :: y in rest ==> y < |s| && ComesFirst(less, s, x, y)
    ensures AreInOrder(less, s, from, [x] + rest)
  {
    var all := [x] + rest;
    forall m, n | 0 <= m < n < |all|
      ensures all[m] < |s| && all[n] < |s| && ComesFirst(less, s, all[m], all[n])
    {
      assert all[n] == rest[n - 1] && rest[n - 1] in rest;
    }
  }

  lemma {:induction false} InsertedPlaceIsSorted<T(!new)>(less: (T, T) -> bool, s: seq<T>, i: nat, places: seq<nat>)
    requires StrictWeakOrder(less) && i < |s| && AreInOrder(less, s, i + 1, places)
    ensures AreInOrder(less, s, i, InsertedPlace(less, s, i, places))
  {
    if places != [] {
      var first, rest := places[0], places[1..];
      assert AreInOrder(less, s, i + 1, rest);
      forall y | y in rest
        ensures y < |s| && ComesFirst(less, s, first, y)
      {
        var n :| 0 <= n < |rest| && rest[n] == y;
        assert places[n + 1] == y;
      }
      if less(s[first], s[i]) {
        InsertedPlaceIsSorted(less, s, i, rest);
        InOrderWithFirst(less, s, i, first, InsertedPlace(less, s, i, rest));
      } else {
        InOrderWithFirst(less, s, i, i, places);
      }
    }
  }

  /** Where the sorted rows stand in the table: rows of equal rank in table order. */
  lemma {:induction false} SortedPlaces<T(!new)>(less: (T, T) -> bool, s: seq<T>, from: nat) returns (places: seq<nat>)
    requires StrictWeakOrder(less) && from <= |s|
    ensures IsSortedAt(less, s, from, places) && StandAt(StableSorted(less, s[from..]), s, places)
    decreases |s| - from
  {
    places := [];
    if from < |s| {
      var before := SortedPlaces(less, s, from + 1);
      assert s[from..][1..] == s[from + 1..];
      InsertedStandsAt(less, s, from, StableSorted(less, s[from + 1..]), before);
      InsertedPlaceIsSorted(less, s, from, before);
      places := InsertedPlace(less, s, from, before);
    }
  }

  /** An answer to `SELECT ... WHERE keep ORDER BY less, id`: its rows stand at these places of the table. */
  ghost predicate IsAnswerAt<T>(less: (T, T) -> bool, keep: T -> bool, s: seq<T>, rows: seq<T>, places: seq<nat>) {
    && StandAt(rows, s, places) && Unique(places)
    && (forall i :: 0 <= i < |s| ==> (i in places <==> keep(s[i])))
    && (forall m, n :: 0 <= m < n < |rows| ==>
          less(rows[m], rows[n]) || (!less(rows[n], rows[m]) && places[m] < places[n]))
  }

  /** Places of places. */
  function Through(outer: seq<nat>, inner: seq<nat>): (r: seq<nat>)
    requires forall n :: 0 <= n < |outer| ==> outer[n] < |inner|
    ensures |r| == |outer| && forall n :: 0 <= n < |r| ==> r[n] == inner[outer[n]]
  {
    seq(|outer|, n requires 0 <= n < |outer| => inner[outer[n]])
  }

  lemma ThroughHas(outer: seq<nat>, inner: seq<nat>, i: nat)
    requires forall n :: 0 <= n < |outer| ==> outer[n] < |inner|
    requires forall q :: 0 <= q < |inner| ==> q in outer
    requires i in inner
    ensures i in Through(outer, inner)
  {
    var q :| 0 <= q < |inner| && inner[q] == i;
    assert q in outer;
    var n :| 0 <= n < |outer| && outer[n] == q;
    assert Through(outer, inner)[n] == i;
  }

  lemma ThroughInOrder<T(!new)>(less: (T, T) -> bool, s: seq<T>, kept: seq<T>, inner: seq<nat>, outer: seq<nat>,
                          rows: seq<T>, m: nat, n: nat)
    requires StandAt(kept, s, inner) && Increasing(inner)
    requires StandAt(rows, kept, outer) && IsSortedAt(less, kept, 0, outer) && StrictWeakOrder(less)
    requires m < n < |rows|
    ensures less(rows[m], rows[n]) || (!less(rows[n], rows[m]) && inner[outer[m]] < inner[outer[n]])
    ensures inner[outer[m]] != inner[outer[n]]
  {
    assert ComesFirst(less, kept, outer[m], outer[n]);
    assert outer[m] != outer[n];
  }

  lemma AnswerPlaces<T(!new)>(less: (T, T) -> bool, keep: T -> bool, s: seq<T>) returns (places: seq<nat>)
    requires StrictWeakOrder(less)
    ensures IsAnswerAt(less, keep, s, StableSorted(less, Selected(keep, s)), places)
  {
    var kept, rows := Selected(keep, s), StableSorted(less, Selected(keep, s));
    var inner := SelectedPlaces(keep, s);
    var outer := SortedPlaces(less, kept, 0);
    assert kept[0..] == kept;
    places := Through(outer, inner);
    forall i: nat | i < |s| && keep(s[i])
      ensures i in places
    {
      ThroughHas(outer, inner, i);
    }
    forall m, n | 0 <= m < n < |rows|
      ensures less(rows[m], rows[n]) || (!less(rows[n], rows[m]) && places[m] < places[n])
      ensures places[m] != places[n]
    {
      ThroughInOrder(less, s, kept, inner, outer, rows, m, n);
    }
  }

  // ---- Rows that occur once

  ghost predicate Unique<T>(s: seq<T>) {
    forall i, j :: 0 <= i < j < |s| ==> s[i] != s[j]
  }

  lemma {:induction false} UniqueIffMultiplicityOne<T(!new)>(s: seq<T>)
    ensures Unique(s) <==> forall x :: multiset(s)[x] <= 1
  {
    if s == [] {
    } else {
      var x0, rest := s[0], s[1..];
      assert s == [x0] + rest;
      UniqueIffMultiplicityOne(rest);
      assert forall x :: multiset(s)[x] == multiset(rest)[x] + if x == x0 then 1 else 0;
      assert x0 in rest <==> multiset(rest)[x0] > 0;
    }
  }

  lemma SortedIsUnique<T(!new)>(less: (T, T) -> bool, s: seq<T>)
    requires Unique(s)
    ensures Unique(StableSorted(less, s))
  {
    SortedIsPermutation(less, s);
    UniqueIffMultiplicityOne(s);
    UniqueIffMultiplicityOne(StableSorted(less, s));
  }

  lemma {:induction false} SelectedIsUnique<T(!new)>(keep: T -> bool, s: seq<T>)
    requires Unique(s)
    ensures Unique(Selected(keep, s))
  {
    if s == [] {
    } else {
      SelectedIsUnique(keep, s[1..]);
      SelectedMembers(keep, s[1..]);
      var rest := Selected(keep, s[1..]);
      forall j | 0 <= j < |rest|
        ensures rest[j] != s[0]
      {
        assert rest[j] in s[1..];
      }
    }
  }
}
