/** `sort.Slice`: an in-place sort driven by a caller's comparison. Go promises
    only that the result is a permutation in which no element is less than one
    before it; how equal elements end up is left open. */
module Sorting {

  ghost predicate StrictWeakOrder<T(!new)>(less: (T, T) -> bool) {
    && (forall x :: !less(x, x))
    && (forall x, y, z :: less(x, y) && less(y, z) ==> less(x, z))
    && (forall x, y, z :: less(x, z) ==> less(x, y) || less(y, z))
  }

  ghost predicate Sorted<T>(s: seq<T>, less: (T, T) -> bool) {
    forall i, j :: 0 <= i < j < |s| ==> !less(s[j], s[i])
  }

  /** Everything `sort.Slice` may turn `input` into. */
  ghost predicate IsSortOf<T>(input: seq<T>, output: seq<T>, less: (T, T) -> bool) {
    multiset(output) == multiset(input) && Sorted(output, less)
  }

  /** The comparison separates any two different elements of `s`. */
  ghost predicate Separates<T>(s: seq<T>, less: (T, T) -> bool) {
    forall i, j :: 0 <= i < j < |s| && s[i] != s[j] ==> less(s[i], s[j]) || less(s[j], s[i])
  }

  function Insert<T>(s: seq<T>, x: T, less: (T, T) -> bool): seq<T> {
    if s == [] || !less(x, s[|s| - 1]) then s + [x]
    else Insert(s[..|s| - 1], x, less) + [s[|s| - 1]]
  }

  function InsertionSort<T>(s: seq<T>, less: (T, T) -> bool): seq<T> {
    if s == [] then [] else Insert(InsertionSort(s[..|s| - 1], less), s[|s| - 1], less)
  }

  lemma {:induction false} InsertKeeps<T(!new)>(s: seq<T>, x: T, less: (T, T) -> bool)
    ensures multiset(Insert(s, x, less)) == multiset(s) + multiset{x}
  {
    if s != [] && less(x, s[|s| - 1]) {
      InsertKeeps(s[..|s| - 1], x, less);
      assert s == s[..|s| - 1] + [s[|s| - 1]];
    }
  }

  /** `y` stays below everything once `x`, which it is above too, has gone in. */
  lemma BoundKept<T(!new)>(s: seq<T>, x: T, y: T, less: (T, T) -> bool)
    requires less(x, y) && (forall z :: less(y, z) ==> !less(z, y))
    requires forall k :: 0 <= k < |s| ==> !less(y, s[k])
    ensures forall k :: 0 <= k < |Insert(s, x, less)| ==> !less(y, Insert(s, x, less)[k])
  {
    var r := Insert(s, x, less);
    InsertKeeps(s, x, less);
    forall k | 0 <= k < |r| ensures !less(y, r[k]) {
      assert r[k] in multiset(r);
      if r[k] != x {
        assert r[k] in s;
      }
    }
  }

  lemma {:induction false} InsertSorts<T(!new)>(s: seq<T>, x: T, less: (T, T) -> bool)
    requires StrictWeakOrder(less) && Sorted(s, less)
    ensures Sorted(Insert(s, x, less), less)
  {
    if s != [] && less(x, s[|s| - 1]) {
      InsertSorts(s[..|s| - 1], x, less);
      BoundKept(s[..|s| - 1], x, s[|s| - 1], less);
    } else if s != [] {
      forall i | 0 <= i < |s| ensures !less(x, s[i]) {
        assert i < |s| - 1 ==> !less(s[|s| - 1], s[i]);
      }
    }
  }

  lemma {:induction false} InsertionSortSorts<T(!new)>(s: seq<T>, less: (T, T) -> bool)
    requires StrictWeakOrder(less)
    ensures IsSortOf(s, InsertionSort(s, less), less)
  {
    if s != [] {
      var front, last := s[..|s| - 1], s[|s| - 1];
      InsertionSortSorts(front, less);
      InsertSorts(InsertionSort(front, less), last, less);
      InsertKeeps(InsertionSort(front, less), last, less);
      assert s == front + [last];
    }
  }

  /** Moves `a[i]` down past every element of the sorted prefix that it is less than. */
  method SinkInto<T(!new)>(a: array<T>, i: nat, less: (T, T) -> bool)
    requires i < a.Length
    modifies a
    ensures a[..i + 1] == Insert(old(a[..i]), old(a[i]), less)
    ensures a[i + 1..] == old(a[i + 1..])
  {
    hide Insert;
    var x := a[i];
    var j := i;
    ghost var goal := Insert(a[..i], x, less);
    ghost var rest := a[i + 1..];
    ghost var tail: seq<T> := [];
    while j > 0 && less(x, a[j - 1])
      invariant 0 <= j <= i
      invariant a[j] == x
      invariant a[j + 1..i + 1] == tail
      invariant Insert(a[..j], x, less) + tail == goal
      invariant a[i + 1..] == rest
    {
      ghost var front := a[..j];
      InsertPasses(front, x, less);
      a[j], a[j - 1] := a[j - 1], x;
      assert a[..j - 1] == front[..j - 1];
      ghost var longer := [front[j - 1]] + tail;
      assert Insert(a[..j - 1], x, less) + longer == Insert(a[..j - 1], x, less) + [front[j - 1]] + tail;
      tail := longer;
      j := j - 1;
    }
    InsertStops(a[..j], x, less);
    assert a[..i + 1] == a[..j] + [x] + tail;
  }

  lemma InsertPasses<T>(front: seq<T>, x: T, less: (T, T) -> bool)
    requires front != [] && less(x, front[|front| - 1])
    ensures Insert(front, x, less) == Insert(front[..|front| - 1], x, less) + [front[|front| - 1]]
  {
  }

  lemma InsertStops<T>(front: seq<T>, x: T, less: (T, T) -> bool)
    requires front == [] || !less(x, front[|front| - 1])
    ensures Insert(front, x, less) == front + [x]
  {
  }

  /** The sort as an in-place insertion sort, which is what Go runs on short slices. */
  method SortSlice<T(!new)>(a: array<T>, less: (T, T) -> bool)
    requires StrictWeakOrder(less)
    modifies a
    ensures a[..] == InsertionSort(old(a[..]), less)
    ensures IsSortOf(old(a[..]), a[..], less)
  {
    ghost var input := a[..];
    for i := 0 to a.Length
      invariant a[..i] == InsertionSort(input[..i], less)
      invariant a[i..] == input[i..]
    {
      assert input[..i + 1][..i] == input[..i] && a[i] == input[i];
      SinkInto(a, i, less);
    }
    assert a[..] == a[..a.Length] && input[..a.Length] == input;
    InsertionSortSorts(input, less);
  }

  /** What is left of a list after its head, given only as much as the induction needs. */
  lemma Tails<T(!new)>(a: seq<T>, b: seq<T>, less: (T, T) -> bool)
    requires a != [] && b != [] && a[0] == b[0]
    requires multiset(a) == multiset(b) && Sorted(a, less) && Sorted(b, less) && Separates(a, less)
    ensures multiset(a[1..]) == multiset(b[1..])
    ensures Sorted(a[1..], less) && Sorted(b[1..], less) && Separates(a[1..], less)
  {
    TailMembers(a);
    TailMembers(b);
  }

  lemma TailMembers<T>(a: seq<T>)
    requires a != []
    ensures multiset(a[1..]) == multiset(a) - multiset{a[0]}
  {
    assert a == [a[0]] + a[1..];
  }

  lemma SameMembers<T>(a: seq<T>, b: seq<T>, x: T)
    requires multiset(a) == multiset(b) && x in a
    ensures x in b
  {
    assert x in multiset(a);
  }

  lemma SameLeast<T(!new)>(a: seq<T>, b: seq<T>, less: (T, T) -> bool)
    requires multiset(a) == multiset(b) && a != [] && b != []
    requires Sorted(a, less) && Sorted(b, less)
    requires Separates(a, less)
    ensures a[0] == b[0]
  {
    SameMembers(a, b, a[0]);
    SameMembers(b, a, b[0]);
    var i :| 0 <= i < |b| && b[i] == a[0];
    var j :| 0 <= j < |a| && a[j] == b[0];
    assert i > 0 ==> !less(b[i], b[0]);
    assert j > 0 ==> !less(a[j], a[0]);
  }

  /** A comparison that separates the elements leaves `sort.Slice` no freedom. */
  lemma {:induction false} SortUnique<T(!new)>(a: seq<T>, b: seq<T>, less: (T, T) -> bool)
    requires multiset(a) == multiset(b)
    requires Sorted(a, less) && Sorted(b, less)
    requires Separates(a, less)
    ensures a == b
  {
    if a == [] || b == [] {
      assert |multiset(a)| == |a| && |multiset(b)| == |b|;
    } else {
      SameLeast(a, b, less);
      Tails(a, b, less);
      SortUnique(a[1..], b[1..], less);
      assert a == [a[0]] + a[1..] && b == [b[0]] + b[1..];
    }
  }

  /** Conversely, two different elements that the comparison cannot separate may be
      exchanged in a sorted result without spoiling it. */
  lemma SwapEquals<T(!new)>(s: seq<T>, i: nat, j: nat, less: (T, T) -> bool) returns (t: seq<T>)
    requires StrictWeakOrder(less) && Sorted(s, less)
    requires i < j < |s| && s[i] != s[j] && !less(s[i], s[j]) && !less(s[j], s[i])
    ensures IsSortOf(s, t, less) && t != s
  {
    hide StrictWeakOrder, Sorted;
    t := Swapped(s, i, j);
    assert t[i] != s[i];
    SwappedMembers(s, i, j);
    SwappedSorted(s, i, j, less);
  }

  function Swapped<T>(s: seq<T>, i: nat, j: nat): (t: seq<T>)
    requires i < j < |s|
  {
    s[i := s[j]][j := s[i]]
  }

  lemma SwappedMembers<T>(s: seq<T>, i: nat, j: nat)
    requires i < j < |s|
    ensures multiset(Swapped(s, i, j)) == multiset(s)
  {
    var first := s[i := s[j]];
    assert multiset(first) == multiset(s) - multiset{s[i]} + multiset{s[j]};
    assert multiset(first[j := s[i]]) == multiset(first) - multiset{first[j]} + multiset{s[i]};
  }

  /** What the comparison cannot tell apart it compares alike to everything else. */
  lemma AlikeToAll<T(!new)>(x: T, y: T, z: T, less: (T, T) -> bool)
    requires StrictWeakOrder(less) && !less(x, y) && !less(y, x)
    ensures less(x, z) == less(y, z) && less(z, x) == less(z, y)
  {
  }

  lemma SwappedSorted<T(!new)>(s: seq<T>, i: nat, j: nat, less: (T, T) -> bool)
    requires StrictWeakOrder(less) && Sorted(s, less)
    requires i < j < |s| && !less(s[i], s[j]) && !less(s[j], s[i])
    ensures Sorted(Swapped(s, i, j), less)
  {
    hide StrictWeakOrder;
    var t := Swapped(s, i, j);
    forall z: T ensures less(s[i], z) == less(s[j], z) && less(z, s[i]) == less(z, s[j]) {
      AlikeToAll(s[i], s[j], z, less);
    }
    forall k, z: T | 0 <= k < |s| ensures less(t[k], z) == less(s[k], z) && less(z, t[k]) == less(z, s[k]) {
      assert t[k] == if k == i then s[j] else if k == j then s[i] else s[k];
    }
    forall p, q | 0 <= p < q < |t| ensures !less(t[q], t[p]) {
      assert less(t[q], t[p]) == less(s[q], t[p]) == less(s[q], s[p]);
    }
  }

  lemma SeparatesAny<T(!new)>(s: seq<T>, a: seq<T>, less: (T, T) -> bool)
    requires multiset(a) == multiset(s) && Separates(s, less)
    ensures Separates(a, less)
  {
    forall i, j | 0 <= i < j < |a| && a[i] != a[j] ensures less(a[i], a[j]) || less(a[j], a[i]) {
      SameMembers(a, s, a[i]);
      SameMembers(a, s, a[j]);
      var p :| 0 <= p < |s| && s[p] == a[i];
      var q :| 0 <= q < |s| && s[q] == a[j];
      assert p < q || q < p;
    }
  }

  /** `sort.Slice` has exactly one possible result precisely when the comparison
      separates the elements it was given. */
  lemma SortDeterminedIff<T(!new)>(s: seq<T>, less: (T, T) -> bool)
    requires StrictWeakOrder(less)
    ensures (forall a, b :: IsSortOf(s, a, less) && IsSortOf(s, b, less) ==> a == b)
       <==> Separates(s, less)
  {
    if Separates(s, less) {
      forall a, b | IsSortOf(s, a, less) && IsSortOf(s, b, less) ensures a == b {
        SeparatesAny(s, a, less);
        SortUnique(a, b, less);
      }
    } else {
      var p, q :| 0 <= p < q < |s| && s[p] != s[q] && !less(s[p], s[q]) && !less(s[q], s[p]);
      var x, y := s[p], s[q];
      InsertionSortSorts(s, less);
      var a := InsertionSort(s, less);
      SameMembers(s, a, x);
      SameMembers(s, a, y);
      var i :| 0 <= i < |a| && a[i] == x;
      var j :| 0 <= j < |a| && a[j] == y;
      var b;
      if i < j {
        b := SwapEquals(a, i, j, less);
      } else {
        b := SwapEquals(a, j, i, less);
      }
      assert IsSortOf(s, b, less);
    }
  }
}
