/** Generic sequence and set operations the views build on: `Array.prototype.filter`,
    the stable `Array.prototype.sort` with a numeric comparator, and adding or deleting
    one element of a copied `Set`. */
module Collections {

  /** `s.filter(p)`: the elements satisfying `p`, in their original order. */
  function Filter<T(==,!new)>(s: seq<T>, p: T -> bool): (r: seq<T>)
    ensures |r| <= |s|
    ensures forall i :: 0 <= i < |r| ==> p(r[i])
  {
    if |s| == 0 then []
    else (if p(s[0]) then [s[0]] else []) + Filter(s[1..], p)
  }

  /** The filter keeps each element satisfying `p` as often as it occurs, and no other. */
  lemma {:induction false} FilterCount<T(!new)>(s: seq<T>, p: T -> bool)
    ensures forall x :: multiset(Filter(s, p))[x] == if p(x) then multiset(s)[x] else 0
  {
    if |s| > 0 {
      FilterCount(s[1..], p);
      assert s == [s[0]] + s[1..];
    }
  }

  /** The filter keeps exactly the elements satisfying `p`. */
  lemma FilterMember<T(!new)>(s: seq<T>, p: T -> bool)
    ensures forall x :: x in Filter(s, p) <==> x in s && p(x)
  {
    FilterCount(s, p);
    forall x ensures x in Filter(s, p) <==> x in multiset(Filter(s, p)) {}
  }

  /** Filtering distributes over concatenation: the filter keeps the input order. */
  lemma {:induction false} FilterAppend<T(!new)>(a: seq<T>, b: seq<T>, p: T -> bool)
    ensures Filter(a + b, p) == Filter(a, p) + Filter(b, p)
  {
    if |a| == 0 {
      assert a + b == b;
    } else {
      var ab := a + b;
      assert ab[0] == a[0];
      assert ab[1..] == a[1..] + b;
      FilterAppend(a[1..], b, p);
      var head := if p(a[0]) then [a[0]] else [];
      calc {
        Filter(ab, p);
        head + Filter(ab[1..], p);
        head + (Filter(a[1..], p) + Filter(b, p));
        (head + Filter(a[1..], p)) + Filter(b, p);
        Filter(a, p) + Filter(b, p);
      }
    }
  }

  /** A filter whose predicate holds of every element keeps the whole sequence. */
  lemma {:induction false} FilterAll<T(!new)>(s: seq<T>, p: T -> bool)
    requires forall i :: 0 <= i < |s| ==> p(s[i])
    ensures Filter(s, p) == s
  {
    if |s| > 0 {
      FilterAll(s[1..], p);
    }
  }

  /** `s` is ordered by `key`, smallest first. */
  ghost predicate SortedBy<T>(s: seq<T>, key: T -> int) {
    forall i, j :: 0 <= i < j < |s| ==> key(s[i]) <= key(s[j])
  }

  /** Filtering a sorted sequence leaves it sorted: the filter only drops elements. */
  lemma {:induction false} FilterSorted<T(!new)>(s: seq<T>, p: T -> bool, key: T -> int)
    requires SortedBy(s, key)
    ensures SortedBy(Filter(s, p), key)
  {
    if |s| > 0 {
      var rest := Filter(s[1..], p);
      FilterSorted(s[1..], p, key);
      if p(s[0]) {
        FilterMember(s[1..], p);
        forall x | x in rest
          ensures key(s[0]) <= key(x)
        {
          var k :| 0 <= k < |s[1..]| && s[1..][k] == x;
          assert s[k + 1] == x;
        }
        var r := [s[0]] + rest;
        forall i, j | 0 <= i < j < |r|
          ensures key(r[i]) <= key(r[j])
        {
          assert r[j] == rest[j - 1];
          if i > 0 {
            assert r[i] == rest[i - 1];
          }
        }
      } else {
        assert Filter(s, p) == rest;
      }
    }
  }

  /** Insert `x` into `t` behind every trailing element whose key is not larger than
      `key(x)`: one step of the insertion sort, scanning from the right end. */
  function InsertLast<T>(t: seq<T>, x: T, key: T -> int): (r: seq<T>)
    ensures |r| == |t| + 1
    decreases |t|
  {
    if |t| == 0 || key(t[|t| - 1]) <= key(x) then t + [x]
    else InsertLast(t[..|t| - 1], x, key) + [t[|t| - 1]]
  }

  /** Inserting adds exactly `x` to the elements. */
  lemma {:induction false} InsertLastCount<T>(t: seq<T>, x: T, key: T -> int)
    ensures multiset(InsertLast(t, x, key)) == multiset(t) + multiset{x}
    decreases |t|
  {
    if |t| > 0 && key(t[|t| - 1]) > key(x) {
      var init := t[..|t| - 1];
      assert t == init + [t[|t| - 1]];
      InsertLastCount(init, x, key);
    }
  }

  lemma {:induction false} InsertLastSorted<T>(t: seq<T>, x: T, key: T -> int)
    requires SortedBy(t, key)
    ensures SortedBy(InsertLast(t, x, key), key)
    decreases |t|
  {
    if |t| == 0 || key(t[|t| - 1]) <= key(x) {
    } else {
      var init, last := t[..|t| - 1], t[|t| - 1];
      InsertLastSorted(init, x, key);
      InsertLastCount(init, x, key);
      var r' := InsertLast(init, x, key);
      forall i | 0 <= i < |r'|
        ensures key(r'[i]) <= key(last)
      {
        assert r'[i] in multiset(r');
        assert r'[i] in multiset(init) || r'[i] == x;
      }
    }
  }

  /** Where `InsertLast` puts `x`: directly after position `j - 1` when every element
      from `j` on has a larger key and the one before `j` (if any) has not. */
  lemma {:induction false} InsertLastAt<T>(t: seq<T>, x: T, key: T -> int, j: nat)
    requires j <= |t|
    requires forall k :: j <= k < |t| ==> key(t[k]) > key(x)
    requires j == 0 || key(t[j - 1]) <= key(x)
    ensures InsertLast(t, x, key) == t[..j] + [x] + t[j..]
    decreases |t|
  {
    if j == |t| {
      InsertLastStops(t, x, key);
      assert t[..j] == t && t[j..] == [];
    } else {
      var init, last := t[..|t| - 1], t[|t| - 1];
      InsertLastPasses(t, x, key);
      InsertLastAt(init, x, key, j);
      assert t == init + [last];
      SpliceSnoc(init, x, last, j);
    }
  }

  /** `InsertLast` stops at once when the last key is not larger. */
  lemma InsertLastStops<T>(t: seq<T>, x: T, key: T -> int)
    requires |t| == 0 || key(t[|t| - 1]) <= key(x)
    ensures InsertLast(t, x, key) == t + [x]
  {
  }

  /** `InsertLast` moves past a last element with a larger key. */
  lemma InsertLastPasses<T>(t: seq<T>, x: T, key: T -> int)
    requires |t| > 0 && key(t[|t| - 1]) > key(x)
    ensures InsertLast(t, x, key) == InsertLast(t[..|t| - 1], x, key) + [t[|t| - 1]]
  {
  }

  /** Splicing `x` in at `j` commutes with appending an element at the end. */
  lemma SpliceSnoc<T>(s: seq<T>, x: T, last: T, j: nat)
    requires j <= |s|
    ensures (s[..j] + [x] + s[j..]) + [last] == (s + [last])[..j] + [x] + (s + [last])[j..]
  {
    assert (s + [last])[..j] == s[..j];
    assert (s + [last])[j..] == s[j..] + [last];
  }

  /** The stable sort of `s` by ascending `key`, as an insertion sort that takes the
      elements left to right; elements with equal keys keep their input order. */
  function SortBy<T>(s: seq<T>, key: T -> int): (r: seq<T>)
    ensures multiset(r) == multiset(s)
    ensures SortedBy(r, key)
    decreases |s|
  {
    if |s| == 0 then []
    else
      assert s == s[..|s| - 1] + [s[|s| - 1]];
      InsertLastSorted(SortBy(s[..|s| - 1], key), s[|s| - 1], key);
      InsertLastCount(SortBy(s[..|s| - 1], key), s[|s| - 1], key);
      InsertLast(SortBy(s[..|s| - 1], key), s[|s| - 1], key)
  }

  /** Sorting keeps exactly the elements it was given. */
  lemma SortByMember<T>(s: seq<T>, key: T -> int)
    ensures forall x :: x in SortBy(s, key) <==> x in s
  {
    var r := SortBy(s, key);
    forall x ensures x in r <==> x in s {
      assert x in r <==> x in multiset(r);
      assert x in s <==> x in multiset(s);
    }
  }

  /** One pass of the in-place insertion sort: the element at `i` moves left past every
      element of the sorted prefix `a[..i]` whose key is larger. */
  method InsertInPlace<T>(a: array<T>, i: nat, key: T -> int)
    requires i < a.Length
    modifies a
    ensures a[..i + 1] == InsertLast(old(a[..i]), old(a[i]), key)
    ensures forall k :: i < k < a.Length ==> a[k] == old(a[k])
  {
    var x := a[i];
    ghost var t := a[..i];
    var j := i;
    while j > 0 && key(a[j - 1]) > key(x)
      invariant 0 <= j <= i
      invariant forall k :: 0 <= k < j ==> a[k] == t[k]
      invariant forall k :: j < k <= i ==> a[k] == t[k - 1]
      invariant forall k :: i < k < a.Length ==> a[k] == old(a[k])
      invariant forall k :: j <= k < i ==> key(t[k]) > key(x)
    {
      a[j] := a[j - 1];
      j := j - 1;
    }
    a[j] := x;
    InsertLastAt(t, x, key, j);
    ghost var inserted := t[..j] + [x] + t[j..];
    assert forall k :: 0 <= k <= i ==> a[k] == inserted[k];
    assert a[..i + 1] == inserted;
  }

  /** Sorting one more element of `s` is inserting it into the sorted prefix. */
  lemma SortByStep<T>(s: seq<T>, i: nat, key: T -> int)
    requires i < |s|
    ensures SortBy(s[..i + 1], key) == InsertLast(SortBy(s[..i], key), s[i], key)
  {
    var p := s[..i + 1];
    assert p[..|p| - 1] == s[..i];
  }

  /** The elements whose key is `v`. */
  function KeyIs<T>(key: T -> int, v: int): T -> bool {
    x => key(x) == v
  }

  /** Filtering a sequence extended by one element. */
  lemma FilterSnoc<T(!new)>(s: seq<T>, x: T, p: T -> bool)
    ensures Filter(s + [x], p) == Filter(s, p) + (if p(x) then [x] else [])
  {
    FilterAppend(s, [x], p);
  }

  /** Inserting `x` leaves the elements of every other key in place and puts `x` last
      among the elements of its own key. */
  lemma {:induction false} InsertLastStable<T(!new)>(t: seq<T>, x: T, key: T -> int, v: int)
    ensures Filter(InsertLast(t, x, key), KeyIs(key, v)) ==
      Filter(t, KeyIs(key, v)) + (if key(x) == v then [x] else [])
    decreases |t|
  {
    var p := KeyIs(key, v);
    if |t| == 0 || key(t[|t| - 1]) <= key(x) {
      FilterSnoc(t, x, p);
    } else {
      var init, last := t[..|t| - 1], t[|t| - 1];
      assert t == init + [last];
      var inserted := InsertLast(init, x, key);
      assert InsertLast(t, x, key) == inserted + [last];
      InsertLastStable(init, x, key, v);
      FilterSnoc(inserted, last, p);
      FilterSnoc(init, last, p);
      if p(last) {
        assert key(x) != v;
        assert Filter(inserted, p) == Filter(init, p);
      } else {
        assert Filter(t, p) == Filter(init, p);
      }
    }
  }

  /** The sort is stable: the elements of any one key appear in the same order as in
      the input. */
  lemma {:induction false} SortByStable<T(!new)>(s: seq<T>, key: T -> int, v: int)
    ensures Filter(SortBy(s, key), KeyIs(key, v)) == Filter(s, KeyIs(key, v))
    decreases |s|
  {
    if |s| > 0 {
      var init, last := s[..|s| - 1], s[|s| - 1];
      assert s == init + [last];
      var sorted := SortBy(init, key);
      assert SortBy(s, key) == InsertLast(sorted, last, key);
      InsertLastStable(sorted, last, key, v);
      SortByStable(init, key, v);
      FilterSnoc(init, last, KeyIs(key, v));
    }
  }

  /** Sorting in place, as `array.sort((a, b) => key(a) - key(b))` does: the array ends
      up holding exactly the stable sort of what it held. */
  method SortInPlace<T>(a: array<T>, key: T -> int)
    modifies a
    ensures a[..] == SortBy(old(a[..]), key)
  {
    ghost var original := a[..];
    var i := 0;
    while i < a.Length
      invariant 0 <= i <= a.Length
      invariant a[..i] == SortBy(original[..i], key)
      invariant forall k :: i <= k < a.Length ==> a[k] == original[k]
    {
      InsertInPlace(a, i, key);
      SortByStep(original, i, key);
      i := i + 1;
    }
    assert original[..a.Length] == original;
    assert a[..a.Length] == a[..];
  }

  /** The expanded-rows set after toggling `x`: `x` changes membership, nothing else does. */
  function Toggled(s: set<string>, x: string): (r: set<string>)
    ensures x in r <==> x !in s
    ensures forall y :: y != x ==> (y in r <==> y in s)
  {
    if x in s then s - {x} else s + {x}
  }

  /** Toggling the same row twice restores the set. */
  lemma ToggleTwice(s: set<string>, x: string)
    ensures Toggled(Toggled(s, x), x) == s
  {
  }
}
