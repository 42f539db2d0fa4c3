/** The two sorts of the story archive. `SortBy` is `Array.prototype.sort`
    with a numeric comparator (`timeB - timeA` or `timeA - timeB`): a stable
    sort by an integer key in either direction. `SortStrings` is the same
    sort without a comparator, which orders strings by `Text.LexLess`. */
module Sorting {
  import opened Text

  /** The two values of `sortOrder`: newest first or oldest first. */
  datatype SortOrder = Desc | Asc

  /** `a` must come strictly before `b`: the comparator is negative. */
  predicate Before<T>(a: T, b: T, key: T -> int, order: SortOrder) {
    if order == Desc then key(a) > key(b) else key(a) < key(b)
  }

  /** No element must come strictly before an element to its left. */
  predicate Sorted<T>(s: seq<T>, key: T -> int, order: SortOrder) {
    forall i, j :: 0 <= i < j < |s| ==> !Before(s[j], s[i], key, order)
  }

  predicate Distinct<T(==)>(s: seq<T>) {
    forall i, j :: 0 <= i < j < |s| ==> s[i] != s[j]
  }

  /** The elements of `s` whose key is `k`, in their order in `s`. A sort is
      stable exactly when it keeps every such subsequence. */
  function AtKey<T(==)>(s: seq<T>, key: T -> int, k: int): (r: seq<T>)
    ensures |r| <= |s|
  {
    if s == [] then []
    else AtKey(s[..|s| - 1], key, k) + (if key(s[|s| - 1]) == k then [s[|s| - 1]] else [])
  }

  lemma AtKeySnoc<T>(s: seq<T>, x: T, key: T -> int, k: int)
    ensures AtKey(s + [x], key, k) == AtKey(s, key, k) + (if key(x) == k then [x] else [])
  {
    assert (s + [x])[..|s|] == s;
  }

  /** `AtKey` keeps exactly the elements with that key. */
  lemma {:induction false} AtKeyMembers<T>(s: seq<T>, key: T -> int, k: int, x: T)
    ensures x in AtKey(s, key, k) <==> x in s && key(x) == k
  {
    if s != [] {
      AtKeyMembers(s[..|s| - 1], key, k, x);
      assert s == s[..|s| - 1] + [s[|s| - 1]];
    }
  }

  /** Puts `x` behind the elements of `r` that do not belong after it. */
  function Insert<T(==)>(r: seq<T>, x: T, key: T -> int, order: SortOrder): (r': seq<T>)
    ensures |r'| == |r| + 1
    ensures multiset(r') == multiset(r) + multiset{x}
  {
    if |r| == 0 || !Before(x, r[|r| - 1], key, order) then r + [x]
    else
      assert r == r[..|r| - 1] + [r[|r| - 1]];
      Insert(r[..|r| - 1], x, key, order) + [r[|r| - 1]]
  }

  /** A stable sort of `s` by `key` in `order` (insertion sort). */
  function SortBy<T(==)>(s: seq<T>, key: T -> int, order: SortOrder): (r: seq<T>)
    ensures |r| == |s|
    ensures multiset(r) == multiset(s)
  {
    if s == [] then []
    else
      assert s == s[..|s| - 1] + [s[|s| - 1]];
      Insert(SortBy(s[..|s| - 1], key, order), s[|s| - 1], key, order)
  }

  lemma {:induction false} AtKeyAppend<T>(a: seq<T>, b: seq<T>, key: T -> int, k: int)
    ensures AtKey(a + b, key, k) == AtKey(a, key, k) + AtKey(b, key, k)
    decreases |b|
  {
    if b == [] {
      assert a + b == a;
    } else {
      assert (a + b)[..|a + b| - 1] == a + b[..|b| - 1];
      AtKeyAppend(a, b[..|b| - 1], key, k);
    }
  }

  lemma SortedAppend<T>(a: seq<T>, b: seq<T>, key: T -> int, order: SortOrder)
    requires Sorted(a, key, order) && Sorted(b, key, order)
    requires forall i, j :: 0 <= i < |a| && 0 <= j < |b| ==> !Before(b[j], a[i], key, order)
    ensures Sorted(a + b, key, order)
  {
    forall i, j | 0 <= i < j < |a + b| ensures !Before((a + b)[j], (a + b)[i], key, order) {
      if j < |a| {
        assert (a + b)[i] == a[i] && (a + b)[j] == a[j];
      } else if i < |a| {
        assert (a + b)[i] == a[i] && (a + b)[j] == b[j - |a|];
      } else {
        assert (a + b)[i] == b[i - |a|] && (a + b)[j] == b[j - |a|];
      }
    }
  }

  lemma {:induction false} InsertSorted<T>(r: seq<T>, x: T, key: T -> int, order: SortOrder)
    requires Sorted(r, key, order)
    ensures Sorted(Insert(r, x, key, order), key, order)
  {
    if |r| == 0 || !Before(x, r[|r| - 1], key, order) {
      forall i | 0 <= i < |r| ensures !Before(x, r[i], key, order) {
        if i < |r| - 1 { assert !Before(r[|r| - 1], r[i], key, order); }
      }
      SortedAppend(r, [x], key, order);
    } else {
      var p, last := r[..|r| - 1], r[|r| - 1];
      InsertSorted(p, x, key, order);
      var q := Insert(p, x, key, order);
      forall i | 0 <= i < |q| ensures !Before(last, q[i], key, order) {
        assert q[i] in multiset(q);
        if q[i] != x {
          assert q[i] in multiset(p);
          var j :| 0 <= j < |p| && p[j] == q[i];
          assert r[j] == p[j];
        }
      }
      SortedAppend(q, [last], key, order);
    }
  }

  /** The result of `SortBy` is in order. */
  lemma {:induction false} SortBySorted<T>(s: seq<T>, key: T -> int, order: SortOrder)
    ensures Sorted(SortBy(s, key, order), key, order)
  {
    if s != [] {
      SortBySorted(s[..|s| - 1], key, order);
      InsertSorted(SortBy(s[..|s| - 1], key, order), s[|s| - 1], key, order);
    }
  }

  lemma {:induction false} InsertAtKey<T>(r: seq<T>, x: T, key: T -> int, order: SortOrder, k: int)
    ensures AtKey(Insert(r, x, key, order), key, k)
            == AtKey(r, key, k) + (if key(x) == k then [x] else [])
  {
    if |r| == 0 || !Before(x, r[|r| - 1], key, order) {
      assert Insert(r, x, key, order) == r + [x];
      AtKeySnoc(r, x, key, k);
    } else {
      var p, last := r[..|r| - 1], r[|r| - 1];
      InsertAtKey(p, x, key, order, k);
      InsertAtKeyPast(r, x, key, order, k);
    }
  }

  /** The step of `InsertAtKey` where `x` moves past the last element, whose
      key therefore differs from that of `x`. */
  lemma InsertAtKeyPast<T>(r: seq<T>, x: T, key: T -> int, order: SortOrder, k: int)
    requires |r| > 0 && Before(x, r[|r| - 1], key, order)
    requires AtKey(Insert(r[..|r| - 1], x, key, order), key, k)
             == AtKey(r[..|r| - 1], key, k) + (if key(x) == k then [x] else [])
    ensures AtKey(Insert(r, x, key, order), key, k)
            == AtKey(r, key, k) + (if key(x) == k then [x] else [])
  {
    var p, last := r[..|r| - 1], r[|r| - 1];
    var q := Insert(p, x, key, order);
    assert Insert(r, x, key, order) == q + [last];
    assert r == p + [last];
    AtKeySnoc(q, last, key, k);
    AtKeySnoc(p, last, key, k);
    var tx := if key(x) == k then [x] else [];
    var tl := if key(last) == k then [last] else [];
    var base := AtKey(p, key, k);
    assert key(x) != key(last);
    if tx == [] {
      assert base + tx == base && (base + tl) + tx == base + tl;
    } else {
      assert tl == [];
      assert base + tl == base && (base + tx) + tl == base + tx;
    }
  }

  /** `SortBy` is stable: the elements sharing a key keep their order. */
  lemma {:induction false} SortByStable<T>(s: seq<T>, key: T -> int, order: SortOrder, k: int)
    ensures AtKey(SortBy(s, key, order), key, k) == AtKey(s, key, k)
  {
    if s != [] {
      var p := s[..|s| - 1];
      SortByStable(p, key, order, k);
      InsertAtKey(SortBy(p, key, order), s[|s| - 1], key, order, k);
    }
  }

  /** Two sequences in order whose elements of each key come in the same
      order are equal: a stable sort has only one possible result. */
  lemma {:induction false} SortedUnique<T>(a: seq<T>, b: seq<T>, key: T -> int, order: SortOrder)
    requires Sorted(a, key, order) && Sorted(b, key, order)
    requires forall k :: AtKey(a, key, k) == AtKey(b, key, k)
    ensures a == b
    decreases |a| + |b|
  {
    if a == [] || b == [] {
      if a != [] {
        var x := a[|a| - 1];
        AtKeyMembers(a, key, key(x), x);
        AtKeyMembers(b, key, key(x), x);
      } else if b != [] {
        var x := b[|b| - 1];
        AtKeyMembers(a, key, key(x), x);
        AtKeyMembers(b, key, key(x), x);
      }
    } else {
      var a', b' := a[..|a| - 1], b[..|b| - 1];
      SameLast(a, b, key, order);
      assert a == a' + [a[|a| - 1]] && b == b' + [a[|a| - 1]];
      DropSameLast(a', b', a[|a| - 1], key);
      SortedUnique(a', b', key, order);
    }
  }

  /** Two sorted sequences with the same elements at the keys of their
      last elements end with the same element. */
  lemma SameLast<T>(a: seq<T>, b: seq<T>, key: T -> int, order: SortOrder)
    requires a != [] && b != []
    requires Sorted(a, key, order) && Sorted(b, key, order)
    requires AtKey(a, key, key(a[|a| - 1])) == AtKey(b, key, key(a[|a| - 1]))
    requires AtKey(a, key, key(b[|b| - 1])) == AtKey(b, key, key(b[|b| - 1]))
    ensures a[|a| - 1] == b[|b| - 1]
  {
    var la, lb := a[|a| - 1], b[|b| - 1];
    AtKeyMembers(a, key, key(la), la);
    AtKeyMembers(b, key, key(la), la);
    SortedLastExtreme(b, la, key, order);
    AtKeyMembers(b, key, key(lb), lb);
    AtKeyMembers(a, key, key(lb), lb);
    SortedLastExtreme(a, lb, key, order);
    var k0 := key(la);
    assert key(lb) == k0;
    var ka, kb := AtKey(a, key, k0), AtKey(b, key, k0);
    assert ka[|ka| - 1] == la && kb[|kb| - 1] == lb;
  }

  /** Dropping the same last element from both sides keeps the elements
      at every key equal. */
  lemma DropSameLast<T>(a: seq<T>, b: seq<T>, x: T, key: T -> int)
    requires forall k :: AtKey(a + [x], key, k) == AtKey(b + [x], key, k)
    ensures forall k :: AtKey(a, key, k) == AtKey(b, key, k)
  {
    forall k ensures AtKey(a, key, k) == AtKey(b, key, k) {
      AtKeySnoc(a, x, key, k);
      AtKeySnoc(b, x, key, k);
      var tail := if key(x) == k then [x] else [];
      var ka, kb := AtKey(a, key, k), AtKey(b, key, k);
      assert ka + tail == kb + tail;
      assert (ka + tail)[..|ka|] == ka && (kb + tail)[..|kb|] == kb;
    }
  }

  lemma SortedLastExtreme<T>(b: seq<T>, x: T, key: T -> int, order: SortOrder)
    requires Sorted(b, key, order) && x in b
    ensures !Before(b[|b| - 1], x, key, order)
  {
    var j :| 0 <= j < |b| && b[j] == x;
    if j < |b| - 1 {
      assert !Before(b[|b| - 1], b[j], key, order);
    }
  }

  /** `SortBy` is the one stable sort: any sequence in order that keeps each
      key's elements in their order in `s` is `SortBy(s)`. */
  lemma SortByCharacterized<T>(s: seq<T>, r: seq<T>, key: T -> int, order: SortOrder)
    requires Sorted(r, key, order)
    requires forall k :: AtKey(r, key, k) == AtKey(s, key, k)
    ensures r == SortBy(s, key, order)
  {
    SortBySorted(s, key, order);
    forall k ensures AtKey(r, key, k) == AtKey(SortBy(s, key, order), key, k) {
      SortByStable(s, key, order, k);
    }
    SortedUnique(r, SortBy(s, key, order), key, order);
  }

  lemma {:induction false} InsertDistinct<T>(r: seq<T>, x: T, key: T -> int, order: SortOrder)
    requires Distinct(r) && x !in r
    ensures Distinct(Insert(r, x, key, order))
  {
    if |r| == 0 || !Before(x, r[|r| - 1], key, order) {
    } else {
      var p, last := r[..|r| - 1], r[|r| - 1];
      InsertDistinct(p, x, key, order);
      var q := Insert(p, x, key, order);
      assert last !in multiset(q) by {
        assert last !in p;
        assert last != x;
      }
    }
  }

  /** Sorting a sequence without repetitions gives one without repetitions. */
  lemma {:induction false} SortByDistinct<T>(s: seq<T>, key: T -> int, order: SortOrder)
    requires Distinct(s)
    ensures Distinct(SortBy(s, key, order))
  {
    if s != [] {
      var p, x := s[..|s| - 1], s[|s| - 1];
      SortByDistinct(p, key, order);
      assert x !in multiset(SortBy(p, key, order)) by { assert x !in p; }
      InsertDistinct(SortBy(p, key, order), x, key, order);
    }
  }

  /** `s` back to front. */
  function Reversed<T>(s: seq<T>): (r: seq<T>)
    ensures |r| == |s|
    ensures forall i :: 0 <= i < |s| ==> r[i] == s[|s| - 1 - i]
  {
    seq(|s|, i requires 0 <= i < |s| => s[|s| - 1 - i])
  }

  /** No two elements share a key. */
  predicate DistinctKeys<T>(s: seq<T>, key: T -> int) {
    forall i, j :: 0 <= i < j < |s| ==> key(s[i]) != key(s[j])
  }

  lemma ReversedAppend<T>(a: seq<T>, b: seq<T>)
    ensures Reversed(a + b) == Reversed(b) + Reversed(a)
  {
    var l, r := Reversed(a + b), Reversed(b) + Reversed(a);
    forall i | 0 <= i < |l| ensures l[i] == r[i] {
      if i < |b| {
        assert r[i] == Reversed(b)[i];
      } else {
        assert r[i] == Reversed(a)[i - |b|];
      }
    }
  }

  /** `AtKey` of a sequence with one more element in front. */
  lemma {:induction false} AtKeyCons<T>(x: T, s: seq<T>, key: T -> int, k: int)
    ensures AtKey([x] + s, key, k) == (if key(x) == k then [x] else []) + AtKey(s, key, k)
  {
    if s == [] {
      assert [x] + s == [] + [x];
      AtKeySnoc([], x, key, k);
    } else {
      var p, y := s[..|s| - 1], s[|s| - 1];
      AtKeyCons(x, p, key, k);
      assert [x] + s == ([x] + p) + [y];
      AtKeySnoc([x] + p, y, key, k);
      assert s == p + [y];
      AtKeySnoc(p, y, key, k);
    }
  }

  /** Reversing a sequence reverses the elements of each key. */
  lemma {:induction false} AtKeyReversed<T>(s: seq<T>, key: T -> int, k: int)
    ensures AtKey(Reversed(s), key, k) == Reversed(AtKey(s, key, k))
  {
    if s != [] {
      var p, x := s[..|s| - 1], s[|s| - 1];
      var tag := if key(x) == k then [x] else [];
      AtKeyReversed(p, key, k);
      assert s == p + [x];
      ReversedAppend(p, [x]);
      assert Reversed(s) == [x] + Reversed(p);
      AtKeyCons(x, Reversed(p), key, k);
      ReversedAppend(AtKey(p, key, k), tag);
      assert Reversed(tag) == tag;
    }
  }

  /** A sequence newest first, reversed, is oldest first. */
  lemma ReversedSorted<T>(s: seq<T>, key: T -> int)
    requires Sorted(s, key, Desc)
    ensures Sorted(Reversed(s), key, Asc)
  {
    var r := Reversed(s);
    forall i, j | 0 <= i < j < |r| ensures !Before(r[j], r[i], key, Asc) {
      assert !Before(s[|s| - 1 - i], s[|s| - 1 - j], key, Desc);
    }
  }

  /** Without two elements of one key, each key holds at most one element. */
  lemma {:induction false} AtKeyDistinctKeys<T>(s: seq<T>, key: T -> int, k: int)
    requires DistinctKeys(s, key)
    ensures |AtKey(s, key, k)| <= 1
  {
    if s != [] {
      var p, x := s[..|s| - 1], s[|s| - 1];
      AtKeyDistinctKeys(p, key, k);
      if key(x) == k {
        forall i | 0 <= i < |p| ensures key(p[i]) != k {
          assert key(s[i]) != key(s[|s| - 1]);
        }
        if AtKey(p, key, k) != [] {
          AtKeyMembers(p, key, k, AtKey(p, key, k)[0]);
          assert false;
        }
      }
    }
  }

  /** When no two elements share a key the sort has no ties, so sorting
      oldest first gives the newest-first result reversed. */
  lemma SortByReversed<T>(s: seq<T>, key: T -> int)
    requires DistinctKeys(s, key)
    ensures Reversed(SortBy(s, key, Desc)) == SortBy(s, key, Asc)
  {
    var d := SortBy(s, key, Desc);
    SortBySorted(s, key, Desc);
    ReversedSorted(d, key);
    forall k ensures AtKey(Reversed(d), key, k) == AtKey(s, key, k) {
      SortByStable(s, key, Desc, k);
      ReversedAtKey(s, d, key, k);
    }
    SortByCharacterized(s, Reversed(d), key, Asc);
  }

  /** A key holding at most one element looks the same reversed. */
  lemma ReversedAtKey<T>(s: seq<T>, d: seq<T>, key: T -> int, k: int)
    requires DistinctKeys(s, key)
    requires AtKey(d, key, k) == AtKey(s, key, k)
    ensures AtKey(Reversed(d), key, k) == AtKey(s, key, k)
  {
    AtKeyReversed(d, key, k);
    AtKeyDistinctKeys(s, key, k);
    var t := AtKey(s, key, k);
    assert Reversed(t) == t;
  }

  /** No string is greater than one to its right. */
  predicate Ascending(s: seq<string>) {
    forall i, j :: 0 <= i < j < |s| ==> !LexLess(s[j], s[i])
  }

  /** Every string is less than every string to its right. */
  predicate StrictlyAscending(s: seq<string>) {
    forall i, j :: 0 <= i < j < |s| ==> LexLess(s[i], s[j])
  }

  function InsertString(r: seq<string>, x: string): (r': seq<string>)
    ensures |r'| == |r| + 1
    ensures multiset(r') == multiset(r) + multiset{x}
  {
    if |r| == 0 || !LexLess(x, r[|r| - 1]) then r + [x]
    else
      assert r == r[..|r| - 1] + [r[|r| - 1]];
      InsertString(r[..|r| - 1], x) + [r[|r| - 1]]
  }

  /** `Array.prototype.sort()` on strings (insertion sort). */
  function SortStrings(s: seq<string>): (r: seq<string>)
    ensures |r| == |s|
    ensures multiset(r) == multiset(s)
  {
    if s == [] then []
    else
      assert s == s[..|s| - 1] + [s[|s| - 1]];
      InsertString(SortStrings(s[..|s| - 1]), s[|s| - 1])
  }

  lemma AscendingSnoc(r: seq<string>, x: string)
    requires Ascending(r)
    requires forall i :: 0 <= i < |r| ==> !LexLess(x, r[i])
    ensures Ascending(r + [x])
  {
    forall i, j | 0 <= i < j < |r + [x]| ensures !LexLess((r + [x])[j], (r + [x])[i]) {
      assert (r + [x])[i] == r[i];
      if j < |r| { assert (r + [x])[j] == r[j]; }
    }
  }

  lemma {:induction false} InsertStringAscending(r: seq<string>, x: string)
    requires Ascending(r)
    ensures Ascending(InsertString(r, x))
  {
    if |r| == 0 || !LexLess(x, r[|r| - 1]) {
      forall i | 0 <= i < |r| ensures !LexLess(x, r[i]) {
        if i < |r| - 1 {
          LexAtMostTransitive(r[i], r[|r| - 1], x);
        }
      }
      AscendingSnoc(r, x);
    } else {
      var p, last := r[..|r| - 1], r[|r| - 1];
      InsertStringAscending(p, x);
      var q := InsertString(p, x);
      forall i | 0 <= i < |q| ensures !LexLess(last, q[i]) {
        assert q[i] in multiset(q);
        if q[i] == x {
          LexLessAsymmetric(x, last);
        } else {
          assert q[i] in multiset(p);
          var j :| 0 <= j < |p| && p[j] == q[i];
          assert r[j] == p[j];
        }
      }
      AscendingSnoc(q, last);
    }
  }

  /** Sorting strings without repetitions puts them in strictly ascending
      order, and keeps exactly the same strings. */
  lemma {:induction false} SortStringsStrict(s: seq<string>)
    requires Distinct(s)
    ensures StrictlyAscending(SortStrings(s))
    ensures forall t :: t in SortStrings(s) <==> t in s
  {
    SortStringsAscending(s);
    SortStringsDistinct(s);
    var r := SortStrings(s);
    forall i, j | 0 <= i < j < |r| ensures LexLess(r[i], r[j]) {
      LexLessTotal(r[i], r[j]);
    }
    forall t ensures t in r <==> t in s {
      assert t in r <==> t in multiset(r);
    }
  }

  lemma {:induction false} SortStringsAscending(s: seq<string>)
    ensures Ascending(SortStrings(s))
  {
    if s != [] {
      SortStringsAscending(s[..|s| - 1]);
      InsertStringAscending(SortStrings(s[..|s| - 1]), s[|s| - 1]);
    }
  }

  lemma {:induction false} SortStringsDistinct(s: seq<string>)
    requires Distinct(s)
    ensures Distinct(SortStrings(s))
  {
    if s != [] {
      var p, x := s[..|s| - 1], s[|s| - 1];
      SortStringsDistinct(p);
      var q := SortStrings(p);
      assert x !in multiset(q) by { assert x !in p; }
      InsertStringDistinct(q, x);
    }
  }

  lemma {:induction false} InsertStringDistinct(r: seq<string>, x: string)
    requires Distinct(r) && x !in r
    ensures Distinct(InsertString(r, x))
  {
    if |r| > 0 && LexLess(x, r[|r| - 1]) {
      var p, last := r[..|r| - 1], r[|r| - 1];
      InsertStringDistinct(p, x);
      assert last !in multiset(InsertString(p, x)) by {
        assert last !in p;
      }
    }
  }
}
