/** Python's `sorted(s, key = key, reverse = desc)` on real-valued keys:
    a stable sort, written as an insertion sort. */
module StableSort {

  /** `a` must be placed strictly before `b`: its key is smaller
      (ascending) or larger (descending). */
  predicate Ahead<T>(key: T -> real, desc: bool, a: T, b: T) {
    if desc then key(a) > key(b) else key(a) < key(b)
  }

  /** No element is strictly ahead of an element that precedes it. */
  ghost predicate Ordered<T>(s: seq<T>, key: T -> real, desc: bool) {
    forall i, j :: 0 <= i < j < |s| ==> !Ahead(key, desc, s[j], s[i])
  }

  /** The elements of `s` whose key is `k`, in the order of `s`. */
  function KeyClass<T>(s: seq<T>, key: T -> real, k: real): seq<T> {
    if |s| == 0 then []
    else (if key(s[0]) == k then [s[0]] else []) + KeyClass(s[1..], key, k)
  }

  /** Inserts `x` in front of the first element that is not strictly ahead of it. */
  function Insert<T>(x: T, s: seq<T>, key: T -> real, desc: bool): seq<T> {
    if |s| == 0 || !Ahead(key, desc, s[0], x) then [x] + s
    else [s[0]] + Insert(x, s[1..], key, desc)
  }

  function SortedBy<T>(s: seq<T>, key: T -> real, desc: bool): seq<T> {
    if |s| == 0 then [] else Insert(s[0], SortedBy(s[1..], key, desc), key, desc)
  }

  lemma {:induction false} InsertPermutes<T>(x: T, s: seq<T>, key: T -> real, desc: bool)
    ensures multiset(Insert(x, s, key, desc)) == multiset(s) + multiset{x}
  {
    if |s| == 0 || !Ahead(key, desc, s[0], x) {
    } else {
      InsertPermutes(x, s[1..], key, desc);
      assert s == [s[0]] + s[1..];
    }
  }

  lemma {:induction false} InsertOrdered<T>(x: T, s: seq<T>, key: T -> real, desc: bool)
    requires Ordered(s, key, desc)
    ensures Ordered(Insert(x, s, key, desc), key, desc)
  {
    if |s| == 0 || !Ahead(key, desc, s[0], x) {
    } else {
      var rest := Insert(x, s[1..], key, desc);
      InsertOrdered(x, s[1..], key, desc);
      InsertPermutes(x, s[1..], key, desc);
      forall j | 0 <= j < |rest| ensures !Ahead(key, desc, rest[j], s[0]) {
        assert rest[j] in multiset(rest);
        assert rest[j] == x || rest[j] in s[1..];
      }
    }
  }

  lemma {:induction false} InsertKeyClass<T>(x: T, s: seq<T>, key: T -> real, desc: bool, k: real)
    ensures KeyClass(Insert(x, s, key, desc), key, k)
         == (if key(x) == k then [x] else []) + KeyClass(s, key, k)
  {
    var r := Insert(x, s, key, desc);
    if |s| == 0 || !Ahead(key, desc, s[0], x) {
      assert r[1..] == s;
    } else {
      assert r[0] == s[0] && r[1..] == Insert(x, s[1..], key, desc);
      InsertKeyClass(x, s[1..], key, desc, k);
      assert key(s[0]) != key(x);
      var kx := if key(x) == k then [x] else [];
      var k0 := if key(s[0]) == k then [s[0]] else [];
      assert KeyClass(r, key, k) == k0 + (kx + KeyClass(s[1..], key, k));
      assert KeyClass(s, key, k) == k0 + KeyClass(s[1..], key, k);
      assert kx == [] || k0 == [];
    }
  }

  lemma {:induction false} SortedByPermutes<T>(s: seq<T>, key: T -> real, desc: bool)
    ensures multiset(SortedBy(s, key, desc)) == multiset(s)
  {
    if |s| > 0 {
      SortedByPermutes(s[1..], key, desc);
      InsertPermutes(s[0], SortedBy(s[1..], key, desc), key, desc);
      assert s == [s[0]] + s[1..];
    }
  }

  lemma {:induction false} SortedByOrdered<T>(s: seq<T>, key: T -> real, desc: bool)
    ensures Ordered(SortedBy(s, key, desc), key, desc)
  {
    if |s| > 0 {
      SortedByOrdered(s[1..], key, desc);
      InsertOrdered(s[0], SortedBy(s[1..], key, desc), key, desc);
    }
  }

  lemma {:induction false} SortedByKeyClass<T>(s: seq<T>, key: T -> real, desc: bool, k: real)
    ensures KeyClass(SortedBy(s, key, desc), key, k) == KeyClass(s, key, k)
  {
    if |s| > 0 {
      SortedByKeyClass(s[1..], key, desc, k);
      InsertKeyClass(s[0], SortedBy(s[1..], key, desc), key, desc, k);
    }
  }

  /** `SortedBy` is a stable sort: a permutation of its input, ordered by
      key, and the elements sharing any one key keep their input order. */
  lemma SortedByIsStableSort<T>(s: seq<T>, key: T -> real, desc: bool)
    ensures multiset(SortedBy(s, key, desc)) == multiset(s)
    ensures Ordered(SortedBy(s, key, desc), key, desc)
    ensures forall k :: KeyClass(SortedBy(s, key, desc), key, k) == KeyClass(s, key, k)
  {
    SortedByPermutes(s, key, desc);
    SortedByOrdered(s, key, desc);
    forall k ensures KeyClass(SortedBy(s, key, desc), key, k) == KeyClass(s, key, k) {
      SortedByKeyClass(s, key, desc, k);
    }
  }

  lemma {:induction false} InsertTies<T>(x: T, s: seq<T>, key: T -> real, desc: bool, rank: T -> int)
    requires forall i, j :: 0 <= i < j < |s| && key(s[i]) == key(s[j]) ==> rank(s[i]) < rank(s[j])
    requires forall i :: 0 <= i < |s| ==> rank(x) < rank(s[i])
    ensures var r := Insert(x, s, key, desc);
      forall i, j :: 0 <= i < j < |r| && key(r[i]) == key(r[j]) ==> rank(r[i]) < rank(r[j])
  {
    if |s| == 0 || !Ahead(key, desc, s[0], x) {
    } else {
      InsertTies(x, s[1..], key, desc, rank);
      InsertPermutes(x, s[1..], key, desc);
      var r := Insert(x, s, key, desc);
      forall j | 1 <= j < |r| && key(r[0]) == key(r[j]) ensures rank(r[0]) < rank(r[j]) {
        assert r[j] in multiset(Insert(x, s[1..], key, desc));
        assert r[j] == x || r[j] in s[1..];
      }
    }
  }

  /** Stability stated with positions: when `rank` increases along the
      input, elements with equal keys come out in increasing `rank`. */
  lemma {:induction false} SortedByKeepsTies<T>(s: seq<T>, key: T -> real, desc: bool, rank: T -> int)
    requires forall i, j :: 0 <= i < j < |s| ==> rank(s[i]) < rank(s[j])
    ensures var r := SortedBy(s, key, desc);
      forall i, j :: 0 <= i < j < |r| && key(r[i]) == key(r[j]) ==> rank(r[i]) < rank(r[j])
  {
    if |s| > 0 {
      var r := SortedBy(s[1..], key, desc);
      SortedByKeepsTies(s[1..], key, desc, rank);
      SortedByIsStableSort(s[1..], key, desc);
      forall i | 0 <= i < |r| ensures rank(s[0]) < rank(r[i]) {
        assert r[i] in multiset(s[1..]);
        var j :| 0 <= j < |s[1..]| && s[1..][j] == r[i];
        assert s[j + 1] == r[i];
      }
      InsertTies(s[0], r, key, desc, rank);
      var out := SortedBy(s, key, desc);
      assert out == Insert(s[0], r, key, desc);
      assert forall i, j :: 0 <= i < j < |out| && key(out[i]) == key(out[j]) ==> rank(out[i]) < rank(out[j]);
    }
  }
}
