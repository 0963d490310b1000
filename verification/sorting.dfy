/** Python's `list.sort(key=...)` with a two-component tuple key, as the
    stable selection sort below, which repeatedly takes out the FIRST element
    of least key. Its result is sorted and keeps elements of equal key in
    their input order (`SortIsStable`), and those two properties fix the
    result (`StableSortIsUnique`), so it is what any stable sort returns. */
module Sorting {

  /** A sort key `(major, minor)`, compared lexicographically as Python
      compares tuples. */
  datatype SortKey = SortKey(major: int, minor: real)

  predicate Less(a: SortKey, b: SortKey) {
    a.major < b.major || (a.major == b.major && a.minor < b.minor)
  }

  predicate LessEq(a: SortKey, b: SortKey) {
    !Less(b, a)
  }

  predicate Sorted<T>(s: seq<T>, key: T -> SortKey) {
    forall i, j :: 0 <= i < j < |s| ==> LessEq(key(s[i]), key(s[j]))
  }

  /** Position `k` holds an element of least key, and every element before it
      has a strictly greater key: the element a stable sort puts first. */
  predicate IsFirstMinimal<T>(s: seq<T>, key: T -> SortKey, k: int) {
    && 0 <= k < |s|
    && (forall j :: 0 <= j < |s| ==> LessEq(key(s[k]), key(s[j])))
    && (forall j :: 0 <= j < k ==> Less(key(s[k]), key(s[j])))
  }

  /** At most one position is the first minimal one. */
  lemma FirstMinimalUnique<T>(s: seq<T>, key: T -> SortKey, k1: int, k2: int)
    requires IsFirstMinimal(s, key, k1)
    requires IsFirstMinimal(s, key, k2)
    ensures k1 == k2
  {
    assert !Less(key(s[k2]), key(s[k1])) && !Less(key(s[k1]), key(s[k2]));
  }

  function FirstMin<T>(s: seq<T>, key: T -> SortKey): (k: nat)
    requires |s| > 0
    ensures IsFirstMinimal(s, key, k)
  {
    if |s| == 1 then 0
    else
      var k := FirstMin(s[1..], key);
      assert forall j :: 1 <= j < |s| ==> s[j] == s[1..][j - 1];
      if Less(key(s[k + 1]), key(s[0])) then k + 1 else 0
  }

  /** The stable sort of `s` by `key`. */
  function SortBy<T(==)>(s: seq<T>, key: T -> SortKey): (r: seq<T>)
    ensures |r| == |s|
    ensures multiset(r) == multiset(s)
    ensures Sorted(r, key)
    ensures |s| > 0 ==> r[0] == s[FirstMin(s, key)]
    decreases |s|
  {
    if |s| == 0 then []
    else
      var k := FirstMin(s, key);
      var rest := s[..k] + s[k + 1..];
      var sortedRest := SortBy(rest, key);
      RemoveAtMultiset(s, k);
      HeadBeforeRest(s, key, k, sortedRest);
      [s[k]] + sortedRest
  }

  /** Taking out position `k` takes exactly one copy of `s[k]` out of the
      multiset. */
  lemma RemoveAtMultiset<T>(s: seq<T>, k: int)
    requires 0 <= k < |s|
    ensures multiset(s) == multiset(s[..k] + s[k + 1..]) + multiset{s[k]}
  {
    assert s == s[..k] + [s[k]] + s[k + 1..];
  }

  /** Putting a least element in front of a sorted sequence keeps it sorted. */
  lemma HeadBeforeRest<T>(s: seq<T>, key: T -> SortKey, k: int, rest: seq<T>)
    requires IsFirstMinimal(s, key, k)
    requires Sorted(rest, key)
    requires multiset(rest) <= multiset(s)
    ensures Sorted([s[k]] + rest, key)
  {
    var r := [s[k]] + rest;
    forall i, j | 0 <= i < j < |r| ensures LessEq(key(r[i]), key(r[j])) {
      if i == 0 {
        assert r[j] == rest[j - 1];
        assert r[j] in multiset(rest);
        var m :| 0 <= m < |s| && s[m] == r[j];
      } else {
        assert r[i] == rest[i - 1] && r[j] == rest[j - 1];
      }
    }
  }

  /** Every element of the sorted sequence after the head comes from the
      input, and the head's key is least. */
  lemma SortedHeadIsLeast<T>(s: seq<T>, key: T -> SortKey)
    requires |s| > 0
    ensures forall x :: x in s ==> LessEq(key(SortBy(s, key)[0]), key(x))
  {
    var k := FirstMin(s, key);
    forall x | x in s ensures LessEq(key(SortBy(s, key)[0]), key(x)) {
      var j :| 0 <= j < |s| && s[j] == x;
    }
  }

  /** The elements of `s` whose key is `k`, in their order in `s`. */
  function WithKey<T>(s: seq<T>, key: T -> SortKey, k: SortKey): seq<T>
    decreases |s|
  {
    if |s| == 0 then [] else (if key(s[0]) == k then [s[0]] else []) + WithKey(s[1..], key, k)
  }

  lemma {:induction false} WithKeyAppend<T>(a: seq<T>, b: seq<T>, key: T -> SortKey, k: SortKey)
    ensures WithKey(a + b, key, k) == WithKey(a, key, k) + WithKey(b, key, k)
    decreases |a|
  {
    if |a| > 0 {
      assert (a + b)[1..] == a[1..] + b;
      WithKeyAppend(a[1..], b, key, k);
    } else {
      assert a + b == b;
    }
  }

  lemma {:induction false} WithKeyAbsent<T>(s: seq<T>, key: T -> SortKey, k: SortKey)
    requires forall i :: 0 <= i < |s| ==> key(s[i]) != k
    ensures WithKey(s, key, k) == []
    decreases |s|
  {
    if |s| > 0 {
      assert forall i :: 0 <= i < |s| - 1 ==> s[1..][i] == s[i + 1];
      WithKeyAbsent(s[1..], key, k);
    }
  }

  /** The sort is stable: for every key, the elements with that key appear
      in the result in the same order as in the input. */
  lemma SortIsStable<T>(s: seq<T>, key: T -> SortKey)
    ensures forall k :: WithKey(SortBy(s, key), key, k) == WithKey(s, key, k)
  {
    forall k ensures WithKey(SortBy(s, key), key, k) == WithKey(s, key, k) {
      StableAtKey(s, key, k);
    }
  }

  lemma {:induction false} StableAtKey<T>(s: seq<T>, key: T -> SortKey, k: SortKey)
    ensures WithKey(SortBy(s, key), key, k) == WithKey(s, key, k)
    decreases |s|
  {
    if |s| > 0 {
      var m := FirstMin(s, key);
      var rest := s[..m] + s[m + 1..];
      StableAtKey(rest, key, k);
      var sorted := SortBy(rest, key);
      assert SortBy(s, key) == [s[m]] + sorted;
      WithKeyAppend([s[m]], sorted, key, k);
      if key(s[m]) == k {
        assert forall i :: 0 <= i < m ==> Less(key(s[m]), key(s[i]));
      }
      TakeOutFilter(s, m, key, k);
    }
  }

  /** Taking out the element at `m` moves it to the front of its key's
      elements when no earlier element has its key. */
  lemma TakeOutFilter<T>(s: seq<T>, m: int, key: T -> SortKey, k: SortKey)
    requires 0 <= m < |s|
    requires key(s[m]) == k ==> forall i :: 0 <= i < m ==> key(s[i]) != k
    ensures WithKey(s, key, k) == WithKey([s[m]], key, k) + WithKey(s[..m] + s[m + 1..], key, k)
  {
    assert s == s[..m] + ([s[m]] + s[m + 1..]);
    WithKeyAppend(s[..m], [s[m]] + s[m + 1..], key, k);
    WithKeyAppend([s[m]], s[m + 1..], key, k);
    WithKeyAppend(s[..m], s[m + 1..], key, k);
    if key(s[m]) == k {
      assert forall i :: 0 <= i < m ==> s[..m][i] == s[i];
      WithKeyAbsent(s[..m], key, k);
    }
  }

  /** Two keys neither of which is less than the other are equal. */
  lemma KeysTotal(a: SortKey, b: SortKey)
    ensures !Less(a, b) && !Less(b, a) ==> a == b
  {
  }

  /** A sorted sequence is fixed by what it holds for each key, in order:
      two sorted sequences with the same elements of each key, in the same
      order, are equal. Together with `SortIsStable` this says that
      `SortBy` returns what every stable sort returns. */
  lemma {:induction false} StableSortIsUnique<T>(t: seq<T>, u: seq<T>, key: T -> SortKey)
    requires Sorted(t, key) && Sorted(u, key)
    requires forall k :: WithKey(t, key, k) == WithKey(u, key, k)
    ensures t == u
    decreases |t| + |u|
  {
    FilterOfHead(t, key);
    FilterOfHead(u, key);
    if |t| > 0 && |u| > 0 {
      var kt := key(t[0]);
      var ku := key(u[0]);
      KeyInFilter(u, key, kt);
      KeyInFilter(t, key, ku);
      KeysTotal(kt, ku);
      assert kt == ku;
      assert WithKey(t, key, kt) == [t[0]] + WithKey(t[1..], key, kt);
      assert WithKey(u, key, kt) == [u[0]] + WithKey(u[1..], key, kt);
      assert t[0] == WithKey(t, key, kt)[0] == u[0];
      forall k ensures WithKey(t[1..], key, k) == WithKey(u[1..], key, k) {
        var head := if kt == k then [t[0]] else [];
        assert WithKey(t, key, k) == head + WithKey(t[1..], key, k);
        assert WithKey(u, key, k) == head + WithKey(u[1..], key, k);
        assert WithKey(t[1..], key, k) == WithKey(t, key, k)[|head|..];
        assert WithKey(u[1..], key, k) == WithKey(u, key, k)[|head|..];
      }
      assert Sorted(t[1..], key) by {
        forall a, b | 0 <= a < b < |t| - 1 ensures LessEq(key(t[1..][a]), key(t[1..][b])) {
          assert t[1..][a] == t[a + 1] && t[1..][b] == t[b + 1];
        }
      }
      assert Sorted(u[1..], key) by {
        forall a, b | 0 <= a < b < |u| - 1 ensures LessEq(key(u[1..][a]), key(u[1..][b])) {
          assert u[1..][a] == u[a + 1] && u[1..][b] == u[b + 1];
        }
      }
      StableSortIsUnique(t[1..], u[1..], key);
      assert t == [t[0]] + t[1..] && u == [u[0]] + u[1..];
    }
  }

  /** A non-empty sequence has its head among the elements of the head's
      key. */
  lemma FilterOfHead<T>(s: seq<T>, key: T -> SortKey)
    ensures |s| > 0 ==> WithKey(s, key, key(s[0])) != []
  {
  }

  /** In a sorted sequence every element with key `k` has a key no less
      than the head's: when `k` is below the head's key there is none. */
  lemma KeyInFilter<T>(s: seq<T>, key: T -> SortKey, k: SortKey)
    requires Sorted(s, key)
    ensures |s| > 0 && Less(k, key(s[0])) ==> WithKey(s, key, k) == []
  {
    if |s| > 0 && Less(k, key(s[0])) {
      forall i | 0 <= i < |s| ensures key(s[i]) != k {
        assert LessEq(key(s[0]), key(s[i]));
      }
      WithKeyAbsent(s, key, k);
    }
  }
}
