/** A stable sort into descending key order: `sorted(xs, key=key,
    reverse=True)`.  Python's sort is stable and `reverse=True` keeps it
    stable, so elements with equal keys stay in their input order while
    the keys run from greatest to least.  The key order is a parameter. */
module StableSort {
  import opened Ordering

  /** The elements of `s` whose key is `k`, in their order in `s`. */
  function Select<T, K(==)>(s: seq<T>, key: T -> K, k: K): seq<T>
  {
    if |s| == 0 then []
    else (if key(s[0]) == k then [s[0]] else []) + Select(s[1..], key, k)
  }

  /** No element's key is below the key of an element after it. */
  predicate Descending<T, K>(s: seq<T>, key: T -> K, less: (K, K) -> bool)
  {
    forall i, j :: 0 <= i < j < |s| ==> !less(key(s[i]), key(s[j]))
  }

  /** `x` put in front of the first element whose key is not above its own. */
  function Insert<T(==), K>(x: T, s: seq<T>, key: T -> K, less: (K, K) -> bool): (r: seq<T>)
    ensures |r| == |s| + 1
    ensures multiset(r) == multiset(s) + multiset{x}
  {
    if |s| == 0 || !less(key(x), key(s[0])) then [x] + s
    else
      assert s == [s[0]] + s[1..];
      [s[0]] + Insert(x, s[1..], key, less)
  }

  /** Insertion sort from the back, so that an earlier element is inserted
      in front of the later ones with the same key. */
  function SortDesc<T(==), K>(s: seq<T>, key: T -> K, less: (K, K) -> bool): (r: seq<T>)
    ensures |r| == |s|
    ensures multiset(r) == multiset(s)
  {
    if |s| == 0 then []
    else
      assert s == [s[0]] + s[1..];
      Insert(s[0], SortDesc(s[1..], key, less), key, less)
  }

  lemma {:induction false} SelectMembers<T, K>(s: seq<T>, key: T -> K, k: K, x: T)
    ensures x in Select(s, key, k) <==> x in s && key(x) == k
    decreases |s|
  {
    if |s| > 0 {
      SelectMembers(s[1..], key, k, x);
      assert s == [s[0]] + s[1..];
    }
  }

  /** Inserting `x` adds it at the front of its own key's group and leaves
      every group's order alone. */
  lemma {:induction false} InsertSelect<T, K(!new)>(x: T, s: seq<T>, key: T -> K, less: (K, K) -> bool, k: K)
    requires Irreflexive(less)
    ensures Select(Insert(x, s, key, less), key, k)
            == (if key(x) == k then [x] else []) + Select(s, key, k)
    decreases |s|
  {
    if |s| > 0 && less(key(x), key(s[0])) {
      InsertSelect(x, s[1..], key, less, k);
      assert key(x) != key(s[0]);
    }
  }

  /** The sort keeps every key group in its input order: it is stable. */
  lemma {:induction false} SortSelect<T, K(!new)>(s: seq<T>, key: T -> K, less: (K, K) -> bool, k: K)
    requires Irreflexive(less)
    ensures Select(SortDesc(s, key, less), key, k) == Select(s, key, k)
    decreases |s|
  {
    if |s| > 0 {
      SortSelect(s[1..], key, less, k);
      InsertSelect(s[0], SortDesc(s[1..], key, less), key, less, k);
    }
  }

  lemma {:induction false} InsertDescending<T, K(!new)>(x: T, s: seq<T>, key: T -> K, less: (K, K) -> bool)
    requires StrictTotalOrder(less) && Descending(s, key, less)
    ensures Descending(Insert(x, s, key, less), key, less)
    decreases |s|
  {
    if |s| == 0 {
    } else if !less(key(x), key(s[0])) {
      var r := [x] + s;
      forall j | 0 < j < |r| ensures !less(key(x), key(r[j])) {
        if j > 1 {
          assert !less(key(s[0]), key(s[j - 1]));
        }
      }
    } else {
      var t := Insert(x, s[1..], key, less);
      InsertDescending(x, s[1..], key, less);
      var r := [s[0]] + t;
      forall j | 0 <= j < |t| ensures !less(key(s[0]), key(t[j])) {
        assert t[j] in multiset(t);
        if t[j] != x {
          var m :| 0 <= m < |s[1..]| && s[1..][m] == t[j];
          assert s[m + 1] == t[j];
        }
      }
      forall i, j | 0 <= i < j < |r| ensures !less(key(r[i]), key(r[j])) {
        if i > 0 {
          assert r[i] == t[i - 1] && r[j] == t[j - 1];
        }
      }
    }
  }

  /** The output runs from the greatest key to the least. */
  lemma {:induction false} SortDescending<T, K(!new)>(s: seq<T>, key: T -> K, less: (K, K) -> bool)
    requires StrictTotalOrder(less)
    ensures Descending(SortDesc(s, key, less), key, less)
    decreases |s|
  {
    if |s| > 0 {
      SortDescending(s[1..], key, less);
      InsertDescending(s[0], SortDesc(s[1..], key, less), key, less);
    }
  }

  /** `sorted(..., reverse=True)` is pinned down by two facts: the output is
      descending and every key group keeps its input order.  Two sequences
      with both facts, for the same groups, are equal. */
  lemma {:induction false} DescendingUnique<T, K(!new)>(a: seq<T>, b: seq<T>, key: T -> K, less: (K, K) -> bool)
    requires StrictTotalOrder(less)
    requires Descending(a, key, less) && Descending(b, key, less)
    requires forall k :: Select(a, key, k) == Select(b, key, k)
    ensures a == b
    decreases |a| + |b|
  {
    if |a| == 0 || |b| == 0 {
      // A non-empty side has a non-empty group that the other side lacks.
      HeadGroupNonEmpty(a, key);
      HeadGroupNonEmpty(b, key);
    } else {
      var ka, kb := key(a[0]), key(b[0]);
      if ka != kb {
        if less(ka, kb) {
          AboveHeadAbsent(a, b[0], key, less);
          SelectMembers(b, key, kb, b[0]);
          SelectMembers(a, key, kb, b[0]);
        } else {
          AboveHeadAbsent(b, a[0], key, less);
          SelectMembers(a, key, ka, a[0]);
          SelectMembers(b, key, ka, a[0]);
        }
        assert false;
      }
      assert a[0] == Select(a, key, ka)[0] == Select(b, key, ka)[0] == b[0];
      forall k ensures Select(a[1..], key, k) == Select(b[1..], key, k) {
        var h := if ka == k then [a[0]] else [];
        assert Select(a, key, k) == h + Select(a[1..], key, k);
        assert Select(b, key, k) == h + Select(b[1..], key, k);
        assert Select(a[1..], key, k) == Select(a, key, k)[|h|..];
      }
      DescendingUnique(a[1..], b[1..], key, less);
      assert a == [a[0]] + a[1..] && b == [b[0]] + b[1..];
    }
  }

  lemma HeadGroupNonEmpty<T, K>(s: seq<T>, key: T -> K)
    ensures |s| > 0 ==> Select(s, key, key(s[0])) != []
  {
  }

  /** In a descending sequence nothing has a key above the head's. */
  lemma AboveHeadAbsent<T, K(!new)>(s: seq<T>, x: T, key: T -> K, less: (K, K) -> bool)
    requires Irreflexive(less)
    requires |s| > 0 && Descending(s, key, less) && less(key(s[0]), key(x))
    ensures x !in s
  {
  }

  /** The sort's output is exactly the descending arrangement of the input
      that keeps each key group in input order. */
  lemma SortCharacterization<T, K(!new)>(s: seq<T>, r: seq<T>, key: T -> K, less: (K, K) -> bool)
    requires StrictTotalOrder(less)
    ensures r == SortDesc(s, key, less) ==> Descending(r, key, less)
    ensures r == SortDesc(s, key, less) ==> forall k :: Select(r, key, k) == Select(s, key, k)
    ensures Descending(r, key, less) && (forall k :: Select(r, key, k) == Select(s, key, k))
            ==> r == SortDesc(s, key, less)
  {
    var sorted := SortDesc(s, key, less);
    SortDescending(s, key, less);
    forall k ensures Select(sorted, key, k) == Select(s, key, k) {
      SortSelect(s, key, less, k);
    }
    if r == sorted {
      assert Descending(r, key, less);
      assert forall k :: Select(r, key, k) == Select(s, key, k);
    }
    if Descending(r, key, less) && forall k :: Select(r, key, k) == Select(s, key, k) {
      assert forall k :: Select(r, key, k) == Select(sorted, key, k);
      DescendingUnique(r, sorted, key, less);
    }
  }

  /** Inserting under two key orders that rank `x` against every element
      alike gives the same result. */
  lemma {:induction false} InsertAgree<T, K1, K2>(
    x: T, s: seq<T>, key1: T -> K1, less1: (K1, K1) -> bool, key2: T -> K2, less2: (K2, K2) -> bool)
    requires forall y :: y in s ==> (less1(key1(x), key1(y)) <==> less2(key2(x), key2(y)))
    ensures Insert(x, s, key1, less1) == Insert(x, s, key2, less2)
    decreases |s|
  {
    if |s| > 0 {
      assert s[0] in s;
      InsertAgree(x, s[1..], key1, less1, key2, less2);
    }
  }

  /** Sorting by two key orders that rank every pair of elements alike
      gives the same result. */
  lemma {:induction false} SortAgree<T, K1, K2>(
    s: seq<T>, key1: T -> K1, less1: (K1, K1) -> bool, key2: T -> K2, less2: (K2, K2) -> bool)
    requires forall x, y :: x in s && y in s ==> (less1(key1(x), key1(y)) <==> less2(key2(x), key2(y)))
    ensures SortDesc(s, key1, less1) == SortDesc(s, key2, less2)
    decreases |s|
  {
    if |s| > 0 {
      var t := SortDesc(s[1..], key1, less1);
      SortAgree(s[1..], key1, less1, key2, less2);
      forall y | y in t ensures y in s {
        assert y in multiset(t);
      }
      InsertAgree(s[0], t, key1, less1, key2, less2);
    }
  }
}
