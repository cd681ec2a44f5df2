/** Python's `<` on `str`: code points are compared left to right, and a
    proper prefix sorts before the longer string.  This is the order that
    `sorted(..., key=lambda d: d["weight"]["value"])` applies, because a SPARQL
    JSON result carries every term's `value` as a string. */
module LexOrder {
  import opened Ordering

  predicate LexLess(a: string, b: string)
  {
    if |b| == 0 then false
    else if |a| == 0 then true
    else if a[0] != b[0] then a[0] < b[0]
    else LexLess(a[1..], b[1..])
  }

  /** `a` and `b` agree on their first `k` code points and differ at `k`,
      where `a` has the smaller one. */
  ghost predicate FirstDifferenceBelow(a: string, b: string, k: nat) {
    k < |a| && k < |b| && a[..k] == b[..k] && a[k] < b[k]
  }

  /** The textbook definition of lexicographic order, independent of the
      recursive one: `a` is a proper prefix of `b`, or the first position
      where they differ holds a smaller code point in `a`. */
  lemma {:induction false} LexLessCharacterization(a: string, b: string)
    ensures LexLess(a, b) <==>
              (|a| < |b| && a == b[..|a|]) || exists k: nat :: FirstDifferenceBelow(a, b, k)
    decreases |a|
  {
    if |a| == 0 || |b| == 0 {
      if |b| > 0 { assert a == b[..|a|]; }
      forall k: nat ensures !FirstDifferenceBelow(a, b, k) { }
    } else if a[0] != b[0] {
      if a[0] < b[0] {
        assert FirstDifferenceBelow(a, b, 0);
      } else {
        forall k: nat ensures !FirstDifferenceBelow(a, b, k) { }
        if |a| < |b| {
          assert a[0] != b[..|a|][0];
        }
      }
    } else {
      LexLessCharacterization(a[1..], b[1..]);
      var a', b' := a[1..], b[1..];
      assert a == [a[0]] + a' && b == [b[0]] + b';
      // A difference in the tails is a difference in the whole strings, one place later.
      forall k: nat | FirstDifferenceBelow(a', b', k)
        ensures FirstDifferenceBelow(a, b, k + 1)
      {
        assert a[..k + 1] == [a[0]] + a'[..k];
        assert b[..k + 1] == [b[0]] + b'[..k];
      }
      forall k: nat | FirstDifferenceBelow(a, b, k)
        ensures k > 0 && FirstDifferenceBelow(a', b', k - 1)
      {
        assert a'[..k - 1] == a[..k][1..] && b'[..k - 1] == b[..k][1..];
      }
      if |a| < |b| {
        PrefixByTail(a, b);
      }
    }
  }

  /** With equal first code points, `a` begins `b` exactly when the tail of
      `a` begins the tail of `b`. */
  lemma PrefixByTail(a: string, b: string)
    requires 0 < |a| <= |b| && a[0] == b[0]
    ensures a == b[..|a|] <==> a[1..] == b[1..][..|a| - 1]
  {
  }

  lemma {:induction false} LexLessIrreflexive(a: string)
    ensures !LexLess(a, a)
    decreases |a|
  {
    if |a| > 0 {
      LexLessIrreflexive(a[1..]);
    }
  }

  lemma {:induction false} LexLessTransitive(a: string, b: string, c: string)
    requires LexLess(a, b) && LexLess(b, c)
    ensures LexLess(a, c)
    decreases |a|
  {
    if |a| > 0 && a[0] == b[0] && b[0] == c[0] {
      LexLessTransitive(a[1..], b[1..], c[1..]);
    }
  }

  lemma {:induction false} LexLessConnected(a: string, b: string)
    requires a != b
    ensures LexLess(a, b) || LexLess(b, a)
    decreases |a|
  {
    if |a| > 0 && |b| > 0 && a[0] == b[0] {
      assert a == [a[0]] + a[1..] && b == [b[0]] + b[1..];
      LexLessConnected(a[1..], b[1..]);
    }
  }

  /** Python string comparison is a strict total order, so sorting by it is
      well defined. */
  lemma LexLessIsStrictTotalOrder()
    ensures StrictTotalOrder(LexLess)
  {
    forall a ensures !LexLess(a, a) {
      LexLessIrreflexive(a);
    }
    forall a, b, c | LexLess(a, b) && LexLess(b, c) ensures LexLess(a, c) {
      LexLessTransitive(a, b, c);
    }
    forall a, b | a != b ensures LexLess(a, b) || LexLess(b, a) {
      LexLessConnected(a, b);
    }
  }
}
