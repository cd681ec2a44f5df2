/** Python's `str.replace(old, new)` with no count: every non-overlapping
    occurrence of `old`, found scanning left to right, is replaced by `new`,
    and the inserted text is never scanned again. */
module Replace {

  /** `pat` occurs in `s` starting at position `i`. */
  predicate MatchAt(s: string, pat: string, i: nat) {
    i + |pat| <= |s| && s[i..i + |pat|] == pat
  }

  ghost predicate Contains(s: string, pat: string) {
    exists i: nat :: MatchAt(s, pat, i)
  }

  /** An occurrence of `pat` in `a + b` that begins inside `a` and ends
      inside `b`. */
  ghost predicate Straddles(a: string, b: string, pat: string) {
    exists i: nat :: i < |a| < i + |pat| && MatchAt(a + b, pat, i)
  }

  /** `"ab".replace("", "X") == "XaXbX"`: the empty pattern matches before
      every character and at the end. */
  function InsertEverywhere(s: string, rep: string): string
  {
    if |s| == 0 then rep else rep + [s[0]] + InsertEverywhere(s[1..], rep)
  }

  function ReplaceAll(s: string, pat: string, rep: string): string
    decreases |s|
  {
    if |pat| == 0 then InsertEverywhere(s, rep)
    else if |s| < |pat| then s
    else if s[..|pat|] == pat then rep + ReplaceAll(s[|pat|..], pat, rep)
    else [s[0]] + ReplaceAll(s[1..], pat, rep)
  }

  /** Text without the pattern comes back unchanged. */
  lemma {:induction false} ReplaceAbsent(s: string, pat: string, rep: string)
    requires |pat| > 0 && !Contains(s, pat)
    ensures ReplaceAll(s, pat, rep) == s
    decreases |s|
  {
    if |s| >= |pat| {
      assert !MatchAt(s, pat, 0);
      assert !Contains(s[1..], pat) by {
        forall i: nat | MatchAt(s[1..], pat, i) ensures MatchAt(s, pat, i + 1) {
          assert s[1..][i..i + |pat|] == s[i + 1..i + 1 + |pat|];
        }
      }
      ReplaceAbsent(s[1..], pat, rep);
      assert s == [s[0]] + s[1..];
    }
  }

  /** The pattern alone becomes the replacement alone. */
  lemma ReplaceWhole(pat: string, rep: string)
    requires |pat| > 0
    ensures ReplaceAll(pat, pat, rep) == rep
  {
  }

  /** Dropping a prefix of `a` keeps a straddle-free boundary straddle-free. */
  lemma NoStraddleAfterDrop(a: string, b: string, pat: string, k: nat)
    requires k <= |a| && !Straddles(a, b, pat)
    ensures !Straddles(a[k..], b, pat)
  {
    forall i: nat | i < |a[k..]| < i + |pat| && MatchAt(a[k..] + b, pat, i)
      ensures MatchAt(a + b, pat, i + k)
    {
      assert a[k..] + b == (a + b)[k..];
      assert (a[k..] + b)[i..i + |pat|] == (a + b)[i + k..i + k + |pat|];
    }
  }

  /** Replacement distributes over a concatenation when no occurrence of the
      pattern crosses the join: the left-to-right scan of `a + b` reaches the
      start of `b` exactly, so each side is rewritten on its own. */
  lemma {:induction false} ReplaceSplit(a: string, b: string, pat: string, rep: string)
    requires |pat| > 0 && !Straddles(a, b, pat)
    ensures ReplaceAll(a + b, pat, rep) == ReplaceAll(a, pat, rep) + ReplaceAll(b, pat, rep)
    decreases |a|
  {
    if |a| == 0 {
      assert a + b == b;
    } else if |a + b| < |pat| {
      assert ReplaceAll(b, pat, rep) == b;
    } else if (a + b)[..|pat|] == pat {
      assert MatchAt(a + b, pat, 0);
      assert a[..|pat|] == pat;
      assert (a + b)[|pat|..] == a[|pat|..] + b;
      NoStraddleAfterDrop(a, b, pat, |pat|);
      ReplaceSplit(a[|pat|..], b, pat, rep);
    } else {
      assert (a + b)[1..] == a[1..] + b;
      NoStraddleAfterDrop(a, b, pat, 1);
      ReplaceSplit(a[1..], b, pat, rep);
      if |a| >= |pat| {
        assert a[..|pat|] == (a + b)[..|pat|];
      } else {
        assert ReplaceAll(a[1..], pat, rep) == a[1..];
        assert a == [a[0]] + a[1..];
      }
    }
  }

  /** Every occurrence in `a + b` lies in `a`, lies in `b`, or crosses the join. */
  lemma ContainsConcat(a: string, b: string, pat: string)
    requires Contains(a + b, pat)
    ensures Contains(a, pat) || Contains(b, pat) || Straddles(a, b, pat)
  {
    var i: nat :| MatchAt(a + b, pat, i);
    if i + |pat| <= |a| {
      assert (a + b)[i..i + |pat|] == a[i..i + |pat|];
      assert MatchAt(a, pat, i);
    } else if i >= |a| {
      assert (a + b)[i..i + |pat|] == b[i - |a|..i - |a| + |pat|];
      assert MatchAt(b, pat, i - |a|);
    } else {
      assert i < |a| < i + |pat|;
    }
  }

  /** A join is safe when the character on one side of it does not occur in
      the pattern. */
  lemma NoStraddleAtGuard(a: string, b: string, pat: string)
    requires (|a| > 0 && a[|a| - 1] !in pat) || (|b| > 0 && b[0] !in pat)
    ensures !Straddles(a, b, pat)
  {
    forall i: nat | i < |a| < i + |pat| ensures !MatchAt(a + b, pat, i) {
      if i + |pat| <= |a + b| {
        var w := (a + b)[i..i + |pat|];
        if |a| > 0 && a[|a| - 1] !in pat {
          assert w[|a| - 1 - i] == a[|a| - 1];
        } else {
          assert w[|a| - i] == b[0];
        }
      }
    }
  }

  /** A join is safe when the pattern starts with a character that the left
      side does not contain. */
  lemma NoStraddleAfterFree(a: string, b: string, pat: string)
    requires |pat| > 0 && pat[0] !in a
    ensures !Straddles(a, b, pat)
  {
  }

  /** Text that lacks the pattern's first character, or is shorter than the
      pattern, does not contain it. */
  lemma AbsentWithoutFirst(s: string, pat: string)
    requires |pat| > 0 && (pat[0] !in s || |s| < |pat|)
    ensures !Contains(s, pat)
  {
  }
}
