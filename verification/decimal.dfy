/** Decimal text of natural numbers: Python's `str(n)` for `n >= 0`, and
    the reading of a string of decimal digits back into a number. */
module Decimal {
  import opened Wrappers
  import opened LexOrder

  predicate IsDigit(c: char)
  {
    '0' <= c <= '9'
  }

  predicate AllDigits(s: string)
  {
    forall i :: 0 <= i < |s| ==> IsDigit(s[i])
  }

  /** Digits without a superfluous leading zero, as `str` writes them. */
  predicate Canonical(s: string)
  {
    |s| > 0 && AllDigits(s) && (s[0] == '0' ==> |s| == 1)
  }

  function DigitValue(c: char): nat
    requires IsDigit(c)
  {
    c as int - '0' as int
  }

  function DigitChar(d: nat): (c: char)
    requires d < 10
    ensures IsDigit(c) && DigitValue(c) == d
  {
    ('0' as int + d) as char
  }

  function Pow10(n: nat): (r: nat)
    ensures r >= 1
  {
    if n == 0 then 1 else 10 * Pow10(n - 1)
  }

  /** The number a digit string denotes, read most significant digit first. */
  function Value(s: string): nat
    requires AllDigits(s)
  {
    if |s| == 0 then 0 else 10 * Value(s[..|s| - 1]) + DigitValue(s[|s| - 1])
  }

  /** `str(n)` for a natural number. */
  function NatToString(n: nat): (r: string)
    ensures Canonical(r)
  {
    if n < 10 then [DigitChar(n)]
    else
      var r := NatToString(n / 10) + [DigitChar(n % 10)];
      assert r[0] == NatToString(n / 10)[0];
      r
  }

  /** `str(i)` for any integer: a minus sign before the digits of `-i`. */
  function IntToString(i: int): (r: string)
    ensures |r| > 0
    ensures i >= 0 ==> Canonical(r)
    ensures i < 0 ==> r[0] == '-' && Canonical(r[1..])
    ensures i >= 0 ==> ParseNat(r) == Some(i)
    ensures i < 0 ==> ParseNat(r[1..]) == Some(-i)
  {
    if i < 0 then
      ParseNatToString(-i);
      assert ("-" + NatToString(-i))[1..] == NatToString(-i);
      "-" + NatToString(-i)
    else
      ParseNatToString(i);
      NatToString(i)
  }

  /** A string of one or more decimal digits, read as a number. */
  function ParseNat(s: string): (r: Option<nat>)
    ensures r.Some? <==> |s| > 0 && AllDigits(s)
  {
    if |s| > 0 && AllDigits(s) then Some(Value(s)) else None
  }

  /** Reading back what `str` wrote gives the number again. */
  lemma {:induction false} ParseNatToString(n: nat)
    ensures ParseNat(NatToString(n)) == Some(n)
    decreases n
  {
    var s := NatToString(n);
    if n >= 10 {
      ParseNatToString(n / 10);
      assert s[..|s| - 1] == NatToString(n / 10);
      assert Value(s) == 10 * (n / 10) + n % 10;
    } else {
      assert s[..0] == [];
    }
  }

  /** Writing out the number a canonical string denotes gives the string
      again, so `NatToString` and `ParseNat` are mutually inverse on
      canonical strings. */
  lemma {:induction false} NatToStringValue(s: string)
    requires Canonical(s)
    ensures NatToString(Value(s)) == s
    decreases |s|
  {
    if |s| > 1 {
      var init := s[..|s| - 1];
      assert init[0] == s[0];
      NatToStringValue(init);
      ValueBound(s);
      LeadingDigitBound(s);
      assert s == init + [s[|s| - 1]];
    } else {
      assert Value(s) == 10 * Value(s[..0]) + DigitValue(s[0]);
    }
  }

  lemma {:induction false} ValueBound(s: string)
    requires AllDigits(s)
    ensures Value(s) < Pow10(|s|)
    decreases |s|
  {
    if |s| > 0 {
      ValueBound(s[..|s| - 1]);
    }
  }

  /** A canonical string of two or more digits denotes at least 10. */
  lemma {:induction false} LeadingDigitBound(s: string)
    requires Canonical(s) && |s| > 1
    ensures Value(s) >= 10
    decreases |s|
  {
    var init := s[..|s| - 1];
    if |init| > 1 {
      assert init[0] == s[0];
      LeadingDigitBound(init);
    } else {
      assert Value(init) == DigitValue(s[0]) by {
        assert init[..0] == [];
      }
    }
  }

  /** The value read from the most significant digit: the first digit
      weighs `10^(|s|-1)`. */
  lemma {:induction false} ValueFront(s: string)
    requires |s| > 0 && AllDigits(s)
    ensures Value(s) == DigitValue(s[0]) * Pow10(|s| - 1) + Value(s[1..])
    decreases |s|
  {
    if |s| == 1 {
      assert s[1..] == [] && s[..0] == [];
    } else {
      var init, tail := s[..|s| - 1], s[1..];
      ValueFront(init);
      assert init[1..] == tail[..|tail| - 1];
      assert init[0] == s[0] && tail[|tail| - 1] == s[|s| - 1];
      assert Value(tail) == 10 * Value(init[1..]) + DigitValue(s[|s| - 1]);
      ShiftDigit(DigitValue(s[0]), Pow10(|s| - 2), Value(init[1..]), DigitValue(s[|s| - 1]));
    }
  }

  lemma ShiftDigit(d: int, p: int, v: int, x: int)
    ensures 10 * (d * p + v) + x == d * (10 * p) + (10 * v + x)
  {
  }

  lemma LeadingDigitDominates(d: nat, e: nat, p: nat, x: nat, y: nat)
    requires d < e && x < p
    ensures d * p + x < e * p + y
  {
    assert (d + 1) * p <= e * p;
  }

  /** For digit strings of one length, Python's string order is numeric
      order. */
  lemma {:induction false} SameLengthOrder(a: string, b: string)
    requires AllDigits(a) && AllDigits(b) && |a| == |b|
    ensures LexLess(a, b) <==> Value(a) < Value(b)
    decreases |a|
  {
    if |a| > 0 {
      ValueFront(a);
      ValueFront(b);
      SameLengthOrder(a[1..], b[1..]);
      var p := Pow10(|a| - 1);
      ValueBound(a[1..]);
      ValueBound(b[1..]);
      var da, db := DigitValue(a[0]), DigitValue(b[0]);
      if da < db {
        LeadingDigitDominates(da, db, p, Value(a[1..]), Value(b[1..]));
      } else if db < da {
        LeadingDigitDominates(db, da, p, Value(b[1..]), Value(a[1..]));
      }
    }
  }

  /** The number of decimal digits at the front of `s`. */
  function DigitRun(s: string): (n: nat)
    ensures n <= |s| && AllDigits(s[..n])
    ensures n < |s| ==> !IsDigit(s[n])
  {
    if |s| > 0 && IsDigit(s[0]) then
      var n := 1 + DigitRun(s[1..]);
      assert s[..n] == [s[0]] + s[1..][..n - 1];
      n
    else 0
  }

  /** Reads an integer written as `str` writes one, an optional minus sign
      followed by digits, off the front of `s`, and returns it with the
      text that follows. */
  function ReadInt(s: string): Option<(int, string)>
  {
    var negative := |s| > 0 && s[0] == '-';
    var body := if negative then s[1..] else s;
    var n := DigitRun(body);
    match ParseNat(body[..n])
    case None => None
    case Some(v) =>
      var i: int := if negative then -(v as int) else v;
      Some((i, body[n..]))
  }

  /** A digit string followed by text that does not start with a digit is
      read up to its end and no further. */
  lemma {:induction false} DigitRunStops(d: string, rest: string)
    requires AllDigits(d)
    requires |rest| == 0 || !IsDigit(rest[0])
    ensures DigitRun(d + rest) == |d|
    decreases |d|
  {
    if |d| > 0 {
      assert (d + rest)[1..] == d[1..] + rest;
      DigitRunStops(d[1..], rest);
    } else {
      assert d + rest == rest;
    }
  }

  /** `ReadInt` takes back what `IntToString` wrote, whatever follows it
      as long as that does not start with a digit. */
  lemma ReadIntToString(i: int, rest: string)
    requires |rest| == 0 || !IsDigit(rest[0])
    ensures ReadInt(IntToString(i) + rest) == Some((i, rest))
  {
    var s := IntToString(i) + rest;
    var digits := if i < 0 then IntToString(i)[1..] else IntToString(i);
    var body := if i < 0 then s[1..] else s;
    assert body == digits + rest;
    DigitRunStops(digits, rest);
    assert body[..|digits|] == digits;
    assert body[|digits|..] == rest;
  }

  /** Across lengths the two orders part: `"10"` sorts below `"5"` as a
      string but denotes the larger number. */
  lemma LexOrderIsNotNumeric()
    ensures LexLess("10", "5") && Value("10") > Value("5")
  {
  }

  lemma TenAndFive()
    ensures ParseNat("10") == Some(10) && ParseNat("5") == Some(5)
  {
    assert "10"[..1] == "1" && "1"[..0] == [] && "5"[..0] == [];
  }
}
