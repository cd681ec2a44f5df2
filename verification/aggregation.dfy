/** `SkosSearch.combine_search_results`: the per-endpoint result lists are
    chained into one list, which is sorted by `d["weight"]["value"]` from the
    greatest weight to the least.  In the SPARQL JSON results format that
    value is the weight's lexical form, a string, so the order applied is
    Python's string order. */
module Aggregation {
  import opened Wrappers
  import opened Ordering
  import opened LexOrder
  import opened Decimal
  import opened StableSort
  import opened Sparql
  import opened SkosSearch

  function TotalLength<T>(xss: seq<seq<T>>): nat
  {
    if |xss| == 0 then 0 else |xss[0]| + TotalLength(xss[1..])
  }

  /** `itertools.chain.from_iterable`. */
  function Flatten<T(!new)>(xss: seq<seq<T>>): (r: seq<T>)
    ensures |r| == TotalLength(xss)
    ensures forall x :: x in r <==> exists i :: 0 <= i < |xss| && x in xss[i]
  {
    if |xss| == 0 then []
    else
      var r := xss[0] + Flatten(xss[1..]);
      assert forall x :: (exists i :: 0 <= i < |xss| && x in xss[i])
                         <==> x in xss[0] || exists i :: 0 <= i < |xss[1..]| && x in xss[1..][i] by {
        forall x, i | 0 < i < |xss| && x in xss[i]
          ensures exists j :: 0 <= j < |xss[1..]| && x in xss[1..][j]
        {
          assert xss[1..][i - 1] == xss[i];
        }
      }
      r
  }

  /** Chaining keeps the lists' order: the flattening of a concatenation is
      the concatenation of the flattenings. */
  lemma {:induction false} FlattenConcat<T(!new)>(a: seq<seq<T>>, b: seq<seq<T>>)
    ensures Flatten(a + b) == Flatten(a) + Flatten(b)
    decreases |a|
  {
    if |a| == 0 {
      assert a + b == b;
    } else {
      assert (a + b)[1..] == a[1..] + b;
      FlattenConcat(a[1..], b);
    }
  }

  /** A single list chains to itself. */
  lemma FlattenSingle<T(!new)>(xs: seq<T>)
    ensures Flatten([xs]) == xs
  {
    assert [xs][1..] == [];
  }

  /** Element `j` of list `i` sits in the chained list after all elements of
      the earlier lists: nothing is dropped, duplicated or moved. */
  lemma {:induction false} FlattenAt<T(!new)>(xss: seq<seq<T>>, i: nat, j: nat)
    requires i < |xss| && j < |xss[i]|
    ensures TotalLength(xss[..i]) + j < |Flatten(xss)|
    ensures Flatten(xss)[TotalLength(xss[..i]) + j] == xss[i][j]
    decreases i
  {
    if i == 0 {
      assert xss[..0] == [];
    } else {
      FlattenAt(xss[1..], i - 1, j);
      assert xss[..i][1..] == xss[1..][..i - 1];
      assert xss[1..][i - 1] == xss[i];
      assert TotalLength(xss[..i]) == |xss[0]| + TotalLength(xss[1..][..i - 1]);
    }
  }

  /** The term bound to `weight` has a `value` member. */
  predicate HasWeight(b: Binding)
  {
    "weight" in b && "value" in b["weight"]
  }

  /** The sort key `d["weight"]["value"]`, for bindings that have one. */
  function WeightText(b: Binding): string
  {
    if HasWeight(b) then b["weight"]["value"] else ""
  }

  /** The facts of a stable descending sort under Python's string order. */
  lemma LexSortFacts(all: seq<Binding>)
    ensures Descending(SortDesc(all, WeightText, LexLess), WeightText, LexLess)
    ensures forall k :: Select(SortDesc(all, WeightText, LexLess), WeightText, k) == Select(all, WeightText, k)
  {
    LexLessIsStrictTotalOrder();
    SortDescending(all, WeightText, LexLess);
    forall k ensures Select(SortDesc(all, WeightText, LexLess), WeightText, k) == Select(all, WeightText, k) {
      SortSelect(all, WeightText, LexLess, k);
    }
  }

  /** `combine_search_results(search_results, search_method)`, as written:
      the method must be a known one, every binding must have a weight, and
      the chained bindings are stably sorted by weight text, greatest first. */
  function Combine(results: seq<seq<Binding>>, searchMethod: string): (r: Result<seq<Binding>, SearchError>)
    ensures searchMethod !in SearchMethods ==> r == Failure(InvalidSearchMethod)
    ensures searchMethod in SearchMethods ==>
              (r.Success? <==> forall b :: b in Flatten(results) ==> HasWeight(b))
    ensures searchMethod in SearchMethods && r.Failure? ==> r.error == MissingWeight
    ensures r.Success? ==> multiset(r.value) == multiset(Flatten(results))
    ensures r.Success? ==> Descending(r.value, WeightText, LexLess)
    ensures r.Success? ==> forall k :: Select(r.value, WeightText, k) == Select(Flatten(results), WeightText, k)
  {
    if searchMethod !in SearchMethods then Failure(InvalidSearchMethod)
    else
      var all := Flatten(results);
      if exists b :: b in all && !HasWeight(b) then Failure(MissingWeight)
      else
        LexSortFacts(all);
        Success(SortDesc(all, WeightText, LexLess))
  }

  /** The weight as a number, for bindings whose weight text is a string of
      decimal digits. */
  predicate HasNumericWeight(b: Binding)
  {
    HasWeight(b) && ParseNat(b["weight"]["value"]).Some?
  }

  function WeightNumber(b: Binding): int
  {
    if HasNumericWeight(b) then ParseNat(b["weight"]["value"]).value else 0
  }

  /** Position `i` holds the first binding whose weight cannot be read as a
      number. */
  ghost predicate FirstUnreadableWeight(bs: seq<Binding>, i: int)
  {
    && 0 <= i < |bs|
    && !HasNumericWeight(bs[i])
    && forall j :: 0 <= j < i ==> HasNumericWeight(bs[j])
  }

  /** What `int(d["weight"]["value"])` raises for a binding without a
      numeric weight: `KeyError` when the weight is missing, `ValueError`
      when its text is not a number. */
  function WeightError(b: Binding): SearchError
  {
    if HasWeight(b) then UnreadableWeight else MissingWeight
  }

  /** The sort keys are computed in list order, so the first binding
      without a numeric weight decides the error. */
  function FirstWeightError(bs: seq<Binding>): (r: Option<SearchError>)
    ensures r.None? <==> forall b :: b in bs ==> HasNumericWeight(b)
    ensures r.Some? ==> exists i :: FirstUnreadableWeight(bs, i) && r.value == WeightError(bs[i])
  {
    if |bs| == 0 then None
    else if !HasNumericWeight(bs[0]) then
      assert FirstUnreadableWeight(bs, 0);
      Some(WeightError(bs[0]))
    else
      var rest := FirstWeightError(bs[1..]);
      assert bs == [bs[0]] + bs[1..];
      if rest.Some? then
        FirstUnreadableInTail(bs, rest.value);
        rest
      else
        None
  }

  lemma FirstUnreadableInTail(bs: seq<Binding>, e: SearchError)
    requires |bs| > 0 && HasNumericWeight(bs[0])
    requires exists i :: FirstUnreadableWeight(bs[1..], i) && e == WeightError(bs[1..][i])
    ensures exists i :: FirstUnreadableWeight(bs, i) && e == WeightError(bs[i])
  {
    var i :| FirstUnreadableWeight(bs[1..], i) && e == WeightError(bs[1..][i]);
    forall j | 0 < j < i + 1 ensures HasNumericWeight(bs[j]) {
      assert bs[j] == bs[1..][j - 1];
    }
    assert FirstUnreadableWeight(bs, i + 1);
  }

  predicate Below(a: int, b: int)
  {
    a < b
  }

  lemma BelowIsStrictTotalOrder()
    ensures StrictTotalOrder(Below)
  {
  }

  lemma NumericSortFacts(all: seq<Binding>)
    ensures Descending(SortDesc(all, WeightNumber, Below), WeightNumber, Below)
    ensures forall k :: Select(SortDesc(all, WeightNumber, Below), WeightNumber, k) == Select(all, WeightNumber, k)
  {
    BelowIsStrictTotalOrder();
    SortDescending(all, WeightNumber, Below);
    forall k ensures Select(SortDesc(all, WeightNumber, Below), WeightNumber, k) == Select(all, WeightNumber, k) {
      SortSelect(all, WeightNumber, Below, k);
    }
  }

  /** `combine_search_results` as evidently intended, with the key
      `int(d["weight"]["value"])`: bindings ranked by the number their
      weight denotes, greatest first, ties in input order.  A binding
      without a numeric weight raises, the first such binding in list order
      deciding which error. */
  function CombineByNumber(results: seq<seq<Binding>>, searchMethod: string): (r: Result<seq<Binding>, SearchError>)
    ensures searchMethod !in SearchMethods ==> r == Failure(InvalidSearchMethod)
    ensures searchMethod in SearchMethods ==>
              (r.Success? <==> forall b :: b in Flatten(results) ==> HasNumericWeight(b))
    ensures searchMethod in SearchMethods && r.Failure? ==>
              exists i :: FirstUnreadableWeight(Flatten(results), i) && r.error == WeightError(Flatten(results)[i])
    ensures r.Success? ==> multiset(r.value) == multiset(Flatten(results))
    ensures r.Success? ==> Descending(r.value, WeightNumber, Below)
    ensures r.Success? ==> forall k :: Select(r.value, WeightNumber, k) == Select(Flatten(results), WeightNumber, k)
  {
    if searchMethod !in SearchMethods then Failure(InvalidSearchMethod)
    else
      var all := Flatten(results);
      match FirstWeightError(all)
      case Some(e) => Failure(e)
      case None =>
        NumericSortFacts(all);
        Success(SortDesc(all, WeightNumber, Below))
  }

  lemma FlattenPair(x: Binding, y: Binding)
    ensures Flatten([[x, y]]) == [x, y]
  {
  }

  /** A result with weight `"10"` is ranked below one with weight `"5"`:
      the string order puts `"5"` first. */
  lemma TenRankedBelowFive(ten: Binding, five: Binding)
    requires HasWeight(ten) && ten["weight"]["value"] == "10"
    requires HasWeight(five) && five["weight"]["value"] == "5"
    ensures Combine([[ten, five]], "weighted") == Success([five, ten])
  {
    LexOrderIsNotNumeric();
    FlattenPair(ten, five);
    var all := [ten, five];
    assert !exists b :: b in all && !HasWeight(b);
    assert SortDesc(all, WeightText, LexLess) == Insert(ten, [five], WeightText, LexLess) by {
      assert all[1..] == [five];
    }
    assert LexLess(WeightText(ten), WeightText(five));
    assert Insert(ten, [five], WeightText, LexLess) == [five] + Insert(ten, [], WeightText, LexLess) == [five, ten];
    assert "weighted" in SearchMethods by { assert SearchMethods[0] == "weighted"; }
    assert Combine([[ten, five]], "weighted") == Success(SortDesc(all, WeightText, LexLess));
  }

  /** The intended order ranks the same two results the other way round. */
  lemma TenRankedAboveFiveByNumber(ten: Binding, five: Binding)
    requires HasWeight(ten) && ten["weight"]["value"] == "10"
    requires HasWeight(five) && five["weight"]["value"] == "5"
    ensures CombineByNumber([[ten, five]], "weighted") == Success([ten, five])
  {
    TenAndFive();
    FlattenPair(ten, five);
    var all := [ten, five];
    assert WeightNumber(ten) == 10 && WeightNumber(five) == 5;
    assert !exists b :: b in all && !HasNumericWeight(b);
    assert SortDesc(all, WeightNumber, Below) == Insert(ten, [five], WeightNumber, Below) by {
      assert all[1..] == [five];
    }
    assert Insert(ten, [five], WeightNumber, Below) == [ten, five];
    assert "weighted" in SearchMethods by { assert SearchMethods[0] == "weighted"; }
    assert CombineByNumber([[ten, five]], "weighted") == Success(SortDesc(all, WeightNumber, Below));
  }

  /** When every weight is written with the same number of digits the two
      orders agree, so the combination as written is the intended one. */
  lemma SameWidthWeightsAgree(results: seq<seq<Binding>>, searchMethod: string)
    requires forall b, c :: b in Flatten(results) && c in Flatten(results) ==>
               HasWeight(b) && |WeightText(b)| > 0 && AllDigits(WeightText(b)) && |WeightText(b)| == |WeightText(c)|
    ensures Combine(results, searchMethod) == CombineByNumber(results, searchMethod)
  {
    var all := Flatten(results);
    forall b | b in all ensures HasWeight(b) && HasNumericWeight(b) && WeightNumber(b) == Value(WeightText(b)) {
      assert |WeightText(b)| > 0 && AllDigits(WeightText(b));
    }
    forall b, c | b in all && c in all
      ensures LexLess(WeightText(b), WeightText(c)) <==> Below(WeightNumber(b), WeightNumber(c))
    {
      SameLengthOrder(WeightText(b), WeightText(c));
    }
    SortAgree(all, WeightText, LexLess, WeightNumber, Below);
    if searchMethod in SearchMethods {
      assert Combine(results, searchMethod) == Success(SortDesc(all, WeightText, LexLess));
      assert CombineByNumber(results, searchMethod) == Success(SortDesc(all, WeightNumber, Below));
    }
  }
}
