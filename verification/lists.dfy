/** `Array.prototype.filter` and `reduce` over immutable sequences, with the
    facts every list page relies on: the result is an order-preserving
    sublist, holds exactly the kept elements (with their multiplicities), and
    sums split over concatenation. */
module Lists {

  /** `sub` can be obtained from `s` by deleting elements, keeping the
      relative order of the rest. */
  predicate IsSublist<T(==)>(sub: seq<T>, s: seq<T>)
    decreases |s|
  {
    if |sub| == 0 then true
    else if |s| == 0 then false
    else if sub[0] == s[0] then IsSublist(sub[1..], s[1..])
    else IsSublist(sub, s[1..])
  }

  /** Every sequence is a sublist of itself. */
  lemma {:induction false} SublistReflexive<T>(s: seq<T>)
    ensures IsSublist(s, s)
    decreases |s|
  {
    if |s| > 0 {
      SublistReflexive(s[1..]);
    }
  }

  /** The elements of `s` that satisfy `keep`, in their original order. */
  function Filter<T(!new)>(s: seq<T>, keep: T -> bool): (r: seq<T>)
    ensures |r| <= |s|
    ensures forall x :: x in r <==> x in s && keep(x)
  {
    if |s| == 0 then []
    else
      var rest := Filter(s[1..], keep);
      assert s == [s[0]] + s[1..];
      if keep(s[0]) then [s[0]] + rest else rest
  }

  /** The kept elements keep their order. */
  lemma {:induction false} FilterIsSublist<T(!new)>(s: seq<T>, keep: T -> bool)
    ensures IsSublist(Filter(s, keep), s)
    decreases |s|
  {
    if |s| > 0 {
      FilterIsSublist(s[1..], keep);
    }
  }

  /** Each kept element occurs in the result as often as in the input, and
      every other element not at all. */
  lemma {:induction false} FilterCounts<T(!new)>(s: seq<T>, keep: T -> bool)
    ensures forall x :: multiset(Filter(s, keep))[x] == if keep(x) then multiset(s)[x] else 0
    decreases |s|
  {
    if |s| > 0 {
      FilterCounts(s[1..], keep);
      assert s == [s[0]] + s[1..];
    }
  }

  /** Filtering keeps everything exactly when every element is kept. */
  lemma {:induction false} FilterKeepsAll<T(!new)>(s: seq<T>, keep: T -> bool)
    requires forall x :: x in s ==> keep(x)
    ensures Filter(s, keep) == s
    decreases |s|
  {
    if |s| > 0 {
      FilterKeepsAll(s[1..], keep);
    }
  }

  /** Filters distribute over concatenation. */
  lemma {:induction false} FilterConcat<T(!new)>(a: seq<T>, b: seq<T>, keep: T -> bool)
    ensures Filter(a + b, keep) == Filter(a, keep) + Filter(b, keep)
    decreases |a|
  {
    if |a| > 0 {
      assert (a + b)[1..] == a[1..] + b;
      FilterConcat(a[1..], b, keep);
    } else {
      assert a + b == b;
    }
  }

  /** Filters that agree on every element of `s` give the same result. */
  lemma {:induction false} FilterSame<T(!new)>(s: seq<T>, p: T -> bool, q: T -> bool)
    requires forall x :: x in s ==> p(x) == q(x)
    ensures Filter(s, p) == Filter(s, q)
    decreases |s|
  {
    if |s| > 0 {
      assert s[0] in s;
      assert forall x :: x in s[1..] ==> x in s;
      FilterSame(s[1..], p, q);
    }
  }

  /** Two filters in a row keep what both keep. */
  lemma {:induction false} FilterFilter<T(!new)>(s: seq<T>, p: T -> bool, q: T -> bool, both: T -> bool)
    requires forall x :: both(x) == (p(x) && q(x))
    ensures Filter(Filter(s, p), q) == Filter(s, both)
    decreases |s|
  {
    if |s| > 0 {
      FilterFilter(s[1..], p, q, both);
    }
  }

  /** The sum of `value` over `s` (a `reduce` starting from 0). */
  function SumOf<T>(s: seq<T>, value: T -> int): int {
    if |s| == 0 then 0 else value(s[0]) + SumOf(s[1..], value)
  }

  lemma {:induction false} SumConcat<T>(a: seq<T>, b: seq<T>, value: T -> int)
    ensures SumOf(a + b, value) == SumOf(a, value) + SumOf(b, value)
    decreases |a|
  {
    if |a| > 0 {
      assert (a + b)[1..] == a[1..] + b;
      SumConcat(a[1..], b, value);
    } else {
      assert a + b == b;
    }
  }

  /** Summing over the kept elements is summing, over all elements, the
      value of the kept ones and zero for the others. */
  lemma {:induction false} SumFilter<T(!new)>(s: seq<T>, keep: T -> bool, value: T -> int, masked: T -> int)
    requires forall x :: masked(x) == if keep(x) then value(x) else 0
    ensures SumOf(Filter(s, keep), value) == SumOf(s, masked)
    decreases |s|
  {
    if |s| > 0 {
      SumFilter(s[1..], keep, value, masked);
    }
  }
}
