/** Generic helpers over sequences: an optional value, order-preserving
    filtering, and a stable insertion sort by an integer key.  These stand
    for the JavaScript array methods (`filter`, `find`, `sort`) the
    application uses on its in-memory collections. */
module Seqs {

  datatype Option<+T> = None | Some(value: T)

  /** `sub` is obtained from `s` by deleting some elements, keeping the
      order of the rest. */
  ghost predicate SubsequenceOf<T>(sub: seq<T>, s: seq<T>)
    decreases |s|
  {
    if |sub| == 0 then true
    else if |s| == 0 then false
    else (sub[0] == s[0] && SubsequenceOf(sub[1..], s[1..])) || SubsequenceOf(sub, s[1..])
  }

  /** `Array.prototype.filter`: the elements of `s` that satisfy `p`, in order. */
  function Filter<T(!new)>(s: seq<T>, p: T -> bool): (r: seq<T>)
    ensures |r| <= |s|
    ensures forall i :: 0 <= i < |r| ==> p(r[i])
    decreases |s|
  {
    if |s| == 0 then []
    else
      var rest := Filter(s[1..], p);
      if p(s[0]) then [s[0]] + rest else rest
  }

  /** An element is kept by `Filter` exactly when it occurs in the input
      and satisfies the predicate. */
  lemma {:induction false} FilterMembership<T(!new)>(s: seq<T>, p: T -> bool)
    ensures forall x :: x in Filter(s, p) <==> x in s && p(x)
    decreases |s|
  {
    if |s| > 0 {
      FilterMembership(s[1..], p);
      assert s == [s[0]] + s[1..];
    }
  }

  /** `r` holds every element of `s` that satisfies `p` exactly as often as
      `s` does, and no other element. */
  ghost predicate KeepsCounts<T(!new)>(r: seq<T>, s: seq<T>, p: T -> bool)
  {
    forall x :: multiset(r)[x] == if p(x) then multiset(s)[x] else 0
  }

  /** `Filter` keeps every satisfying element as often as it occurs in the
      input, and drops every other element entirely. */
  lemma {:induction false} FilterMultiplicity<T(!new)>(s: seq<T>, p: T -> bool)
    ensures KeepsCounts(Filter(s, p), s, p)
    decreases |s|
  {
    if |s| > 0 {
      FilterMultiplicity(s[1..], p);
      assert s == [s[0]] + s[1..];
      assert multiset(s) == multiset{s[0]} + multiset(s[1..]);
      if p(s[0]) {
        assert multiset(Filter(s, p)) == multiset{s[0]} + multiset(Filter(s[1..], p));
      }
    }
  }

  /** A filter of a strictly ordered sequence is strictly ordered. */
  lemma {:induction false} FilterKeepsStrictOrder<T(!new)>(s: seq<T>, p: T -> bool, key: T -> int)
    requires forall i, j :: 0 <= i < j < |s| ==> key(s[i]) < key(s[j])
    ensures forall i, j :: 0 <= i < j < |Filter(s, p)| ==> key(Filter(s, p)[i]) < key(Filter(s, p)[j])
    decreases |s|
  {
    if |s| > 0 {
      FilterKeepsStrictOrder(s[1..], p, key);
      FilterMembership(s[1..], p);
      var rest := Filter(s[1..], p);
      forall k | 0 <= k < |rest|
        ensures key(s[0]) < key(rest[k])
      {
        assert rest[k] in s[1..];
      }
    }
  }

  lemma {:induction false} FilterIsSubsequence<T(!new)>(s: seq<T>, p: T -> bool)
    ensures SubsequenceOf(Filter(s, p), s)
    decreases |s|
  {
    if |s| > 0 {
      FilterIsSubsequence(s[1..], p);
      var rest := Filter(s[1..], p);
      if p(s[0]) {
        assert Filter(s, p) == [s[0]] + rest;
        assert ([s[0]] + rest)[1..] == rest;
      } else {
        SubsequenceSkip(Filter(s, p), s);
      }
    }
  }

  /** Dropping the head of `s` is allowed when the head is not used. */
  lemma SubsequenceSkip<T>(sub: seq<T>, s: seq<T>)
    requires |s| > 0 && SubsequenceOf(sub, s[1..])
    ensures SubsequenceOf(sub, s)
  {
  }

  /** Filtering with a predicate every element satisfies changes nothing. */
  lemma {:induction false} FilterAll<T(!new)>(s: seq<T>, p: T -> bool)
    requires forall x :: x in s ==> p(x)
    ensures Filter(s, p) == s
    decreases |s|
  {
    if |s| > 0 {
      FilterAll(s[1..], p);
      assert s == [s[0]] + s[1..];
    }
  }

  /** When nothing satisfies `p`, filtering keeps nothing. */
  lemma {:induction false} FilterNone<T(!new)>(s: seq<T>, p: T -> bool)
    requires forall i :: 0 <= i < |s| ==> !p(s[i])
    ensures Filter(s, p) == []
    decreases |s|
  {
    if |s| > 0 {
      assert !p(s[0]);
      FilterNone(s[1..], p);
    }
  }

  /** Filtering keeps nothing exactly when no element satisfies `p`, and
      keeps every element that does. */
  lemma FilterEmptyIff<T(!new)>(s: seq<T>, p: T -> bool)
    ensures |Filter(s, p)| == 0 <==> forall i :: 0 <= i < |s| ==> !p(s[i])
    ensures forall i :: 0 <= i < |s| && p(s[i]) ==> s[i] in Filter(s, p)
  {
    FilterMembership(s, p);
    if forall i :: 0 <= i < |s| ==> !p(s[i]) {
      FilterNone(s, p);
    }
    assert forall i :: 0 <= i < |s| ==> s[i] in s;
  }

  /** Filtering by `p` and then by `q` is filtering by any predicate that
      holds exactly where both do. */
  lemma {:induction false} FilterFilter<T(!new)>(s: seq<T>, p: T -> bool, q: T -> bool, both: T -> bool)
    requires forall x :: x in s ==> both(x) == (p(x) && q(x))
    ensures Filter(Filter(s, p), q) == Filter(s, both)
    decreases |s|
  {
    if |s| > 0 {
      assert s[0] in s;
      assert forall x :: x in s[1..] ==> x in s;
      FilterFilter(s[1..], p, q, both);
      if p(s[0]) {
        FilterCons(Filter(s, p), q);
      }
    }
  }

  /** Filtering distributes over concatenation, so the kept elements of a
      prefix stay in front of the kept elements of what follows. */
  lemma {:induction false} FilterConcat<T(!new)>(a: seq<T>, b: seq<T>, p: T -> bool)
    ensures Filter(a + b, p) == Filter(a, p) + Filter(b, p)
    decreases |a|
  {
    if |a| == 0 {
      assert a + b == b;
    } else {
      FilterConcat(a[1..], b, p);
      FilterConcatStep(a, b, p);
    }
  }

  lemma FilterConcatStep<T(!new)>(a: seq<T>, b: seq<T>, p: T -> bool)
    requires |a| > 0
    requires Filter(a[1..] + b, p) == Filter(a[1..], p) + Filter(b, p)
    ensures Filter(a + b, p) == Filter(a, p) + Filter(b, p)
  {
    var ab := a + b;
    assert ab[0] == a[0];
    assert ab[1..] == a[1..] + b;
    FilterCons(ab, p);
    FilterCons(a, p);
    var head := if p(a[0]) then [a[0]] else [];
    ConcatAssoc(head, Filter(a[1..], p), Filter(b, p));
  }

  lemma ConcatAssoc<T>(a: seq<T>, b: seq<T>, c: seq<T>)
    ensures (a + b) + c == a + (b + c)
  {
  }

  /** One step of `Filter`: the head is kept exactly when it satisfies `p`. */
  lemma FilterCons<T(!new)>(s: seq<T>, p: T -> bool)
    requires |s| > 0
    ensures Filter(s, p) == (if p(s[0]) then [s[0]] else []) + Filter(s[1..], p)
  {
  }

  /** `Array.prototype.findIndex`: the first index whose element satisfies `p`. */
  function FindIndex<T>(s: seq<T>, p: T -> bool): (r: Option<nat>)
    ensures r.Some? ==> r.value < |s| && p(s[r.value])
    ensures r.Some? ==> forall j :: 0 <= j < r.value ==> !p(s[j])
    ensures r.None? ==> forall j :: 0 <= j < |s| ==> !p(s[j])
    decreases |s|
  {
    if |s| == 0 then None
    else if p(s[0]) then Some(0)
    else
      match FindIndex(s[1..], p)
      case None => None
      case Some(k) => Some(k + 1)
  }

  /** `s` is in non-decreasing order of `key`. */
  ghost predicate SortedBy<T>(s: seq<T>, key: T -> int)
  {
    forall i, j :: 0 <= i < j < |s| ==> key(s[i]) <= key(s[j])
  }

  /** A lower bound of `s` and `x` bounds every permutation of `s + [x]`. */
  lemma LowerBoundKept<T>(lo: int, s: seq<T>, x: T, r: seq<T>, key: T -> int)
    requires multiset(r) == multiset(s) + multiset{x}
    requires lo <= key(x)
    requires forall k :: 0 <= k < |s| ==> lo <= key(s[k])
    ensures forall k :: 0 <= k < |r| ==> lo <= key(r[k])
  {
    forall k | 0 <= k < |r|
      ensures lo <= key(r[k])
    {
      assert r[k] in multiset(r);
      if r[k] != x {
        assert r[k] in multiset(s);
        var j :| 0 <= j < |s| && s[j] == r[k];
      }
    }
  }

  /** Inserts `x` before the first element with a strictly greater key, so
      that equal keys keep their arrival order. */
  function InsertBy<T>(s: seq<T>, x: T, key: T -> int): (r: seq<T>)
    requires SortedBy(s, key)
    ensures |r| == |s| + 1
    ensures multiset(r) == multiset(s) + multiset{x}
    ensures SortedBy(r, key)
    decreases |s|
  {
    if |s| == 0 then [x]
    else if key(x) < key(s[0]) then [x] + s
    else
      var tail := s[1..];
      var rest := InsertBy(tail, x, key);
      assert s == [s[0]] + tail;
      LowerBoundKept(key(s[0]), tail, x, rest, key);
      [s[0]] + rest
  }

  /** Stable sort by ascending `key`: the model of
      `array.sort((a, b) => key(a) - key(b))` (ECMAScript sorts stably). */
  function SortBy<T>(s: seq<T>, key: T -> int): (r: seq<T>)
    ensures multiset(r) == multiset(s)
    ensures |r| == |s|
    ensures SortedBy(r, key)
    decreases |s|
  {
    if |s| == 0 then []
    else
      assert s == s[..|s| - 1] + [s[|s| - 1]];
      InsertBy(SortBy(s[..|s| - 1], key), s[|s| - 1], key)
  }
}
