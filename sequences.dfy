/**
 * The array built-ins the podcast code relies on (`filter`, `find`,
 * `filter(Boolean)`), written over sequences, together with the facts about
 * them that the rest of the model uses.
 */
module Sequences {
  import opened Wrappers

  /** `a` can be obtained from `b` by deleting elements: same order, no additions. */
  ghost predicate IsSubsequence<T>(a: seq<T>, b: seq<T>)
  {
    if a == [] then true
    else if b == [] then false
    else (a[0] == b[0] && IsSubsequence(a[1..], b[1..])) || IsSubsequence(a, b[1..])
  }

  /** `s.filter(f)`: the elements of `s` that satisfy `f`, in their original order. */
  function Filter<T>(f: T -> bool, s: seq<T>): (r: seq<T>)
    ensures |r| <= |s|
    ensures forall x :: x in r ==> x in s && f(x)
  {
    if s == [] then [] else (if f(s[0]) then [s[0]] else []) + Filter(f, s[1..])
  }

  /** `i` is the position of the first element of `s` that satisfies `f`. */
  predicate IsFirstMatch<T>(f: T -> bool, s: seq<T>, i: int)
  {
    0 <= i < |s| && f(s[i]) && forall k :: 0 <= k < i ==> !f(s[k])
  }

  lemma FirstMatchUnique<T>(f: T -> bool, s: seq<T>, i: int, j: int)
    requires IsFirstMatch(f, s, i) && IsFirstMatch(f, s, j)
    ensures i == j
  {
  }

  /** `s.find(f)`: the first element satisfying `f`, or `None` (JavaScript's `undefined`). */
  function Find<T>(f: T -> bool, s: seq<T>): (r: Option<T>)
    ensures r.None? <==> forall x :: x in s ==> !f(x)
    ensures r.Some? ==> exists i :: IsFirstMatch(f, s, i) && s[i] == r.value
  {
    if s == [] then None
    else if f(s[0]) then (assert IsFirstMatch(f, s, 0); Some(s[0]))
    else
      var r := Find(f, s[1..]);
      if r.Some? then
        (ghost var i :| IsFirstMatch(f, s[1..], i) && s[1..][i] == r.value;
         assert IsFirstMatch(f, s, i + 1);
         r)
      else r
  }

  /** `os.filter(Boolean)` on a sequence of found-or-undefined values: the found ones, in order. */
  function Somes<T>(os: seq<Option<T>>): (r: seq<T>)
    ensures |r| <= |os|
    ensures forall x :: x in r ==> Some(x) in os
  {
    if os == [] then []
    else (if os[0].Some? then [os[0].value] else []) + Somes(os[1..])
  }

  function Reverse<T>(s: seq<T>): (r: seq<T>)
  {
    if s == [] then [] else Reverse(s[1..]) + [s[0]]
  }

  lemma {:induction false} ReverseAt<T>(s: seq<T>, i: int)
    requires 0 <= i < |s|
    ensures |Reverse(s)| == |s| && Reverse(s)[i] == s[|s| - 1 - i]
  {
    ReverseLength(s[1..]);
    if i < |s| - 1 {
      ReverseAt(s[1..], i);
    }
  }

  lemma {:induction false} ReverseLength<T>(s: seq<T>)
    ensures |Reverse(s)| == |s|
  {
    if s != [] {
      ReverseLength(s[1..]);
    }
  }

  lemma {:induction false} ReverseAppend<T>(a: seq<T>, b: seq<T>)
    ensures Reverse(a + b) == Reverse(b) + Reverse(a)
  {
    if a == [] {
      assert a + b == b;
    } else {
      assert (a + b)[1..] == a[1..] + b;
      ReverseAppend(a[1..], b);
    }
  }

  lemma {:induction false} FilterAppend<T>(f: T -> bool, a: seq<T>, b: seq<T>)
    ensures Filter(f, a + b) == Filter(f, a) + Filter(f, b)
  {
    if a == [] {
      assert a + b == b;
    } else {
      assert (a + b)[1..] == a[1..] + b;
      FilterAppend(f, a[1..], b);
    }
  }

  /**
   * Soundness and completeness of `filter`, counted with multiplicity: each
   * value occurs in the result as often as in `s` if it is kept, else never.
   */
  lemma {:induction false} FilterCount<T>(f: T -> bool, s: seq<T>)
    ensures forall x :: multiset(Filter(f, s))[x] == if f(x) then multiset(s)[x] else 0
  {
    if s != [] {
      FilterCount(f, s[1..]);
      assert s == [s[0]] + s[1..];
    }
  }

  /** A value is in the result exactly when it is in `s` and is kept. */
  lemma FilterMembership<T>(f: T -> bool, s: seq<T>)
    ensures forall x :: x in Filter(f, s) <==> x in s && f(x)
  {
  }

  lemma SubsequenceOfItself<T>(s: seq<T>)
    ensures IsSubsequence(s, s)
  {
  }

  /** The kept elements appear in `s` in the same order. */
  lemma {:induction false} FilterIsSubsequence<T>(f: T -> bool, s: seq<T>)
    ensures IsSubsequence(Filter(f, s), s)
  {
    if s != [] {
      FilterIsSubsequence(f, s[1..]);
      if f(s[0]) {
        assert Filter(f, s)[1..] == Filter(f, s[1..]);
      } else {
        assert Filter(f, s) == Filter(f, s[1..]);
      }
    }
  }

  lemma {:induction false} FilterNone<T>(f: T -> bool, s: seq<T>)
    requires forall x :: x in s ==> !f(x)
    ensures Filter(f, s) == []
  {
    if s != [] {
      FilterNone(f, s[1..]);
    }
  }

  /** Two neighbours that are not both kept can be exchanged without changing the filter's result. */
  lemma FilterPairSwap<T>(f: T -> bool, x: T, y: T)
    requires !(f(x) && f(y))
    ensures Filter(f, [x, y]) == Filter(f, [y, x])
  {
    assert [x, y][1..] == [y] && [y, x][1..] == [x];
  }

  /** Filtering with predicates that agree on `s` gives the same result. */
  lemma {:induction false} FilterAgree<T>(f: T -> bool, g: T -> bool, s: seq<T>)
    requires forall x :: x in s ==> f(x) == g(x)
    ensures Filter(f, s) == Filter(g, s)
  {
    if s != [] {
      FilterAgree(f, g, s[1..]);
    }
  }

  lemma {:induction false} FilterReverse<T>(f: T -> bool, s: seq<T>)
    ensures Filter(f, Reverse(s)) == Reverse(Filter(f, s))
  {
    if s != [] {
      var head := if f(s[0]) then [s[0]] else [];
      calc {
        Filter(f, Reverse(s));
        Filter(f, Reverse(s[1..]) + [s[0]]);
        { FilterAppend(f, Reverse(s[1..]), [s[0]]); }
        Filter(f, Reverse(s[1..])) + Filter(f, [s[0]]);
        { FilterReverse(f, s[1..]); assert Filter(f, [s[0]]) == head; }
        Reverse(Filter(f, s[1..])) + head;
        { assert Reverse(head) == head; }
        Reverse(Filter(f, s[1..])) + Reverse(head);
        { ReverseAppend(head, Filter(f, s[1..])); }
        Reverse(head + Filter(f, s[1..]));
      }
    }
  }
}
