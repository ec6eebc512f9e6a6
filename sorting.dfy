/**
 * The orderings behind `sortBy`. Each case hands `Array.prototype.sort` a
 * numeric comparator; the sort is stable (ECMAScript 2019 and later), so the
 * result is fixed by two facts: it is ordered by the comparator, and podcasts
 * the comparator ties keep their relative order. `SortedUnique` shows these
 * two facts leave exactly one answer, so the insertion sort below produces
 * what any stable sort would.
 */
module Sorting {
  import opened Sequences
  import opened Podcasts

  /** The three orderings `sortBy` knows. */
  datatype Criterion = Recent | Popular | Newest

  /**
   * The comparator each case passes to `sort`: positive means `b` goes before
   * `a`. Each is the difference of the ranks it compares, so sorting by the
   * comparator means ascending by rank.
   */
  function Compare(c: Criterion, a: Podcast, b: Podcast): (r: int)
    ensures r == Rank(c, a) - Rank(c, b)
  {
    match c
    case Recent => b.updated - a.updated
    case Popular => b.seasons - a.seasons
    case Newest => a.updated - b.updated
  }

  /** The key each comparator sorts by in ascending order. */
  function Rank(c: Criterion, p: Podcast): int
  {
    match c
    case Recent => -p.updated
    case Popular => -p.seasons
    case Newest => p.updated
  }

  /** Ascending by rank: most recent first, oldest first, or most seasons first. */
  ghost predicate Ordered(c: Criterion, s: seq<Podcast>)
  {
    forall i, j :: 0 <= i < j < |s| ==> Rank(c, s[i]) <= Rank(c, s[j])
  }

  function RankIs(c: Criterion, k: int): Podcast -> bool
  {
    p => Rank(c, p) == k
  }

  /** The podcasts of `s` whose rank is `k` (the ones the comparator ties), in order. */
  function RankClass(c: Criterion, k: int, s: seq<Podcast>): seq<Podcast>
  {
    Filter(RankIs(c, k), s)
  }

  /**
   * `after` holds the same podcasts as `before` and, among podcasts of equal
   * rank, in the same order: what a stable sort keeps.
   */
  ghost predicate KeepsTieOrder(c: Criterion, before: seq<Podcast>, after: seq<Podcast>)
  {
    forall k :: RankClass(c, k, after) == RankClass(c, k, before)
  }

  /** Keeping every tie class means being a permutation. */
  lemma KeepsTieOrderIsPermutation(c: Criterion, a: seq<Podcast>, b: seq<Podcast>)
    requires KeepsTieOrder(c, a, b)
    ensures multiset(a) == multiset(b)
  {
    forall x
      ensures multiset(a)[x] == multiset(b)[x]
    {
      FilterCount(RankIs(c, Rank(c, x)), a);
      FilterCount(RankIs(c, Rank(c, x)), b);
      assert RankClass(c, Rank(c, x), a) == RankClass(c, Rank(c, x), b);
    }
  }

  /** Exchanging two neighbours of different rank keeps every tie class. */
  lemma SwapKeepsTieOrder(c: Criterion, s: seq<Podcast>, j: int)
    requires 0 < j < |s| && Rank(c, s[j - 1]) != Rank(c, s[j])
    ensures KeepsTieOrder(c, s, s[..j - 1] + [s[j], s[j - 1]] + s[j + 1..])
  {
    var front, back := s[..j - 1], s[j + 1..];
    assert s == front + [s[j - 1], s[j]] + back;
    forall k
      ensures RankClass(c, k, front + [s[j], s[j - 1]] + back) == RankClass(c, k, s)
    {
      var f := RankIs(c, k);
      FilterAppend(f, front + [s[j], s[j - 1]], back);
      FilterAppend(f, front, [s[j], s[j - 1]]);
      FilterAppend(f, front + [s[j - 1], s[j]], back);
      FilterAppend(f, front, [s[j - 1], s[j]]);
      FilterPairSwap(f, s[j - 1], s[j]);
    }
  }

  lemma RankClassCons(c: Criterion, k: int, s: seq<Podcast>)
    requires s != []
    ensures RankClass(c, k, s) == (if Rank(c, s[0]) == k then [s[0]] else []) + RankClass(c, k, s[1..])
  {
  }

  /** A podcast that some tie class of `s` holds is in `s` and has that rank. */
  lemma InRankClass(c: Criterion, k: int, s: seq<Podcast>, x: Podcast)
    requires x in RankClass(c, k, s)
    ensures x in s && Rank(c, x) == k
  {
  }

  lemma OrderedFirstIsLeast(c: Criterion, s: seq<Podcast>, x: Podcast)
    requires Ordered(c, s) && x in s
    ensures Rank(c, s[0]) <= Rank(c, x)
  {
  }

  /** Two ordered lists that keep the same tie classes start with the same podcast. */
  lemma {:induction false} SameFirst(c: Criterion, a: seq<Podcast>, b: seq<Podcast>)
    requires Ordered(c, a) && Ordered(c, b) && KeepsTieOrder(c, a, b)
    requires a != []
    ensures b != [] && a[0] == b[0]
  {
    var ka := Rank(c, a[0]);
    RankClassCons(c, ka, a);
    assert RankClass(c, ka, b) == RankClass(c, ka, a);
    InRankClass(c, ka, b, a[0]);
    var kb := Rank(c, b[0]);
    RankClassCons(c, kb, b);
    assert RankClass(c, kb, a) == RankClass(c, kb, b);
    InRankClass(c, kb, a, b[0]);
    OrderedFirstIsLeast(c, b, a[0]);
    OrderedFirstIsLeast(c, a, b[0]);
    RankClassCons(c, ka, b);
    assert RankClass(c, ka, a)[0] == a[0];
    assert RankClass(c, ka, b)[0] == b[0];
  }

  lemma TailsKeepTieOrder(c: Criterion, a: seq<Podcast>, b: seq<Podcast>)
    requires a != [] && b != [] && a[0] == b[0] && KeepsTieOrder(c, a, b)
    ensures KeepsTieOrder(c, a[1..], b[1..])
  {
    forall k
      ensures RankClass(c, k, b[1..]) == RankClass(c, k, a[1..])
    {
      RankClassCons(c, k, a);
      RankClassCons(c, k, b);
      var head := if Rank(c, a[0]) == k then [a[0]] else [];
      assert head + RankClass(c, k, a[1..]) == head + RankClass(c, k, b[1..]);
      assert (head + RankClass(c, k, a[1..]))[|head|..] == RankClass(c, k, a[1..]);
      assert (head + RankClass(c, k, b[1..]))[|head|..] == RankClass(c, k, b[1..]);
    }
  }

  lemma OrderedTail(c: Criterion, s: seq<Podcast>)
    requires Ordered(c, s) && s != []
    ensures Ordered(c, s[1..])
  {
  }

  /**
   * A stable sort has exactly one possible result: two orderings of the same
   * podcasts that are both ordered and agree on every tie class are equal.
   */
  lemma {:induction false} SortedUnique(c: Criterion, a: seq<Podcast>, b: seq<Podcast>)
    requires Ordered(c, a) && Ordered(c, b) && KeepsTieOrder(c, a, b)
    ensures a == b
    decreases |a|
  {
    if a != [] {
      SameFirst(c, a, b);
      TailsKeepTieOrder(c, a, b);
      OrderedTail(c, a);
      OrderedTail(c, b);
      SortedUnique(c, a[1..], b[1..]);
      assert a == [a[0]] + a[1..] && b == [b[0]] + b[1..];
    } else if b != [] {
      assert KeepsTieOrder(c, b, a);
      SameFirst(c, b, a);
    }
  }

  /** `s` with its neighbours at `j - 1` and `j` exchanged. */
  function Swapped(s: seq<Podcast>, j: int): seq<Podcast>
    requires 0 < j < |s|
  {
    s[..j - 1] + [s[j], s[j - 1]] + s[j + 1..]
  }

  lemma SwappedIsTwoUpdates(s: seq<Podcast>, j: int)
    requires 0 < j < |s|
    ensures Swapped(s, j) == s[j - 1 := s[j]][j := s[j - 1]]
  {
  }

  /** A swap inside `s[..i + 1]` permutes that prefix and leaves the rest alone. */
  lemma SwapInPrefix(s: seq<Podcast>, i: int, j: int)
    requires 0 < j <= i < |s|
    ensures Swapped(s, j)[i + 1..] == s[i + 1..]
    ensures multiset(Swapped(s, j)[..i + 1]) == multiset(s[..i + 1])
  {
    var t := Swapped(s, j);
    assert t[..i + 1] == s[..j - 1] + [s[j], s[j - 1]] + s[j + 1..i + 1];
    assert s[..i + 1] == s[..j - 1] + [s[j - 1], s[j]] + s[j + 1..i + 1];
  }

  /**
   * The state of an insertion pass that is moving the element now at `j`
   * leftwards: `s[..i + 1]` without position `j` is ordered, everything the
   * element has passed ranks strictly after it, and its two neighbours are in
   * order with each other.
   */
  ghost predicate Inserting(c: Criterion, s: seq<Podcast>, i: int, j: int)
  {
    0 <= j <= i < |s|
    && (forall p, q :: 0 <= p < q <= i && p != j && q != j ==> Rank(c, s[p]) <= Rank(c, s[q]))
    && (forall q :: j < q <= i ==> Rank(c, s[j]) < Rank(c, s[q]))
    && (0 < j < i ==> Rank(c, s[j - 1]) <= Rank(c, s[j + 1]))
  }

  lemma InsertingStart(c: Criterion, s: seq<Podcast>, i: int)
    requires 0 <= i < |s| && Ordered(c, s[..i])
    ensures Inserting(c, s, i, i)
  {
  }

  lemma InsertingStep(c: Criterion, s: seq<Podcast>, i: int, j: int)
    requires Inserting(c, s, i, j) && 0 < j && Rank(c, s[j]) < Rank(c, s[j - 1])
    ensures Inserting(c, Swapped(s, j), i, j - 1)
    ensures KeepsTieOrder(c, s, Swapped(s, j))
  {
    SwapKeepsTieOrder(c, s, j);
    var t := Swapped(s, j);
    assert forall k :: 0 <= k < |s| && k != j - 1 && k != j ==> t[k] == s[k];
    assert t[j - 1] == s[j] && t[j] == s[j - 1];
  }

  lemma InsertingDone(c: Criterion, s: seq<Podcast>, i: int, j: int)
    requires Inserting(c, s, i, j) && (j == 0 || Rank(c, s[j - 1]) <= Rank(c, s[j]))
    ensures Ordered(c, s[..i + 1])
  {
  }

  lemma KeepsTieOrderTrans(c: Criterion, a: seq<Podcast>, b: seq<Podcast>, d: seq<Podcast>)
    requires KeepsTieOrder(c, a, b) && KeepsTieOrder(c, b, d)
    ensures KeepsTieOrder(c, a, d)
  {
  }

  /**
   * One pass of the insertion sort: moves `a[i]` left past the neighbours the
   * comparator puts after it, so that `a[..i + 1]` becomes ordered. Equal
   * elements are never exchanged.
   */
  method InsertAt(a: array<Podcast>, c: Criterion, i: int)
    requires 0 <= i < a.Length && Ordered(c, a[..i])
    modifies a
    ensures Ordered(c, a[..i + 1])
    ensures multiset(a[..i + 1]) == multiset(old(a[..i + 1]))
    ensures a[i + 1..] == old(a[i + 1..])
    ensures KeepsTieOrder(c, old(a[..]), a[..])
  {
    var j := i;
    InsertingStart(c, a[..], i);
    while j > 0 && Compare(c, a[j - 1], a[j]) > 0
      invariant Inserting(c, a[..], i, j)
      invariant multiset(a[..i + 1]) == multiset(old(a[..i + 1]))
      invariant a[i + 1..] == old(a[i + 1..])
      invariant KeepsTieOrder(c, old(a[..]), a[..])
    {
      ghost var before := a[..];
      InsertingStep(c, before, i, j);
      a[j - 1], a[j] := a[j], a[j - 1];
      SwappedIsTwoUpdates(before, j);
      assert a[..] == before[j - 1 := before[j]][j := before[j - 1]];
      SwapInPrefix(before, i, j);
      KeepsTieOrderTrans(c, old(a[..]), before, a[..]);
      j := j - 1;
    }
    InsertingDone(c, a[..], i, j);
  }

  /**
   * Sorts `a` in place by the comparator of `c`: a stable insertion sort,
   * inserting each element into the ordered prefix before it.
   */
  method SortInPlace(a: array<Podcast>, c: Criterion)
    modifies a
    ensures Ordered(c, a[..])
    ensures KeepsTieOrder(c, old(a[..]), a[..])
  {
    var i := 0;
    while i < a.Length
      invariant 0 <= i <= a.Length
      invariant Ordered(c, a[..i])
      invariant KeepsTieOrder(c, old(a[..]), a[..])
    {
      ghost var before := a[..];
      InsertAt(a, c, i);
      KeepsTieOrderTrans(c, old(a[..]), before, a[..]);
      i := i + 1;
    }
    assert a[..a.Length] == a[..];
  }

  /** No two podcasts of `s` were updated at the same millisecond. */
  ghost predicate DistinctUpdated(s: seq<Podcast>)
  {
    forall i, j :: 0 <= i < j < |s| ==> s[i].updated != s[j].updated
  }

  lemma {:induction false} DistinctUpdatedClass(s: seq<Podcast>, v: int)
    requires DistinctUpdated(s)
    ensures |RankClass(Newest, v, s)| <= 1
  {
    if s != [] {
      RankClassCons(Newest, v, s);
      if s[0].updated == v {
        FilterNone(RankIs(Newest, v), s[1..]);
      } else {
        DistinctUpdatedClass(s[1..], v);
      }
    }
  }

  /** Reversing an oldest-first order gives a most-recent-first order. */
  lemma ReverseNewestIsOrderedRecent(newest: seq<Podcast>)
    requires Ordered(Newest, newest)
    ensures Ordered(Recent, Reverse(newest))
  {
    var q := Reverse(newest);
    ReverseLength(newest);
    forall i, j | 0 <= i < j < |q|
      ensures Rank(Recent, q[i]) <= Rank(Recent, q[j])
    {
      ReverseAt(newest, i);
      ReverseAt(newest, j);
      assert Rank(Newest, newest[|q| - 1 - j]) <= Rank(Newest, newest[|q| - 1 - i]);
    }
  }

  /** The podcasts ranked `k` by "recent" are those ranked `-k` by "newest". */
  lemma RecentClassIsNewestClass(k: int, s: seq<Podcast>)
    ensures RankClass(Recent, k, s) == RankClass(Newest, -k, s)
  {
    forall x | x in s
      ensures RankIs(Recent, k)(x) == RankIs(Newest, -k)(x)
    {
    }
    FilterAgree(RankIs(Recent, k), RankIs(Newest, -k), s);
  }

  lemma ReverseShort(s: seq<Podcast>)
    requires |s| <= 1
    ensures Reverse(s) == s
  {
  }

  /** With distinct update times, reversing an oldest-first order keeps every tie class. */
  lemma ReverseNewestKeepsTieOrder(s: seq<Podcast>, newest: seq<Podcast>)
    requires DistinctUpdated(s) && KeepsTieOrder(Newest, s, newest)
    ensures KeepsTieOrder(Recent, s, Reverse(newest))
  {
    var q := Reverse(newest);
    forall k
      ensures RankClass(Recent, k, q) == RankClass(Recent, k, s)
    {
      var cls := RankClass(Newest, -k, s);
      calc {
        RankClass(Recent, k, q);
        { RecentClassIsNewestClass(k, q); }
        RankClass(Newest, -k, q);
        { FilterReverse(RankIs(Newest, -k), newest); }
        Reverse(RankClass(Newest, -k, newest));
        Reverse(cls);
        { DistinctUpdatedClass(s, -k); ReverseShort(cls); }
        cls;
        { RecentClassIsNewestClass(k, s); }
        RankClass(Recent, k, s);
      }
    }
  }

  /**
   * When no two update times are equal, the "recent" order is the "newest"
   * order reversed.
   */
  lemma RecentReversesNewest(s: seq<Podcast>, recent: seq<Podcast>, newest: seq<Podcast>)
    requires DistinctUpdated(s)
    requires Ordered(Recent, recent) && KeepsTieOrder(Recent, s, recent)
    requires Ordered(Newest, newest) && KeepsTieOrder(Newest, s, newest)
    ensures recent == Reverse(newest)
  {
    ReverseNewestIsOrderedRecent(newest);
    ReverseNewestKeepsTieOrder(s, newest);
    KeepsTieOrderTrans(Recent, recent, s, Reverse(newest));
    SortedUnique(Recent, recent, Reverse(newest));
  }

  /** How to read off the tie class of a sequence of one more element. */
  lemma RankClassPrepend(c: Criterion, k: int, x: Podcast, s: seq<Podcast>)
    ensures RankClass(c, k, [x] + s) == (if Rank(c, x) == k then [x] else []) + RankClass(c, k, s)
  {
  }

  /** Four shows with 3, 5, 2 and 4 seasons come out of the "popular" sort as 5, 4, 3, 2. */
  lemma PopularExample(s: seq<Podcast>, r: seq<Podcast>)
    requires |s| == 4
    requires s[0].seasons == 3 && s[1].seasons == 5 && s[2].seasons == 2 && s[3].seasons == 4
    requires Ordered(Popular, r) && KeepsTieOrder(Popular, s, r)
    ensures r == [s[1], s[3], s[0], s[2]]
  {
    var t := [s[1], s[3], s[0], s[2]];
    assert s == [s[0]] + ([s[1]] + ([s[2]] + ([s[3]] + [])));
    assert t == [s[1]] + ([s[3]] + ([s[0]] + ([s[2]] + [])));
    forall k
      ensures RankClass(Popular, k, t) == RankClass(Popular, k, s)
    {
      RankClassPrepend(Popular, k, s[0], [s[1]] + ([s[2]] + ([s[3]] + [])));
      RankClassPrepend(Popular, k, s[1], [s[2]] + ([s[3]] + []));
      RankClassPrepend(Popular, k, s[2], [s[3]] + []);
      RankClassPrepend(Popular, k, s[3], []);
      RankClassPrepend(Popular, k, s[1], [s[3]] + ([s[0]] + ([s[2]] + [])));
      RankClassPrepend(Popular, k, s[3], [s[0]] + ([s[2]] + []));
      RankClassPrepend(Popular, k, s[0], [s[2]] + []);
      RankClassPrepend(Popular, k, s[2], []);
    }
    KeepsTieOrderTrans(Popular, r, s, t);
    SortedUnique(Popular, r, t);
  }
}
