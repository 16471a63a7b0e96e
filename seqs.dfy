/**
 * List operations the sources use as one-liners: comprehensions with a
 * condition (`filter`), loops that append only some parsed lines, counting,
 * and the stable sorts of Python's `sorted` and JavaScript's `Array.sort`.
 */
module Seqs {
  import opened Wrappers

  // ---------------------------------------------------------------------------
  // Filter

  /** The elements of `s` that satisfy `p`, in their order in `s`. */
  function Filter<T(!new)>(s: seq<T>, p: T -> bool): (r: seq<T>)
    ensures |r| <= |s|
    ensures forall i :: 0 <= i < |r| ==> p(r[i])
    ensures forall x :: x in r <==> x in s && p(x)
  {
    if s == [] then []
    else
      var init := s[..|s| - 1];
      assert s == init + [s[|s| - 1]];
      Filter(init, p) + (if p(s[|s| - 1]) then [s[|s| - 1]] else [])
  }

  /** Every element that passes is kept as often as it occurs; the others are dropped. */
  lemma {:induction false} FilterMultiset<T(!new)>(s: seq<T>, p: T -> bool, x: T)
    ensures multiset(Filter(s, p))[x] == if p(x) then multiset(s)[x] else 0
  {
    if s != [] {
      var init, last := s[..|s| - 1], s[|s| - 1];
      FilterMultiset(init, p, x);
      assert s == init + [last];
      assert multiset(s) == multiset(init) + multiset{last};
      var tail := if p(last) then [last] else [];
      assert Filter(s, p) == Filter(init, p) + tail;
      assert multiset(Filter(s, p)) == multiset(Filter(init, p)) + multiset(tail);
    }
  }

  /** Filtering works piecewise, so it keeps the order of the kept elements. */
  lemma {:induction false} FilterAppend<T(!new)>(a: seq<T>, b: seq<T>, p: T -> bool)
    ensures Filter(a + b, p) == Filter(a, p) + Filter(b, p)
  {
    if b != [] {
      var b' := b[..|b| - 1];
      assert (a + b)[..|a + b| - 1] == a + b';
      FilterAppend(a, b', p);
    } else {
      assert a + b == a;
    }
  }

  /** Filtering a sequence whose every element passes changes nothing. */
  lemma {:induction false} FilterAll<T(!new)>(s: seq<T>, p: T -> bool)
    requires forall i :: 0 <= i < |s| ==> p(s[i])
    ensures Filter(s, p) == s
  {
    if s != [] {
      var init, last := s[..|s| - 1], s[|s| - 1];
      forall i | 0 <= i < |init| ensures p(init[i]) {
        assert init[i] == s[i];
      }
      FilterAll(init, p);
      assert p(last);
      assert Filter(s, p) == init + [last];
      assert s == init + [last];
    }
  }

  /** Filtering a sequence none of whose elements passes leaves nothing. */
  lemma {:induction false} FilterNone<T(!new)>(s: seq<T>, p: T -> bool)
    requires forall i :: 0 <= i < |s| ==> !p(s[i])
    ensures Filter(s, p) == []
  {
    if s != [] {
      FilterNone(s[..|s| - 1], p);
    }
  }

  /** When the last element passes, it is the last element kept. */
  lemma FilterKeepsLast<T(!new)>(s: seq<T>, p: T -> bool)
    requires s != [] && p(s[|s| - 1])
    ensures Filter(s, p) != [] && Filter(s, p)[|Filter(s, p)| - 1] == s[|s| - 1]
  {
  }

  /** Two tests that agree on every element filter alike. */
  lemma {:induction false} FilterSame<T(!new)>(s: seq<T>, p: T -> bool, q: T -> bool)
    requires forall x :: p(x) == q(x)
    ensures Filter(s, p) == Filter(s, q)
  {
    if s != [] {
      FilterSame(s[..|s| - 1], p, q);
    }
  }

  /** The number of elements of `s` that satisfy `p`. */
  function Count<T(!new)>(s: seq<T>, p: T -> bool): nat {
    |Filter(s, p)|
  }

  /** The elements that pass a test and those that fail it add up to all of `s`. */
  lemma {:induction false} CountSplit<T(!new)>(s: seq<T>, p: T -> bool, q: T -> bool)
    requires forall x :: q(x) == !p(x)
    ensures Count(s, p) + Count(s, q) == |s|
  {
    if s != [] {
      CountSplit(s[..|s| - 1], p, q);
    }
  }

  /** Sequences holding the same elements as often have as many elements passing any test. */
  lemma CountPermutation<T(!new)>(a: seq<T>, b: seq<T>, p: T -> bool)
    requires multiset(a) == multiset(b)
    ensures Count(a, p) == Count(b, p)
  {
    forall x ensures multiset(Filter(a, p))[x] == multiset(Filter(b, p))[x] {
      FilterMultiset(a, p, x);
      FilterMultiset(b, p, x);
    }
    assert multiset(Filter(a, p)) == multiset(Filter(b, p));
    assert |multiset(Filter(a, p))| == |Filter(a, p)|;
    assert |multiset(Filter(b, p))| == |Filter(b, p)|;
  }

  /** `s` back to front, as Python's `list.reverse()` leaves it. */
  function Reversed<T>(s: seq<T>): (r: seq<T>)
    ensures |r| == |s| && forall i :: 0 <= i < |s| ==> r[i] == s[|s| - 1 - i]
    ensures multiset(r) == multiset(s)
  {
    if s == [] then []
    else
      assert s == s[..|s| - 1] + [s[|s| - 1]];
      [s[|s| - 1]] + Reversed(s[..|s| - 1])
  }

  /** Reversing a concatenation reverses and swaps its parts. */
  lemma ReversedAppend<T>(a: seq<T>, b: seq<T>)
    ensures Reversed(a + b) == Reversed(b) + Reversed(a)
  {
    var l, r := Reversed(a + b), Reversed(b) + Reversed(a);
    assert |l| == |r|;
    forall i | 0 <= i < |l| ensures l[i] == r[i] {
      var n := |a| + |b|;
      assert l[i] == (a + b)[n - 1 - i];
      if i < |b| {
        assert (a + b)[n - 1 - i] == b[|b| - 1 - i];
        assert r[i] == Reversed(b)[i];
      } else {
        assert (a + b)[n - 1 - i] == a[|a| - 1 - (i - |b|)];
        assert r[i] == Reversed(a)[i - |b|];
      }
    }
  }

  // ---------------------------------------------------------------------------
  // FilterMap: one optional output per input, the present ones kept in order

  function FilterMap<A, B>(s: seq<A>, f: A -> Option<B>): (r: seq<B>)
    ensures |r| <= |s|
    ensures forall i :: 0 <= i < |r| ==> exists j :: 0 <= j < |s| && f(s[j]) == Some(r[i])
  {
    if s == [] then []
    else
      var init := s[..|s| - 1];
      var rest := FilterMap(init, f);
      assert forall i :: 0 <= i < |rest| ==> exists j :: 0 <= j < |s| && f(s[j]) == Some(rest[i]) by {
        forall i | 0 <= i < |rest| ensures exists j :: 0 <= j < |s| && f(s[j]) == Some(rest[i]) {
          var j :| 0 <= j < |init| && f(init[j]) == Some(rest[i]);
          assert s[j] == init[j];
        }
      }
      match f(s[|s| - 1])
      case Some(y) => rest + [y]
      case None => rest
  }

  /** One more element of `s` read: its output, if any, is added at the end. */
  lemma FilterMapStep<A, B>(s: seq<A>, i: nat, f: A -> Option<B>)
    requires i < |s|
    ensures FilterMap(s[..i + 1], f) == FilterMap(s[..i], f) + (if f(s[i]).Some? then [f(s[i]).value] else [])
  {
    assert s[..i + 1][..i] == s[..i];
  }

  /** Every present output of `f` over `s` ends up in the result. */
  lemma {:induction false} FilterMapComplete<A, B>(s: seq<A>, f: A -> Option<B>, j: nat)
    requires j < |s| && f(s[j]).Some?
    ensures f(s[j]).value in FilterMap(s, f)
  {
    if j < |s| - 1 {
      FilterMapComplete(s[..|s| - 1], f, j);
    }
  }

  /** `FilterMap` works piecewise, so outputs appear in the order of their inputs. */
  lemma {:induction false} FilterMapAppend<A, B>(a: seq<A>, b: seq<A>, f: A -> Option<B>)
    ensures FilterMap(a + b, f) == FilterMap(a, f) + FilterMap(b, f)
  {
    if b != [] {
      var b' := b[..|b| - 1];
      assert (a + b)[..|a + b| - 1] == a + b';
      FilterMapAppend(a, b', f);
    } else {
      assert a + b == a;
    }
  }

  // ---------------------------------------------------------------------------
  // Stable insertion sort by a "comes strictly before" relation

  /** `before` never holds both ways. */
  ghost predicate Asymmetric<T(!new)>(before: (T, T) -> bool) {
    forall a, b :: before(a, b) ==> !before(b, a)
  }

  /** "Not before" is transitive, as it is for a comparison of keys. */
  ghost predicate NegativelyTransitive<T(!new)>(before: (T, T) -> bool) {
    forall a, b, c :: !before(b, a) && !before(c, b) ==> !before(c, a)
  }

  /** No element is strictly before its predecessor. */
  predicate SortedBy<T>(s: seq<T>, before: (T, T) -> bool) {
    forall i :: 0 < i < |s| ==> !before(s[i], s[i - 1])
  }

  /** Insert `x` behind every element of `r` that it is not strictly before. */
  function Insert<T>(x: T, r: seq<T>, before: (T, T) -> bool): (q: seq<T>)
    ensures multiset(q) == multiset(r) + multiset{x}
    ensures |q| == |r| + 1
    ensures q[0] == x || (r != [] && q[0] == r[0])
  {
    if r == [] || before(x, r[0]) then [x] + r
    else
      assert r == [r[0]] + r[1..];
      [r[0]] + Insert(x, r[1..], before)
  }

  /**
   * The stable sort: elements ordered by `before`, elements that are equal under
   * it left in their input order.
   */
  function SortBy<T>(s: seq<T>, before: (T, T) -> bool): (r: seq<T>)
    ensures multiset(r) == multiset(s)
    ensures |r| == |s|
  {
    if s == [] then []
    else
      var init := s[..|s| - 1];
      assert s == init + [s[|s| - 1]];
      Insert(s[|s| - 1], SortBy(init, before), before)
  }

  lemma {:induction false} InsertSorted<T(!new)>(x: T, r: seq<T>, before: (T, T) -> bool)
    requires Asymmetric(before)
    requires SortedBy(r, before)
    ensures SortedBy(Insert(x, r, before), before)
  {
    if r != [] && !before(x, r[0]) {
      InsertSorted(x, r[1..], before);
    }
  }

  /** The sort's output is ordered. */
  lemma {:induction false} SortBySorted<T(!new)>(s: seq<T>, before: (T, T) -> bool)
    requires Asymmetric(before)
    ensures SortedBy(SortBy(s, before), before)
  {
    if s != [] {
      SortBySorted(s[..|s| - 1], before);
      InsertSorted(s[|s| - 1], SortBy(s[..|s| - 1], before), before);
    }
  }

  /** The elements tied with `x`: neither is strictly before the other. */
  function Tied<T>(before: (T, T) -> bool, x: T): T -> bool {
    (y: T) => !before(x, y) && !before(y, x)
  }

  /** Nothing tied with `x` follows an element tied with `x` that is strictly before the head of an ordered sequence. */
  lemma NoneTiedBehind<T(!new)>(y: T, r: seq<T>, before: (T, T) -> bool, x: T)
    requires Asymmetric(before) && NegativelyTransitive(before)
    requires SortedBy(r, before) && r != [] && before(y, r[0]) && Tied(before, x)(y)
    ensures Filter(r, Tied(before, x)) == []
  {
    var tied := Tied(before, x);
    forall i | 0 <= i < |r| ensures !tied(r[i]) {
      SortedPairwise(r, before, 0, i);
      assert before(y, r[i]);
    }
    FilterNone(r, tied);
  }

  /** Filtering a one-element sequence. */
  lemma FilterSingle<T(!new)>(y: T, p: T -> bool)
    ensures Filter([y], p) == if p(y) then [y] else []
  {
    assert [y][..0] == [];
  }

  /** Inserting into an ordered sequence puts the new element behind every element tied with it. */
  lemma {:induction false} InsertTied<T(!new)>(y: T, r: seq<T>, before: (T, T) -> bool, x: T)
    requires Asymmetric(before) && NegativelyTransitive(before)
    requires SortedBy(r, before)
    ensures Filter(Insert(y, r, before), Tied(before, x)) == Filter(r, Tied(before, x)) + (if Tied(before, x)(y) then [y] else [])
  {
    var tied := Tied(before, x);
    FilterSingle(y, tied);
    if r == [] {
      assert Insert(y, r, before) == [y];
    } else if before(y, r[0]) {
      assert Insert(y, r, before) == [y] + r;
      FilterAppend([y], r, tied);
      if tied(y) {
        NoneTiedBehind(y, r, before, x);
      }
    } else {
      SortedTail(r, before);
      InsertTied(y, r[1..], before, x);
      InsertBehindHead(y, r, before, tied);
    }
  }

  /** Inserting behind the head filters as inserting into the tail, behind the head's own contribution. */
  lemma InsertBehindHead<T(!new)>(y: T, r: seq<T>, before: (T, T) -> bool, tied: T -> bool)
    requires r != [] && !before(y, r[0])
    requires Filter(Insert(y, r[1..], before), tied) == Filter(r[1..], tied) + (if tied(y) then [y] else [])
    ensures Filter(Insert(y, r, before), tied) == Filter(r, tied) + (if tied(y) then [y] else [])
  {
    assert Insert(y, r, before) == [r[0]] + Insert(y, r[1..], before);
    assert r == [r[0]] + r[1..];
    FilterConsAppend(r[0], r[1..], Insert(y, r[1..], before), tied, if tied(y) then [y] else []);
  }

  /** Putting the same head before two sequences keeps a relation between their filters. */
  lemma FilterConsAppend<T(!new)>(h: T, rest: seq<T>, q: seq<T>, p: T -> bool, last: seq<T>)
    requires Filter(q, p) == Filter(rest, p) + last
    ensures Filter([h] + q, p) == Filter([h] + rest, p) + last
  {
    FilterAppend([h], q, p);
    FilterAppend([h], rest, p);
    AppendAssociative(Filter([h], p), Filter(rest, p), last);
  }

  lemma AppendAssociative<T>(a: seq<T>, b: seq<T>, c: seq<T>)
    ensures a + (b + c) == (a + b) + c
  {
  }

  /** The tail of an ordered sequence is ordered. */
  lemma SortedTail<T>(r: seq<T>, before: (T, T) -> bool)
    requires SortedBy(r, before) && r != []
    ensures SortedBy(r[1..], before)
  {
    var rest := r[1..];
    forall i | 0 < i < |rest| ensures !before(rest[i], rest[i - 1]) {
      assert rest[i] == r[i + 1] && rest[i - 1] == r[i];
    }
  }

  /** The sort is stable: the elements tied with any `x` come out in their input order. */
  lemma {:induction false} SortByStable<T(!new)>(s: seq<T>, before: (T, T) -> bool, x: T)
    requires Asymmetric(before) && NegativelyTransitive(before)
    ensures Filter(SortBy(s, before), Tied(before, x)) == Filter(s, Tied(before, x))
  {
    if s != [] {
      var init, last := s[..|s| - 1], s[|s| - 1];
      SortByStable(init, before, x);
      SortBySorted(init, before);
      InsertTied(last, SortBy(init, before), before, x);
    }
  }

  /** No two positions of `s` share a key. */
  predicate KeysDistinct<T, K(==)>(s: seq<T>, key: T -> K) {
    forall i, j :: 0 <= i < j < |s| ==> key(s[i]) != key(s[j])
  }

  lemma {:induction false} InsertKeysDistinct<T, K>(x: T, r: seq<T>, before: (T, T) -> bool, key: T -> K)
    requires KeysDistinct(r, key)
    requires forall y :: y in r ==> key(y) != key(x)
    ensures KeysDistinct(Insert(x, r, before), key)
  {
    if r != [] && !before(x, r[0]) {
      var rest := r[1..];
      InsertKeysDistinct(x, rest, before, key);
      var q := Insert(x, rest, before);
      forall y | y in q ensures key(y) != key(r[0]) {
        assert y in multiset(q);
        if y != x {
          assert y in rest;
          var j :| 0 <= j < |rest| && rest[j] == y;
          assert r[j + 1] == y;
        }
      }
      assert Insert(x, r, before) == [r[0]] + q;
    }
  }

  /** Sorting keeps keys distinct. */
  lemma {:induction false} SortByKeysDistinct<T, K>(s: seq<T>, before: (T, T) -> bool, key: T -> K)
    requires KeysDistinct(s, key)
    ensures KeysDistinct(SortBy(s, before), key)
  {
    if s != [] {
      var init, last := s[..|s| - 1], s[|s| - 1];
      SortByKeysDistinct(init, before, key);
      forall y | y in SortBy(init, before) ensures key(y) != key(last) {
        assert y in multiset(SortBy(init, before));
        var j :| 0 <= j < |init| && init[j] == y;
        assert s[j] == y;
      }
      InsertKeysDistinct(last, SortBy(init, before), before, key);
    }
  }

  /** For a comparison of keys, ordered neighbours make every pair ordered. */
  lemma {:induction false} SortedPairwise<T(!new)>(s: seq<T>, before: (T, T) -> bool, i: nat, j: nat)
    requires NegativelyTransitive(before)
    requires SortedBy(s, before)
    requires i <= j < |s|
    ensures !before(s[j], s[i]) || i == j
    decreases j - i
  {
    if i < j - 1 {
      SortedPairwise(s, before, i, j - 1);
    }
  }

  /** An element counted more often in `s` than in its first `n` elements sits at or after position `n`. */
  lemma BeyondPrefix<T>(s: seq<T>, n: nat, x: T) returns (j: nat)
    requires n <= |s|
    requires x in multiset(s) - multiset(s[..n])
    ensures n <= j < |s| && s[j] == x
  {
    assert s == s[..n] + s[n..];
    assert multiset(s) == multiset(s[..n]) + multiset(s[n..]);
    assert x in multiset(s[n..]);
    var k :| 0 <= k < |s[n..]| && s[n..][k] == x;
    j := n + k;
  }
}
