/** Sequence helpers shared by the pages: JavaScript's `Array.prototype.filter`,
    the insertion-ordered `Set` built from a list, and counting. */
module Seqs {

  /** `s.filter(p)`: the elements of `s` that satisfy `p`, in their original order.
      Defined from the end so that a loop that extends a prefix unfolds it in one step. */
  function Filter<T>(s: seq<T>, p: T -> bool): (r: seq<T>)
    ensures |r| <= |s|
    ensures forall x :: x in r ==> x in s && p(x)
    ensures forall x :: x in s && p(x) ==> x in r
  {
    if s == [] then []
    else Filter(s[..|s| - 1], p) + (if p(s[|s| - 1]) then [s[|s| - 1]] else [])
  }

  /** The indices of `s` whose element satisfies `p`, in increasing order. */
  function PassingIndices<T>(s: seq<T>, p: T -> bool): (r: seq<nat>)
    ensures forall k :: 0 <= k < |r| ==> r[k] < |s| && p(s[r[k]])
  {
    if s == [] then []
    else PassingIndices(s[..|s| - 1], p) + (if p(s[|s| - 1]) then [|s| - 1] else [])
  }

  /** The passing indices are strictly increasing and are exactly the positions whose element passes. */
  lemma {:induction false} PassingIndicesSpec<T>(s: seq<T>, p: T -> bool)
    ensures forall j, k :: 0 <= j < k < |PassingIndices(s, p)| ==> PassingIndices(s, p)[j] < PassingIndices(s, p)[k]
    ensures forall i :: 0 <= i < |s| && p(s[i]) ==> i in PassingIndices(s, p)
  {
    if s != [] {
      var t := s[..|s| - 1];
      PassingIndicesSpec(t, p);
      var ix := PassingIndices(t, p);
      assert forall i :: 0 <= i < |t| ==> s[i] == t[i];
      assert PassingIndices(s, p) == ix + (if p(s[|s| - 1]) then [|t|] else []);
    }
  }

  /** The `k`-th element `Filter` keeps is the element at the `k`-th passing index. */
  lemma {:induction false} FilterAtPassingIndices<T>(s: seq<T>, p: T -> bool)
    ensures |PassingIndices(s, p)| == |Filter(s, p)|
    ensures forall k :: 0 <= k < |Filter(s, p)| ==> Filter(s, p)[k] == s[PassingIndices(s, p)[k]]
  {
    if s != [] {
      var t := s[..|s| - 1];
      var x := s[|s| - 1];
      FilterAtPassingIndices(t, p);
      var ix, f := PassingIndices(t, p), Filter(t, p);
      if p(x) {
        assert PassingIndices(s, p) == ix + [|t|];
        assert Filter(s, p) == f + [x];
        forall k | 0 <= k < |f| + 1
          ensures (f + [x])[k] == s[(ix + [|t|])[k]]
        {
          if k < |f| {
            assert (f + [x])[k] == f[k] && (ix + [|t|])[k] == ix[k];
            assert s[ix[k]] == t[ix[k]];
          }
        }
      } else {
        assert PassingIndices(s, p) == ix;
        assert Filter(s, p) == f;
        forall k | 0 <= k < |f|
          ensures f[k] == s[ix[k]]
        {
          assert s[ix[k]] == t[ix[k]];
        }
      }
    }
  }

  /** `Filter` keeps exactly the passing positions, in strictly increasing order:
      it is the order-preserving subsequence of the passing elements. */
  lemma FilterIsSubsequence<T>(s: seq<T>, p: T -> bool)
    ensures |PassingIndices(s, p)| == |Filter(s, p)|
    ensures forall k :: 0 <= k < |Filter(s, p)| ==> Filter(s, p)[k] == s[PassingIndices(s, p)[k]]
    ensures forall j, k :: 0 <= j < k < |PassingIndices(s, p)| ==> PassingIndices(s, p)[j] < PassingIndices(s, p)[k]
    ensures forall i :: 0 <= i < |s| && p(s[i]) ==> i in PassingIndices(s, p)
  {
    PassingIndicesSpec(s, p);
    FilterAtPassingIndices(s, p);
  }

  /** Filtering twice is filtering once by the conjunction. */
  lemma {:induction false} FilterFilter<T>(s: seq<T>, p: T -> bool, q: T -> bool, r: T -> bool)
    requires forall x :: x in s ==> r(x) == (p(x) && q(x))
    ensures Filter(Filter(s, p), q) == Filter(s, r)
  {
    if s != [] {
      var t := s[..|s| - 1];
      assert s == t + [s[|s| - 1]];
      FilterFilter(t, p, q, r);
      var x := s[|s| - 1];
      var fp := Filter(t, p) + (if p(x) then [x] else []);
      assert Filter(s, p) == fp;
      if p(x) {
        assert fp[..|fp| - 1] == Filter(t, p);
      } else {
        assert fp == Filter(t, p);
      }
    }
  }

  /** Predicates that agree on the elements of `s` filter it alike. */
  lemma {:induction false} FilterExt<T>(s: seq<T>, p: T -> bool, q: T -> bool)
    requires forall x :: x in s ==> p(x) == q(x)
    ensures Filter(s, p) == Filter(s, q)
  {
    if s != [] {
      var t := s[..|s| - 1];
      assert s == t + [s[|s| - 1]];
      FilterExt(t, p, q);
    }
  }

  /** A predicate that holds everywhere keeps the whole sequence. */
  lemma {:induction false} FilterAll<T>(s: seq<T>, p: T -> bool)
    requires forall x :: x in s ==> p(x)
    ensures Filter(s, p) == s
  {
    if s != [] {
      var t := s[..|s| - 1];
      assert s == t + [s[|s| - 1]];
      FilterAll(t, p);
    }
  }

  /** Filtering a concatenation concatenates the filtered parts. */
  lemma {:induction false} FilterAppend<T>(a: seq<T>, b: seq<T>, p: T -> bool)
    ensures Filter(a + b, p) == Filter(a, p) + Filter(b, p)
  {
    if b == [] {
      assert a + b == a;
    } else {
      var front, last := b[..|b| - 1], b[|b| - 1];
      FilterAppend(a, front, p);
      AppendFront(a, b);
      AppendAssoc(Filter(a, p), Filter(front, p), if p(last) then [last] else []);
    }
  }

  /** An element that fails the predicate, between two runs that pass it, is the only
      one dropped. */
  lemma {:induction false} FilterDropsOne<T>(before: seq<T>, x: T, after: seq<T>, p: T -> bool)
    requires !p(x)
    requires forall y :: y in before ==> p(y)
    requires forall y :: y in after ==> p(y)
    ensures Filter(before + [x] + after, p) == before + after
  {
    var l := before + [x];
    FilterSingle(x, p);
    FilterAppend(before, [x], p);
    assert Filter(l, p) == Filter(before, p);
    FilterAll(before, p);
    assert Filter(l, p) == before;
    FilterAll(after, p);
    FilterAppend(l, after, p);
  }

  /** Filtering a one-element sequence keeps the element exactly when it passes. */
  lemma FilterSingle<T>(x: T, p: T -> bool)
    ensures Filter([x], p) == if p(x) then [x] else []
  {
    assert [x][..0] == [];
  }

  /** Appending an element keeps every earlier element at its index. */
  lemma SnocKeeps<T>(s: seq<T>, x: T)
    ensures |s + [x]| == |s| + 1 && (s + [x])[|s|] == x
    ensures forall k :: 0 <= k < |s| ==> (s + [x])[k] == s[k]
  {
  }

  /** A value is in a non-empty sequence when it is in the front or is the last element. */
  lemma InSnoc<T>(s: seq<T>)
    requires s != []
    ensures forall x :: x in s <==> x in s[..|s| - 1] || x == s[|s| - 1]
  {
    assert s == s[..|s| - 1] + [s[|s| - 1]];
  }

  /** Dropping the last element of `a + b`, for a non-empty `b`, drops the last of `b`. */
  lemma AppendFront<T>(a: seq<T>, b: seq<T>)
    requires b != []
    ensures (a + b)[..|a + b| - 1] == a + b[..|b| - 1]
    ensures (a + b)[|a + b| - 1] == b[|b| - 1]
  {
  }

  /** Taking one more element of `b` after `a` appends `b[j]`. */
  lemma PrefixSnoc<T>(a: seq<T>, b: seq<T>, j: nat)
    requires j < |b|
    ensures var x := a + b[..j + 1]; x != [] && x[..|x| - 1] == a + b[..j] && x[|x| - 1] == b[j]
  {
    assert b[..j + 1] == b[..j] + [b[j]];
  }

  /** The prefix of length `i + 1` is the prefix of length `i` followed by `s[i]`. */
  lemma TakeSnoc<T>(s: seq<T>, i: nat)
    requires i < |s|
    ensures s[..i + 1][..i] == s[..i] && s[..i + 1] == s[..i] + [s[i]]
  {
  }

  /** Concatenation is associative. */
  lemma AppendAssoc<T>(a: seq<T>, b: seq<T>, c: seq<T>)
    ensures (a + b) + c == a + (b + c)
  {
  }

  /** The number of elements of `s` that satisfy `p`, counted one by one. */
  function Count<T>(s: seq<T>, p: T -> bool): nat
  {
    if s == [] then 0 else (if p(s[0]) then 1 else 0) + Count(s[1..], p)
  }

  /** `s.filter(p).length` is the count of the elements that satisfy `p`. */
  lemma {:induction false} FilterLengthIsCount<T>(s: seq<T>, p: T -> bool)
    ensures |Filter(s, p)| == Count(s, p)
  {
    if s != [] {
      var t := s[..|s| - 1];
      FilterLengthIsCount(t, p);
      CountSnoc(t, s[|s| - 1], p);
      assert t + [s[|s| - 1]] == s;
    }
  }

  lemma {:induction false} CountSnoc<T>(s: seq<T>, x: T, p: T -> bool)
    ensures Count(s + [x], p) == Count(s, p) + (if p(x) then 1 else 0)
  {
    if s != [] {
      assert (s + [x])[1..] == s[1..] + [x];
      CountSnoc(s[1..], x, p);
    }
  }

  /** Counting over a concatenation adds the counts of the parts. */
  lemma {:induction false} CountAppend<T>(a: seq<T>, b: seq<T>, p: T -> bool)
    ensures Count(a + b, p) == Count(a, p) + Count(b, p)
  {
    if a == [] {
      assert a + b == b;
    } else {
      assert (a + b)[0] == a[0];
      assert (a + b)[1..] == a[1..] + b;
      CountAppend(a[1..], b, p);
    }
  }

  /** No value occurs twice. */
  predicate Distinct<T(==)>(s: seq<T>)
  {
    forall i, j :: 0 <= i < j < |s| ==> s[i] != s[j]
  }

  /** Filtering keeps distinct values distinct. */
  lemma {:induction false} FilterDistinct<T>(s: seq<T>, p: T -> bool)
    requires Distinct(s)
    ensures Distinct(Filter(s, p))
  {
    if s != [] {
      var t := s[..|s| - 1];
      assert Distinct(t);
      FilterDistinct(t, p);
      assert s[|s| - 1] !in t;
    }
  }

  /** The insertion-ordered set of `s` (`Array.from(new Set(s))`): each value once,
      at the position of its first occurrence. */
  function Dedup<T(==)>(s: seq<T>): (r: seq<T>)
    ensures forall x :: x in r ==> x in s
  {
    if s == [] then []
    else
      var d := Dedup(s[..|s| - 1]);
      if s[|s| - 1] in d then d else d + [s[|s| - 1]]
  }

  /** Index of the first occurrence of `x` in `s`. */
  function FirstIndex<T(==)>(s: seq<T>, x: T): (i: nat)
    requires x in s
    ensures i < |s| && s[i] == x && x !in s[..i]
  {
    if s[0] == x then 0 else 1 + FirstIndex(s[1..], x)
  }

  lemma {:induction false} FirstIndexInPrefix<T>(s: seq<T>, n: nat, x: T)
    requires n <= |s| && x in s[..n]
    ensures FirstIndex(s, x) == FirstIndex(s[..n], x)
  {
    if s[0] != x {
      assert s[..n][1..] == s[1..][..n - 1];
      FirstIndexInPrefix(s[1..], n - 1, x);
    }
  }

  /** `Dedup` drops only repeats: every value of `s` is kept. */
  lemma {:induction false} DedupKeepsAll<T>(s: seq<T>)
    ensures forall x :: x in s ==> x in Dedup(s)
  {
    if s != [] {
      var t := s[..|s| - 1];
      DedupKeepsAll(t);
      assert forall y :: y in s ==> y in t || y == s[|s| - 1] by {
        assert s == t + [s[|s| - 1]];
      }
    }
  }

  /** `Dedup` holds each value once. */
  lemma {:induction false} DedupDistinct<T>(s: seq<T>)
    ensures Distinct(Dedup(s))
  {
    if s != [] {
      DedupDistinct(s[..|s| - 1]);
    }
  }

  /** `Dedup` orders its values by where they first occur in `s`. */
  lemma {:induction false} DedupOrder<T>(s: seq<T>)
    ensures forall i, j :: 0 <= i < j < |Dedup(s)| ==> FirstIndex(s, Dedup(s)[i]) < FirstIndex(s, Dedup(s)[j])
  {
    if s != [] {
      var t := s[..|s| - 1];
      var x := s[|s| - 1];
      DedupOrder(t);
      DedupKeepsAll(t);
      var d := Dedup(t);
      forall y | y in d
        ensures FirstIndex(s, y) == FirstIndex(t, y) && FirstIndex(s, y) < |t|
      {
        FirstIndexInPrefix(s, |s| - 1, y);
      }
      if x !in d {
        assert x !in t;
        assert FirstIndex(s, x) == |t|;
        assert Dedup(s) == d + [x];
      }
    }
  }

  /** `Dedup` keeps exactly the values of `s`, each once, ordered by first occurrence. */
  lemma DedupSpec<T>(s: seq<T>)
    ensures forall x :: x in Dedup(s) ==> x in s
    ensures forall x :: x in s ==> x in Dedup(s)
    ensures Distinct(Dedup(s))
    ensures forall i, j :: 0 <= i < j < |Dedup(s)| ==> FirstIndex(s, Dedup(s)[i]) < FirstIndex(s, Dedup(s)[j])
  {
    DedupKeepsAll(s);
    DedupDistinct(s);
    DedupOrder(s);
  }

  /** The empty sequence has an empty set. */
  lemma DedupEmpty<T>(s: seq<T>)
    requires Dedup(s) == []
    ensures s == []
  {
    DedupSpec(s);
  }

  /** A sequence without repeats has as many distinct values as elements. */
  lemma {:induction false} DistinctCardinality<T>(s: seq<T>)
    requires Distinct(s)
    ensures |set x | x in s| == |s|
  {
    if s != [] {
      var t := s[..|s| - 1];
      DistinctCardinality(t);
      assert (set x | x in s) == (set x | x in t) + {s[|s| - 1]};
    }
  }

  /** Pigeonhole: a repeat-free selection drawn from a repeat-free list holds every
      element of the list exactly when it is as long as the list. */
  lemma DistinctSubsetFull<T>(a: seq<T>, b: seq<T>)
    requires Distinct(a) && Distinct(b)
    requires forall x :: x in a ==> x in b
    ensures |a| <= |b|
    ensures |a| == |b| <==> forall x :: x in b ==> x in a
  {
    DistinctCardinality(a);
    DistinctCardinality(b);
    var sa, sb := set x | x in a, set x | x in b;
    assert sa <= sb;
    assert |sb - sa| == |sb| - |sa|;
    if |a| == |b| {
      assert sb - sa == {};
      assert forall x :: x in b ==> x in sb && x !in sb - sa;
    }
    if forall x :: x in b ==> x in a {
      assert sa == sb;
    }
  }
}
