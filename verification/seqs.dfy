/** Generic facts about sequences: prefixes, sub-sequences, selection and first occurrence. */
module Seqs {

  /** Python's `s[:n]` for a non-negative `n`: the first `n` elements, or all of `s`. */
  function Take<T>(s: seq<T>, n: nat): (r: seq<T>)
    ensures r <= s
    ensures |r| <= n
    ensures |s| <= n ==> r == s
    ensures n <= |s| ==> |r| == n
  {
    if |s| <= n then s else s[..n]
  }

  /** The concatenation of a sequence of sequences, in order. */
  function Flatten<T>(ss: seq<seq<T>>): seq<T>
  {
    if |ss| == 0 then [] else ss[0] + Flatten(ss[1..])
  }

  /** Concatenation is associative; stated generically so that it is proved
      without looking at the elements. */
  lemma ConcatAssoc<T>(a: seq<T>, b: seq<T>, c: seq<T>)
    ensures (a + b) + c == a + (b + c)
  {
  }

  /** Dropping the last element of a concatenation drops it from the second part. */
  lemma ConcatInit<T>(a: seq<T>, b: seq<T>)
    requires |b| > 0
    ensures (a + b)[..|a + b| - 1] == a + b[..|b| - 1]
    ensures (a + b)[|a + b| - 1] == b[|b| - 1]
  {
  }

  /** A prefix taken with `Take` agrees with its source position by position. */
  lemma TakeIndex<T>(s: seq<T>, n: nat)
    ensures forall i :: 0 <= i < |Take(s, n)| ==> Take(s, n)[i] == s[i]
  {
  }

  /** A non-empty sequence is its head followed by its tail. */
  lemma Uncons<T>(s: seq<T>)
    requires |s| > 0
    ensures s == [s[0]] + s[1..]
  {
  }

  /** A suffix is its first element followed by the rest. */
  lemma SuffixUncons<T>(s: seq<T>, i: nat)
    requires i < |s|
    ensures s[i..] == [s[i]] + s[i + 1..]
  {
  }

  /** Two adjacent slices of a prefix make up the longer prefix. */
  lemma PrefixJoin<T>(s: seq<T>, j: nat, k: nat)
    requires j <= k <= |s|
    ensures s[..j] + s[j..k] == s[..k]
  {
  }

  /** `a` can be obtained from `b` by deleting elements (order is kept). */
  predicate IsSubsequence<T(==)>(a: seq<T>, b: seq<T>)
    decreases |b|
  {
    || |a| == 0
    || (&& |b| > 0
        && (|| (a[|a| - 1] == b[|b| - 1] && IsSubsequence(a[..|a| - 1], b[..|b| - 1]))
            || IsSubsequence(a, b[..|b| - 1])))
  }

  /** No element occurs twice. */
  predicate NoDuplicates<T(==)>(s: seq<T>)
  {
    forall p, q :: 0 <= p < q < |s| ==> s[p] != s[q]
  }

  /** Every element is smaller than the ones after it. */
  predicate StrictlyIncreasing(s: seq<int>)
  {
    forall p, q :: 0 <= p < q < |s| ==> s[p] < s[q]
  }

  /** The position of the first occurrence of `x` in `s`. */
  function IndexOf<T(==)>(s: seq<T>, x: T): (i: nat)
    requires x in s
    ensures i < |s| && s[i] == x
    ensures x !in s[..i]
  {
    if s[0] == x then 0
    else
      assert s == [s[0]] + s[1..];
      1 + IndexOf(s[1..], x)
  }

  /** A position holding `x` with no earlier `x` is the first occurrence. */
  lemma IndexOfIsUnique<T>(s: seq<T>, x: T, i: nat)
    requires i < |s| && s[i] == x && x !in s[..i]
    ensures IndexOf(s, x) == i
  {
    var j := IndexOf(s, x);
    assert forall m :: 0 <= m < j ==> s[..j][m] == s[m];
    assert forall m :: 0 <= m < i ==> s[..i][m] == s[m];
  }

  /** The elements of `s` whose key is `k`, in the order they occur in `s`. */
  function Where<T(==), K(==)>(s: seq<T>, key: T -> K, k: K): (r: seq<T>)
    ensures |r| <= |s|
    ensures forall i :: 0 <= i < |r| ==> key(r[i]) == k
    decreases |s|
  {
    if |s| == 0 then []
    else
      var init := Where(s[..|s| - 1], key, k);
      assert s == s[..|s| - 1] + [s[|s| - 1]];
      if key(s[|s| - 1]) == k then
        var r := init + [s[|s| - 1]];
        assert r[..|r| - 1] == init;
        r
      else
        init
  }

  /** The selection keeps the order of `s`. */
  lemma {:induction false} WhereIsSubsequence<T, K>(s: seq<T>, key: T -> K, k: K)
    ensures IsSubsequence(Where(s, key, k), s)
    decreases |s|
  {
    if |s| > 0 {
      var init := s[..|s| - 1];
      WhereIsSubsequence(init, key, k);
      var w := Where(init, key, k);
      if key(s[|s| - 1]) == k {
        assert (w + [s[|s| - 1]])[..|w|] == w;
      } else {
        assert IsSubsequence(w, s) by {
          if |w| > 0 {
            assert s[..|s| - 1] == init;
          }
        }
      }
    }
  }

  /** Extending the input by one element extends the selection by that element when it is selected. */
  lemma WhereExtend<T, K>(s: seq<T>, key: T -> K, k: K, i: nat)
    requires i < |s|
    ensures Where(s[..i + 1], key, k) == Where(s[..i], key, k) + (if key(s[i]) == k then [s[i]] else [])
  {
    assert s[..i + 1][..i] == s[..i];
  }

  /** The selection holds every occurrence of every element whose key is `k`, and nothing else. */
  lemma {:induction false} WhereCounts<T(!new), K>(s: seq<T>, key: T -> K, k: K)
    ensures forall x :: multiset(Where(s, key, k))[x] == if key(x) == k then multiset(s)[x] else 0
    decreases |s|
  {
    if |s| > 0 {
      var init := s[..|s| - 1];
      WhereCounts(init, key, k);
      assert s == init + [s[|s| - 1]];
    }
  }

  /** No element has key `k`, so nothing is selected. */
  lemma {:induction false} WhereNone<T, K>(s: seq<T>, key: T -> K, k: K)
    requires forall i :: 0 <= i < |s| ==> key(s[i]) != k
    ensures Where(s, key, k) == []
    decreases |s|
  {
    if |s| > 0 {
      assert forall i :: 0 <= i < |s| - 1 ==> s[..|s| - 1][i] == s[i];
      WhereNone(s[..|s| - 1], key, k);
    }
  }

  /** The elements of `s` without repetitions, each where it first occurs. */
  function Distinct<T(==)>(s: seq<T>): (r: seq<T>)
    ensures NoDuplicates(r)
    ensures forall i :: 0 <= i < |r| ==> r[i] in s
    ensures forall i :: 0 <= i < |s| ==> s[i] in r
    decreases |s|
  {
    if |s| == 0 then []
    else
      var init := s[..|s| - 1];
      var d := Distinct(init);
      assert forall i :: 0 <= i < |init| ==> init[i] == s[i];
      if s[|s| - 1] in d then d else d + [s[|s| - 1]]
  }

  /** Extending the input by one element appends it to `Distinct` when it is new. */
  lemma DistinctExtend<T>(s: seq<T>, i: nat)
    requires i < |s|
    ensures s[i] in Distinct(s[..i]) <==> s[i] in s[..i]
    ensures Distinct(s[..i + 1]) == if s[i] in s[..i] then Distinct(s[..i]) else Distinct(s[..i]) + [s[i]]
  {
    assert s[..i + 1][..i] == s[..i];
    var d := Distinct(s[..i]);
    assert s[i] in d <==> s[i] in s[..i] by {
      if s[i] in d {
        var j :| 0 <= j < |d| && d[j] == s[i];
      }
      if s[i] in s[..i] {
        var j :| 0 <= j < i && s[..i][j] == s[i];
      }
    }
  }

  /** An element of a prefix occurs first where it first occurs in the prefix. */
  lemma IndexOfPrefix<T>(s: seq<T>, n: nat, x: T)
    requires n <= |s| && x in s[..n]
    ensures x in s && IndexOf(s, x) == IndexOf(s[..n], x)
  {
    var i := IndexOf(s[..n], x);
    assert s[..n][..i] == s[..i];
    IndexOfIsUnique(s, x, i);
  }

  /** `Distinct` lists the elements in the order of their first occurrence. */
  lemma {:induction false} DistinctKeepsFirstOccurrenceOrder<T>(s: seq<T>)
    ensures forall p, q :: 0 <= p < q < |Distinct(s)| ==>
              && Distinct(s)[p] in s && Distinct(s)[q] in s
              && IndexOf(s, Distinct(s)[p]) < IndexOf(s, Distinct(s)[q])
    decreases |s|
  {
    if |s| > 0 {
      var n := |s| - 1;
      var init := s[..n];
      var d := Distinct(init);
      DistinctKeepsFirstOccurrenceOrder(init);
      forall p | 0 <= p < |d|
        ensures d[p] in s && IndexOf(s, d[p]) == IndexOf(init, d[p]) < n
      {
        IndexOfPrefix(s, n, d[p]);
      }
      var r := Distinct(s);
      if s[n] !in d {
        assert s[n] !in s[..n];
        IndexOfIsUnique(s, s[n], n);
        assert r == d + [s[n]];
      } else {
        assert r == d;
      }
      forall p, q | 0 <= p < q < |r|
        ensures r[p] in s && r[q] in s && IndexOf(s, r[p]) < IndexOf(s, r[q])
      {
        if q < |d| {
          assert r[p] == d[p] && r[q] == d[q];
          assert IndexOf(init, d[p]) < IndexOf(init, d[q]);
        } else {
          assert r[p] == d[p] && r[q] == s[n];
        }
      }
    } else {
      assert Distinct(s) == [];
    }
  }
}
