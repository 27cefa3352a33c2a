/** Sequence helpers: the JavaScript `Set`/`Map` insertion order, `indexOf` and removal. */
module Seqs {

  /** No value occurs twice. */
  ghost predicate NoDuplicates<T>(s: seq<T>)
  {
    forall i, j :: 0 <= i < j < |s| ==> s[i] != s[j]
  }

  /** `[...new Set(s)]`: each value once, in the order it is first seen. */
  function Distinct<T(==, !new)>(s: seq<T>): (d: seq<T>)
    ensures forall x :: x in d <==> x in s
    ensures NoDuplicates(d)
  {
    if |s| == 0 then []
    else
      var d := Distinct(s[..|s| - 1]);
      if s[|s| - 1] in d then d else d + [s[|s| - 1]]
  }

  /** `Array.prototype.indexOf`: the first position holding `x`, or -1. */
  function IndexOf<T(==, !new)>(s: seq<T>, x: T): (i: int)
    ensures -1 <= i < |s|
    ensures i == -1 <==> x !in s
    ensures 0 <= i ==> s[i] == x && forall j :: 0 <= j < i ==> s[j] != x
  {
    if |s| == 0 then -1
    else if s[0] == x then 0
    else
      var i := IndexOf(s[1..], x);
      if i == -1 then -1 else i + 1
  }

  /** `s` with every occurrence of `x` filtered out, the rest in order. */
  function Without<T(==, !new)>(s: seq<T>, x: T): (r: seq<T>)
    ensures forall y :: y in r <==> y in s && y != x
    ensures |r| <= |s|
  {
    if |s| == 0 then []
    else (if s[0] == x then [] else [s[0]]) + Without(s[1..], x)
  }

  /** The number of different values in `s`. */
  function DistinctCount<T(==, !new)>(s: seq<T>): nat
  {
    |set x | x in s|
  }

  lemma {:induction false} DistinctLength<T(!new)>(s: seq<T>)
    ensures |Distinct(s)| == DistinctCount(s)
  {
    if |s| > 0 {
      var s', x := s[..|s| - 1], s[|s| - 1];
      DistinctLength(s');
      assert s == s' + [x];
      var before := set y | y in s';
      assert (set y | y in s) == before + {x};
      if x !in before {
        assert |before + {x}| == |before| + 1;
      } else {
        assert before + {x} == before;
      }
    }
  }

  /** The values of `Distinct(s)` come in the order of their first occurrence in `s`. */
  lemma {:induction false} DistinctFirstSeen<T(!new)>(s: seq<T>)
    ensures FirstSeenOrder(Distinct(s), s)
  {
    if |s| > 0 {
      var s', x := s[..|s| - 1], s[|s| - 1];
      DistinctFirstSeen(s');
      assert s == s' + [x];
      forall y | y in s'
        ensures IndexOf(s, y) == IndexOf(s', y)
      {
        IndexOfPrefix(s', x, y);
      }
      if x !in Distinct(s') {
        IndexOfPrefix(s', x, x);
      }
    }
  }

  lemma {:induction false} IndexOfPrefix<T(!new)>(s: seq<T>, x: T, y: T)
    ensures y in s ==> IndexOf(s + [x], y) == IndexOf(s, y)
    ensures y !in s && y == x ==> IndexOf(s + [x], y) == |s|
  {
    if |s| > 0 {
      assert (s + [x])[1..] == s[1..] + [x];
      IndexOfPrefix(s[1..], x, y);
    }
  }

  /** Removing the only occurrence of `x` from a duplicate-free sequence is filtering `x` out. */
  lemma {:induction false} RemoveAtIsWithout<T(!new)>(s: seq<T>, i: nat)
    requires NoDuplicates(s)
    requires i < |s|
    ensures s[..i] + s[i + 1..] == Without(s, s[i])
  {
    if i == 0 {
      WithoutAbsent(s[1..], s[0]);
    } else {
      RemoveAtIsWithout(s[1..], i - 1);
      assert s[1..][..i - 1] + s[1..][i..] == s[1..i] + s[i + 1..];
      assert s[..i] + s[i + 1..] == [s[0]] + (s[1..i] + s[i + 1..]);
    }
  }

  lemma {:induction false} WithoutAbsent<T(!new)>(s: seq<T>, x: T)
    requires x !in s
    ensures Without(s, x) == s
  {
    if |s| > 0 {
      WithoutAbsent(s[1..], x);
      assert s == [s[0]] + s[1..];
    }
  }

  /** Filtering keeps a sequence free of duplicates. */
  lemma {:induction false} WithoutNoDuplicates<T(!new)>(s: seq<T>, x: T)
    requires NoDuplicates(s)
    ensures NoDuplicates(Without(s, x))
  {
    if |s| > 0 {
      assert NoDuplicates(s[1..]);
      WithoutNoDuplicates(s[1..], x);
      assert s[0] !in s[1..];
    }
  }

  /** Filtering out a value removes exactly its one occurrence from a duplicate-free sequence. */
  lemma {:induction false} WithoutLength<T(!new)>(s: seq<T>, x: T)
    requires NoDuplicates(s)
    ensures |Without(s, x)| == if x in s then |s| - 1 else |s|
  {
    if |s| > 0 {
      assert NoDuplicates(s[1..]);
      WithoutLength(s[1..], x);
      assert x in s <==> x == s[0] || x in s[1..];
      assert s[0] !in s[1..];
    }
  }

  /** The values of `r` come in the order of their first occurrence in `s`. */
  ghost predicate FirstSeenOrder<T(!new)>(r: seq<T>, s: seq<T>)
  {
    forall i, j :: 0 <= i < j < |r| ==> IndexOf(s, r[i]) < IndexOf(s, r[j])
  }

  /** Filtering keeps the relative order of what remains. */
  lemma {:induction false} WithoutKeepsOrder<T(!new)>(r: seq<T>, x: T, s: seq<T>)
    requires FirstSeenOrder(r, s)
    ensures FirstSeenOrder(Without(r, x), s)
  {
    if |r| > 0 {
      var t := r[1..];
      assert FirstSeenOrder(t, s) by {
        forall i, j | 0 <= i < j < |t| ensures IndexOf(s, t[i]) < IndexOf(s, t[j]) {
          assert t[i] == r[i + 1] && t[j] == r[j + 1];
        }
      }
      WithoutKeepsOrder(t, x, s);
      var w, wt := Without(r, x), Without(t, x);
      if r[0] != x {
        assert w == [r[0]] + wt;
        forall i, j | 0 <= i < j < |w| ensures IndexOf(s, w[i]) < IndexOf(s, w[j]) {
          if i == 0 {
            assert w[j] in t;
            var k :| 0 <= k < |t| && t[k] == w[j];
            assert r[k + 1] == w[j];
          } else {
            assert w[i] == wt[i - 1] && w[j] == wt[j - 1];
          }
        }
      } else {
        assert w == wt;
      }
    }
  }
}
