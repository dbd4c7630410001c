/** Facts about Python lists used as insertion-ordered sets. */
module Seqs {

  /** No element occurs twice: each one is absent from the part of the list before it. */
  predicate NoDuplicates<T(==)>(s: seq<T>)
    decreases |s|
  {
    s == [] || (s[|s| - 1] !in s[..|s| - 1] && NoDuplicates(s[..|s| - 1]))
  }

  /** Appending keeps a list duplicate-free exactly when the new element is not in it yet. */
  lemma NoDuplicatesSnoc<T>(s: seq<T>, x: T)
    ensures NoDuplicates(s + [x]) <==> NoDuplicates(s) && x !in s
  {
    assert (s + [x])[..|s|] == s;
  }

  /** A duplicate-free list holds different elements at different positions, and only such a list does. */
  lemma {:induction false} NoDuplicatesMeans<T>(s: seq<T>)
    ensures NoDuplicates(s) <==> forall i, j :: 0 <= i < j < |s| ==> s[i] != s[j]
    decreases |s|
  {
    if s != [] {
      var s' := s[..|s| - 1];
      NoDuplicatesMeans(s');
      assert forall i :: 0 <= i < |s'| ==> s'[i] == s[i];
      if NoDuplicates(s) {
        forall i, j | 0 <= i < j < |s| ensures s[i] != s[j] {
          if j == |s| - 1 {
            assert s[i] == s'[i];
          } else {
            assert s[i] == s'[i] && s[j] == s'[j];
          }
        }
      }
      if forall i, j :: 0 <= i < j < |s| ==> s[i] != s[j] {
        assert s[|s| - 1] !in s' by {
          forall i | 0 <= i < |s'| ensures s'[i] != s[|s| - 1] {
            assert s'[i] == s[i];
          }
        }
        assert forall i, j :: 0 <= i < j < |s'| ==> s'[i] != s'[j] by {
          forall i, j | 0 <= i < j < |s'| ensures s'[i] != s'[j] {
            assert s'[i] == s[i] && s'[j] == s[j];
          }
        }
      }
    }
  }

  /** The deduplicating append of node.py: `x` goes at the end unless it is already present. */
  function AppendNew<T(==,!new)>(s: seq<T>, x: T): (r: seq<T>)
    ensures x in r
    ensures forall y :: y in r <==> y in s || y == x
    ensures r == s || r == s + [x]
    ensures x in s <==> r == s
    ensures NoDuplicates(s) ==> NoDuplicates(r)
  {
    if x in s then s else NoDuplicatesSnoc(s, x); s + [x]
  }

  /** `a` is `b` with some elements dropped and the rest kept in order. */
  predicate IsSubsequence<T(==)>(a: seq<T>, b: seq<T>)
    decreases |b|
  {
    if a == [] then true
    else if b == [] then false
    else if a[|a| - 1] == b[|b| - 1] then IsSubsequence(a[..|a| - 1], b[..|b| - 1])
    else IsSubsequence(a, b[..|b| - 1])
  }

  lemma {:induction false} SubsequenceOfLonger<T>(a: seq<T>, b: seq<T>, x: T)
    requires IsSubsequence(a, b)
    ensures IsSubsequence(a, b + [x])
    decreases |b|, 1
  {
    if a != [] && a[|a| - 1] == x {
      // Matching x with the last element of a: a[..|a|-1] must be a subsequence of b.
      SubsequenceDropLast(a, b);
      assert (b + [x])[..|b|] == b;
    } else {
      assert (b + [x])[..|b|] == b;
    }
  }

  lemma {:induction false} SubsequenceDropLast<T>(a: seq<T>, b: seq<T>)
    requires a != [] && IsSubsequence(a, b)
    ensures IsSubsequence(a[..|a| - 1], b)
    decreases |b|, 0
  {
    assert b != [];
    var a', b' := a[..|a| - 1], b[..|b| - 1];
    if a[|a| - 1] == b[|b| - 1] {
      // IsSubsequence(a', b') holds; extend it by b's last element.
      SubsequenceOfLonger(a', b', b[|b| - 1]);
      assert b' + [b[|b| - 1]] == b;
    } else {
      SubsequenceDropLast(a, b');
      SubsequenceOfLonger(a', b', b[|b| - 1]);
      assert b' + [b[|b| - 1]] == b;
    }
  }

  lemma {:induction false} SubsequenceExtend<T>(a: seq<T>, b: seq<T>, x: T)
    requires IsSubsequence(a, b)
    ensures IsSubsequence(a + [x], b + [x])
  {
    assert (a + [x])[..|a|] == a;
    assert (b + [x])[..|b|] == b;
  }

  lemma {:induction false} SubsequenceMembers<T>(a: seq<T>, b: seq<T>)
    requires IsSubsequence(a, b)
    ensures forall x :: x in a ==> x in b
    decreases |b|
  {
    if a != [] {
      var b' := b[..|b| - 1];
      if a[|a| - 1] == b[|b| - 1] {
        SubsequenceMembers(a[..|a| - 1], b');
        assert a == a[..|a| - 1] + [a[|a| - 1]];
      } else {
        SubsequenceMembers(a, b');
      }
      assert b == b' + [b[|b| - 1]];
    }
  }

  lemma ConcatAssociative<T>(a: seq<T>, b: seq<T>, c: seq<T>)
    ensures (a + b) + c == a + (b + c)
  {
  }

  /** The elements of `s` that satisfy `p`, in order: a list built by a guarded append loop. */
  function Filter<T>(s: seq<T>, p: T -> bool): seq<T>
    decreases |s|
  {
    if s == [] then []
    else if p(s[|s| - 1]) then Filter(s[..|s| - 1], p) + [s[|s| - 1]]
    else Filter(s[..|s| - 1], p)
  }

  /** Filtering keeps exactly the elements that satisfy `p`, in their original order. */
  lemma {:induction false} FilterMeans<T>(s: seq<T>, p: T -> bool)
    ensures forall x :: x in Filter(s, p) <==> x in s && p(x)
    ensures forall i :: 0 <= i < |Filter(s, p)| ==> p(Filter(s, p)[i])
    ensures IsSubsequence(Filter(s, p), s)
    decreases |s|
  {
    if s != [] {
      var s', x := s[..|s| - 1], s[|s| - 1];
      var r' := Filter(s', p);
      FilterMeans(s', p);
      assert s == s' + [x];
      if p(x) {
        SubsequenceExtend(r', s', x);
      } else {
        SubsequenceOfLonger(r', s', x);
      }
    }
  }
}
