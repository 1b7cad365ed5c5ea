/** Array.prototype.filter over immutable sequences, and what "keeps the original
    order" means: the result is a subsequence of the input. */
module Sequences {

  /** The elements of s that satisfy p, in their order in s. */
  function Keep<T>(s: seq<T>, p: T -> bool): (r: seq<T>)
    ensures |r| <= |s|
  {
    if s == [] then [] else (if p(s[0]) then [s[0]] else []) + Keep(s[1..], p)
  }

  /** idx lists, in strictly increasing order, the positions of s that r is made of. */
  ghost predicate EmbeddedBy<T>(r: seq<T>, s: seq<T>, idx: seq<nat>) {
    |idx| == |r| &&
    (forall k :: 0 <= k < |idx| ==> idx[k] < |s| && r[k] == s[idx[k]]) &&
    (forall j, k :: 0 <= j < k < |idx| ==> idx[j] < idx[k])
  }

  /** r is obtained from s by deleting elements, without reordering the rest. */
  ghost predicate IsSubsequence<T>(r: seq<T>, s: seq<T>) {
    exists idx :: EmbeddedBy(r, s, idx)
  }

  lemma SubsequenceRefl<T>(s: seq<T>)
    ensures IsSubsequence(s, s)
  {
    var idx: seq<nat> := seq(|s|, k requires 0 <= k < |s| => k as nat);
    assert EmbeddedBy(s, s, idx);
  }

  /** Each position moved one place to the right. */
  function Shift(idx: seq<nat>): (r: seq<nat>)
    ensures |r| == |idx|
    ensures forall k :: 0 <= k < |idx| ==> r[k] == idx[k] + 1
  {
    seq(|idx|, k requires 0 <= k < |idx| => idx[k] + 1)
  }

  /** An embedding into the tail of s is one into s, and it stays one with s's head put in front. */
  lemma ShiftEmbedding<T>(r: seq<T>, s: seq<T>, idx: seq<nat>)
    requires s != [] && EmbeddedBy(r, s[1..], idx)
    ensures EmbeddedBy(r, s, Shift(idx))
    ensures EmbeddedBy([s[0]] + r, s, [0] + Shift(idx))
  {
    var sh := Shift(idx);
    forall k | 0 <= k < |sh|
      ensures sh[k] < |s| && r[k] == s[sh[k]]
    {
      assert s[1..][idx[k]] == s[idx[k] + 1];
    }
    var r', idx' := [s[0]] + r, [0] + sh;
    forall k | 0 < k < |idx'|
      ensures idx'[k] == sh[k - 1] && r'[k] == r[k - 1]
    {
    }
  }

  /** The positions Keep retains, as a witness of the subsequence relation. */
  lemma {:induction false} KeepEmbedding<T>(s: seq<T>, p: T -> bool) returns (idx: seq<nat>)
    ensures EmbeddedBy(Keep(s, p), s, idx)
  {
    if s == [] {
      idx := [];
    } else {
      var rest := KeepEmbedding(s[1..], p);
      ShiftEmbedding(Keep(s[1..], p), s, rest);
      if p(s[0]) {
        assert Keep(s, p) == [s[0]] + Keep(s[1..], p);
        idx := [0] + Shift(rest);
      } else {
        assert Keep(s, p) == Keep(s[1..], p);
        idx := Shift(rest);
      }
    }
  }

  /** Keep never reorders: its result is a subsequence of its input. */
  lemma KeepIsSubsequence<T>(s: seq<T>, p: T -> bool)
    ensures IsSubsequence(Keep(s, p), s)
  {
    var idx := KeepEmbedding(s, p);
  }

  /** Keep retains every occurrence of an element that satisfies p and none of one that does not. */
  lemma {:induction false} KeepCount<T>(s: seq<T>, p: T -> bool, x: T)
    ensures multiset(Keep(s, p))[x] == if p(x) then multiset(s)[x] else 0
  {
    if s != [] {
      KeepCount(s[1..], p, x);
      var head := if p(s[0]) then [s[0]] else [];
      assert s == [s[0]] + s[1..];
      assert multiset(s) == multiset([s[0]]) + multiset(s[1..]);
      assert Keep(s, p) == head + Keep(s[1..], p);
      assert multiset(Keep(s, p)) == multiset(head) + multiset(Keep(s[1..], p));
    }
  }

  lemma KeepMembership<T>(s: seq<T>, p: T -> bool, x: T)
    ensures x in Keep(s, p) <==> x in s && p(x)
  {
    KeepCount(s, p, x);
    assert x in Keep(s, p) <==> x in multiset(Keep(s, p));
    assert x in s <==> x in multiset(s);
  }

  lemma KeepMembers<T>(s: seq<T>, p: T -> bool)
    ensures forall x :: x in Keep(s, p) ==> x in s && p(x)
  {
    forall x | x in Keep(s, p)
      ensures x in s && p(x)
    {
      KeepMembership(s, p, x);
    }
  }

  /** Filtering a concatenation filters each part. */
  lemma {:induction false} KeepAppend<T>(a: seq<T>, b: seq<T>, p: T -> bool)
    ensures Keep(a + b, p) == Keep(a, p) + Keep(b, p)
  {
    if a == [] {
      assert a + b == b;
    } else {
      KeepAppend(a[1..], b, p);
      var head := if p(a[0]) then [a[0]] else [];
      assert (a + b)[0] == a[0] && (a + b)[1..] == a[1..] + b;
      calc {
        Keep(a + b, p);
        head + Keep(a[1..] + b, p);
        head + (Keep(a[1..], p) + Keep(b, p));
        (head + Keep(a[1..], p)) + Keep(b, p);
        Keep(a, p) + Keep(b, p);
      }
    }
  }

  /** Keep returns its input unchanged exactly when every element satisfies p. */
  lemma {:induction false} KeepAllIff<T>(s: seq<T>, p: T -> bool)
    ensures Keep(s, p) == s <==> forall i :: 0 <= i < |s| ==> p(s[i])
  {
    if forall i :: 0 <= i < |s| ==> p(s[i]) {
      KeepAll(s, p);
    } else {
      var i :| 0 <= i < |s| && !p(s[i]);
      KeepMembership(s, p, s[i]);
    }
  }

  lemma {:induction false} KeepAll<T>(s: seq<T>, p: T -> bool)
    requires forall i :: 0 <= i < |s| ==> p(s[i])
    ensures Keep(s, p) == s
  {
    if s != [] {
      KeepAll(s[1..], p);
    }
  }

  /** Keep depends only on the values p takes. */
  lemma {:induction false} KeepExt<T>(s: seq<T>, p: T -> bool, q: T -> bool)
    requires forall i :: 0 <= i < |s| ==> p(s[i]) == q(s[i])
    ensures Keep(s, p) == Keep(s, q)
  {
    if s != [] {
      KeepExt(s[1..], p, q);
    }
  }
}
