/**
 * Sequence operations the source performs with list comprehensions, slicing and
 * `random.sample`: keeping the elements that satisfy a test, keeping the successful
 * results of a partial function, concatenating a list of lists, and picking
 * elements by index.
 */
module Seqs {
  import opened Wrappers

  /** `[x for x in s if p(x)]`. */
  function Keep<T>(s: seq<T>, p: T -> bool): (r: seq<T>)
    ensures |r| <= |s|
    ensures forall x :: x in r ==> x in s && p(x)
  {
    if s == [] then [] else Keep(s[..|s| - 1], p) + (if p(s[|s| - 1]) then [s[|s| - 1]] else [])
  }

  /** The positions of `s` whose elements `Keep` keeps, in increasing order. */
  function KeptIdx<T>(s: seq<T>, p: T -> bool): (r: seq<nat>)
    ensures |r| == |Keep(s, p)|
    ensures forall k :: 0 <= k < |r| ==> r[k] < |s| && s[r[k]] == Keep(s, p)[k]
    ensures forall k, l :: 0 <= k < l < |r| ==> r[k] < r[l]
  {
    if s == [] then []
    else
      var pre := KeptIdx(s[..|s| - 1], p);
      KeptIdxSnoc(s, p, pre);
      pre + (if p(s[|s| - 1]) then [|s| - 1] else [])
  }

  /** The positions kept in a non-empty sequence: those kept in all but its last element, then the last if kept. */
  lemma KeptIdxSnoc<T>(s: seq<T>, p: T -> bool, pre: seq<nat>)
    requires s != []
    requires |pre| == |Keep(s[..|s| - 1], p)|
    requires forall k :: 0 <= k < |pre| ==> pre[k] < |s| - 1 && s[..|s| - 1][pre[k]] == Keep(s[..|s| - 1], p)[k]
    requires forall k, l :: 0 <= k < l < |pre| ==> pre[k] < pre[l]
    ensures var r := pre + (if p(s[|s| - 1]) then [|s| - 1] else []);
            && |r| == |Keep(s, p)|
            && (forall k :: 0 <= k < |r| ==> r[k] < |s| && s[r[k]] == Keep(s, p)[k])
            && (forall k, l :: 0 <= k < l < |r| ==> r[k] < r[l])
  {
    var init, last := s[..|s| - 1], s[|s| - 1];
    var r := pre + (if p(last) then [|s| - 1] else []);
    assert Keep(s, p) == Keep(init, p) + (if p(last) then [last] else []);
    forall k | 0 <= k < |r|
      ensures r[k] < |s| && s[r[k]] == Keep(s, p)[k]
    {
      if k < |pre| {
        assert s[pre[k]] == init[pre[k]];
      }
    }
  }

  /** Keeping one more element of a prefix. */
  lemma KeepStep<T>(s: seq<T>, i: nat, p: T -> bool)
    requires i < |s|
    ensures Keep(s[..i + 1], p) == Keep(s[..i], p) + (if p(s[i]) then [s[i]] else [])
  {
    assert s[..i + 1][..i] == s[..i];
  }

  /** A position is kept exactly when its element passes the test. */
  lemma {:induction false} KeptIdxExact<T>(s: seq<T>, p: T -> bool)
    ensures forall i :: 0 <= i < |s| ==> (p(s[i]) <==> i in KeptIdx(s, p))
  {
    if s != [] {
      var init := s[..|s| - 1];
      KeptIdxExact(init, p);
      forall i | 0 <= i < |s|
        ensures p(s[i]) <==> i in KeptIdx(s, p)
      {
        if i < |s| - 1 {
          assert s[i] == init[i];
        }
      }
    }
  }

  /** The kept positions of one more element of a prefix. */
  lemma KeptIdxStep<T>(s: seq<T>, i: nat, p: T -> bool)
    requires i < |s|
    ensures KeptIdx(s[..i + 1], p) == KeptIdx(s[..i], p) + (if p(s[i]) then [i] else [])
  {
    assert s[..i + 1][..i] == s[..i];
  }

  /** Keeping twice keeps the same elements as keeping once. */
  lemma KeepIdempotent<T>(s: seq<T>, p: T -> bool)
    ensures Keep(Keep(s, p), p) == Keep(s, p)
  {
    KeepAll(Keep(s, p), p);
  }

  /** A test that every element passes keeps the whole sequence. */
  lemma {:induction false} KeepAll<T>(s: seq<T>, p: T -> bool)
    requires forall x :: x in s ==> p(x)
    ensures Keep(s, p) == s
  {
    if s != [] {
      var n := |s| - 1;
      assert forall x :: x in s[..n] ==> x in s;
      KeepAll(s[..n], p);
      assert p(s[n]);
      SliceSnoc(s, n);
      SliceAll(s);
    }
  }

  /** A test that no element passes keeps nothing. */
  lemma {:induction false} KeepNone<T>(s: seq<T>, p: T -> bool)
    requires forall x :: x in s ==> !p(x)
    ensures Keep(s, p) == []
  {
    if s != [] {
      var init := s[..|s| - 1];
      assert forall x :: x in init ==> x in s;
      KeepNone(init, p);
    }
  }

  /** Keeping from a sequence with one more element at its end. */
  lemma KeepSnoc<T>(s: seq<T>, x: T, p: T -> bool)
    ensures Keep(s + [x], p) == Keep(s, p) + (if p(x) then [x] else [])
  {
    assert (s + [x])[..|s|] == s;
  }

  /** An element is kept exactly when it occurs and passes the test. */
  lemma KeepMembers<T>(s: seq<T>, p: T -> bool)
    ensures forall x :: x in Keep(s, p) <==> x in s && p(x)
  {
    var idx := KeptIdx(s, p);
    KeptIdxExact(s, p);
    forall x | x in s && p(x)
      ensures x in Keep(s, p)
    {
      var i :| 0 <= i < |s| && s[i] == x;
      var k :| 0 <= k < |idx| && idx[k] == i;
      assert Keep(s, p)[k] == x;
    }
  }

  /** Keeping from a concatenation keeps from each part. */
  lemma {:induction false} KeepConcat<T>(a: seq<T>, b: seq<T>, p: T -> bool)
    ensures Keep(a + b, p) == Keep(a, p) + Keep(b, p)
  {
    if b != [] {
      var init := b[..|b| - 1];
      var x := b[|b| - 1];
      KeepConcat(a, init, p);
      assert a + b == (a + init) + [x];
      assert b == init + [x];
      KeepSnoc(a + init, x, p);
      KeepSnoc(init, x, p);
    } else {
      assert a + b == a;
    }
  }

  /** `[f(x) for x in s if f(x)]` for a function that can fail. */
  function Choose<T, U>(s: seq<T>, f: T -> Option<U>): (r: seq<U>)
    ensures |r| <= |s|
  {
    if s == [] then []
    else Choose(s[..|s| - 1], f) + (if f(s[|s| - 1]).Some? then [f(s[|s| - 1]).value] else [])
  }

  /** The positions of `s` on which `f` succeeds, in increasing order. */
  function ChosenIdx<T, U>(s: seq<T>, f: T -> Option<U>): (r: seq<nat>)
    ensures |r| == |Choose(s, f)|
    ensures forall k :: 0 <= k < |r| ==> r[k] < |s| && f(s[r[k]]) == Some(Choose(s, f)[k])
    ensures forall k, l :: 0 <= k < l < |r| ==> r[k] < r[l]
  {
    if s == [] then []
    else ChosenIdx(s[..|s| - 1], f) + (if f(s[|s| - 1]).Some? then [|s| - 1] else [])
  }

  /** A position contributes to `Choose` exactly when `f` succeeds on it. */
  lemma {:induction false} ChosenIdxExact<T, U>(s: seq<T>, f: T -> Option<U>)
    ensures forall i :: 0 <= i < |s| ==> (f(s[i]).Some? <==> i in ChosenIdx(s, f))
  {
    if s != [] {
      var init := s[..|s| - 1];
      ChosenIdxExact(init, f);
      forall i | 0 <= i < |s|
        ensures f(s[i]).Some? <==> i in ChosenIdx(s, f)
      {
        if i < |s| - 1 {
          assert s[i] == init[i];
        }
      }
    }
  }

  /** `Choose` yields nothing exactly when `f` fails everywhere. */
  lemma {:induction false} ChooseEmpty<T, U>(s: seq<T>, f: T -> Option<U>)
    ensures Choose(s, f) == [] <==> forall i :: 0 <= i < |s| ==> f(s[i]).None?
  {
    if s != [] {
      var init := s[..|s| - 1];
      ChooseEmpty(init, f);
      if Choose(s, f) == [] {
        forall i | 0 <= i < |s| ensures f(s[i]).None? {
          if i < |s| - 1 {
            assert s[i] == init[i];
          }
        }
      }
    }
  }

  /** Choosing over one more element of a prefix. */
  lemma ChooseStep<T, U>(s: seq<T>, i: nat, f: T -> Option<U>)
    requires i < |s|
    ensures Choose(s[..i + 1], f) == Choose(s[..i], f) + (if f(s[i]).Some? then [f(s[i]).value] else [])
  {
    assert s[..i + 1][..i] == s[..i];
  }

  /** A loop that has chosen from `s[..i]` and now holds `y == f(s[i])` has chosen from `s[..i + 1]` after keeping `y`'s value. */
  lemma ChooseNext<T, U>(s: seq<T>, i: nat, f: T -> Option<U>, acc: seq<U>, y: Option<U>)
    requires i < |s| && acc == Choose(s[..i], f) && y == f(s[i])
    ensures Choose(s[..i + 1], f) == if y.Some? then acc + [y.value] else acc
  {
    ChooseStep(s, i, f);
  }

  /** The position of the first element passing `p`, or `|s|` when there is none. */
  function FirstWhere<T>(s: seq<T>, p: T -> bool): (f: nat)
    ensures f <= |s|
    ensures f < |s| ==> p(s[f])
    ensures forall j :: 0 <= j < f ==> !p(s[j])
  {
    if s == [] then 0
    else
      var g := FirstWhere(s[..|s| - 1], p);
      if g < |s| - 1 then g else if p(s[|s| - 1]) then |s| - 1 else |s|
  }

  /** The concatenation of a list of lists. */
  function Flatten<T>(ss: seq<seq<T>>): seq<T>
  {
    if ss == [] then [] else Flatten(ss[..|ss| - 1]) + ss[|ss| - 1]
  }

  predicate AllDistinct<T(==)>(s: seq<T>) {
    forall i, j :: 0 <= i < j < |s| ==> s[i] != s[j]
  }

  /** The indices `0, 1, ..., n - 1`. */
  function Iota(n: nat): (r: seq<nat>)
    ensures |r| == n
    ensures forall i :: 0 <= i < n ==> r[i] == i
  {
    if n == 0 then [] else Iota(n - 1) + [n - 1]
  }

  /** `p` lists every index below `n` exactly once. */
  predicate IsPermutation(p: seq<nat>, n: nat) {
    multiset(p) == multiset(Iota(n))
  }

  predicate AllBelow(p: seq<nat>, n: nat) {
    forall i :: 0 <= i < |p| ==> p[i] < n
  }

  /** The elements of `s` at the indices `p`, in the order of `p`. */
  function Pick<T>(s: seq<T>, p: seq<nat>): (r: seq<T>)
    requires AllBelow(p, |s|)
    ensures |r| == |p|
    ensures forall k :: 0 <= k < |p| ==> r[k] == s[p[k]]
  {
    seq(|p|, k requires 0 <= k < |p| => s[p[k]])
  }

  /** Distinct indices below `n` number at most `n`. */
  lemma {:induction false} DistinctBelow(p: seq<nat>, n: nat)
    requires AllDistinct(p) && AllBelow(p, n)
    ensures |p| <= n
  {
    if p != [] {
      assert p[0] < n;
      if k :| 0 <= k < |p| && p[k] == n - 1 {
        var q := p[..k] + p[k + 1..];
        forall i | 0 <= i < |q|
          ensures q[i] == if i < k then p[i] else p[i + 1]
        {
        }
        forall i | 0 <= i < |q|
          ensures q[i] < n - 1
        {
          assert q[i] != p[k];
        }
        DistinctBelow(q, n - 1);
      } else {
        DistinctBelow(p, n - 1);
      }
    }
  }

  /** A permutation has length `n` and lists indices below `n` only. */
  lemma PermutationBounds(p: seq<nat>, n: nat)
    requires IsPermutation(p, n)
    ensures |p| == n && AllBelow(p, n)
  {
    assert |multiset(p)| == |p|;
    assert |multiset(Iota(n))| == n;
    forall i | 0 <= i < |p| ensures p[i] < n {
      assert p[i] in multiset(p);
      assert p[i] in Iota(n);
    }
  }

  /** Removing the element at position `k` removes one copy of it from the multiset. */
  lemma RemoveAt<T>(b: seq<T>, k: nat)
    requires k < |b|
    ensures multiset(b[..k] + b[k + 1..]) == multiset(b) - multiset{b[k]}
  {
    assert b == b[..k] + [b[k]] + b[k + 1..];
  }

  /** Taking the index at position `k` out of `b` takes one copy of its element out of the pick. */
  lemma PickRemoveAt<T>(s: seq<T>, b: seq<nat>, k: nat)
    requires AllBelow(b, |s|) && k < |b|
    ensures AllBelow(b[..k] + b[k + 1..], |s|)
    ensures multiset(Pick(s, b)) == multiset(Pick(s, b[..k] + b[k + 1..])) + multiset{s[b[k]]}
  {
    var b1, b2 := b[..k], b[k + 1..];
    assert Pick(s, b) == Pick(s, b1) + [s[b[k]]] + Pick(s, b2);
    assert Pick(s, b1 + b2) == Pick(s, b1) + Pick(s, b2);
  }

  /** Picking by two index lists holding the same indices gives the same elements. */
  lemma {:induction false} PickSameIndices<T>(s: seq<T>, a: seq<nat>, b: seq<nat>)
    requires AllBelow(a, |s|) && AllBelow(b, |s|)
    requires multiset(a) == multiset(b)
    ensures multiset(Pick(s, a)) == multiset(Pick(s, b))
  {
    if a == [] {
      assert |multiset(b)| == 0;
    } else {
      var last := |a| - 1;
      var x := a[last];
      assert x in multiset(b);
      var k :| 0 <= k < |b| && b[k] == x;
      PickRemoveAt(s, a, last);
      PickRemoveAt(s, b, k);
      assert a[..last] + a[last + 1..] == a[..last];
      assert a == a[..last] + [x];
      RemoveAt(b, k);
      assert multiset(a[..last]) == multiset(a) - multiset{x};
      PickSameIndices(s, a[..last], b[..k] + b[k + 1..]);
    }
  }

  /** Picking by a permutation reorders `s` without adding or losing anything. */
  lemma PickPermutation<T>(s: seq<T>, p: seq<nat>)
    requires IsPermutation(p, |s|)
    ensures AllBelow(p, |s|)
    ensures multiset(Pick(s, p)) == multiset(s)
  {
    PermutationBounds(p, |s|);
    PickSameIndices(s, p, Iota(|s|));
    assert Pick(s, Iota(|s|)) == s;
  }

  /** Strictly increasing positions, all inside a sequence of length `n`. */
  predicate IsCutList(c: seq<nat>, n: nat) {
    && (forall k :: 0 <= k < |c| ==> c[k] < n)
    && (forall k, l :: 0 <= k < l < |c| ==> c[k] < c[l])
  }

  /** Where the `k`-th piece of a cut ends: at the next cut, or at the end of the sequence. */
  function CutEnd(c: seq<nat>, n: nat, k: nat): nat
    requires k < |c|
  {
    if k + 1 < |c| then c[k + 1] else n
  }

  /** `s` cut at the positions `c`: the piece from each cut up to the next one (the last up to the end). */
  function Cut<T>(s: seq<T>, c: seq<nat>): (r: seq<seq<T>>)
    requires IsCutList(c, |s|)
    ensures |r| == |c|
    ensures forall k :: 0 <= k < |c| ==> r[k] == s[c[k]..CutEnd(c, |s|, k)]
  {
    seq(|c|, k requires 0 <= k < |c| => s[c[k]..CutEnd(c, |s|, k)])
  }

  lemma SliceAll<T>(s: seq<T>)
    ensures s[..|s|] == s
  {
  }

  lemma SliceSnoc<T>(s: seq<T>, i: nat)
    requires i < |s|
    ensures s[..i + 1] == s[..i] + [s[i]]
  {
  }

  lemma SliceJoin<T>(s: seq<T>, a: nat, b: nat, e: nat)
    requires a <= b <= e <= |s|
    ensures s[a..b] + s[b..e] == s[a..e]
  {
  }

  /** The pieces before cut `k`, put together, are the prefix of `s` from the first cut up to cut `k`. */
  lemma {:induction false} CutPrefix<T>(s: seq<T>, c: seq<nat>, k: nat)
    requires IsCutList(c, |s|) && 0 < k <= |c|
    ensures Flatten(Cut(s, c)[..k]) == s[c[0]..CutEnd(c, |s|, k - 1)]
  {
    var pieces := Cut(s, c);
    var pre := pieces[..k];
    assert pre[..k - 1] == pieces[..k - 1];
    assert Flatten(pre) == Flatten(pieces[..k - 1]) + pieces[k - 1];
    var last := pieces[k - 1];
    assert last == s[c[k - 1]..CutEnd(c, |s|, k - 1)];
    if k > 1 {
      CutPrefix(s, c, k - 1);
      assert CutEnd(c, |s|, k - 2) == c[k - 1];
      SliceJoin(s, c[0], c[k - 1], CutEnd(c, |s|, k - 1));
    }
  }

  /** No cut position lies strictly inside a piece. */
  lemma CutInner(c: seq<nat>, n: nat)
    requires IsCutList(c, n)
    ensures forall k, j :: 0 <= k < |c| && c[k] < j < CutEnd(c, n, k) ==> j !in c
  {
    forall k, j | 0 <= k < |c| && c[k] < j < CutEnd(c, n, k)
      ensures j !in c
    {
      if j in c {
        assert false;
      }
    }
  }

  /**
   * Cutting at increasing positions starting at 0 partitions the sequence: the pieces
   * together give it back, each piece starts at its cut, and no piece holds a cut
   * position other than its first.
   */
  lemma CutPartition<T>(s: seq<T>, c: seq<nat>)
    requires IsCutList(c, |s|) && c != [] && c[0] == 0
    ensures Flatten(Cut(s, c)) == s
    ensures forall k :: 0 <= k < |c| ==> Cut(s, c)[k] != [] && Cut(s, c)[k][0] == s[c[k]]
    ensures forall k, j :: 0 <= k < |c| && c[k] < j < CutEnd(c, |s|, k) ==> j !in c
  {
    CutPrefix(s, c, |c|);
    assert Cut(s, c)[..|c|] == Cut(s, c);
    CutInner(c, |s|);
  }

  /** An element inside a piece, past its first, sits at a position that is not a cut. */
  lemma CutPieceInner<T>(s: seq<T>, c: seq<nat>, k: nat, j: nat)
    requires IsCutList(c, |s|) && k < |c| && 0 < j < |Cut(s, c)[k]|
    ensures c[k] + j < |s| && Cut(s, c)[k][j] == s[c[k] + j] && c[k] + j !in c
  {
    CutInner(c, |s|);
  }

  /**
   * Cutting a sequence that opens with an element passing `p` at exactly the positions
   * of such elements: the pieces give the sequence back, each opens with an element
   * passing `p`, and no other element of a piece passes `p`.
   */
  lemma CutAtPassing<T>(s: seq<T>, p: T -> bool, c: seq<nat>)
    requires IsCutList(c, |s|)
    requires forall i :: 0 <= i < |s| ==> (p(s[i]) <==> i in c)
    requires s != [] && p(s[0])
    ensures c != [] && c[0] == 0
    ensures Flatten(Cut(s, c)) == s
    ensures forall k :: 0 <= k < |c| ==> Cut(s, c)[k] != [] && p(Cut(s, c)[k][0])
    ensures forall k, j :: 0 <= k < |c| && 0 < j < |Cut(s, c)[k]| ==> !p(Cut(s, c)[k][j])
  {
    assert 0 in c;
    var m :| 0 <= m < |c| && c[m] == 0;
    assert c[0] <= c[m];
    CutPartition(s, c);
    var pieces := Cut(s, c);
    forall k | 0 <= k < |c|
      ensures p(pieces[k][0])
    {
      assert pieces[k][0] == s[c[k]];
      assert c[k] in c;
    }
    forall k, j | 0 <= k < |c| && 0 < j < |pieces[k]|
      ensures !p(pieces[k][j])
    {
      CutPieceInner(s, c, k, j);
    }
  }
}
