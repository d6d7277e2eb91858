/** Order-preserving embeddings of one sequence into another, shared by the LCS distance,
    the trimmer and the test-case minimizer. */
module Subsequences {

  /** `emb` is a strictly increasing list of `n` positions below `bound`. */
  ghost predicate Positions(emb: seq<nat>, n: nat, bound: nat) {
    && |emb| == n
    && (forall i :: 0 <= i < n ==> emb[i] < bound)
    && (forall i, j :: 0 <= i < j < n ==> emb[i] < emb[j])
  }

  /** Element `i` of `s` is element `emb[i]` of `t`, and the order is kept. */
  ghost predicate Embeds<T>(emb: seq<nat>, s: seq<T>, t: seq<T>) {
    && Positions(emb, |s|, |t|)
    && (forall i :: 0 <= i < |s| ==> s[i] == t[emb[i]])
  }

  ghost predicate IsSubsequence<T>(s: seq<T>, t: seq<T>) {
    exists emb :: Embeds(emb, s, t)
  }

  /** Where the last element of an embedded sequence can sit. */
  lemma EmbedsLast<T>(emb: seq<nat>, s: seq<T>, t: seq<T>)
    requires Embeds(emb, s, t) && s != []
    ensures t != []
    ensures IsSubsequence(s[..|s| - 1], t[..|t| - 1])
    ensures if emb[|s| - 1] == |t| - 1 then s[|s| - 1] == t[|t| - 1] else IsSubsequence(s, t[..|t| - 1])
  {
    var n := |s| - 1;
    assert emb[n] < |t|;
    assert Embeds(emb[..n], s[..n], t[..|t| - 1]);
    if emb[n] < |t| - 1 {
      assert Embeds(emb, s, t[..|t| - 1]);
    }
  }

  /** The identity embedding of `n` positions. */
  ghost function Identity(n: nat): (emb: seq<nat>)
    ensures Positions(emb, n, n)
    ensures forall i :: 0 <= i < n ==> emb[i] == i
  {
    seq(n, i => i)
  }

  /** `s` without the (at most) `d` elements from position `p` on. */
  function Without<T>(s: seq<T>, p: nat, d: nat): (r: seq<T>)
    requires p <= |s|
    ensures |r| == if p + d <= |s| then |s| - d else p
  {
    if p + d <= |s| then s[..p] + s[p + d..] else s[..p]
  }

  /** Cutting the same block out of a sequence and out of its embedding keeps the embedding. */
  lemma WithoutPositions(emb: seq<nat>, n: nat, bound: nat, p: nat, d: nat)
    requires Positions(emb, n, bound) && p <= n
    ensures Positions(Without(emb, p, d), |Without(emb, p, d)|, bound)
  {
  }

  /** Adjacent equal blocks: cutting out either one gives the same sequence. */
  lemma EqualBlocks<T>(s: seq<T>, p: nat, d: nat)
    requires d <= p && p + d <= |s|
    requires s[p - d..p] == s[p..p + d]
    ensures Without(s, p - d, d) == Without(s, p, d)
  {
    assert s[..p] == s[..p - d] + s[p - d..p];
    assert s[p..] == s[p..p + d] + s[p + d..];
    assert Without(s, p - d, d) == s[..p - d] + (s[p..p + d] + s[p + d..]);
    assert Without(s, p, d) == (s[..p - d] + s[p - d..p]) + s[p + d..];
  }

  /** Moving the tail down over a gap of `d` elements at `p` cuts them out. */
  lemma TailMovedDown<T>(before: seq<T>, after: seq<T>, p: nat, d: nat, n: nat)
    requires |before| == |after| && p <= n && n + d <= |before|
    requires forall k :: 0 <= k < p ==> after[k] == before[k]
    requires forall k :: p <= k < n ==> after[k] == before[k + d]
    ensures after[..n] == Without(before[..n + d], p, d)
  {
  }
}
