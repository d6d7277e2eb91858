/** The LCS distance between two token lists. */
module Similarity {
  import opened Limits
  import opened Subsequences
  import opened Wrappers

  datatype TypeError = NoneArgument0 | NoneArgument1

  /** The recurrence behind the matrix, taken from the ends of the two lists. */
  function Lcs<T(==)>(a: seq<T>, b: seq<T>): (n: nat)
    ensures n <= |a| && n <= |b|
    decreases |a| + |b|
  {
    if a == [] || b == [] then 0
    else
      var a', b' := a[..|a| - 1], b[..|b| - 1];
      if a[|a| - 1] == b[|b| - 1] then Lcs(a', b') + 1
      else Max(Lcs(a, b'), Lcs(a', b))
  }

  function Dist<T(==)>(a: seq<T>, b: seq<T>): nat {
    if a == b then 0 else |a| + |b| - 2 * Lcs(a, b)
  }

  /** The LCS length of two token lists, filled in row by row; a missing list is a type error. */
  method Length<T(==)>(t0: Option<seq<T>>, t1: Option<seq<T>>) returns (r: Result<nat, TypeError>)
    ensures t0.None? ==> r == Failure(NoneArgument0)
    ensures t0.Some? && t1.None? ==> r == Failure(NoneArgument1)
    ensures t0.Some? && t1.Some? ==> r == Success(Lcs(t0.value, t1.value))
  {
    if t0.None? { return Failure(NoneArgument0); }
    if t1.None? { return Failure(NoneArgument1); }
    var x, y := t0.value, t1.value;
    var matrix := new nat[|x| + 1, |y| + 1]((i, j) => 0);
    for i := 1 to |x| + 1
      invariant forall i', j' :: 0 <= i' < i && 0 <= j' <= |y| ==> matrix[i', j'] == Lcs(x[..i'], y[..j'])
      invariant forall i', j' :: i <= i' <= |x| && 0 <= j' <= |y| ==> matrix[i', j'] == 0
    {
      for j := 1 to |y| + 1
        invariant forall i', j' :: 0 <= i' < i && 0 <= j' <= |y| ==> matrix[i', j'] == Lcs(x[..i'], y[..j'])
        invariant forall j' :: 0 <= j' < j ==> matrix[i, j'] == Lcs(x[..i], y[..j'])
        invariant forall i', j' :: i < i' <= |x| && 0 <= j' <= |y| ==> matrix[i', j'] == 0
      {
        assert x[..i][..i - 1] == x[..i - 1] && y[..j][..j - 1] == y[..j - 1];
        if x[i - 1] == y[j - 1] {
          matrix[i, j] := matrix[i - 1, j - 1] + 1;
        } else {
          matrix[i, j] := Max(matrix[i, j - 1], matrix[i - 1, j]);
        }
      }
    }
    assert x[..|x|] == x && y[..|y|] == y;
    return Success(matrix[|x|, |y|]);
  }

  method Distance<T(==)>(t0: Option<seq<T>>, t1: Option<seq<T>>) returns (r: Result<nat, TypeError>)
    ensures t0.None? ==> r == Failure(NoneArgument0)
    ensures t0.Some? && t1.None? ==> r == Failure(NoneArgument1)
    ensures t0.Some? && t1.Some? ==> r == Success(Dist(t0.value, t1.value))
  {
    if t0.None? { return Failure(NoneArgument0); }
    if t1.None? { return Failure(NoneArgument1); }
    if t0.value == t1.value { return Success(0); }
    var l := Length(t0, t1);
    return Success(|t0.value| + |t1.value| - 2 * l.value);
  }

  ghost predicate CommonSubsequence<T>(c: seq<T>, a: seq<T>, b: seq<T>) {
    IsSubsequence(c, a) && IsSubsequence(c, b)
  }

  /** No common subsequence is longer than the computed length. */
  lemma {:induction false} LcsIsUpperBound<T>(c: seq<T>, a: seq<T>, b: seq<T>)
    requires CommonSubsequence(c, a, b)
    ensures |c| <= Lcs(a, b)
    decreases |a| + |b|
  {
    if c != [] {
      var e: seq<nat> :| Embeds(e, c, a);
      var f: seq<nat> :| Embeds(f, c, b);
      EmbedsLast(e, c, a);
      EmbedsLast(f, c, b);
      var a', b' := a[..|a| - 1], b[..|b| - 1];
      if a[|a| - 1] == b[|b| - 1] {
        LcsIsUpperBound(c[..|c| - 1], a', b');
      } else if e[|c| - 1] == |a| - 1 {
        LcsIsUpperBound(c, a, b');
      } else {
        LcsIsUpperBound(c, a', b);
      }
    }
  }

  /** Some common subsequence has the computed length. */
  lemma {:induction false} LcsIsAttained<T>(a: seq<T>, b: seq<T>) returns (c: seq<T>)
    ensures CommonSubsequence(c, a, b) && |c| == Lcs(a, b)
    decreases |a| + |b|
  {
    if a == [] || b == [] {
      c := [];
      assert Embeds([], c, a) && Embeds([], c, b);
    } else {
      var a', b' := a[..|a| - 1], b[..|b| - 1];
      if a[|a| - 1] == b[|b| - 1] {
        var c' := LcsIsAttained(a', b');
        var e: seq<nat> :| Embeds(e, c', a');
        var f: seq<nat> :| Embeds(f, c', b');
        c := c' + [a[|a| - 1]];
        var e', f' := e + [|a'|], f + [|b'|];
        assert Embeds(e', c, a) && Embeds(f', c, b);
      } else if Lcs(a, b') >= Lcs(a', b) {
        c := LcsIsAttained(a, b');
        var f: seq<nat> :| Embeds(f, c, b');
        assert Embeds(f, c, b);
      } else {
        c := LcsIsAttained(a', b);
        var e: seq<nat> :| Embeds(e, c, a');
        assert Embeds(e, c, a);
      }
    }
  }

  lemma {:induction false} LcsSymmetric<T>(a: seq<T>, b: seq<T>)
    ensures Lcs(a, b) == Lcs(b, a)
    decreases |a| + |b|
  {
    if a != [] && b != [] {
      var a', b' := a[..|a| - 1], b[..|b| - 1];
      LcsSymmetric(a', b');
      LcsSymmetric(a, b');
      LcsSymmetric(a', b);
    }
  }

  /** Dropping the last token costs at most one, and never gains. */
  lemma {:induction false} LcsDropLast<T>(a: seq<T>, b: seq<T>)
    requires a != []
    ensures Lcs(a[..|a| - 1], b) <= Lcs(a, b) <= Lcs(a[..|a| - 1], b) + 1
    decreases |a| + |b|
  {
    var a' := a[..|a| - 1];
    if b != [] {
      var b' := b[..|b| - 1];
      LcsDropLast(a, b');
      if a' != [] {
        LcsDropLast(a', b);
      }
      LcsSymmetric(a', b);
      LcsSymmetric(a', b');
      LcsDropLast(b, a');
    }
  }

  /** The content of the triangle inequality: the two alignments must share positions of `b`. */
  lemma {:induction false} LcsOverlap<T>(a: seq<T>, b: seq<T>, c: seq<T>)
    ensures Lcs(a, b) + Lcs(b, c) <= |b| + Lcs(a, c)
    decreases |a| + |b| + |c|
  {
    if a != [] && b != [] && c != [] {
      var a', b', c' := a[..|a| - 1], b[..|b| - 1], c[..|c| - 1];
      LcsDropLast(a, c);
      LcsDropLast(b, c);
      LcsSymmetric(a, b);
      LcsSymmetric(a, b');
      LcsDropLast(b, a);
      LcsSymmetric(a, c);
      LcsSymmetric(a, c');
      LcsDropLast(c, a);
      if a[|a| - 1] == b[|b| - 1] && b[|b| - 1] == c[|c| - 1] {
        LcsOverlap(a', b', c');
      } else if a[|a| - 1] != b[|b| - 1] {
        if Lcs(a, b) == Lcs(a', b) {
          LcsOverlap(a', b, c);
        } else {
          LcsOverlap(a, b', c);
        }
      } else {
        if Lcs(b, c) == Lcs(b, c') {
          LcsOverlap(a, b, c');
        } else {
          LcsOverlap(a, b', c);
        }
      }
    }
  }

  /** Two lists of one length whose LCS is that length are equal. */
  lemma {:induction false} LcsFullMeansEqual<T>(a: seq<T>, b: seq<T>)
    requires |a| == |b| == Lcs(a, b)
    ensures a == b
  {
    if a != [] {
      var a', b' := a[..|a| - 1], b[..|b| - 1];
      assert a[|a| - 1] == b[|b| - 1];
      LcsFullMeansEqual(a', b');
      assert a == a' + [a[|a| - 1]] && b == b' + [b[|b| - 1]];
    }
  }

  lemma {:induction false} LcsSelf<T>(a: seq<T>)
    ensures Lcs(a, a) == |a|
  {
    if a != [] {
      LcsSelf(a[..|a| - 1]);
    }
  }

  /** The distance is the least number of deletions that make the two lists equal: `best` is what a cheapest
      way leaves of both. */
  lemma DistanceCountsDeletions<T>(a: seq<T>, b: seq<T>) returns (best: seq<T>)
    ensures CommonSubsequence(best, a, b) && Dist(a, b) == (|a| - |best|) + (|b| - |best|)
    ensures forall c :: CommonSubsequence(c, a, b) ==> Dist(a, b) <= (|a| - |c|) + (|b| - |c|)
  {
    forall c | CommonSubsequence(c, a, b) ensures |c| <= Lcs(a, b) {
      LcsIsUpperBound(c, a, b);
    }
    best := LcsIsAttained(a, b);
    if a == b { LcsSelf(a); }
  }

  /** The distance is a metric on token lists. */
  lemma DistanceIsMetric<T>(a: seq<T>, b: seq<T>, c: seq<T>)
    ensures Dist(a, b) == 0 <==> a == b
    ensures Dist(a, b) == Dist(b, a)
    ensures Dist(a, c) <= Dist(a, b) + Dist(b, c)
  {
    if Dist(a, b) == 0 && a != b {
      assert |a| + |b| == 2 * Lcs(a, b);
      LcsFullMeansEqual(a, b);
    }
    LcsSymmetric(a, b);
    LcsOverlap(a, b, c);
    LcsSelf(b);
  }
}
