/** Bytes as numbers, and the power-of-two step sizes used when chopping up files. */
module Bytes {

  type Byte = b: int | 0 <= b < 256

  predicate IsPow2(n: nat) {
    n == 1 || (n > 0 && n % 2 == 0 && IsPow2(n / 2))
  }

  /** The first power of two that is at least `val`, searched from `ret` on. */
  function Pow2From(val: nat, ret: nat): (p: nat)
    requires ret > 0
    ensures p >= val && p >= ret
    ensures IsPow2(ret) ==> IsPow2(p)
    ensures p == ret || p < 2 * val
    decreases val - ret
  {
    DoublePow2(ret);
    hide IsPow2;
    if val > ret then Pow2From(val, 2 * ret) else ret
  }

  lemma DoublePow2(n: nat)
    requires n > 0
    ensures IsPow2(n) ==> IsPow2(2 * n)
  {
    assert (2 * n) / 2 == n;
  }

  method NextPow2(val: nat) returns (ret: nat)
    ensures ret == Pow2From(val, 1)
  {
    ret := 1;
    while val > ret
      invariant ret > 0 && Pow2From(val, ret) == Pow2From(val, 1)
    {
      ret := 2 * ret;
    }
  }

  /** Nothing lies strictly between a power of two and its double. */
  lemma {:induction false} Pow2Gap(d: nat, e: nat)
    requires IsPow2(d) && IsPow2(e) && d < e
    ensures 2 * d <= e
  {
    if d > 1 {
      Pow2Gap(d / 2, e / 2);
    }
  }

  /** The least power of two that is at least `x`. */
  ghost predicate LeastPow2(p: nat, x: nat) {
    IsPow2(p) && x <= p && forall q: nat :: IsPow2(q) && x <= q ==> p <= q
  }

  lemma Pow2FromIsLeast(x: nat)
    ensures LeastPow2(Pow2From(x, 1), x)
  {
    var p := Pow2From(x, 1);
    assert IsPow2(1);
    forall q: nat | IsPow2(q) && x <= q ensures p <= q {
      if q < p { Pow2Gap(q, p); }
    }
  }

  lemma LeastIsOne(p: nat, q: nat, x: nat)
    requires LeastPow2(p, x) && LeastPow2(q, x)
    ensures p == q
  {
  }

  method MemCpy(dst: array<Byte>, dstPos: nat, src: array<Byte>, srcPos: nat, n: nat)
    requires dst != src && dstPos + n <= dst.Length && srcPos + n <= src.Length
    modifies dst
    ensures dst[..dstPos] == old(dst[..dstPos])
    ensures dst[dstPos..dstPos + n] == src[srcPos..srcPos + n]
    ensures dst[dstPos + n..] == old(dst[dstPos + n..])
  {
    forall i | 0 <= i < n { dst[dstPos + i] := src[srcPos + i]; }
  }

  method MemSet(dst: array<Byte>, pos: nat, value: Byte, n: nat)
    requires pos + n <= dst.Length
    modifies dst
    ensures forall i :: 0 <= i < dst.Length ==>
      dst[i] == if pos <= i < pos + n then value else old(dst[i])
  {
    forall i | pos <= i < pos + n { dst[i] := value; }
  }

  /** Whether the `n` bytes from `p` on equal those from `q` on. */
  method MemSame(s: seq<Byte>, p: nat, q: nat, n: nat) returns (same: bool)
    requires p + n <= |s| && q + n <= |s|
    ensures same == (s[p..p + n] == s[q..q + n])
  {
    for i := 0 to n
      invariant s[p..p + i] == s[q..q + i]
    {
      if s[p + i] != s[q + i] {
        assert s[p..p + n][i] != s[q..q + n][i];
        return false;
      }
      assert s[p..p + i + 1] == s[p..p + i] + [s[p + i]];
      assert s[q..q + i + 1] == s[q..q + i] + [s[q + i]];
    }
    return true;
  }
}
