/** One-bit-per-slot maps kept in bytes: slot `i` is bit `i & 7` of byte `i >> 3`. */
module Bitmaps {

  function Bit(k: nat): bv8
    requires k < 8
  {
    1 << k
  }

  predicate HasBit(m: seq<bv8>, i: nat)
    requires i / 8 < |m|
  {
    m[i / 8] & Bit(i % 8) != 0
  }

  /** The slots below `n` whose bit is set. */
  ghost function BitsOf(m: seq<bv8>, n: nat): set<nat>
    requires n <= 8 * |m|
  {
    set i: nat | i < n && HasBit(m, i)
  }

  /** The slots hit by a byte-per-slot trace. */
  ghost function HitsOf(trace: seq<bv8>): set<nat> {
    set i: nat | i < |trace| && trace[i] != 0
  }

  lemma BitOr(x: bv8, k: nat, k': nat)
    requires k < 8 && k' < 8
    ensures (x | Bit(k)) & Bit(k') != 0 <==> k == k' || x & Bit(k') != 0
  {
    BitCases(k);
    BitCases(k');
  }

  lemma BitCases(k: nat)
    requires k < 8
    ensures Bit(k) == match k case 0 => 1 case 1 => 2 case 2 => 4 case 3 => 8
                              case 4 => 16 case 5 => 32 case 6 => 64 case _ => 128
  {
  }

  lemma BitClear(x: bv8, m: bv8, k: nat)
    requires k < 8
    ensures (x & !m) & Bit(k) != 0 <==> x & Bit(k) != 0 && m & Bit(k) == 0
  {
    BitCases(k);
  }

  /** Compacts a trace into a map that starts out all zero, dropping the hit counts. */
  method MinimizeBits(dst: array<bv8>, src: seq<bv8>)
    requires |src| <= 8 * dst.Length
    requires forall j :: 0 <= j < dst.Length ==> dst[j] == 0
    modifies dst
    ensures BitsOf(dst[..], |src|) == HitsOf(src)
  {
    var i := 0;
    while i < |src|
      invariant i <= |src|
      invariant forall k: nat :: k < |src| ==> (HasBit(dst[..], k) <==> k < i && src[k] != 0)
    {
      if src[i] != 0 {
        ghost var before := dst[..];
        dst[i / 8] := dst[i / 8] | Bit(i % 8);
        forall k: nat | k < |src| ensures HasBit(dst[..], k) <==> k == i || HasBit(before, k) {
          BitOr(before[i / 8], i % 8, k % 8);
        }
      }
      i := i + 1;
    }
  }

  /** Removes from `temp` every slot set in `mini`; bytes of `mini` that are zero are not touched. */
  method ClearBits(temp: array<bv8>, mini: seq<bv8>, n: nat)
    requires temp.Length == |mini| && n <= 8 * |mini|
    modifies temp
    ensures forall k: nat :: k < n ==> (HasBit(temp[..], k) <==> HasBit(old(temp[..]), k) && !HasBit(mini, k))
  {
    var j := temp.Length;
    while j > 0
      invariant 0 <= j <= temp.Length
      invariant forall k :: j <= k < temp.Length ==> temp[k] == old(temp[k]) & !mini[k]
      invariant forall k :: 0 <= k < j ==> temp[k] == old(temp[k])
    {
      j := j - 1;
      if mini[j] != 0 {
        temp[j] := temp[j] & !mini[j];
      }
    }
    forall k: nat | k < n ensures HasBit(temp[..], k) <==> HasBit(old(temp[..]), k) && !HasBit(mini, k) {
      BitClear(old(temp[..])[k / 8], mini[k / 8], k % 8);
    }
  }
}
