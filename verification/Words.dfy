/** Little-endian words over a byte buffer, and the byte-wise meaning of the word tricks used on
    coverage maps. */
module Words {

  function Load32(s: seq<bv8>, p: nat): bv32
    requires p + 4 <= |s|
  {
    Join32(s[p], s[p + 1], s[p + 2], s[p + 3])
  }

  function Load64(s: seq<bv8>, p: nat): bv64
    requires p + 8 <= |s|
  {
    Join64(Load32(s, p), Load32(s, p + 4))
  }

  function Join32(a: bv8, b: bv8, c: bv8, d: bv8): bv32 {
    (a as bv32) | ((b as bv32) << 8) | ((c as bv32) << 16) | ((d as bv32) << 24)
  }

  function Join16(lo: bv8, hi: bv8): bv16 {
    ((hi as bv16) << 8) | (lo as bv16)
  }

  lemma Join16Bytes(lo: bv8, hi: bv8)
    ensures (Join16(lo, hi) & 0xff) as bv8 == lo && (Join16(lo, hi) >> 8) as bv8 == hi
  {
  }

  function Join64(lo: bv32, hi: bv32): bv64 {
    (lo as bv64) | ((hi as bv64) << 32)
  }

  function Lo(w: bv64): bv32 {
    (w & 0xffffffff) as bv32
  }

  function Hi(w: bv64): bv32 {
    (w >> 32) as bv32
  }

  /** Byte `k` of a half word. */
  function Byte32(w: bv32, k: nat): bv8
    requires k < 4
  {
    match k
    case 0 => (w & 0xff) as bv8
    case 1 => ((w >> 8) & 0xff) as bv8
    case 2 => ((w >> 16) & 0xff) as bv8
    case _ => ((w >> 24) & 0xff) as bv8
  }

  /** Byte `k` of a word. */
  function ByteOf(w: bv64, k: nat): bv8
    requires k < 8
  {
    if k < 4 then Byte32(Lo(w), k) else Byte32(Hi(w), k - 4)
  }

  method Store64(a: array<bv8>, p: nat, w: bv64)
    requires p + 8 <= a.Length
    modifies a
    ensures forall i :: 0 <= i < a.Length && !(p <= i < p + 8) ==> a[i] == old(a[i])
    ensures forall k :: 0 <= k < 8 ==> a[p + k] == ByteOf(w, k)
  {
    hide Byte32, Lo, Hi;
    a[p], a[p + 1], a[p + 2], a[p + 3] := ByteOf(w, 0), ByteOf(w, 1), ByteOf(w, 2), ByteOf(w, 3);
    a[p + 4], a[p + 5], a[p + 6], a[p + 7] := ByteOf(w, 4), ByteOf(w, 5), ByteOf(w, 6), ByteOf(w, 7);
  }

  lemma HalvesOfJoin(lo: bv32, hi: bv32)
    ensures Lo(Join64(lo, hi)) == lo && Hi(Join64(lo, hi)) == hi
  {
  }

  lemma BytesOfJoin(a: bv8, b: bv8, c: bv8, d: bv8)
    ensures var w := Join32(a, b, c, d);
      Byte32(w, 0) == a && Byte32(w, 1) == b && Byte32(w, 2) == c && Byte32(w, 3) == d
  {
  }

  lemma ByteOfLoad(s: seq<bv8>, p: nat, k: nat)
    requires p + 8 <= |s| && k < 8
    ensures ByteOf(Load64(s, p), k) == s[p + k]
  {
    hide Join32, Join64, Byte32, Lo, Hi;
    HalvesOfJoin(Load32(s, p), Load32(s, p + 4));
    BytesOfJoin(s[p], s[p + 1], s[p + 2], s[p + 3]);
    BytesOfJoin(s[p + 4], s[p + 5], s[p + 6], s[p + 7]);
  }

  /** `v` without the bits of `t`. */
  function Clear64(v: bv64, t: bv64): bv64 { v & !t }
  function Clear32(v: bv32, t: bv32): bv32 { v & !t }
  function Clear8(v: bv8, t: bv8): bv8 { v & !t }

  lemma HalvesOfClear(v: bv64, t: bv64)
    ensures Lo(Clear64(v, t)) == Clear32(Lo(v), Lo(t)) && Hi(Clear64(v, t)) == Clear32(Hi(v), Hi(t))
  {
  }

  lemma BytesOfClear(v: bv32, t: bv32)
    ensures Byte32(Clear32(v, t), 0) == Clear8(Byte32(v, 0), Byte32(t, 0))
    ensures Byte32(Clear32(v, t), 1) == Clear8(Byte32(v, 1), Byte32(t, 1))
    ensures Byte32(Clear32(v, t), 2) == Clear8(Byte32(v, 2), Byte32(t, 2))
    ensures Byte32(Clear32(v, t), 3) == Clear8(Byte32(v, 3), Byte32(t, 3))
  {
  }

  lemma ByteOfClear(v: bv64, t: bv64, k: nat)
    requires k < 8
    ensures ByteOf(Clear64(v, t), k) == Clear8(ByteOf(v, k), ByteOf(t, k))
  {
    hide Byte32, Lo, Hi, Clear64, Clear32, Clear8;
    HalvesOfClear(v, t);
    BytesOfClear(Lo(v), Lo(t));
    BytesOfClear(Hi(v), Hi(t));
    assert k == 0 || k == 1 || k == 2 || k == 3 || k == 4 || k == 5 || k == 6 || k == 7;
  }

  lemma HalvesShare(v: bv64, t: bv64)
    ensures v & t != 0 <==> Lo(v) & Lo(t) != 0 || Hi(v) & Hi(t) != 0
  {
  }

  lemma BytesShare(v: bv32, t: bv32)
    ensures v & t != 0 <==>
      Byte32(v, 0) & Byte32(t, 0) != 0 || Byte32(v, 1) & Byte32(t, 1) != 0 ||
      Byte32(v, 2) & Byte32(t, 2) != 0 || Byte32(v, 3) & Byte32(t, 3) != 0
  {
  }

  function Xor8(x: bv8, y: bv8): bv8 {
    x ^ y
  }

  lemma XorLaws(x: bv8, a: bv8, b: bv8)
    ensures Xor8(Xor8(x, a), b) == Xor8(x, Xor8(a, b))
    ensures Xor8(Xor8(x, a), a) == x && Xor8(x, Xor8(x, a)) == a
    ensures Xor8(x, 0) == x && Xor8(0, x) == x && Xor8(x, x) == 0
    ensures a != 0 ==> Xor8(x, a) != x
  {
  }

  predicate Shares(a: bv8, b: bv8) {
    a & b != 0
  }

  predicate Shares64(v: bv64, t: bv64) {
    v & t != 0
  }

  lemma SharesByBytes(v: bv64, t: bv64)
    ensures Shares64(v, t) <==>
      Shares(ByteOf(v, 0), ByteOf(t, 0)) || Shares(ByteOf(v, 1), ByteOf(t, 1)) ||
      Shares(ByteOf(v, 2), ByteOf(t, 2)) || Shares(ByteOf(v, 3), ByteOf(t, 3)) ||
      Shares(ByteOf(v, 4), ByteOf(t, 4)) || Shares(ByteOf(v, 5), ByteOf(t, 5)) ||
      Shares(ByteOf(v, 6), ByteOf(t, 6)) || Shares(ByteOf(v, 7), ByteOf(t, 7))
  {
    hide Byte32, Lo, Hi;
    HalvesShare(v, t);
    BytesShare(Lo(v), Lo(t));
    BytesShare(Hi(v), Hi(t));
  }

  /** Two words share a bit exactly if some byte does. */
  lemma SharedBits(v: bv64, t: bv64)
    ensures Shares64(v, t) <==> exists k: nat :: k < 8 && Shares(ByteOf(v, k), ByteOf(t, k))
  {
    hide ByteOf, Shares, Shares64;
    SharesByBytes(v, t);
    if exists k: nat :: k < 8 && Shares(ByteOf(v, k), ByteOf(t, k)) {
      var k: nat :| k < 8 && Shares(ByteOf(v, k), ByteOf(t, k));
      assert k == 0 || k == 1 || k == 2 || k == 3 || k == 4 || k == 5 || k == 6 || k == 7;
    }
  }

  // ---------- Counting the bits of a 32-bit word in parallel ----------

  function OnesOf(b: bv8): (n: bv8) {
    (b & 1) + ((b >> 1) & 1) + ((b >> 2) & 1) + ((b >> 3) & 1) +
    ((b >> 4) & 1) + ((b >> 5) & 1) + ((b >> 6) & 1) + ((b >> 7) & 1)
  }

  function PairStep(v: bv32): bv32 { v - ((v >> 1) & 0x55555555) }
  function NibbleStep(v: bv32): bv32 { (v & 0x33333333) + ((v >> 2) & 0x33333333) }
  function ByteStep(v: bv32): bv32 { (v + (v >> 4)) & 0xF0F0F0F }
  function SumStep(v: bv32): bv32 { (v * 0x01010101) >> 24 }

  /** The word trick: pairs, then nibbles, then bytes, then all four bytes by one multiplication. */
  function ParallelCount(v: bv32): bv32 {
    SumStep(ByteStep(NibbleStep(PairStep(v))))
  }

  /** The count of each bit pair without subtraction: both bits, or one of them. */
  function PairBits(v: bv32): bv32 {
    ((v & (v >> 1) & 0x55555555) << 1) | ((v ^ (v >> 1)) & 0x55555555)
  }

  function Pairs(x: bv8): bv8 { ((x & (x >> 1) & 0x55) << 1) | ((x ^ (x >> 1)) & 0x55) }
  function Nibbles(x: bv8): bv8 { (x & 0x33) + ((x >> 2) & 0x33) }
  function Whole(x: bv8): bv8 { (x + (x >> 4)) & 0x0f }

  lemma PairStepIsPairBits(v: bv32)
    ensures PairStep(v) == PairBits(v)
  {
  }

  lemma PairsByByte(a: bv8, b: bv8, c: bv8, d: bv8)
    ensures PairBits(Join32(a, b, c, d)) == Join32(Pairs(a), Pairs(b), Pairs(c), Pairs(d))
  {
  }

  lemma NibblesByByte(a: bv8, b: bv8, c: bv8, d: bv8)
    ensures var v := Join32(a, b, c, d);
      (v & 0x33333333) + ((v >> 2) & 0x33333333) ==
        Join32((a & 0x33) + ((a >> 2) & 0x33), (b & 0x33) + ((b >> 2) & 0x33),
               (c & 0x33) + ((c >> 2) & 0x33), (d & 0x33) + ((d >> 2) & 0x33))
  {
  }

  lemma WholeByByte(a: bv8, b: bv8, c: bv8, d: bv8)
    requires a & 0x88 == 0 && b & 0x88 == 0 && c & 0x88 == 0 && d & 0x88 == 0
    ensures var v := Join32(a, b, c, d);
      (v + (v >> 4)) & 0xF0F0F0F ==
        Join32((a + (a >> 4)) & 0x0f, (b + (b >> 4)) & 0x0f, (c + (c >> 4)) & 0x0f, (d + (d >> 4)) & 0x0f)
  {
  }

  lemma SumByMultiplication(a: bv8, b: bv8, c: bv8, d: bv8)
    requires a <= 8 && b <= 8 && c <= 8 && d <= 8
    ensures (Join32(a, b, c, d) * 0x01010101) >> 24 == (a + b + c + d) as bv32
  {
  }

  lemma OnesByFolding(x: bv8)
    ensures Whole(Nibbles(Pairs(x))) == OnesOf(x) <= 8 && Nibbles(Pairs(x)) & 0x88 == 0
  {
  }

  // Each step works on the four bytes separately.

  lemma PairStepByByte(a: bv8, b: bv8, c: bv8, d: bv8)
    ensures PairStep(Join32(a, b, c, d)) == Join32(Pairs(a), Pairs(b), Pairs(c), Pairs(d))
  {
    hide Join32, PairStep, PairBits, Pairs;
    PairStepIsPairBits(Join32(a, b, c, d));
    PairsByByte(a, b, c, d);
  }

  lemma NibbleStepByByte(a: bv8, b: bv8, c: bv8, d: bv8)
    ensures NibbleStep(Join32(a, b, c, d)) == Join32(Nibbles(a), Nibbles(b), Nibbles(c), Nibbles(d))
  {
    hide Join32;
    NibblesByByte(a, b, c, d);
  }

  lemma ByteStepByByte(a: bv8, b: bv8, c: bv8, d: bv8)
    requires a & 0x88 == 0 && b & 0x88 == 0 && c & 0x88 == 0 && d & 0x88 == 0
    ensures ByteStep(Join32(a, b, c, d)) == Join32(Whole(a), Whole(b), Whole(c), Whole(d))
  {
    hide Join32;
    WholeByByte(a, b, c, d);
  }

  lemma SumStepByByte(a: bv8, b: bv8, c: bv8, d: bv8)
    requires a <= 8 && b <= 8 && c <= 8 && d <= 8
    ensures SumStep(Join32(a, b, c, d)) == Sum4(a, b, c, d) as bv32
  {
    hide Join32;
    SumByMultiplication(a, b, c, d);
  }

  function Add8(x: bv8, y: bv8): bv8 {
    x + y
  }

  function Sum4(a: bv8, b: bv8, c: bv8, d: bv8): bv8 {
    Add8(Add8(Add8(a, b), c), d)
  }

  lemma ParallelCountByByte(a: bv8, b: bv8, c: bv8, d: bv8)
    ensures ParallelCount(Join32(a, b, c, d)) == Sum4(OnesOf(a), OnesOf(b), OnesOf(c), OnesOf(d)) as bv32
  {
    hide Join32, Pairs, Nibbles, Whole, OnesOf, PairStep, NibbleStep, ByteStep, SumStep, Sum4;
    PairStepByByte(a, b, c, d);
    NibbleStepByByte(Pairs(a), Pairs(b), Pairs(c), Pairs(d));
    OnesByFolding(a);
    OnesByFolding(b);
    OnesByFolding(c);
    OnesByFolding(d);
    ByteStepByByte(Nibbles(Pairs(a)), Nibbles(Pairs(b)), Nibbles(Pairs(c)), Nibbles(Pairs(d)));
    SumStepByByte(OnesOf(a), OnesOf(b), OnesOf(c), OnesOf(d));
  }

  lemma SmallSum(x: bv8, y: bv8)
    requires x <= 24 && y <= 8
    ensures Add8(x, y) as int == x as int + y as int
    ensures (x <= 8 ==> Add8(x, y) <= 16) && (x <= 16 ==> Add8(x, y) <= 24)
  {
  }

  lemma SumOfFour(a: bv8, b: bv8, c: bv8, d: bv8)
    requires a <= 8 && b <= 8 && c <= 8 && d <= 8
    ensures Sum4(a, b, c, d) as bv32 as int == a as int + b as int + c as int + d as int
  {
    hide Add8;
    SmallSum(a, b);
    SmallSum(Add8(a, b), c);
    SmallSum(Add8(Add8(a, b), c), d);
    Widened(Sum4(a, b, c, d));
  }

  lemma Widened(x: bv8)
    ensures x as bv32 as int == x as int
  {
  }

  /** The count of a word is the sum of the counts of its bytes, as numbers. */
  lemma ParallelCountSum(a: bv8, b: bv8, c: bv8, d: bv8)
    ensures ParallelCount(Join32(a, b, c, d)) as int
         == OnesOf(a) as int + OnesOf(b) as int + OnesOf(c) as int + OnesOf(d) as int
  {
    hide ParallelCount, OnesOf, Sum4, Join32;
    ParallelCountByByte(a, b, c, d);
    OnesByFolding(a);
    OnesByFolding(b);
    OnesByFolding(c);
    OnesByFolding(d);
    SumOfFour(OnesOf(a), OnesOf(b), OnesOf(c), OnesOf(d));
  }
}
