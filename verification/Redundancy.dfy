/** The three tests by which the deterministic stages skip a value they believe was already tried:
    by a bit flip, by arithmetic, or by a shorter interesting value. */
module Redundancy {
  import opened Words

  const ARITH_MAX: nat := 35

  const INTERESTING_8: seq<bv8> := [0x80, 0xff, 0, 1, 16, 32, 64, 100, 127]

  const INTERESTING_16: seq<bv16> :=
    [0xff80, 0xffff, 0, 1, 16, 32, 64, 100, 127,
     0x8000, 0xff7f, 128, 255, 256, 512, 1000, 1024, 4096, 32767]

  const INTERESTING_32: seq<bv32> :=
    [0xffffff80, 0xffffffff, 0, 1, 16, 32, 64, 100, 127,
     0xffff8000, 0xffffff7f, 128, 255, 256, 512, 1000, 1024, 4096, 32767,
     0x80000000, 0xfa0000fa, 0xffff7fff, 32768, 65535, 65536, 0x05ffff05, 0x7fffffff]

  function Swap16(x: bv16): bv16 {
    (x << 8) | (x >> 8)
  }

  function Swap32(x: bv32): bv32 {
    (x << 24) | (x >> 24) | ((x << 8) & 0x00FF0000) | ((x >> 8) & 0x0000FF00)
  }

  // ---------- Bit flips ----------

  /** A non-zero word shifted right until its lowest bit is set, and by how much. */
  function OddPart(x: bv32): (bv32, nat)
    requires x != 0
    decreases x
  {
    if x & 1 != 0 then (x, 0) else var r := OddPart(x >> 1); (r.0, r.1 + 1)
  }

  predicate CouldBeBitflip(x: bv32) {
    x == 0 ||
    var r := OddPart(x);
    r.0 == 1 || r.0 == 3 || r.0 == 15 ||
    (r.1 % 8 == 0 && (r.0 == 0xff || r.0 == 0xffff || r.0 == 0xffffffff))
  }

  method TestBitflip(xorVal: bv32) returns (yes: bool)
    ensures yes == CouldBeBitflip(xorVal)
  {
    var x, sh := xorVal, 0;
    if x == 0 { return true; }
    while x & 1 == 0
      invariant x != 0 && OddPart(xorVal) == (OddPart(x).0, sh + OddPart(x).1)
      decreases x
    {
      sh := sh + 1;
      x := x >> 1;
    }
    if x == 1 || x == 3 || x == 15 { return true; }
    if sh % 8 != 0 { return false; }
    return x == 0xff || x == 0xffff || x == 0xffffffff;
  }

  /** Bit `k` of a byte, counted from its most significant bit. */
  function HighBit(k: nat): bv8
    requires k < 8
  {
    128 >> k
  }

  lemma HighBitCases(k: nat)
    requires k < 8
    ensures HighBit(k) == match k case 0 => 128 case 1 => 64 case 2 => 32 case 3 => 16
                                  case 4 => 8 case 5 => 4 case 6 => 2 case _ => 1
  {
  }

  /** `n` adjacent bits of a byte from bit `k` on. */
  function RunMask(k: nat, n: nat): bv8
    requires k + n <= 8
    decreases n
  {
    if n == 0 then 0 else Xor8(HighBit(k), RunMask(k + 1, n - 1))
  }

  predicate IsWalk(n: nat) {
    n == 1 || n == 2 || n == 4
  }

  /** The difference is one that walking flips produce inside one byte. */
  ghost predicate FlipInByte(x: bv8) {
    x == 0xff || exists k: nat, n: nat :: k + n <= 8 && IsWalk(n) && x == RunMask(k, n)
  }

  lemma {:induction false} OddPartCases(x: bv32)
    requires 0 < x < 256
    ensures OddPart(x) ==
      if x & 1 != 0 then (x, 0) else if x & 2 != 0 then (x >> 1, 1) else if x & 4 != 0 then (x >> 2, 2)
      else if x & 8 != 0 then (x >> 3, 3) else if x & 16 != 0 then (x >> 4, 4) else if x & 32 != 0 then (x >> 5, 5)
      else if x & 64 != 0 then (x >> 6, 6) else (x >> 7, 7)
    decreases x
  {
    if x & 1 == 0 {
      OddPartCases(x >> 1);
    }
  }

  /** The runs of one, two and four bits. */
  predicate IsRun(x: bv8) {
    || x == 128 || x == 64 || x == 32 || x == 16 || x == 8 || x == 4 || x == 2 || x == 1
    || x == 192 || x == 96 || x == 48 || x == 24 || x == 12 || x == 6 || x == 3
    || x == 240 || x == 120 || x == 60 || x == 30 || x == 15
  }

  lemma BitflipIsRun(x: bv8)
    ensures CouldBeBitflip(x as bv32) <==> x == 0 || x == 0xff || IsRun(x)
  {
    hide OddPart;
    if x != 0 {
      assert 0 < x as bv32 < 256;
      OddPartCases(x as bv32);
    }
  }

  lemma RunMaskCases(k: nat)
    requires k < 8
    ensures RunMask(k, 1) == HighBit(k)
    ensures k < 7 ==> RunMask(k, 2) == HighBit(k) ^ HighBit(k + 1)
    ensures k < 5 ==> RunMask(k, 4) == HighBit(k) ^ HighBit(k + 1) ^ HighBit(k + 2) ^ HighBit(k + 3)
  {
  }

  lemma RunMaskIsRun(k: nat, n: nat)
    requires k + n <= 8 && IsWalk(n)
    ensures IsRun(RunMask(k, n))
  {
    RunMaskCases(k);
    HighBitCases(k);
    if n > 1 { HighBitCases(k + 1); }
    if n > 2 { HighBitCases(k + 2); HighBitCases(k + 3); }
  }

  lemma RunIsRunMask(x: bv8) returns (k: nat, n: nat)
    requires IsRun(x)
    ensures k + n <= 8 && IsWalk(n) && x == RunMask(k, n)
  {
    k := if x & 128 != 0 then 0 else if x & 64 != 0 then 1 else if x & 32 != 0 then 2 else if x & 16 != 0 then 3
         else if x & 8 != 0 then 4 else if x & 4 != 0 then 5 else if x & 2 != 0 then 6 else 7;
    RunMaskCases(k);
    HighBitCases(k);
    if x == HighBit(k) { return k, 1; }
    HighBitCases(k + 1);
    if x == HighBit(k) ^ HighBit(k + 1) { return k, 2; }
    HighBitCases(k + 2);
    HighBitCases(k + 3);
    return k, 4;
  }

  /** On one byte the test is exact: it holds of the unchanged byte and of what the walking flips
      produce inside the byte, and of nothing else. */
  lemma BitflipIsFlipInByte(x: bv8)
    ensures CouldBeBitflip(x as bv32) <==> x == 0 || FlipInByte(x)
  {
    hide RunMask, CouldBeBitflip;
    BitflipIsRun(x);
    if IsRun(x) {
      var k, n := RunIsRunMask(x);
    } else if x != 0xff {
      forall k: nat, n: nat | k + n <= 8 && IsWalk(n) ensures x != RunMask(k, n) {
        RunMaskIsRun(k, n);
      }
    }
  }

  // ---------- Arithmetic ----------

  function Step(j: nat): bv8
    requires j <= ARITH_MAX
  {
    j as bv8
  }

  function Sub8(x: bv8, y: bv8): bv8 {
    x - y
  }

  function Plus(o: bv8, j: nat): bv8
    requires j <= ARITH_MAX
  {
    Add8(o, Step(j))
  }

  function Minus(o: bv8, j: nat): bv8
    requires j <= ARITH_MAX
  {
    Sub8(o, Step(j))
  }

  predicate Near8(a: bv8, b: bv8) {
    a - b <= 35 || b - a <= 35
  }

  predicate Near16(a: bv16, b: bv16) {
    a - b <= 35 || b - a <= 35
  }

  predicate Near32(a: bv32, b: bv32) {
    a - b <= 35 || b - a <= 35
  }

  /** Half `i` of a 32-bit value. */
  function Half(w: bv32, i: nat): bv16
    requires i < 2
  {
    if i == 0 then (w & 0xffff) as bv16 else (w >> 16) as bv16
  }

  /** Among the first `n` bytes: how many differ, and the last that do. */
  function DiffBytes(oldVal: bv32, newVal: bv32, n: nat): (r: (nat, bv8, bv8))
    requires n <= 4
  {
    if n == 0 then (0, 0, 0)
    else
      var r := DiffBytes(oldVal, newVal, n - 1);
      var a, b := Byte32(oldVal, n - 1), Byte32(newVal, n - 1);
      if a != b then (r.0 + 1, a, b) else r
  }

  function DiffHalves(oldVal: bv32, newVal: bv32, n: nat): (r: (nat, bv16, bv16))
    requires n <= 2
  {
    if n == 0 then (0, 0, 0)
    else
      var r := DiffHalves(oldVal, newVal, n - 1);
      var a, b := Half(oldVal, n - 1), Half(newVal, n - 1);
      if a != b then (r.0 + 1, a, b) else r
  }

  predicate CouldBeArith(oldVal: bv32, newVal: bv32, blen: nat)
    requires blen == 1 || blen == 2 || blen == 4
  {
    || oldVal == newVal
    || (var d := DiffBytes(oldVal, newVal, blen); d.0 == 1 && Near8(d.1, d.2))
    || (blen > 1 && var d := DiffHalves(oldVal, newVal, blen / 2);
        d.0 == 1 && (Near16(d.1, d.2) || Near16(Swap16(d.1), Swap16(d.2))))
    || (blen == 4 && (Near32(oldVal, newVal) || Near32(Swap32(newVal), Swap32(oldVal))))
  }

  method TestArith(oldVal: bv32, newVal: bv32, blen: nat) returns (yes: bool)
    requires blen == 1 || blen == 2 || blen == 4
    ensures yes == CouldBeArith(oldVal, newVal, blen)
  {
    hide Near8, Near16, Near32, Byte32, Half, Swap16, Swap32;
    if oldVal == newVal { return true; }
    var ov8, nv8, diffs := 0, 0, 0;
    for i := 0 to blen
      invariant (diffs, ov8, nv8) == DiffBytes(oldVal, newVal, i)
    {
      var a, b := Byte32(oldVal, i), Byte32(newVal, i);
      if a != b { diffs, ov8, nv8 := diffs + 1, a, b; }
    }
    if diffs == 1 && Near8(ov8, nv8) { return true; }
    if blen == 1 { return false; }
    var ov16, nv16 := 0, 0;
    diffs := 0;
    for i := 0 to blen / 2
      invariant (diffs, ov16, nv16) == DiffHalves(oldVal, newVal, i)
    {
      var a, b := Half(oldVal, i), Half(newVal, i);
      if a != b { diffs, ov16, nv16 := diffs + 1, a, b; }
    }
    if diffs == 1 && (Near16(ov16, nv16) || Near16(Swap16(ov16), Swap16(nv16))) { return true; }
    return blen == 4 && (Near32(oldVal, newVal) || Near32(Swap32(newVal), Swap32(oldVal)));
  }

  /** On one byte the test is exact: it holds of the values at most ARITH_MAX away, around the byte. */
  lemma ArithIsNear(o: bv8, v: bv8)
    ensures CouldBeArith(o as bv32, v as bv32, 1) <==> Near8(o, v)
  {
    assert Byte32(o as bv32, 0) == o && Byte32(v as bv32, 0) == v;
    assert DiffBytes(o as bv32, v as bv32, 1) == if o != v then (1, o, v) else (0, 0, 0);
  }

  /** The stage forms the value by adding or subtracting `j`. */
  predicate Reached(o: bv8, v: bv8, j: nat) {
    1 <= j <= ARITH_MAX && (v == Plus(o, j) || v == Minus(o, j))
  }

  lemma ByteIsStep(d: bv8) returns (j: nat)
    requires 0 < d <= 35
    ensures 1 <= j <= ARITH_MAX && Step(j) == d
  {
    j := d as int;
  }

  lemma Above(o: bv8, v: bv8)
    ensures Add8(o, v - o) == v
  {
  }

  lemma Below(o: bv8, v: bv8)
    ensures Sub8(o, o - v) == v
  {
  }

  lemma Apart(o: bv8, v: bv8)
    requires o != v
    ensures v - o != 0
  {
  }

  lemma NearDistance(o: bv8, v: bv8) returns (d: bv8)
    requires Near8(o, v) && o != v
    ensures 0 < d <= 35 && (v == Add8(o, d) || v == Sub8(o, d))
  {
    d := if v - o <= 35 then v - o else o - v;
    Apart(o, v);
    Apart(v, o);
    Above(o, v);
    Below(o, v);
    hide Add8, Sub8;
  }

  lemma NearIsReached(o: bv8, v: bv8) returns (j: nat)
    requires Near8(o, v) && o != v
    ensures Reached(o, v, j)
  {
    hide Near8, Step, Add8, Sub8;
    var d := NearDistance(o, v);
    j := ByteIsStep(d);
  }

  lemma SmallStep(j: nat)
    requires j <= 35
    ensures Step(j) <= 35
  {
    assert Step(j) as int == j;
  }

  lemma DistanceIsNear(o: bv8, d: bv8)
    requires d <= 35
    ensures Near8(o, Add8(o, d)) && Near8(o, Sub8(o, d))
  {
  }

  lemma ReachedIsNear(o: bv8, v: bv8, j: nat)
    requires Reached(o, v, j)
    ensures Near8(o, v)
  {
    hide Near8, Step, Add8, Sub8;
    SmallStep(j);
    DistanceIsNear(o, Step(j));
  }

  // ---------- Interesting values ----------

  /** The value with byte `i` replaced. */
  function WithByte(w: bv32, i: nat, b: bv8): bv32
    requires i < 4
  {
    match i
    case 0 => (w & 0xffffff00) | (b as bv32)
    case 1 => (w & 0xffff00ff) | ((b as bv32) << 8)
    case 2 => (w & 0xff00ffff) | ((b as bv32) << 16)
    case _ => (w & 0x00ffffff) | ((b as bv32) << 24)
  }

  /** The value with the two bytes from byte `i` on replaced. */
  function WithHalf(w: bv32, i: nat, h: bv16): bv32
    requires i < 3
  {
    match i
    case 0 => (w & 0xffff0000) | (h as bv32)
    case 1 => (w & 0xff0000ff) | ((h as bv32) << 8)
    case _ => (w & 0x0000ffff) | ((h as bv32) << 16)
  }

  /** An interesting byte at one of the first `n` byte offsets gives the value. */
  ghost predicate ByInterestingByte(oldVal: bv32, newVal: bv32, n: nat)
    requires n <= 4
  {
    exists i: nat, j: nat :: i < n && j < |INTERESTING_8| && newVal == WithByte(oldVal, i, INTERESTING_8[j])
  }

  /** An interesting two-byte value at one of the first `n` offsets gives the value, in little-endian
      order, or in either order if `both`. */
  ghost predicate ByInterestingHalf(oldVal: bv32, newVal: bv32, n: nat, both: bool)
    requires n <= 3
  {
    exists i: nat, j: nat :: i < n && j < |INTERESTING_16| &&
      (newVal == WithHalf(oldVal, i, INTERESTING_16[j]) ||
       (both && newVal == WithHalf(oldVal, i, Swap16(INTERESTING_16[j]))))
  }

  ghost predicate CouldBeInterest(oldVal: bv32, newVal: bv32, blen: nat, checkLe: bool)
    requires blen == 2 || blen == 4
  {
    || oldVal == newVal
    || ByInterestingByte(oldVal, newVal, blen)
    || ((blen == 4 || checkLe) && ByInterestingHalf(oldVal, newVal, blen - 1, blen > 2))
    || (blen == 4 && checkLe && newVal in INTERESTING_32)
  }

  method TestInterest(oldVal: bv32, newVal: bv32, blen: nat, checkLe: bool) returns (yes: bool)
    requires blen == 2 || blen == 4
    ensures yes == CouldBeInterest(oldVal, newVal, blen, checkLe)
  {
    hide WithByte, WithHalf, Swap16;
    if oldVal == newVal { return true; }
    for i := 0 to blen
      invariant forall k: nat, j: nat :: k < i && j < |INTERESTING_8| ==>
        newVal != WithByte(oldVal, k, INTERESTING_8[j])
    {
      for j := 0 to |INTERESTING_8|
        invariant forall l: nat :: l < j ==> newVal != WithByte(oldVal, i, INTERESTING_8[l])
      {
        if newVal == WithByte(oldVal, i, INTERESTING_8[j]) { return true; }
      }
    }
    assert !ByInterestingByte(oldVal, newVal, blen);
    if blen == 2 && !checkLe { return false; }
    yes := TestInterestHalf(oldVal, newVal, blen - 1, blen > 2);
    if yes { return; }
    if blen == 4 && checkLe {
      for j := 0 to |INTERESTING_32|
        invariant newVal !in INTERESTING_32[..j]
      {
        if newVal == INTERESTING_32[j] { return true; }
        assert INTERESTING_32[..j + 1] == INTERESTING_32[..j] + [INTERESTING_32[j]];
      }
      assert INTERESTING_32[..|INTERESTING_32|] == INTERESTING_32;
    }
    return false;
  }

  method TestInterestHalf(oldVal: bv32, newVal: bv32, n: nat, both: bool) returns (yes: bool)
    requires n <= 3
    ensures yes == ByInterestingHalf(oldVal, newVal, n, both)
  {
    hide WithHalf, Swap16;
    for i := 0 to n
      invariant !ByInterestingHalf(oldVal, newVal, i, both)
    {
      for j := 0 to |INTERESTING_16|
        invariant forall l: nat :: l < j ==>
          newVal != WithHalf(oldVal, i, INTERESTING_16[l]) &&
          (both ==> newVal != WithHalf(oldVal, i, Swap16(INTERESTING_16[l])))
      {
        if newVal == WithHalf(oldVal, i, INTERESTING_16[j]) { return true; }
        if both && newVal == WithHalf(oldVal, i, Swap16(INTERESTING_16[j])) { return true; }
      }
    }
    return false;
  }
}
