/** What the deterministic stages execute, as sequences of buffers: the walking flips, and at every
    effective position the values that arithmetic and the interesting integers would try. */
module DetRuns {
  import opened Words
  import opened Redundancy

  type Buf = seq<bv8>

  /** The buffer with the bytes `b` written at `i`. */
  function Put(s: Buf, i: nat, b: Buf): (r: Buf)
    requires i + |b| <= |s|
    ensures |r| == |s|
  {
    s[..i] + b + s[i + |b|..]
  }

  /** The buffer with the bytes `b` inserted at `i`. */
  function Inserted(s: Buf, i: nat, b: Buf): Buf
    requires i <= |s|
  {
    s[..i] + b + s[i..]
  }

  // ---------- Walking flips ----------

  /** `n` bits flipped from bit `b` on; bit 0 is the most significant bit of byte 0. */
  function FlipBits(s: Buf, b: nat, n: nat): (r: Buf)
    requires b + n <= 8 * |s|
    ensures |r| == |s|
    decreases n
  {
    if n == 0 then s else FlipBits(s[b / 8 := Xor8(s[b / 8], HighBit(b % 8))], b + 1, n - 1)
  }

  /** What those flips do to byte `i`. */
  ghost function MaskAt(b: nat, n: nat, i: nat): bv8
    decreases n
  {
    if n == 0 then 0 else Xor8(if b / 8 == i then HighBit(b % 8) else 0, MaskAt(b + 1, n - 1, i))
  }

  lemma {:induction false} FlipBitsAt(s: Buf, b: nat, n: nat, i: nat)
    requires b + n <= 8 * |s| && i < |s|
    ensures FlipBits(s, b, n)[i] == Xor8(s[i], MaskAt(b, n, i))
    decreases n
  {
    hide HighBit, Xor8;
    if n > 0 {
      var m := HighBit(b % 8);
      FlipBitsAt(s[b / 8 := Xor8(s[b / 8], m)], b + 1, n - 1, i);
      XorLaws(s[i], if b / 8 == i then m else 0, MaskAt(b + 1, n - 1, i));
      XorLaws(s[i], 0, 0);
    } else {
      XorLaws(s[i], 0, 0);
    }
  }

  /** Flipping the same bits again restores the buffer. */
  lemma FlipBitsTwice(s: Buf, b: nat, n: nat)
    requires b + n <= 8 * |s|
    ensures FlipBits(FlipBits(s, b, n), b, n) == s
  {
    hide FlipBits, MaskAt, Xor8;
    forall i: nat | i < |s| ensures FlipBits(FlipBits(s, b, n), b, n)[i] == s[i] {
      FlipBitsAt(s, b, n, i);
      FlipBitsAt(FlipBits(s, b, n), b, n, i);
      XorLaws(s[i], MaskAt(b, n, i), 0);
    }
  }

  lemma {:induction false} MaskInByte(i: nat, k: nat, n: nat, at: nat)
    requires k + n <= 8
    ensures MaskAt(8 * i + k, n, at) == if at == i then RunMask(k, n) else 0
    decreases n
  {
    hide HighBit, Xor8;
    if n > 0 {
      assert (8 * i + k) / 8 == i && (8 * i + k) % 8 == k;
      MaskInByte(i, k + 1, n - 1, at);
      XorLaws(0, 0, 0);
    }
  }

  /** A walking flip inside one byte. */
  lemma FlipInsideByte(s: Buf, i: nat, k: nat, n: nat)
    requires i < |s| && k + n <= 8
    ensures FlipBits(s, 8 * i + k, n) == s[i := Xor8(s[i], RunMask(k, n))]
  {
    hide FlipBits, MaskAt, Xor8, RunMask;
    var r := FlipBits(s, 8 * i + k, n);
    forall j: nat | j < |s| ensures r[j] == if j == i then Xor8(s[i], RunMask(k, n)) else s[j] {
      FlipBitsAt(s, 8 * i + k, n, j);
      MaskInByte(i, k, n, j);
      XorLaws(s[j], 0, 0);
    }
  }

  ghost function FlipWalk(s: Buf, n: nat): seq<Buf>
    requires n <= 8 * |s| + 1
  {
    seq(8 * |s| + 1 - n, b requires 0 <= b < 8 * |s| + 1 - n => FlipBits(s, b, n))
  }

  /** `w` bytes inverted from byte `i` on. */
  ghost function Inverted(s: Buf, i: nat, w: nat): (r: Buf)
    requires i + w <= |s|
    ensures |r| == |s|
  {
    seq(|s|, k requires 0 <= k < |s| => if i <= k < i + w then Xor8(s[k], 0xff) else s[k])
  }

  ghost function ByteWalk(s: Buf): seq<Buf> {
    seq(|s|, i requires 0 <= i < |s| => Inverted(s, i, 1))
  }

  // ---------- The effector map ----------

  function EffLen(len: nat): nat {
    len / 8 + (if len % 8 != 0 then 1 else 0)
  }

  predicate Effective(eff: seq<bool>, i: nat, w: nat)
    requires w > 0 && EffLen(i + w) <= |eff|
  {
    exists k: nat :: i <= k < i + w && eff[k / 8]
  }

  /** The number of positions at which `w` bytes fit. */
  function Places(len: nat, w: nat): nat
    requires w > 0
  {
    if len < w then 0 else len - w + 1
  }

  /** Wide flips at the first `n` positions. */
  ghost function WideFlips(s: Buf, eff: seq<bool>, w: nat, n: nat): seq<Buf>
    requires w > 0 && n <= Places(|s|, w) && |eff| == EffLen(|s|)
  {
    if n == 0 then []
    else WideFlips(s, eff, w, n - 1) + (if Effective(eff, n - 1, w) then [Inverted(s, n - 1, w)] else [])
  }

  // ---------- Values tried at one position ----------

  function Bytes8(v: bv8): (b: Buf)
    ensures |b| == 1
  {
    [v]
  }

  function Bytes16(v: bv16): (b: Buf)
    ensures |b| == 2
  {
    [(v & 0xff) as bv8, (v >> 8) as bv8]
  }

  function Bytes32(v: bv32): (b: Buf)
    ensures |b| == 4
  {
    [Byte32(v, 0), Byte32(v, 1), Byte32(v, 2), Byte32(v, 3)]
  }

  /** Reading a word back and storing it again changes nothing. */
  lemma BytesOfWord(o: Buf)
    ensures |o| == 1 ==> Bytes8(o[0]) == o
    ensures |o| == 2 ==> Bytes16(Join16(o[0], o[1])) == o
    ensures |o| == 4 ==> Bytes32(Join32(o[0], o[1], o[2], o[3])) == o
  {
    hide Join16, Join32, Byte32;
    if |o| == 2 { Join16Bytes(o[0], o[1]); WordParts(Join16(o[0], o[1])); }
    if |o| == 4 { BytesOfJoin(o[0], o[1], o[2], o[3]); }
  }

  lemma WordParts(v: bv16)
    ensures Bytes16(v) == [(v & 0xff) as bv8, (v >> 8) as bv8]
  {
  }

  function Unless(skip: bool, b: Buf): seq<Buf> {
    if skip then [] else [b]
  }

  function Step16(j: nat): bv16
    requires j <= ARITH_MAX
  {
    Step(j) as bv16
  }

  function Step32(j: nat): bv32
    requires j <= ARITH_MAX
  {
    Step(j) as bv32
  }

  ghost function Arith8Tries(o: bv8, n: nat): (r: seq<Buf>)
    requires n <= ARITH_MAX
    ensures |r| <= 2 * n && forall k :: 0 <= k < |r| ==> |r[k]| == 1
  {
    if n == 0 then []
    else
      Arith8Tries(o, n - 1) +
      Unless(SkipArith8(o, Plus(o, n)), Bytes8(Plus(o, n))) +
      Unless(SkipArith8(o, Minus(o, n)), Bytes8(Minus(o, n)))
  }

  predicate SkipArith8(o: bv8, v: bv8) {
    CouldBeBitflip(Xor8(o, v) as bv32)
  }

  // The four candidates of the 16-bit stage: little-endian sum and difference, then big-endian.
  // A candidate that changes only one byte, or that a bit flip could give, is skipped.

  function Sum16(o: bv16, j: nat): bv16
    requires j <= ARITH_MAX
  {
    o + Step16(j)
  }

  function Diff16(o: bv16, j: nat): bv16
    requires j <= ARITH_MAX
  {
    o - Step16(j)
  }

  function SwapSum16(o: bv16, j: nat): bv16
    requires j <= ARITH_MAX
  {
    Swap16(Swap16(o) + Step16(j))
  }

  function SwapDiff16(o: bv16, j: nat): bv16
    requires j <= ARITH_MAX
  {
    Swap16(Swap16(o) - Step16(j))
  }

  predicate SkipSum16(o: bv16, v: bv16, low: bv16, j: nat)
    requires j <= ARITH_MAX
  {
    !(low + Step16(j) > 0xff && !CouldBeBitflip((o ^ v) as bv32))
  }

  predicate SkipDiff16(o: bv16, v: bv16, low: bv16, j: nat)
    requires j <= ARITH_MAX
  {
    !(low < Step16(j) && !CouldBeBitflip((o ^ v) as bv32))
  }

  ghost function Arith16Tries(o: bv16, n: nat): (r: seq<Buf>)
    requires n <= ARITH_MAX
    ensures |r| <= 4 * n && forall k :: 0 <= k < |r| ==> |r[k]| == 2
  {
    if n == 0 then []
    else
      Arith16Tries(o, n - 1) +
      Unless(SkipSum16(o, Sum16(o, n), o & 0xff, n), Bytes16(Sum16(o, n))) +
      Unless(SkipDiff16(o, Diff16(o, n), o & 0xff, n), Bytes16(Diff16(o, n))) +
      Unless(SkipSum16(o, SwapSum16(o, n), o >> 8, n), Bytes16(SwapSum16(o, n))) +
      Unless(SkipDiff16(o, SwapDiff16(o, n), o >> 8, n), Bytes16(SwapDiff16(o, n)))
  }

  function Sum32(o: bv32, j: nat): bv32
    requires j <= ARITH_MAX
  {
    o + Step32(j)
  }

  function Diff32(o: bv32, j: nat): bv32
    requires j <= ARITH_MAX
  {
    o - Step32(j)
  }

  function SwapSum32(o: bv32, j: nat): bv32
    requires j <= ARITH_MAX
  {
    Swap32(Swap32(o) + Step32(j))
  }

  function SwapDiff32(o: bv32, j: nat): bv32
    requires j <= ARITH_MAX
  {
    Swap32(Swap32(o) - Step32(j))
  }

  predicate SkipSum32(o: bv32, v: bv32, low: bv32, j: nat)
    requires j <= ARITH_MAX
  {
    !(low + Step32(j) > 0xffff && !CouldBeBitflip(o ^ v))
  }

  predicate SkipDiff32(o: bv32, v: bv32, low: bv32, j: nat)
    requires j <= ARITH_MAX
  {
    !(low < Step32(j) && !CouldBeBitflip(o ^ v))
  }

  ghost function Arith32Tries(o: bv32, n: nat): (r: seq<Buf>)
    requires n <= ARITH_MAX
    ensures |r| <= 4 * n && forall k :: 0 <= k < |r| ==> |r[k]| == 4
  {
    if n == 0 then []
    else
      Arith32Tries(o, n - 1) +
      Unless(SkipSum32(o, Sum32(o, n), o & 0xffff, n), Bytes32(Sum32(o, n))) +
      Unless(SkipDiff32(o, Diff32(o, n), o & 0xffff, n), Bytes32(Diff32(o, n))) +
      Unless(SkipSum32(o, SwapSum32(o, n), Swap32(o) & 0xffff, n), Bytes32(SwapSum32(o, n))) +
      Unless(SkipDiff32(o, SwapDiff32(o, n), Swap32(o) & 0xffff, n), Bytes32(SwapDiff32(o, n)))
  }

  predicate SkipInt8(o: bv8, v: bv8) {
    CouldBeBitflip(Xor8(o, v) as bv32) || CouldBeArith(o as bv32, v as bv32, 1)
  }

  ghost function Int8Tries(o: bv8, n: nat): (r: seq<Buf>)
    requires n <= |INTERESTING_8|
    ensures |r| <= n && forall k :: 0 <= k < |r| ==> |r[k]| == 1
  {
    if n == 0 then []
    else Int8Tries(o, n - 1) + Unless(SkipInt8(o, INTERESTING_8[n - 1]), Bytes8(INTERESTING_8[n - 1]))
  }

  ghost predicate SkipInt16(o: bv16, v: bv16, checkLe: bool) {
    CouldBeBitflip((o ^ v) as bv32) || CouldBeArith(o as bv32, v as bv32, 2) ||
    CouldBeInterest(o as bv32, v as bv32, 2, checkLe)
  }

  ghost function Int16Tries(o: bv16, n: nat): (r: seq<Buf>)
    requires n <= |INTERESTING_16|
    ensures |r| <= 2 * n && forall k :: 0 <= k < |r| ==> |r[k]| == 2
  {
    if n == 0 then []
    else
      var v := INTERESTING_16[n - 1];
      Int16Tries(o, n - 1) +
      Unless(SkipInt16(o, v, false), Bytes16(v)) +
      Unless(v == Swap16(v) || SkipInt16(o, Swap16(v), true), Bytes16(Swap16(v)))
  }

  ghost predicate SkipInt32(o: bv32, v: bv32, checkLe: bool) {
    CouldBeBitflip(o ^ v) || CouldBeArith(o, v, 4) || CouldBeInterest(o, v, 4, checkLe)
  }

  ghost function Int32Tries(o: bv32, n: nat): (r: seq<Buf>)
    requires n <= |INTERESTING_32|
    ensures |r| <= 2 * n && forall k :: 0 <= k < |r| ==> |r[k]| == 4
  {
    if n == 0 then []
    else
      var v := INTERESTING_32[n - 1];
      Int32Tries(o, n - 1) +
      Unless(SkipInt32(o, v, false), Bytes32(v)) +
      Unless(v == Swap32(v) || SkipInt32(o, Swap32(v), true), Bytes32(Swap32(v)))
  }

  // ---------- Whole stages ----------

  datatype Op = Arith8 | Arith16 | Arith32 | Int8 | Int16 | Int32

  function Width(op: Op): (w: nat)
    ensures w > 0
  {
    match op
    case Arith8 => 1 case Int8 => 1
    case Arith16 => 2 case Int16 => 2
    case Arith32 => 4 case Int32 => 4
  }

  /** The executions a stage plans for one position. */
  function Slots(op: Op): nat {
    match op
    case Arith8 => 2 * ARITH_MAX
    case Arith16 => 4 * ARITH_MAX
    case Arith32 => 4 * ARITH_MAX
    case Int8 => |INTERESTING_8|
    case Int16 => 2 * |INTERESTING_16|
    case Int32 => 2 * |INTERESTING_32|
  }

  ghost function Tries(op: Op, o: Buf): (r: seq<Buf>)
    requires |o| == Width(op)
    ensures |r| <= Slots(op) && forall k :: 0 <= k < |r| ==> |r[k]| == Width(op)
  {
    match op
    case Arith8 => Arith8Tries(o[0], ARITH_MAX)
    case Arith16 => Arith16Tries(Join16(o[0], o[1]), ARITH_MAX)
    case Arith32 => Arith32Tries(Join32(o[0], o[1], o[2], o[3]), ARITH_MAX)
    case Int8 => Int8Tries(o[0], |INTERESTING_8|)
    case Int16 => Int16Tries(Join16(o[0], o[1]), |INTERESTING_16|)
    case Int32 => Int32Tries(Join32(o[0], o[1], o[2], o[3]), |INTERESTING_32|)
  }

  lemma TriesOfOne(o: Buf)
    requires |o| == 1
    ensures Width(Arith8) == Width(Int8) == 1
    ensures Tries(Arith8, o) == Arith8Tries(o[0], ARITH_MAX) && Slots(Arith8) == 2 * ARITH_MAX
    ensures Tries(Int8, o) == Int8Tries(o[0], |INTERESTING_8|) && Slots(Int8) == |INTERESTING_8|
  {
  }

  lemma TriesOfTwo(o: Buf)
    requires |o| == 2
    ensures Width(Arith16) == Width(Int16) == 2
    ensures Tries(Arith16, o) == Arith16Tries(Join16(o[0], o[1]), ARITH_MAX) && Slots(Arith16) == 4 * ARITH_MAX
    ensures Tries(Int16, o) == Int16Tries(Join16(o[0], o[1]), |INTERESTING_16|) && Slots(Int16) == 2 * |INTERESTING_16|
  {
  }

  lemma TriesOfFour(o: Buf)
    requires |o| == 4
    ensures Width(Arith32) == Width(Int32) == 4
    ensures Tries(Arith32, o) == Arith32Tries(Join32(o[0], o[1], o[2], o[3]), ARITH_MAX) &&
      Slots(Arith32) == 4 * ARITH_MAX
    ensures Tries(Int32, o) == Int32Tries(Join32(o[0], o[1], o[2], o[3]), |INTERESTING_32|)
    ensures Slots(Int32) == 2 * |INTERESTING_32|
  {
  }

  // No candidate, and one more candidate index at a time.

  lemma Arith8None(o: bv8)
    ensures Arith8Tries(o, 0) == []
  {
  }

  lemma Arith16None(o: bv16)
    ensures Arith16Tries(o, 0) == []
  {
  }

  lemma Arith32None(o: bv32)
    ensures Arith32Tries(o, 0) == []
  {
  }

  lemma Int8None(o: bv8)
    ensures Int8Tries(o, 0) == []
  {
  }

  lemma Int16None(o: bv16)
    ensures Int16Tries(o, 0) == []
  {
  }

  lemma Int32None(o: bv32)
    ensures Int32Tries(o, 0) == []
  {
  }

  lemma Arith8More(o: bv8, j: nat)
    requires 1 <= j <= ARITH_MAX
    ensures Arith8Tries(o, j) == Arith8Tries(o, j - 1) +
      Unless(SkipArith8(o, Plus(o, j)), Bytes8(Plus(o, j))) +
      Unless(SkipArith8(o, Minus(o, j)), Bytes8(Minus(o, j)))
  {
  }

  lemma Arith16More(o: bv16, j: nat)
    requires 1 <= j <= ARITH_MAX
    ensures Arith16Tries(o, j) == Arith16Tries(o, j - 1) +
      Unless(SkipSum16(o, Sum16(o, j), o & 0xff, j), Bytes16(Sum16(o, j))) +
      Unless(SkipDiff16(o, Diff16(o, j), o & 0xff, j), Bytes16(Diff16(o, j))) +
      Unless(SkipSum16(o, SwapSum16(o, j), o >> 8, j), Bytes16(SwapSum16(o, j))) +
      Unless(SkipDiff16(o, SwapDiff16(o, j), o >> 8, j), Bytes16(SwapDiff16(o, j)))
  {
  }

  lemma Arith32More(o: bv32, j: nat)
    requires 1 <= j <= ARITH_MAX
    ensures Arith32Tries(o, j) == Arith32Tries(o, j - 1) +
      Unless(SkipSum32(o, Sum32(o, j), o & 0xffff, j), Bytes32(Sum32(o, j))) +
      Unless(SkipDiff32(o, Diff32(o, j), o & 0xffff, j), Bytes32(Diff32(o, j))) +
      Unless(SkipSum32(o, SwapSum32(o, j), Swap32(o) & 0xffff, j), Bytes32(SwapSum32(o, j))) +
      Unless(SkipDiff32(o, SwapDiff32(o, j), Swap32(o) & 0xffff, j), Bytes32(SwapDiff32(o, j)))
  {
  }

  lemma Int8More(o: bv8, j: nat)
    requires j < |INTERESTING_8|
    ensures Int8Tries(o, j + 1) == Int8Tries(o, j) + Unless(SkipInt8(o, INTERESTING_8[j]), Bytes8(INTERESTING_8[j]))
  {
    hide INTERESTING_8;
  }

  lemma Int16More(o: bv16, j: nat)
    requires j < |INTERESTING_16|
    ensures var v := INTERESTING_16[j];
      Int16Tries(o, j + 1) == Int16Tries(o, j) + Unless(SkipInt16(o, v, false), Bytes16(v)) +
        Unless(v == Swap16(v) || SkipInt16(o, Swap16(v), true), Bytes16(Swap16(v)))
  {
    hide INTERESTING_16;
  }

  lemma Int32More(o: bv32, j: nat)
    requires j < |INTERESTING_32|
    ensures var v := INTERESTING_32[j];
      Int32Tries(o, j + 1) == Int32Tries(o, j) + Unless(SkipInt32(o, v, false), Bytes32(v)) +
        Unless(v == Swap32(v) || SkipInt32(o, Swap32(v), true), Bytes32(Swap32(v)))
  {
    hide INTERESTING_32;
  }

  ghost predicate AllWide(ts: seq<Buf>, w: nat) {
    forall k :: 0 <= k < |ts| ==> |ts[k]| == w
  }

  ghost function PutAll(s: Buf, i: nat, w: nat, ts: seq<Buf>): (r: seq<Buf>)
    requires i + w <= |s| && AllWide(ts, w)
    ensures |r| == |ts|
  {
    seq(|ts|, k requires 0 <= k < |ts| => Put(s, i, ts[k]))
  }

  /** What a stage executes at position `i`. */
  ghost function RunsAt(op: Op, s: Buf, eff: seq<bool>, i: nat): (r: seq<Buf>)
    requires i < Places(|s|, Width(op)) && |eff| == EffLen(|s|)
    ensures |r| <= Slots(op)
  {
    var w := Width(op);
    if Effective(eff, i, w) then PutAll(s, i, w, Tries(op, s[i..i + w])) else []
  }

  /** What a stage executes at its first `n` positions. */
  ghost function StageRuns(op: Op, s: Buf, eff: seq<bool>, n: nat): seq<Buf>
    requires n <= Places(|s|, Width(op)) && |eff| == EffLen(|s|)
  {
    if n == 0 then [] else StageRuns(op, s, eff, n - 1) + RunsAt(op, s, eff, n - 1)
  }
}
