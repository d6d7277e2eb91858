/** What the deterministic phase as a whole executes: every skip of an 8-bit value is covered by an
    earlier flip or sum, as long as arithmetic is enabled. */
module DetCoverage {
  import opened Words
  import opened Redundancy
  import opened DetRuns

  /** The walking flips of one, two and four bits, then of whole bytes. */
  ghost function FlipRuns(s: Buf): seq<Buf>
    requires |s| > 0
  {
    FlipWalk(s, 1) + FlipWalk(s, 2) + FlipWalk(s, 4) + ByteWalk(s)
  }

  ghost function WideRuns(s: Buf, eff: seq<bool>): seq<Buf>
    requires |eff| == EffLen(|s|)
  {
    WideFlips(s, eff, 2, Places(|s|, 2)) + WideFlips(s, eff, 4, Places(|s|, 4))
  }

  ghost function FullStage(op: Op, s: Buf, eff: seq<bool>): seq<Buf>
    requires |eff| == EffLen(|s|)
  {
    StageRuns(op, s, eff, Places(|s|, Width(op)))
  }

  ghost function ArithRuns(s: Buf, eff: seq<bool>, arith: bool): seq<Buf>
    requires |eff| == EffLen(|s|)
  {
    if arith then FullStage(Arith8, s, eff) + FullStage(Arith16, s, eff) + FullStage(Arith32, s, eff) else []
  }

  /** Everything executed up to the end of the 8-bit interesting values. */
  ghost function RunsToInt8(s: Buf, eff: seq<bool>, arith: bool): seq<Buf>
    requires |s| > 0 && |eff| == EffLen(|s|)
  {
    FlipRuns(s) + WideRuns(s, eff) + ArithRuns(s, eff, arith) + FullStage(Int8, s, eff)
  }

  // ---------- Members of the sequences ----------

  lemma {:induction false} StageHas(op: Op, s: Buf, eff: seq<bool>, n: nat, i: nat, k: nat)
    requires n <= Places(|s|, Width(op)) && |eff| == EffLen(|s|) && i < n
    requires k < |RunsAt(op, s, eff, i)|
    ensures RunsAt(op, s, eff, i)[k] in StageRuns(op, s, eff, n)
  {
    hide RunsAt;
    if i < n - 1 {
      StageHas(op, s, eff, n - 1, i, k);
    }
  }

  lemma {:induction false} StageOnly(op: Op, s: Buf, eff: seq<bool>, n: nat, r: Buf) returns (i: nat, k: nat)
    requires n <= Places(|s|, Width(op)) && |eff| == EffLen(|s|)
    requires r in StageRuns(op, s, eff, n)
    ensures i < n && k < |RunsAt(op, s, eff, i)| && r == RunsAt(op, s, eff, i)[k]
  {
    hide RunsAt;
    if r in StageRuns(op, s, eff, n - 1) {
      i, k := StageOnly(op, s, eff, n - 1, r);
    } else {
      i := n - 1;
      k :| 0 <= k < |RunsAt(op, s, eff, i)| && r == RunsAt(op, s, eff, i)[k];
    }
  }

  lemma {:induction false} Arith8Has(o: bv8, n: nat, j: nat)
    requires 1 <= j <= n <= ARITH_MAX
    ensures !SkipArith8(o, Plus(o, j)) ==> Bytes8(Plus(o, j)) in Arith8Tries(o, n)
    ensures !SkipArith8(o, Minus(o, j)) ==> Bytes8(Minus(o, j)) in Arith8Tries(o, n)
  {
    hide SkipArith8, Plus, Minus, Bytes8;
    var up, down :=
        Unless(SkipArith8(o, Plus(o, n)), Bytes8(Plus(o, n))), Unless(SkipArith8(o, Minus(o, n)), Bytes8(Minus(o, n)));
    assert Arith8Tries(o, n) == Arith8Tries(o, n - 1) + up + down;
    if j < n {
      Arith8Has(o, n - 1, j);
    }
  }

  lemma {:induction false} Int8Has(o: bv8, n: nat, j: nat)
    requires j < n <= |INTERESTING_8|
    ensures !SkipInt8(o, INTERESTING_8[j]) ==> Bytes8(INTERESTING_8[j]) in Int8Tries(o, n)
  {
    hide SkipInt8, INTERESTING_8, Bytes8;
    if j < n - 1 {
      Int8Has(o, n - 1, j);
    }
  }

  lemma {:induction false} Int8Only(o: bv8, n: nat, v: bv8)
    requires n <= |INTERESTING_8| && Bytes8(v) in Int8Tries(o, n)
    ensures !SkipInt8(o, v)
  {
    hide SkipInt8, INTERESTING_8;
    if Bytes8(v) in Int8Tries(o, n - 1) {
      Int8Only(o, n - 1, v);
    } else {
      assert Bytes8(v) == Bytes8(INTERESTING_8[n - 1]);
    }
  }

  /** A one-byte try at an effective position is executed. */
  lemma TryIsRun(op: Op, s: Buf, eff: seq<bool>, i: nat, v: bv8)
    requires Width(op) == 1 && i < |s| && |eff| == EffLen(|s|) && Effective(eff, i, 1)
    requires Bytes8(v) in Tries(op, s[i..i + 1])
    ensures s[i := v] in FullStage(op, s, eff)
  {
    hide Tries, Effective, StageRuns;
    var ts := Tries(op, s[i..i + 1]);
    var k :| 0 <= k < |ts| && ts[k] == Bytes8(v);
    assert RunsAt(op, s, eff, i)[k] == Put(s, i, ts[k]) == s[i := v];
    StageHas(op, s, eff, Places(|s|, 1), i, k);
  }

  // ---------- Covered skips ----------

  /** What a bit flip could give was executed by a walking flip. */
  lemma FlipIsRun(s: Buf, i: nat, v: bv8)
    requires i < |s| && v != s[i] && CouldBeBitflip(Xor8(s[i], v) as bv32)
    ensures s[i := v] in FlipRuns(s)
  {
    hide CouldBeBitflip, RunMask, FlipBits, Xor8;
    var x := Xor8(s[i], v);
    XorLaws(s[i], v, 0);
    XorNonZero(s[i], v);
    BitflipIsFlipInByte(x);
    if x == 0xff {
      assert ByteWalk(s)[i] == Inverted(s, i, 1) == s[i := v];
    } else {
      var k, n :| k + n <= 8 && IsWalk(n) && x == RunMask(k, n);
      FlipInsideByte(s, i, k, n);
      assert FlipWalk(s, n)[8 * i + k] == s[i := v];
    }
  }

  lemma XorNonZero(a: bv8, b: bv8)
    ensures Xor8(a, b) == 0 <==> a == b
  {
  }

  /** Every sum and difference of the byte was executed, by a flip or by the arithmetic stage. */
  lemma ArithCovered(s: Buf, eff: seq<bool>, i: nat, v: bv8, j: nat)
    requires i < |s| && |eff| == EffLen(|s|) && Effective(eff, i, 1)
    requires Reached(s[i], v, j) && v != s[i]
    ensures s[i := v] in FlipRuns(s) || s[i := v] in FullStage(Arith8, s, eff)
  {
    hide Plus, Minus, CouldBeBitflip, FlipRuns, FullStage, Effective, Arith8Tries;
    if CouldBeBitflip(Xor8(s[i], v) as bv32) {
      FlipIsRun(s, i, v);
    } else {
      Arith8Has(s[i], ARITH_MAX, j);
      TryIsRun(Arith8, s, eff, i, v);
    }
  }

  /** Every interesting byte other than the original one was executed: by a flip, by the arithmetic
      stage, or by its own stage. */
  lemma InterestCovered(s: Buf, eff: seq<bool>, i: nat, v: bv8)
    requires i < |s| && |eff| == EffLen(|s|) && Effective(eff, i, 1)
    requires v in INTERESTING_8 && v != s[i]
    ensures s[i := v] in FlipRuns(s) || s[i := v] in FullStage(Arith8, s, eff) || s[i := v] in FullStage(Int8, s, eff)
  {
    hide CouldBeBitflip, CouldBeArith, Near8, Reached, INTERESTING_8, FlipRuns, FullStage, Effective, Int8Tries;
    if CouldBeBitflip(Xor8(s[i], v) as bv32) {
      FlipIsRun(s, i, v);
    } else if CouldBeArith(s[i] as bv32, v as bv32, 1) {
      ArithIsNear(s[i], v);
      var j := NearIsReached(s[i], v);
      ArithCovered(s, eff, i, v, j);
    } else {
      var j :| 0 <= j < |INTERESTING_8| && INTERESTING_8[j] == v;
      Int8Has(s[i], |INTERESTING_8|, j);
      TryIsRun(Int8, s, eff, i, v);
    }
  }

  /** With arithmetic enabled, nothing is lost at an effective byte: the byte plus or minus every
      number up to ARITH_MAX, and every interesting byte but its own value, has been executed. */
  lemma NothingLost(s: Buf, eff: seq<bool>, i: nat, v: bv8)
    requires i < |s| && |eff| == EffLen(|s|) && Effective(eff, i, 1) && v != s[i]
    requires v in INTERESTING_8 || exists j :: Reached(s[i], v, j)
    ensures s[i := v] in RunsToInt8(s, eff, true)
  {
    hide FlipRuns, WideRuns, FullStage, Reached, Effective;
    if v in INTERESTING_8 {
      InterestCovered(s, eff, i, v);
    } else {
      var j :| Reached(s[i], v, j);
      ArithCovered(s, eff, i, v, j);
    }
  }

  // ---------- Without arithmetic ----------

  lemma RunNonZero(k: nat, n: nat)
    requires k + n <= 8 && 1 <= n <= 3
    ensures RunMask(k, n) != 0
  {
    hide Xor8;
    RunMaskCases(k);
    HighBitCases(k);
    if n > 1 { HighBitCases(k + 1); RunOfTwo(k); }
    if n > 2 { HighBitCases(k + 2); RunOfThree(k); }
  }

  lemma RunOfTwo(k: nat)
    requires k + 2 <= 8
    ensures RunMask(k, 2) == HighBit(k) ^ HighBit(k + 1)
  {
    RunMaskCases(k);
  }

  lemma RunOfThree(k: nat)
    requires k + 3 <= 8
    ensures RunMask(k, 3) == HighBit(k) ^ HighBit(k + 1) ^ HighBit(k + 2)
  {
    RunMaskCases(k + 1);
  }

  lemma {:induction false} MaskSplit(b: nat, n1: nat, n2: nat, i: nat)
    ensures MaskAt(b, n1 + n2, i) == Xor8(MaskAt(b, n1, i), MaskAt(b + n1, n2, i))
    decreases n1
  {
    hide HighBit, Xor8;
    if n1 > 0 {
      MaskSplit(b + 1, n1 - 1, n2, i);
      XorLaws(if b / 8 == i then HighBit(b % 8) else 0, MaskAt(b + 1, n1 - 1, i), MaskAt(b + n1, n2, i));
    } else {
      XorLaws(MaskAt(b, n2, i), 0, 0);
    }
  }

  /** A walking flip that crosses a byte boundary changes two bytes. */
  lemma CrossingFlip(i: nat, k: nat, n: nat)
    requires k < 8 < k + n && n <= 4
    ensures MaskAt(8 * i + k, n, i) != 0 && MaskAt(8 * i + k, n, i + 1) != 0
  {
    hide Xor8, MaskAt, RunMask;
    var m := 8 - k;
    var b := 8 * (i + 1) + 0;
    MaskSplit(8 * i + k, m, n - m, i);
    MaskSplit(8 * i + k, m, n - m, i + 1);
    MaskInByte(i, k, m, i);
    MaskInByte(i, k, m, i + 1);
    MaskInByte(i + 1, 0, n - m, i);
    MaskInByte(i + 1, 0, n - m, i + 1);
    RunNonZero(k, m);
    RunNonZero(0, n - m);
    XorLaws(RunMask(k, m), 0, 0);
    XorLaws(RunMask(0, n - m), 0, 0);
  }

  /** A walking flip that changes only byte `i` is one the test recognises. */
  lemma WalkOnly(s: Buf, b: nat, n: nat, i: nat, v: bv8)
    requires b + n <= 8 * |s| && IsWalk(n) && i < |s| && v != s[i]
    requires FlipBits(s, b, n) == s[i := v]
    ensures CouldBeBitflip(Xor8(s[i], v) as bv32)
  {
    hide CouldBeBitflip, RunMask, FlipBits, Xor8, MaskAt;
    var at, k := b / 8, b % 8;
    if k + n <= 8 {
      FlipInsideByte(s, at, k, n);
      var m := RunMask(k, n);
      XorLaws(s[at], m, 0);
      BitflipIsFlipInByte(m);
      assert s[at := Xor8(s[at], m)][i] == v;
    } else {
      CrossingFlip(at, k, n);
      FlipBitsAt(s, b, n, at);
      FlipBitsAt(s, b, n, at + 1);
      XorLaws(s[at], MaskAt(b, n, at), 0);
      XorLaws(s[at + 1], MaskAt(b, n, at + 1), 0);
    }
  }

  lemma FlipRunsOnly(s: Buf, i: nat, v: bv8)
    requires i < |s| && v != s[i] && s[i := v] in FlipRuns(s)
    ensures CouldBeBitflip(Xor8(s[i], v) as bv32)
  {
    hide CouldBeBitflip, FlipBits, Xor8;
    var r := s[i := v];
    if r in ByteWalk(s) {
      var at :| 0 <= at < |s| && Inverted(s, at, 1) == r;
      assert r[at] == Xor8(s[at], 0xff);
      XorLaws(s[at], 0xff, 0);
      BitflipIsFlipInByte(0xff);
    } else {
      var n, b :| IsWalk(n) && 0 <= b < 8 * |s| + 1 - n && FlipBits(s, b, n) == r;
      WalkOnly(s, b, n, i, v);
    }
  }

  lemma {:induction false} WideOnly(s: Buf, eff: seq<bool>, w: nat, n: nat, i: nat, v: bv8)
    requires 2 <= w && n <= Places(|s|, w) && |eff| == EffLen(|s|) && i < |s|
    ensures s[i := v] !in WideFlips(s, eff, w, n)
  {
    hide Xor8, Effective;
    if n > 0 {
      WideOnly(s, eff, w, n - 1, i, v);
      var r, at := Inverted(s, n - 1, w), n - 1;
      XorLaws(s[at], 0xff, 0);
      XorLaws(s[at + 1], 0xff, 0);
      assert r[at] != s[at] && r[at + 1] != s[at + 1];
    }
  }

  lemma Int8RunsOnly(s: Buf, eff: seq<bool>, i: nat, v: bv8)
    requires i < |s| && |eff| == EffLen(|s|) && v != s[i] && s[i := v] in FullStage(Int8, s, eff)
    ensures !SkipInt8(s[i], v)
  {
    hide SkipInt8, Effective, StageRuns, Int8Tries;
    var at, k := StageOnly(Int8, s, eff, |s|, s[i := v]);
    var ts := Tries(Int8, s[at..at + 1]);
    var u := ts[k][0];
    assert ts[k] == Bytes8(u);
    Int8Only(s[at], |INTERESTING_8|, u);
    SameIsSkipped(s[at]);
    assert Put(s, at, ts[k]) == s[at := u];
    assert s[at := u][at] == s[i := v][at];
  }

  lemma SameIsSkipped(o: bv8)
    ensures SkipInt8(o, o)
  {
    XorLaws(o, 0, 0);
  }

  /** Without arithmetic the test of the interesting values still trusts it: an interesting byte is
      lost exactly when it is near the original one and no walking flip gives it. */
  lemma LostWithoutArith(s: Buf, eff: seq<bool>, i: nat, v: bv8)
    requires i < |s| && |eff| == EffLen(|s|) && Effective(eff, i, 1)
    requires v in INTERESTING_8 && v != s[i]
    ensures s[i := v] in RunsToInt8(s, eff, false) <==>
      CouldBeBitflip(Xor8(s[i], v) as bv32) || !Near8(s[i], v)
  {
    hide CouldBeBitflip, CouldBeArith, Near8, INTERESTING_8, FlipRuns, FullStage, WideFlips, Effective;
    ArithIsNear(s[i], v);
    var r := s[i := v];
    WideOnly(s, eff, 2, Places(|s|, 2), i, v);
    WideOnly(s, eff, 4, Places(|s|, 4), i, v);
    if CouldBeBitflip(Xor8(s[i], v) as bv32) {
      FlipIsRun(s, i, v);
    } else {
      if r in FlipRuns(s) { FlipRunsOnly(s, i, v); }
      if Near8(s[i], v) {
        if r in FullStage(Int8, s, eff) { Int8RunsOnly(s, eff, i, v); }
      } else {
        Int8IsRun(s, eff, i, v);
      }
    }
  }

  lemma Int8IsRun(s: Buf, eff: seq<bool>, i: nat, v: bv8)
    requires i < |s| && |eff| == EffLen(|s|) && Effective(eff, i, 1)
    requires v in INTERESTING_8 && !SkipInt8(s[i], v)
    ensures s[i := v] in FullStage(Int8, s, eff)
  {
    hide SkipInt8, INTERESTING_8, FullStage, Effective, Int8Tries;
    var j :| 0 <= j < |INTERESTING_8| && INTERESTING_8[j] == v;
    Int8Has(s[i], |INTERESTING_8|, j);
    TryIsRun(Int8, s, eff, i, v);
  }

  /** A one-byte file holding 5 is never executed with the interesting value 16. */
  lemma LostExample()
    ensures [16] !in RunsToInt8([5], [true], false)
  {
    hide RunsToInt8;
    var s: Buf := [5];
    assert s[0 := 16] == [16];
    assert Effective([true], 0, 1) by { assert [true][0 / 8]; }
    assert INTERESTING_8[4] == 16;
    BitflipIsRun(Xor8(5, 16));
    assert Xor8(5, 16) == 21;
    LostWithoutArith(s, [true], 0, 16);
  }
}
