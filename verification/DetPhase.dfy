/** What the whole deterministic phase must have executed, said of each single change: which flip, sum,
    difference or interesting value at which place, unless the test that the program makes for it rules it
    out. */
module DetPhase {
  import opened Words
  import opened Redundancy
  import opened DetRuns
  import opened DetCoverage

  /** A stretch touches an effective block exactly if one of its bytes is in one, and a byte is in the block that
      every eight bytes from the start on form. */
  lemma EffectiveMeans(eff: seq<bool>, i: nat, w: nat)
    requires w > 0 && EffLen(i + w) <= |eff|
    ensures Effective(eff, i, w) <==> exists k: nat :: i <= k < i + w && Effective(eff, k, 1)
    ensures w == 1 ==> (Effective(eff, i, 1) <==> exists b: nat :: b < |eff| && 8 * b <= i < 8 * b + 8 && eff[b])
  {
    assert i == 8 * (i / 8) + i % 8;
    forall k: nat | i <= k < i + w ensures Effective(eff, k, 1) <==> eff[k / 8] {
    }
  }

  // ---------- Flips ----------

  /** Every run of one, two or four bits, and every byte. */
  ghost predicate FlipsTried(s: Buf, runs: seq<Buf>) {
    && (forall b: nat, n: nat :: (n == 1 || n == 2 || n == 4) && b + n <= 8 * |s| ==> FlipBits(s, b, n) in runs)
    && (forall i: nat :: i < |s| ==> Inverted(s, i, 1) in runs)
  }

  /** Every two and every four bytes that touch an effective block. */
  ghost predicate WideFlipsTried(s: Buf, eff: seq<bool>, runs: seq<Buf>)
    requires |eff| == EffLen(|s|)
  {
    && (forall i: nat :: i + 2 <= |s| && Effective(eff, i, 2) ==> Inverted(s, i, 2) in runs)
    && (forall i: nat :: i + 4 <= |s| && Effective(eff, i, 4) ==> Inverted(s, i, 4) in runs)
  }

  lemma {:induction false} WideFlipsHave(s: Buf, eff: seq<bool>, w: nat, n: nat, i: nat)
    requires w > 0 && n <= Places(|s|, w) && |eff| == EffLen(|s|) && i < n && Effective(eff, i, w)
    ensures Inverted(s, i, w) in WideFlips(s, eff, w, n)
  {
    hide Effective, Inverted;
    if i < n - 1 { WideFlipsHave(s, eff, w, n - 1, i); }
  }

  lemma FlipsAreTried(s: Buf, eff: seq<bool>, before: seq<Buf>, after: seq<Buf>)
    requires |s| > 0 && |eff| == EffLen(|s|)
    ensures FlipsTried(s, before + FlipRuns(s) + WideRuns(s, eff) + after)
    ensures WideFlipsTried(s, eff, before + FlipRuns(s) + WideRuns(s, eff) + after)
  {
    hide FlipBits, Inverted, Effective, WideFlips;
    var runs := before + FlipRuns(s) + WideRuns(s, eff) + after;
    forall b: nat, n: nat | (n == 1 || n == 2 || n == 4) && b + n <= 8 * |s| ensures FlipBits(s, b, n) in runs {
      assert FlipWalk(s, n)[b] == FlipBits(s, b, n);
    }
    forall i: nat | i < |s| ensures Inverted(s, i, 1) in runs {
      assert ByteWalk(s)[i] == Inverted(s, i, 1);
    }
    forall i: nat | i + 2 <= |s| && Effective(eff, i, 2) ensures Inverted(s, i, 2) in runs {
      WideFlipsHave(s, eff, 2, Places(|s|, 2), i);
    }
    forall i: nat | i + 4 <= |s| && Effective(eff, i, 4) ensures Inverted(s, i, 4) in runs {
      WideFlipsHave(s, eff, 4, Places(|s|, 4), i);
    }
  }

  // ---------- Sums and differences ----------

  /** The 16-bit sum and difference in either byte order. The program leaves out what does not carry into, or
      borrow from, the other byte, and what passes its test for bit flips. */
  ghost predicate SumTried16(s: Buf, i: nat, j: nat, runs: seq<Buf>)
    requires i + 2 <= |s| && j <= ARITH_MAX
  {
    var o := Join16(s[i], s[i + 1]);
    && (SkipSum16(o, Sum16(o, j), o & 0xff, j) || Put(s, i, Bytes16(Sum16(o, j))) in runs)
    && (SkipDiff16(o, Diff16(o, j), o & 0xff, j) || Put(s, i, Bytes16(Diff16(o, j))) in runs)
    && (SkipSum16(o, SwapSum16(o, j), o >> 8, j) || Put(s, i, Bytes16(SwapSum16(o, j))) in runs)
    && (SkipDiff16(o, SwapDiff16(o, j), o >> 8, j) || Put(s, i, Bytes16(SwapDiff16(o, j))) in runs)
  }

  /** The same for 32 bits, where the carry or borrow is that of the lower half. */
  ghost predicate SumTried32(s: Buf, i: nat, j: nat, runs: seq<Buf>)
    requires i + 4 <= |s| && j <= ARITH_MAX
  {
    var o := Join32(s[i], s[i + 1], s[i + 2], s[i + 3]);
    && (SkipSum32(o, Sum32(o, j), o & 0xffff, j) || Put(s, i, Bytes32(Sum32(o, j))) in runs)
    && (SkipDiff32(o, Diff32(o, j), o & 0xffff, j) || Put(s, i, Bytes32(Diff32(o, j))) in runs)
    && (SkipSum32(o, SwapSum32(o, j), Swap32(o) & 0xffff, j) || Put(s, i, Bytes32(SwapSum32(o, j))) in runs)
    && (SkipDiff32(o, SwapDiff32(o, j), Swap32(o) & 0xffff, j) || Put(s, i, Bytes32(SwapDiff32(o, j))) in runs)
  }

  // What these values and tests are.

  lemma StepValue(j: nat)
    requires j <= ARITH_MAX
    ensures Step(j) as int == j && Step16(j) == Step(j) as bv16 && Step32(j) == Step(j) as bv32
  {
    hide Step;
    ByteStep8(j);
  }

  lemma ByteStep8(j: nat)
    requires j <= ARITH_MAX
    ensures Step(j) as int == j
  {
  }

  lemma SwapTwice16(x: bv16)
    ensures Swap16(Swap16(x)) == x
  {
  }

  /** The value plus or minus the step; and the same in the other byte order. */
  lemma Candidates16(o: bv16, j: nat)
    requires j <= ARITH_MAX
    ensures Sum16(o, j) == o + Step16(j) && Diff16(o, j) == o - Step16(j)
    ensures Swap16(SwapSum16(o, j)) == Swap16(o) + Step16(j) && Swap16(SwapDiff16(o, j)) == Swap16(o) - Step16(j)
  {
    hide Swap16, Step16;
    SwapTwice16(Swap16(o) + Step16(j));
    SwapTwice16(Swap16(o) - Step16(j));
  }

  lemma SwapTwice32(x: bv32)
    ensures Swap32(Swap32(x)) == x
  {
  }

  /** The value plus or minus the step; and the same in the other byte order. */
  lemma Candidates32(o: bv32, j: nat)
    requires j <= ARITH_MAX
    ensures Sum32(o, j) == o + Step32(j) && Diff32(o, j) == o - Step32(j)
    ensures Swap32(SwapSum32(o, j)) == Swap32(o) + Step32(j) && Swap32(SwapDiff32(o, j)) == Swap32(o) - Step32(j)
  {
    hide Swap32, Step32;
    SwapTwice32(Swap32(o) + Step32(j));
    SwapTwice32(Swap32(o) - Step32(j));
  }

  /** A sum is left out if the lower part does not carry, a difference if it does not borrow. */
  lemma Skips16(o: bv16, v: bv16, low: bv16, j: nat)
    requires j <= ARITH_MAX
    ensures SkipSum16(o, v, low, j) <==> low + Step16(j) <= 0xff || CouldBeBitflip((o ^ v) as bv32)
    ensures SkipDiff16(o, v, low, j) <==> low >= Step16(j) || CouldBeBitflip((o ^ v) as bv32)
  {
    hide CouldBeBitflip, Step16;
  }

  lemma Skips32(o: bv32, v: bv32, low: bv32, j: nat)
    requires j <= ARITH_MAX
    ensures SkipSum32(o, v, low, j) <==> low + Step32(j) <= 0xffff || CouldBeBitflip(o ^ v)
    ensures SkipDiff32(o, v, low, j) <==> low >= Step32(j) || CouldBeBitflip(o ^ v)
  {
    hide CouldBeBitflip, Step32;
  }

  lemma SwapReverses16(a: bv8, b: bv8)
    ensures Swap16(Join16(a, b)) == Join16(b, a)
  {
  }

  lemma SwapReverses32(a: bv8, b: bv8, c: bv8, d: bv8)
    ensures Swap32(Join32(a, b, c, d)) == Join32(d, c, b, a)
  {
  }

  /** All of them from 1 to 35 at every place that touches an effective block. */
  ghost predicate SumsTried(s: Buf, eff: seq<bool>, runs: seq<Buf>)
    requires |eff| == EffLen(|s|)
  {
    && (forall i: nat, j: nat :: i + 2 <= |s| && 1 <= j <= 35 && Effective(eff, i, 2) ==>
          SumTried16(s, i, j, runs))
    && (forall i: nat, j: nat :: i + 4 <= |s| && 1 <= j <= 35 && Effective(eff, i, 4) ==>
          SumTried32(s, i, j, runs))
  }

  // ---------- Interesting values ----------

  ghost predicate IntTried8(s: Buf, i: nat, v: bv8, runs: seq<Buf>)
    requires i < |s|
  {
    CouldBeBitflip(Xor8(s[i], v) as bv32) || CouldBeArith(s[i] as bv32, v as bv32, 1) || Put(s, i, [v]) in runs
  }

  /** The value in either byte order, unless the program takes it for a bit flip, a sum or difference, or a
      shorter interesting value. A value that reads the same both ways is not tried twice. */
  ghost predicate IntTried16(s: Buf, i: nat, v: bv16, runs: seq<Buf>)
    requires i + 2 <= |s|
  {
    var o := Join16(s[i], s[i + 1]);
    && (Skipped16(o, v, false) || Put(s, i, Bytes16(v)) in runs)
    && (v == Swap16(v) || Skipped16(o, Swap16(v), true) || Put(s, i, Bytes16(Swap16(v))) in runs)
  }

  ghost predicate Skipped16(o: bv16, v: bv16, checkLe: bool) {
    || CouldBeBitflip((o ^ v) as bv32) || CouldBeArith(o as bv32, v as bv32, 2)
    || CouldBeInterest(o as bv32, v as bv32, 2, checkLe)
  }

  ghost predicate IntTried32(s: Buf, i: nat, v: bv32, runs: seq<Buf>)
    requires i + 4 <= |s|
  {
    var o := Join32(s[i], s[i + 1], s[i + 2], s[i + 3]);
    && (Skipped32(o, v, false) || Put(s, i, Bytes32(v)) in runs)
    && (v == Swap32(v) || Skipped32(o, Swap32(v), true) || Put(s, i, Bytes32(Swap32(v))) in runs)
  }

  ghost predicate Skipped32(o: bv32, v: bv32, checkLe: bool) {
    CouldBeBitflip(o ^ v) || CouldBeArith(o, v, 4) || CouldBeInterest(o, v, 4, checkLe)
  }

  ghost predicate ShortIntsTried(s: Buf, eff: seq<bool>, runs: seq<Buf>)
    requires |eff| == EffLen(|s|)
  {
    forall i: nat, k: nat :: i < |s| && k < |INTERESTING_8| && Effective(eff, i, 1) ==>
      IntTried8(s, i, INTERESTING_8[k], runs)
  }

  ghost predicate WideIntsTried(s: Buf, eff: seq<bool>, runs: seq<Buf>)
    requires |eff| == EffLen(|s|)
  {
    && (forall i: nat, k: nat :: i + 2 <= |s| && k < |INTERESTING_16| && Effective(eff, i, 2) ==>
          IntTried16(s, i, INTERESTING_16[k], runs))
    && (forall i: nat, k: nat :: i + 4 <= |s| && k < |INTERESTING_32| && Effective(eff, i, 4) ==>
          IntTried32(s, i, INTERESTING_32[k], runs))
  }

  // ---------- From the tries at one place to the stage ----------

  /** A try at an effective place is executed. */
  lemma TryIsExecuted(op: Op, s: Buf, eff: seq<bool>, i: nat, b: Buf)
    requires |eff| == EffLen(|s|) && i + Width(op) <= |s| && Effective(eff, i, Width(op))
    requires b in Tries(op, s[i..i + Width(op)])
    ensures |b| == Width(op) && Put(s, i, b) in FullStage(op, s, eff)
  {
    hide Tries, Effective, StageRuns, Width, Put, EffLen;
    var w := Width(op);
    var ts := Tries(op, s[i..i + w]);
    var k :| 0 <= k < |ts| && ts[k] == b;
    assert i < Places(|s|, w);
    assert RunsAt(op, s, eff, i)[k] == Put(s, i, b);
    StageHas(op, s, eff, Places(|s|, w), i, k);
  }

  lemma {:induction false} Arith16Has(o: bv16, n: nat, j: nat)
    requires 1 <= j <= n <= ARITH_MAX
    ensures var ts, sum, diff := Arith16Tries(o, n), Sum16(o, j), Diff16(o, j);
      && (SkipSum16(o, sum, o & 0xff, j) || Bytes16(sum) in ts)
      && (SkipDiff16(o, diff, o & 0xff, j) || Bytes16(diff) in ts)
    ensures var ts, sum, diff := Arith16Tries(o, n), SwapSum16(o, j), SwapDiff16(o, j);
      && (SkipSum16(o, sum, o >> 8, j) || Bytes16(sum) in ts)
      && (SkipDiff16(o, diff, o >> 8, j) || Bytes16(diff) in ts)
  {
    hide SkipSum16, SkipDiff16, Sum16, Diff16, SwapSum16, SwapDiff16, Bytes16, Arith16Tries;
    Arith16More(o, n);
    if j < n { Arith16Has(o, n - 1, j); }
  }

  lemma {:induction false} Arith32Has(o: bv32, n: nat, j: nat)
    requires 1 <= j <= n <= ARITH_MAX
    ensures var ts, sum, diff := Arith32Tries(o, n), Sum32(o, j), Diff32(o, j);
      && (SkipSum32(o, sum, o & 0xffff, j) || Bytes32(sum) in ts)
      && (SkipDiff32(o, diff, o & 0xffff, j) || Bytes32(diff) in ts)
    ensures var ts, sum, diff := Arith32Tries(o, n), SwapSum32(o, j), SwapDiff32(o, j);
      && (SkipSum32(o, sum, Swap32(o) & 0xffff, j) || Bytes32(sum) in ts)
      && (SkipDiff32(o, diff, Swap32(o) & 0xffff, j) || Bytes32(diff) in ts)
  {
    hide SkipSum32, SkipDiff32, Sum32, Diff32, SwapSum32, SwapDiff32, Bytes32, Swap32, Arith32Tries;
    Arith32More(o, n);
    if j < n { Arith32Has(o, n - 1, j); }
  }

  lemma {:induction false} Int16Has(o: bv16, n: nat, k: nat)
    requires k < n <= |INTERESTING_16|
    ensures var ts, v := Int16Tries(o, n), INTERESTING_16[k];
      && (SkipInt16(o, v, false) || Bytes16(v) in ts)
      && (v == Swap16(v) || SkipInt16(o, Swap16(v), true) || Bytes16(Swap16(v)) in ts)
  {
    hide SkipInt16, Bytes16, Swap16, INTERESTING_16, Int16Tries;
    Int16More(o, n - 1);
    if k < n - 1 { Int16Has(o, n - 1, k); }
  }

  lemma {:induction false} Int32Has(o: bv32, n: nat, k: nat)
    requires k < n <= |INTERESTING_32|
    ensures var ts, v := Int32Tries(o, n), INTERESTING_32[k];
      && (SkipInt32(o, v, false) || Bytes32(v) in ts)
      && (v == Swap32(v) || SkipInt32(o, Swap32(v), true) || Bytes32(Swap32(v)) in ts)
  {
    hide SkipInt32, Bytes32, Swap32, INTERESTING_32, Int32Tries;
    Int32More(o, n - 1);
    if k < n - 1 { Int32Has(o, n - 1, k); }
  }

  /** Every one of the tries is executed at this place. */
  ghost predicate AllExecuted(s: Buf, i: nat, w: nat, ts: seq<Buf>, runs: seq<Buf>)
    requires i + w <= |s|
  {
    forall b :: b in ts ==> |b| == w && Put(s, i, b) in runs
  }

  lemma TriesAreExecuted(op: Op, s: Buf, eff: seq<bool>, i: nat, runs: seq<Buf>)
    requires |eff| == EffLen(|s|) && i + Width(op) <= |s| && Effective(eff, i, Width(op))
    requires forall r :: r in FullStage(op, s, eff) ==> r in runs
    ensures AllExecuted(s, i, Width(op), Tries(op, s[i..i + Width(op)]), runs)
  {
    hide Effective, FullStage, Tries, EffLen, Put, Width;
    var w := Width(op);
    forall b | b in Tries(op, s[i..i + w]) ensures |b| == w && Put(s, i, b) in runs {
      TryIsExecuted(op, s, eff, i, b);
    }
  }

  lemma Arith16Tried(s: Buf, i: nat, j: nat, runs: seq<Buf>)
    requires i + 2 <= |s| && 1 <= j <= ARITH_MAX
    requires AllExecuted(s, i, 2, Arith16Tries(Join16(s[i], s[i + 1]), ARITH_MAX), runs)
    ensures SumTried16(s, i, j, runs)
  {
    hide Arith16Tries, Join16, Bytes16, Put, SkipSum16, SkipDiff16, Sum16, Diff16, SwapSum16, SwapDiff16;
    Arith16Has(Join16(s[i], s[i + 1]), ARITH_MAX, j);
  }

  lemma Arith32Tried(s: Buf, i: nat, j: nat, runs: seq<Buf>)
    requires i + 4 <= |s| && 1 <= j <= ARITH_MAX
    requires AllExecuted(s, i, 4, Arith32Tries(Join32(s[i], s[i + 1], s[i + 2], s[i + 3]), ARITH_MAX), runs)
    ensures SumTried32(s, i, j, runs)
  {
    hide Arith32Tries, Join32, Bytes32, Put, SkipSum32, SkipDiff32, Sum32, Diff32, SwapSum32, SwapDiff32, Swap32;
    Arith32Has(Join32(s[i], s[i + 1], s[i + 2], s[i + 3]), ARITH_MAX, j);
  }

  lemma Int8Tried(s: Buf, i: nat, k: nat, runs: seq<Buf>)
    requires i < |s| && k < |INTERESTING_8| && AllExecuted(s, i, 1, Int8Tries(s[i], |INTERESTING_8|), runs)
    ensures IntTried8(s, i, INTERESTING_8[k], runs)
  {
    hide Int8Tries, CouldBeBitflip, CouldBeArith, Put, INTERESTING_8, Xor8;
    Int8Has(s[i], |INTERESTING_8|, k);
  }

  lemma Int16Tried(s: Buf, i: nat, k: nat, runs: seq<Buf>)
    requires i + 2 <= |s| && k < |INTERESTING_16|
    requires AllExecuted(s, i, 2, Int16Tries(Join16(s[i], s[i + 1]), |INTERESTING_16|), runs)
    ensures IntTried16(s, i, INTERESTING_16[k], runs)
  {
    hide Int16Tries, Join16, Swap16, CouldBeBitflip, CouldBeArith, CouldBeInterest, Bytes16, Put, INTERESTING_16;
    Int16Has(Join16(s[i], s[i + 1]), |INTERESTING_16|, k);
  }

  lemma Int32Tried(s: Buf, i: nat, k: nat, runs: seq<Buf>)
    requires i + 4 <= |s| && k < |INTERESTING_32|
    requires AllExecuted(s, i, 4, Int32Tries(Join32(s[i], s[i + 1], s[i + 2], s[i + 3]), |INTERESTING_32|), runs)
    ensures IntTried32(s, i, INTERESTING_32[k], runs)
  {
    hide Int32Tries, Join32, Swap32, CouldBeBitflip, CouldBeArith, CouldBeInterest, Bytes32, Put, INTERESTING_32;
    Int32Has(Join32(s[i], s[i + 1], s[i + 2], s[i + 3]), |INTERESTING_32|, k);
  }

  lemma Arith16IsTried(s: Buf, eff: seq<bool>, i: nat, j: nat, runs: seq<Buf>)
    requires |eff| == EffLen(|s|) && i + 2 <= |s| && 1 <= j <= ARITH_MAX && Effective(eff, i, 2)
    requires forall r :: r in FullStage(Arith16, s, eff) ==> r in runs
    ensures SumTried16(s, i, j, runs)
  {
    hide SumTried16, AllExecuted, Tries, Arith16Tries, Effective, FullStage, EffLen, Join16, Join32;
    hide INTERESTING_8, INTERESTING_16, INTERESTING_32;
    TriesOfTwo(s[i..i + 2]);
    TriesAreExecuted(Arith16, s, eff, i, runs);
    Arith16Tried(s, i, j, runs);
  }

  lemma Arith32IsTried(s: Buf, eff: seq<bool>, i: nat, j: nat, runs: seq<Buf>)
    requires |eff| == EffLen(|s|) && i + 4 <= |s| && 1 <= j <= ARITH_MAX && Effective(eff, i, 4)
    requires forall r :: r in FullStage(Arith32, s, eff) ==> r in runs
    ensures SumTried32(s, i, j, runs)
  {
    hide SumTried32, AllExecuted, Tries, Arith32Tries, Effective, FullStage, EffLen, Join16, Join32;
    hide INTERESTING_8, INTERESTING_16, INTERESTING_32;
    TriesOfFour(s[i..i + 4]);
    TriesAreExecuted(Arith32, s, eff, i, runs);
    Arith32Tried(s, i, j, runs);
  }

  lemma Int8IsTried(s: Buf, eff: seq<bool>, i: nat, k: nat, runs: seq<Buf>)
    requires |eff| == EffLen(|s|) && i + 1 <= |s| && k < |INTERESTING_8| && Effective(eff, i, 1)
    requires forall r :: r in FullStage(Int8, s, eff) ==> r in runs
    ensures IntTried8(s, i, INTERESTING_8[k], runs)
  {
    hide IntTried8, AllExecuted, Tries, Int8Tries, Effective, FullStage, EffLen, Join16, Join32;
    hide INTERESTING_8, INTERESTING_16, INTERESTING_32;
    TriesOfOne(s[i..i + 1]);
    TriesAreExecuted(Int8, s, eff, i, runs);
    Int8Tried(s, i, k, runs);
  }

  lemma Int16IsTried(s: Buf, eff: seq<bool>, i: nat, k: nat, runs: seq<Buf>)
    requires |eff| == EffLen(|s|) && i + 2 <= |s| && k < |INTERESTING_16| && Effective(eff, i, 2)
    requires forall r :: r in FullStage(Int16, s, eff) ==> r in runs
    ensures IntTried16(s, i, INTERESTING_16[k], runs)
  {
    hide IntTried16, AllExecuted, Tries, Int16Tries, Effective, FullStage, EffLen, Join16, Join32;
    hide INTERESTING_8, INTERESTING_16, INTERESTING_32;
    TriesOfTwo(s[i..i + 2]);
    TriesAreExecuted(Int16, s, eff, i, runs);
    Int16Tried(s, i, k, runs);
  }

  lemma Int32IsTried(s: Buf, eff: seq<bool>, i: nat, k: nat, runs: seq<Buf>)
    requires |eff| == EffLen(|s|) && i + 4 <= |s| && k < |INTERESTING_32| && Effective(eff, i, 4)
    requires forall r :: r in FullStage(Int32, s, eff) ==> r in runs
    ensures IntTried32(s, i, INTERESTING_32[k], runs)
  {
    hide IntTried32, AllExecuted, Tries, Int32Tries, Effective, FullStage, EffLen, Join16, Join32;
    hide INTERESTING_8, INTERESTING_16, INTERESTING_32;
    TriesOfFour(s[i..i + 4]);
    TriesAreExecuted(Int32, s, eff, i, runs);
    Int32Tried(s, i, k, runs);
  }

  lemma SumsAreTried(s: Buf, eff: seq<bool>, runs: seq<Buf>)
    requires |eff| == EffLen(|s|)
    requires forall r :: r in FullStage(Arith16, s, eff) || r in FullStage(Arith32, s, eff) ==> r in runs
    ensures SumsTried(s, eff, runs)
  {
    hide FullStage, Effective, SumTried16, SumTried32;
    forall i: nat, j: nat | i + 2 <= |s| && 1 <= j <= 35 && Effective(eff, i, 2)
      ensures SumTried16(s, i, j, runs)
    {
      Arith16IsTried(s, eff, i, j, runs);
    }
    forall i: nat, j: nat | i + 4 <= |s| && 1 <= j <= 35 && Effective(eff, i, 4)
      ensures SumTried32(s, i, j, runs)
    {
      Arith32IsTried(s, eff, i, j, runs);
    }
  }

  lemma ShortIntsAreTried(s: Buf, eff: seq<bool>, runs: seq<Buf>)
    requires |eff| == EffLen(|s|) && forall r :: r in FullStage(Int8, s, eff) ==> r in runs
    ensures ShortIntsTried(s, eff, runs)
  {
    hide FullStage, Effective, IntTried8, INTERESTING_8;
    forall i: nat, k: nat | i < |s| && k < |INTERESTING_8| && Effective(eff, i, 1)
      ensures IntTried8(s, i, INTERESTING_8[k], runs)
    {
      Int8IsTried(s, eff, i, k, runs);
    }
  }

  lemma WideIntsAreTried(s: Buf, eff: seq<bool>, runs: seq<Buf>)
    requires |eff| == EffLen(|s|)
    requires forall r :: r in FullStage(Int16, s, eff) || r in FullStage(Int32, s, eff) ==> r in runs
    ensures WideIntsTried(s, eff, runs)
  {
    hide FullStage, Effective, IntTried16, IntTried32, INTERESTING_16, INTERESTING_32;
    forall i: nat, k: nat | i + 2 <= |s| && k < |INTERESTING_16| && Effective(eff, i, 2)
      ensures IntTried16(s, i, INTERESTING_16[k], runs)
    {
      Int16IsTried(s, eff, i, k, runs);
    }
    forall i: nat, k: nat | i + 4 <= |s| && k < |INTERESTING_32| && Effective(eff, i, 4)
      ensures IntTried32(s, i, INTERESTING_32[k], runs)
    {
      Int32IsTried(s, eff, i, k, runs);
    }
  }

  // ---------- The whole phase, up to the tokens ----------

  /** Everything that is not about tokens. Without arithmetic neither sums nor wide interesting values are
      tried. */
  ghost predicate ChangesTried(s: Buf, eff: seq<bool>, arith: bool, runs: seq<Buf>)
    requires |eff| == EffLen(|s|)
  {
    && FlipsTried(s, runs) && WideFlipsTried(s, eff, runs) && ShortIntsTried(s, eff, runs)
    && (arith ==> SumsTried(s, eff, runs) && WideIntsTried(s, eff, runs))
  }

  ghost function WideStages(s: Buf, eff: seq<bool>, arith: bool): seq<Buf>
    requires |eff| == EffLen(|s|)
  {
    if arith then FullStage(Int16, s, eff) + FullStage(Int32, s, eff) else []
  }

  lemma ChangesAreTried(s: Buf, eff: seq<bool>, arith: bool, before: seq<Buf>, after: seq<Buf>)
    requires |s| > 0 && |eff| == EffLen(|s|)
    ensures ChangesTried(s, eff, arith, before + RunsToInt8(s, eff, arith) + WideStages(s, eff, arith) + after)
  {
    hide FlipsTried, WideFlipsTried, ShortIntsTried, SumsTried, WideIntsTried, FlipRuns, WideRuns, FullStage, EffLen;
    var f, w, a, n := FlipRuns(s), WideRuns(s, eff), ArithRuns(s, eff, arith), FullStage(Int8, s, eff);
    var x := WideStages(s, eff, arith);
    var runs := before + RunsToInt8(s, eff, arith) + x + after;
    assert runs == before + f + w + (a + n + x + after);
    FlipsAreTried(s, eff, before, a + n + x + after);
    ShortIntsAreTried(s, eff, runs);
    if arith {
      SumsAreTried(s, eff, runs);
      WideIntsAreTried(s, eff, runs);
    }
  }
}
