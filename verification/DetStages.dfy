/** The deterministic stages over one input, in place on one output buffer. Every stage that is not
    abandoned gives the buffer back unchanged and has executed exactly as often as its counter says. */
module DetStages {
  import opened Limits
  import opened Words
  import opened Redundancy
  import opened DetRuns
  import opened DetCoverage
  import opened DetPhase
  import opened TokenLists
  import opened AutoExtras

  const EFF_MIN_LEN: nat := 128
  const EFF_MAX_PERC: nat := 90

  // ---------- The effector map, as a function of the flipped executions ----------

  /** Flipping byte `i` flags its block: it changed the checksum, or the file is too short to care. */
  ghost predicate Flags(s: Buf, cksum: Buf -> bv32, base: bv32, i: nat)
    requires i < |s|
  {
    |s| < EFF_MIN_LEN || cksum(Inverted(s, i, 1)) != base
  }

  /** Block `b` is flagged by the first `n` flips, or because it holds the first or the last byte. */
  ghost predicate FlaggedBy(s: Buf, cksum: Buf -> bv32, base: bv32, n: nat, b: nat)
    requires n <= |s|
  {
    b == 0 || b == (|s| - 1) / 8 || exists i: nat :: i < n && i / 8 == b && Flags(s, cksum, base, i)
  }

  function CountTrue(f: seq<bool>): (c: nat)
    ensures c <= |f|
  {
    if f == [] then 0 else CountTrue(f[..|f| - 1]) + (if f[|f| - 1] then 1 else 0)
  }

  lemma {:induction false} CountFlag(f: seq<bool>, b: nat)
    requires b < |f|
    ensures CountTrue(f[b := true]) == CountTrue(f) + (if f[b] then 0 else 1)
  {
    var m := |f| - 1;
    if b < m {
      CountFlag(f[..m], b);
      assert f[b := true][..m] == f[..m][b := true];
    } else {
      assert f[b := true][..m] == f[..m];
    }
  }

  lemma {:induction false} CountNone(f: seq<bool>)
    requires forall b :: 0 <= b < |f| ==> !f[b]
    ensures CountTrue(f) == 0
  {
    if f != [] {
      CountNone(f[..|f| - 1]);
    }
  }

  lemma {:induction false} AllCounted(f: seq<bool>)
    requires CountTrue(f) == |f|
    ensures f == seq(|f|, _ => true)
  {
    if f != [] {
      var m := |f| - 1;
      AllCounted(f[..m]);
      assert f == f[..m] + [f[m]];
    }
  }

  ghost function FlaggedMap(s: Buf, cksum: Buf -> bv32, base: bv32, n: nat): (f: seq<bool>)
    requires n <= |s|
    ensures |f| == EffLen(|s|)
  {
    seq(EffLen(|s|), b requires 0 <= b < EffLen(|s|) => FlaggedBy(s, cksum, base, n, b))
  }

  /** A map is flagged completely if more than EFF_MAX_PERC percent of it is. */
  ghost function Dense(f: seq<bool>): (r: seq<bool>)
    requires |f| > 0
    ensures |r| == |f|
  {
    if CountTrue(f) * 100 / |f| > EFF_MAX_PERC then seq(|f|, _ => true) else f
  }

  /** The map used by the later stages: all of it, if more than EFF_MAX_PERC percent is flagged. */
  ghost function EffMap(s: Buf, cksum: Buf -> bv32, base: bv32): (f: seq<bool>)
    requires |s| > 0
    ensures |f| == EffLen(|s|)
  {
    Dense(FlaggedMap(s, cksum, base, |s|))
  }

  /** One more flip flags at most its own block. */
  lemma FlagStep(s: Buf, cksum: Buf -> bv32, base: bv32, i: nat)
    requires i < |s|
    ensures var before, after := FlaggedMap(s, cksum, base, i), FlaggedMap(s, cksum, base, i + 1);
      after == if Flags(s, cksum, base, i) then before[i / 8 := true] else before
  {
    hide Flags;
    var before, after := FlaggedMap(s, cksum, base, i), FlaggedMap(s, cksum, base, i + 1);
    forall b: nat | b < EffLen(|s|) ensures after[b] <==> before[b] || (b == i / 8 && Flags(s, cksum, base, i)) {
      if FlaggedBy(s, cksum, base, i, b) {
        assert FlaggedBy(s, cksum, base, i + 1, b);
      }
    }
  }

  lemma FlagTest(s: Buf, cksum: Buf -> bv32, base: bv32, i: nat)
    requires i < |s|
    ensures Flags(s, cksum, base, i) <==>
      (if |s| >= EFF_MIN_LEN then cksum(Inverted(s, i, 1)) else !base) != base
  {
  }

  /** A byte that the map rules out kept the checksum when flipped. */
  lemma RuledOutIsInert(s: Buf, cksum: Buf -> bv32, base: bv32, i: nat)
    requires i < |s| && !EffMap(s, cksum, base)[i / 8]
    ensures cksum(Inverted(s, i, 1)) == base && |s| >= EFF_MIN_LEN && 8 <= i
  {
    assert !FlaggedBy(s, cksum, base, |s|, i / 8);
    assert !Flags(s, cksum, base, i);
  }

  /** A byte that changed the checksum when flipped is effective, and so are the first and the last. */
  lemma ChangingIsEffective(s: Buf, cksum: Buf -> bv32, base: bv32, i: nat)
    requires i < |s| && (cksum(Inverted(s, i, 1)) != base || i == 0 || i == |s| - 1 || |s| < EFF_MIN_LEN)
    ensures Effective(EffMap(s, cksum, base), i, 1)
  {
    var f := EffMap(s, cksum, base);
    assert f[i / 8] by {
      if cksum(Inverted(s, i, 1)) != base || |s| < EFF_MIN_LEN {
        assert Flags(s, cksum, base, i);
      }
      assert FlaggedBy(s, cksum, base, |s|, i / 8);
    }
  }

  // ---------- Dictionary tokens ----------

  const MAX_DET_EXTRAS: nat := 200

  /** A token fits at `i` and touches an effective block. */
  ghost predicate Fits(s: Buf, eff: seq<bool>, i: nat, t: Buf)
    requires |eff| == EffLen(|s|) && |t| > 0
  {
    i + |t| <= |s| && Effective(eff, i, |t|)
  }

  /** Every execution in `added` is the input with one token that fits written over it. */
  ghost predicate Justified(s: Buf, eff: seq<bool>, ts: seq<Buf>, added: seq<Buf>)
    requires |eff| == EffLen(|s|) && Tokens(ts)
  {
    forall k :: 0 <= k < |added| ==> IsOverwrite(s, eff, ts, added[k])
  }

  ghost predicate IsOverwrite(s: Buf, eff: seq<bool>, ts: seq<Buf>, r: Buf)
    requires |eff| == EffLen(|s|) && Tokens(ts)
  {
    exists i: nat, j: nat :: i < |s| && j < |ts| && Fits(s, eff, i, ts[j]) && r == Put(s, i, ts[j])
  }

  /** Each of the first `n` tokens that fits at `i` was executed there, or is what the input holds. */
  ghost predicate CoveredAt(s: Buf, eff: seq<bool>, i: nat, ts: seq<Buf>, n: nat, added: seq<Buf>)
    requires |eff| == EffLen(|s|) && Tokens(ts) && n <= |ts|
  {
    forall k :: 0 <= k < n && Fits(s, eff, i, ts[k]) ==> Put(s, i, ts[k]) in added || Put(s, i, ts[k]) == s
  }

  lemma CoveredMore(s: Buf, eff: seq<bool>, i: nat, ts: seq<Buf>, n: nat, added: seq<Buf>, more: seq<Buf>)
    requires |eff| == EffLen(|s|) && Tokens(ts) && n <= |ts|
    requires CoveredAt(s, eff, i, ts, n, added)
    ensures CoveredAt(s, eff, i, ts, n, added + more)
  {
  }

  /** Over a shorter token at the same place, a longer one gives what it gives over the input. */
  lemma LongerOverwrites(s: Buf, out: Buf, i: nat, last: nat, t: Buf)
    requires |out| == |s| && last <= |t| && i + |t| <= |s|
    requires forall k :: 0 <= k < |s| && !(i <= k < i + last) ==> out[k] == s[k]
    ensures Put(out, i, t) == Put(s, i, t)
    ensures out[i..i + |t|] == t ==> out == Put(s, i, t)
  {
    if out[i..i + |t|] == t {
      assert out == out[..i] + out[i..i + |t|] + out[i + |t|..];
    }
  }

  ghost function InsertsAt(s: Buf, ts: seq<Buf>, i: nat, n: nat): seq<Buf>
    requires i <= |s| && n <= |ts|
  {
    if n == 0 then []
    else InsertsAt(s, ts, i, n - 1) + Unless(|s| + |ts[n - 1]| > MAX_FILE, Inserted(s, i, ts[n - 1]))
  }

  /** Every token at each of the first `n` positions, unless the result is too long. */
  ghost function InsertRuns(s: Buf, ts: seq<Buf>, n: nat): seq<Buf>
    requires n <= |s| + 1
  {
    if n == 0 then [] else InsertRuns(s, ts, n - 1) + InsertsAt(s, ts, n - 1, |ts|)
  }

  /** Every token was inserted at every position where the result is not too long. */
  ghost predicate InsertsTried(s: Buf, ts: seq<Buf>, runs: seq<Buf>) {
    forall i: nat, j: nat :: i <= |s| && j < |ts| && |s| + |ts[j]| <= 0x10_0000 ==> Inserted(s, i, ts[j]) in runs
  }

  lemma {:induction false} InsertsAtHave(s: Buf, ts: seq<Buf>, i: nat, n: nat, j: nat)
    requires i <= |s| && j < n <= |ts| && |s| + |ts[j]| <= MAX_FILE
    ensures Inserted(s, i, ts[j]) in InsertsAt(s, ts, i, n)
  {
    hide Inserted;
    if j < n - 1 { InsertsAtHave(s, ts, i, n - 1, j); }
  }

  lemma {:induction false} InsertRunsHave(s: Buf, ts: seq<Buf>, n: nat, i: nat, j: nat)
    requires i < n <= |s| + 1 && j < |ts| && |s| + |ts[j]| <= MAX_FILE
    ensures Inserted(s, i, ts[j]) in InsertRuns(s, ts, n)
  {
    hide Inserted, InsertsAt;
    if i < n - 1 { InsertRunsHave(s, ts, n - 1, i, j); } else { InsertsAtHave(s, ts, i, |ts|, j); }
  }

  lemma InsertsAreTried(s: Buf, ts: seq<Buf>, runs: seq<Buf>)
    requires ts != [] ==> forall r :: r in InsertRuns(s, ts, |s| + 1) ==> r in runs
    ensures InsertsTried(s, ts, runs)
  {
    hide Inserted, InsertRuns;
    forall i: nat, j: nat | i <= |s| && j < |ts| && |s| + |ts[j]| <= 0x10_0000 ensures Inserted(s, i, ts[j]) in runs {
      InsertRunsHave(s, ts, |s| + 1, i, j);
    }
  }

  /** `n` positions with `c` executions planned at each. */
  function Planned(c: int, n: int): int {
    c * n
  }

  lemma SlotsLeft(c: int, n: int)
    ensures Planned(c, n - 1) == Planned(c, n) - c && Planned(c, 0) == 0
  {
  }

  lemma PutAllMore(s: Buf, i: nat, w: nat, ts: seq<Buf>, more: seq<Buf>)
    requires i + w <= |s| && AllWide(ts, w) && AllWide(more, w)
    ensures AllWide(ts + more, w)
    ensures PutAll(s, i, w, ts + more) == PutAll(s, i, w, ts) + PutAll(s, i, w, more)
  {
    hide Put;
  }

  /** A sum, a difference or an interesting value at an effective byte, other than the byte itself. */
  ghost predicate IsByteValue(s: Buf, eff: seq<bool>, i: nat, v: bv8)
    requires |eff| == EffLen(|s|)
  {
    i < |s| && Effective(eff, i, 1) && v != s[i] && (v in INTERESTING_8 || exists j :: Reached(s[i], v, j))
  }

  ghost predicate ByteValuesTried(s: Buf, eff: seq<bool>, runs: seq<Buf>)
    requires |eff| == EffLen(|s|)
  {
    forall i: nat, v: bv8 :: IsByteValue(s, eff, i, v) ==> s[i := v] in runs
  }

  lemma AllByteValuesTried(s: Buf, eff: seq<bool>, before: seq<Buf>, after: seq<Buf>)
    requires |s| > 0 && |eff| == EffLen(|s|)
    ensures ByteValuesTried(s, eff, before + RunsToInt8(s, eff, true) + after)
  {
    forall i: nat, v: bv8 | IsByteValue(s, eff, i, v)
      ensures s[i := v] in before + RunsToInt8(s, eff, true) + after
    {
      hide RunsToInt8, Effective, INTERESTING_8, Reached;
      NothingLost(s, eff, i, v);
    }
  }

  /** Every token that fits somewhere was executed there, or is what the input holds there. */
  ghost predicate TokensTried(s: Buf, eff: seq<bool>, ts: seq<Buf>, runs: seq<Buf>)
    requires |eff| == EffLen(|s|) && Tokens(ts)
  {
    forall i: nat :: i < |s| ==> CoveredAt(s, eff, i, ts, |ts|, runs)
  }

  lemma TokensStayTried(s: Buf, eff: seq<bool>, ts: seq<Buf>, before: seq<Buf>, added: seq<Buf>, after: seq<Buf>)
    requires |eff| == EffLen(|s|) && Tokens(ts)
    requires forall i: nat :: i < |s| ==> CoveredAt(s, eff, i, ts, |ts|, added)
    ensures TokensTried(s, eff, ts, before + added + after)
  {
    forall i: nat | i < |s| ensures CoveredAt(s, eff, i, ts, |ts|, before + added + after) {
      assert CoveredAt(s, eff, i, ts, |ts|, added);
    }
  }

  /** The checksums with the last bit of each byte flipped. */
  ghost function FlipSums(s: Buf, cksum: Buf -> bv32): (r: seq<bv32>)
    ensures |r| == |s|
  {
    seq(|s|, i requires 0 <= i < |s| => cksum(FlipBits(s, 8 * i + 7, 1)))
  }

  lemma FlipSum(s: Buf, cksum: Buf -> bv32, i: nat)
    requires i < |s|
    ensures FlipSums(s, cksum)[i] == cksum(FlipBits(s, 8 * i + 7, 1))
  {
  }

  /** The tokens that the flips show in the input. */
  ghost function Stretches(s: Buf, cksum: Buf -> bv32, usual: bv32): seq<Buf> {
    StretchTokens(s, FlipSums(s, cksum), usual, |s|)
  }

  /** The state before a stage turns to a position. */
  datatype Mark = Mark(runs: seq<Buf>, cur: int, max: int)

  class DetFuzzer {
    const inBuf: array<bv8>
    const outBuf: array<bv8>
    const cksum: Buf -> bv32                  // the checksum of the trace of an execution
    const execCksum: bv32                     // that of the unmodified input
    var stageCur: int
    var stageMax: int
    ghost var runs: seq<Buf>                  // the buffers executed so far

    ghost predicate Same()
      reads inBuf, outBuf
    {
      inBuf != outBuf && inBuf.Length > 0 && outBuf[..] == inBuf[..]
    }

    /** The two buffers agree outside the `w` bytes from `i` on. */
    ghost predicate SameOutside(i: nat, w: nat)
      reads inBuf, outBuf
    {
      inBuf != outBuf && inBuf.Length == outBuf.Length && i + w <= inBuf.Length &&
      forall k :: 0 <= k < inBuf.Length && !(i <= k < i + w) ==> outBuf[k] == inBuf[k]
    }

    constructor (data: Buf, cksum: Buf -> bv32)
      requires |data| > 0
      ensures Same() && inBuf[..] == data && this.cksum == cksum && execCksum == cksum(data) && runs == []
      ensures fresh(inBuf) && fresh(outBuf)
    {
      inBuf := new bv8[|data|](i requires 0 <= i < |data| => data[i]);
      outBuf := new bv8[|data|](i requires 0 <= i < |data| => data[i]);
      this.cksum, execCksum := cksum, cksum(data);
      stageCur, stageMax, runs := 0, 0, [];
    }

    /** One execution; it may be the one after which the entry is abandoned. */
    method CommonFuzzStuff(buf: Buf) returns (abandon: bool)
      modifies `runs
      ensures runs == old(runs) + [buf]
    {
      runs := runs + [buf];
      abandon := *;
    }

    // ---------- Walking flips ----------

    method FlipBit(b: nat)
      requires b < 8 * outBuf.Length
      modifies outBuf
      ensures outBuf[..] == FlipBits(old(outBuf[..]), b, 1)
    {
      outBuf[b / 8] := Xor8(outBuf[b / 8], HighBit(b % 8));
    }

    method FlipRun(b: nat, n: nat)
      requires b + n <= 8 * outBuf.Length
      modifies outBuf
      ensures outBuf[..] == FlipBits(old(outBuf[..]), b, n)
    {
      hide HighBit, Xor8;
      for k := 0 to n
        invariant FlipBits(outBuf[..], b + k, n - k) == FlipBits(old(outBuf[..]), b, n)
      {
        FlipBit(b + k);
      }
    }

    /** One execution with `n` bits flipped, and the checksum of its trace. */
    method TryFlip(b: nat, n: nat) returns (abandon: bool, ck: bv32)
      requires Same() && b + n <= 8 * inBuf.Length
      modifies outBuf, `runs
      ensures !abandon ==> Same() && runs == old(runs) + [FlipBits(inBuf[..], b, n)]
      ensures ck == cksum(FlipBits(inBuf[..], b, n))
    {
      hide FlipBits;
      FlipRun(b, n);
      ck := cksum(outBuf[..]);
      abandon := CommonFuzzStuff(outBuf[..]);
      if abandon { return; }
      FlipBitsTwice(inBuf[..], b, n);
      FlipRun(b, n);
    }

    /** Two or four walking bits. */
    method WalkingBits(n: nat) returns (abandon: bool)
      requires Same() && IsWalk(n)
      modifies outBuf, `stageCur, `stageMax, `runs
      ensures !abandon ==> Same() && stageCur == stageMax == |runs| - |old(runs)|
      ensures !abandon ==> runs == old(runs) + FlipWalk(inBuf[..], n)
    {
      hide FlipBits;
      ghost var s := inBuf[..];
      stageCur, stageMax := 0, 8 * outBuf.Length + 1 - n;
      while stageCur < stageMax
        invariant Same() && inBuf[..] == s && 0 <= stageCur <= stageMax == |FlipWalk(s, n)|
        invariant runs == old(runs) + FlipWalk(s, n)[..stageCur]
        decreases stageMax - stageCur
      {
        var ck;
        abandon, ck := TryFlip(stageCur, n);
        if abandon { return; }
        stageCur := stageCur + 1;
        assert FlipWalk(s, n)[..stageCur] == FlipWalk(s, n)[..stageCur - 1] + [FlipBits(s, stageCur - 1, n)];
      }
      abandon := false;
    }

    /** What the token search knows before bit `b`. */
    ghost predicate Searching(s: Buf, b: nat, p: nat, len: nat, prev: bv32, collect: Buf, base: seq<Buf>,
                              offered: seq<Buf>)
      requires b <= 8 * |s|
    {
      if b == 8 * |s| then offered == base + StretchTokens(s, FlipSums(s, cksum), execCksum, |s|)
      else
        && Collecting(s, FlipSums(s, cksum), execCksum, b / 8, p, len, prev, collect)
        && p <= |s| && offered == base + StretchTokens(s, FlipSums(s, cksum), execCksum, p)
    }

    /** One walking bit. The last bit of every byte also serves to find tokens. */
    method WalkingBit(dict: AutoDictionary) returns (abandon: bool)
      requires Same() && dict.Valid()
      modifies outBuf, `stageCur, `stageMax, `runs, dict
      ensures dict.Valid()
      ensures !abandon ==> Same() && stageCur == stageMax == |runs| - |old(runs)|
      ensures !abandon ==> runs == old(runs) + FlipWalk(inBuf[..], 1)
      ensures !abandon ==> dict.offered == old(dict.offered) + Stretches(inBuf[..], cksum, execCksum)
    {
      hide FlipBits, FlipSums, Collecting, StretchTokens, dict.Valid;
      ghost var s, base := inBuf[..], dict.offered;
      var collect := new bv8[MAX_AUTO_EXTRA](_ => 0);
      var len, prev := 0, execCksum;
      ghost var p := 0;
      stageCur, stageMax := 0, 8 * outBuf.Length;
      NoSearch(s, collect[..]);
      while stageCur < stageMax
        invariant Same() && inBuf[..] == s && 0 <= stageCur <= stageMax == 8 * |s|
        invariant runs == old(runs) + FlipWalk(s, 1)[..stageCur]
        invariant dict.Valid() && fresh(collect) && collect.Length == MAX_AUTO_EXTRA
        invariant Searching(s, stageCur, p, len, prev, collect[..], base, dict.offered)
        decreases stageMax - stageCur
      {
        var ck;
        abandon, ck := TryFlip(stageCur, 1);
        if abandon { return; }
        if stageCur % 8 == 7 {
          FlipSum(s, cksum, stageCur / 8);
          len, prev, p := dict.CollectByte(
            outBuf[..], stageCur / 8, ck, execCksum, collect, len, prev, FlipSums(s, cksum), p, base);
        }
        stageCur := stageCur + 1;
        assert FlipWalk(s, 1)[..stageCur] == FlipWalk(s, 1)[..stageCur - 1] + [FlipBits(s, stageCur - 1, 1)];
      }
      abandon := false;
    }

    lemma NoSearch(s: Buf, collect: Buf)
      requires |s| > 0 && |collect| == MAX_AUTO_EXTRA
      ensures forall base: seq<Buf> :: Searching(s, 0, 0, 0, execCksum, collect, base, base)
    {
    }

    method InvertBytes(i: nat, w: nat)
      requires i + w <= outBuf.Length
      modifies outBuf
      ensures outBuf[..] == Inverted(old(outBuf[..]), i, w)
    {
      for k := i to i + w
        invariant forall j :: 0 <= j < outBuf.Length ==>
          outBuf[j] == if i <= j < k then Xor8(old(outBuf[j]), 0xff) else old(outBuf[j])
      {
        outBuf[k] := Xor8(outBuf[k], 0xff);
      }
    }

    lemma InvertedTwice(s: Buf, i: nat, w: nat)
      requires i + w <= |s|
      ensures Inverted(Inverted(s, i, w), i, w) == s
    {
      hide Xor8;
      forall k: nat | k < |s| ensures Inverted(Inverted(s, i, w), i, w)[k] == s[k] {
        XorLaws(s[k], 0xff, 0);
      }
    }

    /** The first and the last block are flagged before any flip. */
    method NewEffMap() returns (eff: array<bool>, effCnt: nat)
      requires outBuf.Length == inBuf.Length > 0
      ensures fresh(eff) && eff[..] == FlaggedMap(inBuf[..], cksum, execCksum, 0)
      ensures effCnt == CountTrue(eff[..])
    {
      var len := outBuf.Length;
      eff := new bool[EffLen(len)](_ => false);
      effCnt := 1;
      CountNone(eff[..]);
      CountFlag(eff[..], 0);
      ghost var none := eff[..];
      eff[0] := true;
      assert eff[..] == none[0 := true];
      if (len - 1) / 8 != 0 {
        ghost var one := eff[..];
        CountFlag(one, (len - 1) / 8);
        eff[(len - 1) / 8] := true;
        assert eff[..] == one[(len - 1) / 8 := true];
        effCnt := effCnt + 1;
      }
    }

    /** Walking bytes, which also find out which blocks matter. */
    method WalkingBytes() returns (abandon: bool, eff: array<bool>)
      requires Same()
      modifies outBuf, `stageCur, `stageMax, `runs
      ensures fresh(eff)
      ensures !abandon ==> Same() && stageCur == stageMax == |runs| - |old(runs)|
      ensures !abandon ==> runs == old(runs) + ByteWalk(inBuf[..])
      ensures !abandon ==> eff[..] == EffMap(inBuf[..], cksum, execCksum)
    {
      hide Inverted, FlaggedMap, CountTrue, Dense;
      ghost var s := inBuf[..];
      var effCnt;
      eff, effCnt := NewEffMap();
      stageCur, stageMax := 0, outBuf.Length;
      while stageCur < stageMax
        invariant Same() && inBuf[..] == s && 0 <= stageCur <= stageMax == |s|
        invariant fresh(eff) && eff[..] == FlaggedMap(s, cksum, execCksum, stageCur)
        invariant effCnt == CountTrue(eff[..])
        invariant runs == old(runs) + ByteWalk(s)[..stageCur]
        decreases stageMax - stageCur
      {
        InvertBytes(stageCur, 1);
        abandon := CommonFuzzStuff(outBuf[..]);
        if abandon { return; }
        effCnt := FlagBlock(eff, effCnt, stageCur, s);
        InvertedTwice(s, stageCur, 1);
        InvertBytes(stageCur, 1);
        stageCur := stageCur + 1;
        assert ByteWalk(s)[..stageCur] == ByteWalk(s)[..stageCur - 1] + [Inverted(s, stageCur - 1, 1)];
      }
      Densify(eff, effCnt);
      abandon := false;
    }

    /** A map that is dense enough is flagged completely. */
    method Densify(eff: array<bool>, effCnt: nat)
      requires eff.Length > 0 && effCnt == CountTrue(eff[..])
      modifies eff
      ensures eff[..] == Dense(old(eff[..]))
    {
      if effCnt != eff.Length && effCnt * 100 / eff.Length > EFF_MAX_PERC {
        for b := 0 to eff.Length
          invariant forall k :: 0 <= k < b ==> eff[k]
        {
          eff[b] := true;
        }
      } else if effCnt == eff.Length {
        AllCounted(eff[..]);
      }
    }

    /** After flipping byte `i`: flag its block if the checksum moved. */
    method FlagBlock(eff: array<bool>, effCnt: nat, i: nat, ghost s: Buf) returns (cnt: nat)
      requires i < |s| == outBuf.Length && outBuf[..] == Inverted(s, i, 1)
      requires eff[..] == FlaggedMap(s, cksum, execCksum, i) && effCnt == CountTrue(eff[..])
      modifies eff
      ensures eff[..] == FlaggedMap(s, cksum, execCksum, i + 1) && cnt == CountTrue(eff[..])
    {
      hide Inverted, FlaggedMap, CountTrue, Flags;
      cnt := effCnt;
      ghost var before := eff[..];
      FlagStep(s, cksum, execCksum, i);
      if !eff[i / 8] {
        var c := if outBuf.Length >= EFF_MIN_LEN then cksum(outBuf[..]) else !execCksum;
        FlagTest(s, cksum, execCksum, i);
        if c != execCksum {
          CountFlag(eff[..], i / 8);
          eff[i / 8] := true;
          assert eff[..] == before[i / 8 := true];
          cnt := cnt + 1;
        }
      } else {
        assert before[i / 8 := true] == before;
      }
    }

    /** Whether one of the blocks under `w` bytes from `i` on is flagged. */
    method TestEffective(eff: array<bool>, i: nat, w: nat) returns (yes: bool)
      requires w > 0 && EffLen(i + w) <= eff.Length
      ensures yes == Effective(eff[..], i, w)
    {
      for b := i / 8 to (i + w - 1) / 8 + 1
        invariant forall k: nat :: i <= k < i + w && k / 8 < b ==> !eff[k / 8]
      {
        if eff[b] {
          ghost var k := if 8 * b >= i then 8 * b else i;
          assert k / 8 == b && eff[..][k / 8];
          return true;
        }
      }
      return false;
    }

    // ---------- Wide flips ----------

    /** Two or four walking bytes, where the map allows. */
    method WalkingWords(eff: array<bool>, w: nat) returns (abandon: bool)
      requires Same() && eff.Length == EffLen(inBuf.Length) && 2 <= w <= inBuf.Length
      modifies outBuf, `stageCur, `stageMax, `runs
      ensures !abandon ==> Same() && stageCur == stageMax == |runs| - |old(runs)|
      ensures !abandon ==> runs == old(runs) + WideFlips(inBuf[..], eff[..], w, Places(inBuf.Length, w))
    {
      hide Inverted, Effective, EffLen;
      ghost var s, f := inBuf[..], eff[..];
      var n := outBuf.Length - w + 1;
      stageCur, stageMax := 0, n;
      for i := 0 to n
        invariant Same() && eff[..] == f
        invariant stageMax - stageCur == n - i && stageCur == |WideFlips(s, f, w, i)|
        invariant runs == old(runs) + WideFlips(s, f, w, i)
      {
        BlocksOfPrefix(i + w, |s|);
        var touched := TestEffective(eff, i, w);
        if !touched {
          stageMax := stageMax - 1;
          continue;
        }
        InvertBytes(i, w);
        abandon := CommonFuzzStuff(outBuf[..]);
        if abandon { return; }
        stageCur := stageCur + 1;
        InvertedTwice(s, i, w);
        InvertBytes(i, w);
      }
      abandon := false;
    }

    lemma BlocksOfPrefix(m: nat, n: nat)
      requires m <= n
      ensures EffLen(m) <= EffLen(n)
    {
    }

    // ---------- Values tried at one position ----------

    /** Writes the bytes `b` at `i`. */
    method Store(i: nat, b: Buf)
      requires i + |b| <= outBuf.Length
      modifies outBuf
      ensures outBuf[..] == Put(old(outBuf[..]), i, b)
    {
      for k := 0 to |b|
        invariant forall j :: 0 <= j < outBuf.Length ==>
          outBuf[j] == if i <= j < i + k then b[j - i] else old(outBuf[j])
      {
        outBuf[i + k] := b[k];
      }
    }

    /** At position `i`: the candidates `ts`, out of `planned` ones, have been executed since `from`,
        and the buffers still agree elsewhere. */
    ghost predicate Progress(i: nat, w: nat, from: Mark, ts: seq<Buf>, planned: nat)
      reads this, inBuf, outBuf
    {
      && SameOutside(i, w) && AllWide(ts, w)
      && runs == from.runs + PutAll(inBuf[..], i, w, ts)
      && stageCur == from.cur + |ts| && stageMax == from.max - planned + |ts|
    }

    /** Writes a candidate and executes it, unless it is skipped. */
    method Attempt(i: nat, b: Buf, skip: bool, ghost from: Mark, ghost ts: seq<Buf>, ghost planned: nat)
      returns (abandon: bool)
      requires Progress(i, |b|, from, ts, planned)
      modifies outBuf, `stageCur, `stageMax, `runs
      ensures !abandon ==> Progress(i, |b|, from, ts + Unless(skip, b), planned + 1)
    {
      PutAllMore(inBuf[..], i, |b|, ts, Unless(skip, b));
      if !skip {
        Store(i, b);
        assert outBuf[..] == Put(inBuf[..], i, b);
        abandon := CommonFuzzStuff(outBuf[..]);
        if abandon { return; }
        stageCur := stageCur + 1;
      } else {
        stageMax := stageMax - 1;
      }
      abandon := false;
    }

    /** Writes back the original bytes. */
    method Restore(i: nat, orig: Buf, ghost from: Mark, ghost ts: seq<Buf>, ghost planned: nat)
      requires Progress(i, |orig|, from, ts, planned)
      requires inBuf.Length > 0 && orig == inBuf[i..i + |orig|]
      modifies outBuf
      ensures Same() && Progress(i, |orig|, from, ts, planned)
    {
      hide PutAll;
      Store(i, orig);
    }

    lemma Begin(i: nat, w: nat)
      requires Same() && i + w <= inBuf.Length
      ensures Progress(i, w, Mark(runs, stageCur, stageMax), [], 0)
    {
    }

    /** What a stage owes at one position: the buffer back, its tries executed, its counters right. */
    ghost predicate Tried(op: Op, i: nat, from: Mark)
      reads this, inBuf, outBuf
    {
      && Same() && i + Width(op) <= inBuf.Length
      && Progress(i, Width(op), from, Tries(op, inBuf[i..i + Width(op)]), Slots(op))
    }

    method Arith8At(i: nat) returns (abandon: bool)
      requires Same() && i < inBuf.Length
      modifies outBuf, `stageCur, `stageMax, `runs
      ensures !abandon ==> Tried(Arith8, i, Mark(old(runs), old(stageCur), old(stageMax)))
    {
      hide CouldBeBitflip, Plus, Minus, SkipArith8, Xor8, Progress, Unless, Bytes8, Arith8Tries, Tries, Slots;
      ghost var bytes := inBuf[i..i + 1];
      var orig := outBuf[i];
      ghost var from, ts: seq<Buf> := Mark(runs, stageCur, stageMax), [];
      Arith8None(orig);
      Begin(i, 1);
      TriesOfOne(bytes);
      BytesOfWord(bytes);
      assert inBuf != outBuf && outBuf[..] == inBuf[..];
      assert Bytes8(orig) == bytes;
      hide Same;
      for j := 1 to ARITH_MAX + 1
        invariant Same() && inBuf[i..i + 1] == bytes
        invariant ts == Arith8Tries(orig, j - 1) && Progress(i, 1, from, ts, 2 * (j - 1))
      {
        Arith8More(orig, j);
        abandon, ts := Sum8At(i, orig, Plus(orig, j), from, ts, 2 * (j - 1));
        if abandon { return; }
        abandon, ts := Sum8At(i, orig, Minus(orig, j), from, ts, 2 * (j - 1) + 1);
        if abandon { return; }
        Restore(i, Bytes8(orig), from, ts, 2 * j);
      }
      abandon := false;
    }

    /** A sum or difference is executed unless a bit flip could give it. */
    method Sum8At(i: nat, orig: bv8, v: bv8, ghost from: Mark, ghost ts: seq<Buf>, ghost planned: nat)
      returns (abandon: bool, ghost tried: seq<Buf>)
      requires Progress(i, 1, from, ts, planned)
      modifies outBuf, `stageCur, `stageMax, `runs
      ensures tried == ts + Unless(SkipArith8(orig, v), Bytes8(v))
      ensures !abandon ==> Progress(i, 1, from, tried, planned + 1)
    {
      hide CouldBeBitflip, Progress, Unless, Bytes8, Xor8;
      var skip := TestBitflip(Xor8(orig, v) as bv32);
      tried := ts + Unless(skip, Bytes8(v));
      abandon := Attempt(i, Bytes8(v), skip, from, ts, planned);
    }

    method Int8At(i: nat) returns (abandon: bool)
      requires Same() && i < inBuf.Length
      modifies outBuf, `stageCur, `stageMax, `runs
      ensures !abandon ==> Tried(Int8, i, Mark(old(runs), old(stageCur), old(stageMax)))
    {
      hide CouldBeBitflip, CouldBeArith, INTERESTING_8, Xor8, Progress, Unless, Bytes8, Int8Tries, Tries, Slots;
      ghost var bytes := inBuf[i..i + 1];
      var orig := outBuf[i];
      ghost var from, ts: seq<Buf> := Mark(runs, stageCur, stageMax), [];
      Int8None(orig);
      Begin(i, 1);
      TriesOfOne(bytes);
      BytesOfWord(bytes);
      assert inBuf != outBuf && outBuf[..] == inBuf[..];
      assert Bytes8(orig) == bytes;
      hide Same;
      for j := 0 to |INTERESTING_8|
        invariant Same() && inBuf[i..i + 1] == bytes
        invariant ts == Int8Tries(orig, j) && Progress(i, 1, from, ts, j)
      {
        Int8More(orig, j);
        var v := INTERESTING_8[j];
        var skip := TestBitflip(Xor8(orig, v) as bv32);
        if !skip { skip := TestArith(orig as bv32, v as bv32, 1); }
        abandon := Attempt(i, Bytes8(v), skip, from, ts, j);
        if abandon { return; }
        ts := ts + Unless(skip, Bytes8(v));
        Restore(i, Bytes8(orig), from, ts, j + 1);
      }
      abandon := false;
    }

    /** What the 16-bit arithmetic stage starts from at one position. */
    lemma StartArith16(i: nat)
      requires Same() && i + 2 <= inBuf.Length
      ensures Progress(i, 2, Mark(runs, stageCur, stageMax), [], 0)
      ensures var bytes, orig := inBuf[i..i + 2], Join16(outBuf[i], outBuf[i + 1]);
        && inBuf != outBuf && Bytes16(orig) == bytes && Arith16Tries(orig, 0) == []
        && Width(Arith16) == 2 && Tries(Arith16, bytes) == Arith16Tries(orig, ARITH_MAX) &&
          Slots(Arith16) == 4 * ARITH_MAX
    {
      hide Progress, Bytes16, Arith16Tries, Tries, Slots, Join16;
      ghost var bytes := inBuf[i..i + 2];
      assert outBuf[..] == inBuf[..];
      assert bytes[0] == outBuf[i] && bytes[1] == outBuf[i + 1];
      Arith16None(Join16(outBuf[i], outBuf[i + 1]));
      Begin(i, 2);
      TriesOfTwo(bytes);
      BytesOfWord(bytes);
    }

    method Arith16At(i: nat) returns (abandon: bool)
      requires Same() && i + 2 <= inBuf.Length
      modifies outBuf, `stageCur, `stageMax, `runs
      ensures !abandon ==> Tried(Arith16, i, Mark(old(runs), old(stageCur), old(stageMax)))
    {
      hide Progress, Bytes16, Arith16Tries, Tries, Slots, Join16, Width;
      StartArith16(i);
      ghost var bytes := inBuf[i..i + 2];
      var orig := Join16(outBuf[i], outBuf[i + 1]);
      ghost var from, ts: seq<Buf> := Mark(runs, stageCur, stageMax), [];
      hide Same;
      for j := 1 to ARITH_MAX + 1
        invariant Same() && inBuf[i..i + 2] == bytes
        invariant ts == Arith16Tries(orig, j - 1) && Progress(i, 2, from, ts, 4 * (j - 1))
      {
        abandon, ts := Arith16Round(i, j, orig, from, ts, 4 * (j - 1));
        if abandon { return; }
      }
      abandon := false;
    }

    /** The four candidates for one `j`. */
    method Arith16Round(i: nat, j: nat, orig: bv16, ghost from: Mark, ghost ts: seq<Buf>, ghost planned: nat)
      returns (abandon: bool, ghost tried: seq<Buf>)
      requires 1 <= j <= ARITH_MAX && ts == Arith16Tries(orig, j - 1) && Progress(i, 2, from, ts, planned)
      requires inBuf != outBuf && i + 2 <= inBuf.Length && Bytes16(orig) == inBuf[i..i + 2]
      modifies outBuf, `stageCur, `stageMax, `runs
      ensures !abandon ==> Same()
      ensures !abandon ==> tried == Arith16Tries(orig, j) && Progress(i, 2, from, tried, planned + 4)
    {
      hide Same, Progress, Unless, Bytes16, Arith16Tries, Sum16, Diff16, SwapSum16, SwapDiff16, SkipSum16, SkipDiff16;
      Arith16More(orig, j);
      abandon, tried := Sum16At(i, j, orig, Sum16(orig, j), orig & 0xff, from, ts, planned);
      if abandon { return; }
      abandon, tried := Diff16At(i, j, orig, Diff16(orig, j), orig & 0xff, from, tried, planned + 1);
      if abandon { return; }
      abandon, tried := Sum16At(i, j, orig, SwapSum16(orig, j), orig >> 8, from, tried, planned + 2);
      if abandon { return; }
      abandon, tried := Diff16At(i, j, orig, SwapDiff16(orig, j), orig >> 8, from, tried, planned + 3);
      if abandon { return; }
      Restore(i, Bytes16(orig), from, tried, planned + 4);
    }

    /** A sum is executed if it carries out of the low byte and no bit flip could give it. */
    method Sum16At(i: nat, j: nat, orig: bv16, v: bv16, low: bv16, ghost from: Mark, ghost ts: seq<Buf>,
                   ghost planned: nat)
      returns (abandon: bool, ghost tried: seq<Buf>)
      requires j <= ARITH_MAX && Progress(i, 2, from, ts, planned)
      modifies outBuf, `stageCur, `stageMax, `runs
      ensures tried == ts + Unless(SkipSum16(orig, v, low, j), Bytes16(v))
      ensures !abandon ==> Progress(i, 2, from, tried, planned + 1)
    {
      hide CouldBeBitflip, Step16, Progress, Unless, Bytes16;
      var r := TestBitflip((orig ^ v) as bv32);
      var skip := !(low + Step16(j) > 0xff && !r);
      tried := ts + Unless(skip, Bytes16(v));
      abandon := Attempt(i, Bytes16(v), skip, from, ts, planned);
    }

    /** A difference is executed if it borrows from the high byte and no bit flip could give it. */
    method Diff16At(i: nat, j: nat, orig: bv16, v: bv16, low: bv16, ghost from: Mark, ghost ts: seq<Buf>,
                    ghost planned: nat)
      returns (abandon: bool, ghost tried: seq<Buf>)
      requires j <= ARITH_MAX && Progress(i, 2, from, ts, planned)
      modifies outBuf, `stageCur, `stageMax, `runs
      ensures tried == ts + Unless(SkipDiff16(orig, v, low, j), Bytes16(v))
      ensures !abandon ==> Progress(i, 2, from, tried, planned + 1)
    {
      hide CouldBeBitflip, Step16, Progress, Unless, Bytes16;
      var r := TestBitflip((orig ^ v) as bv32);
      var skip := !(low < Step16(j) && !r);
      tried := ts + Unless(skip, Bytes16(v));
      abandon := Attempt(i, Bytes16(v), skip, from, ts, planned);
    }

    method Arith32At(i: nat) returns (abandon: bool)
      requires Same() && i + 4 <= inBuf.Length
      modifies outBuf, `stageCur, `stageMax, `runs
      ensures !abandon ==> Tried(Arith32, i, Mark(old(runs), old(stageCur), old(stageMax)))
    {
      hide CouldBeBitflip, Swap32, Step32, Progress, Unless, Bytes32, Arith32Tries, Tries, Slots, Join32;
      hide Sum32, Diff32, SwapSum32, SwapDiff32, SkipSum32, SkipDiff32;
      ghost var bytes := inBuf[i..i + 4];
      var orig := Join32(outBuf[i], outBuf[i + 1], outBuf[i + 2], outBuf[i + 3]);
      ghost var from, ts: seq<Buf> := Mark(runs, stageCur, stageMax), [];
      Arith32None(orig);
      Begin(i, 4);
      TriesOfFour(bytes);
      BytesOfWord(bytes);
      assert inBuf != outBuf && outBuf[..] == inBuf[..];
      assert Bytes32(orig) == bytes;
      hide Same;
      for j := 1 to ARITH_MAX + 1
        invariant Same() && inBuf[i..i + 4] == bytes
        invariant ts == Arith32Tries(orig, j - 1) && Progress(i, 4, from, ts, 4 * (j - 1))
      {
        abandon, ts := Arith32Round(i, j, orig, from, ts, 4 * (j - 1));
        if abandon { return; }
      }
      abandon := false;
    }

    method Arith32Round(i: nat, j: nat, orig: bv32, ghost from: Mark, ghost ts: seq<Buf>, ghost planned: nat)
      returns (abandon: bool, ghost tried: seq<Buf>)
      requires 1 <= j <= ARITH_MAX && ts == Arith32Tries(orig, j - 1) && Progress(i, 4, from, ts, planned)
      requires inBuf != outBuf && i + 4 <= inBuf.Length && Bytes32(orig) == inBuf[i..i + 4]
      modifies outBuf, `stageCur, `stageMax, `runs
      ensures !abandon ==> Same()
      ensures !abandon ==> tried == Arith32Tries(orig, j) && Progress(i, 4, from, tried, planned + 4)
    {
      hide Same, Progress, Unless, Bytes32, Arith32Tries, Sum32, Diff32, SwapSum32, SwapDiff32, SkipSum32, SkipDiff32,
        Swap32;
      Arith32More(orig, j);
      abandon, tried := Sum32At(i, j, orig, Sum32(orig, j), orig & 0xffff, from, ts, planned);
      if abandon { return; }
      abandon, tried := Diff32At(i, j, orig, Diff32(orig, j), orig & 0xffff, from, tried, planned + 1);
      if abandon { return; }
      abandon, tried := Sum32At(i, j, orig, SwapSum32(orig, j), Swap32(orig) & 0xffff, from, tried, planned + 2);
      if abandon { return; }
      abandon, tried := Diff32At(i, j, orig, SwapDiff32(orig, j), Swap32(orig) & 0xffff, from, tried, planned + 3);
      if abandon { return; }
      Restore(i, Bytes32(orig), from, tried, planned + 4);
    }

    method Sum32At(i: nat, j: nat, orig: bv32, v: bv32, low: bv32, ghost from: Mark, ghost ts: seq<Buf>,
                   ghost planned: nat)
      returns (abandon: bool, ghost tried: seq<Buf>)
      requires j <= ARITH_MAX && Progress(i, 4, from, ts, planned)
      modifies outBuf, `stageCur, `stageMax, `runs
      ensures tried == ts + Unless(SkipSum32(orig, v, low, j), Bytes32(v))
      ensures !abandon ==> Progress(i, 4, from, tried, planned + 1)
    {
      hide CouldBeBitflip, Step32, Progress, Unless, Bytes32;
      var r := TestBitflip(orig ^ v);
      var skip := !(low + Step32(j) > 0xffff && !r);
      tried := ts + Unless(skip, Bytes32(v));
      abandon := Attempt(i, Bytes32(v), skip, from, ts, planned);
    }

    method Diff32At(i: nat, j: nat, orig: bv32, v: bv32, low: bv32, ghost from: Mark, ghost ts: seq<Buf>,
                    ghost planned: nat)
      returns (abandon: bool, ghost tried: seq<Buf>)
      requires j <= ARITH_MAX && Progress(i, 4, from, ts, planned)
      modifies outBuf, `stageCur, `stageMax, `runs
      ensures tried == ts + Unless(SkipDiff32(orig, v, low, j), Bytes32(v))
      ensures !abandon ==> Progress(i, 4, from, tried, planned + 1)
    {
      hide CouldBeBitflip, Step32, Progress, Unless, Bytes32;
      var r := TestBitflip(orig ^ v);
      var skip := !(low < Step32(j) && !r);
      tried := ts + Unless(skip, Bytes32(v));
      abandon := Attempt(i, Bytes32(v), skip, from, ts, planned);
    }

    method Int16At(i: nat) returns (abandon: bool)
      requires Same() && i + 2 <= inBuf.Length
      modifies outBuf, `stageCur, `stageMax, `runs
      ensures !abandon ==> Tried(Int16, i, Mark(old(runs), old(stageCur), old(stageMax)))
    {
      hide CouldBeBitflip, CouldBeArith, CouldBeInterest, INTERESTING_16, Swap16, Progress, Unless, Bytes16, Int16Tries,
        Tries, Slots, Join16;
      ghost var bytes := inBuf[i..i + 2];
      var orig := Join16(outBuf[i], outBuf[i + 1]);
      ghost var from, ts: seq<Buf> := Mark(runs, stageCur, stageMax), [];
      Int16None(orig);
      Begin(i, 2);
      TriesOfTwo(bytes);
      BytesOfWord(bytes);
      assert inBuf != outBuf && outBuf[..] == inBuf[..];
      assert Bytes16(orig) == bytes;
      hide Same;
      for j := 0 to |INTERESTING_16|
        invariant SameOutside(i, 2) && inBuf[..] == old(inBuf[..]) && inBuf[i..i + 2] == bytes
        invariant ts == Int16Tries(orig, j) && Progress(i, 2, from, ts, 2 * j)
      {
        Int16More(orig, j);
        var v := INTERESTING_16[j];
        var skip := Redundant16(orig, v, false);
        abandon := Attempt(i, Bytes16(v), skip, from, ts, 2 * j);
        if abandon { return; }
        ts := ts + Unless(skip, Bytes16(v));
        skip := v == Swap16(v);
        if !skip { skip := Redundant16(orig, Swap16(v), true); }
        abandon := Attempt(i, Bytes16(Swap16(v)), skip, from, ts, 2 * j + 1);
        if abandon { return; }
        ts := ts + Unless(skip, Bytes16(Swap16(v)));
      }
      Restore(i, Bytes16(orig), from, ts, 2 * |INTERESTING_16|);
      abandon := false;
    }

    method Redundant16(orig: bv16, v: bv16, checkLe: bool) returns (yes: bool)
      ensures yes == SkipInt16(orig, v, checkLe)
    {
      hide CouldBeBitflip, CouldBeArith, CouldBeInterest;
      yes := TestBitflip((orig ^ v) as bv32);
      if !yes { yes := TestArith(orig as bv32, v as bv32, 2); }
      if !yes { yes := TestInterest(orig as bv32, v as bv32, 2, checkLe); }
    }

    method Redundant32(orig: bv32, v: bv32, checkLe: bool) returns (yes: bool)
      ensures yes == SkipInt32(orig, v, checkLe)
    {
      hide CouldBeBitflip, CouldBeArith, CouldBeInterest;
      yes := TestBitflip(orig ^ v);
      if !yes { yes := TestArith(orig, v, 4); }
      if !yes { yes := TestInterest(orig, v, 4, checkLe); }
    }

    method Int32At(i: nat) returns (abandon: bool)
      requires Same() && i + 4 <= inBuf.Length
      modifies outBuf, `stageCur, `stageMax, `runs
      ensures !abandon ==> Tried(Int32, i, Mark(old(runs), old(stageCur), old(stageMax)))
    {
      hide CouldBeBitflip, CouldBeArith, CouldBeInterest, INTERESTING_32, Swap32, Progress, Unless, Bytes32, Int32Tries,
        Tries, Slots, Join32;
      ghost var bytes := inBuf[i..i + 4];
      var orig := Join32(outBuf[i], outBuf[i + 1], outBuf[i + 2], outBuf[i + 3]);
      ghost var from, ts: seq<Buf> := Mark(runs, stageCur, stageMax), [];
      Int32None(orig);
      Begin(i, 4);
      TriesOfFour(bytes);
      BytesOfWord(bytes);
      assert inBuf != outBuf && outBuf[..] == inBuf[..];
      assert Bytes32(orig) == bytes;
      hide Same;
      for j := 0 to |INTERESTING_32|
        invariant SameOutside(i, 4) && inBuf[..] == old(inBuf[..]) && inBuf[i..i + 4] == bytes
        invariant ts == Int32Tries(orig, j) && Progress(i, 4, from, ts, 2 * j)
      {
        Int32More(orig, j);
        var v := INTERESTING_32[j];
        var skip := Redundant32(orig, v, false);
        abandon := Attempt(i, Bytes32(v), skip, from, ts, 2 * j);
        if abandon { return; }
        ts := ts + Unless(skip, Bytes32(v));
        skip := v == Swap32(v);
        if !skip { skip := Redundant32(orig, Swap32(v), true); }
        abandon := Attempt(i, Bytes32(Swap32(v)), skip, from, ts, 2 * j + 1);
        if abandon { return; }
        ts := ts + Unless(skip, Bytes32(Swap32(v)));
      }
      Restore(i, Bytes32(orig), from, ts, 2 * |INTERESTING_32|);
      abandon := false;
    }

    // ---------- Whole stages ----------

    method TryAt(op: Op, i: nat) returns (abandon: bool)
      requires Same() && i + Width(op) <= inBuf.Length
      modifies outBuf, `stageCur, `stageMax, `runs
      ensures !abandon ==> Tried(op, i, Mark(old(runs), old(stageCur), old(stageMax)))
    {
      hide Tried;
      match op
      case Arith8 => abandon := Arith8At(i);
      case Arith16 => abandon := Arith16At(i);
      case Arith32 => abandon := Arith32At(i);
      case Int8 => abandon := Int8At(i);
      case Int16 => abandon := Int16At(i);
      case Int32 => abandon := Int32At(i);
    }

    /** A stage of arithmetic or of interesting values, at every position the map allows. */
    method ValueStage(op: Op, eff: array<bool>) returns (abandon: bool)
      requires Same() && eff.Length == EffLen(inBuf.Length) && Width(op) <= inBuf.Length
      modifies outBuf, `stageCur, `stageMax, `runs
      ensures !abandon ==> Same() && stageCur == stageMax == |runs| - |old(runs)|
      ensures !abandon ==> runs == old(runs) + FullStage(op, inBuf[..], eff[..])
    {
      hide Effective, EffLen, Slots, Width, Tries, PutAll, RunsAt, Tried, Planned;
      ghost var s, f := inBuf[..], eff[..];
      var n := outBuf.Length - Width(op) + 1;
      stageCur, stageMax := 0, Planned(Slots(op), n);
      for i := 0 to n
        invariant Same() && eff[..] == f && inBuf[..] == s
        invariant stageMax - stageCur == Planned(Slots(op), n - i) && stageCur == |StageRuns(op, s, f, i)|
        invariant runs == old(runs) + StageRuns(op, s, f, i)
      {
        BlocksOfPrefix(i + Width(op), |s|);
        SlotsLeft(Slots(op), n - i);
        var touched := TestEffective(eff, i, Width(op));
        if !touched {
          NotTried(op, i, f);
          stageMax := stageMax - Slots(op);
          continue;
        }
        ghost var from := Mark(runs, stageCur, stageMax);
        abandon := TryAt(op, i);
        if abandon { return; }
        TriedRuns(op, i, f, from);
      }
      SlotsLeft(Slots(op), 0);
      abandon := false;
    }

    lemma NotTried(op: Op, i: nat, f: seq<bool>)
      requires i < Places(inBuf.Length, Width(op)) && |f| == EffLen(inBuf.Length)
      requires EffLen(i + Width(op)) <= |f| && !Effective(f, i, Width(op))
      ensures RunsAt(op, inBuf[..], f, i) == []
    {
    }

    lemma TriedRuns(op: Op, i: nat, f: seq<bool>, from: Mark)
      requires i < Places(inBuf.Length, Width(op)) && |f| == EffLen(inBuf.Length)
      requires EffLen(i + Width(op)) <= |f| && Effective(f, i, Width(op))
      requires Tried(op, i, from)
      ensures Same()
      ensures var r := RunsAt(op, inBuf[..], f, i);
        runs == from.runs + r && stageCur == from.cur + |r| && stageMax == from.max - Slots(op) + |r|
    {
      hide Effective, Slots, Width, Tries;
      assert inBuf[..][i..i + Width(op)] == inBuf[i..i + Width(op)];
    }

    // ---------- Dictionary ----------

    /** Over position `i` with part of the tokens done: the bytes are those of the last token executed
        there, the rest is the input. */
    ghost predicate Overlaid(i: nat, last: nat, added: seq<Buf>)
      reads inBuf, outBuf
    {
      && SameOutside(i, last) && inBuf.Length > 0
      && (outBuf[..] in added || outBuf[..] == inBuf[..])
    }

    ghost predicate Bound(ts: seq<Buf>, j: nat, last: nat) {
      forall k :: j <= k < |ts| ==> last <= |ts[k]|
    }

    /** One token over position `i`; `added` are the executions of this position so far. */
    method OverwriteToken(i: nat, ts: seq<Buf>, j: nat, sampled: bool, eff: array<bool>, last: nat,
                          ghost added: seq<Buf>)
      returns (abandon: bool, newLast: nat, ghost extra: seq<Buf>)
      requires Tokens(ts) && SortedBySize(ts) && j < |ts| && eff.Length == EffLen(inBuf.Length) &&
        eff as object != outBuf
      requires i < inBuf.Length && Overlaid(i, last, added) && Bound(ts, j, last)
      modifies outBuf, `stageCur, `stageMax, `runs
      ensures !abandon ==> Overlaid(i, newLast, added + extra) && Bound(ts, j + 1, newLast)
      ensures !abandon ==> runs == old(runs) + extra && stageCur == old(stageCur) + |extra|
      ensures !abandon ==> stageMax - stageCur == old(stageMax - stageCur) - 1
      ensures !abandon ==> Justified(inBuf[..], eff[..], ts, extra)
      ensures !abandon && !(sampled && |ts| > MAX_DET_EXTRAS) && Fits(inBuf[..], eff[..], i, ts[j]) ==>
        Put(inBuf[..], i, ts[j]) in added + extra || Put(inBuf[..], i, ts[j]) == inBuf[..]
    {
      hide Effective, EffLen, Put;
      var t := ts[j];
      ghost var s, f := inBuf[..], eff[..];
      newLast, extra, abandon := last, [], false;
      assert added + extra == added;
      if sampled && |ts| > MAX_DET_EXTRAS {
        var r: nat :| r < |ts|;
        if r >= MAX_DET_EXTRAS {
          stageMax := stageMax - 1;
          return;
        }
      }
      if |t| > outBuf.Length - i {
        stageMax := stageMax - 1;
        return;
      }
      LongerOverwrites(s, outBuf[..], i, last, t);
      if outBuf[i..i + |t|] == t {
        stageMax := stageMax - 1;
        return;
      }
      BlocksOfPrefix(i + |t|, |s|);
      var touched := TestEffective(eff, i, |t|);
      if !touched {
        stageMax := stageMax - 1;
        return;
      }
      newLast := |t|;
      Store(i, t);
      StoredOutside(s, i, t);
      abandon := CommonFuzzStuff(outBuf[..]);
      extra := [outBuf[..]];
      if abandon { return; }
      stageCur := stageCur + 1;
      assert Fits(s, f, i, ts[j]) && extra[0] == Put(s, i, ts[j]);
    }

    lemma StoredOutside(s: Buf, i: nat, t: Buf)
      requires i + |t| <= |s|
      ensures forall k :: 0 <= k < |s| && !(i <= k < i + |t|) ==> Put(s, i, t)[k] == s[k]
    {
    }

    method OverwriteAt(i: nat, ts: seq<Buf>, sampled: bool, eff: array<bool>)
      returns (abandon: bool, ghost added: seq<Buf>)
      requires Same() && i < inBuf.Length && eff.Length == EffLen(inBuf.Length) && eff as object != outBuf
      requires Tokens(ts) && SortedBySize(ts)
      modifies outBuf, `stageCur, `stageMax, `runs
      ensures !abandon ==> Same() && runs == old(runs) + added && stageCur == old(stageCur) + |added|
      ensures !abandon ==> stageMax - stageCur == old(stageMax - stageCur) - |ts|
      ensures !abandon ==> Justified(inBuf[..], eff[..], ts, added)
      ensures !abandon && !(sampled && |ts| > MAX_DET_EXTRAS) ==>
        CoveredAt(inBuf[..], eff[..], i, ts, |ts|, added)
    {
      hide Effective, EffLen, Put, Fits, IsOverwrite;
      ghost var s, f := inBuf[..], eff[..];
      var last := 0;
      added := [];
      for j := 0 to |ts|
        invariant eff[..] == f && inBuf[..] == s && Overlaid(i, last, added) && Bound(ts, j, last)
        invariant runs == old(runs) + added && stageCur == old(stageCur) + |added|
        invariant stageMax - stageCur == old(stageMax - stageCur) - j
        invariant Justified(s, f, ts, added)
        invariant !(sampled && |ts| > MAX_DET_EXTRAS) ==> CoveredAt(s, f, i, ts, j, added)
      {
        ghost var extra;
        abandon, last, extra := OverwriteToken(i, ts, j, sampled, eff, last, added);
        if abandon { return; }
        if !(sampled && |ts| > MAX_DET_EXTRAS) { CoveredMore(s, f, i, ts, j, added, extra); }
        added := added + extra;
      }
      Store(i, inBuf[i..i + last]);
      RestoredAll(s, i, last);
      abandon := false;
    }

    lemma RestoredAll(s: Buf, i: nat, last: nat)
      requires i + last <= |s|
      ensures forall out: Buf ::
        |out| == |s| && (forall k :: 0 <= k < |s| && !(i <= k < i + last) ==> out[k] == s[k]) ==>
        Put(out, i, s[i..i + last]) == s
    {
    }

    /** Every token over every position where it fits: either executed, or what the input holds. With
        more than MAX_DET_EXTRAS sampled tokens only some are tried. */
    method OverwriteStage(ts: seq<Buf>, sampled: bool, eff: array<bool>) returns (abandon: bool, ghost added: seq<Buf>)
      requires Same() && eff.Length == EffLen(inBuf.Length) && eff as object != outBuf
      requires Tokens(ts) && SortedBySize(ts)
      modifies outBuf, `stageCur, `stageMax, `runs
      ensures !abandon ==> Same() && runs == old(runs) + added && stageCur == stageMax == |added|
      ensures !abandon ==> Justified(inBuf[..], eff[..], ts, added)
      ensures !abandon && !(sampled && |ts| > MAX_DET_EXTRAS) ==>
        forall i: nat :: i < inBuf.Length ==> CoveredAt(inBuf[..], eff[..], i, ts, |ts|, added)
    {
      hide Effective, EffLen, Put, Fits, IsOverwrite, CoveredAt, Planned;
      ghost var s, f := inBuf[..], eff[..];
      var n := outBuf.Length;
      stageCur, stageMax := 0, Planned(|ts|, n);
      added := [];
      for i := 0 to n
        invariant eff[..] == f && inBuf[..] == s && Same() && runs == old(runs) + added
        invariant stageCur == |added| && stageMax - stageCur == Planned(|ts|, n - i)
        invariant Justified(s, f, ts, added)
        invariant !(sampled && |ts| > MAX_DET_EXTRAS) ==> forall k: nat :: k < i ==> CoveredAt(s, f, k, ts, |ts|, added)
      {
        SlotsLeft(|ts|, n - i);
        ghost var extra;
        abandon, extra := OverwriteAt(i, ts, sampled, eff);
        if abandon { return; }
        if !(sampled && |ts| > MAX_DET_EXTRAS) {
          forall k: nat | k <= i ensures CoveredAt(s, f, k, ts, |ts|, added + extra) {
            if k < i {
              CoveredMore(s, f, k, ts, |ts|, added, extra);
            } else {
              CoveredAfter(s, f, i, ts, added, extra);
            }
          }
        }
        added := added + extra;
      }
      SlotsLeft(|ts|, 0);
      abandon := false;
    }

    lemma CoveredAfter(s: Buf, f: seq<bool>, i: nat, ts: seq<Buf>, before: seq<Buf>, added: seq<Buf>)
      requires |f| == EffLen(|s|) && Tokens(ts) && CoveredAt(s, f, i, ts, |ts|, added)
      ensures CoveredAt(s, f, i, ts, |ts|, before + added)
    {
    }

    /** Inserts every token at every position, building each file behind a copied head. */
    method InsertStage(ts: seq<Buf>) returns (abandon: bool)
      requires Same() && Tokens(ts)
      modifies `stageCur, `stageMax, `runs
      ensures !abandon ==> stageCur == stageMax == |runs| - |old(runs)|
      ensures !abandon ==> runs == old(runs) + InsertRuns(inBuf[..], ts, inBuf.Length + 1)
    {
      hide Planned, InsertsAt;
      var n := outBuf.Length;
      ghost var s := inBuf[..];
      stageCur, stageMax := 0, Planned(|ts|, n + 1);
      var exTmp := new bv8[n + MAX_DICT_FILE](_ => 0);
      for i := 0 to n + 1
        invariant exTmp[..if i <= n then i else n] == s[..if i <= n then i else n]
        invariant runs == old(runs) + InsertRuns(s, ts, i)
        invariant stageCur == |InsertRuns(s, ts, i)| && stageMax - stageCur == Planned(|ts|, n + 1 - i)
      {
        SlotsLeft(|ts|, n + 1 - i);
        abandon := InsertAt(i, ts, exTmp);
        if abandon { return; }
        if i < n {
          exTmp[i] := outBuf[i];
          assert exTmp[..i + 1] == s[..i + 1];
        }
      }
      SlotsLeft(|ts|, 0);
      abandon := false;
    }

    method InsertAt(i: nat, ts: seq<Buf>, exTmp: array<bv8>) returns (abandon: bool)
      requires Same() && Tokens(ts) && i <= inBuf.Length
      requires exTmp != inBuf && exTmp != outBuf && exTmp.Length == inBuf.Length + MAX_DICT_FILE
      requires exTmp[..i] == inBuf[..i]
      modifies exTmp, `stageCur, `stageMax, `runs
      ensures !abandon ==> exTmp[..i] == inBuf[..i] && runs == old(runs) + InsertsAt(inBuf[..], ts, i, |ts|)
      ensures !abandon ==> stageCur == old(stageCur) + |InsertsAt(inBuf[..], ts, i, |ts|)|
      ensures !abandon ==> stageMax - stageCur == old(stageMax - stageCur) - |ts|
    {
      ghost var s := inBuf[..];
      for j := 0 to |ts|
        invariant exTmp[..i] == s[..i] && runs == old(runs) + InsertsAt(s, ts, i, j)
        invariant stageCur == old(stageCur) + |InsertsAt(s, ts, i, j)|
        invariant stageMax - stageCur == old(stageMax - stageCur) - j
      {
        if outBuf.Length + |ts[j]| > MAX_FILE {
          stageMax := stageMax - 1;
          continue;
        }
        WriteToken(i, ts[j], exTmp);
        abandon := CommonFuzzStuff(exTmp[..outBuf.Length + |ts[j]|]);
        if abandon { return; }
        stageCur := stageCur + 1;
      }
      abandon := false;
    }

    /** Token and tail behind the head that is already there. */
    method WriteToken(i: nat, t: Buf, exTmp: array<bv8>)
      requires Same() && i <= inBuf.Length && |t| <= MAX_DICT_FILE
      requires exTmp != inBuf && exTmp != outBuf && exTmp.Length == inBuf.Length + MAX_DICT_FILE
      requires exTmp[..i] == inBuf[..i]
      modifies exTmp
      ensures exTmp[..i] == inBuf[..i] && exTmp[..inBuf.Length + |t|] == Inserted(inBuf[..], i, t)
    {
      ghost var s := inBuf[..];
      forall m | i <= m < i + |t| { exTmp[m] := t[m - i]; }
      assert forall m :: 0 <= m < i ==> exTmp[m] == s[m];
      forall m | i + |t| <= m < outBuf.Length + |t| { exTmp[m] := outBuf[m - |t|]; }
      assert forall m :: 0 <= m < i ==> exTmp[m] == s[m];
      assert forall m :: i <= m < i + |t| ==> exTmp[m] == t[m - i];
      assert forall m :: i + |t| <= m < |s| + |t| ==> exTmp[m] == s[m - |t|];
    }

    // ---------- The whole phase ----------

    /** The walking flips. */
    method Flips(dict: AutoDictionary) returns (abandon: bool, eff: array<bool>)
      requires Same() && dict.Valid()
      modifies outBuf, `stageCur, `stageMax, `runs, dict
      ensures dict.Valid()
      ensures !abandon ==> dict.offered == old(dict.offered) + Stretches(inBuf[..], cksum, execCksum)
      ensures !abandon ==> Same() && fresh(eff) && eff[..] == EffMap(inBuf[..], cksum, execCksum)
      ensures !abandon ==> runs == old(runs) + (FlipRuns(inBuf[..]) + WideRuns(inBuf[..], eff[..]))
    {
      hide EffMap, FlipWalk, ByteWalk, WideFlips, Stretches, dict.Valid;
      eff := new bool[0];
      ghost var s := inBuf[..];
      abandon := WalkingBit(dict);
      if abandon { return; }
      abandon := WalkingBits(2);
      if abandon { return; }
      abandon := WalkingBits(4);
      if abandon { return; }
      abandon, eff := WalkingBytes();
      if abandon { return; }
      hide WideRuns;
      abandon := WideWalks(eff);
    }

    /** The walking words and double words. */
    method WideWalks(eff: array<bool>) returns (abandon: bool)
      requires Same() && eff.Length == EffLen(inBuf.Length)
      modifies outBuf, `stageCur, `stageMax, `runs
      ensures !abandon ==> Same() && runs == old(runs) + WideRuns(inBuf[..], eff[..])
    {
      hide EffLen, WideFlips, Places;
      NoPlaces(inBuf[..], eff[..]);
      abandon := false;
      if outBuf.Length < 2 { return; }
      abandon := WalkingWords(eff, 2);
      if abandon || outBuf.Length < 4 { return; }
      abandon := WalkingWords(eff, 4);
    }

    lemma NoPlaces(s: Buf, f: seq<bool>)
      requires |f| == EffLen(|s|)
      ensures |s| < 2 ==> WideFlips(s, f, 2, Places(|s|, 2)) == []
      ensures |s| < 4 ==> WideFlips(s, f, 4, Places(|s|, 4)) == []
    {
      hide EffLen, Effective, Inverted;
    }

    lemma NoStage(op: Op, s: Buf, f: seq<bool>)
      requires |f| == EffLen(|s|) && |s| < Width(op)
      ensures FullStage(op, s, f) == []
    {
      hide EffLen, Width, RunsAt;
    }

    /** Additions and subtractions. */
    method Arithmetic(eff: array<bool>) returns (abandon: bool)
      requires Same() && eff.Length == EffLen(inBuf.Length)
      modifies outBuf, `stageCur, `stageMax, `runs
      ensures !abandon ==> Same() && runs == old(runs) + ArithRuns(inBuf[..], eff[..], true)
    {
      hide FullStage, EffLen;
      if outBuf.Length < 2 { NoStage(Arith16, inBuf[..], eff[..]); }
      if outBuf.Length < 4 { NoStage(Arith32, inBuf[..], eff[..]); }
      abandon := ValueStage(Arith8, eff);
      if abandon || outBuf.Length < 2 { return; }
      abandon := ValueStage(Arith16, eff);
      if abandon || outBuf.Length < 4 { return; }
      abandon := ValueStage(Arith32, eff);
    }

    /** Everything up to the 8-bit interesting values. */
    method ToInt8(noArith: bool, dict: AutoDictionary) returns (abandon: bool, eff: array<bool>)
      requires Same() && dict.Valid()
      modifies outBuf, `stageCur, `stageMax, `runs, dict
      ensures dict.Valid()
      ensures !abandon ==> dict.offered == old(dict.offered) + Stretches(inBuf[..], cksum, execCksum)
      ensures !abandon ==> Same() && fresh(eff) && eff[..] == EffMap(inBuf[..], cksum, execCksum)
      ensures !abandon ==> runs == old(runs) + RunsToInt8(inBuf[..], eff[..], !noArith)
    {
      hide EffMap, FlipRuns, WideRuns, ArithRuns, FullStage, Stretches, dict.Valid;
      abandon, eff := Flips(dict);
      if abandon { return; }
      NoArithRuns(inBuf[..], eff[..]);
      if !noArith {
        abandon := Arithmetic(eff);
        if abandon { return; }
      }
      abandon := ValueStage(Int8, eff);
    }

    lemma NoArithRuns(s: Buf, f: seq<bool>)
      requires |f| == EffLen(|s|)
      ensures ArithRuns(s, f, false) == []
    {
    }

    /** The wider interesting values. */
    method WideInterest(noArith: bool, eff: array<bool>) returns (abandon: bool, ghost added: seq<Buf>)
      requires Same() && eff.Length == EffLen(inBuf.Length)
      modifies outBuf, `stageCur, `stageMax, `runs
      ensures !abandon ==> Same() && runs == old(runs) + added
      ensures !abandon ==> added == WideStages(inBuf[..], eff[..], !noArith)
    {
      hide FullStage, EffLen;
      ghost var s, f := inBuf[..], eff[..];
      if outBuf.Length < 2 { NoStage(Int16, s, f); }
      if outBuf.Length < 4 { NoStage(Int32, s, f); }
      added := WideStages(s, f, !noArith);
      abandon := false;
      if noArith || outBuf.Length < 2 { return; }
      abandon := ValueStage(Int16, eff);
      if abandon || outBuf.Length < 4 { return; }
      abandon := ValueStage(Int32, eff);
    }

    /** The user's tokens, over and into the input, then the automatic ones. */
    method Dictionary(extras: seq<Buf>, autoExtras: seq<Buf>, eff: array<bool>)
      returns (abandon: bool, ghost added: seq<Buf>)
      requires Same() && eff.Length == EffLen(inBuf.Length) && eff as object != outBuf
      requires Tokens(extras) && SortedBySize(extras)
      requires Tokens(autoExtras) && SortedBySize(UsedAuto(autoExtras))
      modifies outBuf, `stageCur, `stageMax, `runs
      ensures !abandon ==> Same() && runs == old(runs) + added
      ensures !abandon && |extras| <= MAX_DET_EXTRAS ==> TokensTried(inBuf[..], eff[..], extras, added)
      ensures !abandon ==> TokensTried(inBuf[..], eff[..], UsedAuto(autoExtras), added)
      ensures !abandon ==> InsertsTried(inBuf[..], extras, added)
    {
      hide CoveredAt, InsertRuns, Justified, EffLen, InsertsTried;
      ghost var s, f := inBuf[..], eff[..];
      ghost var over, ins, auto: seq<Buf> := [], [], [];
      abandon := false;
      NoTokens(s, f, [], []);
      if |extras| > 0 {
        abandon, over := OverwriteStage(extras, true, eff);
        if abandon { added := []; return; }
        ins := InsertRuns(s, extras, |s| + 1);
        abandon := InsertStage(extras);
        if abandon { added := []; return; }
      }
      if |autoExtras| > 0 {
        abandon, auto := OverwriteStage(UsedAuto(autoExtras), false, eff);
        if abandon { added := []; return; }
      }
      added := over + ins + auto;
      InsertsAreTried(s, extras, added);
      if |extras| <= MAX_DET_EXTRAS {
        if |extras| > 0 { TokensStayTried(s, f, extras, [], over, ins + auto); } else { NoTokens(s, f, extras, added); }
        assert [] + over + (ins + auto) == added;
      }
      if |autoExtras| > 0 {
        TokensStayTried(s, f, UsedAuto(autoExtras), over + ins, auto, []);
        assert over + ins + auto + [] == added;
      } else {
        NoTokens(s, f, UsedAuto(autoExtras), added);
      }
    }

    lemma NoTokens(s: Buf, f: seq<bool>, ts: seq<Buf>, added: seq<Buf>)
      requires |f| == EffLen(|s|) && Tokens(ts) && |ts| == 0
      ensures TokensTried(s, f, ts, added)
    {
    }

    /** The deterministic phase. If it is not abandoned, the buffer is the input again; every flip, sum,
        difference and interesting value was executed unless its test rules it out; with arithmetic enabled
        no 8-bit value is missing at any effective byte; and no token is missing, written over the input or
        inserted, among them those found by the phase itself and kept. */
    method Deterministic(noArith: bool, dict: AutoDictionary) returns (abandon: bool, eff: array<bool>)
      requires Same() && dict.Valid()
      modifies outBuf, `stageCur, `stageMax, `runs, dict
      ensures dict.Valid()
      ensures !abandon ==> dict.offered == old(dict.offered) + Stretches(inBuf[..], cksum, execCksum)
      ensures !abandon ==> Same() && eff[..] == EffMap(inBuf[..], cksum, execCksum)
      ensures !abandon ==> ChangesTried(inBuf[..], eff[..], !noArith, runs)
      ensures !abandon && !noArith ==> ByteValuesTried(inBuf[..], eff[..], runs)
      ensures !abandon ==> InsertsTried(inBuf[..], dict.extras, runs)
      ensures Tokens(dict.extras) && Tokens(Datas(dict.autoExtras))
      ensures !abandon && |dict.extras| <= MAX_DET_EXTRAS ==> TokensTried(inBuf[..], eff[..], dict.extras, runs)
      ensures !abandon ==> TokensTried(inBuf[..], eff[..], UsedAuto(Datas(dict.autoExtras)), runs)
    {
      hide EffMap, RunsToInt8, FullStage, ByteValuesTried, TokensTried, Tokens, SortedBySize, UsedAuto;
      hide Stretches, dict.Valid, Datas, ChangesTried, InsertsTried, WideStages;
      ghost var start, s := runs, inBuf[..];
      abandon, eff := ToInt8(noArith, dict);
      dict.Lists();
      if abandon { return; }
      var extras, autoExtras := dict.extras, Datas(dict.autoExtras);
      ghost var f := eff[..];
      ghost var wide, last;
      abandon, wide := WideInterest(noArith, eff);
      if abandon { return; }
      abandon, last := Dictionary(extras, autoExtras, eff);
      if abandon { return; }
      assert runs == start + RunsToInt8(s, f, !noArith) + wide + last;
      AllTried(s, f, noArith, extras, UsedAuto(autoExtras), start, wide, last);
    }

    /** What the three parts of the phase add up to. */
    lemma AllTried(s: Buf, f: seq<bool>, noArith: bool, extras: seq<Buf>, auto: seq<Buf>, start: seq<Buf>,
                   wide: seq<Buf>, last: seq<Buf>)
      requires |s| > 0 && |f| == EffLen(|s|) && Tokens(extras) && Tokens(auto)
      requires |extras| <= MAX_DET_EXTRAS ==> TokensTried(s, f, extras, last)
      requires TokensTried(s, f, auto, last) && InsertsTried(s, extras, last) && wide == WideStages(s, f, !noArith)
      ensures var runs := start + RunsToInt8(s, f, !noArith) + wide + last;
        && ChangesTried(s, f, !noArith, runs) && InsertsTried(s, extras, runs)
        && (!noArith ==> ByteValuesTried(s, f, runs))
        && (|extras| <= MAX_DET_EXTRAS ==> TokensTried(s, f, extras, runs))
        && TokensTried(s, f, auto, runs)
    {
      hide RunsToInt8, ByteValuesTried, TokensTried, Tokens, EffLen, ChangesTried, WideStages, InsertsTried;
      ChangesAreTried(s, f, !noArith, start, last);
      InsertsStay(s, extras, start + RunsToInt8(s, f, !noArith) + wide, last);
      var before := start + RunsToInt8(s, f, !noArith) + wide;
      if !noArith {
        AllByteValuesTried(s, f, start, wide + last);
        assert before + last == start + RunsToInt8(s, f, true) + (wide + last);
      }
      assert before + last == before + last + [];
      if |extras| <= MAX_DET_EXTRAS { StillTried(s, f, extras, before, last); }
      StillTried(s, f, auto, before, last);
    }

    lemma InsertsStay(s: Buf, ts: seq<Buf>, before: seq<Buf>, added: seq<Buf>)
      requires InsertsTried(s, ts, added)
      ensures InsertsTried(s, ts, before + added)
    {
      hide Inserted;
    }

    lemma StillTried(s: Buf, f: seq<bool>, ts: seq<Buf>, before: seq<Buf>, added: seq<Buf>)
      requires |f| == EffLen(|s|) && Tokens(ts) && TokensTried(s, f, ts, added)
      ensures TokensTried(s, f, ts, before + added + [])
    {
      TokensStayTried(s, f, ts, before, added, []);
    }
  }
}
