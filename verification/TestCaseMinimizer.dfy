/** The test-case minimizer: block normalization, block deletion, alphabet and character
    minimization, repeated in passes.

    Every stage is specified by a plain function that tries each candidate in turn, with none of
    the shortcuts of the code; the methods are proved to compute the same result, and the
    properties of the minimizer are proved about those functions. */
module TestCaseMinimizer {
  import opened Bytes
  import opened Limits
  import opened Subsequences
  import opened Wrappers

  const TMIN_MAX_FILE := 10 * 1024 * 1024
  const TMIN_SET_MIN_SIZE := 4
  const TMIN_SET_STEPS := 128
  const MSAN_ERROR := 86
  const ZERO: Byte := 48  // the character '0'

  // ---------- The target and the acceptance rule ----------

  datatype WaitStatus = Signaled(signal: nat) | Exited(code: nat)

  /** One run of the target: `anySet` and `cksum` describe the classified, masked trace. */
  datatype Execution = Execution(timedOut: bool, status: WaitStatus, anySet: bool, cksum: nat)

  type Target = seq<Byte> -> Execution

  predicate Crashed(e: Execution, exitCrash: bool) {
    e.status.Signaled? || e.status.code == MSAN_ERROR || (e.status.code != 0 && exitCrash)
  }

  /** What the dry run fixed: the behaviour every kept candidate has to show. */
  datatype Goal = Goal(target: Target, exitCrash: bool, exactMode: bool, crashMode: bool, origCksum: nat)

  predicate Accepts(g: Goal, s: seq<Byte>) {
    var e := g.target(s);
    && !e.timedOut
    && Crashed(e, g.exitCrash) == g.crashMode
    && ((g.crashMode && !g.exactMode) || e.cksum == g.origCksum)
  }

  // ---------- The stages without shortcuts ----------

  function Zeros(n: nat): (r: seq<Byte>)
    ensures |r| == n
  {
    seq(n, _ => ZERO)
  }

  /** `s` with the (at most) `d` bytes from `p` on set to '0'. */
  function Zeroed(s: seq<Byte>, p: nat, d: nat): (r: seq<Byte>)
    requires p <= |s|
    ensures |r| == |s|
  {
    var e := Min(p + d, |s|);
    s[..p] + Zeros(e - p) + s[e..]
  }

  function Replaced(s: seq<Byte>, c: Byte): (r: seq<Byte>)
    ensures |r| == |s|
  {
    seq(|s|, i requires 0 <= i < |s| => if s[i] == c then ZERO else s[i])
  }

  function Keep(g: Goal, s: seq<Byte>, candidate: seq<Byte>): seq<Byte> {
    if Accepts(g, candidate) then candidate else s
  }

  function ZeroBlocks(g: Goal, s: seq<Byte>, pos: nat, d: nat): (r: seq<Byte>)
    requires d > 0
    ensures |r| == |s|
    decreases |s| - pos
  {
    if pos >= |s| then s else ZeroBlocks(g, Keep(g, s, Zeroed(s, pos, d)), pos + d, d)
  }

  function DeleteBlocks(g: Goal, s: seq<Byte>, pos: nat, d: nat): (r: seq<Byte>)
    requires d > 0
    ensures |r| <= |s| && (|r| == |s| ==> r == s)
    decreases |s| - pos
  {
    if pos >= |s| then s
    else if Accepts(g, Without(s, pos, d)) then DeleteBlocks(g, Without(s, pos, d), pos, d)
    else DeleteBlocks(g, s, pos + d, d)
  }

  function DeleteRounds(g: Goal, s: seq<Byte>, d: nat): (r: seq<Byte>)
    requires d > 0
    ensures |r| <= |s| && (|r| == |s| ==> r == s)
    decreases d
  {
    var s' := DeleteBlocks(g, s, 0, d);
    if d > 1 && |s'| >= 1 then DeleteRounds(g, s', d / 2) else s'
  }

  function StartLength(len: nat): nat {
    Pow2From(len / TRIM_START_STEPS, 1)
  }

  function ReplaceSymbols(g: Goal, s: seq<Byte>, i: nat): (r: seq<Byte>)
    requires i <= 256
    ensures |r| == |s|
    decreases 256 - i
  {
    if i == 256 then s else ReplaceSymbols(g, Keep(g, s, Replaced(s, i)), i + 1)
  }

  function NonZeros(s: seq<Byte>): (n: nat)
    ensures n <= |s|
  {
    |s| - multiset(s)[ZERO]
  }

  /** The quantity that every change lowers. */
  function Measure(s: seq<Byte>): nat {
    |s| + NonZeros(s)
  }

  function AfterDeletion(g: Goal, s: seq<Byte>): seq<Byte> {
    DeleteRounds(g, s, StartLength(|s|))
  }

  function AfterPass(g: Goal, s: seq<Byte>): seq<Byte> {
    ZeroBlocks(g, ReplaceSymbols(g, AfterDeletion(g, s), 0), 0, 1)
  }

  /** The final data and the number of passes made, counting from pass `n`. */
  function Passes(g: Goal, s: seq<Byte>, n: nat): (r: (seq<Byte>, nat))
    decreases Measure(s)
  {
    var s1 := AfterDeletion(g, s);
    if n > 1 && s1 == s then (s1, n)
    else
      var s3 := AfterPass(g, s);
      PassLowersMeasure(g, s);
      if s3 == s then (s3, n) else Passes(g, s3, n + 1)
  }

  function SetLength(len: nat): (d: nat)
    ensures d > 0
  {
    var p := Pow2From(len / TMIN_SET_STEPS, 1);
    if p < TMIN_SET_MIN_SIZE then TMIN_SET_MIN_SIZE else p
  }

  function Minimized(g: Goal, s: seq<Byte>): (seq<Byte>, nat) {
    Passes(g, ZeroBlocks(g, s, 0, SetLength(|s|)), 1)
  }

  // ---------- Every change lowers the measure ----------

  /** `r` arises from `s` by deletions and by overwriting bytes with '0'. */
  ghost predicate ReducesBy(emb: seq<nat>, r: seq<Byte>, s: seq<Byte>) {
    && Positions(emb, |r|, |s|)
    && (forall i :: 0 <= i < |r| ==> r[i] == s[emb[i]] || r[i] == ZERO)
  }

  ghost predicate Reduces(r: seq<Byte>, s: seq<Byte>) {
    exists emb: seq<nat> :: ReducesBy(emb, r, s)
  }

  lemma ReducesRefl(s: seq<Byte>)
    ensures Reduces(s, s)
  {
    assert ReducesBy(Identity(|s|), s, s);
  }

  lemma ReducesTrans(r: seq<Byte>, s: seq<Byte>, t: seq<Byte>)
    requires Reduces(r, s) && Reduces(s, t)
    ensures Reduces(r, t)
  {
    var e: seq<nat> :| ReducesBy(e, r, s);
    var f: seq<nat> :| ReducesBy(f, s, t);
    var h: seq<nat> := seq(|r|, i requires 0 <= i < |r| => f[e[i]]);
    assert ReducesBy(h, r, t);
  }

  lemma SameLengthReduces(r: seq<Byte>, s: seq<Byte>)
    requires |r| == |s| && forall i :: 0 <= i < |s| ==> r[i] == s[i] || r[i] == ZERO
    ensures Reduces(r, s)
  {
    assert ReducesBy(Identity(|s|), r, s);
  }

  lemma WithoutReduces(s: seq<Byte>, p: nat, d: nat)
    requires p <= |s|
    ensures Reduces(Without(s, p, d), s)
  {
    WithoutPositions(Identity(|s|), |s|, |s|, p, d);
    assert ReducesBy(Without(Identity(|s|), p, d), Without(s, p, d), s);
  }

  lemma NonZerosSnoc(s: seq<Byte>, b: Byte)
    ensures NonZeros(s + [b]) == NonZeros(s) + (if b == ZERO then 0 else 1)
  {
    assert (s + [b])[..|s|] == s;
  }

  /** The last byte of a reduction comes from the last byte of the original or from further left. */
  lemma ReducesByLast(e: seq<nat>, r: seq<Byte>, s: seq<Byte>)
    requires ReducesBy(e, r, s) && r != []
    ensures s != []
    ensures if e[|r| - 1] == |s| - 1
      then ReducesBy(e[..|r| - 1], r[..|r| - 1], s[..|s| - 1]) && (r[|r| - 1] == s[|s| - 1] || r[|r| - 1] == ZERO)
      else ReducesBy(e, r, s[..|s| - 1])
  {
    assert e[|r| - 1] < |s|;
  }

  lemma {:induction false} ReducesByMeasure(e: seq<nat>, r: seq<Byte>, s: seq<Byte>)
    requires ReducesBy(e, r, s)
    ensures Measure(r) < Measure(s) || r == s
    decreases |s|
  {
    if r != [] {
      ReducesByLast(e, r, s);
      var r', s', x, y := r[..|r| - 1], s[..|s| - 1], r[|r| - 1], s[|s| - 1];
      assert r == r' + [x];
      assert s == s' + [y];
      NonZerosSnoc(r', x);
      NonZerosSnoc(s', y);
      if e[|r| - 1] == |s| - 1 {
        ReducesByMeasure(e[..|r| - 1], r', s');
      } else {
        ReducesByMeasure(e, r, s');
      }
    }
  }

  /** A reduction never raises the measure, and keeps it only by changing nothing. */
  lemma ReducesMeasure(r: seq<Byte>, s: seq<Byte>)
    requires Reduces(r, s)
    ensures Measure(r) <= Measure(s)
    ensures Measure(r) == Measure(s) ==> r == s
  {
    var e: seq<nat> :| ReducesBy(e, r, s);
    ReducesByMeasure(e, r, s);
  }

  lemma ZeroedReduces(s: seq<Byte>, p: nat, d: nat)
    requires p <= |s|
    ensures Reduces(Zeroed(s, p, d), s)
  {
    SameLengthReduces(Zeroed(s, p, d), s);
  }

  lemma {:induction false} ZeroBlocksReduces(g: Goal, s: seq<Byte>, pos: nat, d: nat)
    requires d > 0
    ensures Reduces(ZeroBlocks(g, s, pos, d), s)
    ensures Accepts(g, s) ==> Accepts(g, ZeroBlocks(g, s, pos, d))
    decreases |s| - pos
  {
    if pos >= |s| {
      ReducesRefl(s);
    } else {
      var s' := Keep(g, s, Zeroed(s, pos, d));
      ZeroBlocksReduces(g, s', pos + d, d);
      ZeroedReduces(s, pos, d);
      ReducesRefl(s);
      ReducesTrans(ZeroBlocks(g, s, pos, d), s', s);
    }
  }

  lemma {:induction false} DeleteBlocksReduces(g: Goal, s: seq<Byte>, pos: nat, d: nat)
    requires d > 0
    ensures Reduces(DeleteBlocks(g, s, pos, d), s)
    ensures Accepts(g, s) ==> Accepts(g, DeleteBlocks(g, s, pos, d))
    decreases |s| - pos
  {
    if pos >= |s| {
      ReducesRefl(s);
    } else if Accepts(g, Without(s, pos, d)) {
      DeleteBlocksReduces(g, Without(s, pos, d), pos, d);
      WithoutReduces(s, pos, d);
      ReducesTrans(DeleteBlocks(g, s, pos, d), Without(s, pos, d), s);
    } else {
      DeleteBlocksReduces(g, s, pos + d, d);
    }
  }

  lemma {:induction false} DeleteRoundsReduces(g: Goal, s: seq<Byte>, d: nat)
    requires d > 0
    ensures Reduces(DeleteRounds(g, s, d), s)
    ensures Accepts(g, s) ==> Accepts(g, DeleteRounds(g, s, d))
    decreases d
  {
    DeleteBlocksReduces(g, s, 0, d);
    var s' := DeleteBlocks(g, s, 0, d);
    if d > 1 && |s'| >= 1 {
      DeleteRoundsReduces(g, s', d / 2);
      ReducesTrans(DeleteRounds(g, s, d), s', s);
    }
  }

  lemma {:induction false} ReplaceSymbolsReduces(g: Goal, s: seq<Byte>, i: nat)
    requires i <= 256
    ensures Reduces(ReplaceSymbols(g, s, i), s)
    ensures Accepts(g, s) ==> Accepts(g, ReplaceSymbols(g, s, i))
    decreases 256 - i
  {
    ReducesRefl(s);
    if i < 256 {
      var s' := Keep(g, s, Replaced(s, i));
      ReplaceSymbolsReduces(g, s', i + 1);
      SameLengthReduces(s', s);
      ReducesTrans(ReplaceSymbols(g, s, i), s', s);
    }
  }

  /** One pass only reduces the data, keeps it accepted, and changes nothing exactly when it
      leaves the measure where it was. */
  lemma PassLowersMeasure(g: Goal, s: seq<Byte>)
    ensures Reduces(AfterPass(g, s), s) && Reduces(AfterDeletion(g, s), s)
    ensures Accepts(g, s) ==> Accepts(g, AfterPass(g, s)) && Accepts(g, AfterDeletion(g, s))
    ensures AfterPass(g, s) != s ==> Measure(AfterPass(g, s)) < Measure(s)
    ensures AfterPass(g, s) == s ==> AfterDeletion(g, s) == s && ReplaceSymbols(g, s, 0) == s
  {
    var s1 := AfterDeletion(g, s);
    var s2 := ReplaceSymbols(g, s1, 0);
    DeleteRoundsReduces(g, s, StartLength(|s|));
    ReplaceSymbolsReduces(g, s1, 0);
    ZeroBlocksReduces(g, s2, 0, 1);
    ReducesTrans(s2, s1, s);
    ReducesTrans(AfterPass(g, s), s2, s);
    ReducesMeasure(s1, s);
    ReducesMeasure(s2, s1);
    ReducesMeasure(AfterPass(g, s), s2);
  }

  // ---------- What holds when the passes stop ----------

  /** The start of block `m` counted from `pos`. */
  function BlockAt(pos: nat, m: nat, d: nat): nat {
    pos + m * d
  }

  /** No block of `d` bytes, counted from `pos`, can be deleted. */
  ghost predicate BlocksNeeded(g: Goal, s: seq<Byte>, pos: nat, d: nat) {
    forall m: nat :: BlockAt(pos, m, d) < |s| ==> !Accepts(g, Without(s, BlockAt(pos, m, d), d))
  }

  /** No aligned block of any power-of-two size up to the first one tried can be deleted. */
  ghost predicate BlockMinimal(g: Goal, s: seq<Byte>) {
    forall d: nat :: IsPow2(d) && d <= StartLength(|s|) ==> BlocksNeeded(g, s, 0, d)
  }

  /** No single byte can be deleted. */
  ghost predicate OneMinimal(g: Goal, s: seq<Byte>) {
    forall k: nat :: k < |s| ==> !Accepts(g, Without(s, k, 1))
  }

  lemma {:induction false} DeleteBlocksFixed(g: Goal, s: seq<Byte>, pos: nat, d: nat)
    requires d > 0 && DeleteBlocks(g, s, pos, d) == s
    ensures BlocksNeeded(g, s, pos, d)
    decreases |s| - pos
  {
    if pos < |s| {
      DeleteBlocksFixed(g, s, pos + d, d);
      forall m: nat | BlockAt(pos, m, d) < |s|
        ensures !Accepts(g, Without(s, BlockAt(pos, m, d), d))
      {
        if m > 0 {
          assert BlockAt(pos, m, d) == BlockAt(pos + d, m - 1, d);
        }
      }
    } else {
      forall m: nat ensures BlockAt(pos, m, d) >= |s| {
      }
    }
  }

  lemma {:induction false} DeleteRoundsFixed(g: Goal, s: seq<Byte>, d: nat)
    requires IsPow2(d) && DeleteRounds(g, s, d) == s
    ensures forall d': nat :: IsPow2(d') && d' <= d ==> BlocksNeeded(g, s, 0, d')
    decreases d
  {
    DeleteBlocksFixed(g, s, 0, d);
    if d > 1 && |s| >= 1 {
      DeleteRoundsFixed(g, s, d / 2);
      forall d': nat | IsPow2(d') && d' < d ensures d' <= d / 2 {
        Pow2Gap(d', d);
      }
    }
  }

  lemma {:induction false} PassesResult(g: Goal, s: seq<Byte>, n: nat)
    ensures var (r, last) := Passes(g, s, n);
      && AfterDeletion(g, r) == r
      && Reduces(r, s)
      && (Accepts(g, s) ==> Accepts(g, r))
      && 0 <= last - n <= Measure(s) - Measure(r)
      && (last == 1 && n == 1 ==> AfterPass(g, r) == r && r == s)
    decreases Measure(s)
  {
    PassLowersMeasure(g, s);
    ReducesRefl(s);
    var s1, s3 := AfterDeletion(g, s), AfterPass(g, s);
    if !(n > 1 && s1 == s) && s3 != s {
      PassesResult(g, s3, n + 1);
      ReducesTrans(Passes(g, s, n).0, s3, s);
    }
  }

  /** The main result. For an accepted input the minimizer keeps the behaviour, only deletes bytes
      or sets them to '0', stops after at most `2 * |s|` changing passes, and leaves nothing that
      the deletion stage could still remove: no single byte, and no aligned block of any size it tries. */
  lemma MinimizedIsMinimal(g: Goal, s: seq<Byte>)
    requires Accepts(g, s)
    ensures var (r, passes) := Minimized(g, s);
      && Accepts(g, r)
      && Reduces(r, s)
      && BlockMinimal(g, r)
      && OneMinimal(g, r)
      && passes - 1 <= Measure(s) - Measure(r)
  {
    var s0 := ZeroBlocks(g, s, 0, SetLength(|s|));
    ZeroBlocksReduces(g, s, 0, SetLength(|s|));
    ReducesMeasure(s0, s);
    PassesResult(g, s0, 1);
    var (r, passes) := Minimized(g, s);
    ReducesTrans(r, s0, s);
    DeleteRoundsFixed(g, r, StartLength(|r|));
    assert IsPow2(1);
    forall k: nat | k < |r| ensures !Accepts(g, Without(r, k, 1)) {
      assert BlockAt(0, k, 1) == k;
    }
  }

  /** A candidate that later reductions bring back to `s` was `s` itself or was rejected. */
  lemma KeptIsSame(g: Goal, s: seq<Byte>, candidate: seq<Byte>)
    requires Reduces(candidate, s) && Reduces(s, Keep(g, s, candidate))
    ensures Keep(g, s, candidate) == s
    ensures candidate == s || !Accepts(g, candidate)
  {
    ReducesMeasure(candidate, s);
    ReducesMeasure(s, Keep(g, s, candidate));
  }

  lemma ZeroBlocksStep(g: Goal, s: seq<Byte>, pos: nat)
    requires pos < |s| && ZeroBlocks(g, s, pos, 1) == s
    ensures ZeroBlocks(g, s, pos + 1, 1) == s
    ensures Zeroed(s, pos, 1) == s || !Accepts(g, Zeroed(s, pos, 1))
  {
    var candidate := Zeroed(s, pos, 1);
    ZeroBlocksReduces(g, Keep(g, s, candidate), pos + 1, 1);
    ZeroedReduces(s, pos, 1);
    KeptIsSame(g, s, candidate);
  }

  lemma {:induction false} ZeroBlocksFixed(g: Goal, s: seq<Byte>, pos: nat, k: nat)
    requires ZeroBlocks(g, s, pos, 1) == s && pos <= k < |s| && s[k] != ZERO
    ensures !Accepts(g, Zeroed(s, k, 1))
    decreases k - pos
  {
    ZeroBlocksStep(g, s, pos);
    if pos < k {
      ZeroBlocksFixed(g, s, pos + 1, k);
    } else {
      assert Zeroed(s, k, 1)[k] == ZERO;
    }
  }

  lemma ReplaceSymbolsStep(g: Goal, s: seq<Byte>, i: nat)
    requires i < 256 && ReplaceSymbols(g, s, i) == s
    ensures ReplaceSymbols(g, s, i + 1) == s
    ensures Replaced(s, i) == s || !Accepts(g, Replaced(s, i))
  {
    var candidate := Replaced(s, i);
    ReplaceSymbolsReduces(g, Keep(g, s, candidate), i + 1);
    SameLengthReduces(candidate, s);
    KeptIsSame(g, s, candidate);
  }

  lemma {:induction false} ReplaceSymbolsFixed(g: Goal, s: seq<Byte>, i: nat, c: Byte)
    requires i <= c && ReplaceSymbols(g, s, i) == s && c in s && c != ZERO
    ensures !Accepts(g, Replaced(s, c))
    decreases 256 - i
  {
    ReplaceSymbolsStep(g, s, i);
    if i < c {
      ReplaceSymbolsFixed(g, s, i + 1, c);
    } else {
      var k :| 0 <= k < |s| && s[k] == c;
      assert Replaced(s, c)[k] == ZERO;
    }
  }

  /** Leaving after the first pass means that pass changed nothing at all, and only then are single
      characters and whole symbols known to be needed too. */
  lemma FirstPassIsCharacterMinimal(g: Goal, s: seq<Byte>)
    requires Minimized(g, s).1 == 1
    ensures var r := Minimized(g, s).0;
      && (forall k: nat :: k < |r| && r[k] != ZERO ==> !Accepts(g, Zeroed(r, k, 1)))
      && (forall c: Byte :: c in r && c != ZERO ==> !Accepts(g, Replaced(r, c)))
  {
    var s0 := ZeroBlocks(g, s, 0, SetLength(|s|));
    PassesResult(g, s0, 1);
    PassLowersMeasure(g, s0);
    forall k: nat | k < |s0| && s0[k] != ZERO ensures !Accepts(g, Zeroed(s0, k, 1)) {
      ZeroBlocksFixed(g, s0, 0, k);
    }
    forall c: Byte | c in s0 && c != ZERO ensures !Accepts(g, Replaced(s0, c)) {
      ReplaceSymbolsFixed(g, s0, 0, c);
    }
  }

  // ---------- Counting replaced bytes ----------

  lemma ReplacedSnoc(s: seq<Byte>, b: Byte, c: Byte)
    ensures Replaced(s + [b], c) == Replaced(s, c) + [if b == c then ZERO else b]
  {
  }

  lemma {:induction false} ReplacedCounts(s: seq<Byte>, c: Byte)
    requires c != ZERO
    ensures NonZeros(Replaced(s, c)) == NonZeros(s) - multiset(s)[c]
    ensures forall b: Byte :: b != c && b != ZERO ==> multiset(Replaced(s, c))[b] == multiset(s)[b]
  {
    if s == [] {
      assert Replaced(s, c) == s;
    } else {
      var s', b := s[..|s| - 1], s[|s| - 1];
      ReplacedCounts(s', c);
      assert s == s' + [b];
      ReplacedSnoc(s', b, c);
    }
  }

  lemma ReplacedAbsent(s: seq<Byte>, c: Byte)
    requires c == ZERO || multiset(s)[c] == 0
    ensures Replaced(s, c) == s
  {
    if c != ZERO {
      assert c !in s;
    }
  }

  /** `changed_any` is exact: the stages of a pass report a change if and only if the pass ends
      with different data. */
  lemma StagesChange(g: Goal, s: seq<Byte>)
    ensures var s1 := AfterDeletion(g, s);
      var s2 := ReplaceSymbols(g, s1, 0);
      var s3 := AfterPass(g, s);
      (|s1| < |s| || NonZeros(s1) - NonZeros(s2) > 0 || NonZeros(s2) - NonZeros(s3) > 0) <==> s3 != s
  {
    var s1 := AfterDeletion(g, s);
    var s2 := ReplaceSymbols(g, s1, 0);
    PassLowersMeasure(g, s);
    ReplaceSymbolsReduces(g, s1, 0);
    ZeroBlocksReduces(g, s2, 0, 1);
    ReducesMeasure(s2, s1);
    ReducesMeasure(AfterPass(g, s), s2);
  }

  lemma {:induction false} NonZerosSplit(a: seq<Byte>, b: seq<Byte>)
    ensures NonZeros(a + b) == NonZeros(a) + NonZeros(b)
  {
    if b == [] {
      assert a + b == a;
    } else {
      var n := |b| - 1;
      NonZerosSplit(a, b[..n]);
      assert (a + b)[..|a + b| - 1] == a + b[..n];
    }
  }

  lemma NonZerosAround(a: seq<Byte>, x: Byte, b: seq<Byte>)
    ensures NonZeros(a + [x] + b) == NonZeros(a) + (if x == ZERO then 0 else 1) + NonZeros(b)
  {
    NonZerosSplit(a + [x], b);
    NonZerosSnoc(a, x);
  }

  lemma ZeroedCounts(s: seq<Byte>, p: nat)
    requires p < |s| && s[p] != ZERO
    ensures NonZeros(Zeroed(s, p, 1)) == NonZeros(s) - 1
  {
    NonZerosAround(s[..p], s[p], s[p + 1..]);
    NonZerosAround(s[..p], ZERO, s[p + 1..]);
    assert s == s[..p] + [s[p]] + s[p + 1..];
    assert Zeroed(s, p, 1) == s[..p] + [ZERO] + s[p + 1..];
  }

  lemma ZeroedShort(s: seq<Byte>, p: nat, d: nat)
    requires p <= |s|
    ensures Zeroed(s, p, Min(d, |s| - p)) == Zeroed(s, p, d)
  {
  }

  lemma ZeroedSame(s: seq<Byte>, p: nat, d: nat)
    requires p + d <= |s| && forall k :: p <= k < p + d ==> s[k] == ZERO
    ensures Zeroed(s, p, d) == s
  {
  }

  lemma DeletionKeepsLength(g: Goal, s: seq<Byte>)
    ensures |AfterDeletion(g, s)| <= |s|
    ensures |AfterDeletion(g, s)| == |s| ==> AfterDeletion(g, s) == s
  {
  }

  // ---------- The program ----------

  datatype Fatal = ZeroSizedInput | InputTooLarge | TargetTimesOut | NoInstrumentation

  /** The goal that the dry run of `input` sets. */
  function GoalOf(target: Target, exitCrash: bool, exactMode: bool, input: seq<Byte>): (g: Goal)
    ensures !target(input).timedOut ==> Accepts(g, input)
  {
    var e := target(input);
    var crash := Crashed(e, exitCrash);
    Goal(target, exitCrash, exactMode, crash, if crash && !exactMode then 0 else e.cksum)
  }

  /** The run was ended by a signal, left with the code of the memory sanitizer, or failed where that counts. */
  predicate Abnormal(e: Execution, exitCrash: bool) {
    match e.status
    case Signaled(_) => true
    case Exited(code) => code == 86 || (exitCrash && code > 0)
  }

  /** The goal is the behaviour of the input: data is accepted exactly if it ends in time and as the input does,
      and with the same trace, unless both crash and the trace need not be the same. */
  lemma GoalIsBehaviour(target: Target, exitCrash: bool, exactMode: bool, input: seq<Byte>, s: seq<Byte>)
    ensures var e, f := target(input), target(s);
      Accepts(GoalOf(target, exitCrash, exactMode, input), s) <==>
        && !f.timedOut && (Abnormal(e, exitCrash) <==> Abnormal(f, exitCrash))
        && (e.cksum == f.cksum || (Abnormal(e, exitCrash) && !exactMode))
  {
  }

  /** The first execution: it cannot miss, it decides what the others are compared with. */
  method DryRun(target: Target, exitCrash: bool, exactMode: bool, mem: seq<Byte>) returns (r: Result<Goal, Fatal>)
    ensures var e := target(mem);
      r == if e.timedOut then Failure(TargetTimesOut)
           else if !Crashed(e, exitCrash) && !e.anySet then Failure(NoInstrumentation)
           else Success(GoalOf(target, exitCrash, exactMode, mem))
  {
    var e := target(mem);
    if e.timedOut { return Failure(TargetTimesOut); }
    var crashMode, origCksum := false, 0;
    if e.status.Signaled? || e.status.code == MSAN_ERROR || (e.status.code != 0 && exitCrash) {
      crashMode := true;
    }
    if !crashMode || exactMode { origCksum := e.cksum; }
    if !crashMode && !e.anySet { return Failure(NoInstrumentation); }
    return Success(Goal(target, exitCrash, exactMode, crashMode, origCksum));
  }

  /** The execution counters; every execution is kept or is exactly one kind of miss. */
  datatype Stats = Stats(execs: nat, missedHangs: nat, missedCrashes: nat, missedPaths: nat, kept: nat) {
    predicate Balanced() {
      execs == kept + missedHangs + missedCrashes + missedPaths
    }
  }

  /** The number of leading '0' bytes among the `len` bytes from `pos` on. */
  method FirstNonZero(a: array<Byte>, pos: nat, len: nat) returns (i: nat)
    requires pos + len <= a.Length
    ensures i <= len
    ensures forall k :: pos <= k < pos + i ==> a[k] == ZERO
    ensures i < len ==> a[pos + i] != ZERO
  {
    i := 0;
    while i < len && a[pos + i] == ZERO
      invariant i <= len
      invariant forall k :: pos <= k < pos + i ==> a[k] == ZERO
    {
      i := i + 1;
    }
  }

  class Minimizer {
    const goal: Goal
    const inData: array<Byte>
    var inLen: nat
    var changedAny: bool
    var stats: Stats

    ghost predicate Valid()
      reads this`inLen, this`stats
    {
      inLen <= inData.Length && stats.Balanced()
    }

    ghost function Data(): seq<Byte>
      requires inLen <= inData.Length
      reads this`inLen, inData
    {
      inData[..inLen]
    }

    constructor (goal: Goal, file: seq<Byte>)
      ensures Valid() && Data() == file && inLen == inData.Length && fresh(inData)
      ensures this.goal == goal && stats.execs == 1
    {
      this.goal := goal;
      inData := new Byte[|file|](i requires 0 <= i < |file| => file[i]);
      inLen := |file|;
      changedAny := false;
      stats := Stats(1, 0, 0, 0, 1);
    }

    method RunTarget(mem: seq<Byte>) returns (res: bool)
      requires stats.Balanced()
      modifies this`stats
      ensures stats.Balanced() && stats.execs == old(stats.execs) + 1
      ensures res == (stats.kept == old(stats.kept) + 1)
      ensures res == Accepts(goal, mem)
    {
      var e := goal.target(mem);
      stats := stats.(execs := stats.execs + 1);
      if e.timedOut {
        stats := stats.(missedHangs := stats.missedHangs + 1);
        return false;
      }
      if e.status.Signaled? || e.status.code == MSAN_ERROR || (e.status.code != 0 && goal.exitCrash) {
        if goal.crashMode {
          if !goal.exactMode {
            stats := stats.(kept := stats.kept + 1);
            return true;
          }
        } else {
          stats := stats.(missedCrashes := stats.missedCrashes + 1);
          return false;
        }
      } else if goal.crashMode {
        stats := stats.(missedPaths := stats.missedPaths + 1);
        return false;
      }
      if goal.origCksum == e.cksum {
        stats := stats.(kept := stats.kept + 1);
        return true;
      }
      stats := stats.(missedPaths := stats.missedPaths + 1);
      return false;
    }

    /** Runs the data with `useLen` bytes at `pos` set to '0', and keeps that if it is accepted. */
    method TryZeros(tmp: array<Byte>, pos: nat, useLen: nat) returns (res: bool)
      requires Valid() && tmp != inData && tmp.Length == inData.Length && pos + useLen <= inLen
      modifies `stats, inData, tmp
      ensures Valid()
      ensures res == Accepts(goal, Zeroed(old(Data()), pos, useLen))
      ensures Data() == if res then Zeroed(old(Data()), pos, useLen) else old(Data())
    {
      ghost var s: seq<Byte> := Data();
      ghost var candidate := Zeroed(s, pos, useLen);
      MemCpy(tmp, 0, inData, 0, inLen);
      assert tmp[..inLen] == s;
      MemSet(tmp, pos, ZERO, useLen);
      assert tmp[..inLen] == candidate;
      res := RunTarget(tmp[..inLen]);
      if res {
        MemSet(inData, pos, ZERO, useLen);
        assert Data() == candidate;
      }
    }

    /** Stage 0 on one block: a block that is all '0' already is not run. */
    method NormalizeBlock(tmp: array<Byte>, pos: nat, setLen: nat) returns (replaced: nat)
      requires Valid() && tmp != inData && tmp.Length == inData.Length && Accepts(goal, Data()) && pos < inLen
      modifies `stats, `changedAny, inData, tmp
      ensures Valid()
      ensures Data() == Keep(goal, old(Data()), Zeroed(old(Data()), pos, setLen))
    {
      var useLen := Min(setLen, inLen - pos);
      ZeroedShort(Data(), pos, setLen);
      var i := FirstNonZero(inData, pos, useLen);
      replaced := 0;
      if i != useLen {
        var res := TryZeros(tmp, pos, useLen);
        if res {
          changedAny := true;
          replaced := useLen;
        }
      } else {
        ZeroedSame(Data(), pos, useLen);
      }
    }

    /** Runs the data without the block at `pos`, and keeps that if it is accepted. */
    method TryDelete(tmp: array<Byte>, pos: nat, delLen: nat) returns (res: bool)
      requires Valid() && tmp != inData && tmp.Length == inData.Length && pos < inLen
      modifies `stats, `inLen, inData, tmp
      ensures Valid()
      ensures res == Accepts(goal, Without(old(Data()), pos, delLen))
      ensures Data() == if res then Without(old(Data()), pos, delLen) else old(Data())
    {
      var tailLen := if inLen >= pos + delLen then inLen - pos - delLen else 0;
      ghost var s: seq<Byte> := Data();
      ghost var candidate := Without(s, pos, delLen);
      MemCpy(tmp, 0, inData, 0, pos);
      assert tmp[..pos] == s[..pos];
      if tailLen > 0 {
        MemCpy(tmp, pos, inData, pos + delLen, tailLen);
        assert inData[pos + delLen..pos + delLen + tailLen] == s[pos + delLen..];
      }
      assert tmp[..pos + tailLen] == tmp[..pos] + tmp[pos..pos + tailLen];
      assert tmp[..pos + tailLen] == candidate;
      res := RunTarget(tmp[..pos + tailLen]);
      if res {
        MemCpy(inData, 0, tmp, 0, pos + tailLen);
        inLen := pos + tailLen;
        assert Data() == candidate;
      }
    }

    /** Runs the data with every `sym` replaced by '0', and keeps that if it is accepted. */
    method TrySymbol(tmp: array<Byte>, sym: Byte) returns (res: bool)
      requires Valid() && tmp != inData && tmp.Length == inData.Length
      modifies `stats, inData, tmp
      ensures Valid()
      ensures res == Accepts(goal, Replaced(old(Data()), sym))
      ensures Data() == if res then Replaced(old(Data()), sym) else old(Data())
    {
      ghost var s: seq<Byte> := Data();
      MemCpy(tmp, 0, inData, 0, inLen);
      for r := 0 to inLen
        invariant Valid() && Data() == s
        invariant forall k :: 0 <= k < r ==> tmp[k] == if inData[k] == sym then ZERO else inData[k]
        invariant forall k :: r <= k < inLen ==> tmp[k] == inData[k]
      {
        if tmp[r] == sym { tmp[r] := ZERO; }
      }
      assert tmp[..inLen] == Replaced(s, sym);
      res := RunTarget(tmp[..inLen]);
      if res {
        MemCpy(inData, 0, tmp, 0, inLen);
        assert Data() == Replaced(s, sym);
      }
    }

    /** Stage 0: one-time block normalization. Blocks that are all '0' already are not run. */
    method NormalizeBlocks(tmp: array<Byte>) returns (alphaDel0: nat)
      requires Valid() && tmp != inData && tmp.Length == inData.Length && Accepts(goal, Data())
      modifies `stats, `changedAny, inData, tmp
      ensures Valid()
      ensures Data() == ZeroBlocks(goal, old(Data()), 0, SetLength(inLen))
    {
      alphaDel0 := 0;
      var setLen := NextPow2(inLen / TMIN_SET_STEPS);
      if setLen < TMIN_SET_MIN_SIZE { setLen := TMIN_SET_MIN_SIZE; }
      var setPos := 0;
      ghost var s: seq<Byte> := Data();
      ghost var final := ZeroBlocks(goal, s, 0, setLen);
      while setPos < inLen
        invariant Valid() && Data() == s && Accepts(goal, s)
        invariant ZeroBlocks(goal, s, setPos, setLen) == final
      {
        var replaced := NormalizeBlock(tmp, setPos, setLen);
        alphaDel0 := alphaDel0 + replaced;
        s := Keep(goal, s, Zeroed(s, setPos, setLen));
        setPos := setPos + setLen;
      }
    }

    /** The skip test of stage 1: whether a block equals the one before it, and then both candidates are
        the same. */
    method SameAsPrevious(delPos: nat, delLen: nat) returns (same: bool)
      requires Valid() && delLen <= delPos && delPos + delLen <= inLen
      ensures same <==> Data()[delPos - delLen..delPos] == Data()[delPos..delPos + delLen]
      ensures same ==> Without(Data(), delPos - delLen, delLen) == Without(Data(), delPos, delLen)
    {
      same := MemSame(inData[..inLen], delPos - delLen, delPos, delLen);
      if same {
        EqualBlocks(Data(), delPos, delLen);
      }
    }

    /** Stage 1 at one block size. A block equal to the one just kept is skipped without a run. */
    method DeleteRound(tmp: array<Byte>, delLen: nat)
      requires Valid() && tmp != inData && tmp.Length == inData.Length && delLen > 0
      modifies `stats, `changedAny, `inLen, inData, tmp
      ensures Valid()
      ensures Data() == DeleteBlocks(goal, old(Data()), 0, delLen)
      ensures changedAny == (old(changedAny) || inLen < old(inLen))
    {
      var delPos, prevDel := 0, true;
      ghost var s: seq<Byte> := Data();
      ghost var final := DeleteBlocks(goal, s, 0, delLen);
      while delPos < inLen
        invariant Valid() && Data() == s
        invariant DeleteBlocks(goal, s, delPos, delLen) == final
        invariant inLen <= old(inLen) && changedAny == (old(changedAny) || inLen < old(inLen))
        invariant !prevDel ==> delLen <= delPos && delPos - delLen < |s|
        invariant !prevDel ==> !Accepts(goal, Without(s, delPos - delLen, delLen))
        decreases inLen - delPos
      {
        var tailLen := if inLen >= delPos + delLen then inLen - delPos - delLen else 0;
        var same := false;
        if !prevDel && tailLen > 0 {
          same := SameAsPrevious(delPos, delLen);
        }
        if same {
          delPos := delPos + delLen;
          continue;
        }
        prevDel := false;
        var res := TryDelete(tmp, delPos, delLen);
        if res {
          prevDel := true;
          changedAny := true;
          s := Without(s, delPos, delLen);
        } else {
          delPos := delPos + delLen;
        }
      }
    }

    /** Stage 1: block deletion with halving block sizes. */
    method DeleteStage(tmp: array<Byte>)
      requires Valid() && tmp != inData && tmp.Length == inData.Length
      modifies `stats, `changedAny, `inLen, inData, tmp
      ensures Valid()
      ensures Data() == AfterDeletion(goal, old(Data()))
      ensures changedAny == (old(changedAny) || inLen < old(inLen))
    {
      var delLen := NextPow2(inLen / TRIM_START_STEPS);
      ghost var final := AfterDeletion(goal, Data());
      DeleteRound(tmp, delLen);
      while delLen > 1 && inLen >= 1
        invariant Valid() && delLen > 0
        invariant final == if delLen > 1 && inLen >= 1 then DeleteRounds(goal, Data(), delLen / 2) else Data()
        invariant inLen <= old(inLen) && changedAny == (old(changedAny) || inLen < old(inLen))
        decreases delLen
      {
        delLen := delLen / 2;
        DeleteRound(tmp, delLen);
      }
    }

    method CountSymbols() returns (alphaMap: array<nat>)
      requires inLen <= inData.Length
      ensures fresh(alphaMap) && alphaMap.Length == 256
      ensures forall c: Byte :: alphaMap[c] == multiset(Data())[c]
    {
      alphaMap := new nat[256](i => 0);
      for i := 0 to inLen
        invariant forall c: Byte :: alphaMap[c] == multiset(inData[..i])[c]
      {
        assert inData[..i + 1] == inData[..i] + [inData[i]];
        alphaMap[inData[i]] := alphaMap[inData[i]] + 1;
      }
    }

    /** Stage 2 on one symbol that occurs `count` times; one that does not occur is not run. */
    method MinimizeSymbol(tmp: array<Byte>, i: Byte, count: nat) returns (replaced: bool)
      requires Valid() && tmp != inData && tmp.Length == inData.Length && Accepts(goal, Data())
      requires i != ZERO ==> count == multiset(Data())[i]
      modifies `stats, `changedAny, inData, tmp
      ensures Valid()
      ensures Data() == Keep(goal, old(Data()), Replaced(old(Data()), i))
      ensures NonZeros(Data()) == NonZeros(old(Data())) - (if replaced then count else 0)
      ensures replaced ==> count > 0
      ensures forall c: Byte :: c != i && c != ZERO ==> multiset(Data())[c] == multiset(old(Data()))[c]
      ensures changedAny == (old(changedAny) || replaced)
    {
      replaced := false;
      if i == ZERO || count == 0 {
        ReplacedAbsent(Data(), i);
        return;
      }
      ReplacedCounts(Data(), i);
      replaced := TrySymbol(tmp, i);
      if replaced { changedAny := true; }
    }

    /** Stage 2: alphabet minimization, from one count of the symbols taken at the start. */
    method MinimizeAlphabet(tmp: array<Byte>) returns (symsRemoved: nat, alphaDel1: nat)
      requires Valid() && tmp != inData && tmp.Length == inData.Length && Accepts(goal, Data())
      modifies `stats, `changedAny, inData, tmp
      ensures Valid()
      ensures Data() == ReplaceSymbols(goal, old(Data()), 0)
      ensures alphaDel1 == NonZeros(old(Data())) - NonZeros(Data())
      ensures changedAny == (old(changedAny) || alphaDel1 > 0)
    {
      symsRemoved, alphaDel1 := 0, 0;
      var alphaMap := CountSymbols();
      ghost var s: seq<Byte> := Data();
      ghost var final := ReplaceSymbols(goal, s, 0);
      for i := 0 to 256
        invariant Valid() && Data() == s && Accepts(goal, s)
        invariant ReplaceSymbols(goal, s, i) == final
        invariant forall c: Byte :: i <= c && c != ZERO ==> alphaMap[c] == multiset(s)[c]
        invariant alphaDel1 == NonZeros(old(Data())) - NonZeros(s)
        invariant changedAny == (old(changedAny) || alphaDel1 > 0)
      {
        var replaced := MinimizeSymbol(tmp, i, alphaMap[i]);
        if replaced {
          symsRemoved := symsRemoved + 1;
          alphaDel1 := alphaDel1 + alphaMap[i];
        }
        s := Keep(goal, s, Replaced(s, i));
      }
    }

    /** Stage 3 on one byte: a byte that is '0' already is not run. */
    method MinimizeCharacter(tmp: array<Byte>, i: nat) returns (replaced: bool)
      requires Valid() && tmp != inData && tmp.Length == inData.Length && Accepts(goal, Data())
      requires i < inLen && tmp[..inLen] == Data()
      modifies `stats, `changedAny, inData, tmp
      ensures Valid() && tmp[..inLen] == Data()
      ensures Data() == Keep(goal, old(Data()), Zeroed(old(Data()), i, 1))
      ensures NonZeros(Data()) == NonZeros(old(Data())) - (if replaced then 1 else 0)
      ensures changedAny == (old(changedAny) || replaced)
    {
      ghost var s: seq<Byte> := Data();
      ghost var candidate := Zeroed(s, i, 1);
      var orig := tmp[i];
      assert s[i] == orig;
      replaced := false;
      if orig == ZERO {
        assert candidate == s;
        return;
      }
      ZeroedCounts(s, i);
      tmp[i] := ZERO;
      assert tmp[..inLen] == candidate;
      var res := RunTarget(tmp[..inLen]);
      if res {
        inData[i] := ZERO;
        assert Data() == candidate;
        replaced, changedAny := true, true;
      } else {
        tmp[i] := orig;
        assert tmp[..inLen] == s;
      }
    }

    /** Stage 3: character minimization. */
    method MinimizeCharacters(tmp: array<Byte>) returns (alphaDel2: nat)
      requires Valid() && tmp != inData && tmp.Length == inData.Length && Accepts(goal, Data())
      modifies `stats, `changedAny, inData, tmp
      ensures Valid()
      ensures Data() == ZeroBlocks(goal, old(Data()), 0, 1)
      ensures alphaDel2 == NonZeros(old(Data())) - NonZeros(Data())
      ensures changedAny == (old(changedAny) || alphaDel2 > 0)
    {
      alphaDel2 := 0;
      MemCpy(tmp, 0, inData, 0, inLen);
      ghost var s: seq<Byte> := Data();
      ghost var final := ZeroBlocks(goal, s, 0, 1);
      for i := 0 to inLen
        invariant Valid() && Data() == s && Accepts(goal, s) && tmp[..inLen] == s
        invariant ZeroBlocks(goal, s, i, 1) == final
        invariant alphaDel2 == NonZeros(old(Data())) - NonZeros(s)
        invariant changedAny == (old(changedAny) || alphaDel2 > 0)
      {
        var replaced := MinimizeCharacter(tmp, i);
        if replaced { alphaDel2 := alphaDel2 + 1; }
        s := Keep(goal, s, Zeroed(s, i, 1));
      }
    }

    /** Pass number `curPass`; `done` tells whether it is the last one. */
    method OnePass(tmp: array<Byte>, curPass: nat) returns (done: bool)
      requires Valid() && tmp != inData && tmp.Length == inData.Length && Accepts(goal, Data())
      modifies `stats, `changedAny, `inLen, inData, tmp
      ensures Valid() && Accepts(goal, Data())
      ensures done ==> (Data(), curPass) == Passes(goal, old(Data()), curPass)
      ensures !done ==> Data() == AfterPass(goal, old(Data())) && Measure(Data()) < Measure(old(Data()))
      ensures !done ==> Passes(goal, Data(), curPass + 1) == Passes(goal, old(Data()), curPass)
    {
      ghost var s: seq<Byte> := Data();
      ghost var s1 := AfterDeletion(goal, s);
      ghost var s2 := ReplaceSymbols(goal, s1, 0);
      StagesChange(goal, s);
      PassLowersMeasure(goal, s);
      ReplaceSymbolsReduces(goal, s1, 0);
      DeletionKeepsLength(goal, s);
      changedAny := false;
      DeleteStage(tmp);
      assert Data() == s1;
      if curPass > 1 && !changedAny { return true; }
      var _, _ := MinimizeAlphabet(tmp);
      assert Data() == s2;
      var _ := MinimizeCharacters(tmp);
      assert Data() == AfterPass(goal, s);
      done := !changedAny;
    }

    method Minimize() returns (curPass: nat)
      requires Valid() && inLen == inData.Length && Accepts(goal, Data())
      modifies this, inData
      ensures Valid()
      ensures (Data(), curPass) == Minimized(goal, old(Data()))
    {
      var tmp := new Byte[inLen];
      ghost var final := Minimized(goal, Data());
      ZeroBlocksReduces(goal, Data(), 0, SetLength(inLen));
      var _ := NormalizeBlocks(tmp);
      curPass := 1;
      var done := OnePass(tmp, curPass);
      while !done
        invariant Valid() && fresh(tmp) && tmp.Length == inData.Length && Accepts(goal, Data())
        invariant final == if done then (Data(), curPass) else Passes(goal, Data(), curPass + 1)
        decreases !done, Measure(Data())
      {
        curPass := curPass + 1;
        done := OnePass(tmp, curPass);
      }
    }
  }

  /** The whole program on one input file. */
  method Tmin(target: Target, exitCrash: bool, exactMode: bool, file: seq<Byte>)
    returns (r: Result<seq<Byte>, Fatal>)
    ensures |file| == 0 ==> r == Failure(ZeroSizedInput)
    ensures |file| >= TMIN_MAX_FILE ==> r == Failure(InputTooLarge)
    ensures 0 < |file| < TMIN_MAX_FILE ==>
      var e := target(file);
      if e.timedOut then r == Failure(TargetTimesOut)
      else if !Crashed(e, exitCrash) && !e.anySet then r == Failure(NoInstrumentation)
      else r == Success(Minimized(GoalOf(target, exitCrash, exactMode, file), file).0)
  {
    if |file| == 0 { return Failure(ZeroSizedInput); }
    if |file| >= TMIN_MAX_FILE { return Failure(InputTooLarge); }
    var goal := DryRun(target, exitCrash, exactMode, file);
    if goal.Failure? { return Failure(goal.error); }
    var m := new Minimizer(goal.value, file);
    var _ := m.Minimize();
    return Success(m.inData[..m.inLen]);
  }
}
