/** The havoc stage: how long it runs, the tweaks it makes in place on a buffer that it grows and
    shrinks, and the splicing rounds around it. */
module HavocStage {
  import opened Limits
  import opened Words
  import opened Redundancy
  import opened DetRuns
  import opened Tweaks
  import opened Subsequences

  const HAVOC_CYCLES: nat := 256
  const HAVOC_CYCLES_INIT: nat := 1024
  const HAVOC_MAX_MULT: nat := 16
  const HAVOC_MIN: nat := 16
  const HAVOC_STACK_POW2: nat := 7
  const SPLICE_CYCLES: nat := 15
  const SPLICE_HAVOC: nat := 32

  // ---------- How much an entry deserves ----------

  /** The measurements the score is taken from. */
  datatype Measured = Measured(execUs: nat, bitmapSize: nat, depth: nat,
                               totalCalUs: nat, totalCalCycles: nat, totalBitmapSize: nat, totalBitmapEntries: nat)

  function Truncated(x: real): int {
    x.Floor
  }

  /** Between 10 and 300, by execution speed. */
  function SpeedScore(m: Measured): (p: nat)
    requires m.totalCalCycles > 0
    ensures 10 <= p <= 300
  {
    var us, avg := m.execUs as real, (m.totalCalUs / m.totalCalCycles) as real;
    if us * 0.1 > avg then 10
    else if us * 0.25 > avg then 25
    else if us * 0.5 > avg then 50
    else if us * 0.75 > avg then 75
    else if us * 4.0 < avg then 300
    else if us * 3.0 < avg then 200
    else if us * 2.0 < avg then 150
    else 100
  }

  function BitmapScore(m: Measured, p: nat): int
    requires m.totalBitmapEntries > 0
  {
    var size, avg := m.bitmapSize as real, (m.totalBitmapSize / m.totalBitmapEntries) as real;
    if size * 0.3 > avg then 3 * p
    else if size * 0.5 > avg then 2 * p
    else if size * 0.75 > avg then Truncated(p as real * 1.5)
    else if size * 3.0 < avg then Truncated(p as real * 0.25)
    else if size * 2.0 < avg then Truncated(p as real * 0.5)
    else if size * 1.5 < avg then Truncated(p as real * 0.75)
    else p
  }

  function HandicapFactor(handicap: nat): nat {
    if handicap >= 4 then 4 else if handicap > 0 then 2 else 1
  }

  function DepthFactor(depth: nat): nat {
    if depth <= 3 then 1 else if depth <= 7 then 2 else if depth <= 13 then 3 else if depth <= 25 then 4 else 5
  }

  lemma BitmapScoreRange(m: Measured, p: nat)
    requires m.totalBitmapEntries > 0 && 10 <= p <= 300
    ensures 2 <= BitmapScore(m, p) <= 900
  {
  }

  /** A tenth of the score for more than ten times the average time, up to three times for less than a quarter
      of it. */
  lemma SpeedBands(m: Measured)
    requires m.totalCalCycles > 0
    ensures var us, avg, p := m.execUs, m.totalCalUs / m.totalCalCycles, SpeedScore(m);
      && (p == 10 <==> us > 10 * avg) && (p <= 25 <==> us > 4 * avg) && (p <= 50 <==> us > 2 * avg)
      && (p <= 75 <==> 3 * us > 4 * avg) && (p >= 150 <==> 2 * us < avg) && (p >= 200 <==> 3 * us < avg)
      && (p == 300 <==> 4 * us < avg) && p in {10, 25, 50, 75, 100, 150, 200, 300}
  {
  }

  /** From a quarter of the score for less than a third of the average coverage to three times for more than
      ten thirds; fractions are cut off. */
  lemma CoverageBands(m: Measured, p: nat)
    requires m.totalBitmapEntries > 0 && 10 <= p <= 300
    ensures var size, avg, q := m.bitmapSize, m.totalBitmapSize / m.totalBitmapEntries, BitmapScore(m, p);
      && (q == 3 * p <==> 3 * size > 10 * avg) && (q >= 2 * p <==> size > 2 * avg)
      && (q > p <==> 3 * size > 4 * avg) && (q < p <==> 3 * size < 2 * avg)
      && (2 * q <= p <==> 2 * size < avg) && (q == p / 4 <==> 3 * size < avg)
      && q in {p / 4, p / 2, 3 * p / 4, p, 3 * p / 2, 2 * p, 3 * p}
  {
  }

  /** A faster execution never scores less, nor does one that covers more. */
  lemma ScoreIsMonotone(m: Measured, n: Measured, p: nat)
    requires m.totalCalCycles == n.totalCalCycles > 0 && m.totalCalUs == n.totalCalUs
    requires m.totalBitmapEntries == n.totalBitmapEntries > 0 && m.totalBitmapSize == n.totalBitmapSize
    requires 10 <= p <= 300
    ensures m.execUs <= n.execUs ==> SpeedScore(m) >= SpeedScore(n)
    ensures m.bitmapSize >= n.bitmapSize ==> BitmapScore(m, p) >= BitmapScore(n, p)
  {
  }

  lemma FactorRange(p: int, handicap: nat, depth: nat)
    requires 2 <= p <= 900
    ensures 2 <= p * HandicapFactor(handicap) * DepthFactor(depth) <= 18000
  {
    hide HandicapFactor, DepthFactor;
    var h, d := HandicapFactor(handicap), DepthFactor(depth);
    assert 1 <= h <= 4 && 1 <= d <= 5 by { Factors(handicap, depth); }
    assert p <= p * h <= 4 * p;
    assert p * h <= p * h * d <= 5 * (p * h);
  }

  lemma Factors(handicap: nat, depth: nat)
    ensures 1 <= HandicapFactor(handicap) <= 4 && 1 <= DepthFactor(depth) <= 5
  {
  }

  /** The number of tweaks in a stack. */
  function StackSize(r: nat): (n: nat)
    requires r < HAVOC_STACK_POW2
  {
    match r
    case 0 => 2 case 1 => 4 case 2 => 8 case 3 => 16 case 4 => 32 case 5 => 64 case _ => 128
  }

  lemma StackSizes(r: nat)
    requires r < HAVOC_STACK_POW2
    ensures StackSize(r) == Doubled(2, r) && 2 <= StackSize(r) <= 128
  {
    assert Doubled(2, 6) == 2 * Doubled(2, 5) == 4 * Doubled(2, 4) == 8 * Doubled(2, 3) == 16 * Doubled(2, 2);
  }

  /** A file that a whole stack of tweaks makes of `s`. */
  ghost predicate Tweaked(r: Buf, s: Buf, dict: set<Buf>) {
    exists ts: seq<Tweak>, power: nat ::
      power < HAVOC_STACK_POW2 && |ts| == StackSize(power) && Stack(ts, s, dict) && r == ApplyAll(ts, s, dict)
  }

  const MAX_ROUND: nat := 32768

  /** Enough score for the number of cycles: doubling both keeps this. */
  ghost predicate Paid(cycles: nat, score: nat) {
    100 * cycles <= HAVOC_CYCLES_INIT * score
  }

  /** The executions planned at first. */
  function FirstCycles(planned: nat, score: nat, div: nat): (n: nat)
    requires planned <= HAVOC_CYCLES_INIT && div >= 1 && score >= 2
    ensures n >= HAVOC_MIN && Paid(n, score)
  {
    assert planned * score <= HAVOC_CYCLES_INIT * score;
    DivShrinks(planned * score, div);
    var n := planned * score / div / 100;
    if n < HAVOC_MIN then HAVOC_MIN else n
  }

  /** They are the share of the plan that the score pays for, rounded down, but at least HAVOC_MIN. */
  lemma FirstCyclesMeans(planned: nat, score: nat, div: nat)
    requires planned <= HAVOC_CYCLES_INIT && div >= 1 && score >= 2
    ensures var n := FirstCycles(planned, score, div);
      && (n > HAVOC_MIN ==> n * (100 * div) <= planned * score)
      && planned * score < (n + 1) * (100 * div)
  {
    hide FirstCycles;
    FirstCyclesIs(planned, score, div);
    var a, n := planned * score, FirstCycles(planned, score, div);
    ShareOf(a, div);
    var q := a / div / 100;
    if n > q { Grows(q + 1, n + 1, 100 * div); }
  }

  lemma ShareOf(a: nat, d: nat)
    requires d >= 1
    ensures a / d / 100 * (100 * d) <= a < (a / d / 100 + 1) * (100 * d)
  {
    var x, q := a / d, a / d / 100;
    assert a == x * d + a % d;
    Grows(100 * q, x, d);
    Grows(x + 1, 100 * q + 100, d);
    Regroup(q, d);
    Regroup(q + 1, d);
    assert (x + 1) * d == x * d + d;
  }

  lemma Regroup(q: nat, d: nat)
    ensures q * (100 * d) == (100 * q) * d
  {
  }

  lemma Grows(a: nat, b: nat, d: nat)
    requires a <= b
    ensures a * d <= b * d
  {
  }

  lemma FirstCyclesIs(planned: nat, score: nat, div: nat)
    requires planned <= HAVOC_CYCLES_INIT && div >= 1 && score >= 2
    ensures FirstCycles(planned, score, div) ==
      if planned * score / div / 100 < HAVOC_MIN then HAVOC_MIN else planned * score / div / 100
  {
  }

  lemma PaidTwice(cycles: nat, score: nat)
    requires Paid(cycles, score)
    ensures Paid(cycles * 2, score * 2)
  {
  }

  lemma PaidIsBounded(cycles: nat, score: nat)
    requires Paid(cycles, score) && score <= 2 * HAVOC_MAX_MULT * 100
    ensures cycles <= MAX_ROUND
  {
  }

  lemma DivShrinks(a: nat, d: nat)
    requires d >= 1
    ensures a / d <= a
  {
    assert a == (a / d) * d + a % d;
  }

  /** A score of zero would never reach the limit that stops the doubling. */
  lemma {:induction false} ZeroNeverStops(doublings: nat)
    ensures Doubled(0, doublings) == 0
    ensures Doubled(2, 10) > HAVOC_MAX_MULT * 100
  {
    if doublings > 0 {
      ZeroNeverStops(doublings - 1);
    } else {
      assert Doubled(2, 10) == 2 * Doubled(2, 9) == 4 * Doubled(2, 8) == 8 * Doubled(2, 7) == 16 * Doubled(2, 6);
      assert Doubled(2, 6) == 2 * Doubled(2, 5) == 4 * Doubled(2, 4) == 8 * Doubled(2, 3) == 16 * Doubled(2, 2);
    }
  }

  function Doubled(p: nat, n: nat): nat {
    if n == 0 then p else 2 * Doubled(p, n - 1)
  }

  // ---------- Splicing ----------

  /** The first and the last position below `n` where the two differ. */
  method LocateDiffs(a: Buf, b: Buf, n: nat) returns (first: int, last: int)
    requires n <= |a| && n <= |b|
    ensures first < 0 <==> a[..n] == b[..n]
    ensures first >= 0 ==> first <= last < n && a[first] != b[first] && a[last] != b[last]
    ensures first >= 0 ==> a[..first] == b[..first] && a[last + 1..n] == b[last + 1..n]
    ensures first < 0 ==> first == last == -1
  {
    first, last := -1, -1;
    for pos := 0 to n
      invariant first < 0 <==> a[..pos] == b[..pos]
      invariant first < 0 ==> first == last == -1
      invariant first >= 0 ==> first <= last < pos && a[first] != b[first] && a[last] != b[last]
      invariant first >= 0 ==> a[..first] == b[..first] && forall k :: last < k < pos ==> a[k] == b[k]
    {
      if a[pos] != b[pos] {
        assert a[..pos + 1][pos] != b[..pos + 1][pos];
        if first == -1 { first := pos; }
        last := pos;
      } else {
        assert a[..pos + 1] == a[..pos] + [a[pos]] && b[..pos + 1] == b[..pos] + [b[pos]];
      }
      if first >= 0 { assert a[..pos + 1][first] != b[..pos + 1][first]; }
    }
  }

  /** The head of one file up to `at`, the tail of another. */
  function Spliced(head: Buf, tail: Buf, at: nat): Buf
    requires at <= |head| && at <= |tail|
  {
    head[..at] + tail[at..]
  }

  /** A splice between the first and the last difference is never the current file; it is the other file
      exactly if the cut is at the first difference. */
  lemma SpliceIsNew(head: Buf, tail: Buf, first: nat, last: nat, at: nat)
    requires first <= at < last < |head| && last < |tail|
    requires head[..first] == tail[..first] && head[first] != tail[first] && head[last] != tail[last]
    ensures Spliced(head, tail, at) != head
    ensures Spliced(head, tail, at) == tail <==> at == first
  {
    assert Spliced(head, tail, at)[last] == tail[last];
    if at == first {
      assert tail == tail[..at] + tail[at..];
    } else {
      assert Spliced(head, tail, at)[first] == head[first];
    }
  }

  /** The entry that a walk from `id` on ends at: the first one that is long enough and not the current one. */
  ghost predicate IsPartner(queue: seq<Buf>, current: nat, id: nat, other: nat) {
    && id <= other < |queue| && other != current && |queue[other]| >= 2
    && forall k :: id <= k < other ==> k == current || |queue[k]| < 2
  }

  ghost predicate DifferAt(a: Buf, b: Buf, i: nat) {
    i < |a| && i < |b| && a[i] != b[i]
  }

  /** Two files that differ in more than one place, and not only in the first two. */
  ghost predicate Splicable(a: Buf, b: Buf) {
    exists i: nat, j: nat :: i < j && j >= 2 && DifferAt(a, b, i) && DifferAt(a, b, j)
  }

  /** An attempt that fails: the walk from `id` on finds nobody, or a file too much like the current one. */
  ghost predicate Missed(queue: seq<Buf>, current: nat, id: nat)
    requires current < |queue|
  {
    forall other: nat :: IsPartner(queue, current, id, other) ==> !Splicable(queue[current], queue[other])
  }

  /** A cut with a difference on either side. */
  ghost predicate CutBetween(a: Buf, b: Buf, at: nat) {
    (exists i: nat :: i <= at && DifferAt(a, b, i)) && (exists j: nat :: at < j && DifferAt(a, b, j))
  }

  /** A splice of the current file with a partner. */
  ghost predicate SpliceOf(queue: seq<Buf>, current: nat, id: nat, other: nat, at: nat, r: Buf)
    requires current < |queue|
  {
    && id < |queue| && id != current && IsPartner(queue, current, id, other)
    && at <= |queue[current]| && at <= |queue[other]|
    && Splicable(queue[current], queue[other]) && CutBetween(queue[current], queue[other], at)
    && r == Spliced(queue[current], queue[other], at)
  }

  lemma NobodyMissed(queue: seq<Buf>, current: nat, id: nat)
    requires current < |queue| && forall k :: id <= k < |queue| ==> k == current || |queue[k]| < 2
    ensures Missed(queue, current, id)
  {
  }

  /** The differences of two files, as the walk over their bytes reports them. */
  ghost predicate Diffs(a: Buf, b: Buf, first: int, last: int) {
    var n := if |a| <= |b| then |a| else |b|;
    && (first < 0 ==> a[..n] == b[..n])
    && (first >= 0 ==> first <= last < n && DifferAt(a, b, first) && DifferAt(a, b, last))
    && (first >= 0 ==> a[..first] == b[..first] && a[last + 1..n] == b[last + 1..n])
  }

  lemma SlicesAgree(a: Buf, b: Buf, lo: nat, hi: nat, i: nat)
    requires lo <= hi <= |a| && hi <= |b| && a[lo..hi] == b[lo..hi] && lo <= i < hi
    ensures !DifferAt(a, b, i)
  {
    assert a[lo..hi][i - lo] == b[lo..hi][i - lo];
  }

  lemma DiffsOutside(a: Buf, b: Buf, first: int, last: int, i: nat)
    requires Diffs(a, b, first, last) && DifferAt(a, b, i)
    ensures 0 <= first <= i <= last
  {
    hide DifferAt;
    var n := if |a| <= |b| then |a| else |b|;
    assert i < n by { Below(a, b, i); }
    if first < 0 {
      SlicesAgree(a, b, 0, n, i);
    } else if i < first {
      SlicesAgree(a, b, 0, first, i);
    } else if i > last {
      SlicesAgree(a, b, last + 1, n, i);
    }
  }

  lemma Below(a: Buf, b: Buf, i: nat)
    requires DifferAt(a, b, i)
    ensures i < |a| && i < |b|
  {
  }

  lemma DiffsMissed(queue: seq<Buf>, current: nat, id: nat, tid: nat, first: int, last: int)
    requires current < |queue| && IsPartner(queue, current, id, tid)
    requires Diffs(queue[current], queue[tid], first, last) && (first < 0 || last < 2 || first == last)
    ensures Missed(queue, current, id)
  {
    var a, b := queue[current], queue[tid];
    if i: nat, j: nat :| i < j && j >= 2 && DifferAt(a, b, i) && DifferAt(a, b, j) {
      DiffsOutside(a, b, first, last, i);
      DiffsOutside(a, b, first, last, j);
    }
    assert !Splicable(a, b);
  }

  lemma CutIsSplice(queue: seq<Buf>, current: nat, id: nat, tid: nat, first: nat, last: nat, at: nat)
    requires current < |queue| && id < |queue| && id != current && IsPartner(queue, current, id, tid)
    requires DifferAt(queue[current], queue[tid], first) && DifferAt(queue[current], queue[tid], last)
    requires first <= at < last && last >= 2
    ensures SpliceOf(queue, current, id, tid, at, Spliced(queue[current], queue[tid], at))
  {
  }

  ghost predicate SomeSplice(queue: seq<Buf>, current: nat, r: Buf)
    requires current < |queue|
  {
    exists id: nat, other: nat, at: nat :: SpliceOf(queue, current, id, other, at, r)
  }

  ghost predicate AllTweaked(runs: seq<Buf>, lo: nat, hi: nat, s: Buf, dict: set<Buf>) {
    lo <= hi <= |runs| && forall k :: lo <= k < hi ==> Tweaked(runs[k], s, dict)
  }

  /** The file is a stack of tweaks away from the entry, or from a splice of it. */
  ghost predicate FromEntry(r: Buf, queue: seq<Buf>, current: nat, dict: set<Buf>)
    requires current < |queue|
  {
    exists s: Buf :: (s == queue[current] || SomeSplice(queue, current, s)) && Tweaked(r, s, dict)
  }

  ghost predicate AllFromEntry(runs: seq<Buf>, lo: nat, queue: seq<Buf>, current: nat, dict: set<Buf>)
    requires current < |queue|
  {
    lo <= |runs| && forall k :: lo <= k < |runs| ==> FromEntry(runs[k], queue, current, dict)
  }

  lemma TweakedMore(runs: seq<Buf>, lo: nat, s: Buf, dict: set<Buf>, r: Buf)
    requires AllTweaked(runs, lo, |runs|, s, dict) && Tweaked(r, s, dict)
    ensures AllTweaked(runs + [r], lo, |runs + [r]|, s, dict)
  {
    hide Tweaked;
  }

  lemma RoundMore(before: seq<Buf>, after: seq<Buf>, lo: nat, s: Buf, queue: seq<Buf>, current: nat, dict: set<Buf>)
    requires before <= after && AllTweaked(after, |before|, |after|, s, dict)
    requires current < |queue| && (s == queue[current] || SomeSplice(queue, current, s))
    requires AllFromEntry(before, lo, queue, current, dict)
    ensures AllFromEntry(after, lo, queue, current, dict)
  {
    hide Tweaked, SomeSplice;
    forall k | lo <= k < |after| ensures FromEntry(after[k], queue, current, dict) {
      if k < |before| { assert FromEntry(before[k], queue, current, dict); }
    }
  }

  lemma TweakedStay(before: seq<Buf>, after: seq<Buf>, lo: nat, hi: nat, s: Buf, dict: set<Buf>)
    requires before <= after && AllTweaked(before, lo, hi, s, dict)
    ensures AllTweaked(after, lo, hi, s, dict)
  {
    hide Tweaked;
  }

  lemma FirstOfThem(runs: seq<Buf>, lo: nat, hi: nat, s: Buf, dict: set<Buf>)
    requires AllTweaked(runs, lo, |runs|, s, dict) && lo <= hi <= |runs|
    ensures AllTweaked(runs, lo, hi, s, dict)
  {
    hide Tweaked;
  }

  /** The executions of so many rounds, the first longer than the others. */
  function Rounds(first: nat, later: nat, rounds: nat): nat
    requires rounds >= 1
  {
    first + (rounds - 1) * later
  }

  lemma RoundsMore(first: nat, later: nat, rounds: nat)
    requires rounds >= 1
    ensures Rounds(first, later, 1) == first
    ensures Rounds(first, later, rounds + 1) == Rounds(first, later, rounds) + later >= first
  {
  }

  /** Attempts to splice that failed. */
  ghost predicate AllMissed(misses: seq<nat>, queue: seq<Buf>, current: nat)
    requires current < |queue|
  {
    forall k :: 0 <= k < |misses| ==>
      misses[k] < |queue| && misses[k] != current && Missed(queue, current, misses[k])
  }

  lemma MissedMore(misses: seq<nat>, more: seq<nat>, queue: seq<Buf>, current: nat)
    requires current < |queue| && AllMissed(misses, queue, current) && AllMissed(more, queue, current)
    ensures AllMissed(misses + more, queue, current)
  {
    hide Missed;
  }

  class HavocFuzzer {
    var outBuf: array<bv8>
    var tempLen: nat
    var inBuf: Buf                             // in_buf: the entry, or a splice of it
    var handicap: nat
    var stageCur: nat
    var stageMax: nat
    var perfScore: nat
    var splices: nat                           // splice_cycle
    const entry: Buf                           // the queue entry being fuzzed
    const userExtras: seq<Buf>
    const autoExtras: seq<Buf>
    const queueCycle: nat
    const runOver10m: bool
    ghost var runs: seq<Buf>                   // the files executed so far

    /** The score is between 2 and its limit, and part of the handicap is used up. */
    method CalculateScore(m: Measured) returns (score: nat)
      requires m.totalCalCycles > 0 && m.totalBitmapEntries > 0
      modifies `handicap
      ensures 2 <= score <= HAVOC_MAX_MULT * 100
      ensures handicap ==
        if old(handicap) >= 4 then old(handicap) - 4 else if old(handicap) > 0 then old(handicap) - 1 else 0
      ensures var raw := BitmapScore(m, SpeedScore(m)) * HandicapFactor(old(handicap)) * DepthFactor(m.depth);
        score == if raw > HAVOC_MAX_MULT * 100 then HAVOC_MAX_MULT * 100 else raw
    {
      hide SpeedScore, BitmapScore;
      BitmapScoreRange(m, SpeedScore(m));
      FactorRange(BitmapScore(m, SpeedScore(m)), handicap, m.depth);
      var perf := BitmapScore(m, SpeedScore(m));
      if handicap >= 4 {
        perf := perf * 4;
        handicap := handicap - 4;
      } else if handicap > 0 {
        perf := perf * 2;
        handicap := handicap - 1;
      }
      if 4 <= m.depth <= 7 {
        perf := perf * 2;
      } else if 8 <= m.depth <= 13 {
        perf := perf * 3;
      } else if 14 <= m.depth <= 25 {
        perf := perf * 4;
      } else if m.depth > 25 {
        perf := perf * 5;
      }
      if perf > HAVOC_MAX_MULT * 100 { perf := HAVOC_MAX_MULT * 100; }
      score := perf;
    }

    /** A block length between 1 and the limit, small in the first cycles. */
    method ChooseBlockLen(limit: nat) returns (n: nat)
      requires limit >= 1 && queueCycle >= 1
      ensures 1 <= n <= limit && n <= HAVOC_BLK_XL
      ensures !runOver10m || queueCycle == 1 ==> n <= HAVOC_BLK_SMALL
      ensures queueCycle == 2 ==> n <= HAVOC_BLK_MEDIUM
    {
      var rlim := if queueCycle <= 3 then queueCycle else 3;
      if !runOver10m { rlim := 1; }
      var r: nat :| r < rlim;
      var minValue, maxValue;
      if r == 0 {
        minValue, maxValue := 1, HAVOC_BLK_SMALL;
      } else if r == 1 {
        minValue, maxValue := HAVOC_BLK_SMALL, HAVOC_BLK_MEDIUM;
      } else {
        var d: nat :| d < 10;
        if d != 0 {
          minValue, maxValue := HAVOC_BLK_MEDIUM, HAVOC_BLK_LARGE;
        } else {
          minValue, maxValue := HAVOC_BLK_LARGE, HAVOC_BLK_XL;
        }
      }
      if minValue >= limit { minValue := 1; }
      var span := (if maxValue <= limit then maxValue else limit) - minValue + 1;
      var d: nat :| d < span;
      n := minValue + d;
    }

    // ---------- One tweak, in place ----------

    ghost predicate Valid()
      reads `outBuf, `tempLen
    {
      1 <= tempLen <= outBuf.Length && queueCycle >= 1
    }

    ghost function Contents(): (s: Buf)
      requires tempLen <= outBuf.Length
      reads `outBuf, `tempLen, outBuf
      ensures |s| == tempLen
    {
      outBuf[..tempLen]
    }

    ghost function Dict(): set<Buf> {
      set t | t in userExtras + autoExtras
    }

    /** The tweak was possible for the old contents, and the new ones are what it makes of them. */
    ghost predicate Did(t: Tweak, before: Buf)
      reads this, outBuf
    {
      && Valid() && Possible(t, before, Dict()) && Contents() == Apply(t, before, Dict())
    }

    method Store(p: nat, b: Buf)
      requires Valid() && p + |b| <= tempLen
      modifies outBuf
      ensures Contents() == Put(old(Contents()), p, b)
    {
      forall k | p <= k < p + |b| { outBuf[k] := b[k - p]; }
      Stored(old(Contents()), Contents(), p, b);
    }

    lemma Stored(before: Buf, after: Buf, p: nat, b: Buf)
      requires |before| == |after| && p + |b| <= |before|
      requires forall k :: 0 <= k < |before| ==> after[k] == if p <= k < p + |b| then b[k - p] else before[k]
      ensures after == Put(before, p, b)
    {
    }

    method FlipOne() returns (ghost t: Tweak)
      requires Valid()
      modifies outBuf
      ensures Did(t, old(Contents()))
      ensures t.Flip?
    {
      hide HighBit, Xor8;
      var b: nat :| b < 8 * tempLen;
      outBuf[b / 8] := Xor8(outBuf[b / 8], HighBit(b % 8));
      t := Flip(b);
      ghost var s := old(Contents());
      assert FlipBits(s, b, 1) == s[b / 8 := Xor8(s[b / 8], HighBit(b % 8))];
    }

    method SetOne() returns (ghost t: Tweak)
      requires Valid()
      modifies outBuf
      ensures Did(t, old(Contents()))
      ensures t.SetByte?
    {
      hide INTERESTING_8, Put;
      InterestingSizes();
      var p: nat :| p < tempLen;
      var j: nat :| j < |INTERESTING_8|;
      Store(p, Bytes8(INTERESTING_8[j]));
      t := SetByte(p, INTERESTING_8[j]);
    }

    lemma InterestingSizes()
      ensures |INTERESTING_8| == 9 && |INTERESTING_16| == 19 && |INTERESTING_32| == 27
    {
    }

    method SetTwo() returns (ghost t: Tweak)
      requires Valid()
      modifies outBuf
      ensures Did(t, old(Contents()))
      ensures if old(tempLen) < 2 then t.Nothing? else t.SetWord?
    {
      hide INTERESTING_16, Put, Bytes16, Swap16;
      InterestingSizes();
      t := Nothing;
      if tempLen < 2 { return; }
      var swap: bool := *;
      var p: nat :| p < tempLen - 1;
      var j: nat :| j < |INTERESTING_16|;
      var v := if swap then Swap16(INTERESTING_16[j]) else INTERESTING_16[j];
      Store(p, Bytes16(v));
      t := SetWord(p, v);
    }

    method SetFour() returns (ghost t: Tweak)
      requires Valid()
      modifies outBuf
      ensures Did(t, old(Contents()))
      ensures if old(tempLen) < 4 then t.Nothing? else t.SetDword?
    {
      hide INTERESTING_32, Put, Bytes32, Swap32;
      InterestingSizes();
      t := Nothing;
      if tempLen < 4 { return; }
      var swap: bool := *;
      var p: nat :| p < tempLen - 3;
      var j: nat :| j < |INTERESTING_32|;
      var v := if swap then Swap32(INTERESTING_32[j]) else INTERESTING_32[j];
      Store(p, Bytes32(v));
      t := SetDword(p, v);
    }

    method AddOne(up: bool) returns (ghost t: Tweak)
      requires Valid()
      modifies outBuf
      ensures Did(t, old(Contents()))
      ensures t.AddByte? && t.up == up
    {
      hide Put, Plus, Minus, Bytes8;
      var p: nat :| p < tempLen;
      var d: nat :| d < ARITH_MAX;
      Store(p, Bytes8(if up then Plus(outBuf[p], 1 + d) else Minus(outBuf[p], 1 + d)));
      t := AddByte(p, 1 + d, up);
    }

    method AddTwo(up: bool) returns (ghost t: Tweak)
      requires Valid()
      modifies outBuf
      ensures Did(t, old(Contents()))
      ensures if old(tempLen) < 2 then t.Nothing? else t.AddWord? && t.up == up
    {
      hide Put, MovedWord, Bytes16, Join16;
      t := Nothing;
      if tempLen < 2 { return; }
      var swapped: bool := *;
      var p: nat :| p < tempLen - 1;
      var d: nat :| d < ARITH_MAX;
      ghost var w := Word(Contents(), p);
      Store(p, Bytes16(MovedWord(Join16(outBuf[p], outBuf[p + 1]), 1 + d, up, swapped)));
      t := AddWord(p, 1 + d, up, swapped);
    }

    method AddFour(up: bool) returns (ghost t: Tweak)
      requires Valid()
      modifies outBuf
      ensures Did(t, old(Contents()))
      ensures if old(tempLen) < 4 then t.Nothing? else t.AddDword? && t.up == up
    {
      hide Put, MovedDword, Bytes32, Join32;
      t := Nothing;
      if tempLen < 4 { return; }
      var swapped: bool := *;
      var p: nat :| p < tempLen - 3;
      var d: nat :| d < ARITH_MAX;
      var w := Join32(outBuf[p], outBuf[p + 1], outBuf[p + 2], outBuf[p + 3]);
      assert w == Dword(Contents(), p);
      Store(p, Bytes32(MovedDword(w, 1 + d, up, swapped)));
      t := AddDword(p, 1 + d, up, swapped);
    }

    method ScrambleOne() returns (ghost t: Tweak)
      requires Valid()
      modifies outBuf
      ensures Did(t, old(Contents()))
      ensures t.XorByte?
    {
      hide Put, Xor8, Bytes8;
      var p: nat :| p < tempLen;
      var v: bv8 := *;                         // any value but 0
      if v == 0 { v := 1; }
      Store(p, Bytes8(Xor8(outBuf[p], v)));
      t := XorByte(p, v);
    }

    method DeleteBytes() returns (ghost t: Tweak)
      requires Valid()
      modifies outBuf, `tempLen
      ensures Did(t, old(Contents()))
      ensures if old(tempLen) < 2 then t.Nothing? else t.Delete?
    {
      hide INTERESTING_8, INTERESTING_16, INTERESTING_32, Without, FromFile;
      t := Nothing;
      if tempLen < 2 { return; }
      var delLen := ChooseBlockLen(tempLen - 1);
      var delFrom: nat :| delFrom < tempLen - delLen + 1;
      forall k | delFrom <= k < tempLen - delLen { outBuf[k] := outBuf[k + delLen]; }
      tempLen := tempLen - delLen;
      t := Delete(delFrom, delLen);
      TailMovedDown(old(outBuf[..]), outBuf[..], delFrom, delLen, tempLen);
    }

    /** Puts a block between head and tail in a new buffer. */
    method InsertBytes(p: nat, b: Buf)
      requires Valid() && p <= tempLen
      modifies `outBuf, `tempLen
      ensures fresh(outBuf) && Valid() && Contents() == Inserted(old(Contents()), p, b)
    {
      var newBuf := new bv8[tempLen + |b|](_ => 0);
      forall k | 0 <= k < p { newBuf[k] := outBuf[k]; }
      forall k | p <= k < p + |b| { newBuf[k] := b[k - p]; }
      forall k | p + |b| <= k < tempLen + |b| { newBuf[k] := outBuf[k - |b|]; }
      HeadBlockTail(Contents(), newBuf[..], p, b);
      outBuf, tempLen := newBuf, tempLen + |b|;
    }

    lemma HeadBlockTail(s: Buf, r: Buf, p: nat, b: Buf)
      requires p <= |s| && |r| == |s| + |b|
      requires forall k :: 0 <= k < p ==> r[k] == s[k]
      requires forall k :: p <= k < p + |b| ==> r[k] == b[k - p]
      requires forall k :: p + |b| <= k < |r| ==> r[k] == s[k - |b|]
      ensures r == Inserted(s, p, b)
    {
      assert r[..p] == s[..p] && r[p..p + |b|] == b && r[p + |b|..] == s[p..];
      assert r == r[..p] + r[p..p + |b|] + r[p + |b|..];
    }

    /** One byte repeated: a random one, or one of the file. */
    method ConstantBlock(n: nat) returns (b: Buf)
      requires Valid()
      ensures |b| == n && forall k :: 0 <= k < n ==> b[k] == b[0]
    {
      var random: bool := *;
      var v: bv8 := *;
      if !random {
        var p: nat :| p < tempLen;
        v := outBuf[p];
      }
      b := seq(n, _ => v);
    }

    method CloneBytes() returns (ghost t: Tweak)
      requires Valid()
      modifies `outBuf, `tempLen
      ensures Did(t, old(Contents())) && (outBuf == old(outBuf) || fresh(outBuf))
      ensures if old(tempLen) + HAVOC_BLK_XL >= MAX_FILE then t.Nothing? else t.InsertBlock?
    {
      t := Nothing;
      if tempLen + HAVOC_BLK_XL >= MAX_FILE { return; }
      var dice: nat :| dice < 4;
      var block: Buf;
      ghost var s := Contents();
      if dice != 0 {
        var cloneLen := ChooseBlockLen(tempLen);
        var cloneFrom: nat :| cloneFrom < tempLen - cloneLen + 1;
        block := outBuf[cloneFrom..cloneFrom + cloneLen];
        assert block == s[cloneFrom..cloneFrom + |block|];
        assert StretchAt(s, cloneFrom, block);
      } else {
        var cloneLen := ChooseBlockLen(HAVOC_BLK_XL);
        block := ConstantBlock(cloneLen);
      }
      var cloneTo: nat :| cloneTo < tempLen;
      InsertBytes(cloneTo, block);
      t := InsertBlock(cloneTo, block);
    }

    method CopyBytes() returns (ghost t: Tweak)
      requires Valid()
      modifies outBuf
      ensures Did(t, old(Contents()))
      ensures if old(tempLen) < 2 then t.Nothing? else t.OverwriteBlock?
    {
      t := Nothing;
      if tempLen < 2 { return; }
      var copyLen := ChooseBlockLen(tempLen - 1);
      var copyFrom: nat :| copyFrom < tempLen - copyLen + 1;
      var copyTo: nat :| copyTo < tempLen - copyLen + 1;
      var dice: nat :| dice < 4;
      ghost var s := Contents();
      var block: Buf;
      if dice != 0 {
        block := outBuf[copyFrom..copyFrom + copyLen];
        assert block == s[copyFrom..copyFrom + |block|];
        assert StretchAt(s, copyFrom, block);
      } else {
        block := ConstantBlock(copyLen);
      }
      hide Put;
      if dice != 0 && copyFrom == copyTo {
        SameBlock(s, copyTo, copyLen);
      } else {
        Store(copyTo, block);
      }
      t := OverwriteBlock(copyTo, block);
    }

    lemma SameBlock(s: Buf, p: nat, n: nat)
      requires p + n <= |s|
      ensures Put(s, p, s[p..p + n]) == s
    {
    }

    /** A token of the dictionary: an automatic one if there are no others or the dice say so. */
    method PickToken() returns (token: Buf)
      requires |userExtras| + |autoExtras| > 0
      ensures token in Dict()
    {
      var auto: bool := *;
      if |userExtras| == 0 || (|autoExtras| > 0 && auto) {
        var i: nat :| i < |autoExtras|;
        token := autoExtras[i];
      } else {
        var i: nat :| i < |userExtras|;
        token := userExtras[i];
      }
    }

    method OverwriteExtra() returns (ghost t: Tweak)
      requires Valid() && |userExtras| + |autoExtras| > 0
      modifies outBuf
      ensures Did(t, old(Contents()))
      ensures t.OverwriteToken? || (t.Nothing? && exists b :: b in Dict() && |b| > old(tempLen))
    {
      hide Put;
      t := Nothing;
      var token := PickToken();
      if |token| > tempLen { return; }
      var insertAt: nat :| insertAt < tempLen - |token| + 1;
      Store(insertAt, token);
      t := OverwriteToken(insertAt, token);
    }

    method InsertExtra() returns (ghost t: Tweak)
      requires Valid() && |userExtras| + |autoExtras| > 0
      modifies `outBuf, `tempLen
      ensures Did(t, old(Contents())) && (outBuf == old(outBuf) || fresh(outBuf))
      ensures t.InsertToken? || (t.Nothing? && exists b :: b in Dict() && old(tempLen) + |b| >= MAX_FILE)
    {
      t := Nothing;
      var insertAt: nat :| insertAt < tempLen + 1;
      var token := PickToken();
      if tempLen + |token| >= MAX_FILE { return; }
      InsertBytes(insertAt, token);
      t := InsertToken(insertAt, token);
    }

    lemma DidMeans(t: Tweak, before: Buf)
      requires Did(t, before)
      ensures Possible(t, before, Dict()) && Changed(t, before, Contents(), Dict())
    {
      hide Possible, Apply, Changed;
      TweakMeans(t, before, Dict());
    }

    /** The tweak that the die chooses, and nothing instead only where its guard fails. */
    method RandomTweak(roll: nat) returns (ghost t: Tweak)
      requires Valid() && roll < Sides(Dict())
      modifies outBuf, `outBuf, `tempLen
      ensures Did(t, old(Contents())) && (outBuf == old(outBuf) || fresh(outBuf))
      ensures RolledAs(t, roll, old(tempLen), Dict()) && Changed(t, old(Contents()), Contents(), Dict())
    {
      hide Did, Changed;
      if roll == 0 { t := FlipOne(); }
      else if roll == 1 { t := SetOne(); }
      else if roll == 2 { t := SetTwo(); }
      else if roll == 3 { t := SetFour(); }
      else if roll == 4 { t := AddOne(false); }
      else if roll == 5 { t := AddOne(true); }
      else if roll == 6 { t := AddTwo(false); }
      else if roll == 7 { t := AddTwo(true); }
      else if roll == 8 { t := AddFour(false); }
      else if roll == 9 { t := AddFour(true); }
      else if roll == 10 { t := ScrambleOne(); }
      else if roll <= 12 { t := DeleteBytes(); }
      else if roll == 13 { t := CloneBytes(); }
      else if roll == 14 { t := CopyBytes(); }
      else if roll == 15 { t := OverwriteExtra(); }
      else { t := InsertExtra(); }
      DidMeans(t, old(Contents()));
    }

    /** The sides of the die, from the sizes of the two dictionaries. */
    method DieSides() returns (n: nat)
      ensures n == Sides(Dict())
    {
      n := 15 + (if |userExtras| + |autoExtras| > 0 then 2 else 0);
      if |userExtras| > 0 { assert userExtras[0] in Dict(); }
      else if |autoExtras| > 0 { assert autoExtras[0] in Dict(); }
      else { assert Dict() == {}; }
    }

    // ---------- The stage ----------

    /** A whole stack of tweaks, whatever the dice say: the file stays non-empty and within the limit. */
    method Mutate()
      requires Valid()
      modifies outBuf, `outBuf, `tempLen
      ensures Valid() && (outBuf == old(outBuf) || fresh(outBuf))
      ensures Tweaked(Contents(), old(Contents()), Dict())
      ensures 1 <= tempLen <= Largest(old(tempLen))
    {
      hide Possible, Apply, Stack, ApplyAll, RolledAs, Changed, Sides;
      ghost var s := Contents();
      var sides := DieSides();
      var r: nat :| r < HAVOC_STACK_POW2;
      ghost var ts := [];
      EmptyStack(s, Dict());
      for i := 0 to StackSize(r)
        invariant Valid() && (outBuf == old(outBuf) || fresh(outBuf)) && |ts| == i
        invariant Stack(ts, s, Dict()) && Contents() == ApplyAll(ts, s, Dict())
      {
        SomeSide(Dict());
        var roll: nat :| roll < sides;
        ghost var t := RandomTweak(roll);
        StackMore(ts, s, Dict(), t);
        ts := ts + [t];
      }
      StackKeepsSize(ts, s, Dict(), |s|);
    }

    lemma SomeSide(dict: set<Buf>)
      ensures Sides(dict) >= 15
    {
    }

    lemma EmptyStack(s: Buf, dict: set<Buf>)
      ensures Stack([], s, dict) && ApplyAll([], s, dict) == s
    {
    }

    /** Back to the input, with at least its room. */
    method RestoreInput()
      requires Valid() && |inBuf| >= 1
      modifies outBuf, `outBuf, `tempLen
      ensures Valid() && (outBuf == old(outBuf) || fresh(outBuf)) && Contents() == inBuf
    {
      var len := |inBuf|;
      if tempLen < len { outBuf := new bv8[len](_ => 0); }
      tempLen := len;
      forall k | 0 <= k < len { outBuf[k] := inBuf[k]; }
    }

    /** One round: at most MAX_ROUND executions, each of a stack of tweaks of the input. Plan and score double
        with every find, until the score is above its limit. */
    method Havoc(planned: nat, havocDiv: nat) returns (abandon: bool, ghost finds: nat, ghost doublings: nat)
      requires Valid() && |inBuf| >= 1 && Contents() == inBuf
      requires 2 <= perfScore <= HAVOC_MAX_MULT * 100 && planned <= HAVOC_CYCLES_INIT && havocDiv >= 1
      modifies outBuf, `outBuf, `tempLen, `stageCur, `stageMax, `perfScore, `runs
      ensures Valid() && (outBuf == old(outBuf) || fresh(outBuf))
      ensures old(runs) <= runs && |runs| <= |old(runs)| + MAX_ROUND && stageCur <= stageMax <= MAX_ROUND
      ensures AllTweaked(runs, |old(runs)|, |runs|, inBuf, Dict())
      ensures stageMax == Doubled(FirstCycles(planned, old(perfScore), havocDiv), doublings)
      ensures perfScore == Doubled(old(perfScore), doublings)
      ensures doublings <= finds && (doublings < finds ==> perfScore > HAVOC_MAX_MULT * 100)
      ensures !abandon ==> Contents() == inBuf && stageCur == stageMax == |runs| - |old(runs)| >= HAVOC_MIN
      ensures tempLen <= Largest(|inBuf|)
    {
      hide Contents, Paid, Tweaked, FirstCycles, Dict, AllTweaked;
      assert AllTweaked(runs, |runs|, |runs|, inBuf, Dict()) by { NoRunsYet(); }
      stageMax := FirstCycles(planned, perfScore, havocDiv);
      stageCur := 0;
      finds, doublings := 0, 0;
      while stageCur < stageMax
        invariant Valid() && (outBuf == old(outBuf) || fresh(outBuf)) && Contents() == inBuf && tempLen == |inBuf|
        invariant Paid(stageMax, perfScore) && perfScore <= 2 * HAVOC_MAX_MULT * 100
        invariant stageMax == Doubled(FirstCycles(planned, old(perfScore), havocDiv), doublings)
        invariant perfScore == Doubled(old(perfScore), doublings)
        invariant doublings <= finds && (doublings < finds ==> perfScore > HAVOC_MAX_MULT * 100)
        invariant stageCur <= stageMax && HAVOC_MIN <= stageMax && |runs| == |old(runs)| + stageCur
        invariant old(runs) <= runs && AllTweaked(runs, |old(runs)|, |runs|, inBuf, Dict())
        decreases MAX_ROUND - stageCur
      {
        PaidIsBounded(stageMax, perfScore);
        PaidTwice(stageMax, perfScore);
        Mutate();
        TweakedMore(runs, |old(runs)|, inBuf, Dict(), Contents());
        runs := runs + [Contents()];
        abandon := *;
        if abandon { return; }
        RestoreInput();
        var found: bool := *;                  // the execution added something to the queue
        if found {
          finds := finds + 1;
          if perfScore <= HAVOC_MAX_MULT * 100 {
            stageMax := stageMax * 2;
            perfScore := perfScore * 2;
            doublings := doublings + 1;
          }
        }
        stageCur := stageCur + 1;
      }
      PaidIsBounded(stageMax, perfScore);
      abandon := false;
    }

    lemma NoRunsYet()
      ensures AllTweaked(runs, |runs|, |runs|, inBuf, Dict())
    {
    }

    /** Tries to splice the entry with another one of the queue until it works or the attempts are used
        up. Every attempt counts, and `misses` are the dice of those that failed. */
    method RetrySplicing(useSplicing: bool, queue: seq<Buf>, current: nat)
      returns (spliced: bool, ghost misses: seq<nat>)
      requires current < |queue| && queue[current] == entry && splices <= SPLICE_CYCLES && |entry| >= 1
      modifies `inBuf, `splices, `outBuf, `tempLen
      ensures AllMissed(misses, queue, current)
      ensures spliced ==> useSplicing && splices == old(splices) + |misses| + 1 <= SPLICE_CYCLES && fresh(outBuf)
      ensures spliced ==> 2 <= tempLen == outBuf.Length && outBuf[..] == inBuf
      ensures spliced ==> SomeSplice(queue, current, inBuf) && inBuf != entry
      ensures !spliced ==> outBuf == old(outBuf) && tempLen == old(tempLen)
      ensures !spliced ==> !useSplicing || |queue| <= 1 || |entry| <= 1 || old(splices) + |misses| == SPLICE_CYCLES
    {
      hide Missed, SpliceOf;
      spliced, misses := false, [];
      if !useSplicing { return; }
      while true
        invariant splices == old(splices) + |misses| <= SPLICE_CYCLES
        invariant outBuf == old(outBuf) && tempLen == old(tempLen)
        invariant AllMissed(misses, queue, current)
        decreases SPLICE_CYCLES - splices
      {
        splices := splices + 1;
        if splices > SPLICE_CYCLES || |queue| <= 1 || |entry| <= 1 { return; }
        inBuf := entry;
        assert (if current == 0 then 1 else 0) != current;
        var id: nat :| id < |queue| && id != current;
        var tid := id;
        while tid < |queue| && (|queue[tid]| < 2 || tid == current)
          invariant id <= tid <= |queue|
          invariant forall k :: id <= k < tid ==> k == current || |queue[k]| < 2
        {
          tid := tid + 1;
        }
        if tid == |queue| {
          NobodyMissed(queue, current, id);
          misses := misses + [id];
          continue;
        }
        var target := queue[tid];
        var first, last := LocateDiffs(entry, target, if |entry| <= |target| then |entry| else |target|);
        if first < 0 || last < 2 || first == last {
          DiffsMissed(queue, current, id, tid, first, last);
          misses := misses + [id];
          continue;
        }
        var d: nat :| d < last - first;
        SpliceIsNew(entry, target, first, last, first + d);
        CutIsSplice(queue, current, id, tid, first, last, first + d);
        Splice(target, first + d);
        return true, misses;
      }
    }

    method Splice(target: Buf, splitAt: nat)
      requires splitAt <= |entry| && splitAt <= |target|
      modifies `inBuf, `outBuf, `tempLen
      ensures inBuf == Spliced(entry, target, splitAt) && tempLen == |target| == outBuf.Length
      ensures fresh(outBuf) && outBuf[..] == inBuf
    {
      var newBuf := Spliced(entry, target, splitAt);
      inBuf := newBuf;
      outBuf := new bv8[|newBuf|](i requires 0 <= i < |newBuf| => newBuf[i]);
      tempLen := |newBuf|;
    }

    /** The random part of one visit: a round on the entry, and one on each of up to fifteen splices. It only
        stops before the attempts are used up if there is nothing to splice. */
    method FuzzRandomly(m: Measured, doingDet: bool, havocDiv: nat, useSplicing: bool, queue: seq<Buf>, current: nat)
      returns (abandon: bool, rounds: nat, score: nat, ghost misses: seq<nat>)
      requires Valid() && |entry| >= 1 && inBuf == entry && Contents() == inBuf && splices == 0
      requires m.totalCalCycles > 0 && m.totalBitmapEntries > 0 && havocDiv >= 1
      requires current < |queue| && queue[current] == entry
      modifies this, outBuf
      ensures 1 <= rounds <= 1 + SPLICE_CYCLES && 2 <= score <= HAVOC_MAX_MULT * 100
      ensures old(runs) <= runs && |runs| <= |old(runs)| + rounds * MAX_ROUND
      ensures AllFromEntry(runs, |old(runs)|, queue, current, Dict())
      ensures !abandon ==>
        var n := FirstCycles(if doingDet then HAVOC_CYCLES_INIT else HAVOC_CYCLES, score, havocDiv);
        && |runs| - |old(runs)| >= Rounds(n, FirstCycles(SPLICE_HAVOC, score, havocDiv), rounds)
        && AllTweaked(runs, |old(runs)|, |old(runs)| + n, entry, Dict())
      ensures AllMissed(misses, queue, current)
      ensures !abandon ==>
        !useSplicing || |queue| <= 1 || |entry| <= 1 || rounds - 1 + |misses| == SPLICE_CYCLES
    {
      hide Tweaked, FirstCycles, SomeSplice, AllMissed, AllTweaked, FromEntry, AllFromEntry, Rounds, Dict, Contents;
      score := CalculateScore(m);
      perfScore := score;
      misses := [];
      var planned := if doingDet then HAVOC_CYCLES_INIT else HAVOC_CYCLES;
      ghost var first := FirstCycles(planned, score, havocDiv);
      ghost var later := FirstCycles(SPLICE_HAVOC, score, havocDiv);
      ghost var n, dict := |runs|, Dict();
      NothingYet(runs, queue, current, dict);
      ghost var finds, doublings;
      abandon, finds, doublings := Havoc(planned, havocDiv);
      DoubledGrows(first, doublings);
      RoundMore(old(runs), runs, n, entry, queue, current, dict);
      rounds := 1;
      if abandon { return; }
      FirstOfThem(runs, n, n + first, entry, dict);
      RoundsMore(first, later, 1);
      while true
        invariant Valid() && (outBuf == old(outBuf) || fresh(outBuf)) && splices <= SPLICE_CYCLES
        invariant rounds == 1 + splices - |misses| >= 1 && n <= |runs| <= n + rounds * MAX_ROUND
        invariant old(runs) <= runs && AllFromEntry(runs, n, queue, current, dict)
        invariant |runs| - n >= Rounds(first, later, rounds)
        invariant AllTweaked(runs, n, n + first, entry, dict)
        invariant AllMissed(misses, queue, current)
        decreases SPLICE_CYCLES - splices
      {
        var spliced;
        ghost var missed;
        spliced, missed := RetrySplicing(useSplicing, queue, current);
        MissedMore(misses, missed, queue, current);
        misses := misses + missed;
        if !spliced { return; }
        perfScore := score;
        WholeBuffer();
        ghost var before := runs;
        abandon, finds, doublings := Havoc(SPLICE_HAVOC, havocDiv);
        DoubledGrows(later, doublings);
        RoundMore(before, runs, n, inBuf, queue, current, dict);
        TweakedStay(before, runs, n, n + first, entry, dict);
        RoundsMore(first, later, rounds);
        rounds := rounds + 1;
        if abandon { return; }
      }
    }

    lemma NothingYet(runs: seq<Buf>, queue: seq<Buf>, current: nat, dict: set<Buf>)
      requires current < |queue|
      ensures AllFromEntry(runs, |runs|, queue, current, dict) && AllMissed([], queue, current)
    {
    }

    lemma WholeBuffer()
      requires Valid() && tempLen == outBuf.Length
      ensures Contents() == outBuf[..]
    {
    }
  }

  lemma {:induction false} DoubledGrows(p: nat, n: nat)
    ensures Doubled(p, n) >= p
  {
    if n > 0 { DoubledGrows(p, n - 1); }
  }
}
