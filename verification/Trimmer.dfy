/** Trimming a queue entry: chunks of the file are removed as long as the checksum of its trace stays
    the same. The buffer is edited in place; each candidate is first written out with a gap. */
module Trimmer {
  import opened Bytes
  import opened Chunks
  import opened Limits
  import opened Subsequences

  const TRIM_MIN_BYTES: nat := 4
  const TRIM_END_STEPS: nat := 1024

  type Data = seq<bv8>

  /** Cutting a chunk out of a subsequence leaves a subsequence. */
  lemma CutSubsequence(s: Data, t: Data, p: nat, d: nat)
    requires IsSubsequence(s, t) && p <= |s|
    ensures IsSubsequence(Without(s, p, d), t)
  {
    var emb :| Embeds(emb, s, t);
    WithoutPositions(emb, |s|, |t|, p, d);
    assert Embeds(Without(emb, p, d), Without(s, p, d), t);
  }

  lemma OwnSubsequence(s: Data)
    ensures IsSubsequence(s, s)
  {
    assert Embeds(Identity(|s|), s, s);
  }

  /** What was kept so far: an order-preserving part of the original with its first bytes intact, and
      with the recorded checksum if anything was removed. */
  ghost predicate Kept(now: Data, orig: Data, cksum: Data -> bv32, recorded: bv32) {
    && IsSubsequence(now, orig)
    && TRIM_MIN_BYTES <= |now| <= |orig| && now[..TRIM_MIN_BYTES] == orig[..TRIM_MIN_BYTES]
    && (now == orig || (|now| < |orig| && cksum(now) == recorded))
  }

  lemma KeptAfterCut(now: Data, orig: Data, cksum: Data -> bv32, recorded: bv32, p: nat, d: nat)
    requires Kept(now, orig, cksum, recorded)
    requires TRIM_MIN_BYTES <= p && 0 < d && p + d <= |now|
    requires cksum(Without(now, p, d)) == recorded
    ensures Kept(Without(now, p, d), orig, cksum, recorded)
  {
    CutSubsequence(now, orig, p, d);
    assert Without(now, p, d)[..TRIM_MIN_BYTES] == now[..TRIM_MIN_BYTES];
  }

  /** The bytes that `n` chunks make up, together with the head in front of the first one. */
  function Span(chunk: nat, n: nat): nat {
    chunk * (n + 1)
  }

  lemma SpanNext(chunk: nat, n: nat)
    ensures Span(chunk, n + 1) == Span(chunk, n) + chunk && Span(chunk, 0) == chunk
    ensures Span(chunk, n) <= Span(chunk, n + 1)
  {
  }

  lemma {:induction false} SpanMore(chunk: nat, n: nat, m: nat)
    requires n <= m
    ensures Span(chunk, n) <= Span(chunk, m)
    decreases m - n
  {
    if n < m {
      SpanNext(chunk, n);
      SpanMore(chunk, n + 1, m);
    }
  }

  predicate NoneAborted(aborts: nat -> bool, runs: nat) {
    forall k :: 0 <= k < runs ==> !aborts(k)
  }

  lemma OneMoreRun(aborts: nat -> bool, runs: nat)
    ensures NoneAborted(aborts, runs + 1) <==> NoneAborted(aborts, runs) && !aborts(runs)
  {
  }

  /** The first chunk size for a file: a sixteenth of the power of two above its length, but not below 4. */
  function FirstChunk(len: nat): nat {
    Max(Pow2From(len, 1) / TRIM_START_STEPS, TRIM_MIN_BYTES)
  }

  lemma FirstChunkMeans(len: nat, p: nat)
    requires LeastPow2(p, len)
    ensures FirstChunk(len) == if p < 64 then 4 else p / 16
  {
    Pow2FromIsLeast(len);
    LeastIsOne(p, Pow2From(len, 1), len);
  }

  // ---------- What the passes make of a file, said without their steps ----------

  function NoData(chunk: Data): Data {
    []
  }

  ghost function KeepsTrace(cksum: Data -> bv32, recorded: bv32): Data -> bool {
    s => cksum(s) == recorded
  }

  /** Behind the first `d` bytes, each chunk of `d` bytes was removed exactly if the checksum stayed. */
  ghost predicate PassMade(cksum: Data -> bv32, recorded: bv32, s: Data, d: nat, r: Data) {
    var h := Min(d, |s|);
    Settled(KeepsTrace(cksum, recorded), NoData, s[..h], s[h..], d, r)
  }

  /** Passes with chunks of `d` bytes, of half as many, and so on, as long as the chunks are no smaller than
      four bytes and a 1024th of the power of two above the length. */
  ghost predicate PassesMade(cksum: Data -> bv32, recorded: bv32, s: Data, d: nat, r: Data)
    decreases d
  {
    if d == 0 || d < Max(Pow2From(|s|, 1) / 1024, 4) then r == s
    else exists mid: Data :: PassMade(cksum, recorded, s, d, mid) && PassesMade(cksum, recorded, mid, d / 2, r)
  }

  /** The file without the chunk at `p`. */
  function Shortened(now: Data, p: nat, d: nat): Data
    requires p <= |now|
  {
    Without(now, p, Min(d, |now| - p))
  }

  /** At position `p` of the file `now`: what settles the rest settles the pass over `s`. */
  ghost predicate Underway(cksum: Data -> bv32, recorded: bv32, s: Data, d: nat, now: Data, p: nat) {
    var i := Min(p, |now|);
    forall r: Data :: Settled(KeepsTrace(cksum, recorded), NoData, now[..i], now[i..], d, r) ==>
      PassMade(cksum, recorded, s, d, r)
  }

  lemma UnderwayFirst(cksum: Data -> bv32, recorded: bv32, s: Data, d: nat)
    ensures Underway(cksum, recorded, s, d, s, d)
  {
    hide Settled;
  }

  lemma UnderwayMore(cksum: Data -> bv32, recorded: bv32, s: Data, d: nat, now: Data, p: nat)
    requires d > 0 && p < |now| && Underway(cksum, recorded, s, d, now, p)
    ensures if cksum(Shortened(now, p, d)) == recorded then Underway(cksum, recorded, s, d, Shortened(now, p, d), p)
            else Underway(cksum, recorded, s, d, now, p + d)
  {
    hide Settled, PassMade;
    var n := Min(d, |now| - p);
    var head, chunk, rest := now[..p], now[p..p + n], now[p + n..];
    assert now[p..] == chunk + rest;
    assert Without(now, p, n) == head + rest == head + NoData(chunk) + rest;
    var keep := cksum(Without(now, p, n)) != recorded;
    var next := if keep then now else Without(now, p, n);
    var i := Min(if keep then p + d else p, |next|);
    assert next[..i] == head + (if keep then chunk else NoData(chunk)) && next[i..] == rest;
    forall r: Data | Settled(KeepsTrace(cksum, recorded), NoData, next[..i], next[i..], d, r)
      ensures PassMade(cksum, recorded, s, d, r)
    {
      SettledMore(KeepsTrace(cksum, recorded), NoData, head, chunk, rest, d, r);
    }
  }

  lemma UnderwayLast(cksum: Data -> bv32, recorded: bv32, s: Data, d: nat, now: Data, p: nat)
    requires p >= |now| && Underway(cksum, recorded, s, d, now, p)
    ensures PassMade(cksum, recorded, s, d, now)
  {
    hide Settled, PassMade;
    assert now[..|now|] == now && now[|now|..] == [];
    NothingLeft(KeepsTrace(cksum, recorded), NoData, now, d);
  }

  /** What the remaining passes make of `now` is what all passes make of `s`. */
  ghost predicate Leads(cksum: Data -> bv32, recorded: bv32, s: Data, first: nat, now: Data, d: nat) {
    forall r: Data :: PassesMade(cksum, recorded, now, d, r) ==> PassesMade(cksum, recorded, s, first, r)
  }

  lemma LeadsItself(cksum: Data -> bv32, recorded: bv32, s: Data, first: nat)
    ensures Leads(cksum, recorded, s, first, s, first)
  {
  }

  lemma LeadsMore(cksum: Data -> bv32, recorded: bv32, s: Data, first: nat, now: Data, d: nat, next: Data)
    requires Leads(cksum, recorded, s, first, now, d) && d >= Max(Pow2From(|now|, 1) / TRIM_END_STEPS, TRIM_MIN_BYTES)
    requires PassMade(cksum, recorded, now, d, next)
    ensures Leads(cksum, recorded, s, first, next, d / 2)
  {
    hide PassMade, Pow2From;
  }

  lemma LeadsEnd(cksum: Data -> bv32, recorded: bv32, s: Data, first: nat, now: Data, d: nat)
    requires Leads(cksum, recorded, s, first, now, d) && d < Max(Pow2From(|now|, 1) / TRIM_END_STEPS, TRIM_MIN_BYTES)
    ensures PassesMade(cksum, recorded, s, first, now)
  {
    hide PassMade, Pow2From;
  }

  ghost predicate AllTested(tested: seq<Data>, accepted: seq<Data>, aborts: nat -> bool, cksum: Data -> bv32,
                            recorded: bv32)
  {
    && (forall k :: 0 <= k < |accepted| ==> accepted[k] in tested && cksum(accepted[k]) == recorded)
    && (forall k :: 0 <= k < |tested| && !aborts(k) && cksum(tested[k]) == recorded ==> tested[k] in accepted)
  }

  lemma OneMoreTested(tested: seq<Data>, accepted: seq<Data>, aborts: nat -> bool, cksum: Data -> bv32, recorded: bv32,
                      s: Data)
    requires AllTested(tested, accepted, aborts, cksum, recorded)
    ensures var cut := !aborts(|tested|) && cksum(s) == recorded;
      AllTested(tested + [s], if cut then accepted + [s] else accepted, aborts, cksum, recorded)
  {
    var ts, cut := tested + [s], !aborts(|tested|) && cksum(s) == recorded;
    var as' := if cut then accepted + [s] else accepted;
    assert s == ts[|tested|];
    forall k | 0 <= k < |as'| ensures as'[k] in ts && cksum(as'[k]) == recorded {
      if k < |accepted| { assert accepted[k] in tested; }
    }
    forall k | 0 <= k < |ts| && !aborts(k) && cksum(ts[k]) == recorded ensures ts[k] in as' {
      if k < |tested| { assert tested[k] in accepted; } else { assert as'[|accepted|] == s; }
    }
  }

  class EntryTrimmer {
    const inBuf: array<bv8>                    // in_buf: the test case in memory
    var len: nat                               // q->len
    var onDisk: Data                           // the file q->fname
    var testCase: Data                         // the file handed to the target
    var traceOf: Data                          // the execution that trace_bits stems from
    var rescored: bool                         // update_bitmap_score was called
    const cksum: Data -> bv32                  // the checksum of the trace of an execution
    const execCksum: bv32                      // the one recorded for the entry
    const aborts: nat -> bool                  // which executions fail, or end with a stop by the user
    var runs: nat                              // the executions so far
    ghost var tested: seq<Data>                // the files executed while trimming
    ghost var accepted: seq<Data>              // the buffers after each accepted removal

    ghost function Contents(): (s: Data)
      reads this, inBuf
      requires len <= inBuf.Length
    {
      inBuf[..len]
    }

    /** The accepted buffers are the files that were executed without an abort and that kept the
        recorded checksum. */
    ghost predicate Tested()
      reads this
    {
      runs == |tested| && AllTested(tested, accepted, aborts, cksum, execCksum)
    }

    constructor (data: Data, cksum: Data -> bv32, execCksum: bv32, aborts: nat -> bool)
      ensures this.aborts == aborts && runs == 0
      ensures len == |data| <= inBuf.Length && Contents() == data && onDisk == data && fresh(inBuf)
      ensures this.cksum == cksum && this.execCksum == execCksum && tested == [] && accepted == [] && !rescored
    {
      inBuf := new bv8[|data|](i requires 0 <= i < |data| => data[i]);
      len, onDisk, testCase, traceOf, rescored := |data|, data, [], [], false;
      this.cksum, this.execCksum, this.aborts, tested, accepted, runs := cksum, execCksum, aborts, [], [], 0;
    }

    /** Writes the test case with a gap of `skipLen` bytes at `skipAt`. */
    method WriteWithGap(skipAt: nat, skipLen: nat)
      requires skipAt + skipLen <= len <= inBuf.Length
      modifies `testCase
      ensures testCase == Without(Contents(), skipAt, skipLen)
    {
      var tailLen := len - skipAt - skipLen;
      testCase := [];
      if skipAt > 0 { testCase := testCase + inBuf[..skipAt]; }
      assert testCase == Contents()[..skipAt];
      if tailLen > 0 { testCase := testCase + inBuf[skipAt + skipLen..skipAt + skipLen + tailLen]; }
      assert inBuf[skipAt + skipLen..len] == Contents()[skipAt + skipLen..];
    }

    /** Executes the test case. The run may fail, or the user may have asked to stop. */
    method RunTarget() returns (abort: bool)
      modifies `traceOf, `tested, `runs
      ensures traceOf == testCase && tested == old(tested) + [testCase]
      ensures runs == old(runs) + 1 && abort == aborts(old(runs))
    {
      abort := aborts(runs);
      traceOf := testCase;
      runs := runs + 1;
      tested := tested + [testCase];
    }

    /** Makes the removal permanent. */
    method Remove(removePos: nat, trimAvail: nat)
      requires removePos + trimAvail <= len <= inBuf.Length
      modifies `len, inBuf
      ensures len == old(len) - trimAvail
      ensures Contents() == Without(old(Contents()), removePos, trimAvail)
    {
      var moveTail := len - removePos - trimAvail;
      len := len - trimAvail;
      forall k | removePos <= k < removePos + moveTail { inBuf[k] := inBuf[k + trimAvail]; }
      TailMovedDown(old(inBuf[..]), inBuf[..], removePos, trimAvail, len);
    }

    /** One attempt at one position: `cut` tells whether the chunk was removed. */
    method TryRemove(removePos: nat, removeLen: nat, ghost orig: Data) returns (abort: bool, cut: bool)
      requires TRIM_MIN_BYTES <= removeLen && TRIM_MIN_BYTES <= removePos < len <= inBuf.Length
      requires Kept(Contents(), orig, cksum, execCksum) && Tested()
      modifies `len, `testCase, `traceOf, `tested, `accepted, `runs, inBuf
      ensures len <= inBuf.Length && Kept(Contents(), orig, cksum, execCksum) && Tested()
      ensures len == old(len) - (if cut then Min(removeLen, old(len) - removePos) else 0)
      ensures !cut ==> Contents() == old(Contents()) && accepted == old(accepted)
      ensures runs == old(runs) + 1 && abort == aborts(old(runs))
      ensures cut <==> !abort && cksum(Shortened(old(Contents()), removePos, removeLen)) == execCksum
      ensures cut ==> Contents() == Shortened(old(Contents()), removePos, removeLen)
      ensures cut ==> !abort && accepted == old(accepted) + [Contents()] && traceOf == testCase == Contents()
    {
      hide Kept, AllTested, Without;
      ghost var ts, as', now := tested, accepted, Contents();
      var trimAvail := Min(removeLen, len - removePos);
      WriteWithGap(removePos, trimAvail);
      assert testCase == Shortened(now, removePos, removeLen);
      cut := false;
      abort := RunTarget();
      OneMoreTested(ts, as', aborts, cksum, execCksum, testCase);
      if abort { return; }
      if cksum(traceOf) == execCksum {
        KeptAfterCut(Contents(), orig, cksum, execCksum, removePos, trimAvail);
        Remove(removePos, trimAvail);
        cut := true;
        accepted := accepted + [testCase];
      }
    }

    /** In the middle of trimming `orig`: `wrote` tells whether anything was removed, and `saved` is the
        execution whose trace was put aside when that happened first. */
    ghost predicate Trimming(orig: Data, wrote: bool, saved: Data)
      reads this, inBuf
    {
      && len <= inBuf.Length && Kept(Contents(), orig, cksum, execCksum) && Tested()
      && wrote == (accepted != []) && wrote == (len < |orig|)
      && (wrote ==> saved == accepted[0] && Contents() == accepted[|accepted| - 1])
      && (!wrote ==> Contents() == orig)
    }

    /** In the middle of a pass over `start`, which began with `runs0` executions. */
    ghost predicate MidPass(start: Data, removeLen: nat, removePos: nat, runs0: nat)
      reads this, inBuf
    {
      && len <= inBuf.Length && runs >= runs0 && NoneAborted(aborts, runs)
      && |start| <= Span(removeLen, runs - runs0) + len - removePos
      && Underway(cksum, execCksum, start, removeLen, Contents(), removePos)
    }

    /** One attempt, and the move to the next position if the chunk stays. */
    method PassStep(removeLen: nat, removePos: nat, wrote: bool, saved: Data, p2: nat, ghost orig: Data,
                    ghost start: Data, ghost runs0: nat)
      returns (abort: bool, newPos: nat, newWrote: bool, newSaved: Data, newP2: nat)
      requires TRIM_MIN_BYTES <= removeLen && TRIM_MIN_BYTES <= removePos < len && p2 == Pow2From(len, 1)
      requires Trimming(orig, wrote, saved) && MidPass(start, removeLen, removePos, runs0)
      modifies `len, `testCase, `traceOf, `tested, `accepted, `runs, inBuf
      ensures Trimming(orig, newWrote, newSaved) && newP2 == Pow2From(len, 1) && TRIM_MIN_BYTES <= newPos
      ensures runs >= old(runs) && (abort <==> !NoneAborted(aborts, runs))
      ensures !abort ==> MidPass(start, removeLen, newPos, runs0)
      ensures !abort ==> 0 <= len - newPos < old(len) - removePos || newPos >= len
    {
      hide Kept, Tested, Span, NoneAborted, Underway, Shortened;
      newPos, newWrote, newSaved, newP2 := removePos, wrote, saved, p2;
      SpanNext(removeLen, runs - runs0);
      OneMoreRun(aborts, runs);
      UnderwayMore(cksum, execCksum, start, removeLen, Contents(), removePos);
      var cut;
      abort, cut := TryRemove(removePos, removeLen, orig);
      if abort { return; }
      if cut {
        newP2 := NextPow2(len);
        if !newWrote {
          newWrote := true;
          newSaved := traceOf;
        }
      } else {
        newPos := newPos + removeLen;
      }
    }

    /** One pass with one chunk size. */
    method Pass(removeLen: nat, needsWrite: bool, clean: Data, lenP2: nat, ghost orig: Data)
      returns (abort: bool, wrote: bool, saved: Data, p2: nat)
      requires TRIM_MIN_BYTES <= removeLen && Trimming(orig, needsWrite, clean) && lenP2 == Pow2From(len, 1)
      requires NoneAborted(aborts, runs)
      modifies `len, `testCase, `traceOf, `tested, `accepted, `runs, inBuf
      ensures Trimming(orig, wrote, saved) && p2 == Pow2From(len, 1)
      ensures runs >= old(runs) && (abort <==> !NoneAborted(aborts, runs))
      ensures !abort ==> old(len) <= Span(removeLen, runs - old(runs))
      ensures !abort ==> PassMade(cksum, execCksum, old(Contents()), removeLen, Contents())
    {
      TrimmingLength(orig, needsWrite, clean);
      hide Trimming, Span, NoneAborted, Underway, PassMade;
      SpanNext(removeLen, 0);
      ghost var start, runs0 := Contents(), runs;
      UnderwayFirst(cksum, execCksum, start, removeLen);
      var removePos := removeLen;
      abort, wrote, saved, p2 := false, needsWrite, clean, lenP2;
      while removePos < len
        invariant TRIM_MIN_BYTES <= removePos && Trimming(orig, wrote, saved) && p2 == Pow2From(len, 1)
        invariant !abort && MidPass(start, removeLen, removePos, runs0)
        decreases if removePos < len then len - removePos else 0
      {
        abort, removePos, wrote, saved, p2 := PassStep(removeLen, removePos, wrote, saved, p2, orig, start, runs0);
        if abort { return; }
      }
      UnderwayLast(cksum, execCksum, start, removeLen, Contents(), removePos);
    }

    /** All passes over a file that is long enough, with smaller and smaller chunks. */
    method Passes(ghost orig: Data) returns (abort: bool, needsWrite: bool, clean: Data)
      requires 5 <= len <= inBuf.Length && orig == Contents() && accepted == [] && tested == [] && runs == 0
      modifies `len, `testCase, `traceOf, `tested, `accepted, `runs, inBuf
      ensures Trimming(orig, needsWrite, clean)
      ensures abort <==> !NoneAborted(aborts, runs)
      ensures !abort ==> |orig| <= Span(FirstChunk(|orig|), runs)
      ensures !abort ==> PassesMade(cksum, execCksum, orig, FirstChunk(|orig|), Contents())
    {
      KeptAtFirst(orig, cksum, execCksum);
      abort, needsWrite, clean := false, false, [];
      var lenP2 := NextPow2(len);
      var removeLen: nat := Max(lenP2 / TRIM_START_STEPS, TRIM_MIN_BYTES);
      ghost var first: nat, passed := removeLen, false;
      assert Trimming(orig, needsWrite, clean) && first == FirstChunk(|orig|);
      TrimmingLength(orig, needsWrite, clean);
      hide Trimming, NoneAborted, Span, Pow2From, FirstChunk, PassesMade, PassMade, Contents, Leads;
      LeadsItself(cksum, execCksum, orig, first);
      while removeLen >= Max(lenP2 / TRIM_END_STEPS, TRIM_MIN_BYTES)
        invariant Trimming(orig, needsWrite, clean) && lenP2 == Pow2From(len, 1)
        invariant !abort && NoneAborted(aborts, runs)
        invariant if passed then |orig| <= Span(first, runs) else removeLen == first && len == |orig| && runs == 0
        invariant len <= inBuf.Length && Leads(cksum, execCksum, orig, first, Contents(), removeLen)
        decreases removeLen
      {
        ghost var before, now := runs, Contents();
        abort, needsWrite, clean, lenP2 := Pass(removeLen, needsWrite, clean, lenP2, orig);
        if abort { return; }
        TrimmingLength(orig, needsWrite, clean);
        LeadsMore(cksum, execCksum, orig, first, now, removeLen, Contents());
        removeLen := removeLen / 2;
        if passed { SpanMore(first, before, runs); }
        passed := true;
      }
      LeadsEnd(cksum, execCksum, orig, first, Contents(), removeLen);
    }

    lemma TrimmingLength(orig: Data, wrote: bool, saved: Data)
      requires Trimming(orig, wrote, saved)
      ensures len <= inBuf.Length && |Contents()| == len
    {
    }

    /** Trims the entry. Whatever happens, what is in memory is an order-preserving part of the original
        with its first bytes intact; if anything was removed, it was executed as it is and kept the
        recorded checksum. The file on disk is out of date exactly after an abort that came too late. */
    method TrimCase() returns (abort: bool)
      requires len <= inBuf.Length && onDisk == Contents() && accepted == [] && tested == [] && runs == 0
      modifies this, inBuf
      ensures len <= inBuf.Length && IsSubsequence(Contents(), old(Contents()))
      ensures if old(len) < 5 then !abort && accepted == [] && tested == []
              else TRIM_MIN_BYTES <= len && Contents()[..TRIM_MIN_BYTES] == old(Contents()[..TRIM_MIN_BYTES])
      ensures Tested()
      ensures if accepted == [] then Contents() == old(Contents()) else Contents() == accepted[|accepted| - 1]
      ensures onDisk == Contents() <==> !abort || accepted == []
      ensures onDisk == (if abort then old(Contents()) else Contents())
      ensures abort <==> !NoneAborted(aborts, runs)
      ensures !abort && old(len) >= 5 ==> old(len) <= Span(FirstChunk(old(len)), runs)
      ensures !abort && old(len) >= 5 ==>
        PassesMade(cksum, execCksum, old(Contents()), FirstChunk(old(len)), Contents())
      ensures rescored == (old(rescored) || (!abort && accepted != []))
      ensures !abort && accepted != [] ==> cksum(traceOf) == execCksum && traceOf in accepted
    {
      ghost var orig := Contents();
      abort := false;
      OwnSubsequence(orig);
      if len < 5 { return; }
      hide Trimming, Tested, NoneAborted, Span, FirstChunk, PassesMade;
      var needsWrite, clean;
      abort, needsWrite, clean := Passes(orig);
      TrimmingMeans(orig, needsWrite, clean);
      if !abort && needsWrite {
        onDisk := inBuf[..len];
        traceOf := clean;
        rescored := true;
      }
    }

    lemma TrimmingMeans(orig: Data, wrote: bool, saved: Data)
      requires Trimming(orig, wrote, saved)
      ensures len <= inBuf.Length && IsSubsequence(Contents(), orig) && Tested()
      ensures TRIM_MIN_BYTES <= len <= |orig| && Contents()[..TRIM_MIN_BYTES] == orig[..TRIM_MIN_BYTES]
      ensures wrote == (accepted != []) && (wrote ==> Contents() == accepted[|accepted| - 1] && Contents() != orig)
      ensures wrote ==> saved in accepted && cksum(saved) == execCksum
      ensures !wrote ==> Contents() == orig
    {
    }
  }

  lemma KeptAtFirst(s: Data, cksum: Data -> bv32, recorded: bv32)
    requires |s| >= TRIM_MIN_BYTES
    ensures Kept(s, s, cksum, recorded)
  {
    OwnSubsequence(s);
  }

  lemma FirstChunkOf16()
    ensures FirstChunk(16) == 4
  {
    assert Pow2From(16, 16) == 16 && Pow2From(16, 8) == 16 && Pow2From(16, 4) == 16;
    assert Pow2From(16, 2) == 16 && Pow2From(16, 1) == 16;
  }

  /** A run after which the file on disk is behind: every candidate keeps the checksum, and the second
      execution is aborted. */
  method AbortAfterRemoval() returns (trimmer: EntryTrimmer)
    ensures trimmer.len <= trimmer.inBuf.Length && trimmer.onDisk != trimmer.Contents()
  {
    hide Pow2From;
    trimmer := new EntryTrimmer(seq(16, _ => 0), _ => 0, 0, run => run == 1);
    var abort := trimmer.TrimCase();
    FirstChunkOf16();
    assert Span(4, 0) == 4 && Span(4, 1) == 8;
    assert trimmer.aborts(1) && !trimmer.aborts(0);
    assert abort && trimmer.runs >= 2;
    assert trimmer.tested[0] in trimmer.accepted;
  }
}
