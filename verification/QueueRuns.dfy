/** Whole runs of queue operations in which every entry is always scored with the same trace, as it is
    for a program under test that does not vary. */
module QueueRuns {
  import opened Bitmaps
  import opened FavoredCover
  import opened FuzzQueue
  import opened Limits
  import opened Wrappers

  datatype Operation =
    | Add(len: nat, depth: nat, passedDet: bool)
    | Calibration(q: nat, execUs: Option<nat>)
    | Trim(q: nat, len: nat)
    | Finish(q: nat, stopSoon: bool)
    | Cull

  // ---------- What a run does to the entries, apart from winners and traces ----------

  /** An entry without what culling and scoring keep about it. */
  function Bare(e: Entry): Entry {
    e.(favored := false, fsRedundant := false, traceMini := None, tcRef := 0)
  }

  /** The bare entries, and those that were scored. */
  datatype Plain = Plain(entries: seq<Entry>, calibrated: set<nat>)

  /** What one operation does; impossible ones do nothing. */
  function Played(p: Plain, op: Operation): Plain {
    match op
    case Add(len, depth, passedDet) =>
      if len > MAX_FILE then p
      else p.(entries := p.entries + [Entry(len, depth, passedDet, 0, 0, false, false, false, None, 0)])
    case Calibration(q, execUs) =>
      if q >= |p.entries| || q in p.calibrated then p
      else if execUs == None then p.(entries := p.entries[q := p.entries[q].(calFailed := p.entries[q].calFailed + 1)])
      else if execUs.value >= MAX_EXEC_US then p
      else Plain(p.entries[q := p.entries[q].(execUs := execUs.value, calFailed := 0)], p.calibrated + {q})
    case Trim(q, len) =>
      if q >= |p.entries| || len > p.entries[q].len then p
      else Plain(p.entries[q := p.entries[q].(len := len)], p.calibrated + {q})
    case Finish(q, stopSoon) =>
      if q >= |p.entries| || stopSoon || p.entries[q].calFailed != 0 then p
      else p.(entries := p.entries[q := p.entries[q].(wasFuzzed := true)])
    case Cull => p
  }

  function PlayedAll(ops: seq<Operation>): Plain {
    if ops == [] then Plain([], {}) else Played(PlayedAll(ops[..|ops| - 1]), ops[|ops| - 1])
  }

  /** The entries and scores are those of the plain run. */
  ghost predicate Agrees(entries: seq<Entry>, scored: set<(nat, nat)>, traceOf: nat -> seq<bv8>, p: Plain) {
    && |entries| == |p.entries|
    && (forall e :: 0 <= e < |entries| ==> Bare(entries[e]) == p.entries[e])
    && (forall e: nat, i: nat :: (e, i) in scored <==> e in p.calibrated && i in HitsOf(traceOf(e)))
  }

  // ---------- Steady traces ----------

  /** Every kept trace is that of its entry, and entries were only ever scored with their traces. */
  ghost predicate Steady(entries: seq<Entry>, scored: set<(nat, nat)>, traceOf: nat -> seq<bv8>) {
    && (forall e: nat :: e < |entries| && entries[e].traceMini.Some? ==> MiniOf(entries[e], traceOf(e)))
    && (forall p :: p in scored ==> p.1 in HitsOf(traceOf(p.0)))
  }

  /** Steady traces are faithful: every winner's kept trace contains the slots it won. */
  lemma SteadyIsFaithful(entries: seq<Entry>, top: Tops, scored: set<(nat, nat)>, traceOf: nat -> seq<bv8>)
    requires Owned(entries, top) && Ranked(entries, top, scored, {}) && Steady(entries, scored, traceOf)
    ensures FaithfulTraces(entries, top)
  {
    forall i: nat | i < |top| && top[i].Some? ensures FaithfulAt(entries, top, i) {
      var e := top[i].value;
      OwnerIsReferenced(entries, top, i);
      assert OwnedEntry(entries[e], top, e);
      assert (e, i) in scored;
      assert i in BitsOf(entries[e].traceMini.value, |traceOf(e)|);
    }
  }

  /** Scoring an entry with its own trace keeps this, and leaves no entry stale. */
  lemma SteadyScoring(before: seq<Entry>, top: Tops, scored: set<(nat, nat)>, q: nat, traceOf: nat -> seq<bv8>,
                      entries: seq<Entry>, top': Tops)
    requires q < |before| && |top| == |traceOf(q)| && ScoredFrom(before, top, q, traceOf(q), entries, top')
    requires Steady(before, scored, traceOf)
    ensures Steady(entries, scored + ScoredPairs(q, traceOf(q)), traceOf)
    ensures Remaining(scored, {q}, q, traceOf(q)) == {}
  {
    hide HitsOf, BitsOf, ScoredTop;
    forall e: nat | e < |entries| && entries[e].traceMini.Some? ensures MiniOf(entries[e], traceOf(e)) {
      assert OwnedEntry(entries[e], top', e);
      if entries[e].traceMini == before[e].traceMini {
        assert MiniOf(before[e], traceOf(e));
      }
    }
  }

  /** The kept traces are all that matters about the entries. */
  lemma SteadyOfSame(entries: seq<Entry>, entries': seq<Entry>, scored: set<(nat, nat)>, traceOf: nat -> seq<bv8>)
    requires Steady(entries, scored, traceOf) && |entries| <= |entries'|
    requires forall e :: 0 <= e < |entries| ==> entries'[e].traceMini == entries[e].traceMini
    requires forall e :: |entries| <= e < |entries'| ==> entries'[e].traceMini == None
    ensures Steady(entries', scored, traceOf)
  {
    forall e: nat | e < |entries'| && entries'[e].traceMini.Some? ensures MiniOf(entries'[e], traceOf(e)) {
      assert MiniOf(entries[e], traceOf(e));
    }
  }

  /** What holds between the operations of such a run: nothing is stale, and the counters are exact. */
  ghost predicate Running(fuzzer: Fuzzer, traceOf: nat -> seq<bv8>, calibrated: set<nat>, p: Plain)
    reads fuzzer, fuzzer.topRated, fuzzer.list, fuzzer.list.nodes
  {
    && fuzzer.Valid() && fuzzer.CountsExact() && fuzzer.stale == {}
    && Steady(fuzzer.entries, fuzzer.scored, traceOf)
    && Agrees(fuzzer.entries, fuzzer.scored, traceOf, p) && calibrated == p.calibrated
  }

  lemma RunningIsFaithful(fuzzer: Fuzzer, traceOf: nat -> seq<bv8>, calibrated: set<nat>, p: Plain)
    requires Running(fuzzer, traceOf, calibrated, p)
    ensures FaithfulTraces(fuzzer.entries, fuzzer.topRated[..])
  {
    SteadyIsFaithful(fuzzer.entries, fuzzer.topRated[..], fuzzer.scored, traceOf);
  }

  lemma RunningMeans(fuzzer: Fuzzer, traceOf: nat -> seq<bv8>, calibrated: set<nat>, p: Plain)
    requires Running(fuzzer, traceOf, calibrated, p)
    ensures Agrees(fuzzer.entries, fuzzer.scored, traceOf, p)
    ensures forall e: nat, i: nat :: (e, i) in fuzzer.scored ==> BestOwner(fuzzer.entries, fuzzer.topRated[..], e, i)
    ensures var entries, top := fuzzer.entries, fuzzer.topRated[..];
      && |top| == fuzzer.mapSize && Owned(entries, top) && Ranked(entries, top, fuzzer.scored, {})
      && fuzzer.queuedFavored == |FavoredSet(entries)| && fuzzer.pendingFavored == |PendingFavoredSet(entries)|
      && fuzzer.pendingNotFuzzed == |Unfuzzed(entries)|
  {
    hide Owned, Ranked, Agrees, Steady, BestOwner;
    AllBest(fuzzer.entries, fuzzer.topRated[..], fuzzer.scored);
  }

  /** Scores and bare entries after scoring `q`, when only the entry of `q` changed before. */
  lemma AgreesAfterScoring(entries: seq<Entry>, scored: set<(nat, nat)>, traceOf: nat -> seq<bv8>, p: Plain, q: nat,
                           mid: seq<Entry>, after: seq<Entry>, p': Plain)
    requires Agrees(entries, scored, traceOf, p) && q < |entries| && |mid| == |entries|
    requires p' == Plain(p.entries[q := Bare(mid[q])], p.calibrated + {q})
    requires (forall e :: 0 <= e < |entries| && e != q ==> mid[e] == entries[e]) && SameButTraces(mid, after)
    ensures Agrees(after, scored + ScoredPairs(q, traceOf(q)), traceOf, p')
  {
    hide HitsOf;
    forall e | 0 <= e < |after| ensures Bare(after[e]) == p'.entries[e] {
      assert after[e].(tcRef := mid[e].tcRef, traceMini := mid[e].traceMini) == mid[e];
    }
    var all := scored + ScoredPairs(q, traceOf(q));
    forall e: nat, i: nat ensures (e, i) in all <==> e in p'.calibrated && i in HitsOf(traceOf(e)) {
      assert (e, i) in ScoredPairs(q, traceOf(q)) <==> e == q && i in HitsOf(traceOf(q));
    }
  }

  lemma AgreesAfterAdd(entries: seq<Entry>, scored: set<(nat, nat)>, traceOf: nat -> seq<bv8>, p: Plain, len: nat,
                       depth: nat, passedDet: bool)
    requires Agrees(entries, scored, traceOf, p) && len <= MAX_FILE
    ensures Agrees(entries + [NewEntry(len, depth, passedDet)], scored, traceOf, Played(p, Add(len, depth, passedDet)))
  {
    hide HitsOf;
  }

  lemma AgreesAfterFinish(entries: seq<Entry>, scored: set<(nat, nat)>, traceOf: nat -> seq<bv8>, p: Plain, q: nat,
                          stopSoon: bool, after: seq<Entry>)
    requires Agrees(entries, scored, traceOf, p) && q < |entries|
    requires after == if stopSoon || entries[q].calFailed != 0 then entries
                      else entries[q := entries[q].(wasFuzzed := true)]
    ensures Agrees(after, scored, traceOf, Played(p, Finish(q, stopSoon)))
  {
    hide HitsOf;
    assert Bare(entries[q]) == p.entries[q];
  }

  /** A calibration that failed, or gave a speed, before scoring. */
  lemma AgreesAfterCalibration(entries: seq<Entry>, scored: set<(nat, nat)>, traceOf: nat -> seq<bv8>, p: Plain, q: nat,
                               execUs: Option<nat>, run: Option<(nat, seq<bv8>)>, after: seq<Entry>)
    requires Agrees(entries, scored, traceOf, p) && q < |entries| && q !in p.calibrated
    requires execUs.Some? ==> execUs.value < MAX_EXEC_US
    requires run == if execUs.None? then None else Some((execUs.value, traceOf(q)))
    requires SameButTraces(entries[q := Calibrated(entries[q], run)], after)
    requires run.None? ==> after == entries[q := Calibrated(entries[q], run)]
    ensures Agrees(after, if run.None? then scored else scored + ScoredPairs(q, traceOf(q)), traceOf,
                   Played(p, Calibration(q, execUs)))
  {
    assert Bare(entries[q]) == p.entries[q];
    var mid := entries[q := Calibrated(entries[q], run)];
    if run.Some? {
      AgreesAfterScoring(entries, scored, traceOf, p, q, mid, after, Played(p, Calibration(q, execUs)));
    }
  }

  lemma AgreesAfterTrim(entries: seq<Entry>, scored: set<(nat, nat)>, traceOf: nat -> seq<bv8>, p: Plain, q: nat,
                        len: nat, after: seq<Entry>)
    requires Agrees(entries, scored, traceOf, p) && q < |entries| && len <= entries[q].len
    requires SameButTraces(entries[q := entries[q].(len := len)], after)
    ensures Agrees(after, scored + ScoredPairs(q, traceOf(q)), traceOf, Played(p, Trim(q, len)))
  {
    assert Bare(entries[q]) == p.entries[q];
    var mid := entries[q := entries[q].(len := len)];
    AgreesAfterScoring(entries, scored, traceOf, p, q, mid, after, Played(p, Trim(q, len)));
  }

  lemma AgreesAfterCull(entries: seq<Entry>, scored: set<(nat, nat)>, traceOf: nat -> seq<bv8>, p: Plain,
                        after: seq<Entry>)
    requires Agrees(entries, scored, traceOf, p) && |after| == |entries|
    requires forall e :: 0 <= e < |entries| ==> Bare(after[e]) == Bare(entries[e])
    ensures Agrees(after, scored, traceOf, p)
  {
  }

  /** Which entries were scored, after an operation on one that exists. */
  lemma PlayedCalibrated(p: Plain, q: nat, execUs: Option<nat>, len: nat)
    requires q < |p.entries|
    ensures q !in p.calibrated && (execUs.Some? ==> execUs.value < MAX_EXEC_US) ==>
      Played(p, Calibration(q, execUs)).calibrated == if execUs == None then p.calibrated else p.calibrated + {q}
    ensures len <= p.entries[q].len ==> Played(p, Trim(q, len)).calibrated == p.calibrated + {q}
    ensures forall stop :: Played(p, Finish(q, stop)).calibrated == p.calibrated
    ensures forall n, depth, det :: Played(p, Add(n, depth, det)).calibrated == p.calibrated
  {
  }

  method CalibrateSteady(fuzzer: Fuzzer, q: nat, execUs: Option<nat>, traceOf: nat -> seq<bv8>, calibrated: set<nat>,
                         ghost p: Plain)
    returns (after: set<nat>)
    requires Running(fuzzer, traceOf, calibrated, p) && |traceOf(q)| == fuzzer.mapSize
    requires q < |fuzzer.entries| && q !in calibrated && (execUs.Some? ==> execUs.value < MAX_EXEC_US)
    modifies fuzzer, fuzzer.topRated
    ensures Running(fuzzer, traceOf, after, Played(p, Calibration(q, execUs)))
  {
    assert fuzzer.topRated.Length == fuzzer.mapSize;
    assert forall i :: (q, i) !in fuzzer.scored;
    assert Agrees(fuzzer.entries, fuzzer.scored, traceOf, p) && q < |p.entries|;
    PlayedCalibrated(p, q, execUs, 0);
    hide fuzzer.Valid, fuzzer.CountsExact, Steady, Remaining, Owned, ScoredTop, TraceState, HitsOf, Agrees, Played;
    ghost var before, scored := fuzzer.entries, fuzzer.scored;
    var run := if execUs.None? then None else Some((execUs.value, traceOf(q)));
    ghost var mid := before[q := Calibrated(before[q], run)];
    SteadyOfSame(before, mid, scored, traceOf);
    after := if run.None? then calibrated else calibrated + {q};
    ghost var top := fuzzer.topRated[..];
    fuzzer.Calibrate(q, run);
    if run.Some? {
      SteadyScoring(mid, top, scored, q, traceOf, fuzzer.entries, fuzzer.topRated[..]);
    }
    AgreesAfterCalibration(before, scored, traceOf, p, q, execUs, run, fuzzer.entries);
  }

  method TrimSteady(fuzzer: Fuzzer, q: nat, len: nat, traceOf: nat -> seq<bv8>, calibrated: set<nat>, ghost p: Plain)
    returns (after: set<nat>)
    requires Running(fuzzer, traceOf, calibrated, p) && |traceOf(q)| == fuzzer.mapSize
    requires q < |fuzzer.entries| && len <= fuzzer.entries[q].len
    modifies fuzzer, fuzzer.topRated
    ensures Running(fuzzer, traceOf, after, Played(p, Trim(q, len)))
  {
    assert fuzzer.topRated.Length == fuzzer.mapSize;
    RunningEntries(fuzzer, traceOf, calibrated, p);
    PlayedCalibrated(p, q, None, len);
    hide fuzzer.Valid, fuzzer.CountsExact, Steady, Remaining, Owned, ScoredTop, TraceState, HitsOf, Agrees, Played;
    ghost var before, scored, top := fuzzer.entries, fuzzer.scored, fuzzer.topRated[..];
    ghost var mid := before[q := before[q].(len := len)];
    SteadyOfSame(before, mid, scored, traceOf);
    after := calibrated + {q};
    fuzzer.Trimmed(q, len, traceOf(q));
    SteadyScoring(mid, top, scored, q, traceOf, fuzzer.entries, fuzzer.topRated[..]);
    AgreesAfterTrim(before, scored, traceOf, p, q, len, fuzzer.entries);
    assert {} + {q} == {q};
  }

  method CullSteady(fuzzer: Fuzzer, traceOf: nat -> seq<bv8>, calibrated: set<nat>, ghost p: Plain)
    requires Running(fuzzer, traceOf, calibrated, p)
    modifies fuzzer
    ensures Running(fuzzer, traceOf, calibrated, p) && !fuzzer.scoreChanged
    ensures forall i: nat :: i < fuzzer.topRated.Length && fuzzer.topRated[i].Some? ==>
      CoveredByFavored(fuzzer.entries, i)
  {
    RunningIsFaithful(fuzzer, traceOf, calibrated, p);
    assert fuzzer.topRated.Length == fuzzer.mapSize;
    hide fuzzer.Valid, fuzzer.CountsExact, Steady, Owned, FaithfulTraces, CoveredByFavored, Culled, HitsOf, Agrees;
    ghost var before, scored := fuzzer.entries, fuzzer.scored;
    fuzzer.CullQueue();
    SteadyOfSame(before, fuzzer.entries, scored, traceOf);
    AgreesAfterCull(before, scored, traceOf, p, fuzzer.entries);
  }

  method AddSteady(fuzzer: Fuzzer, len: nat, depth: nat, passedDet: bool, traceOf: nat -> seq<bv8>,
                   calibrated: set<nat>, ghost p: Plain)
    requires Running(fuzzer, traceOf, calibrated, p) && len <= MAX_FILE
    modifies fuzzer, fuzzer.list, fuzzer.list.nodes
    ensures Running(fuzzer, traceOf, calibrated, Played(p, Add(len, depth, passedDet)))
    ensures forall k :: 0 <= k < |fuzzer.list.nodes| ==>
      fuzzer.list.nodes[k] in old(fuzzer.list.nodes) || fresh(fuzzer.list.nodes[k])
  {
    ghost var before := fuzzer.entries;
    hide fuzzer.Valid, fuzzer.CountsExact, Steady, HitsOf, Agrees;
    fuzzer.AddToQueue(len, depth, passedDet);
    SteadyOfSame(before, fuzzer.entries, fuzzer.scored, traceOf);
    AgreesAfterAdd(before, fuzzer.scored, traceOf, p, len, depth, passedDet);
  }

  method FinishSteady(fuzzer: Fuzzer, q: nat, stopSoon: bool, traceOf: nat -> seq<bv8>, calibrated: set<nat>,
                      ghost p: Plain)
    requires Running(fuzzer, traceOf, calibrated, p) && q < |fuzzer.entries|
    modifies fuzzer
    ensures Running(fuzzer, traceOf, calibrated, Played(p, Finish(q, stopSoon)))
  {
    ghost var before := fuzzer.entries;
    RunningEntries(fuzzer, traceOf, calibrated, p);
    PlayedCalibrated(p, q, None, 0);
    hide fuzzer.Valid, fuzzer.CountsExact, Steady, HitsOf, Agrees, Played;
    fuzzer.FinishEntry(q, stopSoon);
    SteadyOfSame(before, fuzzer.entries, fuzzer.scored, traceOf);
    AgreesAfterFinish(before, fuzzer.scored, traceOf, p, q, stopSoon, fuzzer.entries);
  }

  /** One operation, or nothing if it is not possible now. */
  method Perform(fuzzer: Fuzzer, op: Operation, traceOf: nat -> seq<bv8>, calibrated: set<nat>, ghost p: Plain)
    returns (after: set<nat>)
    requires Running(fuzzer, traceOf, calibrated, p) && forall e :: |traceOf(e)| == fuzzer.mapSize
    modifies fuzzer, fuzzer.topRated, fuzzer.list, fuzzer.list.nodes
    ensures Running(fuzzer, traceOf, after, Played(p, op))
    ensures forall k :: 0 <= k < |fuzzer.list.nodes| ==>
      fuzzer.list.nodes[k] in old(fuzzer.list.nodes) || fresh(fuzzer.list.nodes[k])
  {
    RunningEntries(fuzzer, traceOf, calibrated, p);
    hide Running;
    after := calibrated;
    match op
    case Add(len, depth, passedDet) =>
      if len <= MAX_FILE { AddSteady(fuzzer, len, depth, passedDet, traceOf, calibrated, p); }
    case Calibration(q, execUs) =>
      if q < |fuzzer.entries| && q !in calibrated && (execUs.None? || execUs.value < MAX_EXEC_US) {
        after := CalibrateSteady(fuzzer, q, execUs, traceOf, calibrated, p);
      }
    case Trim(q, len) =>
      if q < |fuzzer.entries| && len <= fuzzer.entries[q].len {
        after := TrimSteady(fuzzer, q, len, traceOf, calibrated, p);
      }
    case Finish(q, stopSoon) =>
      if q < |fuzzer.entries| { FinishSteady(fuzzer, q, stopSoon, traceOf, calibrated, p); }
    case Cull =>
      CullSteady(fuzzer, traceOf, calibrated, p);
  }

  lemma RunningEntries(fuzzer: Fuzzer, traceOf: nat -> seq<bv8>, calibrated: set<nat>, p: Plain)
    requires Running(fuzzer, traceOf, calibrated, p)
    ensures |fuzzer.entries| == |p.entries| && calibrated == p.calibrated
    ensures forall e :: 0 <= e < |fuzzer.entries| ==> fuzzer.entries[e].len == p.entries[e].len
  {
    hide fuzzer.Valid, fuzzer.CountsExact, Steady;
    forall e | 0 <= e < |fuzzer.entries| ensures fuzzer.entries[e].len == p.entries[e].len {
      assert Bare(fuzzer.entries[e]) == p.entries[e];
    }
  }

  /** Any run that ends in a culling pass: the entries are those of the plain run; every slot that an entry
      was scored with has a winner, which is at least as good as every entry ever scored with it, and is
      set in the kept trace of a favored entry; reference counts, kept traces and all counters are exact. */
  method SteadyRun(mapSize: nat, traceOf: nat -> seq<bv8>, ops: seq<Operation>) returns (fuzzer: Fuzzer)
    requires mapSize > 0 && mapSize % 8 == 0 && forall e :: |traceOf(e)| == mapSize
    ensures Agrees(fuzzer.entries, fuzzer.scored, traceOf, PlayedAll(ops))
    ensures var top := fuzzer.topRated[..];
      && |top| == mapSize
      && (forall i: nat :: i < mapSize && top[i].Some? ==> CoveredByFavored(fuzzer.entries, i))
      && Ranked(fuzzer.entries, top, fuzzer.scored, {}) && Owned(fuzzer.entries, top)
      && FaithfulTraces(fuzzer.entries, top)
    ensures forall e: nat, i: nat :: (e, i) in fuzzer.scored ==> BestOwner(fuzzer.entries, fuzzer.topRated[..], e, i)
    ensures fuzzer.queuedFavored == |FavoredSet(fuzzer.entries)|
    ensures fuzzer.pendingFavored == |PendingFavoredSet(fuzzer.entries)|
    ensures fuzzer.pendingNotFuzzed == |Unfuzzed(fuzzer.entries)|
  {
    fuzzer := new Fuzzer(mapSize);
    var calibrated: set<nat> := {};
    assert Running(fuzzer, traceOf, calibrated, PlayedAll([]));
    hide Running, Owned, Ranked, FaithfulTraces, CoveredByFavored, FavoredSet, PendingFavoredSet, Unfuzzed, Agrees;
    hide BestOwner, Played;
    for i := 0 to |ops|
      invariant fuzzer.mapSize == mapSize && fresh(fuzzer) && fresh(fuzzer.topRated) && fresh(fuzzer.list)
      invariant forall k :: 0 <= k < |fuzzer.list.nodes| ==> fresh(fuzzer.list.nodes[k])
      invariant Running(fuzzer, traceOf, calibrated, PlayedAll(ops[..i]))
    {
      assert ops[..i + 1][..i] == ops[..i];
      calibrated := Perform(fuzzer, ops[i], traceOf, calibrated, PlayedAll(ops[..i]));
    }
    assert ops[..|ops|] == ops;
    CullSteady(fuzzer, traceOf, calibrated, PlayedAll(ops));
    RunningIsFaithful(fuzzer, traceOf, calibrated, PlayedAll(ops));
    RunningMeans(fuzzer, traceOf, calibrated, PlayedAll(ops));
  }

  /** Slot `i` has an owner, and that is at least as good as `e`. */
  ghost predicate BestOwner(entries: seq<Entry>, top: Tops, e: nat, i: nat) {
    && e < |entries| && i < |top| && top[i].Some? && top[i].value < |entries|
    && entries[top[i].value].execUs * entries[top[i].value].len <= entries[e].execUs * entries[e].len
  }

  lemma AllBest(entries: seq<Entry>, top: Tops, scored: set<(nat, nat)>)
    requires Ranked(entries, top, scored, {}) && Sized(entries)
    ensures forall e: nat, i: nat :: (e, i) in scored ==> BestOwner(entries, top, e, i)
  {
    hide Ranked;
    forall e: nat, i: nat | (e, i) in scored ensures BestOwner(entries, top, e, i) {
      RankingIsByProduct(entries, top, scored, {}, e, i);
    }
  }
}
