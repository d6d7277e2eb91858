/** The winners of each bitmap slot, the selection of favored entries, and the counters that the
    fuzzer keeps about its queue. Entries are records in a table, named by their queue index. */
module FuzzQueue {
  import opened Bitmaps
  import opened FavoredCover
  import opened Limits
  import opened QueueList
  import opened Wrappers

  const MAX_EXEC_US := 0x1000_0000_0000
  const U64 := 0x1_0000_0000_0000_0000

  datatype Entry = Entry(
    len: nat, depth: nat, passedDet: bool, execUs: nat, calFailed: nat, wasFuzzed: bool, favored: bool,
    fsRedundant: bool, traceMini: Option<seq<bv8>>, tcRef: nat)

  /** The entry that is added for a file. */
  function NewEntry(len: nat, depth: nat, passedDet: bool): Entry {
    Entry(len, depth, passedDet, 0, 0, false, false, false, None, 0)
  }

  // ---------- The 64-bit product of speed and size ----------

  function Product(execUs: nat, len: nat): nat {
    (execUs * len) % U64
  }

  lemma MulBounds(x: nat, y: nat, y': nat)
    requires y <= y'
    ensures x * y <= x * y'
  {
  }

  /** Shortening an input never makes it less favorable: the product does not wrap around. */
  lemma ProductMonotone(execUs: nat, len: nat, len': nat)
    requires len' <= len <= MAX_FILE && execUs < MAX_EXEC_US
    ensures Product(execUs, len') <= Product(execUs, len)
  {
    MulBounds(execUs, len', len);
    MulBounds(len, execUs, MAX_EXEC_US);
    MulBounds(MAX_EXEC_US, len, MAX_FILE);
    assert execUs * len' <= execUs * len < U64;
  }

  function FavFactor(e: Entry): nat {
    Product(e.execUs, e.len)
  }

  /** `a` runs as fast and is as small as `b`, or better: the product of time and size decides. */
  ghost predicate AsGood(a: Entry, b: Entry) {
    a.execUs * a.len <= b.execUs * b.len
  }

  /** For entries of possible sizes and speeds the 64-bit comparison is that of the products. */
  lemma FactorIsProduct(a: Entry, b: Entry)
    requires a.len <= MAX_FILE && a.execUs < MAX_EXEC_US && b.len <= MAX_FILE && b.execUs < MAX_EXEC_US
    ensures FavFactor(a) <= FavFactor(b) <==> AsGood(a, b)
  {
    ProductFits(a.execUs, a.len);
    ProductFits(b.execUs, b.len);
  }

  lemma ProductFits(execUs: nat, len: nat)
    requires len <= MAX_FILE && execUs < MAX_EXEC_US
    ensures Product(execUs, len) == execUs * len
  {
    assert execUs * len < U64 by {
      MulBounds(len, execUs, MAX_EXEC_US);
      MulBounds(MAX_EXEC_US, len, MAX_FILE);
    }
    NoWrap(execUs * len);
  }

  lemma NoWrap(n: nat)
    requires n < U64
    ensures n % U64 == n
  {
  }

  // ---------- Ownership of slots ----------

  type Tops = seq<Option<nat>>

  /** The slots that entry `e` owns. */
  ghost function Wins(top: Tops, e: nat): set<nat> {
    set i: nat | i < |top| && top[i] == Some(e)
  }

  lemma WinsUpdate(top: Tops, i: nat, q: nat, e: nat)
    requires i < |top|
    ensures Wins(top[i := Some(q)], e) == if e == q then Wins(top, e) + {i} else Wins(top, e) - {i}
    ensures |Wins(top[i := Some(q)], e)| ==
      |Wins(top, e)| + (if e == q then 1 else 0) - (if top[i] == Some(e) then 1 else 0)
  {
    var w, w' := Wins(top, e), Wins(top[i := Some(q)], e);
    assert w' == if e == q then w + {i} else w - {i};
    assert i in w <==> top[i] == Some(e);
  }

  /** Reference counts are exact, and a trace is kept exactly while it is referenced. */
  ghost predicate Owned(entries: seq<Entry>, top: Tops) {
    && |top| % 8 == 0
    && (forall i :: 0 <= i < |top| && top[i].Some? ==> top[i].value < |entries|)
    && (forall e: nat :: e < |entries| ==> OwnedEntry(entries[e], top, e))
  }

  ghost predicate OwnedEntry(entry: Entry, top: Tops, e: nat) {
    && entry.tcRef == |Wins(top, e)|
    && (entry.traceMini.Some? <==> entry.tcRef > 0)
    && (entry.traceMini.Some? ==> |entry.traceMini.value| == |top| / 8)
  }

  /** Every slot ever hit by a scored entry has a winner, which was scored with that slot and is at
      least as favorable as every other entry scored with it, except possibly the `stale` ones. */
  ghost predicate Ranked(entries: seq<Entry>, top: Tops, scored: set<(nat, nat)>, stale: set<nat>) {
    && (forall i: nat :: i < |top| && top[i].Some? ==> (top[i].value, i) in scored)
    && (forall p :: p in scored ==>
          && p.0 < |entries| && p.1 < |top| && top[p.1].Some? && top[p.1].value < |entries|
          && (p.0 !in stale ==> FavFactor(entries[top[p.1].value]) <= FavFactor(entries[p.0])))
  }

  ghost predicate Sized(entries: seq<Entry>) {
    forall e :: e in entries ==> e.len <= MAX_FILE && e.execUs < MAX_EXEC_US
  }

  ghost predicate Shallow(entries: seq<Entry>, maxDepth: nat) {
    forall e :: e in entries ==> e.depth <= maxDepth
  }

  /** Every winner's compacted trace contains the slots it won. */
  ghost predicate FaithfulTraces(entries: seq<Entry>, top: Tops) {
    forall i: nat :: i < |top| && top[i].Some? ==> FaithfulAt(entries, top, i)
  }

  ghost predicate FaithfulAt(entries: seq<Entry>, top: Tops, i: nat)
    requires i < |top| && top[i].Some?
  {
    top[i].value < |entries| && Claims(entries[top[i].value], i)
  }

  /** The compacted trace of `e` contains slot `i`. */
  ghost predicate Claims(e: Entry, i: nat) {
    e.traceMini.Some? && i / 8 < |e.traceMini.value| && HasBit(e.traceMini.value, i)
  }

  // ---------- Counters ----------

  ghost function Unfuzzed(entries: seq<Entry>): set<nat> {
    set e: nat | e < |entries| && !entries[e].wasFuzzed
  }

  ghost function FavoredSet(entries: seq<Entry>): set<nat> {
    set e: nat | e < |entries| && entries[e].favored
  }

  ghost function PendingFavoredSet(entries: seq<Entry>): set<nat> {
    set e: nat | e < |entries| && entries[e].favored && !entries[e].wasFuzzed
  }

  /** Adding an entry that is neither fuzzed nor favored. */
  lemma AppendCounts(entries: seq<Entry>, e: Entry)
    requires !e.wasFuzzed && !e.favored
    ensures |Unfuzzed(entries + [e])| == |Unfuzzed(entries)| + 1
    ensures FavoredSet(entries + [e]) == FavoredSet(entries)
    ensures PendingFavoredSet(entries + [e]) == PendingFavoredSet(entries)
  {
    assert Unfuzzed(entries + [e]) == Unfuzzed(entries) + {|entries|};
  }

  /** Marking an entry as fuzzed. */
  lemma FuzzedCounts(entries: seq<Entry>, q: nat)
    requires q < |entries| && !entries[q].wasFuzzed
    ensures var after := entries[q := entries[q].(wasFuzzed := true)];
      && |Unfuzzed(after)| == |Unfuzzed(entries)| - 1
      && FavoredSet(after) == FavoredSet(entries)
      && |PendingFavoredSet(after)| == |PendingFavoredSet(entries)| - (if entries[q].favored then 1 else 0)
  {
    var after := entries[q := entries[q].(wasFuzzed := true)];
    assert Unfuzzed(after) == Unfuzzed(entries) - {q} && q in Unfuzzed(entries);
    assert PendingFavoredSet(after) == PendingFavoredSet(entries) - {q};
    assert q in PendingFavoredSet(entries) <==> entries[q].favored;
  }

  // ---------- Scoring, on values ----------

  /** The winner of a slot hit by `q`, given the winner so far. */
  ghost function Better(entries: seq<Entry>, w: Option<nat>, q: nat): Option<nat>
    requires q < |entries| && (w.Some? ==> w.value < |entries|)
  {
    if w.None? || FavFactor(entries[q]) <= FavFactor(entries[w.value]) then Some(q) else w
  }

  /** `top'` is `top` after scoring `q` with `trace`. */
  ghost predicate ScoredTop(entries: seq<Entry>, top: Tops, q: nat, trace: seq<bv8>, top': Tops)
    requires q < |entries| && |top| == |trace| && Owned(entries, top)
  {
    && |top'| == |top|
    && (forall i :: 0 <= i < |top| ==>
          top'[i] == if trace[i] != 0 then Better(entries, top[i], q) else top[i])
  }

  /** `q` wins a slot from nobody, and from any owner that is not better, so also in a tie. */
  ghost predicate WinsOver(entries: seq<Entry>, w: Option<nat>, q: nat) {
    q < |entries| && (w == None || (w.value < |entries| && AsGood(entries[q], entries[w.value])))
  }

  lemma AllWinners(entries: seq<Entry>, top: Tops, q: nat, trace: seq<bv8>, top': Tops)
    requires q < |entries| && |top| == |trace| && Owned(entries, top) && Sized(entries)
    requires ScoredTop(entries, top, q, trace, top')
    ensures |top'| == |top| && forall i :: 0 <= i < |top| ==>
      top'[i] == if trace[i] != 0 && WinsOver(entries, top[i], q) then Some(q) else top[i]
  {
    hide Owned, AsGood, Sized;
    forall i: nat | i < |top|
      ensures top'[i] == if trace[i] != 0 && WinsOver(entries, top[i], q) then Some(q) else top[i]
    {
      ScoringWinners(entries, top, q, trace, top', i);
    }
  }

  /** Who owns a slot after scoring `q`: `q` wins each slot that its trace hits if nobody owns it, and from
      any owner that is not better, so also in a tie. All other slots stay with their owners. */
  lemma ScoringWinners(entries: seq<Entry>, top: Tops, q: nat, trace: seq<bv8>, top': Tops, i: nat)
    requires q < |entries| && |top| == |trace| && Owned(entries, top) && Sized(entries)
    requires ScoredTop(entries, top, q, trace, top') && i < |top|
    ensures |top'| == |top| && (top[i].Some? ==> top[i].value < |entries|)
    ensures top'[i] ==
      if trace[i] != 0 && (top[i] == None || AsGood(entries[q], entries[top[i].value])) then Some(q) else top[i]
  {
    hide AsGood, FavFactor;
    assert entries[q] in entries;
    if top[i].Some? {
      assert entries[top[i].value] in entries;
      FactorIsProduct(entries[q], entries[top[i].value]);
    }
  }

  /** The ranking on the fields: the owner of a slot is at least as good as every entry that was ever scored
      with it and is not stale. */
  lemma RankingIsByProduct(entries: seq<Entry>, top: Tops, scored: set<(nat, nat)>, stale: set<nat>, e: nat, i: nat)
    requires Ranked(entries, top, scored, stale) && Sized(entries) && (e, i) in scored
    ensures e < |entries| && i < |top| && top[i].Some? && top[i].value < |entries| && (top[i].value, i) in scored
    ensures e !in stale ==> AsGood(entries[top[i].value], entries[e])
  {
    hide AsGood, FavFactor;
    assert (e, i).0 == e && (e, i).1 == i;
    assert entries[e] in entries && entries[top[i].value] in entries;
    FactorIsProduct(entries[top[i].value], entries[e]);
  }

  ghost function ScoredPairs(q: nat, trace: seq<bv8>): set<(nat, nat)> {
    set i | i in HitsOf(trace) :: (q, i)
  }

  /** Scoring keeps the ranking, and `q` is not stale any more if it is scored again with every slot
      that it was ever scored with. */
  lemma ScoringRanks(entries: seq<Entry>, top: Tops, scored: set<(nat, nat)>, stale: set<nat>, q: nat, trace: seq<bv8>,
                     top': Tops)
    requires q < |entries| && |top| == |trace| && Owned(entries, top) && Ranked(entries, top, scored, stale)
    requires ScoredTop(entries, top, q, trace, top')
    ensures Ranked(entries, top', scored + ScoredPairs(q, trace), Remaining(scored, stale, q, trace))
  {
    hide FavFactor, Owned;
    var scored', stale' := scored + ScoredPairs(q, trace), Remaining(scored, stale, q, trace);
    assert forall i: nat :: i < |top'| && top'[i].Some? ==> (top'[i].value, i) in scored' by {
      forall i: nat | i < |top'| && top'[i].Some? ensures (top'[i].value, i) in scored' {
        assert trace[i] != 0 ==> i in HitsOf(trace);
      }
    }
    forall p | p in scored'
      ensures p.0 < |entries| && p.1 < |top'| && top'[p.1].Some? && top'[p.1].value < |entries|
      ensures p.0 !in stale' ==> FavFactor(entries[top'[p.1].value]) <= FavFactor(entries[p.0])
    {
      assert p == (p.0, p.1);
    }
  }

  /** The stale entries after scoring `q`. */
  ghost function Remaining(scored: set<(nat, nat)>, stale: set<nat>, q: nat, trace: seq<bv8>): set<nat> {
    if forall i :: (q, i) in scored ==> i in HitsOf(trace) then stale - {q} else stale
  }

  /** The ranking looks only at speed and size. */
  lemma RankingOfSame(entries: seq<Entry>, entries': seq<Entry>, top: Tops, scored: set<(nat, nat)>, stale: set<nat>)
    requires Ranked(entries, top, scored, stale) && |entries| <= |entries'|
    requires forall e :: 0 <= e < |entries| ==>
      entries'[e].len == entries[e].len && entries'[e].execUs == entries[e].execUs
    ensures Ranked(entries', top, scored, stale)
  {
  }

  /** Ownership looks only at counts and traces; new entries own nothing. */
  lemma TracesOfSame(entries: seq<Entry>, entries': seq<Entry>, top: Tops)
    requires Owned(entries, top) && |entries| <= |entries'|
    requires forall e :: 0 <= e < |entries| ==>
      entries'[e].tcRef == entries[e].tcRef && entries'[e].traceMini == entries[e].traceMini
    requires forall e :: |entries| <= e < |entries'| ==> entries'[e].tcRef == 0 && entries'[e].traceMini == None
    ensures Owned(entries', top)
    ensures FaithfulTraces(entries, top) ==> FaithfulTraces(entries', top)
  {
    forall e: nat | e < |entries'| ensures OwnedEntry(entries'[e], top, e) {
      if e < |entries| {
        assert OwnedEntry(entries[e], top, e);
      } else {
        assert Wins(top, e) == {};
      }
    }
    if FaithfulTraces(entries, top) {
      forall i: nat | i < |top| && top[i].Some? ensures FaithfulAt(entries', top, i) {
        assert FaithfulAt(entries, top, i);
      }
    }
  }

  /** A shorter `q` keeps every slot it owns; only its other slots need scoring again. */
  lemma ShrinkRanks(entries: seq<Entry>, top: Tops, scored: set<(nat, nat)>, stale: set<nat>, q: nat, len: nat)
    requires q < |entries| && len <= entries[q].len && Sized(entries) && Ranked(entries, top, scored, stale)
    ensures Ranked(entries[q := entries[q].(len := len)], top, scored, stale + {q})
  {
    ProductMonotone(entries[q].execUs, entries[q].len, len);
  }

  /** `entries'` is `entries` after `q` won slot `i` from the owner in `top`: the counts move, the
      loser's trace goes with its last slot, and `q` keeps a trace or gets the new one. */
  ghost predicate WonSlot(entries: seq<Entry>, top: Tops, i: nat, q: nat, trace: seq<bv8>, entries': seq<Entry>)
    requires q < |entries| && i < |top| && Owned(entries, top) && |trace| == |top|
  {
    && |entries'| == |entries|
    && Owned(entries', top[i := Some(q)])
    && (forall e: nat :: e < |entries| ==>
          entries'[e].(tcRef := entries[e].tcRef, traceMini := entries[e].traceMini) == entries[e])
    && (forall e: nat :: e < |entries| && e != q && entries'[e].tcRef > 0 ==>
          entries'[e].traceMini == entries[e].traceMini)
    && (entries'[q].traceMini == entries[q].traceMini || (Wins(top, q) <= {i} && MiniOf(entries'[q], trace)))
  }

  ghost predicate MiniOf(e: Entry, trace: seq<bv8>) {
    && e.traceMini.Some? && |trace| <= 8 * |e.traceMini.value|
    && BitsOf(e.traceMini.value, |trace|) == HitsOf(trace)
  }

  /** One reference less; the trace goes with the last one. */
  function Dropped(e: Entry): Entry
    requires e.tcRef > 0
  {
    if e.tcRef == 1 then e.(tcRef := 0, traceMini := None) else e.(tcRef := e.tcRef - 1)
  }

  /** One reference more; the trace is stored with the first one. */
  function Gained(e: Entry, mini: seq<bv8>): Entry {
    e.(tcRef := e.tcRef + 1, traceMini := if e.traceMini == None then Some(mini) else e.traceMini)
  }

  function Released(entries: seq<Entry>, p: Option<nat>): seq<Entry>
    requires p.Some? ==> p.value < |entries| && entries[p.value].tcRef > 0
  {
    if p.None? then entries else entries[p.value := Dropped(entries[p.value])]
  }

  lemma OwnerIsReferenced(entries: seq<Entry>, top: Tops, i: nat)
    requires Owned(entries, top) && i < |top| && top[i].Some?
    ensures top[i].value < |entries| && entries[top[i].value].tcRef > 0
    ensures entries[top[i].value].tcRef == 1 ==> Wins(top, top[i].value) == {i}
  {
    var p := top[i].value;
    assert OwnedEntry(entries[p], top, p);
    assert i in Wins(top, p);
    if entries[p].tcRef == 1 {
      OnlyMember(Wins(top, p), i);
    }
  }

  lemma OnlyMember(s: set<nat>, i: nat)
    requires |s| == 1 && i in s
    ensures s == {i}
  {
    assert |s - {i}| == 0;
  }

  lemma WinningSlotEntry(entries: seq<Entry>, top: Tops, i: nat, q: nat, mini: seq<bv8>, e: nat)
    requires Owned(entries, top) && i < |top| && q < |entries| && e < |entries| && |mini| == |top| / 8
    requires top[i].Some? ==> top[i].value < |entries| && entries[top[i].value].tcRef > 0
    ensures var mid := Released(entries, top[i]);
      OwnedEntry(mid[q := Gained(mid[q], mini)][e], top[i := Some(q)], e)
  {
    assert OwnedEntry(entries[e], top, e);
    WinsUpdate(top, i, q, e);
  }

  /** Releasing the old owner and referencing the new one keeps ownership exact. */
  lemma WinningSlot(entries: seq<Entry>, top: Tops, i: nat, q: nat, trace: seq<bv8>, mini: seq<bv8>)
    requires Owned(entries, top) && i < |top| && q < |entries| && |trace| == |top|
    requires |mini| == |top| / 8 && BitsOf(mini, |top|) == HitsOf(trace)
    requires top[i].Some? ==> top[i].value < |entries| && entries[top[i].value].tcRef > 0
    ensures var mid := Released(entries, top[i]);
      WonSlot(entries, top, i, q, trace, mid[q := Gained(mid[q], mini)])
  {
    var mid := Released(entries, top[i]);
    var after := mid[q := Gained(mid[q], mini)];
    forall e: nat | e < |entries| && e != q
      ensures after[e].tcRef > 0 ==> after[e].traceMini == entries[e].traceMini
      ensures after[e].(tcRef := entries[e].tcRef, traceMini := entries[e].traceMini) == entries[e]
    {
    }
    assert Owned(after, top[i := Some(q)]) by {
      forall e: nat | e < |entries| ensures OwnedEntry(after[e], top[i := Some(q)], e) {
        WinningSlotEntry(entries, top, i, q, mini, e);
      }
    }
    if after[q].traceMini != entries[q].traceMini {
      assert OwnedEntry(entries[q], top, q);
      if top[i] == Some(q) {
        OwnerIsReferenced(entries, top, i);
      } else {
        assert Wins(top, q) == {};
      }
    }
  }

  /** The records agree except for reference counts and traces. */
  ghost predicate SameButTraces(entries: seq<Entry>, entries': seq<Entry>) {
    && |entries'| == |entries|
    && (forall e :: 0 <= e < |entries| ==>
          entries'[e].(tcRef := entries[e].tcRef, traceMini := entries[e].traceMini) == entries[e])
  }

  /** An entry after a calibration that failed, or that gave a speed and a trace. */
  ghost function Calibrated(e: Entry, run: Option<(nat, seq<bv8>)>): Entry {
    if run.None? then e.(calFailed := e.calFailed + 1) else e.(execUs := run.value.0, calFailed := 0)
  }

  /** While `q` is scored: every other trace still held is the old one; so is that of `q`, unless it
      was replaced by the new one, and then every slot of `q` was won with the new trace. */
  ghost predicate TraceState(before: seq<Entry>, q: nat, trace: seq<bv8>, entries: seq<Entry>, top: Tops)
    requires q < |before| == |entries| && |top| == |trace|
  {
    && (forall e: nat :: e < |entries| && e != q && entries[e].tcRef > 0 ==>
          entries[e].traceMini == before[e].traceMini)
    && (entries[q].traceMini == before[q].traceMini ||
        (MiniOf(entries[q], trace) && Wins(top, q) <= HitsOf(trace)))
  }

  lemma TraceStep(before: seq<Entry>, q: nat, trace: seq<bv8>, entries: seq<Entry>, top: Tops, i: nat,
                  entries': seq<Entry>)
    requires q < |before| == |entries| && i < |top| == |trace| && trace[i] != 0
    requires Owned(entries, top) && TraceState(before, q, trace, entries, top)
    requires WonSlot(entries, top, i, q, trace, entries')
    ensures TraceState(before, q, trace, entries', top[i := Some(q)])
  {
    forall e: nat | e < |entries| && e != q && entries'[e].tcRef > 0
      ensures entries'[e].traceMini == before[e].traceMini
    {
      assert OwnedEntry(entries'[e], top[i := Some(q)], e) && OwnedEntry(entries[e], top, e);
    }
    WinsUpdate(top, i, q, q);
  }

  /** Scoring keeps traces faithful if the entry's kept trace, if any, contains the new hits. */
  lemma TraceStateFaithful(before: seq<Entry>, top: Tops, q: nat, trace: seq<bv8>, entries: seq<Entry>, top': Tops)
    requires q < |before| == |entries| && |top| == |trace| && Owned(before, top) && Owned(entries, top')
    requires ScoredTop(before, top, q, trace, top') && TraceState(before, q, trace, entries, top')
    requires FaithfulTraces(before, top)
    requires before[q].traceMini.Some? ==>
      |top| <= 8 * |before[q].traceMini.value| && HitsOf(trace) <= BitsOf(before[q].traceMini.value, |top|)
    ensures FaithfulTraces(entries, top')
  {
    forall i: nat | i < |top'| && top'[i].Some? ensures FaithfulAt(entries, top', i) {
      var e := top'[i].value;
      assert OwnedEntry(entries[e], top', e);
      OwnerIsReferenced(entries, top', i);
      assert i in Wins(top', e);
      if top'[i] == top[i] {
        assert FaithfulAt(before, top, i);
      }
      if e == q {
        if entries[q].traceMini == before[q].traceMini {
          assert trace[i] != 0 ==> i in HitsOf(trace);
        } else {
          assert i in BitsOf(entries[q].traceMini.value, |trace|);
        }
      }
    }
  }

  // ---------- Culling, on values ----------

  /** What the compacted traces claim, over `n` slots. */
  ghost function CoverOf(entries: seq<Entry>, n: nat): map<nat, set<nat>> {
    map e: nat | e < |entries| && entries[e].traceMini.Some? && n <= 8 * |entries[e].traceMini.value| ::
      BitsOf(entries[e].traceMini.value, n)
  }

  /** The entries with exactly those in `favored` flagged. */
  ghost function Flagged(entries: seq<Entry>, favored: set<nat>): (r: seq<Entry>)
    ensures |r| == |entries|
  {
    seq(|entries|, e requires 0 <= e < |entries| => entries[e].(favored := e in favored))
  }

  ghost function Marked(entries: seq<Entry>): (r: seq<Entry>)
    ensures |r| == |entries|
  {
    seq(|entries|, e requires 0 <= e < |entries| => entries[e].(fsRedundant := !entries[e].favored))
  }

  /** The picks that were not fuzzed yet. */
  ghost function Pending(entries: seq<Entry>, picks: seq<nat>): seq<nat> {
    if picks == [] then []
    else
      var rest, e := Pending(entries, picks[..|picks| - 1]), picks[|picks| - 1];
      if e < |entries| && !entries[e].wasFuzzed then rest + [e] else rest
  }

  lemma OwnedSize(entries: seq<Entry>, top: Tops)
    requires Owned(entries, top)
    ensures |top| % 8 == 0 && |top| / 8 * 8 == |top|
  {
  }

  lemma OwnedTrace(entries: seq<Entry>, top: Tops, e: nat)
    requires Owned(entries, top) && e < |entries| && entries[e].tcRef > 0
    ensures entries[e].traceMini.Some? && |entries[e].traceMini.value| == |top| / 8
    ensures forall i: nat :: i < |top| ==>
      (i in Slots(CoverOf(entries, |top|), e) <==> HasBit(entries[e].traceMini.value, i))
  {
    assert OwnedEntry(entries[e], top, e);
    OwnedSize(entries, top);
    assert Slots(CoverOf(entries, |top|), e) == BitsOf(entries[e].traceMini.value, |top|);
  }

  lemma AllBits(m: seq<bv8>)
    requires forall j :: 0 <= j < |m| ==> m[j] == 255
    ensures forall i: nat :: i < 8 * |m| ==> HasBit(m, i)
  {
    forall i: nat | i < 8 * |m| ensures HasBit(m, i) {
      BitCases(i % 8);
    }
  }

  /** Flagging one more pick. */
  lemma FlaggedMore(entries: seq<Entry>, done: seq<nat>, e: nat)
    requires e < |entries|
    ensures var f := Flagged(entries, ElementsOf(done));
      Flagged(entries, ElementsOf(done + [e])) == f[e := f[e].(favored := true)]
    ensures |Pending(entries, done + [e])| == |Pending(entries, done)| + (if entries[e].wasFuzzed then 0 else 1)
  {
    assert (done + [e])[..|done|] == done;
  }

  lemma PendingNone(entries: seq<Entry>)
    ensures |Pending(entries, [])| == 0 && Flagged(entries, {}) == Flagged(entries, ElementsOf([]))
  {
    assert ElementsOf<nat>([]) == {};
  }

  /** Flagging and marking leave everything but the flags as it was. */
  lemma FlaggedFacts(entries: seq<Entry>, top: Tops, scored: set<(nat, nat)>, stale: set<nat>, favored: set<nat>)
    requires Owned(entries, top) && Ranked(entries, top, scored, stale) && Sized(entries)
    ensures var f := Flagged(entries, favored);
      && Owned(f, top) && Ranked(f, top, scored, stale) && Sized(f)
      && Owned(Marked(f), top) && Ranked(Marked(f), top, scored, stale) && Sized(Marked(f))
      && Unfuzzed(Marked(f)) == Unfuzzed(entries)
      && (FaithfulTraces(entries, top) <==> FaithfulTraces(Marked(f), top))
  {
    var f := Flagged(entries, favored);
    TracesOfSame(entries, f, top);
    TracesOfSame(f, Marked(f), top);
    TracesOfSame(Marked(f), entries, top);
    RankingOfSame(entries, f, top, scored, stale);
    RankingOfSame(f, Marked(f), top, scored, stale);
  }

  lemma {:induction false} PendingElements(entries: seq<Entry>, p: seq<nat>)
    requires forall e :: e in p ==> e < |entries|
    ensures ElementsOf(Pending(entries, p)) == set e | e in p && !entries[e].wasFuzzed
    ensures NoDuplicates(p) ==> NoDuplicates(Pending(entries, p))
  {
    if p != [] {
      var p', x := p[..|p| - 1], p[|p| - 1];
      assert p == p' + [x];
      assert forall e :: e in p' ==> e in p;
      PendingElements(entries, p');
      var rest := Pending(entries, p');
      assert forall e :: e in rest <==> e in ElementsOf(rest);
      if NoDuplicates(p) {
        assert x !in p' by {
          assert forall k :: 0 <= k < |p'| ==> p'[k] == p[k] != p[|p| - 1];
        }
        assert NoDuplicates(p') by {
          assert forall k :: 0 <= k < |p'| ==> p'[k] == p[k];
        }
        assert x !in rest by {
          assert x !in ElementsOf(rest);
        }
        assert NoDuplicates(rest + [x]);
      }
    }
  }

  /** The counter of favored entries after a culling pass is never too small, and exact if and only if
      no entry owns two slots that are both not covered yet when the pass reaches them. */
  lemma CullCounts(entries: seq<Entry>, top: Tops, queued: nat)
    requires Owned(entries, top) && Selected(entries, top, queued)
    ensures queued >= |FavoredSet(entries)|
    ensures queued == |FavoredSet(entries)| <==> forall e :: !OwnsTwoUnseen(top, CoverOf(entries, |top|), e, 0)
  {
    var picks := PicksFor(entries, top);
    PicksInRange(entries, top);
    assert FavoredSet(entries) == ElementsOf(picks);
    CountDistinct(picks);
    PicksDistinct(top, CoverOf(entries, |top|));
  }

  /** The same for the counter of favored entries that were not fuzzed yet. */
  lemma CullPending(entries: seq<Entry>, top: Tops, queued: nat)
    requires Owned(entries, top) && Selected(entries, top, queued)
    ensures var pending := Pending(entries, PicksFor(entries, top));
      && |pending| >= |PendingFavoredSet(entries)|
      && (|pending| == |PendingFavoredSet(entries)| <==>
            forall e: nat :: e < |entries| && !entries[e].wasFuzzed ==>
                !OwnsTwoUnseen(top, CoverOf(entries, |top|), e, 0))
  {
    hide OwnsTwoUnseen, Picks, CoverOf;
    var picks := PicksFor(entries, top);
    var pending := Pending(entries, picks);
    PicksInRange(entries, top);
    PendingElements(entries, picks);
    assert PendingFavoredSet(entries) == ElementsOf(pending);
    CountDistinct(pending);
    RepeatsAre(pending);
    forall e: nat
      ensures Repeated(pending, e) <==>
        e < |entries| && !entries[e].wasFuzzed && OwnsTwoUnseen(top, CoverOf(entries, |top|), e, 0)
    {
      PendingTimes(entries, picks, e);
      PicksOf(top, CoverOf(entries, |top|), e, 0);
    }
  }

  lemma {:induction false} PendingTimes(entries: seq<Entry>, p: seq<nat>, e: nat)
    ensures multiset(Pending(entries, p))[e] == if e < |entries| && !entries[e].wasFuzzed then multiset(p)[e] else 0
  {
    if p != [] {
      PendingTimes(entries, p[..|p| - 1], e);
      assert p == p[..|p| - 1] + [p[|p| - 1]];
    }
  }

  /** Faithful traces let no entry own two such slots. */
  lemma FaithfulOnce(entries: seq<Entry>, top: Tops)
    requires Owned(entries, top) && FaithfulTraces(entries, top)
    ensures forall e :: !OwnsTwoUnseen(top, CoverOf(entries, |top|), e, 0)
  {
    FaithfulCover(entries, top);
    PicksExact(top, CoverOf(entries, |top|), 0, {});
    PicksDistinct(top, CoverOf(entries, |top|));
  }

  lemma FaithfulCover(entries: seq<Entry>, top: Tops)
    requires Owned(entries, top) && FaithfulTraces(entries, top)
    ensures Faithful(top, CoverOf(entries, |top|))
  {
    forall i: nat | i < |top| && top[i].Some? ensures i in Slots(CoverOf(entries, |top|), top[i].value) {
      assert FaithfulAt(entries, top, i);
      OwnerIsReferenced(entries, top, i);
      OwnedTrace(entries, top, top[i].value);
    }
  }

  ghost function PicksFor(entries: seq<Entry>, top: Tops): seq<nat> {
    Picks(top, CoverOf(entries, |top|), 0, {})
  }

  /** The favored entries are those that the selection picks now, and were counted that often. */
  ghost predicate Selected(entries: seq<Entry>, top: Tops, queued: nat) {
    && (forall e: nat :: e < |entries| ==> (entries[e].favored <==> e in PicksFor(entries, top)))
    && queued == |PicksFor(entries, top)|
  }

  lemma PicksInRange(entries: seq<Entry>, top: Tops)
    requires Owned(entries, top)
    ensures forall e :: e in PicksFor(entries, top) ==> e < |entries|
  {
  }

  /** The selection looks only at traces; new entries without a trace change nothing. */
  lemma SelectedOfSame(entries: seq<Entry>, entries': seq<Entry>, top: Tops, queued: nat)
    requires Owned(entries, top) && Selected(entries, top, queued) && |entries| <= |entries'|
    requires forall e :: 0 <= e < |entries| ==>
      entries'[e].favored == entries[e].favored && entries'[e].traceMini == entries[e].traceMini
    requires forall e :: |entries| <= e < |entries'| ==> !entries'[e].favored && entries'[e].traceMini == None
    ensures Selected(entries', top, queued)
  {
    CoverOfSame(entries, entries', |top|);
    PicksInRange(entries, top);
  }

  lemma CoverOfSame(entries: seq<Entry>, entries': seq<Entry>, n: nat)
    requires |entries| <= |entries'|
    requires forall e :: 0 <= e < |entries| ==> entries'[e].traceMini == entries[e].traceMini
    requires forall e :: |entries| <= e < |entries'| ==> entries'[e].traceMini == None
    ensures CoverOf(entries', n) == CoverOf(entries, n)
  {
  }

  /** The queue after a culling pass that found changed scores. */
  ghost function Culled(entries: seq<Entry>, top: Tops): seq<Entry> {
    Marked(Flagged(entries, ElementsOf(PicksFor(entries, top))))
  }

  lemma CulledFlags(entries: seq<Entry>, top: Tops)
    ensures |Culled(entries, top)| == |entries|
    ensures forall e :: 0 <= e < |entries| ==>
      var c := Culled(entries, top)[e];
      c == entries[e].(favored := c.favored, fsRedundant := !c.favored)
  {
  }

  lemma CulledSelected(entries: seq<Entry>, top: Tops)
    ensures Selected(Culled(entries, top), top, |PicksFor(entries, top)|)
    ensures Pending(Culled(entries, top), PicksFor(Culled(entries, top), top)) ==
      Pending(entries, PicksFor(entries, top))
  {
    CoverOfSame(entries, Culled(entries, top), |top|);
    PendingOfSame(entries, Culled(entries, top), PicksFor(entries, top));
  }

  lemma {:induction false} PendingOfSame(entries: seq<Entry>, entries': seq<Entry>, p: seq<nat>)
    requires |entries'| == |entries|
    requires forall e :: 0 <= e < |entries| ==> entries'[e].wasFuzzed == entries[e].wasFuzzed
    ensures Pending(entries', p) == Pending(entries, p)
  {
    if p != [] {
      PendingOfSame(entries, entries', p[..|p| - 1]);
    }
  }

  ghost predicate CoveredByFavored(c: seq<Entry>, i: nat) {
    exists e: nat :: e < |c| && c[e].favored && Claims(c[e], i)
  }

  lemma PickCovers(entries: seq<Entry>, top: Tops, queued: nat, e: nat, i: nat)
    requires |top| % 8 == 0 && Selected(entries, top, queued) && e in PicksFor(entries, top)
    requires i < |top| && i in Slots(CoverOf(entries, |top|), e)
    ensures CoveredByFavored(entries, i)
  {
    assert Claims(entries[e], i);
  }

  /** The main result about culling: with faithful traces every slot that has a winner is set in the
      compacted trace of a favored entry. */
  lemma CullCovers(entries: seq<Entry>, top: Tops, queued: nat, i: nat)
    requires Owned(entries, top) && Selected(entries, top, queued) && FaithfulTraces(entries, top)
    requires i < |top| && top[i].Some?
    ensures CoveredByFavored(entries, i)
  {
    hide Picks, FaithfulTraces, Faithful, CoverOf, Slots, CoveredByFavored, Selected;
    var cover := CoverOf(entries, |top|);
    FaithfulCover(entries, top);
    PicksExact(top, cover, 0, {});
    assert Covered(Picks(top, cover, 0, {}), cover, i);
    var e :| e in Picks(top, cover, 0, {}) && i in Slots(cover, e);
    PickCovers(entries, top, queued, e, i);
  }

  /** Without faithful traces a slot with a winner may be covered by no favored trace, but then its
      winner is favored itself. */
  lemma CullReaches(entries: seq<Entry>, top: Tops, queued: nat, i: nat)
    requires Owned(entries, top) && Selected(entries, top, queued) && i < |top| && top[i].Some?
    ensures top[i].value < |entries| && (entries[top[i].value].favored || CoveredByFavored(entries, i))
  {
    hide Picks, CoverOf, Slots, CoveredByFavored;
    var cover := CoverOf(entries, |top|);
    PicksReach(top, cover, 0, {});
    if top[i].value !in Picks(top, cover, 0, {}) {
      assert Covered(Picks(top, cover, 0, {}), cover, i);
      var e :| e in Picks(top, cover, 0, {}) && i in Slots(cover, e);
      PickCovers(entries, top, queued, e, i);
    }
  }

  // ---------- Scoring that wins nothing ----------

  /** `entries` and `top` come from scoring `q` with `trace`. */
  ghost predicate ScoredFrom(before: seq<Entry>, top: Tops, q: nat, trace: seq<bv8>, entries: seq<Entry>, top': Tops)
    requires q < |before| && |top| == |trace|
  {
    && Owned(before, top) && ScoredTop(before, top, q, trace, top')
    && Owned(entries, top') && SameButTraces(before, entries)
    && TraceState(before, q, trace, entries, top')
  }

  /** If `q` won no slot, then nothing has changed. */
  lemma NothingWon(before: seq<Entry>, top: Tops, q: nat, trace: seq<bv8>, entries: seq<Entry>, top': Tops)
    requires q < |before| && |top| == |trace| && ScoredFrom(before, top, q, trace, entries, top')
    requires Wins(top', q) * HitsOf(trace) == {}
    ensures top' == top
    ensures forall e :: 0 <= e < |before| ==>
      entries[e].favored == before[e].favored && entries[e].traceMini == before[e].traceMini
  {
    hide Owned, ScoredTop, TraceState, Wins, HitsOf;
    UnwonSlots(before, top, q, trace, top');
    forall e: nat | e < |before| ensures entries[e].traceMini == before[e].traceMini {
      UnwonEntry(before, top, q, trace, entries, e);
    }
  }

  lemma UnwonSlots(before: seq<Entry>, top: Tops, q: nat, trace: seq<bv8>, top': Tops)
    requires q < |before| && |top| == |trace| && Owned(before, top)
    requires ScoredTop(before, top, q, trace, top') && Wins(top', q) * HitsOf(trace) == {}
    ensures top' == top
  {
    hide Owned, FavFactor;
    forall i | 0 <= i < |top| ensures top'[i] == top[i] {
      assert trace[i] != 0 && top'[i] == Some(q) ==> i in Wins(top', q) * HitsOf(trace);
    }
  }

  lemma WinsAmong(wins: set<nat>, hits: set<nat>)
    requires wins * hits == {}
    ensures wins <= hits ==> |wins| == 0
  {
    if wins <= hits {
      assert wins == wins * hits;
    }
  }

  lemma UnwonEntry(before: seq<Entry>, top: Tops, q: nat, trace: seq<bv8>, entries: seq<Entry>, e: nat)
    requires e < |before| == |entries| && q < |before| && |top| == |trace| && Owned(before, top) && Owned(entries, top)
    requires TraceState(before, q, trace, entries, top) && Wins(top, q) * HitsOf(trace) == {}
    ensures entries[e].traceMini == before[e].traceMini
  {
    hide HitsOf, BitsOf;
    assert OwnedEntry(before[e], top, e) && OwnedEntry(entries[e], top, e);
    hide Owned;
    if e == q && entries[q].traceMini != before[q].traceMini {
      WinsAmong(Wins(top, q), HitsOf(trace));
    }
  }

  lemma HasMember(p: seq<nat>)
    ensures p != [] ==> exists e :: e in p
  {
    if p != [] {
      assert p[0] in p;
    }
  }

  /** Nobody owns a slot, and nobody is selected. */
  lemma NothingSelected(top: Tops)
    requires forall i :: 0 <= i < |top| ==> top[i] == None
    ensures Selected([], top, 0)
  {
    var p := PicksFor([], top);
    assert forall e :: e in p ==> Some(e) in top;
    HasMember(p);
  }

  lemma Overwritten(s: seq<Entry>, i: nat, a: Entry, b: Entry)
    requires i < |s|
    ensures s[i := a][i := b] == s[i := b]
  {
  }

  class Fuzzer {
    const mapSize: nat
    const topRated: array<Option<nat>>
    const list: Queue
    var entries: seq<Entry>
    var queuedFavored: nat
    var pendingFavored: nat
    var pendingNotFuzzed: nat
    var scoreChanged: bool
    var maxDepth: nat
    ghost var scored: set<(nat, nat)>          // (entry, slot): scored with a trace that hit the slot
    ghost var stale: set<nat>                  // entries that got shorter and were scored with fewer slots than before

    /** The invariant between operations. Without changed scores the last selection still stands. */
    ghost predicate Valid()
      reads this, topRated, list, list.nodes
    {
      && topRated.Length == mapSize && Owned(entries, topRated[..])
      && Ranked(entries, topRated[..], scored, stale) && Sized(entries)
      && list.Linked() && |list.nodes| == |entries|
      && pendingNotFuzzed == |Unfuzzed(entries)|
      && queuedFavored >= |FavoredSet(entries)|
      && pendingFavored >= |PendingFavoredSet(entries)|
      && Shallow(entries, maxDepth)
      && (!scoreChanged ==> Selected(entries, topRated[..], queuedFavored))
    }

    /** The counters of favored entries are exact, not just large enough. */
    ghost predicate CountsExact()
      reads this
    {
      && queuedFavored == |FavoredSet(entries)|
      && pendingFavored == |PendingFavoredSet(entries)|
    }

    constructor (mapSize: nat)
      requires mapSize > 0 && mapSize % 8 == 0
      ensures Valid()
      ensures CountsExact()
      ensures FaithfulTraces(entries, topRated[..])
      ensures fresh(topRated) && fresh(list) && list.nodes == [] && entries == [] && this.mapSize == mapSize
      ensures scored == {} && stale == {} && forall i :: 0 <= i < mapSize ==> topRated[i] == None
    {
      this.mapSize := mapSize;
      topRated := new Option<nat>[mapSize](_ => None);
      list := new Queue();
      entries, scored, stale := [], {}, {};
      queuedFavored, pendingFavored, pendingNotFuzzed, scoreChanged, maxDepth := 0, 0, 0, false, 0;
      new;
      NothingSelected(topRated[..]);
      assert Unfuzzed(entries) == {} && FavoredSet(entries) == {} && PendingFavoredSet(entries) == {};
    }

    // ---------- Adding, finding and finishing entries ----------

    method AddToQueue(len: nat, depth: nat, passedDet: bool)
      requires Valid() && len <= MAX_FILE
      modifies `entries, `pendingNotFuzzed, `maxDepth, list, list.nodes
      ensures Valid() && maxDepth == if depth > old(maxDepth) then depth else old(maxDepth)
      ensures entries == old(entries) + [NewEntry(len, depth, passedDet)]
      ensures forall k :: 0 <= k < |list.nodes| ==> list.nodes[k] in old(list.nodes) || fresh(list.nodes[k])
      ensures CountsExact() <==> old(CountsExact())
      ensures old(FaithfulTraces(entries, topRated[..])) ==> FaithfulTraces(entries, topRated[..])
    {
      hide Owned, Ranked, FaithfulTraces, Unfuzzed, FavoredSet, PendingFavoredSet, Selected;
      var e := NewEntry(len, depth, passedDet);
      AppendCounts(entries, e);
      RankingOfSame(entries, entries + [e], topRated[..], scored, stale);
      TracesOfSame(entries, entries + [e], topRated[..]);
      if !scoreChanged { SelectedOfSame(entries, entries + [e], topRated[..], queuedFavored); }
      list.Append();
      assert forall k :: 0 <= k < |old(list.nodes)| ==> list.nodes[k] == old(list.nodes)[k];
      if depth > maxDepth {
        maxDepth := depth;
      }
      pendingNotFuzzed := pendingNotFuzzed + 1;
      entries := entries + [e];
    }

    /** The splice partner for a random `id`: the first entry from there on that is long enough and
        is not the current one. */
    method SpliceTarget(id: nat, cur: nat) returns (target: QueueNode?, splicingWith: nat)
      requires Valid() && id < |entries|
      ensures id <= splicingWith <= |entries|
      ensures forall k :: id <= k < splicingWith ==> entries[k].len < 2 || k == cur
      ensures splicingWith < |entries| ==> target != null && target.id == splicingWith
      ensures splicingWith < |entries| ==> entries[splicingWith].len >= 2 && splicingWith != cur
      ensures splicingWith == |entries| ==> target == null
    {
      target := list.Seek(id);
      splicingWith := id;
      while target != null && (entries[target.id].len < 2 || target.id == cur)
        invariant id <= splicingWith <= |entries|
        invariant forall k :: id <= k < splicingWith ==> entries[k].len < 2 || k == cur
        invariant splicingWith < |entries| ==> target == list.nodes[splicingWith]
        invariant splicingWith == |entries| ==> target == null
        decreases |entries| - splicingWith
      {
        target := target.next;
        splicingWith := splicingWith + 1;
      }
    }

    /** Leaving an entry: the first complete visit takes it off the pending counts. */
    method FinishEntry(q: nat, stopSoon: bool)
      requires Valid() && q < |entries|
      modifies `entries, `pendingNotFuzzed, `pendingFavored
      ensures Valid()
      ensures entries == if stopSoon || old(entries)[q].calFailed != 0 then old(entries)
                         else old(entries)[q := old(entries)[q].(wasFuzzed := true)]
      ensures CountsExact() <==> old(CountsExact())
      ensures old(FaithfulTraces(entries, topRated[..])) ==> FaithfulTraces(entries, topRated[..])
    {
      hide Owned, Ranked, FaithfulTraces, Unfuzzed, FavoredSet, PendingFavoredSet, Selected;
      if !stopSoon && entries[q].calFailed == 0 && !entries[q].wasFuzzed {
        FuzzedCounts(entries, q);
        ghost var after := entries[q := entries[q].(wasFuzzed := true)];
        RankingOfSame(entries, after, topRated[..], scored, stale);
        TracesOfSame(entries, after, topRated[..]);
        assert Sized(after);
        if !scoreChanged { SelectedOfSame(entries, after, topRated[..], queuedFavored); }
        pendingNotFuzzed := pendingNotFuzzed - 1;
        if entries[q].favored {
          pendingFavored := pendingFavored - 1;
        }
        entries := entries[q := entries[q].(wasFuzzed := true)];
      }
    }

    // ---------- Scoring ----------

    method NewMini(trace: seq<bv8>) returns (mini: seq<bv8>)
      requires |trace| == mapSize && mapSize % 8 == 0
      ensures |mini| == mapSize / 8 && BitsOf(mini, mapSize) == HitsOf(trace)
    {
      var dst := new bv8[mapSize / 8](_ => 0);
      MinimizeBits(dst, trace);
      mini := dst[..];
    }

    /** `q` wins slot `i`. */
    method WinSlot(i: nat, q: nat, trace: seq<bv8>)
      requires topRated.Length == mapSize && mapSize % 8 == 0 && Owned(entries, topRated[..])
      requires q < |entries| && i < mapSize == |trace|
      modifies `entries, `scoreChanged, topRated
      ensures topRated[..] == old(topRated[..])[i := Some(q)] && scoreChanged
      ensures WonSlot(old(entries), old(topRated[..]), i, q, trace, entries)
    {
      hide Owned, WonSlot;
      ghost var before, top: Tops := entries, topRated[..];
      if topRated[i].Some? {
        var p := topRated[i].value;
        OwnerIsReferenced(entries, top, i);
        entries := entries[p := entries[p].(tcRef := entries[p].tcRef - 1)];
        if entries[p].tcRef == 0 {
          entries := entries[p := entries[p].(traceMini := None)];
        }
      }
      assert entries == Released(before, top[i]);
      ghost var mid := entries;
      topRated[i] := Some(q);
      entries := entries[q := entries[q].(tcRef := entries[q].tcRef + 1)];
      var mini := NewMini(trace);
      if entries[q].traceMini == None {
        Overwritten(mid, q, entries[q], Gained(mid[q], mini));
        entries := entries[q := entries[q].(traceMini := Some(mini))];
      }
      scoreChanged := true;
      WinningSlot(before, top, i, q, trace, mini);
      assert topRated[..] == top[i := Some(q)];
    }
  
    /** The scoring loop over the slots. */
    method ScoreSlots(q: nat, trace: seq<bv8>)
      requires topRated.Length == mapSize == |trace| && mapSize % 8 == 0 && q < |entries|
      requires Owned(entries, topRated[..])
      modifies `entries, `scoreChanged, topRated
      ensures Owned(entries, topRated[..]) && SameButTraces(old(entries), entries)
      ensures ScoredTop(old(entries), old(topRated[..]), q, trace, topRated[..])
      ensures scoreChanged == (old(scoreChanged) || Wins(topRated[..], q) * HitsOf(trace) != {})
      ensures TraceState(old(entries), q, trace, entries, topRated[..])
    {
      hide WonSlot, TraceState, HasBit, HitsOf, OwnedEntry, Wins, Product;
      ghost var before, top: Tops := entries, topRated[..];
      ghost var won: set<nat> := {};
      TraceStart(before, q, trace, top);
      for i := 0 to mapSize
        invariant Owned(entries, topRated[..]) && SameButTraces(before, entries)
        invariant forall k :: 0 <= k < i && trace[k] != 0 ==> topRated[k] == Better(before, top[k], q)
        invariant forall k :: 0 <= k < mapSize && (k >= i || trace[k] == 0) ==> topRated[k] == top[k]
        invariant TraceState(before, q, trace, entries, topRated[..])
        invariant won == set k: nat | k < i && trace[k] != 0 && topRated[k] == Some(q)
        invariant scoreChanged == (old(scoreChanged) || won != {})
      {
        if trace[i] != 0 {
          ghost var es, ts := entries, topRated[..];
          assert ts[i] == top[i];
          if topRated[i].None? || FavFactor(entries[q]) <= FavFactor(entries[topRated[i].value]) {
            WinSlot(i, q, trace);
            WonSlotFacts(es, ts, i, q, trace, entries);
            TraceStep(before, q, trace, es, ts, i, entries);
            won := won + {i};
          }
        }
      }
      WonHits(topRated[..], q, trace, won);
    }

    /** Scores `q` with the trace of its last run. */
    method UpdateBitmapScore(q: nat, trace: seq<bv8>)
      requires topRated.Length == mapSize == |trace| && q < |entries|
      requires Owned(entries, topRated[..]) && Ranked(entries, topRated[..], scored, stale)
      modifies `entries, `scoreChanged, `scored, `stale, topRated
      ensures ScoredFrom(old(entries), old(topRated[..]), q, trace, entries, topRated[..])
      ensures old(Sized(entries)) ==> forall i :: 0 <= i < mapSize ==>
        topRated[i] ==
          if trace[i] != 0 && WinsOver(old(entries), old(topRated[i]), q) then Some(q) else old(topRated[i])
      ensures scored == old(scored) + ScoredPairs(q, trace)
      ensures stale == Remaining(old(scored), old(stale), q, trace)
      ensures Ranked(entries, topRated[..], scored, stale)
      ensures scoreChanged == (old(scoreChanged) || Wins(topRated[..], q) * HitsOf(trace) != {})
    {
      hide Ranked, TraceState, HitsOf, ScoredPairs, Wins, Remaining;
      ghost var before, top: Tops := entries, topRated[..];
      ScoreSlots(q, trace);
      ScoringRanks(before, top, scored, stale, q, trace, topRated[..]);
      stale := Remaining(scored, stale, q, trace);
      scored := scored + ScoredPairs(q, trace);
      RankingOfSame(before, entries, topRated[..], scored, stale);
      if Sized(before) { AllWinners(before, top, q, trace, topRated[..]); }
    }

    /** One calibration of an entry that was never scored: it fails, or it fixes the speed of the
        entry and scores it. */
    method Calibrate(q: nat, run: Option<(nat, seq<bv8>)>)
      requires Valid() && q < |entries| && (forall i :: (q, i) !in scored)
      requires run.Some? ==> run.value.0 < MAX_EXEC_US && |run.value.1| == mapSize
      modifies `entries, `scoreChanged, `scored, `stale, topRated
      ensures Valid() && stale <= old(stale)
      ensures SameButTraces(old(entries)[q := Calibrated(old(entries)[q], run)], entries)
      ensures run.None? ==> topRated[..] == old(topRated[..]) && scored == old(scored)
      ensures run.None? ==> entries == old(entries)[q := Calibrated(old(entries)[q], run)]
      ensures run.Some? ==> scored == old(scored) + ScoredPairs(q, run.value.1)
      ensures run.Some? ==> ScoredFrom(old(entries)[q := Calibrated(old(entries)[q], run)], old(topRated[..]), q,
                                       run.value.1, entries, topRated[..])
      ensures run.Some? ==> forall i: nat :: i < mapSize && run.value.1[i] != 0 ==> topRated[i].Some?
      ensures CountsExact() <==> old(CountsExact())
      ensures old(FaithfulTraces(entries, topRated[..])) ==> FaithfulTraces(entries, topRated[..])
    {
      hide Ranked, Owned, FaithfulTraces, ScoredFrom, ScoredPairs, Unfuzzed, FavoredSet, PendingFavoredSet;
      hide Selected, Wins, HitsOf, Shallow, KeptTraceContains, Remaining;
      ghost var before, top: Tops := entries, topRated[..];
      var e := entries[q].(calFailed := entries[q].calFailed + 1);
      if run.Some? {
        e := e.(execUs := run.value.0, calFailed := 0);
      }
      assert e == Calibrated(entries[q], run);
      UnscoredSpeed(before, top, scored, stale, q, e);
      AfterEdit(before, top, q, e, queuedFavored, maxDepth);
      entries := entries[q := e];
      if run.Some? {
        ghost var mid := entries;
        Unreferenced(before, top, scored, stale, q, run.value.1);
        RemainsStale(scored, stale, q, run.value.1);
        UpdateBitmapScore(q, run.value.1);
        ScoredFacts(mid, top, q, run.value.1, entries, topRated[..]);
        AfterScoring(mid, top, q, run.value.1, entries, topRated[..], queuedFavored, maxDepth);
      }
    }

    /** Trimming: the entry got shorter and is scored again with the trace of the shorter input. It is
        stale from then on if it had been scored with slots that this trace does not hit. */
    method Trimmed(q: nat, len: nat, trace: seq<bv8>)
      requires Valid() && q < |entries| && len <= entries[q].len && |trace| == mapSize
      modifies `entries, `scoreChanged, `scored, `stale, topRated
      ensures Valid()
      ensures scored == old(scored) + ScoredPairs(q, trace)
      ensures stale == Remaining(old(scored), old(stale) + {q}, q, trace)
      ensures SameButTraces(old(entries)[q := old(entries)[q].(len := len)], entries)
      ensures ScoredFrom(old(entries)[q := old(entries)[q].(len := len)], old(topRated[..]), q, trace, entries,
        topRated[..])
      ensures CountsExact() <==> old(CountsExact())
      ensures old(FaithfulTraces(entries, topRated[..])) && KeptTraceContains(old(entries)[q], trace) ==>
        FaithfulTraces(entries, topRated[..])
    {
      hide Ranked, Owned, FaithfulTraces, ScoredFrom, ScoredPairs, Unfuzzed, FavoredSet, PendingFavoredSet;
      hide Selected, Wins, HitsOf, Shallow, KeptTraceContains, Remaining;
      ghost var before, top: Tops := entries, topRated[..];
      var e := entries[q].(len := len);
      ShrinkRanks(before, top, scored, stale, q, len);
      AfterEdit(before, top, q, e, queuedFavored, maxDepth);
      entries := entries[q := e];
      stale := stale + {q};
      ghost var mid := entries;
      UpdateBitmapScore(q, trace);
      ScoredFacts(mid, top, q, trace, entries, topRated[..]);
      AfterScoring(mid, top, q, trace, entries, topRated[..], queuedFavored, maxDepth);
    }

    // ---------- Culling ----------

    /** Walks the queue and clears every favored flag. */
    method ClearFavored()
      requires list.Linked() && |list.nodes| == |entries|
      modifies `entries
      ensures entries == Flagged(old(entries), {})
    {
      ghost var before := entries;
      var q := list.queue;
      ghost var k: nat := 0;
      while q != null
        invariant k <= |before| == |entries|
        invariant q == if k < |before| then list.nodes[k] else null
        invariant forall e :: 0 <= e < k ==> entries[e] == before[e].(favored := false)
        invariant forall e :: k <= e < |before| ==> entries[e] == before[e]
        decreases |before| - k
      {
        entries := entries[q.id := entries[q.id].(favored := false)];
        q := q.next;
        k := k + 1;
      }
    }

    /** Walks the queue and marks every entry that is not favored as redundant. */
    method MarkRedundant()
      requires list.Linked() && |list.nodes| == |entries|
      modifies `entries
      ensures entries == Marked(old(entries))
    {
      ghost var before := entries;
      var q := list.queue;
      ghost var k: nat := 0;
      while q != null
        invariant k <= |before| == |entries|
        invariant q == if k < |before| then list.nodes[k] else null
        invariant forall e :: 0 <= e < k ==> entries[e] == before[e].(fsRedundant := !before[e].favored)
        invariant forall e :: k <= e < |before| ==> entries[e] == before[e]
        decreases |before| - k
      {
        entries := entries[q.id := entries[q.id].(fsRedundant := !entries[q.id].favored)];
        q := q.next;
        k := k + 1;
      }
    }

    /** The slot loop of the culling pass: grabs the winners of slots not covered yet. */
    method GrabWinners(ghost base: seq<Entry>)
      requires topRated.Length == mapSize && Owned(base, topRated[..]) && entries == Flagged(base, {})
      requires queuedFavored == 0 && pendingFavored == 0
      modifies `entries, `queuedFavored, `pendingFavored
      ensures var picks := Picks(topRated[..], CoverOf(base, mapSize), 0, {});
        && entries == Flagged(base, ElementsOf(picks))
        && queuedFavored == |picks| && pendingFavored == |Pending(base, picks)|
    {
      hide Owned, Wins, HasBit, BitsOf, Pending, CoverOf, Slots;
      ghost var top := topRated[..];
      ghost var cover := CoverOf(base, mapSize);
      ghost var picks, done, seen: set<nat> := Picks(top, cover, 0, {}), [], {};
      OwnedSize(base, top);
      var tempV := new bv8[mapSize / 8](_ => 255);
      AllBits(tempV[..]);
      PendingNone(base);
      for i := 0 to mapSize
        invariant topRated[..] == top
        invariant forall k: nat :: k < mapSize ==> (HasBit(tempV[..], k) <==> k !in seen)
        invariant picks == done + Picks(top, cover, i, seen)
        invariant entries == Flagged(base, ElementsOf(done))
        invariant queuedFavored == |done| && pendingFavored == |Pending(base, done)|
      {
        assert topRated[i] == top[i];
        if topRated[i].Some? && HasBit(tempV[..], i) {
          var e := topRated[i].value;
          OwnerIsReferenced(base, top, i);
          OwnedTrace(base, top, e);
          assert entries[e].traceMini == base[e].traceMini && entries[e].wasFuzzed == base[e].wasFuzzed;
          ClearBits(tempV, entries[e].traceMini.value, mapSize);
          FlaggedMore(base, done, e);
          entries := entries[e := entries[e].(favored := true)];
          queuedFavored := queuedFavored + 1;
          if !entries[e].wasFuzzed {
            pendingFavored := pendingFavored + 1;
          }
          ghost var rest := Picks(top, cover, i + 1, seen + Slots(cover, e));
          assert picks == done + ([e] + rest) == (done + [e]) + rest;
          seen := seen + Slots(cover, e);
          done := done + [e];
        }
      }
      assert done + [] == done;
    }

    /** The culling pass: nothing without changed scores, because then the last selection still stands. */
    method CullQueue()
      requires Valid()
      modifies `entries, `scoreChanged, `queuedFavored, `pendingFavored
      ensures Valid() && !scoreChanged
      ensures entries == if old(scoreChanged) then Culled(old(entries), topRated[..]) else old(entries)
      ensures |entries| == |old(entries)|
      ensures old(scoreChanged) ==> forall e :: 0 <= e < |entries| ==>
        entries[e] == old(entries)[e].(favored := entries[e].favored, fsRedundant := !entries[e].favored)
      ensures old(FaithfulTraces(entries, topRated[..])) ==> FaithfulTraces(entries, topRated[..])
      ensures forall i: nat :: i < mapSize && topRated[i].Some? ==>
        topRated[i].value < |entries| && (entries[topRated[i].value].favored || CoveredByFavored(entries, i))
      ensures FaithfulTraces(entries, topRated[..]) ==>
        forall i: nat :: i < mapSize && topRated[i].Some? ==> CoveredByFavored(entries, i)
      ensures queuedFavored == |FavoredSet(entries)| <==>
        forall e :: !OwnsTwoUnseen(topRated[..], CoverOf(entries, mapSize), e, 0)
      ensures old(scoreChanged) ==>
        (pendingFavored == |PendingFavoredSet(entries)| <==>
         forall e: nat :: e < |entries| && !entries[e].wasFuzzed ==>
           !OwnsTwoUnseen(topRated[..], CoverOf(entries, mapSize), e, 0))
      ensures !old(scoreChanged) ==> queuedFavored == old(queuedFavored) && pendingFavored == old(pendingFavored)
      ensures FaithfulTraces(entries, topRated[..]) && (old(scoreChanged) || old(CountsExact())) ==> CountsExact()
    {
      hide Ranked, Owned, FaithfulTraces, Unfuzzed, FavoredSet, PendingFavoredSet, Flagged, Marked, Pending;
      hide ElementsOf, PicksFor, CoverOf, Sized, list.Linked, Selected, OwnsTwoUnseen, CoveredByFavored, Culled;
      CulledFlags(entries, topRated[..]);
      if scoreChanged {
        Reselect();
      }
      ghost var top := topRated[..];
      CullCounts(entries, top, queuedFavored);
      if FaithfulTraces(entries, top) { FaithfulOnce(entries, top); }
      forall i: nat | i < mapSize && topRated[i].Some?
        ensures topRated[i].value < |entries| && (entries[topRated[i].value].favored || CoveredByFavored(entries, i))
        ensures FaithfulTraces(entries, top) ==> CoveredByFavored(entries, i)
      {
        assert topRated[i] == top[i];
        CullReaches(entries, top, queuedFavored, i);
        if FaithfulTraces(entries, top) { CullCovers(entries, top, queuedFavored, i); }
      }
    }

    /** A culling pass that found changed scores. */
    method Reselect()
      requires Valid()
      modifies `entries, `scoreChanged, `queuedFavored, `pendingFavored
      ensures Valid() && !scoreChanged
      ensures entries == Culled(old(entries), topRated[..])
      ensures FaithfulTraces(entries, topRated[..]) <==> old(FaithfulTraces(entries, topRated[..]))
      ensures pendingFavored == |Pending(entries, PicksFor(entries, topRated[..]))|
      ensures pendingFavored == |PendingFavoredSet(entries)| <==>
        forall e: nat :: e < |entries| && !entries[e].wasFuzzed ==>
          !OwnsTwoUnseen(topRated[..], CoverOf(entries, mapSize), e, 0)
    {
      hide Ranked, Owned, FaithfulTraces, Unfuzzed, FavoredSet, PendingFavoredSet, Flagged, Marked, Pending;
      hide ElementsOf, CoverOf, Sized, list.Linked, Selected, OwnsTwoUnseen, Picks;
      ghost var before, top := entries, topRated[..];
      ghost var picks := PicksFor(before, top);
      scoreChanged := false;
      queuedFavored := 0;
      pendingFavored := 0;
      ClearFavored();
      GrabWinners(before);
      FlaggedFacts(before, top, scored, stale, ElementsOf(picks));
      MarkRedundant();
      assert entries == Culled(before, top);
      CulledSelected(before, top);
      CulledDepths(before, top, maxDepth);
      CullCounts(entries, top, queuedFavored);
      CullPending(entries, top, queuedFavored);
    }
  }

  /** What scoring keeps, besides ownership and ranking. */
  lemma AfterScoring(before: seq<Entry>, top: Tops, q: nat, trace: seq<bv8>, entries': seq<Entry>, top': Tops,
                     queued: nat, maxDepth: nat)
    requires q < |before| && |top| == |trace| && ScoredFrom(before, top, q, trace, entries', top')
    ensures FavoredSet(entries') == FavoredSet(before) && Unfuzzed(entries') == Unfuzzed(before)
    ensures PendingFavoredSet(entries') == PendingFavoredSet(before)
    ensures Sized(before) ==> Sized(entries')
    ensures Shallow(before, maxDepth) ==> Shallow(entries', maxDepth)
    ensures Wins(top', q) * HitsOf(trace) == {} && Selected(before, top, queued) ==> Selected(entries', top', queued)
    ensures FaithfulTraces(before, top) && KeptTraceContains(before[q], trace) ==> FaithfulTraces(entries', top')
  {
    hide Owned, ScoredTop, TraceState, Wins, HitsOf, Selected, FaithfulTraces, KeptTraceContains;
    FlagsOfSame(before, entries');
    ScoringKeepsFaithful(before, top, q, trace, entries', top');
    if Wins(top', q) * HitsOf(trace) == {} && Selected(before, top, queued) {
      NothingWon(before, top, q, trace, entries', top');
      SelectedOfSame(before, entries', top, queued);
    }
  }

  /** What changing the speed, the size or the failures of one entry keeps. */
  lemma AfterEdit(before: seq<Entry>, top: Tops, q: nat, e: Entry, queued: nat, maxDepth: nat)
    requires Owned(before, top) && q < |before|
    requires e == before[q].(len := e.len, execUs := e.execUs, calFailed := e.calFailed)
    ensures var mid := before[q := e];
      && Owned(mid, top) && FavoredSet(mid) == FavoredSet(before) && Unfuzzed(mid) == Unfuzzed(before)
      && PendingFavoredSet(mid) == PendingFavoredSet(before)
      && (Sized(before) && e.len <= MAX_FILE && e.execUs < MAX_EXEC_US ==> Sized(mid))
      && (Shallow(before, maxDepth) ==> Shallow(mid, maxDepth))
      && (Selected(before, top, queued) ==> Selected(mid, top, queued))
      && (FaithfulTraces(before, top) ==> FaithfulTraces(mid, top))
      && (forall trace :: KeptTraceContains(mid[q], trace) <==> KeptTraceContains(before[q], trace))
  {
    hide Owned, Selected, FaithfulTraces;
    var mid := before[q := e];
    TracesOfSame(before, mid, top);
    FlagsOfSame(before, mid);
    if Selected(before, top, queued) { SelectedOfSame(before, mid, top, queued); }
  }

  lemma CulledDepths(entries: seq<Entry>, top: Tops, maxDepth: nat)
    requires Shallow(entries, maxDepth)
    ensures |Culled(entries, top)| == |entries| && Shallow(Culled(entries, top), maxDepth)
  {
    var after := Culled(entries, top);
    assert forall e :: 0 <= e < |entries| ==> after[e].depth == entries[e].depth && entries[e] in entries;
  }

  // ---------- A run that counts an entry twice ----------

  const FIRST_HIT: seq<bv8> := [1, 0, 0, 0, 0, 0, 0, 0]
  const SECOND_HIT: seq<bv8> := [0, 1, 0, 0, 0, 0, 0, 0]

  /** Scoring an entry for the first time: it wins slot 0 and keeps the trace. */
  lemma FirstScoring(before: seq<Entry>, top: Tops, entries: seq<Entry>, top': Tops)
    requires |before| == 1 && before[0].traceMini == None
    requires |top| == 8 && forall i :: 0 <= i < 8 ==> top[i] == None
    requires ScoredFrom(before, top, 0, FIRST_HIT, entries, top')
    ensures top'[0] == Some(0) && forall i :: 1 <= i < 8 ==> top'[i] == None
    ensures MiniOf(entries[0], FIRST_HIT)
  {
    hide HasBit;
    assert OwnedEntry(entries[0], top', 0);
    assert 0 in Wins(top', 0);
  }

  /** Scoring it with another trace: it wins slot 1 as well, but keeps the first trace. */
  lemma SecondScoring(before: seq<Entry>, top: Tops, entries: seq<Entry>, top': Tops)
    requires |before| == 1 && MiniOf(before[0], FIRST_HIT)
    requires |top| == 8 && top[0] == Some(0) && forall i :: 1 <= i < 8 ==> top[i] == None
    requires ScoredFrom(before, top, 0, SECOND_HIT, entries, top')
    ensures top'[0] == Some(0) && top'[1] == Some(0)
    ensures MiniOf(entries[0], FIRST_HIT)
  {
    hide HasBit, Owned, FavFactor;
    assert 0 in Wins(top', 0) && 0 !in HitsOf(SECOND_HIT);
  }

  /** Slot 1 is not covered by the trace that was picked for slot 0. */
  lemma SecondIsUnseen(entries: seq<Entry>, top: Tops)
    requires |entries| == 1 && |top| == 8 && top[0] == Some(0) && top[1] == Some(0)
    requires MiniOf(entries[0], FIRST_HIT)
    ensures OwnsTwoUnseen(top, CoverOf(entries, 8), 0, 0)
  {
    hide HasBit;
    var cover := CoverOf(entries, 8);
    assert Slots(cover, 0) == HitsOf(FIRST_HIT);
    assert Seen(top, cover, 0) == {};
    assert Seen(top, cover, 1) == {} + Slots(cover, 0);
    assert OwnsUnseen(top, cover, 0, 0) && OwnsUnseen(top, cover, 0, 1);
  }

  lemma OneFavored(entries: seq<Entry>, i: nat)
    requires |entries| == 1 && (entries[0].favored || CoveredByFavored(entries, i))
    ensures |FavoredSet(entries)| == 1
  {
    assert FavoredSet(entries) == {0};
  }

  lemma CulledCover(entries: seq<Entry>, top: Tops)
    ensures |Culled(entries, top)| == |entries| && CoverOf(Culled(entries, top), |top|) == CoverOf(entries, |top|)
  {
    CoverOfSame(entries, Culled(entries, top), |top|);
  }

  /** The program under test varies: the last run of the calibration hits slot 0, and the run that
      trimming keeps to hits slot 1. */
  method CountedTwice() returns (fuzzer: Fuzzer)
    ensures fuzzer.Valid() && |FavoredSet(fuzzer.entries)| == 1 && fuzzer.queuedFavored > 1
  {
    hide Owned, Ranked, Culled, ScoredFrom, BitsOf, HitsOf, OwnsTwoUnseen, CoverOf, FavoredSet, CoveredByFavored,
      FaithfulTraces, Remaining;
    hide PendingFavoredSet, ScoredPairs, Selected, KeptTraceContains;
    fuzzer := new Fuzzer(8);
    ghost var noTop := fuzzer.topRated[..];
    fuzzer.AddToQueue(10, 1, false);
    ghost var first := fuzzer.entries[0 := Calibrated(fuzzer.entries[0], Some((1, FIRST_HIT)))];
    fuzzer.Calibrate(0, Some((1, FIRST_HIT)));
    FirstScoring(first, noTop, fuzzer.entries, fuzzer.topRated[..]);
    ghost var firstTop := fuzzer.topRated[..];
    ghost var shorter := fuzzer.entries[0 := fuzzer.entries[0].(len := 9)];
    fuzzer.Trimmed(0, 9, SECOND_HIT);
    SecondScoring(shorter, firstTop, fuzzer.entries, fuzzer.topRated[..]);
    ghost var entries := fuzzer.entries;
    SecondIsUnseen(entries, fuzzer.topRated[..]);
    CulledCover(entries, fuzzer.topRated[..]);
    fuzzer.CullQueue();
    OneFavored(fuzzer.entries, 0);
  }

  /** The trace kept for an entry, if any, claims every slot that `trace` hits. */
  ghost predicate KeptTraceContains(e: Entry, trace: seq<bv8>) {
    e.traceMini.Some? ==>
      |trace| <= 8 * |e.traceMini.value| && HitsOf(trace) <= BitsOf(e.traceMini.value, |trace|)
  }

  lemma ScoringKeepsFaithful(before: seq<Entry>, top: Tops, q: nat, trace: seq<bv8>, entries: seq<Entry>, top': Tops)
    requires q < |before| == |entries| && |top| == |trace| && Owned(before, top) && Owned(entries, top')
    requires ScoredTop(before, top, q, trace, top') && TraceState(before, q, trace, entries, top')
    ensures FaithfulTraces(before, top) && KeptTraceContains(before[q], trace) ==> FaithfulTraces(entries, top')
  {
    if FaithfulTraces(before, top) && KeptTraceContains(before[q], trace) {
      TraceStateFaithful(before, top, q, trace, entries, top');
    }
  }

  /** An entry that was never scored owns nothing and keeps no trace. */
  lemma Unreferenced(entries: seq<Entry>, top: Tops, scored: set<(nat, nat)>, stale: set<nat>, q: nat, trace: seq<bv8>)
    requires Owned(entries, top) && Ranked(entries, top, scored, stale) && q < |entries|
    requires forall i :: (q, i) !in scored
    ensures KeptTraceContains(entries[q], trace)
  {
    assert OwnedEntry(entries[q], top, q);
    assert Wins(top, q) == {};
  }

  lemma RemainsStale(scored: set<(nat, nat)>, stale: set<nat>, q: nat, trace: seq<bv8>)
    ensures Remaining(scored, stale, q, trace) <= stale
  {
  }

  lemma ScoredFacts(before: seq<Entry>, top: Tops, q: nat, trace: seq<bv8>, entries: seq<Entry>, top': Tops)
    requires q < |before| && |top| == |trace| && ScoredFrom(before, top, q, trace, entries, top')
    ensures Owned(entries, top') && SameButTraces(before, entries)
    ensures forall i: nat :: i < |trace| && trace[i] != 0 ==> top'[i].Some?
  {
    hide Owned, TraceState;
    HitsHaveWinners(before, top, q, trace, top');
  }

  lemma UnscoredSpeed(entries: seq<Entry>, top: Tops, scored: set<(nat, nat)>, stale: set<nat>, q: nat, e: Entry)
    requires Owned(entries, top) && Ranked(entries, top, scored, stale) && q < |entries|
    requires forall i :: (q, i) !in scored
    ensures Ranked(entries[q := e], top, scored, stale)
  {
    forall p | p in scored ensures p.0 != q && top[p.1] != Some(q) {
    }
  }

  lemma HitsHaveWinners(entries: seq<Entry>, top: Tops, q: nat, trace: seq<bv8>, top': Tops)
    requires q < |entries| && |top| == |trace| && Owned(entries, top)
    requires ScoredTop(entries, top, q, trace, top')
    ensures forall i: nat :: i < |trace| && trace[i] != 0 ==> top'[i].Some?
  {
  }

  /** The counted sets look only at the two flags. */
  lemma FlagsOfSame(entries: seq<Entry>, entries': seq<Entry>)
    requires |entries'| == |entries|
    requires forall e :: 0 <= e < |entries| ==>
      entries'[e].wasFuzzed == entries[e].wasFuzzed && entries'[e].favored == entries[e].favored
    ensures Unfuzzed(entries') == Unfuzzed(entries) && FavoredSet(entries') == FavoredSet(entries)
    ensures PendingFavoredSet(entries') == PendingFavoredSet(entries)
  {
  }

  lemma WonHits(top: Tops, q: nat, trace: seq<bv8>, won: set<nat>)
    requires |top| == |trace|
    requires won == set k: nat | k < |top| && trace[k] != 0 && top[k] == Some(q)
    ensures won == Wins(top, q) * HitsOf(trace)
  {
  }

  lemma TraceStart(before: seq<Entry>, q: nat, trace: seq<bv8>, top: Tops)
    requires q < |before| && |top| == |trace|
    ensures TraceState(before, q, trace, before, top)
  {
  }

  lemma WonSlotFacts(entries: seq<Entry>, top: Tops, i: nat, q: nat, trace: seq<bv8>, entries': seq<Entry>)
    requires q < |entries| && i < |top| && Owned(entries, top) && |trace| == |top|
    requires WonSlot(entries, top, i, q, trace, entries')
    ensures Owned(entries', top[i := Some(q)]) && SameButTraces(entries, entries')
  {
  }
}
