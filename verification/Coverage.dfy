/** The coverage maps: which tuples and hit counts were never seen, and what a run of executions
    makes of them. The methods work a word at a time, as the program does. */
module Coverage {
  import opened Bitmaps
  import opened Words

  const KEEP_UNIQUE_CRASH := 5000

  type Map = seq<bv8>

  // ---------- One execution, byte by byte ----------

  ghost function Fresh(n: nat): Map {
    seq(n, _ => 0xff)
  }

  /** A virgin map after a trace: the bits of the trace are not virgin any more. */
  ghost function Cleared(v: Map, t: Map): (r: Map)
    requires |v| == |t|
    ensures |r| == |v|
  {
    seq(|v|, i requires 0 <= i < |v| => Clear8(v[i], t[i]))
  }

  /** Slot `i` shows something new: a bit of the trace that is still virgin. */
  predicate NewBits(v: Map, t: Map, i: nat)
    requires i < |v| == |t|
  {
    v[i] & t[i] != 0
  }

  /** Slot `i` shows a new tuple: it is hit, and its byte is pristine. */
  predicate NewTuple(v: Map, t: Map, i: nat)
    requires i < |v| == |t|
  {
    t[i] != 0 && v[i] == 0xff
  }

  /** 2 for a new tuple, 1 for new hit counts only, 0 for nothing new, within slots `lo` to `hi`. */
  ghost function Novelty(v: Map, t: Map, lo: nat, hi: nat): nat
    requires lo <= hi <= |v| == |t|
  {
    if exists i: nat :: lo <= i < hi && NewTuple(v, t, i) then 2
    else if exists i: nat :: lo <= i < hi && NewBits(v, t, i) then 1
    else 0
  }

  lemma NewTupleIsNewBits(v: Map, t: Map, i: nat)
    requires i < |v| == |t| && NewTuple(v, t, i)
    ensures NewBits(v, t, i)
  {
  }

  /** The word test: some byte of the word has a virgin bit of the trace. */
  lemma WordIsNew(v: Map, t: Map, p: nat)
    requires p + 8 <= |v| == |t|
    ensures Shares64(Load64(v, p), Load64(t, p)) <==> exists i: nat :: p <= i < p + 8 && NewBits(v, t, i)
  {
    hide Load64, Shares64, ByteOf;
    SharedBits(Load64(v, p), Load64(t, p));
    forall k: nat | k < 8
      ensures Shares(ByteOf(Load64(v, p), k), ByteOf(Load64(t, p), k)) <==> NewBits(v, t, p + k)
    {
      ByteOfLoad(v, p, k);
      ByteOfLoad(t, p, k);
    }
    if i: nat :| p <= i < p + 8 && NewBits(v, t, i) {
      var k := i - p;
      assert Shares(ByteOf(Load64(v, p), k), ByteOf(Load64(t, p), k));
    }
  }

  /** Storing the cleared word clears its eight bytes. */
  lemma WordIsCleared(v: Map, t: Map, p: nat, k: nat)
    requires p + 8 <= |v| == |t| && k < 8
    ensures ByteOf(Clear64(Load64(v, p), Load64(t, p)), k) == Clear8(v[p + k], t[p + k])
  {
    hide Load64, Clear64, ByteOf, Clear8;
    ByteOfClear(Load64(v, p), Load64(t, p), k);
    ByteOfLoad(v, p, k);
    ByteOfLoad(t, p, k);
  }

  /** Clearing a byte that shares no bit with the trace changes nothing. */
  lemma NothingToClear(v: bv8, t: bv8)
    requires v & t == 0
    ensures Clear8(v, t) == v
  {
  }

  lemma NoveltyStep(v: Map, t: Map, p: nat, q: nat)
    requires p <= q <= |v| == |t|
    ensures Novelty(v, t, 0, q) ==
      if Novelty(v, t, 0, p) >= Novelty(v, t, p, q) then Novelty(v, t, 0, p) else Novelty(v, t, p, q)
  {
  }

  // ---------- A run of executions ----------

  ghost predicate Traces(traces: seq<Map>, n: nat) {
    forall k :: 0 <= k < |traces| ==> |traces[k]| == n
  }

  /** The virgin map after a run. */
  ghost function VirginAfter(v: Map, traces: seq<Map>): (r: Map)
    requires Traces(traces, |v|)
    ensures |r| == |v|
  {
    if traces == [] then v else Cleared(VirginAfter(v, traces[..|traces| - 1]), traces[|traces| - 1])
  }

  /** The bits of slot `i` seen in a run. */
  ghost function SeenBits(traces: seq<Map>, n: nat, i: nat): bv8
    requires Traces(traces, n) && i < n
  {
    if traces == [] then 0 else SeenBits(traces[..|traces| - 1], n, i) | traces[|traces| - 1][i]
  }

  /** From an all-ones map, the virgin map is the complement of everything seen. */
  lemma {:induction false} VirginIsComplement(traces: seq<Map>, n: nat, i: nat)
    requires Traces(traces, n) && i < n
    ensures VirginAfter(Fresh(n), traces)[i] == !SeenBits(traces, n, i)
  {
    if traces != [] {
      VirginIsComplement(traces[..|traces| - 1], n, i);
    }
  }

  lemma {:induction false} UnseenMeansUnhit(traces: seq<Map>, n: nat, i: nat)
    requires Traces(traces, n) && i < n
    ensures SeenBits(traces, n, i) == 0 <==> forall k :: 0 <= k < |traces| ==> traces[k][i] == 0
  {
    if traces != [] {
      var m := |traces| - 1;
      UnseenMeansUnhit(traces[..m], n, i);
      assert forall k :: 0 <= k < m ==> traces[..m][k] == traces[k];
    }
  }

  /** The trace sets a bit of slot `i` that the run never set. */
  ghost predicate UnseenBitAt(traces: seq<Map>, t: Map, i: nat)
    requires Traces(traces, |t|) && i < |t|
  {
    t[i] & !SeenBits(traces, |t|, i) != 0
  }

  /** What the result means after a run from an all-ones map: 2 exactly if some tuple is hit that no
      earlier execution hit; otherwise 1 exactly if some hit-count bit is set that was never set in
      that tuple before. */
  lemma NoveltyOverRun(traces: seq<Map>, t: Map)
    requires Traces(traces, |t|)
    ensures var r := Novelty(VirginAfter(Fresh(|t|), traces), t, 0, |t|);
      && (r == 2 <==> exists i: nat :: i < |t| && t[i] != 0 && SeenBits(traces, |t|, i) == 0)
      && (r != 0 <==> exists i: nat :: i < |t| && UnseenBitAt(traces, t, i))
  {
    var v := VirginAfter(Fresh(|t|), traces);
    forall i: nat | i < |t|
      ensures NewTuple(v, t, i) <==> t[i] != 0 && SeenBits(traces, |t|, i) == 0
      ensures NewBits(v, t, i) <==> UnseenBitAt(traces, t, i)
    {
      VirginIsComplement(traces, |t|, i);
      Complement(SeenBits(traces, |t|, i), t[i]);
    }
  }

  lemma Complement(s: bv8, t: bv8)
    ensures !s == 0xff <==> s == 0
    ensures !s & t != 0 <==> t & !s != 0
  {
  }

  /** A repeated trace shows nothing new. */
  lemma RepeatIsOld(v: Map, t: Map)
    requires |v| == |t|
    ensures Novelty(Cleared(v, t), t, 0, |t|) == 0
  {
    forall i: nat | i < |t|
      ensures !NewBits(Cleared(v, t), t, i) && !NewTuple(Cleared(v, t), t, i)
    {
      ClearedIsOld(v[i], t[i]);
    }
  }

  lemma ClearedIsOld(v: bv8, t: bv8)
    ensures Clear8(v, t) & t == 0
    ensures t != 0 ==> Clear8(v, t) != 0xff
  {
  }

  // ---------- How often a run can find something new ----------

  /** The number of executions of a run that found something new. */
  ghost function Finds(v: Map, traces: seq<Map>): nat
    requires Traces(traces, |v|)
  {
    if traces == [] then 0
    else
      var before, t := traces[..|traces| - 1], traces[|traces| - 1];
      Finds(v, before) + (if Novelty(VirginAfter(v, before), t, 0, |v|) != 0 then 1 else 0)
  }

  ghost function VirginBits(v: Map): set<nat> {
    BitsOf(v, 8 * |v|)
  }

  lemma SharedBit(a: bv8, b: bv8) returns (k: nat)
    requires a & b != 0
    ensures k < 8 && a & Bit(k) != 0 && b & Bit(k) != 0
  {
    k := if a & b & 1 != 0 then 0 else if a & b & 2 != 0 then 1 else if a & b & 4 != 0 then 2
         else if a & b & 8 != 0 then 3 else if a & b & 16 != 0 then 4 else if a & b & 32 != 0 then 5
         else if a & b & 64 != 0 then 6 else 7;
    BitCases(k);
  }

  lemma ClearedBits(v: Map, t: Map, b: nat)
    requires |v| == |t| && b < 8 * |v|
    ensures HasBit(Cleared(v, t), b) <==> HasBit(v, b) && !HasBit(t, b)
  {
    BitClear(v[b / 8], t[b / 8], b % 8);
  }

  lemma NewBitIsUsed(v: Map, t: Map, i: nat) returns (b: nat)
    requires i < |v| == |t| && NewBits(v, t, i)
    ensures b < 8 * |v| && HasBit(v, b) && HasBit(t, b)
  {
    hide Bit;
    var k := SharedBit(v[i], t[i]);
    b := 8 * i + k;
    assert b / 8 == i && b % 8 == k;
  }

  /** Every find uses up at least one virgin bit. */
  lemma FindUsesBit(v: Map, t: Map)
    requires |v| == |t|
    ensures VirginBits(Cleared(v, t)) <= VirginBits(v)
    ensures Novelty(v, t, 0, |v|) != 0 ==> VirginBits(Cleared(v, t)) < VirginBits(v)
  {
    hide HasBit, NewBits;
    forall b: nat | b < 8 * |v| ensures HasBit(Cleared(v, t), b) <==> HasBit(v, b) && !HasBit(t, b) {
      ClearedBits(v, t, b);
    }
    if Novelty(v, t, 0, |v|) != 0 {
      var i: nat :| i < |v| && (NewTuple(v, t, i) || NewBits(v, t, i));
      if NewTuple(v, t, i) { NewTupleIsNewBits(v, t, i); }
      var b := NewBitIsUsed(v, t, i);
      assert b in VirginBits(v) && b !in VirginBits(Cleared(v, t));
    }
  }

  lemma {:induction false} BitsBound(m: Map, n: nat)
    requires n <= 8 * |m|
    ensures |BitsOf(m, n)| <= n
  {
    if n > 0 {
      BitsBound(m, n - 1);
      assert BitsOf(m, n) == BitsOf(m, n - 1) + (if HasBit(m, n - 1) then {n - 1} else {});
    }
  }

  lemma {:induction false} FindsUseBits(v: Map, traces: seq<Map>)
    requires Traces(traces, |v|)
    ensures Finds(v, traces) + |VirginBits(VirginAfter(v, traces))| <= |VirginBits(v)|
  {
    if traces != [] {
      var before, t := traces[..|traces| - 1], traces[|traces| - 1];
      FindsUseBits(v, before);
      FindUsesBit(VirginAfter(v, before), t);
      SubsetSize(VirginBits(VirginAfter(v, traces)), VirginBits(VirginAfter(v, before)));
    }
  }

  lemma SubsetSize(a: set<nat>, b: set<nat>)
    requires a <= b
    ensures |a| <= |b| && (a < b ==> |a| < |b|)
  {
    assert b == a + (b - a);
    assert a < b ==> b - a != {};
  }

  /** A run finds something new at most as often as the map has bits. */
  lemma FindsAreBounded(traces: seq<Map>, n: nat)
    requires Traces(traces, n)
    ensures Finds(Fresh(n), traces) <= 8 * n
  {
    FindsUseBits(Fresh(n), traces);
    BitsBound(Fresh(n), 8 * n);
  }

  // ---------- Crashes: only hit or not hit matters ----------

  function Status(b: bv8): bv8 {
    if b == 0 then 1 else 128
  }

  ghost function Simplified(t: Map): (r: Map)
    ensures |r| == |t|
  {
    seq(|t|, i requires 0 <= i < |t| => Status(t[i]))
  }

  ghost function SimplifiedAll(traces: seq<Map>): (r: seq<Map>)
    ensures |r| == |traces|
    ensures forall n :: Traces(traces, n) ==> Traces(r, n)
  {
    seq(|traces|, k requires 0 <= k < |traces| => Simplified(traces[k]))
  }

  lemma {:induction false} StatusSeen(traces: seq<Map>, n: nat, i: nat, b: bv8)
    requires Traces(traces, n) && i < n
    ensures SeenBits(SimplifiedAll(traces), n, i) & Status(b) == 0 <==>
      forall k :: 0 <= k < |traces| ==> (traces[k][i] == 0) != (b == 0)
  {
    if traces != [] {
      var m := |traces| - 1;
      StatusSeen(traces[..m], n, i, b);
      assert SimplifiedAll(traces)[..m] == SimplifiedAll(traces[..m]);
      assert forall k :: 0 <= k < m ==> traces[..m][k] == traces[k];
      StatusJoin(SeenBits(SimplifiedAll(traces[..m]), n, i), traces[m][i], b);
    }
  }

  lemma StatusJoin(s: bv8, a: bv8, b: bv8)
    ensures (s | Status(a)) & Status(b) == 0 <==> s & Status(b) == 0 && (a == 0) != (b == 0)
  {
  }

  /** Tuple `i` is hit and no earlier trace hit it, or not hit although all earlier ones hit it. */
  ghost predicate DiffersFromAll(traces: seq<Map>, t: Map, i: nat)
    requires Traces(traces, |t|) && i < |t|
  {
    forall k :: 0 <= k < |traces| ==> (traces[k][i] == 0) != (t[i] == 0)
  }

  /** A crash is unique exactly if the status of some tuple differs from its status in every earlier
      processed crash. */
  lemma CrashIsUnique(traces: seq<Map>, t: Map)
    requires Traces(traces, |t|)
    ensures Novelty(VirginAfter(Fresh(|t|), SimplifiedAll(traces)), Simplified(t), 0, |t|) != 0 <==>
      exists i: nat :: i < |t| && DiffersFromAll(traces, t, i)
  {
    hide Novelty, VirginAfter, UnseenBitAt, DiffersFromAll, SeenBits;
    var s := Simplified(t);
    NoveltyOverRun(SimplifiedAll(traces), s);
    forall i: nat | i < |t| {
      StatusUnseen(traces, t, i);
    }
  }

  lemma StatusUnseen(traces: seq<Map>, t: Map, i: nat)
    requires Traces(traces, |t|) && i < |t|
    ensures UnseenBitAt(SimplifiedAll(traces), Simplified(t), i) <==> DiffersFromAll(traces, t, i)
  {
    hide SeenBits, Status;
    StatusSeen(traces, |t|, i, t[i]);
    StatusNew(SeenBits(SimplifiedAll(traces), |t|, i), t[i]);
  }

  lemma StatusNew(s: bv8, b: bv8)
    ensures Status(b) & !s != 0 <==> s & Status(b) == 0
  {
  }

  /** The slots whose two statuses were not both seen. */
  ghost function OpenSlots(v: Map): set<nat> {
    set i: nat | i < |v| && v[i] != 0x7e
  }

  ghost predicate OneStatusSeen(v: Map) {
    forall i :: 0 <= i < |v| ==> v[i] == 0xfe || v[i] == 0x7f || v[i] == 0x7e
  }

  lemma StatusClears(v: bv8, b: bv8)
    requires v == 0xff || v == 0xfe || v == 0x7f || v == 0x7e
    ensures var w := Clear8(v, Status(b));
      && (w == 0xfe || w == 0x7f || w == 0x7e)
      && (v != 0xff && v & Status(b) != 0 ==> v != 0x7e && w == 0x7e)
      && (v == 0x7e ==> w == 0x7e)
  {
  }

  lemma CrashFindCloses(v: Map, t: Map)
    requires |v| == |t|
    requires OneStatusSeen(v) || v == Fresh(|v|)
    ensures OneStatusSeen(Cleared(v, Simplified(t)))
    ensures OneStatusSeen(v) ==> OpenSlots(Cleared(v, Simplified(t))) <= OpenSlots(v)
    ensures OneStatusSeen(v) && Novelty(v, Simplified(t), 0, |v|) != 0 ==>
      OpenSlots(Cleared(v, Simplified(t))) < OpenSlots(v)
  {
    hide Status;
    var s := Simplified(t);
    forall i: nat | i < |v|
      ensures Cleared(v, s)[i] == 0xfe || Cleared(v, s)[i] == 0x7f || Cleared(v, s)[i] == 0x7e
      ensures OneStatusSeen(v) && NewBits(v, s, i) ==> v[i] != 0x7e && Cleared(v, s)[i] == 0x7e
      ensures v[i] == 0x7e ==> Cleared(v, s)[i] == 0x7e
    {
      StatusClears(v[i], t[i]);
    }
    if OneStatusSeen(v) && Novelty(v, s, 0, |v|) != 0 {
      var i: nat :| i < |v| && (NewTuple(v, s, i) || NewBits(v, s, i));
      if NewTuple(v, s, i) { NewTupleIsNewBits(v, s, i); }
      assert i in OpenSlots(v) && i !in OpenSlots(Cleared(v, s));
    }
  }

  lemma {:induction false} SlotsBound(v: Map)
    ensures |OpenSlots(v)| <= |v|
  {
    if v != [] {
      var w := v[..|v| - 1];
      SlotsBound(w);
      assert OpenSlots(v) == OpenSlots(w) + (if v[|v| - 1] != 0x7e then {|v| - 1} else {});
    }
  }

  lemma {:induction false} CrashFinds(traces: seq<Map>, n: nat)
    requires Traces(traces, n)
    ensures var v := VirginAfter(Fresh(n), SimplifiedAll(traces));
      && (traces == [] ==> v == Fresh(n) && Finds(Fresh(n), SimplifiedAll(traces)) == 0)
      && (traces != [] ==> OneStatusSeen(v) && Finds(Fresh(n), SimplifiedAll(traces)) + |OpenSlots(v)| <= n + 1)
  {
    if traces != [] {
      var m := |traces| - 1;
      var before, t := traces[..m], traces[m];
      CrashFinds(before, n);
      assert SimplifiedAll(traces)[..m] == SimplifiedAll(before);
      var v := VirginAfter(Fresh(n), SimplifiedAll(before));
      CrashFindCloses(v, t);
      SlotsBound(Cleared(v, Simplified(t)));
      if before != [] {
        SubsetSize(OpenSlots(Cleared(v, Simplified(t))), OpenSlots(v));
      }
    }
  }

  /** However many crashes are processed, at most one more than there are slots is kept. */
  lemma UniqueCrashesAreBounded(traces: seq<Map>, n: nat)
    requires Traces(traces, n)
    ensures Finds(Fresh(n), SimplifiedAll(traces)) <= n + 1
  {
    CrashFinds(traces, n);
  }

  // ---------- The maps of the fuzzer ----------

  lemma OneOfEight(v: Map, t: Map, p: nat)
    requires p + 8 <= |v| == |t|
    ensures (exists k: nat :: p <= k < p + 8 && NewTuple(v, t, k)) <==>
      || NewTuple(v, t, p) || NewTuple(v, t, p + 1) || NewTuple(v, t, p + 2) || NewTuple(v, t, p + 3)
      || NewTuple(v, t, p + 4) || NewTuple(v, t, p + 5) || NewTuple(v, t, p + 6) || NewTuple(v, t, p + 7)
  {
    hide NewTuple;
  }

  class CoverageMaps {
    const mapSize: nat
    const traceBits: array<bv8>
    const virginBits: array<bv8>
    const virginCrash: array<bv8>
    var bitmapChanged: bool
    var totalCrashes: nat
    var uniqueCrashes: nat
    ghost var crashTraces: seq<Map>            // the crash traces processed so far, unsimplified

    ghost predicate Valid()
      reads this, virginCrash
    {
      && mapSize % 8 == 0
      && traceBits.Length == virginBits.Length == virginCrash.Length == mapSize
      && traceBits != virginBits && traceBits != virginCrash && virginBits != virginCrash
      && Traces(crashTraces, mapSize)
      && virginCrash[..] == VirginAfter(Fresh(mapSize), SimplifiedAll(crashTraces))
      && uniqueCrashes == Finds(Fresh(mapSize), SimplifiedAll(crashTraces))
    }

    constructor (mapSize: nat)
      requires mapSize % 8 == 0
      ensures Valid() && this.mapSize == mapSize && virginBits[..] == Fresh(mapSize)
      ensures crashTraces == [] && totalCrashes == 0
      ensures fresh(traceBits) && fresh(virginBits) && fresh(virginCrash)
    {
      this.mapSize := mapSize;
      traceBits := new bv8[mapSize](_ => 0);
      virginBits := new bv8[mapSize](_ => 0xff);
      virginCrash := new bv8[mapSize](_ => 0xff);
      bitmapChanged, totalCrashes, uniqueCrashes, crashTraces := true, 0, 0, [];
    }

    /** Compares the trace with a virgin map, eight slots at a time, and clears what was seen. */
    method HasNewBits(virginMap: array<bv8>) returns (ret: nat)
      requires mapSize % 8 == 0 && traceBits.Length == virginMap.Length == mapSize && virginMap != traceBits
      modifies `bitmapChanged, virginMap
      ensures ret == Novelty(old(virginMap[..]), traceBits[..], 0, mapSize)
      ensures virginMap[..] == Cleared(old(virginMap[..]), traceBits[..])
      ensures bitmapChanged == (old(bitmapChanged) || (ret != 0 && virginMap == virginBits))
    {
      hide Novelty, NewTuple, NewBits, Load64, Clear64, Clear8, Shares64, ByteOf;
      ghost var v, t: Map := virginMap[..], traceBits[..];
      var p := 0;
      var i := mapSize / 8;
      ret := 0;
      assert Novelty(v, t, 0, 0) == 0 by { NoveltyNone(v, t); }
      while i > 0
        invariant 0 <= i && p + 8 * i == mapSize
        invariant traceBits[..] == t && bitmapChanged == old(bitmapChanged)
        invariant forall k :: 0 <= k < p ==> virginMap[k] == Clear8(v[k], t[k])
        invariant forall k :: p <= k < mapSize ==> virginMap[k] == v[k]
        invariant ret == Novelty(v, t, 0, p) && ret <= 2
      {
        i := i - 1;
        var r := CompareWord(virginMap, p, ret, v);
        ret := r;
        p := p + 8;
      }
      if ret != 0 && virginMap == virginBits { bitmapChanged := true; }
    }

    /** One word of the comparison. */
    method CompareWord(virginMap: array<bv8>, p: nat, found: nat, ghost v: Map) returns (ret: nat)
      requires traceBits.Length == virginMap.Length == |v| && virginMap != traceBits && p + 8 <= |v|
      requires forall k :: p <= k < |v| ==> virginMap[k] == v[k]
      requires found == Novelty(v, traceBits[..], 0, p) && found <= 2
      modifies virginMap
      ensures ret == Novelty(v, traceBits[..], 0, p + 8) && ret <= 2
      ensures forall k :: 0 <= k < |v| && !(p <= k < p + 8) ==> virginMap[k] == old(virginMap[k])
      ensures forall k :: p <= k < p + 8 ==> virginMap[k] == Clear8(v[k], traceBits[k])
    {
      hide Load64, Clear64, Clear8, Shares64, ByteOf, NewTuple, NewBits, Novelty;
      ghost var t: Map := traceBits[..];
      var cur, vir := Load64(traceBits[..], p), Load64(virginMap[..], p);
      assert vir == Load64(v, p) by { SameLoad(virginMap[..], v, p); }
      NoveltyStep(v, t, p, p + 8);
      ret := found;
      if cur != 0 && Shares64(vir, cur) {
        if ret < 2 {
          var tuple := PristineHit(virginMap, p, v);
          ret := if tuple then 2 else 1;
        }
        Store64(virginMap, p, Clear64(vir, cur));
        forall k | p <= k < p + 8 ensures virginMap[k] == Clear8(v[k], t[k]) {
          WordIsCleared(v, t, p, k - p);
          assert virginMap[p + (k - p)] == ByteOf(Clear64(vir, cur), k - p);
        }
        WordNovelty(v, t, p);
      } else {
        WordUnchanged(v, t, p);
      }
    }

    /** Whether one of eight slots is hit over a pristine byte. */
    method PristineHit(virginMap: array<bv8>, p: nat, ghost v: Map) returns (r: bool)
      requires traceBits.Length == virginMap.Length == |v| && p + 8 <= |v|
      requires forall k :: p <= k < |v| ==> virginMap[k] == v[k]
      ensures r <==> exists k: nat :: p <= k < p + 8 && NewTuple(v, traceBits[..], k)
    {
      var vm, tb := virginMap[p..p + 8], traceBits[p..p + 8];
      r := (tb[0] != 0 && vm[0] == 0xff) || (tb[1] != 0 && vm[1] == 0xff) ||
           (tb[2] != 0 && vm[2] == 0xff) || (tb[3] != 0 && vm[3] == 0xff) ||
           (tb[4] != 0 && vm[4] == 0xff) || (tb[5] != 0 && vm[5] == 0xff) ||
           (tb[6] != 0 && vm[6] == 0xff) || (tb[7] != 0 && vm[7] == 0xff);
      ghost var t := traceBits[..];
      assert forall d :: 0 <= d < 8 ==> tb[d] == t[p + d] && vm[d] == v[p + d];
      assert forall d :: 0 <= d < 8 ==> (NewTuple(v, t, p + d) <==> tb[d] != 0 && vm[d] == 0xff);
      OneOfEight(v, t, p);
    }

    /** Reduces the trace to hit (128) or not hit (1), a word at a time. */
    method SimplifyTrace()
      requires mapSize % 8 == 0 && traceBits.Length == mapSize
      modifies traceBits
      ensures traceBits[..] == Simplified(old(traceBits[..]))
    {
      hide Load64, ByteOf, Status;
      ghost var t: Map := traceBits[..];
      var p := 0;
      var i := mapSize / 8;
      while i > 0
        invariant 0 <= i && p + 8 * i == mapSize
        invariant forall k :: 0 <= k < p ==> traceBits[k] == Status(t[k])
        invariant forall k :: p <= k < mapSize ==> traceBits[k] == t[k]
      {
        i := i - 1;
        SimplifyWord(p);
        p := p + 8;
      }
    }

    method SimplifyWord(p: nat)
      requires p + 8 <= traceBits.Length
      modifies traceBits
      ensures forall k :: 0 <= k < traceBits.Length ==>
        traceBits[k] == if p <= k < p + 8 then Status(old(traceBits[k])) else old(traceBits[k])
    {
      hide Load64, ByteOf, Status;
      ghost var t: Map := traceBits[..];
      if Load64(traceBits[..], p) != 0 {
        for k := p to p + 8
          invariant forall j :: 0 <= j < traceBits.Length ==>
            traceBits[j] == if p <= j < k then Status(t[j]) else t[j]
        {
          traceBits[k] := Status(traceBits[k]);
        }
      } else {
        Store64(traceBits, p, 0x0101010101010101);
        forall k | p <= k < p + 8 ensures traceBits[k] == Status(t[k]) {
          UnhitWord(t, p, k - p);
          assert traceBits[p + (k - p)] == ByteOf(0x0101010101010101, k - p);
        }
      }
    }

    /** A crash with the trace of its run: kept if its simplified trace is new among the crashes. */
    method SaveCrash() returns (kept: bool)
      requires Valid()
      modifies `bitmapChanged, `totalCrashes, `uniqueCrashes, `crashTraces, traceBits, virginCrash
      ensures Valid() && totalCrashes == old(totalCrashes) + 1
      ensures old(uniqueCrashes) >= KEEP_UNIQUE_CRASH ==> !kept && crashTraces == old(crashTraces)
      ensures old(uniqueCrashes) < KEEP_UNIQUE_CRASH ==>
        && crashTraces == old(crashTraces) + [old(traceBits[..])]
        && (kept <==> exists i: nat :: i < mapSize && DiffersFromAll(old(crashTraces), old(traceBits[..]), i))
      ensures uniqueCrashes == old(uniqueCrashes) + (if kept then 1 else 0)
      ensures uniqueCrashes <= mapSize + 1
    {
      hide Novelty, Finds, VirginAfter, DiffersFromAll;
      totalCrashes := totalCrashes + 1;
      UniqueCrashesAreBounded(crashTraces, mapSize);
      if uniqueCrashes >= KEEP_UNIQUE_CRASH { return false; }
      ghost var t: Map := traceBits[..];
      CrashIsUnique(crashTraces, t);
      SimplifyTrace();
      var hnb := HasNewBits(virginCrash);
      CrashStep(crashTraces, t);
      crashTraces := crashTraces + [t];
      UniqueCrashesAreBounded(crashTraces, mapSize);
      if hnb == 0 { return false; }
      uniqueCrashes := uniqueCrashes + 1;
      return true;
    }

    /** Replaces hit counts by their class, two slots per table access. */
    method ClassifyCounts(table: array<bv16>)
      requires mapSize % 8 == 0 && traceBits.Length == mapSize && ClassTable(table)
      modifies traceBits
      ensures traceBits[..] == Classified(old(traceBits[..]))
    {
      hide Load64, Class8, ClassTable;
      ghost var t: Map := traceBits[..];
      var p := 0;
      var i := mapSize / 8;
      while i > 0
        invariant 0 <= i && p + 8 * i == mapSize
        invariant forall k :: 0 <= k < p ==> traceBits[k] == Class8(t[k])
        invariant forall k :: p <= k < mapSize ==> traceBits[k] == t[k]
        invariant ClassTable(table)
      {
        i := i - 1;
        ghost var s: Map := traceBits[..];
        if Load64(traceBits[..], p) != 0 {
          ClassifyPair(table, p);
          ClassifyPair(table, p + 2);
          ClassifyPair(table, p + 4);
          ClassifyPair(table, p + 6);
        } else {
          forall k | p <= k < p + 8 ensures Class8(s[k]) == s[k] {
            UnhitWord(s, p, k - p);
            UnhitClass();
          }
        }
        p := p + 8;
      }
    }

    method ClassifyPair(table: array<bv16>, p: nat)
      requires p + 2 <= traceBits.Length && ClassTable(table)
      modifies traceBits
      ensures ClassTable(table)
      ensures forall k :: 0 <= k < traceBits.Length ==>
        traceBits[k] == if p <= k < p + 2 then Class8(old(traceBits[k])) else old(traceBits[k])
    {
      hide Class8;
      var lo, hi := traceBits[p], traceBits[p + 1];
      var w := table[Index16(lo, hi)];
      Join16Bytes(Class8(lo), Class8(hi));
      traceBits[p], traceBits[p + 1] := (w & 0xff) as bv8, (w >> 8) as bv8;
    }
  }

  // ---------- Hit-count classes ----------

  /** The class of a hit count: the table `count_class_lookup8`. */
  function ClassOf(k: nat): bv8
    requires k < 256
  {
    if k == 0 then 0 else if k == 1 then 1 else if k == 2 then 2 else if k == 3 then 4
    else if k <= 7 then 8 else if k <= 15 then 16 else if k <= 31 then 32 else if k <= 127 then 64 else 128
  }

  /** No hit has class 0; otherwise the class is one bit, which moves up by one at 2, 3, 4, 8, 16, 32 and 128
      hits and nowhere else. */
  lemma ClassSteps(k: nat)
    requires 1 <= k < 256
    ensures ClassOf(0) == 0 && ClassOf(1) == 1
    ensures k > 1 ==> ClassOf(k) == if k in {2, 3, 4, 8, 16, 32, 128} then ClassOf(k - 1) << 1 else ClassOf(k - 1)
  {
  }

  /** Classes grow with the hits, and two counts share a bit only if they have the same class. */
  lemma ClassesRise(j: nat, k: nat)
    requires j <= k < 256
    ensures ClassOf(j) <= ClassOf(k)
    ensures ClassOf(j) & ClassOf(k) != 0 <==> j > 0 && ClassOf(j) == ClassOf(k)
  {
  }

  function Class8(b: bv8): bv8 {
    ClassOf(b as int)
  }

  ghost function Classified(t: Map): (r: Map)
    ensures |r| == |t|
  {
    seq(|t|, i requires 0 <= i < |t| => Class8(t[i]))
  }

  /** The number that a two-byte load gives. */
  function Index16(lo: bv8, hi: bv8): (k: nat)
    ensures k < 65536
  {
    256 * (hi as int) + (lo as int)
  }

  ghost predicate ClassTable(table: array<bv16>)
    reads table
  {
    && table.Length == 65536
    && (forall lo: bv8, hi: bv8 :: table[Index16(lo, hi)] == Join16(Class8(lo), Class8(hi)))
  }

  /** What the two-slot table holds for the number `k`. */
  function PairClass(k: nat): bv16
    requires k < 65536
  {
    Join16(ClassOf(k % 256), ClassOf(k / 256))
  }

  method InitCountClass16() returns (table: array<bv16>)
    ensures fresh(table) && ClassTable(table)
  {
    hide ClassOf, Join16, PairClass;
    table := new bv16[65536](_ => 0);
    for b1 := 0 to 256
      invariant forall k: nat :: k < 256 * b1 ==> table[k] == PairClass(k)
    {
      for b2 := 0 to 256
        invariant forall k: nat :: k < 256 * b1 + b2 ==> table[k] == PairClass(k)
      {
        PairClassParts(b1, b2);
        table[256 * b1 + b2] := Join16(ClassOf(b2), ClassOf(b1));
      }
    }
    forall lo: bv8, hi: bv8 ensures table[Index16(lo, hi)] == Join16(Class8(lo), Class8(hi)) {
      PairClassParts(hi as int, lo as int);
    }
  }

  lemma PairClassParts(b1: nat, b2: nat)
    requires b1 < 256 && b2 < 256
    ensures PairClass(256 * b1 + b2) == Join16(ClassOf(b2), ClassOf(b1))
  {
    hide ClassOf, Join16;
    assert (256 * b1 + b2) % 256 == b2 && (256 * b1 + b2) / 256 == b1;
  }

  lemma UnhitWord(t: Map, p: nat, k: nat)
    requires p + 8 <= |t| && k < 8 && Load64(t, p) == 0
    ensures t[p + k] == 0 && Status(t[p + k]) == ByteOf(0x0101010101010101, k)
  {
    hide Load64;
    ByteOfLoad(t, p, k);
    ConstantBytes(k);
  }

  lemma ConstantBytes(k: nat)
    requires k < 8
    ensures ByteOf(0, k) == 0 && ByteOf(0x0101010101010101, k) == 1
  {
  }

  lemma UnhitClass()
    ensures Class8(0) == 0
  {
  }

  lemma CrashStep(traces: seq<Map>, t: Map)
    requires Traces(traces, |t|)
    ensures Traces(traces + [t], |t|)
    ensures var before, after := SimplifiedAll(traces), SimplifiedAll(traces + [t]);
      && VirginAfter(Fresh(|t|), after) == Cleared(VirginAfter(Fresh(|t|), before), Simplified(t))
      && Finds(Fresh(|t|), after) == Finds(Fresh(|t|), before) +
           (if Novelty(VirginAfter(Fresh(|t|), before), Simplified(t), 0, |t|) != 0 then 1 else 0)
  {
    hide Novelty;
    assert SimplifiedAll(traces + [t])[..|traces|] == SimplifiedAll(traces);
  }

  lemma NoveltyNone(v: Map, t: Map)
    requires |v| == |t|
    ensures Novelty(v, t, 0, 0) == 0
  {
  }

  lemma SameLoad(a: Map, b: Map, p: nat)
    requires p + 8 <= |a| == |b| && forall k :: p <= k < |a| ==> a[k] == b[k]
    ensures Load64(a, p) == Load64(b, p)
  {
  }

  lemma WordNovelty(v: Map, t: Map, p: nat)
    requires p + 8 <= |v| == |t| && Shares64(Load64(v, p), Load64(t, p))
    ensures Novelty(v, t, p, p + 8) == if exists k: nat :: p <= k < p + 8 && NewTuple(v, t, k) then 2 else 1
  {
    hide Load64, Shares64, NewBits, NewTuple;
    WordIsNew(v, t, p);
  }

  lemma ZeroShares(v: bv64, t: bv64)
    ensures t == 0 ==> !Shares64(v, t)
  {
  }

  /** A word without virgin bits of the trace: nothing new, and nothing to clear. */
  lemma WordUnchanged(v: Map, t: Map, p: nat)
    requires p + 8 <= |v| == |t|
    requires Load64(t, p) == 0 || !Shares64(Load64(v, p), Load64(t, p))
    ensures Novelty(v, t, p, p + 8) == 0
    ensures forall k :: p <= k < p + 8 ==> Clear8(v[k], t[k]) == v[k]
  {
    hide Load64, Shares64, NewTuple;
    ZeroShares(Load64(v, p), Load64(t, p));
    WordIsNew(v, t, p);
    forall k: nat | p <= k < p + 8
      ensures !NewBits(v, t, k) && !NewTuple(v, t, k) && Clear8(v[k], t[k]) == v[k]
    {
      assert !NewBits(v, t, k);
      NothingToClear(v[k], t[k]);
      if NewTuple(v, t, k) { NewTupleIsNewBits(v, t, k); }
    }
  }
}
