/** The counts shown for a coverage map: bits set, slots hit, slots no longer pristine. Each is taken
    four slots at a time and equals the number of bits or slots it names. */
module MapCounts {
  import opened Bitmaps
  import opened Words

  /** The slots below `n` whose byte is not all ones. */
  ghost function TouchedBelow(m: seq<bv8>, n: nat): set<nat>
    requires n <= |m|
  {
    set i: nat | i < n && m[i] != 0xff
  }

  /** The slots below `n` that are hit. */
  ghost function HitsBelow(m: seq<bv8>, n: nat): set<nat>
    requires n <= |m|
  {
    set i: nat | i < n && m[i] != 0
  }

  // ---------- The bits of one byte ----------

  function BitOne(b: bv8, k: nat): bv8
    requires k < 8
  {
    if b & Bit(k) != 0 then 1 else 0
  }

  function One(c: bool): nat {
    if c then 1 else 0
  }

  lemma OnesAreBits(b: bv8)
    ensures OnesOf(b) == Add8(Add8(Add8(Add8(Add8(Add8(Add8(
      BitOne(b, 0), BitOne(b, 1)), BitOne(b, 2)), BitOne(b, 3)), BitOne(b, 4)), BitOne(b, 5)), BitOne(b, 6)),
          BitOne(b, 7))
  {
    hide Bit;
    BitCases(0); BitCases(1); BitCases(2); BitCases(3);
    BitCases(4); BitCases(5); BitCases(6); BitCases(7);
  }

  function OnesBelow(b: bv8, k: nat): bv8
    requires k <= 8
  {
    if k == 0 then 0 else Add8(OnesBelow(b, k - 1), BitOne(b, k - 1))
  }

  lemma AddNone(x: bv8)
    ensures Add8(0, x) == x
  {
  }

  lemma OnesOfIsBelow(b: bv8)
    ensures OnesOf(b) == OnesBelow(b, 8)
  {
    hide OnesOf, Add8, BitOne;
    OnesAreBits(b);
    AddNone(BitOne(b, 0));
    assert OnesBelow(b, 1) == BitOne(b, 0);
    assert OnesBelow(b, 2) == Add8(OnesBelow(b, 1), BitOne(b, 1));
    assert OnesBelow(b, 3) == Add8(OnesBelow(b, 2), BitOne(b, 2));
    assert OnesBelow(b, 4) == Add8(OnesBelow(b, 3), BitOne(b, 3));
    assert OnesBelow(b, 5) == Add8(OnesBelow(b, 4), BitOne(b, 4));
    assert OnesBelow(b, 6) == Add8(OnesBelow(b, 5), BitOne(b, 5));
    assert OnesBelow(b, 7) == Add8(OnesBelow(b, 6), BitOne(b, 6));
    assert OnesBelow(b, 8) == Add8(OnesBelow(b, 7), BitOne(b, 7));
  }

  lemma AddBit(x: bv8, b: bv8, k: nat)
    requires k < 8 && x as int <= 8
    ensures Add8(x, BitOne(b, k)) as int == x as int + One(b & Bit(k) != 0)
  {
    hide Bit, Add8;
    SmallSum(x, BitOne(b, k));
  }

  /** One slot more. */
  lemma BitsNext(m: seq<bv8>, p: nat, k: nat)
    requires p < |m| && k < 8
    ensures |BitsOf(m, 8 * p + k + 1)| == |BitsOf(m, 8 * p + k)| + One(m[p] & Bit(k) != 0)
  {
    hide Bit;
    var i := 8 * p + k;
    assert i / 8 == p && i % 8 == k;
    assert BitsOf(m, i + 1) == BitsOf(m, i) + (if HasBit(m, i) then {i} else {});
  }

  /** The first `k` bits of byte `p`, as bits of the whole map. */
  lemma {:induction false} BitsOfByte(m: seq<bv8>, p: nat, k: nat)
    requires p < |m| && k <= 8
    ensures OnesBelow(m[p], k) as int <= k
    ensures |BitsOf(m, 8 * p + k)| == |BitsOf(m, 8 * p)| + OnesBelow(m[p], k) as int
  {
    hide Bit, Add8, BitOne, BitsOf;
    if k > 0 {
      BitsOfByte(m, p, k - 1);
      AddBit(OnesBelow(m[p], k - 1), m[p], k - 1);
      BitsNext(m, p, k - 1);
    }
  }

  lemma ByteCount(m: seq<bv8>, p: nat)
    requires p < |m|
    ensures |BitsOf(m, 8 * (p + 1))| == |BitsOf(m, 8 * p)| + OnesOf(m[p]) as int
  {
    BitsOfByte(m, p, 8);
    OnesOfIsBelow(m[p]);
  }

  lemma FourBytesCount(m: seq<bv8>, p: nat)
    requires p + 4 <= |m|
    ensures |BitsOf(m, 8 * (p + 4))| == |BitsOf(m, 8 * p)| + ParallelCount(Load32(m, p)) as int
  {
    hide OnesOf, BitsOf, ParallelCount, Join32;
    ByteCount(m, p);
    ByteCount(m, p + 1);
    ByteCount(m, p + 2);
    ByteCount(m, p + 3);
    ParallelCountSum(m[p], m[p + 1], m[p + 2], m[p + 3]);
  }

  lemma FullWordCount()
    ensures ParallelCount(0xffffffff) as int == 32
  {
    assert ParallelCount(0xffffffff) == 32;
  }

  /** The number of bits set in the map. */
  method CountBits(mem: array<bv8>) returns (ret: nat)
    requires mem.Length % 4 == 0
    ensures ret == |BitsOf(mem[..], 8 * mem.Length)|
  {
    hide Load32, ParallelCount;
    var p, i := 0, mem.Length / 4;
    ret := 0;
    while i > 0
      invariant 0 <= i && p + 4 * i == mem.Length
      invariant ret == |BitsOf(mem[..], 8 * p)|
    {
      i := i - 1;
      FourBytesCount(mem[..], p);
      var v := Load32(mem[..], p);
      p := p + 4;
      if v == 0xffffffff {
        FullWordCount();
        ret := ret + 32;
        continue;
      }
      ret := ret + ParallelCount(v) as int;
    }
  }

  // ---------- Slots hit and slots touched ----------

  /** The mask of byte `b` of a word: `FF(b)`. */
  function ByteMask(b: nat): bv32
    requires b < 4
  {
    match b case 0 => 0xff case 1 => 0xff00 case 2 => 0xff0000 case _ => 0xff000000
  }

  predicate Hit(w: bv32, b: nat)
    requires b < 4
  {
    w & ByteMask(b) != 0
  }

  predicate Touched(w: bv32, b: nat)
    requires b < 4
  {
    w & ByteMask(b) != ByteMask(b)
  }

  lemma HitByte(w: bv32, b: nat)
    requires b < 4
    ensures Hit(w, b) <==> Byte32(w, b) != 0
  {
  }

  lemma TouchedByte(w: bv32, b: nat)
    requires b < 4
    ensures Touched(w, b) <==> Byte32(w, b) != 0xff
  {
  }

  lemma PlainWords()
    ensures !Hit(0, 0) && !Hit(0, 1) && !Hit(0, 2) && !Hit(0, 3)
    ensures !Touched(0xffffffff, 0) && !Touched(0xffffffff, 1) && !Touched(0xffffffff, 2) && !Touched(0xffffffff, 3)
  {
  }

  lemma HitStep(m: seq<bv8>, p: nat)
    requires p < |m|
    ensures |HitsBelow(m, p + 1)| == |HitsBelow(m, p)| + One(m[p] != 0)
  {
    assert HitsBelow(m, p + 1) == HitsBelow(m, p) + (if m[p] != 0 then {p} else {});
  }

  lemma TouchedStep(m: seq<bv8>, p: nat)
    requires p < |m|
    ensures |TouchedBelow(m, p + 1)| == |TouchedBelow(m, p)| + One(m[p] != 0xff)
  {
    assert TouchedBelow(m, p + 1) == TouchedBelow(m, p) + (if m[p] != 0xff then {p} else {});
  }

  lemma FourHits(m: seq<bv8>, p: nat)
    requires p + 4 <= |m|
    ensures var w := Load32(m, p);
      |HitsBelow(m, p + 4)| == |HitsBelow(m, p)| + One(Hit(w, 0)) + One(Hit(w, 1)) + One(Hit(w, 2)) + One(Hit(w, 3))
  {
    hide HitsBelow, Join32, Byte32, Hit;
    BytesOfJoin(m[p], m[p + 1], m[p + 2], m[p + 3]);
    forall b: nat | b < 4 { HitByte(Load32(m, p), b); }
    HitStep(m, p);
    HitStep(m, p + 1);
    HitStep(m, p + 2);
    HitStep(m, p + 3);
  }

  lemma FourTouched(m: seq<bv8>, p: nat)
    requires p + 4 <= |m|
    ensures var w := Load32(m, p);
      |TouchedBelow(m, p + 4)| ==
        |TouchedBelow(m, p)| + One(Touched(w, 0)) + One(Touched(w, 1)) + One(Touched(w, 2)) + One(Touched(w, 3))
  {
    hide TouchedBelow, Join32, Byte32, Touched;
    BytesOfJoin(m[p], m[p + 1], m[p + 2], m[p + 3]);
    forall b: nat | b < 4 { TouchedByte(Load32(m, p), b); }
    TouchedStep(m, p);
    TouchedStep(m, p + 1);
    TouchedStep(m, p + 2);
    TouchedStep(m, p + 3);
  }

  /** The number of slots hit. */
  method CountBytes(mem: array<bv8>) returns (ret: nat)
    requires mem.Length % 4 == 0
    ensures ret == |HitsOf(mem[..])|
  {
    hide Load32, Hit, Touched;
    var p, i := 0, mem.Length / 4;
    ret := 0;
    while i > 0
      invariant 0 <= i && p + 4 * i == mem.Length
      invariant ret == |HitsBelow(mem[..], p)|
    {
      i := i - 1;
      FourHits(mem[..], p);
      PlainWords();
      var v := Load32(mem[..], p);
      p := p + 4;
      if v == 0 { continue; }
      if Hit(v, 0) { ret := ret + 1; }
      if Hit(v, 1) { ret := ret + 1; }
      if Hit(v, 2) { ret := ret + 1; }
      if Hit(v, 3) { ret := ret + 1; }
    }
    assert HitsOf(mem[..]) == HitsBelow(mem[..], mem.Length);
  }

  /** The number of slots that are not pristine. */
  method CountNon255Bytes(mem: array<bv8>) returns (ret: nat)
    requires mem.Length % 4 == 0
    ensures ret == |TouchedBelow(mem[..], mem.Length)|
  {
    hide Load32, Hit, Touched;
    var p, i := 0, mem.Length / 4;
    ret := 0;
    while i > 0
      invariant 0 <= i && p + 4 * i == mem.Length
      invariant ret == |TouchedBelow(mem[..], p)|
    {
      i := i - 1;
      FourTouched(mem[..], p);
      PlainWords();
      var v := Load32(mem[..], p);
      p := p + 4;
      if v == 0xffffffff { continue; }
      if Touched(v, 0) { ret := ret + 1; }
      if Touched(v, 1) { ret := ret + 1; }
      if Touched(v, 2) { ret := ret + 1; }
      if Touched(v, 3) { ret := ret + 1; }
    }
  }
}
