/** The stacked random tweaks of the havoc stage, as functions on the file they change. */
module Tweaks {
  import opened Limits
  import opened Words
  import opened Redundancy
  import opened DetRuns
  import opened DetPhase
  import opened Subsequences

  const HAVOC_BLK_SMALL: nat := 32
  const HAVOC_BLK_MEDIUM: nat := 128
  const HAVOC_BLK_LARGE: nat := 1500
  const HAVOC_BLK_XL: nat := 32768

  /** One tweak with its random choices. */
  datatype Tweak =
    | Nothing
    | Flip(bit: nat)
    | SetByte(pos: nat, byte: bv8)
    | SetWord(pos: nat, word: bv16)
    | SetDword(pos: nat, dword: bv32)
    | AddByte(pos: nat, num: nat, up: bool)
    | AddWord(pos: nat, num: nat, up: bool, swapped: bool)
    | AddDword(pos: nat, num: nat, up: bool, swapped: bool)
    | XorByte(pos: nat, byte: bv8)
    | Delete(pos: nat, count: nat)
    | InsertBlock(pos: nat, block: Buf)
    | OverwriteBlock(pos: nat, block: Buf)
    | OverwriteToken(pos: nat, token: Buf)
    | InsertToken(pos: nat, token: Buf)

  function Word(s: Buf, p: nat): bv16
    requires p + 2 <= |s|
  {
    Join16(s[p], s[p + 1])
  }

  function Dword(s: Buf, p: nat): bv32
    requires p + 4 <= |s|
  {
    Load32(s, p)
  }

  function MovedWord(w: bv16, num: nat, up: bool, swapped: bool): bv16
    requires num <= ARITH_MAX
  {
    if swapped then (if up then SwapSum16(w, num) else SwapDiff16(w, num))
    else (if up then Sum16(w, num) else Diff16(w, num))
  }

  function MovedDword(w: bv32, num: nat, up: bool, swapped: bool): bv32
    requires num <= ARITH_MAX
  {
    if swapped then (if up then SwapSum32(w, num) else SwapDiff32(w, num))
    else (if up then Sum32(w, num) else Diff32(w, num))
  }

  ghost predicate StretchAt(s: Buf, p: nat, block: Buf) {
    p + |block| <= |s| && block == s[p..p + |block|]
  }

  /** The block is a stretch of the file or one repeated byte. */
  ghost predicate FromFile(s: Buf, block: Buf) {
    (exists p :: StretchAt(s, p, block)) || (forall k :: 0 <= k < |block| ==> block[k] == block[0])
  }

  /** What the dice can choose for a file `s`, given the dictionary. */
  ghost predicate Possible(t: Tweak, s: Buf, dict: set<Buf>) {
    match t
    case Nothing => true
    case Flip(b) => b < 8 * |s|
    case SetByte(p, v) => p < |s| && v in INTERESTING_8
    case SetWord(p, v) =>
      && p + 2 <= |s|
      && exists i :: 0 <= i < |INTERESTING_16| && (v == INTERESTING_16[i] || v == Swap16(INTERESTING_16[i]))
    case SetDword(p, v) =>
      && p + 4 <= |s|
      && exists i :: 0 <= i < |INTERESTING_32| && (v == INTERESTING_32[i] || v == Swap32(INTERESTING_32[i]))
    case AddByte(p, j, _) => p < |s| && 1 <= j <= ARITH_MAX
    case AddWord(p, j, _, _) => p + 2 <= |s| && 1 <= j <= ARITH_MAX
    case AddDword(p, j, _, _) => p + 4 <= |s| && 1 <= j <= ARITH_MAX
    case XorByte(p, v) => p < |s| && v != 0
    case Delete(p, n) => 1 <= n < |s| && p + n <= |s| && n <= HAVOC_BLK_XL
    case InsertBlock(p, b) => p < |s| && |s| + HAVOC_BLK_XL < MAX_FILE && 1 <= |b| <= HAVOC_BLK_XL && FromFile(s, b)
    case OverwriteBlock(p, b) => 1 <= |b| < |s| && p + |b| <= |s| && |b| <= HAVOC_BLK_XL && FromFile(s, b)
    case OverwriteToken(p, b) => b in dict && p + |b| <= |s|
    case InsertToken(p, b) => b in dict && p <= |s| && |s| + |b| < MAX_FILE
  }

  ghost function Apply(t: Tweak, s: Buf, dict: set<Buf>): (r: Buf)
    requires Possible(t, s, dict)
  {
    match t
    case Nothing => s
    case Flip(b) => FlipBits(s, b, 1)
    case SetByte(p, v) => Put(s, p, Bytes8(v))
    case SetWord(p, v) => Put(s, p, Bytes16(v))
    case SetDword(p, v) => Put(s, p, Bytes32(v))
    case AddByte(p, j, up) => Put(s, p, Bytes8(if up then Plus(s[p], j) else Minus(s[p], j)))
    case AddWord(p, j, up, sw) => Put(s, p, Bytes16(MovedWord(Word(s, p), j, up, sw)))
    case AddDword(p, j, up, sw) => Put(s, p, Bytes32(MovedDword(Dword(s, p), j, up, sw)))
    case XorByte(p, v) => Put(s, p, Bytes8(Xor8(s[p], v)))
    case Delete(p, n) => Without(s, p, n)
    case InsertBlock(p, b) => Inserted(s, p, b)
    case OverwriteBlock(p, b) => Put(s, p, b)
    case OverwriteToken(p, b) => Put(s, p, b)
    case InsertToken(p, b) => Inserted(s, p, b)
  }

  /** Which tweak a roll of the die makes of a file of length `len`: nothing only if the file is too short or
      too long for it, or the token that was picked does not fit. */
  ghost predicate RolledAs(t: Tweak, roll: nat, len: nat, dict: set<Buf>) {
    match roll
    case 0 => t.Flip?
    case 1 => t.SetByte?
    case 2 => if len < 2 then t.Nothing? else t.SetWord?
    case 3 => if len < 4 then t.Nothing? else t.SetDword?
    case 4 => t.AddByte? && !t.up
    case 5 => t.AddByte? && t.up
    case 6 => if len < 2 then t.Nothing? else t.AddWord? && !t.up
    case 7 => if len < 2 then t.Nothing? else t.AddWord? && t.up
    case 8 => if len < 4 then t.Nothing? else t.AddDword? && !t.up
    case 9 => if len < 4 then t.Nothing? else t.AddDword? && t.up
    case 10 => t.XorByte?
    case 11 => if len < 2 then t.Nothing? else t.Delete?
    case 12 => if len < 2 then t.Nothing? else t.Delete?
    case 13 => if len + HAVOC_BLK_XL >= MAX_FILE then t.Nothing? else t.InsertBlock?
    case 14 => if len < 2 then t.Nothing? else t.OverwriteBlock?
    case 15 => t.OverwriteToken? || (t.Nothing? && exists b :: b in dict && |b| > len)
    case _ => t.InsertToken? || (t.Nothing? && exists b :: b in dict && len + |b| >= MAX_FILE)
  }

  /** The sides of the die: the last two need a dictionary. */
  function Sides(dict: set<Buf>): nat {
    15 + (if dict != {} then 2 else 0)
  }

  ghost predicate Rolled(t: Tweak, len: nat, dict: set<Buf>) {
    exists roll: nat :: roll < Sides(dict) && RolledAs(t, roll, len, dict)
  }

  /** The two files are of one length and agree outside `n` bytes from `p` on. */
  ghost predicate OnlyAt(s: Buf, r: Buf, p: nat, n: nat) {
    && |r| == |s| && p + n <= |s|
    && forall k :: 0 <= k < |s| && !(p <= k < p + n) ==> r[k] == s[k]
  }

  /** `r` is `s` with the block put between its first `p` bytes and the others. */
  ghost predicate Between(s: Buf, r: Buf, p: nat, block: Buf) {
    p <= |s| && |r| == |s| + |block| && r[..p] == s[..p] && StretchAt(r, p, block) && r[p + |block|..] == s[p..]
  }

  function Moved8(x: bv8, j: nat, up: bool): bv8
    requires j <= ARITH_MAX
  {
    if up then x + Step(j) else x - Step(j)
  }

  function Moved16(x: bv16, j: nat, up: bool): bv16
    requires j <= ARITH_MAX
  {
    if up then x + Step16(j) else x - Step16(j)
  }

  function Moved32(x: bv32, j: nat, up: bool): bv32
    requires j <= ARITH_MAX
  {
    if up then x + Step32(j) else x - Step32(j)
  }

  /** What a tweak leaves, said of the bytes and words that it concerns; words of the other byte order are read
      and written in that order. */
  ghost predicate Changed(t: Tweak, s: Buf, r: Buf, dict: set<Buf>)
    requires Possible(t, s, dict)
  {
    match t
    case Nothing => r == s
    case Flip(b) => OnlyAt(s, r, b / 8, 1) && r[b / 8] ^ s[b / 8] == HighBit(b % 8)
    case SetByte(p, v) => OnlyAt(s, r, p, 1) && r[p] == v
    case SetWord(p, v) => OnlyAt(s, r, p, 2) && Word(r, p) == v
    case SetDword(p, v) => OnlyAt(s, r, p, 4) && Dword(r, p) == v
    case AddByte(p, j, up) => OnlyAt(s, r, p, 1) && r[p] == Moved8(s[p], j, up)
    case AddWord(p, j, up, swapped) =>
      && OnlyAt(s, r, p, 2)
      && (if swapped then Join16(r[p + 1], r[p]) == Moved16(Join16(s[p + 1], s[p]), j, up)
          else Join16(r[p], r[p + 1]) == Moved16(Join16(s[p], s[p + 1]), j, up))
    case AddDword(p, j, up, swapped) =>
      && OnlyAt(s, r, p, 4)
      && (if swapped then
            Join32(r[p + 3], r[p + 2], r[p + 1], r[p]) ==
              Moved32(Join32(s[p + 3], s[p + 2], s[p + 1], s[p]), j, up)
          else
            Join32(r[p], r[p + 1], r[p + 2], r[p + 3]) ==
              Moved32(Join32(s[p], s[p + 1], s[p + 2], s[p + 3]), j, up))
    case XorByte(p, v) => OnlyAt(s, r, p, 1) && r[p] ^ s[p] == v
    case Delete(p, n) => Between(r, s, p, s[p..p + n])
    case InsertBlock(p, b) => Between(s, r, p, b)
    case OverwriteBlock(p, b) => OnlyAt(s, r, p, |b|) && StretchAt(r, p, b)
    case OverwriteToken(p, b) => OnlyAt(s, r, p, |b|) && StretchAt(r, p, b)
    case InsertToken(p, b) => Between(s, r, p, b)
  }

  lemma PutMeans(s: Buf, p: nat, b: Buf)
    requires p + |b| <= |s|
    ensures OnlyAt(s, Put(s, p, b), p, |b|) && StretchAt(Put(s, p, b), p, b)
    ensures forall k :: 0 <= k < |b| ==> Put(s, p, b)[p + k] == b[k]
  {
  }

  lemma InsertedMeans(s: Buf, p: nat, b: Buf)
    requires p <= |s|
    ensures Between(s, Inserted(s, p, b), p, b)
  {
  }

  lemma WithoutMeans(s: Buf, p: nat, n: nat)
    requires p + n <= |s|
    ensures Between(Without(s, p, n), s, p, s[p..p + n])
  {
  }

  lemma JoinBytes16(v: bv16)
    ensures Join16(Bytes16(v)[0], Bytes16(v)[1]) == v
  {
  }

  lemma JoinBytes32(v: bv32)
    ensures var b := Bytes32(v); Join32(b[0], b[1], b[2], b[3]) == v
  {
  }

  lemma Xor8Is(x: bv8, y: bv8)
    ensures Xor8(x, y) ^ x == y
  {
  }

  lemma WordMoved(s: Buf, p: nat, j: nat, up: bool, swapped: bool, dict: set<Buf>)
    requires Possible(AddWord(p, j, up, swapped), s, dict)
    ensures Changed(AddWord(p, j, up, swapped), s, Apply(AddWord(p, j, up, swapped), s, dict), dict)
  {
    hide Put, Join16, Bytes16, Swap16, Step16, StretchAt;
    var w := Word(s, p);
    var v := MovedWord(w, j, up, swapped);
    var r := Put(s, p, Bytes16(v));
    PutMeans(s, p, Bytes16(v));
    JoinBytes16(v);
    assert r[p + 0] == Bytes16(v)[0] && r[p + 1] == Bytes16(v)[1];
    Candidates16(w, j);
    SwapReverses16(s[p], s[p + 1]);
    SwapReverses16(r[p], r[p + 1]);
  }

  lemma MovedDwordIs(w: bv32, j: nat, up: bool)
    requires j <= ARITH_MAX
    ensures MovedDword(w, j, up, false) == Moved32(w, j, up)
    ensures MovedDword(w, j, up, true) == Swap32(Moved32(Swap32(w), j, up))
  {
    hide Step32, Swap32;
  }

  lemma MovedDwordMeans(a: bv8, b: bv8, c: bv8, d: bv8, j: nat, up: bool, swapped: bool)
    requires j <= ARITH_MAX
    ensures var r := Bytes32(MovedDword(Join32(a, b, c, d), j, up, swapped));
      if swapped then Join32(r[3], r[2], r[1], r[0]) == Moved32(Join32(d, c, b, a), j, up)
      else Join32(r[0], r[1], r[2], r[3]) == Moved32(Join32(a, b, c, d), j, up)
  {
    hide Join32, Bytes32, Swap32, MovedDword, Moved32;
    var w := Join32(a, b, c, d);
    var r := Bytes32(MovedDword(w, j, up, swapped));
    MovedDwordIs(w, j, up);
    JoinBytes32(MovedDword(w, j, up, swapped));
    SwapReverses32(a, b, c, d);
    SwapReverses32(r[0], r[1], r[2], r[3]);
    SwapTwice32(Moved32(Swap32(w), j, up));
  }

  lemma DwordMoved(s: Buf, p: nat, j: nat, up: bool, swapped: bool, dict: set<Buf>)
    requires Possible(AddDword(p, j, up, swapped), s, dict)
    ensures Changed(AddDword(p, j, up, swapped), s, Apply(AddDword(p, j, up, swapped), s, dict), dict)
  {
    hide Put, Join32, Bytes32, MovedDword, Moved32, StretchAt;
    var b := Bytes32(MovedDword(Dword(s, p), j, up, swapped));
    var r := Put(s, p, b);
    PutMeans(s, p, b);
    assert r[p + 0] == b[0] && r[p + 1] == b[1] && r[p + 2] == b[2] && r[p + 3] == b[3];
    MovedDwordMeans(s[p], s[p + 1], s[p + 2], s[p + 3], j, up, swapped);
  }

  lemma WordStored(s: Buf, p: nat, v: bv16)
    requires p + 2 <= |s|
    ensures Word(Put(s, p, Bytes16(v)), p) == v
  {
    hide Put, Bytes16, Join16;
    PutMeans(s, p, Bytes16(v));
    JoinBytes16(v);
    assert forall k :: 0 <= k < 2 ==> Put(s, p, Bytes16(v))[p + k] == Bytes16(v)[k];
  }

  lemma DwordStored(s: Buf, p: nat, v: bv32)
    requires p + 4 <= |s|
    ensures Dword(Put(s, p, Bytes32(v)), p) == v
  {
    hide Put, Bytes32, Join32;
    PutMeans(s, p, Bytes32(v));
    JoinBytes32(v);
    assert forall k :: 0 <= k < 4 ==> Put(s, p, Bytes32(v))[p + k] == Bytes32(v)[k];
  }

  /** Every tweak leaves what its name says. */
  lemma TweakMeans(t: Tweak, s: Buf, dict: set<Buf>)
    requires Possible(t, s, dict)
    ensures Changed(t, s, Apply(t, s, dict), dict)
  {
    hide INTERESTING_8, INTERESTING_16, INTERESTING_32, FromFile, Put, Inserted, Without, Between, Xor8, Join16;
    hide Bytes16, Bytes32, Join32, HighBit, Swap16, Swap32, MovedWord, MovedDword, Step, StretchAt, Load32, Word, Dword;
    match t
    case Nothing =>
    case Flip(b) =>
      assert Apply(t, s, dict) == s[b / 8 := Xor8(s[b / 8], HighBit(b % 8))];
      Xor8Is(s[b / 8], HighBit(b % 8));
    case SetByte(p, v) => PutMeans(s, p, Bytes8(v));
    case SetWord(p, v) =>
      PutMeans(s, p, Bytes16(v));
      WordStored(s, p, v);
    case SetDword(p, v) =>
      PutMeans(s, p, Bytes32(v));
      DwordStored(s, p, v);
    case AddByte(p, j, up) => PutMeans(s, p, Bytes8(if up then Plus(s[p], j) else Minus(s[p], j)));
    case AddWord(p, j, up, swapped) => WordMoved(s, p, j, up, swapped, dict);
    case AddDword(p, j, up, swapped) => DwordMoved(s, p, j, up, swapped, dict);
    case XorByte(p, v) =>
      PutMeans(s, p, Bytes8(Xor8(s[p], v)));
      Xor8Is(s[p], v);
    case Delete(p, n) => WithoutMeans(s, p, n);
    case InsertBlock(p, b) => InsertedMeans(s, p, b);
    case OverwriteBlock(p, b) => PutMeans(s, p, b);
    case OverwriteToken(p, b) => PutMeans(s, p, b);
    case InsertToken(p, b) => InsertedMeans(s, p, b);
  }

  function Largest(len: nat): nat {
    if len >= MAX_FILE then len else MAX_FILE - 1
  }

  /** One tweak keeps the file non-empty and below the size limit, whatever the dice say. */
  lemma TweakKeepsSize(t: Tweak, s: Buf, dict: set<Buf>, len: nat)
    requires Possible(t, s, dict) && 1 <= |s| <= Largest(len)
    ensures 1 <= |Apply(t, s, dict)| <= Largest(len)
  {
    hide INTERESTING_8, INTERESTING_16, INTERESTING_32, FromFile;
  }

  /** A run of tweaks, each possible for what the earlier ones left, and what some roll makes of that. */
  ghost predicate Stack(ts: seq<Tweak>, s: Buf, dict: set<Buf>)
    decreases |ts|
  {
    || ts == []
    || (Possible(ts[0], s, dict) && Rolled(ts[0], |s|, dict) && Stack(ts[1..], Apply(ts[0], s, dict), dict))
  }

  ghost function ApplyAll(ts: seq<Tweak>, s: Buf, dict: set<Buf>): Buf
    requires Stack(ts, s, dict)
    decreases |ts|
  {
    if ts == [] then s else ApplyAll(ts[1..], Apply(ts[0], s, dict), dict)
  }

  /** However many tweaks are stacked, the file stays non-empty and within the size limit. */
  lemma {:induction false} StackKeepsSize(ts: seq<Tweak>, s: Buf, dict: set<Buf>, len: nat)
    requires Stack(ts, s, dict) && 1 <= |s| <= Largest(len)
    ensures 1 <= |ApplyAll(ts, s, dict)| <= Largest(len)
    decreases |ts|
  {
    hide Possible, Apply, Rolled;
    if ts != [] {
      TweakKeepsSize(ts[0], s, dict, len);
      StackKeepsSize(ts[1..], Apply(ts[0], s, dict), dict, len);
    }
  }

  lemma {:induction false} StackMore(ts: seq<Tweak>, s: Buf, dict: set<Buf>, t: Tweak)
    requires Stack(ts, s, dict) && Possible(t, ApplyAll(ts, s, dict), dict)
    requires Rolled(t, |ApplyAll(ts, s, dict)|, dict)
    ensures Stack(ts + [t], s, dict) && ApplyAll(ts + [t], s, dict) == Apply(t, ApplyAll(ts, s, dict), dict)
    decreases |ts|
  {
    hide Possible, Apply, Rolled;
    if ts != [] {
      StackMore(ts[1..], Apply(ts[0], s, dict), dict, t);
      assert (ts + [t])[1..] == ts[1..] + [t];
    } else {
      assert Stack([], Apply(t, s, dict), dict);
    }
  }

  /** The random byte change always changes the file. */
  lemma XorByteChanges(s: Buf, p: nat, v: bv8, dict: set<Buf>)
    requires Possible(XorByte(p, v), s, dict)
    ensures Apply(XorByte(p, v), s, dict) != s
  {
    hide Xor8;
    XorLaws(s[p], v, 0);
    assert Put(s, p, Bytes8(Xor8(s[p], v)))[p] == Xor8(s[p], v);
  }
}
