/** What each stage of the test-case minimizer makes of its data, and what whole runs are, said without the
    steps of the stages. Every description has exactly one result: that of the stage. */
module MinimizerStages {
  import opened Bytes
  import opened Chunks
  import opened Limits
  import opened Subsequences
  import opened TestCaseMinimizer
  import opened Wrappers

  // ---------- Blocks ----------

  ghost function AcceptedBy(g: Goal): seq<Byte> -> bool {
    s => Accepts(g, s)
  }

  function ZeroBytes(block: seq<Byte>): seq<Byte> {
    seq(|block|, _ => ZERO)
  }

  function NoBytes(block: seq<Byte>): seq<Byte> {
    []
  }

  /** Each block of `d` bytes was set to '0' exactly if the target accepted that, with the blocks before it
      as they had become and those behind it as they were. */
  ghost predicate BlocksZeroed(g: Goal, s: seq<Byte>, d: nat, r: seq<Byte>) {
    Settled(AcceptedBy(g), ZeroBytes, [], s, d, r)
  }

  /** Each block of `d` bytes was deleted exactly if the target accepted that. */
  ghost predicate BlocksDeleted(g: Goal, s: seq<Byte>, d: nat, r: seq<Byte>) {
    Settled(AcceptedBy(g), NoBytes, [], s, d, r)
  }

  lemma {:induction false} ZeroingSettles(g: Goal, head: seq<Byte>, tail: seq<Byte>, d: nat)
    requires d > 0
    ensures Settled(AcceptedBy(g), ZeroBytes, head, tail, d, ZeroBlocks(g, head + tail, |head|, d))
    decreases |tail|
  {
    hide Settled, Accepts;
    var s := head + tail;
    if tail == [] {
      assert s == head;
      NothingLeft(AcceptedBy(g), ZeroBytes, head, d);
    } else {
      var n := Min(d, |tail|);
      var chunk, rest := tail[..n], tail[n..];
      assert tail == chunk + rest;
      var keep := !Accepts(g, head + ZeroBytes(chunk) + rest);
      var head' := head + (if keep then chunk else ZeroBytes(chunk));
      ZeroStep(g, head, chunk, rest, d);
      ZeroingSettles(g, head', rest, d);
      SettledMore(AcceptedBy(g), ZeroBytes, head, chunk, rest, d, ZeroBlocks(g, s, |head|, d));
    }
  }

  lemma ZeroStep(g: Goal, head: seq<Byte>, chunk: seq<Byte>, rest: seq<Byte>, d: nat)
    requires 0 < |chunk| <= d && (rest != [] ==> |chunk| == d)
    ensures var keep := !Accepts(g, head + ZeroBytes(chunk) + rest);
      var head' := head + (if keep then chunk else ZeroBytes(chunk));
      ZeroBlocks(g, head + (chunk + rest), |head|, d) == ZeroBlocks(g, head' + rest, |head'|, d)
  {
    hide Accepts;
    var s := head + (chunk + rest);
    assert s == head + chunk + rest;
    assert Zeroed(s, |head|, d) == head + ZeroBytes(chunk) + rest;
    var head' := head + (if !Accepts(g, head + ZeroBytes(chunk) + rest) then chunk else ZeroBytes(chunk));
    assert Keep(g, s, Zeroed(s, |head|, d)) == head' + rest;
    assert rest == [] ==> ZeroBlocks(g, head' + rest, |head| + d, d) == head' + rest;
  }

  lemma {:induction false} DeletingSettles(g: Goal, head: seq<Byte>, tail: seq<Byte>, d: nat)
    requires d > 0
    ensures Settled(AcceptedBy(g), NoBytes, head, tail, d, DeleteBlocks(g, head + tail, |head|, d))
    decreases |tail|
  {
    hide Settled, Accepts;
    var s := head + tail;
    if tail == [] {
      assert s == head;
      NothingLeft(AcceptedBy(g), NoBytes, head, d);
    } else {
      var n := Min(d, |tail|);
      var chunk, rest := tail[..n], tail[n..];
      assert tail == chunk + rest;
      var keep := !Accepts(g, head + NoBytes(chunk) + rest);
      var head' := head + (if keep then chunk else NoBytes(chunk));
      DeleteStep(g, head, chunk, rest, d);
      DeletingSettles(g, head', rest, d);
      SettledMore(AcceptedBy(g), NoBytes, head, chunk, rest, d, DeleteBlocks(g, s, |head|, d));
    }
  }

  lemma DeleteStep(g: Goal, head: seq<Byte>, chunk: seq<Byte>, rest: seq<Byte>, d: nat)
    requires 0 < |chunk| <= d && (rest != [] ==> |chunk| == d)
    ensures var keep := !Accepts(g, head + NoBytes(chunk) + rest);
      var head' := head + (if keep then chunk else NoBytes(chunk));
      DeleteBlocks(g, head + (chunk + rest), |head|, d) == DeleteBlocks(g, head' + rest, |head'|, d)
  {
    hide Accepts;
    var s := head + (chunk + rest);
    assert s == head + chunk + rest && head + NoBytes(chunk) == head;
    assert Without(s, |head|, d) == head + rest;
    assert rest == [] ==> DeleteBlocks(g, s, |head| + d, d) == s;
  }

  // ---------- Symbols ----------

  /** Every byte whose symbol is marked is '0'. */
  ghost function Overwritten(s: seq<Byte>, marked: seq<bool>): seq<Byte> {
    seq(|s|, i requires 0 <= i < |s| => if s[i] < |marked| && marked[s[i]] then ZERO else s[i])
  }

  /** Each symbol was replaced by '0' exactly if the target accepted that, with the symbols before it as they
      had become. */
  ghost predicate SymbolsZeroed(g: Goal, s: seq<Byte>, r: seq<Byte>) {
    exists marked: seq<bool> :: SymbolsMarked(g, s, r, marked)
  }

  ghost predicate SymbolsMarked(g: Goal, s: seq<Byte>, r: seq<Byte>, marked: seq<bool>) {
    && |marked| == 256 && r == Overwritten(s, marked)
    && forall c: nat :: c < 256 ==> (marked[c] <==> Accepts(g, Overwritten(s, marked[..c] + [true])))
  }

  lemma {:induction false} SymbolsSettle(g: Goal, s: seq<Byte>, marked: seq<bool>)
    requires |marked| <= 256
    requires forall c: nat :: c < |marked| ==> (marked[c] <==> Accepts(g, Overwritten(s, marked[..c] + [true])))
    ensures SymbolsZeroed(g, s, ReplaceSymbols(g, Overwritten(s, marked), |marked|))
    decreases 256 - |marked|
  {
    hide Accepts;
    var i := |marked|;
    if i == 256 {
      assert SymbolsMarked(g, s, Overwritten(s, marked), marked);
    } else {
      var more := marked + [Accepts(g, Overwritten(s, marked + [true]))];
      assert marked[..i] == marked;
      MarkMore(s, marked);
      forall c: nat | c < |more| ensures more[c] <==> Accepts(g, Overwritten(s, more[..c] + [true])) {
        assert more[..c] == marked[..c];
      }
      SymbolsSettle(g, s, more);
    }
  }

  lemma MarkMore(s: seq<Byte>, marked: seq<bool>)
    requires |marked| < 256
    ensures Replaced(Overwritten(s, marked), |marked|) == Overwritten(s, marked + [true])
    ensures Overwritten(s, marked) == Overwritten(s, marked + [false])
  {
  }

  // ---------- A pass ----------

  /** Blocks of `d` bytes were deleted, then of half that size, and so on down to single bytes, or until
      nothing was left. */
  ghost predicate RoundsDeleted(g: Goal, s: seq<Byte>, d: nat, r: seq<Byte>)
    decreases d
  {
    exists mid: seq<Byte> :: BlocksDeleted(g, s, d, mid) &&
      if d > 1 && mid != [] then RoundsDeleted(g, mid, d / 2, r) else r == mid
  }

  /** The deletion stage: it starts with a sixteenth of the length, rounded up to a power of two. */
  ghost predicate StageDeleted(g: Goal, s: seq<Byte>, r: seq<Byte>) {
    exists d: nat :: LeastPow2(d, |s| / 16) && RoundsDeleted(g, s, d, r)
  }

  /** One pass: deletion, then symbols, then single bytes. */
  ghost predicate PassMade(g: Goal, s: seq<Byte>, r: seq<Byte>) {
    exists s1: seq<Byte>, s2: seq<Byte> ::
      StageDeleted(g, s, s1) && SymbolsZeroed(g, s1, s2) && BlocksZeroed(g, s2, 1, r)
  }

  lemma BlocksDeletedIs(g: Goal, s: seq<Byte>, d: nat, r: seq<Byte>)
    requires d > 0
    ensures BlocksDeleted(g, s, d, r) <==> r == DeleteBlocks(g, s, 0, d)
  {
    assert [] + s == s;
    DeletingSettles(g, [], s, d);
    if BlocksDeleted(g, s, d, r) {
      SettledOnce(AcceptedBy(g), NoBytes, [], s, d, r, DeleteBlocks(g, s, 0, d));
    }
  }

  lemma {:induction false} RoundsDeletedIs(g: Goal, s: seq<Byte>, d: nat, r: seq<Byte>)
    requires d > 0
    ensures RoundsDeleted(g, s, d, r) <==> r == DeleteRounds(g, s, d)
    decreases d
  {
    hide BlocksDeleted, DeleteBlocks;
    var mid := DeleteBlocks(g, s, 0, d);
    BlocksDeletedIs(g, s, d, mid);
    if d > 1 && |mid| >= 1 { RoundsDeletedIs(g, mid, d / 2, r); }
    forall m: seq<Byte> | BlocksDeleted(g, s, d, m) ensures m == mid {
      BlocksDeletedIs(g, s, d, m);
    }
  }

  lemma StageDeletedIs(g: Goal, s: seq<Byte>, r: seq<Byte>)
    ensures StageDeleted(g, s, r) <==> r == AfterDeletion(g, s)
  {
    hide RoundsDeleted, LeastPow2, DeleteRounds, Pow2From;
    var d := StartLength(|s|);
    Pow2FromIsLeast(|s| / 16);
    assert d == Pow2From(|s| / 16, 1);
    RoundsDeletedIs(g, s, d, r);
    forall e: nat | LeastPow2(e, |s| / 16) ensures e == d {
      LeastIsOne(e, d, |s| / 16);
    }
  }

  /** Every pass is one. */
  lemma PassIsMade(g: Goal, s: seq<Byte>)
    ensures PassMade(g, s, AfterPass(g, s))
  {
    hide StageDeleted, SymbolsZeroed, Settled, AfterDeletion, ReplaceSymbols;
    var s1 := AfterDeletion(g, s);
    var s2 := ReplaceSymbols(g, s1, 0);
    StageDeletedIs(g, s, s1);
    assert Overwritten(s1, []) == s1;
    SymbolsSettle(g, s1, []);
    assert [] + s2 == s2;
    ZeroingSettles(g, [], s2, 1);
  }

  // ---------- Whole runs ----------

  /** The data before each pass and after the last one. A pass that is not the last one changed something,
      and from the second pass on already the deletion did. The last pass changed nothing; from the second
      pass on it ended there if already the deletion changed nothing. */
  ghost predicate PassesMade(g: Goal, ds: seq<seq<Byte>>, n: nat) {
    && ds != []
    && (forall k: nat :: k < |ds| - 1 ==>
          PassMade(g, ds[k], ds[k + 1]) && ds[k + 1] != ds[k] && (n + k > 1 ==> !StageDeleted(g, ds[k], ds[k])))
    && var last := ds[|ds| - 1];
       if n + |ds| - 1 > 1 then StageDeleted(g, last, last) || PassMade(g, last, last) else PassMade(g, last, last)
  }

  lemma {:induction false} PassesAreMade(g: Goal, s: seq<Byte>, n: nat) returns (ds: seq<seq<Byte>>)
    ensures PassesMade(g, ds, n) && ds[0] == s
    ensures Passes(g, s, n) == (ds[|ds| - 1], n + |ds| - 1)
    decreases Measure(s)
  {
    hide PassMade, StageDeleted, AfterPass, AfterDeletion, Measure;
    PassLowersMeasure(g, s);
    PassIsMade(g, s);
    StageDeletedIs(g, s, s);
    var s3 := AfterPass(g, s);
    if (n > 1 && AfterDeletion(g, s) == s) || s3 == s {
      ds := [s];
    } else {
      var rest := PassesAreMade(g, s3, n + 1);
      ds := [s] + rest;
      forall k: nat | k < |ds| - 1
        ensures PassMade(g, ds[k], ds[k + 1]) && ds[k + 1] != ds[k] && (n + k > 1 ==> !StageDeleted(g, ds[k], ds[k]))
      {
        if k > 0 { assert ds[k] == rest[k - 1] && ds[k + 1] == rest[k]; }
      }
      assert ds[|ds| - 1] == rest[|rest| - 1];
    }
  }

  /** What the minimizer computes. First blocks of the larger of 4 and a 128th of the length, rounded up to a
      power of two, are set to '0' where the target accepts that; then passes are made. */
  lemma MinimizedInStages(g: Goal, s: seq<Byte>) returns (d: nat, ds: seq<seq<Byte>>)
    ensures LeastPow2(d, Max(4, |s| / 128))
    ensures PassesMade(g, ds, 1) && BlocksZeroed(g, s, d, ds[0])
    ensures Minimized(g, s) == (ds[|ds| - 1], |ds|)
  {
    hide Settled, PassesMade, Passes;
    d := SetLength(|s|);
    SetLengthIsLeast(|s|);
    var s0 := ZeroBlocks(g, s, 0, d);
    assert [] + s == s;
    ZeroingSettles(g, [], s, d);
    ds := PassesAreMade(g, s0, 1);
  }

  lemma SetLengthIsLeast(len: nat)
    ensures LeastPow2(SetLength(len), Max(4, len / 128))
  {
    Pow2FromIsLeast(len / 128);
    assert IsPow2(4) by { assert IsPow2(2) && IsPow2(1); }
  }
}
