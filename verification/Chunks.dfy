/** Replacing or deleting the chunks of a sequence one after the other, said without the steps: a list of
    chunks, and for each of them whether it was kept. */
module Chunks {

  ghost function Concat<T>(chunks: seq<seq<T>>): seq<T> {
    if chunks == [] then [] else chunks[0] + Concat(chunks[1..])
  }

  /** The chunks put together, those that were not kept in their changed form. */
  ghost function Picked<T>(instead: seq<T> -> seq<T>, chunks: seq<seq<T>>, kept: seq<bool>): seq<T>
    requires |kept| == |chunks|
  {
    if chunks == [] then []
    else (if kept[0] then chunks[0] else instead(chunks[0])) + Picked(instead, chunks[1..], kept[1..])
  }

  /** The chunks make up `s`; all have `d` elements, except that the last one may be shorter. */
  ghost predicate Chunking<T>(chunks: seq<seq<T>>, s: seq<T>, d: nat) {
    && Concat(chunks) == s
    && (forall m :: 0 <= m < |chunks| ==> 0 < |chunks[m]| <= d && (m < |chunks| - 1 ==> |chunks[m]| == d))
  }

  /** What is tried for chunk `m`: its changed form between what became of the chunks before it, and all
      that comes after it. */
  ghost function Trial<T>(instead: seq<T> -> seq<T>, head: seq<T>, chunks: seq<seq<T>>, kept: seq<bool>, m: nat): seq<T>
    requires |kept| == |chunks| && m < |chunks|
  {
    head + Picked(instead, chunks[..m], kept[..m]) + instead(chunks[m]) + Concat(chunks[m + 1..])
  }

  /** `r` is `head` and then `tail` with exactly those chunks changed whose trial is accepted. */
  ghost predicate Settled<T(!new)>(accepts: seq<T> -> bool, instead: seq<T> -> seq<T>, head: seq<T>, tail: seq<T>,
                                   d: nat, r: seq<T>)
  {
    exists chunks: seq<seq<T>>, kept: seq<bool> :: SettledBy(accepts, instead, head, tail, d, r, chunks, kept)
  }

  ghost predicate SettledBy<T(!new)>(accepts: seq<T> -> bool, instead: seq<T> -> seq<T>, head: seq<T>, tail: seq<T>,
                                     d: nat, r: seq<T>, chunks: seq<seq<T>>, kept: seq<bool>)
  {
    && Chunking(chunks, tail, d) && |kept| == |chunks|
    && (forall m: nat :: m < |chunks| ==> (kept[m] <==> !accepts(Trial(instead, head, chunks, kept, m))))
    && r == head + Picked(instead, chunks, kept)
  }

  lemma NothingLeft<T(!new)>(accepts: seq<T> -> bool, instead: seq<T> -> seq<T>, head: seq<T>, d: nat)
    ensures Settled(accepts, instead, head, [], d, head)
  {
    var chunks: seq<seq<T>>, kept: seq<bool> := [], [];
    assert head == head + Picked(instead, chunks, kept);
    assert SettledBy(accepts, instead, head, [], d, head, chunks, kept);
  }

  lemma PickedMore<T>(instead: seq<T> -> seq<T>, head: seq<T>, chunk: seq<T>, keep: bool, chunks: seq<seq<T>>,
                      kept: seq<bool>)
    requires |kept| == |chunks|
    ensures head + Picked(instead, [chunk] + chunks, [keep] + kept) ==
      head + (if keep then chunk else instead(chunk)) + Picked(instead, chunks, kept)
  {
    assert ([chunk] + chunks)[1..] == chunks && ([keep] + kept)[1..] == kept;
  }

  lemma TrialMore<T>(instead: seq<T> -> seq<T>, head: seq<T>, chunk: seq<T>, keep: bool, chunks: seq<seq<T>>,
                     kept: seq<bool>, m: nat)
    requires |kept| == |chunks| && m <= |chunks|
    ensures Trial(instead, head, [chunk] + chunks, [keep] + kept, m) ==
      if m == 0 then head + instead(chunk) + Concat(chunks)
      else Trial(instead, head + (if keep then chunk else instead(chunk)), chunks, kept, m - 1)
  {
    hide Picked, Concat;
    var cs, ks := [chunk] + chunks, [keep] + kept;
    if m == 0 {
      assert cs[1..] == chunks;
      assert Picked(instead, cs[..0], ks[..0]) == [] by { NonePicked(instead); }
    } else {
      assert cs[..m] == [chunk] + chunks[..m - 1] && ks[..m] == [keep] + kept[..m - 1] && cs[m + 1..] == chunks[m..];
      PickedMore(instead, head, chunk, keep, chunks[..m - 1], kept[..m - 1]);
    }
  }

  lemma NonePicked<T>(instead: seq<T> -> seq<T>)
    ensures Picked(instead, [], []) == []
  {
  }

  lemma ChunkingMore<T>(chunk: seq<T>, chunks: seq<seq<T>>, rest: seq<T>, d: nat)
    requires 0 < |chunk| <= d && (rest != [] ==> |chunk| == d) && Chunking(chunks, rest, d)
    ensures Chunking([chunk] + chunks, chunk + rest, d)
  {
    var cs := [chunk] + chunks;
    assert cs[1..] == chunks && Concat(cs) == chunk + rest;
    assert chunks != [] ==> rest != [];
    forall m | 0 <= m < |cs| ensures 0 < |cs[m]| <= d && (m < |cs| - 1 ==> |cs[m]| == d) {
      if m > 0 { assert cs[m] == chunks[m - 1]; }
    }
  }

  /** The first chunk decided before the others. */
  lemma SettledMore<T(!new)>(accepts: seq<T> -> bool, instead: seq<T> -> seq<T>, head: seq<T>, chunk: seq<T>,
                             rest: seq<T>, d: nat, r: seq<T>)
    requires 0 < |chunk| <= d && (rest != [] ==> |chunk| == d)
    requires var keep := !accepts(head + instead(chunk) + rest);
      Settled(accepts, instead, head + (if keep then chunk else instead(chunk)), rest, d, r)
    ensures Settled(accepts, instead, head, chunk + rest, d, r)
  {
    hide Picked, Trial;
    var keep := !accepts(head + instead(chunk) + rest);
    var head' := head + (if keep then chunk else instead(chunk));
    var chunks: seq<seq<T>>, kept: seq<bool> :| SettledBy(accepts, instead, head', rest, d, r, chunks, kept);
    var cs: seq<seq<T>>, ks: seq<bool> := [chunk] + chunks, [keep] + kept;
    assert Concat(chunks) == rest;
    ChunkingMore(chunk, chunks, rest, d);
    PickedMore(instead, head, chunk, keep, chunks, kept);
    hide Chunking, Concat;
    forall m: nat | m < |cs| ensures ks[m] <==> !accepts(Trial(instead, head, cs, ks, m)) {
      TrialMore(instead, head, chunk, keep, chunks, kept, m);
    }
    assert SettledBy(accepts, instead, head, chunk + rest, d, r, cs, ks);
  }

  /** What the first chunk is. */
  lemma ChunkingFirst<T>(chunks: seq<seq<T>>, s: seq<T>, d: nat)
    requires Chunking(chunks, s, d) && s != [] && d > 0
    ensures chunks != []
    ensures var n := if d <= |s| then d else |s|;
      chunks[0] == s[..n] && Chunking(chunks[1..], s[n..], d)
  {
    assert chunks != [];
    var rest := chunks[1..];
    assert s == chunks[0] + Concat(rest);
    assert rest == [] ==> Concat(rest) == [];
    assert rest != [] ==> |Concat(rest)| > 0 && |chunks[0]| == d by {
      if rest != [] { assert rest[0] == chunks[1]; }
    }
    assert |s| == |chunks[0]| + |Concat(rest)|;
    forall m | 0 <= m < |rest| ensures 0 < |rest[m]| <= d && (m < |rest| - 1 ==> |rest[m]| == d) {
      assert rest[m] == chunks[m + 1];
    }
  }

  /** Taking the first chunk off again. */
  lemma SettledFirst<T(!new)>(accepts: seq<T> -> bool, instead: seq<T> -> seq<T>, head: seq<T>, chunk: seq<T>,
                              rest: seq<T>, d: nat, r: seq<T>)
    requires 0 < |chunk| <= d && (rest != [] ==> |chunk| == d) && Settled(accepts, instead, head, chunk + rest, d, r)
    ensures var keep := !accepts(head + instead(chunk) + rest);
      Settled(accepts, instead, head + (if keep then chunk else instead(chunk)), rest, d, r)
  {
    hide Picked, Trial;
    var s := chunk + rest;
    var cs: seq<seq<T>>, ks: seq<bool> :| SettledBy(accepts, instead, head, s, d, r, cs, ks);
    ChunkingFirst(cs, s, d);
    assert s[..|chunk|] == chunk && s[|chunk|..] == rest;
    var chunks, kept, keep := cs[1..], ks[1..], ks[0];
    assert Concat(chunks) == rest;
    hide Chunking, Concat;
    assert cs == [chunk] + chunks && ks == [keep] + kept;
    TrialMore(instead, head, chunk, keep, chunks, kept, 0);
    PickedMore(instead, head, chunk, keep, chunks, kept);
    TrialsAfter(accepts, instead, head, chunk, keep, chunks, kept);
    var head' := head + (if keep then chunk else instead(chunk));
    assert SettledBy(accepts, instead, head', rest, d, r, chunks, kept);
  }

  lemma TrialsAfter<T(!new)>(accepts: seq<T> -> bool, instead: seq<T> -> seq<T>, head: seq<T>, chunk: seq<T>,
                             keep: bool, chunks: seq<seq<T>>, kept: seq<bool>)
    requires |kept| == |chunks|
    requires var cs, ks := [chunk] + chunks, [keep] + kept;
      forall m: nat :: m < |cs| ==> (ks[m] <==> !accepts(Trial(instead, head, cs, ks, m)))
    ensures var head' := head + (if keep then chunk else instead(chunk));
      forall m: nat :: m < |chunks| ==> (kept[m] <==> !accepts(Trial(instead, head', chunks, kept, m)))
  {
    hide Trial;
    forall m: nat | m < |chunks|
      ensures var head' := head + (if keep then chunk else instead(chunk));
        kept[m] <==> !accepts(Trial(instead, head', chunks, kept, m))
    {
      TrialMore(instead, head, chunk, keep, chunks, kept, m + 1);
      assert ([keep] + kept)[m + 1] == kept[m];
    }
  }

  lemma SettledNone<T(!new)>(accepts: seq<T> -> bool, instead: seq<T> -> seq<T>, head: seq<T>, d: nat, r: seq<T>)
    requires Settled(accepts, instead, head, [], d, r)
    ensures r == head
  {
    var cs: seq<seq<T>>, ks: seq<bool> :| SettledBy(accepts, instead, head, [], d, r, cs, ks);
    assert cs == [];
  }

  /** There is only one such result. */
  lemma {:induction false} SettledOnce<T(!new)>(accepts: seq<T> -> bool, instead: seq<T> -> seq<T>, head: seq<T>,
                                                tail: seq<T>, d: nat, r: seq<T>, r': seq<T>)
    requires d > 0 && Settled(accepts, instead, head, tail, d, r) && Settled(accepts, instead, head, tail, d, r')
    ensures r == r'
    decreases |tail|
  {
    hide Settled;
    if tail == [] {
      SettledNone(accepts, instead, head, d, r);
      SettledNone(accepts, instead, head, d, r');
    } else {
      var n := if d <= |tail| then d else |tail|;
      var chunk, rest := tail[..n], tail[n..];
      assert tail == chunk + rest;
      SettledFirst(accepts, instead, head, chunk, rest, d, r);
      SettledFirst(accepts, instead, head, chunk, rest, d, r');
      var head' := head + (if !accepts(head + instead(chunk) + rest) then chunk else instead(chunk));
      SettledOnce(accepts, instead, head', rest, d, r, r');
    }
  }
}
