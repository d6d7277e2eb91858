/** What happens while the statement of a node is generated, item by item, whatever becomes of the node. */
module GrammarRuns {
  import opened GrammarTrees
  import opened Wrappers

  /** Nothing, for roots that are never expanded; else the rule used, and what became of each of its items. */
  datatype Trace = Skip | Made(rule: Rule, parts: seq<Part>)

  /** Words of the item itself; or the short form in place of an expansion; or an expansion. */
  datatype Part = Said(words: seq<string>) | Cut(word: string) | Below(trace: Trace)

  /** The words of the first `n` items, in order. */
  ghost function WordsOf(parts: seq<Part>, n: nat): seq<string>
    requires n <= |parts|
    decreases parts, n
  {
    if n == 0 then [] else WordsOf(parts, n - 1) + PartWords(parts[n - 1])
  }

  ghost function PartWords(p: Part): seq<string>
    decreases p, 0
  {
    match p
    case Said(words) => words
    case Cut(word) => [word]
    case Below(trace) => TraceWords(trace)
  }

  ghost function TraceWords(tr: Trace): seq<string>
    decreases tr, 0
  {
    if tr.Skip? then [] else WordsOf(tr.parts, |tr.parts|)
  }

  /** The item is cut short: the depth is used up, and the token is one of those with a short form. */
  predicate CutsAt(it: Item, depth: int) {
    it.Token? && depth < 0 && (it.sym == "expr" || it.sym == "subquery" || it.sym == "table_factor")
  }

  function ShortText(sym: Symbol): string {
    if sym == "expr" then " TRUE " else if sym == "subquery" then " (select 'abc') " else " v0 "
  }

  /** The depth below a node: one less below a complex rule that was chosen just now. */
  function DepthBelow(g: Grammar, sym: Symbol, before: Tree, rule: Rule, depth: int): int {
    if before.rule == None && sym in g.complex && rule in g.complex[sym] then depth - 1 else depth
  }

  /** The trace is one that generating `sym` from the node can have: a node without a rule gets one of the
      symbol, a node with a rule keeps it; and each item is treated as its kind demands. */
  ghost predicate CanHappen(g: Grammar, sym: Symbol, depth: int, before: Tree, tr: Trace)
    decreases tr, 0
  {
    if sym in SKIPPED then tr == Skip
    else
      && tr.Made? && |tr.parts| == |tr.rule.items|
      && (if before.rule == None then sym in g.prods && tr.rule in g.prods[sym] else tr.rule == before.rule.value)
      && forall i :: 0 <= i < |tr.parts| ==> PartCanHappen(g, sym, depth, before, tr.rule, i, tr.parts[i])
  }

  /** A token that is cut short gives its short form. An item with rules is expanded: from a new node if the
      rule was chosen just now, else from the next child that the node had. Any other item gives its words. */
  ghost predicate PartCanHappen(g: Grammar, sym: Symbol, depth: int, before: Tree, rule: Rule, i: nat, p: Part)
    requires i < |rule.items|
    decreases p, 1
  {
    var it := rule.items[i];
    if CutsAt(it, depth) then p == Cut(ShortText(it.sym))
    else if it.Token? && it.sym !in g.words && it.sym in g.prods then
      && p.Below?
      && if before.rule == None then
           exists leaf: Tree :: leaf.rule == None && leaf.kids == [] &&
             CanHappen(g, it.sym, DepthBelow(g, sym, before, rule, depth), leaf, p.trace)
         else
           && |KidSymbols(g, rule.items, i)| < |before.kids|
           && CanHappen(g, it.sym, depth, before.kids[|KidSymbols(g, rule.items, i)|], p.trace)
    else p.Said? && ItemWords(g, it, p.words)
  }

  ghost predicate CutFree(parts: seq<Part>) {
    forall i :: 0 <= i < |parts| ==> !parts[i].Cut?
  }

  /** What is left of the node: its rule and children, unless an item was cut short, which discards them. */
  ghost predicate Leaves(tr: Trace, after: Tree)
    decreases tr, 0
  {
    tr.Made? ==>
      if CutFree(tr.parts) then after.rule == Some(tr.rule) && LeavesKids(tr.parts, |tr.parts|, after.kids)
      else after.rule == None
  }

  /** One child for each expansion among the first `n` items. */
  ghost predicate LeavesKids(parts: seq<Part>, n: nat, kids: seq<Tree>)
    requires n <= |parts|
    decreases parts, n
  {
    if n == 0 then kids == []
    else if parts[n - 1].Below? then
      && kids != [] && LeavesKids(parts, n - 1, kids[..|kids| - 1])
      && LeavesKid(parts[n - 1], kids[|kids| - 1])
    else LeavesKids(parts, n - 1, kids)
  }

  ghost predicate LeavesKid(p: Part, kid: Tree)
    decreases p, 1
  {
    p.Below? && Leaves(p.trace, kid)
  }

  // ---------- One item more ----------

  lemma {:induction false} WordsOfPrefix(parts: seq<Part>, p: Part, n: nat)
    requires n <= |parts|
    ensures WordsOf(parts + [p], n) == WordsOf(parts, n)
    decreases n
  {
    if n > 0 { WordsOfPrefix(parts, p, n - 1); }
  }

  lemma {:induction false} LeavesPrefix(parts: seq<Part>, p: Part, n: nat, kids: seq<Tree>)
    requires n <= |parts|
    ensures LeavesKids(parts + [p], n, kids) <==> LeavesKids(parts, n, kids)
    decreases n
  {
    hide LeavesKid;
    if n > 0 {
      LeavesPrefix(parts, p, n - 1, kids);
      if kids != [] { LeavesPrefix(parts, p, n - 1, kids[..|kids| - 1]); }
    }
  }

  /** The first `n` items of a rule are done. */
  ghost predicate DoneSoFar(g: Grammar, sym: Symbol, depth: int, before: Tree, rule: Rule, n: nat, parts: seq<Part>,
                            words: seq<string>)
  {
    && n == |parts| <= |rule.items| && WordsOf(parts, n) == words
    && forall i :: 0 <= i < n ==> PartCanHappen(g, sym, depth, before, rule, i, parts[i])
  }

  lemma DoneMore(g: Grammar, sym: Symbol, depth: int, before: Tree, rule: Rule, n: nat, parts: seq<Part>,
                 words: seq<string>, p: Part)
    requires DoneSoFar(g, sym, depth, before, rule, n, parts, words) && n < |rule.items|
    requires PartCanHappen(g, sym, depth, before, rule, n, p)
    ensures DoneSoFar(g, sym, depth, before, rule, n + 1, parts + [p], words + PartWords(p))
    ensures CutFree(parts + [p]) <==> CutFree(parts) && !p.Cut?
  {
    hide PartCanHappen, PartWords;
    var all := parts + [p];
    WordsOfPrefix(parts, p, n);
    assert all[n] == p;
    if CutFree(all) {
      forall i | 0 <= i < n ensures !parts[i].Cut? { assert all[i] == parts[i]; }
    }
  }

  /** The children so far, after an item with or without an expansion. */
  lemma KidsMore(parts: seq<Part>, p: Part, kids: seq<Tree>, kids': seq<Tree>)
    requires LeavesKids(parts, |parts|, kids)
    requires if p.Below? then |kids'| == |kids| + 1 && kids'[..|kids|] == kids && Leaves(p.trace, kids'[|kids|])
             else kids' == kids
    ensures LeavesKids(parts + [p], |parts| + 1, kids')
  {
    hide Leaves;
    LeavesPrefix(parts, p, |parts|, kids);
  }

  /** All items are done. */
  lemma AllDone(g: Grammar, sym: Symbol, depth: int, before: Tree, rule: Rule, parts: seq<Part>, words: seq<string>,
                after: Tree)
    requires sym !in SKIPPED && DoneSoFar(g, sym, depth, before, rule, |rule.items|, parts, words)
    requires if before.rule == None then sym in g.prods && rule in g.prods[sym] else rule == before.rule.value
    requires if CutFree(parts) then after.rule == Some(rule) && LeavesKids(parts, |parts|, after.kids)
             else after.rule == None
    ensures Happened(g, sym, depth, before, Made(rule, parts), words, after)
  {
    hide PartCanHappen, LeavesKids, WordsOf;
  }

  /** The trace can happen, gives these words and leaves this tree. */
  ghost predicate Happened(g: Grammar, sym: Symbol, depth: int, before: Tree, tr: Trace, words: seq<string>,
                          after: Tree)
  {
    CanHappen(g, sym, depth, before, tr) && TraceWords(tr) == words && Leaves(tr, after)
  }

  lemma NothingHappened(g: Grammar, sym: Symbol, depth: int, t: Tree)
    requires sym in SKIPPED
    ensures Happened(g, sym, depth, t, Skip, [], t)
  {
  }

  // ---------- The kinds of items ----------

  lemma CutPart(g: Grammar, sym: Symbol, depth: int, before: Tree, rule: Rule, i: nat)
    requires i < |rule.items| && rule.items[i].Token? && depth < 0 && CutShort(rule.items[i].sym)
    ensures PartCanHappen(g, sym, depth, before, rule, i, Cut(ShortForm(rule.items[i].sym)))
    ensures PartWords(Cut(ShortForm(rule.items[i].sym))) == [ShortForm(rule.items[i].sym)]
  {
  }

  lemma SaidPart(g: Grammar, sym: Symbol, depth: int, before: Tree, rule: Rule, i: nat, v: seq<string>)
    requires i < |rule.items| && !Expandable(g, rule.items[i]) && ItemWords(g, rule.items[i], v)
    requires !(rule.items[i].Token? && depth < 0 && CutShort(rule.items[i].sym))
    ensures PartCanHappen(g, sym, depth, before, rule, i, Said(v)) && PartWords(Said(v)) == v
  {
    hide ItemWords;
  }

  lemma FreshPart(g: Grammar, sym: Symbol, depth: int, before: Tree, rule: Rule, i: nat, leaf: Tree, tr: Trace,
                  v: seq<string>, kid: Tree)
    requires i < |rule.items| && Expandable(g, rule.items[i]) && before.rule == None
    requires !(depth < 0 && CutShort(rule.items[i].sym)) && leaf.rule == None && leaf.kids == []
    requires Happened(g, rule.items[i].sym, DepthBelow(g, sym, before, rule, depth), leaf, tr, v, kid)
    ensures PartCanHappen(g, sym, depth, before, rule, i, Below(tr)) && PartWords(Below(tr)) == v && Leaves(tr, kid)
  {
    hide CanHappen, Leaves, TraceWords;
  }

  lemma ReplayedPart(g: Grammar, sym: Symbol, depth: int, before: Tree, rule: Rule, i: nat, tr: Trace, v: seq<string>,
                     kid: Tree)
    requires i < |rule.items| && Expandable(g, rule.items[i]) && before.rule != None
    requires !(depth < 0 && CutShort(rule.items[i].sym)) && |KidSymbols(g, rule.items, i)| < |before.kids|
    requires Happened(g, rule.items[i].sym, depth, before.kids[|KidSymbols(g, rule.items, i)|], tr, v, kid)
    ensures PartCanHappen(g, sym, depth, before, rule, i, Below(tr)) && PartWords(Below(tr)) == v && Leaves(tr, kid)
  {
    hide CanHappen, Leaves, TraceWords;
  }

  lemma NothingDone(g: Grammar, sym: Symbol, depth: int, before: Tree, rule: Rule)
    ensures DoneSoFar(g, sym, depth, before, rule, 0, [], []) && CutFree([]) && LeavesKids([], 0, [])
  {
  }

  /** In a replay: the children that were not reached yet do not matter. */
  ghost predicate LeavesFront(parts: seq<Part>, kids: seq<Tree>, i: nat) {
    i <= |kids| && LeavesKids(parts, |parts|, kids[..i])
  }

  lemma FrontMore(parts: seq<Part>, tr: Trace, kids: seq<Tree>, i: nat, kid: Tree)
    requires LeavesFront(parts, kids, i) && i < |kids| && Leaves(tr, kid)
    ensures LeavesFront(parts + [Below(tr)], kids[i := kid], i + 1)
  {
    hide Leaves;
    var next := kids[i := kid];
    assert next[..i + 1][..i] == kids[..i];
    KidsMore(parts, Below(tr), kids[..i], next[..i + 1]);
  }

  lemma FrontSame(parts: seq<Part>, p: Part, kids: seq<Tree>, i: nat)
    requires LeavesFront(parts, kids, i) && !p.Below?
    ensures LeavesFront(parts + [p], kids, i)
  {
    KidsMore(parts, p, kids[..i], kids[..i]);
  }

  // ---------- In the middle of an expansion ----------

  /** The state of a fresh expansion after `n` items: what was done, and the children there are, unless they
      were discarded. */
  ghost predicate Growing(g: Grammar, sym: Symbol, depth: int, before: Tree, rule: Rule, n: nat, parts: seq<Part>,
                          words: seq<string>, cut: bool, ts: seq<Tree>)
    requires n <= |rule.items|
  {
    && DoneSoFar(g, sym, depth, before, rule, n, parts, words) && (CutFree(parts) <==> !cut)
    && (!cut ==>
          && LeavesKids(parts, |parts|, ts)
          && |ts| == |KidSymbols(g, rule.items, n)| && Grown(g, rule.items, n, ts, words))
  }

  lemma GrowingStart(g: Grammar, sym: Symbol, depth: int, before: Tree, rule: Rule)
    ensures Growing(g, sym, depth, before, rule, 0, [], [], false, [])
  {
    NothingDone(g, sym, depth, before, rule);
    GrownAtFirst(g, rule.items, []);
  }

  lemma GrowingCut(g: Grammar, sym: Symbol, depth: int, before: Tree, rule: Rule, n: nat, parts: seq<Part>,
                   words: seq<string>, cut: bool, ts: seq<Tree>)
    requires n < |rule.items| && Growing(g, sym, depth, before, rule, n, parts, words, cut, ts)
    requires rule.items[n].Token? && depth < 0 && CutShort(rule.items[n].sym)
    ensures var w := ShortForm(rule.items[n].sym);
      Growing(g, sym, depth, before, rule, n + 1, parts + [Cut(w)], words + [w], true, [])
  {
    hide DoneSoFar, CutFree, LeavesKids, Grown, PartCanHappen, PartWords, ShortForm;
    CutPart(g, sym, depth, before, rule, n);
    DoneMore(g, sym, depth, before, rule, n, parts, words, Cut(ShortForm(rule.items[n].sym)));
  }

  lemma GrowingSaid(g: Grammar, sym: Symbol, depth: int, before: Tree, rule: Rule, n: nat, parts: seq<Part>,
                    words: seq<string>, cut: bool, ts: seq<Tree>, v: seq<string>)
    requires n < |rule.items| && Growing(g, sym, depth, before, rule, n, parts, words, cut, ts)
    requires !Expandable(g, rule.items[n]) && ItemWords(g, rule.items[n], v)
    requires !(rule.items[n].Token? && depth < 0 && CutShort(rule.items[n].sym))
    ensures Growing(g, sym, depth, before, rule, n + 1, parts + [Said(v)], words + v, cut, ts)
  {
    hide DoneSoFar, CutFree, LeavesKids, Grown, PartCanHappen, PartWords, ItemWords;
    SaidPart(g, sym, depth, before, rule, n, v);
    DoneMore(g, sym, depth, before, rule, n, parts, words, Said(v));
    if !cut {
      DoneSize(g, sym, depth, before, rule, n, parts, words);
      KidsMore(parts, Said(v), ts, ts);
      GrownByWords(g, rule.items, n, ts, words, v);
      assert KidSymbols(g, rule.items, n + 1) == KidSymbols(g, rule.items, n);
    }
  }

  lemma DoneSize(g: Grammar, sym: Symbol, depth: int, before: Tree, rule: Rule, n: nat, parts: seq<Part>,
                 words: seq<string>)
    requires DoneSoFar(g, sym, depth, before, rule, n, parts, words)
    ensures |parts| == n <= |rule.items|
  {
  }

  lemma GrowingKid(g: Grammar, sym: Symbol, depth: int, before: Tree, rule: Rule, n: nat, parts: seq<Part>,
                   words: seq<string>, cut: bool, ts: seq<Tree>, leaf: Tree, tr: Trace, v: seq<string>, kid: Tree)
    requires n < |rule.items| && Growing(g, sym, depth, before, rule, n, parts, words, cut, ts)
    requires Expandable(g, rule.items[n]) && before.rule == None && !(depth < 0 && CutShort(rule.items[n].sym))
    requires leaf.rule == None && leaf.kids == []
    requires Happened(g, rule.items[n].sym, DepthBelow(g, sym, before, rule, depth), leaf, tr, v, kid)
    requires Derives(g, rule.items[n].sym, kid)
    requires Complete(g, rule.items[n].sym, kid) ==> Spells(g, rule.items[n].sym, kid, v)
    ensures Growing(g, sym, depth, before, rule, n + 1, parts + [Below(tr)], words + v, cut, ts + [kid])
  {
    hide DoneSoFar, CutFree, LeavesKids, Grown, PartCanHappen, PartWords, Happened, Derives, Complete, Spells, Leaves;
    FreshPart(g, sym, depth, before, rule, n, leaf, tr, v, kid);
    DoneMore(g, sym, depth, before, rule, n, parts, words, Below(tr));
    if !cut {
      DoneSize(g, sym, depth, before, rule, n, parts, words);
      assert (ts + [kid])[..|ts|] == ts;
      KidsMore(parts, Below(tr), ts, ts + [kid]);
      GrownByKid(g, rule.items, n, ts, ts + [kid], words, v);
      assert KidSymbols(g, rule.items, n + 1) == KidSymbols(g, rule.items, n) + [rule.items[n].sym];
    }
  }

  lemma GrowingDone(g: Grammar, sym: Symbol, depth: int, before: Tree, rule: Rule, parts: seq<Part>,
                    words: seq<string>, cut: bool, after: Tree)
    requires Growing(g, sym, depth, before, rule, |rule.items|, parts, words, cut, after.kids)
    requires sym in g.prods && sym !in SKIPPED && rule in g.prods[sym] && before.rule == None
    requires after.rule == if cut then None else Some(rule)
    ensures Happened(g, sym, depth, before, Made(rule, parts), words, after)
    ensures Generated(g, sym, depth, before, after, Words(words))
  {
    hide DoneSoFar, CutFree, LeavesKids, Grown, Happened, Generated;
    AllDone(g, sym, depth, before, rule, parts, words, after);
    FreshRoot(g, sym, depth, before, after, words, rule);
  }

  // ---------- In the middle of a replay ----------

  /** The state of a replay after `n` items. */
  ghost predicate Following(g: Grammar, sym: Symbol, depth: int, before: Tree, rule: Rule, n: nat, parts: seq<Part>,
                            words: seq<string>, cut: bool, ts: seq<Tree>)
    requires n <= |rule.items|
  {
    && DoneSoFar(g, sym, depth, before, rule, n, parts, words) && (CutFree(parts) <==> !cut)
    && (!cut ==>
          && |ts| == |before.kids| && LeavesFront(parts, ts, |KidSymbols(g, rule.items, n)|)
          && Replaying(g, rule.items, n, depth, before.kids, ts, words))
  }

  lemma FollowingStart(g: Grammar, sym: Symbol, depth: int, before: Tree, rule: Rule)
    requires Replaying(g, rule.items, 0, depth, before.kids, before.kids, [])
    ensures Following(g, sym, depth, before, rule, 0, [], [], false, before.kids)
  {
    NothingDone(g, sym, depth, before, rule);
    assert before.kids[..0] == [];
  }

  lemma FollowingCut(g: Grammar, sym: Symbol, depth: int, before: Tree, rule: Rule, n: nat, parts: seq<Part>,
                     words: seq<string>, cut: bool, ts: seq<Tree>)
    requires n < |rule.items| && Following(g, sym, depth, before, rule, n, parts, words, cut, ts)
    requires rule.items[n].Token? && depth < 0 && CutShort(rule.items[n].sym)
    ensures var w := ShortForm(rule.items[n].sym);
      Following(g, sym, depth, before, rule, n + 1, parts + [Cut(w)], words + [w], true, [])
  {
    hide DoneSoFar, CutFree, LeavesFront, Replaying, PartCanHappen, PartWords, ShortForm;
    CutPart(g, sym, depth, before, rule, n);
    DoneMore(g, sym, depth, before, rule, n, parts, words, Cut(ShortForm(rule.items[n].sym)));
  }

  lemma FollowingSaid(g: Grammar, sym: Symbol, depth: int, before: Tree, rule: Rule, n: nat, parts: seq<Part>,
                      words: seq<string>, cut: bool, ts: seq<Tree>, v: seq<string>)
    requires n < |rule.items| && Following(g, sym, depth, before, rule, n, parts, words, cut, ts)
    requires !Expandable(g, rule.items[n]) && ItemWords(g, rule.items[n], v)
    requires !(rule.items[n].Token? && depth < 0 && CutShort(rule.items[n].sym))
    ensures Following(g, sym, depth, before, rule, n + 1, parts + [Said(v)], words + v, cut, ts)
  {
    hide DoneSoFar, CutFree, LeavesFront, Replaying, PartCanHappen, PartWords, ItemWords;
    SaidPart(g, sym, depth, before, rule, n, v);
    DoneMore(g, sym, depth, before, rule, n, parts, words, Said(v));
    assert KidSymbols(g, rule.items, n + 1) == KidSymbols(g, rule.items, n);
    if !cut {
      FrontSame(parts, Said(v), ts, |KidSymbols(g, rule.items, n)|);
      ReplayByWords(g, rule.items, n, depth, before.kids, ts, words, v);
    }
  }

  lemma FollowingKid(g: Grammar, sym: Symbol, depth: int, before: Tree, rule: Rule, n: nat, parts: seq<Part>,
                     words: seq<string>, ts: seq<Tree>, tr: Trace, v: seq<string>, kid: Tree)
    requires n < |rule.items| && Following(g, sym, depth, before, rule, n, parts, words, false, ts)
    requires Expandable(g, rule.items[n]) && before.rule != None && !(depth < 0 && CutShort(rule.items[n].sym))
    requires var i := |KidSymbols(g, rule.items, n)|;
      && i < |before.kids| && Happened(g, rule.items[n].sym, depth, before.kids[i], tr, v, kid)
      && Generated(g, rule.items[n].sym, depth, before.kids[i], kid, Words(v))
    ensures |KidSymbols(g, rule.items, n)| < |ts|
    ensures var i := |KidSymbols(g, rule.items, n)|;
      Following(g, sym, depth, before, rule, n + 1, parts + [Below(tr)], words + v, false, ts[i := kid])
  {
    hide DoneSoFar, CutFree, LeavesFront, Replaying, PartCanHappen, PartWords, Happened, Generated, Leaves;
    var i := |KidSymbols(g, rule.items, n)|;
    ReplayedPart(g, sym, depth, before, rule, n, tr, v, kid);
    DoneMore(g, sym, depth, before, rule, n, parts, words, Below(tr));
    FrontMore(parts, tr, ts, i, kid);
    ReplayByKid(g, rule.items, n, depth, before.kids, ts, words, kid, v);
    assert KidSymbols(g, rule.items, n + 1) == KidSymbols(g, rule.items, n) + [rule.items[n].sym];
  }

  lemma FollowingDone(g: Grammar, sym: Symbol, depth: int, before: Tree, rule: Rule, parts: seq<Part>,
                      words: seq<string>, cut: bool, after: Tree)
    requires Following(g, sym, depth, before, rule, |rule.items|, parts, words, cut, after.kids)
    requires sym !in SKIPPED && before.rule == Some(rule) && |before.kids| == |AllKids(g, rule)|
    requires after.rule == if cut then None else Some(rule)
    ensures Happened(g, sym, depth, before, Made(rule, parts), words, after)
  {
    hide DoneSoFar, CutFree, LeavesKids, Replaying, Happened;
    if !cut { assert after.kids[..|after.kids|] == after.kids; }
    DoneSize(g, sym, depth, before, rule, |rule.items|, parts, words);
    AllDone(g, sym, depth, before, rule, parts, words, after);
  }
}
