/** Grammars and the derivation trees that a statement is generated from. */
module GrammarTrees {
  import opened Wrappers

  type Symbol = string

  datatype Item = Literal(text: string) | Token(sym: Symbol)

  datatype Rule = Rule(items: seq<Item>, uniqueHash: nat)

  /** The rules of every symbol, the complex ones among them, and the words that stand for a token. */
  datatype Grammar = Grammar(
    prods: map<Symbol, seq<Rule>>, complex: map<Symbol, set<Rule>>, words: map<Symbol, seq<string>>)

  /** A saved derivation; a node without a rule is to be generated afresh. */
  datatype Tree = Tree(id: nat, isFav: bool, rule: Option<Rule>, kids: seq<Tree>)

  /** Roots that are never expanded. */
  const SKIPPED: set<Symbol> :=
    {"shutdown_stmt", "drop_database_stmt", "alter_database_stmt", "alter_user_stmt", "set_role_stmt",
     "revoke", "grant", "drop_user_stmt", "set"}

  /** Tokens that are cut short once the depth is used up. */
  predicate CutShort(sym: Symbol) {
    sym == "expr" || sym == "subquery" || sym == "table_factor"
  }

  function ShortForm(sym: Symbol): string {
    if sym == "expr" then " TRUE " else if sym == "subquery" then " (select 'abc') " else " v0 "
  }

  /** Rules and word lists are not empty, and literals carry their quotes. */
  ghost predicate Sound(g: Grammar) {
    && (forall s :: s in g.prods ==> |g.prods[s]| > 0)
    && (forall s :: s in g.words ==> |g.words[s]| > 0)
    && (forall s, k, j :: s in g.prods && 0 <= k < |g.prods[s]| && 0 <= j < |g.prods[s][k].items| ==>
          SoundItem(g.prods[s][k].items[j]))
  }

  predicate SoundItem(it: Item) {
    it.Literal? ==> |it.text| >= 2
  }

  /** An item that becomes a child: a token with rules of its own and no word standing for it. */
  predicate Expandable(g: Grammar, it: Item) {
    it.Token? && it.sym !in g.words && it.sym in g.prods
  }

  /** The symbols of the children of a rule, in order, up to its first `n` items. */
  function KidSymbols(g: Grammar, items: seq<Item>, n: nat): (ks: seq<Symbol>)
    requires n <= |items|
    ensures |ks| <= n
  {
    if n == 0 then []
    else KidSymbols(g, items, n - 1) + (if Expandable(g, items[n - 1]) then [items[n - 1].sym] else [])
  }

  function AllKids(g: Grammar, r: Rule): seq<Symbol> {
    KidSymbols(g, r.items, |r.items|)
  }

  lemma {:induction false} KidSymbolsPrefix(g: Grammar, items: seq<Item>, m: nat, n: nat)
    requires m <= n <= |items|
    ensures |KidSymbols(g, items, m)| <= |KidSymbols(g, items, n)|
    ensures KidSymbols(g, items, n)[..|KidSymbols(g, items, m)|] == KidSymbols(g, items, m)
  {
    if m < n {
      KidSymbolsPrefix(g, items, m, n - 1);
    }
  }

  /** The tree derives from `sym`: wherever a rule is chosen it is a rule of the symbol, and there is
      exactly one child for each of its expandable items, deriving from that item. */
  ghost predicate Derives(g: Grammar, sym: Symbol, t: Tree)
    decreases t
  {
    t.rule.Some? ==>
      && sym in g.prods && t.rule.value in g.prods[sym]
      && |t.kids| == |AllKids(g, t.rule.value)|
      && forall k :: 0 <= k < |t.kids| ==> Derives(g, AllKids(g, t.rule.value)[k], t.kids[k])
  }

  /** Every choice of the first tree is still in the second. */
  ghost predicate Extends(t: Tree, u: Tree)
    decreases t
  {
    t.rule.Some? ==>
      u.rule == t.rule && |u.kids| == |t.kids| && forall k :: 0 <= k < |t.kids| ==> Extends(t.kids[k], u.kids[k])
  }

  /** No choice is missing. */
  ghost predicate Complete(g: Grammar, sym: Symbol, t: Tree)
    decreases t
  {
    sym in SKIPPED ||
    (t.rule.Some? && |t.kids| == |AllKids(g, t.rule.value)| &&
     forall k :: 0 <= k < |t.kids| ==> Complete(g, AllKids(g, t.rule.value)[k], t.kids[k]))
  }

  /** A token without rules, less a `_SYM` at its end. */
  function Terminal(sym: Symbol): string {
    if |sym| > 3 && sym[|sym| - 4..] == "_SYM" then sym[..|sym| - 4] else sym
  }

  /** The words of an item that is not expanded. */
  ghost predicate ItemWords(g: Grammar, it: Item, ws: seq<string>) {
    match it
    case Literal(text) => |text| >= 2 && ws == [text[1..|text| - 1]]
    case Token(sym) =>
      if sym in g.words then |ws| == 1 && ws[0] in g.words[sym] else sym !in g.prods && ws == [Terminal(sym)]
  }

  /** The words are what the derivation spells, from left to right. */
  ghost predicate Spells(g: Grammar, sym: Symbol, t: Tree, ws: seq<string>)
    decreases t, 0, 0
  {
    if sym in SKIPPED then ws == []
    else
      && t.rule.Some? && |t.kids| == |AllKids(g, t.rule.value)|
      && SpellsItems(g, t.rule.value.items, |t.rule.value.items|, t.kids, ws)
  }

  ghost predicate SpellsItems(g: Grammar, items: seq<Item>, n: nat, kids: seq<Tree>, ws: seq<string>)
    requires n <= |items| && |KidSymbols(g, items, n)| <= |kids|
    decreases kids, n, 1
  {
    if n == 0 then ws == []
    else
      exists m :: 0 <= m <= |ws| && SpellsItems(g, items, n - 1, kids, ws[..m]) &&
          SpellsItem(g, items, n, kids, ws[m..])
  }

  ghost predicate SpellsItem(g: Grammar, items: seq<Item>, n: nat, kids: seq<Tree>, ws: seq<string>)
    requires 0 < n <= |items| && |KidSymbols(g, items, n)| <= |kids|
    decreases kids, n, 0
  {
    if Expandable(g, items[n - 1]) then
      Spells(g, items[n - 1].sym, kids[|KidSymbols(g, items, n - 1)|], ws)
    else
      ItemWords(g, items[n - 1], ws)
  }

  /** Only the children of the first `n` items matter for what those items spell. */
  lemma {:induction false} SpellsSame(g: Grammar, items: seq<Item>, n: nat, kids: seq<Tree>, kids': seq<Tree>,
                                      ws: seq<string>)
    requires n <= |items| && |KidSymbols(g, items, n)| <= |kids| && |KidSymbols(g, items, n)| <= |kids'|
    requires forall k :: 0 <= k < |KidSymbols(g, items, n)| ==> kids[k] == kids'[k]
    ensures SpellsItems(g, items, n, kids, ws) ==> SpellsItems(g, items, n, kids', ws)
  {
    if n > 0 && SpellsItems(g, items, n, kids, ws) {
      var m :| 0 <= m <= |ws| && SpellsItems(g, items, n - 1, kids, ws[..m]) && SpellsItem(g, items, n, kids, ws[m..]);
      SpellsSame(g, items, n - 1, kids, kids', ws[..m]);
    }
  }

  /** One more item spelled. */
  lemma SpellsMore(g: Grammar, items: seq<Item>, n: nat, kids: seq<Tree>, ws: seq<string>, more: seq<string>)
    requires 0 < n <= |items| && |KidSymbols(g, items, n)| <= |kids|
    requires SpellsItems(g, items, n - 1, kids, ws) && SpellsItem(g, items, n, kids, more)
    ensures SpellsItems(g, items, n, kids, ws + more)
  {
    assert (ws + more)[..|ws|] == ws && (ws + more)[|ws|..] == more;
  }

  // ---------- Replay once the depth is used up ----------

  /** Replaying the items from `i` on with the depth used up comes to a child that is no longer there, or
      to a child where this happens. A token that is cut short discards the rule and all children. */
  ghost predicate DoomedFrom(g: Grammar, items: seq<Item>, i: nat, kids: seq<Tree>, cut: bool)
    requires i <= |items| && |KidSymbols(g, items, |items|)| <= |kids|
    decreases kids, |items| - i, 0
  {
    if i == |items| then false
    else
      var it := items[i];
      KidSymbolsPrefix(g, items, i, |items|);
      KidSymbolsPrefix(g, items, i + 1, |items|);
      if it.Token? && CutShort(it.sym) then DoomedFrom(g, items, i + 1, kids, true)
      else if Expandable(g, it) then
        cut || Doomed(g, it.sym, kids[|KidSymbols(g, items, i)|]) || DoomedFrom(g, items, i + 1, kids, cut)
      else DoomedFrom(g, items, i + 1, kids, cut)
  }

  /** Replaying the tree with the depth used up fails. */
  ghost predicate Doomed(g: Grammar, sym: Symbol, t: Tree)
    decreases t, 0, 0
  {
    sym !in SKIPPED && t.rule.Some? && |AllKids(g, t.rule.value)| <= |t.kids| &&
    DoomedFrom(g, t.rule.value.items, 0, t.kids, false)
  }

  // ---------- Item by item ----------

  ghost predicate AllComplete(g: Grammar, syms: seq<Symbol>, ts: seq<Tree>) {
    |syms| <= |ts| && forall k :: 0 <= k < |syms| ==> Complete(g, syms[k], ts[k])
  }

  ghost predicate AllDerive(g: Grammar, syms: seq<Symbol>, ts: seq<Tree>) {
    |syms| <= |ts| && forall k :: 0 <= k < |syms| ==> Derives(g, syms[k], ts[k])
  }

  /** After the first `n` items: a child that derives from each expandable one, and, unless a choice is
      missing somewhere, the words that these items spell. */
  ghost predicate Grown(g: Grammar, items: seq<Item>, n: nat, ts: seq<Tree>, ws: seq<string>)
    requires n <= |items|
  {
    && AllDerive(g, KidSymbols(g, items, n), ts)
    && (AllComplete(g, KidSymbols(g, items, n), ts) ==> SpellsItems(g, items, n, ts, ws))
  }

  lemma GrownAtFirst(g: Grammar, items: seq<Item>, ts: seq<Tree>)
    ensures Grown(g, items, 0, ts, [])
  {
  }

  /** An item that spells words of its own. */
  lemma GrownByWords(g: Grammar, items: seq<Item>, n: nat, ts: seq<Tree>, ws: seq<string>, v: seq<string>)
    requires n < |items| && Grown(g, items, n, ts, ws) && !Expandable(g, items[n]) && ItemWords(g, items[n], v)
    ensures Grown(g, items, n + 1, ts, ws + v)
  {
    hide Derives, Complete;
    assert KidSymbols(g, items, n + 1) == KidSymbols(g, items, n);
    if AllComplete(g, KidSymbols(g, items, n + 1), ts) {
      SpellsMore(g, items, n + 1, ts, ws, v);
    }
  }

  /** An item that is expanded into the next child. */
  lemma GrownByKid(g: Grammar, items: seq<Item>, n: nat, ts: seq<Tree>, ts': seq<Tree>, ws: seq<string>, v: seq<string>)
    requires n < |items| && Grown(g, items, n, ts, ws) && Expandable(g, items[n])
    requires var i := |KidSymbols(g, items, n)|;
      && i < |ts'| && ts'[..i] == ts[..i]
      && Derives(g, items[n].sym, ts'[i])
      && (Complete(g, items[n].sym, ts'[i]) ==> Spells(g, items[n].sym, ts'[i], v))
    ensures Grown(g, items, n + 1, ts', ws + v)
  {
    hide Derives, Complete, Spells;
    var i := |KidSymbols(g, items, n)|;
    assert KidSymbols(g, items, n + 1) == KidSymbols(g, items, n) + [items[n].sym];
    forall k | 0 <= k < i ensures ts'[k] == ts[k] {
      assert ts'[..i][k] == ts[..i][k];
    }
    if AllComplete(g, KidSymbols(g, items, n + 1), ts') {
      assert forall k :: 0 <= k < i ==> KidSymbols(g, items, n)[k] == KidSymbols(g, items, n + 1)[k];
      assert Complete(g, KidSymbols(g, items, n + 1)[i], ts'[i]);
      SpellsSame(g, items, n, ts, ts', ws);
      SpellsMore(g, items, n + 1, ts', ws, v);
    }
  }

  /** A tree all of whose items are done. */
  lemma GrownUp(g: Grammar, sym: Symbol, t: Tree, ws: seq<string>)
    requires sym in g.prods && sym !in SKIPPED && t.rule.Some? && t.rule.value in g.prods[sym]
    requires |t.kids| == |AllKids(g, t.rule.value)|
    requires Grown(g, t.rule.value.items, |t.rule.value.items|, t.kids, ws)
    ensures Derives(g, sym, t)
    ensures Complete(g, sym, t) ==> Spells(g, sym, t, ws)
  {
  }

  lemma DoomedStep(g: Grammar, items: seq<Item>, i: nat, kids: seq<Tree>, cut: bool)
    requires i < |items| && |KidSymbols(g, items, |items|)| <= |kids|
    ensures |KidSymbols(g, items, i)| <= |kids|
    ensures Expandable(g, items[i]) ==> |KidSymbols(g, items, i)| < |kids|
    ensures DoomedFrom(g, items, i, kids, cut) ==
      if items[i].Token? && CutShort(items[i].sym) then DoomedFrom(g, items, i + 1, kids, true)
      else if Expandable(g, items[i]) then
        cut || Doomed(g, items[i].sym, kids[|KidSymbols(g, items, i)|]) || DoomedFrom(g, items, i + 1, kids, cut)
      else DoomedFrom(g, items, i + 1, kids, cut)
  {
    KidSymbolsPrefix(g, items, i, |items|);
    KidSymbolsPrefix(g, items, i + 1, |items|);
  }

  // ---------- The result of generating from a node ----------

  datatype Outcome = Words(words: seq<string>) | Nil | OutOfFuel

  /** Failure only where replay is doomed; every choice kept; and the words spell the tree. */
  ghost predicate Generated(g: Grammar, root: Symbol, depth: int, before: Tree, after: Tree, ret: Outcome) {
    && Derives(g, root, after)
    && (ret == Nil <==> depth < 0 && Doomed(g, root, before))
    && (depth >= 0 || before.rule == None ==> Extends(before, after))
    && (ret.Words? && Complete(g, root, after) ==> Spells(g, root, after, ret.words))
  }

  /** A node that is never expanded. */
  lemma SkippedRoot(g: Grammar, root: Symbol, depth: int, t: Tree)
    requires root in SKIPPED && Derives(g, root, t)
    ensures Generated(g, root, depth, t, t, Words([]))
  {
    ExtendsItself(t);
  }

  lemma {:induction false} ExtendsItself(t: Tree)
    ensures Extends(t, t)
  {
    forall k | 0 <= k < |t.kids| { ExtendsItself(t.kids[k]); }
  }

  /** A freshly expanded node. */
  lemma FreshRoot(g: Grammar, root: Symbol, depth: int, before: Tree, after: Tree, ws: seq<string>, rule: Rule)
    requires root in g.prods && root !in SKIPPED && rule in g.prods[root] && before.rule == None
    requires after.rule == None || (after.rule == Some(rule) && |after.kids| == |AllKids(g, rule)| &&
      Grown(g, rule.items, |rule.items|, after.kids, ws))
    ensures Generated(g, root, depth, before, after, Words(ws))
  {
    if after.rule != None { GrownUp(g, root, after, ws); }
  }

  /** In the middle of a replay with all children still there. */
  ghost predicate Replaying(g: Grammar, items: seq<Item>, n: nat, depth: int, before: seq<Tree>, now: seq<Tree>,
                            ws: seq<string>)
    requires n <= |items|
  {
    var i := |KidSymbols(g, items, n)|;
    && i <= |before| == |now| && Grown(g, items, n, now, ws)
    && (forall k :: i <= k < |now| ==> now[k] == before[k])
    && (depth >= 0 ==> forall k :: 0 <= k < i ==> Extends(before[k], now[k]))
  }

  lemma ReplayByWords(g: Grammar, items: seq<Item>, n: nat, depth: int, before: seq<Tree>, now: seq<Tree>,
                      ws: seq<string>, v: seq<string>)
    requires n < |items| && Replaying(g, items, n, depth, before, now, ws) && !Expandable(g, items[n]) &&
      ItemWords(g, items[n], v)
    ensures Replaying(g, items, n + 1, depth, before, now, ws + v)
  {
    hide Grown, Extends;
    GrownByWords(g, items, n, now, ws, v);
    assert KidSymbols(g, items, n + 1) == KidSymbols(g, items, n);
  }

  lemma ReplayByKid(g: Grammar, items: seq<Item>, n: nat, depth: int, before: seq<Tree>, now: seq<Tree>,
                    ws: seq<string>, t: Tree, v: seq<string>)
    requires n < |items| && Replaying(g, items, n, depth, before, now, ws) && Expandable(g, items[n])
    requires |KidSymbols(g, items, n)| < |before|
    requires Generated(g, items[n].sym, depth, before[|KidSymbols(g, items, n)|], t, Words(v))
    ensures Replaying(g, items, n + 1, depth, before, now[|KidSymbols(g, items, n)| := t], ws + v)
  {
    hide Grown, Extends, Doomed, Spells, Complete, Derives;
    var i := |KidSymbols(g, items, n)|;
    var next := now[i := t];
    assert next[..i] == now[..i];
    GrownByKid(g, items, n, now, next, ws, v);
    assert KidSymbols(g, items, n + 1) == KidSymbols(g, items, n) + [items[n].sym];
  }

  /** A replay that came to its end. */
  lemma ReplayedRoot(g: Grammar, root: Symbol, depth: int, before: Tree, after: Tree, ws: seq<string>)
    requires root !in SKIPPED && before.rule.Some? && Derives(g, root, before)
    requires after.rule == before.rule && |after.kids| == |before.kids|
    requires Replaying(g, before.rule.value.items, |before.rule.value.items|, depth, before.kids, after.kids, ws)
    requires depth < 0 ==> !Doomed(g, root, before)
    ensures Generated(g, root, depth, before, after, Words(ws))
  {
    hide Doomed;
    GrownUp(g, root, after, ws);
  }

  /** A replay that failed in a child. */
  lemma FailedInKid(g: Grammar, root: Symbol, n: nat, depth: int, before: Tree, now: seq<Tree>, after: Tree,
                    ws: seq<string>, t: Tree)
    requires before.rule.Some? && Derives(g, root, before) && root !in SKIPPED
    requires var items := before.rule.value.items;
      && n < |items| && Expandable(g, items[n]) && |KidSymbols(g, items, n)| < |before.kids|
      && Replaying(g, items, n, depth, before.kids, now, ws)
      && Generated(g, items[n].sym, depth, before.kids[|KidSymbols(g, items, n)|], t, Nil)
      && after == Tree(before.id, before.isFav, before.rule, now[|KidSymbols(g, items, n)| := t])
    requires Doomed(g, root, before)
    ensures Generated(g, root, depth, before, after, Nil)
  {
    hide Doomed, Spells, Complete, Extends;
    var items := before.rule.value.items;
    var i := |KidSymbols(g, items, n)|;
    KidSymbolsPrefix(g, items, n, |items|);
    KidSymbolsPrefix(g, items, n + 1, |items|);
    forall k | 0 <= k < |after.kids| ensures Derives(g, AllKids(g, before.rule.value)[k], after.kids[k]) {
      if k < i {
        assert AllKids(g, before.rule.value)[k] == KidSymbols(g, items, n)[k];
      } else if k == i {
        assert KidSymbols(g, items, n + 1)[i] == items[n].sym;
      }
    }
  }

  // ---------- When replay with the depth used up fails ----------

  predicate IsCut(it: Item) {
    it.Token? && CutShort(it.sym)
  }

  /** The first item that is cut short, or the end. */
  function FirstCut(items: seq<Item>, i: nat): (c: nat)
    requires i <= |items|
    ensures i <= c <= |items| && (c < |items| ==> IsCut(items[c])) && forall j :: i <= j < c ==> !IsCut(items[j])
    decreases |items| - i
  {
    if i == |items| || IsCut(items[i]) then i else FirstCut(items, i + 1)
  }

  /** From item `i` on: an item that is cut short, and later one that still needs its child. */
  ghost predicate CutBeforeKid(g: Grammar, items: seq<Item>, i: nat) {
    exists a, b :: i <= a < b < |items| && IsCut(items[a]) && Expandable(g, items[b]) && !IsCut(items[b])
  }

  /** After a cut: the next child that is needed is missing. */
  lemma {:induction false} DoomedAfterCut(g: Grammar, items: seq<Item>, i: nat, kids: seq<Tree>)
    requires i <= |items| && |KidSymbols(g, items, |items|)| <= |kids|
    ensures DoomedFrom(g, items, i, kids, true) <==>
      exists b :: i <= b < |items| && Expandable(g, items[b]) && !IsCut(items[b])
    decreases |items| - i
  {
    if i < |items| {
      DoomedStep(g, items, i, kids, true);
      DoomedAfterCut(g, items, i + 1, kids);
    }
  }

  /** One of the children `a` to `b` is doomed. */
  ghost predicate SomeDoomed(g: Grammar, items: seq<Item>, kids: seq<Tree>, a: nat, b: nat)
    requires b <= |KidSymbols(g, items, |items|)| <= |kids|
  {
    exists k :: a <= k < b && Doomed(g, KidSymbols(g, items, |items|)[k], kids[k])
  }

  lemma SomeDoomedNext(g: Grammar, items: seq<Item>, kids: seq<Tree>, a: nat, b: nat)
    requires a < b <= |KidSymbols(g, items, |items|)| <= |kids|
    ensures SomeDoomed(g, items, kids, a, b) <==>
      Doomed(g, KidSymbols(g, items, |items|)[a], kids[a]) || SomeDoomed(g, items, kids, a + 1, b)
  {
    hide Doomed, KidSymbols;
  }

  lemma KidNext(g: Grammar, items: seq<Item>, i: nat)
    requires i < |items|
    ensures |KidSymbols(g, items, i + 1)| == |KidSymbols(g, items, i)| + (if Expandable(g, items[i]) then 1 else 0)
    ensures |KidSymbols(g, items, i + 1)| <= |KidSymbols(g, items, |items|)|
    ensures Expandable(g, items[i]) ==> KidSymbols(g, items, |items|)[|KidSymbols(g, items, i)|] == items[i].sym
  {
    KidSymbolsPrefix(g, items, i + 1, |items|);
    if Expandable(g, items[i]) {
      var k := |KidSymbols(g, items, i)|;
      assert KidSymbols(g, items, i + 1)[k] == items[i].sym;
      assert KidSymbols(g, items, |items|)[..k + 1][k] == KidSymbols(g, items, i + 1)[k];
    }
  }

  lemma CutNext(g: Grammar, items: seq<Item>, i: nat)
    requires i < |items| && !IsCut(items[i])
    ensures FirstCut(items, i) == FirstCut(items, i + 1)
    ensures CutBeforeKid(g, items, i) <==> CutBeforeKid(g, items, i + 1)
  {
    hide IsCut, Expandable;
  }

  lemma CutHere(g: Grammar, items: seq<Item>, i: nat)
    requires i < |items| && IsCut(items[i])
    ensures FirstCut(items, i) == i
    ensures CutBeforeKid(g, items, i) <==>
      exists b :: i + 1 <= b < |items| && Expandable(g, items[b]) && !IsCut(items[b])
  {
    hide Expandable;
    if CutBeforeKid(g, items, i) {
      var a, b :| i <= a < b < |items| && IsCut(items[a]) && Expandable(g, items[b]) && !IsCut(items[b]);
      assert i + 1 <= b;
    }
  }

  lemma {:induction false} DoomedBeforeCut(g: Grammar, items: seq<Item>, i: nat, kids: seq<Tree>)
    requires i <= |items| && |KidSymbols(g, items, |items|)| <= |kids|
    ensures |KidSymbols(g, items, i)| <= |KidSymbols(g, items, FirstCut(items, i))| <= |KidSymbols(g, items, |items|)|
    ensures DoomedFrom(g, items, i, kids, false) <==>
      || CutBeforeKid(g, items, i)
      || SomeDoomed(g, items, kids, |KidSymbols(g, items, i)|, |KidSymbols(g, items, FirstCut(items, i))|)
    decreases |items| - i
  {
    hide Doomed, Expandable;
    KidSymbolsPrefix(g, items, i, |items|);
    if i < |items| {
      DoomedStep(g, items, i, kids, false);
      hide KidSymbols, DoomedFrom, CutBeforeKid;
      if IsCut(items[i]) {
        CutHere(g, items, i);
        DoomedAfterCut(g, items, i + 1, kids);
      } else {
        hide SomeDoomed;
        DoomedBeforeCut(g, items, i + 1, kids);
        CutNext(g, items, i);
        KidNext(g, items, i);
        if Expandable(g, items[i]) {
          SomeDoomedNext(g, items, kids, |KidSymbols(g, items, i)|, |KidSymbols(g, items, FirstCut(items, i))|);
        }
      }
    }
  }

  /** Replay with the depth used up fails exactly if some rule on the way has a token that is cut short
      before an item that needs its child; only the children before the first cut are on the way. */
  lemma DoomedExactly(g: Grammar, sym: Symbol, t: Tree)
    requires Derives(g, sym, t) && t.rule.Some? && sym !in SKIPPED
    ensures var items := t.rule.value.items;
      && |KidSymbols(g, items, FirstCut(items, 0))| <= |t.kids| == |AllKids(g, t.rule.value)|
      && (Doomed(g, sym, t) <==>
            || CutBeforeKid(g, items, 0)
            || (exists k :: 0 <= k < |KidSymbols(g, items, FirstCut(items, 0))| &&
                  Doomed(g, AllKids(g, t.rule.value)[k], t.kids[k])))
  {
    DoomedBeforeCut(g, t.rule.value.items, 0, t.kids);
  }

  /** A tree that a generation with depth left can leave behind, and that fails to replay without. */
  lemma DoomedExample()
    ensures var rule := Rule([Token("expr"), Token("ident_list")], 1);
      var g := Grammar(map["s" := [rule], "expr" := [rule], "ident_list" := [Rule([], 2)]], map[], map[]);
      var t := Tree(0, false, Some(rule), [Tree(1, false, None, []), Tree(2, false, Some(Rule([], 2)), [])]);
      Sound(g) && Derives(g, "s", t) && Doomed(g, "s", t)
  {
    var rule := Rule([Token("expr"), Token("ident_list")], 1);
    var g := Grammar(map["s" := [rule], "expr" := [rule], "ident_list" := [Rule([], 2)]], map[], map[]);
    var t := Tree(0, false, Some(rule), [Tree(1, false, None, []), Tree(2, false, Some(Rule([], 2)), [])]);
    assert KidSymbols(g, rule.items, 1) == ["expr"];
    assert AllKids(g, rule) == ["expr", "ident_list"];
    assert AllKids(g, Rule([], 2)) == [];
    assert Derives(g, "s", t);
    DoomedExactly(g, "s", t);
    assert IsCut(rule.items[0]) && Expandable(g, rule.items[1]);
  }

  // ---------- Pruning ----------

  /** The second tree, with the choices below some of its nodes given up. */
  ghost predicate Pruning(u: Tree, t: Tree)
    decreases u
  {
    && u.id == t.id && u.isFav == t.isFav
    && ((u.rule == None && u.kids == []) ||
        (u.rule == t.rule && |u.kids| == |t.kids| && forall k :: 0 <= k < |u.kids| ==> Pruning(u.kids[k], t.kids[k])))
  }

  /** The first tree is the second one, except that the node at position `p` has lost its rule and its
      children. A position is the list of the child indices on the way down from the root. */
  ghost predicate GivenUpAt(u: Tree, t: Tree, p: seq<nat>)
    decreases |p|
  {
    if p == [] then u == Tree(t.id, t.isFav, None, [])
    else
      && p[0] < |t.kids| == |u.kids|
      && u == Tree(t.id, t.isFav, t.rule, t.kids[p[0] := u.kids[p[0]]])
      && GivenUpAt(u.kids[p[0]], t.kids[p[0]], p[1..])
  }

  /** The number of nodes. */
  ghost function TreeSize(t: Tree): nat {
    1 + TreeSizes(t.kids)
  }

  ghost function TreeSizes(ts: seq<Tree>): nat {
    if ts == [] then 0 else TreeSizes(ts[..|ts| - 1]) + TreeSize(ts[|ts| - 1])
  }

  /** The node given up in a saved tree: the root of a tiny tree; else the root only if it is a favourite. */
  ghost predicate MutatedAt(u: Tree, t: Tree, p: seq<nat>) {
    && GivenUpAt(u, t, p)
    && (TreeSize(t) <= 2 ==> p == [])
    && (TreeSize(t) > 2 && p == [] ==> t.isFav)
  }

  /** A pruned derivation is a derivation, and it makes no choice that the whole one does not make. */
  lemma {:induction false} PruningDerives(g: Grammar, sym: Symbol, u: Tree, t: Tree)
    requires Pruning(u, t) && Derives(g, sym, t)
    ensures Derives(g, sym, u) && Extends(u, t)
    decreases u
  {
    if u.rule.Some? {
      forall k | 0 <= k < |u.kids| {
        PruningDerives(g, AllKids(g, u.rule.value)[k], u.kids[k], t.kids[k]);
      }
    }
  }
}
