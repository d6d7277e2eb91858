/** The automatic dictionary: which tokens are found while flipping bits, and how the list of them is
    kept. */
module AutoExtras {
  import opened Words
  import opened Redundancy
  import opened DetRuns
  import opened TokenLists

  const MIN_AUTO_EXTRA: nat := 3
  const MAX_AUTO_EXTRA: nat := 32

  datatype Extra = Extra(data: Buf, hitCnt: nat)

  // ---------- Comparing tokens ----------

  function Lower(b: bv8): bv8 {
    if 65 <= b <= 90 then b + 32 else b
  }

  predicate Capital(b: bv8) {
    'A' <= b as char <= 'Z'
  }

  /** Two bytes are taken for the same exactly if they are, or are one letter as a capital and a small one. */
  lemma LowerMeans(a: bv8, b: bv8)
    ensures Lower(a) == Lower(b) <==> a == b || (Capital(a) && b == a + 32) || (Capital(b) && a == b + 32)
  {
  }

  ghost predicate SameNoCase(a: Buf, b: Buf) {
    |a| == |b| && forall k :: 0 <= k < |a| ==> Lower(a[k]) == Lower(b[k])
  }

  method MemCmpNoCase(m1: Buf, m2: Buf) returns (differ: bool)
    requires |m1| == |m2|
    ensures differ == !SameNoCase(m1, m2)
  {
    hide Lower;
    for k := 0 to |m1|
      invariant forall l :: 0 <= l < k ==> Lower(m1[l]) == Lower(m2[l])
    {
      if Lower(m1[k]) != Lower(m2[k]) { return true; }
    }
    return false;
  }

  ghost predicate OneByteRepeated(mem: Buf) {
    forall k :: 0 <= k < |mem| ==> mem[k] == mem[0]
  }

  /** The token is one of the interesting values in either byte order. Two-byte values are compared as
      numbers, so that a negative one only matches byte-swapped. */
  ghost predicate Builtin(mem: Buf) {
    || (|mem| == 2 && exists i :: 0 <= i < |INTERESTING_16| && Matches16(Join16(mem[0], mem[1]), INTERESTING_16[i]))
    || (|mem| == 4 && var w := Join32(mem[0], mem[1], mem[2], mem[3]);
        exists i :: 0 <= i < |INTERESTING_32| && Matches32(w, INTERESTING_32[i]))
  }

  predicate Matches16(w: bv16, v: bv16) {
    (w == v && v < 0x8000) || w == Swap16(v)
  }

  predicate Matches32(w: bv32, v: bv32) {
    w == v || w == Swap32(v)
  }

  /** The token is one of the interesting values of its width, in either byte order. */
  ghost predicate InterestingValue(mem: Buf) {
    || (|mem| == 2 && var w := Join16(mem[0], mem[1]);
        exists i :: 0 <= i < |INTERESTING_16| && (w == INTERESTING_16[i] || w == Swap16(INTERESTING_16[i])))
    || (|mem| == 4 && var w := Join32(mem[0], mem[1], mem[2], mem[3]);
        exists i :: 0 <= i < |INTERESTING_32| && (w == INTERESTING_32[i] || w == Swap32(INTERESTING_32[i])))
  }

  predicate TokenSize(n: nat) {
    MIN_AUTO_EXTRA <= n <= MAX_AUTO_EXTRA
  }

  /** For every token that is ever handed over the check is exact. */
  lemma BuiltinIsInteresting(mem: Buf)
    requires TokenSize(|mem|)
    ensures Builtin(mem) <==> InterestingValue(mem)
  {
    hide INTERESTING_16, INTERESTING_32, Join32, Swap32;
    if |mem| == 4 {
      var w := Join32(mem[0], mem[1], mem[2], mem[3]);
      assert forall i :: 0 <= i < |INTERESTING_32| ==>
        (Matches32(w, INTERESTING_32[i]) <==> w == INTERESTING_32[i] || w == Swap32(INTERESTING_32[i]));
    }
  }

  /** For two bytes, which are never handed over, it would miss -128 in the order of the machine. */
  lemma TwoByteMiss()
    ensures InterestingValue([0x80, 0xff]) && !Builtin([0x80, 0xff])
  {
    var w := Join16(0x80, 0xff);
    assert w == 0xff80;
    assert INTERESTING_16[0] == 0xff80;
  }

  // ---------- The list as a whole ----------

  function Datas(es: seq<Extra>): (ds: seq<Buf>)
    ensures |ds| == |es| && forall i :: 0 <= i < |es| ==> ds[i] == es[i].data
  {
    seq(|es|, i requires 0 <= i < |es| => es[i].data)
  }

  /** No two entries hold the same token, whatever the case of its letters. */
  ghost predicate Distinct(m: multiset<Extra>) {
    && (forall x :: x in m ==> m[x] == 1)
    && (forall x, y :: x in m && y in m && SameNoCase(x.data, y.data) ==> x == y)
  }

  lemma MultisetTwice(es: seq<Extra>, i: nat, j: nat)
    requires i < j < |es| && es[i] == es[j]
    ensures multiset(es)[es[i]] >= 2
  {
    assert es == es[..j] + [es[j]] + es[j + 1..];
    assert es[i] in es[..j];
  }

  /** What distinctness means for the list. */
  lemma DistinctByPosition(es: seq<Extra>)
    requires Distinct(multiset(es))
    ensures forall i, j :: 0 <= i < j < |es| ==> !SameNoCase(es[i].data, es[j].data)
  {
    forall i, j | 0 <= i < j < |es| ensures !SameNoCase(es[i].data, es[j].data) {
      if SameNoCase(es[i].data, es[j].data) {
        assert es[i] in multiset(es) && es[j] in multiset(es);
        MultisetTwice(es, i, j);
      }
    }
  }

  lemma DistinctCounted(m: multiset<Extra>, x: Extra)
    requires Distinct(m) && x in m
    ensures Distinct(m - multiset{x} + multiset{Extra(x.data, x.hitCnt + 1)})
  {
    var y := Extra(x.data, x.hitCnt + 1);
    var n := m - multiset{x} + multiset{y};
    assert y !in m by {
      if y in m { SameAsSelf(x.data); }
    }
    forall a, b | a in n && b in n && SameNoCase(a.data, b.data) ensures a == b {
      var a', b' := if a == y then x else a, if b == y then x else b;
      assert a' in m && b' in m;
    }
  }

  lemma SameAsSelf(d: Buf)
    ensures SameNoCase(d, d)
  {
  }

  lemma DistinctAdded(m: multiset<Extra>, y: Extra)
    requires Distinct(m) && forall x :: x in m ==> !SameNoCase(x.data, y.data) && !SameNoCase(y.data, x.data)
    ensures Distinct(m + multiset{y})
  {
    SameAsSelf(y.data);
  }

  lemma SameIsSymmetric(a: Buf, b: Buf)
    ensures SameNoCase(a, b) <==> SameNoCase(b, a)
  {
  }

  lemma DistinctRemoved(m: multiset<Extra>, x: Extra)
    requires Distinct(m)
    ensures Distinct(m - multiset{x})
  {
  }

  // ---------- Sorting ----------

  /** The two orders: by length, or by use count from high to low. */
  function Key(e: Extra, byLen: bool): int {
    if byLen then |e.data| as int else 0 - (e.hitCnt as int)
  }

  ghost predicate Ordered(es: seq<Extra>, byLen: bool) {
    forall i, j :: 0 <= i < j < |es| ==> Key(es[i], byLen) <= Key(es[j], byLen)
  }

  /** Some sorted permutation of the entries. */
  method QSort(es: seq<Extra>, byLen: bool) returns (r: seq<Extra>)
    ensures multiset(r) == multiset(es) && |r| == |es| && Ordered(r, byLen)
  {
    r := [];
    for n := 0 to |es|
      invariant |r| == n && multiset(r) == multiset(es[..n]) && Ordered(r, byLen)
    {
      assert es[..n + 1] == es[..n] + [es[n]];
      r := Insert(r, es[n], byLen);
    }
    assert es[..|es|] == es;
  }

  method Insert(es: seq<Extra>, e: Extra, byLen: bool) returns (r: seq<Extra>)
    requires Ordered(es, byLen)
    ensures multiset(r) == multiset(es) + multiset{e} && |r| == |es| + 1 && Ordered(r, byLen)
  {
    hide Key;
    var k := |es|;
    while k > 0 && Key(es[k - 1], byLen) > Key(e, byLen)
      invariant 0 <= k <= |es| && forall j :: k <= j < |es| ==> Key(es[j], byLen) > Key(e, byLen)
    {
      k := k - 1;
    }
    r := es[..k] + [e] + es[k..];
    InsertKeepsElements(es, k, e);
    InsertKeepsOrder(es, k, e, byLen);
  }

  lemma InsertKeepsElements(es: seq<Extra>, k: nat, e: Extra)
    requires k <= |es|
    ensures multiset(es[..k] + [e] + es[k..]) == multiset(es) + multiset{e}
  {
    assert es == es[..k] + es[k..];
  }

  lemma InsertKeepsOrder(es: seq<Extra>, k: nat, e: Extra, byLen: bool)
    requires k <= |es| && Ordered(es, byLen)
    requires k > 0 ==> Key(es[k - 1], byLen) <= Key(e, byLen)
    requires k < |es| ==> Key(e, byLen) <= Key(es[k], byLen)
    ensures Ordered(es[..k] + [e] + es[k..], byLen)
  {
    hide Key;
    var r := es[..k] + [e] + es[k..];
    forall i, j | 0 <= i < j < |r| ensures Key(r[i], byLen) <= Key(r[j], byLen) {
      var x, y := if i < k then i else i - 1, if j < k then j else j - 1;
      if i == k {
        assert k < |es| && Key(es[k], byLen) <= Key(es[y], byLen);
      } else if j == k {
        assert k > 0 && Key(es[x], byLen) <= Key(es[k - 1], byLen);
      } else {
        assert Key(es[x], byLen) <= Key(es[y], byLen);
      }
    }
  }

  function Used(n: nat): nat {
    if n <= USE_AUTO_EXTRAS then n else USE_AUTO_EXTRAS
  }

  /** Every used entry was counted at least as often as every other one. */
  ghost predicate MostUsedFirst(es: seq<Extra>) {
    forall i, j :: 0 <= i < Used(|es|) <= j < |es| ==> es[i].hitCnt >= es[j].hitCnt
  }

  /** Permuting the front keeps it above the rest. */
  lemma FrontStaysAbove(front: seq<Extra>, front': seq<Extra>, rest: seq<Extra>)
    requires multiset(front) == multiset(front') && Ordered(front + rest, false)
    ensures forall x, y :: x in front' && y in rest ==> x.hitCnt >= y.hitCnt
  {
    forall x, y | x in front' && y in rest ensures x.hitCnt >= y.hitCnt {
      assert x in multiset(front);
      var i :| 0 <= i < |front| && front[i] == x;
      var j :| 0 <= j < |rest| && rest[j] == y;
      assert (front + rest)[i] == x && (front + rest)[|front| + j] == y;
      assert Key(x, false) <= Key(y, false);
    }
  }

  /** By use count over all entries, then the used ones by length. */
  method SortAuto(es: seq<Extra>) returns (r: seq<Extra>)
    ensures multiset(r) == multiset(es) && |r| == |es|
    ensures SortedBySize(UsedAuto(Datas(r))) && MostUsedFirst(r)
  {
    hide Key;
    var s := QSort(es, false);
    var n := Used(|s|);
    var front := QSort(s[..n], true);
    assert s == s[..n] + s[n..];
    FrontStaysAbove(s[..n], front, s[n..]);
    r := front + s[n..];
    OrderedBySize(front);
    assert UsedAuto(Datas(r)) == Datas(front);
    forall i, j | 0 <= i < Used(|r|) <= j < |r| ensures r[i].hitCnt >= r[j].hitCnt {
      assert r[i] in front && r[j] in s[n..];
    }
  }

  lemma OrderedBySize(es: seq<Extra>)
    requires Ordered(es, true)
    ensures SortedBySize(Datas(es))
  {
    forall i, j | 0 <= i < j < |es| ensures |es[i].data| <= |es[j].data| {
      assert Key(es[i], true) <= Key(es[j], true);
    }
  }

  // ---------- Adding a token ----------

  ghost predicate MatchesSome(mem: Buf, ts: seq<Buf>) {
    exists i :: 0 <= i < |ts| && SameNoCase(ts[i], mem)
  }

  /** A token that is not kept: a run of one byte, a builtin value, or one the user supplied. */
  ghost predicate Rejected(mem: Buf, extras: seq<Buf>) {
    OneByteRepeated(mem) || Builtin(mem) || MatchesSome(mem, extras)
  }

  method TestBuiltin(mem: Buf) returns (yes: bool)
    ensures yes == Builtin(mem)
  {
    hide INTERESTING_16, INTERESTING_32, Matches16, Matches32, Join16, Join32;
    if |mem| == 2 {
      var w, i := Join16(mem[0], mem[1]), |INTERESTING_16|;
      while i > 0
        invariant 0 <= i <= |INTERESTING_16|
        invariant forall k :: i <= k < |INTERESTING_16| ==> !Matches16(w, INTERESTING_16[k])
      {
        i := i - 1;
        if Matches16(w, INTERESTING_16[i]) { return true; }
      }
    }
    if |mem| == 4 {
      var w, i := Join32(mem[0], mem[1], mem[2], mem[3]), |INTERESTING_32|;
      while i > 0
        invariant 0 <= i <= |INTERESTING_32|
        invariant forall k :: i <= k < |INTERESTING_32| ==> !Matches32(w, INTERESTING_32[k])
      {
        i := i - 1;
        if Matches32(w, INTERESTING_32[i]) { return true; }
      }
    }
    return false;
  }

  /** The user's tokens are sorted by length, so only one stretch of them needs comparing. */
  method TestExtras(mem: Buf, extras: seq<Buf>) returns (yes: bool)
    requires SortedBySize(extras)
    ensures yes == MatchesSome(mem, extras)
  {
    var i := 0;
    while i < |extras| && |extras[i]| < |mem|
      invariant i <= |extras| && forall k :: 0 <= k < i ==> |extras[k]| < |mem|
    {
      i := i + 1;
    }
    while i < |extras| && |extras[i]| == |mem|
      invariant i <= |extras| && forall k :: 0 <= k < i ==> !SameNoCase(extras[k], mem)
      invariant i < |extras| ==> |extras[i]| >= |mem|
    {
      var differ := MemCmpNoCase(extras[i], mem);
      if !differ { return true; }
      i := i + 1;
    }
    return false;
  }

  /** Entry `i` of the list gave way to `y`. */
  ghost predicate PutFor(before: seq<Extra>, i: nat, y: Extra, after: multiset<Extra>) {
    i < |before| && after == multiset(before[i := y])
  }

  /** What one call makes of the list, up to order. When the list is full, an entry of its lower half
      has to go. */
  ghost predicate Added(before: seq<Extra>, after: multiset<Extra>, mem: Buf) {
    if exists i :: 0 <= i < |before| && SameNoCase(before[i].data, mem) then
      exists i :: 0 <= i < |before| && SameNoCase(before[i].data, mem) &&
        PutFor(before, i, Extra(before[i].data, before[i].hitCnt + 1), after)
    else if |before| < MAX_AUTO_EXTRAS then
      after == multiset(before + [Extra(mem, 0)])
    else
      exists i: nat :: MAX_AUTO_EXTRAS / 2 <= i && PutFor(before, i, Extra(mem, 0), after)
  }

  /** No call drops a token that is in use. */
  lemma UsedStay(before: seq<Extra>, after: seq<Extra>, mem: Buf, t: Buf)
    requires Added(before, multiset(after), mem) && t in UsedAuto(Datas(before))
    ensures t in Datas(after)
  {
    hide SameNoCase, PutFor;
    var j :| 0 <= j < |UsedAuto(Datas(before))| && UsedAuto(Datas(before))[j] == t;
    assert j < USE_AUTO_EXTRAS && before[j].data == t;
    if exists i :: 0 <= i < |before| && SameNoCase(before[i].data, mem) {
      var i :| 0 <= i < |before| && PutFor(before, i, Extra(before[i].data, before[i].hitCnt + 1), multiset(after));
      OthersStay(before, i, Extra(before[i].data, before[i].hitCnt + 1), after, j);
    } else if |before| < MAX_AUTO_EXTRAS {
      HoldsData(before + [Extra(mem, 0)], after, j);
    } else {
      var i: nat :| MAX_AUTO_EXTRAS / 2 <= i && PutFor(before, i, Extra(mem, 0), multiset(after));
      OthersStay(before, i, Extra(mem, 0), after, j);
    }
  }

  /** Afterwards the token is in the list, whatever its case, and the list is one longer exactly if the token was
      not in it and there was room. */
  lemma AddedMeans(before: seq<Extra>, after: seq<Extra>, mem: Buf)
    requires Added(before, multiset(after), mem)
    ensures MatchesSome(mem, Datas(after))
    ensures |after| == |before| + (if MatchesSome(mem, Datas(before)) || |before| >= 500 then 0 else 1)
  {
    hide Lower;
    assert |multiset(after)| == |after|;
    if exists i :: 0 <= i < |before| && SameNoCase(before[i].data, mem) {
      var i :| 0 <= i < |before| && SameNoCase(before[i].data, mem) &&
        PutFor(before, i, Extra(before[i].data, before[i].hitCnt + 1), multiset(after));
      assert SameNoCase(Datas(before)[i], mem);
      HoldsSame(before[i := Extra(before[i].data, before[i].hitCnt + 1)], after, i, mem);
    } else if |before| < MAX_AUTO_EXTRAS {
      HoldsSame(before + [Extra(mem, 0)], after, |before|, mem);
    } else {
      var i: nat :| MAX_AUTO_EXTRAS / 2 <= i && PutFor(before, i, Extra(mem, 0), multiset(after));
      HoldsSame(before[i := Extra(mem, 0)], after, i, mem);
    }
  }

  lemma HoldsSame(es: seq<Extra>, after: seq<Extra>, j: nat, mem: Buf)
    requires multiset(after) == multiset(es) && j < |es| && SameNoCase(es[j].data, mem)
    ensures MatchesSome(mem, Datas(after)) && |after| == |es|
  {
    hide SameNoCase;
    HoldsData(es, after, j);
    assert |multiset(after)| == |multiset(es)|;
  }

  lemma OthersStay(before: seq<Extra>, i: nat, y: Extra, after: seq<Extra>, j: nat)
    requires PutFor(before, i, y, multiset(after)) && j < |before| && (i == j ==> y.data == before[j].data)
    ensures before[j].data in Datas(after)
  {
    HoldsData(before[i := y], after, j);
  }

  lemma UsedIsListed(es: seq<Extra>, t: Buf)
    requires t in UsedAuto(Datas(es))
    ensures t in Datas(es)
  {
  }

  lemma HoldsData(es: seq<Extra>, after: seq<Extra>, j: nat)
    requires multiset(after) == multiset(es) && j < |es|
    ensures es[j].data in Datas(after)
  {
    assert es[j] in multiset(after);
    var k :| 0 <= k < |after| && after[k] == es[j];
    assert Datas(after)[k] == es[j].data;
  }

  /** The list without its order: bounded, of the right sizes, distinct, nothing in it that would be
      rejected. */
  ghost predicate Kept(es: multiset<Extra>, extras: seq<Buf>) {
    && |es| <= MAX_AUTO_EXTRAS
    && Distinct(es)
    && forall e :: e in es ==> TokenSize(|e.data|) && !Rejected(e.data, extras)
  }

  /** Such a list can be used by the dictionary stages. */
  lemma KeptAreTokens(es: seq<Extra>, extras: seq<Buf>)
    requires Kept(multiset(es), extras)
    ensures Tokens(Datas(es))
  {
    forall j | 0 <= j < |es| ensures 0 < |Datas(es)[j]| <= MAX_DICT_FILE {
      assert es[j] in multiset(es);
    }
  }

  lemma KeptWhenCounted(es: multiset<Extra>, x: Extra, extras: seq<Buf>)
    requires Kept(es, extras) && x in es
    ensures Kept(es - multiset{x} + multiset{Extra(x.data, x.hitCnt + 1)}, extras)
  {
    hide Distinct, Rejected;
    DistinctCounted(es, x);
  }

  lemma KeptWhenAdded(es: multiset<Extra>, y: Extra, extras: seq<Buf>)
    requires Kept(es, extras) && |es| < MAX_AUTO_EXTRAS && TokenSize(|y.data|) && !Rejected(y.data, extras)
    requires forall x :: x in es ==> !SameNoCase(x.data, y.data)
    ensures Kept(es + multiset{y}, extras)
  {
    hide Distinct, Rejected, SameNoCase;
    forall x | x in es ensures !SameNoCase(y.data, x.data) { SameIsSymmetric(y.data, x.data); }
    DistinctAdded(es, y);
  }

  lemma KeptWhenRemoved(es: multiset<Extra>, x: Extra, extras: seq<Buf>)
    requires Kept(es, extras)
    ensures Kept(es - multiset{x}, extras)
  {
    hide Rejected;
    DistinctRemoved(es, x);
  }

  /** Finds the token in the list. */
  method FindAuto(es: seq<Extra>, mem: Buf) returns (i: nat)
    ensures i <= |es|
    ensures i < |es| ==> SameNoCase(es[i].data, mem)
    ensures i == |es| ==> forall x :: x in multiset(es) ==> !SameNoCase(x.data, mem)
    ensures i == |es| ==> forall k :: 0 <= k < |es| ==> !SameNoCase(es[k].data, mem)
  {
    hide SameNoCase;
    i := 0;
    while i < |es|
      invariant i <= |es| && forall k :: 0 <= k < i ==> !SameNoCase(es[k].data, mem)
    {
      if |es[i].data| == |mem| {
        var differ := MemCmpNoCase(es[i].data, mem);
        if !differ { return; }
      } else {
        DifferentSize(es[i].data, mem);
      }
      i := i + 1;
    }
    assert forall x :: x in multiset(es) ==> x in es;
  }

  lemma DifferentSize(a: Buf, b: Buf)
    requires |a| != |b|
    ensures !SameNoCase(a, b)
  {
  }

  lemma Replaced(es: seq<Extra>, i: nat, y: Extra)
    requires i < |es|
    ensures es[i] in multiset(es) && multiset(es[i := y]) == multiset(es) - multiset{es[i]} + multiset{y}
  {
  }

  /** The list with the token counted, appended, or put in the place of an entry of the lower half. */
  method Count(es: seq<Extra>, mem: Buf, ghost extras: seq<Buf>) returns (r: seq<Extra>)
    requires Kept(multiset(es), extras) && TokenSize(|mem|) && !Rejected(mem, extras)
    ensures Kept(multiset(r), extras) && Added(es, multiset(r), mem)
  {
    hide SameNoCase, Rejected, Kept, Distinct;
    var i := FindAuto(es, mem);
    if i < |es| {
      var y := Extra(es[i].data, es[i].hitCnt + 1);
      Replaced(es, i, y);
      KeptWhenCounted(multiset(es), es[i], extras);
      r := es[i := y];
      assert PutFor(es, i, y, multiset(r));
    } else if |es| < MAX_AUTO_EXTRAS {
      KeptWhenAdded(multiset(es), Extra(mem, 0), extras);
      r := es + [Extra(mem, 0)];
    } else {
      KeptSize(multiset(es), extras);
      var n: nat :| n < (MAX_AUTO_EXTRAS + 1) / 2;
      i := MAX_AUTO_EXTRAS / 2 + n;
      Replaced(es, i, Extra(mem, 0));
      KeptWhenRemoved(multiset(es), es[i], extras);
      assert forall x :: x in multiset(es) - multiset{es[i]} ==> x in multiset(es);
      KeptWhenAdded(multiset(es) - multiset{es[i]}, Extra(mem, 0), extras);
      r := es[i := Extra(mem, 0)];
      assert PutFor(es, i, Extra(mem, 0), multiset(r));
    }
  }

  lemma KeptSize(es: multiset<Extra>, extras: seq<Buf>)
    requires Kept(es, extras)
    ensures |es| <= MAX_AUTO_EXTRAS
  {
  }

  class AutoDictionary {
    const extras: seq<Buf>                     // the user's tokens
    var autoExtras: seq<Extra>
    var autoChanged: bool
    ghost var offered: seq<Buf>                // every token handed to MaybeAddAuto

    ghost predicate Valid()
      reads this
    {
      && Tokens(extras) && SortedBySize(extras)
      && Kept(multiset(autoExtras), extras)
      && SortedBySize(UsedAuto(Datas(autoExtras)))
      && MostUsedFirst(autoExtras)
    }

    constructor (extras: seq<Buf>)
      requires Tokens(extras) && SortedBySize(extras)
      ensures Valid() && this.extras == extras && autoExtras == [] && offered == []
    {
      this.extras, autoExtras, autoChanged, offered := extras, [], false, [];
    }

    /** The lists are what the dictionary stages need. */
    lemma Lists()
      requires Valid()
      ensures Tokens(extras) && SortedBySize(extras)
      ensures Tokens(Datas(autoExtras)) && SortedBySize(UsedAuto(Datas(autoExtras)))
    {
      KeptAreTokens(autoExtras, extras);
    }

    /** Counts the token if it is known, else adds it, evicting one of the lower half when full. */
    method MaybeAddAuto(mem: Buf)
      requires Valid() && TokenSize(|mem|)
      modifies this
      ensures Valid() && offered == old(offered) + [mem]
      ensures Rejected(mem, extras) ==> autoExtras == old(autoExtras) && autoChanged == old(autoChanged)
      ensures !Rejected(mem, extras) ==> Added(old(autoExtras), multiset(autoExtras), mem) && autoChanged
      ensures forall t :: t in UsedAuto(Datas(old(autoExtras))) ==> t in Datas(autoExtras)
    {
      hide Kept, SortedBySize, UsedAuto, MostUsedFirst, Builtin, MatchesSome, Added, OneByteRepeated, Tokens;
      forall t | t in UsedAuto(Datas(autoExtras)) ensures t in Datas(autoExtras) { UsedIsListed(autoExtras, t); }
      offered := offered + [mem];
      var repeated := TestRepeated(mem);
      if repeated { return; }
      var builtin := TestBuiltin(mem);
      if builtin { return; }
      var known := TestExtras(mem, extras);
      if known { return; }
      autoChanged := true;
      ghost var before := autoExtras;
      var es := Count(autoExtras, mem, extras);
      autoExtras := SortAuto(es);
      forall t | t in UsedAuto(Datas(before)) ensures t in Datas(autoExtras) { UsedStay(before, autoExtras, mem, t); }
    }

    /** Hands over what was collected, if it is neither too short nor too long. */
    method Offer(collect: array<bv8>, len: nat)
      requires Valid() && collect.Length == MAX_AUTO_EXTRA
      modifies this
      ensures Valid() && offered == old(offered) + (if TokenSize(len) then [collect[..len]] else [])
    {
      hide Valid;
      if len >= MIN_AUTO_EXTRA && len <= MAX_AUTO_EXTRA { MaybeAddAuto(collect[..len]); }
    }

    /** What is done about byte `i` after its last bit was flipped: `ck` is the checksum of that
        execution, `usual` that of the unmodified input. The stretch of equal checksums before it, from
        `p` on, ends or goes on; `base` is what had been handed over before the stage. */
    method CollectByte(data: Buf, i: nat, ck: bv32, usual: bv32, collect: array<bv8>, len: nat, prev: bv32,
                       ghost cks: seq<bv32>, ghost p: nat, ghost base: seq<Buf>)
      returns (newLen: nat, newPrev: bv32, ghost newP: nat)
      requires Valid() && |data| == |cks| && i < |data| && ck == cks[i] && collect.Length == MAX_AUTO_EXTRA
      requires Collecting(data, cks, usual, i, p, len, prev, collect[..])
      requires offered == base + StretchTokens(data, cks, usual, p)
      modifies this, collect
      ensures Valid()
      ensures i == |data| - 1 ==> offered == base + StretchTokens(data, cks, usual, |data|)
      ensures i < |data| - 1 ==> Collecting(data, cks, usual, i + 1, newP, newLen, newPrev, collect[..])
      ensures i < |data| - 1 ==> newP <= |data| && offered == base + StretchTokens(data, cks, usual, newP)
    {
      hide Valid, StretchTokens, StretchStart;
      newLen, newPrev, newP := len, prev, p;
      if i == |data| - 1 && ck == prev {
        LastByte(data, cks, usual, p, len, prev, collect[..]);
        if newLen < MAX_AUTO_EXTRA { collect[newLen] := data[i]; }
        newLen := newLen + 1;
        Offer(collect, newLen);
      } else if ck != prev {
        StretchEnds(data, cks, usual, i, p, len, prev, collect[..]);
        Offer(collect, newLen);
        newLen, newPrev, newP := 0, ck, i;
        if i == |data| - 1 { LoneByte(data, cks, usual); }
      }
      if ck != usual {
        if newLen < MAX_AUTO_EXTRA { collect[newLen] := data[i]; }
        newLen := newLen + 1;
      }
      if i < |data| - 1 { StartMoves(cks, i, p); }
    }
  }

  /** Before byte `i`: `collect` holds the bytes of the stretch that began at `p`, as many as fit. */
  ghost predicate Collecting(data: Buf, cks: seq<bv32>, usual: bv32, i: nat, p: nat, len: nat, prev: bv32, collect: Buf)
    requires |data| == |cks| && i < |data|
  {
    && p <= i && |collect| == MAX_AUTO_EXTRA
    && (i == 0 ==> len == 0 && prev == usual)
    && (i > 0 ==> prev == cks[i - 1] && p == StretchStart(cks, i - 1) && len == if prev == usual then 0 else i - p)
    && (forall k :: 0 <= k < len && k < MAX_AUTO_EXTRA ==> collect[k] == data[p + k])
  }

  lemma StartMoves(cks: seq<bv32>, i: nat, p: nat)
    requires i < |cks|
    ensures StretchStart(cks, i) == if i == 0 || cks[i - 1] != cks[i] then i else StretchStart(cks, i - 1)
  {
  }

  /** No token ends inside a stretch. */
  lemma {:induction false} InsideStretch(data: Buf, cks: seq<bv32>, usual: bv32, p: nat, m: nat)
    requires |data| == |cks| && p <= m < |data| && forall k :: p <= k <= m ==> cks[k] == cks[p]
    ensures StretchTokens(data, cks, usual, m) == StretchTokens(data, cks, usual, p)
  {
    if p < m {
      InsideStretch(data, cks, usual, p, m - 1);
    }
  }

  /** A stretch that ends before byte `i`: what was collected is its token. */
  lemma StretchEnds(data: Buf, cks: seq<bv32>, usual: bv32, i: nat, p: nat, len: nat, prev: bv32, collect: Buf)
    requires |data| == |cks| && i < |data| && cks[i] != prev
    requires Collecting(data, cks, usual, i, p, len, prev, collect)
    ensures StretchTokens(data, cks, usual, i) ==
      StretchTokens(data, cks, usual, if i == 0 then 0 else p) + (if TokenSize(len) then [collect[..len]] else [])
  {
    hide StretchStart;
    if i > 0 {
      InsideStretch(data, cks, usual, p, i - 1);
      if TokenSize(len) { assert collect[..len] == data[p..i]; }
    }
  }

  lemma LastStart(cks: seq<bv32>, p: nat, prev: bv32)
    requires |cks| > 0 && cks[|cks| - 1] == prev
    requires |cks| > 1 ==> prev == cks[|cks| - 2] && p == StretchStart(cks, |cks| - 2)
    ensures |cks| > 1 ==> StretchStart(cks, |cks| - 1) == p
  {
  }

  lemma LastToken(data: Buf, cks: seq<bv32>, usual: bv32, p: nat, prev: bv32)
    requires |data| == |cks| > 0 && cks[|cks| - 1] == prev && p < |data|
    requires |cks| > 1 ==> prev == cks[|cks| - 2] && p == StretchStart(cks, |cks| - 2)
    ensures StretchTokens(data, cks, usual, |data|) == StretchTokens(data, cks, usual, p) +
      (if prev != usual && TokenSize(|data| - p) then [data[p..]] else [])
  {
    hide StretchStart;
    LastStart(cks, p, prev);
    InsideStretch(data, cks, usual, p, |data| - 1);
    assert data[p..] == data[p..|data|];
  }

  /** The last byte continues the stretch. */
  lemma LastByte(data: Buf, cks: seq<bv32>, usual: bv32, p: nat, len: nat, prev: bv32, collect: Buf)
    requires |data| == |cks| > 0 && cks[|data| - 1] == prev
    requires Collecting(data, cks, usual, |data| - 1, p, len, prev, collect)
    ensures var c := if len < MAX_AUTO_EXTRA then collect[len := data[|data| - 1]] else collect;
      StretchTokens(data, cks, usual, |data|) ==
        StretchTokens(data, cks, usual, p) + (if TokenSize(len + 1) then [c[..len + 1]] else [])
  {
    hide StretchStart, StretchTokens;
    var i := |data| - 1;
    LastToken(data, cks, usual, p, prev);
    if TokenSize(len + 1) {
      assert collect[len := data[i]][..len + 1] == data[p..];
    }
  }

  /** A last byte that begins a stretch of its own is too short for a token. */
  lemma LoneByte(data: Buf, cks: seq<bv32>, usual: bv32)
    requires |data| == |cks| > 0 && (|data| == 1 || cks[|data| - 1] != cks[|data| - 2])
    ensures StretchTokens(data, cks, usual, |data|) == StretchTokens(data, cks, usual, |data| - 1)
  {
  }

  method TestRepeated(mem: Buf) returns (yes: bool)
    ensures yes == OneByteRepeated(mem)
  {
    var i := 1;
    while i < |mem| && mem[0] == mem[i]
      invariant 1 <= i && (i <= |mem| || mem == []) && forall k :: 0 <= k < i && k < |mem| ==> mem[k] == mem[0]
    {
      i := i + 1;
    }
    return i >= |mem|;
  }

  // ---------- Finding tokens while flipping bits ----------

  /** A stretch of bytes whose flips all give one checksum, other than the usual one, and that cannot
      be made longer. `cks[i]` is the checksum with the last bit of byte `i` flipped. */
  ghost predicate IsStretch(cks: seq<bv32>, usual: bv32, p: nat, q: nat) {
    && p < q <= |cks| && cks[p] != usual
    && (forall k :: p <= k < q ==> cks[k] == cks[p])
    && (p > 0 ==> cks[p - 1] != cks[p]) && (q < |cks| ==> cks[q] != cks[p])
  }

  /** Where the stretch of equal checksums that holds byte `i` begins. */
  function StretchStart(cks: seq<bv32>, i: nat): (p: nat)
    requires i < |cks|
    ensures p <= i && (forall k :: p <= k <= i ==> cks[k] == cks[i]) && (p > 0 ==> cks[p - 1] != cks[p])
  {
    if i == 0 || cks[i - 1] != cks[i] then i else StretchStart(cks, i - 1)
  }

  /** The tokens of the stretches that end among the first `n` bytes. */
  ghost function StretchTokens(data: Buf, cks: seq<bv32>, usual: bv32, n: nat): seq<Buf>
    requires |data| == |cks| && n <= |data|
  {
    if n == 0 then []
    else
      var p := StretchStart(cks, n - 1);
      StretchTokens(data, cks, usual, n - 1) +
      Unless(!(cks[n - 1] != usual && (n == |cks| || cks[n] != cks[n - 1]) && TokenSize(n - p)), data[p..n])
  }

  /** The tokens are the longest stretches of a suitable size, all of them and nothing else. */
  lemma {:induction false} TokensAreStretches(data: Buf, cks: seq<bv32>, usual: bv32, n: nat, t: Buf)
    requires |data| == |cks| && n <= |data|
    ensures t in StretchTokens(data, cks, usual, n) <==>
      exists p: nat, q: nat :: q <= n && IsStretch(cks, usual, p, q) && TokenSize(q - p) && t == data[p..q]
  {
    if n > 0 {
      TokensAreStretches(data, cks, usual, n - 1, t);
      var s := StretchStart(cks, n - 1);
      if cks[n - 1] != usual && (n == |cks| || cks[n] != cks[n - 1]) {
        assert IsStretch(cks, usual, s, n);
      }
      forall p: nat | IsStretch(cks, usual, p, n)
        ensures p == s && cks[n - 1] != usual && (n == |cks| || cks[n] != cks[n - 1]) {
        assert cks[n - 1] == cks[p];
      }
    }
  }
}
