/** The selection of favored entries, on values: `top[i]` is the winner of slot `i`, and `cover`
    gives the slots that an entry's compacted trace claims. */
module FavoredCover {
  import opened Wrappers

  ghost function Slots<E>(cover: map<E, set<nat>>, e: E): set<nat> {
    if e in cover then cover[e] else {}
  }

  /** The entries picked from slot `i` on, when the slots in `seen` are already covered. */
  ghost function Picks<E>(top: seq<Option<E>>, cover: map<E, set<nat>>, i: nat, seen: set<nat>): (p: seq<E>)
    requires i <= |top|
    ensures forall e :: e in p ==> Some(e) in top
    decreases |top| - i
  {
    if i == |top| then []
    else if top[i].Some? && i !in seen then
      [top[i].value] + Picks(top, cover, i + 1, seen + Slots(cover, top[i].value))
    else Picks(top, cover, i + 1, seen)
  }

  /** Every winner's compacted trace contains the slots it won. */
  ghost predicate Faithful<E>(top: seq<Option<E>>, cover: map<E, set<nat>>) {
    forall i: nat :: i < |top| && top[i].Some? ==> i in Slots(cover, top[i].value)
  }

  ghost predicate Covered<E>(picks: seq<E>, cover: map<E, set<nat>>, i: nat) {
    exists e :: e in picks && i in Slots(cover, e)
  }

  ghost predicate NoDuplicates<E>(s: seq<E>) {
    forall i, j :: 0 <= i < j < |s| ==> s[i] != s[j]
  }

  /** Whatever the traces were, every won slot is covered by a pick or its winner is a pick. */
  lemma {:induction false} PicksReach<E>(top: seq<Option<E>>, cover: map<E, set<nat>>, i: nat, seen: set<nat>)
    requires i <= |top|
    ensures var p := Picks(top, cover, i, seen);
      forall j: nat :: i <= j < |top| && top[j].Some? && j !in seen ==>
        Covered(p, cover, j) || top[j].value in p
    decreases |top| - i
  {
    if i < |top| {
      var p := Picks(top, cover, i, seen);
      if top[i].Some? && i !in seen {
        var e := top[i].value;
        var rest := Picks(top, cover, i + 1, seen + Slots(cover, e));
        PicksReach(top, cover, i + 1, seen + Slots(cover, e));
        assert p == [e] + rest && p[0] == e;
        forall j: nat | i <= j < |top| && top[j].Some? && j !in seen
          ensures Covered(p, cover, j) || top[j].value in p
        {
          if j != i && j !in Slots(cover, e) && Covered(rest, cover, j) {
            var e' :| e' in rest && j in Slots(cover, e');
            assert e' in p;
          }
        }
      } else {
        PicksReach(top, cover, i + 1, seen);
      }
    }
  }

  /** Faithful traces: every won slot is covered, and no entry is picked twice. */
  lemma {:induction false} PicksExact<E>(top: seq<Option<E>>, cover: map<E, set<nat>>, i: nat, seen: set<nat>)
    requires i <= |top| && Faithful(top, cover)
    ensures var p := Picks(top, cover, i, seen);
      && NoDuplicates(p)
      && (forall j: nat :: i <= j < |top| && top[j].Some? && j !in seen ==> Covered(p, cover, j))
      && (forall e :: e in p ==> exists j: nat :: i <= j < |top| && top[j] == Some(e) && j !in seen)
    decreases |top| - i
  {
    if i < |top| {
      var p := Picks(top, cover, i, seen);
      if top[i].Some? && i !in seen {
        var e := top[i].value;
        var seen' := seen + Slots(cover, e);
        var rest := Picks(top, cover, i + 1, seen');
        PicksExact(top, cover, i + 1, seen');
        assert p == [e] + rest;
        assert e !in rest;
        forall j: nat | i <= j < |top| && top[j].Some? && j !in seen
          ensures Covered(p, cover, j)
        {
          if j == i || j in Slots(cover, e) {
            assert e in p && j in Slots(cover, e);
          } else {
            var e' :| e' in rest && j in Slots(cover, e');
            assert e' in p;
          }
        }
      } else {
        PicksExact(top, cover, i + 1, seen);
      }
    }
  }

  // ---------- When an entry is picked more than once ----------

  /** The slots already covered when the selection reaches slot `i`. */
  ghost function Seen<E>(top: seq<Option<E>>, cover: map<E, set<nat>>, i: nat): set<nat>
    requires i <= |top|
  {
    if i == 0 then {}
    else
      var s := Seen(top, cover, i - 1);
      if top[i - 1].Some? && i - 1 !in s then s + Slots(cover, top[i - 1].value) else s
  }

  /** Entry `e` owns slot `i`, which is not covered when the selection reaches it. */
  ghost predicate OwnsUnseen<E>(top: seq<Option<E>>, cover: map<E, set<nat>>, e: E, i: nat) {
    i < |top| && top[i] == Some(e) && i !in Seen(top, cover, i)
  }

  ghost predicate OwnsOneUnseen<E>(top: seq<Option<E>>, cover: map<E, set<nat>>, e: E, i: nat) {
    exists a: nat :: i <= a && OwnsUnseen(top, cover, e, a)
  }

  ghost predicate OwnsTwoUnseen<E>(top: seq<Option<E>>, cover: map<E, set<nat>>, e: E, i: nat) {
    exists a: nat, b: nat :: i <= a < b && OwnsUnseen(top, cover, e, a) && OwnsUnseen(top, cover, e, b)
  }

  lemma OwnsNext<E>(top: seq<Option<E>>, cover: map<E, set<nat>>, e: E, i: nat)
    ensures OwnsOneUnseen(top, cover, e, i) <==> OwnsUnseen(top, cover, e, i) || OwnsOneUnseen(top, cover, e, i + 1)
    ensures OwnsTwoUnseen(top, cover, e, i) <==>
      (OwnsUnseen(top, cover, e, i) && OwnsOneUnseen(top, cover, e, i + 1)) || OwnsTwoUnseen(top, cover, e, i + 1)
  {
    hide OwnsUnseen;
  }

  /** How often the selection picks an entry. */
  lemma {:induction false} PicksOf<E>(top: seq<Option<E>>, cover: map<E, set<nat>>, e: E, i: nat)
    requires i <= |top|
    ensures var p := Picks(top, cover, i, Seen(top, cover, i));
      && (multiset(p)[e] >= 1 <==> OwnsOneUnseen(top, cover, e, i))
      && (Repeated(p, e) <==> OwnsTwoUnseen(top, cover, e, i))
    decreases |top| - i
  {
    if i < |top| {
      var s := Seen(top, cover, i);
      var p, rest := Picks(top, cover, i, s), Picks(top, cover, i + 1, Seen(top, cover, i + 1));
      PicksOf(top, cover, e, i + 1);
      OwnsNext(top, cover, e, i);
      hide OwnsOneUnseen, OwnsTwoUnseen;
      if top[i].Some? && i !in s {
        assert p == [top[i].value] + rest;
        assert multiset(p)[e] == multiset(rest)[e] + (if top[i].value == e then 1 else 0);
        assert OwnsUnseen(top, cover, e, i) <==> top[i].value == e;
      } else {
        assert p == rest && !OwnsUnseen(top, cover, e, i);
      }
    }
  }

  ghost predicate Repeated<E>(s: seq<E>, e: E) {
    multiset(s)[e] >= 2
  }

  /** A sequence has duplicates exactly if some element occurs at least twice. */
  lemma {:induction false} RepeatsAre<E>(s: seq<E>)
    ensures NoDuplicates(s) <==> forall e :: !Repeated(s, e)
  {
    if s != [] {
      var s', x := s[..|s| - 1], s[|s| - 1];
      RepeatsAre(s');
      assert s == s' + [x];
      assert forall e :: multiset(s)[e] == multiset(s')[e] + (if e == x then 1 else 0);
      if x in s' {
        var i :| 0 <= i < |s'| && s'[i] == x;
        assert s[i] == s[|s| - 1];
        assert Repeated(s, x);
      } else {
        assert forall i :: 0 <= i < |s'| ==> s[i] == s'[i] && s[i] != x;
        assert multiset(s')[x] == 0;
        assert NoDuplicates(s) <==> NoDuplicates(s');
        assert forall e :: Repeated(s, e) <==> Repeated(s', e);
      }
    }
  }

  /** Exactly when no entry is picked, and counted, twice. */
  lemma PicksDistinct<E>(top: seq<Option<E>>, cover: map<E, set<nat>>)
    ensures NoDuplicates(Picks(top, cover, 0, {})) <==> forall e :: !OwnsTwoUnseen(top, cover, e, 0)
  {
    RepeatsAre(Picks(top, cover, 0, {}));
    forall e ensures Repeated(Picks(top, cover, 0, {}), e) <==> OwnsTwoUnseen(top, cover, e, 0) {
      PicksOf(top, cover, e, 0);
    }
  }

  ghost function ElementsOf<E>(s: seq<E>): set<E> {
    set e | e in s
  }

  /** A sequence is as long as its set of elements exactly when nothing repeats. */
  lemma {:induction false} CountDistinct<E>(s: seq<E>)
    ensures |ElementsOf(s)| <= |s|
    ensures |ElementsOf(s)| == |s| <==> NoDuplicates(s)
  {
    if s != [] {
      var s', x := s[..|s| - 1], s[|s| - 1];
      CountDistinct(s');
      assert s == s' + [x];
      assert ElementsOf(s) == ElementsOf(s') + {x};
      if x in s' {
        var i :| 0 <= i < |s'| && s'[i] == x;
        assert s[i] == s[|s| - 1];
      } else if !NoDuplicates(s') {
        var i, j :| 0 <= i < j < |s'| && s'[i] == s'[j];
        assert s[i] == s[j];
      }
    }
  }
}
