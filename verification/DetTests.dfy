/** What the three skip tests decide, said without the steps by which the program finds out. */
module DetTests {
  import opened Words
  import opened Redundancy

  // ---------- Bit flips ----------

  /** Moving `x` right by `n` places, where only zeros drop out, gives `y`. */
  predicate MovesTo(x: bv32, n: nat, y: bv32)
    decreases n
  {
    if n == 0 then x == y else x & 1 == 0 && MovesTo(x >> 1, n - 1, y)
  }

  /** One, two or four adjacent bits anywhere; or one, two or four whole bytes. */
  predicate FlipPattern(y: bv32, n: nat) {
    y == 0x1 || y == 0x3 || y == 0xf || (n % 8 == 0 && (y == 0xff || y == 0xffff || y == 0xffff_ffff))
  }

  lemma {:induction false} OddPartMoves(x: bv32)
    requires x != 0
    ensures MovesTo(x, OddPart(x).1, OddPart(x).0)
    decreases x
  {
    if x & 1 == 0 { OddPartMoves(x >> 1); }
  }

  lemma {:induction false} MovesToOdd(x: bv32, n: nat, y: bv32)
    requires x != 0 && MovesTo(x, n, y) && y & 1 != 0
    ensures OddPart(x) == (y, n)
    decreases n
  {
    if n > 0 { MovesToOdd(x >> 1, n - 1, y); }
  }

  lemma PatternIsOdd(y: bv32, n: nat)
    requires FlipPattern(y, n)
    ensures y & 1 != 0
  {
  }

  lemma BitflipMeans(x: bv32)
    ensures CouldBeBitflip(x) <==> x == 0 || exists n: nat, y: bv32 :: MovesTo(x, n, y) && FlipPattern(y, n)
  {
    hide OddPart, MovesTo;
    if x != 0 {
      OddPartMoves(x);
      var r := OddPart(x);
      assert CouldBeBitflip(x) <==> FlipPattern(r.0, r.1);
      forall n: nat, y: bv32 | MovesTo(x, n, y) && FlipPattern(y, n) ensures r == (y, n) {
        PatternIsOdd(y, n);
        MovesToOdd(x, n, y);
      }
    }
  }

  // ---------- Sums and differences ----------

  /** Among the first `n` bytes only byte `i` differs. */
  ghost predicate OnlyByte(o: bv32, v: bv32, n: nat, i: nat)
    requires n <= 4
  {
    i < n && Byte32(o, i) != Byte32(v, i) && forall k: nat :: k < n && k != i ==> Byte32(o, k) == Byte32(v, k)
  }

  ghost predicate OnlyHalf(o: bv32, v: bv32, n: nat, i: nat)
    requires n <= 2
  {
    i < n && Half(o, i) != Half(v, i) && forall k: nat :: k < n && k != i ==> Half(o, k) == Half(v, k)
  }

  /** A single byte changed by at most 35, around the byte; or a single half-word in either byte order; or
      the whole double word in either byte order. */
  ghost predicate SumPattern(o: bv32, v: bv32, w: nat)
    requires w == 1 || w == 2 || w == 4
  {
    || o == v
    || (exists i: nat :: OnlyByte(o, v, w, i) && Within8(Byte32(o, i), Byte32(v, i)))
    || (w > 1 && exists i: nat :: OnlyHalf(o, v, w / 2, i) && HalfWithin(Half(o, i), Half(v, i)))
    || (w == 4 && (Within32(o, v) || Within32(Swap32(o), Swap32(v))))
  }

  predicate HalfWithin(a: bv16, b: bv16) {
    Within16(a, b) || Within16(Swap16(a), Swap16(b))
  }

  predicate Within8(a: bv8, b: bv8) {
    a - b <= 35 || b - a <= 35
  }

  predicate Within16(a: bv16, b: bv16) {
    a - b <= 35 || b - a <= 35
  }

  predicate Within32(a: bv32, b: bv32) {
    a - b <= 35 || b - a <= 35
  }

  lemma {:induction false} DiffBytesMeans(o: bv32, v: bv32, n: nat)
    requires n <= 4
    ensures var d := DiffBytes(o, v, n);
      && (d.0 == 0 <==> forall k: nat :: k < n ==> Byte32(o, k) == Byte32(v, k))
      && (d.0 == 1 <==> exists i: nat :: OnlyByte(o, v, n, i))
      && (forall i: nat :: OnlyByte(o, v, n, i) ==> d.1 == Byte32(o, i) && d.2 == Byte32(v, i))
  {
    hide Byte32;
    if n > 0 {
      DiffBytesMeans(o, v, n - 1);
      var d := DiffBytes(o, v, n - 1);
      forall i: nat ensures OnlyByte(o, v, n, i) <==>
        (if Byte32(o, n - 1) == Byte32(v, n - 1) then OnlyByte(o, v, n - 1, i) else i == n - 1 && d.0 == 0)
      {
      }
      if Byte32(o, n - 1) != Byte32(v, n - 1) {
        assert d.0 == 0 ==> OnlyByte(o, v, n, n - 1);
      } else if d.0 == 1 {
        var i: nat :| OnlyByte(o, v, n - 1, i);
        assert OnlyByte(o, v, n, i);
      }
    }
  }

  lemma {:induction false} DiffHalvesMeans(o: bv32, v: bv32, n: nat)
    requires n <= 2
    ensures var d := DiffHalves(o, v, n);
      && (d.0 == 0 <==> forall k: nat :: k < n ==> Half(o, k) == Half(v, k))
      && (d.0 == 1 <==> exists i: nat :: OnlyHalf(o, v, n, i))
      && (forall i: nat :: OnlyHalf(o, v, n, i) ==> d.1 == Half(o, i) && d.2 == Half(v, i))
  {
    hide Half;
    if n > 0 {
      DiffHalvesMeans(o, v, n - 1);
      var d := DiffHalves(o, v, n - 1);
      forall i: nat ensures OnlyHalf(o, v, n, i) <==>
        (if Half(o, n - 1) == Half(v, n - 1) then OnlyHalf(o, v, n - 1, i) else i == n - 1 && d.0 == 0)
      {
      }
      if Half(o, n - 1) != Half(v, n - 1) {
        assert d.0 == 0 ==> OnlyHalf(o, v, n, n - 1);
      } else if d.0 == 1 {
        var i: nat :| OnlyHalf(o, v, n - 1, i);
        assert OnlyHalf(o, v, n, i);
      }
    }
  }

  lemma ArithMeans(o: bv32, v: bv32, w: nat)
    requires w == 1 || w == 2 || w == 4
    ensures CouldBeArith(o, v, w) <==> SumPattern(o, v, w)
  {
    DiffBytesMeans(o, v, w);
    if w > 1 { DiffHalvesMeans(o, v, w / 2); }
    NearIsWithin8(DiffBytes(o, v, w).1, DiffBytes(o, v, w).2);
    if w > 1 {
      var d := DiffHalves(o, v, w / 2);
      NearIsWithin16(d.1, d.2);
      NearIsWithin16(Swap16(d.1), Swap16(d.2));
    }
    NearIsWithin32(o, v);
    NearIsWithin32(Swap32(v), Swap32(o));
    Within32Symmetric(Swap32(v), Swap32(o));
    hide DiffBytes, DiffHalves, Byte32, Half, Near8, Near16, Near32, Within8, Within16, Within32, Swap16, Swap32;
    hide OnlyByte, OnlyHalf;
  }

  lemma NearIsWithin8(a: bv8, b: bv8)
    ensures Near8(a, b) <==> Within8(a, b)
  {
  }

  lemma NearIsWithin16(a: bv16, b: bv16)
    ensures Near16(a, b) <==> Within16(a, b)
  {
  }

  lemma NearIsWithin32(a: bv32, b: bv32)
    ensures Near32(a, b) <==> Within32(a, b)
  {
  }

  lemma Within32Symmetric(a: bv32, b: bv32)
    ensures Within32(a, b) <==> Within32(b, a)
  {
  }

  // ---------- Interesting values ----------

  /** Byte `i` of the new value is `b`, and the others are those of the old one. */
  ghost predicate ByteReplaced(o: bv32, v: bv32, i: nat, b: bv8)
    requires i < 4
  {
    Byte32(v, i) == b && forall k: nat :: k < 4 && k != i ==> Byte32(v, k) == Byte32(o, k)
  }

  /** Bytes `i` and `i + 1` of the new value are those of `h`, and the others those of the old one. */
  ghost predicate HalfReplaced(o: bv32, v: bv32, i: nat, h: bv16)
    requires i < 3
  {
    && Join16(Byte32(v, i), Byte32(v, i + 1)) == h
    && forall k: nat :: k < 4 && k != i && k != i + 1 ==> Byte32(v, k) == Byte32(o, k)
  }

  function Low(h: bv16): bv8 { (h & 0xff) as bv8 }
  function High(h: bv16): bv8 { (h >> 8) as bv8 }

  lemma WithByte0(a: bv8, b: bv8, c: bv8, d: bv8, n: bv8)
    ensures WithByte(Join32(a, b, c, d), 0, n) == Join32(n, b, c, d)
  {
  }

  lemma WithByte1(a: bv8, b: bv8, c: bv8, d: bv8, n: bv8)
    ensures WithByte(Join32(a, b, c, d), 1, n) == Join32(a, n, c, d)
  {
  }

  lemma WithByte2(a: bv8, b: bv8, c: bv8, d: bv8, n: bv8)
    ensures WithByte(Join32(a, b, c, d), 2, n) == Join32(a, b, n, d)
  {
  }

  lemma WithByte3(a: bv8, b: bv8, c: bv8, d: bv8, n: bv8)
    ensures WithByte(Join32(a, b, c, d), 3, n) == Join32(a, b, c, n)
  {
  }

  lemma JoinedBytes(o: bv32)
    ensures o == Join32(Byte32(o, 0), Byte32(o, 1), Byte32(o, 2), Byte32(o, 3))
  {
  }

  lemma WithHalf0(o: bv32, h: bv16)
    ensures var w := WithHalf(o, 0, h);
      Byte32(w, 0) == Low(h) && Byte32(w, 1) == High(h) && Byte32(w, 2) == Byte32(o, 2) && Byte32(w, 3) == Byte32(o, 3)
  {
  }

  lemma WithHalf1(o: bv32, h: bv16)
    ensures var w := WithHalf(o, 1, h);
      Byte32(w, 0) == Byte32(o, 0) && Byte32(w, 1) == Low(h) && Byte32(w, 2) == High(h) && Byte32(w, 3) == Byte32(o, 3)
  {
  }

  lemma WithHalf2(o: bv32, h: bv16)
    ensures var w := WithHalf(o, 2, h);
      Byte32(w, 0) == Byte32(o, 0) && Byte32(w, 1) == Byte32(o, 1) && Byte32(w, 2) == Low(h) && Byte32(w, 3) == High(h)
  {
  }

  lemma WithByteBytes(o: bv32, i: nat, n: bv8, k: nat)
    requires i < 4 && k < 4
    ensures Byte32(WithByte(o, i, n), k) == if k == i then n else Byte32(o, k)
  {
    hide Byte32, WithByte, Join32;
    assert (i == 0 || i == 1 || i == 2 || i == 3) && (k == 0 || k == 1 || k == 2 || k == 3);
    var a, b, c, d := Byte32(o, 0), Byte32(o, 1), Byte32(o, 2), Byte32(o, 3);
    JoinedBytes(o);
    match i
    case 0 => WithByte0(a, b, c, d, n); BytesOfJoin(n, b, c, d);
    case 1 => WithByte1(a, b, c, d, n); BytesOfJoin(a, n, c, d);
    case 2 => WithByte2(a, b, c, d, n); BytesOfJoin(a, b, n, d);
    case _ => WithByte3(a, b, c, d, n); BytesOfJoin(a, b, c, n);
  }

  lemma WithHalfBytes(o: bv32, i: nat, h: bv16, k: nat)
    requires i < 3 && k < 4
    ensures Byte32(WithHalf(o, i, h), k) == if k == i then Low(h) else if k == i + 1 then High(h) else Byte32(o, k)
  {
    hide Byte32, WithHalf, Low, High;
    assert k == 0 || k == 1 || k == 2 || k == 3;
    match i
    case 0 => WithHalf0(o, h);
    case 1 => WithHalf1(o, h);
    case _ => WithHalf2(o, h);
  }

  lemma BytesDetermine(v: bv32, w: bv32)
    requires Byte32(v, 0) == Byte32(w, 0) && Byte32(v, 1) == Byte32(w, 1)
    requires Byte32(v, 2) == Byte32(w, 2) && Byte32(v, 3) == Byte32(w, 3)
    ensures v == w
  {
  }

  lemma WithByteMeans(o: bv32, v: bv32, i: nat, b: bv8)
    requires i < 4
    ensures v == WithByte(o, i, b) <==> ByteReplaced(o, v, i, b)
  {
    hide Byte32, WithByte;
    var w := WithByte(o, i, b);
    forall k: nat | k < 4 ensures Byte32(w, k) == if k == i then b else Byte32(o, k) {
      WithByteBytes(o, i, b, k);
    }
    if ByteReplaced(o, v, i, b) {
      assert forall k: nat :: k < 4 ==> Byte32(v, k) == Byte32(w, k);
      BytesDetermine(v, w);
    }
  }

  lemma HalvesOfWord(a: bv8, b: bv8)
    ensures Low(Join16(a, b)) == a && High(Join16(a, b)) == b
  {
  }

  lemma WordOfHalves(h: bv16)
    ensures Join16(Low(h), High(h)) == h
  {
  }

  lemma WithHalfMeans(o: bv32, v: bv32, i: nat, h: bv16)
    requires i < 3
    ensures v == WithHalf(o, i, h) <==> HalfReplaced(o, v, i, h)
  {
    hide Byte32, WithHalf, Join16, Low, High;
    var w := WithHalf(o, i, h);
    forall k: nat | k < 4
      ensures Byte32(w, k) ==
        if k == i then Low(h) else if k == i + 1 then High(h) else Byte32(o, k)
    {
      WithHalfBytes(o, i, h, k);
    }
    HalvesOfWord(Byte32(v, i), Byte32(v, i + 1));
    WordOfHalves(h);
    if HalfReplaced(o, v, i, h) {
      assert forall k: nat :: k < 4 ==> Byte32(v, k) == Byte32(w, k);
      BytesDetermine(v, w);
    }
  }

  /** An interesting byte over one byte, or an interesting word over two, gives the value. Words are only looked
      at for double words, then in either byte order, or on request, when double words are looked at as well. */
  ghost predicate InterestPattern(o: bv32, v: bv32, w: nat, checkLe: bool)
    requires w == 2 || w == 4
  {
    || o == v
    || (exists i: nat, b: bv8 :: i < w && b in INTERESTING_8 && ByteReplaced(o, v, i, b))
    || ((w == 4 || checkLe) && exists i: nat, h: bv16 :: i < w - 1 && h in INTERESTING_16 && HalfReplaced(o, v, i, h))
    || (w == 4 &&
        exists i: nat, h: bv16 :: i < w - 1 && h in INTERESTING_16 && HalfReplaced(o, v, i, Swap16(h)))
    || (w == 4 && checkLe && v in INTERESTING_32)
  }

  lemma InterestMeans(o: bv32, v: bv32, w: nat, checkLe: bool)
    requires w == 2 || w == 4
    ensures CouldBeInterest(o, v, w, checkLe) <==> InterestPattern(o, v, w, checkLe)
  {
    hide WithByte, WithHalf, ByteReplaced, HalfReplaced, Swap16, INTERESTING_8, INTERESTING_16, INTERESTING_32;
    forall i: nat, b: bv8 | i < 4 ensures v == WithByte(o, i, b) <==> ByteReplaced(o, v, i, b) {
      WithByteMeans(o, v, i, b);
    }
    forall i: nat, h: bv16 | i < 3 ensures v == WithHalf(o, i, h) <==> HalfReplaced(o, v, i, h) {
      WithHalfMeans(o, v, i, h);
    }
  }
}
