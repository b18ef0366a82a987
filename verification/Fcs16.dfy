/** The frame check sequence of p16_ppp.c: a 16-bit cyclic redundancy check, one bit at a
    time, lowest bit first. */
module Fcs16 {
  type B8 = bv8
  type B16 = bv16

  function Half(x: B16): B16 { x >> 1 }

  function Xor(x: B16, y: B16): B16 { x ^ y }

  predicate Odd(x: B16) { x & 1 == 1 }

  /** The check register takes in one bit. */
  function StepBit(crc: B16, bit: bool): B16 {
    if Odd(crc) != bit then Xor(Half(crc), 0x8408) else Half(crc)
  }

  /** The lowest n bits of a value, lowest first. */
  function Bits(b: B16, n: nat): (s: seq<bool>)
    ensures |s| == n
  { if n == 0 then [] else [Odd(b)] + Bits(Half(b), n - 1) }

  function ByteBits(b: B8): seq<bool> { Bits(b as B16, 8) }

  function RunBits(crc: B16, bits: seq<bool>): B16
    decreases |bits|
  { if bits == [] then crc else RunBits(StepBit(crc, bits[0]), bits[1..]) }

  function Stream(s: seq<B8>): seq<bool> {
    if s == [] then [] else ByteBits(s[0]) + Stream(s[1..])
  }

  /** The check value of a sequence of bytes, from a given register value. */
  function Fcs(crc: B16, s: seq<B8>): B16 { RunBits(crc, Stream(s)) }

  const INITIAL: B16 := 0xffff
  const RESIDUE: B16 := 0xf0b8

  method PppCrc16(crc0: B16, b0: B8) returns (crc: B16)
    ensures crc == RunBits(crc0, ByteBits(b0))
  {
    hide Half, Odd;
    crc := crc0;
    var b := b0;
    for i := 0 to 8
      invariant RunBits(crc, Bits(b as B16, 8 - i)) == RunBits(crc0, ByteBits(b0))
    {
      ByteHalf(b);
      assert Bits(b as B16, 8 - i)[1..] == Bits((b >> 1) as B16, 7 - i);
      StepIs(crc, b);
      if (crc ^ (b as B16)) & 1 == 1 {
        crc := (crc >> 1) ^ 0x8408;
      } else {
        crc := crc >> 1;
      }
      b := b >> 1;
    }
  }

  lemma ByteHalf(b: B8)
    ensures (b >> 1) as B16 == Half(b as B16)
  {}

  /** The test and the two branches of the program's loop. */
  lemma StepIs(crc: B16, b: B8)
    ensures (crc ^ (b as B16)) & 1 == 1 <==> Odd(crc) != Odd(b as B16)
    ensures StepBit(crc, !Odd(crc)) == (crc >> 1) ^ 0x8408 && StepBit(crc, Odd(crc)) == crc >> 1
  {}

  // ---- Runs ----

  lemma {:induction false} RunBitsSplit(crc: B16, s: seq<bool>, t: seq<bool>)
    ensures RunBits(crc, s + t) == RunBits(RunBits(crc, s), t)
    decreases |s|
  {
    if s == [] {
      assert s + t == t;
    } else {
      RunBitsSplit(StepBit(crc, s[0]), s[1..], t);
      assert (s + t)[1..] == s[1..] + t;
    }
  }

  lemma {:induction false} StreamSplit(s: seq<B8>, t: seq<B8>)
    ensures Stream(s + t) == Stream(s) + Stream(t)
  {
    hide ByteBits;
    if s == [] {
      assert s + t == t;
    } else {
      StreamSplit(s[1..], t);
      assert (s + t)[1..] == s[1..] + t && (s + t)[0] == s[0];
      Regroup(ByteBits(s[0]), Stream(s[1..]), Stream(t));
    }
  }

  lemma Regroup(x: seq<bool>, y: seq<bool>, z: seq<bool>)
    ensures x + (y + z) == (x + y) + z
  {}

  lemma FcsSplit(crc: B16, s: seq<B8>, t: seq<B8>)
    ensures Fcs(crc, s + t) == Fcs(Fcs(crc, s), t)
  {
    StreamSplit(s, t);
    RunBitsSplit(crc, Stream(s), Stream(t));
  }

  lemma FcsOne(crc: B16, b: B8)
    ensures Fcs(crc, [b]) == RunBits(crc, ByteBits(b))
  {
    hide ByteBits, RunBits;
    assert [b][1..] == [];
    assert Stream([b]) == ByteBits(b) + Stream([]) == ByteBits(b);
  }

  // ---- Error detection ----

  lemma HalfLinear(x: B16, y: B16)
    ensures Xor(Half(x), Half(y)) == Half(Xor(x, y))
  {}

  lemma OddLinear(x: B16, y: B16)
    ensures Odd(Xor(x, y)) <==> Odd(x) != Odd(y)
  {}

  lemma RawCancel(x: B16, y: B16, p: B16)
    ensures (x ^ p) ^ (y ^ p) == x ^ y
  {}

  lemma CancelBoth(x: B16, y: B16, p: B16)
    ensures Xor(Xor(x, p), Xor(y, p)) == Xor(x, y)
  {
    hide Xor;
    RawCancel(x, y, p);
    XorIs(x, p);
    XorIs(y, p);
    XorIs(x ^ p, y ^ p);
    XorIs(x, y);
  }

  lemma RawLeft(x: B16, y: B16, p: B16)
    ensures (x ^ p) ^ y == (x ^ y) ^ p
  {}

  lemma RawRight(x: B16, y: B16, p: B16)
    ensures x ^ (y ^ p) == (x ^ y) ^ p
  {}

  lemma XorIs(x: B16, y: B16)
    ensures Xor(x, y) == x ^ y
  {}

  lemma CarryLeft(x: B16, y: B16, p: B16)
    ensures Xor(Xor(x, p), y) == Xor(Xor(x, y), p)
  {
    hide Xor;
    XorIs(x, p);
    XorIs(x ^ p, y);
    XorIs(x, y);
    XorIs(x ^ y, p);
    RawLeft(x, y, p);
  }

  lemma CarryRight(x: B16, y: B16, p: B16)
    ensures Xor(x, Xor(y, p)) == Xor(Xor(x, y), p)
  {
    hide Xor;
    XorIs(y, p);
    XorIs(x, y ^ p);
    XorIs(x, y);
    XorIs(x ^ y, p);
    RawRight(x, y, p);
  }

  /** The difference of two registers moves like a register. */
  lemma StepLinear(x: B16, y: B16, p: bool, q: bool)
    ensures Xor(StepBit(x, p), StepBit(y, q)) == StepBit(Xor(x, y), p != q)
  {
    hide Half, Odd, Xor;
    HalfLinear(x, y);
    OddLinear(x, y);
    CancelBoth(Half(x), Half(y), 0x8408);
    CarryLeft(Half(x), Half(y), 0x8408);
    CarryRight(Half(x), Half(y), 0x8408);
  }

  lemma XorZero(x: B16, y: B16)
    ensures Xor(x, y) == 0 <==> x == y
  {}

  lemma HalfOf(d: B16)
    ensures Xor(Half(d), 0x8408) != 0
    ensures Half(d) == 0 ==> d == 0 || Odd(d)
  {}

  /** A step loses nothing: a difference stays a difference. */
  lemma StepKeeps(x: B16, y: B16, bit: bool)
    requires x != y
    ensures StepBit(x, bit) != StepBit(y, bit)
  {
    hide Half, Odd, Xor;
    StepLinear(x, y, bit, bit);
    XorZero(x, y);
    XorZero(StepBit(x, bit), StepBit(y, bit));
    HalfOf(Xor(x, y));
  }

  lemma {:induction false} SameTail(x: B16, y: B16, bits: seq<bool>)
    requires x != y
    ensures RunBits(x, bits) != RunBits(y, bits)
    decreases |bits|
  {
    hide StepBit;
    if bits != [] {
      StepKeeps(x, y, bits[0]);
      SameTail(StepBit(x, bits[0]), StepBit(y, bits[0]), bits[1..]);
    }
  }

  predicate AtLeast(d: B16, t: B16) { d >= t }

  lemma HalfOrder(d: B16, t: B16)
    requires AtLeast(d, t)
    ensures AtLeast(Half(d), Half(t)) && AtLeast(Xor(Half(d), 0x8408), Half(t))
  {}

  /** A difference of at least t is at least t / 2 after a step, whatever comes in. */
  lemma StepShrinks(d: B16, t: B16, bit: bool)
    requires AtLeast(d, t)
    ensures AtLeast(StepBit(d, bit), Half(t))
  {
    hide Half, Odd, Xor, AtLeast;
    HalfOrder(d, t);
  }

  /** t can be halved n times before it vanishes. */
  predicate Lasts(t: B16, n: nat) { if n == 0 then t != 0 else Lasts(Half(t), n - 1) }

  lemma {:induction false} StillDiffer(x: B16, y: B16, t: B16, v: seq<bool>, w: seq<bool>)
    requires |v| == |w| && AtLeast(Xor(x, y), t) && Lasts(t, |v|)
    ensures RunBits(x, v) != RunBits(y, w)
    decreases |v|
  {
    hide StepBit, Half, Xor, AtLeast;
    if v == [] {
      XorZero(x, y);
      NotBelow(Xor(x, y), t);
    } else {
      StepLinear(x, y, v[0], w[0]);
      StepShrinks(Xor(x, y), t, v[0] != w[0]);
      StillDiffer(StepBit(x, v[0]), StepBit(y, w[0]), Half(t), v[1..], w[1..]);
    }
  }

  lemma NotBelow(d: B16, t: B16)
    requires AtLeast(d, t) && t != 0
    ensures d != 0
  {}

  /** The top bit, which every difference that enters sets, lasts 15 steps. */
  lemma TopBitLasts(n: nat)
    requires n <= 15
    ensures Lasts(0x8000, n)
  {
    assert Half(0x8000) == 0x4000 && Half(0x4000) == 0x2000 && Half(0x2000) == 0x1000;
    assert Half(0x1000) == 0x800 && Half(0x800) == 0x400 && Half(0x400) == 0x200;
    assert Half(0x200) == 0x100 && Half(0x100) == 0x80 && Half(0x80) == 0x40;
    assert Half(0x40) == 0x20 && Half(0x20) == 0x10 && Half(0x10) == 8;
    assert Half(8) == 4 && Half(4) == 2 && Half(2) == 1;
    hide Half;
    assert Lasts(1, 0);
    assert Lasts(2, 0) && Lasts(2, 1);
    assert Lasts(4, 0) && Lasts(4, 1) && Lasts(4, 2);
    assert forall k: nat :: k <= 3 ==> Lasts(8, k) by { LastsUp(8, 4, 2); }
    LastsUp(16, 8, 3);
    LastsUp(0x20, 0x10, 4);
    LastsUp(0x40, 0x20, 5);
    LastsUp(0x80, 0x40, 6);
    LastsUp(0x100, 0x80, 7);
    LastsUp(0x200, 0x100, 8);
    LastsUp(0x400, 0x200, 9);
    LastsUp(0x800, 0x400, 10);
    LastsUp(0x1000, 0x800, 11);
    LastsUp(0x2000, 0x1000, 12);
    LastsUp(0x4000, 0x2000, 13);
    LastsUp(0x8000, 0x4000, 14);
  }

  lemma LastsUp(t: B16, h: B16, n: nat)
    requires t != 0 && Half(t) == h && forall k: nat :: k <= n ==> Lasts(h, k)
    ensures forall k: nat :: k <= n + 1 ==> Lasts(t, k)
  {}

  lemma PolyTop(h: B16)
    ensures AtLeast(Xor(Xor(h, 0x8408), h), 0x8000) && AtLeast(Xor(h, Xor(h, 0x8408)), 0x8000)
  {
    assert (h ^ 0x8408) ^ h == 0x8408 && h ^ (h ^ 0x8408) == 0x8408;
  }

  lemma DifferentBits(x: B16, p: bool, q: bool)
    requires p != q
    ensures AtLeast(Xor(StepBit(x, p), StepBit(x, q)), 0x8000)
  {
    hide Half, Odd, Xor, AtLeast;
    PolyTop(Half(x));
  }

  /** Sixteen bits are told apart, from any register value. */
  lemma {:induction false} Window(x: B16, v: seq<bool>, w: seq<bool>)
    requires |v| == |w| <= 16 && v != w
    ensures RunBits(x, v) != RunBits(x, w)
    decreases |v|
  {
    hide StepBit, Xor, AtLeast;
    if v[0] == w[0] {
      assert v == [v[0]] + v[1..] && w == [w[0]] + w[1..];
      Window(StepBit(x, v[0]), v[1..], w[1..]);
    } else {
      DifferentBits(x, v[0], w[0]);
      TopBitLasts(|v| - 1);
      StillDiffer(StepBit(x, v[0]), StepBit(x, w[0]), 0x8000, v[1..], w[1..]);
    }
  }

  /** Two frames differ in a burst of at most 16 bits, wherever it starts. */
  predicate Burst(f: seq<B8>, g: seq<B8>, before: seq<bool>, v: seq<bool>, w: seq<bool>, after: seq<bool>) {
    && Stream(f) == before + v + after && Stream(g) == before + w + after
    && |v| == |w| <= 16 && v != w
  }

  /** Every burst error of at most 16 bits, in a frame of any length, changes the check
      value: if one frame leaves the good residue, the other does not. */
  lemma BurstDetected(crc: B16, f: seq<B8>, g: seq<B8>, before: seq<bool>, v: seq<bool>, w: seq<bool>, after: seq<bool>)
    requires Burst(f, g, before, v, w, after)
    ensures Fcs(crc, f) != Fcs(crc, g)
  {
    hide RunBits, Stream;
    var x := RunBits(crc, before);
    RunBitsSplit(crc, before + v, after);
    RunBitsSplit(crc, before, v);
    RunBitsSplit(crc, before + w, after);
    RunBitsSplit(crc, before, w);
    Window(x, v, w);
    SameTail(RunBits(x, v), RunBits(x, w), after);
  }

  /** b has no more than n bits. */
  predicate Fits(b: B16, n: nat) { if n == 0 then b == 0 else Fits(Half(b), n - 1) }

  lemma ByteFits(b: B8)
    ensures Fits(b as B16, 8)
  {
    var b2 := Half(Half(b as B16));
    var b4 := Half(Half(b2));
    var b6 := Half(Half(b4));
    assert Half(Half(b6)) == 0;
    hide Half;
    assert Fits(Half(Half(b6)), 0);
    assert Fits(Half(b6), 1);
    assert Fits(b6, 2) && Fits(Half(b4), 3);
    assert Fits(b4, 4) && Fits(Half(b2), 5);
    assert Fits(b2, 6) && Fits(Half(b as B16), 7);
  }

  lemma SameValue(b: B16, c: B16)
    requires Odd(b) == Odd(c) && Half(b) == Half(c)
    ensures b == c
  {}

  /** The bits of a value determine it. */
  lemma {:induction false} BitsDetermine(b: B16, c: B16, n: nat)
    requires Bits(b, n) == Bits(c, n) && Fits(b, n) && Fits(c, n)
    ensures b == c
    decreases n
  {
    hide Half, Odd;
    if n > 0 {
      assert Bits(b, n)[0] == Bits(c, n)[0] && Bits(b, n)[1..] == Bits(c, n)[1..];
      BitsDetermine(Half(b), Half(c), n - 1);
      SameValue(b, c);
    }
  }

  lemma BytesDiffer(b: B8, c: B8)
    requires ByteBits(b) == ByteBits(c)
    ensures b == c
  {
    ByteFits(b);
    ByteFits(c);
    BitsDetermine(b as B16, c as B16, 8);
  }

  lemma TwoBytes(s: seq<B8>, b1: B8, b2: B8, t: seq<B8>)
    ensures Stream(s + [b1, b2] + t) == Stream(s) + (ByteBits(b1) + ByteBits(b2)) + Stream(t)
  {
    hide ByteBits;
    StreamSplit(s + [b1, b2], t);
    StreamSplit(s, [b1, b2]);
    assert [b1, b2][1..] == [b2] && [b2][1..] == [];
    assert Stream([b2]) == ByteBits(b2) + Stream([]);
  }

  /** Changing two adjacent bytes, or one of them, is always detected. */
  lemma TwoBytesDetected(crc: B16, s: seq<B8>, t: seq<B8>, b1: B8, b2: B8, c1: B8, c2: B8)
    requires b1 != c1 || b2 != c2
    ensures Fcs(crc, s + [b1, b2] + t) != Fcs(crc, s + [c1, c2] + t)
  {
    hide Fcs, Bits, Stream;
    var v, w := ByteBits(b1) + ByteBits(b2), ByteBits(c1) + ByteBits(c2);
    TwoBytes(s, b1, b2, t);
    TwoBytes(s, c1, c2, t);
    if v == w {
      assert v[..8] == ByteBits(b1) && w[..8] == ByteBits(c1);
      assert v[8..] == ByteBits(b2) && w[8..] == ByteBits(c2);
      BytesDiffer(b1, c1);
      BytesDiffer(b2, c2);
      assert false;
    }
    BurstDetected(crc, s + [b1, b2] + t, s + [c1, c2] + t, Stream(s), v, w, Stream(t));
  }

  // ---- The residue ----

  function Halves(d: B16, n: nat): B16 { if n == 0 then d else Halves(Half(d), n - 1) }

  lemma OddOnly(d: B16)
    ensures StepBit(d, Odd(d)) == Half(d)
  {}

  /** v and w differ exactly where d says. */
  predicate Apart(v: seq<bool>, w: seq<bool>, d: seq<bool>)
    decreases |v|
  {
    |v| == |w| == |d| && (v == [] || ((v[0] != w[0]) == d[0] && Apart(v[1..], w[1..], d[1..])))
  }

  lemma {:induction false} ApartFromZeros(v: seq<bool>)
    ensures Apart(v, Zeros(|v|), v)
    decreases |v|
  {
    if v != [] {
      assert Zeros(|v|)[1..] == Zeros(|v| - 1);
      ApartFromZeros(v[1..]);
    }
  }

  /** A register fed with the bits of its own difference from another loses it. */
  lemma {:induction false} FeedDifference(x: B16, y: B16, v: seq<bool>, w: seq<bool>, n: nat)
    requires |v| == n && Apart(v, w, Bits(Xor(x, y), n))
    ensures Xor(RunBits(x, v), RunBits(y, w)) == Halves(Xor(x, y), n)
    decreases n
  {
    hide Half, Odd, Xor, StepBit;
    if n > 0 {
      StepLinear(x, y, v[0], w[0]);
      OddOnly(Xor(x, y));
      FeedDifference(StepBit(x, v[0]), StepBit(y, w[0]), v[1..], w[1..], n - 1);
    }
  }

  function Zeros(n: nat): (s: seq<bool>)
    ensures |s| == n
  { seq(n, _ => false) }

  lemma ZeroStep(x: B16, n: nat)
    requires n > 0
    ensures RunBits(x, Zeros(n)) == RunBits(StepBit(x, false), Zeros(n - 1))
  {
    assert Zeros(n)[1..] == Zeros(n - 1);
  }

  lemma SixteenZeros()
    ensures RunBits(INITIAL, Zeros(16)) == RESIDUE
  {
    StepsFrom(0xffff, 0xfbf7, 0xf9f3, 0xf8f1, 0xf870, 16);
    StepsFrom(0xf870, 0x7c38, 0x3e1c, 0x1f0e, 0x0f87, 12);
    StepsFrom(0x0f87, 0x83cb, 0xc5ed, 0xe6fe, 0x737f, 8);
    StepsFrom(0x737f, 0xbdb7, 0xdad3, 0xe961, 0xf0b8, 4);
  }

  lemma StepsFrom(a: B16, b: B16, c: B16, d: B16, e: B16, n: nat)
    requires StepBit(a, false) == b && StepBit(b, false) == c && StepBit(c, false) == d && StepBit(d, false) == e
    requires n >= 4
    ensures RunBits(a, Zeros(n)) == RunBits(e, Zeros(n - 4))
  {
    hide StepBit;
    ZeroStep(a, n);
    ZeroStep(b, n - 1);
    ZeroStep(c, n - 2);
    ZeroStep(d, n - 3);
  }

  lemma {:induction false} BitsSplit(d: B16, m: nat, n: nat)
    ensures Bits(d, m + n) == Bits(d, m) + Bits(Halves(d, m), n)
    decreases m
  {
    hide Half, Odd;
    if m > 0 { BitsSplit(Half(d), m - 1, n); }
  }

  lemma FourHalves(d: B16, n: nat)
    requires n >= 4
    ensures Halves(d, n) == Halves(d >> 4, n - 4)
  {
    assert Half(Half(Half(Half(d)))) == d >> 4;
    hide Half;
    assert Halves(d, n) == Halves(Half(d), n - 1) == Halves(Half(Half(d)), n - 2);
    assert Halves(Half(Half(d)), n - 2) == Halves(Half(Half(Half(d))), n - 3);
  }

  lemma EightHalves(d: B16)
    ensures Halves(d, 8) == d >> 8
    ensures Halves(d, 16) == 0
  {
    FourHalves(d, 8);
    FourHalves(d >> 4, 4);
    FourHalves(d, 16);
    FourHalves(d >> 4, 12);
    FourHalves(d >> 8, 8);
    FourHalves(d >> 12, 4);
    assert (d >> 4) >> 4 == d >> 8 && (d >> 8) >> 4 == d >> 12 && (d >> 12) >> 4 == 0;
  }

  /** n ones, lowest first. */
  predicate Ones(m: B16, n: nat) { n == 0 || (Odd(m) && Ones(Half(m), n - 1)) }

  lemma MaskedHalf(d: B16, m: B16)
    ensures (d & m) >> 1 == (d >> 1) & (m >> 1)
  {}

  lemma MaskedOdd(d: B16, m: B16)
    requires m & 1 == 1
    ensures (d & m) & 1 == d & 1
  {}

  lemma MaskStep(d: B16, e: B16, m: B16)
    requires d & m == e & m && Odd(m)
    ensures Odd(d) == Odd(e) && Half(d) & Half(m) == Half(e) & Half(m)
  {
    MaskedHalf(d, m);
    MaskedHalf(e, m);
    MaskedOdd(d, m);
    MaskedOdd(e, m);
  }

  lemma {:induction false} MaskedBits(d: B16, e: B16, m: B16, n: nat)
    requires d & m == e & m && Ones(m, n)
    ensures Bits(d, n) == Bits(e, n)
    decreases n
  {
    hide Half, Odd;
    if n > 0 {
      MaskStep(d, e, m);
      MaskedBits(Half(d), Half(e), Half(m), n - 1);
    }
  }

  lemma EightOnes()
    ensures Ones(0xff, 8)
  {
    assert Half(0xff) == 0x7f && Half(0x7f) == 0x3f && Half(0x3f) == 0x1f && Half(0x1f) == 0xf;
    assert Half(0xf) == 7 && Half(7) == 3 && Half(3) == 1;
    assert Ones(0xf, 4);
    assert Ones(0x1f, 5);
  }

  /** The two bytes sent after a frame: its check value's complement, low byte first. */
  function LowByte(crc: B16): B8 { !((crc & 0xff) as B8) }

  function HighByte(crc: B16): B8 { !((crc >> 8) as B8) }

  lemma SentBits(crc: B16)
    ensures ByteBits(LowByte(crc)) + ByteBits(HighByte(crc)) == Bits(Xor(crc, INITIAL), 16)
  {
    var d := Xor(crc, INITIAL);
    BitsSplit(d, 8, 8);
    EightHalves(d);
    EightOnes();
    ComplementBytes(crc);
    MaskedBits(d, LowByte(crc) as B16, 0xff, 8);
  }

  lemma ComplementBytes(crc: B16)
    ensures Xor(crc, INITIAL) & 0xff == (LowByte(crc) as B16) & 0xff
    ensures Xor(crc, INITIAL) >> 8 == HighByte(crc) as B16
  {}

  /** Whatever precedes it, the complement of the check value leaves the good residue. */
  lemma SealedResidue(crc: B16)
    ensures Fcs(crc, [LowByte(crc), HighByte(crc)]) == RESIDUE
  {
    hide Xor, StepBit, LowByte, HighByte, ByteBits, Halves;
    var lo, hi := LowByte(crc), HighByte(crc);
    var v := ByteBits(lo) + ByteBits(hi);
    assert [lo, hi][1..] == [hi] && [hi][1..] == [];
    assert Stream([hi]) == ByteBits(hi) + Stream([]);
    assert Stream([lo, hi]) == v;
    SentBits(crc);
    ApartFromZeros(v);
    FeedDifference(crc, INITIAL, v, Zeros(16), 16);
    EightHalves(Xor(crc, INITIAL));
    SixteenZeros();
    XorZero(RunBits(crc, v), RunBits(INITIAL, Zeros(16)));
  }
}
