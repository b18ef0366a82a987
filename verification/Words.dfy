/** Fixed-width unsigned values as the source declares them (BYTE, WORD, LWORD),
    the wrap-around arithmetic on them, and the circular comparison `in_limits`. */
module Words {
  type Byte = x: int | 0 <= x < 0x100
  type Word = x: int | 0 <= x < 0x1_0000
  type LWord = x: int | 0 <= x < 0x1_0000_0000

  const TWO31: int := 0x8000_0000
  const TWO32: int := 0x1_0000_0000

  /** Where x falls when counting goes round after m: the remainder x % m, given by
      recursion because the solver handles that form better than division. */
  function Wrap(x: int, m: int): (r: int)
    requires m > 0
    ensures 0 <= r < m
    decreases if x < 0 then m - x else x
  { if x < 0 then Wrap(x + m, m) else if x < m then x else Wrap(x - m, m) }

  lemma {:induction false} WrapIsMod(x: int, m: int)
    requires m > 0
    ensures Wrap(x, m) == x % m
    decreases if x < 0 then m - x else x
  {
    if x < 0 {
      WrapIsMod(x + m, m);
      var q := (x + m) / m;
      assert m * (q - 1) == m * q - m;
      ModUnique(x, m, q - 1, (x + m) % m);
    } else if x < m {
      ModUnique(x, m, 0, x);
    } else {
      WrapIsMod(x - m, m);
      var q := (x - m) / m;
      assert m * (q + 1) == m * q + m;
      ModUnique(x, m, q + 1, (x - m) % m);
    }
  }

  /** One turn more or less changes nothing. */
  lemma WrapTurn(x: int, m: int)
    requires m > 0
    ensures Wrap(x + m, m) == Wrap(x, m)
  {}

  lemma {:induction false} WrapPlus(x: int, y: int, m: int)
    requires m > 0
    ensures Wrap(Wrap(x, m) + y, m) == Wrap(x + y, m)
    decreases if x < 0 then m - x else x
  {
    if x < 0 {
      WrapPlus(x + m, y, m);
      WrapTurn(x + y, m);
    } else if x >= m {
      WrapPlus(x - m, y, m);
      WrapTurn(x - m + y, m);
    }
  }

  lemma {:induction false} WrapMinus(x: int, y: int, m: int)
    requires m > 0
    ensures Wrap(x - Wrap(y, m), m) == Wrap(x - y, m)
    decreases if y < 0 then m - y else y
  {
    if y < 0 {
      WrapMinus(x, y + m, m);
      WrapTurn(x - y - m, m);
    } else if y >= m {
      WrapMinus(x, y - m, m);
      WrapTurn(x - y, m);
    }
  }

  lemma {:induction false} WrapTurns(x: int, m: int, k: nat)
    requires m > 0
    ensures Wrap(x + m * k, m) == Wrap(x, m)
    decreases k
  {
    if k > 0 {
      assert m * k == m * (k - 1) + m;
      WrapTurns(x, m, k - 1);
      WrapTurn(x + m * (k - 1), m);
    }
  }

  /** Going round a whole number of turns first changes nothing. */
  lemma {:induction false} WrapWrap(x: int, m: int, k: nat)
    requires m > 0 && k > 0
    ensures m * k > 0 && Wrap(Wrap(x, m * k), m) == Wrap(x, m)
    decreases if x < 0 then m * k - x else x
  {
    assert m * k == m * (k - 1) + m && m * (k - 1) >= 0;
    if x < 0 {
      WrapWrap(x + m * k, m, k);
      WrapTurns(x, m, k);
    } else if x >= m * k {
      WrapWrap(x - m * k, m, k);
      WrapTurns(x - m * k, m, k);
    }
  }

  function W16(x: int): Word { Wrap(x, 0x1_0000) }

  function W32(x: int): LWord { Wrap(x, TWO32) }

  /** The value of a 32-bit pattern read as a two's-complement `long`. */
  function Signed32(x: LWord): int { if x < TWO31 then x else x - TWO32 }

  function Min(a: int, b: int): int { if a < b then a else b }

  function Max(a: int, b: int): int { if a > b then a else b }

  // ---- The two bytes of a word ----

  function Low(w: Word): Byte { w % 0x100 }

  function High(w: Word): Byte { w / 0x100 }

  function Pair(hi: Byte, lo: Byte): (w: Word) { 0x100 * hi + lo }

  lemma PairParts(hi: Byte, lo: Byte)
    ensures High(Pair(hi, lo)) == hi && Low(Pair(hi, lo)) == lo
  {}

  lemma PartsPair(w: Word)
    ensures Pair(High(w), Low(w)) == w
  {}

  // ---- Facts about 32-bit wrap-around ----

  /** The wrapped value of a position within one turn of zero. */
  lemma WrapNear(x: int)
    requires -TWO32 < x < TWO32
    ensures W32(x) == if x < 0 then x + TWO32 else x
  {
    assert x < 0 ==> W32(x) == W32(x + TWO32);
  }

  lemma WrapSub(x: int, y: int)
    ensures W32(W32(x) - W32(y)) == W32(x - y)
    ensures W32(x - W32(y)) == W32(x - y)
    ensures W32(W32(x) - y) == W32(x - y)
  {
    WrapPlus(x, -y, TWO32);
    WrapMinus(x, y, TWO32);
    WrapMinus(W32(x), y, TWO32);
  }

  lemma WrapAdd(x: int, y: int)
    ensures W32(W32(x) + y) == W32(x + y)
    ensures W32(y + W32(x)) == W32(x + y)
  {
    WrapPlus(x, y, TWO32);
  }

  /** Two positions less than 2^32 apart wrap to the same value only if equal. */
  lemma WrapInjective(x: int, y: int)
    requires W32(x) == W32(y) && -TWO32 < x - y < TWO32
    ensures x == y
  {
    WrapSub(x, y);
    WrapNear(x - y);
  }

  // ---- in_limits ----

  function InLimits(val: LWord, lo: LWord, hi: LWord): bool {
    var lodiff := Signed32(W32(val - lo));
    var hidiff := Signed32(W32(hi - val));
    lodiff >= 0 && hidiff >= 0
  }

  /** Membership of the circular interval that starts at lo and ends at hi. */
  predicate OnArc(val: LWord, lo: LWord, hi: LWord) {
    W32(val - lo) <= W32(hi - lo)
  }

  /** `in_limits` is exact circular-interval membership for every value
      if, and only if, the interval is shorter than 2^31. */
  lemma InLimitsExact(lo: LWord, hi: LWord)
    ensures W32(hi - lo) < TWO31 <==> (forall val: LWord :: InLimits(val, lo, hi) <==> OnArc(val, lo, hi))
  {
    if W32(hi - lo) < TWO31 {
      forall val: LWord ensures InLimits(val, lo, hi) <==> OnArc(val, lo, hi) {
        InLimitsShortArc(val, lo, hi);
      }
    } else {
      assert OnArc(lo, lo, hi) && !InLimits(lo, lo, hi);
    }
  }

  lemma InLimitsShortArc(val: LWord, lo: LWord, hi: LWord)
    requires W32(hi - lo) < TWO31
    ensures InLimits(val, lo, hi) <==> OnArc(val, lo, hi)
  {
    WrapSub(hi - lo, val - lo);
    assert (hi - lo) - (val - lo) == hi - val;
    WrapNear(W32(hi - lo) - W32(val - lo));
  }

  /** On unwrapped positions: an acknowledgement that is less than 2^31 away from
      the start of a short interval is accepted exactly when it lies inside. */
  lemma InLimitsPositions(base: int, ack: int, lo: int, hi: int)
    requires lo <= hi < lo + TWO31 && -TWO31 < ack - lo < TWO31
    ensures InLimits(W32(base + ack), W32(base + lo), W32(base + hi)) <==> lo <= ack <= hi
  {
    WrapSub(base + ack, base + lo);
    WrapSub(base + hi, base + lo);
    assert (base + ack) - (base + lo) == ack - lo && (base + hi) - (base + lo) == hi - lo;
    WrapNear(ack - lo);
    WrapNear(hi - lo);
    InLimitsShortArc(W32(base + ack), W32(base + lo), W32(base + hi));
  }

  // ---- Bitwise AND with a power-of-two mask ----

  function And(x: nat, y: nat): nat
    decreases x
  {
    if x == 0 || y == 0 then 0 else 2 * And(x / 2, y / 2) + (if x % 2 == 1 && y % 2 == 1 then 1 else 0)
  }

  predicate IsPow2(p: nat) { p == 1 || (p > 0 && p % 2 == 0 && IsPow2(p / 2)) }

  lemma MulLarge(m: int, t: int)
    requires m > 0 && t != 0
    ensures m * t >= m || m * t <= -m
  {
    if t >= 1 {
      assert m * (t - 1) >= 0;
    } else {
      assert m * (-1 - t) >= 0;
    }
  }

  lemma ModUnique(x: int, m: int, k: int, r: int)
    requires 0 <= r < m && x == m * k + r
    ensures x % m == r && x / m == k
  {
    var q := x / m;
    assert x == m * q + x % m;
    assert m * (q - k) == r - x % m by {
      assert m * (q - k) == m * q - m * k;
    }
    if q != k { MulLarge(m, q - k); }
  }

  lemma ModDouble(x: nat, q: nat)
    requires q > 0
    ensures x % (2 * q) == 2 * ((x / 2) % q) + x % 2
  {
    var k, r := (x / 2) / q, (x / 2) % q;
    assert x / 2 == q * k + r;
    assert (2 * q) * k == 2 * (q * k);
    ModUnique(x, 2 * q, k, 2 * r + x % 2);
  }

  lemma {:induction false} AndMask(x: nat, p: nat)
    requires IsPow2(p)
    ensures And(x, p - 1) == x % p
  {
    if p != 1 && x != 0 {
      var q := p / 2;
      AndMask(x / 2, q);
      ModDouble(x, q);
      assert p == 2 * q;
      assert (2 * q - 1) / 2 == q - 1 && (2 * q - 1) % 2 == 1;
    }
  }

  lemma Pow2Double(p: nat)
    requires IsPow2(p)
    ensures IsPow2(2 * p)
  {
    assert 2 * p % 2 == 0 && 2 * p / 2 == p;
  }

  lemma Pow2Nibble(p: nat)
    requires IsPow2(p)
    ensures IsPow2(0x10 * p)
  {
    hide IsPow2;
    Pow2Double(p);
    Pow2Double(2 * p);
    Pow2Double(4 * p);
    Pow2Double(8 * p);
  }

  /** The numbers of 16-bit and of 32-bit values are powers of two. */
  lemma WordCounts()
    ensures IsPow2(0x1_0000) && IsPow2(0x1_0000_0000)
  {
    assert IsPow2(1);
    hide IsPow2;
    Pow2Nibble(1);
    Pow2Nibble(0x10);
    Pow2Nibble(0x100);
    Pow2Nibble(0x1000);
    Pow2Nibble(0x1_0000);
    Pow2Nibble(0x10_0000);
    Pow2Nibble(0x100_0000);
    Pow2Nibble(0x1000_0000);
  }

  lemma {:induction false} Pow2Factor(p: nat, q: nat) returns (k: nat)
    requires IsPow2(p) && IsPow2(q) && p <= q
    ensures q == p * k
  {
    if p == q {
      k := 1;
    } else if p == 1 {
      k := q;
    } else {
      k := Pow2Factor(p / 2, q / 2);
      assert q == 2 * (p / 2 * k) == 2 * (p / 2) * k;
    }
  }
}
