/** What the circular buffer of NETUTIL.C means: the bytes it holds, how many of them
    have been tried (sent but not acknowledged), and the absolute 32-bit position of the
    first one; and how such a sequence lies in an array that goes round. */
module CircBuff {
  import opened Words

  /** The meaning of a circular buffer of length cap + 1. */
  datatype Buf = Buf(cap: nat, out: LWord, data: seq<Byte>, tried: nat) {
    predicate Ok() { |data| <= cap < 0x8000 && tried <= |data| }

    function InPtr(): LWord { W32(out + |data|) }

    function TrialPtr(): LWord { W32(out + tried) }

    function Untried(): int { |data| - tried }

    function Free(): int { cap - |data| }

    function PutCount(s: seq<Byte>): (n: nat)
      requires Ok()
    { Min(|s|, Free()) }

    /** Append as much of s as fits. */
    function Put(s: seq<Byte>): (b: Buf)
      requires Ok()
      ensures b.Ok()
    { this.(data := data + s[..PutCount(s)]) }

    function TryCount(maxlen: nat): (n: nat)
      requires Ok()
    { Min(maxlen, Untried()) }

    /** The bytes a `buff_try` hands out: they stay in the buffer. */
    function TryBytes(maxlen: nat): (s: seq<Byte>)
      requires Ok()
    { data[tried..tried + TryCount(maxlen)] }

    function AfterTry(maxlen: nat): (b: Buf)
      requires Ok()
      ensures b.Ok()
    { this.(tried := tried + TryCount(maxlen)) }

    function AfterRetry(n: nat): (b: Buf)
      requires Ok()
      ensures b.Ok()
    { this.(tried := tried - Min(n, tried)) }

    function OutBytes(maxlen: nat): (s: seq<Byte>)
      requires Ok()
    { data[..Min(maxlen, |data|)] }

    /** Removing bytes lifts the trial pointer to at least the new output pointer. */
    function AfterOut(maxlen: nat): (b: Buf)
      requires Ok()
      ensures b.Ok()
    {
      var n := Min(maxlen, |data|);
      Buf(cap, W32(out + n), data[n..], Max(tried - n, 0))
    }

    function AllAt(start: LWord): (b: Buf)
      requires Ok()
      ensures b.Ok()
    { Buf(cap, start, [], 0) }
  }

  /** The array index that is i places after index o, going round. */
  function Slot(o: nat, i: nat, len: nat): (k: nat)
    requires o < len && i < len
    ensures k < len
  { if o + i < len then o + i else o + i - len }

  predicate GoodLen(len: nat) { 1 <= len <= 0x8000 && IsPow2(len) }

  /** Where an ever-growing pointer falls in an array of length len. */
  function Place(p: nat, len: nat): (i: nat)
    requires len > 0
    ensures i < len
  { Wrap(p, len) }

  /** Masking a pointer truncated to 16 bits finds its place. */
  lemma TruncatedPlace(p: LWord, len: nat)
    requires GoodLen(len)
    ensures Place(W16(p), len) == Place(p, len)
  {
    WordCounts();
    hide IsPow2;
    var k := Pow2Factor(len, 0x1_0000);
    WrapWrap(p, len, k);
  }

  /** The masked difference of two pointers into the same buffer. */
  lemma PointerGap(out: LWord, a: nat, b: nat, len: nat)
    requires GoodLen(len) && b <= a < b + len
    ensures Place(W32(W32(out + a) - W32(out + b)), len) == a - b
    ensures b == 0 ==> Place(W32(W32(out + a) - out), len) == a
  {
    WrapSub(out + a, out + b);
  }

  /** Advancing a pointer, also across 2^32, advances its place in the array. */
  lemma PlaceAdvance(p: LWord, k: nat, len: nat)
    requires GoodLen(len) && k < len
    ensures Place(W32(p + k), len) == Slot(Place(p, len), k, len)
  {
    WordCounts();
    hide IsPow2;
    var j := Pow2Factor(len, 0x1_0000_0000);
    WrapWrap(p + k, len, j);
    WrapPlus(p, k, len);
    WrapTurn(Place(p, len) + k - len, len);
  }

  /** The n bytes that start at index o of the array and go round its end. */
  function View(a: seq<Byte>, o: nat, n: nat): (v: seq<Byte>)
    requires o < |a| && n <= |a|
    ensures |v| == n
  { (a + a)[o..o + n] }

  lemma Doubled(a: seq<Byte>, k: nat, n: nat)
    requires k + n <= |a|
    ensures (a + a)[k..k + n] == a[k..k + n] == (a + a)[k + |a|..k + |a| + n]
  {}

  lemma ViewSplit(a: seq<Byte>, o: nat, d: nat, n: nat)
    requires o < |a| && d + n <= |a| && d < |a|
    ensures View(a, o, d + n) == View(a, o, d) + View(a, Slot(o, d, |a|), n)
  {
    if o + d >= |a| { Doubled(a, o + d - |a|, n); }
  }

  /** The two pieces a copy is made in: up to the end of the array, then from its start. */
  lemma ViewSegments(a: seq<Byte>, o: nat, n: nat)
    requires o < |a| && n <= |a|
    ensures var n1 := Min(n, |a| - o); View(a, o, n) == a[o..o + n1] + a[..n - n1]
  {}

  /** Bytes read back from a pointer are the bytes held from that offset on. */
  lemma ViewAt(a: seq<Byte>, out: LWord, held: seq<Byte>, d: nat, n: nat, len: nat)
    requires GoodLen(len) && |a| == len && |held| < len && d + n <= |held|
    requires View(a, Place(out, len), |held|) == held
    ensures View(a, Place(W32(out + d), len), n) == held[d..d + n]
  {
    PlaceAdvance(out, d, len);
    ViewSplit(a, Place(out, len), d, |held| - d);
    assert held[d..] == View(a, Slot(Place(out, len), d, len), |held| - d);
    if n < len { ViewSplit(a, Slot(Place(out, len), d, len), n, |held| - d - n); }
    assert held[d..d + n] == held[d..][..n];
  }

  /** What copying src in at the input pointer, in one or two segments, leaves. */
  function Written(a: seq<Byte>, i: nat, src: seq<Byte>): (r: seq<Byte>)
    requires i < |a| && |src| <= |a|
    ensures |r| == |a|
  {
    var n1 := Min(|src|, |a| - i);
    var r1 := a[..i] + src[..n1] + a[i + n1..];
    src[n1..] + r1[|src| - n1..]
  }

  lemma ViewWritten(a: seq<Byte>, o: nat, d: nat, src: seq<Byte>)
    requires o < |a| && d + |src| < |a|
    ensures View(Written(a, Slot(o, d, |a|), src), o, d + |src|) == View(a, o, d) + src
  {
    var i := Slot(o, d, |a|);
    if o + d >= |a| {
      WrittenBefore(a, o, i, src);
    } else if o + d + |src| <= |a| {
      WrittenInside(a, o, i, src);
    } else {
      WrittenAcross(a, o, i, src);
    }
  }

  lemma WrittenInside(a: seq<Byte>, o: nat, i: nat, src: seq<Byte>)
    requires o <= i < |a| && i + |src| <= |a|
    ensures View(Written(a, i, src), o, i - o + |src|) == View(a, o, i - o) + src
  {
    assert src[|src|..] == [] && src[..|src|] == src;
    var w := a[..i] + src + a[i + |src|..];
    assert Written(a, i, src) == w;
    Doubled(w, o, i - o + |src|);
    Doubled(a, o, i - o);
  }

  lemma WrittenAcross(a: seq<Byte>, o: nat, i: nat, src: seq<Byte>)
    requires o <= i < |a| < i + |src| && |src| <= |a| && i + |src| - |a| <= o
    ensures View(Written(a, i, src), o, i - o + |src|) == View(a, o, i - o) + src
  {
    var n1 := |a| - i;
    var n2 := |src| - n1;
    assert a[i + n1..] == [];
    var w := src[n1..] + a[n2..i] + src[..n1];
    assert Written(a, i, src) == w;
    ViewSegments(w, o, i - o + |src|);
    assert w[o..|a|] == a[o..i] + src[..n1] && w[..n2] == src[n1..];
    assert src == src[..n1] + src[n1..];
    Doubled(a, o, i - o);
  }

  lemma WrittenBefore(a: seq<Byte>, o: nat, i: nat, src: seq<Byte>)
    requires i + |src| <= o < |a|
    ensures var d := |a| - o + i; View(Written(a, i, src), o, d + |src|) == View(a, o, d) + src
  {
    var w := Written(a, i, src);
    WrittenParts(a, i, src, o);
    hide Written, View;
    ViewSegments(w, o, |a| - o + i + |src|);
    ViewSegments(a, o, |a| - o + i);
    Regroup(a[o..|a|], a[..i], src);
  }

  lemma WrittenParts(a: seq<Byte>, i: nat, src: seq<Byte>, o: nat)
    requires i + |src| <= o < |a|
    ensures Written(a, i, src)[o..|a|] == a[o..|a|] && Written(a, i, src)[..i + |src|] == a[..i] + src
  {
    assert src[|src|..] == [] && src[..|src|] == src;
    assert Written(a, i, src) == a[..i] + src + a[i + |src|..];
  }

  lemma Regroup(x: seq<Byte>, y: seq<Byte>, z: seq<Byte>)
    ensures x + (y + z) == (x + y) + z
  {}
}
