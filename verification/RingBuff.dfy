/** The circular buffer of NETUTIL.C itself: three wrapping pointers, a power-of-two mask
    and copies in two segments. */
module RingBuff {
  import opened Words
  import opened CircBuff

  /** The array and the three pointers represent b. */
  ghost predicate Represents(a: seq<Byte>, inp: LWord, out: LWord, trial: LWord, b: Buf) {
    && GoodLen(|a|) && b.Ok() && b.cap == |a| - 1
    && out == b.out && inp == b.InPtr() && trial == b.TrialPtr()
    && View(a, Place(out, |a|), |b.data|) == b.data
  }

  lemma PutRepresents(a: seq<Byte>, inp: LWord, out: LWord, trial: LWord, b: Buf, src: seq<Byte>)
    requires Represents(a, inp, out, trial, b)
    ensures var n := b.PutCount(src);
      Represents(Written(a, Place(inp, |a|), src[..n]), W32(inp + n), out, trial, b.Put(src))
  {
    hide W32;
    var n := b.PutCount(src);
    PlaceAdvance(out, |b.data|, |a|);
    ViewWritten(a, Place(out, |a|), |b.data|, src[..n]);
    WrapAdd(out + |b.data|, n);
  }

  lemma TryRepresents(a: seq<Byte>, inp: LWord, out: LWord, trial: LWord, b: Buf, maxlen: nat)
    requires Represents(a, inp, out, trial, b)
    ensures var n := b.TryCount(maxlen);
      && Represents(a, inp, out, W32(trial + n), b.AfterTry(maxlen))
      && b.TryBytes(maxlen) == View(a, Place(trial, |a|), n)
  {
    hide W32;
    var n := b.TryCount(maxlen);
    ViewAt(a, out, b.data, b.tried, n, |a|);
    WrapAdd(out + b.tried, n);
  }

  lemma RetryRepresents(a: seq<Byte>, inp: LWord, out: LWord, trial: LWord, b: Buf, n: nat)
    requires Represents(a, inp, out, trial, b)
    ensures Represents(a, inp, out, W32(trial - Min(n, b.tried)), b.AfterRetry(n))
  {
    WrapSub(out + b.tried, Min(n, b.tried));
  }

  lemma OutRepresents(a: seq<Byte>, inp: LWord, out: LWord, trial: LWord, b: Buf, maxlen: nat)
    requires Represents(a, inp, out, trial, b)
    ensures var n := Min(maxlen, |b.data|);
      && Represents(a, inp, W32(out + n), if b.tried < n then W32(out + n) else trial, b.AfterOut(maxlen))
      && b.OutBytes(maxlen) == View(a, Place(out, |a|), n)
  {
    hide W32;
    var n := Min(maxlen, |b.data|);
    assert b.AfterOut(n) == b.AfterOut(maxlen) && b.AfterOut(n).data == b.data[n..];
    OutPointers(b, n);
    OutView(a, out, b.data, n, |a|);
  }

  lemma OutView(a: seq<Byte>, out: LWord, held: seq<Byte>, n: nat, len: nat)
    requires GoodLen(len) && |a| == len && n <= |held| < len
    requires View(a, Place(out, len), |held|) == held
    ensures View(a, Place(out, len), n) == held[..n]
    ensures View(a, Place(W32(out + n), len), |held| - n) == held[n..]
  {
    ViewSplit(a, Place(out, len), n, |held| - n);
    PlaceAdvance(out, n, len);
  }

  lemma OutPointers(b: Buf, n: nat)
    requires b.Ok() && n <= |b.data|
    ensures b.AfterOut(n).InPtr() == b.InPtr()
    ensures b.AfterOut(n).TrialPtr() == if b.tried < n then W32(b.out + n) else b.TrialPtr()
  {
    WrapAdd(b.out + n, |b.data| - n);
    WrapAdd(b.out + n, Max(b.tried - n, 0));
    WrapNear(W32(b.out + n));
  }

  // ---- Searching ----

  predicate FirstAt(s: seq<Byte>, c: Byte, i: nat) { i < |s| && s[i] == c && c !in s[..i] }

  /** The first position of c in s, 0 if there is none. */
  predicate FirstOrZero(s: seq<Byte>, c: Byte, r: nat) {
    if c in s then FirstAt(s, c, r) else r == 0
  }

  predicate Found(s: seq<Byte>, c: Byte, found: bool, q: nat) {
    if found then FirstAt(s, c, q) else c !in s && q == 0
  }

  lemma FoundMeans(s: seq<Byte>, c: Byte, found: bool, q: nat)
    requires Found(s, c, found, q)
    ensures FirstOrZero(s, c, q)
  {}

  lemma InNeither(s1: seq<Byte>, s2: seq<Byte>, c: Byte)
    requires c !in s1 && c !in s2
    ensures c !in s1 + s2
  {}

  lemma FirstInFirst(s1: seq<Byte>, s2: seq<Byte>, c: Byte, i: nat)
    requires FirstAt(s1, c, i)
    ensures FirstAt(s1 + s2, c, i)
  {
    assert (s1 + s2)[..i] == s1[..i];
  }

  lemma FirstInSecond(s1: seq<Byte>, s2: seq<Byte>, c: Byte, i: nat)
    requires c !in s1 && FirstAt(s2, c, i)
    ensures FirstAt(s1 + s2, c, |s1| + i)
  {
    assert (s1 + s2)[..|s1| + i] == s1 + s2[..i];
  }

  class CBuff {
    const len: nat
    var inp: LWord
    var out: LWord
    var trial: LWord
    const data: array<Byte>
    ghost var buf: Buf

    ghost predicate Valid()
      reads this, data
    {
      data.Length == len && Represents(data[..], inp, out, trial, buf)
    }

    constructor (len: nat)
      requires GoodLen(len)
      ensures Valid() && buf == Buf(len - 1, 0, [], 0) && fresh(data) && this.len == len
    {
      this.len := len;
      inp, out, trial := 0, 0, 0;
      data := new Byte[len](_ => 0);
      buf := Buf(len - 1, 0, [], 0);
    }

    lemma Pointers()
      requires Valid()
      ensures buf.Ok() && inp == buf.InPtr() && out == buf.out && trial == buf.TrialPtr()
    {}

    method Dlen() returns (n: Word)
      requires Valid()
      ensures n == |buf.data|
    {
      PointerGap(out, |buf.data|, 0, len);
      n := Mask(W32(inp - out));
    }

    method UntriedLen() returns (n: Word)
      requires Valid()
      ensures n == buf.Untried()
    {
      PointerGap(out, |buf.data|, buf.tried, len);
      n := Mask(W32(inp - trial));
    }

    method TryLen() returns (n: Word)
      requires Valid()
      ensures n == buf.tried
    {
      PointerGap(out, buf.tried, 0, len);
      n := Mask(W32(trial - out));
    }

    method FreeLen() returns (n: Word)
      requires Valid()
      ensures n == buf.Free()
    {
      var dlen := Dlen();
      n := len - 1 - dlen;
    }

    /** x & (len - 1) */
    method Mask(x: nat) returns (r: nat)
      requires GoodLen(len)
      ensures r == Place(x, len)
    {
      AndMask(x, len);
      WrapIsMod(x, len);
      r := And(x, len - 1);
    }

    /** (WORD)p & (len - 1): where a pointer falls in the array. */
    method Masked(p: LWord) returns (r: nat)
      requires GoodLen(len)
      ensures r == Place(p, len)
    {
      TruncatedPlace(p, len);
      r := Mask(W16(p));
    }

    method SetAll(start: LWord)
      requires Valid()
      modifies this
      ensures Valid() && buf == old(buf).AllAt(start)
    {
      out, inp, trial := start, start, start;
      buf := buf.AllAt(start);
    }

    /** memcpy(&data[at], src, |src|) */
    method CopyInto(at: nat, src: seq<Byte>)
      requires at + |src| <= data.Length
      modifies data
      ensures data[..] == old(data[..at]) + src + old(data[at + |src|..])
    {
      forall k | at <= k < at + |src| { data[k] := src[k - at]; }
    }

    /** Copy src in from index i: up to the end of the array, then maybe from its start. */
    method CopyIn(i: nat, src: seq<Byte>)
      requires i < data.Length == len && |src| <= len
      modifies data
      ensures data[..] == Written(old(data[..]), i, src)
    {
      var n1 := Min(|src|, len - i);
      var n2 := |src| - n1;
      if n1 != 0 { CopyInto(i, src[..n1]); }
      assert data[..] == old(data[..i]) + src[..n1] + old(data[i + n1..]);
      if n2 != 0 { CopyInto(0, src[n1..]); }
    }

    /** Copy n bytes out from index i: up to the end of the array, then maybe from its start. */
    method CopyOut(i: nat, n: nat) returns (got: seq<Byte>)
      requires i < data.Length == len && n <= len
      ensures got == View(data[..], i, n)
    {
      ViewSegments(data[..], i, n);
      hide View;
      var n1 := Min(n, len - i);
      var n2 := n - n1;
      got := [];
      if n1 != 0 { got := data[i..i + n1]; }
      if n2 != 0 { got := got + data[..n2]; }
    }

    method In(src: seq<Byte>) returns (n: Word)
      requires Valid() && |src| < 0x1_0000
      modifies this`inp, this`buf, data
      ensures Valid() && buf == old(buf).Put(src) && n == old(buf).PutCount(src)
    {
      var i := Masked(inp);
      var free := FreeLen();
      n := Min(|src|, free);
      PutRepresents(data[..], inp, out, trial, buf, src);
      CopyIn(i, src[..n]);
      inp := W32(inp + n);
      buf := buf.Put(src);
    }

    method Try(maxlen: Word) returns (got: seq<Byte>)
      requires Valid()
      modifies this`trial, this`buf
      ensures Valid() && buf == old(buf).AfterTry(maxlen) && got == old(buf).TryBytes(maxlen)
    {
      var t := Masked(trial);
      var untried := UntriedLen();
      var n := Min(maxlen, untried);
      TryRepresents(data[..], inp, out, trial, buf, maxlen);
      got := CopyOut(t, n);
      trial := W32(trial + n);
      buf := buf.AfterTry(maxlen);
    }

    method Retry(len0: Word) returns (n: Word)
      requires Valid()
      modifies this`trial, this`buf
      ensures Valid() && buf == old(buf).AfterRetry(len0) && n == Min(len0, old(buf).tried)
    {
      var trylen := TryLen();
      n := Min(len0, trylen);
      RetryRepresents(data[..], inp, out, trial, buf, len0);
      trial := W32(trial - n);
      buf := buf.AfterRetry(len0);
    }

    method Out(maxlen: Word) returns (got: seq<Byte>)
      requires Valid()
      modifies this`out, this`trial, this`buf
      ensures Valid() && buf == old(buf).AfterOut(maxlen) && got == old(buf).OutBytes(maxlen)
    {
      var o := Masked(out);
      var dlen := Dlen();
      var n := Min(maxlen, dlen);
      OutRepresents(data[..], inp, out, trial, buf, maxlen);
      got := CopyOut(o, n);
      out := W32(out + n);
      var behind := TrialBehind(buf, n);
      if behind { trial := out; }
      buf := buf.AfterOut(maxlen);
    }

    /** The output pointer moved directly, to a place the trial pointer has reached. */
    method Release(p: LWord)
      requires Valid() && W32(p - out) <= buf.tried
      modifies this`out, this`buf
      ensures Valid() && buf == old(buf).AfterOut(W32(p - old(out)))
    {
      hide W32;
      OutRepresents(data[..], inp, out, trial, buf, W32(p - out));
      WrapAdd(p - out, out);
      WrapNear(p);
      out := p;
      buf := buf.AfterOut(W32(p - buf.out));
    }

    /** The trial pointer moved directly back to the output pointer. */
    method RetryAll()
      requires Valid()
      modifies this`trial, this`buf
      ensures Valid() && buf == old(buf).AfterRetry(old(buf).tried)
    {
      WrapNear(out);
      trial := out;
      buf := buf.AfterRetry(buf.tried);
    }

    /** buff_untriedlen(bp) > buff_dlen(bp), just after n bytes went out. */
    method TrialBehind(ghost b: Buf, n: nat) returns (behind: bool)
      requires GoodLen(len) && b.Ok() && b.cap == len - 1 && n <= |b.data|
      requires inp == b.InPtr() && trial == b.TrialPtr() && out == W32(b.out + n)
      ensures behind <==> b.tried < n
    {
      hide W32, Place;
      PointerGap(b.out, |b.data|, b.tried, len);
      PointerGap(b.out, |b.data|, n, len);
      var untried := Mask(W32(inp - trial));
      var dlen := Mask(W32(inp - out));
      behind := untried > dlen;
    }

    lemma Fits()
      requires Valid()
      ensures GoodLen(len) && |buf.data| < len
    {}

    /** The bytes held, in two pieces of the array. */
    lemma Held()
      requires Valid()
      ensures var o := Place(out, len); var n1 := Min(|buf.data|, len - o);
        buf.data == data[o..o + n1] + data[..|buf.data| - n1]
    {
      ViewSegments(data[..], Place(out, len), |buf.data|);
    }

    /** The first position of c among the bytes held, 0 if there is none. */
    method ChrLen(c: Byte) returns (r: Word)
      requires Valid()
      ensures FirstOrZero(buf.data, c, r)
    {
      Fits();
      hide Represents, Place, Found, FirstOrZero, GoodLen;
      var o := Masked(out);
      var n := Dlen();
      var n1 := Min(n, len - o);
      var found, q := FindIn(c, o, n1, n - n1);
      FoundMeans(data[o..o + n1] + data[..n - n1], c, found, q);
      Held();
      r := q;
    }

    /** Two calls of memchr: up to the end of the array, then from its start. */
    method FindIn(c: Byte, o: nat, n1: nat, n2: nat) returns (found: bool, q: nat)
      requires o + n1 <= data.Length && n2 <= data.Length
      ensures Found(data[o..o + n1] + data[..n2], c, found, q) && q <= n1 + n2
    {
      hide FirstAt;
      ghost var s1, s2 := data[o..o + n1], data[..n2];
      found, q := false, 0;
      if n1 != 0 { found, q := MemChr(c, o, n1); }
      if found {
        FirstInFirst(s1, s2, c, q);
      } else {
        if n2 != 0 { found, q := MemChr(c, 0, n2); }
        if found {
          FirstInSecond(s1, s2, c, q);
          q := q + n1;
        } else {
          InNeither(s1, s2, c);
          q := 0;
        }
      }
    }

    /** memchr(&data[at], c, n) */
    method MemChr(c: Byte, at: nat, n: nat) returns (found: bool, q: nat)
      requires at + n <= data.Length
      ensures var s := data[at..at + n]; if found then FirstAt(s, c, q) else c !in s
      ensures q <= n
    {
      ghost var s := data[at..at + n];
      q := 0;
      while q < n && data[at + q] != c
        invariant q <= n && c !in s[..q]
      {
        q := q + 1;
      }
      found := q < n;
      assert s[..n] == s;
    }
  }
}
