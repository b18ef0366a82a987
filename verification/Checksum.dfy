/** The Internet checksum of NETUTIL.C and the headers sealed with it by IP.C and TCP.C.
    A checksum is the ones'-complement sum: the residue modulo 65535 that is zero only
    for data that is all zero. */
module Checksum {
  import opened Words

  /** The residue of v in 1..65535, or 0 for 0. */
  function Canon(v: nat): (r: Word)
    ensures r == 0 <==> v == 0
  { if v <= 0xffff then v else Canon(v - 0xffff) }

  lemma {:induction false} CanonIsResidue(v: nat)
    ensures Canon(v) == if v == 0 then 0 else 1 + (v - 1) % 0xffff
  {
    if v > 0xffff { CanonIsResidue(v - 0xffff); }
  }

  lemma {:induction false} CanonTurns(v: nat, k: nat)
    requires v > 0
    ensures Canon(v + 0xffff * k) == Canon(v)
    decreases k
  {
    if k > 0 { CanonTurns(v, k - 1); }
  }

  /** Every value differs from its residue by whole turns. */
  lemma {:induction false} CanonGap(v: nat) returns (k: nat)
    ensures v == Canon(v) + 0xffff * k
  {
    if v <= 0xffff {
      k := 0;
    } else {
      k := CanonGap(v - 0xffff);
      k := k + 1;
    }
  }

  /** Partial sums may be reduced at any time. */
  lemma CanonPlus(x: nat, y: nat)
    ensures Canon(Canon(x) + y) == Canon(x + y)
  {
    var k := CanonGap(x);
    if Canon(x) + y > 0 { CanonTurns(Canon(x) + y, k); }
  }

  /** Adding the carries back in. */
  lemma CanonFold(t: nat)
    ensures Canon(t % 0x1_0000 + t / 0x1_0000) == Canon(t)
  {
    var f := t % 0x1_0000 + t / 0x1_0000;
    assert t == f + 0xffff * (t / 0x1_0000);
    if f > 0 { CanonTurns(f, t / 0x1_0000); }
  }

  // ---- Sums of byte sequences ----

  /** Little-endian words; an odd last byte is a word by itself. */
  function LeSum(s: seq<Byte>): nat {
    if |s| == 0 then 0 else if |s| == 1 then s[0] else s[0] + 0x100 * s[1] + LeSum(s[2..])
  }

  /** Big-endian words; an odd last byte is the high half of a word. */
  function BeSum(s: seq<Byte>): nat {
    if |s| == 0 then 0 else if |s| == 1 then 0x100 * s[0] else 0x100 * s[0] + s[1] + BeSum(s[2..])
  }

  lemma {:induction false} LeSumBound(s: seq<Byte>)
    ensures LeSum(s) <= 0xffff * ((|s| + 1) / 2)
  {
    if |s| >= 2 { LeSumBound(s[2..]); }
  }

  lemma {:induction false} LeSumSplit(s: seq<Byte>, t: seq<Byte>)
    requires |s| % 2 == 0
    ensures LeSum(s + t) == LeSum(s) + LeSum(t)
  {
    if s == [] {
      assert s + t == t;
    } else {
      LeSumSplit(s[2..], t);
      assert (s + t)[2..] == s[2..] + t;
    }
  }

  lemma {:induction false} BeSumSplit(s: seq<Byte>, t: seq<Byte>)
    requires |s| % 2 == 0
    ensures BeSum(s + t) == BeSum(s) + BeSum(t)
  {
    if s == [] {
      assert s + t == t;
    } else {
      BeSumSplit(s[2..], t);
      assert (s + t)[2..] == s[2..] + t;
    }
  }

  /** swapw */
  function Swap(w: Word): (r: Word) { w % 0x100 * 0x100 + w / 0x100 }

  /** A word with its bytes swapped is 256 times the word, modulo 65535. */
  lemma SwapIsShift(w: Word)
    ensures Swap(w) == Canon(0x100 * w)
  {
    assert 0x100 * w == Swap(w) + 0xffff * (w / 0x100);
    if w > 0 { CanonTurns(Swap(w), w / 0x100); }
  }

  lemma {:induction false} BeIsShiftedLe(s: seq<Byte>) returns (k: nat)
    ensures 0x100 * LeSum(s) == BeSum(s) + 0xffff * k
    ensures BeSum(s) == 0 <==> LeSum(s) == 0
  {
    if |s| < 2 {
      k := 0;
    } else {
      k := BeIsShiftedLe(s[2..]);
      k := k + s[1];
    }
  }

  /** The two byte orders give the same checksum with its bytes swapped: for every
      byte sequence, of odd or even length. */
  lemma ByteOrderAgreement(s: seq<Byte>)
    ensures Canon(BeSum(s)) == Swap(Canon(LeSum(s)))
  {
    var k := BeIsShiftedLe(s);
    if BeSum(s) > 0 { CanonTurns(BeSum(s), k); }
    var j := CanonGap(LeSum(s));
    SwapIsShift(Canon(LeSum(s)));
    assert 0x100 * LeSum(s) == 0x100 * Canon(LeSum(s)) + 0xffff * (0x100 * j);
    if LeSum(s) > 0 { CanonTurns(0x100 * Canon(LeSum(s)), 0x100 * j); }
  }

  /** csum: words, an odd byte, then the carries. The accumulator has 32 bits. */
  method Csum(s: seq<Byte>) returns (r: Word)
    requires |s| < 0x1_0000
    ensures r == Canon(LeSum(s))
  {
    var total: LWord := 0;
    var n := |s| / 2;
    var p := 0;
    LeSumBound(s);
    while n > 0
      invariant n >= 0 && p == 2 * (|s| / 2 - n)
      invariant total + LeSum(s[p..]) == LeSum(s)
    {
      var lo: int, hi: int := s[p], s[p + 1];
      var w := lo + 0x100 * hi;
      assert s[p..][2..] == s[p + 2..];
      WrapNear(total + w);
      total := W32(total + w);
      p := p + 2;
      n := n - 1;
    }
    if |s| % 2 == 1 {
      WrapNear(total + s[p]);
      total := W32(total + s[p]);
    }
    assert total == LeSum(s);
    var carries := total / 0x1_0000;
    while carries != 0
      invariant carries == total / 0x1_0000 && Canon(total) == Canon(LeSum(s))
      decreases total
    {
      CanonFold(total);
      total := total % 0x1_0000 + carries;
      carries := total / 0x1_0000;
    }
    r := total;
  }

  // ---- Sealing: the complement of the sum of everything else ----

  /** A word stored at k, in the machine's (little-endian) order. */
  function Stored(s: seq<Byte>, k: nat, w: Word): (r: seq<Byte>)
    requires k + 1 < |s|
    ensures |r| == |s|
  { s[k := Low(w)][k + 1 := High(w)] }

  function Not(w: Word): Word { 0xffff - w }

  lemma {:induction false} StoredSum(s: seq<Byte>, k: nat, w: Word)
    requires k % 2 == 0 && k + 1 < |s| && s[k] == s[k + 1] == 0
    ensures LeSum(Stored(s, k, w)) == LeSum(s) + w
    decreases k
  {
    hide Low, High;
    var t := Stored(s, k, w);
    if k == 0 {
      assert t[2..] == s[2..];
      PartsPair(w);
    } else {
      assert t[2..] == Stored(s[2..], k - 2, w);
      StoredSum(s[2..], k - 2, w);
    }
  }

  /** The sum of anything and its own complement. */
  lemma SumAndComplement(v: nat)
    ensures Canon(v + Not(Canon(v))) == 0xffff
  {
    var k := CanonGap(v);
    assert v + Not(Canon(v)) == 0xffff + 0xffff * k;
    CanonTurns(0xffff, k);
  }

  /** Data sealed at an even offset always verifies: with whatever else is summed
      along with it, the checksum comes to 0xffff. */
  lemma SealVerifies(s: seq<Byte>, k: nat, more: nat)
    requires k % 2 == 0 && k + 1 < |s| && s[k] == s[k + 1] == 0
    ensures Canon(LeSum(Stored(s, k, Not(Canon(LeSum(s) + more)))) + more) == 0xffff
  {
    StoredSum(s, k, Not(Canon(LeSum(s) + more)));
    SumAndComplement(LeSum(s) + more);
  }

  lemma {:induction false} LeSumByte(s: seq<Byte>, k: nat, b: Byte)
    requires k < |s|
    ensures LeSum(s[k := b]) - LeSum(s) == (b - s[k]) as int * (if k % 2 == 0 then 1 else 0x100)
  {
    if k >= 2 {
      LeSumByte(s[2..], k - 2, b);
      assert s[k := b][2..] == s[2..][k - 2 := b];
    } else if |s| >= 2 {
      assert s[k := b][2..] == s[2..];
    }
  }

  /** Data that verifies no longer does so when any one byte is changed. */
  lemma ByteChangeDetected(s: seq<Byte>, k: nat, b: Byte)
    requires k < |s| && b != s[k] && Canon(LeSum(s)) == 0xffff
    ensures Canon(LeSum(s[k := b])) != 0xffff
  {
    LeSumByte(s, k, b);
    var i := CanonGap(LeSum(s));
    var j := CanonGap(LeSum(s[k := b]));
    assert LeSum(s[k := b]) - LeSum(s) == Canon(LeSum(s[k := b])) - 0xffff + 0xffff * (j - i);
  }

  // ---- IP and ICMP ----

  datatype IpHeader = IpHeader(
    service: Byte, len: Word, ident: Word, frags: Word, ttl: Byte, pcol: Byte, sip: LWord, dip: LWord)

  /** A longword in network byte order. */
  function Quad(x: LWord): (s: seq<Byte>)
    ensures |s| == 4
  { [High(x / 0x1_0000), Low(x / 0x1_0000), High(x % 0x1_0000), Low(x % 0x1_0000)] }

  /** A number in network byte order. */
  function NetValue(s: seq<Byte>): nat
  { if s == [] then 0 else 0x100 * NetValue(s[..|s| - 1]) + s[|s| - 1] }

  lemma NetPair(a: Byte, b: Byte)
    ensures NetValue([a, b]) == 0x100 * a + b
  {
    assert [a, b][..1] == [a] && [a][..0] == [];
    assert NetValue([]) == 0 && NetValue([a]) == a;
  }

  lemma NetQuad(a: Byte, b: Byte, c: Byte, d: Byte)
    ensures NetValue([a, b, c, d]) == 0x100 * (0x100 * (0x100 * a + b) + c) + d
  {
    assert [a, b, c, d][..3] == [a, b, c] && [a, b, c][..2] == [a, b];
    NetPair(a, b);
  }

  lemma NetWord(w: Word)
    ensures NetValue([High(w), Low(w)]) == w
  {
    NetPair(High(w), Low(w));
    PartsPair(w);
  }

  lemma NetLong(x: LWord)
    ensures NetValue(Quad(x)) == x
  {
    var hi, lo := x / 0x1_0000, x % 0x1_0000;
    NetQuad(High(hi), Low(hi), High(lo), Low(lo));
    PartsPair(hi);
    PartsPair(lo);
  }

  /** The header as bytes, its checksum zero. */
  function Unsealed(h: IpHeader): (s: seq<Byte>)
    ensures |s| == 20
  {
    [0x45, h.service, High(h.len), Low(h.len), High(h.ident), Low(h.ident), High(h.frags), Low(h.frags),
     h.ttl, h.pcol, 0, 0] + Quad(h.sip) + Quad(h.dip)
  }

  /** The header part of make_ip. */
  method SealIp(h: IpHeader) returns (bytes: seq<Byte>)
    ensures |bytes| == 20 && bytes == Stored(Unsealed(h), 10, Not(Canon(LeSum(Unsealed(h)))))
    ensures Canon(LeSum(bytes)) == 0xffff
  {
    bytes := Unsealed(h);
    var c := Csum(bytes);
    SealVerifies(bytes, 10, 0);
    bytes := Stored(bytes, 10, Not(c));
  }

  /** The header checks of is_ip: version, length, checksum. */
  method CheckIp(buff: seq<Byte>, len: nat) returns (ok: bool)
    requires |buff| >= 60
    ensures ok <==> IpOk(buff, len)
  {
    ok := false;
    if len >= 20 {
      var hlen := buff[0] % 0x10 * 4;
      var c := Csum(buff[..hlen]);
      var sum := Not(c);
      ok := buff[0] / 0x10 == 4 && len >= hlen && sum == 0;
    }
  }

  predicate IpOk(buff: seq<Byte>, len: nat)
    requires |buff| >= 60
  {
    var hlen := buff[0] % 0x10 * 4;
    buff[0] / 0x10 == 4 && 20 <= len && hlen <= len && Canon(LeSum(buff[..hlen])) == 0xffff
  }

  /** Every header that make_ip makes is one that is_ip accepts, with its fields intact. */
  lemma IpHeaderAccepted(h: IpHeader, bytes: seq<Byte>, data: seq<Byte>)
    requires bytes == Stored(Unsealed(h), 10, Not(Canon(LeSum(Unsealed(h))))) && |data| >= 40
    ensures var f := bytes + data;
      && (forall len: nat :: IpOk(f, len) <==> len >= 20)
      && f[..10] == Unsealed(h)[..10] && f[12..20] == Quad(h.sip) + Quad(h.dip)
  {
    SealVerifies(Unsealed(h), 10, 0);
    assert (bytes + data)[..20] == bytes;
  }

  /** An accepted header without options is not accepted with any one byte changed, but for
      the length in its first byte, on which it depends how much is summed. */
  lemma HeaderByteDetected(buff: seq<Byte>, len: nat, k: nat, b: Byte)
    requires |buff| >= 60 && IpOk(buff, len) && buff[0] == 0x45 && k < 20 && b != buff[k]
    requires k == 0 ==> b / 0x10 != 4
    ensures !IpOk(buff[k := b], len)
  {
    if k > 0 {
      ByteChangeDetected(buff[..20], k, b);
      assert buff[k := b][..20] == buff[..20][k := b];
    }
  }

  /** With that changed it may be: whatever header is accepted, if certain bytes follow it. */
  lemma LengthUndetected(buff: seq<Byte>, len: nat)
    requires |buff| >= 60 && IpOk(buff, len) && buff[0] == 0x45 && len >= 24 && buff[20..24] == [0xfe, 0xff, 0, 0]
    ensures IpOk(buff[0 := 0x46], len)
  {
    var h, t := buff[..20], buff[0 := 0x46][..24];
    assert t == h[0 := 0x46] + [0xfe, 0xff, 0, 0];
    LeSumSplit(h[0 := 0x46], [0xfe, 0xff, 0, 0]);
    LeSumByte(h, 0, 0x46);
    LeSumFour(0xfe, 0xff, 0, 0);
    CanonTurns(LeSum(h), 1);
  }

  function LePair(a: Byte, b: Byte): nat { a + 0x100 * b }

  lemma LeSumFour(a: Byte, b: Byte, c: Byte, d: Byte)
    ensures LeSum([a, b, c, d]) == LePair(a, b) + LePair(c, d)
  {
    assert [a, b, c, d][2..] == [c, d] && [c, d][2..] == [];
    assert LeSum([]) == 0 && LeSum([c, d]) == LePair(c, d);
  }

  /** A packet shorter than a header, or than its header says it is, is not accepted. */
  lemma ShortRefused(buff: seq<Byte>, len: nat)
    requires |buff| >= 60 && (len < 20 || len < buff[0] % 0x10 * 4)
    ensures !IpOk(buff, len)
  {}

  /** The checksum part of make_icmp, over header and data. */
  method SealIcmp(msg: seq<Byte>) returns (bytes: seq<Byte>)
    requires 8 <= |msg| < 0x1_0000
    ensures |bytes| == |msg| && bytes[..2] == msg[..2] && bytes[4..] == msg[4..]
    ensures Canon(LeSum(bytes)) == 0xffff
  {
    bytes := msg[2 := 0][3 := 0];
    var c := Csum(bytes);
    SealVerifies(bytes, 2, 0);
    bytes := Stored(bytes, 2, Not(c));
  }

  /** is_icmp: the data length, -1 for no data, 0 for a message that is not accepted. */
  method CheckIcmp(pcol: Byte, msg: seq<Byte>) returns (dlen: int)
    requires |msg| < 0x1_0000
    ensures dlen != 0 <==> pcol == 1 && |msg| >= 8 && Canon(LeSum(msg)) == 0xffff
    ensures dlen != 0 ==> dlen == if |msg| > 8 then |msg| - 8 else -1
  {
    dlen := 0;
    if pcol == 1 && |msg| >= 8 {
      var sum := Csum(msg);
      if sum == 0xffff { dlen := if |msg| > 8 then |msg| - 8 else -1; }
    }
  }

  // ---- TCP: the pseudo-header is summed separately ----

  function PseudoHeader(sip: seq<Byte>, dip: seq<Byte>, pcol: Byte, tlen: Word): seq<Byte> {
    sip + dip + [0, pcol, High(tlen), Low(tlen)]
  }

  /** What is summed along with a segment: the words of the two addresses, the protocol and
      the length, in the machine's order. */
  lemma PseudoHeaderSum(sip: seq<Byte>, dip: seq<Byte>, pcol: Byte, tlen: Word)
    requires |sip| == |dip| == 4
    ensures LeSum(PseudoHeader(sip, dip, pcol, tlen)) ==
      LePair(sip[0], sip[1]) + LePair(sip[2], sip[3]) + LePair(dip[0], dip[1]) + LePair(dip[2], dip[3])
      + 0x100 * pcol + (tlen / 0x100 + 0x100 * (tlen % 0x100))
  {
    var last := [0, pcol, High(tlen), Low(tlen)];
    assert sip == [sip[0], sip[1], sip[2], sip[3]] && dip == [dip[0], dip[1], dip[2], dip[3]];
    LeSumSplit(sip + dip, last);
    LeSumSplit(sip, dip);
    LeSumFour(sip[0], sip[1], sip[2], sip[3]);
    LeSumFour(dip[0], dip[1], dip[2], dip[3]);
    LeSumFour(0, pcol, High(tlen), Low(tlen));
  }

  /** A segment that verifies for one pair of addresses, protocol and length does not with
      any one byte of these changed, nor of itself. */
  lemma PseudoByteDetected(tcp: seq<Byte>, pseudo: seq<Byte>, k: nat, b: Byte)
    requires Canon(LeSum(tcp) + LeSum(pseudo)) == 0xffff
    ensures k < |pseudo| && b != pseudo[k] ==> Canon(LeSum(tcp) + LeSum(pseudo[k := b])) != 0xffff
    ensures k < |tcp| && b != tcp[k] ==> Canon(LeSum(tcp[k := b]) + LeSum(pseudo)) != 0xffff
  {
    if k < |pseudo| && b != pseudo[k] { SumChanged(LeSum(tcp), pseudo, k, b); }
    if k < |tcp| && b != tcp[k] { SumChanged(LeSum(pseudo), tcp, k, b); }
  }

  lemma SumChanged(more: nat, s: seq<Byte>, k: nat, b: Byte)
    requires k < |s| && b != s[k] && Canon(more + LeSum(s)) == 0xffff
    ensures Canon(more + LeSum(s[k := b])) != 0xffff
  {
    LeSumByte(s, k, b);
    var i := CanonGap(more + LeSum(s));
    var j := CanonGap(more + LeSum(s[k := b]));
    assert LeSum(s[k := b]) - LeSum(s) == Canon(more + LeSum(s[k := b])) - 0xffff + 0xffff * (j - i);
  }

  /** check_tcp: the two checksums added, with one fold. */
  method CheckTcp(tcp: seq<Byte>, sip: seq<Byte>, dip: seq<Byte>, pcol: Byte) returns (sum: Word)
    requires |tcp| < 0x1_0000 && |sip| == |dip| == 4
    ensures sum == Canon(LeSum(tcp) + LeSum(PseudoHeader(sip, dip, pcol, |tcp|)))
  {
    var p := PseudoHeader(sip, dip, pcol, |tcp|);
    var a: int := Csum(tcp);
    var b: int := Csum(p);
    var total := a + b;
    sum := (total + total / 0x1_0000) % 0x1_0000;
    OneFold(a, b);
    CanonPlus(LeSum(tcp), LeSum(p));
    CanonPlus(LeSum(p), Canon(LeSum(tcp)));
  }

  /** The sum of two checksums needs to be folded only once. */
  lemma OneFold(a: Word, b: Word)
    ensures (a + b + (a + b) / 0x1_0000) % 0x1_0000 == Canon(a + b)
  {
    if a + b >= 0x1_0000 { assert a + b - 0xffff <= 0xffff; }
  }

  /** The checksum part of make_tcp: what is sent is what is_tcp accepts. */
  method SealTcp(tcp: seq<Byte>, sip: seq<Byte>, dip: seq<Byte>, pcol: Byte) returns (bytes: seq<Byte>)
    requires 20 <= |tcp| < 0x1_0000 && |sip| == |dip| == 4
    ensures |bytes| == |tcp| && bytes[..16] == tcp[..16] && bytes[18..] == tcp[18..]
    ensures Canon(LeSum(bytes) + LeSum(PseudoHeader(sip, dip, pcol, |bytes|))) == 0xffff
  {
    bytes := tcp[16 := 0][17 := 0];
    var c := CheckTcp(bytes, sip, dip, pcol);
    SealVerifies(bytes, 16, LeSum(PseudoHeader(sip, dip, pcol, |bytes|)));
    bytes := Stored(bytes, 16, Not(c));
  }
}
