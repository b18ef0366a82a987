/** The byte-serial checksum of p16_drv.c, with end-around carry between two bytes, and
    the IP and ICMP messages that p16_ip.c builds and tests with it. */
module PicSum {
  import opened Words
  import opened Wrappers
  import opened Checksum

  /** What the sum counts a byte for: the high half of a word first, then the low half. */
  function Weight(odd: bool, b: Byte): nat { if odd then b else 0x100 * b }

  /** The sum of bytes that start in either half of a word. */
  function SumFrom(odd: bool, s: seq<Byte>): nat
    decreases |s|
  {
    if s == [] then 0 else Weight(odd, s[0]) + SumFrom(!odd, s[1..])
  }

  lemma {:induction false} SumFromIsBeSum(s: seq<Byte>)
    ensures SumFrom(false, s) == BeSum(s)
  {
    if |s| >= 2 {
      SumFromIsBeSum(s[2..]);
      assert s[1..][1..] == s[2..];
    }
  }

  /** Whether n bytes end in the middle of a word. */
  predicate Half(n: nat) { n % 2 == 1 }

  lemma HalfStep(n: nat)
    ensures Half(n + 1) == !Half(n) && !Half(0)
  {}

  lemma CanonWord(w: Word)
    ensures Canon(w) == w
  {}

  lemma PairFull(hi: Byte, lo: Byte)
    ensures Pair(hi, lo) == 0xffff <==> hi == lo == 0xff
  {}

  lemma PairNot(hi: Byte, lo: Byte)
    ensures Not(Pair(hi, lo)) == Pair(0xff - hi, 0xff - lo)
  {}

  lemma SumFromStep(odd: bool, dat: seq<Byte>, k: nat)
    requires k < |dat|
    ensures SumFrom(odd, dat[k..]) == Weight(odd, dat[k]) + SumFrom(!odd, dat[k + 1..])
  {
    hide Weight;
    assert dat[k..][1..] == dat[k + 1..];
  }

  lemma SumFromNone(odd: bool)
    ensures SumFrom(odd, []) == 0
  {}


  /** The checksum part of the program's global state, and the transmit buffer. */
  class Summer {
    var checkhi: Byte
    var checklo: Byte
    var checkflag: bool
    var tx: seq<Byte>

    function Sum(): Word
      reads this
    { Pair(checkhi, checklo) }

    constructor ()
      ensures Sum() == 0 && !checkflag && tx == []
    { checkhi, checklo, checkflag, tx := 0, 0, false, []; }

    method Clear()
      modifies this`checkhi, this`checklo, this`checkflag
      ensures Sum() == 0 && !checkflag
    { checkhi, checklo, checkflag := 0, 0, false; }

    method CheckByte(b: Byte)
      modifies this`checkhi, this`checklo, this`checkflag
      ensures Sum() == Canon(old(Sum()) + Weight(old(checkflag), b))
      ensures checkflag == !old(checkflag)
      ensures old(checkflag) && old(checklo) + b < 0x100 ==>
        checkhi == old(checkhi) && checklo == old(checklo) + b
      ensures !old(checkflag) && old(checkhi) + b < 0x100 ==>
        checkhi == old(checkhi) + b && checklo == old(checklo)
    {
      if checkflag {
        checklo := AddByte(checklo, b);
        if checklo < b {
          checkhi := AddByte(checkhi, 1);
          if checkhi == 0 { checklo := AddByte(checklo, 1); }
        }
      } else {
        checkhi := AddByte(checkhi, b);
        if checkhi < b {
          checklo := AddByte(checklo, 1);
          if checklo == 0 { checkhi := AddByte(checkhi, 1); }
        }
      }
      checkflag := !checkflag;
    }

    method CheckData(dat: seq<Byte>)
      modifies this`checkhi, this`checklo, this`checkflag
      ensures Sum() == Canon(old(Sum()) + SumFrom(old(checkflag), dat))
      ensures checkflag == (old(checkflag) != Half(|dat|))
    {
      hide Canon, Weight, Pair, Half, SumFrom, Sum;
      ghost var start: nat, odd := Sum(), checkflag;
      HalfStep(0);
      assert dat[0..] == dat;
      var k := 0;
      while k < |dat|
        invariant k <= |dat| && checkflag == (odd != Half(k))
        invariant Canon(Sum() + SumFrom(checkflag, dat[k..])) == Canon(start + SumFrom(odd, dat))
      {
        SumFromStep(checkflag, dat, k);
        CanonPlus(Sum() + Weight(checkflag, dat[k]), SumFrom(!checkflag, dat[k + 1..]));
        CheckByte(dat[k]);
        HalfStep(k);
        k := k + 1;
      }
      assert dat[k..] == [];
      SumFromNone(checkflag);
      CanonWord(Sum());
    }

    method PutByte(b: Byte)
      modifies this
      ensures tx == old(tx) + [b]
      ensures Sum() == Canon(old(Sum()) + Weight(old(checkflag), b))
      ensures checkflag == !old(checkflag)
      ensures old(checkflag) && old(checklo) + b < 0x100 ==>
        checkhi == old(checkhi) && checklo == old(checklo) + b
      ensures !old(checkflag) && old(checkhi) + b < 0x100 ==>
        checkhi == old(checkhi) + b && checklo == old(checklo)
    {
      tx := tx + [b];
      CheckByte(b);
    }

    method PutData(dat: seq<Byte>)
      modifies this
      ensures tx == old(tx) + dat
      ensures Sum() == Canon(old(Sum()) + SumFrom(old(checkflag), dat))
      ensures checkflag == (old(checkflag) != Half(|dat|))
    {
      CheckData(dat);
      tx := tx + dat;
    }

    /** put_ip: the checksum goes in after everything else has been summed, and putting
        its first byte changes the running sum before the second byte is read. */
    method PutIp(h: PicHeader)
      modifies this
      ensures tx == old(tx) + Emitted(h)
    {
      hide Canon, SumFrom, BeSum, High, Low, Not, Pair;
      Clear();
      PutData(h.Front());
      CheckData(Quad(h.myip));
      CheckData(Quad(h.remip));
      RunningSum(h);
      PairNot(checkhi, checklo);
      PairParts(0xff - checkhi, 0xff - checklo);
      PutByte(0xff - checkhi);
      PutByte(0xff - checklo);
      PutData(Quad(h.myip));
      PutData(Quad(h.remip));
    }

    /** ip_recv: the header's bytes are read and summed in order and tested; what follows is
        cut to the length that it announces. */
    method IpRecv(msg: seq<Byte>, myip: seq<Byte>) returns (ok: bool, iplen: Word, data: seq<Byte>)
      requires |myip| == 4
      modifies this`checkhi, this`checklo, this`checkflag
      ensures ok <==> Accepted(msg, myip)
      ensures ok ==> iplen == Pair(msg[2], msg[3]) && data == msg[20..Max(20, Min(|msg|, iplen))]
    {
      hide Pair, Canon, BeSum, SumFrom, Half, Weight;
      Clear();
      ok, iplen, data := false, 0, [];
      if |msg| >= 20 && msg[0] == 0x45 {
        CheckData(msg[..20]);
        SumFromIsBeSum(msg[..20]);
        PairFull(checkhi, checklo);
        iplen := Pair(msg[2], msg[3]);
        ok := (msg[16..20] == myip || msg[16..20] == [255, 255, 255, 255])
          && checkhi == 0xff && checklo == 0xff && iplen > 20;
        if ok { data := msg[20..]; }
        if ok && iplen - 20 < |data| { data := data[..iplen - 20]; }
      }
    }

    /** icmp_recv: a request that verifies is answered; the checksum is adjusted for the
        changed type, with its carry. */
    method IcmpRecv(mine: bool, msg: seq<Byte>) returns (reply: Option<seq<Byte>>)
      modifies this`checkhi, this`checklo, this`checkflag
      ensures reply == if mine then IcmpReply(msg) else None
    {
      hide Pair, High, Low, Canon, BeSum, SumFrom, W16, Half, Weight;
      Clear();
      reply := None;
      if mine && |msg| >= 4 && msg[0] == 8 && msg[1] == 0 {
        var csum: int := Pair(msg[2], msg[3]);
        CheckData(msg);
        SumFromIsBeSum(msg);
        PairFull(checkhi, checklo);
        if checkhi == 0xff && checklo == 0xff {
          csum := W16(csum + 0x0800);
          if csum < 0x0800 { csum := W16(csum + 1); }
          reply := Some([0, 0, High(csum), Low(csum)] + msg[4..]);
        }
      }
    }
  }

  /** Byte addition with wrap-around. */
  function AddByte(a: Byte, b: Byte): Byte {
    var sum: int := a as int + b as int;
    if sum < 0x100 then sum else sum - 0x100
  }

  // ---- IP headers ----

  /** The fields of a header that put_ip makes. */
  datatype PicHeader = PicHeader(iplen: Word, id: Byte, ipcol: Byte, myip: LWord, remip: LWord) {
    /** The bytes before the checksum, and those after it. */
    function Front(): (s: seq<Byte>)
      ensures |s| == 10
    { [0x45, 0, High(iplen), Low(iplen), 0, id, 0, 0, 100, ipcol] }

    function Addresses(): (s: seq<Byte>)
      ensures |s| == 8
    { Quad(myip) + Quad(remip) }
  }

  /** The complement of the checksum of everything but the checksum itself. */
  function Complement(h: PicHeader): Word { Not(Canon(BeSum(h.Front() + h.Addresses()))) }

  function Emitted(h: PicHeader): (s: seq<Byte>)
    ensures |s| == 20
  { h.Front() + [High(Complement(h)), Low(Complement(h))] + h.Addresses() }

  lemma RunningSum(h: PicHeader)
    ensures var f, a, b := h.Front(), Quad(h.myip), Quad(h.remip);
      Canon(Canon(Canon(SumFrom(false, f)) + SumFrom(false, a)) + SumFrom(false, b)) == Canon(BeSum(f + h.Addresses()))
  {
    hide Canon, BeSum, SumFrom, Quad;
    var f, a, b := h.Front(), Quad(h.myip), Quad(h.remip);
    SumFromIsBeSum(f);
    SumFromIsBeSum(a);
    SumFromIsBeSum(b);
    CanonPlus(BeSum(f), BeSum(a));
    CanonPlus(BeSum(f) + BeSum(a), BeSum(b));
    BeSumSplit(a, b);
    BeSumSplit(f, a + b);
  }

  predicate Accepted(msg: seq<Byte>, myip: seq<Byte>) {
    && |msg| >= 20 && msg[0] == 0x45
    && (msg[16..20] == myip || msg[16..20] == [255, 255, 255, 255])
    && Canon(BeSum(msg[..20])) == 0xffff && Pair(msg[2], msg[3]) > 20
  }

  /** Every header that put_ip makes is accepted where it is addressed to, if it
      announces any data. */
  lemma EmittedAccepted(h: PicHeader, data: seq<Byte>)
    ensures Canon(BeSum(Emitted(h))) == 0xffff
    ensures Accepted(Emitted(h) + data, Quad(h.remip)) <==> h.iplen > 20
  {
    var f, a, c := h.Front(), h.Addresses(), [High(Complement(h)), Low(Complement(h))];
    BeSumSplit(f + c, a);
    BeSumSplit(f, c);
    BeSumSplit(f, a);
    assert c[2..] == [] && BeSum(c) == Complement(h);
    SumAndComplement(BeSum(f + a));
    var m := Emitted(h) + data;
    assert m[..20] == Emitted(h) && m[16..20] == Quad(h.remip);
  }

  /** It is accepted by the node it is addressed to, and by every node if it is a broadcast;
      by no other. */
  lemma AcceptedOnlyThere(h: PicHeader, data: seq<Byte>, node: LWord)
    ensures Accepted(Emitted(h) + data, Quad(node)) <==> h.iplen > 20 && (h.remip == node || h.remip == 0xffff_ffff)
  {
    EmittedAccepted(h, data);
    var m := Emitted(h) + data;
    assert m[..20] == Emitted(h) && m[16..20] == Quad(h.remip) && m[2] == High(h.iplen) && m[3] == Low(h.iplen);
    PartsPair(h.iplen);
    NetLong(h.remip);
    NetLong(node);
    assert [255, 255, 255, 255] == Quad(0xffff_ffff);
    NetLong(0xffff_ffff);
    hide Quad, NetValue, Canon, BeSum, Emitted, Complement;
    assert Quad(h.remip) == Quad(node) <==> h.remip == node;
  }

  /** The header's bytes, by their places in section 3.1 of RFC 791. */
  lemma EmittedSays(h: PicHeader)
    ensures var b := Emitted(h);
      && b[0] == 0x45 && b[1] == 0 && NetValue(b[2..4]) == h.iplen && NetValue(b[4..6]) == h.id
      && NetValue(b[6..8]) == 0 && b[8] == 100 && b[9] == h.ipcol
      && NetValue(b[12..16]) == h.myip && NetValue(b[16..20]) == h.remip
  {
    hide Quad, High, Low, NetValue, Complement;
    var b := Emitted(h);
    NetWord(h.iplen);
    NetPair(0, h.id);
    NetPair(0, 0);
    NetLong(h.myip);
    NetLong(h.remip);
    assert b[2..4] == [High(h.iplen), Low(h.iplen)] && b[4..6] == [0, h.id] && b[6..8] == [0, 0];
    assert b[12..16] == Quad(h.myip) && b[16..20] == Quad(h.remip);
  }

  // ---- ICMP replies ----

  /** csum += 0x0800 with carry */
  function Adjusted(csum: Word): Word {
    var c := W16(csum + 0x0800);
    if c < 0x0800 then W16(c + 1) else c
  }

  function IcmpReply(msg: seq<Byte>): Option<seq<Byte>> {
    if |msg| >= 4 && msg[0] == 8 && msg[1] == 0 && Canon(BeSum(msg)) == 0xffff
    then var c := Adjusted(Pair(msg[2], msg[3])); Some([0, 0, High(c), Low(c)] + msg[4..])
    else None
  }

  /** Exactly which messages are answered: those that begin with type 8 and code 0, and whose
      words add up to a multiple of 0xffff; and with what: the same but for type and sum. */
  lemma PingAnswered(msg: seq<Byte>)
    ensures IcmpReply(msg).Some? <==> |msg| > 3 && msg[..2] == [8, 0] && BeSum(msg) % 0xffff == 0
    ensures IcmpReply(msg).Some? ==>
      var r := IcmpReply(msg).value; |r| == |msg| && r[..2] == [0, 0] && r[4..] == msg[4..]
  {
    CanonIsResidue(BeSum(msg));
    if |msg| > 3 {
      assert msg[..2] == [8, 0] <==> msg[0] == 8 && msg[1] == 0 by { assert msg[..2] == [msg[0], msg[1]]; }
      if msg[0] == 8 {
        assert BeSum(msg) >= 0x800;
        MultipleOrNot(BeSum(msg));
      }
    }
  }

  lemma MultipleOrNot(v: nat)
    requires v > 0
    ensures 1 + (v - 1) % 0xffff == 0xffff <==> v % 0xffff == 0
  {}

  lemma AdjustedSum(csum: Word)
    ensures Adjusted(csum) > 0
    ensures Adjusted(csum) == csum + 0x0800 || Adjusted(csum) == csum + 0x0800 - 0xffff
  {
    WrapIsMod(csum + 0x0800, 0x1_0000);
    if csum + 0x0800 >= 0x1_0000 { ModUnique(csum + 0x0800, 0x1_0000, 1, csum + 0x0800 - 0x1_0000); }
  }

  /** The incremental update: changing the type from 8 to 0 and adjusting the checksum
      leaves the sum of the message the same. */
  lemma AdjustedVerifies(csum: Word, data: seq<Byte>)
    ensures var c := Adjusted(csum);
      Canon(BeSum([0, 0, High(c), Low(c)] + data)) == Canon(BeSum([8, 0, High(csum), Low(csum)] + data))
  {
    var c := Adjusted(csum);
    AdjustedSum(csum);
    var rep, req := [0, 0, High(c), Low(c)], [8, 0, High(csum), Low(csum)];
    BeSumSplit(rep, data);
    BeSumSplit(req, data);
    assert rep[2..] == [High(c), Low(c)] && rep[2..][2..] == [];
    assert req[2..] == [High(csum), Low(csum)] && req[2..][2..] == [];
    assert BeSum(rep) == c && BeSum(req) == 0x800 + csum;
    if c != csum + 0x0800 { CanonTurns(c + BeSum(data), 1); }
  }

  /** Every reply verifies. */
  lemma ReplyVerifies(msg: seq<Byte>)
    requires IcmpReply(msg).Some?
    ensures Canon(BeSum(IcmpReply(msg).value)) == 0xffff
  {
    hide Pair, High, Low, Canon, BeSum, Adjusted;
    var csum := Pair(msg[2], msg[3]);
    PairParts(msg[2], msg[3]);
    assert msg == [8, 0, High(csum), Low(csum)] + msg[4..];
    AdjustedVerifies(csum, msg[4..]);
  }

  // ---- The two implementations ----

  /** check_byte run over any bytes from zero, and csum over the same bytes, give the same
      checksum in the two byte orders. */
  lemma TwoImplementationsAgree(s: seq<Byte>)
    ensures Canon(SumFrom(false, s)) == Swap(Canon(LeSum(s)))
    ensures Canon(SumFrom(false, s)) == 0xffff <==> Canon(LeSum(s)) == 0xffff
  {
    hide BeSum, LeSum, SumFrom, Canon;
    SumFromIsBeSum(s);
    ByteOrderAgreement(s);
  }
}
