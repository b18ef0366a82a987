/** PPP framing of p16_ppp.c: byte stuffing with a frame check sequence, and the receiver
    that undoes it one serial byte at a time. */
module Ppp {
  import opened Fcs16

  const END: B8 := 0x7e
  const ESC: B8 := 0x7d
  const START: B8 := 0xff
  const BUFFLEN := 128
  const MAXDATA := 122

  // ---- Transmission ----

  function Stuff(b: B8): seq<B8> {
    if b == END || b == ESC || b < 0x20 then [ESC, b ^ 0x20] else [b]
  }

  function Stuffed(s: seq<B8>): seq<B8> {
    if s == [] then [] else Stuff(s[0]) + Stuffed(s[1..])
  }

  /** Bytes that may not go over the line as they are: the two of the framing, and control
      characters, which the equipment in between might take for its own. */
  predicate Unsafe(b: B8) { b == END || b == ESC || b < 0x20 }

  lemma StuffSafe(b: B8)
    ensures forall c :: c in Stuff(b) ==> c >= 0x20 && c != END
    ensures if Unsafe(b) then |Stuff(b)| == 2 else Stuff(b) == [b]
  {}

  /** Nothing in a stuffed frame is a control character or the framing byte. */
  lemma {:induction false} StuffedSafe(s: seq<B8>)
    ensures forall c :: c in Stuffed(s) ==> c >= 0x20 && c != END
    ensures |Stuffed(s)| >= |s|
  {
    hide Stuff;
    if s != [] {
      StuffSafe(s[0]);
      StuffedSafe(s[1..]);
    }
  }

  /** A frame goes over the line as it is if and only if nothing in it is unsafe; every
      unsafe byte makes it longer. */
  lemma {:induction false} StuffedOnlyUnsafe(s: seq<B8>)
    ensures Stuffed(s) == s <==> forall k :: 0 <= k < |s| ==> !Unsafe(s[k])
    ensures |Stuffed(s)| == |s| + |UnsafeIn(s)|
  {
    hide Stuff, Unsafe;
    if s != [] {
      StuffSafe(s[0]);
      StuffedOnlyUnsafe(s[1..]);
      StuffedSafe(s[1..]);
      assert s == [s[0]] + s[1..];
      if Unsafe(s[0]) {
        assert |Stuffed(s)| > |s|;
      } else {
        assert Stuffed(s) == [s[0]] + Stuffed(s[1..]);
        assert Stuffed(s) == s <==> Stuffed(s[1..]) == s[1..] by {
          assert ([s[0]] + Stuffed(s[1..]))[1..] == Stuffed(s[1..]);
        }
        var t := s[1..];
        assert (forall k :: 0 <= k < |s| ==> !Unsafe(s[k])) <==> (forall k :: 0 <= k < |t| ==> !Unsafe(t[k])) by {
          assert forall k :: 0 < k < |s| ==> s[k] == s[1..][k - 1];
          assert forall k :: 0 <= k < |s[1..]| ==> s[1..][k] == s[k + 1];
        }
      }
    }
  }

  function UnsafeIn(s: seq<B8>): seq<B8>
  { if s == [] then [] else (if Unsafe(s[0]) then [s[0]] else []) + UnsafeIn(s[1..]) }

  /** On the line the framing byte stands at the two ends of a frame, and nowhere else. */
  lemma FramedAtTheEnds(s: seq<B8>)
    ensures var w := Line(s); forall k :: 0 <= k < |w| ==> (w[k] == END <==> k == 0 || k == |w| - 1)
  {
    StuffedSafe(s);
    hide Stuffed;
    var w := Line(s);
    forall k | 0 < k < |w| - 1 ensures w[k] != END { assert w[k] == Stuffed(s)[k - 1] && w[k] in Stuffed(s); }
  }

  /** What is framed: address, control and protocol, then the payload. */
  datatype Packet = Packet(pcol: bv16, data: seq<B8>) {
    function Head(): seq<B8> { [0xff, 3, (pcol >> 8) as B8, (pcol & 0xff) as B8] }

    function Frame(): seq<B8> { Head() + data }

    function Sealed(): seq<B8> {
      var crc := Fcs(INITIAL, Frame());
      Frame() + [LowByte(crc), HighByte(crc)]
    }
  }

  /** The bytes on the line for one frame. */
  function Line(s: seq<B8>): seq<B8> { [END] + Stuffed(s) + [END] }

  function Wire(p: Packet): seq<B8> { Line(p.Sealed()) }

  class Transmitter {
    var txcrc: B16
    var serial: seq<B8>

    method SendPppByte(b: B8)
      modifies this
      ensures serial == old(serial) + Stuff(b) && txcrc == Fcs(old(txcrc), [b])
    {
      if b == END || b == ESC || b < 0x20 {
        serial := serial + [ESC];
        serial := serial + [b ^ 0x20];
      } else {
        serial := serial + [b];
      }
      FcsOne(txcrc, b);
      txcrc := PppCrc16(txcrc, b);
    }

    /** send_ppp_byte, after the bytes `before` of a frame. */
    method SendNext(b: B8, ghost start: seq<B8>, ghost before: seq<B8>)
      requires serial == start + Stuffed(before) && txcrc == Fcs(INITIAL, before)
      modifies this
      ensures serial == start + Stuffed(before + [b]) && txcrc == Fcs(INITIAL, before + [b])
    {
      hide Stuff, Fcs;
      StuffedSplit(before, [b]);
      FcsSplit(INITIAL, before, [b]);
      assert Stuffed([b]) == Stuff(b);
      SendPppByte(b);
    }

    method Transmit(p: Packet)
      modifies this
      ensures serial == old(serial) + Wire(p)
    {
      hide LowByte, HighByte, Fcs, Stuff;
      ghost var start := serial + [END];
      txcrc := 0xffff;
      serial := serial + [END];
      SendHeader(p, start);
      SendPayload(p, start);
      var hi, lo := HighByte(txcrc), LowByte(txcrc);
      SendNext(lo, start, p.Frame());
      SendNext(hi, start, p.Frame() + [lo]);
      assert p.Frame() + [lo] + [hi] == p.Sealed();
      serial := serial + [END];
    }

    method SendHeader(p: Packet, ghost start: seq<B8>)
      requires serial == start && txcrc == INITIAL
      modifies this
      ensures serial == start + Stuffed(p.Head()) && txcrc == Fcs(INITIAL, p.Head())
    {
      hide Fcs, Stuff;
      FcsEmpty(txcrc);
      ghost var h := p.Head();
      assert [] + [h[0]] == h[..1] && h[..1] + [h[1]] == h[..2];
      assert h[..2] + [h[2]] == h[..3] && h[..3] + [h[3]] == h;
      SendNext(0xff, start, []);
      SendNext(3, start, h[..1]);
      SendNext((p.pcol >> 8) as B8, start, h[..2]);
      SendNext((p.pcol & 0xff) as B8, start, h[..3]);
    }

    method SendPayload(p: Packet, ghost start: seq<B8>)
      requires serial == start + Stuffed(p.Head()) && txcrc == Fcs(INITIAL, p.Head())
      modifies this
      ensures serial == start + Stuffed(p.Frame()) && txcrc == Fcs(INITIAL, p.Frame())
    {
      hide Stuff, Fcs, Stuffed, Packet.Head;
      assert p.Head() + p.data[..0] == p.Head();
      for n := 0 to |p.data|
        invariant serial == start + Stuffed(p.Head() + p.data[..n])
        invariant txcrc == Fcs(INITIAL, p.Head() + p.data[..n])
      {
        assert p.Head() + p.data[..n] + [p.data[n]] == p.Head() + p.data[..n + 1];
        SendNext(p.data[n], start, p.Head() + p.data[..n]);
      }
      assert p.data[..|p.data|] == p.data;
    }
  }

  lemma {:induction false} StuffedSplit(s: seq<B8>, t: seq<B8>)
    ensures Stuffed(s + t) == Stuffed(s) + Stuffed(t)
  {
    hide Stuff;
    if s == [] {
      assert s + t == t;
    } else {
      StuffedSplit(s[1..], t);
      assert (s + t)[1..] == s[1..] + t && (s + t)[0] == s[0];
      Concat(Stuff(s[0]), Stuffed(s[1..]), Stuffed(t));
    }
  }

  lemma Concat(a: seq<B8>, b: seq<B8>, c: seq<B8>)
    ensures a + (b + c) == (a + b) + c
  {}

  // ---- Reception ----

  /** The receiver, the frames it has delivered, and the last modem message's length. */
  datatype Rx = Rx(lastb: B8, plus: B8, crc: B16, inframe: bool, buf: seq<B8>, frames: seq<seq<B8>>, mdm: nat)

  /** Escapes and flags: the receiver, the byte meant, and whether to save it. */
  function Decode(r: Rx, b: B8): (Rx, B8, bool) {
    if r.lastb == ESC then (r.(lastb := 0), b ^ 0x20, true)
    else if b == ESC then (r.(lastb := ESC), b, false)
    else if b == END then
      var good := r.inframe && r.crc == RESIDUE && |r.buf| > 2;
      (r.(inframe := false, buf := [], frames := if good then r.frames + [r.buf[..|r.buf| - 2]] else r.frames),
       b, false)
    else (r, b, true)
  }

  function Modem(r: Rx): Rx { r.(mdm := |r.buf|, buf := [], plus := 0) }

  /** Between frames: the start of a frame, or a message from the modem. */
  function Outside(r: Rx, b: B8, save: bool): (Rx, bool) {
    if b == START then (r.(crc := INITIAL, buf := [], inframe := true), save)
    else if b == 13 || b == 10 then (Modem(r), false)
    else if |r.buf| == 5 && r.buf[0] == 0x43 && b == 0x54 then (Modem(r), false)
    else if b == 0x2b then
      if r.plus + 1 >= 3 then (Modem(r), false) else (r.(plus := r.plus + 1), save)
    else (r.(plus := 0), save)
  }

  function Save(r: Rx, b: B8): Rx {
    r.(crc := if r.inframe then Fcs(r.crc, [b]) else r.crc,
       buf := if |r.buf| < BUFFLEN then r.buf + [b] else r.buf)
  }

  function Poll(r: Rx, b0: B8): Rx {
    var (r1, b, save1) := Decode(r, b0);
    var (r2, save) := if r1.inframe then (r1, save1) else Outside(r1, b, save1);
    if save then Save(r2, b) else r2
  }

  class Receiver {
    var lastb: B8
    var pluscount: B8
    var crc: B16
    var inframe: bool
    var rxbuffin: nat
    const rxbuff: array<B8>
    var mdm_rxin: nat
    ghost var frames: seq<seq<B8>>

    ghost predicate Valid()
      reads this, rxbuff
    { rxbuff.Length == BUFFLEN && rxbuffin <= BUFFLEN }

    ghost function Abs(): Rx
      requires Valid()
      reads this, rxbuff
    { Rx(lastb, pluscount, crc, inframe, rxbuff[..rxbuffin], frames, mdm_rxin) }

    constructor ()
      ensures Valid() && Abs() == Rx(0, 0, 0, false, [], [], 0)
    {
      lastb, pluscount, crc, inframe, rxbuffin, mdm_rxin := 0, 0, 0, false, 0, 0;
      rxbuff := new B8[BUFFLEN](_ => 0);
      frames := [];
    }

    method ModemMessage()
      requires Valid()
      modifies this
      ensures Valid() && Abs() == Modem(old(Abs())) && frames == old(frames)
    {
      mdm_rxin := rxbuffin;
      rxbuffin, pluscount := 0, 0;
    }

    /** poll_net, when a byte has come in: `delivered` is the new net_rxin, or 0. */
    method PollNet(b0: B8) returns (delivered: nat)
      requires Valid()
      modifies this, rxbuff
      ensures Valid() && Abs() == Poll(old(Abs()), b0)
      ensures delivered <= old(rxbuffin)
      ensures frames == old(frames) + if delivered > 0 then [old(rxbuff[..delivered])] else []
    {
      hide Fcs, Outside, Save;
      delivered := 0;
      var b, saver := b0, true;
      if lastb == ESC {
        lastb := 0;
        b := b ^ 0x20;
      } else if b == ESC {
        lastb := ESC;
        saver := false;
      } else if b == END {
        if inframe {
          if crc == 0xf0b8 && rxbuffin > 2 {
            delivered := rxbuffin - 2;
            assert rxbuff[..rxbuffin][..delivered] == rxbuff[..delivered];
            frames := frames + [rxbuff[..delivered]];
          }
          inframe := false;
        }
        saver := false;
        rxbuffin := 0;
      }
      assert (Abs(), b, saver) == Decode(old(Abs()), b0);
      if !inframe { saver := OutOfFrame(b, saver); }
      if saver { SaveByte(b); }
    }

    /** The part for bytes that are not in a frame. */
    method OutOfFrame(b: B8, save: bool) returns (saver: bool)
      requires Valid()
      modifies this
      ensures Valid() && (Abs(), saver) == Outside(old(Abs()), b, save)
      ensures frames == old(frames)
    {
      saver := save;
      if b == START {
        crc := 0xffff;
        rxbuffin := 0;
        inframe := true;
      } else if b == 13 || b == 10 {
        ModemMessage();
        saver := false;
      } else if rxbuff[0] == 0x43 && rxbuffin == 5 && b == 0x54 {
        ModemMessage();
        saver := false;
      } else if b == 0x2b {
        pluscount := pluscount + 1;
        if pluscount >= 3 {
          ModemMessage();
          saver := false;
        }
      } else {
        pluscount := 0;
      }
    }

    method SaveByte(b: B8)
      requires Valid()
      modifies this`crc, this`rxbuffin, rxbuff
      ensures Valid() && Abs() == Save(old(Abs()), b)
    {
      if inframe {
        FcsOne(crc, b);
        crc := PppCrc16(crc, b);
      }
      if rxbuffin < BUFFLEN {
        rxbuff[rxbuffin] := b;
        rxbuffin := rxbuffin + 1;
      }
    }
  }

  function Run(r: Rx, s: seq<B8>): Rx
    decreases |s|
  { if s == [] then r else Run(Poll(r, s[0]), s[1..]) }

  lemma {:induction false} RunSplit(r: Rx, s: seq<B8>, t: seq<B8>)
    ensures Run(r, s + t) == Run(Run(r, s), t)
    decreases |s|
  {
    hide Poll;
    if s == [] {
      assert s + t == t;
    } else {
      RunSplit(Poll(r, s[0]), s[1..], t);
      assert (s + t)[1..] == s[1..] + t;
    }
  }

  // ---- The receiver undoes the stuffing ----

  lemma StuffParts(b: B8)
    ensures (b ^ 0x20) ^ 0x20 == b
  {}

  /** In a frame, a stuffed byte is taken for the byte itself. */
  lemma ByteIn(r: Rx, b: B8)
    requires r.lastb == 0 && r.inframe
    ensures Run(r, Stuff(b)) == Save(r, b)
  {
    hide Fcs;
    StuffParts(b);
    if b == END || b == ESC || b < 0x20 {
      var r1 := r.(lastb := ESC);
      assert Stuff(b)[1..] == [b ^ 0x20] && [b ^ 0x20][1..] == [];
      assert Poll(r, ESC) == r1 && r1.(lastb := 0) == r;
      assert Run(r, Stuff(b)) == Run(r1, [b ^ 0x20]) == Poll(r1, b ^ 0x20);
    } else {
      assert [b][1..] == [];
    }
  }

  /** What fits in the receive buffer. */
  function Clip(s: seq<B8>): seq<B8> { if |s| <= BUFFLEN then s else s[..BUFFLEN] }

  lemma {:induction false} BodyIn(r: Rx, s: seq<B8>)
    requires r.lastb == 0 && r.inframe && |r.buf| <= BUFFLEN
    ensures Run(r, Stuffed(s)) == r.(crc := Fcs(r.crc, s), buf := Clip(r.buf + s))
    decreases |s|
  {
    hide Fcs, Stuff, Poll;
    if s == [] {
      FcsEmpty(r.crc);
      assert r.buf + s == r.buf;
    } else {
      RunSplit(r, Stuff(s[0]), Stuffed(s[1..]));
      ByteIn(r, s[0]);
      BodyIn(Save(r, s[0]), s[1..]);
      assert [s[0]] + s[1..] == s;
      FcsSplit(r.crc, [s[0]], s[1..]);
      ClipOne(r.buf, s);
    }
  }

  lemma FcsEmpty(crc: B16)
    ensures Fcs(crc, []) == crc
  {}

  lemma ClipOne(buf: seq<B8>, s: seq<B8>)
    requires |buf| <= BUFFLEN && s != []
    ensures Clip((if |buf| < BUFFLEN then buf + [s[0]] else buf) + s[1..]) == Clip(buf + s)
  {
    if |buf| < BUFFLEN { assert buf + [s[0]] + s[1..] == buf + s; }
  }

  /** The frame that the receiver gets out of s. */
  function Outcome(s: seq<B8>): seq<seq<B8>> {
    if Fcs(INITIAL, s) == RESIDUE && |s| > 2 then [Clip(s)[..|Clip(s)| - 2]] else []
  }

  predicate Idle(r: Rx) { r.lastb == 0 && !r.inframe }

  // ---- Messages of the modem, between frames ----

  /** A byte of such a message. */
  predicate Text(b: B8) { b !in {END, ESC, START, 13, 10, 0x2b} }

  lemma TextSaved(r: Rx, b: B8)
    requires Idle(r) && Text(b) && |r.buf| < 128 && !(|r.buf| == 5 && r.buf[0] == 0x43 && b == 0x54)
    ensures Poll(r, b) == r.(buf := r.buf + [b], plus := 0)
  {
    hide Fcs;
  }

  /** What would be taken for a connection message: C, four more bytes, and T. */
  predicate Calls(s: seq<B8>) { |s| >= 6 && s[0] == 0x43 && s[5] == 0x54 }

  lemma {:induction false} MessageSaved(r: Rx, s: seq<B8>, t: seq<B8>)
    requires Idle(r) && r.buf == s && |s + t| <= 128 && !Calls(s + t) && forall k :: 0 <= k < |t| ==> Text(t[k])
    ensures Run(r, t) == r.(buf := s + t, plus := if t == [] then r.plus else 0)
    decreases |t|
  {
    hide Poll;
    if t == [] {
      assert s + t == s;
    } else {
      assert s + t == (s + [t[0]]) + t[1..] && (s + t)[|s|] == t[0];
      TextSaved(r, t[0]);
      MessageSaved(r.(buf := s + [t[0]], plus := 0), s + [t[0]], t[1..]);
    }
  }

  /** A message ends with a return or a new line: its length is noted, and the next begins. */
  lemma MessageEnds(r: Rx, t: seq<B8>, end: B8)
    requires Idle(r) && r.buf == [] && |t| <= 128 && !Calls(t) && forall k :: 0 <= k < |t| ==> Text(t[k])
    requires end == 13 || end == 10
    ensures Run(r, t + [end]) == r.(mdm := |t|, buf := [], plus := 0)
  {
    assert [] + t == t;
    MessageSaved(r, [], t);
    RunSplit(r, t, [end]);
    assert [end][1..] == [];
    hide Fcs, Idle;
  }

  /** Or with the T of the six letters of CLIENT, or any like them. */
  lemma CallEnds(r: Rx, t: seq<B8>)
    requires Idle(r) && r.buf == t && |t| == 5 && t[0] == 0x43
    ensures Poll(r, 0x54) == r.(mdm := 5, buf := [], plus := 0)
  {
    hide Fcs;
  }

  /** Three plus signs one after the other are a message; fewer are not. */
  lemma PlusPlusPlus(r: Rx)
    requires Idle(r) && r.plus == 0 && |r.buf| <= 126
    ensures Run(r, [0x2b]) == r.(plus := 1, buf := r.buf + [0x2b])
    ensures Run(r, [0x2b, 0x2b]) == r.(plus := 2, buf := r.buf + [0x2b, 0x2b])
    ensures Run(r, [0x2b, 0x2b, 0x2b]) == r.(mdm := |r.buf| + 2, buf := [], plus := 0)
  {
    var p: B8 := 0x2b;
    assert [p, p, p][1..] == [p, p] && [p, p][1..] == [p] && [p][1..] == [];
    var r1 := r.(plus := 1, buf := r.buf + [p]);
    var r2 := r.(plus := 2, buf := r.buf + [p, p]);
    assert r.buf + [p] + [p] == r.buf + [p, p];
    assert Poll(r, p) == r1 && Poll(r1, p) == r2 && Poll(r2, p) == r.(mdm := |r.buf| + 2, buf := [], plus := 0);
    hide Poll;
  }

  /** What stands in front of the payload: the address of all stations, the control byte for
      unnumbered information, and the protocol, high byte first (RFC 1662, section 3.1). */
  lemma FrameSays(p: Packet)
    ensures var f := p.Frame();
      && f[0] == 255 && f[1] == 3 && (((f[2] as bv16) << 8) | (f[3] as bv16)) == p.pcol && f[4..] == p.data
  {}

  lemma StartIn(r: Rx)
    requires Idle(r)
    ensures Run(r, [END, START]) == r.(plus := 0, crc := Fcs(INITIAL, [0xff]), inframe := true, buf := [0xff])
  {
    hide Fcs;
    assert [END, START][1..] == [START] && [START][1..] == [];
    assert Poll(r, END) == r.(plus := 0, buf := []);
  }

  lemma EndIn(r: Rx)
    requires r.lastb == 0 && r.inframe
    ensures Run(r, [END]) == r.(plus := 0, inframe := false, buf := [],
      frames := if r.crc == RESIDUE && |r.buf| > 2 then r.frames + [r.buf[..|r.buf| - 2]] else r.frames)
  {
    assert [END][1..] == [];
  }

  /** Whatever is stuffed and put between flags, if it begins with the start byte, is
      delivered exactly when its check value is right, in whole or up to what fits. */
  lemma LineIn(r: Rx, s: seq<B8>)
    requires Idle(r) && s != [] && s[0] == 0xff
    ensures Idle(Run(r, Line(s))) && Run(r, Line(s)).frames == r.frames + Outcome(s)
  {
    hide Fcs, Poll, Run;
    assert s == [0xff] + s[1..];
    var r1 := Run(r, [END, START]);
    StartIn(r);
    BodyIn(r1, s[1..]);
    FcsSplit(INITIAL, [0xff], s[1..]);
    var r2 := Run(r1, Stuffed(s[1..]));
    EndIn(r2);
    assert Stuffed(s) == [START] + Stuffed(s[1..]);
    assert Line(s) == [END, START] + Stuffed(s[1..]) + [END];
    RunSplit(r, [END, START], Stuffed(s[1..]));
    RunSplit(r, [END, START] + Stuffed(s[1..]), [END]);
  }

  // ---- Round trip ----

  /** The part of a packet that is delivered. */
  function Delivered(p: Packet): seq<B8> {
    if |p.data| <= MAXDATA then p.Frame() else p.Frame()[..4 + MAXDATA]
  }

  lemma OutcomeOfPacket(p: Packet)
    ensures Outcome(p.Sealed()) == [Delivered(p)]
  {
    var f, crc := p.Frame(), Fcs(INITIAL, p.Frame());
    SealedResidue(crc);
    FcsSplit(INITIAL, f, [LowByte(crc), HighByte(crc)]);
    hide Fcs, LowByte, HighByte;
    var s := p.Sealed();
    if |p.data| <= MAXDATA {
      assert s[..|s| - 2] == f;
    } else {
      assert s[..BUFFLEN][..BUFFLEN - 2] == f[..4 + MAXDATA];
    }
  }

  function WireAll(ps: seq<Packet>): seq<B8> { if ps == [] then [] else Wire(ps[0]) + WireAll(ps[1..]) }

  function AllDelivered(ps: seq<Packet>): seq<seq<B8>> {
    if ps == [] then [] else [Delivered(ps[0])] + AllDelivered(ps[1..])
  }

  /** Framing round trip: any list of packets, sent one after the other, comes out of the
      receiver in order, each of them once, cut to what the receive buffer holds. */
  lemma {:induction false} RoundTrip(r: Rx, ps: seq<Packet>)
    requires Idle(r)
    ensures Idle(Run(r, WireAll(ps))) && Run(r, WireAll(ps)).frames == r.frames + AllDelivered(ps)
    decreases |ps|
  {
    hide Poll, Outcome, Delivered, Line;
    if ps != [] {
      var p := ps[0];
      LineIn(r, p.Sealed());
      OutcomeOfPacket(p);
      RunSplit(r, Wire(p), WireAll(ps[1..]));
      RoundTrip(Run(r, Wire(p)), ps[1..]);
    }
  }

  /** A packet arrives as it was sent if and only if its payload is at most 122 bytes. */
  lemma DeliveredWhole(p: Packet)
    ensures Delivered(p) == p.Frame() <==> |p.data| <= MAXDATA
  {
    if |p.data| > MAXDATA { assert |Delivered(p)| < |p.Frame()|; }
  }

  /** A frame damaged by a burst of at most 16 bits, after its start byte, is never
      delivered, whatever its length. */
  lemma DamagedNotDelivered(r: Rx, p: Packet, g: seq<B8>,
                            before: seq<bool>, v: seq<bool>, w: seq<bool>, after: seq<bool>)
    requires Idle(r) && g != [] && g[0] == 0xff
    requires Burst(p.Sealed(), g, before, v, w, after)
    ensures Run(r, Line(g)).frames == r.frames
  {
    hide Poll, Burst, LowByte, HighByte;
    var f, crc := p.Frame(), Fcs(INITIAL, p.Frame());
    SealedResidue(crc);
    FcsSplit(INITIAL, f, [LowByte(crc), HighByte(crc)]);
    BurstDetected(INITIAL, p.Sealed(), g, before, v, w, after);
    LineIn(r, g);
  }

  /** So is a frame in which any two adjacent bytes have been changed. */
  lemma ChangedNotDelivered(r: Rx, p: Packet, s: seq<B8>, t: seq<B8>, b1: B8, b2: B8, c1: B8, c2: B8)
    requires Idle(r) && p.Sealed() == s + [b1, b2] + t
    requires (b1 != c1 || b2 != c2) && (s + [c1, c2])[0] == 0xff
    ensures Run(r, Line(s + [c1, c2] + t)).frames == r.frames
  {
    hide Poll, LowByte, HighByte;
    var f, crc := p.Frame(), Fcs(INITIAL, p.Frame());
    SealedResidue(crc);
    FcsSplit(INITIAL, f, [LowByte(crc), HighByte(crc)]);
    TwoBytesDetected(INITIAL, s, t, b1, b2, c1, c2);
    LineIn(r, s + [c1, c2] + t);
  }
}
