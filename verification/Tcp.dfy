/** The TCP socket of TCP.C: opening, data transfer, closing, timeouts. A socket's
    sequence and acknowledgement values are its buffers' absolute pointers. */
module Tcp {
  import opened Words
  import opened Wrappers
  import opened CircBuff
  import opened RingBuff

  const RETRIES := 3
  const TIMEOUT := 2000
  const RX_WINDOW := 3000

  datatype TFlag = FIN | SYN | RST | PSH | ACK | URG

  /** A segment; `data` is what follows the options. */
  datatype Segment = Segment(flags: set<TFlag>, seqNo: LWord, ackNo: LWord, window: Word, data: seq<Byte>)

  datatype State =
    | Closed | SynRcvd | Est | CloseWait | LastAck | Reset
    | ActOpen | ArpSent | ArpRcvd | SynSent
    | ActClose | FinWait1 | FinWait2 | Closing | TimedWait

  /** What has happened on a socket since it was opened. Towards the peer: the initial
      position, every byte the application put, the furthest trial position, whether a
      FIN was sent. From the peer: the initial position, every byte accepted, the part
      the application took, whether its FIN was accepted. */
  datatype History = History(
    txOpen: bool, iss: LWord, sent: seq<Byte>, high: nat, finSent: bool,
    rxOpen: bool, irs: LWord, recv: seq<Byte>, got: seq<Byte>, finSeen: bool)

  datatype Sock = Sock(
    state: State, rx: Buf, tx: Buf, rxwin: Word, txwin: Word, rxseq: LWord, rxack: LWord,
    txflags: set<TFlag>, connflags: set<TFlag>,
    time: LWord, timeout: int, retries: int, h: History)
  {
    predicate Ok() { rx.Ok() && tx.Ok() }
  }

  /** What the application does when it is called up: put bytes, take bytes, maybe ask
      for the push flag; and the verdict it returns. */
  datatype Upcall = Upcall(ok: bool, put: seq<Byte>, take: nat, push: bool)

  /** The surroundings of one call: the clock, the application, the largest segment data
      the frame can hold, and whether the link is SLIP. */
  datatype Context = Context(now: LWord, up: Upcall, maxdata: nat, slip: bool)

  type Result = (Sock, Option<Segment>)

  // ---- Operations on the buffers, with their history ----

  function Offer(s: Sock, bytes: seq<Byte>): (r: Sock)
    requires s.Ok()
    ensures r.Ok()
  {
    s.(tx := s.tx.Put(bytes), h := s.h.(sent := s.h.sent + bytes[..s.tx.PutCount(bytes)]))
  }

  function Take(s: Sock, n: nat): (r: Sock)
    requires s.Ok()
    ensures r.Ok()
  {
    s.(rx := s.rx.AfterOut(n), h := s.h.(got := s.h.got + s.rx.OutBytes(n)))
  }

  function Accept(s: Sock, bytes: seq<Byte>): (r: Sock)
    requires s.Ok()
    ensures r.Ok()
  {
    s.(rx := s.rx.Put(bytes), h := s.h.(recv := s.h.recv + bytes[..s.rx.PutCount(bytes)]))
  }

  function CallUp(s: Sock, up: Upcall): (r: Sock)
    requires s.Ok()
    ensures r.Ok()
  {
    Offer(Take(s, up.take), up.put).(connflags := if up.push then {PSH} else s.connflags)
  }

  function OpenTx(s: Sock, start: LWord): (r: Sock)
    requires s.Ok()
    ensures r.Ok()
  {
    s.(tx := s.tx.AllAt(start), rxwin := RX_WINDOW, connflags := {},
       h := s.h.(txOpen := true, iss := start, sent := [], high := 0))
  }

  function OpenRx(s: Sock, start: LWord): (r: Sock)
    requires s.Ok()
    ensures r.Ok()
  {
    s.(rx := s.rx.AllAt(start), h := s.h.(rxOpen := true, irs := start, recv := [], got := []))
  }

  /** States in which this end has sent its FIN. */
  predicate FinOut(st: State) { st in {LastAck, FinWait1, FinWait2, Closing, TimedWait} }

  /** States in which this end has accepted the other's FIN. */
  predicate FinIn(st: State) { st in {CloseWait, LastAck, Closing, TimedWait} }

  /** A state change (or refresh) restarts the timer and the retry count. */
  function NewState(s: Sock, st: State, now: LWord): (r: Sock)
    requires s.Ok()
    ensures r.Ok()
  {
    s.(state := st, time := now, retries := RETRIES, timeout := TIMEOUT,
       h := s.h.(finSent := s.h.finSent || FinOut(st), finSeen := s.h.finSeen || FinIn(st)))
  }

  // ---- Making segments ----

  /** A SYN takes the sequence number before the data, a FIN the one after. */
  function SeqDelta(st: State): int {
    if st == SynRcvd || st == SynSent then -1
    else if st == Closing || st == FinWait2 || st == TimedWait then 1
    else 0
  }

  function AckDelta(st: State): int { if FinIn(st) then 1 else 0 }

  function Make(s: Sock, flags: set<TFlag>, dlen: nat): (r: Result)
    requires s.Ok()
    ensures r.0.Ok()
  {
    var tx := s.tx.AfterTry(dlen);
    var trial := |s.h.sent| - |tx.data| + tx.tried;
    (s.(txflags := flags, tx := tx, h := s.h.(high := Max(s.h.high, trial))),
     Some(Segment(flags, W32(s.tx.TrialPtr() + SeqDelta(s.state)), W32(s.rx.InPtr() + AckDelta(s.state)),
                  s.rxwin, s.tx.TryBytes(dlen))))
  }

  /** The answer to a segment that fits no connection. */
  function ResetReply(seg: Segment): Segment {
    var ack: int := seg.seqNo + |seg.data| + (if SYN in seg.flags || FIN in seg.flags then 1 else 0);
    Segment({RST, ACK}, seg.ackNo, W32(ack), 0, [])
  }

  /** Send what the window and the frame allow; hold back small pieces while data is
      unacknowledged, unless forced. A negative allowance is cast to a large one. */
  function EstabTx(s: Sock, force: bool, maxdata: nat): (r: Result)
    requires s.Ok()
    ensures r.0.Ok()
  {
    var tdlen := Min(Min(s.tx.Untried(), maxdata), s.txwin - s.tx.tried);
    var go := force || (tdlen > 0 && (s.tx.tried == 0 || tdlen < maxdata / 2));
    if go then Make(s, {ACK} + s.connflags, W16(tdlen)) else (s, None)
  }

  // ---- Receiving ----

  /** The new part of a segment, given its signed distance from the receive position. */
  function NewPart(data: seq<Byte>, diff: int, rxwin: int): (r: seq<Byte>) {
    if diff == 0 then data
    else if diff < 0 && -diff <= rxwin && |data| > -diff then data[-diff..]
    else []
  }

  function EstabRx(s: Sock, seg: Option<Segment>): (r: (Sock, bool))
    requires s.Ok()
    ensures r.0.Ok()
  {
    if seg.None? || seg.value.data == [] then (s, false)
    else
      var diff := Signed32(W32(s.rxseq - s.rx.InPtr()));
      var t := Accept(s, NewPart(seg.value.data, diff, s.rxwin));
      (t, PSH in seg.value.flags || diff < 0 || |t.rx.data| > s.rxwin / 2)
  }

  /** Header values are noted, a reset is obeyed, an acceptable ACK releases data. */
  function Header(s: Sock, seg: Option<Segment>, now: LWord): (r: Sock)
    requires s.Ok()
    ensures r.Ok()
  {
    if seg.None? then s
    else
      var t := s.(rxseq := seg.value.seqNo, rxack := seg.value.ackNo, txwin := seg.value.window);
      if RST in seg.value.flags then NewState(t, Reset, now)
      else if ACK in seg.value.flags && InLimits(t.rxack, t.tx.out, t.tx.TrialPtr()) then
        t.(tx := t.tx.AfterOut(W32(t.rxack - t.tx.out)))
      else t
  }

  function RFlags(seg: Option<Segment>): set<TFlag> {
    if seg.None? then {} else seg.value.flags * {FIN, SYN, RST, ACK}
  }

  function InClosed(s: Sock, seg: Option<Segment>, c: Context): (r: Result)
    requires s.Ok()
    ensures r.0.Ok()
  {
    if seg.None? then (s, None)
    else if RFlags(seg) == {SYN} then
      var t := s.(rxseq := W32(s.rxseq + 1));
      var t1 := CallUp(OpenTx(OpenRx(t, t.rxseq), W32(c.now * 0x100)), c.up);
      if !c.up.ok then (t1.(h := s.h), Some(ResetReply(seg.value)))
      else Make(NewState(t1, SynRcvd, c.now), {SYN, ACK}, 0)
    else (s, Some(ResetReply(seg.value)))
  }

  function InSynRcvd(s: Sock, seg: Option<Segment>, c: Context): (r: Result)
    requires s.Ok()
    ensures r.0.Ok()
  {
    var t := EstabRx(s, seg).0;
    if RFlags(seg) == {ACK} && t.rxseq == t.rx.InPtr() && t.rxack == t.tx.out then
      (NewState(CallUp(t, c.up), if c.up.ok then Est else ActClose, c.now), None)
    else if seg.Some? && t.rxseq == W32(t.rx.InPtr() - 1) then Make(t, {SYN, ACK}, 0)
    else (t, None)
  }

  function InEst(s: Sock, seg: Option<Segment>, c: Context): (r: Result)
    requires s.Ok()
    ensures r.0.Ok()
  {
    var s1 := if RFlags(seg) != {} then NewState(s, s.state, c.now) else s;
    var (t, tx) := EstabRx(s1, seg);
    var t1 := CallUp(t, c.up);
    if FIN in RFlags(seg) && s1.rxseq == s1.rx.InPtr() then
      if c.up.ok then Make(NewState(t1, LastAck, c.now), {FIN, ACK}, 0)
      else EstabTx(NewState(t1, CloseWait, c.now), true, c.maxdata)
    else if !c.up.ok then EstabTx(NewState(t1, ActClose, c.now), true, c.maxdata)
    else EstabTx(t1, tx || (seg.Some? && seg.value.data != []), c.maxdata)
  }

  function InCloseWait(s: Sock, c: Context): (r: Result)
    requires s.Ok()
    ensures r.0.Ok()
  {
    var t := CallUp(s, c.up);
    if c.up.ok then Make(NewState(t, LastAck, c.now), {FIN, ACK}, 0)
    else EstabTx(t, false, c.maxdata)
  }

  function InArpRcvd(s: Sock, c: Context): (r: Result)
    requires s.Ok()
    ensures r.0.Ok()
  {
    var t := CallUp(OpenTx(s, W32(c.now * 100)), c.up);
    Make(NewState(t, SynSent, c.now), {SYN}, 0)
  }

  function InSynSent(s: Sock, seg: Option<Segment>, c: Context): (r: Result)
    requires s.Ok()
    ensures r.0.Ok()
  {
    if RFlags(seg) == {SYN, ACK} && s.rxack == s.tx.out then
      var t := CallUp(OpenRx(s, W32(s.rxseq + 1)), c.up);
      Make(NewState(t, Est, c.now), {ACK}, 0)
    else if RFlags(seg) != {} then (s, Some(ResetReply(seg.value)))
    else (s, None)
  }

  function InActClose(s: Sock, seg: Option<Segment>, c: Context): (r: Result)
    requires s.Ok()
    ensures r.0.Ok()
  {
    var t := EstabRx(s, seg).0;
    if t.tx.data != [] then EstabTx(t, false, c.maxdata)
    else Make(NewState(CallUp(t, c.up), FinWait1, c.now), {FIN, ACK}, 0)
  }

  function InFinWait1(s: Sock, seg: Option<Segment>, c: Context): (r: Result)
    requires s.Ok()
    ensures r.0.Ok()
  {
    var t := EstabRx(s, seg).0;
    var acks := ACK in RFlags(seg) && t.rxack == W32(t.tx.TrialPtr() + 1);
    if FIN in RFlags(seg) && t.rxseq == t.rx.InPtr() then
      var t1 := if acks then NewState(t, TimedWait, c.now)
                else if ACK !in RFlags(seg) || t.rxack == t.tx.TrialPtr() then NewState(t, Closing, c.now)
                else t;
      Make(t1, {ACK}, 0)
    else if acks then (NewState(t, FinWait2, c.now), None)
    else (t, None)
  }

  function InFinWait2(s: Sock, seg: Option<Segment>, c: Context): (r: Result)
    requires s.Ok()
    ensures r.0.Ok()
  {
    var t := EstabRx(s, seg).0;
    if FIN in RFlags(seg) && t.rxseq == t.rx.InPtr() then Make(NewState(t, TimedWait, c.now), {ACK}, 0)
    else (t, None)
  }

  function InLastAck(s: Sock, seg: Option<Segment>, c: Context): (r: Result)
    requires s.Ok()
    ensures r.0.Ok()
  {
    if RFlags(seg) == {ACK} && s.rxseq == W32(s.rx.InPtr() + 1) then (NewState(s, Closed, c.now), None)
    else (s, None)
  }

  /** A segment for the socket, or none: then it may send what it has to send. */
  function SockRx(s0: Sock, seg: Option<Segment>, c: Context): (r: Result)
    requires s0.Ok()
    ensures r.0.Ok()
  {
    var s := Header(s0, seg, c.now);
    match s.state
    case Closed => InClosed(s, seg, c)
    case SynRcvd => InSynRcvd(s, seg, c)
    case Est => InEst(s, seg, c)
    case CloseWait => InCloseWait(s, c)
    case LastAck => InLastAck(s, seg, c)
    case ActOpen => (NewState(s, if c.slip then ArpRcvd else ArpSent, c.now), None)
    case ArpSent => (s, None)
    case ArpRcvd => InArpRcvd(s, c)
    case SynSent => InSynSent(s, seg, c)
    case ActClose => InActClose(s, seg, c)
    case FinWait1 => InFinWait1(s, seg, c)
    case FinWait2 => InFinWait2(s, seg, c)
    case Closing => InLastAck(s, seg, c)
    case TimedWait => (NewState(s, Closed, c.now), None)
    case Reset => (NewState(s, Closed, c.now), None)
  }

  // ---- Timeouts, opening and closing ----

  /** Remake the last transmission: data again from the oldest unacknowledged byte. */
  function Remake(s: Sock, maxdata: nat): (r: Result)
    requires s.Ok()
    ensures r.0.Ok()
  {
    if s.state == ArpSent || s.state == Closed then (s, None)
    else if s.state == Est || s.state == CloseWait || s.state == ActClose then
      EstabTx(s.(tx := s.tx.AfterRetry(s.tx.tried)), true, maxdata)
    else Make(s, s.txflags, 0)
  }

  predicate TimedOut(s: Sock, now: LWord) {
    s.timeout != 0 && Signed32(W32(now - s.time)) >= s.timeout
  }

  /** The signed difference of two 32-bit times is the time between them, up to 2^31. */
  lemma Elapsed(last: nat, now: nat)
    requires last <= now < last + TWO31
    ensures Signed32(W32(W32(now) - W32(last))) == now - last
  {
    WrapSub(now, last);
    WrapNear(now - last);
  }

  /** Beyond 2^31 it is not: a timer polled too late does not fire for another 2^31. */
  lemma ElapsedExactly(last: nat, now: nat)
    requires last <= now < last + TWO32
    ensures Signed32(W32(W32(now) - W32(last))) == now - last <==> now - last < TWO31
  {
    WrapSub(now, last);
    WrapNear(now - last);
  }

  /** A timeout doubles the next one and remakes the last transmission, until there are
      no retries left: then the socket is closed. */
  function Expire(s: Sock, c: Context): (r: Result)
    requires s.Ok()
    ensures r.0.Ok()
  {
    var t := s.(time := c.now, timeout := s.timeout + s.timeout, retries := s.retries - 1);
    if s.retries >= 0 then Remake(t, c.maxdata)
    else Make(NewState(t, Closed, c.now), {RST}, 0)
  }

  /** The time is stored again when the socket expires. */
  lemma StoredTime(s: Sock, c: Context)
    requires s.Ok()
    ensures s.(time := c.now).Ok() && Expire(s.(time := c.now), c) == Expire(s, c)
  {
    hide Make, Remake, NewState, W32;
  }

  function Poll(s: Sock, c: Context): (r: Result)
    requires s.Ok()
    ensures r.0.Ok()
  {
    if s.state == Closed then (s, None)
    else if TimedOut(s, c.now) then Expire(s, c)
    else SockRx(s, None, c)
  }

  function OpenSock(s: Sock, c: Context): (r: Result)
    requires s.Ok()
    ensures r.0.Ok()
  {
    if s.state == Closed then SockRx(NewState(s, ActOpen, c.now), None, c) else (s, None)
  }

  function CloseSock(s: Sock, now: LWord): (r: Sock)
    requires s.Ok()
    ensures r.Ok()
  { if s.state == Est || s.state == SynRcvd then NewState(s, ActClose, now) else s }

  function ResetSock(s: Sock): (r: Result)
    requires s.Ok()
    ensures r.0.Ok()
  { if s.state != Closed then Make(s, {RST}, 0) else (s, None) }

  function ArpReply(s: Sock, c: Context): (r: Result)
    requires s.Ok()
    ensures r.0.Ok()
  { if s.state == ArpSent then SockRx(NewState(s, ArpRcvd, c.now), None, c) else (s, None) }

  // ---- The socket as the program keeps it ----

  /** The node at the other end, as far as a socket waits for its address. */
  class Peer {
    var ip: LWord
    var mac: seq<Byte>

    constructor (ip: LWord)
      ensures this.ip == ip && mac == []
    { this.ip, mac := ip, []; }
  }

  class TSock {
    const rxb: CBuff
    const txb: CBuff
    const rem: Peer
    var state: State
    var time: LWord
    var timeout: int
    var retries: int
    var rxwin: Word
    var txwin: Word
    var rxseq: LWord
    var rxack: LWord
    var txflags: set<TFlag>
    var connflags: set<TFlag>
    ghost var h: History

    ghost predicate Valid()
      reads this, txb, rxb, txb.data, rxb.data
    { txb != rxb && txb.data != rxb.data && txb.Valid() && rxb.Valid() }

    ghost function Abs(): (s: Sock)
      requires Valid()
      reads this, txb, rxb, txb.data, rxb.data
      ensures s.Ok()
    {
      Sock(state, rxb.buf, txb.buf, rxwin, txwin, rxseq, rxack, txflags, connflags,
           time, timeout, retries, h)
    }

    constructor (len: nat, peer: Peer)
      requires GoodLen(len)
      ensures Valid() && Abs().state == Closed && !Abs().h.txOpen && !Abs().h.rxOpen
    {
      rxb := new CBuff(len);
      txb := new CBuff(len);
      rem := peer;
      state, time, timeout, retries := Closed, 0, 0, 0;
      rxwin, txwin, rxseq, rxack, txflags, connflags := 0, 0, 0, 0, {}, {};
      h := History(false, 0, [], 0, false, false, 0, [], [], false);
    }

    method EnterState(st: State, now: LWord)
      requires Valid()
      modifies this
      ensures Valid() && Abs() == NewState(old(Abs()), st, now)
    {
      hide Represents;
      if st != state { state := st; }
      time := now;
      retries := RETRIES;
      timeout := TIMEOUT;
      h := h.(finSent := h.finSent || FinOut(st), finSeen := h.finSeen || FinIn(st));
    }

    /** The application is called up, and uses the buffers. */
    method DoUpcall(up: Upcall)
      requires Valid() && |up.put| < 0x1_0000 && up.take < 0x1_0000
      modifies this, txb, rxb, txb.data, rxb.data
      ensures Valid() && Abs() == CallUp(old(Abs()), up)
    {
      var got := rxb.Out(up.take);
      var n := txb.In(up.put);
      if up.push { connflags := {PSH}; }
      h := h.(got := h.got + got, sent := h.sent + up.put[..n]);
    }

    /** The sequence and acknowledgement values, stepped over a SYN or FIN. */
    method SeqAndAck() returns (tseq: LWord, tack: LWord)
      requires Valid()
      ensures tseq == W32(txb.buf.TrialPtr() + SeqDelta(state))
      ensures tack == W32(rxb.buf.InPtr() + AckDelta(state))
    {
      WrapNear(txb.trial);
      WrapNear(rxb.inp);
      tseq, tack := txb.trial, rxb.inp;
      if state == SynRcvd || state == SynSent {
        tseq := W32(tseq - 1);
      } else if state == Closing || state == FinWait2 || state == TimedWait {
        tseq := W32(tseq + 1);
      }
      if state == LastAck || state == CloseWait || state == Closing || state == TimedWait {
        tack := W32(tack + 1);
      }
    }

    /** Get the transmit data, if any is wanted. */
    method TryData(dlen: Word) returns (data: seq<Byte>)
      requires Valid()
      modifies txb
      ensures Valid() && txb.buf == old(txb.buf).AfterTry(dlen) && data == old(txb.buf).TryBytes(dlen)
    {
      data := [];
      if dlen > 0 { data := txb.Try(dlen); }
    }

    method MakeSockTcp(flags: set<TFlag>, dlen: Word) returns (seg: Option<Segment>)
      requires Valid()
      modifies this, txb
      ensures Valid() && Abs() == Make(old(Abs()), flags, dlen).0
      ensures seg == Make(old(Abs()), flags, dlen).1
    {
      hide Represents, W32, SeqDelta, AckDelta;
      var tseq, tack := SeqAndAck();
      var data := TryData(dlen);
      txflags := flags;
      seg := Some(Segment(flags, tseq, tack, rxwin, data));
      h := h.(high := Max(h.high, |h.sent| - |txb.buf.data| + txb.buf.tried));
    }

    method TsockEstabTx(force: bool, maxdata: nat) returns (seg: Option<Segment>)
      requires Valid()
      modifies this, txb
      ensures Valid() && (Abs(), seg) == EstabTx(old(Abs()), force, maxdata)
    {
      var go := force;
      var untried := txb.UntriedLen();
      var trylen := txb.TryLen();
      var tdlen: int := Min(untried, maxdata);
      tdlen := Min(tdlen, txwin - trylen);
      if tdlen > 0 && !go { go := trylen == 0 || tdlen < maxdata / 2; }
      seg := None;
      if go { seg := MakeSockTcp({ACK} + connflags, W16(tdlen)); }
    }

    method TsockEstabRx(seg: Option<Segment>) returns (tx: bool)
      requires Valid() && (seg.Some? ==> |seg.value.data| < 0x1_0000)
      modifies this, rxb, rxb.data
      ensures Valid() && (Abs(), tx) == EstabRx(old(Abs()), seg)
    {
      hide Represents, W32;
      rxb.Pointers();
      tx := false;
      if seg.Some? && |seg.value.data| > 0 {
        var data := seg.value.data;
        var rxdiff := Signed32(W32(rxseq - rxb.inp));
        var part: seq<Byte> := [];
        if rxdiff == 0 {
          part := data;
        } else if rxdiff < 0 {
          var oldlen := -rxdiff;
          if oldlen <= rxwin && |data| > oldlen { part := data[oldlen..]; }
        }
        var n := rxb.In(part);
        h := h.(recv := h.recv + part[..n]);
        var dlen := rxb.Dlen();
        tx := PSH in seg.value.flags || rxdiff < 0 || dlen > rxwin / 2;
      }
    }

    method ReadHeader(seg: Option<Segment>, now: LWord)
      requires Valid()
      modifies this, txb
      ensures Valid() && Abs() == Header(old(Abs()), seg, now)
    {
      hide Represents, W32, InLimits, NewState;
      txb.Pointers();
      if seg.Some? {
        rxseq := seg.value.seqNo;
        rxack := seg.value.ackNo;
        txwin := seg.value.window;
        if RST in seg.value.flags {
          EnterState(Reset, now);
        } else if ACK in seg.value.flags && InLimits(rxack, txb.out, txb.trial) {
          AckOnTrial(txb.buf, rxack);
          txb.Release(rxack);
        }
      }
    }

    /** An acknowledgement within limits is at most the number of bytes on trial. */
    static lemma AckOnTrial(b: Buf, ack: LWord)
      requires b.Ok() && InLimits(ack, b.out, b.TrialPtr())
      ensures W32(ack - b.out) <= b.tried
    {
      WrapSub(b.out + b.tried, b.out);
      WrapNear(b.out);
      WrapNear(b.tried);
      InLimitsShortArc(ack, b.out, b.TrialPtr());
    }

    method TsockRx(seg: Option<Segment>, c: Context) returns (out: Option<Segment>)
      requires Valid() && (seg.Some? ==> |seg.value.data| < 0x1_0000)
      requires |c.up.put| < 0x1_0000 && c.up.take < 0x1_0000
      modifies this, txb, rxb, txb.data, rxb.data
      ensures Valid() && (Abs(), out) == SockRx(old(Abs()), seg, c)
    {
      hide Represents, W32, Header, Make, NewState, CallUp, OpenTx, OpenRx, EstabRx, EstabTx,
        InSynRcvd, InEst, InCloseWait, InActClose, InFinWait1;
      ReadHeader(seg, c.now);
      txb.Pointers();
      rxb.Pointers();
      var rflags := RFlags(seg);
      out := None;
      var tx: bool;
      match state {
        case Closed =>
          if seg.Some? { out := RxClosed(seg, c); }
        case SynRcvd =>
          out := RxSynRcvd(seg, c);
        case Est =>
          out := RxEst(seg, c);
        case CloseWait =>
          out := RxCloseWait(c);
        case LastAck =>
          if rflags == {ACK} && rxseq == W32(rxb.inp + 1) { EnterState(Closed, c.now); }
        case ActOpen =>
          EnterState(if c.slip then ArpRcvd else ArpSent, c.now);
        case ArpSent =>
        case ArpRcvd =>
          OpenTransmit(W32(c.now * 100));
          DoUpcall(c.up);
          EnterState(SynSent, c.now);
          out := MakeSockTcp({SYN}, 0);
        case SynSent =>
          if rflags == {SYN, ACK} && rxack == txb.out {
            OpenReceive(W32(rxseq + 1));
            DoUpcall(c.up);
            EnterState(Est, c.now);
            out := MakeSockTcp({ACK}, 0);
          } else if rflags != {} {
            out := Some(ResetReply(seg.value));
          }
        case ActClose =>
          out := RxActClose(seg, c);
        case FinWait1 =>
          out := RxFinWait1(seg, c);
        case FinWait2 =>
          tx := TsockEstabRx(seg);
          rxb.Pointers();
          if FIN in rflags && rxseq == rxb.inp {
            EnterState(TimedWait, c.now);
            out := MakeSockTcp({ACK}, 0);
          }
        case Closing =>
          if rflags == {ACK} && rxseq == W32(rxb.inp + 1) { EnterState(Closed, c.now); }
        case _ =>
          EnterState(Closed, c.now);
      }
    }

    method OpenTransmit(start: LWord)
      requires Valid()
      modifies this, txb
      ensures Valid() && Abs() == OpenTx(old(Abs()), start)
    {
      txb.SetAll(start);
      rxwin := RX_WINDOW;
      connflags := {};
      h := h.(txOpen := true, iss := start, sent := [], high := 0);
    }

    method OpenReceive(start: LWord)
      requires Valid()
      modifies this, rxb
      ensures Valid() && Abs() == OpenRx(old(Abs()), start)
    {
      rxb.SetAll(start);
      h := h.(rxOpen := true, irs := start, recv := [], got := []);
    }

    method RxClosed(seg: Option<Segment>, c: Context) returns (out: Option<Segment>)
      requires Valid() && seg.Some?
      requires |c.up.put| < 0x1_0000 && c.up.take < 0x1_0000
      modifies this, txb, rxb, txb.data, rxb.data
      ensures Valid() && (Abs(), out) == InClosed(old(Abs()), seg, c)
    {
      hide Represents;
      if RFlags(seg) == {SYN} {
        ghost var before := h;
        rxseq := W32(rxseq + 1);
        OpenReceive(rxseq);
        OpenTransmit(W32(c.now * 0x100));
        DoUpcall(c.up);
        if !c.up.ok {
          out := Some(ResetReply(seg.value));
          h := before;
        } else {
          EnterState(SynRcvd, c.now);
          out := MakeSockTcp({SYN, ACK}, 0);
        }
      } else {
        out := Some(ResetReply(seg.value));
      }
    }

    method RxSynRcvd(seg: Option<Segment>, c: Context) returns (out: Option<Segment>)
      requires Valid() && (seg.Some? ==> |seg.value.data| < 0x1_0000)
      requires |c.up.put| < 0x1_0000 && c.up.take < 0x1_0000
      modifies this, txb, rxb, txb.data, rxb.data
      ensures Valid() && (Abs(), out) == InSynRcvd(old(Abs()), seg, c)
    {
      out := None;
      var tx := TsockEstabRx(seg);
      if RFlags(seg) == {ACK} && rxseq == rxb.inp && rxack == txb.out {
        DoUpcall(c.up);
        EnterState(if c.up.ok then Est else ActClose, c.now);
      } else if seg.Some? && rxseq == W32(rxb.inp - 1) {
        out := MakeSockTcp({SYN, ACK}, 0);
      }
    }

    method RxEst(seg: Option<Segment>, c: Context) returns (out: Option<Segment>)
      requires Valid() && (seg.Some? ==> |seg.value.data| < 0x1_0000)
      requires |c.up.put| < 0x1_0000 && c.up.take < 0x1_0000
      modifies this, txb, rxb, txb.data, rxb.data
      ensures Valid() && (Abs(), out) == InEst(old(Abs()), seg, c)
    {
      hide Represents, W32, EstabRx, EstabTx, Make, CallUp;
      rxb.Pointers();
      var rflags := RFlags(seg);
      var tx: bool;
      if rflags != {} { EnterState(state, c.now); }
      if FIN in rflags && rxseq == rxb.inp {
        tx := TsockEstabRx(seg);
        DoUpcall(c.up);
        if c.up.ok {
          EnterState(LastAck, c.now);
          out := MakeSockTcp({FIN, ACK}, 0);
        } else {
          EnterState(CloseWait, c.now);
          out := TsockEstabTx(true, c.maxdata);
        }
      } else {
        tx := TsockEstabRx(seg);
        DoUpcall(c.up);
        if !c.up.ok {
          EnterState(ActClose, c.now);
          tx := true;
        } else if seg.Some? && |seg.value.data| > 0 {
          tx := true;
        }
        out := TsockEstabTx(tx, c.maxdata);
      }
    }

    method RxCloseWait(c: Context) returns (out: Option<Segment>)
      requires Valid() && |c.up.put| < 0x1_0000 && c.up.take < 0x1_0000
      modifies this, txb, rxb, txb.data, rxb.data
      ensures Valid() && (Abs(), out) == InCloseWait(old(Abs()), c)
    {
      DoUpcall(c.up);
      if c.up.ok {
        EnterState(LastAck, c.now);
        out := MakeSockTcp({FIN, ACK}, 0);
      } else {
        out := TsockEstabTx(false, c.maxdata);
      }
    }

    method RxActClose(seg: Option<Segment>, c: Context) returns (out: Option<Segment>)
      requires Valid() && (seg.Some? ==> |seg.value.data| < 0x1_0000)
      requires |c.up.put| < 0x1_0000 && c.up.take < 0x1_0000
      modifies this, txb, rxb, txb.data, rxb.data
      ensures Valid() && (Abs(), out) == InActClose(old(Abs()), seg, c)
    {
      var tx := TsockEstabRx(seg);
      var dlen := txb.Dlen();
      if dlen != 0 {
        out := TsockEstabTx(false, c.maxdata);
      } else {
        DoUpcall(c.up);
        EnterState(FinWait1, c.now);
        out := MakeSockTcp({FIN, ACK}, 0);
      }
    }

    method RxFinWait1(seg: Option<Segment>, c: Context) returns (out: Option<Segment>)
      requires Valid() && (seg.Some? ==> |seg.value.data| < 0x1_0000)
      modifies this, txb, rxb, txb.data, rxb.data
      ensures Valid() && (Abs(), out) == InFinWait1(old(Abs()), seg, c)
    {
      var rflags := RFlags(seg);
      out := None;
      var tx := TsockEstabRx(seg);
      if FIN in rflags && rxseq == rxb.inp {
        if ACK in rflags && rxack == W32(txb.trial + 1) {
          EnterState(TimedWait, c.now);
        } else if ACK !in rflags || rxack == txb.trial {
          EnterState(Closing, c.now);
        }
        out := MakeSockTcp({ACK}, 0);
      } else if ACK in rflags && rxack == W32(txb.trial + 1) {
        EnterState(FinWait2, c.now);
      }
    }

    method RemakeTsock(maxdata: nat) returns (out: Option<Segment>)
      requires Valid()
      modifies this, txb
      ensures Valid() && (Abs(), out) == Remake(old(Abs()), maxdata)
    {
      out := None;
      if state == ArpSent {
      } else if state == Est || state == CloseWait || state == ActClose {
        txb.RetryAll();
        out := TsockEstabTx(true, maxdata);
      } else if state != Closed {
        out := MakeSockTcp(txflags, 0);
      }
    }

    /** mstimeout(&ts->time, ts->timeout): whatever the true times are, in milliseconds, of
        which the program keeps 32 bits, it fires exactly if the interval has passed, up to
        2^31 ms, nearly 25 days; and then the next interval starts. */
    method MsTimeout(now: LWord) returns (fired: bool)
      requires Valid()
      modifies this`time
      ensures forall last: nat, at: nat ::
        old(time) == W32(last) && now == W32(at) && last <= at < last + TWO31 ==>
          (fired <==> timeout == 0 || at - last >= timeout)
      ensures fired <==> timeout == 0 || Signed32(W32(now - old(time))) >= timeout
      ensures Valid() && Abs() == old(Abs()).(time := if fired then now else old(time))
    {
      forall last: nat, at: nat | time == W32(last) && now == W32(at) && last <= at < last + TWO31
        ensures Signed32(W32(now - time)) == at - last
      {
        Elapsed(last, at);
      }
      var diff := Signed32(W32(now - time));
      fired := timeout == 0 || diff >= timeout;
      if fired { time := now; }
    }

    method OnTimeout(c: Context) returns (out: Option<Segment>)
      requires Valid()
      modifies this, txb
      ensures Valid() && Abs() == Expire(old(Abs()), c).0
      ensures out == Expire(old(Abs()), c).1
    {
      hide Represents, Make, Remake, NewState;
      time := c.now;
      timeout := timeout + timeout;
      retries := retries - 1;
      assert Abs() == old(Abs()).(time := c.now, timeout := timeout, retries := retries);
      if retries + 1 >= 0 {
        out := RemakeTsock(c.maxdata);
      } else {
        EnterState(Closed, c.now);
        out := MakeSockTcp({RST}, 0);
      }
    }

    method TcpPoll(c: Context) returns (out: Option<Segment>)
      requires Valid() && |c.up.put| < 0x1_0000 && c.up.take < 0x1_0000
      modifies this, txb, rxb, txb.data, rxb.data
      ensures Valid() && (Abs(), out) == Poll(old(Abs()), c)
    {
      hide Represents, SockRx, Expire;
      out := None;
      if state != Closed {
        ghost var s := Abs();
        StoredTime(s, c);
        var fired := false;
        if timeout != 0 { fired := MsTimeout(c.now); }
        if fired { out := OnTimeout(c); } else { out := TsockRx(None, c); }
      }
    }

    method OpenTcp(c: Context) returns (out: Option<Segment>)
      requires Valid() && |c.up.put| < 0x1_0000 && c.up.take < 0x1_0000
      modifies this, txb, rxb, txb.data, rxb.data
      ensures Valid() && (Abs(), out) == OpenSock(old(Abs()), c)
    {
      hide Represents, SockRx, NewState;
      out := None;
      if state == Closed {
        EnterState(ActOpen, c.now);
        out := TsockRx(None, c);
      }
    }

    /** arp_receive, for one socket: the reply that it is waiting for, from its peer, whose
        Ethernet address is kept. */
    method ArpReceive(sip: LWord, smac: seq<Byte>, c: Context) returns (out: Option<Segment>)
      requires Valid() && |c.up.put| < 0x1_0000 && c.up.take < 0x1_0000
      modifies this, txb, rxb, txb.data, rxb.data, rem
      ensures Valid() && rem.ip == old(rem.ip)
      ensures old(state == ArpSent && sip == rem.ip) ==> (Abs(), out) == ArpReply(old(Abs()), c) && rem.mac == smac
      ensures old(state != ArpSent || sip != rem.ip) ==> Abs() == old(Abs()) && out == None && rem.mac == old(rem.mac)
    {
      hide Represents, SockRx, NewState;
      out := None;
      if state == ArpSent && sip == rem.ip {
        rem.mac := smac;
        EnterState(ArpRcvd, c.now);
        out := TsockRx(None, c);
      }
    }

    method CloseTcp(now: LWord)
      requires Valid()
      modifies this
      ensures Valid() && Abs() == CloseSock(old(Abs()), now)
    {
      if state == Est || state == SynRcvd { EnterState(ActClose, now); }
    }

    method ResetTcp() returns (out: Option<Segment>)
      requires Valid()
      modifies this, txb
      ensures Valid() && (Abs(), out) == ResetSock(old(Abs()))
    {
      hide Represents, Make;
      out := None;
      if state != Closed { out := MakeSockTcp({RST}, 0); }
    }
  }
}
