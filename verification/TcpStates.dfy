/** Whatever arrives, each state of a TCP socket keeps the links of TcpLink. */
module TcpStates {
  import opened Words
  import opened Wrappers
  import opened CircBuff
  import opened Tcp
  import opened TcpLink

  function Seg(e: Option<Envelope>): Option<Segment> {
    if e.None? then None else Some(e.value.p)
  }

  /** A segment that reaches x, or none. */
  ghost predicate Arriving(x: Sock, y: Sock, e: Option<Envelope>) {
    e.Some? ==> Sends(y, e.value) && Acks(x, y, e.value) && Timely(x, e.value)
  }

  /** After the header has been read: rxseq and rxack are the segment's. */
  ghost predicate Noted(x: Sock, y: Sock, e: Option<Envelope>) {
    e.Some? ==>
      && Sends(y, e.value) && Near(x, e.value) && RST !in e.value.p.flags
      && x.rxseq == e.value.p.seqNo && x.rxack == e.value.p.ackNo
  }

  /** Reading the header: what is released is acknowledged, a reset changes the state. */
  lemma HeaderKeeps(x: Sock, e: Option<Envelope>, now: LWord, y: Sock, i: Envelope, o: Envelope)
    requires Half(x, y, i, o) && Arriving(x, y, e)
    ensures var t := Header(x, Seg(e), now);
      && t.Ok() && t.h == x.h
      && (if t.state == Reset then Base(t, y, i, o) && Closable(t)
          else t.state == x.state && Half(t, y, i, o) && Noted(t, y, e))
  {
    hide Base, Sends, Acks, W32, InLimits;
    BaseSane(x, y, i, o);
    if e.Some? {
      var seg := e.value.p;
      var t := x.(rxseq := seg.seqNo, rxack := seg.ackNo, txwin := seg.window);
      SameHistory(x, t, y, i, o);
      if RST in seg.flags {
        NewStateKeeps(t, Reset, now, y, i, o);
      } else if ACK in seg.flags && InLimits(t.rxack, t.tx.out, t.tx.TrialPtr()) {
        StillArriving(x, t, y, e.value);
        ReleasedKeeps(t, y, e.value, i, o);
      }
    }
  }

  /** What an acceptable acknowledgement releases. */
  lemma ReleasedKeeps(t: Sock, y: Sock, e: Envelope, i: Envelope, o: Envelope)
    requires Half(t, y, i, o) && Acks(t, y, e) && Timely(t, e) && t.rxack == e.p.ackNo
    requires ACK in e.p.flags && RST !in e.p.flags && InLimits(t.rxack, t.tx.out, t.tx.TrialPtr())
    ensures Half(t.(tx := t.tx.AfterOut(W32(t.rxack - t.tx.out))), y, i, o)
  {
    hide Base, Acks, W32, InLimits;
    AckPosition(t, y, i, o, e);
    ReleaseKeeps(t, W32(t.rxack - t.tx.out), y, i, o);
  }

  lemma StillArriving(x: Sock, t: Sock, y: Sock, e: Envelope)
    requires Acks(x, y, e) && x.h == t.h
    ensures Acks(t, y, e)
  {}

  /** Receiving data changes only the receive buffer and what has been received. */
  lemma EstabRxKeeps(x: Sock, e: Option<Envelope>, y: Sock, i: Envelope, o: Envelope)
    requires x.Ok() && Base(x, y, i, o) && Noted(x, y, e) && x.h.rxOpen && !x.h.finSeen
    ensures var t := EstabRx(x, Seg(e)).0;
      && t.Ok() && Base(t, y, i, o) && t == x.(rx := t.rx, h := x.h.(recv := t.h.recv))
      && (e.Some? && FIN in e.value.p.flags ==> t == x)
  {
    hide Base, W32, NewPart;
    if e.Some? {
      if FIN in e.value.p.flags { assert e.value.p.data == []; }
      if e.value.p.data != [] {
        NewPartIsNext(x, y, i, o, e.value);
        AcceptKeeps(x, NewPart(e.value.p.data, Signed32(W32(x.rxseq - x.rx.InPtr())), x.rxwin), y, i, o);
      }
    }
  }

  lemma ClosedKeeps(x: Sock, e: Option<Envelope>, c: Context, y: Sock, i: Envelope, o: Envelope)
    requires Half(x, y, i, o) && Noted(x, y, e) && x.state == Closed
    requires RFlags(Seg(e)) == {SYN} ==> !x.h.txOpen
    ensures Done(InClosed(x, Seg(e), c), y, i, o)
  {
    hide Base, W32, Acks;
    BaseSane(x, y, i, o);
    if e.Some? && RFlags(Seg(e)) == {SYN} {
      if c.up.ok {
        AcceptedKeeps(x, e.value, c, y, i, o);
      } else {
        UnopenedKeeps(x, InClosed(x, Seg(e), c).0, y, i, o);
        ResetMade(InClosed(x, Seg(e), c).0, y, ResetReply(e.value.p));
      }
    } else if e.Some? {
      ResetMade(x, y, ResetReply(e.value.p));
    }
  }

  /** One more than the number of a SYN is the number of its sender's first byte. */
  lemma SynIs(y: Sock, e: Envelope)
    requires Sends(y, e) && SYN in e.p.flags && RST !in e.p.flags
    ensures y.h.txOpen && W32(e.p.seqNo + 1) == y.h.iss
  {
    SynNumber(y.h.iss);
  }

  /** A server accepts a SYN. */
  lemma AcceptedKeeps(x: Sock, e: Envelope, c: Context, y: Sock, i: Envelope, o: Envelope)
    requires Half(x, y, i, o) && Noted(x, y, Some(e)) && x.state == Closed && !x.h.txOpen
    requires RFlags(Some(e.p)) == {SYN} && c.up.ok
    ensures Done(InClosed(x, Some(e.p), c), y, i, o)
  {
    hide Base, W32, Acks, Sends;
    BaseSane(x, y, i, o);
    assert SYN in RFlags(Some(e.p)) && SYN in e.p.flags;
    SynIs(y, e);
    var start := W32(c.now * 0x100);
    var t := x.(rxseq := W32(x.rxseq + 1));
    SameHistory(x, t, y, i, o);
    OpenTxKeeps(t, start, y, i, o);
    OpenRxKeeps(OpenTx(t, start), t.rxseq, y, i, o);
    assert OpenRx(OpenTx(t, start), t.rxseq) == OpenTx(OpenRx(t, t.rxseq), start);
    var t1 := OpenTx(OpenRx(t, t.rxseq), start);
    CallUpKeeps(t1, c.up, y, i, o);
    var t2 := CallUp(t1, c.up);
    NewStateKeeps(t2, SynRcvd, c.now, y, i, o);
    MakeKeeps(NewState(t2, SynRcvd, c.now), {SYN, ACK}, 0, y, i, o);
  }

  lemma SynRcvdKeeps(x: Sock, e: Option<Envelope>, c: Context, y: Sock, i: Envelope, o: Envelope)
    requires Half(x, y, i, o) && Noted(x, y, e) && x.state == SynRcvd
    ensures Done(InSynRcvd(x, Seg(e), c), y, i, o)
  {
    hide Base, W32, Sends, Acks, EstabRx;
    BaseSane(x, y, i, o);
    EstabRxKeeps(x, e, y, i, o);
    var t := EstabRx(x, Seg(e)).0;
    if RFlags(Seg(e)) == {ACK} && t.rxseq == t.rx.InPtr() && t.rxack == t.tx.out {
      CallUpKeeps(t, c.up, y, i, o);
      NewStateKeeps(CallUp(t, c.up), if c.up.ok then Est else ActClose, c.now, y, i, o);
    } else if e.Some? && t.rxseq == W32(t.rx.InPtr() - 1) {
      MakeKeeps(t, {SYN, ACK}, 0, y, i, o);
    }
  }

  lemma EstKeeps(x: Sock, e: Option<Envelope>, c: Context, y: Sock, i: Envelope, o: Envelope)
    requires Half(x, y, i, o) && Noted(x, y, e) && x.state == Est
    ensures Done(InEst(x, Seg(e), c), y, i, o)
  {
    hide Base, W32, Sends, Acks, EstabRx, EstabTx;
    BaseSane(x, y, i, o);
    var x1 := if RFlags(Seg(e)) != {} then NewState(x, x.state, c.now) else x;
    NewStateKeeps(x, x.state, c.now, y, i, o);
    EstabRxKeeps(x1, e, y, i, o);
    var (t, tx) := EstabRx(x1, Seg(e));
    CallUpKeeps(t, c.up, y, i, o);
    var t1 := CallUp(t, c.up);
    if FIN in RFlags(Seg(e)) && x1.rxseq == x1.rx.InPtr() {
      FinPosition(x1, y, i, o, e.value);
      var st := if c.up.ok then LastAck else CloseWait;
      NewStateKeeps(t1, st, c.now, y, i, o);
      var t2 := NewState(t1, st, c.now);
      if c.up.ok {
        MakeKeeps(t2, {FIN, ACK}, 0, y, i, o);
      } else {
        EstabTxKeeps(t2, true, c.maxdata, y, i, o);
      }
    } else if !c.up.ok {
      NewStateKeeps(t1, ActClose, c.now, y, i, o);
      EstabTxKeeps(NewState(t1, ActClose, c.now), true, c.maxdata, y, i, o);
    } else {
      EstabTxKeeps(t1, tx || (e.Some? && e.value.p.data != []), c.maxdata, y, i, o);
    }
  }

  lemma CloseWaitKeeps(x: Sock, c: Context, y: Sock, i: Envelope, o: Envelope)
    requires Half(x, y, i, o) && x.state == CloseWait
    ensures Done(InCloseWait(x, c), y, i, o)
  {
    hide Base, W32, Sends, Acks, EstabTx;
    BaseSane(x, y, i, o);
    CallUpKeeps(x, c.up, y, i, o);
    var t := CallUp(x, c.up);
    if c.up.ok {
      NewStateKeeps(t, LastAck, c.now, y, i, o);
      MakeKeeps(NewState(t, LastAck, c.now), {FIN, ACK}, 0, y, i, o);
    } else {
      EstabTxKeeps(t, false, c.maxdata, y, i, o);
    }
  }

  lemma ArpRcvdKeeps(x: Sock, c: Context, y: Sock, i: Envelope, o: Envelope)
    requires Half(x, y, i, o) && x.state == ArpRcvd
    ensures Done(InArpRcvd(x, c), y, i, o)
  {
    hide Base, W32, Sends, Acks;
    BaseSane(x, y, i, o);
    var t := OpenTx(x, W32(c.now * 100));
    OpenTxKeeps(x, W32(c.now * 100), y, i, o);
    CallUpKeeps(t, c.up, y, i, o);
    NewStateKeeps(CallUp(t, c.up), SynSent, c.now, y, i, o);
    MakeKeeps(NewState(CallUp(t, c.up), SynSent, c.now), {SYN}, 0, y, i, o);
  }

  lemma SynSentKeeps(x: Sock, e: Option<Envelope>, c: Context, y: Sock, i: Envelope, o: Envelope)
    requires Half(x, y, i, o) && Noted(x, y, e) && x.state == SynSent
    ensures Done(InSynSent(x, Seg(e), c), y, i, o)
  {
    hide Base, W32, Acks, Sends;
    BaseSane(x, y, i, o);
    if RFlags(Seg(e)) == {SYN, ACK} && x.rxack == x.tx.out {
      assert SYN in RFlags(Seg(e)) && SYN in e.value.p.flags;
      SynIs(y, e.value);
      var t := OpenRx(x, W32(x.rxseq + 1));
      OpenRxKeeps(x, W32(x.rxseq + 1), y, i, o);
      OpenedKeeps(t, c, y, i, o);
    } else if RFlags(Seg(e)) != {} {
      ResetMade(x, y, ResetReply(e.value.p));
    }
  }

  /** A client's connection is established. */
  lemma OpenedKeeps(t: Sock, c: Context, y: Sock, i: Envelope, o: Envelope)
    requires t.Ok() && Base(t, y, i, o) && t.h.rxOpen && !t.h.finSent && !t.h.finSeen
    ensures Done(Make(NewState(CallUp(t, c.up), Est, c.now), {ACK}, 0), y, i, o)
  {
    hide Base, W32, Sends, Acks;
    BaseSane(t, y, i, o);
    CallUpKeeps(t, c.up, y, i, o);
    NewStateKeeps(CallUp(t, c.up), Est, c.now, y, i, o);
    MakeKeeps(NewState(CallUp(t, c.up), Est, c.now), {ACK}, 0, y, i, o);
  }

  lemma ActCloseKeeps(x: Sock, e: Option<Envelope>, c: Context, y: Sock, i: Envelope, o: Envelope)
    requires Half(x, y, i, o) && Noted(x, y, e) && x.state == ActClose
    ensures Done(InActClose(x, Seg(e), c), y, i, o)
  {
    hide Base, W32, Sends, Acks, EstabRx, EstabTx;
    BaseSane(x, y, i, o);
    EstabRxKeeps(x, e, y, i, o);
    var t := EstabRx(x, Seg(e)).0;
    if t.tx.data != [] {
      EstabTxKeeps(t, false, c.maxdata, y, i, o);
    } else {
      LastKeeps(t, c, y, i, o);
    }
  }

  /** With an empty buffer an active close sends its FIN. */
  lemma LastKeeps(t: Sock, c: Context, y: Sock, i: Envelope, o: Envelope)
    requires t.Ok() && Base(t, y, i, o) && t.h.rxOpen && !t.h.finSeen && !t.h.finSent && t.tx.data == []
    ensures Done(Make(NewState(CallUp(t, c.up), FinWait1, c.now), {FIN, ACK}, 0), y, i, o)
  {
    hide Base, W32, Sends, Acks;
    BaseSane(t, y, i, o);
    AllTried(t, y, i, o);
    CallUpKeeps(t, c.up, y, i, o);
    var t1 := CallUp(t, c.up);
    NewStateKeeps(t1, FinWait1, c.now, y, i, o);
    MakeKeeps(NewState(t1, FinWait1, c.now), {FIN, ACK}, 0, y, i, o);
  }

  lemma FinWait1Keeps(x: Sock, e: Option<Envelope>, c: Context, y: Sock, i: Envelope, o: Envelope)
    requires Half(x, y, i, o) && Noted(x, y, e) && x.state == FinWait1
    ensures Done(InFinWait1(x, Seg(e), c), y, i, o)
  {
    hide Base, W32, Sends, Acks, EstabRx, Make;
    BaseSane(x, y, i, o);
    EstabRxKeeps(x, e, y, i, o);
    var t := EstabRx(x, Seg(e)).0;
    var acks := ACK in RFlags(Seg(e)) && t.rxack == W32(t.tx.TrialPtr() + 1);
    if FIN in RFlags(Seg(e)) && t.rxseq == t.rx.InPtr() {
      FinPosition(x, y, i, o, e.value);
      var st := if acks then TimedWait
                else if ACK !in RFlags(Seg(e)) || t.rxack == t.tx.TrialPtr() then Closing else FinWait1;
      FinArrivesKeeps(t, st, c.now, y, i, o);
    } else if acks {
      NewStateKeeps(t, FinWait2, c.now, y, i, o);
    }
  }

  /** The peer's FIN is accepted, before or after it has acknowledged ours. */
  lemma FinArrivesKeeps(t: Sock, st: State, now: LWord, y: Sock, i: Envelope, o: Envelope)
    requires Half(t, y, i, o) && t.state in {FinWait1, FinWait2} && st in {FinWait1, TimedWait, Closing}
    requires y.h.finSent && |t.h.recv| == TrialPos(y)
    ensures t.state == FinWait1 ==> Done(Make(t, {ACK}, 0), y, i, o)
    ensures st != FinWait1 ==> Done(Make(NewState(t, st, now), {ACK}, 0), y, i, o)
  {
    hide Base, W32, Sends, Acks;
    BaseSane(t, y, i, o);
    if t.state == FinWait1 { MakeKeeps(t, {ACK}, 0, y, i, o); }
    if st != FinWait1 {
      NewStateKeeps(t, st, now, y, i, o);
      MakeKeeps(NewState(t, st, now), {ACK}, 0, y, i, o);
    }
  }

  lemma FinWait2Keeps(x: Sock, e: Option<Envelope>, c: Context, y: Sock, i: Envelope, o: Envelope)
    requires Half(x, y, i, o) && Noted(x, y, e) && x.state == FinWait2
    ensures Done(InFinWait2(x, Seg(e), c), y, i, o)
  {
    hide Base, W32, Sends, Acks, EstabRx;
    BaseSane(x, y, i, o);
    EstabRxKeeps(x, e, y, i, o);
    var t := EstabRx(x, Seg(e)).0;
    if FIN in RFlags(Seg(e)) && t.rxseq == t.rx.InPtr() {
      FinPosition(x, y, i, o, e.value);
      FinArrivesKeeps(t, TimedWait, c.now, y, i, o);
    }
  }

  /** A socket that has not been opened has not transmitted anything but a reset. */
  predicate Closable(x: Sock) { !x.h.txOpen ==> x.txflags <= {RST} }

  lemma ActOpenKeeps(x: Sock, st: State, now: LWord, y: Sock, i: Envelope, o: Envelope)
    requires x.Ok() && Base(x, y, i, o) && Closable(x) && !x.h.txOpen && st in {ActOpen, ArpSent, ArpRcvd}
    ensures Done((NewState(x, st, now), None), y, i, o)
  {
    hide Base, W32, Sends, Acks;
    BaseSane(x, y, i, o);
    NewStateKeeps(x, st, now, y, i, o);
  }

  lemma CloseKeeps(x: Sock, now: LWord, y: Sock, i: Envelope, o: Envelope)
    requires x.Ok() && Base(x, y, i, o) && Closable(x)
    ensures Done((NewState(x, Closed, now), None), y, i, o)
  {
    hide Base, W32, Sends, Acks;
    BaseSane(x, y, i, o);
    NewStateKeeps(x, Closed, now, y, i, o);
  }

  lemma LastAckKeeps(x: Sock, e: Option<Envelope>, c: Context, y: Sock, i: Envelope, o: Envelope)
    requires Half(x, y, i, o)
    ensures Done(InLastAck(x, Seg(e), c), y, i, o)
  {
    hide Base, W32, Sends, Acks;
    CloseKeeps(x, c.now, y, i, o);
  }

  lemma WaitKeeps(x: Sock, c: Context, y: Sock, i: Envelope, o: Envelope)
    requires Half(x, y, i, o)
    ensures Done((x, None), y, i, o) && Done((NewState(x, Closed, c.now), None), y, i, o)
    ensures x.state == ActOpen ==> Done((NewState(x, if c.slip then ArpRcvd else ArpSent, c.now), None), y, i, o)
  {
    hide Base, W32, Sends, Acks;
    CloseKeeps(x, c.now, y, i, o);
    if x.state == ActOpen { ActOpenKeeps(x, if c.slip then ArpRcvd else ArpSent, c.now, y, i, o); }
  }

  lemma SockRxKeeps(x: Sock, e: Option<Envelope>, c: Context, y: Sock, i: Envelope, o: Envelope)
    requires x.Ok() && Half(x, y, i, o) && Arriving(x, y, e)
    requires x.state == Closed && RFlags(Seg(e)) == {SYN} ==> !x.h.txOpen
    ensures Done(SockRx(x, Seg(e), c), y, i, o)
  {
    hide Half, Done, Base, Arriving, Noted, Header, InClosed, InSynRcvd, InEst, InCloseWait, InArpRcvd,
      InSynSent, InActClose, InFinWait1, InFinWait2, InLastAck, NewState, Closable;
    HeaderKeeps(x, e, c.now, y, i, o);
    var s := Header(x, Seg(e), c.now);
    match s.state {
      case Closed => ClosedKeeps(s, e, c, y, i, o);
      case SynRcvd => SynRcvdKeeps(s, e, c, y, i, o);
      case Est => EstKeeps(s, e, c, y, i, o);
      case CloseWait => CloseWaitKeeps(s, c, y, i, o);
      case ArpRcvd => ArpRcvdKeeps(s, c, y, i, o);
      case SynSent => SynSentKeeps(s, e, c, y, i, o);
      case ActClose => ActCloseKeeps(s, e, c, y, i, o);
      case FinWait1 => FinWait1Keeps(s, e, c, y, i, o);
      case FinWait2 => FinWait2Keeps(s, e, c, y, i, o);
      case LastAck => LastAckKeeps(s, e, c, y, i, o);
      case Closing => LastAckKeeps(s, e, c, y, i, o);
      case Reset => CloseKeeps(s, c.now, y, i, o);
      case _ => WaitKeeps(s, c, y, i, o);
    }
  }
}
