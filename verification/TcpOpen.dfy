/** A run of two TCP sockets that opens a connection and delivers data: what is proved of
    all runs is not proved of none. */
module TcpOpen {
  import opened Words
  import opened Wrappers
  import opened CircBuff
  import opened Tcp
  import opened TcpLink
  import opened TcpNet
  import Answers = TcpAnswers

  /** At time zero, on a serial link, with an application that does nothing. */
  const CALM := Context(0, Upcall(true, [], 0, false), 1460, true)

  const LAST: LWord := 0xffff_ffff

  lemma Zero()
    ensures W32(0) == 0 && W32(-1) == LAST && W32(LAST + 1) == 0 && W32(0 - 0) == 0
  {
    WrapNear(0);
    WrapNear(-1);
    WrapSub(0, 1);
    assert LAST == 0 - 1 + TWO32;
    WrapTurn(0, TWO32);
  }

  /** A socket with nothing to do at time zero, its timer just set. */
  predicate JustSet(x: Sock) {
    x.Ok() && x.time == 0 && x.retries == RETRIES && x.timeout == TIMEOUT && x.connflags == {}
  }

  lemma Opens(a: Sock)
    requires a.Ok() && Unused(a)
    ensures var r := OpenSock(a, CALM);
      r.1 == None && JustSet(r.0) && r.0.state == ArpRcvd && !r.0.h.txOpen && !r.0.h.rxOpen
      && r.0.tx == a.tx && r.0.rx == a.rx && !r.0.h.finSent && !r.0.h.finSeen
  {
    hide W32;
  }

  /** A socket that has just opened its transmit side at zero, or both sides. */
  predicate Fresh(x: Sock, st: State, cap: nat) {
    && JustSet(x) && x.state == st && x.rxwin == RX_WINDOW
    && x.tx == Buf(cap, 0, [], 0) && x.h.txOpen && x.h.iss == 0 && x.h.sent == [] && x.h.high == 0
    && !x.h.finSent && !x.h.finSeen
  }

  predicate Listening(x: Sock, cap: nat) {
    x.rx == Buf(cap, 0, [], 0) && x.h.rxOpen && x.h.irs == 0 && x.h.recv == [] && x.h.got == []
  }

  lemma SendsSyn(a: Sock)
    requires JustSet(a) && a.state == ArpRcvd && !a.h.txOpen && !a.h.rxOpen && !a.h.finSent && !a.h.finSeen
    ensures var r := Poll(a, CALM);
      && Fresh(r.0, SynSent, a.tx.cap) && !r.0.h.rxOpen && r.0.rx.cap == a.rx.cap
      && r.1.Some? && r.1.value.flags == {SYN} && r.1.value.seqNo == LAST
      && r.1.value.data == [] && r.1.value.window == RX_WINDOW
  {
    Zero();
    hide W32;
    assert !TimedOut(a, 0);
    assert a.rx.data[0..] == a.rx.data && a.h.got + [] == a.h.got;
  }

  lemma AnswersSyn(b: Sock, p: Segment)
    requires b.Ok() && Unused(b) && p.flags == {SYN} && p.seqNo == LAST
    ensures var r := SockRx(b, Some(p), CALM);
      && Fresh(r.0, SynRcvd, b.tx.cap) && Listening(r.0, b.rx.cap) && r.0.txwin == p.window
      && r.1 == Some(Segment({SYN, ACK}, LAST, 0, RX_WINDOW, []))
  {
    Zero();
    hide W32;
    assert RFlags(Some(p)) == {SYN};
  }

  lemma Establishes(a: Sock, p: Segment)
    requires Fresh(a, SynSent, a.tx.cap) && !a.h.rxOpen && a.rx.Ok()
    requires p == Segment({SYN, ACK}, LAST, 0, RX_WINDOW, [])
    ensures var r := SockRx(a, Some(p), CALM);
      && Fresh(r.0, Est, a.tx.cap) && Listening(r.0, a.rx.cap) && r.0.txwin == RX_WINDOW
      && r.1 == Some(Segment({ACK}, 0, 0, RX_WINDOW, []))
  {
    Zero();
    assert InLimits(0, 0, 0);
    hide W32, InLimits;
    assert RFlags(Some(p)) == {SYN, ACK};
  }

  lemma Accepts(b: Sock, p: Segment)
    requires Fresh(b, SynRcvd, b.tx.cap) && Listening(b, b.rx.cap) && b.rx.Ok()
    requires p == Segment({ACK}, 0, 0, RX_WINDOW, [])
    ensures var r := SockRx(b, Some(p), CALM);
      Fresh(r.0, Est, b.tx.cap) && Listening(r.0, b.rx.cap) && r.1 == None
  {
    Zero();
    assert InLimits(0, 0, 0);
    hide W32, InLimits;
    assert RFlags(Some(p)) == {ACK};
  }

  lemma Writes(a: Sock, bytes: seq<Byte>)
    requires Fresh(a, Est, a.tx.cap) && Listening(a, a.rx.cap) && a.rx.Ok() && a.txwin == RX_WINDOW
    requires 0 < |bytes| <= a.tx.cap && |bytes| <= 1460
    ensures var r := Poll(Offer(a, bytes), CALM);
      && r.0.Ok() && r.0.state == Est && r.0.h.sent == bytes && TrialPos(r.0) == |bytes| && r.0.h.recv == []
      && r.1 == Some(Segment({ACK}, 0, 0, RX_WINDOW, bytes)) && r.0.tx == Buf(a.tx.cap, 0, bytes, |bytes|)
      && r.0.rx == a.rx && r.0.connflags == {} && r.0.h.txOpen
  {
    Zero();
    var x := Offer(a, bytes);
    assert bytes[..|bytes|] == bytes && [] + bytes == bytes;
    assert !TimedOut(x, 0);
    assert W16(|bytes|) == |bytes|;
    assert x.rx.data[0..] == [] && x.h.got + [] == [];
    hide W32, W16;
    assert {ACK} + {} == {ACK};
  }

  /** An acknowledgement of so many bytes, without data. */
  predicate BareAck(p: Segment, n: nat) { p.flags == {ACK} && p.seqNo == 0 && p.ackNo == n && p.data == [] }

  lemma Reads(b: Sock, bytes: seq<Byte>)
    requires Fresh(b, Est, b.tx.cap) && Listening(b, b.rx.cap) && b.rx.Ok()
    requires 0 < |bytes| <= b.rx.cap
    ensures var r := SockRx(b, Some(Segment({ACK}, 0, 0, RX_WINDOW, bytes)), CALM);
      && r.0.state == Est && r.0.h.recv == bytes && r.1.Some? && BareAck(r.1.value, |bytes|)
      && r.0.h.sent == [] && r.0.tx.data == [] && r.0.tx.tried == 0
  {
    Zero();
    WrapNear(|bytes|);
    var p := Segment({ACK}, 0, 0, RX_WINDOW, bytes);
    assert bytes[0..] == bytes && bytes[..|bytes|] == bytes && [] + bytes == bytes;
    assert Answers.Fresh(b, bytes, 0) == bytes;
    hide SockRx, W32;
    Answers.EstServes(b, p, CALM, 0);
    Answers.DataAnswered(b, p, CALM, 0);
    Answers.ReleasedIs(b, p, 0);
    Answers.ServedIs(b, p, CALM, 0);
    AnswersBare(Answers.Served(b, p, CALM, 0));
    hide Answers.Served, EstabTx;
  }

  /** An answer forced from a socket that has nothing to send. */
  lemma AnswersBare(u: Sock)
    requires u.Ok() && u.tx.data == [] && u.tx.out == 0 && u.connflags == {}
    ensures var r := EstabTx(u, true, CALM.maxdata);
      && r.1.Some? && r.1.value.flags == {ACK} && r.1.value.data == [] && r.0.tx == u.tx && r.0.h.sent == u.h.sent
      && (u.state == Est ==> r.1.value.seqNo == 0)
  {
    Zero();
    assert u.tx.tried == 0 && {ACK} + {} == {ACK};
    assert W32(0 + 0) == 0;
    hide W32;
  }

  /** And a hears that it has. */
  lemma Hears(a: Sock, p: Segment, bytes: seq<Byte>)
    requires a.Ok() && a.state == Est && a.connflags == {} && a.rx == Buf(a.rx.cap, 0, [], 0)
    requires a.tx == Buf(a.tx.cap, 0, bytes, |bytes|) && BareAck(p, |bytes|)
    ensures var r := SockRx(a, Some(p), CALM);
      && r.0.tx.data == [] && r.0.state == Est && r.0.h.sent == a.h.sent
  {
    Zero();
    WrapNear(|bytes|);
    hide SockRx, W32;
    Answers.AcknowledgedRemoved(a, p, CALM, 0, |bytes|);
    Answers.EstServes(a, p, CALM, 0);
    Answers.SendingKeeps(Answers.Served(a, p, CALM, 0), false, CALM.maxdata);
    Answers.ServedIs(a, p, CALM, 0);
    hide Answers.Served, EstabTx;
    assert bytes[|bytes|..] == [];
  }

  lemma OneMove(s: Net, m: Move, moves: seq<Move>)
    requires Ok(s)
    ensures AllAllowed(s, [m] + moves) <==> Allowed(s, m) && AllAllowed(Next(s, m), moves)
    ensures Run(s, [m] + moves) == Run(Next(s, m), moves)
  {
    assert ([m] + moves)[1..] == moves;
  }

  /** After the handshake: both established, nothing sent yet. */
  predicate Joined(s: Net) {
    && s.a.Ok() && s.b.Ok()
    && Fresh(s.a, Est, s.a.tx.cap) && Listening(s.a, s.a.rx.cap) && s.a.txwin == RX_WINDOW
    && Fresh(s.b, Est, s.b.tx.cap) && Listening(s.b, s.b.rx.cap)
  }

  /** a opens: it goes through ARP to Syn-Sent, its SYN is on its way. */
  lemma Calls(s: Net) returns (moves: seq<Move>, e: Envelope)
    requires Start(s)
    ensures AllAllowed(s, moves)
    ensures var t := Run(s, moves);
      && t.b == s.b && t.toB == {e} && t.toA == {} && Fresh(t.a, SynSent, t.a.tx.cap)
      && t.a.tx.cap == s.a.tx.cap && !t.a.h.rxOpen && t.a.rx.cap == s.a.rx.cap
      && e.p.flags == {SYN} && e.p.seqNo == LAST && e.p.data == [] && e.p.window == RX_WINDOW
  {
    Opens(s.a);
    var m1, m2 := ByA(DoOpen(CALM)), ByA(DoPoll(CALM));
    var s1 := Next(s, m1);
    SendsSyn(s1.a);
    var s2 := Next(s1, m2);
    var r := Poll(s1.a, CALM);
    e := Sealed(r.0, r.1.value);
    hide OpenSock, Poll, W32;
    moves := [m1] + ([m2] + []);
    OneMove(s, m1, [m2] + []);
    OneMove(s1, m2, []);
  }

  /** The SYN is answered, and the answer acknowledged. */
  lemma Joins(s: Net, e: Envelope) returns (moves: seq<Move>)
    requires Ok(s) && Unused(s.b) && s.toB == {e} && s.toA == {}
    requires Fresh(s.a, SynSent, s.a.tx.cap) && !s.a.h.rxOpen
    requires e.p.flags == {SYN} && e.p.seqNo == LAST && e.p.data == [] && e.p.window == RX_WINDOW
    ensures AllAllowed(s, moves) && Joined(Run(s, moves))
    ensures var t := Run(s, moves); t.a.tx.cap == s.a.tx.cap && t.b.rx.cap == s.b.rx.cap
  {
    hide SockRx, W32;
    AnswersSyn(s.b, e.p);
    var m1 := ByB(Deliver(e, CALM));
    var r1 := SockRx(s.b, Some(e.p), CALM);
    var s1 := Next(s, m1);
    var e1 := Sealed(r1.0, r1.1.value);
    Establishes(s1.a, e1.p);
    var m2 := ByA(Deliver(e1, CALM));
    var r2 := SockRx(s1.a, Some(e1.p), CALM);
    var s2 := Next(s1, m2);
    var e2 := Sealed(r2.0, r2.1.value);
    Accepts(s2.b, e2.p);
    var m3 := ByB(Deliver(e2, CALM));
    var s3 := Next(s2, m3);
    moves := [m1] + ([m2] + ([m3] + []));
    OneMove(s, m1, [m2] + ([m3] + []));
    OneMove(s1, m2, [m3] + []);
    OneMove(s2, m3, []);
  }

  /** a has sent, b has it all, and b's acknowledgement is on its way. */
  predicate Answered(s: Net, bytes: seq<Byte>, e: Envelope) {
    && s.a.Ok() && s.b.Ok() && s.a.state == s.b.state == Est && s.a.connflags == {}
    && s.a.rx == Buf(s.a.rx.cap, 0, [], 0) && s.a.tx == Buf(s.a.tx.cap, 0, bytes, |bytes|)
    && s.a.h.sent == bytes == s.b.h.recv && s.a.h.recv == []
    && e in s.toA && BareAck(e.p, |bytes|) && e.at == 0 && e.ack == |bytes|
  }

  /** a's application writes, and b receives what it wrote, and answers. */
  lemma Talks(s: Net, bytes: seq<Byte>) returns (moves: seq<Move>, e2: Envelope)
    requires Joined(s) && 0 < |bytes| <= 1460 && |bytes| <= s.a.tx.cap && |bytes| <= s.b.rx.cap
    ensures AllAllowed(s, moves) && Answered(Run(s, moves), bytes, e2)
  {
    hide SockRx, Poll, W32, Offer;
    var m1, m2 := ByA(AppPut(bytes)), ByA(DoPoll(CALM));
    var s1 := Next(s, m1);
    Writes(s.a, bytes);
    var r2 := Poll(s1.a, CALM);
    var s2 := Next(s1, m2);
    var e := Sealed(r2.0, r2.1.value);
    Reads(s2.b, bytes);
    var m3 := ByB(Deliver(e, CALM));
    var r3 := SockRx(s2.b, Some(e.p), CALM);
    var s3 := Next(s2, m3);
    e2 := Sealed(r3.0, r3.1.value);
    moves := [m1] + ([m2] + ([m3] + []));
    OneMove(s, m1, [m2] + ([m3] + []));
    OneMove(s1, m2, [m3] + []);
    OneMove(s2, m3, []);
  }

  /** The acknowledgement arrives. */
  lemma Listens(s: Net, bytes: seq<Byte>, e: Envelope) returns (moves: seq<Move>)
    requires s.a.Ok() && s.b.Ok() && Answered(s, bytes, e) && |bytes| <= 1460
    ensures AllAllowed(s, moves)
    ensures var t := Run(s, moves);
      t.a.state == t.b.state == Est && t.a.h.sent == bytes == t.b.h.recv && t.a.tx.data == []
  {
    hide SockRx, W32;
    Hears(s.a, e.p, bytes);
    var m := ByA(Deliver(e, CALM));
    moves := [m] + [];
    OneMove(s, m, []);
  }

  lemma {:induction false} RunSplit(s: Net, first: seq<Move>, then_: seq<Move>)
    requires Ok(s)
    ensures Run(s, first + then_) == Run(Run(s, first), then_)
    ensures AllAllowed(s, first + then_) <==> AllAllowed(s, first) && AllAllowed(Run(s, first), then_)
    decreases |first|
  {
    hide Next, Allowed;
    if first == [] {
      assert first + then_ == then_;
    } else {
      RunSplit(Next(s, first[0]), first[1..], then_);
      assert (first + then_)[1..] == first[1..] + then_ && (first + then_)[0] == first[0];
    }
  }

  /** From any two unused sockets there is a run in which the connection opens and any
      bytes that fit one segment and the buffers are delivered, and acknowledged. */
  lemma ConnectionWorks(s: Net, bytes: seq<Byte>) returns (moves: seq<Move>)
    requires Start(s) && 0 < |bytes| <= 1460 && |bytes| <= s.a.tx.cap && |bytes| <= s.b.rx.cap
    ensures AllAllowed(s, moves)
    ensures var t := Run(s, moves); t.a.state == t.b.state == Est && t.b.h.recv == bytes && t.a.tx.data == []
  {
    hide AllAllowed, Run, Fresh, Listening;
    var m1, e := Calls(s);
    var s1 := Run(s, m1);
    var m2 := Joins(s1, e);
    var s2 := Run(s1, m2);
    var m3, e2 := Talks(s2, bytes);
    var s3 := Run(s2, m3);
    var m4 := Listens(s3, bytes, e2);
    RunSplit(s, m1, m2 + (m3 + m4));
    RunSplit(s1, m2, m3 + m4);
    RunSplit(s2, m3, m4);
    moves := m1 + (m2 + (m3 + m4));
  }
}
