/** What a FIN of a TCP socket covers. A FIN stands at the trial position of its sender, and
    that is the end of what has been sent except in one case: a timeout has rewound the
    trial pointer, less was sent again than before, and then the peer's own FIN has the
    socket answer with a FIN at once. */
module TcpFin {
  import opened Words
  import opened Wrappers
  import opened CircBuff
  import opened Tcp
  import opened TcpLink
  import opened TcpNet
  import opened TcpOpen

  // ---- A FIN fixes the end of the stream ----

  /** Where the FIN stands, and the furthest that has been sent, do not change any more. */
  predicate SameEnd(x: Sock, x': Sock) {
    x'.h.finSent && x'.h.txOpen && TrialPos(x') == TrialPos(x) && x'.h.high == x.h.high
  }

  /** A socket that has sent its FIN. */
  predicate Ended(x: Sock) {
    x.Ok() && x.h.finSent && x.h.txOpen && TrialPos(x) <= x.h.high && (FinOut(x.state) || x.state == Closed)
  }

  lemma HeaderSameEnd(x: Sock, seg: Option<Segment>, now: LWord)
    requires Ended(x)
    ensures var t := Header(x, seg, now);
      SameEnd(x, t) && (t.state == x.state || t.state == Reset)
  {
    hide W32, InLimits;
    if seg.Some? && InLimits(seg.value.ackNo, x.tx.out, x.tx.TrialPtr()) {
      TSock.AckOnTrial(x.tx, seg.value.ackNo);
    }
  }

  lemma RxSameEnd(x: Sock, seg: Option<Segment>, c: Context)
    requires Ended(x) && (x.state == Closed ==> RFlags(seg) != {SYN})
    ensures SameEnd(x, SockRx(x, seg, c).0)
  {
    hide Header, W32, RFlags, InFinWait1, InFinWait2, InLastAck, InClosed;
    HeaderSameEnd(x, seg, c.now);
    var t := Header(x, seg, c.now);
    WaitSameEnd(t, seg, c);
    RestSameEnd(t, seg, c);
    SameEndTwice(x, t, SockRx(x, seg, c).0);
  }

  lemma SameEndTwice(x: Sock, t: Sock, u: Sock)
    ensures SameEnd(x, t) && SameEnd(t, u) ==> SameEnd(x, u)
  {}

  lemma WaitSameEnd(t: Sock, seg: Option<Segment>, c: Context)
    requires t.Ok() && t.h.finSent && t.h.txOpen && TrialPos(t) <= t.h.high
    ensures SameEnd(t, InFinWait1(t, seg, c).0) && SameEnd(t, InFinWait2(t, seg, c).0)
  {
    hide W32, RFlags, Signed32, NewPart, SeqDelta;
  }

  lemma RestSameEnd(t: Sock, seg: Option<Segment>, c: Context)
    requires t.Ok() && t.h.finSent && t.h.txOpen
    ensures SameEnd(t, InLastAck(t, seg, c).0)
    ensures RFlags(seg) != {SYN} ==> SameEnd(t, InClosed(t, seg, c).0)
  {
    hide W32, RFlags;
  }

  lemma PollSameEnd(x: Sock, c: Context)
    requires Ended(x)
    ensures SameEnd(x, Poll(x, c).0)
  {
    if x.state != Closed {
      if TimedOut(x, c.now) {
        hide W32, TimedOut, SockRx;
      } else {
        RxSameEnd(x, None, c);
        hide SockRx;
      }
    }
  }

  /** Whatever a socket that has sent its FIN does, the FIN stays where it is. */
  lemma FinStays(x: Sock, toX: set<Envelope>, act: Act)
    requires Ended(x) && Enabled(x, toX, act)
    ensures SameEnd(x, Perform(x, act).0)
  {
    if act.Deliver? { RxSameEnd(x, Some(act.e.p), act.c); }
    if act.DoPoll? { PollSameEnd(x, act.c); }
    hide SockRx, Poll, W32;
  }

  lemma EndedInRun(x: Sock, y: Sock, toX: set<Envelope>, toY: set<Envelope>)
    requires Inv(x, y, toX, toY) && x.h.finSent
    ensures Ended(x)
  {
    hide W32, Sends, Acks, Link, Remakable;
  }

  /** Once a has sent its FIN, it stays at that place for the rest of any run, and no more
      is sent. */
  lemma {:induction false} FinStaysInRun(s: Net, moves: seq<Move>)
    requires Ok(s) && Good(s) && AllAllowed(s, moves) && s.a.h.finSent
    ensures SameEnd(s.a, Run(s, moves).a)
    decreases |moves|
  {
    hide Inv, Perform, SameEnd, Enabled;
    if moves == [] {
      StaysItself(s.a, s.b, s.toA, s.toB);
    } else {
      EndedInRun(s.a, s.b, s.toA, s.toB);
      var t := Next(s, moves[0]);
      assert Run(s, [moves[0]]) == t by { assert Run(t, []) == t; assert [moves[0]][1..] == []; }
      assert AllAllowed(s, [moves[0]]) by { assert [moves[0]][1..] == []; }
      RunKeeps(s, [moves[0]]);
      StepStays(s, moves[0]);
      FinSentStays(s.a, t.a);
      FinStaysInRun(t, moves[1..]);
      SameEndTwice(s.a, t.a, Run(s, moves).a);
    }
  }

  lemma StepStays(s: Net, mv: Move)
    requires Ok(s) && Allowed(s, mv) && Ended(s.a)
    ensures SameEnd(s.a, Next(s, mv).a)
  {
    hide Perform, Enabled;
    if mv.ByA? { FinStays(s.a, s.toA, mv.act); }
  }

  lemma FinSentStays(x: Sock, x': Sock)
    requires SameEnd(x, x')
    ensures x'.h.finSent
  {}

  lemma StaysItself(x: Sock, y: Sock, toX: set<Envelope>, toY: set<Envelope>)
    requires Inv(x, y, toX, toY) && x.h.finSent
    ensures SameEnd(x, x)
  {
    hide W32, Sends, Acks, Link, Remakable;
  }

  // ---- The FIN that answers the peer's ----

  /** Answering the peer's FIN, in the established state or after it: the FIN is made where
      the trial pointer stands, so that it covers everything sent if and only if the trial
      pointer is at the furthest it has been. */
  lemma AnswerCovers(x: Sock, seg: Option<Segment>, c: Context)
    requires x.Ok() && c.up.ok && TrialPos(x) <= x.h.high
    requires x.state == CloseWait ||
      (x.state == Est && FIN in RFlags(seg) && seg.value.data == [] && x.rxseq == x.rx.InPtr())
    ensures var r := if x.state == CloseWait then InCloseWait(x, c) else InEst(x, seg, c);
      && r.0.state == LastAck && r.1.Some? && r.1.value.flags == {FIN, ACK}
      && Sealed(r.0, r.1.value).at == TrialPos(r.0) == TrialPos(x) && r.0.h.high == x.h.high
  {
    hide W32;
  }

  // ---- A run in which a FIN falls short of what has been sent ----

  /** Two seconds later. */
  const LATE := Context(2000, Upcall(true, [], 0, false), 1460, true)

  const FULL := 1460

  /** An established socket that has put `bytes` into its buffer from position zero, tried
      so many of them, and received nothing yet. */
  predicate Busy(x: Sock, bytes: seq<Byte>, tried: nat, high: nat) {
    && x.Ok() && x.state == Est && x.connflags == {} && x.rxwin == RX_WINDOW && x.txwin == RX_WINDOW
    && x.tx == Buf(x.tx.cap, 0, bytes, tried) && Listening(x, x.rx.cap)
    && x.h.txOpen && x.h.iss == 0 && x.h.sent == bytes && x.h.high == high && !x.h.finSent && !x.h.finSeen
  }

  /** Its timer has just been set, at time zero. */
  predicate Timed(x: Sock) { x.time == 0 && x.retries == RETRIES && x.timeout == TIMEOUT }

  lemma Nothing()
    ensures W32(0) == 0 && InLimits(0, 0, 0) && InLimits(0, 0, FULL) && Signed32(0) == 0
    ensures W16(FULL) == FULL && W16(1) == 1 && W32(FULL) == FULL && W32(1) == 1 && W32(2000) == 2000
  {
    WrapNear(0);
    WrapNear(FULL);
    WrapNear(1);
    WrapNear(2000);
  }

  lemma FirstSegment(a: Sock, bytes: seq<Byte>)
    requires Fresh(a, Est, a.tx.cap) && Listening(a, a.rx.cap) && a.rx.Ok() && a.txwin == RX_WINDOW
    requires |bytes| == FULL <= a.tx.cap
    ensures var r := Poll(Offer(a, bytes), CALM);
      && Busy(r.0, bytes, FULL, FULL) && Timed(r.0) && r.0.tx.cap == a.tx.cap
      && r.1 == Some(Segment({ACK}, 0, 0, RX_WINDOW, bytes))
  {
    Nothing();
    var x := Offer(a, bytes);
    assert bytes[..FULL] == bytes && [] + bytes == bytes;
    assert !TimedOut(x, 0);
    assert x.rx.data[0..] == [] && x.h.got + [] == [] && x.tx.data[0..FULL] == bytes;
    hide W32, W16, Signed32;
    assert {ACK} + {} == {ACK};
  }

  lemma SecondSegment(x: Sock, bytes: seq<Byte>, b: Byte)
    requires Busy(x, bytes, FULL, FULL) && Timed(x) && |bytes| == FULL < x.tx.cap
    ensures var r := Poll(Offer(x, [b]), CALM);
      Busy(r.0, bytes + [b], FULL + 1, FULL + 1) && Timed(r.0) && r.1.Some? && r.0.tx.cap == x.tx.cap
  {
    Nothing();
    var y := Offer(x, [b]);
    assert [b][..1] == [b];
    assert !TimedOut(y, 0);
    assert y.rx.data[0..] == [] && y.h.got + [] == [];
    hide W32, W16, Signed32;
  }

  /** The timeout: only one segment is sent again. */
  lemma SentAgain(x: Sock, bytes: seq<Byte>)
    requires Busy(x, bytes, FULL + 1, FULL + 1) && Timed(x) && |bytes| == FULL + 1
    ensures var r := Poll(x, LATE); Busy(r.0, bytes, FULL, FULL + 1) && r.1.Some?
  {
    Nothing();
    assert W32(2000 - 0) == 2000 && TimedOut(x, 2000);
    hide W32, W16, Signed32, TimedOut;
  }

  /** A socket that has closed without having sent any data, and has received `recv`. */
  predicate Shut(x: Sock, recv: seq<Byte>) {
    && x.Ok() && x.state == FinWait1 && x.tx == Buf(x.tx.cap, 0, [], 0) && x.h.txOpen && x.h.iss == 0
    && x.h.sent == [] && x.h.high == 0 && x.h.finSent && !x.h.finSeen
    && x.rx == Buf(x.rx.cap, 0, recv, 0) && x.h.rxOpen && x.h.irs == 0 && x.h.recv == recv
  }

  /** The peer closes. */
  lemma Closes(b: Sock)
    requires Fresh(b, Est, b.tx.cap) && Listening(b, b.rx.cap) && b.rx.Ok()
    ensures var r := Poll(CloseSock(b, 0), CALM);
      Shut(r.0, []) && r.0.rx.cap == b.rx.cap && r.1 == Some(Segment({FIN, ACK}, 0, 0, RX_WINDOW, []))
  {
    Nothing();
    var x := CloseSock(b, 0);
    assert !TimedOut(x, 0);
    hide TimedOut, W32, InActClose;
    assert Poll(x, CALM) == SockRx(x, None, CALM) == InActClose(x, None, CALM);
    ClosesNow(x);
  }

  lemma ClosesNow(x: Sock)
    requires x.Ok() && x.state == ActClose && x.tx == Buf(x.tx.cap, 0, [], 0) && Listening(x, x.rx.cap)
    requires x.h.txOpen && x.h.iss == 0 && x.h.sent == [] && x.h.high == 0 && !x.h.finSeen && x.rxwin == RX_WINDOW
    ensures var r := InActClose(x, None, CALM);
      Shut(r.0, []) && r.0.rx.cap == x.rx.cap && r.1 == Some(Segment({FIN, ACK}, 0, 0, RX_WINDOW, []))
  {
    Nothing();
    hide W32, W16, Signed32;
    var t := CallUp(x, CALM.up);
    assert x.rx.data[0..] == [] && x.h.got + [] == [];
    assert t.rx == x.rx && t.tx == x.tx && t.h == x.h;
  }

  /** Its FIN is answered at once. */
  lemma Answers(x: Sock, bytes: seq<Byte>)
    requires Busy(x, bytes, FULL, FULL + 1) && |bytes| == FULL + 1
    ensures var r := SockRx(x, Some(Segment({FIN, ACK}, 0, 0, RX_WINDOW, [])), LATE);
      && r.0.state == LastAck && r.0.h.sent == bytes && r.0.h.high == FULL + 1 && TrialPos(r.0) == FULL
      && r.0.h.recv == [] && r.1 == Some(Segment({FIN, ACK}, FULL, 1, RX_WINDOW, []))
  {
    Nothing();
    var p := Segment({FIN, ACK}, 0, 0, RX_WINDOW, []);
    assert bytes[0..] == bytes;
    hide W32, W16, Signed32, InLimits, InEst;
    var t := Header(x, Some(p), 2000);
    assert t.rxseq == 0 && Busy(t, bytes, FULL, FULL + 1);
    AnswersNow(t, bytes, p);
  }

  lemma AnswersNow(x: Sock, bytes: seq<Byte>, p: Segment)
    requires Busy(x, bytes, FULL, FULL + 1) && |bytes| == FULL + 1 && x.rxseq == 0
    requires p == Segment({FIN, ACK}, 0, 0, RX_WINDOW, [])
    ensures var r := InEst(x, Some(p), LATE);
      && r.0.state == LastAck && r.0.h.sent == bytes && r.0.h.high == FULL + 1 && TrialPos(r.0) == FULL
      && r.0.h.recv == [] && r.1 == Some(Segment({FIN, ACK}, FULL, 1, RX_WINDOW, []))
  {
    Nothing();
    assert RFlags(Some(p)) == {FIN, ACK};
    hide W32, W16, Signed32, RFlags;
    var x1 := NewState(x, Est, 2000);
    assert x1.rxseq == x1.rx.InPtr() && EstabRx(x1, Some(p)) == (x1, false);
    CalledUp(x1, bytes);
    var u := NewState(CallUp(x1, LATE.up), LastAck, 2000);
    assert InEst(x, Some(p), LATE) == Make(u, {FIN, ACK}, 0);
    hide CallUp, EstabRx, InEst;
    assert u.tx.TrialPtr() == FULL && u.rx.InPtr() == 0;
    assert u.tx.TryBytes(0) == [];
  }

  /** An application that does nothing changes nothing. */
  lemma CalledUp(x: Sock, bytes: seq<Byte>)
    requires Busy(x, bytes, FULL, FULL + 1)
    ensures CallUp(x, LATE.up) == x
  {
    Nothing();
    hide W32;
    assert x.rx.data[0..] == [] && x.h.got + [] == [] && bytes + [] == bytes;
  }

  /** The first segment arrives late. */
  lemma GetsFirst(x: Sock, bytes: seq<Byte>)
    requires Shut(x, []) && |bytes| == FULL <= x.rx.cap
    ensures var r := SockRx(x, Some(Segment({ACK}, 0, 0, RX_WINDOW, bytes)), CALM);
      Shut(r.0, bytes) && r.1 == None
  {
    Nothing();
    var p := Segment({ACK}, 0, 0, RX_WINDOW, bytes);
    assert RFlags(Some(p)) == {ACK};
    assert bytes[..FULL] == bytes && [] + bytes == bytes && x.tx.data[0..] == [];
    hide W32, W16, Signed32, InLimits, RFlags;
  }

  /** And so does the FIN. */
  lemma GetsFin(x: Sock, bytes: seq<Byte>)
    requires Shut(x, bytes) && |bytes| == FULL
    ensures var r := SockRx(x, Some(Segment({FIN, ACK}, FULL, 1, RX_WINDOW, [])), CALM);
      r.0.state == TimedWait && r.0.h.finSeen && r.0.h.recv == bytes
  {
    Nothing();
    assert !InLimits(1, 0, 0) by { WrapNear(-1); }
    var p := Segment({FIN, ACK}, FULL, 1, RX_WINDOW, []);
    assert RFlags(Some(p)) == {FIN, ACK};
    hide W32, W16, Signed32, InLimits, RFlags;
  }

  /** a sends two segments, and after the timeout only the first of them again. */
  lemma SendsAgain(s: Net, bytes: seq<Byte>) returns (moves: seq<Move>, e: Envelope)
    requires Joined(s) && |bytes| == FULL + 1 <= s.a.tx.cap
    ensures AllAllowed(s, moves)
    ensures var t := Run(s, moves);
      && t.b == s.b && t.toA == s.toA && e in t.toB && Busy(t.a, bytes, FULL, FULL + 1)
      && e == Envelope(Segment({ACK}, 0, 0, RX_WINDOW, bytes[..FULL]), 0, 0)
  {
    hide Poll, W32, Offer;
    var first, last := bytes[..FULL], bytes[FULL];
    assert first + [last] == bytes;
    FirstSegment(s.a, first);
    var m1, m2, m3 := ByA(AppPut(first)), ByA(DoPoll(CALM)), ByA(AppPut([last]));
    var s1 := Next(s, m1);
    var s2 := Next(s1, m2);
    e := Sealed(s2.a, Poll(s1.a, CALM).1.value);
    SecondSegment(s2.a, first, last);
    var s3 := Next(s2, m3);
    var s4 := Next(s3, m2);
    SentAgain(s4.a, bytes);
    var m5 := ByA(DoPoll(LATE));
    var s5 := Next(s4, m5);
    moves := [m1] + ([m2] + ([m3] + ([m2] + ([m5] + []))));
    OneMove(s, m1, [m2] + ([m3] + ([m2] + ([m5] + []))));
    OneMove(s1, m2, [m3] + ([m2] + ([m5] + [])));
    OneMove(s2, m3, [m2] + ([m5] + []));
    OneMove(s3, m2, [m5] + []);
    OneMove(s4, m5, []);
  }

  /** b closes, a answers, and b gets the first segment and then the FIN. */
  lemma ClosesShort(s: Net, bytes: seq<Byte>, e: Envelope) returns (moves: seq<Move>)
    requires Ok(s) && Busy(s.a, bytes, FULL, FULL + 1) && |bytes| == FULL + 1 <= s.b.rx.cap && e in s.toB
    requires e == Envelope(Segment({ACK}, 0, 0, RX_WINDOW, bytes[..FULL]), 0, 0)
    requires Fresh(s.b, Est, s.b.tx.cap) && Listening(s.b, s.b.rx.cap)
    ensures AllAllowed(s, moves)
    ensures var t := Run(s, moves);
      && t.a.h.sent == bytes && t.a.h.high == FULL + 1 && TrialPos(t.a) == FULL
      && t.b.h.finSeen && t.b.h.recv == bytes[..FULL]
  {
    hide Poll, SockRx, W32, CloseSock;
    Closes(s.b);
    var m1, m2 := ByB(DoClose(0)), ByB(DoPoll(CALM));
    var s1 := Next(s, m1);
    var s2 := Next(s1, m2);
    var e1 := Sealed(s2.b, Poll(s1.b, CALM).1.value);
    Answers(s2.a, bytes);
    var m3 := ByA(Deliver(e1, LATE));
    var s3 := Next(s2, m3);
    var e2 := Sealed(s3.a, SockRx(s2.a, Some(e1.p), LATE).1.value);
    GetsFirst(s3.b, bytes[..FULL]);
    var m4 := ByB(Deliver(e, CALM));
    var s4 := Next(s3, m4);
    GetsFin(s4.b, bytes[..FULL]);
    var m5 := ByB(Deliver(e2, CALM));
    var s5 := Next(s4, m5);
    moves := [m1] + ([m2] + ([m3] + ([m4] + ([m5] + []))));
    OneMove(s, m1, [m2] + ([m3] + ([m4] + ([m5] + []))));
    OneMove(s1, m2, [m3] + ([m4] + ([m5] + [])));
    OneMove(s2, m3, [m4] + ([m5] + []));
    OneMove(s3, m4, [m5] + []);
    OneMove(s4, m5, []);
  }

  /** A FIN need not cover all that has been sent: from any two unused sockets with room for
      1461 bytes there is a run in which all of them have been sent and the peer has
      accepted the FIN after 1460. */
  lemma FinCanFallShort(s: Net, bytes: seq<Byte>) returns (moves: seq<Move>)
    requires Start(s) && |bytes| == FULL + 1 <= s.a.tx.cap && |bytes| <= s.b.rx.cap
    ensures AllAllowed(s, moves)
    ensures var t := Run(s, moves);
      t.b.h.finSeen && |t.b.h.recv| == TrialPos(t.a) == FULL < t.a.h.high == |t.a.h.sent|
  {
    hide AllAllowed, Run, Fresh, Listening, Busy;
    var m1, e0 := Calls(s);
    var s1 := Run(s, m1);
    var m2 := Joins(s1, e0);
    var s2 := Run(s1, m2);
    var m3, e := SendsAgain(s2, bytes);
    var s3 := Run(s2, m3);
    var m4 := ClosesShort(s3, bytes, e);
    RunSplit(s, m1, m2 + (m3 + m4));
    RunSplit(s1, m2, m3 + m4);
    RunSplit(s2, m3, m4);
    moves := m1 + (m2 + (m3 + m4));
  }
}
