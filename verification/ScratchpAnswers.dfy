/** What a SCRATCHP node answers, in terms of the numbers in the packets alone; how a lost
    acknowledgement is made good; and what is not made good. */
module ScratchpAnswers {
  import opened Words
  import opened Wrappers
  import opened CircBuff
  import opened Scratchp
  import Net = ScratchpNet

  /** How far behind the receive position a packet's data begins, and how many bytes on
      trial it acknowledges: as 32-bit numbers, which a packet from ahead makes huge. */
  function Behind(n: Node, p: Packet): nat { W32(n.rx.InPtr() - p.seqNo) }

  function Acked(n: Node, p: Packet): nat { W32(p.ackNo - n.tx.out) }

  predicate Fitting(n: Node, p: Packet)
    requires n.Ok()
  { Behind(n, p) <= WINDOW_SIZE && Acked(n, p) <= n.tx.tried }

  /** A connected node, with no more on trial than the window. */
  predicate Running(n: Node) { n.Ok() && n.state == Connected && n.tx.tried <= WINDOW_SIZE }

  /** What a packet for a running connection carries. */
  predicate Plain(p: Packet) { p.flags == {FConn} }

  lemma PlainSignal(p: Packet)
    requires Plain(p)
    ensures SignalOf(p.flags, NoSig) == Conn
  {}

  lemma WindowLeft(k: nat)
    requires k <= WINDOW_SIZE
    ensures W16(WINDOW_SIZE - k) == WINDOW_SIZE - k
  {}

  /** Data at the receive position is taken as far as it fits, and nothing else is. */
  lemma DataTaken(n: Node, p: Packet)
    requires Running(n) && Plain(p)
    ensures var m := Step(n, Some(p), NoSig).0;
      && m.rx.out == n.rx.out
      && m.rx.data == n.rx.data + if Behind(n, p) == 0 then p.data[..Min(|p.data|, n.rx.cap - |n.rx.data|)] else []
  {
    PlainSignal(p);
    hide W32, W16;
    assert n.rx.data + [] == n.rx.data;
  }

  /** An acknowledgement of bytes on trial removes exactly those; any other nothing. */
  lemma AcknowledgedRemoved(n: Node, p: Packet)
    requires Running(n) && Plain(p)
    ensures var m := Step(n, Some(p), NoSig).0;
      m.tx.data == if Acked(n, p) <= n.tx.tried then n.tx.data[Acked(n, p)..] else n.tx.data
  {
    PlainSignal(p);
    hide W32, W16;
  }

  /** The connection goes on if and only if the packet fits: it begins no more than a window
      behind, and acknowledges no more than is on trial. */
  lemma GoesOn(n: Node, p: Packet)
    requires Running(n) && Plain(p)
    ensures Step(n, Some(p), NoSig).0.state == if Fitting(n, p) then Connected else Idle
  {
    PlainSignal(p);
    hide W32, W16;
  }

  /** A repeat is answered: the acknowledgement that its sender has missed goes out again. */
  lemma RepeatAnswered(n: Node, p: Packet)
    requires Running(n) && Plain(p) && Fitting(n, p) && Behind(n, p) > 0
    ensures var (m, q) := Step(n, Some(p), NoSig);
      && q.Some? && q.value.flags == {FConn} && q.value.ackNo == n.rx.InPtr() == m.rx.InPtr()
      && m.txack == n.rx.InPtr() && m.tx.tried == n.tx.tried - Acked(n, p) + |q.value.data|
  {
    PlainSignal(p);
    hide W32, W16;
  }

  /** Half a window of received bytes that have not been acknowledged is answered. */
  lemma HalfWindowAnswered(n: Node, p: Packet)
    requires Running(n) && Plain(p) && Fitting(n, p)
    requires W32(Step(n, Some(p), NoSig).0.rx.InPtr() - n.txack) >= 1500
    ensures var (m, q) := Step(n, Some(p), NoSig);
      q.Some? && q.value.flags == {FConn} && q.value.ackNo == m.rx.InPtr()
  {
    PlainSignal(p);
    hide W32, W16;
  }

  /** A packet that does not fit is answered with an error, unless there is something to
      send at the time: then that is sent instead, and the peer is not told. */
  lemma ErrorTold(n: Node, p: Packet)
    requires Running(n) && Plain(p) && !Fitting(n, p)
    ensures var (m, q) := Step(n, Some(p), NoSig);
      var forced := 0 < Behind(n, p) <= WINDOW_SIZE || W32(m.rx.InPtr() - n.txack) >= WINDOW_SIZE / 2;
      var k := if Acked(n, p) <= n.tx.tried then Acked(n, p) else 0;
      && q.Some?
      && (q.value.flags == {FErr} <==> !forced && (n.tx.tried == |n.tx.data| || n.tx.tried - k == WINDOW_SIZE))
      && (q.value.flags != {FErr} ==> q.value.flags == {FConn})
  {
    hide W32, W16, Emit;
    PlainSignal(p);
    assert Step(n, Some(p), NoSig) == Transfer(n, Some(p), false);
    var (m1, made, force) := Absorb(n, p);
    assert made.Some? && made.value.flags == {FErr};
    AfterError(m1, force, made);
  }

  /** What is sent then takes the place of the error. */
  lemma AfterError(n: Node, force: bool, made: Option<Packet>)
    requires n.Ok() && n.tx.tried <= WINDOW_SIZE && made.Some? && made.value.flags == {FErr}
    ensures var (m, q) := Emit(n, force, made);
      && q.Some? && m.rx == n.rx
      && (q.value.flags == {FErr} <==> !force && (n.tx.tried == |n.tx.data| || n.tx.tried == WINDOW_SIZE))
      && (q.value.flags != {FErr} ==> q.value.flags == {FConn})
  {
    WindowLeft(n.tx.tried);
    hide W32, W16;
  }

  /** What is sent without being forced: as much as has not been tried, at most a packetful,
      and no more than the window leaves; from the trial position on. */
  lemma SendsWhatMayGo(n: Node)
    requires Running(n)
    ensures var (m, q) := Step(n, None, NoSig);
      var k := Min(|n.tx.data| - n.tx.tried, Min(994, 3000 - n.tx.tried));
      && (q.Some? <==> k > 0) && m.state == Connected && m.tx.tried == n.tx.tried + k
      && (q.Some? ==> q.value == Packet({FConn}, W32(n.tx.out + n.tx.tried), n.rx.InPtr(),
                                        n.tx.data[n.tx.tried..n.tx.tried + k]))
  {
    WindowLeft(n.tx.tried);
    hide W32, W16;
  }

  /** A timeout sends again from the oldest byte that has not been acknowledged, or, if
      there is none, an empty packet. */
  lemma TimeoutRepeats(n: Node)
    requires Running(n) && n.tx.out == W32(n.tx.out)
    ensures var (m, q) := Step(n, None, Timeout);
      var k := Min(|n.tx.data|, 994);
      && q == Some(Packet({FConn}, n.tx.out, n.rx.InPtr(), n.tx.data[..k]))
      && m == n.(tx := n.tx.(tried := k), txack := n.rx.InPtr())
  {
    WindowLeft(0);
    assert W32(n.tx.out + 0) == n.tx.out;
    hide W32, W16;
    assert n.tx.data[0..0 + Min(|n.tx.data|, 994)] == n.tx.data[..Min(|n.tx.data|, 994)];
  }

  // ---- A lost acknowledgement is made good ----

  /** All that x has sent is at y; it is no more than a packet that x has not had
      acknowledged; and towards x nothing is under way. */
  ghost predicate AckMissing(s: Net.Net) {
    && Net.Ok(s) && Net.Good(s) && s.a.n.state == s.b.n.state == Connected
    && 0 < |s.a.n.tx.data| <= MAX_DATA && |s.b.recv| == |s.a.sent|
    && s.b.out + s.b.n.tx.tried == |s.a.recv|
  }

  lemma RepeatsAll(s: Net.Net) returns (e: Net.Envelope)
    requires AckMissing(s)
    ensures var x := Net.Perform(s.a, Net.Poll(Timeout)).0;
      && Net.Perform(s.a, Net.Poll(Timeout)).1 == {e}
      && e == Net.Envelope(Packet({FConn}, s.a.n.tx.out, s.a.n.rx.InPtr(), s.a.n.tx.data), s.a.out, |s.a.recv|)
      && x.n == s.a.n.(tx := s.a.n.tx.(tried := |s.a.n.tx.data|), txack := s.a.n.rx.InPtr())
      && x.sent == s.a.sent && x.recv == s.a.recv && x.out == s.a.out && x.iss == s.a.iss
  {
    WrapNear(s.a.n.tx.out);
    TimeoutRepeats(s.a.n);
    hide W32, Step;
    var n := s.a.n;
    assert n.tx.data[..Min(|n.tx.data|, 994)] == n.tx.data;
    var p := Packet({FConn}, n.tx.out, n.rx.InPtr(), n.tx.data);
    e := Net.Envelope(p, s.a.out, |s.a.recv|);
    var m := Step(n, None, Timeout).0;
    assert Net.Track(s.a, m).out == s.a.out;
    assert Net.Stamp(Net.Track(s.a, m), Some(p)) == {e};
  }

  /** The numbers in that packet, as b sees them. */
  lemma NumbersOfRepeat(s: Net.Net, e: Net.Envelope)
    requires AckMissing(s)
    requires e.p == Packet({FConn}, s.a.n.tx.out, s.a.n.rx.InPtr(), s.a.n.tx.data)
    ensures Behind(s.b.n, e.p) == |s.a.n.tx.data| && Acked(s.b.n, e.p) == s.b.n.tx.tried && Running(s.b.n)
    ensures Acked(s.a.n, Packet({FConn}, 0, s.b.n.rx.InPtr(), [])) == |s.a.n.tx.data|
    ensures s.a.out + |s.a.n.tx.data| == |s.b.recv|
  {
    WrapSub(s.a.iss + |s.b.recv|, s.a.iss + s.a.out);
    WrapNear(|s.a.n.tx.data|);
    WrapSub(s.b.iss + |s.a.recv|, s.b.iss + s.b.out);
    WrapNear(s.b.n.tx.tried);
    hide W32;
  }

  /** b finds that it has it all, and answers. */
  lemma AnswersAgain(s: Net.Net, e: Net.Envelope) returns (e2: Net.Envelope)
    requires AckMissing(s)
    requires e == Net.Envelope(Packet({FConn}, s.a.n.tx.out, s.a.n.rx.InPtr(), s.a.n.tx.data), s.a.out, |s.a.recv|)
    ensures var (y, es) := Net.Perform(s.b, Net.Deliver(e));
      && es == {e2} && e2.at == |s.a.recv| && e2.ack == |s.b.recv| && e2.p.flags == {FConn}
      && y.recv == s.b.recv && e2.p.ackNo == s.b.n.rx.InPtr()
  {
    var n := s.b.n;
    NumbersOfRepeat(s, e);
    RepeatAnswered(n, e.p);
    DataTaken(n, e.p);
    AcknowledgedRemoved(n, e.p);
    var (m, q) := Step(n, Some(e.p), NoSig);
    assert s.b.out + n.tx.tried == |s.a.recv| && |s.b.sent| == s.b.out + |n.tx.data|;
    hide W32, Step, AckMissing, Behind, Acked, Net.Track, Net.Stamp;
    assert n.rx.data + [] == n.rx.data;
    AllReleased(s.b, m, q.value);
    e2 := Net.Envelope(q.value, |s.a.recv|, |s.b.recv|);
  }

  /** The history, when everything on trial has been acknowledged, and a packet is made. */
  lemma AllReleased(y: Net.End, m: Node, p: Packet)
    requires y.n.Ok() && |y.sent| == y.out + |y.n.tx.data| && m.tx.data == y.n.tx.data[y.n.tx.tried..]
    requires m.tx.tried == |p.data| && m.rx.data == y.n.rx.data
    ensures var y' := Net.Track(y, m);
      y'.recv == y.recv && Net.Stamp(y', Some(p)) == {Net.Envelope(p, y.out + y.n.tx.tried, |y.recv|)}
  {
    var y' := Net.Track(y, m);
    assert y'.recv == y.recv + m.rx.data[|y.n.rx.data|..] == y.recv;
    assert y'.out == y.out + y.n.tx.tried;
  }

  /** The acknowledgement comes back. */
  lemma Acknowledged(x: Net.End, e: Net.Envelope)
    requires Running(x.n) && e.p.flags == {FConn} && x.n.tx.tried == |x.n.tx.data|
    requires Acked(x.n, e.p) == |x.n.tx.data|
    ensures var x' := Net.Perform(x, Net.Deliver(e)).0; x'.n.tx.data == [] && x'.out == |x'.sent| == |x.sent|
  {
    AcknowledgedRemoved(x.n, e.p);
    hide Step, W32;
  }

  lemma Placed(s: Net.Net)
    requires AckMissing(s)
    ensures s.b.out <= |s.a.recv| <= s.b.out + WINDOW_SIZE && s.a.out <= |s.b.recv| <= s.a.out + MAX_DATA
    ensures Net.Fits(s.a) && s.a.n.state == Connected
  {
    hide W32;
  }

  lemma ThreeMoves(s: Net.Net, m1: Net.Move, m2: Net.Move, m3: Net.Move)
    requires Net.Ok(s) && Net.Allowed(s, m1)
    requires Net.Allowed(Net.Next(s, m1), m2) && Net.Allowed(Net.Next(Net.Next(s, m1), m2), m3)
    ensures Net.AllAllowed(s, [m1, m2, m3])
    ensures Net.Run(s, [m1, m2, m3]) == Net.Next(Net.Next(Net.Next(s, m1), m2), m3)
  {
    hide Net.Next, Net.Allowed;
    assert [m1, m2, m3][1..] == [m2, m3] && [m2, m3][1..] == [m3] && [m3][1..] == [];
    var s1 := Net.Next(s, m1);
    var s2 := Net.Next(s1, m2);
    var s3 := Net.Next(s2, m3);
    assert Net.Run(s1, [m2, m3]) == Net.Run(s2, [m3]) == Net.Run(s3, []);
    assert Net.AllAllowed(s3, []) && Net.AllAllowed(s2, [m3]) && Net.AllAllowed(s1, [m2, m3]);
  }

  /** However a connection has come into a state in which x has had no acknowledgement for
      data, at most a packetful, that is all at y: x's timeout, y's answer to the repeat,
      and its arrival leave nothing that is not acknowledged. */
  lemma LostAckMadeGood(s: Net.Net) returns (moves: seq<Net.Move>)
    requires AckMissing(s)
    ensures Net.AllAllowed(s, moves)
    ensures var t := Net.Run(s, moves); t.a.out == |t.b.recv| == |t.a.sent| && t.a.n.tx.data == []
  {
    hide Step, W32, Net.Good, Net.Track, Net.Stamp, Behind;
    var e := RepeatsAll(s);
    var e2 := AnswersAgain(s, e);
    NumbersOfRepeat(s, e);
    Placed(s);
    var m1, m2, m3 := Net.ByA(Net.Poll(Timeout)), Net.ByB(Net.Deliver(e)), Net.ByA(Net.Deliver(e2));
    var x := Net.Perform(s.a, Net.Poll(Timeout)).0;
    assert Acked(x.n, e2.p) == |s.a.n.tx.data|;
    Acknowledged(x, e2);
    hide Net.Perform, Acked;
    ThreeMoves(s, m1, m2, m3);
    moves := [m1, m2, m3];
  }

  // ---- What is not made good ----

  /** Data from ahead of the receive position is, as a 32-bit distance behind it, out of the
      window: the connection is closed, although what is missing could be sent again. */
  lemma AheadCloses(n: Node, p: Packet, k: nat)
    requires Running(n) && Plain(p) && 0 < k < TWO31 && p.seqNo == W32(n.rx.InPtr() + k)
    ensures var m := Step(n, Some(p), NoSig).0; m.state == Idle && m.rx == n.rx
  {
    WrapSub(n.rx.InPtr(), n.rx.InPtr() + k);
    WrapNear(n.rx.InPtr());
    var d: int := 0 - k;
    WrapNear(d);
    hide W32, Step;
    assert Behind(n, p) == TWO32 - k;
    GoesOn(n, p);
    DataTaken(n, p);
  }

  /** So of two packets sent one after the other, losing the first closes the connection when
      the second arrives. */
  lemma LossCloses(n: Node, m: Node, bytes: seq<Byte>)
    requires Running(n) && n.tx.data == [] && Running(m) && m.rx.InPtr() == n.tx.out
    requires |bytes| == 2 * MAX_DATA <= n.tx.cap
    ensures var n1 := Step(n.(tx := n.tx.Put(bytes)), None, NoSig).0;
      var second := Step(n1, None, NoSig).1;
      && second.Some? && second.value.data == bytes[MAX_DATA..]
      && Step(m, second, NoSig).0.state == Idle && Step(m, second, NoSig).0.rx == m.rx
  {
    var full := n.(tx := n.tx.Put(bytes));
    assert bytes[..|bytes|] == bytes && [] + bytes == bytes;
    hide Step, W32;
    SendsWhatMayGo(full);
    var n1 := Step(full, None, NoSig).0;
    SendsWhatMayGo(n1);
    AheadCloses(m, Step(n1, None, NoSig).1.value, MAX_DATA);
  }

  /** An acknowledgement that arrives after a timeout has taken the trial pointer back, and
      covers more than has been sent again since, closes the connection too. */
  lemma LateAckCloses(n: Node, p: Packet)
    requires Running(n) && n.tx.out == W32(n.tx.out) && |n.tx.data| > MAX_DATA
    requires Plain(p) && MAX_DATA < Acked(n, p) <= |n.tx.data| <= WINDOW_SIZE
    ensures Step(Step(n, None, Timeout).0, Some(p), NoSig).0.state == Idle
  {
    TimeoutRepeats(n);
    hide Step, W32;
    GoesOn(Step(n, None, Timeout).0, p);
  }

  // ---- Ending a connection ----

  /** A packet without data: its flag, and the positions of the node that made it. */
  predicate Says(q: Option<Packet>, n: Node, flag: Flag) {
    q == Some(Packet({flag}, n.tx.TrialPtr(), n.rx.InPtr(), []))
  }

  /** A STOP ends whatever there is, and is answered with one, except to a node that has
      itself sent the first; an idle node takes it for an error. */
  lemma StopAnswered(n: Node, p: Packet)
    requires n.Ok() && FStop in p.flags && FErr !in p.flags
    ensures var (m, q) := Step(n, Some(p), NoSig);
      && m == n.(state := Idle)
      && (n.state in {Open, Connected} ==> Says(q, n, FStop))
      && (n.state == Close ==> q == None) && (n.state == Idle ==> Says(q, n, FErr))
  {
    hide W32;
  }

  /** An error ends it without an answer. */
  lemma ErrorObeyed(n: Node, p: Packet)
    requires n.Ok() && FErr in p.flags
    ensures Step(n, Some(p), NoSig) == (n.(state := Idle), None)
  {}

  /** Nothing happens unless there is reason for it. */
  lemma Waits(n: Node, sig: Signal)
    requires n.Ok() && sig in {NoSig, UserOther} && n.state != Connected
    ensures Step(n, None, sig) == (n, None)
  {}

  lemma OthersIgnored(n: Node, sig: Signal)
    requires n.Ok() && n.state == Connected && sig in {UserOther, Cmd, Resp}
    ensures Step(n, None, sig) == (n, None)
  {}

  /** What is asked for again, at a timeout. */
  lemma AsksAgain(n: Node)
    requires n.Ok() && n.state != Connected
    ensures var (m, q) := Step(n, None, Timeout);
      && m == n && (n.state == Open ==> Says(q, n, FStart)) && (n.state == Close ==> Says(q, n, FStop))
      && (n.state == Idle ==> q == None)
  {
    hide W32;
  }

  /** When the program gives up: the peer of a connection is told. */
  lemma GivesUp(n: Node)
    requires n.Ok() && n.state in {Open, Connected}
    ensures var (m, q) := Step(n, None, Fail);
      m == n.(state := Idle) && (if n.state == Connected then Says(q, n, FErr) else q == None)
  {
    hide W32;
  }

  /** The user closes a connection, and only that. */
  lemma UserCloses(n: Node)
    requires n.Ok()
    ensures var (m, q) := Step(n, None, UserClose);
      if n.state == Connected then m == n.(state := Close) && Says(q, n, FStop) else (m, q) == (n, None)
  {
    hide W32;
  }

  /** From end to end: one STOP and its answer close both sides. */
  lemma BothClose(n: Node, m: Node)
    requires n.Ok() && m.Ok() && n.state == m.state == Connected
    ensures var (n1, stop) := Step(n, None, UserClose);
      && stop.Some?
      && var (m1, answer) := Step(m, stop, NoSig);
      && answer.Some? && m1.state == Idle && Step(n1, answer, NoSig).0.state == Idle
  {
    hide Step, W32;
    UserCloses(n);
    var (n1, stop) := Step(n, None, UserClose);
    StopAnswered(m, stop.value);
    StopAnswered(n1, Step(m, stop, NoSig).1.value);
  }

  /** A node whose peer has lost the connection finds out when it next sends. */
  lemma HalfOpenEnds(n: Node, m: Node, p: Packet)
    requires n.Ok() && m.Ok() && n.state == Idle && Plain(p)
    ensures var (n1, answer) := Step(n, Some(p), NoSig);
      n1 == n && Says(answer, n, FErr) && Step(m, answer, NoSig) == (m.(state := Idle), None)
  {
    PlainSignal(p);
    hide W32;
    ErrorObeyed(m, Step(n, Some(p), NoSig).1.value);
  }

  /** A node that is closing does not give up: nothing but a packet with STOP or an error
      takes it out of that state, whatever else arrives or runs out. */
  lemma ClosesOnlyWhenAnswered(n: Node, rx: Option<Packet>, sig: Signal)
    requires n.Ok() && n.state == Close && (if rx.Some? then sig == NoSig else Net.LocalSignal(sig) && sig != Stop)
    ensures var (m, q) := Step(n, rx, sig);
      && m == n.(state := if rx.Some? && (FStop in rx.value.flags || FErr in rx.value.flags) then Idle else Close)
      && (q.Some? <==> rx == None && sig == Timeout) && (q.Some? ==> Says(q, n, FStop))
  {
    hide W32;
  }

  /** A node that is opening: a packet of a connection, or a request, opens it; any other
      packet does not; and all that goes out is the acknowledgement. */
  lemma OpensOnly(n: Node, p: Packet)
    requires n.Ok() && n.state == Open && FStop !in p.flags && FErr !in p.flags
    ensures var (m, q) := Step(n, Some(p), NoSig);
      var opens := FCmd !in p.flags && FResp !in p.flags && (FStart in p.flags || FConn in p.flags);
      if opens then m.state == Connected && q.Some? && q.value.flags == {FConn} && q.value.ackNo == W32(p.seqNo)
      else (m, q) == (n, None)
  {
    hide W32;
  }
}
