/** Opening a SCRATCHP connection, from the START packet on: the node that opens takes the
    sequence number of the first packet it gets for the start of its peer's stream. */
module ScratchpOpen {
  import opened Words
  import opened Wrappers
  import opened CircBuff
  import opened Scratchp
  import Net = ScratchpNet

  /** The opener's and the answerer's first sequence numbers. */
  const MY_SEQ := 1
  const HIS_SEQ := 0x8001

  /** A node that has asked for a connection. */
  predicate Opening(n: Node) { n.Ok() && n.state == Open && n.tx == Buf(n.tx.cap, MY_SEQ, [], 0) }

  /** Its request. */
  predicate Request(p: Packet) { p.flags == {FStart} && p.seqNo == MY_SEQ }

  /** An idle node answers a request: it is connected, its stream and the peer's start at
      the two numbers, and so does its answer. */
  lemma RequestAnswered(b: Node, p: Packet)
    requires b.Ok() && b.state == Idle && Request(p)
    ensures Step(b, Some(p), NoSig) ==
      (Node(Connected, Buf(b.tx.cap, HIS_SEQ, [], 0), Buf(b.rx.cap, MY_SEQ, [], 0), MY_SEQ),
       Some(Packet({FConn}, HIS_SEQ, MY_SEQ, [])))
  {
    assert W32(HIS_SEQ) == HIS_SEQ && W32(MY_SEQ) == MY_SEQ;
    assert SignalOf(p.flags, NoSig) == Start;
    hide W32;
  }

  /** A packet of the connected state opens the opener's side, at the packet's own number;
      its data is not looked at. */
  lemma Opened(a: Node, p: Packet)
    requires Opening(a) && p.flags == {FConn}
    ensures var (m, q) := Step(a, Some(p), NoSig);
      && m == Node(Connected, a.tx, Buf(a.rx.cap, p.seqNo, [], 0), a.txack)
      && q == Some(Packet({FConn}, MY_SEQ, p.seqNo, []))
  {
    assert W32(MY_SEQ) == MY_SEQ && W32(p.seqNo + 0) == p.seqNo by { WrapNear(p.seqNo); }
    hide W32;
    assert SignalOf(p.flags, NoSig) == Conn;
  }

  function Fresh(n: Node, iss: LWord): Net.End { Net.End(n, iss, [], 0, 0, [], []) }

  // ---- The answerer, before and after the opener's side is open ----

  /** What may happen: a move of the network; or another copy of the request reaches b. */
  datatype Event = Move(mv: Net.Move) | Again(start: Packet)

  function Happen(s: Net.Net, ev: Event): (s': Net.Net)
    requires Net.Ok(s)
    ensures Net.Ok(s')
  {
    match ev
    case Move(mv) => Net.Next(s, mv)
    case Again(start) =>
      var (m, p) := Step(s.b.n, Some(start), NoSig);
      s.(b := Net.Track(s.b, m), toA := s.toA + Net.Stamp(Net.Track(s.b, m), p))
  }

  function HappenAll(s: Net.Net, evs: seq<Event>): (s': Net.Net)
    requires Net.Ok(s)
    ensures Net.Ok(s')
    decreases |evs|
  { if evs == [] then s else HappenAll(Happen(s, evs[0]), evs[1..]) }

  /** An idle node that gets another request would start over: b answers only once. */
  predicate CanHappen(s: Net.Net, ev: Event) {
    match ev
    case Move(mv) => Net.Allowed(s, mv)
    case Again(start) => Request(start) && s.b.n.state != Idle
  }

  predicate AllCanHappen(s: Net.Net, evs: seq<Event>)
    requires Net.Ok(s)
    decreases |evs|
  { evs == [] || (CanHappen(s, evs[0]) && AllCanHappen(Happen(s, evs[0]), evs[1..])) }

  /** Until a's side is open, only b does anything that counts, and no packet reaches it
      but requests: a itself only sends its request again. */
  predicate BeforeOpening(ev: Event) {
    match ev
    case Move(ByB(act)) => !act.Deliver?
    case Move(LoseToA(e)) => true
    case Again(start) => true
    case _ => false
  }

  /** Another copy of the request changes nothing, and is answered with a piece of the
      stream, without data, at the trial position. */
  lemma AgainKeeps(s: Net.Net, start: Packet)
    requires Net.Ok(s) && Net.Good(s) && CanHappen(s, Again(start))
    ensures Net.Good(Happen(s, Again(start)))
  {
    var n := s.b.n;
    var (m, p) := Step(n, Some(start), NoSig);
    assert SignalOf(start.flags, NoSig) == Start;
    assert n.tx.data[0..] == n.tx.data && n.rx.data + [] == n.rx.data;
    WrapNear(n.tx.out);
    assert Net.Effect(n, None, m, p, 0, []);
    hide W32, Step, Net.Effect;
    Net.EffectKeeps(s.b, s.a, s.toB, s.toA, Net.Poll(NoSig), None, m, p, 0, []);
  }

  lemma HappenKeeps(s: Net.Net, ev: Event)
    requires Net.Ok(s) && Net.Good(s) && CanHappen(s, ev)
    ensures Net.Good(Happen(s, ev))
  {
    match ev {
      case Move(ByA(act)) => Net.ActKeeps(s.a, s.b, s.toA, s.toB, act);
      case Move(ByB(act)) => Net.ActKeeps(s.b, s.a, s.toB, s.toA, act);
      case Move(LoseToA(e)) =>
      case Move(LoseToB(e)) =>
      case Again(start) => AgainKeeps(s, start);
    }
  }

  lemma {:induction false} EventsKeep(s: Net.Net, evs: seq<Event>)
    requires Net.Ok(s) && Net.Good(s) && AllCanHappen(s, evs)
    ensures Net.Good(HappenAll(s, evs))
    decreases |evs|
  {
    hide Net.Good, CanHappen, Happen;
    if evs != [] {
      HappenKeeps(s, evs[0]);
      EventsKeep(Happen(s, evs[0]), evs[1..]);
    }
  }

  lemma {:induction false} BeforeKeepsA(s: Net.Net, evs: seq<Event>)
    requires Net.Ok(s) && (forall ev :: ev in evs ==> BeforeOpening(ev))
    ensures var t := HappenAll(s, evs); t.a == s.a && t.toB == s.toB && t.b.iss == s.b.iss
    decreases |evs|
  {
    hide Step;
    if evs != [] {
      assert BeforeOpening(evs[0]);
      BeforeKeepsA(Happen(s, evs[0]), evs[1..]);
    }
  }

  /** The opener as it would be, had the answer opened its side. */
  function Expected(a: Node): Net.End {
    Fresh(Node(Connected, a.tx, Buf(a.rx.cap, HIS_SEQ, [], 0), a.txack), MY_SEQ)
  }

  /** b has answered the request of a. */
  function Answered(a: Node, b: Node, start: Packet): (s: Net.Net)
    requires Opening(a) && b.Ok()
    ensures Net.Ok(s)
  {
    var (b1, answer) := Step(b, Some(start), NoSig);
    var x := Fresh(b1, HIS_SEQ);
    Net.Net(Expected(a), x, Net.Stamp(x, answer), {})
  }

  /** How s has come about: b was idle, and has answered; everything in `evs` has happened
      since; and a is still opening. */
  predicate Waits(a: Node, b: Node, start: Packet, evs: seq<Event>, s: Net.Net) {
    && Opening(a) && b.Ok() && b.state == Idle && Request(start)
    && AllCanHappen(Answered(a, b, start), evs) && (forall ev :: ev in evs ==> BeforeOpening(ev))
    && s == HappenAll(Answered(a, b, start), evs)
  }

  lemma AnsweredGood(a: Node, b: Node, start: Packet)
    requires Opening(a) && b.Ok() && b.state == Idle && Request(start)
    ensures var s := Answered(a, b, start);
      Net.Good(s) && s.a == Expected(a) && s.toB == {} && s.b.iss == HIS_SEQ
  {
    RequestAnswered(b, start);
    WrapNear(MY_SEQ);
    WrapNear(HIS_SEQ);
    hide W32, Step;
  }

  lemma WaitsGood(a: Node, b: Node, start: Packet, evs: seq<Event>, s: Net.Net)
    requires Waits(a, b, start, evs, s)
    ensures Net.Ok(s) && Net.Good(s) && s.a == Expected(a) && s.toB == {} && s.b.iss == HIS_SEQ
  {
    hide Net.Good, HappenAll, AllCanHappen, Answered;
    AnsweredGood(a, b, start);
    EventsKeep(Answered(a, b, start), evs);
    BeforeKeepsA(Answered(a, b, start), evs);
  }

  /** A packet of b's opens a's side: a takes its number, and acknowledges it. What stands
      before it in b's stream is `skipped`, and counts as received. */
  function OpenedBy(a: Node, s: Net.Net, e: Net.Envelope, skipped: seq<Byte>): (t: Net.Net)
    requires a.Ok() && Net.Ok(s)
    ensures Net.Ok(t)
  {
    var (a1, ack) := Step(a, Some(e.p), NoSig);
    var x := Fresh(a1, MY_SEQ).(recv := skipped, got := skipped);
    s.(a := x, toB := s.toB + Net.Stamp(x, ack))
  }

  /** The packet stands for its position in b's stream, which is less than 2^15. */
  lemma PacketPosition(a: Node, s: Net.Net, e: Net.Envelope)
    requires Net.Ok(s) && Net.Good(s) && s.a == Expected(a) && s.b.iss == HIS_SEQ && e in s.toA
    ensures s.b.out == 0 && s.b.recv == [] && e.at <= s.b.high <= |s.b.sent| < 0x8000
    ensures e.p.seqNo == W32(HIS_SEQ + e.at) == HIS_SEQ + e.at
  {
    assert Net.Carries(s.b, e);
    WrapNear(HIS_SEQ + e.at);
  }

  /** Counting what was skipped as received, the two streams are as they should be. */
  lemma SkippingIsGood(a: Node, b: Node, start: Packet, evs: seq<Event>, s: Net.Net, e: Net.Envelope)
    requires Waits(a, b, start, evs, s) && e in s.toA && e.p.flags == {FConn}
    ensures Net.Ok(s) && e.at <= |s.b.sent| && Net.Good(OpenedBy(a, s, e, s.b.sent[..e.at]))
  {
    WaitsGood(a, b, start, evs, s);
    PacketPosition(a, s, e);
    Opened(a, e.p);
    WrapNear(MY_SEQ);
    WrapNear(HIS_SEQ + e.at);
    hide W32, Step, Waits;
    var t := OpenedBy(a, s, e, s.b.sent[..e.at]);
    assert t.toB == {Net.Envelope(Packet({FConn}, MY_SEQ, e.p.seqNo, []), 0, e.at)};
  }

  /** The opening is sound if and only if the packet that opens a's side, whichever it is
      of those that b has made since its answer, stands at the start of b's stream. */
  lemma OpensMatched(a: Node, b: Node, start: Packet, evs: seq<Event>, s: Net.Net, e: Net.Envelope)
    requires Waits(a, b, start, evs, s) && e in s.toA && e.p.flags == {FConn}
    ensures Net.Ok(s) && (Net.Good(OpenedBy(a, s, e, [])) <==> e.at == 0)
  {
    SkippingIsGood(a, b, start, evs, s, e);
    WaitsGood(a, b, start, evs, s);
    PacketPosition(a, s, e);
    Opened(a, e.p);
    WrapNear(HIS_SEQ);
    hide Step, Waits;
    if e.at == 0 {
      assert s.b.sent[..0] == [];
    } else {
      var t := OpenedBy(a, s, e, []);
      assert t.a.n.rx.InPtr() == W32(HIS_SEQ + e.at + 0) != W32(HIS_SEQ);
    }
  }

  predicate Longer(s: Net.Net, t: Net.Net) {
    s.a.recv <= t.a.recv && s.a.got <= t.a.got && s.b.sent <= t.b.sent
  }

  lemma HappenGrows(s: Net.Net, ev: Event)
    requires Net.Ok(s)
    ensures Longer(s, Happen(s, ev))
  {
    hide Step, W32;
  }

  lemma LongerYet(s: Net.Net, t: Net.Net, u: Net.Net)
    requires Longer(s, t) && Longer(t, u)
    ensures Longer(s, u)
  {}

  lemma {:induction false} HistoryGrows(s: Net.Net, evs: seq<Event>)
    requires Net.Ok(s)
    ensures Longer(s, HappenAll(s, evs))
    decreases |evs|
  {
    if evs != [] {
      hide Happen, Longer;
      HappenGrows(s, evs[0]);
      HistoryGrows(Happen(s, evs[0]), evs[1..]);
      LongerYet(s, Happen(s, evs[0]), HappenAll(s, evs));
    }
  }

  /** Whatever packet opens a's side, and whatever happens afterwards: what b accepts is
      from the beginning of a's stream, what a accepts is b's stream from the packet's
      position on, and what the applications read is from the beginning of that. So the
      bytes before that position never arrive; if it is 0, nothing is missing. */
  lemma OpenedStream(a: Node, b: Node, start: Packet, evs: seq<Event>, s: Net.Net, e: Net.Envelope,
                     later: seq<Event>)
    requires Waits(a, b, start, evs, s) && e in s.toA && e.p.flags == {FConn}
    requires Net.Ok(s) && e.at <= |s.b.sent| && AllCanHappen(OpenedBy(a, s, e, s.b.sent[..e.at]), later)
    ensures var r := HappenAll(OpenedBy(a, s, e, s.b.sent[..e.at]), later);
      && r.b.got <= r.b.recv <= r.a.sent
      && e.at <= |r.a.got| <= |r.a.recv| && e.at <= |r.b.sent|
      && r.a.got[e.at..] <= r.a.recv[e.at..] <= r.b.sent[e.at..]
      && (e.at == 0 ==> r.a.got <= r.a.recv <= r.b.sent)
  {
    hide Step, Answered, OpenedBy, HappenAll, AllCanHappen;
    SkippingIsGood(a, b, start, evs, s, e);
    var skipped := s.b.sent[..e.at];
    var t := OpenedBy(a, s, e, skipped);
    assert t.a.recv == t.a.got == skipped && t.b == s.b by { OpenedHistory(a, s, e, skipped); }
    EventsKeep(t, later);
    HistoryGrows(t, later);
    var r := HappenAll(t, later);
    assert r.a.recv[..|r.a.got|] == r.a.got && r.b.sent[..|r.a.recv|] == r.a.recv;
    assert r.a.recv[e.at..][..|r.a.got| - e.at] == r.a.got[e.at..];
    assert r.b.sent[e.at..][..|r.a.recv| - e.at] == r.a.recv[e.at..];
  }

  lemma OpenedHistory(a: Node, s: Net.Net, e: Net.Envelope, skipped: seq<Byte>)
    requires a.Ok() && Net.Ok(s)
    ensures var t := OpenedBy(a, s, e, skipped); t.a.recv == t.a.got == skipped && t.b == s.b
  {}

  /** The acknowledgement that a sends on opening, when it reaches b: if b's trial pointer
      is not before the packet's position, the bytes before it are removed; if it is, b
      closes the connection with an error. */
  lemma SkippedRemoved(n: Node, k: nat, p: Packet)
    requires n.Ok() && n.state == Connected && n.tx.out == HIS_SEQ && k < 0x8000 && n.rx.InPtr() == MY_SEQ
    requires p == Packet({FConn}, MY_SEQ, HIS_SEQ + k, [])
    ensures var m := Step(n, Some(p), NoSig).0;
      if k <= n.tx.tried then m.tx.data == n.tx.data[k..] && m.state == Connected
      else m.tx.data == n.tx.data && m.state == Idle
  {
    assert W32(k) == k && W32(0) == 0 by { WrapNear(k); }
    hide W32, W16;
    assert SignalOf(p.flags, NoSig) == Conn;
  }

  /** In particular when the answer is the first packet that gets there. */
  lemma AnswerOpens(a: Node, b: Node, start: Packet, later: seq<Event>)
    requires Opening(a) && b.Ok() && b.state == Idle && Request(start)
    ensures var s, e := Answered(a, b, start), Net.Envelope(Packet({FConn}, HIS_SEQ, MY_SEQ, []), 0, 0);
      && s.toA == {e}
      && var t := OpenedBy(a, s, e, []);
      (AllCanHappen(t, later) ==> var r := HappenAll(t, later);
        r.b.got <= r.b.recv <= r.a.sent && r.a.got <= r.a.recv <= r.b.sent)
  {
    hide OpenedBy, HappenAll, AllCanHappen;
    RequestAnswered(b, start);
    var s, e := Answered(a, b, start), Net.Envelope(Packet({FConn}, HIS_SEQ, MY_SEQ, []), 0, 0);
    assert s.toA == {e} && s.b.sent[..0] == [];
    assert Waits(a, b, start, [], s) by { NothingHappens(s); }
    if AllCanHappen(OpenedBy(a, s, e, []), later) { OpenedStream(a, b, start, [], s, e, later); }
  }

  lemma NothingHappens(s: Net.Net)
    requires Net.Ok(s)
    ensures HappenAll(s, []) == s && AllCanHappen(s, [])
  {}

  /** A request that comes again, while a is still opening, is answered at the trial
      pointer: that opens a's side soundly if and only if nothing is on trial by then. */
  lemma AnsweredAgain(a: Node, b: Node, start: Packet, evs: seq<Event>, s: Net.Net, again: Packet)
    requires Waits(a, b, start, evs, s) && Request(again) && Net.Ok(s) && s.b.n.state == Connected
    ensures var t, e := Happen(s, Again(again)), Net.Envelope(Make(s.b.n, FConn, []), s.b.n.tx.tried, 0);
      && t.toA == s.toA + {e}
      && (Net.Good(OpenedBy(a, t, e, [])) <==> s.b.n.tx.tried == 0)
  {
    hide Net.Good, OpenedBy, W32, Happen, HappenAll, AllCanHappen, Answered;
    WaitsGood(a, b, start, evs, s);
    AgainMakes(a, s, again);
    var t, e := Happen(s, Again(again)), Net.Envelope(Make(s.b.n, FConn, []), s.b.n.tx.tried, 0);
    OneMore(Answered(a, b, start), evs, Again(again));
    OpensMatched(a, b, start, evs + [Again(again)], t, e);
  }

  /** Nothing of b's stream has been acknowledged, and it has received nothing. */
  lemma AgainMakes(a: Node, s: Net.Net, again: Packet)
    requires Net.Ok(s) && Net.Good(s) && s.a == Expected(a) && Request(again) && s.b.n.state == Connected
    ensures Happen(s, Again(again)).toA ==
      s.toA + {Net.Envelope(Make(s.b.n, FConn, []), s.b.n.tx.tried, 0)}
  {
    hide W32;
    assert SignalOf(again.flags, NoSig) == Start;
    assert s.b.out == 0 && s.b.recv == [];
    assert |s.b.sent| == |s.b.n.tx.data|;
  }

  lemma {:induction false} OneMore(s: Net.Net, evs: seq<Event>, ev: Event)
    requires Net.Ok(s) && AllCanHappen(s, evs) && CanHappen(HappenAll(s, evs), ev)
    ensures HappenAll(s, evs + [ev]) == Happen(HappenAll(s, evs), ev) && AllCanHappen(s, evs + [ev])
    decreases |evs|
  {
    hide Happen, CanHappen;
    if evs == [] {
      assert [] + [ev] == [ev] && [ev][1..] == [];
      NothingHappens(Happen(s, ev));
    } else {
      assert (evs + [ev])[0] == evs[0] && (evs + [ev])[1..] == evs[1..] + [ev];
      OneMore(Happen(s, evs[0]), evs[1..], ev);
    }
  }

  // ---- What happens when it is not ----

  /** A connected node of which nothing has been tried beyond k sends the next packet. */
  lemma SendsNext(n: Node, k: nat)
    requires n.Ok() && n.state == Connected && n.tx.out == HIS_SEQ && n.tx.tried == k <= WINDOW_SIZE - MAX_DATA
    requires |n.tx.data| >= k + MAX_DATA
    ensures Step(n, None, NoSig) == (n.(tx := n.tx.(tried := k + MAX_DATA), txack := n.rx.InPtr()),
      Some(Packet({FConn}, HIS_SEQ + k, n.rx.InPtr(), n.tx.data[k..k + MAX_DATA])))
  {
    assert W16(WINDOW_SIZE - k) == WINDOW_SIZE - k >= MAX_DATA;
    assert W32(HIS_SEQ + k) == HIS_SEQ + k by { WrapNear(HIS_SEQ + k); }
    hide W16, W32;
  }

  /** An acknowledgement of k bytes on trial has them removed. */
  lemma Releases(n: Node, k: nat, p: Packet)
    requires n.Ok() && n.state == Connected && n.tx.out == HIS_SEQ && k <= n.tx.tried == |n.tx.data|
    requires n.rx == Buf(n.rx.cap, MY_SEQ, [], 0) && n.txack == MY_SEQ
    requires p == Packet({FConn}, MY_SEQ, HIS_SEQ + k, [])
    ensures Step(n, Some(p), NoSig).0 ==
      n.(tx := Buf(n.tx.cap, HIS_SEQ + k, n.tx.data[k..], n.tx.tried - k))
  {
    assert W32(k) == k && W32(0) == 0 && W32(HIS_SEQ + k) == HIS_SEQ + k && W32(MY_SEQ) == MY_SEQ by {
      WrapNear(k);
      WrapNear(HIS_SEQ + k);
    }
    hide W32, W16;
    assert SignalOf(p.flags, NoSig) == Conn;
    assert n.rx.data + [] == n.rx.data && p.data[..0] == [];
  }

  /** After a timeout a packet's worth of data is sent again. */
  lemma SendsAgain(n: Node, start: LWord)
    requires n.Ok() && n.state == Connected && n.tx == Buf(n.tx.cap, start, n.tx.data, MAX_DATA)
    requires |n.tx.data| == MAX_DATA
    ensures Step(n, None, Timeout).1 == Some(Packet({FConn}, start, n.rx.InPtr(), n.tx.data))
    ensures Step(n, None, Timeout).0.tx == n.tx && Step(n, None, Timeout).0.state == Connected
  {
    assert W16(WINDOW_SIZE) == WINDOW_SIZE && W32(start + 0) == start by { WrapNear(start); }
    hide W16, W32;
    assert n.tx.data[0..0 + MAX_DATA] == n.tx.data;
  }

  /** Data at a connected node's own position is accepted. */
  lemma Accepts(a: Node, p: Packet)
    requires a.Ok() && a.state == Connected && a.tx == Buf(a.tx.cap, MY_SEQ, [], 0)
    requires a.rx == Buf(a.rx.cap, p.seqNo, [], 0) && p.flags == {FConn} && p.ackNo == MY_SEQ && |p.data| <= a.rx.cap
    ensures var m := Step(a, Some(p), NoSig).0; m.rx.data == p.data && m.state == Connected
  {
    assert W32(p.seqNo + 0) == p.seqNo && W32(0) == 0 by { WrapNear(p.seqNo); }
    hide W32, W16;
    assert SignalOf(p.flags, NoSig) == Conn;
    assert p.data[..|p.data|] == p.data && [] + p.data == p.data;
  }

  /** The answerer, connected, has its application's data to send, of two packets' length.
      The answer and the first of the two are lost. The second opens the opener's side
      after the first, the opener acknowledges it as received, and the answerer removes it:
      the first 994 bytes never arrive, and neither side has seen an error. */
  lemma OpeningCanLoseData(a: Node, b: Node, start: Packet, bytes: seq<Byte>) returns (a2: Node, b2: Node)
    requires Opening(a) && b.Ok() && b.state == Idle && Request(start)
    requires |bytes| == 2 * MAX_DATA <= b.tx.cap && MAX_DATA <= a.rx.cap
    ensures var b1 := Step(b, Some(start), NoSig).0;
      var b3 := Step(b1.(tx := b1.tx.Put(bytes)), None, NoSig).0;
      var (b4, second) := Step(b3, None, NoSig);
      var (a1, ack) := Step(a, second, NoSig);
      var b5 := Step(b4, ack, NoSig).0;
      var (b6, again) := Step(b5, None, Timeout);
      a2 == Step(a1, again, NoSig).0 && b2 == b6
    ensures a2.state == b2.state == Connected
    ensures a2.rx.data == bytes[MAX_DATA..] && b2.tx.data == bytes[MAX_DATA..]
  {
    hide Step, W32;
    RequestAnswered(b, start);
    var b1 := Step(b, Some(start), NoSig).0;
    var full := b1.(tx := b1.tx.Put(bytes));
    assert bytes[..|bytes|] == bytes && [] + bytes == bytes;
    SendsNext(full, 0);
    var b3 := Step(full, None, NoSig).0;
    SendsNext(b3, MAX_DATA);
    var (b4, second) := Step(b3, None, NoSig);
    assert b4.rx.InPtr() == MY_SEQ by { WrapNear(MY_SEQ); }
    Opened(a, second.value);
    var (a1, ack) := Step(a, second, NoSig);
    Releases(b4, MAX_DATA, ack.value);
    var b5 := Step(b4, ack, NoSig).0;
    SendsAgain(b5, HIS_SEQ + MAX_DATA);
    var (b6, again) := Step(b5, None, Timeout);
    Accepts(a1, again.value);
    a2, b2 := Step(a1, again, NoSig).0, b6;
  }
}
