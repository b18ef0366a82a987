/** Two TCP sockets and a network that may lose, duplicate and reorder segments, over
    the whole life of one connection: opening, data, closing, timeouts, resets. */
module TcpNet {
  import opened Words
  import opened Wrappers
  import opened CircBuff
  import opened Tcp
  import opened TcpLink
  import opened TcpStates

  /** The sockets, and the segments ever sent towards each: delivery uses none up. */
  datatype Net = Net(a: Sock, b: Sock, toA: set<Envelope>, toB: set<Envelope>)

  datatype Act =
    | Deliver(e: Envelope, c: Context)
    | DoPoll(c: Context)
    | DoOpen(c: Context)
    | DoArp(c: Context)
    | DoClose(now: LWord)
    | DoReset
    | AppPut(bytes: seq<Byte>)
    | AppGet(maxlen: nat)

  datatype Move = ByA(act: Act) | ByB(act: Act) | LoseToA(e: Envelope) | LoseToB(e: Envelope)

  function Perform(x: Sock, act: Act): (r: Result)
    requires x.Ok()
    ensures r.0.Ok()
  {
    match act
    case Deliver(e, c) => SockRx(x, Some(e.p), c)
    case DoPoll(c) => Poll(x, c)
    case DoOpen(c) => OpenSock(x, c)
    case DoArp(c) => ArpReply(x, c)
    case DoClose(now) => (CloseSock(x, now), None)
    case DoReset => ResetSock(x)
    case AppPut(bytes) => (if x.h.txOpen then Offer(x, bytes) else x, None)
    case AppGet(maxlen) => (Take(x, maxlen), None)
  }

  /** One incarnation: a socket that has been open and is closed again is not reopened.
      A segment arrives while its positions are less than 2^31 away. */
  predicate Enabled(x: Sock, toX: set<Envelope>, act: Act) {
    match act
    case Deliver(e, c) => e in toX && Timely(x, e) && (Spent(x) ==> RFlags(Some(e.p)) != {SYN})
    case DoOpen(c) => !Spent(x)
    case _ => true
  }

  predicate Spent(x: Sock) { x.state == Closed && x.h.txOpen }

  // ---- One socket's actions ----

  lemma RemakeKeeps(x: Sock, maxdata: nat, y: Sock, i: Envelope, o: Envelope)
    requires x.Ok() && Half(x, y, i, o)
    ensures Done(Remake(x, maxdata), y, i, o)
  {
    hide Base, W32, Sends, Acks, EstabTx;
    BaseSane(x, y, i, o);
    if x.state == Est || x.state == CloseWait || x.state == ActClose {
      RewindKeeps(x, y, i, o);
      EstabTxKeeps(x.(tx := x.tx.AfterRetry(x.tx.tried)), true, maxdata, y, i, o);
    } else if x.state != ArpSent && x.state != Closed {
      MakeKeeps(x, x.txflags, 0, y, i, o);
    }
  }

  lemma RewindKeeps(x: Sock, y: Sock, i: Envelope, o: Envelope)
    requires Half(x, y, i, o) && x.state in {Est, CloseWait, ActClose}
    ensures Half(x.(tx := x.tx.AfterRetry(x.tx.tried)), y, i, o)
  {
    hide W32;
    Moves(x, x.(tx := x.tx.AfterRetry(x.tx.tried)), y, i, o);
  }

  lemma ExpireKeeps(x: Sock, c: Context, y: Sock, i: Envelope, o: Envelope)
    requires x.Ok() && Half(x, y, i, o)
    ensures Done(Expire(x, c), y, i, o)
  {
    hide Base, W32, Sends, Acks, Remake;
    BaseSane(x, y, i, o);
    var t := x.(time := c.now, timeout := x.timeout + x.timeout, retries := x.retries - 1);
    SameHistory(x, t, y, i, o);
    if x.retries >= 0 {
      RemakeKeeps(t, c.maxdata, y, i, o);
    } else {
      NewStateKeeps(t, Closed, c.now, y, i, o);
      MakeKeeps(NewState(t, Closed, c.now), {RST}, 0, y, i, o);
    }
  }

  lemma PollKeeps(x: Sock, c: Context, y: Sock, i: Envelope, o: Envelope)
    requires x.Ok() && Half(x, y, i, o)
    ensures Done(Poll(x, c), y, i, o)
  {
    hide Base, Half, Stately, Remakable, Expire, SockRx;
    if x.state == Closed {
      WaitKeeps(x, c, y, i, o);
    } else if TimedOut(x, c.now) {
      ExpireKeeps(x, c, y, i, o);
    } else {
      SockRxKeeps(x, None, c, y, i, o);
    }
  }

  /** Opening a socket, or the ARP reply that lets it go on. */
  lemma OpenKeeps(x: Sock, st: State, c: Context, y: Sock, i: Envelope, o: Envelope)
    requires x.Ok() && Half(x, y, i, o) && !x.h.txOpen && st in {ActOpen, ArpRcvd}
    ensures Done(SockRx(NewState(x, st, c.now), None, c), y, i, o)
  {
    hide Base, Stately, SockRx;
    assert Closable(x);
    ActOpenKeeps(x, st, c.now, y, i, o);
    SockRxKeeps(NewState(x, st, c.now), None, c, y, i, o);
  }

  lemma CloseSockKeeps(x: Sock, now: LWord, y: Sock, i: Envelope, o: Envelope)
    requires x.Ok() && Half(x, y, i, o)
    ensures Done((CloseSock(x, now), None), y, i, o)
  {
    hide Base, W32, Sends, Acks;
    BaseSane(x, y, i, o);
    NewStateKeeps(x, ActClose, now, y, i, o);
  }

  lemma ResetSockKeeps(x: Sock, y: Sock, i: Envelope, o: Envelope)
    requires x.Ok() && Half(x, y, i, o)
    ensures Done(ResetSock(x), y, i, o)
  {
    hide Base, W32, Sends, Acks;
    BaseSane(x, y, i, o);
    if x.state != Closed { MakeKeeps(x, {RST}, 0, y, i, o); }
  }

  lemma AppKeeps(x: Sock, bytes: seq<Byte>, n: nat, y: Sock, i: Envelope, o: Envelope)
    requires x.Ok() && Half(x, y, i, o)
    ensures Done((Take(x, n), None), y, i, o)
    ensures x.h.txOpen ==> Done((Offer(x, bytes), None), y, i, o)
  {
    hide Base, W32, Sends, Acks;
    BaseSane(x, y, i, o);
    TakeKeeps(x, n, y, i, o);
    if x.h.txOpen { OfferKeeps(x, bytes, y, i, o); }
  }

  function Arrival(act: Act): Option<Envelope> { if act.Deliver? then Some(act.e) else None }

  lemma ActKeeps(x: Sock, act: Act, y: Sock, toX: set<Envelope>, i: Envelope, o: Envelope)
    requires x.Ok() && Half(x, y, i, o) && Enabled(x, toX, act) && Arriving(x, y, Arrival(act))
    ensures Done(Perform(x, act), y, i, o)
  {
    hide Base, Remakable, SockRx, Arriving, Poll, Done;
    match act {
      case Deliver(e, c) => SockRxKeeps(x, Some(e), c, y, i, o);
      case DoPoll(c) => PollKeeps(x, c, y, i, o);
      case DoOpen(c) =>
        if x.state == Closed { OpenKeeps(x, ActOpen, c, y, i, o); } else { WaitKeeps(x, c, y, i, o); }
      case DoArp(c) =>
        if x.state == ArpSent { OpenKeeps(x, ArpRcvd, c, y, i, o); } else { WaitKeeps(x, c, y, i, o); }
      case DoClose(now) => CloseSockKeeps(x, now, y, i, o);
      case DoReset => ResetSockKeeps(x, y, i, o);
      case AppPut(bytes) =>
        AppKeeps(x, bytes, 0, y, i, o);
        WaitKeeps(x, Context(0, Upcall(true, [], 0, false), 0, false), y, i, o);
      case AppGet(maxlen) => AppKeeps(x, [], maxlen, y, i, o);
    }
  }

  // ---- The two together ----

  ghost predicate Fine(x: Sock) { Core(x) && Stately(x) && Remakable(x) }

  ghost predicate Inv(x: Sock, y: Sock, toX: set<Envelope>, toY: set<Envelope>) {
    && Fine(x) && Fine(y) && Link(x, y) && Link(y, x)
    && (forall e :: e in toY ==> Sends(x, e) && Acks(y, x, e))
    && (forall e :: e in toX ==> Sends(y, e) && Acks(x, y, e))
  }

  function Stamp(r: Result): set<Envelope> {
    if r.1.None? then {} else {Sealed(r.0, r.1.value)}
  }

  /** A segment that says nothing. */
  const NIL := Envelope(Segment({RST}, 0, 0, 0, []), 0, 0)

  lemma StepKeeps(x: Sock, act: Act, y: Sock, toX: set<Envelope>, toY: set<Envelope>)
    requires x.Ok() && Inv(x, y, toX, toY) && Enabled(x, toX, act)
    ensures var r := Perform(x, act); Inv(r.0, y, toX, toY + Stamp(r))
  {
    hide Perform, Core, Stately, Remakable, Link, Timely;
    var r := Perform(x, act);
    assert Sends(x, NIL) && Acks(y, x, NIL) && Acks(x, y, NIL) && Sends(y, NIL);
    assert Sends(r.0, NIL) && Acks(y, r.0, NIL);
    ArrivingNow(x, act, y, toX, toY);
    ActKeeps(x, act, y, toX, NIL, NIL);
    hide Sends, Acks;
    forall e | e in toY ensures Sends(r.0, e) && Acks(y, r.0, e) { ActKeeps(x, act, y, toX, NIL, e); }
    forall e | e in toX ensures Acks(r.0, y, e) { ActKeeps(x, act, y, toX, e, NIL); }
  }

  lemma ArrivingNow(x: Sock, act: Act, y: Sock, toX: set<Envelope>, toY: set<Envelope>)
    requires Inv(x, y, toX, toY) && Enabled(x, toX, act)
    ensures Arriving(x, y, Arrival(act))
  {
    hide Timely, Sends, Acks, Core, Link, Stately, Remakable;
  }

  // ---- Whole runs ----

  predicate Ok(s: Net) { s.a.Ok() && s.b.Ok() }

  predicate Allowed(s: Net, mv: Move) {
    match mv
    case ByA(act) => Enabled(s.a, s.toA, act)
    case ByB(act) => Enabled(s.b, s.toB, act)
    case _ => true
  }

  function Next(s: Net, mv: Move): (s': Net)
    requires Ok(s)
    ensures Ok(s')
  {
    match mv
    case ByA(act) => var r := Perform(s.a, act); s.(a := r.0, toB := s.toB + Stamp(r))
    case ByB(act) => var r := Perform(s.b, act); s.(b := r.0, toA := s.toA + Stamp(r))
    case LoseToA(e) => s.(toA := s.toA - {e})
    case LoseToB(e) => s.(toB := s.toB - {e})
  }

  function Run(s: Net, moves: seq<Move>): (s': Net)
    requires Ok(s)
    ensures Ok(s')
    decreases |moves|
  { if moves == [] then s else Run(Next(s, moves[0]), moves[1..]) }

  predicate AllAllowed(s: Net, moves: seq<Move>)
    requires Ok(s)
    decreases |moves|
  { moves == [] || (Allowed(s, moves[0]) && AllAllowed(Next(s, moves[0]), moves[1..])) }

  /** Two sockets that have never been open, and an empty network. */
  predicate Start(s: Net) { Ok(s) && s.toA == s.toB == {} && Unused(s.a) && Unused(s.b) }

  predicate Unused(x: Sock) {
    && x.state == Closed && x.txflags == {} && x.connflags == {}
    && !x.h.txOpen && !x.h.rxOpen && !x.h.finSent && !x.h.finSeen
  }

  ghost predicate Good(s: Net) { Inv(s.a, s.b, s.toA, s.toB) }

  lemma InvSwaps(x: Sock, y: Sock, toX: set<Envelope>, toY: set<Envelope>)
    ensures Inv(x, y, toX, toY) == Inv(y, x, toY, toX)
  {
    hide Sends, Acks, Fine, Link;
  }

  lemma {:induction false} RunKeeps(s: Net, moves: seq<Move>)
    requires Ok(s) && Good(s) && AllAllowed(s, moves)
    ensures Good(Run(s, moves))
    decreases |moves|
  {
    hide Fine, Link, Sends, Acks, Perform, Enabled;
    if moves != [] {
      var mv := moves[0];
      match mv {
        case ByA(act) => StepKeeps(s.a, act, s.b, s.toA, s.toB);
        case ByB(act) =>
          InvSwaps(s.a, s.b, s.toA, s.toB);
          StepKeeps(s.b, act, s.a, s.toB, s.toA);
          InvSwaps(s.a, Next(s, mv).b, Next(s, mv).toA, s.toB);
        case _ =>
      }
      RunKeeps(Next(s, mv), moves[1..]);
    }
  }

  /** Stream safety: in every state of every run, in both directions at once, what a
      socket has accepted is a prefix of what its peer's application put in, and what its
      application has read is a prefix of that. */
  lemma StreamSafety(s: Net, moves: seq<Move>)
    requires Start(s) && AllAllowed(s, moves)
    ensures var t := Run(s, moves); Delivered(t.a, t.b) && Delivered(t.b, t.a)
  {
    hide Run, AllAllowed, Sends, Acks, Remakable, W32;
    StartGood(s);
    RunKeeps(s, moves);
  }

  predicate Delivered(x: Sock, y: Sock) {
    y.h.rxOpen ==> y.h.got <= y.h.recv <= x.h.sent
  }

  /** Open agreement: a socket that has opened its receive side starts it exactly where
      its peer's transmit side starts; in particular when both are established. */
  lemma OpenAgreement(s: Net, moves: seq<Move>)
    requires Start(s) && AllAllowed(s, moves)
    ensures var t := Run(s, moves); Agreed(t.a, t.b) && Agreed(t.b, t.a)
    ensures var t := Run(s, moves);
      t.a.state == Est && t.b.state == Est ==> t.a.h.irs == t.b.h.iss && t.b.h.irs == t.a.h.iss
  {
    hide Run, AllAllowed, Sends, Acks, Remakable, W32;
    StartGood(s);
    RunKeeps(s, moves);
  }

  predicate Agreed(x: Sock, y: Sock) {
    && (y.state == Est ==> y.h.rxOpen && y.h.txOpen)
    && (y.h.rxOpen ==> x.h.txOpen && y.h.irs == x.h.iss && y.rx.InPtr() == W32(x.h.iss + |y.h.recv|))
  }

  /** Every SYN in flight carries the number just before its sender's first byte: opening
      takes up exactly one sequence number. */
  lemma SynTakesOneNumber(s: Net, moves: seq<Move>, e: Envelope)
    requires Start(s) && AllAllowed(s, moves) && SYN in e.p.flags && RST !in e.p.flags
    ensures var t := Run(s, moves);
      && (e in t.toB ==> t.a.h.txOpen && W32(e.p.seqNo + 1) == t.a.h.iss)
      && (e in t.toA ==> t.b.h.txOpen && W32(e.p.seqNo + 1) == t.b.h.iss)
  {
    hide W32, Fine, Link, Run, AllAllowed;
    StartGood(s);
    RunKeeps(s, moves);
    SynNumber(Run(s, moves).a.h.iss);
    SynNumber(Run(s, moves).b.h.iss);
  }

  lemma StartGood(s: Net)
    requires Start(s)
    ensures Good(s)
  {}

  /** Retention: no byte leaves the sender's buffer before the receiver has stored it and
      none is stored that was never tried; the buffer holds everything from `out` on. */
  lemma Retention(s: Net, moves: seq<Move>)
    requires Start(s) && AllAllowed(s, moves)
    ensures var t := Run(s, moves); Retained(t.a, t.b) && Retained(t.b, t.a)
  {
    hide Run, AllAllowed, Sends, Acks, Remakable, W32;
    StartGood(s);
    RunKeeps(s, moves);
  }

  predicate Retained(x: Sock, y: Sock) {
    && (x.h.txOpen ==>
      && 0 <= OutPos(x) && x.tx.data == x.h.sent[OutPos(x)..] && TrialPos(x) <= x.h.high <= |x.h.sent|
      && OutPos(x) <= (if y.h.rxOpen then |y.h.recv| else 0))
    && (y.h.rxOpen ==> |y.h.recv| <= x.h.high)
  }

  /** A FIN is accepted only after it was sent, and with exactly the bytes before the place
      it stands at, the sender's trial position: everything the sender has sent, if its
      trial pointer is at the furthest it has been, as it is in the states of an active
      close. */
  lemma FinSafety(s: Net, moves: seq<Move>)
    requires Start(s) && AllAllowed(s, moves)
    ensures var t := Run(s, moves); Finished(t.a, t.b) && Finished(t.b, t.a)
  {
    hide Run, AllAllowed, Sends, Acks, Remakable, W32;
    StartGood(s);
    RunKeeps(s, moves);
  }

  predicate Finished(x: Sock, y: Sock) {
    y.h.finSeen ==>
      && x.h.finSent && |y.h.recv| == TrialPos(x) <= x.h.high <= |x.h.sent|
      && y.h.recv == x.h.sent[..TrialPos(x)]
      && (x.state in {FinWait1, FinWait2, Closing, TimedWait} ==> |y.h.recv| == x.h.high)
  }
}
