/** What two TCP sockets' histories and the segments in flight between them have to do
    with each other, and that every operation on a socket keeps it so. Segments are
    treated one at a time: `i` is any segment on its way to x, `o` any on its way to y. */
module TcpLink {
  import opened Words
  import opened Wrappers
  import opened CircBuff
  import opened Tcp

  /** A segment in flight, with the unwrapped positions of its two header fields. */
  datatype Envelope = Envelope(p: Segment, at: int, ack: int)

  function OutPos(x: Sock): int { |x.h.sent| - |x.tx.data| }

  function TrialPos(x: Sock): int { OutPos(x) + x.tx.tried }

  /** The positions of a segment that x has just made. */
  function Sealed(x: Sock, p: Segment): Envelope {
    Envelope(p, TrialPos(x) - |p.data| + SeqDelta(x.state), |x.h.recv| + AckDelta(x.state))
  }

  predicate Near(x: Sock, e: Envelope) { x.h.rxOpen ==> -TWO31 < e.at - |x.h.recv| < TWO31 }

  predicate Timely(x: Sock, e: Envelope) {
    Near(x, e) && (x.h.txOpen ==> -TWO31 < e.ack - OutPos(x) < TWO31)
  }

  // ---- The invariant ----

  /** Buffers agree with histories. */
  ghost predicate Core(x: Sock) {
    && x.Ok() && x.connflags <= {PSH}
    && (x.h.rxOpen ==> x.h.txOpen)
    && (x.h.finSent ==> x.h.txOpen) && (x.h.finSeen ==> x.h.rxOpen)
    && (x.h.txOpen ==>
      && 0 <= OutPos(x) && TrialPos(x) <= x.h.high <= |x.h.sent|
      && x.tx.data == x.h.sent[OutPos(x)..] && x.tx.out == W32(x.h.iss + OutPos(x)))
    && (x.h.rxOpen ==>
      && x.rx.InPtr() == W32(x.h.irs + |x.h.recv|) && x.h.recv == x.h.got + x.rx.data)
  }

  /** The state agrees with the history. */
  ghost predicate Stately(x: Sock) {
    && x.state != Reset
    && (x.state in {ActOpen, ArpSent, ArpRcvd} ==> !x.h.txOpen)
    && (x.state == SynSent ==> x.h.txOpen && !x.h.rxOpen)
    && (x.state !in {Closed, ActOpen, ArpSent, ArpRcvd, SynSent} ==> x.h.rxOpen)
    && (x.state in {SynRcvd, SynSent} ==> x.h.high == 0)
    && (x.h.finSent ==> FinOut(x.state) || x.state == Closed)
    && (x.h.finSeen ==> FinIn(x.state) || x.state == Closed)
    && (FinOut(x.state) ==> x.h.finSent)
    && (FinIn(x.state) ==> x.h.finSeen)
    && (FinOut(x.state) && x.state != LastAck ==> TrialPos(x) == x.h.high)
  }

  /** The last transmission can be remade. */
  ghost predicate Remakable(x: Sock) {
    && (!x.h.txOpen ==> x.txflags <= {RST})
    && (x.state == SynSent ==> x.txflags in {{SYN}, {RST}})
    && (x.state == SynRcvd ==> x.txflags in {{SYN, ACK}, {RST}})
    && (FinOut(x.state) ==> x.txflags in {{FIN, ACK}, {ACK}, {RST}})
  }

  /** A segment from x: its SYN is at the number before the first byte, its data is a
      piece of what x has sent, its FIN is where x's transmission has stopped. */
  ghost predicate Sends(x: Sock, e: Envelope) {
    var f, d := e.p.flags, e.p.data;
    RST in f || (
      && (SYN in f ==> x.h.txOpen && e.p.seqNo == W32(x.h.iss - 1))
      && (d != [] ==>
        && x.h.txOpen && 0 <= e.at && e.at + |d| <= x.h.high <= |x.h.sent|
        && e.p.seqNo == W32(x.h.iss + e.at) && d == x.h.sent[e.at..e.at + |d|])
      && (FIN in f ==>
        && x.h.finSent && d == [] && e.p.seqNo == W32(x.h.iss + e.at)
        && (e.at == TrialPos(x) || e.at == TrialPos(x) + 1 == x.h.high + 1)))
  }

  /** A segment from y: it acknowledges no more of x's stream than y has stored, and
      x's FIN only once y has accepted it. */
  ghost predicate Acks(x: Sock, y: Sock, e: Envelope) {
    ACK in e.p.flags && RST !in e.p.flags ==>
      && y.h.rxOpen && e.p.ackNo == W32(x.h.iss + e.ack) && 0 <= e.ack
      && (e.ack <= |y.h.recv| || (y.h.finSeen && e.ack == |y.h.recv| + 1))
  }

  /** What x has sent and what y has of it. */
  ghost predicate Link(x: Sock, y: Sock) {
    && (y.h.rxOpen ==>
      && x.h.txOpen && y.h.irs == x.h.iss
      && |y.h.recv| <= x.h.high <= |x.h.sent| && y.h.recv == x.h.sent[..|y.h.recv|])
    && (x.h.txOpen ==> OutPos(x) <= if y.h.rxOpen then |y.h.recv| else 0)
    && (y.h.finSeen ==> x.h.finSent && |y.h.recv| == TrialPos(x))
  }

  ghost predicate Passing(x: Sock, y: Sock, i: Envelope, o: Envelope) {
    Sends(x, o) && Acks(y, x, o) && Acks(x, y, i)
  }

  /** Everything but the states. */
  ghost predicate Base(x: Sock, y: Sock, i: Envelope, o: Envelope) {
    Core(x) && Core(y) && Link(x, y) && Link(y, x) && Passing(x, y, i, o)
  }

  /** Everything but y's state. */
  ghost predicate Half(x: Sock, y: Sock, i: Envelope, o: Envelope) {
    x.Ok() && Base(x, y, i, o) && Stately(x) && Remakable(x)
  }

  /** The segment that x has made, if any, is in order. */
  ghost predicate Made(x: Sock, y: Sock, p: Option<Segment>) {
    p.Some? ==> Sends(x, Sealed(x, p.value)) && Acks(y, x, Sealed(x, p.value))
  }

  /** x has done something: the result is in order. */
  ghost predicate Done(r: Result, y: Sock, i: Envelope, o: Envelope) {
    Half(r.0, y, i, o) && Made(r.0, y, r.1)
  }

  // ---- Each operation keeps what it should ----

  /** Streams only grow, and stop where a FIN was sent. */
  ghost predicate Extends(x: Sock, x': Sock) {
    && (x.h.txOpen ==>
      x'.h.txOpen && x'.h.iss == x.h.iss && x.h.sent <= x'.h.sent && x.h.high <= x'.h.high <= |x'.h.sent|)
    && (x.h.finSent ==> x'.h.finSent && TrialPos(x') == TrialPos(x) && x'.h.high == x.h.high)
    && (x.h.rxOpen ==> x'.h.rxOpen && |x.h.recv| <= |x'.h.recv|)
    && (x.h.finSeen ==> x'.h.finSeen)
  }

  lemma Moves(x: Sock, x': Sock, y: Sock, i: Envelope, o: Envelope)
    requires Base(x, y, i, o) && Core(x') && Link(x', y) && Link(y, x') && Extends(x, x')
    ensures Base(x', y, i, o)
  {
    hide W32;
    var d := o.p.data;
    if RST !in o.p.flags && d != [] {
      assert d == x.h.sent[o.at..o.at + |d|] == x'.h.sent[o.at..o.at + |d|];
    }
  }

  /** Only the state, timers, counters and flags of x changed. */
  lemma SameHistory(x: Sock, x': Sock, y: Sock, i: Envelope, o: Envelope)
    requires Base(x, y, i, o)
    requires x'.rx == x.rx && x'.tx == x.tx && x'.h == x.h && x'.connflags <= {PSH}
    ensures Base(x', y, i, o)
  {
    hide W32;
  }

  /** What can be told of a socket's history from its flags. */
  predicate Sane(x: Sock) {
    && x.Ok() && x.connflags <= {PSH}
    && (x.h.rxOpen ==> x.h.txOpen) && (x.h.finSent ==> x.h.txOpen) && (x.h.finSeen ==> x.h.rxOpen)
  }

  lemma BaseSane(x: Sock, y: Sock, i: Envelope, o: Envelope)
    requires Base(x, y, i, o)
    ensures Sane(x) && Sane(y) && (y.h.rxOpen ==> x.h.txOpen) && (x.h.rxOpen ==> y.h.txOpen)
    ensures x.h.finSeen ==> y.h.finSent
    ensures x.h.txOpen ==> TrialPos(x) <= x.h.high <= |x.h.sent|
  {}

  /** The FIN flags of the history may be set, when they are justified. */
  lemma NewStateKeeps(x: Sock, st: State, now: LWord, y: Sock, i: Envelope, o: Envelope)
    requires x.Ok() && Base(x, y, i, o)
    requires FinOut(st) ==> x.h.txOpen
    requires FinIn(st) && !x.h.finSeen ==> x.h.rxOpen && y.h.finSent && |x.h.recv| == TrialPos(y)
    ensures Base(NewState(x, st, now), y, i, o)
  {
    hide W32;
    Moves(x, NewState(x, st, now), y, i, o);
  }

  /** The acknowledgement accepted is that of bytes on trial, all stored by y. */
  lemma AckPosition(x: Sock, y: Sock, i: Envelope, o: Envelope, e: Envelope)
    requires Base(x, y, i, o) && Acks(x, y, e) && Timely(x, e)
    requires ACK in e.p.flags && RST !in e.p.flags && InLimits(e.p.ackNo, x.tx.out, x.tx.TrialPtr())
    ensures x.h.txOpen && y.h.rxOpen
    ensures 0 <= e.ack - OutPos(x) <= x.tx.tried && e.ack <= |y.h.recv|
    ensures W32(e.p.ackNo - x.tx.out) == e.ack - OutPos(x)
  {
    WrapAdd(x.h.iss + OutPos(x), x.tx.tried);
    AckInside(x.h.iss, e.ack, OutPos(x), TrialPos(x));
  }

  lemma AckInside(iss: LWord, ack: int, lo: int, hi: int)
    requires lo <= hi < lo + TWO31 && -TWO31 < ack - lo < TWO31
    requires InLimits(W32(iss + ack), W32(iss + lo), W32(iss + hi))
    ensures lo <= ack <= hi && W32(W32(iss + ack) - W32(iss + lo)) == ack - lo
  {
    InLimitsPositions(iss, ack, lo, hi);
    WrapSub(iss + ack, iss + lo);
    WrapNear(ack - lo);
  }

  lemma ReleaseKeeps(x: Sock, k: nat, y: Sock, i: Envelope, o: Envelope)
    requires x.Ok() && Base(x, y, i, o) && x.h.txOpen && y.h.rxOpen
    requires k <= x.tx.tried && OutPos(x) + k <= |y.h.recv|
    ensures Base(x.(tx := x.tx.AfterOut(k)), y, i, o)
  {
    hide W32;
    var x' := x.(tx := x.tx.AfterOut(k));
    assert OutPos(x') == OutPos(x) + k && TrialPos(x') == TrialPos(x);
    WrapAdd(x.h.iss + OutPos(x), k);
    assert x.h.sent[OutPos(x)..][k..] == x.h.sent[OutPos(x')..];
    Moves(x, x', y, i, o);
  }

  lemma CallUpKeeps(x: Sock, up: Upcall, y: Sock, i: Envelope, o: Envelope)
    requires x.Ok() && Base(x, y, i, o) && x.h.txOpen
    ensures Base(CallUp(x, up), y, i, o)
    ensures TrialPos(CallUp(x, up)) == TrialPos(x) && CallUp(x, up).tx.tried == x.tx.tried
  {
    hide Base, W32;
    TakeKeeps(x, up.take, y, i, o);
    var t := Take(x, up.take);
    OfferKeeps(t, up.put, y, i, o);
    BaseSane(x, y, i, o);
    SameHistory(Offer(t, up.put), CallUp(x, up), y, i, o);
  }

  lemma TakeKeeps(x: Sock, n: nat, y: Sock, i: Envelope, o: Envelope)
    requires Base(x, y, i, o)
    ensures Base(Take(x, n), y, i, o)
  {
    hide W32;
    var k := Min(n, |x.rx.data|);
    assert x.rx.data == x.rx.data[..k] + x.rx.data[k..];
    WrapAdd(x.rx.out + k, |x.rx.data| - k);
    assert Take(x, n).rx.InPtr() == x.rx.InPtr();
    Moves(x, Take(x, n), y, i, o);
  }

  lemma OfferKeeps(x: Sock, bytes: seq<Byte>, y: Sock, i: Envelope, o: Envelope)
    requires Base(x, y, i, o) && x.h.txOpen
    ensures Base(Offer(x, bytes), y, i, o)
    ensures TrialPos(Offer(x, bytes)) == TrialPos(x)
  {
    hide W32;
    var x' := Offer(x, bytes);
    assert x'.h.sent[OutPos(x)..] == x.h.sent[OutPos(x)..] + bytes[..x.tx.PutCount(bytes)];
    Moves(x, x', y, i, o);
  }

  /** What a segment carries, on positions relative to x's receive position r. */
  lemma NewPartIsNext(x: Sock, y: Sock, i: Envelope, o: Envelope, e: Envelope)
    requires Base(x, y, i, o) && x.h.rxOpen && Sends(y, e) && Near(x, e)
    requires RST !in e.p.flags && e.p.data != []
    ensures IsNext(x, y, NewPart(e.p.data, Signed32(W32(e.p.seqNo - x.rx.InPtr())), x.rxwin))
  {
    hide W32, Signed32, NewPart;
    Distance(y.h.iss, e.at, |x.h.recv|);
    TailIsNext(x, y, e);
  }

  /** p is the next piece of y's stream for x. */
  ghost predicate IsNext(x: Sock, y: Sock, p: seq<Byte>) {
    var r := |x.h.recv|;
    p != [] ==> r + |p| <= y.h.high <= |y.h.sent| && p == y.h.sent[r..r + |p|]
  }

  lemma Distance(iss: LWord, at: int, r: int)
    requires -TWO31 < at - r < TWO31
    ensures Signed32(W32(W32(iss + at) - W32(iss + r))) == at - r
  {
    WrapSub(iss + at, iss + r);
    WrapNear(at - r);
  }

  lemma TailIsNext(x: Sock, y: Sock, e: Envelope)
    requires Sends(y, e) && RST !in e.p.flags && e.p.data != []
    ensures IsNext(x, y, NewPart(e.p.data, e.at - |x.h.recv|, x.rxwin))
  {
    hide W32;
    var r, d := |x.h.recv|, e.p.data;
    if 0 < r - e.at < |d| {
      assert d[r - e.at..] == y.h.sent[r..e.at + |d|];
    }
  }

  lemma AcceptKeeps(x: Sock, p: seq<Byte>, y: Sock, i: Envelope, o: Envelope)
    requires Base(x, y, i, o) && x.h.rxOpen && !x.h.finSeen && IsNext(x, y, p)
    ensures Base(Accept(x, p), y, i, o)
  {
    hide W32;
    var x' := Accept(x, p);
    var n := x.rx.PutCount(p);
    WrapAdd(x.rx.out + |x.rx.data|, n);
    WrapAdd(x.h.irs + |x.h.recv|, n);
    assert x'.h.recv == y.h.sent[..|x'.h.recv|];
    Moves(x, x', y, i, o);
  }

  /** What a socket may transmit, given its history. */
  ghost predicate May(x: Sock, flags: set<TFlag>, dlen: nat) {
    && (dlen > 0 ==> x.h.txOpen && !x.h.finSent && SeqDelta(x.state) == 0)
    && (SYN in flags ==> x.h.txOpen && SeqDelta(x.state) == -1 && x.h.high == 0 && dlen == 0)
    && (FIN in flags ==>
      && x.h.finSent && dlen == 0 && SeqDelta(x.state) >= 0
      && (SeqDelta(x.state) == 1 ==> TrialPos(x) == x.h.high))
    && (ACK in flags ==> x.h.rxOpen && (FinIn(x.state) ==> x.h.finSeen))
  }

  ghost predicate Permitted(x: Sock, flags: set<TFlag>, dlen: nat) {
    May(x, flags, dlen) || (flags == {RST} && dlen == 0)
  }

  /** Making a segment only moves the trial pointer. */
  lemma MakeMoves(x: Sock, flags: set<TFlag>, dlen: nat, y: Sock, i: Envelope, o: Envelope)
    requires x.Ok() && Base(x, y, i, o) && Permitted(x, flags, dlen)
    ensures Base(Make(x, flags, dlen).0, y, i, o)
    ensures x.h.txOpen && dlen == 0 ==> Make(x, flags, dlen).0 == x.(txflags := flags)
  {
    hide W32;
    Moves(x, Make(x, flags, dlen).0, y, i, o);
  }

  lemma SlicedTwice(s: seq<Byte>, a: nat, b: nat, n: nat)
    requires a + b + n <= |s|
    ensures s[a..][b..b + n] == s[a + b..a + b + n]
  {}

  lemma MakePointers(x: Sock, flags: set<TFlag>, dlen: nat)
    requires Core(x)
    ensures var s := Make(x, flags, dlen).1.value; var n := x.tx.TryCount(dlen);
      && (x.h.txOpen ==> s.seqNo == W32(x.h.iss + (TrialPos(x) + SeqDelta(x.state))))
      && (x.h.rxOpen ==> s.ackNo == W32(x.h.irs + (|x.h.recv| + AckDelta(x.state))))
      && (x.h.txOpen ==> s.data == x.h.sent[TrialPos(x)..TrialPos(x) + n])
  {
    hide W32;
    var n := x.tx.TryCount(dlen);
    WrapAdd(x.h.iss + OutPos(x), x.tx.tried);
    WrapAdd(x.h.iss + TrialPos(x), SeqDelta(x.state));
    WrapAdd(x.h.irs + |x.h.recv|, AckDelta(x.state));
    if x.h.txOpen {
      SlicedTwice(x.h.sent, OutPos(x), x.tx.tried, n);
    }
  }

  /** A segment made from x's buffers is in order. */
  lemma MakeMade(x: Sock, flags: set<TFlag>, dlen: nat, y: Sock, i: Envelope, o: Envelope)
    requires x.Ok() && Base(x, y, i, o) && Permitted(x, flags, dlen)
    ensures Made(Make(x, flags, dlen).0, y, Make(x, flags, dlen).1)
  {
    hide W32;
    MakePointers(x, flags, dlen);
  }

  lemma MakeKeeps(x: Sock, flags: set<TFlag>, dlen: nat, y: Sock, i: Envelope, o: Envelope)
    requires x.Ok() && Base(x, y, i, o) && Permitted(x, flags, dlen)
    requires Stately(Make(x, flags, dlen).0) && Remakable(Make(x, flags, dlen).0)
    ensures Done(Make(x, flags, dlen), y, i, o)
    ensures x.h.txOpen && dlen == 0 ==> Make(x, flags, dlen).0 == x.(txflags := flags)
  {
    hide Base, Made, Permitted, Stately, Remakable;
    MakeMoves(x, flags, dlen, y, i, o);
    MakeMade(x, flags, dlen, y, i, o);
  }

  lemma EstabTxKeeps(x: Sock, force: bool, maxdata: nat, y: Sock, i: Envelope, o: Envelope)
    requires Half(x, y, i, o) && x.state in {Est, CloseWait, ActClose}
    ensures Done(EstabTx(x, force, maxdata), y, i, o)
  {
    hide Base, W32, Sends, Acks;
    BaseSane(x, y, i, o);
    var tdlen: int := Min(Min(x.tx.Untried(), maxdata), x.txwin - x.tx.tried);
    MakeKeeps(x, {ACK} + x.connflags, W16(tdlen), y, i, o);
  }

  lemma OpenTxKeeps(x: Sock, start: LWord, y: Sock, i: Envelope, o: Envelope)
    requires x.Ok() && Base(x, y, i, o) && !x.h.txOpen
    ensures Base(OpenTx(x, start), y, i, o)
  {
    WrapNear(start);
    Moves(x, OpenTx(x, start), y, i, o);
  }

  /** The SYN that opens the receive side carries the number before y's first byte. */
  lemma OpenRxKeeps(x: Sock, start: LWord, y: Sock, i: Envelope, o: Envelope)
    requires x.Ok() && Base(x, y, i, o) && x.h.txOpen && !x.h.rxOpen
    requires y.h.txOpen && start == y.h.iss
    ensures Base(OpenRx(x, start), y, i, o)
  {
    WrapNear(start);
    Moves(x, OpenRx(x, start), y, i, o);
  }

  lemma SynNumber(iss: LWord)
    ensures W32(W32(iss - 1) + 1) == iss
  {
    WrapAdd(iss - 1, 1);
    WrapNear(iss);
  }

  /** The buffers of a socket that is not open do not matter. */
  lemma UnopenedKeeps(x: Sock, x': Sock, y: Sock, i: Envelope, o: Envelope)
    requires Base(x, y, i, o) && !x.h.txOpen && x'.h == x.h && x'.Ok() && x'.connflags <= {PSH}
    ensures Base(x', y, i, o)
  {
    hide W32;
  }

  /** A FIN is accepted only when everything before it has been. */
  lemma FinPosition(x: Sock, y: Sock, i: Envelope, o: Envelope, e: Envelope)
    requires Base(x, y, i, o) && x.h.rxOpen && Sends(y, e) && Near(x, e)
    requires FIN in e.p.flags && RST !in e.p.flags && e.p.seqNo == x.rx.InPtr()
    ensures y.h.finSent && |x.h.recv| == TrialPos(y) && e.p.data == []
  {
    WrapInjective(y.h.iss + e.at, y.h.iss + |x.h.recv|);
  }

  /** With an empty buffer, everything has been tried. */
  lemma AllTried(x: Sock, y: Sock, i: Envelope, o: Envelope)
    requires Base(x, y, i, o) && x.h.txOpen && x.tx.data == []
    ensures TrialPos(x) == x.h.high
  {}

  /** A reset needs no justification. */
  lemma ResetMade(x: Sock, y: Sock, r: Segment)
    requires RST in r.flags
    ensures Made(x, y, Some(r))
  {}
}
