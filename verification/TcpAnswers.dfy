/** What a TCP socket does with a segment, state by state, in terms of the numbers in the
    segments and the bytes alone: what it stores, what it takes for acknowledged, what it
    answers, and where it goes. */
module TcpAnswers {
  import opened Words
  import opened Wrappers
  import opened CircBuff
  import opened Tcp

  /** A position, and one so many bytes on. */
  function On(at: LWord, k: int): LWord { W32(at + k) }

  lemma OnNone(b: Buf)
    ensures On(b.InPtr(), 0) == b.InPtr() && On(b.TrialPtr(), 0) == b.TrialPtr()
    ensures On(b.out, 0) == b.out
  {
    WrapNear(b.InPtr());
    WrapNear(b.TrialPtr());
    WrapNear(b.out);
  }

  /** The new bytes of data that begins k bytes behind the receive position (ahead of it, if
      k is negative), as far as there is room for them. */
  function Fresh(s: Sock, data: seq<Byte>, k: int): seq<Byte>
    requires s.Ok()
  {
    if 0 <= k <= s.rxwin && k < |data| then data[k..][..Min(|data| - k, s.rx.cap - |s.rx.data|)] else []
  }

  lemma Distance(s: Sock, seq_: LWord, k: int)
    requires -TWO31 < k < TWO31 && seq_ == On(s.rx.InPtr(), -k)
    ensures Signed32(W32(seq_ - s.rx.InPtr())) == -k
  {
    WrapSub(s.rx.InPtr() - k, s.rx.InPtr());
    WrapNear(-k);
  }

  /** The application neither takes nor puts anything, and agrees. */
  predicate Content(c: Context) { c.up == Upcall(true, [], 0, false) }

  lemma NothingTaken(s: Sock, c: Context)
    requires s.Ok() && Content(c) && s.rx.out == W32(s.rx.out)
    ensures CallUp(s, c.up) == s
  {
    assert s.rx.data[0..] == s.rx.data && s.tx.data + [] == s.tx.data && s.h.got + [] == s.h.got;
    assert s.h.sent + [] == s.h.sent;
  }

  /** What an acknowledgement of k bytes leaves of the transmit buffer. */
  function Released(b: Buf, seg: Segment): (r: Buf)
    requires b.Ok()
    ensures r.Ok()
  { if ACK in seg.flags && W32(seg.ackNo - b.out) <= b.tried then b.AfterOut(W32(seg.ackNo - b.out)) else b }

  lemma InLimitsIs(b: Buf, ack: LWord)
    requires b.Ok()
    ensures InLimits(ack, b.out, b.TrialPtr()) <==> W32(ack - b.out) <= b.tried
  {
    WrapSub(b.out + b.tried, b.out);
    WrapNear(b.tried);
    InLimitsShortArc(ack, b.out, b.TrialPtr());
  }

  predicate Ordinary(seg: Segment) { RST !in seg.flags }

  /** Reading a header: the values are noted, and what is acknowledged is removed. */
  lemma HeaderIs(s: Sock, seg: Segment, now: LWord)
    requires s.Ok() && Ordinary(seg)
    ensures Header(s, Some(seg), now) ==
      s.(rxseq := seg.seqNo, rxack := seg.ackNo, txwin := seg.window, tx := Released(s.tx, seg))
  {
    InLimitsIs(s.tx, seg.ackNo);
    hide InLimits, W32;
  }

  /** Taking its data. */
  lemma StoredIs(t: Sock, seg: Segment, k: int)
    requires t.Ok() && -TWO31 < k < TWO31 && t.rxseq == On(t.rx.InPtr(), -k)
    ensures var (u, tx) := EstabRx(t, Some(seg)); var new_ := Fresh(t, seg.data, k);
      && u == t.(rx := t.rx.(data := t.rx.data + new_), h := t.h.(recv := t.h.recv + new_))
      && (seg.data != [] && (k > 0 || PSH in seg.flags) ==> tx) && (seg.data == [] ==> !tx)
  {
    Distance(t, t.rxseq, k);
    hide W32, Signed32;
    assert t.rx.data + [] == t.rx.data && t.h.recv + [] == t.h.recv;
  }

  /** When taking data asks for a reply: if it is pushed, begins behind the receive position,
      or leaves more than half a window unread. */
  lemma ReplyAsked(t: Sock, seg: Segment, k: int)
    requires t.Ok() && -TWO31 < k < TWO31 && t.rxseq == On(t.rx.InPtr(), -k) && seg.data != []
    ensures EstabRx(t, Some(seg)).1 <==>
      PSH in seg.flags || k > 0 || 2 * |t.rx.data + Fresh(t, seg.data, k)| >= t.rxwin - t.rxwin % 2 + 2
  {
    StoredIs(t, seg, k);
    Distance(t, t.rxseq, k);
    hide W32, Signed32, Fresh;
  }

  /** The socket once header and data have been read. */
  function Read(s: Sock, seg: Segment, k: int): (t: Sock)
    requires s.Ok()
    ensures t.Ok()
  {
    var new_ := Fresh(s, seg.data, k);
    s.(rxseq := seg.seqNo, rxack := seg.ackNo, txwin := seg.window, tx := Released(s.tx, seg),
       rx := s.rx.(data := s.rx.data + new_), h := s.h.(recv := s.h.recv + new_))
  }

  lemma ReadIs(s: Sock, seg: Segment, now: LWord, k: int)
    requires s.Ok() && Ordinary(seg) && -TWO31 < k < TWO31 && seg.seqNo == On(s.rx.InPtr(), -k)
    ensures EstabRx(Header(s, Some(seg), now), Some(seg)).0 == Read(s, seg, k)
    ensures seg.data == [] ==> !EstabRx(Header(s, Some(seg), now), Some(seg)).1
  {
    HeaderIs(s, seg, now);
    StoredIs(Header(s, Some(seg), now), seg, k);
    hide Header, EstabRx, W32;
  }

  // ---- An established socket ----

  /** A segment that is k bytes behind (0: in sequence), with no FIN or one out of place. */
  predicate InEstablished(s: Sock, seg: Segment, k: int) {
    && s.Ok() && s.state == Est && Ordinary(seg) && -TWO31 < k < TWO31 && seg.seqNo == On(s.rx.InPtr(), -k)
    && (FIN in seg.flags ==> k != 0)
  }

  lemma OutOfPlace(s: Sock, k: int)
    requires s.Ok() && -TWO31 < k < TWO31
    ensures On(s.rx.InPtr(), -k) == s.rx.InPtr() <==> k == 0
  {
    WrapNear(s.rx.InPtr());
    if On(s.rx.InPtr(), -k) == s.rx.InPtr() { WrapInjective(s.rx.InPtr() - k, s.rx.InPtr()); }
  }

  /** The application's turn does not move the position that is acknowledged. */
  lemma CalledUp(t: Sock, up: Upcall)
    requires t.Ok()
    ensures var u := CallUp(t, up);
      && u.rx.InPtr() == t.rx.InPtr() && u.state == t.state && u.rxwin == t.rxwin && u.txwin == t.txwin
      && u.h.recv == t.h.recv && u.tx.out == t.tx.out && u.tx.tried == t.tx.tried && t.tx.data <= u.tx.data
      && u.rxseq == t.rxseq && u.rxack == t.rxack
      && (up.put == [] ==> u.tx == t.tx) && u.connflags == (if up.push then {PSH} else t.connflags)
      && u.tx.data == t.tx.data + up.put[..Min(|up.put|, t.tx.cap - |t.tx.data|)]
  {
    var n := Min(up.take, |t.rx.data|);
    WrapAdd(t.rx.out + n, |t.rx.data| - n);
    hide W32;
    assert t.tx.data + [] == t.tx.data;
  }

  /** Where an established socket stands after reading a segment, its timer set again, and
      calling the application. */
  function Served(s: Sock, seg: Segment, c: Context, k: int): (u: Sock)
    requires s.Ok()
    ensures u.Ok()
  {
    var t := Read(s, seg, k);
    CallUp(if seg.flags * {FIN, SYN, ACK} != {} then NewState(t, s.state, c.now) else t, c.up)
  }

  lemma EstServes(s: Sock, seg: Segment, c: Context, k: int)
    requires InEstablished(s, seg, k)
    ensures SockRx(s, Some(seg), c) ==
      if c.up.ok then EstabTx(Served(s, seg, c, k), seg.data != [], c.maxdata)
      else EstabTx(NewState(Served(s, seg, c, k), ActClose, c.now), true, c.maxdata)
  {
    HeaderIs(s, seg, c.now);
    OutOfPlace(s, k);
    var t0 := Header(s, Some(seg), c.now);
    var t := if RFlags(Some(seg)) != {} then NewState(t0, s.state, c.now) else t0;
    StoredIs(t, seg, k);
    hide EstabRx, Header, W32, EstabTx, CallUp, Fresh, Released;
    assert RFlags(Some(seg)) == seg.flags * {FIN, SYN, ACK};
    assert EstabRx(t, Some(seg)).0 ==
      if seg.flags * {FIN, SYN, ACK} != {} then NewState(Read(s, seg, k), s.state, c.now) else Read(s, seg, k);
  }

  /** A segment that carries an acknowledgement: of everything stored, and of the FIN if that
      has come. */
  predicate Acknowledges(p: Segment, u: Sock, fin: int) {
    ACK in p.flags && RST !in p.flags && p.ackNo == On(u.rx.InPtr(), fin) && p.window == u.rxwin
  }

  lemma Sent(u: Sock, maxdata: nat)
    requires u.Ok() && u.connflags <= {PSH}
    ensures var r := EstabTx(u, true, maxdata);
      && r.1.Some? && Acknowledges(r.1.value, r.0, AckDelta(u.state))
      && r.1.value.flags <= {ACK, PSH} && r.0.rx == u.rx && r.0.state == u.state && r.0.h.recv == u.h.recv
      && r.0.rxwin == u.rxwin
  {
    hide W32, W16;
  }

  lemma ServedIs(s: Sock, seg: Segment, c: Context, k: int)
    requires s.Ok()
    ensures var u := Served(s, seg, c, k);
      && u.rx.InPtr() == On(s.rx.InPtr(), |Fresh(s, seg.data, k)|) && u.state == s.state && u.rxwin == s.rxwin
      && u.h.recv == s.h.recv + Fresh(s, seg.data, k) && u.connflags == (if c.up.push then {PSH} else s.connflags)
      && u.tx.out == Released(s.tx, seg).out
      && u.tx.data == Released(s.tx, seg).data +
        c.up.put[..Min(|c.up.put|, s.tx.cap - |Released(s.tx, seg).data|)]
  {
    hide W32, CallUp, Fresh, Released;
    var t := Read(s, seg, k);
    InPtrOn(s.rx, Fresh(s, seg.data, k));
    CalledUp(if seg.flags * {FIN, SYN, ACK} != {} then NewState(t, s.state, c.now) else t, c.up);
    ReleasedCap(s.tx, seg);
  }

  lemma ReleasedCap(b: Buf, seg: Segment)
    requires b.Ok()
    ensures Released(b, seg).cap == b.cap
  {}

  lemma InPtrOn(b: Buf, more: seq<Byte>)
    requires b.Ok()
    ensures b.(data := b.data + more).InPtr() == On(b.InPtr(), |more|)
  {
    WrapAdd(b.out + |b.data|, |more|);
  }

  /** A segment with data is always answered, whether the data is new, a repeat, from ahead,
      or does not fit; the answer acknowledges exactly what has been stored. */
  lemma DataAnswered(s: Sock, seg: Segment, c: Context, k: int)
    requires InEstablished(s, seg, k) && seg.data != [] && c.up.ok && s.connflags <= {PSH}
    ensures var r := SockRx(s, Some(seg), c);
      && r.0.state == Est && r.1.Some? && ACK in r.1.value.flags && r.1.value.flags <= {ACK, PSH}
      && r.0.h.recv == s.h.recv + Fresh(s, seg.data, k) && r.1.value.window == s.rxwin
      && r.1.value.ackNo == r.0.rx.InPtr() == On(s.rx.InPtr(), |Fresh(s, seg.data, k)|)
  {
    EstServes(s, seg, c, k);
    ServedIs(s, seg, c, k);
    Sent(Served(s, seg, c, k), c.maxdata);
    OnNone(Served(s, seg, c, k).rx);
    hide SockRx, Served, EstabTx, Fresh, W32;
  }

  /** One that the application refuses begins to close, and is answered too. */
  lemma RefusalAnswered(s: Sock, seg: Segment, c: Context, k: int)
    requires InEstablished(s, seg, k) && !c.up.ok && s.connflags <= {PSH}
    ensures var r := SockRx(s, Some(seg), c);
      && r.0.state == ActClose && r.1.Some? && ACK in r.1.value.flags && r.1.value.flags <= {ACK, PSH}
      && r.0.h.recv == s.h.recv + Fresh(s, seg.data, k) && r.1.value.ackNo == r.0.rx.InPtr()
  {
    EstServes(s, seg, c, k);
    ServedIs(s, seg, c, k);
    var u := NewState(Served(s, seg, c, k), ActClose, c.now);
    Sent(u, c.maxdata);
    OnNone(u.rx);
    hide SockRx, Served, EstabTx, Fresh, W32;
  }

  /** Sending takes nothing out of the buffer. */
  lemma SendingKeeps(u: Sock, force: bool, maxdata: nat)
    requires u.Ok()
    ensures var t := EstabTx(u, force, maxdata).0;
      t.tx.out == u.tx.out && t.tx.data == u.tx.data && t.rx == u.rx && t.h.recv == u.h.recv && t.state == u.state
  {
    hide W32, W16;
  }

  lemma ReleasedIs(s: Sock, seg: Segment, n: nat)
    requires s.Ok() && ACK in seg.flags && n <= s.tx.tried && seg.ackNo == On(s.tx.out, n)
    ensures Released(s.tx, seg).out == seg.ackNo && Released(s.tx, seg).data == s.tx.data[n..]
    ensures Released(s.tx, seg).cap == s.tx.cap
  {
    WrapSub(s.tx.out + n, s.tx.out);
    WrapNear(n);
  }

  /** What is acknowledged leaves the transmit buffer, at whose end the application's new
      bytes are. */
  lemma AcknowledgedRemoved(s: Sock, seg: Segment, c: Context, k: int, n: nat)
    requires InEstablished(s, seg, k) && ACK in seg.flags && n <= s.tx.tried && seg.ackNo == On(s.tx.out, n)
    ensures var r := SockRx(s, Some(seg), c);
      && r.0.tx.out == seg.ackNo
      && r.0.tx.data == s.tx.data[n..] + c.up.put[..Min(|c.up.put|, s.tx.cap - (|s.tx.data| - n))]
  {
    hide SockRx, W32, EstabTx, Served, Fresh, Released;
    EstServes(s, seg, c, k);
    ReleasedIs(s, seg, n);
    ServedIs(s, seg, c, k);
    var u := Served(s, seg, c, k);
    SendingKeeps(u, seg.data != [], c.maxdata);
    SendingKeeps(NewState(u, ActClose, c.now), true, c.maxdata);
  }

  lemma FinServes(s: Sock, seg: Segment, c: Context)
    requires s.Ok() && s.state == Est && Ordinary(seg) && FIN in seg.flags && seg.seqNo == s.rx.InPtr()
    ensures var u := Served(s, seg, c, 0);
      SockRx(s, Some(seg), c) ==
        if c.up.ok then Make(NewState(u, LastAck, c.now), {FIN, ACK}, 0)
        else EstabTx(NewState(u, CloseWait, c.now), true, c.maxdata)
  {
    OnNone(s.rx);
    HeaderIs(s, seg, c.now);
    var t0 := NewState(Header(s, Some(seg), c.now), s.state, c.now);
    StoredIs(t0, seg, 0);
    hide EstabRx, Header, W32, EstabTx, Make, CallUp, Fresh, Released;
    assert FIN in RFlags(Some(seg)) && FIN in seg.flags * {FIN, SYN, ACK};
    assert EstabRx(t0, Some(seg)).0 == NewState(Read(s, seg, 0), s.state, c.now);
  }

  lemma Made(u: Sock, flags: set<TFlag>)
    requires u.Ok() && RST !in flags && ACK in flags
    ensures var r := Make(u, flags, 0);
      && r.1.Some? && Acknowledges(r.1.value, r.0, AckDelta(u.state)) && r.1.value.flags == flags
      && r.1.value.data == [] && r.0.rx == u.rx && r.0.state == u.state && r.0.h.recv == u.h.recv
      && r.0.h.finSeen == u.h.finSeen && r.1.value.seqNo == On(u.tx.TrialPtr(), SeqDelta(u.state))
      && r.0.tx == u.tx
  {
    hide W32;
  }

  /** In sequence, with the FIN: the application agrees to close, and the FIN is answered
      with ours; or it does not, and the FIN is acknowledged. */
  lemma FinAnswered(s: Sock, seg: Segment, c: Context)
    requires s.Ok() && s.state == Est && Ordinary(seg) && FIN in seg.flags && seg.seqNo == s.rx.InPtr()
    requires s.connflags <= {PSH}
    ensures var r, n := SockRx(s, Some(seg), c), |Fresh(s, seg.data, 0)|;
      && r.0.state == (if c.up.ok then LastAck else CloseWait) && r.1.Some?
      && ACK in r.1.value.flags && (if c.up.ok then r.1.value.flags == {FIN, ACK} else r.1.value.flags <= {ACK, PSH})
      && r.1.value.ackNo == On(r.0.rx.InPtr(), 1) && r.0.rx.InPtr() == On(s.rx.InPtr(), n)
      && r.0.h.recv == s.h.recv + Fresh(s, seg.data, 0)
  {
    hide SockRx, W32, EstabTx, Make, Served, Fresh, Released;
    FinServes(s, seg, c);
    var u := Served(s, seg, c, 0);
    ServedIs(s, seg, c, 0);
    Sent(NewState(u, CloseWait, c.now), c.maxdata);
    Made(NewState(u, LastAck, c.now), {FIN, ACK});
  }

  // ---- Resets, and sockets that are not open ----

  /** A reset closes, whatever the state; nothing answers it. */
  lemma ResetCloses(s: Sock, seg: Segment, c: Context)
    requires s.Ok() && RST in seg.flags
    ensures var r := SockRx(s, Some(seg), c); r.0.state == Closed && r.1 == None && r.0.h.recv == s.h.recv
  {}

  /** The reset that answers a segment is acceptable to its sender: it has the number that
      the segment acknowledges, and acknowledges all of the segment, SYN and FIN included. */
  predicate Refuses(p: Segment, seg: Segment) {
    && p.flags == {RST, ACK} && p.seqNo == seg.ackNo && p.data == [] && p.window == 0
    && p.ackNo == On(seg.seqNo, |seg.data| + if SYN in seg.flags || FIN in seg.flags then 1 else 0)
  }

  /** A closed socket: a SYN opens it, if the application agrees; all else is refused. */
  lemma ClosedAnswers(s: Sock, seg: Segment, c: Context)
    requires s.Ok() && s.state == Closed && Ordinary(seg)
    ensures var r := SockRx(s, Some(seg), c);
      if seg.flags * {FIN, SYN, ACK} == {SYN} && c.up.ok then
        && r.0.state == SynRcvd && r.1.Some? && r.1.value.flags == {SYN, ACK} && r.1.value.data == []
        && r.1.value.ackNo == On(seg.seqNo, 1) == r.0.rx.InPtr() && r.0.rx.data == [] && r.0.h.recv == []
        && r.1.value.seqNo == On(r.0.tx.out, -1) && r.0.tx.out == W32(c.now * 0x100)
        && r.0.h.rxOpen && r.0.h.txOpen && r.1.value.window == RX_WINDOW
      else r.0.state == Closed && r.1.Some? && Refuses(r.1.value, seg) && r.0.h == s.h
  {
    WrapNear(On(seg.seqNo, 1));
    WrapWrap32(c.now * 0x100);
    hide W32, InLimits;
    assert RFlags(Some(seg)) == seg.flags * {FIN, SYN, ACK};
  }

  lemma WrapWrap32(x: int)
    ensures W32(W32(x)) == W32(x)
  {
    WrapNear(W32(x));
  }

  /** A segment as the other states see it. */
  predicate Arrives(s: Sock, seg: Segment, k: int) {
    s.Ok() && Ordinary(seg) && -TWO31 < k < TWO31 && seg.seqNo == On(s.rx.InPtr(), -k)
  }

  /** How far the receive position is past the segment's number, when its data is in. */
  lemma Beyond(s: Sock, seg: Segment, k: int, d: int)
    requires Arrives(s, seg, k) && -0x1_0000 < d < 0x1_0000
    ensures seg.seqNo == On(Read(s, seg, k).rx.InPtr(), -d) <==> k + |Fresh(s, seg.data, k)| == d
  {
    var n := |Fresh(s, seg.data, k)|;
    InPtrOn(s.rx, Fresh(s, seg.data, k));
    WrapAdd(s.rx.InPtr(), n);
    WrapAdd(s.rx.InPtr() + n, -d);
    FreshFits(s, seg.data, k);
    hide Fresh;
    if W32(s.rx.InPtr() - k) == W32(s.rx.InPtr() + n - d) {
      WrapInjective(s.rx.InPtr() - k, s.rx.InPtr() + n - d);
    }
    hide W32;
  }

  lemma FreshFits(s: Sock, data: seq<Byte>, k: int)
    requires s.Ok()
    ensures |Fresh(s, data, k)| < 0x8000 && (Fresh(s, data, k) != [] ==> k >= 0 && data != [])
  {}

  /** The flags that decide. */
  function Said(seg: Segment): set<TFlag> { seg.flags * {FIN, SYN, ACK} }

  lemma SaidIs(seg: Segment)
    requires Ordinary(seg)
    ensures RFlags(Some(seg)) == Said(seg)
  {}

  // ---- Opening ----

  /** Half open: a bare acknowledgement in sequence, of what has been sent, opens the socket,
      if the application agrees, but not if any of its data has just been stored; a repeat
      of the SYN (one before the receive position) is answered as the first; nothing else
      is answered. */
  lemma SynRcvdAnswers(s: Sock, seg: Segment, c: Context, k: int)
    requires Arrives(s, seg, k) && s.state == SynRcvd
    ensures var r, n := SockRx(s, Some(seg), c), |Fresh(s, seg.data, k)|;
      && r.0.h.recv == s.h.recv + Fresh(s, seg.data, k)
      && if Said(seg) == {ACK} && k + n == 0 && Released(s.tx, seg).out == seg.ackNo then
           r.0.state == (if c.up.ok then Est else ActClose) && r.1 == None
         else
           && r.0.state == SynRcvd
           && (if k + n == 1 then r.1.Some? && r.1.value.flags == {SYN, ACK} && r.1.value.data == []
                 && r.1.value.ackNo == r.0.rx.InPtr() && r.1.value.seqNo == On(r.0.tx.TrialPtr(), -1)
               else r.1 == None)
  {
    ReadIs(s, seg, c.now, k);
    Beyond(s, seg, k, 0);
    Beyond(s, seg, k, 1);
    OnNone(Read(s, seg, k).rx);
    SaidIs(seg);
    hide Header, EstabRx, W32, Fresh, Released;
    var h := Header(s, Some(seg), c.now);
    HeaderIs(s, seg, c.now);
    var t := Read(s, seg, k);
    assert EstabRx(h, Some(seg)).0 == t;
    Made(t, {SYN, ACK});
    CalledUp(t, c.up);
    hide CallUp, Make;
  }

  /** Calling: the SYN goes out with the number before the first byte's. */
  lemma Calls(s: Sock, c: Context)
    requires s.Ok() && s.state == ArpRcvd
    ensures var r := SockRx(s, None, c);
      && r.0.state == SynSent && r.1.Some? && r.1.value.flags == {SYN} && r.1.value.data == []
      && r.0.tx.out == W32(c.now * 100) && r.1.value.seqNo == On(r.0.tx.out, -1) && r.1.value.window == RX_WINDOW
  {
    WrapWrap32(c.now * 100);
    hide W32;
  }

  /** The SYN is answered: that opens the socket, at the number after the peer's, if our own
      is what it acknowledges; anything else is refused. */
  lemma SynSentAnswers(s: Sock, seg: Segment, c: Context)
    requires s.Ok() && s.state == SynSent && Ordinary(seg)
    ensures var r := SockRx(s, Some(seg), c);
      if Said(seg) == {SYN, ACK} && Released(s.tx, seg).out == seg.ackNo then
        && r.0.state == Est && r.1.Some? && r.1.value.flags == {ACK} && r.1.value.data == []
        && r.1.value.ackNo == On(seg.seqNo, 1) == r.0.rx.InPtr() && r.0.rx.data == [] && r.0.h.recv == []
        && r.1.value.seqNo == r.0.tx.TrialPtr()
      else
        r.0.state == SynSent && (if Said(seg) == {} then r.1 == None else r.1.Some? && Refuses(r.1.value, seg))
  {
    hide Header, Released, W32, Make, CallUp, OpenRx;
    HeaderIs(s, seg, c.now);
    SaidIs(seg);
    var t := OpenRx(Header(s, Some(seg), c.now), W32(seg.seqNo + 1));
    OpenedAt(Header(s, Some(seg), c.now), W32(seg.seqNo + 1));
    CalledUp(t, c.up);
    TakesNothing(t, c.up);
    var u := NewState(CallUp(t, c.up), Est, c.now);
    Made(u, {ACK});
    OnNone(u.tx);
    OnNone(u.rx);
  }

  lemma OpenedAt(s: Sock, start: LWord)
    requires s.Ok()
    ensures var t := OpenRx(s, start);
      t.rx.data == [] && t.rx.InPtr() == start && t.h.recv == [] && t.state == s.state && t.tx == s.tx
      && t.rxack == s.rxack
  {
    WrapNear(start);
  }

  lemma TakesNothing(t: Sock, up: Upcall)
    requires t.Ok() && t.rx.data == []
    ensures CallUp(t, up).rx.data == []
  {}

  /** The end of the handshake is not recognised in a segment whose data has just been
      stored: the socket stays half open, and says nothing unless that was a single byte. */
  lemma DataDoesNotOpen(s: Sock, seg: Segment, c: Context)
    requires Arrives(s, seg, 0) && s.state == SynRcvd && |Fresh(s, seg.data, 0)| > 1
    ensures var r := SockRx(s, Some(seg), c);
      r.0.state == SynRcvd && r.1 == None && r.0.h.recv == s.h.recv + Fresh(s, seg.data, 0)
  {
    SynRcvdAnswers(s, seg, c, 0);
  }

  // ---- Closing ----

  /** The application still has not agreed to close: what may be sent is sent; or it agrees,
      and our FIN follows the peer's. Data is no longer taken. */
  lemma CloseWaitAnswers(s: Sock, seg: Segment, c: Context)
    requires s.Ok() && s.state == CloseWait && Ordinary(seg) && s.connflags <= {PSH}
    ensures var r := SockRx(s, Some(seg), c);
      && r.0.h.recv == s.h.recv
      && (if c.up.ok then r.0.state == LastAck && r.1.Some? && r.1.value.flags == {FIN, ACK} && r.1.value.data == []
            && r.1.value.ackNo == On(s.rx.InPtr(), 1) && r.1.value.seqNo == r.0.tx.TrialPtr()
          else r.0.state == CloseWait)
  {
    hide Header, Released, W32, Make, CallUp, EstabTx;
    HeaderIs(s, seg, c.now);
    var t := Header(s, Some(seg), c.now);
    CalledUp(t, c.up);
    var u := NewState(CallUp(t, c.up), LastAck, c.now);
    Made(u, {FIN, ACK});
    OnNone(u.tx);
    SendingKeeps(CallUp(t, c.up), false, c.maxdata);
  }

  /** The last acknowledgement closes: one that begins after the peer's FIN. */
  lemma LastAckAnswers(s: Sock, seg: Segment, c: Context, k: int)
    requires Arrives(s, seg, k) && s.state in {LastAck, Closing}
    ensures var r := SockRx(s, Some(seg), c);
      && r.0.state == (if Said(seg) == {ACK} && k == -1 then Closed else s.state)
      && r.1 == None && r.0.h.recv == s.h.recv
  {
    HeaderIs(s, seg, c.now);
    SaidIs(seg);
    if On(s.rx.InPtr(), -k) == On(s.rx.InPtr(), 1) { WrapInjective(s.rx.InPtr() - k, s.rx.InPtr() + 1); }
    hide Header, W32, Released;
  }

  /** Our own close: as long as there is data that has not been acknowledged, it is sent as
      may be; when there is none, our FIN goes out. Data is still taken. */
  lemma ActCloseAnswers(s: Sock, seg: Segment, c: Context, k: int)
    requires Arrives(s, seg, k) && s.state == ActClose && s.connflags <= {PSH}
    ensures var r := SockRx(s, Some(seg), c);
      && r.0.h.recv == s.h.recv + Fresh(s, seg.data, k)
      && (Released(s.tx, seg).data != [] ==> r.0.state == ActClose && r.0.tx.data == Released(s.tx, seg).data)
      && (Released(s.tx, seg).data == [] ==>
        && r.0.state == FinWait1 && r.1.Some? && r.1.value.flags == {FIN, ACK} && r.1.value.data == []
        && r.1.value.ackNo == r.0.rx.InPtr() && r.1.value.seqNo == r.0.tx.TrialPtr())
  {
    hide Header, EstabRx, Released, W32, Make, CallUp, EstabTx, Fresh;
    ReadIs(s, seg, c.now, k);
    HeaderIs(s, seg, c.now);
    var t := Read(s, seg, k);
    assert EstabRx(Header(s, Some(seg), c.now), Some(seg)).0 == t;
    SendingKeeps(t, false, c.maxdata);
    CalledUp(t, c.up);
    var u := NewState(CallUp(t, c.up), FinWait1, c.now);
    Made(u, {FIN, ACK});
    OnNone(u.tx);
    OnNone(u.rx);
  }

  /** Our FIN is out: with the peer's FIN comes its acknowledgement of ours, or not; or only
      the acknowledgement comes. Ours has the number after the last byte's. */
  lemma FinWait1Answers(s: Sock, seg: Segment, c: Context, k: int)
    requires Arrives(s, seg, k) && s.state == FinWait1 && s.tx.data == []
    ensures var r, n := SockRx(s, Some(seg), c), |Fresh(s, seg.data, k)|;
      var acks := ACK in seg.flags && seg.ackNo == On(s.tx.out, 1);
      var old_ := ACK !in seg.flags || seg.ackNo == On(s.tx.out, 0);
      && r.0.h.recv == s.h.recv + Fresh(s, seg.data, k)
      && (if FIN in seg.flags && k + n == 0 then
            && r.0.state == (if acks then TimedWait else if old_ then Closing else FinWait1)
            && r.1.Some? && r.1.value.flags == {ACK} && r.1.value.data == []
            && r.1.value.ackNo == On(r.0.rx.InPtr(), if acks || old_ then 1 else 0)
            && r.1.value.seqNo == On(r.0.tx.TrialPtr(), if acks || old_ then 1 else 0)
          else r.0.state == (if acks then FinWait2 else FinWait1) && r.1 == None)
  {
    ReadIs(s, seg, c.now, k);
    HeaderIs(s, seg, c.now);
    Beyond(s, seg, k, 0);
    OnNone(Read(s, seg, k).rx);
    NothingReleased(s.tx, seg);
    SaidIs(seg);
    WrapAdd(s.tx.out, 1);
    hide Header, EstabRx, Released, W32, Make, Fresh;
    var t := Read(s, seg, k);
    assert EstabRx(Header(s, Some(seg), c.now), Some(seg)).0 == t;
    Made(NewState(t, TimedWait, c.now), {ACK});
    Made(NewState(t, Closing, c.now), {ACK});
    Made(t, {ACK});
  }

  lemma NothingReleased(b: Buf, seg: Segment)
    requires b.Ok() && b.data == []
    ensures b.TrialPtr() == On(b.out, 0) && Released(b, seg).tried == 0 && Released(b, seg).data == []
    ensures Released(b, seg).TrialPtr() == On(b.out, 0)
  {
    hide W32;
    WrapWrap32(b.out + 0);
    WrapAdd(b.out + 0, 0);
    assert b.TrialPtr() == W32(b.out + 0);
  }

  /** Half closed: data is taken, and the peer's FIN acknowledged. */
  lemma FinWait2Answers(s: Sock, seg: Segment, c: Context, k: int)
    requires Arrives(s, seg, k) && s.state == FinWait2
    ensures var r, n := SockRx(s, Some(seg), c), |Fresh(s, seg.data, k)|;
      && r.0.h.recv == s.h.recv + Fresh(s, seg.data, k)
      && (if FIN in seg.flags && k + n == 0 then
            && r.0.state == TimedWait && r.1.Some? && r.1.value.flags == {ACK} && r.1.value.data == []
            && r.1.value.ackNo == On(r.0.rx.InPtr(), 1) && r.1.value.seqNo == On(r.0.tx.TrialPtr(), 1)
          else r.0.state == FinWait2 && r.1 == None)
  {
    ReadIs(s, seg, c.now, k);
    HeaderIs(s, seg, c.now);
    Beyond(s, seg, k, 0);
    OnNone(Read(s, seg, k).rx);
    SaidIs(seg);
    hide Header, EstabRx, Released, W32, Make, Fresh;
    var t := Read(s, seg, k);
    assert EstabRx(Header(s, Some(seg), c.now), Some(seg)).0 == t;
    Made(NewState(t, TimedWait, c.now), {ACK});
  }

  /** With nothing arriving: these states only pass on. */
  lemma PassesOn(s: Sock, c: Context)
    requires s.Ok()
    ensures var r := SockRx(s, None, c);
      && (s.state in {TimedWait, Reset} ==> r.0.state == Closed && r.1 == None)
      && (s.state == ActOpen ==> r.0.state == (if c.slip then ArpRcvd else ArpSent) && r.1 == None)
      && (s.state in {ArpSent, Closed, SynRcvd, SynSent, FinWait1, FinWait2, LastAck, Closing} ==>
        r.0.state == s.state && r.1 == None)
  {
    hide W32;
  }

  // ---- Sending ----

  /** With nothing arriving, and an application with nothing to say, an established socket
      sends what the peer's window and the frame allow, if nothing is unacknowledged or it
      is a small piece; from the trial position on. */
  lemma SendsWhatMayGo(s: Sock, c: Context)
    requires s.Ok() && s.state == Est && Content(c) && s.rx.out == W32(s.rx.out)
    ensures var r := SockRx(s, None, c);
      var k := Min(Min(|s.tx.data| - s.tx.tried, c.maxdata), s.txwin - s.tx.tried);
      && (r.1.Some? <==> k > 0 && (s.tx.tried == 0 || k < c.maxdata / 2)) && r.0.state == Est
      && (r.1.Some? ==>
        && r.1.value.flags == {ACK} + s.connflags && r.1.value.seqNo == s.tx.TrialPtr()
        && r.1.value.ackNo == s.rx.InPtr() && r.1.value.data == s.tx.data[s.tx.tried..s.tx.tried + k]
        && r.0.tx.tried == s.tx.tried + k)
  {
    NothingTaken(s, c);
    OnNone(s.rx);
    OnNone(s.tx);
    hide W32, CallUp;
    assert SockRx(s, None, c) == EstabTx(s, false, c.maxdata);
  }

  /** A timeout, with retries left, sends the oldest data again, as much as the window and
      the frame allow, and with it the latest acknowledgement. */
  lemma TimeoutRepeats(s: Sock, c: Context)
    requires s.Ok() && s.state in {Est, CloseWait, ActClose} && TimedOut(s, c.now) && s.retries >= 0
    requires s.tx.out == W32(s.tx.out)
    ensures var r := Poll(s, c);
      var k := Min(Min(|s.tx.data|, c.maxdata), s.txwin);
      && r.1.Some? && r.1.value.flags == {ACK} + s.connflags && r.1.value.seqNo == s.tx.out
      && r.1.value.ackNo == On(s.rx.InPtr(), if s.state == CloseWait then 1 else 0)
      && r.1.value.data == s.tx.data[..k] && r.0.tx == s.tx.(tried := k)
      && r.0.state == s.state && r.0.time == c.now && r.0.timeout == 2 * s.timeout && r.0.retries == s.retries - 1
  {
    OnNone(s.tx);
    assert W32(s.tx.out + 0) == s.tx.out;
    hide W32;
    var k := Min(Min(|s.tx.data|, c.maxdata), s.txwin);
    assert s.tx.data[0..0 + k] == s.tx.data[..k];
  }

  /** In the other states it makes the last segment again, with the same numbers: a SYN has
      the one before the first byte, what comes after our FIN the one after it. */
  lemma TimeoutRemakes(s: Sock, c: Context)
    requires s.Ok() && s.state in {SynRcvd, SynSent, LastAck, FinWait1, FinWait2, Closing}
    requires TimedOut(s, c.now) && s.retries >= 0
    ensures var r := Poll(s, c);
      var seqs := if s.state in {SynRcvd, SynSent} then -1 else if s.state in {FinWait2, Closing} then 1 else 0;
      var acks := if s.state in {LastAck, Closing} then 1 else 0;
      && r.1 == Some(Segment(s.txflags, On(s.tx.TrialPtr(), seqs), On(s.rx.InPtr(), acks), s.rxwin, []))
      && r.0.state == s.state && r.0.tx == s.tx && r.0.timeout == 2 * s.timeout && r.0.retries == s.retries - 1
  {
    hide W32;
    assert s.tx.data[s.tx.tried..s.tx.tried + 0] == [];
  }

  /** With none left, the socket closes, and says so. */
  lemma TimeoutCloses(s: Sock, c: Context)
    requires s.Ok() && s.state != Closed && TimedOut(s, c.now) && s.retries < 0
    ensures var r := Poll(s, c); r.0.state == Closed && r.1.Some? && r.1.value.flags == {RST} && r.1.value.data == []
  {
    hide W32;
  }

  /** A socket that has no timer, or whose interval has not passed, only sends what it may;
      times are true times in milliseconds, up to 2^31 apart. */
  lemma NotYet(s: Sock, c: Context, last: nat, at: nat)
    requires s.Ok() && s.state != Closed && s.time == W32(last) && c.now == W32(at) && last <= at < last + TWO31
    requires s.timeout == 0 || at - last < s.timeout
    ensures Poll(s, c) == SockRx(s, None, c)
  {
    Elapsed(last, at);
    hide SockRx, W32, Signed32, Expire;
  }

  // ---- What the user asks for ----

  /** A connection, or one that is half open, begins to close; anything else stays as it is. */
  lemma UserCloses(s: Sock, now: LWord)
    requires s.Ok()
    ensures var t := CloseSock(s, now);
      && t.state == (if s.state in {Est, SynRcvd} then ActClose else s.state)
      && t.rx == s.rx && t.tx == s.tx && t.h.recv == s.h.recv && t.h.sent == s.h.sent
  {}

  /** A reset is sent from anything but a closed socket. */
  lemma UserResets(s: Sock)
    requires s.Ok()
    ensures var r := ResetSock(s);
      && r.0.state == s.state && (r.1.Some? <==> s.state != Closed)
      && (r.1.Some? ==> r.1.value.flags == {RST} && r.1.value.data == [])
  {
    hide W32;
  }
}
