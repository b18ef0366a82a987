/** Two connected SCRATCHP nodes and the network between them, which may lose,
    duplicate and reorder packets. Each direction's byte stream is delivered safely
    in every run, although the nodes only see 32-bit positions that wrap. */
module ScratchpNet {
  import opened Words
  import opened Wrappers
  import opened CircBuff
  import opened Scratchp

  /** A packet in flight, with the unwrapped stream positions its two header fields
      stood for when it was made. Nodes see only `p`. */
  datatype Envelope = Envelope(p: Packet, at: nat, ack: nat)

  /** A node and the history of its two streams: all bytes its application ever put
      (`sent`), how many of them have left its buffer (`out`), the furthest position
      its trial pointer has reached (`high`), all bytes it ever accepted (`recv`) and
      those its application has taken (`got`). `iss` is where its stream starts. */
  datatype End = End(n: Node, iss: LWord, sent: seq<Byte>, out: nat, high: nat,
                     recv: seq<Byte>, got: seq<Byte>)

  /** Envelopes ever sent towards a and towards b: delivery does not use one up. */
  datatype Net = Net(a: End, b: End, toA: set<Envelope>, toB: set<Envelope>)

  datatype Act =
    | Deliver(e: Envelope)
    | Poll(sig: Signal)
    | AppPut(bytes: seq<Byte>)
    | AppGet(maxlen: nat)
    | AppTry(maxlen: nat)
    | AppRetry(maxlen: nat)

  datatype Move = ByA(act: Act) | ByB(act: Act) | LoseToA(e: Envelope) | LoseToB(e: Envelope)

  // ---- What one end does ----

  /** The history after the state machine has run: whatever has gone from the transmit
      buffer has been acknowledged, whatever is new in the receive buffer accepted. */
  function Track(x: End, m: Node): (r: End) {
    var out := Max(|x.sent| - |m.tx.data|, 0);
    var had := |x.n.rx.data|;
    var acc := if had <= |m.rx.data| then m.rx.data[had..] else [];
    x.(n := m, out := out, high := Max(x.high, out + m.tx.tried), recv := x.recv + acc)
  }

  function Stamp(x: End, p: Option<Packet>): (r: set<Envelope>) {
    if p.None? then {}
    else {Envelope(p.value, Max(x.out + x.n.tx.tried - |p.value.data|, 0), |x.recv|)}
  }

  /** A user may not open a new connection in this run; signals that stand for
      received flags only come with a packet (an echo client may raise Stop). */
  predicate LocalSignal(sig: Signal) {
    sig in {NoSig, Timeout, Fail, Stop, UserClose, UserOther}
  }

  /** A packet may arrive as long as its positions are less than 2^31 away. */
  predicate Enabled(x: End, toX: set<Envelope>, act: Act) {
    match act
    case Deliver(e) =>
      && e in toX
      && -TWO31 < e.at - |x.recv| < TWO31
      && -TWO31 < e.ack - x.out < TWO31
    case Poll(sig) => LocalSignal(sig)
    case _ => true
  }

  /** The histories fit the buffers, and the window is respected. */
  predicate Fits(x: End) {
    && x.n.Ok() && x.n.tx.tried <= WINDOW_SIZE && x.n.state in {Idle, Connected, Close}
    && |x.sent| == x.out + |x.n.tx.data| && x.sent[x.out..] == x.n.tx.data
    && x.recv == x.got + x.n.rx.data
  }

  /** What x does: its new state, and what it sends. */
  function Perform(x: End, act: Act): (r: (End, set<Envelope>))
    requires x.n.Ok()
    ensures r.0.n.Ok()
  {
    match act
    case Deliver(e) =>
      var (m, p) := Step(x.n, Some(e.p), NoSig);
      (Track(x, m), Stamp(Track(x, m), p))
    case Poll(sig) =>
      var (m, p) := Step(x.n, None, sig);
      (Track(x, m), Stamp(Track(x, m), p))
    case AppPut(bytes) =>
      (x.(n := x.n.(tx := x.n.tx.Put(bytes)), sent := x.sent + bytes[..x.n.tx.PutCount(bytes)]), {})
    case AppGet(maxlen) =>
      (x.(n := x.n.(rx := x.n.rx.AfterOut(maxlen)), got := x.got + x.n.rx.OutBytes(maxlen)), {})
    case AppTry(maxlen) => (x.(n := x.n.(rx := x.n.rx.AfterTry(maxlen))), {})
    case AppRetry(maxlen) => (x.(n := x.n.(rx := x.n.rx.AfterRetry(maxlen))), {})
  }

  // ---- What the state machine can do to the two buffers ----

  /** rx has only grown, by acc; tx has lost its first k bytes. */
  predicate Effect(n: Node, rx: Option<Packet>, m: Node, p: Option<Packet>, k: nat, acc: seq<Byte>) {
    && m.Ok() && m.state in {Idle, Connected, Close} && m.tx.tried <= WINDOW_SIZE
    && m.rx.out == n.rx.out && m.rx.data == n.rx.data + acc
    && (acc != [] ==> rx.Some? && rx.value.seqNo == n.rx.InPtr() && acc <= rx.value.data)
    && k <= |n.tx.data| && m.tx.data == n.tx.data[k..] && m.tx.out == W32(n.tx.out + k)
    && (k != 0 ==> rx.Some? && k <= n.tx.tried && k == W32(rx.value.ackNo - n.tx.out))
    && (p.Some? ==>
      var d := p.value.data;
      && |d| <= m.tx.tried && d == m.tx.data[m.tx.tried - |d|..m.tx.tried]
      && p.value.seqNo == W32(m.tx.out + (m.tx.tried - |d|))
      && p.value.ackNo == m.rx.InPtr() && FStart !in p.value.flags)
  }

  lemma AbsorbEffect(n: Node, p: Packet) returns (k: nat, acc: seq<Byte>)
    requires n.Ok() && n.tx.tried <= WINDOW_SIZE && n.state == Connected
    ensures var (m, q, force) := Absorb(n, p); Effect(n, Some(p), m, q, k, acc)
    ensures Absorb(n, p).1.Some? ==> Absorb(n, p).1.value.data == []
  {
    WrapZero(n.rx.InPtr(), p.seqNo);
    acc := if W32(n.rx.InPtr() - p.seqNo) == 0 then p.data[..n.rx.PutCount(p.data)] else [];
    var acked := W32(p.ackNo - n.tx.out);
    k := if acked <= n.tx.tried then acked else 0;
    assert n.tx.data[0..] == n.tx.data;
    WrapNear(n.tx.out);
  }

  lemma WrapZero(x: LWord, y: LWord)
    ensures W32(x - y) == 0 <==> x == y
  {
    WrapNear(x - y);
  }

  lemma EmitEffect(n: Node, force: bool, made: Option<Packet>)
    requires n.Ok() && n.tx.tried <= WINDOW_SIZE && n.state in {Idle, Connected, Close}
    requires made.Some? ==> Effect(n, None, n, made, 0, []) && made.value.data == []
    ensures var (m, p) := Emit(n, force, made); Effect(n, None, m, p, 0, [])
  {
    WrapNear(WINDOW_SIZE - n.tx.tried);
    WrapNear(n.tx.out);
    assert n.tx.data[0..] == n.tx.data && n.rx.data + [] == n.rx.data;
  }

  lemma TransferEffect(n: Node, rx: Option<Packet>, timeout: bool) returns (k: nat, acc: seq<Byte>)
    requires n.Ok() && n.tx.tried <= WINDOW_SIZE && n.state == Connected
    ensures var (m, p) := Transfer(n, rx, timeout); Effect(n, rx, m, p, k, acc)
  {
    hide Absorb, Emit;
    var n1 := Rewind(n, timeout);
    if rx.None? {
      k, acc := 0, [];
      EmitEffect(n1, timeout, None);
    } else {
      k, acc := AbsorbEffect(n1, rx.value);
      var (n2, made, force) := Absorb(n1, rx.value);
      assert n2.tx.data[0..] == n2.tx.data && n2.rx.data + [] == n2.rx.data;
      WrapNear(n2.tx.out);
      EmitEffect(n2, timeout || force, made);
    }
  }

  lemma StepEffect(n: Node, rx: Option<Packet>, sig: Signal)
    requires n.Ok() && n.tx.tried <= WINDOW_SIZE && n.state in {Idle, Connected, Close}
    requires if rx.Some? then FStart !in rx.value.flags && sig == NoSig else LocalSignal(sig)
    ensures var (m, p) := Step(n, rx, sig); exists k, acc :: Effect(n, rx, m, p, k, acc)
  {
    hide Transfer;
    var (m, p) := Step(n, rx, sig);
    var s := if rx.Some? then SignalOf(rx.value.flags, sig) else sig;
    if n.state == Connected && (s == Timeout || s == Conn || s == NoSig) {
      var k, acc := TransferEffect(n, rx, s == Timeout);
    } else {
      assert n.tx.data[0..] == n.tx.data && n.rx.data + [] == n.rx.data;
      WrapNear(n.tx.out);
      assert Effect(n, rx, m, p, 0, []);
    }
  }

  // ---- The invariant ----

  /** The stream from x to y: what x has sent, what y has of it, and every packet
      in flight, on data positions (towards y) and acknowledgements (towards x). */
  ghost predicate Stream(x: End, y: End, toX: set<Envelope>, toY: set<Envelope>) {
    && x.n.tx.out == W32(x.iss + x.out)
    && y.n.rx.InPtr() == W32(x.iss + |y.recv|)
    && x.out <= |y.recv| <= x.high <= |x.sent|
    && x.out + x.n.tx.tried <= x.high
    && y.recv == x.sent[..|y.recv|]
    && (forall e :: e in toY ==> Carries(x, e))
    && (forall e :: e in toX ==> e.ack <= |y.recv| && e.p.ackNo == W32(x.iss + e.ack))
  }

  ghost predicate Carries(x: End, e: Envelope) {
    && FStart !in e.p.flags
    && e.at + |e.p.data| <= x.high <= |x.sent|
    && e.p.seqNo == W32(x.iss + e.at)
    && e.p.data == x.sent[e.at..e.at + |e.p.data|]
  }

  ghost predicate Inv(x: End, y: End, toX: set<Envelope>, toY: set<Envelope>) {
    Fits(x) && Fits(y) && Stream(x, y, toX, toY) && Stream(y, x, toY, toX)
  }

  // ---- Every action keeps the invariant ----

  /** An acknowledgement removes exactly the bytes up to its unwrapped position. */
  lemma AckPosition(x: End, e: Envelope, k: nat)
    requires x.n.Ok() && x.n.tx.out == W32(x.iss + x.out)
    requires e.p.ackNo == W32(x.iss + e.ack) && -TWO31 < e.ack - x.out < TWO31
    requires k == W32(e.p.ackNo - x.n.tx.out) && k <= x.n.tx.tried
    ensures x.out + k == e.ack
  {
    WrapSub(x.iss + e.ack, x.iss + x.out);
    assert (x.iss + e.ack) - (x.iss + x.out) == e.ack - x.out;
    WrapNear(e.ack - x.out);
  }

  /** Data is accepted only at the receiver's own unwrapped position. */
  lemma DataPosition(x: End, y: End, e: Envelope)
    requires x.n.rx.InPtr() == W32(y.iss + |x.recv|) == e.p.seqNo == W32(y.iss + e.at)
    requires -TWO31 < e.at - |x.recv| < TWO31
    ensures e.at == |x.recv|
  {
    WrapInjective(y.iss + e.at, y.iss + |x.recv|);
  }

  /** A packet made from the bytes just tried carries a piece of the stream. */
  lemma StampCarries(x: End, p: Option<Packet>)
    requires x.n.Ok() && x.n.tx.out == W32(x.iss + x.out) && x.out + x.n.tx.tried <= x.high <= |x.sent|
    requires x.n.tx.data == x.sent[x.out..]
    requires p.Some? ==>
      var d, t := p.value.data, x.n.tx.tried;
      && |d| <= t && d == x.n.tx.data[t - |d|..t] && FStart !in p.value.flags
      && p.value.seqNo == W32(x.n.tx.out + (t - |d|))
    ensures forall e :: e in Stamp(x, p) ==> Carries(x, e)
  {
    if p.Some? {
      var d, t := p.value.data, x.n.tx.tried;
      WrapAdd(x.iss + x.out, t - |d|);
      assert x.sent[x.out..][t - |d|..t] == x.sent[x.out + t - |d|..x.out + t];
    }
  }

  /** What x's run of the state machine does to the stream it sends. */
  lemma SenderStream(x: End, y: End, toX: set<Envelope>, toY: set<Envelope>,
                     rx: Option<Packet>, m: Node, p: Option<Packet>, k: nat, acc: seq<Byte>)
    requires Inv(x, y, toX, toY) && Effect(x.n, rx, m, p, k, acc) && x.out + k <= |y.recv|
    ensures var x' := Track(x, m);
      Stream(x', y, toX, toY + Stamp(x', p))
  {
    hide W32;
    var x' := Track(x, m);
    assert x'.out == x.out + k;
    WrapAdd(x.iss + x.out, k);
    assert m.tx.data == x.sent[x'.out..];
    forall e | e in toY + Stamp(x', p) ensures Carries(x', e) {
      if e in toY { assert Carries(x, e); } else { StampCarries(x', p); }
    }
  }

  /** What x's run of the state machine does to the stream it receives. */
  lemma ReceiverStream(x: End, y: End, toX: set<Envelope>, toY: set<Envelope>,
                       rx: Option<Packet>, m: Node, p: Option<Packet>, k: nat, acc: seq<Byte>)
    requires Inv(x, y, toX, toY) && Effect(x.n, rx, m, p, k, acc)
    requires acc != [] ==> |x.recv| + |acc| <= y.high && acc == y.sent[|x.recv|..|x.recv| + |acc|]
    ensures var x' := Track(x, m);
      Stream(y, x', toY + Stamp(x', p), toX)
  {
    var x' := Track(x, m);
    assert x'.recv == x.recv + acc == y.sent[..|x'.recv|];
    WrapAdd(x.n.rx.out + |x.n.rx.data|, |acc|);
    WrapAdd(y.iss + |x.recv|, |acc|);
  }

  lemma TrackFits(x: End, rx: Option<Packet>, m: Node, p: Option<Packet>, k: nat, acc: seq<Byte>)
    requires Fits(x) && Effect(x.n, rx, m, p, k, acc)
    ensures Fits(Track(x, m))
  {
    var x' := Track(x, m);
    assert x.sent[x'.out..] == x.sent[x.out..][k..];
    assert x.n.rx.data + acc == m.rx.data;
  }

  lemma EffectKeeps(x: End, y: End, toX: set<Envelope>, toY: set<Envelope>, act: Act,
                    rx: Option<Packet>, m: Node, p: Option<Packet>, k: nat, acc: seq<Byte>)
    requires Inv(x, y, toX, toY) && Enabled(x, toX, act)
    requires Effect(x.n, rx, m, p, k, acc)
    requires rx.Some? ==> act.Deliver? && act.e.p == rx.value
    ensures var x' := Track(x, m); Inv(x', y, toX, toY + Stamp(x', p))
  {
    if rx.Some? { assert Carries(y, act.e); }
    if k != 0 { AckPosition(x, act.e, k); }
    if acc != [] {
      DataPosition(x, y, act.e);
      assert acc == act.e.p.data[..|acc|];
    }
    SenderStream(x, y, toX, toY, rx, m, p, k, acc);
    ReceiverStream(x, y, toX, toY, rx, m, p, k, acc);
    TrackFits(x, rx, m, p, k, acc);
  }

  lemma StepKeeps(x: End, y: End, toX: set<Envelope>, toY: set<Envelope>, act: Act)
    requires Inv(x, y, toX, toY) && Enabled(x, toX, act) && (act.Deliver? || act.Poll?)
    ensures var (x', es) := Perform(x, act); Inv(x', y, toX, toY + es)
  {
    var rx := if act.Deliver? then Some(act.e.p) else None;
    var sig := if act.Deliver? then NoSig else act.sig;
    assert act.Deliver? ==> Carries(y, act.e);
    StepEffect(x.n, rx, sig);
    var r := Step(x.n, rx, sig);
    var k, acc :| Effect(x.n, rx, r.0, r.1, k, acc);
    EffectKeeps(x, y, toX, toY, act, rx, r.0, r.1, k, acc);
  }

  lemma AppPutKeeps(x: End, y: End, toX: set<Envelope>, toY: set<Envelope>, bytes: seq<Byte>)
    requires Inv(x, y, toX, toY)
    ensures var (x', es) := Perform(x, AppPut(bytes)); es == {} && Inv(x', y, toX, toY)
  {
    hide W32;
    var x' := Perform(x, AppPut(bytes)).0;
    assert x'.sent[x.out..] == x.sent[x.out..] + bytes[..x.n.tx.PutCount(bytes)];
    forall e | e in toY ensures Carries(x', e) { assert Carries(x, e); }
  }

  lemma AppGetKeeps(x: End, y: End, toX: set<Envelope>, toY: set<Envelope>, maxlen: nat)
    requires Inv(x, y, toX, toY)
    ensures var (x', es) := Perform(x, AppGet(maxlen)); es == {} && Inv(x', y, toX, toY)
  {
    hide W32;
    var c := Min(maxlen, |x.n.rx.data|);
    assert x.n.rx.data == x.n.rx.data[..c] + x.n.rx.data[c..];
    WrapAdd(x.n.rx.out + c, |x.n.rx.data| - c);
    assert Perform(x, AppGet(maxlen)).0.n.rx.InPtr() == x.n.rx.InPtr();
    forall e | e in toY ensures Carries(Perform(x, AppGet(maxlen)).0, e) { assert Carries(x, e); }
  }

  lemma AppKeeps(x: End, y: End, toX: set<Envelope>, toY: set<Envelope>, act: Act)
    requires Inv(x, y, toX, toY) && Enabled(x, toX, act) && !act.Deliver? && !act.Poll?
    ensures var (x', es) := Perform(x, act); Inv(x', y, toX, toY + es)
  {
    hide Step, W32;
    if act.AppPut? { AppPutKeeps(x, y, toX, toY, act.bytes); }
    if act.AppGet? { AppGetKeeps(x, y, toX, toY, act.maxlen); }
    assert toY + Perform(x, act).1 == toY;
  }

  lemma ActKeeps(x: End, y: End, toX: set<Envelope>, toY: set<Envelope>, act: Act)
    requires Inv(x, y, toX, toY) && Enabled(x, toX, act)
    ensures var (x', es) := Perform(x, act); Inv(x', y, toX, toY + es)
  {
    if act.Deliver? || act.Poll? {
      StepKeeps(x, y, toX, toY, act);
    } else {
      AppKeeps(x, y, toX, toY, act);
    }
  }

  // ---- Whole runs ----

  predicate Allowed(s: Net, mv: Move) {
    match mv
    case ByA(act) => Enabled(s.a, s.toA, act)
    case ByB(act) => Enabled(s.b, s.toB, act)
    case _ => true
  }

  predicate Ok(s: Net) { s.a.n.Ok() && s.b.n.Ok() }

  function Next(s: Net, mv: Move): (s': Net)
    requires Ok(s)
    ensures Ok(s')
  {
    match mv
    case ByA(act) => var (x, es) := Perform(s.a, act); s.(a := x, toB := s.toB + es)
    case ByB(act) => var (x, es) := Perform(s.b, act); s.(b := x, toA := s.toA + es)
    case LoseToA(e) => s.(toA := s.toA - {e})
    case LoseToB(e) => s.(toB := s.toB - {e})
  }

  function Run(s: Net, moves: seq<Move>): (s': Net)
    requires Ok(s)
    ensures Ok(s')
    decreases |moves|
  { if moves == [] then s else Run(Next(s, moves[0]), moves[1..]) }

  predicate AllAllowed(s: Net, moves: seq<Move>)
    requires Ok(s)
    decreases |moves|
  { moves == [] || (Allowed(s, moves[0]) && AllAllowed(Next(s, moves[0]), moves[1..])) }

  /** Two nodes connected to each other, with matching pointers and nothing sent yet. */
  predicate Connection(s: Net) {
    && Ok(s) && s.toA == s.toB == {}
    && Matched(s.a, s.b) && Matched(s.b, s.a)
  }

  predicate Matched(x: End, y: End) {
    && x.n.state == Connected
    && x.n.tx == Buf(x.n.tx.cap, x.iss, [], 0) && y.n.rx == Buf(y.n.rx.cap, x.iss, [], 0)
    && x.sent == x.recv == x.got == [] && x.out == x.high == 0
  }

  ghost predicate Good(s: Net) { Inv(s.a, s.b, s.toA, s.toB) }

  lemma {:induction false} RunKeeps(s: Net, moves: seq<Move>)
    requires Ok(s) && Good(s) && AllAllowed(s, moves)
    ensures Good(Run(s, moves))
    decreases |moves|
  {
    if moves != [] {
      var mv := moves[0];
      match mv {
        case ByA(act) => ActKeeps(s.a, s.b, s.toA, s.toB, act);
        case ByB(act) => ActKeeps(s.b, s.a, s.toB, s.toA, act);
        case _ =>
      }
      RunKeeps(Next(s, mv), moves[1..]);
    }
  }

  lemma ConnectionGood(s: Net)
    requires Connection(s)
    ensures Good(s)
  {
    WrapNear(s.a.iss);
    WrapNear(s.b.iss);
  }

  /** Stream safety: in every state of every run of a connection, in both directions at
      once, what a node has accepted is a prefix of what its peer's application has put
      in, and what its application has read is a prefix of that. */
  lemma StreamSafety(s: Net, moves: seq<Move>)
    requires Connection(s) && AllAllowed(s, moves)
    ensures var t := Run(s, moves);
      && t.b.got <= t.b.recv <= t.a.sent
      && t.a.got <= t.a.recv <= t.b.sent
  {
    ConnectionGood(s);
    RunKeeps(s, moves);
  }

  /** No byte leaves the sender's buffer before the receiver has stored it, no byte is
      stored that was never tried, and the bytes on trial never exceed the window, so
      the 16-bit window left over is never negative. */
  lemma RetentionAndWindow(s: Net, moves: seq<Move>)
    requires Connection(s) && AllAllowed(s, moves)
    ensures var t := Run(s, moves);
      && Retained(t.a, t.b) && Retained(t.b, t.a)
      && W16(WINDOW_SIZE - t.a.n.tx.tried) == WINDOW_SIZE - t.a.n.tx.tried
      && W16(WINDOW_SIZE - t.b.n.tx.tried) == WINDOW_SIZE - t.b.n.tx.tried
  {
    ConnectionGood(s);
    RunKeeps(s, moves);
  }

  /** out <= peer's in <= highest trial ever <= in, and the buffer holds all from out on. */
  predicate Retained(x: End, y: End) {
    && x.out <= |y.recv| <= x.high <= |x.sent|
    && x.out + x.n.tx.tried <= x.high
    && x.n.tx.data == x.sent[x.out..]
  }

  // ---- Such runs exist ----

  lemma SendsData(n: Node, bytes: seq<Byte>)
    requires n.Ok() && n.state == Connected && n.tx.data == [] && n.tx.tried == 0
    requires 0 < |bytes| <= MAX_DATA && |bytes| <= n.tx.cap
    ensures var (m, p) := Step(n.(tx := n.tx.Put(bytes)), None, NoSig);
      && m.tx.data == bytes && m.tx.tried == |bytes| && m.rx == n.rx
      && p == Some(Packet({FConn}, W32(n.tx.out + 0), n.rx.InPtr(), bytes))
  {
    WrapNear(WINDOW_SIZE);
    assert W16(WINDOW_SIZE - 0) == WINDOW_SIZE;
    assert bytes[..|bytes|] == bytes && [] + bytes == bytes;
    hide W32, W16;
  }

  lemma TakesData(n: Node, p: Packet)
    requires n.Ok() && n.state == Connected && n.rx.data == [] && p.flags == {FConn}
    requires p.seqNo == n.rx.InPtr() && |p.data| <= n.rx.cap
    ensures Step(n, Some(p), NoSig).0.rx.data == p.data
  {
    WrapZero(n.rx.InPtr(), p.seqNo);
    assert p.data[..|p.data|] == p.data && [] + p.data == p.data;
    hide W32, W16;
    assert SignalOf(p.flags, NoSig) == Conn;
  }

  /** From any connection there is a run in which any bytes that fit a packet and the
      buffers are delivered. */
  lemma ConnectionWorks(s: Net, bytes: seq<Byte>) returns (moves: seq<Move>)
    requires Connection(s) && 0 < |bytes| <= MAX_DATA && |bytes| <= s.a.n.tx.cap && |bytes| <= s.b.n.rx.cap
    ensures AllAllowed(s, moves) && Run(s, moves).b.recv == bytes
  {
    var m1, m2 := ByA(AppPut(bytes)), ByA(Poll(NoSig));
    SendsData(s.a.n, bytes);
    assert bytes[..|bytes|] == bytes && [] + bytes == bytes;
    WrapNear(s.a.iss);
    hide Step, W32;
    var s1 := Next(s, m1);
    var s2 := Next(s1, m2);
    var p := Packet({FConn}, W32(s.a.n.tx.out + 0), s.a.n.rx.InPtr(), bytes);
    var e := Envelope(p, 0, 0);
    assert s2.toB == {e};
    var m3 := ByB(Deliver(e));
    TakesData(s.b.n, p);
    var s3 := Next(s2, m3);
    assert [m1, m2, m3][1..] == [m2, m3] && [m2, m3][1..] == [m3] && [m3][1..] == [];
    moves := [m1, m2, m3];
    assert Allowed(s, m1) && Allowed(s1, m2) && Allowed(s2, m3);
    assert s3.b.recv == bytes;
    hide Next, Allowed;
    assert Run(s, moves) == Run(s1, [m2, m3]) == Run(s2, [m3]) == Run(s3, []);
    assert AllAllowed(s3, []) && AllAllowed(s2, [m3]) && AllAllowed(s1, [m2, m3]);
  }
}
