/** The SCRATCHP node of SCRATCHP.C: its connection state machine, whose sequence and
    acknowledgement values are the buffers' own absolute 32-bit pointers. */
module Scratchp {
  import opened Words
  import opened Wrappers
  import opened CircBuff
  import opened RingBuff

  const MAX_DATA := 994
  const WINDOW_SIZE := 3000

  datatype Flag = FCmd | FResp | FStart | FConn | FStop | FErr

  /** A packet: its header, and its data after any command string. */
  datatype Packet = Packet(flags: set<Flag>, seqNo: LWord, ackNo: LWord, data: seq<Byte>)

  datatype ConnState = Idle | Open | Connected | Close

  datatype Signal =
    | NoSig | Cmd | Resp | Start | Conn | Stop | Err | Timeout | Fail | UserClose | UserOther

  /** What a node is: its connection state, its two buffers, and the receive position
      it had reached when it last transmitted. */
  datatype Node = Node(state: ConnState, tx: Buf, rx: Buf, txack: LWord) {
    predicate Ok() { tx.Ok() && rx.Ok() }
  }

  /** Flags are converted to signals in this order of precedence. */
  function SignalOf(flags: set<Flag>, sig: Signal): Signal {
    if FErr in flags then Err
    else if FStop in flags then Stop
    else if FCmd in flags then Cmd
    else if FResp in flags then Resp
    else if FStart in flags then Start
    else if FConn in flags then Conn
    else sig
  }

  function Make(n: Node, flag: Flag, data: seq<Byte>): Packet {
    Packet({flag}, n.tx.TrialPtr(), n.rx.InPtr(), data)
  }

  /** A packet without data in answer, or on request; the node changes state. */
  function Answer(n: Node, flag: Flag, state: ConnState): (Node, Option<Packet>) {
    (n.(state := state), Some(Make(n, flag, [])))
  }

  /** Received data and acknowledgement, in the connected state. */
  function Absorb(n: Node, p: Packet): (r: (Node, Option<Packet>, bool))
    requires n.Ok()
    ensures r.0.Ok()
  {
    var oldrx := W32(n.rx.InPtr() - p.seqNo);
    var rx := if oldrx == 0 then n.rx.Put(p.data) else n.rx;
    var acked := W32(p.ackNo - n.tx.out);
    var tx := if acked <= n.tx.tried then n.tx.AfterOut(acked) else n.tx;
    var bad := oldrx > WINDOW_SIZE || acked > n.tx.tried;
    var force := 0 < oldrx <= WINDOW_SIZE || W32(rx.InPtr() - n.txack) >= WINDOW_SIZE / 2;
    var m := Node(if bad then Idle else n.state, tx, rx, n.txack);
    (m, if bad then Some(Make(m, FErr, [])) else None, force)
  }

  /** Transmit new data if the window allows any, or an empty packet if forced;
      this replaces any packet already made. */
  function Emit(n: Node, force: bool, made: Option<Packet>): (r: (Node, Option<Packet>))
    requires n.Ok()
    ensures r.0.Ok()
  {
    var txw := W16(WINDOW_SIZE - n.tx.tried);
    var trylen := Min(n.tx.Untried(), Min(MAX_DATA, txw));
    if trylen > 0 || force then
      (n.(tx := n.tx.AfterTry(trylen), txack := n.rx.InPtr()),
       Some(Make(n, FConn, n.tx.TryBytes(trylen))))
    else (n, made)
  }

  /** A timeout rewinds the trial pointer over everything unacknowledged. */
  function Rewind(n: Node, timeout: bool): (r: Node)
    requires n.Ok()
    ensures r.Ok()
  { if timeout then n.(tx := n.tx.AfterRetry(n.tx.tried)) else n }

  /** Normal running while connected: timeout, received packet, transmission. */
  function Transfer(n: Node, rx: Option<Packet>, timeout: bool): (r: (Node, Option<Packet>))
    requires n.Ok()
    ensures r.0.Ok()
  {
    var n1 := Rewind(n, timeout);
    if rx.None? then Emit(n1, timeout, None)
    else
      var (n2, made, force) := Absorb(n1, rx.value);
      Emit(n2, timeout || force, made)
  }

  function ConnectedStep(n: Node, rx: Option<Packet>, sig: Signal): (r: (Node, Option<Packet>))
    requires n.Ok()
    ensures r.0.Ok()
  {
    if sig == Timeout || sig == Conn || sig == NoSig then Transfer(n, rx, sig == Timeout)
    else if sig == Start then Answer(n, FConn, n.state)
    else if sig == UserClose then Answer(n, FStop, Close)
    else if sig == Stop then Answer(n, FStop, Idle)
    else if sig == Err then (n.(state := Idle), None)
    else if sig == Fail then Answer(n, FErr, Idle)
    else (n, None)
  }

  /** One call of the state machine. */
  function Step(n: Node, rx: Option<Packet>, sig0: Signal): (r: (Node, Option<Packet>))
    requires n.Ok()
    ensures r.0.Ok()
  {
    var sig := if rx.Some? then SignalOf(rx.value.flags, sig0) else sig0;
    match n.state
    case Idle =>
      if sig == Start && rx.Some? then
        var start := rx.value.seqNo;
        Answer(n.(tx := n.tx.AllAt(0x8001), rx := n.rx.AllAt(start), txack := start), FConn, Connected)
      else if sig == Conn || sig == Stop then Answer(n, FErr, Idle)
      else (n, None)
    case Open =>
      if (sig == Start || sig == Conn) && rx.Some? then
        Answer(n.(rx := n.rx.AllAt(rx.value.seqNo)), FConn, Connected)
      else if sig == Stop then Answer(n, FStop, Idle)
      else if sig == Err || sig == Fail then (n.(state := Idle), None)
      else if sig == Timeout then Answer(n, FStart, Open)
      else (n, None)
    case Connected => ConnectedStep(n, rx, sig)
    case Close =>
      if sig == Stop || sig == Err then (n.(state := Idle), None)
      else if sig == Timeout then Answer(n, FStop, Close)
      else (n, None)
  }

  /** The node as the program keeps it. */
  class ScratchpNode {
    var connstate: ConnState
    var txack: LWord
    const txbuff: CBuff
    const rxbuff: CBuff

    ghost predicate Valid()
      reads this, txbuff, rxbuff, txbuff.data, rxbuff.data
    {
      && txbuff != rxbuff && txbuff.data != rxbuff.data
      && txbuff.Valid() && rxbuff.Valid()
    }

    ghost function Abs(): (n: Node)
      requires Valid()
      reads this, txbuff, rxbuff, txbuff.data, rxbuff.data
      ensures n.Ok()
    { Node(connstate, txbuff.buf, rxbuff.buf, txack) }

    constructor (len: nat)
      requires GoodLen(len)
      ensures Valid() && Abs().state == Idle
      ensures Abs().tx == Buf(len - 1, 0, [], 0) == Abs().rx
    {
      connstate, txack := Idle, 0;
      txbuff := new CBuff(len);
      rxbuff := new CBuff(len);
    }

    method MakeScratchp(flag: Flag, data: seq<Byte>) returns (p: Packet)
      requires Valid()
      ensures p == Make(Abs(), flag, data)
    {
      p := Packet({flag}, txbuff.trial, rxbuff.inp, data);
    }

    method Reply(flag: Flag, state: ConnState) returns (out: Option<Packet>)
      requires Valid()
      modifies this`connstate
      ensures Valid() && (Abs(), out) == Answer(old(Abs()), flag, state)
    {
      var p := MakeScratchp(flag, []);
      out := Some(p);
      connstate := state;
    }

    /** The received-packet part of the connected state. */
    method CheckReceived(p: Packet) returns (made: Option<Packet>, tx: bool)
      requires Valid() && |p.data| < 0x1_0000
      modifies this, txbuff, rxbuff, txbuff.data, rxbuff.data
      ensures Valid() && (Abs(), made, tx) == Absorb(old(Abs()), p)
    {
      hide Represents, W32;
      txbuff.Pointers();
      rxbuff.Pointers();
      made, tx := None, false;
      var err := false;
      var oldrx := W32(rxbuff.inp - p.seqNo);
      if oldrx == 0 {
        var _ := rxbuff.In(p.data);
      } else if oldrx <= WINDOW_SIZE {
        tx := true;
      } else {
        err := true;
      }
      var acked := W32(p.ackNo - txbuff.out);
      var trylen := txbuff.TryLen();
      if acked <= trylen {
        var _ := txbuff.Out(acked);
      } else {
        err := true;
      }
      rxbuff.Pointers();
      var rxw := W32(rxbuff.inp - txack);
      if rxw >= WINDOW_SIZE / 2 { tx := true; }
      if err {
        made := Reply(FErr, Idle);
      }
    }

    /** The transmission part of the connected state. */
    method CheckTransmit(force: bool, made: Option<Packet>) returns (out: Option<Packet>)
      requires Valid()
      modifies this, txbuff, rxbuff, txbuff.data, rxbuff.data
      ensures Valid() && (Abs(), out) == Emit(old(Abs()), force, made)
    {
      out := made;
      var tried := txbuff.TryLen();
      var txw := W16(WINDOW_SIZE - tried);
      var untried := txbuff.UntriedLen();
      var trylen := Min(untried, Min(MAX_DATA, txw));
      if trylen > 0 || force {
        var p := MakeScratchp(FConn, []);
        var data := txbuff.Try(trylen);
        out := Some(p.(data := data));
        txack := rxbuff.inp;
      }
    }

    method DoTransfer(rx: Option<Packet>, timeout: bool) returns (out: Option<Packet>)
      requires Valid() && (rx.Some? ==> |rx.value.data| < 0x1_0000)
      modifies this, txbuff, rxbuff, txbuff.data, rxbuff.data
      ensures Valid() && (Abs(), out) == Transfer(old(Abs()), rx, timeout)
    {
      out := None;
      var tx := timeout;
      if timeout {
        var tried := txbuff.TryLen();
        var _ := txbuff.Retry(tried);
      }
      if rx.Some? {
        var force;
        out, force := CheckReceived(rx.value);
        tx := tx || force;
      }
      out := CheckTransmit(tx, out);
    }

    method DoConnected(rx: Option<Packet>, sig: Signal) returns (out: Option<Packet>)
      requires Valid() && (rx.Some? ==> |rx.value.data| < 0x1_0000)
      modifies this, txbuff, rxbuff, txbuff.data, rxbuff.data
      ensures Valid() && (Abs(), out) == ConnectedStep(old(Abs()), rx, sig)
    {
      out := None;
      match sig {
        case Start => out := Reply(FConn, connstate);
        case Timeout => out := DoTransfer(rx, true);
        case Conn => out := DoTransfer(rx, false);
        case NoSig => out := DoTransfer(rx, false);
        case UserClose => out := Reply(FStop, Close);
        case Stop => out := Reply(FStop, Idle);
        case Err => connstate := Idle;
        case Fail => out := Reply(FErr, Idle);
        case _ =>
      }
    }

    method DoScratchp(rx: Option<Packet>, sig0: Signal) returns (out: Option<Packet>)
      requires Valid() && (rx.Some? ==> |rx.value.data| < 0x1_0000)
      modifies this, txbuff, rxbuff, txbuff.data, rxbuff.data
      ensures Valid() && (Abs(), out) == Step(old(Abs()), rx, sig0)
    {
      hide Represents, ConnectedStep, W32;
      out := None;
      var sig := if rx.Some? then SignalOf(rx.value.flags, sig0) else sig0;
      match connstate {
        case Idle =>
          if sig == Start && rx.Some? {
            txbuff.SetAll(0x8001);
            txack := rx.value.seqNo;
            rxbuff.SetAll(txack);
            out := Reply(FConn, Connected);
          } else if sig == Conn || sig == Stop {
            out := Reply(FErr, Idle);
          }
        case Open =>
          if (sig == Start || sig == Conn) && rx.Some? {
            rxbuff.SetAll(rx.value.seqNo);
            out := Reply(FConn, Connected);
          } else if sig == Stop {
            out := Reply(FStop, Idle);
          } else if sig == Err || sig == Fail {
            connstate := Idle;
          } else if sig == Timeout {
            out := Reply(FStart, Open);
          }
        case Connected =>
          out := DoConnected(rx, sig);
        case Close =>
          if sig == Stop || sig == Err {
            connstate := Idle;
          } else if sig == Timeout {
            out := Reply(FStop, Close);
          }
      }
    }
  }
}
