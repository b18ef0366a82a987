/** File transfer between two SCRATCHP nodes, over the network that may lose, duplicate and
    reorder packets: the sender's and the receiver's loops work on the nodes' own buffers. */
module FileOverNet {
  import opened Words
  import opened CircBuff
  import FileXfer
  import Net = ScratchpNet

  /** A receiver that has just opened its file. */
  const NEW_FILE := FileXfer.File(true, [], false, 0)

  /** The file a receiver makes of the bytes that reach it. */
  function Received(bytes: seq<Byte>): FileXfer.File { FileXfer.Consume(NEW_FILE, bytes).0 }

  /** In every state of every run of a connection in which a's application has put in the
      blocks of a file after other bytes, or as many as there was room for so far: what b
      can make of the bytes behind those others is a part of that file from the beginning,
      the whole file once it is closed, and it is closed if everything has arrived. */
  lemma FileOverStream(s: Net.Net, moves: seq<Net.Move>, before: seq<Byte>, file: seq<Byte>)
    requires Net.Connection(s) && Net.AllAllowed(s, moves)
    requires Net.Run(s, moves).a.sent <= before + FileXfer.Wire(file) && |before| <= |Net.Run(s, moves).b.recv|
    ensures var t := Net.Run(s, moves); var f := Received(t.b.recv[|before|..]);
      && f.written <= file && (!f.open ==> f.written == file)
      && (t.b.recv == before + FileXfer.Wire(file) ==> !f.open && f.idle)
  {
    hide Net.Run, Net.AllAllowed, FileXfer.Wire;
    Net.StreamSafety(s, moves);
    PartReceived(before, file, Net.Run(s, moves).a.sent, Net.Run(s, moves).b.recv);
  }

  lemma PartReceived(before: seq<Byte>, file: seq<Byte>, sent: seq<Byte>, recv: seq<Byte>)
    requires recv <= sent <= before + FileXfer.Wire(file) && |before| <= |recv|
    ensures var f := Received(recv[|before|..]);
      && f.written <= file && (!f.open ==> f.written == file) && f.idle == !f.open
      && (recv == before + FileXfer.Wire(file) ==> !f.open && f.idle)
  {
    hide FileXfer.Consume, FileXfer.Wire;
    var w := FileXfer.Wire(file);
    assert recv == (before + w)[..|recv|];
    assert recv[|before|..] == w[..|recv| - |before|];
    assert recv == before + w ==> recv[|before|..] == w;
    assert [] + file == file;
    FileXfer.ConsumeFile(NEW_FILE, file, recv[|before|..]);
  }

  // ---- Sender and receiver at the two ends ----

  /** The network; the sender at a: whether it still has the file open, and what is left of
      it; the receiver at b: whether it has become one, and its file. */
  datatype Transfer = Transfer(net: Net.Net, sending: bool, rest: seq<Byte>,
                               receiving: bool, file: FileXfer.File)

  datatype Act = Move(mv: Net.Move) | SendFile | BecomeReceiver | ReceiveFile

  function SenderOf(s: Net.Net, sending: bool, rest: seq<Byte>): FileXfer.Sender {
    FileXfer.Sender(s.a.n.tx, sending, rest, s.a.sent)
  }

  /** The sender's buffer is a's. */
  function WithSender(s: Net.Net, snd: FileXfer.Sender): Net.Net {
    s.(a := s.a.(n := s.a.n.(tx := snd.tx), sent := snd.put))
  }

  function Step(j: Transfer, act: Act): (j': Transfer)
    requires Net.Ok(j.net)
    ensures Net.Ok(j'.net)
  {
    match act
    case Move(mv) => j.(net := Net.Next(j.net, mv))
    case SendFile =>
      var snd := FileXfer.Send(SenderOf(j.net, j.sending, j.rest));
      j.(net := WithSender(j.net, snd), sending := snd.open, rest := snd.rest)
    case BecomeReceiver => j.(receiving := true)
    case ReceiveFile =>
      if !j.receiving || j.file.idle then j
      else
        var b := j.net.b;
        var (rx, f) := FileXfer.Receive(b.n.rx, j.file);
        var taken := b.n.rx.data[..Max(|b.n.rx.data| - |rx.data|, 0)];
        j.(net := j.net.(b := b.(n := b.n.(rx := rx), got := b.got + taken)), file := f)
  }

  /** a's application only puts in the file, behind `before`, and b's only takes what is
      before the file until it becomes the receiver. */
  predicate Allowed(j: Transfer, before: seq<Byte>, act: Act) {
    match act
    case Move(mv) =>
      && Net.Allowed(j.net, mv) && !(mv.ByA? && mv.act.AppPut?)
      && (mv.ByB? ==>
        && !mv.act.AppTry? && !mv.act.AppRetry?
        && (mv.act.AppGet? ==> !j.receiving && |j.net.b.got| + mv.act.maxlen <= |before|))
    case SendFile => true
    case BecomeReceiver => j.receiving || |j.net.b.got| == |before|
    case ReceiveFile => true
  }

  function Run(j: Transfer, acts: seq<Act>): (j': Transfer)
    requires Net.Ok(j.net)
    ensures Net.Ok(j'.net)
    decreases |acts|
  { if acts == [] then j else Run(Step(j, acts[0]), acts[1..]) }

  predicate AllAllowed(j: Transfer, before: seq<Byte>, acts: seq<Act>)
    requires Net.Ok(j.net)
    decreases |acts|
  { acts == [] || (Allowed(j, before, acts[0]) && AllAllowed(Step(j, acts[0]), before, acts[1..])) }

  /** The two streams are as they should be; what a has put in and what is still to be put
      in are the file's blocks behind `before`; the receiver's file is what it has taken. */
  ghost predicate InStep(j: Transfer, before: seq<Byte>, file: seq<Byte>) {
    && Net.Good(j.net) && j.net.b.n.rx.tried == 0
    && j.net.a.sent + (if j.sending then FileXfer.Wire(j.rest) else []) == before + FileXfer.Wire(file)
    && (if j.receiving
      then |before| <= |j.net.b.got| && FileXfer.Consume(NEW_FILE, j.net.b.got[|before|..]) == (j.file, [])
      else |j.net.b.got| <= |before| && j.file == NEW_FILE)
  }

  // ---- The sender's loop puts in blocks ----

  lemma BlockPut(tx: Buf, x: seq<Byte>, y: seq<Byte>, z: seq<Byte>)
    requires tx.Ok() && |x| + |y| + |z| <= tx.Free()
    ensures tx.Put(x).Put(y).Put(z) == tx.Put(x + y + z) && tx.PutCount(x + y + z) == |x + y + z|
  {
    assert tx.data + x + y + z == tx.data + (x + y + z);
  }

  lemma SendBlockGood(s: Net.Net, rest: seq<Byte>)
    requires Net.Ok(s) && Net.Good(s) && s.a.n.tx.Free() >= FileXfer.BLOCKLEN + 2
    ensures Net.Good(WithSender(s, FileXfer.SendBlock(SenderOf(s, true, rest))))
  {
    hide Net.Inv;
    var n, block := Min(|rest|, FileXfer.BLOCKLEN), FileXfer.Block(rest);
    BlockPut(s.a.n.tx, [n], rest[..n], if n < FileXfer.BLOCKLEN then [0] else []);
    assert block[..|block|] == block;
    Net.AppPutKeeps(s.a, s.b, s.toA, s.toB, block);
    assert WithSender(s, FileXfer.SendBlock(SenderOf(s, true, rest))).a == Net.Perform(s.a, Net.AppPut(block)).0;
  }

  lemma {:induction false} SendGood(s: Net.Net, sending: bool, rest: seq<Byte>)
    requires Net.Ok(s) && Net.Good(s)
    ensures Net.Good(WithSender(s, FileXfer.Send(SenderOf(s, sending, rest))))
    decreases sending, |rest|
  {
    hide Net.Good, FileXfer.SendBlock;
    if sending && s.a.n.tx.Free() >= FileXfer.BLOCKLEN + 2 {
      var snd := FileXfer.SendBlock(SenderOf(s, sending, rest));
      SendBlockGood(s, rest);
      FileXfer.SendBlockShorter(SenderOf(s, sending, rest));
      SendGood(WithSender(s, snd), snd.open, snd.rest);
    }
  }

  // ---- The receiver's loop takes blocks off ----

  lemma TakenInTwo(rx: Buf, n: nat, k: nat)
    requires rx.Ok() && rx.tried == 0 && n + k <= |rx.data|
    ensures rx.AfterOut(n).AfterOut(k) == rx.AfterOut(n + k)
  {
    WrapAdd(rx.out + n, k);
    hide W32;
    assert rx.data[n..][k..] == rx.data[n + k..];
  }

  lemma LengthTried(rx: Buf)
    requires rx.Ok() && rx.tried == 0 && rx.data != []
    ensures rx.TryBytes(1) == [rx.data[0]] && rx.AfterTry(1).AfterOut(1) == rx.AfterOut(1)
    ensures rx.AfterTry(1).Untried() == |rx.data| - 1
  {
    hide W32;
    assert rx.data[0..1] == [rx.data[0]];
  }

  /** One round of the loop, if there is a whole block. */
  lemma OneRound(rx: Buf, f: FileXfer.File)
    requires rx.Ok() && rx.tried == 0 && rx.data != [] && |rx.data| - 1 >= rx.data[0]
    ensures var n: nat := rx.data[0];
      FileXfer.Receive(rx, f) == FileXfer.Receive(rx.AfterOut(1 + n), FileXfer.TakeBlock(f, rx.data[1..1 + n]))
  {
    var n: nat := rx.data[0];
    FileXfer.ReceiveOnce(rx, f);
    TakenInTwo(rx, 1, n);
    hide FileXfer.Receive, FileXfer.TakeBlock, W32;
    LengthTried(rx);
    assert rx.AfterOut(1).OutBytes(n) == rx.data[1..1 + n];
  }

  lemma NoRound(rx: Buf, f: FileXfer.File)
    requires rx.Ok() && rx.tried == 0 && (rx.data == [] || |rx.data| - 1 < rx.data[0])
    ensures FileXfer.Receive(rx, f).0 == rx == rx.AfterOut(0)
  {
    WrapNear(rx.out);
  }

  /** What the loop leaves is what taking so many bytes leaves. */
  lemma {:induction false} ReceiveIsOut(rx: Buf, f: FileXfer.File)
    requires rx.Ok() && rx.tried == 0
    ensures var rx' := FileXfer.Receive(rx, f).0;
      |rx'.data| <= |rx.data| && rx' == rx.AfterOut(|rx.data| - |rx'.data|)
    decreases |rx.data|
  {
    hide FileXfer.TakeBlock, FileXfer.Receive, W32;
    var s := rx.data;
    if s == [] || |s| - 1 < s[0] {
      NoRound(rx, f);
    } else {
      var n: nat := 1 + s[0] as nat;
      var rx1, f1 := rx.AfterOut(n), FileXfer.TakeBlock(f, s[1..n]);
      OneRound(rx, f);
      ReceiveIsOut(rx1, f1);
      var k := |rx1.data| - |FileXfer.Receive(rx1, f1).0.data|;
      TakenInTwo(rx, n, k);
    }
  }

  /** Taking blocks off is reading so many bytes. */
  lemma ReceiveIsGet(j: Transfer)
    requires Net.Ok(j.net) && Net.Good(j.net) && j.net.b.n.rx.tried == 0 && j.receiving && !j.file.idle
    ensures var (rx, j') := (j.net.b.n.rx, Step(j, ReceiveFile));
      var rx' := FileXfer.Receive(rx, j.file).0;
      && |rx'.data| <= |rx.data| && j'.net.b.got == j.net.b.got + rx.data[..|rx.data| - |rx'.data|]
      && Net.Good(j'.net) && j'.net.b.n.rx.tried == 0 && j'.net.a == j.net.a
      && j'.receiving && j'.file == FileXfer.Receive(rx, j.file).1 && j'.sending == j.sending && j'.rest == j.rest
  {
    hide W32, FileXfer.Receive, Net.Inv;
    var b := j.net.b;
    ReceiveIsOut(b.n.rx, j.file);
    var k := |b.n.rx.data| - |FileXfer.Receive(b.n.rx, j.file).0.data|;
    Swapped(j.net);
    Net.AppGetKeeps(j.net.b, j.net.a, j.net.toB, j.net.toA, k);
    assert Net.Perform(b, Net.AppGet(k)).0 == Step(j, ReceiveFile).net.b;
    Swapped(Step(j, ReceiveFile).net);
  }

  lemma ReceiveKeeps(j: Transfer, before: seq<Byte>, file: seq<Byte>)
    requires Net.Ok(j.net) && InStep(j, before, file) && j.receiving && !j.file.idle
    ensures InStep(Step(j, ReceiveFile), before, file)
    ensures Step(j, ReceiveFile).file == Received(j.net.b.recv[|before|..])
  {
    hide FileXfer.Consume, FileXfer.Receive, FileXfer.Wire, Net.Good, Step, W32;
    var rx, got, j' := j.net.b.n.rx, j.net.b.got, Step(j, ReceiveFile);
    ReceiveIsGet(j);
    GoodGot(j.net);
    var taken := rx.data[..|rx.data| - |FileXfer.Receive(rx, j.file).0.data|];
    ReceivedMore(rx, j.file, got[|before|..]);
    Behind(got, taken, |before|);
    Behind(got, rx.data, |before|);
    assert j'.net.b.got == got + taken && j.net.b.recv == got + rx.data;
  }

  lemma Behind(s: seq<Byte>, t: seq<Byte>, n: nat)
    requires n <= |s|
    ensures |s + t| >= n && (s + t)[n..] == s[n..] + t
  {}

  /** The file after the loop is made of all there is, and all that is taken is blocks. */
  lemma ReceivedMore(rx: Buf, f: FileXfer.File, got: seq<Byte>)
    requires rx.Ok() && rx.tried == 0 && FileXfer.Consume(NEW_FILE, got) == (f, [])
    ensures var (rx', f') := FileXfer.Receive(rx, f);
      && |rx'.data| <= |rx.data| && rx'.tried == 0
      && FileXfer.Consume(NEW_FILE, got + rx.data[..|rx.data| - |rx'.data|]) == (f', [])
      && FileXfer.Consume(NEW_FILE, got + rx.data).0 == f'
  {
    hide FileXfer.Consume, FileXfer.Receive, W32;
    FileXfer.ReceiveConsumes(rx, f);
    FileXfer.ConsumeSplits(f, rx.data);
    var k := |rx.data| - |FileXfer.Receive(rx, f).0.data|;
    FileXfer.ConsumeInPieces(NEW_FILE, got, rx.data[..k]);
    FileXfer.ConsumeInPieces(NEW_FILE, got, rx.data);
    assert [] + rx.data[..k] == rx.data[..k] && [] + rx.data == rx.data;
  }

  lemma Swapped(s: Net.Net)
    ensures Net.Inv(s.b, s.a, s.toB, s.toA) <==> Net.Good(s)
  {}

  lemma GoodGot(s: Net.Net)
    requires Net.Good(s)
    ensures s.b.recv == s.b.got + s.b.n.rx.data && s.b.recv <= s.a.sent
  {}

  // ---- Whole runs ----

  /** A move of the network leaves what the applications have put and got alone. */
  lemma MoveKeepsEnds(j: Transfer, before: seq<Byte>, mv: Net.Move)
    requires Net.Ok(j.net) && Net.Good(j.net) && Allowed(j, before, Move(mv)) && j.net.b.n.rx.tried == 0
    ensures var t := Net.Next(j.net, mv);
      && t.a.sent == j.net.a.sent && t.b.n.rx.tried == 0
      && (if j.receiving then t.b.got == j.net.b.got
          else |t.b.got| <= Max(|j.net.b.got|, |before|))
  {
    hide W32;
  }

  lemma MoveGood(s: Net.Net, mv: Net.Move)
    requires Net.Ok(s) && Net.Good(s) && Net.Allowed(s, mv)
    ensures Net.Good(Net.Next(s, mv))
  {
    hide Net.Inv, Net.Perform;
    match mv {
      case ByA(act) => Net.ActKeeps(s.a, s.b, s.toA, s.toB, act);
      case ByB(act) =>
        Swapped(s);
        Net.ActKeeps(s.b, s.a, s.toB, s.toA, act);
        Swapped(Net.Next(s, mv));
      case LoseToA(e) => LossGood(s, s.toA - {e}, s.toB);
      case LoseToB(e) => LossGood(s, s.toA, s.toB - {e});
    }
  }

  lemma LossGood(s: Net.Net, toA: set<Net.Envelope>, toB: set<Net.Envelope>)
    requires Net.Good(s) && toA <= s.toA && toB <= s.toB
    ensures Net.Good(s.(toA := toA, toB := toB))
  {
    hide W32;
  }

  lemma StepKeeps(j: Transfer, before: seq<Byte>, file: seq<Byte>, act: Act)
    requires Net.Ok(j.net) && InStep(j, before, file) && Allowed(j, before, act)
    ensures InStep(Step(j, act), before, file)
  {
    hide FileXfer.Consume, FileXfer.Receive, FileXfer.Wire, FileXfer.Send, Net.Good, Net.Next, Net.Allowed, W32;
    match act {
      case Move(mv) =>
        MoveKeepsEnds(j, before, mv);
        MoveGood(j.net, mv);
      case SendFile =>
        SendGood(j.net, j.sending, j.rest);
        FileXfer.SendOnTrack(SenderOf(j.net, j.sending, j.rest), before + FileXfer.Wire(file));
      case BecomeReceiver =>
        NothingReceived();
        assert j.net.b.got[|j.net.b.got|..] == [];
      case ReceiveFile => if j.receiving && !j.file.idle { ReceiveKeeps(j, before, file); }
    }
  }

  lemma NothingReceived()
    ensures FileXfer.Consume(NEW_FILE, []) == (NEW_FILE, [])
  {}

  lemma {:induction false} RunKeeps(j: Transfer, before: seq<Byte>, file: seq<Byte>, acts: seq<Act>)
    requires Net.Ok(j.net) && InStep(j, before, file) && AllAllowed(j, before, acts)
    ensures InStep(Run(j, acts), before, file)
    decreases |acts|
  {
    hide InStep, Step, Allowed;
    if acts != [] {
      StepKeeps(j, before, file, acts[0]);
      RunKeeps(Step(j, acts[0]), before, file, acts[1..]);
    }
  }

  /** A transfer begins in any state of a connection: a has put in `before`, in which the
      command may be, and b's application has taken no more than that. */
  ghost predicate Begins(j: Transfer, before: seq<Byte>, file: seq<Byte>) {
    && Net.Ok(j.net) && Net.Good(j.net) && j.net.a.sent == before && |j.net.b.got| <= |before|
    && j.net.b.n.rx.tried == 0 && j.sending && j.rest == file && !j.receiving && j.file == NEW_FILE
  }

  /** File transfer from end to end, in every run with both loops on the nodes' buffers:
      b's file is a part of a's from the beginning, the whole of it once it is closed; and
      when everything has arrived, the receiver's next call closes it. */
  lemma FileTransferred(j: Transfer, before: seq<Byte>, file: seq<Byte>, acts: seq<Act>)
    requires Begins(j, before, file) && AllAllowed(j, before, acts)
    ensures var t := Run(j, acts);
      && t.file.written <= file && (!t.file.open ==> t.file.written == file) && t.file.idle == !t.file.open
      && (t.receiving && t.net.b.recv == before + FileXfer.Wire(file) ==>
        var f := Step(t, ReceiveFile).file; f.written == file && !f.open && f.idle)
  {
    hide Run, AllAllowed, FileXfer.Consume, FileXfer.Wire, FileXfer.Receive, Net.Good, W32;
    RunKeeps(j, before, file, acts);
    var t := Run(j, acts);
    if t.receiving {
      GoodGot(t.net);
      PartReceived(before, file, t.net.a.sent, t.net.b.got);
      if !t.file.idle {
        ReceiveKeeps(t, before, file);
        PartReceived(before, file, t.net.a.sent, t.net.b.recv);
      }
    }
  }
}
