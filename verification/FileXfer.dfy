/** File transfer over a byte stream in SCRATCHP.C: a file is sent as blocks, each after
    a length byte, and ends with a null length. */
module FileXfer {
  import opened Words
  import opened CircBuff
  import opened RingBuff

  const BLOCKLEN := 255

  /** The bytes of the next block; after the last of the file, a null length. */
  function Block(rest: seq<Byte>): seq<Byte> {
    var n := Min(|rest|, BLOCKLEN);
    [n as Byte] + rest[..n] + (if n < BLOCKLEN then [0] else [])
  }

  /** Everything the sender puts into the stream for a file. */
  function Wire(file: seq<Byte>): (s: seq<Byte>)
    decreases |file|
  { Block(file) + if |file| < BLOCKLEN then [] else Wire(file[BLOCKLEN..]) }

  /** The wire form from its first block on. */
  lemma WireParts(file: seq<Byte>)
    ensures var n, w := Min(|file|, BLOCKLEN), Wire(file);
      && |w| > n && w[0] == n && w[1..1 + n] == file[..n]
      && w[1 + n..] == if n < BLOCKLEN then [0] else Wire(file[n..])
  {
    var n, b, t := Min(|file|, BLOCKLEN), Block(file), if |file| < BLOCKLEN then [] else Wire(file[BLOCKLEN..]);
    BlockParts(file);
    hide Block, Wire;
    assert Wire(file) == b + t;
    assert (b + t)[1..1 + n] == b[1..1 + n];
    assert (b + t)[1 + n..] == b[1 + n..] + t;
    if n < BLOCKLEN { assert [0] + t == [0]; } else { assert [] + t == t; }
  }

  lemma BlockParts(file: seq<Byte>)
    ensures var n, b := Min(|file|, BLOCKLEN), Block(file);
      && |b| > n && b[0] == n && b[1..1 + n] == file[..n]
      && b[1 + n..] == if n < BLOCKLEN then [0] else []
  {}

  // ---- The sender ----

  /** The transmit buffer, what is left of the file (while it is open), and every byte
      put into the buffer so far. */
  datatype Sender = Sender(tx: Buf, open: bool, rest: seq<Byte>, put: seq<Byte>)

  function SendBlock(s: Sender): (r: Sender)
    requires s.tx.Ok()
    ensures r.tx.Ok()
  {
    var n := Min(|s.rest|, BLOCKLEN);
    Sender(s.tx.Put([n]).Put(s.rest[..n]).Put(if n < BLOCKLEN then [0] else []),
           n >= BLOCKLEN, s.rest[n..], s.put + Block(s.rest))
  }

  /** While there is room for another block. */
  function Send(s: Sender): (r: Sender)
    requires s.tx.Ok()
    ensures r.tx.Ok()
    decreases s.open, |s.rest|
  { if s.open && s.tx.Free() >= BLOCKLEN + 2 then Send(SendBlock(s)) else s }

  /** A block is never cut short for want of room. */
  lemma SendBlockWhole(s: Sender)
    requires s.tx.Ok() && s.tx.Free() >= BLOCKLEN + 2
    ensures var r := SendBlock(s); s.tx.data + r.put[|s.put|..] == r.tx.data && s.put <= r.put
  {
    var n := Min(|s.rest|, BLOCKLEN);
    var tail := if n < BLOCKLEN then [0] else [];
    assert Block(s.rest) == SendBlock(s).put[|s.put|..];
    assert s.tx.data + [n as Byte] + s.rest[..n] + tail == s.tx.data + ([n as Byte] + s.rest[..n] + tail);
  }

  /** What has been put, and what is still to be put. */
  ghost predicate OnTrack(s: Sender, whole: seq<Byte>) {
    s.put + (if s.open then Wire(s.rest) else []) == whole
  }

  lemma SendBlockOnTrack(s: Sender, whole: seq<Byte>)
    requires s.tx.Ok() && OnTrack(s, whole) && s.open
    ensures OnTrack(SendBlock(s), whole)
  {
    hide Block;
    var w := if |s.rest| < BLOCKLEN then [] else Wire(s.rest[BLOCKLEN..]);
    assert s.put + (Block(s.rest) + w) == s.put + Block(s.rest) + w;
  }

  lemma {:induction false} SendOnTrack(s: Sender, whole: seq<Byte>)
    requires s.tx.Ok() && OnTrack(s, whole)
    ensures OnTrack(Send(s), whole)
    decreases s.open, |s.rest|
  {
    hide OnTrack, SendBlock;
    if s.open && s.tx.Free() >= BLOCKLEN + 2 {
      SendBlockOnTrack(s, whole);
      SendBlockShorter(s);
      SendOnTrack(SendBlock(s), whole);
    }
  }

  lemma SendBlockShorter(s: Sender)
    requires s.tx.Ok() && s.open
    ensures var r := SendBlock(s); !r.open || |r.rest| < |s.rest|
  {}

  /** The sender stops only at the end of the file, or for want of room for a whole block, its
      length and a null. */
  lemma {:induction false} SendFills(s: Sender)
    requires s.tx.Ok()
    ensures var r := Send(s); !r.open || r.tx.Free() < 1 + 255 + 1
    decreases s.open, |s.rest|
  {
    hide SendBlock;
    if s.open && s.tx.Free() >= BLOCKLEN + 2 {
      SendBlockShorter(s);
      SendFills(SendBlock(s));
    }
  }

  datatype SendOp = Fill | Drain(n: nat) | Transmit(n: nat) | Resend(n: nat)

  function SendRun(s: Sender, ops: seq<SendOp>): (r: Sender)
    requires s.tx.Ok()
    ensures r.tx.Ok()
    decreases |ops|
  {
    if ops == [] then s
    else
      var s1 := match ops[0]
        case Fill => Send(s)
        case Drain(n) => s.(tx := s.tx.AfterOut(n))
        case Transmit(n) => s.(tx := s.tx.AfterTry(n))
        case Resend(n) => s.(tx := s.tx.AfterRetry(n));
      SendRun(s1, ops[1..])
  }

  /** However the buffer empties, the sender puts in exactly the file's blocks: a prefix
      of them at any time, all of them once it has closed the file. */
  lemma {:induction false} SenderPutsFile(s: Sender, file: seq<Byte>, ops: seq<SendOp>)
    requires s.tx.Ok() && OnTrack(s, Wire(file))
    ensures var r := SendRun(s, ops); r.put <= Wire(file) && (!r.open ==> r.put == Wire(file))
    decreases |ops|
  {
    if ops != [] {
      if ops[0].Fill? { SendOnTrack(s, Wire(file)); }
      var s1 := match ops[0]
        case Fill => Send(s)
        case Drain(n) => s.(tx := s.tx.AfterOut(n))
        case Transmit(n) => s.(tx := s.tx.AfterTry(n))
        case Resend(n) => s.(tx := s.tx.AfterRetry(n));
      SenderPutsFile(s1, file, ops[1..]);
    }
  }

  // ---- The receiver ----

  /** Whether the file is open, what has been written to it, whether the receiver has
      gone idle, and how many write errors it has reported. */
  datatype File = File(open: bool, written: seq<Byte>, idle: bool, errors: nat)

  /** A length byte, and its block, have come in. At a null length with the file already
      closed the program goes on to close a null handle; what that does is outside this
      model, which counts the error reported. */
  function TakeBlock(f: File, block: seq<Byte>): File {
    if block == [] then File(false, f.written, true, if f.open then f.errors else f.errors + 1)
    else if f.open then f.(written := f.written + block) else f
  }

  /** All complete blocks of s: the file, and the bytes left. */
  function Consume(f: File, s: seq<Byte>): (File, seq<Byte>)
    decreases |s|
  {
    if s == [] || |s| - 1 < s[0] then (f, s)
    else Consume(TakeBlock(f, s[1..1 + s[0]]), s[1 + s[0]..])
  }

  /** The program's loop, on the buffer with its trial pointer. */
  function Receive(rx: Buf, f: File): (r: (Buf, File))
    requires rx.Ok()
    ensures r.0.Ok()
    decreases |rx.data|
  {
    if rx.Untried() == 0 then (rx, f)
    else
      var n := rx.TryBytes(1)[0];
      var rx1 := rx.AfterTry(1);
      if rx1.Untried() < n then (rx1.AfterRetry(1), f)
      else
        var rx2 := rx1.AfterOut(1);
        Receive(rx2.AfterOut(n), TakeBlock(f, rx2.OutBytes(n)))
  }

  /** One round of the loop. */
  lemma ReceiveOnce(rx: Buf, f: File)
    requires rx.Ok()
    ensures rx.TryBytes(1) == [] ==> Receive(rx, f) == (rx, f) && rx.AfterTry(1) == rx
    ensures rx.TryBytes(1) != [] ==>
      var n, rx1 := rx.TryBytes(1)[0], rx.AfterTry(1);
      if rx1.Untried() < n then Receive(rx, f) == (rx1.AfterRetry(1), f)
      else Receive(rx, f) == Receive(rx1.AfterOut(1).AfterOut(n), TakeBlock(f, rx1.AfterOut(1).OutBytes(n)))
  {
    hide TakeBlock;
  }

  /** The loop consumes all complete blocks, and whenever it is at its head, and when it
      ends, the trial pointer is at the output pointer: the length byte of an incomplete
      block has been pushed back. */
  lemma {:induction false} ReceiveConsumes(rx: Buf, f: File)
    requires rx.Ok() && rx.tried == 0
    ensures var (rx', f') := Receive(rx, f); (f', rx'.data) == Consume(f, rx.data) && rx'.tried == 0
    decreases |rx.data|
  {
    var s := rx.data;
    if s != [] && |s| - 1 >= s[0] {
      var n := s[0];
      var rx2 := rx.AfterTry(1).AfterOut(1);
      assert rx2.data == s[1..] && rx2.OutBytes(n) == s[1..1 + n];
      assert rx2.AfterOut(n).data == s[1 + n..];
      ReceiveConsumes(rx2.AfterOut(n), TakeBlock(f, s[1..1 + n]));
    }
  }

  /** Consuming in two pieces is consuming at once. */
  lemma {:induction false} ConsumeInPieces(f: File, s: seq<Byte>, t: seq<Byte>)
    ensures var (f1, rest) := Consume(f, s); Consume(f, s + t) == Consume(f1, rest + t)
    decreases |s|
  {
    hide TakeBlock;
    if s != [] && |s| - 1 >= s[0] {
      var n := s[0];
      assert (s + t)[1..1 + n] == s[1..1 + n] && (s + t)[1 + n..] == s[1 + n..] + t;
      ConsumeInPieces(TakeBlock(f, s[1..1 + n]), s[1 + n..], t);
    }
  }

  /** What becomes of a file of which part of the blocks has come in: what is written is a
      part of it from its beginning, all of it if it has been closed, and it has been
      closed if all of its blocks have come in, whatever follows them. */
  lemma {:induction false} ConsumeFile(f: File, file: seq<Byte>, s: seq<Byte>)
    requires f.open && (s <= Wire(file) || Wire(file) <= s)
    ensures var f' := Consume(f, s).0;
      && f'.written <= f.written + file
      && (!f'.open ==> f'.written == f.written + file)
      && (Wire(file) <= s ==> !f'.open && f'.idle)
      && f'.idle == (f.idle || !f'.open)
    decreases |file|
  {
    var w, n := Wire(file), Min(|file|, BLOCKLEN);
    WireParts(file);
    hide Wire;
    if s != [] && |s| - 1 >= s[0] {
      Overlap(s, w, n);
      var f1, s1 := TakeBlock(f, file[..n]), s[1 + n..];
      if n < BLOCKLEN {
        assert file[..n] == file;
        if n > 0 && s1 != [] {
          ClosedStays(TakeBlock(f1, []), s1[1..]);
          assert s1[0] == 0 && s1[1..1] == [];
        } else if n == 0 {
          ClosedStays(f1, s1);
        }
      } else {
        assert f1.written + file[n..] == f.written + file;
        ConsumeFile(f1, file[n..], s1);
      }
    }
  }

  /** Two sequences one of which begins with the other agree where both are. */
  lemma Overlap(s: seq<Byte>, w: seq<Byte>, n: nat)
    requires (s <= w || w <= s) && |s| > n && |w| > n
    ensures s[..1 + n] == w[..1 + n] && s[0] == w[0] && s[1..1 + n] == w[1..1 + n]
    ensures s[1 + n..] <= w[1 + n..] || w[1 + n..] <= s[1 + n..]
    ensures w <= s ==> w[1 + n..] <= s[1 + n..]
  {
    if s <= w {
      assert w[..|s|] == s;
      assert w[1 + n..][..|s| - 1 - n] == s[1 + n..];
    } else {
      assert s[..|w|] == w;
      assert s[1 + n..][..|w| - 1 - n] == w[1 + n..];
    }
  }

  /** A closed file is not written. */
  lemma {:induction false} ClosedStays(f: File, s: seq<Byte>)
    requires !f.open
    ensures var f' := Consume(f, s).0; !f'.open && f'.written == f.written && (f.idle ==> f'.idle)
    decreases |s|
  {
    if s != [] && |s| - 1 >= s[0] { ClosedStays(TakeBlock(f, s[1..1 + s[0]]), s[1 + s[0]..]); }
  }

  // ---- Runs of the receiver ----

  /** The receive buffer, the file, every byte accepted and every byte taken out. */
  datatype Receiver = Receiver(rx: Buf, file: File, accepted: seq<Byte>, eaten: seq<Byte>)

  datatype RecvOp = Arrive(bytes: seq<Byte>) | Poll

  /** Bytes come in, as many as fit; or the receiver is called, unless it has gone idle. */
  function RecvStep(r: Receiver, op: RecvOp): (r': Receiver)
    requires r.rx.Ok()
    ensures r'.rx.Ok()
  {
    match op
    case Arrive(bytes) =>
      r.(rx := r.rx.Put(bytes), accepted := r.accepted + bytes[..r.rx.PutCount(bytes)])
    case Poll =>
      if r.file.idle then r
      else
        var (rx, f) := Receive(r.rx, r.file);
        r.(rx := rx, file := f, eaten := r.eaten + r.rx.data[..Max(|r.rx.data| - |rx.data|, 0)])
  }

  function RecvRun(r: Receiver, ops: seq<RecvOp>): (r': Receiver)
    requires r.rx.Ok()
    ensures r'.rx.Ok()
    decreases |ops|
  { if ops == [] then r else RecvRun(RecvStep(r, ops[0]), ops[1..]) }

  /** Everything accepted has been eaten or is in the buffer, and what has been eaten is
      complete blocks, of which the file has been made. */
  ghost predicate InStep(r: Receiver, f0: File) {
    && r.rx.Ok() && r.rx.tried == 0
    && r.accepted == r.eaten + r.rx.data
    && Consume(f0, r.eaten) == (r.file, [])
  }

  lemma {:induction false} ConsumeSplits(f: File, s: seq<Byte>)
    ensures var (f', rest) := Consume(f, s);
      |rest| <= |s| && rest == s[|s| - |rest|..] && Consume(f, s[..|s| - |rest|]) == (f', [])
    decreases |s|
  {
    hide TakeBlock;
    if s != [] && |s| - 1 >= s[0] {
      var n := s[0];
      ConsumeSplits(TakeBlock(f, s[1..1 + n]), s[1 + n..]);
      var rest := Consume(f, s).1;
      BlockOfPart(s, n, |s| - |rest|);
    } else {
      assert s[..0] == [];
    }
  }

  lemma BlockOfPart(s: seq<Byte>, n: nat, k: nat)
    requires 1 + n <= k <= |s|
    ensures s[..k][0] == s[0] && s[..k][1..1 + n] == s[1..1 + n] && s[..k][1 + n..] == s[1 + n..][..k - 1 - n]
  {}

  lemma PollKeeps(r: Receiver, f0: File)
    requires InStep(r, f0) && !r.file.idle
    ensures InStep(RecvStep(r, Poll), f0)
    ensures RecvStep(r, Poll).file == Consume(f0, r.accepted).0
  {
    hide Consume, Receive;
    ReceiveConsumes(r.rx, r.file);
    ConsumeSplits(r.file, r.rx.data);
    var k := |r.rx.data| - |Consume(r.file, r.rx.data).1|;
    ConsumeInPieces(f0, r.eaten, r.rx.data[..k]);
    ConsumeInPieces(f0, r.eaten, r.rx.data);
    assert [] + r.rx.data[..k] == r.rx.data[..k] && [] + r.rx.data == r.rx.data;
    assert r.eaten + r.rx.data[..k] + r.rx.data[k..] == r.eaten + r.rx.data;
  }

  lemma StepKeeps(r: Receiver, f0: File, op: RecvOp)
    requires InStep(r, f0)
    ensures InStep(RecvStep(r, op), f0)
  {
    hide Consume, Receive;
    if op.Poll? {
      if !r.file.idle { PollKeeps(r, f0); }
    } else {
      var b := op.bytes[..r.rx.PutCount(op.bytes)];
      assert r.eaten + (r.rx.data + b) == r.eaten + r.rx.data + b;
    }
  }

  lemma {:induction false} RunKeeps(r: Receiver, f0: File, ops: seq<RecvOp>)
    requires r.rx.Ok() && InStep(r, f0)
    ensures InStep(RecvRun(r, ops), f0)
    decreases |ops|
  {
    hide InStep, RecvStep;
    if ops != [] {
      StepKeeps(r, f0, ops[0]);
      RunKeeps(RecvStep(r, ops[0]), f0, ops[1..]);
    }
  }

  /** A receiver that has just opened its file. */
  function Start(rx: Buf): Receiver { Receiver(rx, File(true, [], false, 0), [], []) }

  predicate Empty(b: Buf) { b.Ok() && b.data == [] }

  lemma Eaten(r: Receiver, f0: File, file: seq<Byte>)
    requires InStep(r, f0) && r.accepted <= Wire(file)
    ensures r.eaten <= Wire(file)
  {}

  /** File transfer: whatever pieces the stream arrives in, and whenever the receiver is
      called, as long as it has accepted a part of the file's blocks from the beginning,
      it has written a part of the file from the beginning, and all of it once it has
      closed the file; and when it is called with all the blocks in, it closes the file. */
  lemma FileArrives(rx: Buf, ops: seq<RecvOp>, file: seq<Byte>)
    requires Empty(rx) && RecvRun(Start(rx), ops).accepted <= Wire(file)
    ensures var r := RecvRun(Start(rx), ops);
      && r.file.written <= file && (!r.file.open ==> r.file.written == file)
      && r.file.idle == !r.file.open
      && (r.accepted == Wire(file) ==> var t := RecvStep(r, Poll).file; t.written == file && !t.open && t.idle)
  {
    var f0 := File(true, [], false, 0);
    assert InStep(Start(rx), f0);
    hide Consume, RecvRun, Wire;
    RunKeeps(Start(rx), f0, ops);
    var r := RecvRun(Start(rx), ops);
    Eaten(r, f0, file);
    assert f0.written + file == file;
    ConsumeFile(f0, file, r.eaten);
    if r.accepted == Wire(file) && !r.file.idle {
      PollKeeps(r, f0);
      ConsumeFile(f0, file, r.accepted);
    }
  }

  /** From end to end: if what the receiver has accepted is a prefix of what the sender
      has put in, the receiver's file is a prefix of the sender's, and the whole file once
      it has been closed. */
  lemma EndToEnd(tx: Buf, file: seq<Byte>, sends: seq<SendOp>, rx: Buf, ops: seq<RecvOp>)
    requires tx.Ok() && Empty(rx)
    requires RecvRun(Start(rx), ops).accepted <= SendRun(Sender(tx, true, file, []), sends).put
    ensures var f := RecvRun(Start(rx), ops).file; f.written <= file && (!f.open ==> f.written == file)
  {
    assert [] + Wire(file) == Wire(file);
    SenderPutsFile(Sender(tx, true, file, []), file, sends);
    FileArrives(rx, ops, file);
  }

  predicate FullBlocks(file: seq<Byte>) { |file| % BLOCKLEN == 0 }

  /** A file whose length is a multiple of 255 ends with two null lengths. Whatever part
      of its blocks is in, the second null is taken, and counts as a write error, exactly
      if the file is such a file and all of its blocks are in; otherwise there is none. */
  lemma {:induction false} SecondNull(f: File, file: seq<Byte>, s: seq<Byte>)
    requires f.open && s <= Wire(file)
    ensures Consume(f, s).0.errors == f.errors + if FullBlocks(file) && s == Wire(file) then 1 else 0
    decreases |file|
  {
    hide Wire, FullBlocks;
    var w, n := Wire(file), Min(|file|, BLOCKLEN);
    WireParts(file);
    FullBlocksRest(file);
    if s != [] && |s| - 1 >= s[0] {
      Overlap(s, w, n);
      TailsEqual(s, w, n);
      var f1, s1 := TakeBlock(f, file[..n]), s[1 + n..];
      if n < BLOCKLEN {
        NullTaken(f1, s1);
      } else {
        SecondNull(f1, file[n..], s1);
      }
    }
  }

  lemma FullBlocksRest(file: seq<Byte>)
    ensures FullBlocks(file) <==> if |file| < BLOCKLEN then file == [] else FullBlocks(file[BLOCKLEN..])
  {}

  lemma NullTaken(f: File, s: seq<Byte>)
    requires s <= [0]
    ensures Consume(f, s).0.errors == f.errors + if s == [0] && !f.open then 1 else 0
  {
    assert s == [] || s == [0];
    assert [0][1..] == [] && [0][1..1] == [];
  }

  lemma TailsEqual(s: seq<Byte>, w: seq<Byte>, n: nat)
    requires s <= w && |s| > n && |w| > n
    ensures s[1 + n..] <= w[1 + n..] && (s == w <==> s[1 + n..] == w[1 + n..])
  {
    assert w[1 + n..][..|s| - 1 - n] == s[1 + n..];
    assert s[1 + n..] == w[1 + n..] ==> |s| == |w|;
  }

  /** In a run of the receiver: it has reported a write error exactly if the file is such
      a file and it has taken all of its blocks, the second null with the first. */
  lemma ErrorExactly(rx: Buf, ops: seq<RecvOp>, file: seq<Byte>)
    requires Empty(rx) && RecvRun(Start(rx), ops).accepted <= Wire(file)
    ensures var r := RecvRun(Start(rx), ops);
      r.file.errors == if FullBlocks(file) && r.eaten == Wire(file) then 1 else 0
  {
    var f0 := File(true, [], false, 0);
    assert InStep(Start(rx), f0);
    hide Consume, RecvRun, Wire, FullBlocks;
    RunKeeps(Start(rx), f0, ops);
    var r := RecvRun(Start(rx), ops);
    Eaten(r, f0, file);
    SecondNull(f0, file, r.eaten);
  }

  /** When the last block of such a file is in but for the second null, the receiver
      closes the file without an error, and does not take the second null when it comes. */
  lemma SecondNullLate(r: Receiver, f0: File, file: seq<Byte>)
    requires InStep(r, f0) && f0.open && !r.file.idle && r.accepted + [0] == Wire(file) && FullBlocks(file)
    ensures var t := RecvStep(RecvStep(r, Poll), Arrive([0]));
      t.file.errors == f0.errors && t.file.idle && RecvStep(t, Poll).file == t.file
  {
    SecondNull(f0, file, r.accepted);
    PollKeeps(r, f0);
    OneNullLeft(f0, file, r.accepted);
  }

  lemma {:induction false} OneNullLeft(f: File, file: seq<Byte>, s: seq<Byte>)
    requires f.open && s + [0] == Wire(file) && FullBlocks(file)
    ensures Consume(f, s).0.idle
    decreases |file|
  {
    var w, n := Wire(file), Min(|file|, BLOCKLEN);
    WireParts(file);
    hide Wire;
    if n == 0 {
      assert w == [0, 0] && s == [0];
      assert s[1..1] == [] && s[1..] == [];
    } else {
      assert w[..|w| - 1] == s;
      assert n == BLOCKLEN && |w| > 1 + n + 1 by { WireParts(file[n..]); }
      assert s[0] == n && s[1..1 + n] == file[..n] && s[1 + n..] + [0] == w[1 + n..];
      OneNullLeft(TakeBlock(f, file[..n]), file[n..], s[1 + n..]);
    }
  }

  // ---- The two as the program keeps them ----

  class Applications {
    const rxb: CBuff
    const txb: CBuff
    var sending: bool
    var rest: seq<Byte>
    var receiving: bool
    var written: seq<Byte>
    var idle: bool
    var errors: nat
    ghost var put: seq<Byte>

    ghost predicate Valid()
      reads this, rxb, txb, rxb.data, txb.data
    { rxb != txb && rxb.data != txb.data && rxb.Valid() && txb.Valid() }

    ghost function AbsSender(): (s: Sender)
      requires Valid()
      reads this, rxb, txb, rxb.data, txb.data
      ensures s.tx.Ok()
    { Sender(txb.buf, sending, rest, put) }

    function AbsFile(): File
      reads this
    { File(receiving, written, idle, errors) }

    constructor (len: nat)
      requires GoodLen(len)
      ensures Valid() && Empty(rxb.buf) && Empty(txb.buf) && !sending && !receiving
    {
      rxb := new CBuff(len);
      txb := new CBuff(len);
      sending, rest, receiving, written, idle, errors, put := false, [], false, [], true, 0, [];
    }

    /** The sender's loop. */
    method SendFile()
      requires Valid()
      modifies this`sending, this`rest, this`put, txb, txb.data
      ensures Valid() && AbsSender() == Send(old(AbsSender()))
    {
      hide Represents, SendBlock;
      var free := txb.FreeLen();
      while sending && free >= BLOCKLEN + 2
        invariant Valid() && free == txb.buf.Free()
        invariant Send(AbsSender()) == Send(old(AbsSender()))
        decreases sending, |rest|
      {
        SendBlockShorter(AbsSender());
        SendOne();
        free := txb.FreeLen();
      }
    }

    method SendOne()
      requires Valid() && sending
      modifies this`sending, this`rest, this`put, txb, txb.data
      ensures Valid() && AbsSender() == SendBlock(old(AbsSender()))
    {
      hide Represents;
      var lenb := Min(|rest|, BLOCKLEN);
      var block := rest[..lenb];
      assert Block(block) == Block(rest) by { assert block[..lenb] == block; }
      rest := rest[lenb..];
      var _ := txb.In([lenb]);
      var _ := txb.In(block);
      put := put + Block(block);
      if lenb < BLOCKLEN {
        var _ := txb.In([0]);
        sending := false;
      }
    }

    /** The receiver's loop. */
    method ReceiveFile()
      requires Valid()
      modifies this`receiving, this`written, this`idle, this`errors, rxb
      ensures Valid() && (rxb.buf, AbsFile()) == Receive(old(rxb.buf), old(AbsFile()))
    {
      hide Represents, TakeBlock, Receive;
      rxb.Pointers();
      var more := true;
      while more
        invariant Valid() && rxb.buf.Ok()
        invariant if more then Receive(rxb.buf, AbsFile()) == Receive(old(rxb.buf), old(AbsFile()))
                  else (rxb.buf, AbsFile()) == Receive(old(rxb.buf), old(AbsFile()))
        decreases more, |rxb.buf.data|
      {
        ReceiveOnce(rxb.buf, AbsFile());
        var lenb := rxb.Try(1);
        if lenb == [] {
          more := false;
        } else {
          var untried := rxb.UntriedLen();
          if untried < lenb[0] {
            var _ := rxb.Retry(1);
            more := false;
          } else {
            var _ := rxb.Out(1);
            var block := rxb.Out(lenb[0]);
            WriteBlock(block);
          }
        }
      }
    }

    method WriteBlock(block: seq<Byte>)
      modifies this`receiving, this`written, this`idle, this`errors
      ensures AbsFile() == TakeBlock(old(AbsFile()), block)
    {
      if block == [] {
        if !receiving { errors := errors + 1; }
        receiving := false;
        idle := true;
      } else if receiving {
        written := written + block;
      }
    }
  }
}
