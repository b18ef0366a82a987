/** Whole runs of operations on a circular buffer: it is a window on a stream of bytes. */
module BuffRuns {
  import opened Words
  import opened CircBuff

  datatype BufOp = PutIn(bytes: seq<Byte>) | TryOut(n: nat) | PushBack(n: nat) | TakeOut(n: nat) | Acknowledge(n: nat)

  /** A buffer, every byte accepted into it, and every byte removed from it. */
  datatype BufRun = BufRun(b: Buf, accepted: seq<Byte>, removed: seq<Byte>)

  function BufStep(r: BufRun, op: BufOp): (r': BufRun)
    requires r.b.Ok()
    ensures r'.b.Ok()
  {
    match op
    case PutIn(bytes) => r.(b := r.b.Put(bytes), accepted := r.accepted + bytes[..r.b.PutCount(bytes)])
    case TryOut(n) => r.(b := r.b.AfterTry(n))
    case PushBack(n) => r.(b := r.b.AfterRetry(n))
    case TakeOut(n) => r.(b := r.b.AfterOut(n), removed := r.removed + r.b.OutBytes(n))
    case Acknowledge(n) =>
      var k := Min(n, r.b.tried);
      r.(b := r.b.AfterOut(k), removed := r.removed + r.b.OutBytes(k))
  }

  function RunBuf(r: BufRun, ops: seq<BufOp>): (r': BufRun)
    requires r.b.Ok()
    ensures r'.b.Ok()
    decreases |ops|
  { if ops == [] then r else RunBuf(BufStep(r, ops[0]), ops[1..]) }

  /** The buffer is the part of the stream accepted and not yet removed; its pointers are
      the absolute positions in that stream, from `start`, wrapped to 32 bits. */
  predicate IsStream(r: BufRun, start: LWord) {
    && r.b.Ok() && r.accepted == r.removed + r.b.data
    && r.b.out == W32(start + |r.removed|) && r.b.InPtr() == W32(start + |r.accepted|)
    && r.b.TrialPtr() == W32(start + |r.removed| + r.b.tried)
  }

  lemma StreamPointers(b: Buf, start: LWord, removed: nat)
    requires b.out == W32(start + removed)
    ensures b.InPtr() == W32(start + removed + |b.data|) && b.TrialPtr() == W32(start + removed + b.tried)
  {
    hide W32;
    WrapAdd(start + removed, |b.data|);
    WrapAdd(start + removed, b.tried);
  }

  lemma TakeStream(r: BufRun, start: LWord, n: nat)
    requires IsStream(r, start)
    ensures IsStream(r.(b := r.b.AfterOut(n), removed := r.removed + r.b.OutBytes(n)), start)
  {
    hide W32;
    var k := Min(n, |r.b.data|);
    assert r.b.data == r.b.data[..k] + r.b.data[k..];
    WrapAdd(start + |r.removed|, k);
    StreamPointers(r.b.AfterOut(n), start, |r.removed| + k);
  }

  lemma StepStream(r: BufRun, start: LWord, op: BufOp)
    requires IsStream(r, start)
    ensures IsStream(BufStep(r, op), start)
  {
    hide W32;
    if !op.TakeOut? && !op.Acknowledge? { StreamPointers(BufStep(r, op).b, start, |r.removed|); }
    if op.TakeOut? { TakeStream(r, start, op.n); }
    if op.Acknowledge? { TakeStream(r, start, Min(op.n, r.b.tried)); }
  }

  /** For any interleaving of operations on a buffer that starts empty, anywhere in the
      32-bit range: bytes come out in the order they went in, none lost or repeated, the
      buffer holds those in between, never more than its length less one, and a retry
      never goes back beyond what has been removed. */
  lemma {:induction false} RunIsStream(b: Buf, ops: seq<BufOp>)
    requires b.Ok() && b.data == []
    ensures var r := RunBuf(BufRun(b, [], []), ops);
      && IsStream(r, b.out) && r.removed <= r.accepted && |r.accepted| - |r.removed| <= r.b.cap == b.cap
  {
    WrapNear(b.out);
    RunKeepsStream(BufRun(b, [], []), b.out, ops);
  }

  lemma {:induction false} RunKeepsStream(r: BufRun, start: LWord, ops: seq<BufOp>)
    requires r.b.Ok() && IsStream(r, start)
    ensures IsStream(RunBuf(r, ops), start) && RunBuf(r, ops).b.cap == r.b.cap
    decreases |ops|
  {
    hide IsStream;
    if ops != [] {
      StepStream(r, start, ops[0]);
      RunKeepsStream(BufStep(r, ops[0]), start, ops[1..]);
    }
  }
}
