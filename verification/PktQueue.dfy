/** The frame queues of NET.C: frames with a general header, one after the other in a
    circular buffer of bytes. */
module PktQueue {
  import opened Words
  import opened Wrappers
  import opened CircBuff
  import opened RingBuff

  const MAXFRAME := 1514
  const GENHDR := 6

  /** A frame and the fields of its general header. */
  datatype Frame = Frame(dtype: Word, fragoff: Word, data: seq<Byte>)

  predicate Fits(f: Frame) { |f.data| <= MAXFRAME }

  /** What get_net takes for a frame. */
  predicate Sane(f: Frame) { 1 <= |f.data| <= MAXFRAME }

  function Header(len: Word, dtype: Word, fragoff: Word): (s: seq<Byte>)
    ensures |s| == GENHDR
  { [Low(len), High(len), Low(dtype), High(dtype), Low(fragoff), High(fragoff)] }

  /** A frame as it lies in the buffer. */
  function Enc(f: Frame): seq<Byte>
    requires Fits(f)
  { Header(|f.data|, f.dtype, f.fragoff) + f.data }

  function EncAll(q: seq<Frame>): seq<Byte>
    requires forall f :: f in q ==> Fits(f)
  { if q == [] then [] else Enc(q[0]) + EncAll(q[1..]) }

  lemma {:induction false} EncAllSnoc(q: seq<Frame>, f: Frame)
    requires Fits(f) && forall g :: g in q ==> Fits(g)
    ensures EncAll(q + [f]) == EncAll(q) + Enc(f)
  {
    hide Enc;
    if q == [] {
      assert q + [f] == [f] && [f][1..] == [];
    } else {
      EncAllSnoc(q[1..], f);
      assert (q + [f])[1..] == q[1..] + [f] && (q + [f])[0] == q[0];
      assert (Enc(q[0]) + EncAll(q[1..])) + Enc(f) == Enc(q[0]) + (EncAll(q[1..]) + Enc(f));
    }
  }

  // ---- The operations on the bytes ----

  /** minw(len, MAXFRAME) bytes of a received frame. */
  function Cut(data: seq<Byte>): seq<Byte> { if |data| <= MAXFRAME then data else data[..MAXFRAME] }

  function ReceiveUpcall(b: Buf, dtype: Word, data: seq<Byte>): (r: Buf)
    requires b.Ok()
    ensures r.Ok()
  {
    var d := Cut(data);
    if |d| > 0 && b.Free() >= |d| + GENHDR then b.Put(Header(|d|, dtype, 0)).Put(d) else b
  }

  /** What get_net takes off the queue: the buffer left, the frame if it is delivered, and
      whether the buffer was found corrupt (and emptied). */
  function GetNet(b: Buf, want: Word): (r: (Buf, Option<Frame>, bool))
    requires b.Ok()
    ensures r.0.Ok()
  {
    if |b.data| < GENHDR then (b, None, false)
    else
      var h, b1 := b.OutBytes(GENHDR), b.AfterOut(GENHDR);
      var len, dtype := Pair(h[1], h[0]), Pair(h[3], h[2]);
      if len < 1 || len > MAXFRAME then (b1.AllAt(b1.InPtr()), None, true)
      else if dtype == want || want == 0 then
        (b1.AfterOut(len), Some(Frame(dtype, Pair(h[5], h[4]), b1.OutBytes(len))), false)
      else (b1.AfterOut(len), None, false)
  }

  /** put_net for an Ethernet frame without SNAP header: queued if there is room, cut to
      the longest frame there is. */
  function PutNet(b: Buf, f: Frame): (r: Buf)
    requires b.Ok()
    ensures r.Ok()
  {
    var f' := f.(data := Cut(f.data));
    if b.Free() >= |f'.data| + GENHDR then b.Put(Enc(f')) else b
  }

  /** What transmit_upcall takes off the queue. Of its header variable, bytes that the buffer
      does not have stay as they were. */
  function TransmitUpcall(b: Buf, dtype: Word, maxlen: Word, stale: seq<Byte>): (r: (Buf, Option<seq<Byte>>))
    requires b.Ok() && |stale| == GENHDR
    ensures r.0.Ok()
  {
    if |b.data| < 4 then (b, None)
    else
      var got, b1 := b.TryBytes(GENHDR), b.AfterTry(GENHDR);
      var h := got + stale[|got|..];
      var len, n := Pair(h[1], h[0]), Min(Pair(h[1], h[0]), maxlen);
      if Pair(h[3], h[2]) == dtype then
        var b2 := b1.AfterOut(GENHDR);
        var b3 := b2.AfterOut(n);
        (if n < len then b3.AfterOut(len - n) else b3, Some(b2.OutBytes(n)))
      else (b1.AfterRetry(GENHDR), None)
  }

  // ---- What they mean for a queue of frames ----

  /** The buffer holds exactly these frames. */
  predicate Holds(b: Buf, q: seq<Frame>) {
    b.Ok() && b.tried == 0 && (forall f :: f in q ==> Fits(f)) && b.data == EncAll(q)
  }

  lemma HeaderParts(len: Word, dtype: Word, fragoff: Word)
    ensures var h := Header(len, dtype, fragoff);
      Pair(h[1], h[0]) == len && Pair(h[3], h[2]) == dtype && Pair(h[5], h[4]) == fragoff
  {
    hide Pair, Low, High;
    PartsPair(len);
    PartsPair(dtype);
    PartsPair(fragoff);
  }

  /** The first frame of a buffer: its header, its data, and the rest. */
  lemma FirstFrame(b: Buf, q: seq<Frame>)
    requires Holds(b, q) && q != []
    ensures |b.data| >= GENHDR + |q[0].data| && Fits(q[0])
    ensures b.data[..GENHDR] == Header(|q[0].data|, q[0].dtype, q[0].fragoff)
    ensures b.data[GENHDR..GENHDR + |q[0].data|] == q[0].data
    ensures b.data[GENHDR + |q[0].data|..] == EncAll(q[1..])
  {
    hide Header;
    assert q[0] in q;
    var h := Header(|q[0].data|, q[0].dtype, q[0].fragoff);
    assert b.data == h + q[0].data + EncAll(q[1..]);
  }

  lemma NonEmpty(b: Buf, q: seq<Frame>)
    requires Holds(b, q)
    ensures q == [] ==> b.data == []
    ensures q != [] ==> |b.data| >= GENHDR
  {
    if q != [] { FirstFrame(b, q); }
  }

  lemma ReceiveUpcallMeans(b: Buf, q: seq<Frame>, dtype: Word, data: seq<Byte>)
    requires Holds(b, q)
    ensures var d := Cut(data);
      Holds(ReceiveUpcall(b, dtype, data),
        if |d| > 0 && b.Free() >= |d| + GENHDR then q + [Frame(dtype, 0, d)] else q)
  {
    hide Header;
    var d := Cut(data);
    if |d| > 0 && b.Free() >= |d| + GENHDR {
      EncAllSnoc(q, Frame(dtype, 0, d));
      assert b.data + Header(|d|, dtype, 0) + d == b.data + (Header(|d|, dtype, 0) + d);
    }
  }

  lemma PutNetMeans(b: Buf, q: seq<Frame>, f: Frame)
    requires Holds(b, q)
    ensures var f' := f.(data := Cut(f.data));
      Holds(PutNet(b, f), if b.Free() >= |f'.data| + GENHDR then q + [f'] else q)
  {
    hide Header;
    var f' := f.(data := Cut(f.data));
    if b.Free() >= |f'.data| + GENHDR { EncAllSnoc(q, f'); }
  }

  /** get_net removes exactly the first frame, and never finds the buffer corrupt. */
  lemma GetNetMeans(b: Buf, q: seq<Frame>, want: Word)
    requires Holds(b, q) && (q != [] ==> Sane(q[0]))
    ensures var r := GetNet(b, want);
      && !r.2 && Holds(r.0, if q == [] then [] else q[1..])
      && r.1 == if q != [] && (q[0].dtype == want || want == 0) then Some(q[0]) else None
  {
    hide Header, Pair;
    NonEmpty(b, q);
    if q != [] {
      FirstFrame(b, q);
      HeaderParts(|q[0].data|, q[0].dtype, q[0].fragoff);
      assert b.data[GENHDR..][..|q[0].data|] == q[0].data;
      assert b.data[GENHDR..][|q[0].data|..] == EncAll(q[1..]);
    }
  }

  /** Bytes taken off in two goes, or in one. */
  lemma OutInTwo(b: Buf, n: nat, len: nat)
    requires b.Ok() && n <= len <= |b.data| && b.tried == 0
    ensures var b' := if n < len then b.AfterOut(n).AfterOut(len - n) else b.AfterOut(n);
      b'.data == b.data[len..] && b'.tried == 0
  {
    assert b.data[n..][len - n..] == b.data[len..];
  }

  /** The header that is tried, and what taking it off leaves. */
  lemma HeaderTried(b: Buf, q: seq<Frame>)
    requires Holds(b, q) && q != []
    ensures var b2 := b.AfterTry(GENHDR).AfterOut(GENHDR);
      && b.TryBytes(GENHDR) == Header(|q[0].data|, q[0].dtype, q[0].fragoff)
      && b.AfterTry(GENHDR).AfterRetry(GENHDR) == b && b2.tried == 0
      && |b2.data| >= |q[0].data| && b2.data[..|q[0].data|] == q[0].data && b2.data[|q[0].data|..] == EncAll(q[1..])
  {
    hide Header;
    FirstFrame(b, q);
    assert b.data[GENHDR..][|q[0].data|..] == b.data[GENHDR + |q[0].data|..];
  }

  /** transmit_upcall removes exactly the first frame, if it is for this driver; if not,
      it leaves the buffer as it was. */
  lemma TransmitUpcallMeans(b: Buf, q: seq<Frame>, dtype: Word, maxlen: Word, stale: seq<Byte>)
    requires Holds(b, q) && |stale| == GENHDR
    ensures var r := TransmitUpcall(b, dtype, maxlen, stale);
      if q != [] && q[0].dtype == dtype
      then Holds(r.0, q[1..]) && r.1 == Some(q[0].data[..Min(|q[0].data|, maxlen)])
      else r == (b, None)
  {
    hide Header, Pair, Enc, EncAll;
    NonEmpty(b, q);
    if q != [] {
      var len, n := |q[0].data|, Min(|q[0].data|, maxlen);
      HeaderTried(b, q);
      HeaderParts(len, q[0].dtype, q[0].fragoff);
      var h := b.TryBytes(GENHDR);
      assert h + stale[|h|..] == h;
      var b2 := b.AfterTry(GENHDR).AfterOut(GENHDR);
      OutInTwo(b2, n, len);
      assert b2.data[..n] == b2.data[..len][..n];
    }
  }

  // ---- Whole runs: first in, first out ----

  datatype Op = Arrive(dtype: Word, data: seq<Byte>) | Get(want: Word)

  /** The receive queue, every frame that was accepted into it, every frame taken off it,
      those of them that were delivered, and whether it was ever found corrupt. */
  datatype RxRun = RxRun(b: Buf, accepted: seq<Frame>, removed: nat, delivered: seq<Frame>, corrupt: bool)

  function Step(r: RxRun, op: Op): (r': RxRun)
    requires r.b.Ok()
    ensures r'.b.Ok()
  {
    match op
    case Arrive(dtype, data) =>
      var b := ReceiveUpcall(r.b, dtype, data);
      r.(b := b, accepted := if |b.data| > |r.b.data| then r.accepted + [Frame(dtype, 0, Cut(data))] else r.accepted)
    case Get(want) =>
      var (b, f, bad) := GetNet(r.b, want);
      r.(b := b, removed := if |b.data| < |r.b.data| then r.removed + 1 else r.removed,
         delivered := if f.Some? then r.delivered + [f.value] else r.delivered, corrupt := r.corrupt || bad)
  }

  function Run(r: RxRun, ops: seq<Op>): (r': RxRun)
    requires r.b.Ok()
    ensures r'.b.Ok()
    decreases |ops|
  { if ops == [] then r else Run(Step(r, ops[0]), ops[1..]) }

  /** s is what is left of t when some elements are left out. */
  predicate Subsequence(s: seq<Frame>, t: seq<Frame>)
    decreases |t|
  {
    s == [] || (t != [] && (Subsequence(s, t[..|t| - 1]) ||
      (s[|s| - 1] == t[|t| - 1] && Subsequence(s[..|s| - 1], t[..|t| - 1]))))
  }

  /** Where in t the elements of s are, in order. */
  lemma {:induction false} Places(s: seq<Frame>, t: seq<Frame>) returns (at: seq<nat>)
    requires Subsequence(s, t)
    ensures |at| == |s| && forall k :: 0 <= k < |at| ==> at[k] < |t| && s[k] == t[at[k]]
    ensures forall j, k :: 0 <= j < k < |at| ==> at[j] < at[k]
    decreases |t|
  {
    if s == [] {
      at := [];
    } else if Subsequence(s, t[..|t| - 1]) {
      at := Places(s, t[..|t| - 1]);
    } else {
      at := Places(s[..|s| - 1], t[..|t| - 1]);
      at := at + [|t| - 1];
    }
  }

  /** Nothing is corrupt; what is in the buffer is what was accepted and not yet removed;
      what was delivered was removed in that order. */
  ghost predicate Fifo(r: RxRun) {
    && !r.corrupt && r.removed <= |r.accepted|
    && Holds(r.b, r.accepted[r.removed..]) && (forall f :: f in r.accepted[r.removed..] ==> Sane(f))
    && Subsequence(r.delivered, r.accepted[..r.removed])
  }

  lemma StepKeeps(r: RxRun, op: Op)
    requires r.b.Ok() && Fifo(r)
    ensures Fifo(Step(r, op))
  {
    match op {
      case Arrive(dtype, data) => ArriveKeeps(r, dtype, data);
      case Get(want) => GetKeeps(r, want);
    }
  }

  lemma ArriveKeeps(r: RxRun, dtype: Word, data: seq<Byte>)
    requires r.b.Ok() && Fifo(r)
    ensures Fifo(Step(r, Arrive(dtype, data)))
  {
    hide Subsequence, EncAll, ReceiveUpcall, GetNet, Holds;
    var q, f := r.accepted[r.removed..], Frame(dtype, 0, Cut(data));
    ReceiveUpcallMeans(r.b, q, dtype, data);
    ArriveGrows(r.b, dtype, data);
    assert (r.accepted + [f])[r.removed..] == q + [f];
    assert (r.accepted + [f])[..r.removed] == r.accepted[..r.removed];
  }

  lemma GetKeeps(r: RxRun, want: Word)
    requires r.b.Ok() && Fifo(r)
    ensures Fifo(Step(r, Get(want)))
  {
    hide Subsequence, EncAll, ReceiveUpcall, GetNet, Holds;
    var q := r.accepted[r.removed..];
    GetNetMeans(r.b, q, want);
    GetShrinks(r.b, q, want);
    if q != [] {
      OneOn(r.accepted, r.removed);
      SubsequenceGrows(r.delivered, r.accepted[..r.removed], q[0]);
    }
  }

  lemma OneOn(s: seq<Frame>, n: nat)
    requires n < |s|
    ensures s[..n + 1] == s[..n] + [s[n]] && s[n..][1..] == s[n + 1..] && s[n..][0] == s[n]
  {}

  lemma ArriveGrows(b: Buf, dtype: Word, data: seq<Byte>)
    requires b.Ok()
    ensures |ReceiveUpcall(b, dtype, data).data| > |b.data| <==> |Cut(data)| > 0 && b.Free() >= |Cut(data)| + GENHDR
  {}

  lemma GetShrinks(b: Buf, q: seq<Frame>, want: Word)
    requires Holds(b, q) && (q != [] ==> Sane(q[0]))
    ensures |GetNet(b, want).0.data| < |b.data| <==> q != []
  {
    GetNetMeans(b, q, want);
    NonEmpty(b, q);
    if q != [] { FirstFrame(b, q); }
  }

  lemma SubsequenceGrows(s: seq<Frame>, t: seq<Frame>, f: Frame)
    requires Subsequence(s, t)
    ensures Subsequence(s, t + [f]) && Subsequence(s + [f], t + [f])
  {
    assert (t + [f])[..|t|] == t && (s + [f])[..|s|] == s;
  }

  lemma {:induction false} RunKeeps(r: RxRun, ops: seq<Op>)
    requires r.b.Ok() && Fifo(r)
    ensures Fifo(Run(r, ops))
    decreases |ops|
  {
    hide Fifo, Step;
    if ops != [] {
      StepKeeps(r, ops[0]);
      RunKeeps(Step(r, ops[0]), ops[1..]);
    }
  }

  /** First in, first out: whatever frames arrive and however they are fetched, starting
      from an empty buffer anywhere in its 32-bit range, every header is read at a frame
      boundary, the buffer is never found corrupt, the buffer holds exactly the frames
      accepted and not yet removed, and those delivered are in order. */
  lemma QueueIsFifo(b: Buf, ops: seq<Op>)
    requires b.Ok() && b.data == []
    ensures var r := Run(RxRun(b, [], 0, [], false), ops);
      && !r.corrupt && r.removed <= |r.accepted|
      && (forall f :: f in r.accepted[r.removed..] ==> Sane(f))
      && r.b.data == EncAll(r.accepted[r.removed..])
      && Subsequence(r.delivered, r.accepted[..r.removed])
  {
    RunKeeps(RxRun(b, [], 0, [], false), ops);
  }

  /** If any driver type is taken, what is delivered is all that was removed. */
  lemma {:induction false} AllDelivered(r: RxRun, ops: seq<Op>)
    requires r.b.Ok() && Fifo(r) && r.delivered == r.accepted[..r.removed]
    requires forall k :: 0 <= k < |ops| && ops[k].Get? ==> ops[k].want == 0
    ensures var t := Run(r, ops); t.removed <= |t.accepted| && t.delivered == t.accepted[..t.removed]
    decreases |ops|
  {
    if ops != [] {
      StepKeeps(r, ops[0]);
      var q := r.accepted[r.removed..];
      if ops[0].Get? {
        GetNetMeans(r.b, q, 0);
        GetShrinks(r.b, q, 0);
      }
      AllDelivered(Step(r, ops[0]), ops[1..]);
    }
  }

  // ---- The transmit side: the driver takes the frames that are for it ----

  datatype TxOp = Put(f: Frame) | Pull(dtype: Word, maxlen: Word, stale: seq<Byte>)

  /** What a driver took: for which type, in a buffer of what length. */
  datatype Taken = Taken(dtype: Word, maxlen: Word, data: seq<Byte>)

  /** The transmit queue, every frame that was accepted into it, and what was taken off. */
  datatype TxRun = TxRun(b: Buf, accepted: seq<Frame>, taken: seq<Taken>)

  predicate Pullable(op: TxOp) { op.Pull? ==> |op.stale| == GENHDR }

  function TxStep(r: TxRun, op: TxOp): (r': TxRun)
    requires r.b.Ok() && Pullable(op)
    ensures r'.b.Ok()
  {
    match op
    case Put(f) =>
      var b := PutNet(r.b, f);
      TxRun(b, if |b.data| > |r.b.data| then r.accepted + [f.(data := Cut(f.data))] else r.accepted, r.taken)
    case Pull(dtype, maxlen, stale) =>
      var (b, d) := TransmitUpcall(r.b, dtype, maxlen, stale);
      TxRun(b, r.accepted, if d.Some? then r.taken + [Taken(dtype, maxlen, d.value)] else r.taken)
  }

  function TxRunAll(r: TxRun, ops: seq<TxOp>): (r': TxRun)
    requires r.b.Ok() && forall op :: op in ops ==> Pullable(op)
    ensures r'.b.Ok()
    decreases |ops|
  { if ops == [] then r else TxRunAll(TxStep(r, ops[0]), ops[1..]) }

  /** The driver took this frame, cut to its buffer. */
  predicate Took(t: Taken, f: Frame) { t.dtype == f.dtype && t.data == f.data[..Min(|f.data|, t.maxlen)] }

  /** The buffer holds what was accepted and not yet taken; each frame was taken in its turn. */
  ghost predicate TxFifo(r: TxRun) {
    && |r.taken| <= |r.accepted| && Holds(r.b, r.accepted[|r.taken|..])
    && forall k :: 0 <= k < |r.taken| ==> Took(r.taken[k], r.accepted[k])
  }

  lemma PutGrows(b: Buf, f: Frame)
    requires b.Ok()
    ensures |PutNet(b, f).data| > |b.data| <==> b.Free() >= |Cut(f.data)| + GENHDR
    ensures b.Free() < |Cut(f.data)| + GENHDR ==> PutNet(b, f) == b
  {}

  lemma PutKeeps(r: TxRun, f: Frame)
    requires r.b.Ok() && TxFifo(r)
    ensures TxFifo(TxStep(r, Put(f)))
  {
    hide PutNet, Holds, Took;
    var q, f' := r.accepted[|r.taken|..], f.(data := Cut(f.data));
    PutGrows(r.b, f);
    PutNetMeans(r.b, q, f);
    assert (r.accepted + [f'])[|r.taken|..] == q + [f'];
  }

  lemma PullKeeps(r: TxRun, dtype: Word, maxlen: Word, stale: seq<Byte>)
    requires r.b.Ok() && |stale| == GENHDR && TxFifo(r)
    ensures var t := TxStep(r, Pull(dtype, maxlen, stale));
      && TxFifo(t) && t.accepted == r.accepted
      && r.taken <= t.taken
      && (|t.taken| > |r.taken| <==> |r.taken| < |r.accepted| && r.accepted[|r.taken|].dtype == dtype)
      && (|t.taken| == |r.taken| ==> t == r)
  {
    hide TransmitUpcall, Holds;
    var q := r.accepted[|r.taken|..];
    TransmitUpcallMeans(r.b, q, dtype, maxlen, stale);
    if q != [] { assert q[0] == r.accepted[|r.taken|] && q[1..] == r.accepted[|r.taken| + 1..]; }
  }

  lemma {:induction false} TxRunKeeps(r: TxRun, ops: seq<TxOp>)
    requires r.b.Ok() && TxFifo(r) && forall op :: op in ops ==> Pullable(op)
    ensures TxFifo(TxRunAll(r, ops))
    decreases |ops|
  {
    hide TxFifo, TxStep;
    if ops != [] {
      assert Pullable(ops[0]);
      match ops[0] {
        case Put(f) => PutKeeps(r, f);
        case Pull(dtype, maxlen, stale) => PullKeeps(r, dtype, maxlen, stale);
      }
      TxRunKeeps(TxStep(r, ops[0]), ops[1..]);
    }
  }

  /** First in, first out on the transmit side: whatever frames are put, and whichever
      drivers ask in whatever order, starting from an empty buffer anywhere in its 32-bit
      range, the frames are taken in the order they were accepted, each once, whole up to
      the driver's length, by a driver of their type, and the buffer holds exactly those
      not yet taken. */
  lemma TransmitIsFifo(b: Buf, ops: seq<TxOp>)
    requires b.Ok() && b.data == [] && forall op :: op in ops ==> Pullable(op)
    ensures var r := TxRunAll(TxRun(b, [], []), ops);
      && |r.taken| <= |r.accepted|
      && (forall f :: f in r.accepted[|r.taken|..] ==> Fits(f)) && r.b.data == EncAll(r.accepted[|r.taken|..])
      && (forall k :: 0 <= k < |r.taken| ==> Took(r.taken[k], r.accepted[k]))
  {
    assert TxFifo(TxRun(b, [], [])) && b.tried == 0;
    TxRunKeeps(TxRun(b, [], []), ops);
  }

  /** The first frame blocks all behind it: as long as no driver asks for its type, nothing
      is taken, whatever else is asked for. */
  lemma {:induction false} HeadBlocks(r: TxRun, ops: seq<TxOp>)
    requires r.b.Ok() && TxFifo(r) && |r.taken| < |r.accepted| && forall op :: op in ops ==> Pullable(op)
    requires forall op :: op in ops && op.Pull? ==> op.dtype != r.accepted[|r.taken|].dtype
    ensures TxRunAll(r, ops).taken == r.taken
    decreases |ops|
  {
    hide TxFifo, TxStep;
    if ops != [] {
      assert ops[0] in ops && Pullable(ops[0]) && forall op :: op in ops[1..] ==> op in ops;
      var t := TxStep(r, ops[0]);
      match ops[0] {
        case Put(f) =>
          PutKeeps(r, f);
          assert r.accepted <= t.accepted && t.taken == r.taken by { PutTakesNothing(r, f); }
        case Pull(dtype, maxlen, stale) => PullKeeps(r, dtype, maxlen, stale);
      }
      HeadBlocks(t, ops[1..]);
    }
  }

  lemma PutTakesNothing(r: TxRun, f: Frame)
    requires r.b.Ok()
    ensures var t := TxStep(r, Put(f)); r.accepted <= t.accepted && t.taken == r.taken
  {}

  // ---- The queues as the program keeps them ----

  class Queues {
    const rxpkts: CBuff
    const txpkts: CBuff

    ghost predicate Valid()
      reads this, rxpkts, txpkts, rxpkts.data, txpkts.data
    { rxpkts != txpkts && rxpkts.data != txpkts.data && rxpkts.Valid() && txpkts.Valid() }

    constructor (len: nat)
      requires GoodLen(len)
      ensures Valid() && Holds(rxpkts.buf, []) && Holds(txpkts.buf, [])
    {
      rxpkts := new CBuff(len);
      txpkts := new CBuff(len);
    }

    method RxUpcall(dtype: Word, data: seq<Byte>) returns (len: nat)
      requires Valid() && |data| < 0x1_0000
      modifies rxpkts, rxpkts.data
      ensures Valid() && rxpkts.buf == ReceiveUpcall(old(rxpkts.buf), dtype, data)
      ensures len == if old(rxpkts.buf.Free()) >= |Cut(data)| + GENHDR then |Cut(data)| else 0
    {
      hide Represents, Header;
      var d := Cut(data);
      len := |d|;
      var free := rxpkts.FreeLen();
      if len > 0 && free >= len + GENHDR {
        var _ := rxpkts.In(Header(len, dtype, 0));
        var _ := rxpkts.In(d);
      } else {
        len := 0;
      }
    }

    /** For a given driver type, the frame's fragment offset stays as the caller had it. */
    method GetFrame(want: Word, kept: Word) returns (f: Option<Frame>, corrupt: bool)
      requires Valid()
      modifies rxpkts
      ensures var r := GetNet(old(rxpkts.buf), want);
        && Valid() && rxpkts.buf == r.0 && corrupt == r.2
        && f == if want != 0 && r.1.Some? then Some(r.1.value.(fragoff := kept)) else r.1
    {
      hide Represents, Pair;
      f, corrupt := None, false;
      var dlen := rxpkts.Dlen();
      if dlen >= GENHDR {
        var h := rxpkts.Out(GENHDR);
        var len, dtype := Pair(h[1], h[0]), Pair(h[3], h[2]);
        if len < 1 || len > MAXFRAME {
          rxpkts.Pointers();
          rxpkts.SetAll(rxpkts.inp);
          corrupt := true;
        } else if dtype == want || want == 0 {
          var data := rxpkts.Out(len);
          f := Some(Frame(dtype, if want == 0 then Pair(h[5], h[4]) else kept, data));
        } else {
          var _ := rxpkts.Out(len);
        }
      }
    }

    method TxPut(f: Frame)
      requires Valid() && |f.data| < 0x1_0000
      modifies txpkts, txpkts.data
      ensures Valid() && txpkts.buf == PutNet(old(txpkts.buf), f)
    {
      hide Represents, Header;
      var len := Min(|f.data|, MAXFRAME);
      var free := txpkts.FreeLen();
      if free >= len + GENHDR { var _ := txpkts.In(Header(len, f.dtype, f.fragoff) + f.data[..len]); }
    }

    method TxUpcall(dtype: Word, maxlen: Word, stale: seq<Byte>) returns (data: Option<seq<Byte>>)
      requires Valid() && |stale| == GENHDR
      modifies txpkts
      ensures Valid() && (txpkts.buf, data) == TransmitUpcall(old(txpkts.buf), dtype, maxlen, stale)
    {
      hide Represents, Pair;
      data := None;
      var dlen := txpkts.Dlen();
      if dlen >= 4 {
        var got := txpkts.Try(GENHDR);
        var h := got + stale[|got|..];
        var len := Pair(h[1], h[0]);
        var n := Min(len, maxlen);
        if Pair(h[3], h[2]) == dtype {
          var _ := txpkts.Out(GENHDR);
          var d := txpkts.Out(n);
          data := Some(d);
          if n < len { var _ := txpkts.Out(len - n); }
        } else {
          var _ := txpkts.Retry(GENHDR);
        }
      }
    }
  }
}
