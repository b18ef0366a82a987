/** The receive window of p16_eth.c: a small buffer through which a packet in the network
    controller's ring of RAM pages is read, byte by byte, backwards and forwards. */
module EthRx {
  import opened Words
  import PicSum
  import opened Checksum

  const RXSTART := 0x46
  const RXSTOP := 0x5f
  const RINGSTART := 0x4600
  const RINGSTOP := 0x5f00
  const RINGSIZE := 0x1900
  const NICSIZE := 0x1_0000
  const RXBUFFLEN := 42
  const RXMARGIN := 10
  const TXBUFFLEN := 42
  const TXMARGIN := 10
  const MAXFRAME := 1514
  const TXBASE := 0x400e
  const ETHERHDR := 14

  /** The length of IP and UDP headers, and what the first load brings in behind them. */
  const HEADERS := 28
  const BEHIND := 14

  // ---- The ring ----

  predicate InRing(addr: int) { RINGSTART <= addr < RINGSTOP }

  /** The address n bytes on, going round from the last page to the first. */
  function RingAdd(addr: int, n: nat): (r: int)
    requires InRing(addr) && n < RINGSIZE
    ensures InRing(r)
  { if addr + n < RINGSTOP then addr + n else addr + n - RINGSIZE }

  lemma RingSteps(addr: int, m: nat, n: nat)
    requires InRing(addr) && m + n < RINGSIZE
    ensures RingAdd(RingAdd(addr, m), n) == RingAdd(addr, m + n)
  {}

  /** Two places in a packet are never at the same address. */
  lemma RingInjective(addr: int, m: nat, n: nat)
    requires InRing(addr) && m < RINGSIZE && n < RINGSIZE && RingAdd(addr, m) == RingAdd(addr, n)
    ensures m == n
  {}

  /** n bytes of the controller's RAM, going round. */
  function ReadRing(ram: seq<Byte>, addr: int, n: nat): (s: seq<Byte>)
    requires |ram| >= RINGSTOP && InRing(addr) && n <= RINGSIZE
    ensures |s| == n
  { seq(n, i requires 0 <= i < n => ram[RingAdd(addr, i)]) }

  /** Where the ring is crossed, a packet is in two pieces. */
  lemma ReadRingPieces(ram: seq<Byte>, addr: int, n: nat)
    requires |ram| >= RINGSTOP && InRing(addr) && n <= RINGSIZE
    ensures ReadRing(ram, addr, n) ==
      if addr + n <= RINGSTOP then ram[addr..addr + n]
      else ram[addr..RINGSTOP] + ram[RINGSTART..addr + n - RINGSIZE]
  {}

  /** nicwrap: a page number one step outside the ring. */
  function NicWrap(page: Byte): (p: Byte)
    requires RXSTART - 1 <= page <= RXSTOP
    ensures RXSTART <= p < RXSTOP
  {
    if page >= RXSTOP then page - (RXSTOP - RXSTART)
    else if page < RXSTART then page + (RXSTOP - RXSTART) else page
  }

  /** The next page and the one before it, round the ring. */
  lemma NicWrapInverse(page: Byte)
    requires RXSTART <= page < RXSTOP
    ensures NicWrap(NicWrap(page + 1) - 1) == page && NicWrap(NicWrap(page - 1) + 1) == page
    ensures NicWrap(page + 1) * 0x100 == RingAdd(page * 0x100, 0x100)
  {}

  /** Two parts of a packet, the second of which begins where the first ends or is empty. */
  lemma Joined(h: seq<Byte>, s: seq<Byte>, a: nat, m: nat, b: nat, n: nat)
    requires a + m + n <= |s| && b + n <= |s| && (n == 0 || b == a + m)
    ensures h + s[a..a + m] + s[b..b + n] == h + s[a..a + m + n]
  {
    assert s[a..a + m] + s[b..b + n] == s[a..a + m + n];
  }

  /** Behind the same bytes, what begins with `first` and is a part of s, has it there. */
  lemma Begins(h: seq<Byte>, first: seq<Byte>, s: seq<Byte>, pos: nat, n: nat)
    requires pos + n <= |s| && h + first <= h + s[pos..pos + n]
    ensures |first| <= n && first == s[pos..pos + |first|]
  {
    var t := s[pos..pos + n];
    assert forall k :: 0 <= k < |first| ==> first[k] == (h + first)[|h| + k] == (h + t)[|h| + k] == t[k];
  }

  lemma Parts(s: seq<Byte>, pos: nat, k: nat, n: nat, t: seq<Byte>)
    requires pos + k + n <= |s| && |t| == n
    ensures s[pos..pos + k + n] == s[pos..pos + k] + t <==> s[pos + k..pos + k + n] == t
  {
    assert s[pos..pos + k + n] == s[pos..pos + k] + s[pos + k..pos + k + n];
    assert (s[pos..pos + k] + t)[k..] == t && s[pos..pos + k + n][k..] == s[pos + k..pos + k + n];
  }

  lemma Unread(s: seq<Byte>, pos: nat, len: nat, n: nat)
    requires pos + len <= |s| && n <= len
    ensures s[pos..pos + len][n..] == s[pos + n..pos + len] && s[pos..pos + len][..n] == s[pos..pos + n]
  {}

  lemma Headed(s: seq<Byte>, t: seq<Byte>, n: nat)
    requires |s| <= n <= |s + t|
    ensures (s + t)[..n] == s + t[..n - |s|]
  {}

  /** The part from o to e of a sequence whose first b elements are those of t. */
  lemma Spliced(s: seq<Byte>, t: seq<Byte>, o: nat, b: nat, e: nat)
    requires o <= b <= e <= |s| && b <= |t| && s[..b] == t[..b]
    ensures s[o..e] == t[o..b] + s[b..e]
  {
    assert s[o..b] == s[..b][o..] && t[o..b] == t[..b][o..];
  }

  /** A sum of 16 bits. */
  function Wrapped(x: nat): nat
    requires x < 0x2_0000
  { if x < 0x1_0000 then x else x - 0x1_0000 }

  /** How many of n bytes there is room for. */
  function Room(txin: nat, n: nat): nat { Min(n, Max(MAXFRAME - txin, 0)) }

  lemma RoomSplits(txin: nat, c: nat, n: nat)
    requires txin <= MAXFRAME
    ensures var k := Room(txin, c); var m := Room(txin + k, n);
      k + m == Room(txin, c + n) && (m > 0 ==> k == c) && k <= c && m <= n && txin + k + m <= MAXFRAME
  {}

  // ---- Reading a packet, as its readers see it ----

  datatype ReadOp = Get | Unget | SetPos(pos: Word) | Truncate(len: Word) | CopyOut(maxlen: Word) | PutOut(b: Byte)

  datatype Reply = Got(b: Byte) | Count(n: nat) | Yes | No

  /** The read position, the end of the data, and whether the last operation on it read a
      byte, which may then be pushed back. */
  datatype Reader = Reader(pos: nat, end: nat, just: bool)

  /** Each operation on a packet that is simply a sequence with an index. Truncation is
      only asked for with sums that fit 16 bits. */
  function ReadStep(p: seq<Byte>, r: Reader, op: ReadOp): (Reader, Reply) {
    match op
    case Get =>
      if r.pos < r.end && r.pos < |p| then (Reader(r.pos + 1, r.end, true), Got(p[r.pos]))
      else (r.(just := false), No)
    case Unget => if r.just && r.pos > 0 then (Reader(r.pos - 1, r.end, false), Yes) else (r, No)
    case SetPos(pos) => if pos <= r.end then (Reader(pos, r.end, false), Yes) else (r, No)
    case Truncate(len) =>
      if r.pos + len < 0x1_0000 then (Reader(r.pos, Min(r.end, r.pos + len), false), Yes) else (r, No)
    case CopyOut(maxlen) =>
      var n := Min(maxlen, Max(r.end - r.pos, 0));
      (Reader(r.pos + n, r.end, false), Count(n))
    case PutOut(b) => (r, Yes)
  }

  function ReadAll(p: seq<Byte>, r: Reader, ops: seq<ReadOp>): seq<Reply>
    decreases |ops|
  { if ops == [] then [] else [ReadStep(p, r, ops[0]).1] + ReadAll(p, ReadStep(p, r, ops[0]).0, ops[1..]) }

  function Reads(p: seq<Byte>, r: Reader, ops: seq<ReadOp>): Reader
    decreases |ops|
  { if ops == [] then r else Reads(p, ReadStep(p, r, ops[0]).0, ops[1..]) }

  lemma {:induction false} ReadOneMore(p: seq<Byte>, r: Reader, ops: seq<ReadOp>, k: nat)
    requires k < |ops|
    ensures var t := Reads(p, r, ops[..k]);
      && Reads(p, r, ops[..k + 1]) == ReadStep(p, t, ops[k]).0
      && ReadAll(p, r, ops[..k + 1]) == ReadAll(p, r, ops[..k]) + [ReadStep(p, t, ops[k]).1]
      && |ReadAll(p, r, ops[..k])| == k
    decreases k
  {
    hide ReadStep;
    if k == 0 {
      assert ops[..1] == [ops[0]] && [ops[0]][1..] == [] && ops[..0] == [];
    } else {
      assert ops[..k][1..] == ops[1..][..k - 1] && ops[..k + 1][1..] == ops[1..][..k];
      ReadOneMore(p, ReadStep(p, r, ops[0]).0, ops[1..], k - 1);
    }
  }

  // ---- The window ----

  class RxWindow {
    const ram: seq<Byte>
    var curr_rx_addr: int
    var net_rxin: nat
    var rxout: nat
    var rxbuffin: nat
    var rxbuffout: nat
    const rxbuff: array<Byte>
    var nic_tx_transfer: bool
    var dma: Word
    var txin: nat
    var txbuffin: nat
    var net_txlen: nat
    var rx_checkoff: bool
    const sum: PicSum.Summer
    /** The packet's length when it came in, and the bytes put into the transmit buffer. */
    ghost var length: nat
    ghost var handed: seq<Byte>

    /** The packet, as it lies in the ring. */
    ghost function Packet(): (s: seq<Byte>)
      requires |ram| >= RINGSTOP && InRing(curr_rx_addr) && length < RINGSIZE
      reads this`curr_rx_addr, this`length
      ensures |s| == length
    { ReadRing(ram, curr_rx_addr, length) }

    ghost predicate Shape()
      reads this`curr_rx_addr, this`net_rxin, this`rxout, this`rxbuffin, this`rxbuffout, this`length
    {
      && |ram| == NICSIZE && InRing(curr_rx_addr) && length <= MAXFRAME
      && rxbuff.Length == RXBUFFLEN && rxbuffout <= rxbuffin <= RXBUFFLEN && rxbuffout <= rxout
      && rxout + (rxbuffin - rxbuffout) <= net_rxin <= length
    }

    /** Unread bytes in the buffer are the packet's next bytes. */
    ghost predicate Agrees()
      requires Shape()
      reads this`curr_rx_addr, this`net_rxin, this`rxout, this`rxbuffin, this`rxbuffout, this`length, rxbuff
    { rxbuff[rxbuffout..rxbuffin] == Packet()[rxout..rxout + (rxbuffin - rxbuffout)] }

    /** Unless the controller is set up for transmission it is set to read in the ring, if
        there is anything left to load the byte after those in the buffer. */
    ghost predicate Ready()
      requires Shape()
      reads this`curr_rx_addr, this`net_rxin, this`rxout, this`rxbuffin, this`rxbuffout, this`length
      reads this`nic_tx_transfer, this`dma
    {
      !nic_tx_transfer ==> InRing(dma) && (rxout + (rxbuffin - rxbuffout) < net_rxin ==>
        dma == RingAdd(curr_rx_addr, rxout + (rxbuffin - rxbuffout)))
    }

    /** The window agrees with the packet. */
    ghost predicate Valid()
      reads this`curr_rx_addr, this`net_rxin, this`rxout, this`rxbuffin, this`rxbuffout
      reads this`nic_tx_transfer, this`dma, this`length, rxbuff
    { Shape() && Agrees() && Ready() }

    /** All that the operations need of the numbers, whether the window agrees or not. */
    predicate Steady()
      reads this`curr_rx_addr, this`net_rxin, this`rxout, this`rxbuffin, this`rxbuffout
    {
      && |ram| == NICSIZE && InRing(curr_rx_addr) && rxbuff.Length == RXBUFFLEN
      && rxbuffout <= rxbuffin <= RXBUFFLEN && net_rxin < 0x1_0000 && rxout < 0x1_0000
    }

    /** rxleft: how much is left, in 16 bits. */
    function Left(): nat
      requires Steady()
      reads this`curr_rx_addr, this`net_rxin, this`rxout, this`rxbuffin, this`rxbuffout
    { if rxout <= net_rxin then net_rxin - rxout else net_rxin - rxout + 0x1_0000 }

    /** A packet has come in: init_rxbuff. */
    constructor (ram: seq<Byte>, addr: int, length: nat)
      requires |ram| == NICSIZE && InRing(addr) && length <= MAXFRAME
      ensures Valid() && rxout == 0 && net_rxin == length && handed == []
      ensures Packet() == ReadRing(ram, addr, length) && this.length == length && this.ram == ram
      ensures rxbuffin == rxbuffout == txbuffin == txin == 0 && fresh(sum) && fresh(rxbuff)
      ensures !nic_tx_transfer && dma == curr_rx_addr == addr
    {
      this.ram, curr_rx_addr, this.length, net_rxin := ram, addr, length, length;
      rxout, rxbuffin, rxbuffout, txin, txbuffin, net_txlen, handed := 0, 0, 0, 0, 0, 0, [];
      rxbuff := new Byte[RXBUFFLEN](_ => 0);
      nic_tx_transfer, dma, rx_checkoff := false, addr, false;
      sum := new PicSum.Summer();
    }

    /** The sum has 16 bits; a place in the packet is in the ring. */
    method SetNicRx(addr: nat)
      requires InRing(curr_rx_addr) && addr < 0x1_0000
      modifies this`dma, this`nic_tx_transfer
      ensures !nic_tx_transfer && (addr < RINGSIZE ==> dma == RingAdd(curr_rx_addr, addr))
    {
      var a: int := Wrapped(addr + curr_rx_addr);
      if a >= RXSTOP * 256 { a := a + (RXSTART - RXSTOP) * 256; }
      dma := a;
      nic_tx_transfer := false;
    }

    /** The controller hands over bytes one at a time, its address going round the ring by
        itself. */
    method GetNicRxBuff(len: nat)
      requires |ram| == NICSIZE && rxbuff.Length == RXBUFFLEN && rxbuffin + len <= RXBUFFLEN
      modifies this`rxbuffin, this`dma, rxbuff
      ensures rxbuffin == old(rxbuffin) + len && rxbuff[..old(rxbuffin)] == old(rxbuff[..rxbuffin])
      ensures InRing(old(dma)) ==>
        && dma == RingAdd(old(dma), len)
        && rxbuff[old(rxbuffin)..rxbuffin] == ReadRing(ram, old(dma), len)
        && rxbuff[old(rxbuffin)..rxbuffin] ==
          if old(dma) + len <= RINGSTOP then ram[old(dma)..old(dma) + len]
          else ram[old(dma)..RINGSTOP] + ram[RINGSTART..old(dma) + len - RINGSIZE]
    {
      if InRing(dma) { ReadRingPieces(ram, dma, len); }
      for n := 0 to len
        invariant rxbuffin == old(rxbuffin) + n && rxbuff[..old(rxbuffin)] == old(rxbuff[..rxbuffin])
        invariant InRing(old(dma)) ==>
          dma == RingAdd(old(dma), n) && rxbuff[old(rxbuffin)..rxbuffin] == ReadRing(ram, old(dma), n)
      {
        rxbuff[rxbuffin] := ram[dma];
        rxbuffin := rxbuffin + 1;
        dma := if dma + 1 == RINGSTOP then RINGSTART else if dma + 1 == NICSIZE then 0 else dma + 1;
      }
    }

    /** How many bytes of the buffer have not been read. */
    function Held(): int
      reads this`rxbuffin, this`rxbuffout
    { rxbuffin - rxbuffout }

    /** Where the next load reads: where the controller stands, or, after a transfer the
        other way, the read position, whatever is still unread in the buffer. */
    ghost function LoadAddress(): (a: int)
      requires Valid()
      reads this`curr_rx_addr, this`net_rxin, this`rxout, this`rxbuffin, this`rxbuffout
      reads this`nic_tx_transfer, this`dma, this`length, rxbuff
      ensures InRing(a)
    { if nic_tx_transfer then RingAdd(curr_rx_addr, rxout) else dma }

    /** load_rxbuff: unread bytes are moved down to the margin, and n bytes are loaded
        behind them. A window that agreed with the packet still does if and only if nothing
        is loaded; or nothing was unread; or the load ends inside the packet, and continues
        where the buffer ended: after a transfer the other way it does not, and agrees only
        if it ends the packet and repeats what stands there. */
    method LoadRxBuff(margin: nat, count: nat) returns (n: nat)
      requires Steady() && margin <= RXMARGIN
      modifies this`rxbuffin, this`rxbuffout, this`dma, this`nic_tx_transfer, rxbuff
      ensures rxbuffout == Min(old(rxbuffout), margin) && rxbuffin == rxbuffout + old(Held()) + n <= RXBUFFLEN
      ensures Steady() && n == Min(Min(count, Left()), RXBUFFLEN - rxbuffout - old(Held()))
      ensures old(Valid()) ==>
        && rxbuff[rxbuffout..rxbuffin] ==
          old(Packet()[rxout..rxout + Held()]) + ReadRing(ram, old(LoadAddress()), n)
        && (n > 0 ==> !nic_tx_transfer && dma == RingAdd(old(LoadAddress()), n))
        && (Valid() <==> n == 0 || old(Held()) == 0 || Continues(old(Held()), n, old(nic_tx_transfer)))
    {
      hide RingAdd, ReadRing, Valid, Continues;
      if Valid() { Bounds(); }
      MoveDown(margin);
      n := Min(Min(count, Left()), RXBUFFLEN - rxbuffin);
      if n != 0 { LoadBehind(n); } else if old(Valid()) { assert ReadRing(ram, old(LoadAddress()), 0) == []; }
    }

    /** n bytes are loaded behind the unread ones. */
    method LoadBehind(n: nat)
      requires Steady() && 0 < n && rxbuffin + n <= RXBUFFLEN
      modifies this`rxbuffin, this`dma, this`nic_tx_transfer, rxbuff
      ensures Steady() && rxbuffin == old(rxbuffin) + n
      ensures old(Valid()) && rxout + n <= net_rxin ==>
        && rxbuff[rxbuffout..rxbuffin] ==
          old(Packet()[rxout..rxout + Held()]) + ReadRing(ram, old(LoadAddress()), n)
        && !nic_tx_transfer && dma == RingAdd(old(LoadAddress()), n)
        && (Valid() <==> old(Held()) == 0 || Continues(old(Held()), n, old(nic_tx_transfer)))
    {
      hide RingAdd, ReadRing, Continues, Valid;
      ghost var agreed, base, k, wasTx := Valid() && rxout + n <= net_rxin, rxbuffin, Held(), nic_tx_transfer;
      ghost var from := if agreed then LoadAddress() else 0;
      if agreed { LoadsAt(from); }
      if nic_tx_transfer { SetNicRx(rxout); }
      GetNicRxBuff(n);
      if agreed {
        Spliced(rxbuff[..], old(rxbuff[..]), rxbuffout, base, rxbuffin);
        LoadedAgrees(old(Packet()[rxout..rxout + Held()]), k, n, from, wasTx);
      }
    }

    /** Where a load reads, and what is in the buffer before it. */
    lemma LoadsAt(from: int)
      requires Valid() && from == LoadAddress()
      ensures |ram| == NICSIZE && InRing(curr_rx_addr) && InRing(from) && net_rxin <= length <= MAXFRAME
      ensures rxbuffout <= rxout && rxout + Held() <= net_rxin
      ensures rxbuff[rxbuffout..rxbuffin] == Packet()[rxout..rxout + Held()]
      ensures nic_tx_transfer ==> from == RingAdd(curr_rx_addr, rxout)
      ensures !nic_tx_transfer ==>
        from == dma && (rxout + Held() < net_rxin ==> from == RingAdd(curr_rx_addr, rxout + Held()))
    {
      hide ReadRing;
    }

    /** Whether bytes loaded behind k unread ones continue them. */
    ghost predicate Continues(k: nat, n: nat, wasTx: bool)
      requires |ram| >= RINGSTOP && InRing(curr_rx_addr) && length < RINGSIZE && net_rxin <= length
      reads this`curr_rx_addr, this`length, this`net_rxin, this`rxout
    {
      rxout + k + n <= net_rxin && (wasTx ==>
        rxout + k + n == net_rxin && Packet()[rxout..rxout + n] == Packet()[rxout + k..rxout + k + n])
    }

    /** The unread bytes are moved down to the margin, if they are behind it. */
    method MoveDown(margin: nat)
      requires Steady() && margin <= RXMARGIN
      modifies this`rxbuffin, this`rxbuffout, rxbuff
      ensures Steady() && rxbuffout == Min(old(rxbuffout), margin) && Held() == old(Held())
      ensures old(Valid()) ==>
        && Valid() && LoadAddress() == old(LoadAddress())
        && rxbuff[rxbuffout..rxbuffin] == old(Packet()[rxout..rxout + Held()])
    {
      hide RingAdd, ReadRing;
      if rxbuffout > margin { MoveBytes(margin); }
    }

    /** One byte at a time. */
    method MoveBytes(margin: nat)
      requires margin < rxbuffout <= rxbuffin <= rxbuff.Length
      modifies this`rxbuffin, this`rxbuffout, rxbuff
      ensures rxbuffout == margin && Held() == old(Held())
      ensures rxbuff[rxbuffout..rxbuffin] == old(rxbuff[rxbuffout..rxbuffin])
    {
      ghost var o, k := rxbuffout, Held();
      ghost var unread := rxbuff[o..o + k];
      var in_ := margin;
      while rxbuffout < rxbuffin
        invariant o <= rxbuffout <= rxbuffin == o + k && in_ == margin + (rxbuffout - o)
        invariant rxbuff[margin..in_] == unread[..rxbuffout - o]
        invariant rxbuff[rxbuffout..rxbuffin] == unread[rxbuffout - o..]
      {
        assert rxbuff[rxbuffout] == rxbuff[rxbuffout..rxbuffin][0] == unread[rxbuffout - o];
        assert rxbuff[rxbuffout + 1..rxbuffin] == unread[rxbuffout - o..][1..];
        rxbuff[in_] := rxbuff[rxbuffout];
        in_ := in_ + 1;
        rxbuffout := rxbuffout + 1;
      }
      assert unread[..k] == unread;
      rxbuffin := in_;
      rxbuffout := margin;
    }

    /** A window with n bytes just loaded behind k unread ones, read from the packet's
        position `start`. */
    ghost predicate Loaded(unread: seq<Byte>, k: nat, n: nat, start: nat)
      reads this`curr_rx_addr, this`net_rxin, this`rxout, this`rxbuffin, this`rxbuffout
      reads this`nic_tx_transfer, this`dma, this`length, rxbuff
    {
      && |ram| == NICSIZE && InRing(curr_rx_addr) && length <= MAXFRAME && net_rxin <= length
      && rxbuff.Length == RXBUFFLEN && rxbuffout <= rxout && rxbuffin == rxbuffout + k + n <= RXBUFFLEN && n > 0
      && rxout + k + n <= net_rxin && start + n <= net_rxin && unread == Packet()[rxout..rxout + k]
      && rxbuff[rxbuffout..rxbuffin] == unread + Packet()[start..start + n]
      && !nic_tx_transfer && dma == RingAdd(curr_rx_addr, start + n)
    }

    /** It agrees with the packet if the bytes are those that come next. */
    lemma LoadedNext(unread: seq<Byte>, k: nat, n: nat)
      requires Loaded(unread, k, n, rxout + k)
      ensures Valid()
    {
      hide RingAdd, ReadRing;
      ghost var p := Packet();
      assert p[rxout..rxout + k + n] == p[rxout..rxout + k] + p[rxout + k..rxout + k + n];
    }

    /** If they are the unread bytes over again, only at the end of the packet, if the same
        bytes stand there twice. */
    lemma LoadedAgain(unread: seq<Byte>, k: nat, n: nat)
      requires Loaded(unread, k, n, rxout) && k > 0
      ensures Valid() <==> rxout + k + n == net_rxin && Packet()[rxout..rxout + n] == Packet()[rxout + k..rxout + k + n]
    {
      AgreesAgain(unread, k, n);
      ReadyAgain(unread, k, n);
      hide RingAdd, ReadRing, InRing, Loaded, Agrees, Ready;
    }

    lemma AgreesAgain(unread: seq<Byte>, k: nat, n: nat)
      requires Loaded(unread, k, n, rxout)
      ensures Shape()
      ensures Agrees() <==> Packet()[rxout..rxout + n] == Packet()[rxout + k..rxout + k + n]
    {
      hide RingAdd, ReadRing, InRing;
      Parts(Packet(), rxout, k, n, Packet()[rxout..rxout + n]);
    }

    lemma ReadyAgain(unread: seq<Byte>, k: nat, n: nat)
      requires Loaded(unread, k, n, rxout) && k > 0 && Shape()
      ensures Ready() <==> rxout + k + n == net_rxin
    {
      AddressesDiffer(k, n);
    }

    lemma AddressesDiffer(k: nat, n: nat)
      requires InRing(curr_rx_addr) && k > 0 && rxout + k + n < RINGSIZE
      ensures RingAdd(curr_rx_addr, rxout + n) != RingAdd(curr_rx_addr, rxout + k + n)
    {
      if RingAdd(curr_rx_addr, rxout + n) == RingAdd(curr_rx_addr, rxout + k + n) {
        RingInjective(curr_rx_addr, rxout + n, rxout + k + n);
      }
    }

    /** Exactly when a window with bytes just loaded agrees with the packet. */
    lemma LoadedAgrees(unread: seq<Byte>, k: nat, n: nat, from: int, wasTx: bool)
      requires |ram| == NICSIZE && InRing(curr_rx_addr) && length <= MAXFRAME && net_rxin <= length
      requires rxbuff.Length == RXBUFFLEN && rxbuffout <= rxout && rxbuffin == rxbuffout + k + n <= RXBUFFLEN && n > 0
      requires rxout + k <= net_rxin && rxout + n <= net_rxin && unread == Packet()[rxout..rxout + k] && InRing(from)
      requires wasTx ==> from == RingAdd(curr_rx_addr, rxout)
      requires !wasTx && rxout + k < net_rxin ==> from == RingAdd(curr_rx_addr, rxout + k)
      requires rxbuff[rxbuffout..rxbuffin] == unread + ReadRing(ram, from, n)
      requires !nic_tx_transfer && dma == RingAdd(from, n)
      ensures Valid() <==> k == 0 || Continues(k, n, wasTx)
    {
      hide RingAdd, ReadRing;
      if rxout + k + n <= net_rxin {
        var start := if wasTx then rxout else rxout + k;
        PacketPart(start, n);
        RingSteps(curr_rx_addr, start, n);
        assert Loaded(unread, k, n, start);
        if start == rxout + k { LoadedNext(unread, k, n); } else { LoadedAgain(unread, k, n); }
      }
    }

    /** What is read from the packet's place in the ring is a part of the packet. */
    lemma PacketPart(pos: nat, n: nat)
      requires |ram| >= RINGSTOP && InRing(curr_rx_addr) && length <= MAXFRAME && pos + n <= length
      ensures ReadRing(ram, RingAdd(curr_rx_addr, pos), n) == Packet()[pos..pos + n]
    {
      forall i | 0 <= i < n
        ensures ReadRing(ram, RingAdd(curr_rx_addr, pos), n)[i] == Packet()[pos..pos + n][i]
      {
        RingSteps(curr_rx_addr, pos, i);
      }
    }

    /** The next byte of the packet; it fails exactly at the end of the data. Unless that is
        turned off, the byte is added to the running checksum. */
    method GetByte() returns (ok: bool, b: Byte)
      requires Valid()
      modifies this`rxout, this`rxbuffin, this`rxbuffout, this`dma, this`nic_tx_transfer, rxbuff, sum
      ensures Valid() && ok == (old(rxout) < net_rxin)
      ensures ok ==> b == Packet()[old(rxout)] && rxout == old(rxout) + 1 && rxbuffout > 0
      ensures !ok ==> rxout == old(rxout)
      ensures ok && old(Held()) == 0 ==> !nic_tx_transfer && dma == RingAdd(old(LoadAddress()), Held() + 1)
      ensures ok && old(Held()) == 0 ==>
        Held() + 1 == Min(net_rxin - old(rxout), RXBUFFLEN - Min(old(rxbuffout), RXMARGIN))
      ensures ok && old(Held()) > 0 ==>
        Held() + 1 == old(Held()) && nic_tx_transfer == old(nic_tx_transfer) && dma == old(dma)
      ensures if ok && !rx_checkoff
        then sum.Sum() == Canon(old(sum.Sum()) + PicSum.Weight(old(sum.checkflag), b))
          && sum.checkflag == !old(sum.checkflag)
        else sum.Sum() == old(sum.Sum()) && sum.checkflag == old(sum.checkflag)
    {
      ok, b := NextByte();
      if ok && !rx_checkoff { sum.CheckByte(b); }
    }

    method NextByte() returns (ok: bool, b: Byte)
      requires Valid()
      modifies this`rxout, this`rxbuffin, this`rxbuffout, this`dma, this`nic_tx_transfer, rxbuff
      ensures Valid() && ok == (old(rxout) < net_rxin)
      ensures ok ==> b == Packet()[old(rxout)] && rxout == old(rxout) + 1 && rxbuffout > 0
      ensures !ok ==> rxout == old(rxout)
      ensures ok && old(Held()) == 0 ==> !nic_tx_transfer && dma == RingAdd(old(LoadAddress()), Held() + 1)
      ensures ok && old(Held()) == 0 ==>
        Held() + 1 == Min(net_rxin - old(rxout), RXBUFFLEN - Min(old(rxbuffout), RXMARGIN))
      ensures ok && old(Held()) > 0 ==>
        Held() + 1 == old(Held()) && nic_tx_transfer == old(nic_tx_transfer) && dma == old(dma)
    {
      hide RingAdd, ReadRing, Valid, InRing, Continues;
      Bounds();
      ok, b := false, 0;
      if rxbuffout >= rxbuffin { var _ := LoadRxBuff(RXMARGIN, RXBUFFLEN); }
      Bounds();
      if rxbuffout < rxbuffin {
        b := TakeByte();
        ok := true;
      }
    }

    /** The first of the unread bytes in the buffer. */
    method TakeByte() returns (b: Byte)
      requires Valid() && rxbuffout < rxbuffin
      modifies this`rxout, this`rxbuffout
      ensures Valid() && rxout == old(rxout) + 1 && rxbuffout == old(rxbuffout) + 1 && b == Packet()[old(rxout)]
    {
      hide RingAdd, ReadRing, InRing;
      b := rxbuff[rxbuffout];
      assert b == rxbuff[rxbuffout..rxbuffin][0];
      assert rxbuff[rxbuffout..rxbuffin][1..] == rxbuff[rxbuffout + 1..rxbuffin];
      rxbuffout := rxbuffout + 1;
      rxout := rxout + 1;
    }

    /** Push back a byte, if there is room before the unread ones. The window still agrees
        with the packet if and only if it is the byte that stands there. */
    method UngetByte(b: Byte) returns (ok: bool)
      requires Valid()
      modifies this`rxout, this`rxbuffout, rxbuff
      ensures ok == (old(rxbuffout) > 0)
      ensures rxout == old(rxout) - (if ok then 1 else 0) && Held() == old(Held()) + (if ok then 1 else 0)
      ensures ok ==> rxbuff[rxbuffout..rxbuffin] == [b] + old(rxbuff[rxbuffout..rxbuffin])
      ensures Valid() <==> !ok || b == old(Packet())[rxout]
    {
      hide RingAdd, ReadRing;
      ok := false;
      if rxbuffout != 0 && rxout != 0 {
        ghost var rest, p := rxbuff[rxbuffout..rxbuffin], Packet();
        rxbuffout := rxbuffout - 1;
        rxbuff[rxbuffout] := b;
        rxout := rxout - 1;
        assert rxbuff[rxbuffout..rxbuffin] == [b] + rest;
        assert p[rxout..rxout + 1 + |rest|] == [p[rxout]] + p[rxout + 1..rxout + 1 + |rest|];
        ok := true;
      }
    }

    /** Move to any place in the data. */
    method SetPosRxOut(newpos: Word) returns (ok: bool)
      requires Valid()
      modifies this`rxout, this`rxbuffin, this`rxbuffout, this`dma, this`nic_tx_transfer
      ensures Valid() && ok == (newpos <= net_rxin)
      ensures rxout == if ok then newpos else old(rxout)
      ensures if ok then rxbuffin == rxbuffout else rxbuffout == old(rxbuffout)
    {
      ok := false;
      if newpos <= net_rxin {
        SetNicRx(newpos);
        rxout := newpos;
        rxbuffin, rxbuffout := 0, 0;
        ok := true;
      }
    }

    /** Shorten what is left of the data. The sums have 16 bits: the window is left valid,
        with the data cut where they say, if and only if they do not overflow; if they do,
        the end of the data is left behind the read position. */
    method TruncateRxOut(len: Word)
      requires Valid()
      modifies this`net_rxin, this`rxbuffin
      ensures if rxout + len < 0x1_0000 then Valid() && net_rxin == Min(old(net_rxin), rxout + len)
        else !Valid() && net_rxin == rxout + len - 0x1_0000 < rxout
    {
      hide RingAdd, ReadRing;
      if len < rxbuffin - rxbuffout { Unread(rxbuff[..], rxbuffout, rxbuffin - rxbuffout, len); }
      if len < rxbuffin - rxbuffout { Unread(Packet(), rxout, rxbuffin - rxbuffout, len); }
      var end := Wrapped(rxout + len);
      if end < net_rxin { net_rxin := end; }
      end := Wrapped(rxbuffout + len);
      if end < rxbuffin { rxbuffin := end; }
    }

    /** get_data: as many bytes as there are, up to maxlen. */
    method GetData(maxlen: Word) returns (data: seq<Byte>)
      requires Valid()
      modifies this`rxout, this`rxbuffin, this`rxbuffout, this`dma, this`nic_tx_transfer, rxbuff, sum
      ensures Valid() && rxout == old(rxout) + Min(maxlen, net_rxin - old(rxout))
      ensures data == Packet()[old(rxout)..rxout]
    {
      hide RingAdd, ReadRing, InRing, Agrees, Ready;
      data := [];
      var ok := true;
      while |data| < maxlen && ok
        invariant Valid() && old(rxout) <= rxout && |data| == rxout - old(rxout) <= maxlen
        invariant data == Packet()[old(rxout)..rxout] && (!ok ==> rxout == net_rxin)
        decreases maxlen - |data|, ok
      {
        var b;
        ok, b := GetByte();
        if ok {
          assert Packet()[old(rxout)..rxout] == Packet()[old(rxout)..rxout - 1] + [b];
          data := data + [b];
        }
      }
    }

    /** save_txbuff: the controller is set up for transmission. */
    method SaveTxBuff()
      modifies this`nic_tx_transfer, this`dma, this`txbuffin, this`net_txlen
      ensures !nic_tx_transfer ==> !old(nic_tx_transfer) && dma == old(dma)
      ensures nic_tx_transfer == (old(nic_tx_transfer) || old(txbuffin) != 0) && txbuffin == 0
    {
      if txbuffin != 0 {
        if !nic_tx_transfer { dma := W16(TXBASE + txin - txbuffin); }
        nic_tx_transfer := true;
        txbuffin := 0;
      }
      if txin > net_txlen { net_txlen := txin; }
    }

    /** init_txbuff: an empty transmit buffer, and the controller set up to take it. */
    method InitTxBuff()
      modifies this`nic_tx_transfer, this`dma, this`txbuffin, this`net_txlen, this`txin, this`handed
      ensures txin == net_txlen == txbuffin == 0 && nic_tx_transfer && handed == []
      ensures old(Valid()) ==> Valid()
    {
      hide RingAdd, ReadRing, InRing, Agrees, Shape;
      txin, net_txlen, txbuffin, handed := 0, 0, 0, [];
      dma := TXBASE;
      nic_tx_transfer := true;
    }

    /** setpos_txin: where the next byte is to be put. */
    method SetPosTxIn(newpos: Word) returns (ok: bool)
      modifies this`nic_tx_transfer, this`dma, this`txbuffin, this`net_txlen, this`txin
      ensures ok == (newpos <= MAXFRAME - ETHERHDR)
      ensures if ok then txin == newpos && nic_tx_transfer && txbuffin == 0
        else txin == old(txin) && nic_tx_transfer == old(nic_tx_transfer) && txbuffin == old(txbuffin)
      ensures old(Valid()) ==> Valid()
    {
      hide RingAdd, ReadRing, InRing, Agrees, Shape;
      ok := newpos <= MAXFRAME - ETHERHDR;
      if ok {
        SaveTxBuff();
        txin := newpos;
        dma := W16(TXBASE + newpos);
        nic_tx_transfer := true;
      }
    }

    /** The headers of a new packet are read: the first load brings in a bufferful, or all. */
    method SkipHeaders()
      requires Valid() && rxout == rxbuffin == rxbuffout == 0 && net_rxin >= HEADERS
      modifies this`rxout, this`rxbuffin, this`rxbuffout, this`dma, this`nic_tx_transfer, rxbuff, sum
      ensures Valid() && rxout == HEADERS && Held() == Min(net_rxin, RXBUFFLEN) - HEADERS
    {
      hide RingAdd, ReadRing, InRing, Agrees, Ready;
      for i := 0 to HEADERS
        invariant Valid() && rxout == i && Held() == if i == 0 then 0 else Min(net_rxin, RXBUFFLEN) - i
      {
        var ok, b := GetByte();
      }
    }

    /** put_byte, which may interrupt reading to save the transmit buffer. A byte that is
        taken is added to the running checksum. */
    method PutByte(b: Byte) returns (ok: bool)
      modifies this`nic_tx_transfer, this`dma, this`txbuffin, this`net_txlen, this`txin, this`handed, sum
      ensures ok == (old(txin) < MAXFRAME)
      ensures txin == old(txin) + (if ok then 1 else 0) && handed == old(handed) + if ok then [b] else []
      ensures !nic_tx_transfer ==> !old(nic_tx_transfer) && dma == old(dma)
      ensures ok && !nic_tx_transfer ==> txbuffin == old(txbuffin) + 1 <= TXBUFFLEN - TXMARGIN
      ensures !ok ==> txbuffin == old(txbuffin)
      ensures ok ==> sum.Sum() == Canon(old(sum.Sum()) + PicSum.Weight(old(sum.checkflag), b))
    {
      ok := false;
      if txin < MAXFRAME {
        if txbuffin >= TXBUFFLEN - TXMARGIN { SaveTxBuff(); }
        txbuffin := txbuffin + 1;
        txin := txin + 1;
        handed := handed + [b];
        sum.CheckByte(b);
        ok := true;
      }
    }

    /** The inner loop of copy_rx_tx: the first n bytes of the buffer are put out. If they
        are more than a margin leaves room for, the transmit buffer has been saved. */
    method PutAll(n: nat)
      requires rxbuff.Length == RXBUFFLEN && n <= rxbuffin <= RXBUFFLEN && txin <= MAXFRAME
      modifies this`rxbuffout
      modifies this`nic_tx_transfer, this`dma, this`txbuffin, this`net_txlen, this`txin, this`handed, sum
      ensures rxbuffout == n && txin == old(txin) + Room(old(txin), n)
      ensures handed == old(handed) + rxbuff[..txin - old(txin)]
      ensures !nic_tx_transfer ==> !old(nic_tx_transfer) && dma == old(dma)
      ensures nic_tx_transfer || n <= TXBUFFLEN - TXMARGIN || txin == MAXFRAME
    {
      rxbuffout := 0;
      while rxbuffout < n
        invariant rxbuffout <= n && txin == Min(old(txin) + rxbuffout, MAXFRAME)
        invariant handed == old(handed) + rxbuff[..txin - old(txin)]
        invariant !nic_tx_transfer ==> !old(nic_tx_transfer) && dma == old(dma)
        invariant nic_tx_transfer || txin == old(txin) || txin - old(txin) <= txbuffin <= TXBUFFLEN - TXMARGIN
      {
        var _ := PutByte(rxbuff[rxbuffout]);
        rxbuffout := rxbuffout + 1;
      }
    }

    /** What is known of the numbers alone. */
    lemma Bounds()
      requires Valid()
      ensures Steady() && InRing(curr_rx_addr) && rxbuffout <= rxbuffin <= RXBUFFLEN == rxbuff.Length
      ensures rxout + (rxbuffin - rxbuffout) <= net_rxin <= length <= MAXFRAME
    {}

    /** How many bytes there are in the buffer when it has been filled. */
    function Filled(): nat
      requires Steady()
      reads this`curr_rx_addr, this`net_rxin, this`rxout, this`rxbuffin, this`rxbuffout
    { Held() + Min(Left(), RXBUFFLEN - Held()) }

    /** And which: the unread ones, and what is loaded behind them, after a transfer the
        other way or without one. */
    ghost function FillingAfter(tx: bool): (s: seq<Byte>)
      requires Valid() && (nic_tx_transfer ==> tx)
      reads this`curr_rx_addr, this`net_rxin, this`rxout, this`rxbuffin, this`rxbuffout
      reads this`nic_tx_transfer, this`dma, this`length, rxbuff
      ensures |s| == Filled()
    {
      Packet()[rxout..rxout + Held()] +
        ReadRing(ram, if tx then RingAdd(curr_rx_addr, rxout) else dma, Filled() - Held())
    }

    /** Filling the buffer leaves it right: it is empty; or there is a bufferful to come, and
        nothing has been transferred the other way, or nothing is loaded. */
    predicate Loadable()
      reads this`rxbuffin, this`rxbuffout, this`net_rxin, this`rxout, this`nic_tx_transfer
    {
      Held() == 0 || (net_rxin - rxout >= RXBUFFLEN && (!nic_tx_transfer || Held() == RXBUFFLEN))
    }

    /** Nothing is left in the buffer, which agrees with the packet, or there is no room for
        any more bytes to be put out. */
    ghost predicate Emptied()
      reads this`curr_rx_addr, this`net_rxin, this`rxout, this`rxbuffin, this`rxbuffout
      reads this`nic_tx_transfer, this`dma, this`length, this`txin, rxbuff
    { Held() == 0 && Shape() && (Valid() || txin == MAXFRAME) }

    /** One turn of copy_rx_tx: the buffer is filled, and what is wanted of it is put out. */
    method CopyTurn(maxlen: Word, count: nat) returns (n: nat, more: bool)
      requires Steady() && count <= maxlen && txin <= MAXFRAME
      modifies this`rxout, this`rxbuffin, this`rxbuffout, rxbuff
      modifies this`nic_tx_transfer, this`dma, this`txbuffin, this`net_txlen, this`txin, this`handed, sum
      ensures Steady() && rxbuffin == old(Filled()) && rxbuffout == n == Min(old(Filled()), maxlen - count)
      ensures more <==> 0 < old(Filled()) < maxlen - count
      ensures rxout == Wrapped(old(rxout) + n)
      ensures txin == old(txin) + Room(old(txin), n) <= MAXFRAME
      ensures old(handed) <= handed && |handed| == |old(handed)| + Room(old(txin), n)
      ensures old(Valid()) ==>
        && handed == old(handed) + old(FillingAfter(nic_tx_transfer))[..Room(old(txin), n)]
        && (old(Loadable()) ==> Valid())
      ensures more && old(Shape()) && rxout <= net_rxin && (old(Valid()) || txin == MAXFRAME) ==> Emptied()
    {
      hide RingAdd, ReadRing, Valid, InRing, Emptied, Agrees, Ready;
      if Valid() { Bounds(); }
      var loaded := LoadRxBuff(0, RXBUFFLEN);
      ghost var data := rxbuff[rxbuffout..rxbuffin];
      n, more := 0, false;
      if loaded != 0 || rxbuffin > 0 {
        more := count + rxbuffin < maxlen;
        n := if more then rxbuffin else maxlen - count;
        assert rxbuff[..Room(txin, n)] == data[..Room(txin, n)];
        TakeAll(n);
      }
    }

    /** The bytes are put out, and count as read. */
    method TakeAll(n: nat)
      requires Steady() && rxbuffout == 0 && n <= rxbuffin && txin <= MAXFRAME
      modifies this`rxout, this`rxbuffout
      modifies this`nic_tx_transfer, this`dma, this`txbuffin, this`net_txlen, this`txin, this`handed, sum
      ensures Steady() && rxbuffout == n && rxout == Wrapped(old(rxout) + n)
      ensures txin == old(txin) + Room(old(txin), n) <= MAXFRAME
      ensures handed == old(handed) + rxbuff[..Room(old(txin), n)]
      ensures old(Valid()) ==> Valid()
      ensures old(Valid()) && n == rxbuffin ==> Emptied()
      ensures length <= MAXFRAME && net_rxin <= length && n <= rxout <= net_rxin ==>
        n == rxbuffin && (n > TXBUFFLEN - TXMARGIN || txin == MAXFRAME) ==> Emptied()
    {
      hide RingAdd, ReadRing, InRing;
      if Valid() { Front(n); }
      PutAll(n);
      rxout := Wrapped(rxout + n);
    }

    /** The buffer's first bytes, and those behind them. */
    lemma Front(n: nat)
      requires Valid() && rxbuffout == 0 && n <= rxbuffin
      ensures rxbuff[..n] == Packet()[rxout..rxout + n] && rxbuff[n..rxbuffin] == Packet()[rxout + n..rxout + rxbuffin]
    {
      hide RingAdd, ReadRing, InRing;
      Unread(Packet(), rxout, rxbuffin, n);
      assert rxbuff[..n] == rxbuff[..rxbuffin][..n] && rxbuff[n..rxbuffin] == rxbuff[..rxbuffin][n..];
    }

    /** When copying is right: no more goes out in the first turn than the packet has left;
        and unless that is all unread bytes, or nothing has been transferred the other way,
        the packet repeats, where the buffer ends, what has been loaded over again. */
    ghost predicate SoundAfter(tx: bool, maxlen: nat)
      requires Valid() && txin <= MAXFRAME
      reads this`curr_rx_addr, this`net_rxin, this`rxout, this`rxbuffin, this`rxbuffout
      reads this`nic_tx_transfer, this`dma, this`length, this`txin, rxbuff
    {
      var left, k, m := net_rxin - rxout, Held(), Room(txin, Min(maxlen, Filled()));
      && (k == 0 || left >= RXBUFFLEN || maxlen <= left)
      && (m > k && tx ==> Packet()[rxout..rxout + m - k] == Packet()[rxout + k..rxout + m])
    }

    lemma ReadRingFirst(addr: int, n: nat, m: nat)
      requires |ram| >= RINGSTOP && InRing(addr) && m <= n <= RINGSIZE
      ensures ReadRing(ram, addr, n)[..m] == ReadRing(ram, addr, m)
    {}

    /** What filling reads is the packet's next part, exactly if it is not read over again,
        or repeats. */
    lemma FillingIs(m: nat)
      requires Valid() && m <= Filled() && m <= net_rxin - rxout
      ensures FillingAfter(nic_tx_transfer)[..m] == Packet()[rxout..rxout + m] <==>
        (m > Held() && nic_tx_transfer ==>
          Packet()[rxout..rxout + m - Held()] == Packet()[rxout + Held()..rxout + m])
    {
      hide RingAdd, ReadRing, InRing, FillingAfter, Agrees, Ready;
      ghost var start := if nic_tx_transfer then rxout else rxout + Held();
      if m > Held() {
        LoadsFrom(start);
        FillingMore(m, start);
      } else {
        FillingFew(m);
      }
    }

    lemma LoadsFrom(start: nat)
      requires Valid() && start == if nic_tx_transfer then rxout else rxout + Held()
      requires rxout + Held() < net_rxin
      ensures LoadAddress() == RingAdd(curr_rx_addr, start)
    {}

    lemma FillingFew(m: nat)
      requires Valid() && m <= Held()
      ensures FillingAfter(nic_tx_transfer)[..m] == Packet()[rxout..rxout + m]
    {
      hide RingAdd, ReadRing, InRing;
      ghost var p, f := Packet(), FillingAfter(nic_tx_transfer);
      assert f[..m] == p[rxout..rxout + Held()][..m];
    }

    lemma FillingMore(m: nat, start: nat)
      requires Valid() && Held() < m <= Filled() && m <= net_rxin - rxout && rxout <= start <= rxout + Held()
      requires LoadAddress() == RingAdd(curr_rx_addr, start)
      ensures FillingAfter(nic_tx_transfer)[..m] == Packet()[rxout..rxout + m] <==>
        Packet()[start..start + m - Held()] == Packet()[rxout + Held()..rxout + m]
    {
      hide RingAdd, ReadRing, InRing, Agrees, Ready;
      ghost var p, k, f := Packet(), Held(), FillingAfter(nic_tx_transfer);
      ReadRingFirst(LoadAddress(), Filled() - k, m - k);
      PacketPart(start, m - k);
      Headed(p[rxout..rxout + k], ReadRing(ram, LoadAddress(), Filled() - k), m);
      assert f[..m] == p[rxout..rxout + k] + p[start..start + m - k];
      Parts(p, rxout, k, m - k, p[start..start + m - k]);
    }

    /** A copy on its way: so far it is right, and it can go on, or is finished. */
    ghost predicate Following(h0: seq<Byte>, start: nat, t0: nat, count: nat, maxlen: nat, more: bool)
      reads this`curr_rx_addr, this`net_rxin, this`rxout, this`rxbuffin, this`rxbuffout
      reads this`nic_tx_transfer, this`dma, this`length, this`txin, this`handed, rxbuff
    {
      && |ram| == NICSIZE && InRing(curr_rx_addr) && net_rxin <= length <= MAXFRAME && t0 <= MAXFRAME
      && rxout == start + count <= net_rxin && Room(t0, count) <= count
      && handed == h0 + Packet()[start..start + Room(t0, count)]
      && (if more then Emptied() else count == Min(maxlen, net_rxin - start))
    }

    /** Every turn after the first. */
    method NextTurn(maxlen: Word, count: nat, ghost h0: seq<Byte>, ghost start: nat, ghost t0: nat)
      returns (n: nat, more: bool)
      requires Steady() && Held() == 0 && count < maxlen && t0 <= MAXFRAME
      requires Room(t0, count) <= count && txin == t0 + Room(t0, count) <= MAXFRAME
      modifies this`rxout, this`rxbuffin, this`rxbuffout, rxbuff
      modifies this`nic_tx_transfer, this`dma, this`txbuffin, this`net_txlen, this`txin, this`handed, sum
      ensures Steady() && count + n <= maxlen && old(handed) <= handed
      ensures Room(t0, count + n) <= count + n && txin == t0 + Room(t0, count + n) <= MAXFRAME
      ensures more ==> Held() == 0 && n > 0 && count + n < maxlen
      ensures old(Following(h0, start, t0, count, maxlen, true)) ==> Following(h0, start, t0, count + n, maxlen, more)
      ensures old(Valid()) ==> Valid()
    {
      hide RingAdd, ReadRing, Valid, InRing, Room;
      RoomSplits(t0, count, Min(Filled(), maxlen - count));
      ghost var was, part := Following(h0, start, t0, count, maxlen, true), Min(Filled(), maxlen - count);
      if was { NextPart(h0, start, t0, count, maxlen, part); }
      ghost var h1 := handed;
      n, more := CopyTurn(maxlen, count);
      assert handed[..|h1|] == h1 && (|handed| == |h1| ==> handed == h1);
    }

    lemma NextPart(h0: seq<Byte>, start: nat, t0: nat, count: nat, maxlen: nat, n: nat)
      requires Steady() && Following(h0, start, t0, count, maxlen, true)
      requires txin == t0 + Room(t0, count) <= MAXFRAME && n <= Filled()
      ensures Filled() <= net_rxin - rxout
      ensures Valid() ==>
        handed + FillingAfter(nic_tx_transfer)[..Room(txin, n)] == h0 + Packet()[start..start + Room(t0, count + n)]
      ensures !Valid() ==> Room(txin, n) == 0 && Room(t0, count + n) == Room(t0, count)
    {
      RoomSplits(t0, count, n);
      if Valid() {
        FillingIs(Room(txin, n));
        hide RingAdd, ReadRing, Room;
        Joined(h0, Packet(), start, Room(t0, count), rxout, Room(txin, n));
      }
    }

    /** The copy has been right: as many bytes as are wanted and left have been read, and of
        those as many as there was room for have been put out. */
    ghost predicate Right(h0: seq<Byte>, start: nat, end: nat, t0: nat, count: nat, maxlen: nat)
      reads this`curr_rx_addr, this`length, this`handed
    {
      && |ram| == NICSIZE && InRing(curr_rx_addr) && start <= end <= length <= MAXFRAME
      && count == Min(maxlen, end - start)
      && handed == h0 + Packet()[start..start + Room(t0, count)]
    }

    /** In terms of what is put out: it is the packet's. */
    lemma SoundIs(maxlen: nat)
      requires Valid() && txin <= MAXFRAME
      ensures SoundAfter(nic_tx_transfer, maxlen) <==>
        BeginsRight(Packet(), FillingAfter(nic_tx_transfer), rxout, net_rxin - rxout, txin, maxlen)
      ensures Loadable() ==> SoundAfter(nic_tx_transfer, maxlen)
    {
      hide RingAdd, ReadRing, InRing, Agrees, Ready, FillingAfter;
      ghost var n := Min(maxlen, Filled());
      RoomIs(txin, n);
      if n <= net_rxin - rxout { FillingIs(Room(txin, n)); }
    }

    /** The first turn. */
    method FirstTurn(maxlen: Word, ghost p: seq<Byte>, ghost f: seq<Byte>) returns (n: nat, more: bool)
      requires Steady() && txin <= MAXFRAME
      requires Valid() ==> p == Packet() && f == FillingAfter(nic_tx_transfer)
      modifies this`rxout, this`rxbuffin, this`rxbuffout, rxbuff
      modifies this`nic_tx_transfer, this`dma, this`txbuffin, this`net_txlen, this`txin, this`handed, sum
      ensures Steady() && n == Min(maxlen, old(Filled())) && old(handed) <= handed
      ensures Room(old(txin), n) <= n && txin == old(txin) + Room(old(txin), n) <= MAXFRAME
      ensures more ==> Held() == 0 && 0 < old(Filled()) == n < maxlen
      ensures !more ==> n == maxlen || n == 0
      ensures old(Valid()) ==>
        && handed == old(handed) + f[..Room(old(txin), n)] && (old(Loadable()) ==> Valid())
        && (BeginsRight(p, f, old(rxout), net_rxin - old(rxout), old(txin), maxlen) ==>
          Following(old(handed), old(rxout), old(txin), n, maxlen, more))
    {
      hide RingAdd, ReadRing, InRing, Agrees, Ready, FillingAfter, Room;
      RoomIs(txin, Min(maxlen, Filled()));
      n, more := CopyTurn(maxlen, 0);
    }

    /** The turns of copy_rx_tx, after the transmit buffer has been saved. */
    method CopyTurns(maxlen: Word) returns (count: nat)
      requires Steady() && txin <= MAXFRAME
      modifies this`rxout, this`rxbuffin, this`rxbuffout, rxbuff
      modifies this`nic_tx_transfer, this`dma, this`txbuffin, this`net_txlen, this`txin, this`handed, sum
      ensures Steady() && Min(maxlen, old(Filled())) <= count <= maxlen
      ensures Room(old(txin), count) <= count && txin == old(txin) + Room(old(txin), count) <= MAXFRAME
      ensures old(Valid()) ==>
        var first := old(handed) + old(FillingAfter(nic_tx_transfer))[..Room(old(txin), Min(maxlen, old(Filled())))];
        && first <= handed && (maxlen <= old(Filled()) ==> handed == first)
        && (old(SoundAfter(nic_tx_transfer, maxlen)) <==>
          Right(old(handed), old(rxout), net_rxin, old(txin), count, maxlen))
        && (old(Loadable()) ==> Valid() && rxout == old(rxout) + count)
    {
      hide RingAdd, ReadRing, Valid, InRing, Room, Emptied, FillingAfter, SoundAfter, BeginsRight;
      if Valid() { Bounds(); SoundIs(maxlen); }
      ghost var agreed, loadable, h0, start, t0, fill := Valid(), Loadable(), handed, rxout, txin, Filled();
      ghost var p, f := if agreed then Packet() else [], if agreed then FillingAfter(nic_tx_transfer) else [];
      ghost var sound := agreed && BeginsRight(p, f, start, net_rxin - start, t0, maxlen);
      var n, more := FirstTurn(maxlen, p, f);
      count := n;
      ghost var h1 := handed;
      while more
        invariant Steady() && Min(maxlen, fill) <= count <= maxlen && h1 <= handed
        invariant Room(t0, count) <= count && txin == t0 + Room(t0, count) <= MAXFRAME
        invariant more ==> Held() == 0 && count < maxlen
        invariant maxlen <= fill ==> !more && handed == h1 && count == maxlen
        invariant sound ==> Following(h0, start, t0, count, maxlen, more)
        invariant agreed && loadable ==> Valid()
        decreases more, maxlen - count
      {
        n, more := NextTurn(maxlen, count, h0, start, t0);
        count := count + n;
      }
      if agreed && !sound && Right(h0, start, net_rxin, t0, count, maxlen) {
        Spoilt(p, f, start, net_rxin - start, t0, maxlen, count, h0, handed);
      }
    }

    /** Saving the transmit buffer first: the controller is then set up for transmission, if
        anything was in it. */
    method Saved(ghost maxlen: nat)
      requires Steady() && txin <= MAXFRAME
      modifies this`nic_tx_transfer, this`dma, this`txbuffin, this`net_txlen
      ensures nic_tx_transfer == (old(nic_tx_transfer) || old(txbuffin) != 0)
      ensures old(Valid()) ==>
        && Valid() && FillingAfter(nic_tx_transfer) == old(FillingAfter(nic_tx_transfer || txbuffin != 0))
        && (SoundAfter(nic_tx_transfer, maxlen) <==> old(SoundAfter(nic_tx_transfer || txbuffin != 0, maxlen)))
        && (old(Copyable()) ==> Loadable() && SoundAfter(nic_tx_transfer, maxlen))
    {
      hide RingAdd, ReadRing, InRing, Agrees, BeginsRight;
      SaveTxBuff();
      if Valid() { SoundIs(maxlen); }
    }

    /** copy_rx_tx, from any window: it hands on exactly the packet's next bytes, as many as
        are wanted and left, as far as there is room for them, if and only if the first turn
        is sound. Whether it is or not, what the first turn puts out is the unread bytes and
        what is loaded behind them; if no more is wanted, that is all. */
    method CopyRxTx(maxlen: Word) returns (count: nat)
      requires Steady() && txin <= MAXFRAME
      modifies this`rxout, this`rxbuffin, this`rxbuffout, rxbuff
      modifies this`nic_tx_transfer, this`dma, this`txbuffin, this`net_txlen, this`txin, this`handed, sum
      ensures Steady() && Min(maxlen, old(Filled())) <= count <= maxlen
      ensures txin == old(txin) + Room(old(txin), count) <= MAXFRAME
      ensures old(Valid()) ==>
        var filling, n := old(FillingAfter(nic_tx_transfer || txbuffin != 0)), Min(maxlen, old(Filled()));
        var first := old(handed) + filling[..Room(old(txin), n)];
        && first <= handed && (n == maxlen ==> handed == first)
        && (old(SoundAfter(nic_tx_transfer || txbuffin != 0, maxlen)) <==>
          Right(old(handed), old(rxout), net_rxin, old(txin), count, maxlen))
        && (old(Copyable()) ==>
          && Valid() && rxout == old(rxout) + count
          && Right(old(handed), old(rxout), net_rxin, old(txin), count, maxlen))
    {
      hide RingAdd, ReadRing, InRing, Valid, FillingAfter, SoundAfter, Right, Room, Loadable, Copyable;
      Saved(maxlen);
      count := CopyTurns(maxlen);
      net_txlen := Max(txin, net_txlen);
    }

    /** The buffer can be filled after saving the transmit buffer. */
    predicate Copyable()
      reads this`rxbuffin, this`rxbuffout, this`net_rxin, this`rxout, this`nic_tx_transfer, this`txbuffin
    { Loadable() && (txbuffin == 0 || Held() in {0, RXBUFFLEN}) }

    /** Any mix of operations, transfers to the transmit side among them: the window gives
        the replies of the plain packet, up to the first copy for which the buffer cannot be
        filled, if there is one. */
    method Replay(ops: seq<ReadOp>) returns (replies: seq<Reply>)
      requires Valid() && txin <= MAXFRAME
      modifies this`net_rxin, this`rxout, this`rxbuffin, this`rxbuffout, rxbuff
      modifies this`nic_tx_transfer, this`dma, this`txbuffin, this`net_txlen, this`txin, this`handed, sum
      ensures Valid() && |replies| <= |ops|
      ensures replies == ReadAll(Packet(), Reader(old(rxout), old(net_rxin), false), ops[..|replies|])
      ensures |replies| < |ops| ==> ops[|replies|].CopyOut? && !Copyable()
    {
      hide RingAdd, ReadRing, Room;
      replies := [];
      ghost var r0 := Reader(rxout, net_rxin, false);
      var just, last: Byte := false, 0;
      while |replies| < |ops| && (ops[|replies|].CopyOut? ==> Copyable())
        invariant Valid() && txin <= MAXFRAME && |replies| <= |ops|
        invariant just ==> rxout > 0 && rxbuffout > 0 && last == Packet()[rxout - 1]
        invariant Reader(rxout, net_rxin, just) == Reads(Packet(), r0, ops[..|replies|])
        invariant replies == ReadAll(Packet(), r0, ops[..|replies|])
      {
        var k := |replies|;
        ReadOneMore(Packet(), r0, ops, k);
        var reply;
        reply, just, last := ReplayOne(ops[k], just, last);
        replies := replies + [reply];
      }
    }

    method ReplayOne(op: ReadOp, just0: bool, last0: Byte) returns (reply: Reply, just: bool, last: Byte)
      requires Valid() && txin <= MAXFRAME
      requires op.CopyOut? ==> Copyable()
      requires just0 ==> rxout > 0 && rxbuffout > 0 && last0 == Packet()[rxout - 1]
      modifies this`net_rxin, this`rxout, this`rxbuffin, this`rxbuffout, rxbuff
      modifies this`nic_tx_transfer, this`dma, this`txbuffin, this`net_txlen, this`txin, this`handed, sum
      ensures Valid() && txin <= MAXFRAME
      ensures (Reader(rxout, net_rxin, just), reply) ==
        ReadStep(Packet(), Reader(old(rxout), old(net_rxin), just0), op)
      ensures just ==> rxout > 0 && rxbuffout > 0 && last == Packet()[rxout - 1]
    {
      hide RingAdd, ReadRing, Valid, InRing;
      Bounds();
      just, last := just0, last0;
      match op {
        case Get =>
          just, last := GetByte();
          reply := if just then Got(last) else No;
        case Unget =>
          if just {
            var _ := UngetByte(last);
            just, reply := false, Yes;
          } else {
            reply := No;
          }
        case SetPos(pos) =>
          var ok := SetPosRxOut(pos);
          reply := if ok then Yes else No;
          if ok { just := false; }
        case Truncate(len) =>
          reply := No;
          if rxout + len < 0x1_0000 {
            TruncateRxOut(len);
            just, reply := false, Yes;
          }
        case CopyOut(maxlen) =>
          var n := CopyRxTx(maxlen);
          just, reply := false, Count(n);
        case PutOut(b) =>
          PutBetween(b);
          reply := Yes;
      }
    }

    /** A byte put out between reads leaves the window valid. */
    method PutBetween(b: Byte)
      requires Valid() && txin <= MAXFRAME
      modifies this`nic_tx_transfer, this`dma, this`txbuffin, this`net_txlen, this`txin, this`handed, sum
      ensures Valid() && txin <= MAXFRAME
    {
      hide RingAdd, ReadRing;
      var _ := PutByte(b);
    }

    /** What a copy would do behind the headers of a packet, for a reply with the same. */
    lemma EchoSound(dlen: nat)
      requires Valid() && nic_tx_transfer && txin == HEADERS && rxout == HEADERS && HEADERS + dlen <= 1500
      requires net_rxin == length == HEADERS + dlen && Held() == Min(net_rxin, RXBUFFLEN) - HEADERS
      ensures Room(txin, dlen) == dlen && Filled() >= Min(dlen, RXBUFFLEN)
      ensures var n := Min(dlen, RXBUFFLEN);
        SoundAfter(true, dlen) <==> (dlen <= BEHIND ||
          Packet()[HEADERS..HEADERS + n - BEHIND] == Packet()[HEADERS + BEHIND..HEADERS + n])
      ensures BEHIND < dlen <= RXBUFFLEN ==>
        FillingAfter(true)[..dlen] ==
          Packet()[HEADERS..HEADERS + BEHIND] + Packet()[HEADERS..HEADERS + dlen - BEHIND]
    {
      hide RingAdd, ReadRing, InRing, Agrees, Ready;
      if BEHIND < dlen <= RXBUFFLEN {
        ReadRingFirst(RingAdd(curr_rx_addr, rxout), Filled() - Held(), dlen - BEHIND);
        PacketPart(rxout, dlen - BEHIND);
      }
    }

    /** The data of an echo is copied. */
    method CopyEcho(dlen: nat) returns (count: nat)
      requires Valid() && nic_tx_transfer && txin == HEADERS && rxout == HEADERS && HEADERS + dlen <= 1500
      requires net_rxin == length == HEADERS + dlen && Held() == Min(net_rxin, RXBUFFLEN) - HEADERS && handed == []
      modifies this`rxout, this`rxbuffin, this`rxbuffout, rxbuff
      modifies this`nic_tx_transfer, this`dma, this`txbuffin, this`net_txlen, this`txin, this`handed, sum
      ensures var p, n := Packet(), Min(dlen, RXBUFFLEN);
        && ((count == dlen && handed == p[HEADERS..HEADERS + dlen]) <==>
          (dlen <= BEHIND || p[HEADERS..HEADERS + n - BEHIND] == p[HEADERS + BEHIND..HEADERS + n]))
        && (BEHIND < dlen <= RXBUFFLEN ==>
          count == dlen && handed == p[HEADERS..HEADERS + BEHIND] + p[HEADERS..HEADERS + dlen - BEHIND])
    {
      hide RingAdd, ReadRing, InRing, Room, SoundAfter, FillingAfter, Valid;
      Bounds();
      EchoSound(dlen);
      count := CopyRxTx(dlen);
    }
  }

  /** What the first turn of a copy puts out of f is the next part of the packet. */
  predicate BeginsRight(p: seq<Byte>, f: seq<Byte>, start: nat, left: nat, t0: nat, maxlen: nat)
    requires start + left <= |p|
  {
    var n := Min(maxlen, |f|);
    n <= left && f[..Room(t0, n)] == p[start..start + Room(t0, n)]
  }

  lemma RoomIs(t0: nat, n: nat)
    requires t0 <= MAXFRAME
    ensures Room(t0, n) <= n && t0 + Room(t0, n) <= MAXFRAME && forall k :: n <= k ==> Room(t0, n) <= Room(t0, k)
  {}

  /** After a first turn that was wrong the copy cannot come right any more. */
  lemma Spoilt(p: seq<Byte>, f: seq<Byte>, start: nat, left: nat, t0: nat, maxlen: nat, count: nat,
               h0: seq<Byte>, h: seq<Byte>)
    requires start + left <= |p| && t0 <= MAXFRAME && !BeginsRight(p, f, start, left, t0, maxlen)
    requires Min(maxlen, |f|) <= count && h0 + f[..Room(t0, Min(maxlen, |f|))] <= h
    ensures count != Min(maxlen, left) || h != h0 + p[start..start + Room(t0, count)]
  {
    RoomIs(t0, Min(maxlen, |f|));
    RoomIs(t0, count);
    var first := f[..Room(t0, Min(maxlen, |f|))];
    if count == Min(maxlen, left) && h == h0 + p[start..start + Room(t0, count)] {
      Begins(h0, first, p, start, Room(t0, count));
    }
  }

  /** udp_recv for an echo without checksum, as far as the window is concerned: the headers
      are read, the transmit buffer is set up for the reply, and the data is copied, without
      the position having been set again. The reply has the right data if and only if that
      is no more than the 14 bytes that the first load brought in behind the headers, or the
      data repeats itself 14 bytes on, as far as the buffer holds it. From 15 to 42 bytes
      the reply is those 14, and then the data from the beginning. */
  method EchoWithoutChecksum(ram: seq<Byte>, addr: int, dlen: nat) returns (w: RxWindow, count: nat)
    requires |ram| == NICSIZE && InRing(addr) && HEADERS + dlen <= 1500
    ensures fresh(w)
    ensures var p, n := ReadRing(ram, addr, HEADERS + dlen), Min(dlen, RXBUFFLEN);
      && ((count == dlen && w.handed == p[HEADERS..]) <==>
        (dlen <= BEHIND || p[HEADERS..HEADERS + n - BEHIND] == p[HEADERS + BEHIND..HEADERS + n]))
      && (BEHIND < dlen <= RXBUFFLEN ==>
        count == dlen && w.handed == p[HEADERS..HEADERS + BEHIND] + p[HEADERS..HEADERS + dlen - BEHIND])
  {
    hide RingAdd, ReadRing, InRing, RxWindow.Valid;
    w := new RxWindow(ram, addr, HEADERS + dlen);
    w.SkipHeaders();
    w.InitTxBuff();
    var _ := w.SetPosTxIn(HEADERS);
    w.Bounds();
    count := w.CopyEcho(dlen);
    assert w.Packet()[HEADERS..HEADERS + dlen] == w.Packet()[HEADERS..];
  }
}
