/** IP fragmentation in IP.C: make_ip splits a payload that is too long for one frame into
    two fragments in the same frame buffer, defrag_ip puts them together again. */
module IpFrag {
  import opened Words
  import opened Checksum

  const IPHDR := 20
  const GENHDR := 6
  const TTL := 100
  const FRAGTRIES := 8
  const MAXGEN := 3040

  /** A datagram: its header and its data. */
  datatype Ip = Ip(h: IpHeader, data: seq<Byte>)

  /** The datagram's bytes, header checksum included. */
  function Bytes(p: Ip): (s: seq<Byte>)
    ensures |s| == IPHDR + |p.data|
  { Stored(Unsealed(p.h), 10, Not(Canon(LeSum(Unsealed(p.h))))) + p.data }

  /** What the two fragments, or the only datagram, have in common. */
  datatype Route = Route(ident: Word, pcol: Byte, sip: LWord, dip: LWord)

  function Datagram(r: Route, frags: Word, data: seq<Byte>): Ip
    requires |data| + IPHDR < 0x1_0000
  { Ip(IpHeader(0, |data| + IPHDR, r.ident, frags, TTL, r.pcol, r.sip, r.dip), data) }

  /** A link: the length of its frame header, and the payload that fits a frame. */
  datatype Link = Link(fhlen: nat, mtu: nat) {
    predicate Ok() { 8 <= mtu < 0x2000 && mtu % 8 == 0 }
  }

  /** The links there are: Ethernet, with or without SNAP headers, and SLIP; what a frame
      can hold is rounded down to a multiple of eight. */
  function LinkFor(ether: bool, snap: bool): Link {
    var room := if ether then 1514 - 14 - (if snap then 8 else 0) else 1006;
    Link(if ether then 14 else 0, (room - IPHDR) / 8 * 8)
  }

  /** On each of them, two whole fragments with their headers fit the frame buffer, and a
      fragment fits a frame. */
  lemma LinksFit(ether: bool, snap: bool, dlen: nat)
    requires dlen <= 2 * LinkFor(ether, snap).mtu
    ensures LinkFor(ether, snap) ==
      if !ether then Link(0, 984) else if snap then Link(14, 1472) else Link(14, 1480)
    ensures LinkFor(ether, snap).fhlen + IPHDR + LinkFor(ether, snap).mtu + 8 >
      (if ether then 1514 - (if snap then 8 else 0) else 1006)
    ensures var link := LinkFor(ether, snap);
      && link.Ok() && Extent(link, dlen) <= MAXGEN && dlen <= MAXGEN
      && link.fhlen + IPHDR + link.mtu <= (if ether then 1514 - (if snap then 8 else 0) else 1006)
  {}

  function First(link: Link, r: Route, payload: seq<Byte>): Ip
    requires link.Ok()
  {
    if |payload| <= link.mtu then Datagram(r, 0, payload) else Datagram(r, 0x2000, payload[..link.mtu])
  }

  function Second(link: Link, r: Route, payload: seq<Byte>): Ip
    requires link.Ok() && link.mtu < |payload| <= 2 * link.mtu
  { Datagram(r, link.mtu / 8, payload[link.mtu..]) }

  // ---- What is on the wire ----

  /** The twenty bytes of an IP header, by their places in section 3.1 of RFC 791: version
      and length, type of service, total length, identification, flags and offset, time to
      live, protocol, source, destination. */
  predicate HeaderSays(b: seq<Byte>, len: nat, ident: nat, frags: nat, pcol: Byte, sip: nat, dip: nat) {
    && |b| == len >= IPHDR && b[0] == 0x45 && b[1] == 0 && NetValue(b[2..4]) == len
    && NetValue(b[4..6]) == ident && NetValue(b[6..8]) == frags && b[8] == 100 && b[9] == pcol
    && NetValue(b[12..16]) == sip && NetValue(b[16..20]) == dip
  }

  lemma DatagramSays(r: Route, frags: Word, data: seq<Byte>)
    requires |data| + IPHDR < 0x1_0000
    ensures var b := Bytes(Datagram(r, frags, data));
      HeaderSays(b, IPHDR + |data|, r.ident, frags, r.pcol, r.sip, r.dip) && b[IPHDR..] == data
  {
    hide Quad, High, Low, NetValue, LeSum, Canon;
    var p := Datagram(r, frags, data);
    var b, u := Bytes(p), Unsealed(p.h);
    NetWord(|data| + IPHDR);
    NetWord(r.ident);
    NetWord(frags);
    NetLong(r.sip);
    NetLong(r.dip);
    assert b[2..4] == u[2..4] == [High(p.h.len), Low(p.h.len)];
    assert b[4..6] == u[4..6] == [High(r.ident), Low(r.ident)];
    assert b[6..8] == u[6..8] == [High(frags), Low(frags)];
    assert b[12..16] == u[12..16] == Quad(r.sip) && b[16..20] == u[16..20] == Quad(r.dip);
  }

  /** A payload that fits one frame goes out in one datagram; a longer one in two with the
      same identification, the first flagged as not the last, the second at its offset in
      units of eight bytes; all from and to where they should. */
  lemma OnTheWire(link: Link, r: Route, payload: seq<Byte>)
    requires link.Ok() && |payload| <= 2 * link.mtu
    ensures var first := Bytes(First(link, r, payload));
      if |payload| <= link.mtu then
        HeaderSays(first, IPHDR + |payload|, r.ident, 0, r.pcol, r.sip, r.dip) && first[IPHDR..] == payload
      else
        var second := Bytes(Second(link, r, payload));
        && HeaderSays(first, IPHDR + link.mtu, r.ident, 0x2000, r.pcol, r.sip, r.dip)
        && HeaderSays(second, IPHDR + |payload| - link.mtu, r.ident, link.mtu / 8, r.pcol, r.sip, r.dip)
        && first[IPHDR..] + second[IPHDR..] == payload && link.mtu / 8 * 8 == link.mtu
  {
    hide Bytes, HeaderSays;
    if |payload| <= link.mtu {
      DatagramSays(r, 0, payload);
    } else {
      DatagramSays(r, 0x2000, payload[..link.mtu]);
      DatagramSays(r, link.mtu / 8, payload[link.mtu..]);
    }
  }

  // ---- Making datagrams in the frame buffer ----

  predicate Holds(buff: seq<Byte>, at: nat, s: seq<Byte>) {
    at + |s| <= |buff| && buff[at..at + |s|] == s
  }

  /** s written over the bytes at a place. */
  function Overlaid(buff: seq<Byte>, at: nat, s: seq<Byte>): (r: seq<Byte>)
    requires at + |s| <= |buff|
    ensures |r| == |buff|
  { buff[..at] + s + buff[at + |s|..] }

  lemma OverlaidHolds(buff: seq<Byte>, at: nat, s: seq<Byte>)
    requires at + |s| <= |buff|
    ensures Holds(Overlaid(buff, at, s), at, s)
  {}

  /** What lies before or after is not touched. */
  lemma OverlaidElsewhere(buff: seq<Byte>, at: nat, s: seq<Byte>, lo: nat, hi: nat)
    requires at + |s| <= |buff| && lo <= hi <= |buff| && (hi <= at || at + |s| <= lo)
    ensures Overlaid(buff, at, s)[lo..hi] == buff[lo..hi]
  {}

  /** The room one or two frames take up in the buffer. */
  function Extent(link: Link, dlen: nat): nat {
    link.fhlen + IPHDR + dlen + if dlen > link.mtu then GENHDR + link.fhlen + IPHDR else 0
  }

  class IpMaker {
    var ident: Word
    var oset: Word

    constructor ()
      ensures ident == 1 && oset == 0
    { ident, oset := 1, 0; }

    /** memmove and memcpy within the frame buffer */
    static method Write(buff: array<Byte>, at: nat, s: seq<Byte>)
      requires at + |s| <= buff.Length
      modifies buff
      ensures buff[..] == Overlaid(old(buff[..]), at, s)
    {
      forall k | at <= k < at + |s| { buff[k] := s[k - at]; }
    }

    /** The last part of make_ip: the header is filled in and sealed. */
    method Finish(buff: array<Byte>, d: nat, r: Route, frags: Word, len: nat)
      requires d + IPHDR + len <= buff.Length && len + IPHDR < 0x1_0000
      modifies this, buff
      ensures ident == W16(old(ident) + 1) && oset == 0
      ensures var p := Datagram(r, frags, old(buff[d + IPHDR..d + IPHDR + len]));
        buff[..] == Overlaid(old(buff[..]), d, Bytes(p))
    {
      ghost var p := Datagram(r, frags, buff[d + IPHDR..d + IPHDR + len]);
      ghost var was := buff[..];
      var bytes := SealIp(IpHeader(0, len + IPHDR, r.ident, frags, TTL, r.pcol, r.sip, r.dip));
      Write(buff, d, bytes);
      assert Bytes(p) == bytes + was[d + IPHDR..d + IPHDR + len];
      assert Overlaid(was, d, bytes) == Overlaid(was, d, Bytes(p));
      ident := W16(ident + 1);
      oset := 0;
    }

    /** make_ip for the frame at `base` of the buffer, whose payload is in its place.
        Returns the length of the frame and sub-frame, and the offset of the sub-frame
        (0 if there is none). Payloads of up to two fragments. */
    method MakeIp(buff: array<Byte>, base: nat, link: Link, r: Route, dlen: nat)
      returns (total: nat, fragoff: nat)
      requires link.Ok() && r.ident == ident
      requires if oset == 0 then dlen <= 2 * link.mtu else dlen <= link.mtu && oset < 0x2000
      requires base + Extent(link, dlen) <= buff.Length
      modifies this, buff
      ensures oset == 0
      ensures dlen <= link.mtu ==>
        var d, frags := base + link.fhlen, old(oset) / 8;
        && ident == W16(old(ident) + 1)
        && fragoff == 0 && total == link.fhlen + IPHDR + dlen
        && buff[..] == Overlaid(old(buff[..]), d, Bytes(Datagram(r, frags, old(buff[d + IPHDR..d + IPHDR + dlen]))))
      ensures dlen > link.mtu ==>
        var d := base + link.fhlen;
        var payload := old(buff[d + IPHDR..d + IPHDR + dlen]);
        && ident == W16(W16(old(ident) + 1) + 1)
        && fragoff == link.fhlen + IPHDR + link.mtu
        && total == fragoff + link.fhlen + IPHDR + (dlen - link.mtu)
        && Holds(buff[..], d, Bytes(First(link, r, payload)))
        && Holds(buff[..], d + fragoff + GENHDR, Bytes(Second(link, r, payload)))
      decreases dlen, 1
    {
      hide Bytes, W16, Overlaid, Holds;
      var d := base + link.fhlen;
      var frags := oset / 8;
      var len := Min(dlen, link.mtu);
      var sublen := 0;
      fragoff := 0;
      if dlen > len {
        ghost var payload := buff[d + IPHDR..d + IPHDR + dlen];
        fragoff := link.fhlen + IPHDR + len;
        frags := oset / 8 + 0x2000;
        HoldsIf(buff[..], d + IPHDR, payload);
        sublen := MakeSub(buff, base, link, r, dlen, payload);
        HoldsIs(buff[..], d + IPHDR, payload[..len]);
        ghost var made := buff[..];
        Finish(buff, d, r, frags, len);
        OverlaidHolds(made, d, Bytes(First(link, r, payload)));
        StillHolds(made, d, Bytes(First(link, r, payload)), d + fragoff + GENHDR, Bytes(Second(link, r, payload)));
      } else {
        Finish(buff, d, r, frags, len);
      }
      total := len + IPHDR + sublen + link.fhlen;
    }

    /** The first part of make_ip, for a payload that needs a second fragment: the rest
        of the payload is moved to the sub-frame, which is made by a recursive call. */
    method MakeSub(buff: array<Byte>, base: nat, link: Link, r: Route, dlen: nat, ghost payload: seq<Byte>)
      returns (sublen: nat)
      requires link.Ok() && r.ident == ident && oset == 0 && link.mtu < dlen <= 2 * link.mtu
      requires base + Extent(link, dlen) <= buff.Length
      requires |payload| == dlen && Holds(buff[..], base + link.fhlen + IPHDR, payload)
      modifies this, buff
      ensures ident == W16(old(ident) + 1) && sublen == link.fhlen + IPHDR + (dlen - link.mtu)
      ensures Holds(buff[..], base + link.fhlen + IPHDR, payload[..link.mtu])
      ensures Holds(buff[..], base + 2 * link.fhlen + IPHDR + link.mtu + GENHDR, Bytes(Second(link, r, payload)))
      decreases dlen, 0
    {
      hide Bytes, W16, Overlaid, Holds;
      var d := base + link.fhlen;
      var base2 := d + IPHDR + link.mtu + GENHDR;
      HoldsIs(buff[..], d + IPHDR, payload);
      TwoFragments(buff[..], d, link, r, payload);
      oset := oset + link.mtu;
      var rest := d + IPHDR + oset;
      assert buff[rest..rest + dlen - link.mtu] == payload[link.mtu..];
      Write(buff, base2 + link.fhlen + IPHDR, buff[rest..rest + dlen - link.mtu]);
      var none;
      sublen, none := MakeIp(buff, base2, link, r, dlen - link.mtu);
    }

    /** put_frame: the frame, then the sub-frame if there is one. */
    method PutFrame(buff: array<Byte>, fragoff: nat, len: nat) returns (frames: seq<seq<Byte>>)
      requires fragoff <= len && len + GENHDR <= buff.Length
      ensures fragoff == 0 && len > 0 ==> frames == [buff[..len]]
      ensures fragoff > 0 ==>
        frames == [buff[..fragoff]] + (if len > fragoff then [buff[fragoff + GENHDR..GENHDR + len]] else [])
    {
      var len1 := if fragoff != 0 then fragoff else len;
      var len2 := len - len1;
      frames := [];
      if len1 > 0 { frames := frames + [buff[..len1]]; }
      if len2 > 0 { frames := frames + [buff[fragoff + GENHDR..fragoff + GENHDR + len2]]; }
    }
  }

  /** The frames carry the payload behind their link headers: in one datagram, or in two. */
  predicate Carried(frames: seq<seq<Byte>>, link: Link, r: Route, payload: seq<Byte>)
    requires link.Ok() && |payload| <= 2 * link.mtu
  {
    && |frames| == (if |payload| <= link.mtu then 1 else 2)
    && link.fhlen <= |frames[0]| && frames[0][link.fhlen..] == Bytes(First(link, r, payload))
    && (|payload| > link.mtu ==>
      link.fhlen <= |frames[1]| && frames[1][link.fhlen..] == Bytes(Second(link, r, payload)))
  }

  /** make_ip and put_frame, as the program calls them in one line: whatever payload is in
      its place in the buffer is carried by the frames sent. */
  method SendIp(maker: IpMaker, buff: array<Byte>, link: Link, r: Route, dlen: nat) returns (frames: seq<seq<Byte>>)
    requires link.Ok() && r.ident == maker.ident && maker.oset == 0 && dlen <= 2 * link.mtu
    requires Extent(link, dlen) <= buff.Length && link.fhlen + IPHDR + dlen + GENHDR <= buff.Length
    modifies maker, buff
    ensures Carried(frames, link, r, old(buff[link.fhlen + IPHDR..link.fhlen + IPHDR + dlen]))
    ensures maker.oset == 0
  {
    hide Bytes, Overlaid, Holds, Carried;
    ghost var payload := buff[link.fhlen + IPHDR..link.fhlen + IPHDR + dlen];
    ghost var was := buff[..];
    var total, fragoff := maker.MakeIp(buff, 0, link, r, dlen);
    frames := maker.PutFrame(buff, fragoff, total);
    if dlen > link.mtu {
      FramesCarry(buff[..], link, r, payload);
      BothCarry(buff[..], link, r, payload, total, frames);
    } else {
      OverlaidHolds(was, link.fhlen, Bytes(First(link, r, payload)));
      FrameCarries(buff[..], link, r, payload, total, frames);
    }
  }

  lemma FrameCarries(buff: seq<Byte>, link: Link, r: Route, payload: seq<Byte>, total: nat, frames: seq<seq<Byte>>)
    requires link.Ok() && |payload| <= link.mtu && total == link.fhlen + IPHDR + |payload| <= |buff|
    requires Holds(buff, link.fhlen, Bytes(First(link, r, payload))) && frames == [buff[..total]]
    ensures Carried(frames, link, r, payload)
  {
    hide Bytes;
  }

  lemma BothCarry(buff: seq<Byte>, link: Link, r: Route, payload: seq<Byte>, total: nat, frames: seq<seq<Byte>>)
    requires link.Ok() && link.mtu < |payload| <= 2 * link.mtu
    requires var fragoff := link.fhlen + IPHDR + link.mtu;
      && fragoff + link.fhlen < total && GENHDR + total <= |buff|
      && buff[..fragoff][link.fhlen..] == Bytes(First(link, r, payload))
      && buff[fragoff + GENHDR..GENHDR + total][link.fhlen..] == Bytes(Second(link, r, payload))
      && frames == [buff[..fragoff]] + [buff[fragoff + GENHDR..GENHDR + total]]
    ensures Carried(frames, link, r, payload)
  {
    hide Bytes;
  }

  /** The rest of the payload is moved to the sub-frame, and the sub-frame is finished:
      this leaves the first part of the payload where it was. */
  lemma TwoFragments(was: seq<Byte>, d: nat, link: Link, r: Route, payload: seq<Byte>)
    requires link.Ok() && link.mtu < |payload| <= 2 * link.mtu
    requires d + IPHDR + |payload| + GENHDR + link.fhlen + IPHDR <= |was|
    requires was[d + IPHDR..d + IPHDR + |payload|] == payload
    ensures var n, d2 := link.mtu, d + link.fhlen + IPHDR + link.mtu + GENHDR;
      var moved := Overlaid(was, d2 + IPHDR, payload[n..]);
      var made := Overlaid(moved, d2, Bytes(Second(link, r, payload)));
      && moved[d2 + IPHDR..d2 + IPHDR + |payload| - n] == payload[n..]
      && Holds(made, d + IPHDR, payload[..n]) && Holds(made, d2, Bytes(Second(link, r, payload)))
  {
    hide Bytes, Overlaid;
    var n, d2 := link.mtu, d + link.fhlen + IPHDR + link.mtu + GENHDR;
    var second := Bytes(Second(link, r, payload));
    var moved := Overlaid(was, d2 + IPHDR, payload[n..]);
    OverlaidHolds(was, d2 + IPHDR, payload[n..]);
    OverlaidElsewhere(was, d2 + IPHDR, payload[n..], d + IPHDR, d + IPHDR + n);
    assert was[d + IPHDR..d + IPHDR + n] == payload[..n];
    OverlaidHolds(moved, d2, second);
    OverlaidElsewhere(moved, d2, second, d + IPHDR, d + IPHDR + n);
  }

  lemma HoldsIf(buff: seq<Byte>, at: nat, s: seq<Byte>)
    requires at + |s| <= |buff| && buff[at..at + |s|] == s
    ensures Holds(buff, at, s)
  {}

  lemma HoldsIs(buff: seq<Byte>, at: nat, s: seq<Byte>)
    requires Holds(buff, at, s)
    ensures at + |s| <= |buff| && buff[at..at + |s|] == s
  {}

  lemma StillHolds(buff: seq<Byte>, at: nat, s: seq<Byte>, at2: nat, t: seq<Byte>)
    requires at + |s| <= |buff| && Holds(buff, at2, t) && at + |s| <= at2
    ensures Holds(Overlaid(buff, at, s), at2, t)
  {
    OverlaidElsewhere(buff, at, s, at2, at2 + |t|);
  }

  /** The two frames that put_frame sends, link header aside, are the two datagrams. */
  lemma FramesCarry(buff: seq<Byte>, link: Link, r: Route, payload: seq<Byte>)
    requires link.Ok() && link.mtu < |payload| <= 2 * link.mtu
    requires Holds(buff, link.fhlen, Bytes(First(link, r, payload)))
    requires Holds(buff, 2 * link.fhlen + IPHDR + link.mtu + GENHDR, Bytes(Second(link, r, payload)))
    ensures var fragoff := link.fhlen + IPHDR + link.mtu;
      var total := fragoff + link.fhlen + IPHDR + (|payload| - link.mtu);
      && buff[..fragoff][link.fhlen..] == Bytes(First(link, r, payload))
      && buff[fragoff + GENHDR..GENHDR + total][link.fhlen..] == Bytes(Second(link, r, payload))
  {
    hide Bytes;
  }
}
