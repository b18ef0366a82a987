/** Reassembly in IP.C: a table of fragments that wait for their other half. */
module IpDefrag {
  import opened Words
  import opened Checksum
  import opened IpFrag

  /** A slot of the table: free when it has no tries left. */
  datatype Slot = Slot(tries: nat, ident: Word, sip: LWord, oset: nat, data: seq<Byte>)

  /** What identifies a datagram. */
  datatype Key = Key(ident: Word, sip: LWord)

  /** An incoming fragment: its data is the first dlen bytes of the frame's data area. */
  datatype Piece = Piece(key: Key, oset: nat, area: seq<Byte>, dlen: nat) {
    predicate Ok() { dlen <= |area| }

    function Data(): seq<Byte>
      requires Ok()
    { area[..dlen] }
  }

  predicate Hit(s: Slot, k: Key) { s.tries > 0 && s.ident == k.ident && s.sip == k.sip }

  /** The first slot that matches; the length of the table if none does. */
  function FirstHit(slots: seq<Slot>, k: Key): (m: nat)
    ensures m <= |slots|
    ensures m < |slots| ==> Hit(slots[m], k)
    ensures forall i :: 0 <= i < m ==> !Hit(slots[i], k)
  { if slots == [] || Hit(slots[0], k) then 0 else 1 + FirstHit(slots[1..], k) }

  function Aged(s: Slot): Slot { if s.tries > 0 then s.(tries := s.tries - 1) else s }

  /** A fragment that a slot is examined for and does not match costs it a try. */
  function AgedTo(slots: seq<Slot>, m: nat): (r: seq<Slot>)
    requires m <= |slots|
    ensures |r| == |slots|
  { seq(|slots|, i requires 0 <= i < |slots| => if i < m then Aged(slots[i]) else slots[i]) }

  /** The last free slot before m; m if there is none. */
  function LastFree(slots: seq<Slot>, m: nat): (f: nat)
    requires m <= |slots|
    ensures f <= |slots|
    ensures f < |slots| ==> slots[f].tries == 0
    ensures f == |slots| <==> forall i :: 0 <= i < m ==> slots[i].tries > 0
  { if m == 0 then |slots| else if slots[m - 1].tries == 0 then m - 1 else LastFree(slots, m - 1) }

  predicate Adjacent(s: Slot, oset: nat, dlen: nat) {
    && (oset + dlen == s.oset || s.oset + |s.data| == oset)
    && dlen + |s.data| <= MAXGEN
  }

  /** Both parts lie inside the data area when they are put together. */
  predicate Inside(p: Piece, s: Slot) {
    p.oset + p.dlen <= |p.area| && s.oset + |s.data| <= |p.area|
  }

  /** For parts that follow one another: when the first of them leaves room for both. */
  lemma InsideExactly(p: Piece, s: Slot)
    requires Adjacent(s, p.oset, p.dlen)
    ensures Inside(p, s) <==> Min(p.oset, s.oset) + p.dlen + |s.data| <= |p.area|
  {}

  /** The code's guard bounds the sum of the lengths, not where the parts lie. The last two
      fragments of a datagram of three pass it, and reach past the end of the data area. */
  lemma GuardIsNotEnough(key: Key, area: seq<Byte>, data: seq<Byte>)
    requires |area| == MAXGEN - 14 - IPHDR && |data| == 1480
    ensures var s, p := Slot(FRAGTRIES, key.ident, key.sip, 1480, data), Piece(key, 2960, area, 1480);
      Adjacent(s, p.oset, p.dlen) && p.Ok() && !Inside(p, s)
  {}

  /** Moving the new data into its place, if that is not the beginning, and copying the
      old data into its own. */
  function Merged(p: Piece, s: Slot): (r: seq<Byte>)
    requires p.Ok() && Inside(p, s)
  {
    var moved := if p.oset > 0 then Overlaid(p.area, p.oset, p.Data()) else p.area;
    Overlaid(moved, s.oset, s.data)
  }

  /** Nothing is written past the end of the data area: if the fragment is put together
      with a slot's, they lie inside it. */
  predicate Safe(slots: seq<Slot>, p: Piece) {
    var m := FirstHit(slots, p.key);
    p.Ok() && (m < |slots| && Adjacent(slots[m], p.oset, p.dlen) ==> Inside(p, slots[m]))
  }

  /** defrag_ip: the table, the data area and the length of the whole datagram, or 0. */
  function Defrag(slots: seq<Slot>, p: Piece): (r: (seq<Slot>, seq<Byte>, nat))
    requires Safe(slots, p)
    ensures |r.0| == |slots|
  {
    var m := FirstHit(slots, p.key);
    var aged := AgedTo(slots, m);
    if m < |slots| then
      if Adjacent(slots[m], p.oset, p.dlen) then
        (aged[m := slots[m].(tries := 0)], Merged(p, slots[m]), p.dlen + |slots[m].data|)
      else (aged, p.area, 0)
    else
      var f := LastFree(slots, |slots|);
      if f < |slots| then (aged[f := Slot(FRAGTRIES, p.key.ident, p.key.sip, p.oset, p.Data())], p.area, 0)
      else (aged, p.area, 0)
  }

  /** What comes of a fragment: the length of the whole, at most 3040, if it follows or
      precedes a half with the same identification and source; otherwise 0, and the data
      area is left alone. */
  lemma DefragOutcome(slots: seq<Slot>, p: Piece)
    requires Safe(slots, p)
    ensures var r, m := Defrag(slots, p), FirstHit(slots, p.key);
      var meets := m < |slots| && (p.oset + p.dlen == slots[m].oset || slots[m].oset + |slots[m].data| == p.oset);
      && (meets && p.dlen + |slots[m].data| <= 3040 ==> r.2 == p.dlen + |slots[m].data| && |r.1| == |p.area|)
      && (!(meets && p.dlen + |slots[m].data| <= 3040) ==> r.2 == 0 && r.1 == p.area)
  {}

  class Reassembler {
    const frags: array<Slot>

    constructor ()
      ensures frags.Length == 4 && fresh(frags) && forall i :: 0 <= i < 4 ==> frags[i].tries == 0
    { frags := new Slot[4](_ => Slot(0, 0, 0, 0, [])); }

    /** defrag_ip, on the data area of the frame. */
    method DefragIp(key: Key, oset: nat, area: array<Byte>, dlen: nat) returns (len: nat)
      requires Safe(frags[..], Piece(key, oset, area[..], dlen))
      modifies frags, area
      ensures (frags[..], area[..], len) == Defrag(old(frags[..]), Piece(key, oset, old(area[..]), dlen))
    {
      hide Overlaid, LastFree;
      var n, matched := 0, false;
      var fp, fp2 := 0, frags.Length;
      ghost var slots := frags[..];
      ghost var p := Piece(key, oset, area[..], dlen);
      ghost var m := FirstHit(slots, key);
      NoneFree(slots);
      while n < frags.Length && !matched
        invariant 0 <= n <= frags.Length && area[..] == p.area
        invariant if matched then m == fp == n - 1 else n <= m
        invariant frags[..] == AgedTo(slots, Min(n, m))
        invariant !matched ==> fp2 == LastFree(slots, n)
      {
        fp := n;
        AgedNext(slots, n);
        FreeNext(slots, n);
        n := n + 1;
        if frags[fp].tries > 0 {
          matched := key.ident == frags[fp].ident && key.sip == frags[fp].sip;
          if !matched { frags[fp] := frags[fp].(tries := frags[fp].tries - 1); }
        } else {
          fp2 := fp;
        }
      }
      len := 0;
      if matched {
        var s := frags[fp];
        if (oset + dlen == s.oset || s.oset + |s.data| == oset) && dlen + |s.data| <= MAXGEN {
          assert s == slots[m] && Adjacent(s, oset, dlen);
          assert area[..dlen] == p.Data();
          if oset > 0 { IpMaker.Write(area, oset, area[..dlen]); }
          len := dlen + |s.data|;
          IpMaker.Write(area, s.oset, s.data);
          frags[fp] := s.(tries := 0);
          assert area[..] == Merged(p, s);
          assert frags[..] == AgedTo(slots, m)[m := s.(tries := 0)];
        }
      } else if fp2 < frags.Length {
        frags[fp2] := Slot(FRAGTRIES, key.ident, key.sip, oset, area[..dlen]);
      }
    }
  }

  lemma NoneFree(slots: seq<Slot>)
    ensures LastFree(slots, 0) == |slots| && AgedTo(slots, 0) == slots
  {}

  lemma AgedNext(slots: seq<Slot>, n: nat)
    requires n < |slots|
    ensures AgedTo(slots, n)[n] == slots[n]
    ensures AgedTo(slots, n + 1) == AgedTo(slots, n)[n := Aged(slots[n])]
  {}

  lemma FreeNext(slots: seq<Slot>, n: nat)
    requires n < |slots|
    ensures LastFree(slots, n + 1) == if slots[n].tries == 0 then n else LastFree(slots, n)
  {}

  // ---- Reassembly is the inverse of splitting ----

  /** The two pieces are the two halves of the payload, in one order or the other. */
  predicate Halves(p: Piece, q: Piece, payload: seq<Byte>) {
    && p.Ok() && q.Ok() && p.key == q.key && p.dlen > 0 && q.dlen > 0
    && p.dlen + q.dlen == |payload| <= MAXGEN && |payload| <= |q.area|
    && ((p.oset == 0 && q.oset == p.dlen && payload == p.Data() + q.Data())
        || (q.oset == 0 && p.oset == q.dlen && payload == q.Data() + p.Data()))
  }

  lemma HalvesMerge(p: Piece, q: Piece, s: Slot, payload: seq<Byte>)
    requires Halves(p, q, payload) && s.oset == p.oset && s.data == p.Data()
    ensures Adjacent(s, q.oset, q.dlen) && Inside(q, s)
    ensures |Merged(q, s)| == |q.area| && Merged(q, s)[..|payload|] == payload
  {
    if q.oset == 0 {
      assert Overlaid(q.area, s.oset, s.data)[..|payload|] == q.Data() + p.Data();
    } else {
      var moved := Overlaid(q.area, q.oset, q.Data());
      OverlaidElsewhere(moved, 0, s.data, q.oset, q.oset + q.dlen);
      OverlaidHolds(q.area, q.oset, q.Data());
      HoldsIs(moved, q.oset, q.Data());
      OverlaidHolds(moved, 0, s.data);
      HoldsIs(Overlaid(moved, 0, s.data), 0, s.data);
      var r := Overlaid(moved, 0, s.data);
      assert r[..|payload|] == r[..q.oset] + r[q.oset..q.oset + q.dlen];
    }
  }

  /** Slot f holds the first half p, with t tries left; or it has run out of tries. No
      other slot matches. */
  predicate Waiting(slots: seq<Slot>, f: nat, p: Piece, t: nat)
    requires p.Ok()
  {
    && f < |slots|
    && (t > 0 ==> slots[f] == Slot(t, p.key.ident, p.key.sip, p.oset, p.Data()))
    && (forall i :: 0 <= i < |slots| && (i != f || t == 0) ==> !Hit(slots[i], p.key))
  }

  /** The same half of the same datagram. */
  predicate Duplicate(o: Piece, p: Piece) {
    o.Ok() && p.Ok() && o.key == p.key && o.oset == p.oset && o.Data() == p.Data()
  }

  /** What may come between the halves: other datagrams' fragments, and p again. */
  predicate Between(others: seq<Piece>, p: Piece) {
    forall j :: 0 <= j < |others| ==> others[j].key != p.key || Duplicate(others[j], p)
  }

  /** None of the fragments, one after the other, writes past the end of its data area. */
  predicate AllSafe(slots: seq<Slot>, others: seq<Piece>)
    decreases |others|
  { others == [] || (Safe(slots, others[0]) && AllSafe(Defrag(slots, others[0]).0, others[1..])) }

  function DefragAll(slots: seq<Slot>, others: seq<Piece>): (r: seq<Slot>)
    requires AllSafe(slots, others)
    ensures |r| == |slots|
    decreases |others|
  { if others == [] then slots else DefragAll(Defrag(slots, others[0]).0, others[1..]) }

  /** Where the waiting half is, and how many tries it has left (0 if it is lost), after
      one more fragment: one that looks at its slot and does not match costs it a try, a
      duplicate costs nothing and is stored anew when the half is lost. */
  function Left1(slots: seq<Slot>, f: nat, t: nat, key: Key, o: Piece): (nat, nat) {
    if o.key != key then (f, if FirstHit(slots, o.key) > f && t > 0 then t - 1 else t)
    else if t > 0 then (f, t)
    else if LastFree(slots, |slots|) < |slots| then (LastFree(slots, |slots|), FRAGTRIES)
    else (f, 0)
  }

  function Left(slots: seq<Slot>, f: nat, t: nat, key: Key, others: seq<Piece>): (nat, nat)
    requires AllSafe(slots, others)
    decreases |others|
  {
    if others == [] then (f, t)
    else
      var (f', t') := Left1(slots, f, t, key, others[0]);
      Left(Defrag(slots, others[0]).0, f', t', key, others[1..])
  }

  /** How many of the fragments look at slot f: those that match nothing before it or in it. */
  function Examinations(slots: seq<Slot>, others: seq<Piece>, f: nat): nat
    requires AllSafe(slots, others)
    decreases |others|
  {
    if others == [] then 0
    else
      (if FirstHit(slots, others[0].key) > f then 1 else 0)
      + Examinations(Defrag(slots, others[0]).0, others[1..], f)
  }

  lemma FirstStored(slots: seq<Slot>, p: Piece)
    requires p.Ok() && (forall i :: 0 <= i < |slots| ==> !Hit(slots[i], p.key))
    requires exists i :: 0 <= i < |slots| && slots[i].tries == 0
    ensures Safe(slots, p)
    ensures var f := LastFree(slots, |slots|); var r := Defrag(slots, p);
      f < |slots| && r.2 == 0 && Waiting(r.0, f, p, FRAGTRIES)
  {
    hide LastFree, FirstHit;
    assert FirstHit(slots, p.key) == |slots|;
    var r := Defrag(slots, p);
    var f := LastFree(slots, |slots|);
    forall i | 0 <= i < |slots| && i != f ensures !Hit(r.0[i], p.key) {
      assert r.0[i] == Aged(slots[i]);
    }
  }

  lemma OtherPasses(slots: seq<Slot>, f: nat, p: Piece, t: nat, o: Piece)
    requires p.Ok() && Safe(slots, o) && o.key != p.key && Waiting(slots, f, p, t)
    ensures var (f', t') := Left1(slots, f, t, p.key, o);
      Waiting(Defrag(slots, o).0, f', p, t')
  {
    hide LastFree, FirstHit, Adjacent, Merged;
    var m := FirstHit(slots, o.key);
    var t' := if m > f && t > 0 then t - 1 else t;
    var r := Defrag(slots, o).0;
    forall i | 0 <= i < |slots| && (i != f || t' == 0) ensures !Hit(r[i], p.key) {
      assert i != f ==> !Hit(slots[i], p.key);
    }
  }

  /** A duplicate hits the half that waits, but does not continue it. */
  lemma DuplicatePasses(slots: seq<Slot>, f: nat, p: Piece, t: nat, o: Piece)
    requires p.Ok() && p.dlen > 0 && Safe(slots, o) && Duplicate(o, p) && Waiting(slots, f, p, t)
    ensures var (f', t') := Left1(slots, f, t, p.key, o);
      Waiting(Defrag(slots, o).0, f', p, t')
  {
    hide LastFree, FirstHit, Merged;
    assert |o.Data()| == o.dlen && |p.Data()| == p.dlen;
    if t > 0 {
      assert Hit(slots[f], o.key) && FirstHit(slots, o.key) == f;
      assert !Adjacent(slots[f], o.oset, o.dlen);
      forall i | 0 <= i < |slots| && i != f ensures !Hit(AgedTo(slots, f)[i], p.key) {
        assert !Hit(slots[i], p.key);
      }
    } else {
      assert FirstHit(slots, o.key) == |slots|;
      var r, g := Defrag(slots, o).0, LastFree(slots, |slots|);
      forall i | 0 <= i < |slots| && i != g ensures !Hit(r[i], p.key) {
        assert r[i] == Aged(slots[i]);
      }
    }
  }

  lemma {:induction false} OthersPass(slots: seq<Slot>, f: nat, p: Piece, t: nat, others: seq<Piece>)
    requires p.Ok() && p.dlen > 0 && Between(others, p) && AllSafe(slots, others) && Waiting(slots, f, p, t)
    ensures var (f', t') := Left(slots, f, t, p.key, others);
      Waiting(DefragAll(slots, others), f', p, t')
    decreases |others|
  {
    hide Waiting, Defrag, FirstHit, Left1, Safe;
    if others != [] {
      var o := others[0];
      if o.key != p.key { OtherPasses(slots, f, p, t, o); } else { DuplicatePasses(slots, f, p, t, o); }
      var (f', t') := Left1(slots, f, t, p.key, others[0]);
      OthersPass(Defrag(slots, others[0]).0, f', p, t', others[1..]);
    }
  }

  /** Each examination costs one try: without duplicates that is all, and with them there
      are at least as many left. */
  lemma {:induction false} LeftCounts(slots: seq<Slot>, f: nat, p: Piece, t: nat, others: seq<Piece>)
    requires p.Ok() && p.dlen > 0 && Between(others, p) && AllSafe(slots, others) && Waiting(slots, f, p, t)
    ensures var n := Examinations(slots, others, f);
      && (n < t ==> Left(slots, f, t, p.key, others) == (f, t - n))
      && ((forall j :: 0 <= j < |others| ==> others[j].key != p.key) ==>
        Left(slots, f, t, p.key, others) == (f, Max(t - n, 0)))
    decreases |others|
  {
    hide Waiting, Defrag, FirstHit, LastFree, Safe;
    if others != [] {
      var o := others[0];
      if o.key != p.key { OtherPasses(slots, f, p, t, o); } else { DuplicatePasses(slots, f, p, t, o); }
      if t > 0 && o.key == p.key { HitHere(slots, f, p, t); }
      var (f', t') := Left1(slots, f, t, p.key, o);
      LeftCounts(Defrag(slots, o).0, f', p, t', others[1..]);
    }
  }

  lemma HitHere(slots: seq<Slot>, f: nat, p: Piece, t: nat)
    requires p.Ok() && t > 0 && Waiting(slots, f, p, t)
    ensures FirstHit(slots, p.key) == f
  {
    hide FirstHit;
    assert Hit(slots[f], p.key);
  }

  /** The second half finds the first if and only if the first still has tries left. */
  lemma SecondCompletes(slots: seq<Slot>, f: nat, p: Piece, t: nat, q: Piece, payload: seq<Byte>)
    requires Halves(p, q, payload) && Waiting(slots, f, p, t)
    ensures Safe(slots, q)
    ensures var r := Defrag(slots, q);
      if t > 0 then |payload| <= |r.1| && r.2 == |payload| && r.1[..r.2] == payload && r.0[f].tries == 0
      else r.2 == 0
  {
    hide LastFree, FirstHit, Overlaid, Merged;
    if t > 0 {
      HitHere(slots, f, p, t);
      HalvesMerge(p, q, slots[f], payload);
    } else {
      assert FirstHit(slots, q.key) == |slots|;
    }
  }

  /** What comes back when p, the others and q arrive. */
  function Returned(slots: seq<Slot>, p: Piece, others: seq<Piece>, q: Piece): (r: seq<Byte>)
    requires Safe(slots, p) && AllSafe(Defrag(slots, p).0, others)
    requires Safe(DefragAll(Defrag(slots, p).0, others), q)
  {
    var last := Defrag(DefragAll(Defrag(slots, p).0, others), q);
    if last.2 <= |last.1| then last.1[..last.2] else last.1
  }

  /** Where p is, and what tries it has left when the others have come. */
  function LeftOf(slots: seq<Slot>, p: Piece, others: seq<Piece>): (nat, nat)
    requires Safe(slots, p) && AllSafe(Defrag(slots, p).0, others)
  { Left(Defrag(slots, p).0, LastFree(slots, |slots|), FRAGTRIES, p.key, others) }

  /** A new datagram's fragment, and room for it. */
  predicate New(slots: seq<Slot>, p: Piece) {
    && p.Ok() && (forall i :: 0 <= i < |slots| ==> !Hit(slots[i], p.key))
    && (exists i :: 0 <= i < |slots| && slots[i].tries == 0)
  }

  /** Fragment and reassemble is the identity: whichever half comes first, if a slot is
      free for it, and whatever other fragments and duplicates of it come in between, the
      whole payload comes back if and only if the waiting half has tries left, and nothing
      otherwise. It has, if fewer than eight fragments have looked at it, and without
      duplicates only then. */
  lemma {:induction false} Reassembles(slots: seq<Slot>, p: Piece, others: seq<Piece>, q: Piece, payload: seq<Byte>)
    requires Halves(p, q, payload) && New(slots, p) && Between(others, p)
    requires Safe(slots, p) ==> AllSafe(Defrag(slots, p).0, others)
    ensures Safe(slots, p) && Safe(DefragAll(Defrag(slots, p).0, others), q)
    ensures Defrag(slots, p).2 == 0
    ensures Returned(slots, p, others, q) == if LeftOf(slots, p, others).1 > 0 then payload else []
    ensures var n := Examinations(Defrag(slots, p).0, others, LastFree(slots, |slots|));
      && (n < FRAGTRIES ==> LeftOf(slots, p, others).1 > 0)
      && ((forall j :: 0 <= j < |others| ==> others[j].key != p.key) && n >= FRAGTRIES ==>
        LeftOf(slots, p, others).1 == 0)
  {
    hide Defrag, LastFree, Waiting, DefragAll, Examinations, Left, AllSafe, Safe;
    FirstStored(slots, p);
    var s1 := Defrag(slots, p).0;
    OthersPass(s1, LastFree(slots, |slots|), p, FRAGTRIES, others);
    LeftCounts(s1, LastFree(slots, |slots|), p, FRAGTRIES, others);
    var (f, t) := LeftOf(slots, p, others);
    SecondCompletes(DefragAll(s1, others), f, p, t, q, payload);
  }

  // ---- From the frames of make_ip ----

  function Quad4(s: seq<Byte>): LWord
    requires |s| == 4
  {
    var hi: int, lo: int := Pair(s[0], s[1]), Pair(s[2], s[3]);
    0x1_0000 * hi + lo
  }

  lemma QuadBack(x: LWord)
    ensures Quad4(Quad(x)) == x
  {
    hide Pair, High, Low;
    PartsPair(x / 0x1_0000);
    PartsPair(x % 0x1_0000);
  }

  /** The fields of a 20-byte header. */
  function Fields(b: seq<Byte>): IpHeader
    requires |b| >= IPHDR
  {
    IpHeader(b[1], Pair(b[2], b[3]), Pair(b[4], b[5]), Pair(b[6], b[7]), b[8], b[9],
             Quad4(b[12..16]), Quad4(b[16..20]))
  }

  /** What is_ip passes on, for a header without options: the header, and the piece for
      defrag_ip if it is a fragment. */
  datatype Received = Invalid | Whole(h: IpHeader, data: seq<Byte>) | Fragment(h: IpHeader, piece: Piece)

  function IsIp(buff: seq<Byte>, len: nat): Received
    requires |buff| >= 60 && IPHDR <= len <= |buff|
  {
    if !IpOk(buff, len) || buff[0] != 0x45 then Invalid
    else
      var h := Fields(buff);
      var dlen := Min(h.len, len) - IPHDR;
      var area := buff[IPHDR..];
      if h.frags % 0x4000 == 0 then Whole(h, if dlen < 0 then [] else area[..dlen])
      else Fragment(h, Piece(Key(h.ident, h.sip), h.frags % 0x2000 * 8, area, Max(dlen, 0)))
  }

  /** Packets that do not verify, and headers with options, are not passed on. */
  lemma InvalidRefused(buff: seq<Byte>, len: nat)
    requires |buff| >= 60 && IPHDR <= len <= |buff|
    ensures !IpOk(buff, len) || buff[0] % 0x10 != 5 ==> IsIp(buff, len) == Invalid
  {
    hide IpOk, Fields;
  }

  /** Sealing changes only the checksum. */
  lemma BytesParts(p: Ip, pad: seq<Byte>)
    ensures var b, u := Bytes(p) + pad, Unsealed(p.h);
      && b[..10] == u[..10] && b[12..16] == Quad(p.h.sip) && b[16..20] == Quad(p.h.dip)
      && b[IPHDR..] == p.data + pad
  {
    hide Quad, High, Low;
  }

  lemma FieldsOf(p: Ip, pad: seq<Byte>)
    ensures Fields(Bytes(p) + pad) == p.h && (Bytes(p) + pad)[0] == 0x45
    ensures (Bytes(p) + pad)[IPHDR..] == p.data + pad
  {
    BytesParts(p, pad);
    QuadBack(p.h.sip);
    QuadBack(p.h.dip);
    PartsPair(p.h.len);
    PartsPair(p.h.ident);
    PartsPair(p.h.frags);
    hide Pair, High, Low, Bytes, Quad, Quad4;
    var b, u := Bytes(p) + pad, Unsealed(p.h);
    assert forall k :: 0 <= k < 10 ==> b[k] == u[k] by {
      forall k | 0 <= k < 10 ensures b[k] == u[k] { assert b[..10][k] == u[..10][k]; }
    }
  }

  /** A datagram with the right length is received as what it is. */
  lemma ReceivedIs(p: Ip, pad: seq<Byte>)
    requires p.h.len == IPHDR + |p.data| && |pad| >= 40
    ensures IsIp(Bytes(p) + pad, |Bytes(p)|) ==
      if p.h.frags % 0x4000 == 0 then Whole(p.h, p.data)
      else Fragment(p.h, Piece(Key(p.h.ident, p.h.sip), p.h.frags % 0x2000 * 8, p.data + pad, |p.data|))
  {
    hide Fields, Bytes, IpOk;
    HeaderOk(p, pad);
    FieldsOf(p, pad);
    assert (p.data + pad)[..|p.data|] == p.data;
  }

  lemma HeaderOk(p: Ip, pad: seq<Byte>)
    requires |pad| >= 40
    ensures IpOk(Bytes(p) + pad, |Bytes(p)|)
  {
    hide IpOk, Unsealed, Quad, Canon, LeSum, Not;
    var head := Bytes(p)[..IPHDR];
    assert head == Stored(Unsealed(p.h), 10, Not(Canon(LeSum(Unsealed(p.h)))));
    IpHeaderAccepted(p.h, head, p.data + pad);
    assert head + (p.data + pad) == Bytes(p) + pad;
  }

  /** A header of the route's datagrams, as received. */
  predicate Routed(h: IpHeader, r: Route) {
    h.service == 0 && h.ident == r.ident && h.ttl == 100 && h.pcol == r.pcol && h.sip == r.sip && h.dip == r.dip
  }

  lemma FirstReceived(link: Link, r: Route, payload: seq<Byte>, pad: seq<Byte>)
    requires link.Ok() && |payload| <= 2 * link.mtu && |pad| >= 40
    ensures var p := First(link, r, payload);
      var rx := IsIp(Bytes(p) + pad, |Bytes(p)|);
      if |payload| <= link.mtu then rx == Whole(p.h, payload)
      else rx == Fragment(p.h, Piece(Key(r.ident, r.sip), 0, payload[..link.mtu] + pad, link.mtu))
    ensures Routed(First(link, r, payload).h, r)
  {
    hide IsIp, Bytes;
    ReceivedIs(First(link, r, payload), pad);
  }

  lemma SecondReceived(link: Link, r: Route, payload: seq<Byte>, pad: seq<Byte>)
    requires link.Ok() && link.mtu < |payload| <= 2 * link.mtu && |pad| >= 40
    ensures var p := Second(link, r, payload);
      IsIp(Bytes(p) + pad, |Bytes(p)|) ==
        Fragment(p.h, Piece(Key(r.ident, r.sip), link.mtu, payload[link.mtu..] + pad, |payload| - link.mtu))
    ensures Routed(Second(link, r, payload).h, r)
  {
    hide IsIp, Bytes;
    var p := Second(link, r, payload);
    ReceivedIs(p, pad);
    ModUnique(link.mtu, 8, link.mtu / 8, 0);
    assert p.h.frags == link.mtu / 8 && p.h.frags % 0x2000 == p.h.frags && p.h.frags % 0x4000 == p.h.frags;
  }

  /** The two frames of a fragmented payload are received as its two halves, in either
      order, by any receive buffer with room for the whole. */
  lemma FramesAreHalves(link: Link, r: Route, payload: seq<Byte>, pad1: seq<Byte>, pad2: seq<Byte>)
    requires link.Ok() && link.mtu < |payload| <= 2 * link.mtu && |payload| <= MAXGEN
    requires |pad1| >= 40 && |pad2| >= 40 && |pad1| >= |payload| && |pad2| >= |payload|
    ensures
      var first, second := Bytes(First(link, r, payload)), Bytes(Second(link, r, payload));
      var p, q := IsIp(first + pad1, |first|), IsIp(second + pad2, |second|);
      && p.Fragment? && q.Fragment? && Routed(p.h, r) && Routed(q.h, r)
      && Halves(p.piece, q.piece, payload) && Halves(q.piece, p.piece, payload)
  {
    hide IsIp, Bytes;
    FirstReceived(link, r, payload, pad1);
    SecondReceived(link, r, payload, pad2);
    assert payload == payload[..link.mtu] + payload[link.mtu..];
    assert (payload[..link.mtu] + pad1)[..link.mtu] == payload[..link.mtu];
    assert (payload[link.mtu..] + pad2)[..|payload| - link.mtu] == payload[link.mtu..];
  }

  /** What is_ip passes on for a frame, behind whose last byte the buffer holds `pad`. */
  function FromFrame(link: Link, frame: seq<Byte>, pad: seq<Byte>): Received
    requires |frame| >= link.fhlen + IPHDR && |pad| >= 40
  { IsIp(frame[link.fhlen..] + pad, |frame| - link.fhlen) }

  /** From payload to payload: what make_ip and put_frame send comes in whole if it fits
      one frame; else its two frames, in either order and with anything in between, give
      the payload back exactly when the first to come has tries left. */
  lemma PayloadReturns(link: Link, r: Route, payload: seq<Byte>, frames: seq<seq<Byte>>,
                       pad1: seq<Byte>, pad2: seq<Byte>, swapped: bool, slots: seq<Slot>, others: seq<Piece>)
    requires link.Ok() && |payload| <= 2 * link.mtu && |payload| <= MAXGEN && Carried(frames, link, r, payload)
    requires |pad1| >= Max(40, |payload|) && |pad2| >= Max(40, |payload|)
    ensures |frames[0]| >= link.fhlen + IPHDR
    ensures var first := FromFrame(link, frames[0], pad1);
      if |payload| <= link.mtu then first.Whole? && first.data == payload && Routed(first.h, r)
      else
        && |frames[1]| >= link.fhlen + IPHDR
        && var second := FromFrame(link, frames[1], pad2);
        && first.Fragment? && second.Fragment? && Routed(first.h, r) && Routed(second.h, r)
        && var (p, q) := if swapped then (second.piece, first.piece) else (first.piece, second.piece);
        (New(slots, p) && Between(others, p) && (Safe(slots, p) ==> AllSafe(Defrag(slots, p).0, others)) ==>
          && Safe(slots, p) && Safe(DefragAll(Defrag(slots, p).0, others), q) && Defrag(slots, p).2 == 0
          && Returned(slots, p, others, q) == if LeftOf(slots, p, others).1 > 0 then payload else [])
  {
    hide IsIp, Bytes, New, Between, Safe, AllSafe, Defrag, DefragAll, Returned, LeftOf, Halves;
    if |payload| <= link.mtu {
      FirstReceived(link, r, payload, pad1);
    } else {
      FramesAreHalves(link, r, payload, pad1, pad2);
      var first, second := FromFrame(link, frames[0], pad1), FromFrame(link, frames[1], pad2);
      var (p, q) := if swapped then (second.piece, first.piece) else (first.piece, second.piece);
      if New(slots, p) && Between(others, p) && (Safe(slots, p) ==> AllSafe(Defrag(slots, p).0, others)) {
        Reassembles(slots, p, others, q, payload);
      }
    }
  }
}
