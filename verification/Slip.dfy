/** The serial line framing of NET.C: put_slip, and the receiver receive_slip, which also
    recognises modem commands. */
module Slip {
  import opened Words

  const END: Byte := 0xc0
  const ESC: Byte := 0xdb
  const ESC_END: Byte := 0xdc
  const ESC_ESC: Byte := 0xdd
  const MAXSLIP := 1006
  const NOCHAR: Word := 0xffff

  // ---- Transmission ----

  function Stuff(b: Byte): seq<Byte> {
    if b == END then [ESC, ESC_END] else if b == ESC then [ESC, ESC_ESC] else [b]
  }

  function Stuffed(s: seq<Byte>): seq<Byte> {
    if s == [] then [] else Stuff(s[0]) + Stuffed(s[1..])
  }

  function Line(f: seq<Byte>): seq<Byte> { [END] + Stuffed(f) + [END] }

  lemma {:induction false} StuffedSnoc(s: seq<Byte>, b: Byte)
    ensures Stuffed(s + [b]) == Stuffed(s) + Stuff(b)
  {
    hide Stuff;
    if s == [] {
      assert s + [b] == [b] && [b][1..] == [];
    } else {
      StuffedSnoc(s[1..], b);
      assert (s + [b])[1..] == s[1..] + [b] && (s + [b])[0] == s[0];
    }
  }

  method PutSlip(pack: seq<Byte>) returns (line: seq<Byte>)
    ensures line == Line(pack)
  {
    line := [END];
    for n := 0 to |pack|
      invariant line == [END] + Stuffed(pack[..n])
    {
      StuffedSnoc(pack[..n], pack[n]);
      assert pack[..n] + [pack[n]] == pack[..n + 1];
      if pack[n] == END {
        line := line + [ESC] + [ESC_END];
      } else if pack[n] == ESC {
        line := line + [ESC] + [ESC_ESC];
      } else {
        line := line + [pack[n]];
      }
    }
    assert pack[..|pack|] == pack;
    line := line + [END];
  }

  // ---- Reception ----

  /** The receiver; the frames it has passed up, and the characters it has passed to the
      modem handler. */
  datatype Rx = Rx(lastw: Word, modem: bool, buf: seq<Byte>, frames: seq<seq<Byte>>, cmds: seq<Byte>)

  /** Escapes and flags: the receiver, and the byte meant or NOCHAR. */
  function Decode(r: Rx, b: Byte): (Rx, Word) {
    if r.lastw == ESC then
      (r.(lastw := 0), if b == ESC_END then END else if b == ESC_ESC then ESC else b)
    else if b == ESC then (r.(lastw := ESC), NOCHAR)
    else if b == END then
      (r.(frames := if r.buf != [] then r.frames + [r.buf] else r.frames, buf := [], lastw := 0, modem := false),
       NOCHAR)
    else (r, b)
  }

  predicate IsModem(w: Word) { w == 0x41 || w == 0x2b }

  function Keep(r: Rx, w: Word): Rx {
    var modem := if r.buf == [] && !r.modem then IsModem(w) else r.modem;
    if w > 0xff then r.(modem := modem)
    else if modem then r.(modem := modem, cmds := r.cmds + [w])
    else if |r.buf| < MAXSLIP then r.(modem := modem, buf := r.buf + [w])
    else r.(modem := modem)
  }

  function Char(r: Rx, b: Byte): Rx { var (r1, w) := Decode(r, b); Keep(r1, w) }

  function Run(r: Rx, s: seq<Byte>): Rx
    decreases |s|
  { if s == [] then r else Run(Char(r, s[0]), s[1..]) }

  class Receiver {
    var lastw: Word
    var modem: bool
    const slipbuff: array<Byte>
    var sliplen: nat
    ghost var frames: seq<seq<Byte>>
    ghost var cmds: seq<Byte>

    ghost predicate Valid()
      reads this
    { slipbuff.Length == MAXSLIP && sliplen <= MAXSLIP }

    ghost function Abs(): Rx
      requires Valid()
      reads this, slipbuff
    { Rx(lastw, modem, slipbuff[..sliplen], frames, cmds) }

    constructor ()
      ensures Valid() && Abs() == Rx(0, false, [], [], [])
    {
      lastw, modem, sliplen := 0, false, 0;
      slipbuff := new Byte[MAXSLIP](_ => 0);
      frames, cmds := [], [];
    }

    /** receive_slip, with the characters that are waiting. The frames received are
        passed up as they are completed. */
    method ReceiveSlip(waiting: seq<Byte>) returns (count: nat, passed: seq<seq<Byte>>)
      requires Valid()
      modifies this, slipbuff
      ensures Valid() && Abs() == Run(old(Abs()), waiting)
      ensures frames == old(frames) + passed && (passed != [] ==> count == 1)
    {
      count, passed := 0, [];
      for k := 0 to |waiting|
        invariant Valid() && Run(Abs(), waiting[k..]) == Run(old(Abs()), waiting)
        invariant frames == old(frames) + passed && (passed != [] ==> count == 1)
      {
        assert waiting[k..][1..] == waiting[k + 1..];
        var got, ended := OneChar(waiting[k]);
        passed := passed + got;
        if ended { count := 1; }
      }
    }

    method OneChar(b: Byte) returns (got: seq<seq<Byte>>, ended: bool)
      requires Valid()
      modifies this, slipbuff
      ensures Valid() && Abs() == Char(old(Abs()), b)
      ensures frames == old(frames) + got && (got != [] ==> ended)
      ensures ended <==> old(lastw) != ESC && b == END
    {
      hide Keep;
      var w: Word := b;
      got, ended := [], false;
      if lastw == ESC {
        lastw := 0;
        w := if w == ESC_END then END else if w == ESC_ESC then ESC else w;
      } else if w == ESC {
        lastw := ESC;
        w := NOCHAR;
      } else if w == END {
        w := NOCHAR;
        if sliplen > 0 {
          got := [slipbuff[..sliplen]];
          frames := frames + got;
        }
        sliplen, lastw, modem := 0, 0, false;
        ended := true;
      }
      KeepChar(w);
    }

    /** Start of a modem command, or a byte for the buffer or the modem. */
    method KeepChar(w: Word)
      requires Valid() && (w == NOCHAR || w < 0x100)
      modifies this, slipbuff
      ensures Valid() && Abs() == Keep(old(Abs()), w)
      ensures frames == old(frames)
    {
      if sliplen == 0 && !modem { modem := w == 0x41 || w == 0x2b; }
      if w != NOCHAR && modem {
        cmds := cmds + [w];
      } else if w != NOCHAR && sliplen < MAXSLIP {
        slipbuff[sliplen] := w;
        sliplen := sliplen + 1;
      }
    }
  }

  lemma {:induction false} RunSplit(r: Rx, s: seq<Byte>, t: seq<Byte>)
    ensures Run(r, s + t) == Run(Run(r, s), t)
    decreases |s|
  {
    hide Char;
    if s == [] {
      assert s + t == t;
    } else {
      RunSplit(Char(r, s[0]), s[1..], t);
      assert (s + t)[1..] == s[1..] + t && (s + t)[0] == s[0];
    }
  }

  // ---- Round trip ----

  /** A stuffed byte is taken for the byte itself. */
  lemma ByteIn(r: Rx, b: Byte)
    requires r.lastw == 0
    ensures Run(r, Stuff(b)) == Keep(r, b)
  {
    hide Keep;
    var r1 := r.(lastw := ESC);
    assert r1.(lastw := 0) == r;
    assert [b][1..] == [];
    if b == END || b == ESC {
      var c := if b == END then ESC_END else ESC_ESC;
      assert [ESC, c][1..] == [c] && [c][1..] == [];
      assert Char(r, ESC) == r1 by { KeepNothing(r1); }
      assert Char(r1, c) == Keep(r, b);
      assert Run(r, Stuff(b)) == Run(r1, [c]) == Run(Char(r1, c), []);
    }
  }

  lemma KeepNothing(r: Rx)
    ensures Keep(r, NOCHAR) == r
  {}

  function Clip(s: seq<Byte>): seq<Byte> { if |s| <= MAXSLIP then s else s[..MAXSLIP] }

  /** The rest of a frame, once its first byte has decided what it is. */
  lemma {:induction false} BodyIn(r: Rx, s: seq<Byte>)
    requires r.lastw == 0 && |r.buf| <= MAXSLIP && r.modem == (r.buf == [])
    ensures Run(r, Stuffed(s)) == if r.modem then r.(cmds := r.cmds + s) else r.(buf := Clip(r.buf + s))
    decreases |s|
  {
    hide Stuff, Char;
    if s == [] {
      assert r.buf + s == r.buf && r.cmds + s == r.cmds;
    } else {
      RunSplit(r, Stuff(s[0]), Stuffed(s[1..]));
      ByteIn(r, s[0]);
      BodyIn(Keep(r, s[0]), s[1..]);
      HeadAndTail(s, r.cmds);
      HeadAndTail(s, r.buf);
    }
  }

  predicate Idle(r: Rx) { r.lastw == 0 && r.buf == [] && !r.modem }

  /** What is passed up for a frame. */
  function Passed(f: seq<Byte>): seq<seq<Byte>> {
    if f == [] || IsModem(f[0]) then [] else [Clip(f)]
  }

  lemma EndIn(r: Rx)
    requires r.lastw == 0
    ensures Run(r, [END]) ==
      r.(frames := if r.buf != [] then r.frames + [r.buf] else r.frames, buf := [], modem := false)
  {
    assert [END][1..] == [];
  }

  /** What the first byte of a frame makes of an idle receiver. */
  function First(r: Rx, b: Byte): Rx {
    if IsModem(b) then r.(modem := true, cmds := r.cmds + [b]) else r.(buf := [b])
  }

  lemma FirstIn(r: Rx, b: Byte)
    requires Idle(r)
    ensures Keep(r, b) == First(r, b)
  {}

  lemma FirstAndRest(r: Rx, f: seq<Byte>)
    requires Idle(r) && f != []
    ensures Run(r, Stuffed(f)) == Run(First(r, f[0]), Stuffed(f[1..]))
  {
    hide Char, Stuff, Keep, Run, First;
    RunSplit(r, Stuff(f[0]), Stuffed(f[1..]));
    ByteIn(r, f[0]);
    FirstIn(r, f[0]);
  }

  lemma HeadAndTail(f: seq<Byte>, cmds: seq<Byte>)
    requires f != []
    ensures [f[0]] + f[1..] == f && (cmds + [f[0]]) + f[1..] == cmds + f
  {}

  /** The body of one frame sent to an idle receiver. */
  lemma FrameIn(r: Rx, f: seq<Byte>)
    requires Idle(r)
    ensures f == [] ==> Run(r, Stuffed(f)) == r
    ensures f != [] && IsModem(f[0]) ==> Run(r, Stuffed(f)) == r.(modem := true, cmds := r.cmds + f)
    ensures f != [] && !IsModem(f[0]) ==> Run(r, Stuffed(f)) == r.(buf := Clip(f))
  {
    if f != [] {
      hide Run, Clip, Stuffed;
      FirstAndRest(r, f);
      BodyIn(First(r, f[0]), f[1..]);
      HeadAndTail(f, r.cmds);
    }
  }

  /** One frame sent to an idle receiver. */
  lemma LineIn(r: Rx, f: seq<Byte>)
    requires Idle(r)
    ensures var t := Run(r, Line(f));
      && Idle(t) && t.frames == r.frames + Passed(f)
      && t.cmds == r.cmds + if f != [] && IsModem(f[0]) then f else []
  {
    hide Char, Stuffed, Run;
    EndIn(r);
    FrameIn(r, f);
    EndIn(Run(r, Stuffed(f)));
    RunSplit(r, [END], Stuffed(f));
    RunSplit(r, [END] + Stuffed(f), [END]);
  }

  function LineAll(fs: seq<seq<Byte>>): seq<Byte> { if fs == [] then [] else Line(fs[0]) + LineAll(fs[1..]) }

  function AllPassed(fs: seq<seq<Byte>>): seq<seq<Byte>> {
    if fs == [] then [] else Passed(fs[0]) + AllPassed(fs[1..])
  }

  /** Round trip: of any list of frames, sent one after the other, the receiver passes
      up, in order, all that are not empty and do not look like a modem command, each up
      to the length of the buffer. */
  lemma {:induction false} RoundTrip(r: Rx, fs: seq<seq<Byte>>)
    requires Idle(r)
    ensures Idle(Run(r, LineAll(fs))) && Run(r, LineAll(fs)).frames == r.frames + AllPassed(fs)
    decreases |fs|
  {
    hide Char, Line, Passed;
    if fs != [] {
      LineIn(r, fs[0]);
      RunSplit(r, Line(fs[0]), LineAll(fs[1..]));
      RoundTrip(Run(r, Line(fs[0])), fs[1..]);
    }
  }

  /** A frame that SLIP can carry. */
  /** From 1 to 1006 bytes, of which the first is neither A nor +. */
  predicate Sound(f: seq<Byte>) { 1 <= |f| <= 1006 && f[0] != 65 && f[0] != 43 }

  /** A frame comes out as it went in if and only if it is sound. */
  lemma PassedWhole(f: seq<Byte>)
    ensures Passed(f) == [f] <==> Sound(f)
  {
    if |f| > MAXSLIP { assert |Clip(f)| < |f|; }
  }

  lemma {:induction false} SoundFramesArrive(r: Rx, fs: seq<seq<Byte>>)
    requires Idle(r) && forall k :: 0 <= k < |fs| ==> Sound(fs[k])
    ensures Run(r, LineAll(fs)).frames == r.frames + fs
  {
    RoundTrip(r, fs);
    AllSound(fs);
  }

  lemma {:induction false} AllSound(fs: seq<seq<Byte>>)
    requires forall k :: 0 <= k < |fs| ==> Sound(fs[k])
    ensures AllPassed(fs) == fs
  {
    if fs != [] {
      PassedWhole(fs[0]);
      AllSound(fs[1..]);
      assert fs == [fs[0]] + fs[1..];
    }
  }
}
