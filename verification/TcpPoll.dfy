/** Timeouts of a TCP socket whose peer has fallen silent: whatever state it is in, and
    whatever its application does, polling brings it to Closed. */
module TcpPoll {
  import opened Words
  import opened Wrappers
  import opened CircBuff
  import opened Tcp
  import opened TcpNet

  /** How many states, at most, are still to come before Closed. */
  function Rank(st: State): nat {
    if st == Closed then 0
    else if st in {ActOpen, Est} then 3
    else if st in {ArpRcvd, ActClose, CloseWait} then 2
    else 1
  }

  /** The interval in force when so many retries are left. */
  function Interval(retries: int): nat {
    if retries >= 3 then 2000 else if retries == 2 then 4000 else if retries == 1 then 8000
    else if retries == 0 then 16000 else 32000
  }

  /** The timer of a socket: the interval has been doubled once for every retry used. */
  predicate Timed(s: Sock) {
    s.state != Closed ==> -1 <= s.retries <= RETRIES && s.timeout == Interval(s.retries)
  }

  /** How many timeouts can still occur. */
  function TimeoutsLeft(s: Sock): int
    requires Timed(s)
  { if s.state == Closed then 0 else 5 * (Rank(s.state) - 1) + s.retries + 2 }

  // ---- What one poll does to the timer ----

  /** The state, the clock and the retries, unchanged. */
  predicate SameTimer(s: Sock, t: Sock) {
    t.state == s.state && t.time == s.time && t.timeout == s.timeout && t.retries == s.retries
  }

  /** A poll that finds no timeout leaves the timer alone, or moves to a lower state. */
  lemma QuietPoll(s: Sock, c: Context)
    requires s.Ok() && s.state != Closed && !TimedOut(s, c.now)
    ensures var t := Poll(s, c).0;
      || SameTimer(s, t)
      || (Rank(t.state) < Rank(s.state)
          && t.time == c.now && t.retries == RETRIES && t.timeout == TIMEOUT)
  {
    hide W32, TimedOut, Expire, SeqDelta;
    assert Header(s, None, c.now) == s && RFlags(None) == {} && EstabRx(s, None) == (s, false);
  }

  /** A timeout uses up a retry and doubles the interval, or closes the socket. */
  lemma TimeoutPoll(s: Sock, c: Context)
    requires s.Ok() && s.state != Closed && TimedOut(s, c.now)
    ensures var t := Poll(s, c).0;
      && (s.retries < 0 ==> t.state == Closed)
      && (s.retries >= 0 ==>
        && t.state == s.state && t.time == c.now
        && t.timeout == 2 * s.timeout && t.retries == s.retries - 1)
  {
    hide W32;
  }

  // ---- Whatever the clock does ----

  function PollRun(s: Sock, cs: seq<Context>): (t: Sock)
    requires s.Ok()
    ensures t.Ok()
    decreases |cs|
  { if cs == [] then s else PollRun(Poll(s, cs[0]).0, cs[1..]) }

  function Timeouts(s: Sock, cs: seq<Context>): nat
    requires s.Ok()
    decreases |cs|
  {
    if cs == [] then 0
    else (if s.state != Closed && TimedOut(s, cs[0].now) then 1 else 0) + Timeouts(Poll(s, cs[0]).0, cs[1..])
  }

  /** Each state lasts at most five timeouts: every timeout of every run is paid for, by
      a retry or by a step down to a lower state. */
  lemma {:induction false} TimeoutsBounded(s: Sock, cs: seq<Context>)
    requires s.Ok() && Timed(s)
    ensures Timed(PollRun(s, cs))
    ensures Timeouts(s, cs) + TimeoutsLeft(PollRun(s, cs)) <= TimeoutsLeft(s) <= 5 * Rank(s.state)
    decreases |cs|
  {
    if cs != [] {
      var t := Poll(s, cs[0]).0;
      if s.state != Closed {
        if TimedOut(s, cs[0].now) { TimeoutPoll(s, cs[0]); } else { QuietPoll(s, cs[0]); }
      }
      hide Poll, TimedOut;
      TimeoutsBounded(t, cs[1..]);
    }
  }

  // ---- With the clock ----

  /** One poll: the true time in milliseconds, of which the program sees 32 bits. */
  datatype Tick = Tick(at: nat, up: Upcall, maxdata: nat, slip: bool) {
    function Seen(): Context { Context(W32(at), up, maxdata, slip) }
  }

  function Contexts(ticks: seq<Tick>): seq<Context> { seq(|ticks|, i requires 0 <= i < |ticks| => ticks[i].Seen()) }

  /** Polls at most gap apart, the first at most gap after the time `from`. */
  predicate Regular(from: nat, gap: nat, ticks: seq<Tick>)
    decreases |ticks|
  { ticks == [] || (from <= ticks[0].at <= from + gap && Regular(ticks[0].at, gap, ticks[1..])) }

  function EndTime(from: nat, ticks: seq<Tick>): nat { if ticks == [] then from else ticks[|ticks| - 1].at }

  /** The latest time at which a socket whose timer was last set at `set` can close. */
  function Latest(s: Sock, last: nat, gap: nat): int
    requires Timed(s)
  {
    if s.state == Closed then last
    else last + 64000 - s.timeout + (s.retries + 2) * gap + (Rank(s.state) - 1) * (62000 + 5 * gap)
  }

  predicate Running(s: Sock, last: nat, now: nat) {
    Timed(s) && s.time == W32(last) && last <= now && (s.state != Closed ==> now < last + s.timeout)
  }

  /** A poll no later than the interval plus the gap never postpones the latest time. */
  lemma PollOnce(s: Sock, last: nat, now: nat, tick: Tick, gap: nat) returns (last': nat)
    requires s.Ok() && s.state != Closed && Running(s, last, now) && gap < TWO31 - 32000
    requires now <= tick.at <= now + gap
    ensures var t := Poll(s, tick.Seen()).0;
      t.state != Closed ==> Running(t, last', tick.at) && Latest(t, last', gap) <= Latest(s, last, gap)
  {
    hide W32, Poll, Signed32, Rank;
    Elapsed(last, tick.at);
    if TimedOut(s, W32(tick.at)) {
      TimeoutPoll(s, tick.Seen());
      last' := tick.at;
      RetryBudget(last, s.timeout, s.retries, gap, tick.at);
    } else {
      QuietPoll(s, tick.Seen());
      var t := Poll(s, tick.Seen()).0;
      last' := if SameTimer(s, t) then last else tick.at;
      if Rank(t.state) < Rank(s.state) { StateBudget(Rank(s.state), Rank(t.state), s.retries, gap); }
    }
  }

  lemma RetryBudget(last: int, timeout: int, r: int, gap: nat, at: int)
    requires at <= last + timeout + gap
    ensures at + 64000 - 2 * timeout + (r - 1 + 2) * gap <= last + 64000 - timeout + (r + 2) * gap
  {
    assert (r + 2) * gap == (r + 1) * gap + gap;
  }

  lemma StateBudget(rank: int, lower: int, r: int, gap: nat)
    requires lower < rank && r >= -1
    ensures (lower - 1) * (62000 + 5 * gap) + 62000 + 5 * gap <= (rank - 1) * (62000 + 5 * gap)
    ensures gap <= (r + 2) * gap
  {
    assert (rank - 1) * (62000 + 5 * gap) == (lower - 1) * (62000 + 5 * gap) + (rank - lower) * (62000 + 5 * gap);
    assert (rank - lower - 1) * (62000 + 5 * gap) >= 0;
    assert (rank - lower) * (62000 + 5 * gap) == (rank - lower - 1) * (62000 + 5 * gap) + (62000 + 5 * gap);
    assert (r + 2) * gap == (r + 1) * gap + gap;
    assert (r + 1) * gap >= 0;
  }

  lemma {:induction false} ClosedStays(s: Sock, cs: seq<Context>)
    requires s.Ok() && s.state == Closed
    ensures PollRun(s, cs) == s
    decreases |cs|
  {
    if cs != [] { ClosedStays(s, cs[1..]); }
  }

  /** A socket that has just been polled and is not closed is not yet due to close. */
  lemma NotYet(s: Sock, last: nat, now: nat, gap: nat)
    requires s.state != Closed && Running(s, last, now)
    ensures now < Latest(s, last, gap) <= last + Rank(s.state) * (62000 + 5 * gap)
  {
    var r, k, m := s.retries, Rank(s.state), 62000 + 5 * gap;
    assert (r + 2) * gap >= 0 && (k - 1) * m >= 0 && (3 - r) * gap >= 0;
    assert k * m == (k - 1) * m + m && 5 * gap == (r + 2) * gap + (3 - r) * gap;
  }

  lemma {:induction false} RunToLatest(s: Sock, last: nat, now: nat, gap: nat, ticks: seq<Tick>)
    requires s.Ok() && Running(s, last, now) && gap < TWO31 - 32000 && Regular(now, gap, ticks)
    requires s.state != Closed && EndTime(now, ticks) >= Latest(s, last, gap)
    ensures PollRun(s, Contexts(ticks)).state == Closed
    decreases |ticks|
  {
    hide Poll, Running, Latest;
    NotYet(s, last, now, gap);
    var last' := PollOnce(s, last, now, ticks[0], gap);
    var t := Poll(s, ticks[0].Seen()).0;
    var rest := ticks[1..];
    assert Contexts(ticks)[1..] == Contexts(rest);
    if t.state == Closed {
      ClosedStays(t, Contexts(rest));
    } else {
      assert EndTime(ticks[0].at, rest) == EndTime(now, ticks);
      RunToLatest(t, last', ticks[0].at, gap, rest);
    }
  }

  /** Silent-peer termination: a socket in any state, polled at intervals of at most
      `gap` and receiving nothing, is closed after 62000 ms (and five gaps) for each
      state it can still go through. `last` is when its timer was last set. */
  lemma SilentPeer(s: Sock, last: nat, now: nat, gap: nat, ticks: seq<Tick>)
    requires s.Ok() && s.state != Closed && Running(s, last, now)
    requires gap < TWO31 - 32000 && Regular(now, gap, ticks)
    requires EndTime(now, ticks) >= last + Rank(s.state) * (62000 + 5 * gap)
    ensures PollRun(s, Contexts(ticks)).state == Closed
  {
    NotYet(s, last, now, gap);
    RunToLatest(s, last, now, gap, ticks);
  }

  // ---- Every socket's timer is like that ----

  predicate Refreshed(s: Sock, t: Sock) {
    SameTimer(s, t) || (t.retries == RETRIES && t.timeout == TIMEOUT)
  }

  lemma OpeningTimer(s: Sock, seg: Option<Segment>, c: Context)
    requires s.Ok()
    ensures Refreshed(s, InClosed(s, seg, c).0) && Refreshed(s, InArpRcvd(s, c).0)
  {
    hide W32, RFlags;
  }

  lemma OpenedTimer(s: Sock, seg: Option<Segment>, c: Context)
    requires s.Ok()
    ensures Refreshed(s, InSynRcvd(s, seg, c).0) && Refreshed(s, InSynSent(s, seg, c).0)
  {
    hide W32, Signed32, RFlags, NewPart;
  }

  lemma EstTimer(s: Sock, seg: Option<Segment>, c: Context)
    requires s.Ok()
    ensures Refreshed(s, InEst(s, seg, c).0) && Refreshed(s, InCloseWait(s, c).0)
  {
    hide W32, Signed32, W16, RFlags, NewPart;
  }

  lemma ClosingTimer(s: Sock, seg: Option<Segment>, c: Context)
    requires s.Ok()
    ensures Refreshed(s, InActClose(s, seg, c).0) && Refreshed(s, InFinWait1(s, seg, c).0)
    ensures Refreshed(s, InFinWait2(s, seg, c).0) && Refreshed(s, InLastAck(s, seg, c).0)
  {
    hide W32, Signed32, W16, RFlags, NewPart;
  }

  lemma HeaderTimer(s: Sock, seg: Option<Segment>, now: LWord)
    requires s.Ok()
    ensures Refreshed(s, Header(s, seg, now))
  {
    hide W32, InLimits;
  }

  lemma RefreshedTwice(s: Sock, t: Sock, u: Sock)
    requires Refreshed(s, t) && Refreshed(t, u)
    ensures Refreshed(s, u)
  {}

  /** A segment leaves the timer alone or sets it anew. */
  lemma RxTimer(s: Sock, seg: Option<Segment>, c: Context)
    requires s.Ok()
    ensures Refreshed(s, SockRx(s, seg, c).0)
  {
    hide Refreshed, Header, InClosed, InSynRcvd, InEst, InCloseWait, InArpRcvd, InSynSent, InActClose,
      InFinWait1, InFinWait2, InLastAck;
    HeaderTimer(s, seg, c.now);
    var t := Header(s, seg, c.now);
    match t.state {
      case Closed => OpeningTimer(t, seg, c);
      case ArpRcvd => OpeningTimer(t, seg, c);
      case SynRcvd => OpenedTimer(t, seg, c);
      case SynSent => OpenedTimer(t, seg, c);
      case Est => EstTimer(t, seg, c);
      case CloseWait => EstTimer(t, seg, c);
      case ActOpen => StateTimer(t, if c.slip then ArpRcvd else ArpSent, c.now);
      case ArpSent =>
      case TimedWait => StateTimer(t, Closed, c.now);
      case Reset => StateTimer(t, Closed, c.now);
      case _ => ClosingTimer(t, seg, c);
    }
    if t.state != ArpSent { RefreshedTwice(s, t, SockRx(s, seg, c).0); }
  }

  lemma StateTimer(s: Sock, st: State, now: LWord)
    requires s.Ok()
    ensures Refreshed(s, NewState(s, st, now))
  {}

  lemma RemakeTimer(s: Sock, maxdata: nat)
    requires s.Ok()
    ensures SameTimer(s, Remake(s, maxdata).0)
  {
    hide W32;
  }

  lemma TimedKeeps(s: Sock, act: Act)
    requires s.Ok() && Timed(s)
    ensures Timed(Perform(s, act).0)
  {
    hide SockRx, Remake, W32, Signed32;
    if act.Deliver? { RxTimer(s, Some(act.e.p), act.c); }
    if act.DoPoll? {
      RxTimer(s, None, act.c);
      RemakeTimer(s.(time := act.c.now, timeout := s.timeout + s.timeout, retries := s.retries - 1), act.c.maxdata);
    }
    if act.DoOpen? { RxTimer(NewState(s, ActOpen, act.c.now), None, act.c); }
    if act.DoArp? { RxTimer(NewState(s, ArpRcvd, act.c.now), None, act.c); }
  }

  /** In every run of two sockets, both are always timed as SilentPeer asks. */
  lemma {:induction false} AlwaysTimed(s: Net, moves: seq<Move>)
    requires Ok(s) && Timed(s.a) && Timed(s.b)
    ensures Timed(Run(s, moves).a) && Timed(Run(s, moves).b)
    decreases |moves|
  {
    hide Perform, Timed;
    if moves != [] {
      if moves[0].ByA? { TimedKeeps(s.a, moves[0].act); }
      if moves[0].ByB? { TimedKeeps(s.b, moves[0].act); }
      AlwaysTimed(Next(s, moves[0]), moves[1..]);
    }
  }
}
