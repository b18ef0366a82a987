/** What the states of the link control automaton mean: whether the layer below is up, the
    link is wanted, and which of the two configure requests has been acknowledged. The
    tables of `Lcp` are compared with rules about these, over single events and runs. */
module LcpMeaning {
  import opened Words
  import opened Wrappers
  import opened Lcp

  const UP := 0
  const DOWN := 1
  const OPEN := 2
  const CLOSE := 3
  const RCR_OK := 6
  const RCR_ERR := 7
  const RCA := 8
  const RCN := 9
  const RTR := 10
  const RTA := 11
  const RUC := 12
  const RXJ_OK := 13
  const RXJ_ERR := 14

  /** Nothing below; at rest; terminating; or negotiating, of which being open is a part. */
  datatype Phase = Dead | AtRest | Ending | Talking

  /** `got`: the peer has acknowledged our request. `gave`: we have acknowledged its. */
  datatype Link = Link(up: bool, wanted: bool, phase: Phase, got: bool, gave: bool) {
    predicate IsOpen() { phase == Talking && got && gave }
  }

  function Means(s: nat): Link
    requires s <= OPENED
  {
    match s
    case 0 => Link(false, false, Dead, false, false)
    case 1 => Link(false, true, Dead, false, false)
    case 2 => Link(true, false, AtRest, false, false)
    case 3 => Link(true, true, AtRest, false, false)
    case 4 => Link(true, false, Ending, false, false)
    case 5 => Link(true, true, Ending, false, false)
    case 6 => Link(true, true, Talking, false, false)
    case 7 => Link(true, true, Talking, true, false)
    case 8 => Link(true, true, Talking, false, true)
    case _ => Link(true, true, Talking, true, true)
  }

  // ---- The rules ----

  /** Negotiation begins: the layer below comes up, or the link is opened, or the peer asks
      for it while it is wanted. */
  predicate Begins(k: Link, e: nat) {
    || (k.phase == Dead && e == UP && k.wanted)
    || (k.phase == AtRest && e == OPEN && !k.wanted)
    || (k.phase == AtRest && e in {RCR_OK, RCR_ERR} && k.wanted)
  }

  /** A configure request is due: negotiation begins; or our last one got no answer in
      time, was refused, or was acknowledged twice; or the link was open, and the peer has
      asked again or has ended it. */
  predicate Asks(k: Link, e: nat) {
    || Begins(k, e)
    || (k.phase == Talking && ((e == TO_OK && !k.IsOpen()) || e == RCN || (e == RCA && k.got)))
    || (k.IsOpen() && e in {RCR_OK, RCR_ERR, RTA})
  }

  function PhaseAfter(k: Link, e: nat): Phase {
    if e == DOWN then Dead
    else if Begins(k, e) then Talking
    else
      match k.phase
      case Dead => if e == UP then AtRest else Dead
      case AtRest => AtRest
      case Ending => if e in {TO_ERR, RTA, RXJ_ERR} then AtRest else Ending
      case Talking =>
        if e == CLOSE || (k.IsOpen() && e in {RTR, RXJ_ERR}) then Ending
        else if !k.IsOpen() && e in {TO_ERR, RXJ_ERR} then AtRest
        else Talking
  }

  /** An acknowledgement of our request holds until another request is sent or the peer
      speaks of terminating, or, before the link is open, rejects something. */
  predicate GotAfter(k: Link, e: nat) {
    PhaseAfter(k, e) == Talking && !Asks(k, e)
    && (e == RCA || (k.got && e !in {RTR, RTA} && (e == RXJ_OK ==> k.IsOpen())))
  }

  /** Ours holds until a request of the peer is refused, or it asks for termination, or an
      open link is negotiated anew. */
  predicate GaveAfter(k: Link, e: nat) {
    PhaseAfter(k, e) == Talking
    && (e == RCR_OK || (k.gave && e !in {RCR_ERR, RTR} && !(k.IsOpen() && Asks(k, e))))
  }

  function After(k: Link, e: nat): Link {
    Link(e == UP || (k.up && e != DOWN), e == OPEN || (k.wanted && e != CLOSE),
         PhaseAfter(k, e), GotAfter(k, e), GaveAfter(k, e))
  }

  /** The terminate request is due: the link is closed or its peer lacks something vital;
      or the last one got no answer in time. */
  predicate Terminates(k: Link, e: nat) {
    (k.phase == Talking && e == CLOSE) || (k.IsOpen() && e == RXJ_ERR) || (k.phase == Ending && e == TO_OK)
  }

  /** Whether an action is due. Requests of the peer are answered one way or the other while
      the link is wanted; it is told that the link is down if it is not, or if it answers
      what was not asked. */
  predicate IsDue(k: Link, e: nat, a: Action) {
    match a
    case SCR => Asks(k, e)
    case SCA => e == RCR_OK && (k.phase == Talking || (k.phase == AtRest && k.wanted))
    case SCN => e == RCR_ERR && (k.phase == Talking || (k.phase == AtRest && k.wanted))
    case STR => Terminates(k, e)
    case STA =>
      || (e == RTR && k.phase != Dead)
      || (k.phase == AtRest && (e in {RCA, RCN} || (e in {RCR_OK, RCR_ERR} && !k.wanted)))
    case SCJ => e == RUC && k.phase != Dead
    case IRC =>
      || Begins(k, e) || (Terminates(k, e) && e != TO_OK)
      || (k.phase == Talking && e in {RCA, RCN} && !k.got)
    case ZRC => e == RTR && k.IsOpen()
  }

  // ---- The tables follow the rules ----

  /** The state after an event, for an entry of the table. */
  function Entry(e: nat, s: nat): (t: nat)
    requires e < EVENTS && s <= OPENED
  { if StateRow(e)[s] == XXX then s else StateRow(e)[s] % 0x10 }

  /** The one entry that does not follow them: a request refused in the open state leads
      into Ack-Sent, as if it had been acknowledged. */
  predicate Misled(s: nat, e: nat) { s == OPENED && e == RCR_ERR }

  lemma LocalRows(e: nat, s: nat)
    requires e < 6 && s <= OPENED
    ensures Entry(e, s) <= OPENED && Means(Entry(e, s)) == After(Means(s), e)
  {}

  lemma RequestRows(e: nat, s: nat)
    requires 6 <= e < 10 && s <= OPENED
    ensures Entry(e, s) <= OPENED && (Means(Entry(e, s)) == After(Means(s), e) <==> !Misled(s, e))
  {}

  lemma OtherRows(e: nat, s: nat)
    requires 10 <= e < EVENTS && s <= OPENED
    ensures Entry(e, s) <= OPENED && Means(Entry(e, s)) == After(Means(s), e)
  {}

  lemma StatesFollow(e: nat, s: nat)
    requires e < EVENTS && s <= OPENED
    ensures Entry(e, s) <= OPENED && (Means(Entry(e, s)) == After(Means(s), e) <==> !Misled(s, e))
  {
    if e < 6 { LocalRows(e, s); } else if e < 10 { RequestRows(e, s); } else { OtherRows(e, s); }
  }

  lemma LocalActions(e: nat, s: nat, a: Action)
    requires e < 6 && s <= OPENED
    ensures a in ActionRow(e)[s] <==> IsDue(Means(s), e, a)
  {}

  lemma RequestActions(e: nat, s: nat, a: Action)
    requires 6 <= e < 10 && s <= OPENED
    ensures a in ActionRow(e)[s] <==> IsDue(Means(s), e, a)
  {}

  lemma OtherActions(e: nat, s: nat, a: Action)
    requires 10 <= e < EVENTS && s <= OPENED
    ensures a in ActionRow(e)[s] <==> IsDue(Means(s), e, a)
  {}

  lemma ActionsFollow(e: nat, s: nat, a: Action)
    requires e < EVENTS && s <= OPENED
    ensures a in ActionRow(e)[s] <==> IsDue(Means(s), e, a)
  {
    if e < 6 { LocalActions(e, s, a); } else if e < 10 { RequestActions(e, s, a); } else { OtherActions(e, s, a); }
  }

  /** This layer started: the link is wanted, with nothing below, and was not before. */
  predicate Starts(k: Link, e: nat) {
    (k.phase == Dead && e == OPEN && !k.wanted) || (k.phase == AtRest && e == DOWN && k.wanted)
  }

  /** This layer finished: it is no longer wanted; or comes to rest; or must stay there. */
  predicate Finishes(k: Link, e: nat) {
    || (k.phase == Dead && e == CLOSE && k.wanted)
    || (k.phase in {Ending, Talking} && PhaseAfter(k, e) == AtRest)
    || (k.phase == AtRest && e == RXJ_ERR)
  }

  lemma EarlyFlags(e: nat, s: nat)
    requires e < 7 && s <= OPENED
    ensures var n := StateRow(e)[s]; n != XXX ==>
      (n / 0x40 % 2 == 1 <==> Starts(Means(s), e)) && (n / 0x80 == 1 <==> Finishes(Means(s), e))
    ensures StateRow(e)[s] == XXX ==> !Starts(Means(s), e) && !Finishes(Means(s), e)
  {}

  lemma LateFlags(e: nat, s: nat)
    requires 7 <= e < EVENTS && s <= OPENED
    ensures var n := StateRow(e)[s]; n != XXX ==>
      (n / 0x40 % 2 == 1 <==> Starts(Means(s), e)) && (n / 0x80 == 1 <==> Finishes(Means(s), e))
    ensures StateRow(e)[s] == XXX ==> !Starts(Means(s), e) && !Finishes(Means(s), e)
  {}

  lemma FlagsFollow(e: nat, s: nat)
    requires e < EVENTS && s <= OPENED
    ensures var n := StateRow(e)[s]; n != XXX ==>
      (n / 0x40 % 2 == 1 <==> Starts(Means(s), e)) && (n / 0x80 == 1 <==> Finishes(Means(s), e))
    ensures StateRow(e)[s] == XXX ==> !Starts(Means(s), e) && !Finishes(Means(s), e)
  {
    if e < 7 { EarlyFlags(e, s); } else { LateFlags(e, s); }
  }

  // ---- The handler follows the rules ----

  /** The counts of requests as the handler finds them: a visit to a resting state or to
      Opened starts them again. */
  function Reqs(l: Lcp): nat { if Resting(l.S()) then 0 else l.reqs }

  function Terms(l: Lcp): nat { if Resting(l.S()) then 0 else l.terms }

  /** The event that counts: one request too many is the final timeout. */
  function Effective(l: Lcp, e: nat): nat
    requires l.Ok()
  {
    var k := Means(l.S());
    if (Asks(k, e) && Reqs(l) >= MAX_REQS) || (Terminates(k, e) && Terms(l) >= MAX_TERMS) then TO_ERR else e
  }

  lemma FinalTimeout(k: Link)
    ensures !Asks(k, TO_ERR) && !Terminates(k, TO_ERR)
  {}

  lemma NeverBoth(k: Link, e: nat)
    ensures !(Asks(k, e) && Terminates(k, e))
  {}

  /** The handler on an event: the state and the actions are those that the rules give, with
      the one exception; and each request is counted. */
  lemma HandleFollows(l: Lcp, e: nat)
    requires l.Ok() && e < EVENTS
    ensures var t, k, d := Handle(l, e), Means(l.S()), Effective(l, e);
      && t.Ok() && (Means(t.S()) == After(k, d) <==> !Misled(l.S(), e))
      && (forall a :: a in t.action <==> IsDue(k, d, a))
      && t.reqs == Reqs(l) + (if Asks(k, e) then 1 else 0)
      && t.terms == Terms(l) + (if Terminates(k, e) then 1 else 0) && t.rest == l.rest
  {
    var s, k := l.S(), Means(l.S());
    StatesFollow(e, s);
    StatesFollow(TO_ERR, s);
    forall a ensures a in ActionRow(e)[s] <==> IsDue(k, e, a) { ActionsFollow(e, s, a); }
    forall a ensures a in ActionRow(TO_ERR)[s] <==> IsDue(k, TO_ERR, a) { ActionsFollow(TO_ERR, s, a); }
    FinalTimeout(k);
    NeverBoth(k, e);
    OverriddenStates(l, e);
    hide StateRow, ActionRow, Means, After, Asks, Terminates, Resting;
    assert IsDue(k, e, SCR) == Asks(k, e) && IsDue(k, e, STR) == Terminates(k, e);
    assert IsDue(k, TO_ERR, SCR) == Asks(k, TO_ERR) && IsDue(k, TO_ERR, STR) == Terminates(k, TO_ERR);
    hide IsDue;
  }

  /** Only where there is an entry for it. */
  lemma OverriddenStates(l: Lcp, e: nat)
    requires l.Ok() && e < EVENTS
    ensures var d := Effective(l, e);
      d != e ==> !Resting(l.S()) && StateRow(TO_ERR)[l.S()] != XXX && !Misled(l.S(), e) && !Misled(l.S(), d)
  {
    if !Resting(l.S()) { OverrideExists(e, l.S()); }
  }

  // ---- Runs ----

  /** What an input comes to for the link, by the rules. */
  function Follow(k: Link, l: Lcp, i: Input): Link
    requires l.Ok()
  { if EventOf(l, i).Some? then After(k, Effective(l, EventOf(l, i).value)) else k }

  /** A request refused while the link is open. */
  predicate Misleads(l: Lcp, i: Input) { i == Event(RCR_ERR) && l.S() == OPENED }

  lemma StepFollows(r: Run, i: Input)
    requires r.l.Ok()
    ensures Step(r, i).l.Ok()
    ensures Means(Step(r, i).l.S()) == Follow(Means(r.l.S()), r.l, i) <==> !Misleads(r.l, i)
    ensures Step(r, i).l.terms ==
      match EventOf(r.l, i) case Some(e) => Terms(r.l) + (if Terminates(Means(r.l.S()), e) then 1 else 0)
                            case None => if i.Event? then Terms(r.l) else r.l.terms
  {
    hide StateRow, ActionRow, Means, After, Effective, Terminates;
    var e := EventOf(r.l, i);
    if e.Some? {
      HandleFollows(r.l, e.value);
      NotMisled(r.l, i);
    }
    if i.Timer? && TimerCounts(r.l) { TimerHasEntry(r.l); }
    ActKeepsState(Handled(r.l, i));
  }

  /** A timeout is never the exception. */
  lemma NotMisled(l: Lcp, i: Input)
    requires l.Ok() && EventOf(l, i).Some?
    ensures Misled(l.S(), EventOf(l, i).value) <==> Misleads(l, i)
  {}

  /** In every state of the run the automaton is in the state that means what the rules have
      made of the link. */
  predicate Agrees(r: Run, k: Link, inputs: seq<Input>)
    decreases |inputs|
  {
    && r.l.Ok() && Means(r.l.S()) == k
    && (inputs == [] || Agrees(Step(r, inputs[0]), Follow(k, r.l, inputs[0]), inputs[1..]))
  }

  /** No request is refused while the link is open. */
  predicate NoneMisleads(r: Run, inputs: seq<Input>)
    decreases |inputs|
  { inputs == [] || (!Misleads(r.l, inputs[0]) && NoneMisleads(Step(r, inputs[0]), inputs[1..])) }

  lemma {:induction false} RunFollows(r: Run, inputs: seq<Input>)
    requires r.l.Ok()
    ensures Agrees(r, Means(r.l.S()), inputs) <==> NoneMisleads(r, inputs)
    decreases |inputs|
  {
    hide Step, Follow, Means, Misleads;
    if inputs != [] {
      StepFollows(r, inputs[0]);
      var t, k := Step(r, inputs[0]), Follow(Means(r.l.S()), r.l, inputs[0]);
      if Means(t.l.S()) == k { RunFollows(t, inputs[1..]); } else { assert !Agrees(t, k, inputs[1..]); }
    }
  }

  /** For every sequence of inputs from Initial: the state says throughout which of the two
      requests has been acknowledged, whether the link is terminating, and the rest, if and
      only if the peer's request is never refused while the link is open. */
  lemma StatesMeanTheirHistory(inputs: seq<Input>)
    ensures Agrees(INITIAL, Link(false, false, Dead, false, false), inputs) <==> NoneMisleads(INITIAL, inputs)
  {
    RunFollows(INITIAL, inputs);
  }

  /** While it does, Up is signalled at exactly the step at which the second of the two
      acknowledgements comes to hold, in whichever order, and Down when they no longer do. */
  lemma UpWhenBothHold(r: Run, i: Input)
    requires r.l.Ok() && !Misleads(r.l, i) && !(Repeats(r.l, i) && Flagged(r.l))
    ensures var k := Means(r.l.S()); var k' := Follow(k, r.l, i);
      Step(r, i).signals == r.signals +
        (if !k.IsOpen() && k'.IsOpen() then [Up] else if k.IsOpen() && !k'.IsOpen() then [Down] else [])
  {
    StepFollows(r, i);
    OpenMeans(r.l.S());
    OpenMeans(Step(r, i).l.S());
    hide Step, Follow, Means, Repeats, Flagged;
    if i.Timer? && !TimerCounts(r.l) { NoTimer(r); } else { StepSignals(r, i); }
  }

  lemma NoTimer(r: Run)
    requires !TimerCounts(r.l)
    ensures Step(r, Timer) == r && r.signals == r.signals + []
  {}

  lemma OpenMeans(s: nat)
    requires s <= OPENED
    ensures Means(s).IsOpen() <==> s == OPENED
  {}

  // ---- Up and wanted, whatever happens ----

  /** Whether the last of the two events was the first of them. */
  function LastWas(inputs: seq<Input>, yes: nat, no: nat): bool {
    if inputs == [] then false
    else
      var i := inputs[|inputs| - 1];
      i == Event(yes) || (i != Event(no) && LastWas(inputs[..|inputs| - 1], yes, no))
  }

  /** While negotiating no terminate request has been counted. */
  predicate Sane(l: Lcp) { l.Ok() && (6 <= l.S() <= 8 ==> l.terms == 0) }

  lemma StepSane(r: Run, i: Input)
    requires Sane(r.l)
    ensures Sane(Step(r, i).l)
    ensures var k, k' := Means(r.l.S()), Means(Step(r, i).l.S());
      && k'.up == (i == Event(UP) || (k.up && i != Event(DOWN)))
      && k'.wanted == (i == Event(OPEN) || (k.wanted && i != Event(CLOSE)))
  {
    StepFollows(r, i);
    hide Step, StateRow, ActionRow;
    var e := EventOf(r.l, i);
    if Misleads(r.l, i) { AfterRefusal(r); }
  }

  lemma AfterRefusal(r: Run)
    requires r.l.S() == OPENED
    ensures var t := Step(r, Event(RCR_ERR)); t.l.S() == 8 && t.l.terms == 0
  {
    StepFollows(r, Event(RCR_ERR));
    ActKeepsState(Handled(r.l, Event(RCR_ERR)));
    hide Act, Signals;
  }

  /** For every sequence of inputs from Initial: whether the layer below is up and the link
      is wanted is what the last event about it said. */
  lemma {:induction false} UpAndWanted(inputs: seq<Input>)
    ensures var l := RunAll(INITIAL, inputs).l;
      && Sane(l) && Means(l.S()).up == LastWas(inputs, UP, DOWN)
      && Means(l.S()).wanted == LastWas(inputs, OPEN, CLOSE)
    decreases |inputs|
  {
    if inputs != [] {
      var before, i := inputs[..|inputs| - 1], inputs[|inputs| - 1];
      hide Step, Means;
      UpAndWanted(before);
      RunAllSplit(INITIAL, before, [i]);
      assert before + [i] == inputs && [i][1..] == [];
      var r := RunAll(INITIAL, before);
      assert RunAll(r, [i]) == RunAll(Step(r, i), []);
      StepSane(r, i);
    } else {
      assert Means(0) == Link(false, false, Dead, false, false);
    }
  }

  // ---- The exception ----

  lemma RefusalReopens()
    ensures var r := Run(Lcp(0x19, {SCA}, 1, 0, MAX_REQS), [Up], 1, 0);
      var t := Step(Step(r, Event(RCR_ERR)), Event(RCA));
      t.signals == [Up, Down, Up] && t.l.S() == OPENED
    ensures var k := Link(true, true, Talking, true, true); !After(After(k, RCR_ERR), RCA).IsOpen()
  {}

  /** A link that is open, whose peer asks again and is refused, comes up again when our own
      request is acknowledged, although the peer's has not been. */
  lemma OpensThoughRefused()
    ensures var more := [Event(RCA), Event(RCR_OK), Event(RCR_ERR), Event(RCA)];
      var r := RunAll(INITIAL, [Event(OPEN), Event(UP)] + more);
      r.signals == [Up, Down, Up] && r.l.S() == OPENED
  {
    hide Step;
    Started();
    var more := [Event(RCA), Event(RCR_OK), Event(RCR_ERR), Event(RCA)];
    RunAllSplit(INITIAL, [Event(OPEN), Event(UP)], more);
    Opening();
    RefusalReopens();
    var r2 := Run(Lcp(6, {IRC, SCR}, 1, 0, MAX_REQS), [], 1, 0);
    assert more[1..] == [Event(RCR_OK), Event(RCR_ERR), Event(RCA)] && more[1..][1..] == [Event(RCR_ERR), Event(RCA)];
    assert more[1..][1..][1..] == [Event(RCA)] && more[1..][1..][1..][1..] == [];
    var r3 := Step(r2, more[0]);
    var r4 := Step(r3, Event(RCR_OK));
    var r5 := Step(r4, Event(RCR_ERR));
    assert RunAll(r2, more) == RunAll(r3, more[1..]) == RunAll(r4, more[1..][1..]);
    assert RunAll(r4, more[1..][1..]) == RunAll(r5, [Event(RCA)]) == RunAll(Step(r5, Event(RCA)), []);
  }

  // ---- The timer ----

  /** A state that an open link has been left for is flagged, and its timer does nothing:
      the request just sent is not sent again, however often it runs out. */
  lemma {:induction false} NoTimerAfterOpen(r: Run, i: Input, n: nat)
    requires r.l.S() == OPENED && Step(r, i).l.S() != OPENED
    ensures RunAll(Step(r, i), Timers(n)) == Step(r, i)
    decreases n
  {
    LeavesFlagged(r, i);
    if n > 0 {
      assert Timers(n)[1..] == Timers(n - 1);
      NoTimer(Step(r, i));
      NoTimerAfterOpen(r, i, n - 1);
    }
  }

  function Timers(n: nat): (s: seq<Input>)
    ensures |s| == n
  { seq(n, _ => Timer) }

  lemma LeavesFlagged(r: Run, i: Input)
    requires r.l.S() == OPENED && Step(r, i).l.S() != OPENED
    ensures !TimerCounts(Step(r, i).l)
  {
    StepSignals(r, i);
    var h := Handled(r.l, i);
    ActKeepsState(h);
    if i.Event? { HandleSound(r.l, i.e); }
    hide StateRow, Handle, Act;
  }

  /** A link that negotiates with a silent peer: the n-th timeout sends the request again,
      as long as there have been fewer than fifteen requests. */
  lemma RequestAgain(r: Run)
    requires r.l.state == 6 && 1 <= r.l.reqs < MAX_REQS && r.l.rest > 0 && r.issued == r.l.reqs && r.resent == 0
    ensures var t := Step(r, Timer);
      && t.l == Lcp(6, {SCR}, r.l.reqs + 1, r.l.terms, r.l.rest - 1)
      && t.issued == r.issued + 1 && t.resent == 0 && t.signals == r.signals
  {
    NoFlags(6);
    hide UpFlag, DownFlag;
    assert r.signals + [] == r.signals;
  }

  lemma RequestNoMore(r: Run)
    requires r.l.state == 6 && r.l.reqs >= MAX_REQS && r.l.rest > 0
    ensures var t := Step(r, Timer); t.l.S() == STOPPED && !TimerCounts(t.l) && t.issued == r.issued
  {}

  lemma {:induction false} SilentPeer(r: Run, n: nat)
    requires r.l.state == 6 && 1 <= r.l.reqs <= MAX_REQS && r.issued == r.l.reqs && r.resent == 0
    requires r.l.rest == MAX_REQS + 1 - r.l.reqs
    ensures var t := RunAll(r, Timers(n));
      if r.l.reqs + n <= MAX_REQS then t.l.S() == 6 && t.issued == r.l.reqs + n
      else t.l.S() == STOPPED && t.issued == MAX_REQS
    decreases n
  {
    if n > 0 {
      assert Timers(n)[1..] == Timers(n - 1);
      hide Step;
      if r.l.reqs < MAX_REQS {
        RequestAgain(r);
        SilentPeer(Step(r, Timer), n - 1);
      } else {
        RequestNoMore(r);
        StaysStopped(Step(r, Timer), n - 1);
      }
    }
  }

  lemma {:induction false} StaysStopped(r: Run, n: nat)
    requires !TimerCounts(r.l)
    ensures RunAll(r, Timers(n)) == r
    decreases n
  {
    if n > 0 {
      assert Timers(n)[1..] == Timers(n - 1);
      StaysStopped(r, n - 1);
    }
  }

  /** From Initial, opened and up, with a peer that says nothing: fifteen requests in all,
      one at once and one at each of fourteen timeouts; at the next the automaton stops. */
  lemma GivesUp(n: nat)
    ensures var t := RunAll(INITIAL, [Event(OPEN), Event(UP)] + Timers(n));
      if n < MAX_REQS then t.l.S() == 6 && t.issued == 1 + n else t.l.S() == STOPPED && t.issued == MAX_REQS
  {
    Started();
    RunAllSplit(INITIAL, [Event(OPEN), Event(UP)], Timers(n));
    SilentPeer(Run(Lcp(6, {IRC, SCR}, 1, 0, MAX_REQS), [], 1, 0), n);
  }

  /** A link closed while it negotiates: a second terminate request at the first timeout, and
      at the next it is closed. */
  lemma ClosesInTime(r: Run)
    requires 6 <= r.l.state <= 8 && r.l.terms == 0
    ensures var t := Step(r, Event(CLOSE)); t.l.state == 4 && STR in t.l.action
    ensures var u := Step(Step(r, Event(CLOSE)), Timer); u.l.state == 4 && STR in u.l.action
    ensures var v := Step(Step(Step(r, Event(CLOSE)), Timer), Timer); v.l.S() == 2 && v.l.action == {}
  {
    hide Signals;
    var t := Step(r, Event(CLOSE));
    assert t.l == Lcp(4, {IRC, STR}, r.l.reqs, 1, MAX_TERMS);
    var u := Step(t, Timer);
    assert u.l == Lcp(4, {STR}, r.l.reqs, 2, 1);
  }

  /** The restart counter after an event: set when a round of requests begins, zeroed when the
      peer ends an open link, and otherwise as it was. */
  lemma RestartCounter(r: Run, e: nat)
    requires r.l.Ok() && e < EVENTS
    ensures var k, d := Means(r.l.S()), Effective(r.l, e);
      Step(r, Event(e)).l.rest ==
        if IsDue(k, d, ZRC) then 0
        else if IsDue(k, d, IRC) then (if IsDue(k, d, STR) then 2 else 15)
        else r.l.rest
  {
    HandleFollows(r.l, e);
    hide StateRow, ActionRow, Handle, Effective, Means, IsDue, Signals;
  }

  /** Every state that waits for an answer, as long as it is not flagged, has its timer: with
      retries left it uses one, and what is due is sent; with none it comes to rest. */
  lemma TimerRuns(r: Run)
    requires 4 <= r.l.state <= 8
    ensures var k, t := Means(r.l.S()), Step(r, Timer).l;
      && (r.l.rest > 0 ==> t.rest == r.l.rest - 1 && Means(t.S()) == After(k, Effective(r.l, TO_OK)))
      && (r.l.rest == 0 ==> Means(t.S()).phase == AtRest && t.action == {} && t.rest == 0)
  {
    hide StateRow, ActionRow, Handle, Means, Signals, After;
    var e := TimerEvent(r.l);
    StepFollows(r, Timer);
    HandleFollows(r.l, e);
    FinalTimeout(Means(r.l.S()));
    ActKeepsState(Handled(r.l, Timer));
    AtRestThen(r.l.S());
    if r.l.rest > 0 { NoCounter(Means(r.l.S()), Effective(r.l, TO_OK)); }
  }

  lemma AtRestThen(s: nat)
    requires 4 <= s <= 8
    ensures Means(s).phase in {Ending, Talking}
    ensures After(Means(s), TO_ERR).phase == AtRest && forall a :: !IsDue(Means(s), TO_ERR, a)
  {}

  lemma NoCounter(k: Link, e: nat)
    requires e in {TO_OK, TO_ERR} && k.phase in {Ending, Talking}
    ensures !IsDue(k, e, IRC) && !IsDue(k, e, ZRC)
  {}
}
