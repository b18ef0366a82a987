/** The link control automaton of p16_ppp.c: its two tables, the event handler with its
    limits on requests, and the actions that follow an event. */
module Lcp {
  import opened Words
  import opened Wrappers

  // ---- The tables ----

  const XXX: Byte := 0x0f
  const MAX_REQS := 15
  const MAX_TERMS := 2
  const TO_OK := 4
  const TO_ERR := 5
  const EVENTS := 15
  const OPENED := 9
  const STOPPED := 3

  /** Flags in the upper half of a table's state: this layer up 0x10, down 0x20,
      started 0x40, finished 0x80. */
  predicate UpFlag(v: Byte) { v / 0x10 % 2 == 1 }

  predicate DownFlag(v: Byte) { v / 0x20 % 2 == 1 }

  /** The ten states, for each event in the order Up, Down, Open, Close, TO+, TO-, RCR+,
      RCR-, RCA, RCN, RTR, RTA, RUC, RXJ+, RXJ-. */
  function StateRow(e: nat): (r: seq<Byte>)
    ensures |r| == 10
  {
    match e
    case 0 => [2, 6, XXX, XXX, XXX, XXX, XXX, XXX, XXX, XXX]
    case 1 => [XXX, XXX, 0, 0x41, 0, 1, 1, 1, 1, 0x21]
    case 2 => [0x41, XXX, 6, 3, 5, 5, 6, 7, 8, 9]
    case 3 => [0, 0x80, 2, 2, 4, 4, 4, 4, 4, 0x24]
    case 4 => [XXX, XXX, XXX, XXX, 4, 5, 6, 6, 8, XXX]
    case 5 => [XXX, XXX, XXX, XXX, 0x82, 0x83, 0x83, 0x83, 0x83, XXX]
    case 6 => [XXX, XXX, 2, 8, 4, 5, 8, 0x19, 8, 0x28]
    case 7 => [XXX, XXX, 2, 6, 4, 5, 6, 7, 6, 0x28]
    case 8 => [XXX, XXX, 2, 3, 4, 5, 7, 6, 0x19, 0x26]
    case 9 => [XXX, XXX, 2, 3, 4, 5, 6, 6, 8, 0x26]
    case 10 => [XXX, XXX, 2, 3, 4, 5, 6, 6, 6, 0x25]
    case 11 => [XXX, XXX, 2, 3, 0x82, 0x83, 6, 6, 8, 0x26]
    case 12 => [XXX, XXX, 2, 3, 4, 5, 6, 7, 8, 9]
    case 13 => [XXX, XXX, 2, 3, 4, 5, 6, 6, 8, 9]
    case _ => [XXX, XXX, 0x82, 0x83, 0x82, 0x83, 0x83, 0x83, 0x83, 0x25]
  }

  /** What an event may make the automaton send or set: configure request, acknowledgement
      or rejection, terminate request or acknowledgement, code reject; and the restart
      counter initialised or zeroed. */
  datatype Action = IRC | ZRC | SCR | SCA | SCN | STR | STA | SCJ

  function ActionRow(e: nat): (r: seq<set<Action>>)
    ensures |r| == 10
  {
    match e
    case 0 => [{}, {IRC, SCR}, {}, {}, {}, {}, {}, {}, {}, {}]
    case 2 => [{}, {}, {IRC, SCR}, {}, {}, {}, {}, {}, {}, {}]
    case 3 => [{}, {}, {}, {}, {}, {}, {IRC, STR}, {IRC, STR}, {IRC, STR}, {IRC, STR}]
    case 4 => [{}, {}, {}, {}, {STR}, {STR}, {SCR}, {SCR}, {SCR}, {}]
    case 6 => [{}, {}, {STA}, {IRC, SCR, SCA}, {}, {}, {SCA}, {SCA}, {SCA}, {SCR, SCA}]
    case 7 => [{}, {}, {STA}, {IRC, SCR, SCN}, {}, {}, {SCN}, {SCN}, {SCN}, {SCR, SCN}]
    case 8 => [{}, {}, {STA}, {STA}, {}, {}, {IRC}, {SCR}, {IRC}, {SCR}]
    case 9 => [{}, {}, {STA}, {STA}, {}, {}, {IRC, SCR}, {SCR}, {IRC, SCR}, {SCR}]
    case 10 => [{}, {}, {STA}, {STA}, {STA}, {STA}, {STA}, {STA}, {STA}, {ZRC, STA}]
    case 11 => [{}, {}, {}, {}, {}, {}, {}, {}, {}, {SCR}]
    case 12 => [{}, {}, {SCJ}, {SCJ}, {SCJ}, {SCJ}, {SCJ}, {SCJ}, {SCJ}, {SCJ}]
    case 14 => [{}, {}, {}, {}, {}, {}, {}, {}, {}, {IRC, STR}]
    case _ => [{}, {}, {}, {}, {}, {}, {}, {}, {}, {}]
  }

  /** What the table promises of one entry: it is flagged up exactly when it leads into
      Opened, down exactly when it leads out of it; entries that cannot happen do nothing. */
  predicate Sound(s: nat, n: Byte, a: set<Action>) {
    if n == XXX then a == {}
    else
      && n % 0x10 <= OPENED
      && (UpFlag(n) <==> s != OPENED && n % 0x10 == OPENED)
      && (DownFlag(n) <==> s == OPENED && n % 0x10 != OPENED)
  }

  lemma EarlyRowsSound(e: nat, s: nat)
    requires e < 7 && s < 10
    ensures Sound(s, StateRow(e)[s], ActionRow(e)[s])
  {
    var c := StateRow(e)[s];
    assert c in {0, 1, 2, 3, 4, 5, 6, 7, 8, 9, XXX, 0x41, 0x80, 0x21, 0x24, 0x82, 0x83, 0x19, 0x28};
  }

  lemma LateRowsSound(e: nat, s: nat)
    requires 7 <= e < EVENTS && s < 10
    ensures Sound(s, StateRow(e)[s], ActionRow(e)[s])
  {
    var c := StateRow(e)[s];
    assert c in {2, 3, 4, 5, 6, 7, 8, 9, XXX, 0x28, 0x19, 0x26, 0x25, 0x82, 0x83};
  }

  lemma TableSound(e: nat, s: nat)
    requires e < EVENTS && s < 10
    ensures Sound(s, StateRow(e)[s], ActionRow(e)[s])
  {
    if e < 7 { EarlyRowsSound(e, s); } else { LateRowsSound(e, s); }
  }

  // ---- The automaton ----

  /** lcp_state with its flags, lcp_action, and the counters. */
  datatype Lcp = Lcp(state: Byte, action: set<Action>, reqs: nat, terms: nat, rest: nat) {
    function S(): nat { state % 0x10 }

    predicate Ok() { S() <= OPENED }
  }

  /** States whose visit resets the request counts. */
  predicate Resting(s: nat) { s <= STOPPED || s == OPENED }

  /** lcp_event_handler */
  function Handle(l: Lcp, e: nat): Lcp {
    var s := l.S();
    var l1 := if Resting(s) then l.(reqs := 0, terms := 0) else l;
    if s > OPENED || e >= EVENTS then (if s != XXX then l1.(state := s) else l1)
    else
      var (n, a) := (StateRow(e)[s], ActionRow(e)[s]);
      var toErr := SCR in a && l1.reqs >= MAX_REQS;
      var (n1, a1) := if toErr then (StateRow(TO_ERR)[s], ActionRow(TO_ERR)[s]) else (n, a);
      var reqs := if SCR in a then l1.reqs + 1 else l1.reqs;
      var toErr2 := STR in a1 && l1.terms >= MAX_TERMS;
      var (n2, a2) := if toErr2 then (StateRow(TO_ERR)[s], ActionRow(TO_ERR)[s]) else (n1, a1);
      var terms := if STR in a1 then l1.terms + 1 else l1.terms;
      Lcp(if n2 != XXX then n2 else l1.state, a2, reqs, terms, l1.rest)
  }

  /** Signals to the layer above. */
  datatype Signal = Up | Down

  function Signals(l: Lcp): seq<Signal> {
    (if UpFlag(l.state) then [Up] else []) + (if DownFlag(l.state) then [Down] else [])
  }

  /** do_lcp_actions: the restart counter; what is sent and signalled is in the run. */
  function Act(l: Lcp): Lcp {
    var l1 := if IRC in l.action then l.(rest := if STR in l.action then MAX_TERMS else MAX_REQS) else l;
    if ZRC in l.action then l1.(rest := 0) else l1
  }

  /** What happens to the automaton: an event; the timer; or a packet that is not an event
      (an echo request, an unknown code), after which the actions are done all the same. */
  datatype Input = Event(e: nat) | Timer | Stray

  /** The automaton, its signals so far, the configure requests sent since it was last
      resting, and how many of those were the last one sent again. */
  datatype Run = Run(l: Lcp, signals: seq<Signal>, issued: nat, resent: nat)

  /** An input that has the last action, a configure request, done again. */
  predicate Resends(l: Lcp, i: Input) {
    SCR in l.action && (i.Stray? || (i.Event? && i.e >= EVENTS))
  }

  /** The timer counts only in the states from Closing to Ack-Sent, with no flags set. */
  function TimerEvent(l: Lcp): nat
  { if l.rest > 0 then TO_OK else TO_ERR }

  predicate TimerCounts(l: Lcp) { 4 <= l.state <= 8 }

  /** The event handler's part of a step. */
  function Handled(l: Lcp, i: Input): Lcp {
    match i
    case Event(e) => Handle(l, e)
    case Timer =>
      var t := Handle(l, TimerEvent(l));
      t.(rest := if l.rest > 0 then l.rest - 1 else t.rest)
    case Stray => l
  }

  /** The two counts as a step finds them: a visit to a resting state starts them again. */
  function Before(r: Run): (nat, nat) { if Resting(r.l.S()) then (0, 0) else (r.issued, r.resent) }

  function Step(r: Run, i: Input): Run {
    if i.Timer? && !TimerCounts(r.l) then r
    else
      var l := Handled(r.l, i);
      var (issued, resent) := Before(r);
      Run(Act(l), r.signals + Signals(l), issued + (if SCR in l.action then 1 else 0),
          resent + (if Resends(r.l, i) then 1 else 0))
  }

  function RunAll(r: Run, inputs: seq<Input>): Run
    decreases |inputs|
  { if inputs == [] then r else RunAll(Step(r, inputs[0]), inputs[1..]) }

  const INITIAL := Run(Lcp(0, {}, 0, 0, 0), [], 0, 0)

  // ---- Up and Down ----

  /** An input that is no event in the present state leaves the state as it is, flags and
      all, and its actions are done again. */
  predicate Repeats(l: Lcp, i: Input) {
    match i
    case Event(e) => l.Ok() && e < EVENTS && StateRow(e)[l.S()] == XXX
    case Timer => false
    case Stray => true
  }

  predicate Flagged(l: Lcp) { UpFlag(l.state) || DownFlag(l.state) }

  /** The signals that a step ought to give: Up on entering Opened, Down on leaving it. */
  function Due(s: nat, s': nat): seq<Signal> {
    if s != OPENED && s' == OPENED then [Up] else if s == OPENED && s' != OPENED then [Down] else []
  }

  /** The override for too many requests only happens where the table has an entry for it. */
  lemma OverrideExists(e: nat, s: nat)
    requires e < EVENTS && s < 10 && !Resting(s)
    ensures StateRow(TO_ERR)[s] != XXX && ActionRow(TO_ERR)[s] == {}
  {}

  lemma NoFlags(s: nat)
    requires s < 10
    ensures !UpFlag(s) && !DownFlag(s) && s % 0x10 == s
  {}

  /** What the handler makes of an event. */
  lemma HandleSound(l: Lcp, e: nat)
    requires l.Ok()
    ensures var t := Handle(l, e);
      if e < EVENTS && StateRow(e)[l.S()] == XXX then t.state == l.state && t.action == {}
      else t.Ok() && Signals(t) == Due(l.S(), t.S())
  {
    hide UpFlag, DownFlag, StateRow, ActionRow;
    var s := l.S();
    NoFlags(s);
    if e < EVENTS {
      TableSound(e, s);
      if !Resting(s) {
        OverrideExists(e, s);
        TableSound(TO_ERR, s);
      }
    }
  }

  lemma TimerHasEntry(l: Lcp)
    requires TimerCounts(l)
    ensures l.Ok() && StateRow(TimerEvent(l))[l.S()] != XXX
  {}

  lemma ActKeepsState(l: Lcp)
    ensures Act(l).state == l.state && Act(l).action == l.action && Act(l).reqs == l.reqs
  {}

  /** A step gives exactly the signals that are due, if and only if it does not repeat the
      actions of a state that is still flagged. */
  lemma StepSignals(r: Run, i: Input)
    requires r.l.Ok() && (i.Timer? ==> TimerCounts(r.l))
    ensures var t := Step(r, i);
      && t.l.Ok()
      && (t.signals == r.signals + Due(r.l.S(), t.l.S()) <==> !(Repeats(r.l, i) && Flagged(r.l)))
  {
    var h := Handled(r.l, i);
    ActKeepsState(h);
    if i.Event? { HandleSound(r.l, i.e); }
    if i.Timer? {
      HandleSound(r.l, TimerEvent(r.l));
      TimerHasEntry(r.l);
    }
    hide UpFlag, DownFlag, StateRow, Handle, Act;
    if Repeats(r.l, i) {
      assert h.state == r.l.state;
      assert r.signals + [] == r.signals;
      assert |r.signals + Signals(h)| == |r.signals| + |Signals(h)|;
    }
  }

  /** No input repeats the actions of a flagged state. */
  predicate Clean(r: Run, inputs: seq<Input>)
    decreases |inputs|
  {
    inputs == [] ||
    (!(Repeats(r.l, inputs[0]) && Flagged(r.l)) && Clean(Step(r, inputs[0]), inputs[1..]))
  }

  predicate Alternate(signals: seq<Signal>) {
    forall k :: 0 <= k < |signals| ==> signals[k] == if k % 2 == 0 then Up else Down
  }

  /** Up and Down have alternated, the last was Up exactly if the state is Opened, and a
      flag that is still set is that of the last signal. */
  predicate InStep(r: Run) {
    && r.l.Ok() && Alternate(r.signals) && (|r.signals| % 2 == 1 <==> r.l.S() == OPENED)
    && (UpFlag(r.l.state) ==> r.signals != [] && r.signals[|r.signals| - 1] == Up && !DownFlag(r.l.state))
    && (DownFlag(r.l.state) ==> r.signals != [] && r.signals[|r.signals| - 1] == Down)
  }

  lemma AlternateMore(signals: seq<Signal>, s: nat, s': nat)
    requires Alternate(signals) && (|signals| % 2 == 1 <==> s == OPENED)
    ensures Alternate(signals + Due(s, s')) && (|signals + Due(s, s')| % 2 == 1 <==> s' == OPENED)
  {}

  lemma AlternateNot(signals: seq<Signal>, more: seq<Signal>)
    requires signals != [] && more != [] && more[0] == signals[|signals| - 1]
    ensures !Alternate(signals + more)
  {
    var t := signals + more;
    assert t[|signals|] == t[|signals| - 1];
  }

  lemma StepInStep(r: Run, i: Input)
    requires InStep(r) && !(Repeats(r.l, i) && Flagged(r.l))
    ensures InStep(Step(r, i))
  {
    if !(i.Timer? && !TimerCounts(r.l)) {
      StepSignals(r, i);
      StepFlags(r, i);
      var s, s' := r.l.S(), Step(r, i).l.S();
      AlternateMore(r.signals, s, s');
      hide UpFlag, DownFlag, Step, Repeats, Alternate, Lcp.S;
      assert Step(r, i).signals == r.signals + Due(s, s');
    }
  }

  /** A flag is set only by the step that gives the signal. */
  lemma StepFlags(r: Run, i: Input)
    requires r.l.Ok() && (i.Timer? ==> TimerCounts(r.l)) && !(Repeats(r.l, i) && Flagged(r.l))
    ensures Signals(Step(r, i).l) == Due(r.l.S(), Step(r, i).l.S())
  {
    var h := Handled(r.l, i);
    ActKeepsState(h);
    if i.Event? { HandleSound(r.l, i.e); }
    if i.Timer? {
      HandleSound(r.l, TimerEvent(r.l));
      TimerHasEntry(r.l);
    }
    hide UpFlag, DownFlag, StateRow, Handle, Act;
  }

  lemma {:induction false} SignalsGrow(r: Run, inputs: seq<Input>)
    ensures r.signals <= RunAll(r, inputs).signals
    decreases |inputs|
  {
    hide Handled, Act, Signals;
    if inputs != [] { SignalsGrow(Step(r, inputs[0]), inputs[1..]); }
  }

  /** Repeating the actions of a flagged state gives the same signal twice running. */
  lemma RepeatSpoils(r: Run, i: Input)
    requires InStep(r) && Repeats(r.l, i) && Flagged(r.l)
    ensures !Alternate(Step(r, i).signals)
  {
    var h := Handled(r.l, i);
    ActKeepsState(h);
    if i.Event? { HandleSound(r.l, i.e); }
    assert h.state == r.l.state;
    hide UpFlag, DownFlag, Handle, Act, StateRow, Handled, Alternate, Lcp.S;
    AlternateNot(r.signals, Signals(h));
  }

  /** The signals alternate if and only if nothing is repeated. */
  lemma {:induction false} LayerSignals(r: Run, inputs: seq<Input>)
    requires InStep(r)
    ensures Alternate(RunAll(r, inputs).signals) <==> Clean(r, inputs)
    ensures Clean(r, inputs) ==> InStep(RunAll(r, inputs))
    decreases |inputs|
  {
    hide Step, Signals, Repeats, UpFlag, DownFlag;
    if inputs != [] {
      var t := Step(r, inputs[0]);
      if Repeats(r.l, inputs[0]) && Flagged(r.l) {
        RepeatSpoils(r, inputs[0]);
        SignalsGrow(t, inputs[1..]);
        PrefixAlternates(t.signals, RunAll(t, inputs[1..]).signals);
      } else {
        StepInStep(r, inputs[0]);
        LayerSignals(t, inputs[1..]);
      }
    }
  }

  lemma PrefixAlternates(s: seq<Signal>, t: seq<Signal>)
    requires s <= t
    ensures Alternate(t) ==> Alternate(s)
  {
    assert forall k :: 0 <= k < |s| ==> s[k] == t[k];
  }

  function Count(signals: seq<Signal>, x: Signal): nat {
    if signals == [] then 0
    else (if signals[|signals| - 1] == x then 1 else 0) + Count(signals[..|signals| - 1], x)
  }

  lemma {:induction false} AlternateCounts(signals: seq<Signal>)
    requires Alternate(signals)
    ensures Count(signals, Up) == Count(signals, Down) + |signals| % 2
  {
    if signals != [] { AlternateCounts(signals[..|signals| - 1]); }
  }

  /** For every sequence of inputs from Initial: Up and Down strictly alternate, beginning
      with Up, if and only if nothing is repeated while a flag is set; and then there has
      been one more Up than Down if and only if the state is Opened. */
  lemma UpAndDown(inputs: seq<Input>)
    ensures var r := RunAll(INITIAL, inputs);
      && (Alternate(r.signals) <==> Clean(INITIAL, inputs))
      && (Clean(INITIAL, inputs) ==>
        Count(r.signals, Up) == Count(r.signals, Down) + (if r.l.S() == OPENED then 1 else 0))
  {
    NoFlags(0);
    LayerSignals(INITIAL, inputs);
    if Clean(INITIAL, inputs) { AlternateCounts(RunAll(INITIAL, inputs).signals); }
  }

  // ---- Configure requests ----

  /** The requests that the automaton has counted: all but those sent again. */
  function Counted(r: Run): int { r.issued - r.resent }

  predicate Limited(r: Run) { r.l.Ok() && 0 <= Counted(r) <= Min(r.l.reqs, MAX_REQS) }

  lemma HandleLimits(l: Lcp, e: nat, counted: nat)
    requires l.Ok() && counted <= MAX_REQS && (if Resting(l.S()) then counted == 0 else counted <= l.reqs)
    ensures var t := Handle(l, e);
      counted + (if SCR in t.action && e < EVENTS then 1 else 0) <= Min(t.reqs, MAX_REQS)
  {
    hide StateRow, ActionRow;
    if e < EVENTS && !Resting(l.S()) { OverrideExists(e, l.S()); }
  }

  lemma StepLimits(r: Run, i: Input)
    requires Limited(r)
    ensures Limited(Step(r, i))
  {
    if !(i.Timer? && !TimerCounts(r.l)) {
      StepSignals(r, i);
      var (issued, resent) := Before(r);
      ActKeepsState(Handled(r.l, i));
      if i.Event? { HandleLimits(r.l, i.e, issued - resent); }
      if i.Timer? { HandleLimits(r.l, TimerEvent(r.l), issued - resent); }
      hide StateRow, ActionRow;
    }
  }

  lemma {:induction false} RunLimits(r: Run, inputs: seq<Input>)
    requires Limited(r)
    ensures Limited(RunAll(r, inputs))
    decreases |inputs|
  {
    hide Step, Limited;
    if inputs != [] {
      StepLimits(r, inputs[0]);
      RunLimits(Step(r, inputs[0]), inputs[1..]);
    }
  }

  /** The event that an input has the handler called with, if any. */
  function EventOf(l: Lcp, i: Input): Option<nat> {
    match i
    case Event(e) => if e < EVENTS then Some(e) else None
    case Timer => if TimerCounts(l) then Some(TimerEvent(l)) else None
    case Stray => None
  }

  /** An input that has a new request sent: the table says so, and the handler's limit has
      not been reached. */
  predicate Requests(l: Lcp, i: Input) {
    var e := EventOf(l, i);
    l.Ok() && e.Some? && SCR in ActionRow(e.value)[l.S()] && (Resting(l.S()) || l.reqs < MAX_REQS)
  }

  lemma HandleSends(l: Lcp, e: nat)
    requires l.Ok() && e < EVENTS
    ensures SCR in Handle(l, e).action <==> SCR in ActionRow(e)[l.S()] && (Resting(l.S()) || l.reqs < MAX_REQS)
  {
    var s := l.S();
    RequestsAlone(e, s);
    if !Resting(s) { OverrideExists(e, s); }
    hide StateRow, ActionRow;
  }

  /** No entry of the table has both kinds of request. */
  lemma RequestsAlone(e: nat, s: nat)
    requires e < EVENTS && s < 10
    ensures !(SCR in ActionRow(e)[s] && STR in ActionRow(e)[s])
    ensures STR in ActionRow(e)[s] ==> SCR !in ActionRow(TO_ERR)[s]
  {}

  /** The step that takes the requests past the limit: at the limit, and not resting, one
      more is sent, again or anew. */
  predicate Passes(r: Run, i: Input) {
    !Resting(r.l.S()) && r.issued == MAX_REQS && (Resends(r.l, i) || Requests(r.l, i))
  }

  lemma StepPasses(r: Run, i: Input)
    requires r.l.Ok() && r.issued <= MAX_REQS
    ensures Step(r, i).l.Ok() && (Step(r, i).issued > MAX_REQS <==> Passes(r, i))
  {
    if !(i.Timer? && !TimerCounts(r.l)) {
      StepSignals(r, i);
      var e := EventOf(r.l, i);
      if e.Some? { HandleSends(r.l, e.value); }
      hide StateRow, ActionRow, Act, Signals;
    }
  }

  /** Fresh requests alone never pass it. */
  lemma PassesByResending(r: Run, i: Input)
    requires Limited(r) && r.resent == 0
    ensures Passes(r, i) <==> !Resting(r.l.S()) && r.issued == MAX_REQS && Resends(r.l, i)
  {}

  /** Never in the run have more than fifteen requests been sent since the last rest. */
  predicate WithinLimit(r: Run, inputs: seq<Input>)
    decreases |inputs|
  { r.issued <= MAX_REQS && (inputs == [] || WithinLimit(Step(r, inputs[0]), inputs[1..])) }

  /** No input takes the requests past the limit. */
  predicate NonePasses(r: Run, inputs: seq<Input>)
    decreases |inputs|
  { inputs == [] || (!Passes(r, inputs[0]) && NonePasses(Step(r, inputs[0]), inputs[1..])) }

  lemma {:induction false} LimitExactly(r: Run, inputs: seq<Input>)
    requires r.l.Ok() && r.issued <= MAX_REQS
    ensures WithinLimit(r, inputs) <==> NonePasses(r, inputs)
    decreases |inputs|
  {
    hide Step, Passes;
    if inputs != [] {
      var t := Step(r, inputs[0]);
      StepPasses(r, inputs[0]);
      if t.issued <= MAX_REQS { LimitExactly(t, inputs[1..]); }
    }
  }

  /** For every sequence of inputs from Initial, whatever the events, the timeouts and the
      overrides: of the configure requests sent since the automaton was last in a state
      that is Stopped or below, or Opened, at most fifteen have been counted, and all the
      others were resent by an input that is no event; so the limit of fifteen holds if
      none has been resent since that rest. It has held all along exactly if no input came
      at the limit that has one more sent. */
  lemma RequestsAreLimited(inputs: seq<Input>)
    ensures var r := RunAll(INITIAL, inputs);
      0 <= Counted(r) <= MAX_REQS && (r.resent == 0 ==> r.issued <= MAX_REQS)
    ensures WithinLimit(INITIAL, inputs) <==> NonePasses(INITIAL, inputs)
  {
    RunLimits(INITIAL, inputs);
    LimitExactly(INITIAL, inputs);
  }

  // ---- What a stray packet does ----

  function Strays(n: nat): (s: seq<Input>)
    ensures |s| == n
  { seq(n, _ => Stray) }

  /** The automaton opened, and started: it has sent its first request. */
  lemma Started()
    ensures RunAll(INITIAL, [Event(2), Event(0)]) == Run(Lcp(6, {IRC, SCR}, 1, 0, MAX_REQS), [], 1, 0)
  {
    var r1 := Step(INITIAL, Event(2));
    assert r1 == Run(Lcp(0x41, {}, 0, 0, 0), [], 0, 0);
    var r2 := Step(r1, Event(0));
    assert r2 == Run(Lcp(6, {IRC, SCR}, 1, 0, MAX_REQS), [], 1, 0);
    assert [Event(2), Event(0)][1..] == [Event(0)] && [Event(0)][1..] == [];
    assert RunAll(INITIAL, [Event(2), Event(0)]) == RunAll(r1, [Event(0)]) == RunAll(r2, []);
  }

  lemma {:induction false} StraysResend(r: Run, n: nat)
    requires SCR in r.l.action && IRC in r.l.action && STR !in r.l.action && ZRC !in r.l.action
    requires !Resting(r.l.S()) && !Flagged(r.l)
    ensures RunAll(r, Strays(n)).issued == r.issued + n && RunAll(r, Strays(n)).resent == r.resent + n
    decreases n
  {
    if n > 0 {
      assert Strays(n)[1..] == Strays(n - 1);
      assert r.signals + [] == r.signals;
      StraysResend(Step(r, Stray), n - 1);
    }
  }

  lemma {:induction false} RunAllSplit(r: Run, a: seq<Input>, b: seq<Input>)
    ensures RunAll(r, a + b) == RunAll(RunAll(r, a), b)
    decreases |a|
  {
    hide Step;
    if a == [] {
      assert a + b == b;
    } else {
      RunAllSplit(Step(r, a[0]), a[1..], b);
      assert (a + b)[1..] == a[1..] + b && (a + b)[0] == a[0];
    }
  }

  /** The limit on requests does not hold when packets come in that are not events: each
      echo request or unknown code that follows a request has it sent again. */
  lemma RequestsCanBeResent(n: nat)
    ensures RunAll(INITIAL, [Event(2), Event(0)] + Strays(n)).issued == 1 + n
  {
    Started();
    RunAllSplit(INITIAL, [Event(2), Event(0)], Strays(n));
    NoFlags(6);
    StraysResend(Run(Lcp(6, {IRC, SCR}, 1, 0, MAX_REQS), [], 1, 0), n);
  }

  lemma Opening()
    ensures var r2 := Run(Lcp(6, {IRC, SCR}, 1, 0, MAX_REQS), [], 1, 0);
      var r3 := Run(Lcp(7, {IRC}, 1, 0, MAX_REQS), [], 1, 0);
      var r4 := Run(Lcp(0x19, {SCA}, 1, 0, MAX_REQS), [Up], 1, 0);
      Step(r2, Event(8)) == r3 && Step(r3, Event(6)) == r4 && Step(r4, Stray).signals == [Up, Up]
  {}

  /** Up is signalled again when such a packet follows the event that opened the link. */
  lemma UpCanBeRepeated()
    ensures RunAll(INITIAL, [Event(2), Event(0)] + [Event(8), Event(6), Stray]).signals == [Up, Up]
  {
    hide Step;
    Started();
    RunAllSplit(INITIAL, [Event(2), Event(0)], [Event(8), Event(6), Stray]);
    Opening();
    var r2 := Run(Lcp(6, {IRC, SCR}, 1, 0, MAX_REQS), [], 1, 0);
    var i := [Event(8), Event(6), Stray];
    assert i[1..] == [Event(6), Stray] && i[1..][1..] == [Stray] && [Stray][1..] == [];
    assert RunAll(r2, i) == RunAll(Step(r2, i[0]), i[1..]);
    assert RunAll(Step(r2, i[0]), i[1..]) == RunAll(Step(Step(r2, i[0]), Event(6)), [Stray]);
  }

  // ---- The automaton as the program keeps it ----

  class Automaton {
    var lcp_state: Byte
    var lcp_action: set<Action>
    var lcp_reqs: nat
    var lcp_terms: nat
    var lcp_rest: nat
    ghost var signals: seq<Signal>
    ghost var issued: nat
    ghost var resent: nat

    ghost function Abs(): Run
      reads this
    { Run(Lcp(lcp_state, lcp_action, lcp_reqs, lcp_terms, lcp_rest), signals, issued, resent) }

    constructor ()
      ensures Abs() == INITIAL
    {
      lcp_state, lcp_action, lcp_reqs, lcp_terms, lcp_rest := 0, {}, 0, 0, 0;
      signals, issued, resent := [], 0, 0;
    }

    method LcpEventHandler(event: nat)
      modifies this`lcp_state, this`lcp_action, this`lcp_reqs, this`lcp_terms
      ensures Abs().l == Handle(old(Abs()).l, event)
    {
      hide StateRow, ActionRow;
      var state := lcp_state % 0x10;
      var newstate: Byte := state;
      if state <= STOPPED || state == OPENED { lcp_reqs, lcp_terms := 0, 0; }
      if state <= OPENED && event < EVENTS {
        newstate := StateRow(event)[state];
        lcp_action := ActionRow(event)[state];
        if SCR in lcp_action {
          if lcp_reqs >= MAX_REQS {
            newstate := StateRow(TO_ERR)[state];
            lcp_action := ActionRow(TO_ERR)[state];
          }
          lcp_reqs := lcp_reqs + 1;
        }
        if STR in lcp_action {
          if lcp_terms >= MAX_TERMS {
            newstate := StateRow(TO_ERR)[state];
            lcp_action := ActionRow(TO_ERR)[state];
          }
          lcp_terms := lcp_terms + 1;
        }
      }
      if newstate != XXX { lcp_state := newstate; }
    }

    /** do_lcp_actions; `before` are the counts of requests, `again` whether it only
        repeats the last action. */
    method DoLcpActions(ghost before: (nat, nat), ghost again: bool)
      modifies this`lcp_rest, this`signals, this`issued, this`resent
      ensures Abs() == Run(Act(old(Abs()).l), old(signals) + Signals(old(Abs()).l),
                           before.0 + (if SCR in lcp_action then 1 else 0), before.1 + (if again then 1 else 0))
    {
      issued := before.0 + if SCR in lcp_action then 1 else 0;
      resent := before.1 + if again then 1 else 0;
      if IRC in lcp_action { lcp_rest := if STR in lcp_action then MAX_TERMS else MAX_REQS; }
      if ZRC in lcp_action { lcp_rest := 0; }
      assert signals + [] == signals;
      if UpFlag(lcp_state) { signals := signals + [Up]; }
      if DownFlag(lcp_state) { signals := signals + [Down]; }
    }

    /** An event is handled and its actions are done; or the timer part of get_net; or a
        packet that is no event. */
    method Take(i: Input)
      modifies this
      ensures Abs() == Step(old(Abs()), i)
    {
      hide Handle, Act, Signals, StateRow, ActionRow;
      ghost var before, again := Before(Abs()), Resends(Abs().l, i);
      match i {
        case Event(e) =>
          LcpEventHandler(e);
          DoLcpActions(before, again);
        case Timer =>
          if 4 <= lcp_state <= 8 {
            if lcp_rest > 0 {
              LcpEventHandler(TO_OK);
              lcp_rest := lcp_rest - 1;
            } else {
              LcpEventHandler(TO_ERR);
            }
            DoLcpActions(before, again);
          }
        case Stray =>
          DoLcpActions(before, again);
      }
    }
  }
}
