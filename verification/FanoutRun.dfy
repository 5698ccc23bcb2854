/**
 One credit-controlled phase of `measure_daemon_phases` in tools/bench_live.py: the
 `send_messages` tasks, the `finish` task, the shared event they park on in `phase_wait`,
 and the network.  A task runs from one suspension to the next without interference, as an
 asyncio task does; between two such segments anything may happen.
 */
module FanoutRun {
  import opened Options
  import opened PhasePayload
  import opened DeliveryLedgers
  import opened PhaseWait

  datatype Phase = Phase(name: string, count: nat, window: nat)

  datatype Finisher = Idle | Open | Done

  /**
   `pos[i]` is the next sequence sender `i` authors, `event` the shared `changed`, and `wire`
   what the daemon still owes each stream.
   */
  datatype Sys = Sys(ledger: Ledger, pos: seq<nat>, finish: Finisher, event: Signal, wire: map<Stream, seq<nat>>)

  datatype Action =
    | Sender(i: nat, now: int)
    | Begin
    | Finish
    | Line(recipient: nat, line: string, now: int)
    | FromWire(st: Stream, line: string, now: int)

  // ---------------------------------------------------------------- steps

  ghost predicate Registered(cfg: Fanout, ph: Phase, s: Sys) {
    && Sound(cfg, s.ledger)
    && ph.name in s.ledger.counts && s.ledger.counts[ph.name] == ph.count
    && |s.pos| == cfg.clients
  }

  ghost predicate HasCredit(cfg: Fanout, ph: Phase, s: Sys, i: nat)
    requires Registered(cfg, ph, s) && i < cfg.clients
  {
    Credit(cfg, s.ledger, ph.name, i, s.pos[i], ph.window)
  }

  /** Credit is to be less than the window ahead of every recipient, and nothing more. */
  lemma {:induction false} CreditExactly(cfg: Fanout, ph: Phase, s: Sys, i: nat)
    requires Registered(cfg, ph, s) && i < cfg.clients
    ensures HasCredit(cfg, ph, s, i)
       <==> forall st :: st in s.ledger.next && st.phase == ph.name && st.sender == i ==>
              s.pos[i] < s.ledger.next[st] + ph.window
  {
    if HasCredit(cfg, ph, s, i) {
      forall st | st in s.ledger.next && st.phase == ph.name && st.sender == i
        ensures s.pos[i] < s.ledger.next[st] + ph.window
      {
        assert st == Stream(ph.name, i, st.recipient);
      }
    } else {
      var r :| 0 <= r < cfg.clients && r != i && s.ledger.next[Stream(ph.name, i, r)] <= s.pos[i] - ph.window;
      assert Stream(ph.name, i, r) in s.ledger.next;
    }
  }

  predicate Asleep(s: Sys, t: Task) { t in s.event.waiters }

  /** The event is set: every parked task becomes runnable. */
  ghost function Wake(s: Sys): Sys { s.(event := WhenSet(s.event)) }

  /** One segment of `phase_wait` from the head of its loop. */
  function Turn(s: Sys, t: Task, condition: bool): (Signal, Place) { Segment(s.event, t, Testing, condition) }

  /** The daemon owes the message to every other client. */
  ghost function Push(wire: map<Stream, seq<nat>>, phase: string, i: nat, q: nat): map<Stream, seq<nat>> {
    map st | st in wire :: if st.phase == phase && st.sender == i then wire[st] + [q] else wire[st]
  }

  /** A sender up to its next suspension: its wait for credit, and when that lets it through, author and send. */
  ghost predicate SenderStep(cfg: Fanout, ph: Phase, s: Sys, i: nat, now: int, s': Sys)
    requires Registered(cfg, ph, s)
  {
    && i < cfg.clients && s.pos[i] < ph.count && !Asleep(s, SenderTask(i))
    && var (e, place) := Turn(s, SenderTask(i), HasCredit(cfg, ph, s, i));
       if place == Through then
         var l := Authored(s.ledger, ph.name, i, s.pos[i], now);
         l.Some? && s' == Sent(ph, s, i, l.value).(event := e)
       else s' == s.(event := e)
  }

  ghost function Sent(ph: Phase, s: Sys, i: nat, l: Ledger): Sys
    requires i < |s.pos|
  {
    s.(ledger := l, pos := s.pos[i := s.pos[i] + 1], wire := Push(s.wire, ph.name, i, s.pos[i]))
  }

  /** Asleep on the cleared event. */
  ghost function Sleeps(s: Sys, t: Task): Sys { s.(event := Signal(false, s.event.waiters + {t})) }

  /** With credit the event is not touched; without it the sender sleeps. */
  lemma {:induction false} SenderStepIs(cfg: Fanout, ph: Phase, s: Sys, i: nat, now: int, s': Sys)
    requires Registered(cfg, ph, s)
    ensures SenderStep(cfg, ph, s, i, now, s')
       <==> && i < cfg.clients && s.pos[i] < ph.count && !Asleep(s, SenderTask(i))
            && if HasCredit(cfg, ph, s, i) then
                 var l := Authored(s.ledger, ph.name, i, s.pos[i], now);
                 l.Some? && s' == Sent(ph, s, i, l.value)
               else s' == Sleeps(s, SenderTask(i))
  {
    if i < cfg.clients {
      SegmentEnds(s.event, SenderTask(i), HasCredit(cfg, ph, s, i));
    }
  }

  ghost predicate LineStep(cfg: Fanout, ph: Phase, s: Sys, recipient: nat, line: string, now: int, s': Sys)
    requires Strict(cfg) && Registered(cfg, ph, s)
  {
    && recipient < cfg.clients
    && match Verdict(cfg, s.ledger, recipient, line)
       case Ignored => s' == s
       case Raised(_) => false
       case Accepted(_, _) => s' == Wake(s.(ledger := Receive(cfg, s.ledger, recipient, line, now)))
  }

  ghost predicate AllSent(ph: Phase, s: Sys) {
    forall i :: 0 <= i < |s.pos| ==> s.pos[i] == ph.count
  }

  ghost predicate FinishStep(cfg: Fanout, ph: Phase, s: Sys, s': Sys)
    requires Registered(cfg, ph, s)
  {
    && s.finish == Open && !Asleep(s, FinishTask)
    && var (e, place) := Turn(s, FinishTask, Complete(cfg, s.ledger, ph.name));
       s' == s.(event := e, finish := if place == Through then Done else Open)
  }

  lemma {:induction false} FinishStepIs(cfg: Fanout, ph: Phase, s: Sys, s': Sys)
    requires Registered(cfg, ph, s)
    ensures FinishStep(cfg, ph, s, s')
       <==> && s.finish == Open && !Asleep(s, FinishTask)
            && s' == if Complete(cfg, s.ledger, ph.name) then s.(finish := Done) else Sleeps(s, FinishTask)
  {
    SegmentEnds(s.event, FinishTask, Complete(cfg, s.ledger, ph.name));
  }

  /** The line is the oldest message the daemon owes this stream. */
  ghost predicate OldestOwed(cfg: Fanout, ph: Phase, s: Sys, st: Stream, line: string) {
    && st in s.wire && s.wire[st] != [] && st.phase == ph.name
    && cfg.identify(s.ledger.counts, st.recipient, line) == Claim(st.phase, st.sender, s.wire[st][0])
  }

  ghost predicate Next(cfg: Fanout, ph: Phase, s: Sys, a: Action, s': Sys)
    requires Strict(cfg)
  {
    && Registered(cfg, ph, s)
    && match a
       case Sender(i, now) => SenderStep(cfg, ph, s, i, now, s')
       case Begin => s.finish == Idle && AllSent(ph, s) && s' == s.(finish := Open)
       case Finish => FinishStep(cfg, ph, s, s')
       case Line(r, line, now) => LineStep(cfg, ph, s, r, line, now, s')
       case FromWire(st, line, now) =>
         && OldestOwed(cfg, ph, s, st, line)
         && exists mid ::
              && LineStep(cfg, ph, s, st.recipient, line, now, mid)
              && s' == mid.(wire := mid.wire[st := mid.wire[st][1..]])
  }

  // ---------------------------------------------------------------- safety for any lines

  ghost predicate SentBelow(ph: Phase, s: Sys) {
    forall i: nat, q: nat :: i < |s.pos| ==> (Message(ph.name, i, q) in s.ledger.sent <==> q < s.pos[i])
  }

  /** No sender is more than the window ahead of any of its recipients. */
  ghost predicate WindowHolds(ph: Phase, s: Sys) {
    forall st :: st in s.ledger.next && st.phase == ph.name && st.sender < |s.pos| ==>
      s.ledger.next[st] <= s.pos[st.sender] <= s.ledger.next[st] + ph.window
  }

  /** What a parked task waits for has not happened. */
  ghost predicate Waits(cfg: Fanout, ph: Phase, s: Sys, t: Task)
    requires Registered(cfg, ph, s)
  {
    match t
    case SenderTask(i) => i < cfg.clients && s.pos[i] < ph.count && !HasCredit(cfg, ph, s, i)
    case FinishTask => s.finish == Open && !Complete(cfg, s.ledger, ph.name)
  }

  /** No lost wakeup; and the finisher starts after the senders and ends with the phase. */
  ghost predicate ParkedWait(cfg: Fanout, ph: Phase, s: Sys)
    requires Registered(cfg, ph, s)
  {
    && (forall t :: Asleep(s, t) ==> Waits(cfg, ph, s, t))
    && (s.finish == Done ==> Complete(cfg, s.ledger, ph.name))
    && (s.finish != Idle ==> AllSent(ph, s))
  }

  ghost predicate Inv(cfg: Fanout, ph: Phase, s: Sys) {
    && Registered(cfg, ph, s)
    && (forall i :: 0 <= i < |s.pos| ==> s.pos[i] <= ph.count)
    && SentBelow(ph, s) && WindowHolds(ph, s) && ParkedWait(cfg, ph, s)
  }

  /** The phase has just been registered and nothing has been authored for it. */
  ghost predicate Start(cfg: Fanout, ph: Phase, s: Sys) {
    && Registered(cfg, ph, s)
    && (forall m :: m in s.ledger.sent ==> m.phase != ph.name)
    && s.pos == seq(cfg.clients, _ => 0) && s.event.waiters == {} && s.finish == Idle
    && s.wire == map st | st in s.ledger.next && st.phase == ph.name :: []
  }

  lemma {:induction false} NothingAccepted(l: Ledger, st: Stream)
    requires OnlyAuthored(l) && st in l.next && forall m :: m in l.sent ==> m.phase != st.phase
    ensures l.next[st] == 0
  {
    var first := Message(st.phase, st.sender, 0);
    assert first !in l.sent;
  }

  lemma {:induction false} StartIsSafe(cfg: Fanout, ph: Phase, s: Sys)
    requires Start(cfg, ph, s)
    ensures Inv(cfg, ph, s)
  {
    forall st | st in s.ledger.next && st.phase == ph.name ensures s.ledger.next[st] == 0 {
      NothingAccepted(s.ledger, st);
    }
  }

  lemma {:induction false} AuthorKeeps(cfg: Fanout, ph: Phase, s: Sys, i: nat, now: int, s': Sys)
    requires Strict(cfg) && Inv(cfg, ph, s) && SenderStep(cfg, ph, s, i, now, s') && HasCredit(cfg, ph, s, i)
    ensures Inv(cfg, ph, s')
  {
    hide Segment;
    SenderStepIs(cfg, ph, s, i, now, s');
    AuthoredKeeps(cfg, s.ledger, ph.name, i, s.pos[i], now);
    assert s'.ledger.next == s.ledger.next;
    assert s'.ledger.sent == s.ledger.sent[Message(ph.name, i, s.pos[i]) := now];
    assert WindowHolds(ph, s') by {
      forall st | st in s'.ledger.next && st.phase == ph.name && st.sender < |s'.pos|
        ensures s'.ledger.next[st] <= s'.pos[st.sender] <= s'.ledger.next[st] + ph.window
      {
        if st.sender == i {
          assert st == Stream(ph.name, i, st.recipient);
        }
      }
    }
    forall t | Asleep(s', t) ensures Waits(cfg, ph, s', t) {
      assert Waits(cfg, ph, s, t);
    }
  }

  lemma {:induction false} SenderKeeps(cfg: Fanout, ph: Phase, s: Sys, i: nat, now: int, s': Sys)
    requires Strict(cfg) && Inv(cfg, ph, s) && SenderStep(cfg, ph, s, i, now, s')
    ensures Inv(cfg, ph, s')
  {
    hide Segment;
    SenderStepIs(cfg, ph, s, i, now, s');
    if HasCredit(cfg, ph, s, i) {
      AuthorKeeps(cfg, ph, s, i, now, s');
    } else {
      SleepKeeps(cfg, ph, s, SenderTask(i));
    }
  }

  /** A task may go to sleep on what has not happened. */
  lemma {:induction false} SleepKeeps(cfg: Fanout, ph: Phase, s: Sys, t: Task)
    requires Inv(cfg, ph, s) && Waits(cfg, ph, s, t)
    ensures Inv(cfg, ph, Sleeps(s, t))
  {
    var s' := Sleeps(s, t);
    forall u | Asleep(s', u) ensures Waits(cfg, ph, s', u) {
      assert Waits(cfg, ph, s, u);
    }
  }

  /** The next message of a stream may be counted. */
  ghost predicate Due(l: Ledger, st: Stream) {
    && st in l.next && st.phase in l.counts && st.phase in l.received && st.phase in l.latencies
    && l.next[st] < l.counts[st.phase] && Message(st.phase, st.sender, l.next[st]) in l.sent
  }

  lemma {:induction false} AcceptKeepsWindow(ph: Phase, s: Sys, st: Stream, now: int)
    requires SentBelow(ph, s) && WindowHolds(ph, s) && Due(s.ledger, st)
    ensures WindowHolds(ph, s.(ledger := Accept(s.ledger, st, s.ledger.next[st], now)))
  {
    if st.phase == ph.name && st.sender < |s.pos| {
      assert Message(ph.name, st.sender, s.ledger.next[st]) in s.ledger.sent;
    }
  }

  /** Accepting moves one counter up and registers, authors and drops nothing. */
  lemma {:induction false} AcceptGrows(l: Ledger, st: Stream, now: int)
    requires Due(l, st)
    ensures var l' := Accept(l, st, l.next[st], now);
            && l'.counts == l.counts && l'.sent == l.sent && l'.next.Keys == l.next.Keys
            && forall other :: other in l.next ==> l.next[other] <= l'.next[other]
  {}

  lemma {:induction false} AcceptStepKeeps(cfg: Fanout, ph: Phase, s: Sys, st: Stream, now: int)
    requires Inv(cfg, ph, s) && Due(s.ledger, st)
    ensures Inv(cfg, ph, Wake(s.(ledger := Accept(s.ledger, st, s.ledger.next[st], now))))
  {
    var l := Accept(s.ledger, st, s.ledger.next[st], now);
    var s' := Wake(s.(ledger := l));
    AcceptGrows(s.ledger, st, now);
    hide Sound, Complete, Credit, Shaped, Accept;
    AcceptKeeps(cfg, s.ledger, st, now);
    AcceptKeepsWindow(ph, s, st, now);
    assert WindowHolds(ph, s') && SentBelow(ph, s');
    hide WindowHolds, SentBelow, ParkedWait;
    WakeLeavesNoneParked(cfg, ph, s, l);
  }

  lemma {:induction false} WakeLeavesNoneParked(cfg: Fanout, ph: Phase, s: Sys, l: Ledger)
    requires Registered(cfg, ph, s) && ParkedWait(cfg, ph, s) && Sound(cfg, l)
    requires l.counts == s.ledger.counts && l.next.Keys == s.ledger.next.Keys
    requires forall st :: st in l.next ==> s.ledger.next[st] <= l.next[st]
    ensures Registered(cfg, ph, Wake(s.(ledger := l))) && ParkedWait(cfg, ph, Wake(s.(ledger := l)))
  {
    CompleteLasts(cfg, ph, s.ledger, l);
  }

  /** Once complete, a phase stays complete: its streams are at their maximum. */
  lemma {:induction false} CompleteLasts(cfg: Fanout, ph: Phase, l: Ledger, l': Ledger)
    requires Sound(cfg, l) && Sound(cfg, l') && ph.name in l.counts && l'.counts == l.counts
        && l'.next.Keys == l.next.Keys
    requires forall st :: st in l.next ==> l.next[st] <= l'.next[st]
    ensures Complete(cfg, l, ph.name) ==> Complete(cfg, l', ph.name)
  {
    CompleteMeansAll(cfg, l, ph.name);
    CompleteMeansAll(cfg, l', ph.name);
  }

  lemma {:induction false} LineKeeps(cfg: Fanout, ph: Phase, s: Sys, recipient: nat, line: string, now: int, s': Sys)
    requires Strict(cfg) && Inv(cfg, ph, s) && LineStep(cfg, ph, s, recipient, line, now, s')
    ensures Inv(cfg, ph, s')
  {
    var a := Verdict(cfg, s.ledger, recipient, line);
    if a.Accepted? {
      VerdictAccepts(cfg, s.ledger, recipient, line);
      AcceptStepKeeps(cfg, ph, s, a.stream, now);
    }
  }

  lemma {:induction false} WireIsFree(cfg: Fanout, ph: Phase, s: Sys, wire: map<Stream, seq<nat>>)
    requires Inv(cfg, ph, s)
    ensures Inv(cfg, ph, s.(wire := wire))
  {
    var s' := s.(wire := wire);
    forall t | Asleep(s', t) ensures Waits(cfg, ph, s', t) {
      assert Waits(cfg, ph, s, t);
    }
  }

  lemma {:induction false} FinishKeeps(cfg: Fanout, ph: Phase, s: Sys, s': Sys)
    requires Inv(cfg, ph, s) && FinishStep(cfg, ph, s, s')
    ensures Inv(cfg, ph, s')
  {
    hide Segment;
    FinishStepIs(cfg, ph, s, s');
    if Complete(cfg, s.ledger, ph.name) {
      forall t | Asleep(s', t) ensures Waits(cfg, ph, s', t) {
        assert Waits(cfg, ph, s, t);
      }
    } else {
      SleepKeeps(cfg, ph, s, FinishTask);
    }
  }

  lemma {:induction false} BeginKeeps(cfg: Fanout, ph: Phase, s: Sys)
    requires Inv(cfg, ph, s) && AllSent(ph, s) && s.finish == Idle
    ensures Inv(cfg, ph, s.(finish := Open))
  {
    var s' := s.(finish := Open);
    forall t | Asleep(s', t) ensures Waits(cfg, ph, s', t) {
      assert Waits(cfg, ph, s, t);
    }
  }

  /** Every step keeps the window, the authorship and the parking discipline, whatever line arrives. */
  lemma {:induction false} NextKeeps(cfg: Fanout, ph: Phase, s: Sys, a: Action, s': Sys)
    requires Strict(cfg) && Inv(cfg, ph, s) && Next(cfg, ph, s, a, s')
    ensures Inv(cfg, ph, s')
  {
    hide Segment;
    match a
    case Sender(i, now) => SenderKeeps(cfg, ph, s, i, now, s');
    case Begin => BeginKeeps(cfg, ph, s);
    case Finish => FinishKeeps(cfg, ph, s, s');
    case Line(r, line, now) => LineKeeps(cfg, ph, s, r, line, now, s');
    case FromWire(st, line, now) =>
      var mid :| LineStep(cfg, ph, s, st.recipient, line, now, mid)
        && s' == mid.(wire := mid.wire[st := mid.wire[st][1..]]);
      LineKeeps(cfg, ph, s, st.recipient, line, now, mid);
      WireIsFree(cfg, ph, mid, s'.wire);
  }

  ghost predicate StepAt(cfg: Fanout, ph: Phase, states: seq<Sys>, actions: seq<Action>, k: nat)
    requires Strict(cfg)
  {
    k < |actions| && k + 1 < |states| && Next(cfg, ph, states[k], actions[k], states[k + 1])
  }

  /** A run: one action between each state and the next. */
  ghost predicate IsRun(cfg: Fanout, ph: Phase, states: seq<Sys>, actions: seq<Action>)
    requires Strict(cfg)
  {
    && |states| == |actions| + 1
    && Start(cfg, ph, states[0])
    && forall k: nat :: k < |actions| ==> StepAt(cfg, ph, states, actions, k)
  }

  lemma {:induction false} RunsAreSafe(cfg: Fanout, ph: Phase, states: seq<Sys>, actions: seq<Action>, k: nat)
    requires Strict(cfg) && IsRun(cfg, ph, states, actions) && k < |states|
    ensures Inv(cfg, ph, states[k])
    decreases k
  {
    if k == 0 {
      StartIsSafe(cfg, ph, states[0]);
    } else {
      var j := k - 1;
      RunsAreSafe(cfg, ph, states, actions, j);
      assert StepAt(cfg, ph, states, actions, j);
      assert states[j + 1] == states[k];
      NextKeeps(cfg, ph, states[j], actions[j], states[k]);
    }
  }

  // ---------------------------------------------------------------- reliable streams

  /** The stream owes exactly what was authored and not yet accepted, oldest first. */
  ghost predicate OwesExact(s: Sys, st: Stream)
    requires st in s.wire
  {
    && st in s.ledger.next && st.sender < |s.pos| && s.ledger.next[st] <= s.pos[st.sender]
    && s.wire[st] == Range(s.ledger.next[st], s.pos[st.sender])
  }

  ghost predicate WireExact(ph: Phase, s: Sys) {
    && (forall st :: st in s.wire <==> st in s.ledger.next && st.phase == ph.name)
    && forall st :: st in s.wire ==> OwesExact(s, st)
  }

  /** Actions of a network that neither loses, repeats nor reorders: no foreign lines. */
  ghost predicate Reliable(a: Action) { !a.Line? }

  lemma {:induction false} StartIsExact(cfg: Fanout, ph: Phase, s: Sys)
    requires Start(cfg, ph, s)
    ensures WireExact(ph, s)
  {
    forall st | st in s.wire ensures s.ledger.next[st] == 0 {
      NothingAccepted(s.ledger, st);
    }
  }

  /** The oldest owed message is always accepted. */
  lemma {:induction false} OwedIsAccepted(cfg: Fanout, ph: Phase, s: Sys, st: Stream, line: string)
    requires Strict(cfg) && Inv(cfg, ph, s) && WireExact(ph, s) && OldestOwed(cfg, ph, s, st, line)
    ensures Due(s.ledger, st)
    ensures Verdict(cfg, s.ledger, st.recipient, line) == Accepted(st, s.ledger.next[st])
  {
    assert s.wire[st][0] == s.ledger.next[st] < s.pos[st.sender];
    assert Message(ph.name, st.sender, s.ledger.next[st]) in s.ledger.sent;
  }

  /** The state after the oldest owed message of a stream arrives. */
  ghost function Arrived(s: Sys, st: Stream, now: int): Sys
    requires Due(s.ledger, st) && st in s.wire && s.wire[st] != []
  {
    Wake(s.(ledger := Accept(s.ledger, st, s.ledger.next[st], now), wire := s.wire[st := s.wire[st][1..]]))
  }

  lemma {:induction false} FromWireArrives(cfg: Fanout, ph: Phase, s: Sys, st: Stream, line: string, now: int, s': Sys)
    requires Strict(cfg) && Inv(cfg, ph, s) && WireExact(ph, s) && Next(cfg, ph, s, FromWire(st, line, now), s')
    ensures Due(s.ledger, st) && s' == Arrived(s, st, now)
  {
    OwedIsAccepted(cfg, ph, s, st, line);
    var mid :| LineStep(cfg, ph, s, st.recipient, line, now, mid)
      && s' == mid.(wire := mid.wire[st := mid.wire[st][1..]]);
  }

  lemma {:induction false} RangeTail(lo: nat, hi: nat)
    requires lo < hi
    ensures Range(lo, hi)[1..] == Range(lo + 1, hi)
  {}

  lemma {:induction false} ArrivedIsExact(cfg: Fanout, ph: Phase, s: Sys, st: Stream, now: int)
    requires WireExact(ph, s) && Due(s.ledger, st) && st in s.wire && s.wire[st] != []
    ensures WireExact(ph, Arrived(s, st, now))
  {
    var s' := Arrived(s, st, now);
    assert OwesExact(s, st);
    RangeTail(s.ledger.next[st], s.pos[st.sender]);
    hide Range;
    forall other | other in s'.wire ensures OwesExact(s', other) {
      assert OwesExact(s, other);
    }
  }

  lemma {:induction false} RangeGrows(lo: nat, hi: nat)
    requires lo <= hi
    ensures Range(lo, hi) + [hi] == Range(lo, hi + 1)
  {}

  lemma {:induction false} PushIsExact(ph: Phase, s: Sys, i: nat, s': Sys)
    requires WireExact(ph, s) && i < |s.pos|
    requires s'.ledger.next == s.ledger.next && s'.pos == s.pos[i := s.pos[i] + 1]
        && s'.wire == Push(s.wire, ph.name, i, s.pos[i])
    ensures WireExact(ph, s')
  {
    hide Range;
    forall st | st in s'.wire ensures OwesExact(s', st) {
      assert OwesExact(s, st);
      RangeGrows(s.ledger.next[st], s.pos[st.sender]);
    }
  }

  /** A step that leaves ledger counters, positions and channels alone keeps them exact. */
  lemma {:induction false} ExactStays(ph: Phase, s: Sys, s': Sys)
    requires WireExact(ph, s) && s'.ledger.next == s.ledger.next && s'.pos == s.pos && s'.wire == s.wire
    ensures WireExact(ph, s')
  {
    hide Range;
    forall st | st in s'.wire ensures OwesExact(s', st) {
      assert OwesExact(s, st);
    }
  }

  lemma {:induction false} ReliableKeeps(cfg: Fanout, ph: Phase, s: Sys, a: Action, s': Sys)
    requires Strict(cfg) && Inv(cfg, ph, s) && WireExact(ph, s) && Reliable(a) && Next(cfg, ph, s, a, s')
    ensures WireExact(ph, s')
  {
    hide Segment, WireExact, LineStep, Verdict;
    match a
    case Sender(i, now) =>
      SenderStepIs(cfg, ph, s, i, now, s');
      if HasCredit(cfg, ph, s, i) { PushIsExact(ph, s, i, s'); } else { ExactStays(ph, s, s'); }
    case Begin => ExactStays(ph, s, s');
    case Finish =>
      FinishStepIs(cfg, ph, s, s');
      ExactStays(ph, s, s');
    case FromWire(st, line, now) =>
      FromWireArrives(cfg, ph, s, st, line, now, s');
      ArrivedIsExact(cfg, ph, s, st, now);
  }
}
