/**
 What the ledger of tools/bench_live.py holds after a run, told from the events alone: which
 runs raise, and for those that do not every field, latencies included.
 */
module LedgerHistory {
  import opened Options
  import opened PhasePayload
  import opened DeliveryLedgers

  // ---------------------------------------------------------------- told from the events

  /** The phases registered so far, with their counts. */
  ghost function PhasesOf(events: seq<Event>): map<string, nat> {
    if events == [] then map[]
    else
      var n := |events| - 1;
      var before := PhasesOf(events[..n]);
      if events[n].Registers? then before[events[n].phase := events[n].count] else before
  }

  predicate Writes(e: Event, m: Message) { e.Authors? && m == Message(e.phase, e.sender, e.sequence) }

  /** When a message was authored, zero if it never was. */
  ghost function StampOf(events: seq<Event>, m: Message): int {
    if events == [] then 0
    else
      var n := |events| - 1;
      if Writes(events[n], m) then events[n].now else StampOf(events[..n], m)
  }

  /** The event hands a message of the stream to its recipient, after those events. */
  ghost predicate Brings(cfg: Fanout, before: seq<Event>, e: Event, st: Stream) {
    && e.Delivers? && e.recipient == st.recipient
    && var c := cfg.identify(PhasesOf(before), e.recipient, e.line);
       c.Claim? && c.phase == st.phase && c.sender == st.sender
  }

  /** How many messages of the stream were handed over. */
  ghost function HandedOver(cfg: Fanout, events: seq<Event>, st: Stream): nat {
    if events == [] then 0
    else
      var n := |events| - 1;
      HandedOver(cfg, events[..n], st) + if Brings(cfg, events[..n], events[n], st) then 1 else 0
  }

  /** Delivery time minus authoring time, one entry per delivery of the phase, in the order of the deliveries. */
  ghost function DelaysOf(cfg: Fanout, events: seq<Event>, phase: string): seq<int> {
    if events == [] then []
    else
      var n := |events| - 1;
      var before, e := DelaysOf(cfg, events[..n], phase), events[n];
      if e.Delivers? then
        var c := cfg.identify(PhasesOf(events[..n]), e.recipient, e.line);
        if c.Claim? && c.phase == phase
        then before + [e.now - StampOf(events[..n], Message(c.phase, c.sender, c.sequence))]
        else before
      else before
  }

  /** The last event may happen after the others. */
  ghost predicate Allowed(cfg: Fanout, before: seq<Event>, e: Event) {
    match e
    case Registers(phase, _) => phase !in PhasesOf(before)
    case Authors(phase, sender, sequence, _) => !HasAuthored(before, Message(phase, sender, sequence))
    case Delivers(r, line, _) =>
      && r < cfg.clients
      && match cfg.identify(PhasesOf(before), r, line)
         case NotPrivmsg => true
         case Refused(_) => false
         case Claim(p, s, q) => q == HandedOver(cfg, before, Stream(p, s, r)) && HasAuthored(before, Message(p, s, q))
  }

  /** Phases are registered once, messages authored once, streams delivered in order and only what was authored. */
  ghost predicate Lawful(cfg: Fanout, events: seq<Event>) {
    forall i :: 0 <= i < |events| ==> Allowed(cfg, events[..i], events[i])
  }

  // ---------------------------------------------------------------- the ledger agrees

  ghost predicate TellsStamps(events: seq<Event>, sent: map<Message, int>) {
    && (forall m :: m in sent <==> HasAuthored(events, m))
    && (forall m :: m in sent ==> sent[m] == StampOf(events, m))
  }

  ghost predicate TellsStreams(cfg: Fanout, events: seq<Event>, next: map<Stream, nat>) {
    forall st :: NextOf(next, st) == HandedOver(cfg, events, st)
  }

  /** What the ledger keeps of one phase. */
  ghost predicate TellsPhase(cfg: Fanout, events: seq<Event>, l: Ledger, p: string) {
    var delays := DelaysOf(cfg, events, p);
    if p in l.counts
    then p in l.latencies && p in l.received && l.latencies[p] == delays && l.received[p] == |delays|
    else p !in l.latencies && p !in l.received && delays == []
  }

  /** The ledger holds what the events tell. */
  ghost predicate Tells(cfg: Fanout, events: seq<Event>, l: Ledger) {
    && l.counts == PhasesOf(events)
    && TellsStamps(events, l.sent)
    && TellsStreams(cfg, events, l.next)
    && forall p :: TellsPhase(cfg, events, l, p)
  }

  lemma {:induction false} LawfulSnoc(cfg: Fanout, events: seq<Event>)
    requires events != []
    ensures var n := |events| - 1;
            Lawful(cfg, events) <==> Lawful(cfg, events[..n]) && Allowed(cfg, events[..n], events[n])
  {
    hide Allowed;
    var n := |events| - 1;
    forall i | 0 <= i < n ensures events[..n][i] == events[i] && events[..n][..i] == events[..i] {}
    if Lawful(cfg, events) {
      forall i | 0 <= i < n ensures Allowed(cfg, events[..n][..i], events[..n][i]) {
        assert Allowed(cfg, events[..i], events[i]);
      }
    }
    if Lawful(cfg, events[..n]) && Allowed(cfg, events[..n], events[n]) {
      forall i | 0 <= i < |events| ensures Allowed(cfg, events[..i], events[i]) {
        if i < n { assert Allowed(cfg, events[..n][..i], events[..n][i]); }
      }
    }
  }

  // One more event, function by function.

  lemma {:induction false} PhasesSnoc(events: seq<Event>, e: Event)
    ensures PhasesOf(events + [e]) == if e.Registers? then PhasesOf(events)[e.phase := e.count] else PhasesOf(events)
  {
    assert (events + [e])[..|events|] == events;
  }

  lemma {:induction false} StampSnoc(events: seq<Event>, e: Event, m: Message)
    ensures StampOf(events + [e], m) == if Writes(e, m) then e.now else StampOf(events, m)
  {
    assert (events + [e])[..|events|] == events;
  }

  lemma {:induction false} WrittenSnoc(events: seq<Event>, e: Event, m: Message)
    ensures HasAuthored(events + [e], m) <==> HasAuthored(events, m) || Writes(e, m)
  {
    assert (events + [e])[..|events|] == events;
    AuthoredSnoc(events + [e], m);
  }

  lemma {:induction false} HandedSnoc(cfg: Fanout, events: seq<Event>, e: Event, st: Stream)
    ensures HandedOver(cfg, events + [e], st)
         == HandedOver(cfg, events, st) + if Brings(cfg, events, e, st) then 1 else 0
  {
    hide Brings;
    assert (events + [e])[..|events|] == events;
  }

  /** What one event adds to the delays of a phase. */
  ghost function Delay(cfg: Fanout, events: seq<Event>, e: Event, phase: string): seq<int> {
    if e.Delivers? then
      var c := cfg.identify(PhasesOf(events), e.recipient, e.line);
      if c.Claim? && c.phase == phase then [e.now - StampOf(events, Message(c.phase, c.sender, c.sequence))] else []
    else []
  }

  lemma {:induction false} DelaysSnoc(cfg: Fanout, events: seq<Event>, e: Event, phase: string)
    ensures DelaysOf(cfg, events + [e], phase) == DelaysOf(cfg, events, phase) + Delay(cfg, events, e, phase)
  {
    assert (events + [e])[..|events|] == events;
  }

  lemma {:induction false} StampsTell(events: seq<Event>, e: Event, sent: map<Message, int>, sent': map<Message, int>)
    requires TellsStamps(events, sent)
    requires sent' == if e.Authors? then sent[Message(e.phase, e.sender, e.sequence) := e.now] else sent
    ensures TellsStamps(events + [e], sent')
  {
    hide HasAuthored, StampOf;
    forall m ensures m in sent' <==> HasAuthored(events + [e], m) { WrittenSnoc(events, e, m); }
    forall m | m in sent' ensures sent'[m] == StampOf(events + [e], m) { StampSnoc(events, e, m); }
  }

  lemma {:induction false} StreamsTell(cfg: Fanout, events: seq<Event>, e: Event,
      next: map<Stream, nat>, next': map<Stream, nat>)
    requires TellsStreams(cfg, events, next)
    requires forall st :: NextOf(next', st) == NextOf(next, st) + if Brings(cfg, events, e, st) then 1 else 0
    ensures TellsStreams(cfg, events + [e], next')
  {
    hide HandedOver, Brings, NextOf;
    forall st ensures NextOf(next', st) == HandedOver(cfg, events + [e], st) { HandedSnoc(cfg, events, e, st); }
  }

  /** What one more event does to one phase. */
  lemma {:induction false} PhaseTells(cfg: Fanout, events: seq<Event>, e: Event, l: Ledger, l': Ledger, p: string)
    requires TellsPhase(cfg, events, l, p)
    requires p in l'.counts <==> p in l'.latencies
    requires p in l'.counts <==> p in l'.received
    requires var more := Delay(cfg, events, e, p);
             if p in l'.counts
             then && l'.latencies[p] == (if p in l.latencies then l.latencies[p] else []) + more
                  && l'.received[p] == (if p in l.received then l.received[p] else 0) + |more|
             else p !in l.counts && more == []
    ensures TellsPhase(cfg, events + [e], l', p)
  {
    hide DelaysOf, Delay;
    DelaysSnoc(cfg, events, e, p);
  }

  lemma {:induction false} RegisterTells(cfg: Fanout, events: seq<Event>, l: Ledger, e: Event)
    requires Strict(cfg) && Sound(cfg, l) && Tells(cfg, events, l) && e.Registers? && Step(cfg, l, e).Some?
    ensures Tells(cfg, events + [e], Step(cfg, l, e).value)
  {
    var l' := Step(cfg, l, e).value;
    assert l'.sent == l.sent && l'.counts == l.counts[e.phase := e.count];
    assert l'.latencies == l.latencies[e.phase := []] && l'.received == l.received[e.phase := 0];
    forall st ensures NextOf(l'.next, st) == NextOf(l.next, st) { RegisterCounts(cfg, l, e.phase, e.count, st); }
    assert e.phase !in l.counts;
    hide PhasesOf, TellsStamps, TellsStreams, TellsPhase, NextOf, Sound, Strict, Step;
    PhasesSnoc(events, e);
    StampsTell(events, e, l.sent, l'.sent);
    StreamsTell(cfg, events, e, l.next, l'.next);
    forall p ensures TellsPhase(cfg, events + [e], l', p) {
      PhaseHas(cfg, events, l, p);
      PhaseTells(cfg, events, e, l, l', p);
    }
  }

  lemma {:induction false} PhaseHas(cfg: Fanout, events: seq<Event>, l: Ledger, p: string)
    requires TellsPhase(cfg, events, l, p)
    ensures (p in l.counts <==> p in l.latencies) && (p in l.counts <==> p in l.received)
  {}

  /** An event that only touches the stamps. */
  lemma {:induction false} QuietTells(cfg: Fanout, events: seq<Event>, l: Ledger, e: Event, sent: map<Message, int>)
    requires Tells(cfg, events, l) && !e.Registers?
    requires !e.Delivers? || !cfg.identify(PhasesOf(events), e.recipient, e.line).Claim?
    requires sent == if e.Authors? then l.sent[Message(e.phase, e.sender, e.sequence) := e.now] else l.sent
    ensures Tells(cfg, events + [e], l.(sent := sent))
  {
    var l' := l.(sent := sent);
    hide PhasesOf, TellsStamps, TellsStreams, TellsPhase, NextOf;
    PhasesSnoc(events, e);
    StampsTell(events, e, l.sent, sent);
    StreamsTell(cfg, events, e, l.next, l'.next);
    forall p ensures TellsPhase(cfg, events + [e], l', p) {
      PhaseHas(cfg, events, l, p);
      PhaseTells(cfg, events, e, l, l', p);
    }
  }

  lemma {:induction false} AuthorTells(cfg: Fanout, events: seq<Event>, l: Ledger, e: Event)
    requires Strict(cfg) && Sound(cfg, l) && Tells(cfg, events, l) && e.Authors? && Step(cfg, l, e).Some?
    ensures Tells(cfg, events + [e], Step(cfg, l, e).value)
  {
    hide Tells;
    QuietTells(cfg, events, l, e, l.sent[Message(e.phase, e.sender, e.sequence) := e.now]);
  }

  /** A counted delivery: its stream moves on by one, and its delay is added to its phase. */
  lemma {:induction false} AcceptTells(cfg: Fanout, events: seq<Event>, l: Ledger, e: Event, st: Stream, q: nat)
    requires Shaped(cfg, l) && Tells(cfg, events, l) && e.Delivers? && e.recipient == st.recipient
    requires cfg.identify(PhasesOf(events), e.recipient, e.line) == Claim(st.phase, st.sender, q)
    requires st in l.next && Message(st.phase, st.sender, q) in l.sent
    ensures Tells(cfg, events + [e], Accept(l, st, q, e.now))
  {
    var l' := Accept(l, st, q, e.now);
    var m := Message(st.phase, st.sender, q);
    hide PhasesOf, HandedOver, DelaysOf, HasAuthored, Shaped, StampOf;
    assert l.sent[m] == StampOf(events, m);
    forall other ensures NextOf(l'.next, other) == NextOf(l.next, other) + if Brings(cfg, events, e, other) then
      1 else 0 {}
    hide TellsStamps, TellsStreams, TellsPhase, NextOf, Brings;
    PhasesSnoc(events, e);
    StampsTell(events, e, l.sent, l'.sent);
    StreamsTell(cfg, events, e, l.next, l'.next);
    forall p ensures TellsPhase(cfg, events + [e], l', p) {
      PhaseHas(cfg, events, l, p);
      PhaseTells(cfg, events, e, l, l', p);
    }
  }

  lemma {:induction false} DeliverTells(cfg: Fanout, events: seq<Event>, l: Ledger, e: Event)
    requires Strict(cfg) && Sound(cfg, l) && Tells(cfg, events, l) && e.Delivers? && Step(cfg, l, e).Some?
    ensures Tells(cfg, events + [e], Step(cfg, l, e).value)
  {
    var c := cfg.identify(l.counts, e.recipient, e.line);
    assert ClaimFits(cfg.clients, l.counts, e.recipient, c);
    assert l.counts == PhasesOf(events);
    hide Tells, PhasesOf, Strict, Accept;
    if c.Claim? {
      AcceptTells(cfg, events, l, e, Stream(c.phase, c.sender, e.recipient), c.sequence);
    } else {
      QuietTells(cfg, events, l, e, l.sent);
    }
  }

  /** An event is taken exactly when it is allowed. */
  lemma {:induction false} TakenIfAllowed(cfg: Fanout, events: seq<Event>, l: Ledger, e: Event)
    requires Strict(cfg) && Sound(cfg, l) && Tells(cfg, events, l)
    ensures Step(cfg, l, e).Some? <==> Allowed(cfg, events, e)
  {
    hide HandedOver, DelaysOf, PhasesOf, HasAuthored, TellsPhase;
    if e.Delivers? && e.recipient < cfg.clients {
      var c := cfg.identify(l.counts, e.recipient, e.line);
      assert ClaimFits(cfg.clients, l.counts, e.recipient, c);
      if c.Claim? {
        var st := Stream(c.phase, c.sender, e.recipient);
        assert NextOf(l.next, st) == HandedOver(cfg, events, st);
        assert st in l.next;
      }
    }
  }

  /** The empty ledger tells of no events. */
  lemma {:induction false} NothingToTell(cfg: Fanout)
    ensures Tells(cfg, [], Empty)
  {}

  /** A run raises nothing exactly when it is lawful, and then the ledger holds what the events tell. */
  lemma {:induction false} RunExactly(cfg: Fanout, events: seq<Event>)
    requires Strict(cfg)
    ensures Run(cfg, events).Some? <==> Lawful(cfg, events)
    ensures Run(cfg, events).Some? ==> Tells(cfg, events, Run(cfg, events).value)
  {
    hide Tells, Allowed, Step, Sound;
    if events == [] {
      NothingToTell(cfg);
    } else {
      var n := |events| - 1;
      var front, e := events[..n], events[n];
      assert events == front + [e];
      RunExactly(cfg, front);
      LawfulSnoc(cfg, events);
      hide Lawful;
      if Run(cfg, front).Some? {
        var l := Run(cfg, front).value;
        TakenIfAllowed(cfg, front, l, e);
        if Step(cfg, l, e).Some? {
          match e
          case Registers(_, _) => RegisterTells(cfg, front, l, e);
          case Authors(_, _, _, _) => AuthorTells(cfg, front, l, e);
          case Delivers(_, _, _) => DeliverTells(cfg, front, l, e);
        }
      }
    }
  }

  /** In a lawful run the stamp of a message is the time of the one event that authored it. */
  lemma {:induction false} StampIsAuthoring(cfg: Fanout, events: seq<Event>, i: nat)
    requires Lawful(cfg, events) && i < |events| && events[i].Authors?
    ensures StampOf(events, Message(events[i].phase, events[i].sender, events[i].sequence)) == events[i].now
  {
    var n := |events| - 1;
    if i < n {
      var m := Message(events[i].phase, events[i].sender, events[i].sequence);
      LawfulSnoc(cfg, events);
      assert events[..n][i] == events[i];
      StampIsAuthoring(cfg, events[..n], i);
      assert Allowed(cfg, events[..n], events[n]);
      assert HasAuthored(events[..n], m);
    }
  }

  /** After any run that raises nothing, every latency of every phase is its delivery's delay, in order. */
  lemma {:induction false} LatenciesAreExact(cfg: Fanout, events: seq<Event>, p: string)
    requires Strict(cfg) && Run(cfg, events).Some? && p in Run(cfg, events).value.counts
    ensures p in Run(cfg, events).value.latencies
    ensures Run(cfg, events).value.latencies[p] == DelaysOf(cfg, events, p)
  {
    hide Run, Strict, DelaysOf, TellsStamps, TellsStreams, PhasesOf, Lawful;
    RunExactly(cfg, events);
    assert TellsPhase(cfg, events, Run(cfg, events).value, p);
  }

  lemma {:induction false} WasAuthored(events: seq<Event>, i: nat)
    requires i < |events| && events[i].Authors?
    ensures HasAuthored(events, Message(events[i].phase, events[i].sender, events[i].sequence))
  {}

  /** And every message is stamped with the time of the event that authored it. */
  lemma {:induction false} StampsAreExact(cfg: Fanout, events: seq<Event>, i: nat)
    requires Strict(cfg) && Run(cfg, events).Some? && i < |events| && events[i].Authors?
    ensures var m := Message(events[i].phase, events[i].sender, events[i].sequence);
            m in Run(cfg, events).value.sent && Run(cfg, events).value.sent[m] == events[i].now
  {
    hide Run, Strict, TellsPhase, TellsStreams, PhasesOf, Lawful, HasAuthored, StampOf;
    RunExactly(cfg, events);
    StampIsAuthoring(cfg, events, i);
    WasAuthored(events, i);
    assert TellsStamps(events, Run(cfg, events).value.sent);
  }
}
