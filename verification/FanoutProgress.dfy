/**
 Progress of a credit-controlled phase over reliable streams: no reachable state is stuck
 before `finish` has seen the phase complete, and every run is finite.
 */
module FanoutProgress {
  import opened Decimal
  import opened PhasePayload
  import opened DeliveryLedgers
  import opened PhaseWait
  import opened FanoutRun
  import Sums

  // ---------------------------------------------------------------- never stuck

  /** Some line that the ledger will read as message `q` of the stream. */
  ghost predicate Renders(cfg: Fanout, ph: Phase, s: Sys, render: (Stream, nat) -> string) {
    forall st, q: nat :: st in s.ledger.next && st.phase == ph.name && q < ph.count ==>
      cfg.identify(s.ledger.counts, st.recipient, render(st, q)) == Claim(st.phase, st.sender, q)
  }

  ghost predicate Enabled(cfg: Fanout, ph: Phase, s: Sys, a: Action)
    requires Strict(cfg)
  {
    exists s' :: Next(cfg, ph, s, a, s')
  }

  lemma {:induction false} SenderCanRun(cfg: Fanout, ph: Phase, s: Sys, i: nat, now: int)
    requires Strict(cfg) && Inv(cfg, ph, s) && i < cfg.clients && s.pos[i] < ph.count && !Asleep(s, SenderTask(i))
    ensures Enabled(cfg, ph, s, Sender(i, now))
  {
    hide Segment;
    var s';
    if HasCredit(cfg, ph, s, i) {
      assert Message(ph.name, i, s.pos[i]) !in s.ledger.sent;
      s' := Sent(ph, s, i, Authored(s.ledger, ph.name, i, s.pos[i], now).value);
    } else {
      s' := Sleeps(s, SenderTask(i));
    }
    SenderStepIs(cfg, ph, s, i, now, s');
    assert Next(cfg, ph, s, Sender(i, now), s');
  }

  lemma {:induction false} WireCanDeliver(cfg: Fanout, ph: Phase, s: Sys, st: Stream, line: string, now: int)
    requires Strict(cfg) && Inv(cfg, ph, s) && WireExact(ph, s) && OldestOwed(cfg, ph, s, st, line)
    ensures Enabled(cfg, ph, s, FromWire(st, line, now))
  {
    OwedIsAccepted(cfg, ph, s, st, line);
    var mid := Wake(s.(ledger := Receive(cfg, s.ledger, st.recipient, line, now)));
    assert LineStep(cfg, ph, s, st.recipient, line, now, mid);
    var s' := mid.(wire := mid.wire[st := mid.wire[st][1..]]);
    assert Next(cfg, ph, s, FromWire(st, line, now), s');
  }

  /** With nothing owed, a sender that has not finished has credit, so it is not parked. */
  lemma {:induction false} NothingOwedMeansCredit(cfg: Fanout, ph: Phase, s: Sys, i: nat)
    requires Inv(cfg, ph, s) && WireExact(ph, s) && ph.window >= 1 && i < cfg.clients
    requires forall st :: st in s.wire ==> s.wire[st] == []
    ensures HasCredit(cfg, ph, s, i) && !Asleep(s, SenderTask(i))
  {
    assert Asleep(s, SenderTask(i)) ==> Waits(cfg, ph, s, SenderTask(i));
    forall r | 0 <= r < cfg.clients && r != i ensures s.ledger.next[Stream(ph.name, i, r)] == s.pos[i] {
      assert Stream(ph.name, i, r) in s.wire;
    }
  }

  lemma {:induction false} NothingOwedMeansComplete(cfg: Fanout, ph: Phase, s: Sys)
    requires Inv(cfg, ph, s) && WireExact(ph, s) && AllSent(ph, s)
    requires forall st :: st in s.wire ==> s.wire[st] == []
    ensures Complete(cfg, s.ledger, ph.name)
  {
    CompleteMeansAll(cfg, s.ledger, ph.name);
    forall st | st in s.ledger.next && st.phase == ph.name ensures s.ledger.next[st] == ph.count {
      assert st in s.wire;
    }
  }

  /** Sender `i` is awake, has something left to send and may send it. */
  ghost predicate CanSend(cfg: Fanout, ph: Phase, s: Sys, i: nat)
    requires Registered(cfg, ph, s)
  {
    i < cfg.clients && s.pos[i] < ph.count && !Asleep(s, SenderTask(i)) && HasCredit(cfg, ph, s, i)
  }

  /** Before the phase is complete, a message is on its way or a sender may send. */
  lemma {:induction false} WorkGoesOn(cfg: Fanout, ph: Phase, s: Sys)
    requires Inv(cfg, ph, s) && WireExact(ph, s) && ph.window >= 1 && !Complete(cfg, s.ledger, ph.name)
    ensures (exists st :: st in s.wire && s.wire[st] != []) || exists i :: CanSend(cfg, ph, s, i)
  {
    if forall st :: st in s.wire ==> s.wire[st] == [] {
      if i: nat :| i < cfg.clients && s.pos[i] < ph.count {
        NothingOwedMeansCredit(cfg, ph, s, i);
        assert CanSend(cfg, ph, s, i);
      } else {
        NothingOwedMeansComplete(cfg, ph, s);
      }
    }
  }

  /**
   Until `finish` is done, some reliable action is enabled, and it is real progress: a
   delivery, a send with credit, or the finisher once the phase is complete.
   */
  lemma {:induction false} NeverStuck(cfg: Fanout, ph: Phase, s: Sys, render: (Stream, nat) -> string, now: int)
      returns (a: Action)
    requires Strict(cfg) && Inv(cfg, ph, s) && WireExact(ph, s) && Renders(cfg, ph, s, render)
    requires ph.window >= 1 && s.finish != Done
    ensures Reliable(a) && Enabled(cfg, ph, s, a)
    ensures a.Sender? ==> CanSend(cfg, ph, s, a.i)
    ensures a.Begin? || a.Finish? ==> Complete(cfg, s.ledger, ph.name)
  {
    if st :| st in s.wire && s.wire[st] != [] {
      var line := render(st, s.wire[st][0]);
      WireCanDeliver(cfg, ph, s, st, line, now);
      a := FromWire(st, line, now);
    } else if i: nat :| i < cfg.clients && s.pos[i] < ph.count {
      NothingOwedMeansCredit(cfg, ph, s, i);
      SenderCanRun(cfg, ph, s, i, now);
      a := Sender(i, now);
    } else {
      NothingOwedMeansComplete(cfg, ph, s);
      a := FinisherCanRun(cfg, ph, s);
    }
  }

  lemma {:induction false} FinisherCanRun(cfg: Fanout, ph: Phase, s: Sys) returns (a: Action)
    requires Strict(cfg) && Inv(cfg, ph, s) && s.finish != Done
    requires AllSent(ph, s) && Complete(cfg, s.ledger, ph.name)
    ensures (a.Begin? || a.Finish?) && Enabled(cfg, ph, s, a)
  {
    hide Segment;
    if s.finish == Idle {
      assert Next(cfg, ph, s, Begin, s.(finish := Open));
      a := Begin;
    } else {
      assert Asleep(s, FinishTask) ==> Waits(cfg, ph, s, FinishTask);
      FinishStepIs(cfg, ph, s, s.(finish := Done));
      assert Next(cfg, ph, s, Finish, s.(finish := Done));
      a := Finish;
    }
  }

  // ---------------------------------------------------------------- every run ends

  function AwakeSenders(ph: Phase, s: Sys, k: nat): (r: nat)
    requires k <= |s.pos|
    ensures r <= k
  {
    if k == 0 then 0
    else AwakeSenders(ph, s, k - 1) + if s.pos[k - 1] < ph.count && !Asleep(s, SenderTask(k - 1)) then 1 else 0
  }

  function FinishRank(s: Sys): (r: nat)
    ensures r <= 2
  {
    match s.finish
    case Idle => 2
    case Open => if Asleep(s, FinishTask) then 0 else 1
    case Done => 0
  }

  /** Messages still to author plus deliveries still to accept. */
  ghost function Work(cfg: Fanout, ph: Phase, s: Sys): int
    requires Registered(cfg, ph, s)
  {
    (cfg.clients * ph.count - Sums.Sum(s.pos))
    + (ph.count * cfg.clients * (cfg.clients - 1) - s.ledger.received[ph.name])
  }

  lemma {:induction false} WorkIsLeft(cfg: Fanout, ph: Phase, s: Sys)
    requires Inv(cfg, ph, s)
    ensures Work(cfg, ph, s) >= 0
  {
    var n := cfg.clients;
    Sums.SumAtMost(s.pos, ph.count);
    SumFull(s.ledger.next, ph.name, n, n, ph.count);
    Regroup(ph.count, n);
  }

  ghost function Rank(cfg: Fanout, ph: Phase, s: Sys): (r: nat)
    requires Inv(cfg, ph, s)
  {
    WorkIsLeft(cfg, ph, s);
    Weigh(Work(cfg, ph, s), cfg.clients, AwakeSenders(ph, s, cfg.clients) + FinishRank(s))
  }

  function Weigh(work: nat, n: nat, awake: nat): nat { work * (n + 3) + awake }

  lemma {:induction false} WeighLess(work: nat, n: nat, awake: nat, awake': nat)
    requires work > 0 && awake' <= n + 2
    ensures Weigh(work - 1, n, awake') < Weigh(work, n, awake)
  {
    assert work * (n + 3) == (work - 1) * (n + 3) + (n + 3);
  }

  lemma {:induction false} ParkingSleeps(ph: Phase, s: Sys, i: nat, k: nat)
    requires i < |s.pos| && k <= |s.pos| && s.pos[i] < ph.count && !Asleep(s, SenderTask(i))
    ensures AwakeSenders(ph, Sleeps(s, SenderTask(i)), k) == AwakeSenders(ph, s, k) - if i < k then 1 else 0
    decreases k
  {
    if k > 0 { ParkingSleeps(ph, s, i, k - 1); }
  }

  lemma {:induction false} AwakeSame(ph: Phase, s: Sys, s': Sys, k: nat)
    requires s.pos == s'.pos && k <= |s.pos|
    requires forall i: nat :: Asleep(s, SenderTask(i)) <==> Asleep(s', SenderTask(i))
    ensures AwakeSenders(ph, s, k) == AwakeSenders(ph, s', k)
  {
    if k > 0 { AwakeSame(ph, s, s', k - 1); }
  }

  lemma {:induction false} WorkRanks(cfg: Fanout, ph: Phase, s: Sys, s': Sys)
    requires Inv(cfg, ph, s) && Inv(cfg, ph, s') && Work(cfg, ph, s') == Work(cfg, ph, s) - 1
    ensures Rank(cfg, ph, s') < Rank(cfg, ph, s)
  {
    WorkIsLeft(cfg, ph, s);
    WorkIsLeft(cfg, ph, s');
    WeighLess(Work(cfg, ph, s), cfg.clients, AwakeSenders(ph, s, cfg.clients) + FinishRank(s),
              AwakeSenders(ph, s', cfg.clients) + FinishRank(s'));
  }

  lemma {:induction false} AuthorRanks(cfg: Fanout, ph: Phase, s: Sys, i: nat, now: int, s': Sys)
    requires Strict(cfg) && Inv(cfg, ph, s) && Inv(cfg, ph, s') && SenderStep(cfg, ph, s, i, now, s')
        && HasCredit(cfg, ph, s, i)
    ensures Rank(cfg, ph, s') < Rank(cfg, ph, s)
  {
    hide Segment;
    SenderStepIs(cfg, ph, s, i, now, s');
    Sums.SumUpdate(s.pos, i, 1);
    WorkRanks(cfg, ph, s, s');
  }

  lemma {:induction false} ArrivalWork(cfg: Fanout, ph: Phase, s: Sys, st: Stream, now: int)
    requires Registered(cfg, ph, s) && Due(s.ledger, st) && st in s.wire && s.wire[st] != [] && st.phase == ph.name
    requires Registered(cfg, ph, Arrived(s, st, now))
    ensures Work(cfg, ph, Arrived(s, st, now)) == Work(cfg, ph, s) - 1
  {
    var s' := Arrived(s, st, now);
    assert s'.ledger.received[ph.name] == s.ledger.received[ph.name] + 1;
    assert s'.pos == s.pos;
  }

  lemma {:induction false} ArrivalRanks(cfg: Fanout, ph: Phase, s: Sys, st: Stream, now: int)
    requires Inv(cfg, ph, s) && Due(s.ledger, st) && st in s.wire && s.wire[st] != [] && st.phase == ph.name
    requires Inv(cfg, ph, Arrived(s, st, now))
    ensures Rank(cfg, ph, Arrived(s, st, now)) < Rank(cfg, ph, s)
  {
    ArrivalWork(cfg, ph, s, st, now);
    WorkRanks(cfg, ph, s, Arrived(s, st, now));
  }

  lemma {:induction false} SleepRanks(cfg: Fanout, ph: Phase, s: Sys, s': Sys)
    requires Inv(cfg, ph, s) && Inv(cfg, ph, s') && s'.ledger == s.ledger && s'.pos == s.pos
    requires AwakeSenders(ph, s', cfg.clients) + FinishRank(s') < AwakeSenders(ph, s, cfg.clients) + FinishRank(s)
    ensures Rank(cfg, ph, s') < Rank(cfg, ph, s)
  {
    assert Work(cfg, ph, s') == Work(cfg, ph, s);
    WorkIsLeft(cfg, ph, s);
  }

  lemma {:induction false} SenderRanks(cfg: Fanout, ph: Phase, s: Sys, i: nat, now: int, s': Sys)
    requires Strict(cfg) && Inv(cfg, ph, s) && Inv(cfg, ph, s') && SenderStep(cfg, ph, s, i, now, s')
    ensures Rank(cfg, ph, s') < Rank(cfg, ph, s)
  {
    hide Segment, Rank, Inv;
    InvIsRegistered(cfg, ph, s);
    SenderStepIs(cfg, ph, s, i, now, s');
    if HasCredit(cfg, ph, s, i) {
      AuthorRanks(cfg, ph, s, i, now, s');
    } else {
      ParkingSleeps(ph, s, i, cfg.clients);
      SleepRanks(cfg, ph, s, s');
    }
  }

  lemma {:induction false} InvIsRegistered(cfg: Fanout, ph: Phase, s: Sys)
    requires Inv(cfg, ph, s)
    ensures Registered(cfg, ph, s)
  {}

  lemma {:induction false} FinisherRanks(cfg: Fanout, ph: Phase, s: Sys, s': Sys)
    requires Inv(cfg, ph, s) && Inv(cfg, ph, s') && s'.ledger == s.ledger && s'.pos == s.pos
    requires FinishRank(s') < FinishRank(s) && forall i: nat :: Asleep(s, SenderTask(i)) <==> Asleep(s', SenderTask(i))
    ensures Rank(cfg, ph, s') < Rank(cfg, ph, s)
  {
    InvIsRegistered(cfg, ph, s);
    hide Rank, Inv, FinishRank;
    AwakeSame(ph, s, s', cfg.clients);
    SleepRanks(cfg, ph, s, s');
  }

  lemma {:induction false} FinishRanks(cfg: Fanout, ph: Phase, s: Sys, s': Sys)
    requires Inv(cfg, ph, s) && Inv(cfg, ph, s') && FinishStep(cfg, ph, s, s')
    ensures Rank(cfg, ph, s') < Rank(cfg, ph, s)
  {
    InvIsRegistered(cfg, ph, s);
    hide Segment, Rank, Inv;
    FinishStepIs(cfg, ph, s, s');
    FinisherRanks(cfg, ph, s, s');
  }

  /** Every reliable action brings the phase closer to its end. */
  lemma {:induction false} RankFalls(cfg: Fanout, ph: Phase, s: Sys, a: Action, s': Sys)
    requires Strict(cfg) && Inv(cfg, ph, s) && WireExact(ph, s) && Reliable(a) && Next(cfg, ph, s, a, s')
    ensures Inv(cfg, ph, s') && Rank(cfg, ph, s') < Rank(cfg, ph, s)
  {
    hide Segment, Rank, Inv, WireExact, SenderStep, FinishStep, LineStep;
    NextKeeps(cfg, ph, s, a, s');
    match a
    case Sender(i, now) => SenderRanks(cfg, ph, s, i, now, s');
    case Begin => FinisherRanks(cfg, ph, s, s');
    case Finish => FinishRanks(cfg, ph, s, s');
    case FromWire(st, line, now) =>
      FromWireArrives(cfg, ph, s, st, line, now, s');
      ArrivalRanks(cfg, ph, s, st, now);
  }

  ghost predicate ReliableRun(cfg: Fanout, ph: Phase, states: seq<Sys>, actions: seq<Action>)
    requires Strict(cfg)
  {
    IsRun(cfg, ph, states, actions) && forall k :: 0 <= k < |actions| ==> Reliable(actions[k])
  }

  lemma {:induction false} ReliableRunsAreExact(cfg: Fanout, ph: Phase, states: seq<Sys>, actions: seq<Action>, k: nat)
    requires Strict(cfg) && ReliableRun(cfg, ph, states, actions) && k < |states|
    ensures Inv(cfg, ph, states[k]) && WireExact(ph, states[k])
    decreases k
  {
    RunsAreSafe(cfg, ph, states, actions, k);
    if k == 0 {
      StartIsExact(cfg, ph, states[0]);
    } else {
      var j := k - 1;
      ReliableRunsAreExact(cfg, ph, states, actions, j);
      assert StepAt(cfg, ph, states, actions, j);
      assert states[j + 1] == states[k];
      ReliableKeeps(cfg, ph, states[j], actions[j], states[k]);
    }
  }

  /** The rank of a state, zero where it is not defined. */
  ghost function RankAt(cfg: Fanout, ph: Phase, s: Sys): nat {
    if Inv(cfg, ph, s) then Rank(cfg, ph, s) else 0
  }

  lemma {:induction false} RankBoundsRun(cfg: Fanout, ph: Phase, states: seq<Sys>, actions: seq<Action>, k: nat)
    requires Strict(cfg) && ReliableRun(cfg, ph, states, actions) && k < |states|
    ensures RankAt(cfg, ph, states[k]) + k <= RankAt(cfg, ph, states[0])
    decreases k
  {
    if k > 0 {
      var j := k - 1;
      hide Inv, Rank, WireExact, Next, Strict;
      RankBoundsRun(cfg, ph, states, actions, j);
      ReliableRunsAreExact(cfg, ph, states, actions, j);
      assert StepAt(cfg, ph, states, actions, j);
      assert states[j + 1] == states[k];
      RankFalls(cfg, ph, states[j], actions[j], states[k]);
    }
  }

  /**
   A reliable run is never longer than the rank it starts with, and one that cannot be
   extended has finished: every message of the phase was accepted on every stream.
   */
  lemma {:induction false} ReliableRunsFinish(cfg: Fanout, ph: Phase, states: seq<Sys>, actions: seq<Action>,
      render: (Stream, nat) -> string)
    requires Strict(cfg) && ReliableRun(cfg, ph, states, actions) && ph.window >= 1
    ensures Inv(cfg, ph, states[0]) && |actions| <= Rank(cfg, ph, states[0])
    ensures var s := states[|actions|];
            Renders(cfg, ph, s, render) && (forall a :: Reliable(a) ==> !Enabled(cfg, ph, s, a)) ==>
              s.finish == Done && forall st :: st in s.ledger.next && st.phase == ph.name ==>
                s.ledger.next[st] == ph.count
  {
    var s := states[|actions|];
    ReliableRunsAreExact(cfg, ph, states, actions, 0);
    ReliableRunsAreExact(cfg, ph, states, actions, |actions|);
    RankBoundsRun(cfg, ph, states, actions, |actions|);
    if Renders(cfg, ph, s, render) && forall a :: Reliable(a) ==> !Enabled(cfg, ph, s, a) {
      if s.finish != Done {
        var a := NeverStuck(cfg, ph, s, render, 0);
      }
      CompleteMeansAll(cfg, s.ledger, ph.name);
    }
  }

  // ---------------------------------------------------------------- the benchmark's own lines

  /** Lines as the daemon relays them satisfy `Renders` when the run and phase names hold no colon. */
  lemma {:induction false} RelayedRenders(runId: string, clients: nat, ph: Phase, s: Sys)
    requires ':' !in runId && ':' !in ph.name && Ascii(ph.name)
    requires Registered(Bench(runId, clients), ph, s)
    ensures Renders(Bench(runId, clients), ph, s,
                    (st: Stream, q: nat) => Relayed(runId, "", ":lb" + Dec(st.sender), st.phase, st.sender, q))
  {
    forall st, q: nat | st in s.ledger.next && st.phase == ph.name && q < ph.count
      ensures Identify(Config(runId, clients), s.ledger.counts, st.recipient,
                       Relayed(runId, "", ":lb" + Dec(st.sender), st.phase, st.sender, q))
           == Claim(st.phase, st.sender, q)
    {
      DigitsHave(st.sender, ' ');
      RelayedAccepted(Config(runId, clients), s.ledger.counts, st.recipient, "", ":lb" + Dec(st.sender), st.phase,
        st.sender, q);
    }
  }
}
