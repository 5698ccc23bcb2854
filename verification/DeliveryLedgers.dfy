/**
 `DeliveryLedger` of tools/bench_live.py: which deliveries of a fanout are accepted, and
 the counters that decide `complete` and `credit`.
 */
module DeliveryLedgers {
  import opened Options
  import opened PhasePayload

  /**
   A fanout benchmark: how many clients there are, and how a line is turned into an
   identity given the registered phases and the receiving client.
   */
  datatype Fanout = Fanout(clients: nat, identify: (map<string, nat>, nat, string) -> Claim)

  /** The benchmark as run: lines are identified by `PhasePayload.Identify`. */
  function Bench(runId: string, clients: nat): Fanout {
    Fanout(clients, (counts, recipient, line) => Identify(Config(runId, clients), counts, recipient, line))
  }

  predicate ClaimFits(clients: nat, counts: map<string, nat>, recipient: nat, c: Claim) {
    c.Claim? ==> c.phase in counts && c.sender < clients && c.sender != recipient && c.sequence < counts[c.phase]
  }

  /** Only expected identities are claimed. */
  ghost predicate Strict(cfg: Fanout) {
    forall counts, recipient, line :: ClaimFits(cfg.clients, counts, recipient, cfg.identify(counts, recipient, line))
  }

  lemma {:induction false} BenchIsStrict(runId: string, clients: nat)
    ensures Strict(Bench(runId, clients))
  {
    var cfg := Config(runId, clients);
    forall counts, recipient, line
      ensures ClaimFits(clients, counts, recipient, Identify(cfg, counts, recipient, line))
    {
      if Identify(cfg, counts, recipient, line).Claim? { ClaimIsExact(cfg, counts, recipient, line); }
    }
  }

  /** One ordered pair of clients in one phase. */
  datatype Stream = Stream(phase: string, sender: nat, recipient: nat)

  datatype Message = Message(phase: string, sender: nat, sequence: nat)

  datatype Ledger = Ledger(counts: map<string, nat>, next: map<Stream, nat>, sent: map<Message, int>,
                           received: map<string, nat>, latencies: map<string, seq<int>>)

  datatype Receipt = Ignored | Raised(why: string) | Accepted(stream: Stream, sequence: nat)

  const Empty := Ledger(map[], map[], map[], map[], map[])

  /** The registration loops: one stream from `s` to each of the first `k` other clients. */
  function WithRow(next: map<Stream, nat>, phase: string, s: nat, k: nat): map<Stream, nat> {
    if k == 0 then next
    else if k - 1 == s then WithRow(next, phase, s, k - 1)
    else WithRow(next, phase, s, k - 1)[Stream(phase, s, k - 1) := 0]
  }

  function WithRows(next: map<Stream, nat>, phase: string, n: nat, k: nat): map<Stream, nat> {
    if k == 0 then next else WithRow(WithRows(next, phase, n, k - 1), phase, k - 1, n)
  }

  function AddPhase(cfg: Fanout, l: Ledger, phase: string, count: nat): Option<Ledger> {
    if phase in l.counts then None
    else Some(Ledger(l.counts[phase := count], WithRows(l.next, phase, cfg.clients, cfg.clients), l.sent,
                     l.received[phase := 0], l.latencies[phase := []]))
  }

  function Authored(l: Ledger, phase: string, sender: nat, sequence: nat, now: int): Option<Ledger> {
    var key := Message(phase, sender, sequence);
    if key in l.sent then None else Some(l.(sent := l.sent[key := now]))
  }

  /** Every phase has its counters, every pair of clients its stream, and no more. */
  ghost predicate Shaped(cfg: Fanout, l: Ledger) {
    && l.received.Keys == l.counts.Keys == l.latencies.Keys
    && forall st :: st in l.next <==>
         st.phase in l.counts && st.sender < cfg.clients && st.recipient < cfg.clients && st.sender != st.recipient
  }

  /** The checks of `receive` after the identity is known; the state is untouched unless they pass. */
  function Judge(cfg: Fanout, l: Ledger, recipient: nat, c: Claim): Receipt
    requires Shaped(cfg, l) && recipient < cfg.clients && ClaimFits(cfg.clients, l.counts, recipient, c)
  {
    match c
    case NotPrivmsg => Ignored
    case Refused(why) => Raised(why)
    case Claim(phase, sender, sequence) =>
      var st := Stream(phase, sender, recipient);
      if sequence != l.next[st] then Raised("duplicate or reordered delivery")
      else if Message(phase, sender, sequence) !in l.sent then Raised("delivery was not authored")
      else Accepted(st, sequence)
  }

  function Accept(l: Ledger, st: Stream, q: nat, now: int): Ledger
    requires st in l.next && st.phase in l.received && st.phase in l.latencies
        && Message(st.phase, st.sender, q) in l.sent
  {
    l.(next := l.next[st := l.next[st] + 1],
       received := l.received[st.phase := l.received[st.phase] + 1],
       latencies := l.latencies[st.phase := l.latencies[st.phase] + [now - l.sent[Message(st.phase, st.sender, q)]]])
  }

  /** The verdict on a line. */
  ghost function Verdict(cfg: Fanout, l: Ledger, recipient: nat, line: string): Receipt
    requires Strict(cfg) && Shaped(cfg, l) && recipient < cfg.clients
  {
    Judge(cfg, l, recipient, cfg.identify(l.counts, recipient, line))
  }

  /** The ledger after a line. */
  ghost function Receive(cfg: Fanout, l: Ledger, recipient: nat, line: string, now: int): Ledger
    requires Strict(cfg) && Shaped(cfg, l) && recipient < cfg.clients
  {
    match Verdict(cfg, l, recipient, line)
    case Accepted(st, q) => Accept(l, st, q, now)
    case _ => l
  }

  predicate Complete(cfg: Fanout, l: Ledger, phase: string)
    requires phase in l.counts && phase in l.received
  {
    l.received[phase] == l.counts[phase] * cfg.clients * (cfg.clients - 1)
  }

  predicate Credit(cfg: Fanout, l: Ledger, phase: string, sender: nat, sequence: nat, window: nat)
    requires Shaped(cfg, l) && phase in l.counts && sender < cfg.clients
  {
    forall r :: 0 <= r < cfg.clients && r != sender ==> l.next[Stream(phase, sender, r)] > sequence - window
  }

  // ---------------------------------------------------------------- the class

  class DeliveryLedger {
    const cfg: Fanout
    var counts: map<string, nat>
    var next: map<Stream, nat>
    var sent: map<Message, int>
    var received: map<string, nat>
    var latencies: map<string, seq<int>>
    var changed: bool

    function State(): Ledger
      reads this
    {
      Ledger(counts, next, sent, received, latencies)
    }

    constructor (cfg: Fanout)
      ensures this.cfg == cfg && State() == Empty && !changed
    {
      this.cfg := cfg;
      counts, next, sent, received, latencies, changed := map[], map[], map[], map[], map[], false;
    }

    method Register(phase: string, count: nat) returns (ok: bool)
      modifies this
      ensures ok <==> AddPhase(cfg, old(State()), phase, count).Some?
      ensures State() == if ok then AddPhase(cfg, old(State()), phase, count).value else old(State())
      ensures changed == old(changed)
    {
      if phase in counts {
        return false;
      }
      counts, received, latencies := counts[phase := count], received[phase := 0], latencies[phase := []];
      for sender := 0 to cfg.clients
        invariant next == WithRows(old(next), phase, cfg.clients, sender)
        invariant counts == old(counts)[phase := count] && received == old(received)[phase := 0]
        invariant latencies == old(latencies)[phase := []] && sent == old(sent) && changed == old(changed)
      {
        for recipient := 0 to cfg.clients
          invariant next == WithRow(WithRows(old(next), phase, cfg.clients, sender), phase, sender, recipient)
          invariant counts == old(counts)[phase := count] && received == old(received)[phase := 0]
          invariant latencies == old(latencies)[phase := []] && sent == old(sent) && changed == old(changed)
        {
          if sender != recipient {
            next := next[Stream(phase, sender, recipient) := 0];
          }
        }
      }
      return true;
    }

    method Author(phase: string, sender: nat, sequence: nat, now: int) returns (ok: bool)
      modifies this`sent
      ensures ok <==> Authored(old(State()), phase, sender, sequence, now).Some?
      ensures State() == if ok then Authored(old(State()), phase, sender, sequence, now).value else old(State())
    {
      var key := Message(phase, sender, sequence);
      if key in sent {
        return false;
      }
      sent := sent[key := now];
      return true;
    }

    method Deliver(recipient: nat, line: string, now: int) returns (receipt: Receipt)
      requires Strict(cfg) && Shaped(cfg, State()) && recipient < cfg.clients
      modifies this
      ensures receipt == Verdict(cfg, old(State()), recipient, line)
      ensures State() == Receive(cfg, old(State()), recipient, line, now)
      ensures changed == (old(changed) || receipt.Accepted?)
    {
      var claim := cfg.identify(counts, recipient, line);
      assert ClaimFits(cfg.clients, counts, recipient, claim);
      hide Strict;
      if claim.NotPrivmsg? {
        return Ignored;
      }
      if claim.Refused? {
        return Raised(claim.why);
      }
      var key, message := Stream(claim.phase, claim.sender, recipient),
        Message(claim.phase, claim.sender, claim.sequence);
      if claim.sequence != next[key] {
        return Raised("duplicate or reordered delivery");
      }
      if message !in sent {
        return Raised("delivery was not authored");
      }
      next := next[key := next[key] + 1];
      received := received[claim.phase := received[claim.phase] + 1];
      latencies := latencies[claim.phase := latencies[claim.phase] + [now - sent[message]]];
      changed := true;
      return Accepted(key, claim.sequence);
    }
  }

  // ---------------------------------------------------------------- sums over streams

  function NextOf(next: map<Stream, nat>, st: Stream): nat { if st in next then next[st] else 0 }

  function RowSum(next: map<Stream, nat>, phase: string, s: nat, k: nat): nat {
    if k == 0 then 0
    else RowSum(next, phase, s, k - 1) + if k - 1 == s then 0 else NextOf(next, Stream(phase, s, k - 1))
  }

  /** Accepted deliveries summed over the streams of the first `k` senders. */
  function NextSum(next: map<Stream, nat>, phase: string, n: nat, k: nat): nat {
    if k == 0 then 0 else NextSum(next, phase, n, k - 1) + RowSum(next, phase, k - 1, n)
  }

  lemma {:induction false} RowBump(next: map<Stream, nat>, st: Stream, phase: string, s: nat, k: nat)
    requires st in next && st.sender != st.recipient
    ensures RowSum(next[st := next[st] + 1], phase, s, k) ==
            RowSum(next, phase, s, k) + if st.phase == phase && st.sender == s && st.recipient < k then 1 else 0
  {
    if k > 0 { RowBump(next, st, phase, s, k - 1); }
  }

  lemma {:induction false} SumBump(next: map<Stream, nat>, st: Stream, phase: string, n: nat, k: nat)
    requires st in next && st.sender != st.recipient && st.recipient < n
    ensures NextSum(next[st := next[st] + 1], phase, n, k) ==
            NextSum(next, phase, n, k) + if st.phase == phase && st.sender < k then 1 else 0
  {
    if k > 0 {
      SumBump(next, st, phase, n, k - 1);
      RowBump(next, st, phase, k - 1, n);
    }
  }

  lemma {:induction false} RowSame(a: map<Stream, nat>, b: map<Stream, nat>, phase: string, s: nat, k: nat)
    requires forall r: nat :: r < k ==> NextOf(a, Stream(phase, s, r)) == NextOf(b, Stream(phase, s, r))
    ensures RowSum(a, phase, s, k) == RowSum(b, phase, s, k)
  {
    if k > 0 { RowSame(a, b, phase, s, k - 1); }
  }

  lemma {:induction false} SumSame(a: map<Stream, nat>, b: map<Stream, nat>, phase: string, n: nat, k: nat)
    requires forall s: nat, r: nat :: s < k && r < n ==>
        NextOf(a, Stream(phase, s, r)) == NextOf(b, Stream(phase, s, r))
    ensures NextSum(a, phase, n, k) == NextSum(b, phase, n, k)
  {
    if k > 0 {
      SumSame(a, b, phase, n, k - 1);
      RowSame(a, b, phase, k - 1, n);
    }
  }

  /** A row of counters, each at most `count`, sums to the full amount only when every counter is full. */
  lemma {:induction false} RowFull(next: map<Stream, nat>, phase: string, s: nat, k: nat, count: nat)
    requires forall r: nat :: r < k && r != s ==> NextOf(next, Stream(phase, s, r)) <= count
    ensures var full := count * (if s < k then k - 1 else k);
            RowSum(next, phase, s, k) <= full &&
            (RowSum(next, phase, s, k) == full <==> forall r: nat :: r < k && r != s ==>
              NextOf(next, Stream(phase, s, r)) == count)
  {
    if k > 0 {
      RowFull(next, phase, s, k - 1, count);
      var before := if s < k - 1 then k - 2 else k - 1;
      if k - 1 != s {
        assert count * (before + 1) == count * before + count;
      }
    }
  }

  lemma {:induction false} SumFull(next: map<Stream, nat>, phase: string, n: nat, k: nat, count: nat)
    requires k <= n
    requires forall s: nat, r: nat :: s < k && r < n && r != s ==> NextOf(next, Stream(phase, s, r)) <= count
    ensures NextSum(next, phase, n, k) <= k * (count * (n - 1))
    ensures NextSum(next, phase, n, k) == k * (count * (n - 1)) <==>
            forall s: nat, r: nat :: s < k && r < n && r != s ==> NextOf(next, Stream(phase, s, r)) == count
  {
    if k > 0 {
      SumFull(next, phase, n, k - 1, count);
      RowFull(next, phase, k - 1, n, count);
      assert k * (count * (n - 1)) == (k - 1) * (count * (n - 1)) + count * (n - 1);
    }
  }

  // ---------------------------------------------------------------- what every operation keeps

  ghost predicate WithinCounts(l: Ledger) {
    forall st :: st in l.next ==> st.phase in l.counts && l.next[st] <= l.counts[st.phase]
  }

  ghost predicate OnlyAuthored(l: Ledger) {
    forall st, q: nat :: st in l.next && q < l.next[st] ==> Message(st.phase, st.sender, q) in l.sent
  }

  ghost predicate ExactTotals(cfg: Fanout, l: Ledger)
    requires Shaped(cfg, l)
  {
    forall p :: p in l.counts ==> l.received[p] == NextSum(l.next, p, cfg.clients, cfg.clients) == |l.latencies[p]|
  }

  /** Nothing unauthored is ever counted, no stream overruns, and the running totals are exact. */
  ghost predicate Sound(cfg: Fanout, l: Ledger) {
    Shaped(cfg, l) && WithinCounts(l) && OnlyAuthored(l) && ExactTotals(cfg, l)
  }

  lemma {:induction false} EmptyIsSound(cfg: Fanout)
    ensures Sound(cfg, Empty)
  {}

  lemma {:induction false} SumZero(next: map<Stream, nat>, phase: string, n: nat)
    requires forall s: nat, r: nat :: s < n && r < n ==> NextOf(next, Stream(phase, s, r)) == 0
    ensures NextSum(next, phase, n, n) == 0
  {
    SumSame(next, map[], phase, n, n);
    SumOfNothing(phase, n, n);
  }

  lemma {:induction false} SumOfNothing(phase: string, n: nat, k: nat)
    ensures NextSum(map[], phase, n, k) == 0
  {
    if k > 0 {
      SumOfNothing(phase, n, k - 1);
      RowOfNothing(phase, k - 1, n);
    }
  }

  lemma {:induction false} RowOfNothing(phase: string, s: nat, k: nat)
    ensures RowSum(map[], phase, s, k) == 0
  {
    if k > 0 { RowOfNothing(phase, s, k - 1); }
  }

  lemma {:induction false} RowAdds(next: map<Stream, nat>, phase: string, s: nat, k: nat)
    ensures forall st: Stream :: st in WithRow(next, phase, s, k) <==>
              st in next || (st.phase == phase && st.sender == s && st.recipient < k && st.recipient != s)
    ensures forall st: Stream :: st in WithRow(next, phase, s, k) ==>
              WithRow(next, phase, s, k)[st] ==
              if st.phase == phase && st.sender == s && st.recipient < k && st.recipient != s then 0 else next[st]
  {
    if k > 0 { RowAdds(next, phase, s, k - 1); }
  }

  lemma {:induction false} RowsAdd(next: map<Stream, nat>, phase: string, n: nat, k: nat)
    ensures forall st: Stream :: st in WithRows(next, phase, n, k) <==>
              st in next || (st.phase == phase && st.sender < k && st.recipient < n && st.recipient != st.sender)
    ensures forall st: Stream :: st in WithRows(next, phase, n, k) ==>
              WithRows(next, phase, n, k)[st] ==
              if st.phase == phase && st.sender < k && st.recipient < n && st.recipient != st.sender
              then 0 else next[st]
  {
    if k > 0 {
      RowsAdd(next, phase, n, k - 1);
      RowAdds(WithRows(next, phase, n, k - 1), phase, k - 1, n);
    }
  }

  lemma {:induction false} AddPhaseKeeps(cfg: Fanout, l: Ledger, phase: string, count: nat)
    requires Sound(cfg, l) && AddPhase(cfg, l, phase, count).Some?
    ensures Sound(cfg, AddPhase(cfg, l, phase, count).value)
  {
    var l' := AddPhase(cfg, l, phase, count).value;
    var n := cfg.clients;
    RowsAdd(l.next, phase, n, n);
    forall p | p in l'.counts ensures l'.received[p] == NextSum(l'.next, p, n, n) == |l'.latencies[p]| {
      if p == phase {
        SumZero(l'.next, p, n);
      } else {
        SumSame(l'.next, l.next, p, n, n);
      }
    }
  }

  lemma {:induction false} AuthoredKeeps(cfg: Fanout, l: Ledger, phase: string, sender: nat, sequence: nat, now: int)
    requires Sound(cfg, l) && Authored(l, phase, sender, sequence, now).Some?
    ensures Sound(cfg, Authored(l, phase, sender, sequence, now).value)
  {}

  lemma {:induction false} AcceptKeeps(cfg: Fanout, l: Ledger, st: Stream, now: int)
    requires Sound(cfg, l) && st in l.next && l.next[st] < l.counts[st.phase]
    requires Message(st.phase, st.sender, l.next[st]) in l.sent
    ensures Sound(cfg, Accept(l, st, l.next[st], now))
  {
    AcceptTotals(cfg, l, st, now);
    AcceptAuthored(cfg, l, st, now);
  }

  lemma {:induction false} AcceptAuthored(cfg: Fanout, l: Ledger, st: Stream, now: int)
    requires Shaped(cfg, l) && OnlyAuthored(l) && st in l.next && Message(st.phase, st.sender, l.next[st]) in l.sent
    ensures OnlyAuthored(Accept(l, st, l.next[st], now))
  {}

  lemma {:induction false} AcceptTotals(cfg: Fanout, l: Ledger, st: Stream, now: int)
    requires Shaped(cfg, l) && ExactTotals(cfg, l) && st in l.next && Message(st.phase, st.sender, l.next[st]) in l.sent
    ensures Shaped(cfg, Accept(l, st, l.next[st], now)) && ExactTotals(cfg, Accept(l, st, l.next[st], now))
  {
    hide NextSum;
    forall p | p in l.counts
      ensures NextSum(l.next[st := l.next[st] + 1], p, cfg.clients, cfg.clients) ==
              NextSum(l.next, p, cfg.clients, cfg.clients) + if st.phase == p then 1 else 0
    {
      SumBump(l.next, st, p, cfg.clients, cfg.clients);
    }
  }

  lemma {:induction false} VerdictAccepts(cfg: Fanout, l: Ledger, recipient: nat, line: string)
    requires Strict(cfg) && Shaped(cfg, l) && recipient < cfg.clients && Verdict(cfg, l, recipient, line).Accepted?
    ensures var a := Verdict(cfg, l, recipient, line);
            && a.stream in l.next && a.stream.recipient == recipient
            && a.sequence == l.next[a.stream] < l.counts[a.stream.phase]
            && Message(a.stream.phase, a.stream.sender, a.sequence) in l.sent
  {}

  lemma {:induction false} ReceiveKeeps(cfg: Fanout, l: Ledger, recipient: nat, line: string, now: int)
    requires Strict(cfg) && Sound(cfg, l) && recipient < cfg.clients
    ensures Sound(cfg, Receive(cfg, l, recipient, line, now))
  {
    var a := Verdict(cfg, l, recipient, line);
    if a.Accepted? {
      VerdictAccepts(cfg, l, recipient, line);
      AcceptKeeps(cfg, l, a.stream, now);
    }
  }

  /** An accepted delivery carries exactly the authored payload bytes. */
  lemma {:induction false} AcceptedBytes(runId: string, clients: nat, l: Ledger, recipient: nat, line: string)
    requires Strict(Bench(runId, clients)) && Shaped(Bench(runId, clients), l) && recipient < clients
    requires Verdict(Bench(runId, clients), l, recipient, line).Accepted?
    ensures var a := Verdict(Bench(runId, clients), l, recipient, line);
            |Parts(line)| == 4 && Parts(line)[3] == ":" + Payload(runId, a.stream.phase, a.stream.sender, a.sequence)
  {
    ClaimIsExact(Config(runId, clients), l.counts, recipient, line);
  }

  lemma {:induction false} Regroup(count: nat, n: nat)
    ensures count * n * (n - 1) == n * (count * (n - 1))
  {}

  /** The constant-time `complete` is the simple one: every stream has reached its count. */
  lemma {:induction false} CompleteMeansAll(cfg: Fanout, l: Ledger, phase: string)
    requires Sound(cfg, l) && phase in l.counts
    ensures Complete(cfg, l, phase) <==> forall st :: st in l.next && st.phase == phase ==>
        l.next[st] == l.counts[phase]
  {
    var n, count := cfg.clients, l.counts[phase];
    SumFull(l.next, phase, n, n, count);
    Regroup(count, n);
    if Complete(cfg, l, phase) {
      forall st | st in l.next && st.phase == phase ensures l.next[st] == count {
        assert NextOf(l.next, Stream(phase, st.sender, st.recipient)) == count;
      }
    } else {
      var s: nat, r: nat :| s < n && r < n && r != s && NextOf(l.next, Stream(phase, s, r)) != count;
      assert Stream(phase, s, r) in l.next;
    }
  }

  // ---------------------------------------------------------------- whole runs

  /** What happens to a ledger: a phase is registered, a sender authors, or any line at all is delivered. */
  datatype Event =
    | Registers(phase: string, count: nat)
    | Authors(phase: string, sender: nat, sequence: nat, now: int)
    | Delivers(recipient: nat, line: string, now: int)

  /** One event, or nothing when it raises. */
  ghost function Step(cfg: Fanout, l: Ledger, e: Event): (r: Option<Ledger>)
    requires Strict(cfg) && Sound(cfg, l)
    ensures r.Some? ==> Sound(cfg, r.value)
  {
    match e
    case Registers(p, c) =>
      if AddPhase(cfg, l, p, c).Some? then
        AddPhaseKeeps(cfg, l, p, c);
        AddPhase(cfg, l, p, c)
      else None
    case Authors(p, s, q, now) =>
      if Authored(l, p, s, q, now).Some? then
        AuthoredKeeps(cfg, l, p, s, q, now);
        Authored(l, p, s, q, now)
      else None
    case Delivers(r, line, now) =>
      if r >= cfg.clients || Verdict(cfg, l, r, line).Raised? then None
      else
        ReceiveKeeps(cfg, l, r, line, now);
        Some(Receive(cfg, l, r, line, now))
  }

  /** The ledger after a run in which nothing raised. */
  ghost function Run(cfg: Fanout, events: seq<Event>): (r: Option<Ledger>)
    requires Strict(cfg)
    ensures r.Some? ==> Sound(cfg, r.value)
  {
    if events == [] then
      EmptyIsSound(cfg);
      Some(Empty)
    else
      var before := Run(cfg, events[..|events| - 1]);
      if before.None? then None else Step(cfg, before.value, events[|events| - 1])
  }

  /** What one event adds to the history of a stream. */
  ghost function Adds(cfg: Fanout, l: Ledger, e: Event, st: Stream): seq<nat>
    requires Strict(cfg) && Sound(cfg, l)
  {
    if e.Delivers? && e.recipient < cfg.clients && Verdict(cfg, l, e.recipient, e.line).Accepted?
      && Verdict(cfg, l, e.recipient, e.line).stream == st
    then [Verdict(cfg, l, e.recipient, e.line).sequence] else []
  }

  /** The sequence numbers accepted on one stream, in the order they were accepted. */
  ghost function History(cfg: Fanout, events: seq<Event>, st: Stream): seq<nat>
    requires Strict(cfg) && Run(cfg, events).Some?
  {
    if events == [] then []
    else
      var front := events[..|events| - 1];
      History(cfg, front, st) + Adds(cfg, Run(cfg, front).value, events[|events| - 1], st)
  }

  function Range(lo: nat, hi: nat): (r: seq<nat>)
    requires lo <= hi
    ensures |r| == hi - lo && forall i :: 0 <= i < |r| ==> r[i] == lo + i
  {
    seq(hi - lo, i => lo + i)
  }

  ghost predicate HasAuthored(events: seq<Event>, m: Message) {
    exists i :: 0 <= i < |events| && events[i].Authors?
      && m == Message(events[i].phase, events[i].sender, events[i].sequence)
  }

  /**
   Whatever lines the network hands in, after any run that raises nothing every stream has
   accepted exactly the sequence numbers below its counter, once each and in order, and all
   of them were authored before.
   */
  lemma {:induction false} StreamsAreExact(cfg: Fanout, events: seq<Event>, st: Stream)
    requires Strict(cfg) && Run(cfg, events).Some?
    ensures History(cfg, events, st) == Range(0, NextOf(Run(cfg, events).value.next, st))
  {
    if events != [] {
      var front := events[..|events| - 1];
      StreamsAreExact(cfg, front, st);
      StepCounts(cfg, Run(cfg, front).value, events[|events| - 1], st);
    }
  }

  lemma {:induction false} StepCounts(cfg: Fanout, l: Ledger, e: Event, st: Stream)
    requires Strict(cfg) && Sound(cfg, l) && Step(cfg, l, e).Some?
    ensures Range(0, NextOf(l.next, st)) + Adds(cfg, l, e, st) == Range(0, NextOf(Step(cfg, l, e).value.next, st))
  {
    match e
    case Registers(p, c) => RegisterCounts(cfg, l, p, c, st);
    case Authors(_, _, _, _) =>
    case Delivers(r, line, now) => DeliverCounts(cfg, l, r, line, now, st);
  }

  lemma {:induction false} RegisterCounts(cfg: Fanout, l: Ledger, phase: string, count: nat, st: Stream)
    requires Shaped(cfg, l) && phase !in l.counts
    ensures NextOf(AddPhase(cfg, l, phase, count).value.next, st) == NextOf(l.next, st)
  {
    RowsAdd(l.next, phase, cfg.clients, cfg.clients);
  }

  lemma {:induction false} DeliverCounts(cfg: Fanout, l: Ledger, recipient: nat, line: string, now: int, st: Stream)
    requires Strict(cfg) && Sound(cfg, l) && recipient < cfg.clients
    ensures Range(0, NextOf(l.next, st)) + Adds(cfg, l, Delivers(recipient, line, now), st) ==
            Range(0, NextOf(Receive(cfg, l, recipient, line, now).next, st))
  {}

  lemma {:induction false} StepAuthors(cfg: Fanout, l: Ledger, e: Event, m: Message)
    requires Strict(cfg) && Sound(cfg, l) && Step(cfg, l, e).Some?
    ensures m in Step(cfg, l, e).value.sent <==>
            m in l.sent || (e.Authors? && m == Message(e.phase, e.sender, e.sequence))
  {}

  lemma {:induction false} SentWasAuthored(cfg: Fanout, events: seq<Event>, m: Message)
    requires Strict(cfg) && Run(cfg, events).Some?
    ensures m in Run(cfg, events).value.sent <==> HasAuthored(events, m)
  {
    if events != [] {
      var n := |events| - 1;
      SentWasAuthored(cfg, events[..n], m);
      StepAuthors(cfg, Run(cfg, events[..n]).value, events[n], m);
      AuthoredSnoc(events, m);
    }
  }

  lemma {:induction false} AuthoredSnoc(events: seq<Event>, m: Message)
    requires events != []
    ensures var n := |events| - 1;
            HasAuthored(events, m) <==>
            || HasAuthored(events[..n], m)
            || (events[n].Authors? && m == Message(events[n].phase, events[n].sender, events[n].sequence))
  {
    var n := |events| - 1;
    assert forall i :: 0 <= i < n ==> events[..n][i] == events[i];
  }

  lemma {:induction false} AcceptedWasAuthored(cfg: Fanout, events: seq<Event>, st: Stream, q: nat)
    requires Strict(cfg) && Run(cfg, events).Some? && q in History(cfg, events, st)
    ensures HasAuthored(events, Message(st.phase, st.sender, q))
  {
    StreamsAreExact(cfg, events, st);
    SentWasAuthored(cfg, events, Message(st.phase, st.sender, q));
  }
}
