/**
 `prove_cleanup_and_no_submission` of tools/kernel_probe_startup_smoke.py: a pass over a
 system-call trace that accepts it only when every io_uring and listener that was opened
 was also cleaned up, and nothing was submitted or accepted.
 */
module ProbeTrace {
  import opened Options
  import opened ProbeRows

  datatype Event =
    | OpensRing(key: Key) | OpensSocket(key: Key) | Probes(key: Key) | Enters(key: Key)
    | Accepts | Binds(key: Key, port: nat) | Closes(key: Key) | Nothing

  /** What a row means to the checker. */
  function Meaning(row: Row, expected: set<nat>): Event {
    if row.call == IoUringSetup && row.returned.Some? then OpensRing(Key(row.pid, row.returned.value))
    else if row.call == Socket && row.returned.Some? then OpensSocket(Key(row.pid, row.returned.value))
    else if row.first.Some? then
      var key := Key(row.pid, row.first.value);
      if row.call == IoUringRegister && row.probe then Probes(key)
      else if row.call == IoUringEnter then Enters(key)
      else if row.call == Accept || row.call == Accept4 then Accepts
      else if row.call == Bind && row.zero then
        if row.port.Some? && row.port.value in expected then Binds(key, row.port.value) else Nothing
      else if row.call == Close && row.zero then Closes(key)
      else Nothing
    else Nothing
  }

  function Meanings(rows: seq<Row>, expected: set<nat>): (r: seq<Event>)
    ensures |r| == |rows| && forall i :: 0 <= i < |r| ==> r[i] == Meaning(rows[i], expected)
  {
    seq(|rows|, i requires 0 <= i < |rows| => Meaning(rows[i], expected))
  }

  // ---------------------------------------------------------------- generations

  /** Descriptor `k` is not closed by any event from `i` up to `n`. */
  ghost predicate Unclosed(trace: seq<Event>, k: Key, i: nat, n: nat) {
    n <= |trace| && forall j :: i <= j < n ==> trace[j] != Closes(k)
  }

  /** `e` happened before `n`, in the generation of its descriptor that is still running at `n`. */
  ghost predicate Since(trace: seq<Event>, e: Event, k: Key, n: nat) {
    exists i: nat :: i < n <= |trace| && trace[i] == e && Unclosed(trace, k, i, n)
  }

  ghost predicate RingOpen(trace: seq<Event>, k: Key, n: nat) { Since(trace, OpensRing(k), k, n) }
  ghost predicate Probed(trace: seq<Event>, k: Key, n: nat) { Since(trace, Probes(k), k, n) }
  ghost predicate SocketOpen(trace: seq<Event>, k: Key, n: nat) { Since(trace, OpensSocket(k), k, n) }

  /** Event `t` binds an expected port on an open socket. */
  ghost predicate Listens(trace: seq<Event>, t: nat, k: Key, port: nat) {
    t < |trace| && trace[t] == Binds(k, port) && SocketOpen(trace, k, t)
  }

  /** Some socket has listened on the port before `n`. */
  ghost predicate Heard(trace: seq<Event>, p: nat, n: nat) {
    exists t: nat, k :: t < n && Listens(trace, t, k, p)
  }

  /** The generation of `k` running at `n` has bound an expected port. */
  ghost predicate Bound(trace: seq<Event>, k: Key, n: nat) {
    exists t: nat, port: nat :: t < n && Listens(trace, t, k, port) && Unclosed(trace, k, t, n)
  }

  /** No generation is opened twice; probes hit open unprobed rings; no entry after the probe; no accept. */
  ghost predicate Allowed(trace: seq<Event>, t: nat)
    requires t < |trace|
  {
    match trace[t]
    case OpensRing(k) => !RingOpen(trace, k, t)
    case OpensSocket(k) => !SocketOpen(trace, k, t)
    case Probes(k) => RingOpen(trace, k, t) && !Probed(trace, k, t)
    case Enters(k) => !(RingOpen(trace, k, t) && Probed(trace, k, t))
    case Accepts => false
    case _ => true
  }

  function ProbeCount(trace: seq<Event>, n: nat): nat
    requires n <= |trace|
  {
    if n == 0 then 0 else ProbeCount(trace, n - 1) + if trace[n - 1].Probes? then 1 else 0
  }

  ghost predicate ClosedAfter(trace: seq<Event>, k: Key, i: nat) {
    exists j :: i <= j < |trace| && trace[j] == Closes(k)
  }

  /** The property the checker is for, stated over generations. */
  ghost predicate CleanTrace(trace: seq<Event>, expected: set<nat>, minimum: nat) {
    && (forall t: nat :: t < |trace| ==> Allowed(trace, t))
    && (forall i: nat :: i < |trace| && trace[i].OpensRing? ==> ClosedAfter(trace, trace[i].key, i))
    && ProbeCount(trace, |trace|) >= minimum
    && (forall p :: p in expected ==> Heard(trace, p, |trace|))
    && (forall t: nat, k, p: nat :: Listens(trace, t, k, p) ==> ClosedAfter(trace, k, t))
  }

  // ---------------------------------------------------------------- the checker

  datatype State = State(rings: map<Key, bool>, sockets: map<Key, Option<nat>>, ports: set<nat>, probes: nat)

  const Initial := State(map[], map[], {}, 0)

  /** One row of the loop; `None` where `demand` fails. */
  function Advance(s: State, e: Event): Option<State> {
    match e
    case OpensRing(k) => if k in s.rings then None else Some(s.(rings := s.rings[k := false]))
    case OpensSocket(k) => if k in s.sockets then None else Some(s.(sockets := s.sockets[k := None]))
    case Probes(k) =>
      if k !in s.rings || s.rings[k] then None else Some(s.(rings := s.rings[k := true], probes := s.probes + 1))
    case Enters(k) => if k in s.rings && s.rings[k] then None else Some(s)
    case Accepts => None
    case Binds(k, port) =>
      if k in s.sockets then Some(s.(sockets := s.sockets[k := Some(port)], ports := s.ports + {port})) else Some(s)
    case Closes(k) => Some(s.(rings := s.rings - {k}, sockets := s.sockets - {k}))
    case Nothing => Some(s)
  }

  ghost predicate Tracks(trace: seq<Event>, n: nat, s: State) {
    && n <= |trace|
    && (forall k :: k in s.rings <==> RingOpen(trace, k, n))
    && (forall k :: k in s.rings ==> (s.rings[k] <==> Probed(trace, k, n)))
    && (forall k :: k in s.sockets <==> SocketOpen(trace, k, n))
    && (forall k :: k in s.sockets ==> (s.sockets[k].Some? <==> Bound(trace, k, n)))
    && (forall p :: p in s.ports <==> Heard(trace, p, n))
    && s.probes == ProbeCount(trace, n)
  }

  // ---------------------------------------------------------------- one step

  lemma {:induction false} SinceStep(trace: seq<Event>, e: Event, k: Key, n: nat)
    requires n < |trace| && e != Closes(k)
    ensures Since(trace, e, k, n + 1) <==> trace[n] == e || (Since(trace, e, k, n) && trace[n] != Closes(k))
  {
    if Since(trace, e, k, n + 1) {
      var i: nat :| i < n + 1 && trace[i] == e && Unclosed(trace, k, i, n + 1);
      assert i < n ==> Unclosed(trace, k, i, n);
    }
    if trace[n] == e {
      assert Unclosed(trace, k, n, n + 1);
    }
    if Since(trace, e, k, n) && trace[n] != Closes(k) {
      var i: nat :| i < n && trace[i] == e && Unclosed(trace, k, i, n);
      assert Unclosed(trace, k, i, n + 1);
    }
  }

  lemma {:induction false} BoundStep(trace: seq<Event>, k: Key, n: nat)
    requires n < |trace|
    ensures Bound(trace, k, n + 1) <==>
            (trace[n].Binds? && trace[n].key == k && SocketOpen(trace, k, n))
              || (Bound(trace, k, n) && trace[n] != Closes(k))
  {
    if Bound(trace, k, n + 1) {
      var t: nat, port: nat :| t < n + 1 && Listens(trace, t, k, port) && Unclosed(trace, k, t, n + 1);
      assert t < n ==> Unclosed(trace, k, t, n);
      assert trace[n] == Closes(k) ==> t == n;
    }
    if trace[n].Binds? && trace[n].key == k && SocketOpen(trace, k, n) {
      assert Listens(trace, n, k, trace[n].port) && Unclosed(trace, k, n, n + 1);
    }
    if Bound(trace, k, n) && trace[n] != Closes(k) {
      var t: nat, port: nat :| t < n && Listens(trace, t, k, port) && Unclosed(trace, k, t, n);
      assert Unclosed(trace, k, t, n + 1);
    }
  }

  /** A probe or a bind of a generation cannot predate its opening. */
  lemma {:induction false} FreshIsBare(trace: seq<Event>, k: Key, n: nat)
    requires n <= |trace| && forall t: nat :: t < n ==> Allowed(trace, t)
    ensures Probed(trace, k, n) ==> RingOpen(trace, k, n)
    ensures Bound(trace, k, n) ==> SocketOpen(trace, k, n)
  {
    if Probed(trace, k, n) {
      var i: nat :| i < n && trace[i] == Probes(k) && Unclosed(trace, k, i, n);
      assert Allowed(trace, i);
      Outlives(trace, OpensRing(k), k, i, n);
    }
    if Bound(trace, k, n) {
      var t: nat, port: nat :| t < n && Listens(trace, t, k, port) && Unclosed(trace, k, t, n);
      Outlives(trace, OpensSocket(k), k, t, n);
    }
  }

  lemma {:induction false} Outlives(trace: seq<Event>, e: Event, k: Key, i: nat, n: nat)
    requires i <= n && Since(trace, e, k, i) && Unclosed(trace, k, i, n)
    ensures Since(trace, e, k, n)
  {
    var j: nat :| j < i <= |trace| && trace[j] == e && Unclosed(trace, k, j, i);
    assert Unclosed(trace, k, j, n);
  }

  /** Rows are refused exactly when they are not allowed. */
  lemma {:induction false} AdvanceRefuses(trace: seq<Event>, n: nat, s: State)
    requires n < |trace| && Tracks(trace, n, s)
    ensures Advance(s, trace[n]).Some? <==> Allowed(trace, n)
  {}

  lemma {:induction false} RingsTrack(trace: seq<Event>, n: nat, s: State, k: Key)
    requires n < |trace| && Tracks(trace, n, s) && Advance(s, trace[n]).Some?
    requires forall t: nat :: t < n ==> Allowed(trace, t)
    ensures var s' := Advance(s, trace[n]).value;
            && (k in s'.rings <==> RingOpen(trace, k, n + 1))
            && (k in s'.rings ==> (s'.rings[k] <==> Probed(trace, k, n + 1)))
  {
    hide Since, Unclosed, Bound, Heard;
    SinceStep(trace, OpensRing(k), k, n);
    SinceStep(trace, Probes(k), k, n);
    FreshIsBare(trace, k, n);
  }

  lemma {:induction false} SocketsTrack(trace: seq<Event>, n: nat, s: State, k: Key)
    requires n < |trace| && Tracks(trace, n, s) && Advance(s, trace[n]).Some?
    requires forall t: nat :: t < n ==> Allowed(trace, t)
    ensures var s' := Advance(s, trace[n]).value;
            && (k in s'.sockets <==> SocketOpen(trace, k, n + 1))
            && (k in s'.sockets ==> (s'.sockets[k].Some? <==> Bound(trace, k, n + 1)))
  {
    hide Since, Unclosed, Bound, Heard;
    SinceStep(trace, OpensSocket(k), k, n);
    BoundStep(trace, k, n);
    FreshIsBare(trace, k, n);
  }

  lemma {:induction false} PortsTrack(trace: seq<Event>, n: nat, s: State, p: nat)
    requires n < |trace| && Tracks(trace, n, s) && Advance(s, trace[n]).Some?
    ensures p in Advance(s, trace[n]).value.ports <==> Heard(trace, p, n + 1)
  {
    hide Since, Unclosed, Bound, Heard;
    HeardStep(trace, p, n);
  }

  lemma {:induction false} HeardStep(trace: seq<Event>, p: nat, n: nat)
    requires n < |trace|
    ensures Heard(trace, p, n + 1) <==>
            Heard(trace, p, n) || (trace[n].Binds? && trace[n].port == p && SocketOpen(trace, trace[n].key, n))
  {
    if Heard(trace, p, n + 1) {
      var t: nat, k :| t < n + 1 && Listens(trace, t, k, p);
      assert t < n ==> Heard(trace, p, n);
    }
    if Heard(trace, p, n) {
      var t: nat, k :| t < n && Listens(trace, t, k, p);
      assert t < n + 1;
    }
    if trace[n].Binds? && trace[n].port == p && SocketOpen(trace, trace[n].key, n) {
      assert Listens(trace, n, trace[n].key, p);
    }
  }

  lemma {:induction false} AdvanceTracks(trace: seq<Event>, n: nat, s: State)
    requires n < |trace| && Tracks(trace, n, s) && Advance(s, trace[n]).Some?
    requires forall t: nat :: t < n ==> Allowed(trace, t)
    ensures Tracks(trace, n + 1, Advance(s, trace[n]).value)
  {
    hide RingOpen, Probed, SocketOpen, Bound, Heard, Allowed;
    var s' := Advance(s, trace[n]).value;
    forall k ensures (k in s'.rings <==> RingOpen(trace, k, n + 1))
      && (k in s'.rings ==> (s'.rings[k] <==> Probed(trace, k, n + 1))) {
      RingsTrack(trace, n, s, k);
    }
    forall k ensures (k in s'.sockets <==> SocketOpen(trace, k, n + 1))
      && (k in s'.sockets ==> (s'.sockets[k].Some? <==> Bound(trace, k, n + 1))) {
      SocketsTrack(trace, n, s, k);
    }
    forall p: nat ensures p in s'.ports <==> Heard(trace, p, n + 1) {
      PortsTrack(trace, n, s, p);
    }
  }

  // ---------------------------------------------------------------- the verdict

  lemma {:induction false} ClosedOrNot(trace: seq<Event>, k: Key, i: nat)
    ensures ClosedAfter(trace, k, i) <==> !Unclosed(trace, k, i, |trace|)
  {}

  lemma {:induction false} RingsClosed(trace: seq<Event>)
    ensures (forall k :: !RingOpen(trace, k, |trace|)) <==>
            (forall i: nat :: i < |trace| && trace[i].OpensRing? ==> ClosedAfter(trace, trace[i].key, i))
  {
    forall k, i ensures ClosedAfter(trace, k, i) <==> !Unclosed(trace, k, i, |trace|) {
      ClosedOrNot(trace, k, i);
    }
    if i: nat :| i < |trace| && trace[i].OpensRing? && !ClosedAfter(trace, trace[i].key, i) {
      assert Unclosed(trace, trace[i].key, i, |trace|);
      assert RingOpen(trace, trace[i].key, |trace|);
    }
  }

  lemma {:induction false} ListenersClosed(trace: seq<Event>)
    ensures (forall k :: !Bound(trace, k, |trace|)) <==>
            (forall t: nat, k, p: nat :: Listens(trace, t, k, p) ==> ClosedAfter(trace, k, t))
  {
    forall k, i ensures ClosedAfter(trace, k, i) <==> !Unclosed(trace, k, i, |trace|) {
      ClosedOrNot(trace, k, i);
    }
    if t: nat, k, p: nat :| Listens(trace, t, k, p) && !ClosedAfter(trace, k, t) {
      assert Unclosed(trace, k, t, |trace|);
      assert Bound(trace, k, |trace|);
    }
  }

  /** The final demands, over the state the loop leaves. */
  predicate Settled(s: State, expected: set<nat>, minimum: nat) {
    && s.probes >= minimum && s.rings == map[]
    && s.ports == expected && forall k :: k in s.sockets ==> s.sockets[k].None?
  }

  ghost predicate OnlyExpected(trace: seq<Event>, expected: set<nat>) {
    forall t: nat :: t < |trace| && trace[t].Binds? ==> trace[t].port in expected
  }

  lemma {:induction false} PortsSettle(trace: seq<Event>, s: State, expected: set<nat>)
    requires Tracks(trace, |trace|, s) && OnlyExpected(trace, expected)
    ensures s.ports == expected <==> forall p :: p in expected ==> Heard(trace, p, |trace|)
  {
    forall p | p in s.ports ensures p in expected {
      assert Heard(trace, p, |trace|);
    }
    assert s.ports <= expected;
  }

  lemma {:induction false} SettledIsClean(trace: seq<Event>, s: State, expected: set<nat>, minimum: nat)
    requires Tracks(trace, |trace|, s) && OnlyExpected(trace, expected)
    requires forall t: nat :: t < |trace| ==> Allowed(trace, t)
    ensures Settled(s, expected, minimum) <==> CleanTrace(trace, expected, minimum)
  {
    RingsClosed(trace);
    ListenersClosed(trace);
    PortsSettle(trace, s, expected);
    assert s.rings == map[] <==> forall k :: !RingOpen(trace, k, |trace|);
    assert (forall k :: k in s.sockets ==> s.sockets[k].None?) <==> forall k :: !Bound(trace, k, |trace|) by {
      forall k ensures Bound(trace, k, |trace|) ==> k in s.sockets {
        FreshIsBare(trace, k, |trace|);
      }
    }
  }

  /** One row of the loop, on the dictionaries. */
  method Observe(row: Row, expected: set<nat>, s: State) returns (ok: bool, after: State)
    ensures ok <==> Advance(s, Meaning(row, expected)).Some?
    ensures after == if ok then Advance(s, Meaning(row, expected)).value else s
  {
    var rings, sockets, ports, probes := s.rings, s.sockets, s.ports, s.probes;
    after := s;
    if row.call == IoUringSetup && row.returned.Some? {
      var key := Key(row.pid, row.returned.value);
      if key in rings {
        return false, s;
      }
      rings := rings[key := false];
    } else if row.call == Socket && row.returned.Some? {
      var key := Key(row.pid, row.returned.value);
      if key in sockets {
        return false, s;
      }
      sockets := sockets[key := None];
    } else if row.first.Some? {
      var key := Key(row.pid, row.first.value);
      if row.call == IoUringRegister && row.probe {
        if key !in rings || rings[key] {
          return false, s;
        }
        rings, probes := rings[key := true], probes + 1;
      } else if row.call == IoUringEnter && key in rings && rings[key] {
        return false, s;
      } else if row.call == Accept || row.call == Accept4 {
        return false, s;
      } else if row.call == Bind && key in sockets && row.zero {
        if row.port.Some? && row.port.value in expected {
          sockets, ports := sockets[key := Some(row.port.value)], ports + {row.port.value};
        }
      } else if row.call == Close && row.zero {
        rings, sockets := rings - {key}, sockets - {key};
      }
    }
    return true, State(rings, sockets, ports, probes);
  }

  ghost predicate AllAllowed(trace: seq<Event>, n: nat) {
    n <= |trace| && forall t: nat :: t < n ==> Allowed(trace, t)
  }

  lemma {:induction false} RowDecides(trace: seq<Event>, n: nat, s: State)
    requires n < |trace| && Tracks(trace, n, s) && AllAllowed(trace, n)
    ensures Advance(s, trace[n]).Some? <==> AllAllowed(trace, n + 1)
    ensures Advance(s, trace[n]).Some? ==> Tracks(trace, n + 1, Advance(s, trace[n]).value)
  {
    AdvanceRefuses(trace, n, s);
    if Advance(s, trace[n]).Some? { AdvanceTracks(trace, n, s); }
  }

  /** The loop after `n` rows, or nothing once a row was refused. */
  function After(trace: seq<Event>, n: nat): Option<State>
    requires n <= |trace|
  {
    if n == 0 then Some(Initial)
    else
      var before := After(trace, n - 1);
      if before.None? then None else Advance(before.value, trace[n - 1])
  }

  lemma {:induction false} AfterTracks(trace: seq<Event>, n: nat)
    requires n <= |trace|
    ensures After(trace, n).Some? <==> AllAllowed(trace, n)
    ensures After(trace, n).Some? ==> Tracks(trace, n, After(trace, n).value)
  {
    if n > 0 {
      var m := n - 1;
      AfterTracks(trace, m);
      if After(trace, m).Some? { RowDecides(trace, m, After(trace, m).value); }
    }
  }

  lemma {:induction false} RefusalLasts(trace: seq<Event>, n: nat, m: nat)
    requires n <= m <= |trace| && After(trace, n).None?
    ensures After(trace, m).None?
    decreases m
  {
    if n < m { RefusalLasts(trace, n, m - 1); }
  }

  lemma {:induction false} VerdictIsExact(trace: seq<Event>, expected: set<nat>, minimum: nat)
    requires OnlyExpected(trace, expected)
    ensures CleanTrace(trace, expected, minimum) <==>
            After(trace, |trace|).Some? && Settled(After(trace, |trace|).value, expected, minimum)
  {
    AfterTracks(trace, |trace|);
    if After(trace, |trace|).Some? {
      SettledIsClean(trace, After(trace, |trace|).value, expected, minimum);
    }
  }

  lemma {:induction false} MeaningsAreExpected(rows: seq<Row>, expected: set<nat>)
    ensures OnlyExpected(Meanings(rows, expected), expected)
  {}

  /** The loop over the rows; nothing once `demand` fails. */
  method Scan(rows: seq<Row>, expected: set<nat>) returns (end: Option<State>)
    ensures end == After(Meanings(rows, expected), |rows|)
  {
    ghost var trace := Meanings(rows, expected);
    var s := Initial;
    for n := 0 to |rows|
      invariant After(trace, n) == Some(s)
    {
      var fine, after := Observe(rows[n], expected, s);
      if !fine {
        RefusalLasts(trace, n + 1, |trace|);
        return None;
      }
      s := after;
    }
    return Some(s);
  }

  // ---------------------------------------------------------------- events and rows

  /** What each event says about the row it comes from. */
  lemma {:induction false} MeaningIs(row: Row, expected: set<nat>, k: Key)
    ensures var e := Meaning(row, expected);
            && (e == OpensRing(k) <==> Returns(row, IoUringSetup, k))
            && (e == OpensSocket(k) <==> Returns(row, Socket, k))
            && (e == Probes(k) <==> IsProbe(row, k))
            && (e == Enters(k) <==> Names(row, IoUringEnter, k))
            && (e == Closes(k) <==> IsClose(row, k))
            && (e == Accepts <==> (row.call == Accept || row.call == Accept4) && row.first.Some?)
            && (forall p :: e == Binds(k, p) <==> IsBind(row, k, p) && p in expected)
  {}

  lemma {:induction false} MeaningAt(rows: seq<Row>, expected: set<nat>, n: nat, k: Key)
    requires n < |rows|
    ensures var e := Meanings(rows, expected)[n];
            && (e == OpensRing(k) <==> Returns(rows[n], IoUringSetup, k))
            && (e == OpensSocket(k) <==> Returns(rows[n], Socket, k))
            && (e == Probes(k) <==> IsProbe(rows[n], k))
            && (e == Enters(k) <==> Names(rows[n], IoUringEnter, k))
            && (e == Closes(k) <==> IsClose(rows[n], k))
            && (e == Accepts <==> (rows[n].call == Accept || rows[n].call == Accept4) && rows[n].first.Some?)
            && (forall p :: e == Binds(k, p) <==> IsBind(rows[n], k, p) && p in expected)
  {
    hide Meaning;
    MeaningIs(rows[n], expected, k);
  }

  lemma {:induction false} AliveIs(rows: seq<Row>, expected: set<nat>, k: Key, i: nat, n: nat)
    requires i < n <= |rows| && Meanings(rows, expected)[i] != Closes(k)
    ensures Unclosed(Meanings(rows, expected), k, i, n) <==> Alive(rows, k, i, n)
  {
    var trace := Meanings(rows, expected);
    hide Meanings, IsClose;
    if Unclosed(trace, k, i, n) {
      forall j | i < j < n ensures !IsClose(rows[j], k) {
        assert trace[j] != Closes(k);
        MeaningAt(rows, expected, j, k);
      }
    }
    if Alive(rows, k, i, n) {
      forall j | i <= j < n ensures trace[j] != Closes(k) {
        if i < j { MeaningAt(rows, expected, j, k); }
      }
    }
  }

  /** An event that stands for a property of its row. */
  lemma {:induction false} SinceIs(rows: seq<Row>, expected: set<nat>, e: Event, k: Key, n: nat, holds: Row -> bool)
    requires n <= |rows| && e != Closes(k)
    requires forall i :: 0 <= i < |rows| ==> (Meanings(rows, expected)[i] == e <==> holds(rows[i]))
    ensures Since(Meanings(rows, expected), e, k, n)
       <==> exists i: nat :: i < n && holds(rows[i]) && Alive(rows, k, i, n)
  {
    var trace := Meanings(rows, expected);
    hide Meanings, Alive, Unclosed;
    if Since(trace, e, k, n) {
      var i: nat :| i < n && trace[i] == e && Unclosed(trace, k, i, n);
      AliveIs(rows, expected, k, i, n);
      assert holds(rows[i]);
    }
    if i: nat :| i < n && holds(rows[i]) && Alive(rows, k, i, n) {
      assert trace[i] == e;
      AliveIs(rows, expected, k, i, n);
    }
  }

  lemma {:induction false} OpenIs(rows: seq<Row>, expected: set<nat>, k: Key, n: nat)
    requires n <= |rows|
    ensures RingOpen(Meanings(rows, expected), k, n) <==> IsOpen(rows, IoUringSetup, k, n)
    ensures SocketOpen(Meanings(rows, expected), k, n) <==> IsOpen(rows, Socket, k, n)
    ensures Probed(Meanings(rows, expected), k, n) <==> WasProbed(rows, k, n)
  {
    var trace := Meanings(rows, expected);
    forall i | 0 <= i < |rows|
      ensures trace[i] == OpensRing(k) <==> Returns(rows[i], IoUringSetup, k)
      ensures trace[i] == OpensSocket(k) <==> Returns(rows[i], Socket, k)
      ensures trace[i] == Probes(k) <==> IsProbe(rows[i], k)
    {
      MeaningAt(rows, expected, i, k);
    }
    hide Meanings, Since, Alive, Returns, IsProbe;
    SinceIs(rows, expected, OpensRing(k), k, n, row => Returns(row, IoUringSetup, k));
    SinceIs(rows, expected, OpensSocket(k), k, n, row => Returns(row, Socket, k));
    SinceIs(rows, expected, Probes(k), k, n, row => IsProbe(row, k));
  }

  lemma {:induction false} ClosedIs(rows: seq<Row>, expected: set<nat>, k: Key, n: nat)
    requires n < |rows| && Meanings(rows, expected)[n] != Closes(k)
    ensures ClosedAfter(Meanings(rows, expected), k, n) <==> ClosedLater(rows, k, n)
  {
    AliveIs(rows, expected, k, n, |rows|);
    ClosedOrNot(Meanings(rows, expected), k, n);
  }

  lemma {:induction false} BindIs(rows: seq<Row>, expected: set<nat>, n: nat, k: Key, p: nat)
    ensures Listens(Meanings(rows, expected), n, k, p) <==> BindsPort(rows, expected, n, k, p)
  {
    hide Meanings, IsBind, SocketOpen, IsOpen;
    if n < |rows| {
      MeaningAt(rows, expected, n, k);
      OpenIs(rows, expected, k, n);
    }
  }

  lemma {:induction false} CountIs(rows: seq<Row>, expected: set<nat>, n: nat)
    requires n <= |rows|
    ensures ProbeCount(Meanings(rows, expected), n) == ProbeRowsIn(rows, n)
  {
    if n > 0 { CountIs(rows, expected, n - 1); }
  }

  /** The descriptor an event is about. */
  function KeyOf(e: Event): Key { match e case Accepts => Key("", "") case Nothing => Key("", "") case _ => e.key }

  lemma {:induction false} FineIs(rows: seq<Row>, expected: set<nat>, n: nat)
    requires n < |rows|
    ensures Allowed(Meanings(rows, expected), n) <==> RowFine(rows, n)
  {
    var trace := Meanings(rows, expected);
    var key := KeyOf(trace[n]);
    hide Meanings, RingOpen, SocketOpen, Probed, IsOpen, WasProbed, Returns, IsProbe, Names;
    MeaningAt(rows, expected, n, key);
    OpenIs(rows, expected, key, n);
    forall k
      ensures Returns(rows[n], IoUringSetup, k) ==> trace[n] == OpensRing(k)
      ensures Returns(rows[n], Socket, k) ==> trace[n] == OpensSocket(k)
      ensures IsProbe(rows[n], k) ==> trace[n] == Probes(k)
      ensures Names(rows[n], IoUringEnter, k) ==> trace[n] == Enters(k)
    {
      MeaningAt(rows, expected, n, k);
    }
  }

  /** The property over events is the property over rows. */
  lemma {:induction false} CleanIs(rows: seq<Row>, expected: set<nat>, minimum: nat)
    ensures CleanTrace(Meanings(rows, expected), expected, minimum) <==> CleanRows(rows, expected, minimum)
  {
    var trace := Meanings(rows, expected);
    hide Meanings, Allowed, RowFine, ClosedAfter, ClosedLater, Listens, BindsPort, Returns;
    forall n: nat | n < |rows| ensures Allowed(trace, n) <==> RowFine(rows, n) { FineIs(rows, expected, n); }
    CountIs(rows, expected, |rows|);
    RingsClosedIs(rows, expected);
    PortsClosedIs(rows, expected);
    PortsBoundIs(rows, expected);
  }

  lemma {:induction false} RingsClosedIs(rows: seq<Row>, expected: set<nat>)
    ensures var trace := Meanings(rows, expected);
            ((forall i: nat :: i < |trace| && trace[i].OpensRing? ==> ClosedAfter(trace, trace[i].key, i)) <==>
             (forall n: nat, k :: n < |rows| && Returns(rows[n], IoUringSetup, k) ==> ClosedLater(rows, k, n)))
  {
    var trace := Meanings(rows, expected);
    hide Meanings, ClosedAfter, ClosedLater, Returns;
    forall n: nat, k | n < |rows|
      ensures trace[n] == OpensRing(k) <==> Returns(rows[n], IoUringSetup, k)
      ensures trace[n] == OpensRing(k) ==> (ClosedAfter(trace, k, n) <==> ClosedLater(rows, k, n))
    {
      MeaningAt(rows, expected, n, k);
      if trace[n] == OpensRing(k) { ClosedIs(rows, expected, k, n); }
    }
    if forall n: nat, k :: n < |rows| && Returns(rows[n], IoUringSetup, k) ==> ClosedLater(rows, k, n) {
      forall i: nat | i < |trace| && trace[i].OpensRing? ensures ClosedAfter(trace, trace[i].key, i) {
        assert Returns(rows[i], IoUringSetup, trace[i].key);
      }
    }
  }

  lemma {:induction false} PortsClosedIs(rows: seq<Row>, expected: set<nat>)
    ensures var trace := Meanings(rows, expected);
            ((forall t: nat, k, p: nat :: Listens(trace, t, k, p) ==> ClosedAfter(trace, k, t)) <==>
             (forall n: nat, k, p: nat :: BindsPort(rows, expected, n, k, p) ==> ClosedLater(rows, k, n)))
  {
    var trace := Meanings(rows, expected);
    hide Meanings, ClosedAfter, ClosedLater, BindsPort;
    forall n: nat, k, p: nat
      ensures Listens(trace, n, k, p) <==> BindsPort(rows, expected, n, k, p)
      ensures Listens(trace, n, k, p) ==> (ClosedAfter(trace, k, n) <==> ClosedLater(rows, k, n))
    {
      BindIs(rows, expected, n, k, p);
      if Listens(trace, n, k, p) { ClosedIs(rows, expected, k, n); }
    }
  }

  lemma {:induction false} PortsBoundIs(rows: seq<Row>, expected: set<nat>)
    ensures var trace := Meanings(rows, expected);
            ((forall p :: p in expected ==> Heard(trace, p, |trace|)) <==>
             (forall p :: p in expected ==> exists n: nat, k :: BindsPort(rows, expected, n, k, p)))
  {
    var trace := Meanings(rows, expected);
    forall p: nat ensures Heard(trace, p, |trace|) <==> exists n: nat, k :: BindsPort(rows, expected, n, k, p) {
      hide Meanings, Listens, BindsPort;
      forall n: nat, k ensures Listens(trace, n, k, p) <==> BindsPort(rows, expected, n, k, p) {
        BindIs(rows, expected, n, k, p);
      }
      ListensInside(rows, expected, p);
    }
  }

  lemma {:induction false} ListensInside(rows: seq<Row>, expected: set<nat>, p: nat)
    ensures forall n: nat, k :: BindsPort(rows, expected, n, k, p) ==> n < |rows|
  {}

  lemma {:induction false} RowsVerdict(rows: seq<Row>, expected: set<nat>, minimum: nat)
    ensures var trace := Meanings(rows, expected);
            CleanRows(rows, expected, minimum) <==>
              After(trace, |trace|).Some? && Settled(After(trace, |trace|).value, expected, minimum)
  {
    hide CleanRows, CleanTrace, After, Settled, Meanings, Meaning, OnlyExpected;
    CleanIs(rows, expected, minimum);
    MeaningsAreExpected(rows, expected);
    VerdictIsExact(Meanings(rows, expected), expected, minimum);
  }

  /** The checker accepts exactly the clean traces. */
  method ProveCleanup(rows: seq<Row>, expected: set<nat>, minimum: nat) returns (ok: bool)
    ensures ok <==> CleanRows(rows, expected, minimum)
  {
    var end := Scan(rows, expected);
    ok := end.Some? && Settled(end.value, expected, minimum);
    RowsVerdict(rows, expected, minimum);
  }

  // ---------------------------------------------------------------- rows that say nothing

  /** A row that proves nothing and harms nothing: most of all a close or a bind that failed. */
  predicate Idle(row: Row, expected: set<nat>) {
    match row.call
    case Close => !row.zero || row.first.None?
    case Bind => !row.zero || row.first.None? || row.port.None? || row.port.value !in expected
    case IoUringRegister => !row.probe || row.first.None?
    case IoUringSetup => row.returned.None?
    case Socket => row.returned.None?
    case IoUringEnter => row.first.None?
    case Accept => row.first.None?
    case Accept4 => row.first.None?
    case Listen => true
  }

  lemma {:induction false} IdleMeansNothing(row: Row, expected: set<nat>)
    requires Idle(row, expected)
    ensures Meaning(row, expected) == Nothing
  {}

  lemma {:induction false} NothingInserted(a: seq<Event>, b: seq<Event>, m: nat)
    requires m <= |b|
    ensures After(a + [Nothing] + b, |a| + 1 + m) == After(a + b, |a| + m)
  {
    if m > 0 {
      NothingInserted(a, b, m - 1);
      assert (a + [Nothing] + b)[|a| + m] == b[m - 1] == (a + b)[|a| + m - 1];
    } else {
      AfterPrefix(a + [Nothing] + b, a + b, |a|);
      assert (a + [Nothing] + b)[|a|] == Nothing;
    }
  }

  lemma {:induction false} AfterPrefix(a: seq<Event>, b: seq<Event>, n: nat)
    requires n <= |a| && n <= |b| && forall i :: 0 <= i < n ==> a[i] == b[i]
    ensures After(a, n) == After(b, n)
  {
    if n > 0 { AfterPrefix(a, b, n - 1); }
  }

  /** Such a row can stand anywhere without changing the verdict. */
  lemma {:induction false} IdleRowsAreInvisible(a: seq<Row>, row: Row, b: seq<Row>, expected: set<nat>, minimum: nat)
    requires Idle(row, expected)
    ensures CleanRows(a + [row] + b, expected, minimum) <==> CleanRows(a + b, expected, minimum)
  {
    hide CleanRows, Settled, After, Idle, Meaning;
    var with, without := a + [row] + b, a + b;
    var x, y := Meanings(a, expected), Meanings(b, expected);
    IdleMeansNothing(row, expected);
    MeaningsJoin(a, row, b, expected);
    NothingInserted(x, y, |y|);
    hide Meanings;
    RowsVerdict(with, expected, minimum);
    RowsVerdict(without, expected, minimum);
  }

  lemma {:induction false} MeaningsJoin(a: seq<Row>, row: Row, b: seq<Row>, expected: set<nat>)
    ensures Meanings(a + [row] + b, expected)
         == Meanings(a, expected) + [Meaning(row, expected)] + Meanings(b, expected)
    ensures Meanings(a + b, expected) == Meanings(a, expected) + Meanings(b, expected)
  {
    hide Meaning;
  }
}
