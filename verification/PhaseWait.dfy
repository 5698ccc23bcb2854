/**
 `phase_wait` of tools/bench_live.py over the one event that all waiting tasks share.  A task
 keeps the processor until it parks, so the steps between two parkings are one segment.
 */
module PhaseWait {
  import opened Options

  datatype Task = SenderTask(i: nat) | FinishTask

  /** An asyncio event: its value, and the tasks whose wait has not been answered yet. */
  datatype Signal = Signal(value: bool, waiters: set<Task>)

  function WhenSet(e: Signal): Signal { Signal(true, {}) }
  function WhenCleared(e: Signal): Signal { e.(value := false) }

  /** Where a task stands in the loop. */
  datatype Place = Testing | Clearing | Retesting | Waiting | Parked | Through

  predicate Suspended(p: Place) { p == Parked || p == Through }

  /** The next thing a running task does, and the event afterwards. */
  function Move(e: Signal, t: Task, p: Place, condition: bool): (Signal, Place)
    requires !Suspended(p)
  {
    match p
    case Testing => (e, if condition then Through else Clearing)
    case Clearing => (WhenCleared(e), Retesting)
    case Retesting => (e, if condition then Through else Waiting)
    case Waiting => if e.value then (e, Testing) else (e.(waiters := e.waiters + {t}), Parked)
  }

  /** How far a task is from suspension: a set value sends it round the loop once more. */
  function Distance(e: Signal, p: Place): nat {
    match p
    case Waiting => if e.value then 5 else 1
    case Testing => 4
    case Clearing => 3
    case Retesting => if e.value then 6 else 2
    case _ => 0
  }

  /** A segment: the task moves until it is through or parked; nobody else runs meanwhile. */
  function Segment(e: Signal, t: Task, p: Place, condition: bool): (Signal, Place)
    decreases Distance(e, p)
  {
    if Suspended(p) then (e, p)
    else var (e', p') := Move(e, t, p, condition); Segment(e', t, p', condition)
  }

  /** From the head of the loop: through with the event untouched, or parked with its value cleared. */
  lemma {:induction false} SegmentEnds(e: Signal, t: Task, condition: bool)
    ensures Segment(e, t, Testing, condition)
         == if condition then (e, Through) else (Signal(false, e.waiters + {t}), Parked)
  {
    if !condition {
      var cleared := WhenCleared(e);
      assert Segment(cleared, t, Waiting, condition) == (Signal(false, e.waiters + {t}), Parked);
      assert Segment(e, t, Clearing, condition) == Segment(cleared, t, Retesting, condition);
    }
  }

  // ---------------------------------------------------------------- the loop as written

  class AsyncEvent {
    var value: bool
    var waiters: set<Task>

    function State(): Signal reads this { Signal(value, waiters) }

    constructor ()
      ensures State() == Signal(false, {})
    {
      value, waiters := false, {};
    }

    method Set()
      modifies this
      ensures State() == WhenSet(old(State()))
    {
      value, waiters := true, {};
    }

    method Clear()
      modifies this`value
      ensures State() == WhenCleared(old(State()))
    {
      value := false;
    }

    /** Returns at once when the value is set; otherwise the task is parked. */
    method Wait(t: Task) returns (parked: bool)
      modifies this`waiters
      ensures (State(), if parked then Parked else Testing) == Move(old(State()), t, Waiting, false)
    {
      if value { return false; }
      waiters := waiters + {t};
      return true;
    }
  }

  /** What a task finds when it starts or resumes: the event as the others left it, and its condition. */
  datatype Moment = Moment(event: Signal, condition: bool)

  /** The task `t` goes on at a moment that the others have reached. */
  method Resume(changed: AsyncEvent, at: Moment)
    modifies changed
    ensures changed.State() == at.event
  {
    changed.value, changed.waiters := at.event.value, at.event.waiters;
  }

  /**
   The loop over all its segments: it ends at the first moment whose condition holds, each
   earlier moment is one segment that parks, and the event is what that segment leaves.
   */
  method WaitLoop(changed: AsyncEvent, t: Task, moments: seq<Moment>) returns (through: bool, used: nat)
    requires moments != [] && changed.State() == moments[0].event
    modifies changed
    ensures used < |moments| && forall k :: 0 <= k < used ==> !moments[k].condition
    ensures through <==> moments[used].condition
    ensures !through ==> used == |moments| - 1
    ensures (changed.State(), if through then Through else Parked)
         == Segment(moments[used].event, t, Testing, moments[used].condition)
  {
    used := 0;
    while !moments[used].condition
      invariant used < |moments| && forall k :: 0 <= k < used ==> !moments[k].condition
      invariant changed.State() == moments[used].event
      decreases |moments| - used
    {
      SegmentEnds(changed.State(), t, moments[used].condition);
      changed.Clear();
      if moments[used].condition { return true, used; }
      var parked := changed.Wait(t);
      if parked {
        if used + 1 == |moments| { return false, used; }
        used := used + 1;
        Resume(changed, moments[used]);
      }
    }
    SegmentEnds(changed.State(), t, true);
    return true, used;
  }

  // ---------------------------------------------------------------- any interleaving

  /** Many tasks on one event, and those whose condition holds at the moment. */
  datatype Hall = Hall(event: Signal, places: map<Task, Place>, met: set<Task>)

  datatype Deed =
    | Runs(t: Task)
    | Delivers(met: set<Task>)
    | Enters(t: Task, condition: bool)

  /** A second test that fails goes straight on to the wait: nothing suspends in between. */
  function Stride(e: Signal, t: Task, p: Place, condition: bool): (Signal, Place)
    requires !Suspended(p)
  {
    var (e', p') := Move(e, t, p, condition);
    if p == Retesting && p' == Waiting then Move(e', t, p', condition) else (e', p')
  }

  /** Every parked task is put back to the head of its loop. */
  function Awake(places: map<Task, Place>): map<Task, Place> {
    map t | t in places :: if places[t] == Parked then Testing else places[t]
  }

  function Do(h: Hall, d: Deed): Option<Hall> {
    match d
    case Runs(t) =>
      if t !in h.places || Suspended(h.places[t]) then None
      else
        var (e, p) := Stride(h.event, t, h.places[t], t in h.met);
        Some(Hall(e, h.places[t := p], h.met))
    case Delivers(met) => Some(Hall(WhenSet(h.event), Awake(h.places), h.met + met))
    case Enters(t, condition) =>
      if t in h.places && h.places[t] != Through then None
      else Some(Hall(h.event, h.places[t := Testing], if condition then h.met + {t} else h.met - {t}))
  }

  function DoAll(h: Hall, deeds: seq<Deed>, n: nat): Option<Hall>
    requires n <= |deeds|
  {
    if n == 0 then Some(h)
    else
      var before := DoAll(h, deeds, n - 1);
      if before.None? then None else Do(before.value, deeds[n - 1])
  }

  const Nobody := Hall(Signal(false, {}), map[], {})

  /** Nobody is stopped short of the wait; the parked tasks are the event's, and what each waits for is not so. */
  ghost predicate Patient(h: Hall) {
    && (forall t :: t in h.places ==> h.places[t] != Waiting)
    && (forall t :: t in h.event.waiters <==> t in h.places && h.places[t] == Parked)
    && (forall t :: t in h.event.waiters ==> t !in h.met)
  }

  lemma {:induction false} DeedKeeps(h: Hall, d: Deed)
    requires Patient(h) && Do(h, d).Some?
    ensures Patient(Do(h, d).value)
  {}

  /** No wakeup is lost, for any number of tasks and any order of clears, sets and waits. */
  lemma {:induction false} NoLostWakeup(deeds: seq<Deed>, n: nat)
    requires n <= |deeds| && DoAll(Nobody, deeds, n).Some?
    ensures Patient(DoAll(Nobody, deeds, n).value)
  {
    if n > 0 {
      NoLostWakeup(deeds, n - 1);
      DeedKeeps(DoAll(Nobody, deeds, n - 1).value, deeds[n - 1]);
    }
  }
}
