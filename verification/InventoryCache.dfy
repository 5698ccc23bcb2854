/**
 `InventoryCache` of tools/announce_bot.py as a protocol: any number of threads call
 `request`, one worker takes keys off the queue and measures them.  The lock covers the set
 of queued keys and the results; `put` happens after the lock is released.
 */
module InventoryCache {
  import opened Options

  type Key = string
  type Thread = nat
  type Item = string

  datatype Worker =
    | NotStarted
    | Waiting                                   // in get(timeout=60)
    | Refreshing(rest: seq<Key>)                // the periodic refresh, before the next request
    | Putting(key: Key, rest: seq<Key>)         // refreshing, between lock release and put
    | Measuring(key: Key)

  /** `holding` maps each requesting thread between lock release and put to its key. */
  datatype Cache = Cache(queued: set<Key>, queue: seq<Key>, holding: map<Thread, Key>, worker: Worker,
      items: map<Key, Item>)

  datatype Act =
    | Start
    | Request(t: Thread, key: Key)
    | Put(t: Thread)
    | Get
    | Timeout
    | Refresh
    | WorkerPut
    | Finish(item: Item)

  const Empty := Cache({}, [], map[], NotStarted, map[])

  /** One atomic step, or nothing where it cannot happen. */
  function Do(projects: seq<Key>, s: Cache, a: Act): Option<Cache> {
    match a
    case Start => if s.worker == NotStarted then Some(s.(worker := Waiting)) else Some(s)
    case Request(t, key) =>
      if t in s.holding || key !in projects then None
      else if key in s.queued then Some(s)
      else Some(s.(queued := s.queued + {key}, holding := s.holding[t := key]))
    case Put(t) =>
      if t !in s.holding then None
      else Some(s.(queue := s.queue + [s.holding[t]], holding := s.holding - {t}))
    case Get =>
      if s.worker != Waiting || s.queue == [] then None
      else Some(s.(queue := s.queue[1..], worker := Measuring(s.queue[0])))
    case Timeout => if s.worker != Waiting || s.queue != [] then None else Some(s.(worker := Refreshing(projects)))
    case Refresh =>
      if !s.worker.Refreshing? then None
      else if s.worker.rest == [] then Some(s.(worker := Waiting))
      else
        var key, rest := s.worker.rest[0], s.worker.rest[1..];
        if key in s.queued then Some(s.(worker := Refreshing(rest)))
        else Some(s.(queued := s.queued + {key}, worker := Putting(key, rest)))
    case WorkerPut =>
      if !s.worker.Putting? then None
      else Some(s.(queue := s.queue + [s.worker.key], worker := Refreshing(s.worker.rest)))
    case Finish(item) =>
      if !s.worker.Measuring? then None
      else Some(s.(items := s.items[s.worker.key := item], queued := s.queued - {s.worker.key}, worker := Waiting))
  }

  // ---------------------------------------------------------------- custody of keys

  function Holders(holding: map<Thread, Key>, k: Key): set<Thread> {
    set t | t in holding && holding[t] == k
  }

  function AtWorker(w: Worker, k: Key): nat {
    if (w.Putting? && w.key == k) || (w.Measuring? && w.key == k) then 1 else 0
  }

  /** How many places a key is in: the queue, threads about to put it, the worker. */
  function Custody(s: Cache, k: Key): nat {
    multiset(s.queue)[k] + |Holders(s.holding, k)| + AtWorker(s.worker, k)
  }

  ghost predicate Inv(projects: seq<Key>, s: Cache) {
    && (forall k :: OnePlace(s, k))
    && (forall k :: k in s.queued ==> k in projects)
    && (s.worker.Refreshing? || s.worker.Putting? ==> forall k :: k in s.worker.rest ==> k in projects)
  }

  lemma {:induction false} EmptyIsGood(projects: seq<Key>)
    ensures Inv(projects, Empty)
  {
    forall k ensures OnePlace(Empty, k) {
      assert Holders(map[], k) == {};
    }
  }

  lemma {:induction false} HoldersAdd(h: map<Thread, Key>, t: Thread, key: Key, k: Key)
    requires t !in h
    ensures |Holders(h[t := key], k)| == |Holders(h, k)| + if key == k then 1 else 0
  {
    assert Holders(h[t := key], k) == if key == k then Holders(h, k) + {t} else Holders(h, k);
  }

  lemma {:induction false} HoldersDrop(h: map<Thread, Key>, t: Thread, k: Key)
    requires t in h
    ensures |Holders(h, k)| == |Holders(h - {t}, k)| + if h[t] == k then 1 else 0
  {
    assert Holders(h, k) == if h[t] == k then Holders(h - {t}, k) + {t} else Holders(h - {t}, k);
  }

  lemma {:induction false} QueueSnoc(q: seq<Key>, x: Key, k: Key)
    ensures multiset(q + [x])[k] == multiset(q)[k] + if x == k then 1 else 0
  {}

  lemma {:induction false} QueueHead(q: seq<Key>, k: Key)
    requires q != []
    ensures multiset(q)[k] == multiset(q[1..])[k] + if q[0] == k then 1 else 0
  {
    assert q == [q[0]] + q[1..];
  }

  /** Custody of `k` is 1 while it is queued and 0 otherwise. */
  ghost predicate OnePlace(s: Cache, k: Key) { Custody(s, k) == if k in s.queued then 1 else 0 }

  lemma {:induction false} RequestMoves(projects: seq<Key>, s: Cache, t: Thread, key: Key, k: Key)
    requires Do(projects, s, Request(t, key)).Some? && OnePlace(s, k)
    ensures OnePlace(Do(projects, s, Request(t, key)).value, k)
  {
    if key !in s.queued { HoldersAdd(s.holding, t, key, k); }
  }

  lemma {:induction false} PutMoves(projects: seq<Key>, s: Cache, t: Thread, k: Key)
    requires Do(projects, s, Put(t)).Some? && OnePlace(s, k)
    ensures OnePlace(Do(projects, s, Put(t)).value, k)
  {
    HoldersDrop(s.holding, t, k);
    QueueSnoc(s.queue, s.holding[t], k);
  }

  lemma {:induction false} GetMoves(projects: seq<Key>, s: Cache, k: Key)
    requires Do(projects, s, Get).Some? && OnePlace(s, k)
    ensures OnePlace(Do(projects, s, Get).value, k)
  {
    QueueHead(s.queue, k);
  }

  lemma {:induction false} WorkerPutMoves(projects: seq<Key>, s: Cache, k: Key)
    requires Do(projects, s, WorkerPut).Some? && OnePlace(s, k)
    ensures OnePlace(Do(projects, s, WorkerPut).value, k)
  {
    QueueSnoc(s.queue, s.worker.key, k);
  }

  lemma {:induction false} FinishMoves(projects: seq<Key>, s: Cache, item: Item, k: Key)
    requires Do(projects, s, Finish(item)).Some? && OnePlace(s, k)
    ensures OnePlace(Do(projects, s, Finish(item)).value, k)
  {}

  lemma {:induction false} RefreshMoves(projects: seq<Key>, s: Cache, k: Key)
    requires Do(projects, s, Refresh).Some? && OnePlace(s, k)
    ensures OnePlace(Do(projects, s, Refresh).value, k)
  {}

  /** Each step moves a key from one place to the next, or takes it in and out with `queued`. */
  lemma {:induction false} CustodyStep(projects: seq<Key>, s: Cache, a: Act, k: Key)
    requires Do(projects, s, a).Some? && OnePlace(s, k)
    ensures OnePlace(Do(projects, s, a).value, k)
  {
    match a
    case Request(t, key) => RequestMoves(projects, s, t, key, k);
    case Put(t) => PutMoves(projects, s, t, k);
    case Get => GetMoves(projects, s, k);
    case WorkerPut => WorkerPutMoves(projects, s, k);
    case Finish(item) => FinishMoves(projects, s, item, k);
    case Refresh => RefreshMoves(projects, s, k);
    case Start =>
    case Timeout =>
  }

  /** Every step of every thread keeps each queued key in exactly one place, and no other key anywhere. */
  lemma {:induction false} StepKeeps(projects: seq<Key>, s: Cache, a: Act)
    requires Inv(projects, s) && Do(projects, s, a).Some?
    ensures Inv(projects, Do(projects, s, a).value)
  {
    var s' := Do(projects, s, a).value;
    forall k ensures OnePlace(s', k) {
      assert OnePlace(s, k);
      CustodyStep(projects, s, a, k);
    }
  }

  /** The state after a sequence of steps. */
  function Run(projects: seq<Key>, s: Cache, acts: seq<Act>): Option<Cache>
    decreases |acts|
  {
    if acts == [] then Some(s)
    else
      match Do(projects, s, acts[0])
      case None => None
      case Some(next) => Run(projects, next, acts[1..])
  }

  lemma {:induction false} RunKeeps(projects: seq<Key>, s: Cache, acts: seq<Act>)
    requires Inv(projects, s) && Run(projects, s, acts).Some?
    ensures Inv(projects, Run(projects, s, acts).value)
    decreases |acts|
  {
    if acts != [] {
      StepKeeps(projects, s, acts[0]);
      RunKeeps(projects, Do(projects, s, acts[0]).value, acts[1..]);
    }
  }

  lemma {:induction false} DistinctFits(q: seq<Key>, within: set<Key>)
    requires forall k :: k in q ==> k in within && multiset(q)[k] == 1
    ensures |q| <= |within|
    decreases |q|
  {
    if q != [] {
      var x, rest := q[0], q[1..];
      assert q == [x] + rest;
      forall k | k in rest ensures k in within - {x} && multiset(rest)[k] == 1 {
        QueueHead(q, k);
        assert k in q && multiset(rest)[k] >= 1;
      }
      DistinctFits(rest, within - {x});
    }
  }

  function Keys(projects: seq<Key>): set<Key> { set k | k in projects }

  /** In every reachable state: one place per queued key, and a queue no longer than the list of projects. */
  lemma {:induction false} ReachableIsGood(projects: seq<Key>, acts: seq<Act>)
    requires Run(projects, Empty, acts).Some?
    ensures var s := Run(projects, Empty, acts).value;
            Inv(projects, s) && |s.queue| <= |Keys(projects)|
  {
    EmptyIsGood(projects);
    RunKeeps(projects, Empty, acts);
    var s := Run(projects, Empty, acts).value;
    forall k | k in s.queue ensures k in Keys(projects) && multiset(s.queue)[k] == 1 {
      assert OnePlace(s, k) && multiset(s.queue)[k] >= 1;
    }
    DistinctFits(s.queue, Keys(projects));
  }

  // ---------------------------------------------------------------- nothing is stranded

  function IndexOf(q: seq<Key>, k: Key): nat
    requires k in q
    ensures IndexOf(q, k) < |q| && q[IndexOf(q, k)] == k
  {
    if q[0] == k then 0 else IndexOf(q[1..], k) + 1
  }

  /** Steps the worker owes before it is back at the queue. */
  function Debt(w: Worker): nat {
    match w
    case Waiting => 0
    case NotStarted => 1
    case Measuring(_) => 1
    case Refreshing(rest) => 2 * |rest| + 1
    case Putting(_, rest) => 2 * |rest| + 2
  }

  /** Where a key stands: 0 at the worker, else its place in the queue. */
  function Place(s: Cache, k: Key): nat { if k in s.queue then IndexOf(s.queue, k) + 1 else 0 }

  function Unput(s: Cache, k: Key): nat {
    if k in s.queue || s.worker == Measuring(k) then 0 else 1
  }

  lemma {:induction false} IndexSnoc(q: seq<Key>, x: Key, k: Key)
    requires k in q
    ensures IndexOf(q + [x], k) == IndexOf(q, k)
  {
    if q[0] != k {
      assert (q + [x])[1..] == q[1..] + [x];
      IndexSnoc(q[1..], x, k);
    }
  }

  /** One step closer to being measured: put, then up the queue, then worker debts paid. */
  ghost predicate Closer(s: Cache, s': Cache, k: Key) {
    && k in s'.queued
    && (Unput(s', k) < Unput(s, k)
        || (Unput(s', k) == Unput(s, k) && (Place(s', k) < Place(s, k)
            || (Place(s', k) == Place(s, k) && Debt(s'.worker) < Debt(s.worker)))))
  }

  lemma {:induction false} HeldIsPut(projects: seq<Key>, s: Cache, k: Key) returns (a: Act)
    requires OnePlace(s, k) && k in s.queued && k !in s.queue && s.worker != Measuring(k)
    ensures !a.Request? && !a.Timeout? && Do(projects, s, a).Some? && Closer(s, Do(projects, s, a).value, k)
  {
    assert multiset(s.queue)[k] == 0;
    if s.worker.Putting? && s.worker.key == k {
      a := WorkerPut;
    } else {
      assert Holders(s.holding, k) != {};
      var t :| t in Holders(s.holding, k);
      a := Put(t);
    }
  }

  lemma {:induction false} GetMovesUp(projects: seq<Key>, s: Cache, k: Key)
    requires OnePlace(s, k) && k in s.queued && k in s.queue && s.worker == Waiting
    ensures Do(projects, s, Get).Some? && Closer(s, Do(projects, s, Get).value, k)
  {
    QueueHead(s.queue, k);
    assert multiset(s.queue)[k] == 1;
    if s.queue[0] == k {
      assert multiset(s.queue[1..])[k] == 0;
      assert k !in s.queue[1..];
    } else {
      assert multiset(s.queue[1..])[k] == 1;
      assert k in s.queue[1..];
    }
  }

  lemma {:induction false} DebtIsPaid(projects: seq<Key>, s: Cache, k: Key, item: Item) returns (a: Act)
    requires OnePlace(s, k) && k in s.queued && k in s.queue && s.worker != Waiting && s.worker != Measuring(k)
    ensures !a.Request? && !a.Timeout? && Do(projects, s, a).Some? && Closer(s, Do(projects, s, a).value, k)
  {
    match s.worker
    case NotStarted => a := Start;
    case Refreshing(rest) => a := Refresh;
    case Putting(key, rest) =>
      a := WorkerPut;
      IndexSnoc(s.queue, key, k);
    case Measuring(key) => a := Finish(item);
  }

  /** The next step that brings a queued key closer to being measured. */
  lemma {:induction false} NextStep(projects: seq<Key>, s: Cache, k: Key, item: Item) returns (a: Act)
    requires Inv(projects, s) && k in s.queued && s.worker != Measuring(k)
    ensures !a.Request? && !a.Timeout? && Do(projects, s, a).Some? && Closer(s, Do(projects, s, a).value, k)
  {
    assert OnePlace(s, k);
    if k !in s.queue {
      a := HeldIsPut(projects, s, k);
    } else if s.worker == Waiting {
      GetMovesUp(projects, s, k);
      a := Get;
    } else {
      a := DebtIsPaid(projects, s, k, item);
    }
  }

  /** From any state, a queued key can be measured by steps already owed, no new request needed. */
  lemma {:induction false} NeverStranded(projects: seq<Key>, s: Cache, k: Key, item: Item) returns (acts: seq<Act>)
    requires Inv(projects, s) && k in s.queued
    ensures forall i :: 0 <= i < |acts| ==> !acts[i].Request? && !acts[i].Timeout?
    ensures Run(projects, s, acts).Some?
    ensures var s' := Run(projects, s, acts).value;
            k !in s'.queued && k in s'.items && s'.items[k] == item
    decreases Unput(s, k), Place(s, k), Debt(s.worker)
  {
    if s.worker == Measuring(k) {
      acts := [Finish(item)];
      assert acts[1..] == [];
    } else {
      var a := NextStep(projects, s, k, item);
      var s' := Do(projects, s, a).value;
      StepKeeps(projects, s, a);
      var rest := NeverStranded(projects, s', k, item);
      acts := [a] + rest;
      assert acts[1..] == rest;
    }
  }

  // ---------------------------------------------------------------- every schedule gets there

  /** A step of the worker thread, as opposed to one of a requesting thread. */
  predicate ByWorker(a: Act) { a.Get? || a.Timeout? || a.Refresh? || a.WorkerPut? || a.Finish? }

  function WorkerSteps(acts: seq<Act>): nat {
    if acts == [] then 0 else (if ByWorker(acts[0]) then 1 else 0) + WorkerSteps(acts[1..])
  }

  /** The key is at the worker's side: in the queue or being measured, and the worker runs. */
  predicate Handed(s: Cache, k: Key) {
    k in s.queued && s.worker != NotStarted && (k in s.queue || s.worker == Measuring(k))
  }

  /** How many worker steps a handed key can still wait. */
  function Patience(s: Cache, k: Key): nat { 2 * Place(s, k) + Debt(s.worker) }

  /** What joins the queue behind a key, or beside one being measured, leaves its place alone. */
  lemma {:induction false} PlaceStays(s: Cache, s': Cache, x: Key, k: Key)
    requires s'.queue == s.queue + [x] && (k in s.queue || k != x)
    ensures (k in s'.queue <==> k in s.queue) && Place(s', k) == Place(s, k)
  {
    hide IndexOf;
    if k in s.queue { IndexSnoc(s.queue, x, k); }
  }

  ghost predicate Shrinks(s: Cache, s': Cache, a: Act, k: Key) {
    Handed(s', k) && Patience(s', k) + (if ByWorker(a) then 1 else 0) <= Patience(s, k)
  }

  lemma {:induction false} PutShrinks(projects: seq<Key>, s: Cache, a: Act, k: Key)
    requires a.Put? || a.WorkerPut?
    requires OnePlace(s, k) && Handed(s, k) && Do(projects, s, a).Some?
    ensures Shrinks(s, Do(projects, s, a).value, a, k)
  {
    var x := if a.Put? then s.holding[a.t] else s.worker.key;
    if a.Put? && k !in s.queue { PutElsewhere(s, a.t, k); }
    hide IndexOf, OnePlace, Place;
    PlaceStays(s, Do(projects, s, a).value, x, k);
  }

  lemma {:induction false} GetShrinks(projects: seq<Key>, s: Cache, k: Key)
    requires OnePlace(s, k) && Handed(s, k) && Do(projects, s, Get).Some?
    ensures Shrinks(s, Do(projects, s, Get).value, Get, k)
  {
    GetMovesUp(projects, s, k);
  }

  /** A worker step shortens the wait or ends it; a step of anyone else does not touch it. */
  lemma {:induction false} WaitShrinks(projects: seq<Key>, s: Cache, a: Act, k: Key)
    requires OnePlace(s, k) && Handed(s, k) && Do(projects, s, a).Some? && k in Do(projects, s, a).value.queued
    ensures Shrinks(s, Do(projects, s, a).value, a, k)
  {
    hide IndexOf, OnePlace;
    match a
    case Get => GetShrinks(projects, s, k);
    case Put(_) => PutShrinks(projects, s, a, k);
    case WorkerPut => PutShrinks(projects, s, a, k);
    case _ =>
  }

  /** A key being measured is in nobody's hands. */
  lemma {:induction false} PutElsewhere(s: Cache, t: Thread, k: Key)
    requires OnePlace(s, k) && k in s.queued && s.worker == Measuring(k) && t in s.holding
    ensures s.holding[t] != k
  {
    assert Holders(s.holding, k) == {};
    assert t !in Holders(s.holding, k);
  }

  /**
   Whatever the threads do, a handed key is measured before the worker has taken more than
   `Patience` steps: a longer run has a point where the key is no longer queued.
   */
  lemma {:induction false} EveryRunMeasures(projects: seq<Key>, s: Cache, k: Key, acts: seq<Act>) returns (n: nat)
    requires Inv(projects, s) && Handed(s, k) && Run(projects, s, acts).Some?
    requires WorkerSteps(acts) > Patience(s, k)
    ensures n <= |acts| && Run(projects, s, acts[..n]).Some?
    ensures k !in Run(projects, s, acts[..n]).value.queued && k in Run(projects, s, acts[..n]).value.items
    decreases |acts|
  {
    hide IndexOf, Place;
    var a, rest := acts[0], acts[1..];
    var s' := Do(projects, s, a).value;
    if k in s'.queued {
      assert OnePlace(s, k);
      WaitShrinks(projects, s, a, k);
      StepKeeps(projects, s, a);
      var m := EveryRunMeasures(projects, s', k, rest);
      n := m + 1;
      assert acts[..n][0] == a && acts[..n][1..] == rest[..m];
    } else {
      n := 1;
      assert acts[..1][0] == a && acts[..1][1..] == [];
    }
  }

  /** While a handed key waits, the worker always has a step to take. */
  lemma {:induction false} WorkerCanStep(projects: seq<Key>, s: Cache, k: Key, item: Item) returns (a: Act)
    requires Inv(projects, s) && Handed(s, k)
    ensures ByWorker(a) && Do(projects, s, a).Some?
  {
    assert OnePlace(s, k);
    match s.worker
    case Waiting => a := Get;
    case Refreshing(_) => a := Refresh;
    case Putting(_, _) => a := WorkerPut;
    case Measuring(_) => a := Finish(item);
  }

  // ---------------------------------------------------------------- requests and refreshes

  /** Whoever asks for a project finds it queued afterwards; a new key is in the asker's hands; nothing else moves. */
  lemma {:induction false} RequestQueues(projects: seq<Key>, s: Cache, t: Thread, key: Key)
    requires Do(projects, s, Request(t, key)).Some?
    ensures var s' := Do(projects, s, Request(t, key)).value;
            && key in s'.queued && s'.queue == s.queue && s'.worker == s.worker && s'.items == s.items
            && (forall k :: k in s'.queued <==> k in s.queued || k == key)
            && (key in s.queued ==> s' == s)
            && (key !in s.queued ==> t in s'.holding && s'.holding[t] == key)
  {}

  /** A request can be made by any idle thread for any project. */
  lemma {:induction false} RequestIsFree(projects: seq<Key>, s: Cache, t: Thread, key: Key)
    ensures Do(projects, s, Request(t, key)).Some? <==> t !in s.holding && key in projects
  {}

  predicate Refreshes(w: Worker) { w.Refreshing? || w.Putting? }

  /** The projects the refresh has still to ask for. */
  function Remaining(w: Worker): seq<Key> {
    match w
    case Refreshing(rest) => rest
    case Putting(_, rest) => rest
    case _ => []
  }

  /** While the worker refreshes, no key leaves the queued ones, and a project it is done with is among them. */
  lemma {:induction false} RefreshStep(projects: seq<Key>, s: Cache, a: Act)
    requires Do(projects, s, a).Some? && Refreshes(s.worker)
    ensures var s' := Do(projects, s, a).value;
            && (Refreshes(s'.worker) || s'.worker == Waiting)
            && s.queued <= s'.queued
            && forall k :: k in Remaining(s.worker) ==> k in Remaining(s'.worker) || k in s'.queued
  {
    var rest := Remaining(s.worker);
    if rest != [] { assert rest == [rest[0]] + rest[1..]; }
  }

  /**
   When a refresh ends, every project it began with is queued, whatever the other threads did meanwhile: from its
   start to the first moment the worker waits again.
   */
  lemma {:induction false} RefreshAsksForAll(projects: seq<Key>, s: Cache, acts: seq<Act>, k: Key)
    requires Run(projects, s, acts).Some? && Refreshes(s.worker) && (k in Remaining(s.worker) || k in s.queued)
    requires forall n :: 0 <= n < |acts| && Run(projects, s, acts[..n]).Some? ==>
               Refreshes(Run(projects, s, acts[..n]).value.worker)
    requires Run(projects, s, acts).value.worker == Waiting
    ensures k in Run(projects, s, acts).value.queued
    decreases |acts|
  {
    assert acts[..0] == [];
    var a, rest := acts[0], acts[1..];
    var s' := Do(projects, s, a).value;
    RefreshStep(projects, s, a);
    if rest != [] {
      assert acts[..1][0] == a && acts[..1][1..] == [];
      assert Run(projects, s, acts[..1]) == Some(s');
      forall n | 0 <= n < |rest| && Run(projects, s', rest[..n]).Some?
        ensures Refreshes(Run(projects, s', rest[..n]).value.worker)
      {
        assert acts[..n + 1][0] == a && acts[..n + 1][1..] == rest[..n];
        assert Run(projects, s, acts[..n + 1]) == Run(projects, s', rest[..n]);
      }
      RefreshAsksForAll(projects, s', rest, k);
    }
  }

  /** A timeout starts a refresh of every project, and comes only to an idle worker with an empty queue. */
  lemma {:induction false} TimeoutRefreshesAll(projects: seq<Key>, s: Cache)
    ensures Do(projects, s, Timeout).Some? <==> s.worker == Waiting && s.queue == []
    ensures Do(projects, s, Timeout).Some? ==>
              var s' := Do(projects, s, Timeout).value;
              s'.worker == Refreshing(projects) && s'.queued == s.queued && s'.queue == s.queue && s'.items == s.items
  {}

  /** A measurement is stored under its key, and only then is the key queued no more. */
  lemma {:induction false} FinishStores(projects: seq<Key>, s: Cache, item: Item, k: Key)
    requires s.worker == Measuring(k)
    ensures Do(projects, s, Finish(item)).Some?
    ensures var s' := Do(projects, s, Finish(item)).value;
            && s'.items == s.items[k := item] && s'.queued == s.queued - {k}
            && s'.worker == Waiting && s'.queue == s.queue && s'.holding == s.holding
  {}
}
