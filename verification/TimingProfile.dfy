/** The weights of `balanced_names` in tools/parallel_tests.py: recorded durations and a median for the rest. */
module TimingProfile {
  import opened Sorting

  /** A timing profile: the `durations_ns` dictionary in insertion order. */
  datatype Timing = Timing(name: string, ns: nat)

  type Weighing = string -> nat

  function Values(profile: seq<Timing>): (r: seq<nat>)
    ensures |r| == |profile| && forall i :: 0 <= i < |r| ==> r[i] == profile[i].ns
  {
    seq(|profile|, i requires 0 <= i < |profile| => profile[i].ns)
  }

  predicate AtMost(x: nat, y: nat) { x <= y }

  /** The upper median of the observed durations, or one millisecond without any. */
  function Fallback(profile: seq<Timing>): nat {
    if profile == [] then 1_000_000
    else Sort(Values(profile), AtMost)[|profile| / 2]
  }

  /** The weight on record for a name, or the default. */
  function Get(profile: seq<Timing>, name: string, default: nat): nat {
    if profile == [] then default
    else if profile[0].name == name then profile[0].ns
    else Get(profile[1..], name, default)
  }

  function WeightOf(profile: seq<Timing>): Weighing {
    var fallback := Fallback(profile);
    name => Get(profile, name, fallback)
  }

  // ---------------------------------------------------------------- what the weights are

  /** A dictionary: no name twice. */
  ghost predicate DistinctNames(profile: seq<Timing>) {
    forall i, j :: 0 <= i < j < |profile| ==> profile[i].name != profile[j].name
  }

  /** How many numbers are below the value. */
  function Below(s: seq<nat>, v: nat): nat {
    if s == [] then 0 else (if s[0] < v then 1 else 0) + Below(s[1..], v)
  }

  /** How many numbers are the value or below it. */
  function UpTo(s: seq<nat>, v: nat): nat {
    if s == [] then 0 else (if s[0] <= v then 1 else 0) + UpTo(s[1..], v)
  }

  /** One of the numbers, with at most half of them below it and more than half up to it. */
  predicate IsUpperMedian(s: seq<nat>, v: nat) {
    v in s && Below(s, v) <= |s| / 2 < UpTo(s, v)
  }

  /** What a name not on record weighs. */
  predicate IsFallback(profile: seq<Timing>, v: nat) {
    if profile == [] then v == 1_000_000 else IsUpperMedian(Values(profile), v)
  }

  /** The weighing that a profile stands for. */
  ghost predicate Weighs(profile: seq<Timing>, weight: Weighing) {
    && (forall t :: t in profile ==> weight(t.name) == t.ns)
    && (forall name :: (forall t :: t in profile ==> t.name != name) ==> IsFallback(profile, weight(name)))
  }

  lemma {:induction false} GetRecorded(profile: seq<Timing>, i: nat, default: nat)
    requires DistinctNames(profile) && i < |profile|
    ensures Get(profile, profile[i].name, default) == profile[i].ns
  {
    if i > 0 {
      assert profile[0].name != profile[i].name;
      GetRecorded(profile[1..], i - 1, default);
    }
  }

  lemma {:induction false} GetMissing(profile: seq<Timing>, name: string, default: nat)
    requires forall t :: t in profile ==> t.name != name
    ensures Get(profile, name, default) == default
  {
    if profile != [] {
      assert profile[0] in profile;
      GetMissing(profile[1..], name, default);
    }
  }

  // ---------------------------------------------------------------- the median

  lemma {:induction false} AtMostIsTotal()
    ensures TotalOrder(AtMost)
  {}

  lemma {:induction false} InsertCounts(x: nat, s: seq<nat>, v: nat)
    ensures Below(Insert(x, s, AtMost), v) == (if x < v then 1 else 0) + Below(s, v)
    ensures UpTo(Insert(x, s, AtMost), v) == (if x <= v then 1 else 0) + UpTo(s, v)
  {
    if s == [] {
      assert [x][1..] == [];
    } else if AtMost(x, s[0]) {
      assert ([x] + s)[1..] == s;
    } else {
      var rest := Insert(x, s[1..], AtMost);
      InsertCounts(x, s[1..], v);
      assert ([s[0]] + rest)[1..] == rest;
    }
  }

  /** Sorting changes no count. */
  lemma {:induction false} SortCounts(s: seq<nat>, v: nat)
    ensures Below(Sort(s, AtMost), v) == Below(s, v) && UpTo(Sort(s, AtMost), v) == UpTo(s, v)
  {
    if s != [] {
      SortCounts(s[1..], v);
      InsertCounts(s[0], Sort(s[1..], AtMost), v);
    }
  }

  lemma {:induction false} CountsBounded(s: seq<nat>, v: nat)
    ensures Below(s, v) <= UpTo(s, v) <= |s|
  {
    if s != [] { CountsBounded(s[1..], v); }
  }

  /** In order, at most `k` numbers are below the `k`-th, and more than `k` up to it. */
  lemma {:induction false} OrderStatistic(s: seq<nat>, k: nat)
    requires SortedBy(s, AtMost) && k < |s|
    ensures Below(s, s[k]) <= k < UpTo(s, s[k])
  {
    var rest := s[1..];
    if k == 0 {
      NoneBelow(s, s[0]);
    } else {
      assert AtMost(s[0], s[k]);
      OrderStatistic(rest, k - 1);
    }
  }

  lemma {:induction false} NoneBelow(s: seq<nat>, v: nat)
    requires forall i :: 0 <= i < |s| ==> v <= s[i]
    ensures Below(s, v) == 0
  {
    if s != [] { NoneBelow(s[1..], v); }
  }

  lemma {:induction false} FallbackIsMedian(profile: seq<Timing>)
    ensures IsFallback(profile, Fallback(profile))
  {
    if profile != [] {
      var values := Values(profile);
      var sorted, k := Sort(values, AtMost), |profile| / 2;
      AtMostIsTotal();
      SortOrders(values, AtMost);
      OrderStatistic(sorted, k);
      SortCounts(values, sorted[k]);
      SameMembers(sorted, values);
      assert sorted[k] in sorted;
    }
  }

  lemma {:induction false} CountsGrow(s: seq<nat>, v: nat, w: nat)
    requires v < w
    ensures UpTo(s, v) <= Below(s, w)
  {
    if s != [] { CountsGrow(s[1..], v, w); }
  }

  /** There is only one upper median. */
  lemma {:induction false} MedianUnique(s: seq<nat>, v: nat, w: nat)
    requires IsUpperMedian(s, v) && IsUpperMedian(s, w)
    ensures v == w
  {
    if v < w { CountsGrow(s, v, w); }
    if w < v { CountsGrow(s, w, v); }
  }

  /** Recorded names weigh their own duration, all others the upper median. */
  lemma {:induction false} WeightsAreRecorded(profile: seq<Timing>)
    requires DistinctNames(profile)
    ensures Weighs(profile, WeightOf(profile))
  {
    var weight, fallback := WeightOf(profile), Fallback(profile);
    FallbackIsMedian(profile);
    forall t | t in profile ensures weight(t.name) == t.ns {
      var i :| 0 <= i < |profile| && profile[i] == t;
      GetRecorded(profile, i, fallback);
    }
    forall name | forall t :: t in profile ==> t.name != name ensures IsFallback(profile, weight(name)) {
      GetMissing(profile, name, fallback);
    }
  }

  /** A profile stands for one weighing only. */
  lemma {:induction false} WeighingUnique(profile: seq<Timing>, a: Weighing, b: Weighing, name: string)
    requires Weighs(profile, a) && Weighs(profile, b)
    ensures a(name) == b(name)
  {
    if t :| t in profile && t.name == name {
      assert a(t.name) == t.ns;
    } else if profile != [] {
      MedianUnique(Values(profile), a(name), b(name));
    }
  }
}
