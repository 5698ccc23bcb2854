/**
 `balanced_names` of tools/parallel_tests.py and the exact-cover test that `run` applies
 to its shards.
 */
module BalancedNames {
  import opened Sorting
  import opened Sums
  import opened LptBound
  import opened TimingProfile

  // ---------------------------------------------------------------- order

  /** Heavier names first, equally heavy ones by name. */
  function HeaviestFirst(weight: Weighing): (string, string) -> bool {
    (a, b) => weight(a) > weight(b) || (weight(a) == weight(b) && LexLe(a, b))
  }

  function OrderWeights(weight: Weighing, order: seq<string>): (w: seq<nat>)
    ensures |w| == |order|
    ensures forall i :: 0 <= i < |w| ==> w[i] == weight(order[i])
  {
    seq(|order|, i requires 0 <= i < |order| => weight(order[i]))
  }

  // ---------------------------------------------------------------- scheduling

  /** The first bucket among those with the least total. */
  function ArgMin(totals: seq<nat>): (j: nat)
    requires totals != []
    ensures IsLeast(totals, j)
  {
    var n := |totals| - 1;
    if n == 0 then 0
    else
      var j := ArgMin(totals[..n]);
      if totals[n] < totals[j] then n else j
  }

  /** The bucket index chosen for each job, in order. */
  function Choices(w: seq<nat>, workers: nat): (g: seq<nat>)
    requires workers > 0
    ensures Assigns(g, |w|, workers)
  {
    if w == [] then []
    else
      var n := |w| - 1;
      var g := Choices(w[..n], workers);
      g + [ArgMin(Loads(w[..n], g, n, workers))]
  }

  /** The buckets after the first `n` names, name `i` appended to bucket `g[i]`. */
  function Deal(order: seq<string>, g: seq<nat>, n: nat, workers: nat): (b: seq<seq<string>>)
    requires n <= |order| && Assigns(g, |order|, workers)
    ensures |b| == workers
  {
    if n == 0 then seq(workers, _ => [])
    else
      var b := Deal(order, g, n - 1, workers);
      b[g[n - 1] := b[g[n - 1]] + [order[n - 1]]]
  }

  /** Each bucket in order. */
  function SortEach(buckets: seq<seq<string>>): (r: seq<seq<string>>)
    ensures |r| == |buckets|
    ensures forall i :: 0 <= i < |r| ==> r[i] == Sort(buckets[i], LexLe)
  {
    seq(|buckets|, i requires 0 <= i < |buckets| => Sort(buckets[i], LexLe))
  }

  function NonEmpty(buckets: seq<seq<string>>, n: nat): seq<seq<string>>
    requires n <= |buckets|
  {
    if n == 0 then []
    else if buckets[n - 1] == [] then NonEmpty(buckets, n - 1)
    else NonEmpty(buckets, n - 1) + [buckets[n - 1]]
  }

  function Finish(buckets: seq<seq<string>>): seq<seq<string>> {
    NonEmpty(SortEach(buckets), |buckets|)
  }

  function Buckets(names: seq<string>, weight: Weighing, workers: nat): (b: seq<seq<string>>)
    requires workers > 0
    ensures |b| == workers
  {
    var order := Sort(names, HeaviestFirst(weight));
    Deal(order, Choices(OrderWeights(weight, order), workers), |order|, workers)
  }

  function Shards(names: seq<string>, weight: Weighing, workers: nat): seq<seq<string>>
    requires workers > 0
  {
    Finish(Buckets(names, weight, workers))
  }

  lemma {:induction false} LoadsOfPrefix(w: seq<nat>, f: seq<nat>, w': seq<nat>, f': seq<nat>, n: nat, m: nat)
    requires n <= |w| && n <= |f| && n <= |w'| && n <= |f'|
    requires forall i :: 0 <= i < n ==> w[i] == w'[i] && f[i] == f'[i] < m
    ensures Loads(w, f, n, m) == Loads(w', f', n, m)
  {
    if n > 0 { LoadsOfPrefix(w, f, w', f', n - 1, m); }
  }

  lemma {:induction false} ChoicesAreLeast(w: seq<nat>, workers: nat, k: nat)
    requires workers > 0 && k < |w|
    ensures PlacedLeast(w, Choices(w, workers), workers, k)
    decreases |w|
  {
    var n := |w| - 1;
    var g, g' := Choices(w, workers), Choices(w[..n], workers);
    LoadsOfPrefix(w, g, w[..n], g', k, workers);
    if k < n {
      ChoicesAreLeast(w[..n], workers, k);
      assert PlacedLeast(w[..n], g', workers, k);
    }
  }

  lemma {:induction false} ChoicesAreGreedy(w: seq<nat>, workers: nat)
    requires workers > 0
    ensures Greedy(w, Choices(w, workers), workers)
  {
    forall k | 0 <= k < |w| ensures PlacedLeast(w, Choices(w, workers), workers, k) {
      ChoicesAreLeast(w, workers, k);
    }
  }

  method ScheduleLoop(order: seq<string>, weight: Weighing, workers: nat) returns (buckets: seq<seq<string>>)
    requires workers > 0
    ensures buckets == Deal(order, Choices(OrderWeights(weight, order), workers), |order|, workers)
  {
    ghost var w := OrderWeights(weight, order);
    ghost var g := Choices(w, workers);
    var totals: seq<nat> := seq(workers, _ => 0);
    buckets := seq(workers, _ => []);
    for i := 0 to |order|
      invariant totals == Loads(w, g, i, workers)
      invariant buckets == Deal(order, g, i, workers)
    {
      var index := ArgMin(totals);
      ChoicesAreLeast(w, workers, i);
      assert PlacedLeast(w, g, workers, i);
      buckets := buckets[index := buckets[index] + [order[i]]];
      totals := totals[index := totals[index] + weight(order[i])];
    }
  }

  method FinishLoop(buckets: seq<seq<string>>) returns (shards: seq<seq<string>>)
    ensures shards == Finish(buckets)
  {
    var each := SortEach(buckets);
    shards := [];
    for i := 0 to |each|
      invariant shards == NonEmpty(each, i)
    {
      if each[i] != [] {
        shards := shards + [each[i]];
      }
    }
  }

  method BalancedNames(names: seq<string>, profile: seq<Timing>, workers: nat) returns (shards: seq<seq<string>>)
    requires workers > 0
    ensures shards == Shards(names, WeightOf(profile), workers)
  {
    var weight := WeightOf(profile);
    var order := Sort(names, HeaviestFirst(weight));
    var buckets := ScheduleLoop(order, weight, workers);
    shards := FinishLoop(buckets);
  }

  // ---------------------------------------------------------------- groupings

  function MultiUpTo(groups: seq<seq<string>>, n: nat): multiset<string>
    requires n <= |groups|
  {
    if n == 0 then multiset{}
    else MultiUpTo(groups, n - 1) + multiset(groups[n - 1])
  }

  /** All names of a grouping, with multiplicity. */
  function Multi(groups: seq<seq<string>>): multiset<string> {
    MultiUpTo(groups, |groups|)
  }

  lemma {:induction false} MultiSame(a: seq<seq<string>>, b: seq<seq<string>>, n: nat)
    requires n <= |a| && n <= |b| && forall i :: 0 <= i < n ==> a[i] == b[i]
    ensures MultiUpTo(a, n) == MultiUpTo(b, n)
  {
    if n > 0 { MultiSame(a, b, n - 1); }
  }

  function Load(weight: Weighing, group: seq<string>): nat {
    if group == [] then 0
    else Load(weight, group[..|group| - 1]) + weight(group[|group| - 1])
  }

  function GroupLoads(weight: Weighing, groups: seq<seq<string>>): (r: seq<nat>)
    ensures |r| == |groups| && forall j :: 0 <= j < |r| ==> r[j] == Load(weight, groups[j])
  {
    seq(|groups|, j requires 0 <= j < |groups| => Load(weight, groups[j]))
  }

  function Max(s: seq<nat>): nat {
    if s == [] then 0
    else
      var rest := Max(s[..|s| - 1]);
      if s[|s| - 1] < rest then rest else s[|s| - 1]
  }

  /** The load of the heaviest group. */
  function Heaviest(weight: Weighing, groups: seq<seq<string>>): nat {
    Max(GroupLoads(weight, groups))
  }

  lemma {:induction false} MaxIsBound(s: seq<nat>)
    ensures Within(s, Max(s))
    ensures s != [] ==> Max(s) in s
  {
    if s != [] {
      MaxIsBound(s[..|s| - 1]);
    }
  }

  lemma {:induction false} AddBoth(a: multiset<string>, b: multiset<string>, p: multiset<string>, q: multiset<string>,
      r: multiset<string>)
    requires a + p == b + q
    ensures (a + r) + p == (b + r) + q
  {
    assert (a + r) + p == (a + p) + r;
    assert (b + r) + q == (b + q) + r;
  }

  lemma {:induction false} MultiUpdate(groups: seq<seq<string>>, j: nat, g: seq<string>, n: nat)
    requires j < n <= |groups|
    ensures MultiUpTo(groups[j := g], n) + multiset(groups[j]) == MultiUpTo(groups, n) + multiset(g)
  {
    var t := groups[j := g];
    if j < n - 1 {
      MultiUpdate(groups, j, g, n - 1);
      AddBoth(MultiUpTo(t, n - 1), MultiUpTo(groups, n - 1), multiset(groups[j]), multiset(g), multiset(groups[n - 1]));
    } else {
      MultiSame(t, groups, j);
      var m := MultiUpTo(t, j);
      assert (m + multiset(g)) + multiset(groups[j]) == (m + multiset(groups[j])) + multiset(g);
    }
  }

  /** Appending one name to one group adds exactly that name. */
  lemma {:induction false} MultiAppend(groups: seq<seq<string>>, j: nat, x: string)
    requires j < |groups|
    ensures Multi(groups[j := groups[j] + [x]]) == Multi(groups) + multiset{x}
  {
    var c := groups[j] + [x];
    MultiUpdate(groups, j, c, |groups|);
    assert multiset(c) == multiset(groups[j]) + multiset{x};
    assert Multi(groups) + multiset(c) == (Multi(groups) + multiset{x}) + multiset(groups[j]);
    Cancel(Multi(groups[j := c]), Multi(groups) + multiset{x}, multiset(groups[j]));
  }

  /** Taking one name out of one group removes exactly that name. */
  lemma {:induction false} MultiRemove(groups: seq<seq<string>>, j: nat, k: nat)
    requires j < |groups| && k < |groups[j]|
    ensures Multi(groups) == Multi(groups[j := Without(groups[j], k)]) + multiset{groups[j][k]}
  {
    var rest := Without(groups[j], k);
    var m := Multi(groups[j := rest]);
    MultiUpdate(groups, j, rest, |groups|);
    WithoutMulti(groups[j], k);
    assert m + multiset(groups[j]) == (m + multiset{groups[j][k]}) + multiset(rest);
    Cancel(m + multiset{groups[j][k]}, Multi(groups), multiset(rest));
  }

  lemma {:induction false} MultiFind(groups: seq<seq<string>>, x: string, n: nat) returns (j: nat, k: nat)
    requires n <= |groups| && x in MultiUpTo(groups, n)
    ensures j < n && k < |groups[j]| && groups[j][k] == x
  {
    if x in groups[n - 1] {
      j := n - 1;
      k :| 0 <= k < |groups[j]| && groups[j][k] == x;
    } else {
      j, k := MultiFind(groups, x, n - 1);
    }
  }

  lemma {:induction false} MultiEmpty(groups: seq<seq<string>>, n: nat)
    requires n <= |groups|
    ensures MultiUpTo(groups, n) == multiset{} <==> forall j :: 0 <= j < n ==> groups[j] == []
  {
    if n > 0 {
      MultiEmpty(groups, n - 1);
      if groups[n - 1] != [] {
        assert groups[n - 1][0] in multiset(groups[n - 1]);
        assert groups[n - 1][0] in MultiUpTo(groups, n);
      } else {
        assert MultiUpTo(groups, n) == MultiUpTo(groups, n - 1);
      }
    }
  }

  function Without(s: seq<string>, k: nat): seq<string>
    requires k < |s|
  {
    s[..k] + s[k + 1..]
  }

  lemma {:induction false} WithoutMulti(s: seq<string>, k: nat)
    requires k < |s|
    ensures multiset(s) == multiset(Without(s, k)) + multiset{s[k]}
  {
    assert s == s[..k] + ([s[k]] + s[k + 1..]);
  }

  lemma {:induction false} LoadWithout(weight: Weighing, b: seq<string>, k: nat)
    requires k < |b|
    ensures Load(weight, b) == Load(weight, Without(b, k)) + weight(b[k])
  {
    var n := |b| - 1;
    var rest := Without(b, k);
    if k < n {
      assert rest[..n - 1] == Without(b[..n], k);
      LoadWithout(weight, b[..n], k);
    } else {
      assert rest == b[..n];
    }
  }

  /** The load of a group does not depend on the order of its names. */
  lemma {:induction false} LoadForgetsOrder(weight: Weighing, a: seq<string>, b: seq<string>)
    requires multiset(a) == multiset(b)
    ensures Load(weight, a) == Load(weight, b)
  {
    SameSize(a, b);
    if a != [] {
      var n := |a| - 1;
      SameMembers(a, b);
      assert a[n] in b;
      var k :| 0 <= k < |b| && b[k] == a[n];
      WithoutMulti(a, n);
      WithoutMulti(b, k);
      assert Without(a, n) == a[..n];
      Cancel(multiset(a[..n]), multiset(Without(b, k)), multiset{a[n]});
      LoadForgetsOrder(weight, a[..n], Without(b, k));
      LoadWithout(weight, b, k);
    }
  }

  // ---------------------------------------------------------------- buckets and assignments

  lemma {:induction false} PrefixMulti(s: seq<string>, n: nat)
    requires 0 < n <= |s|
    ensures multiset(s[..n]) == multiset(s[..n - 1]) + multiset{s[n - 1]}
  {
    assert s[..n] == s[..n - 1] + [s[n - 1]];
  }

  /** What the loop keeps: the buckets hold the names placed so far, none lost or repeated. */
  lemma {:induction false} DealKeepsNames(order: seq<string>, g: seq<nat>, n: nat, m: nat)
    requires n <= |order| && Assigns(g, |order|, m)
    ensures Multi(Deal(order, g, n, m)) == multiset(order[..n])
  {
    if n == 0 {
      MultiEmpty(Deal(order, g, 0, m), m);
    } else {
      DealKeepsNames(order, g, n - 1, m);
      MultiAppend(Deal(order, g, n - 1, m), g[n - 1], order[n - 1]);
      PrefixMulti(order, n);
    }
  }

  /** What the loop keeps: `totals` are the loads of `buckets`. */
  lemma {:induction false} DealLoads(weight: Weighing, order: seq<string>, g: seq<nat>, n: nat, m: nat, j: nat)
    requires n <= |order| && Assigns(g, |order|, m) && j < m
    ensures Load(weight, Deal(order, g, n, m)[j]) == Loads(OrderWeights(weight, order), g, n, m)[j]
    decreases n
  {
    if n > 0 {
      DealLoads(weight, order, g, n - 1, m, j);
      var b := Deal(order, g, n - 1, m)[j];
      assert (b + [order[n - 1]])[..|b|] == b;
    }
  }

  lemma {:induction false} GroupLoadsUpdate(weight: Weighing, groups: seq<seq<string>>, j: nat, rest: seq<string>,
      x: string)
    requires j < |groups| && Load(weight, groups[j]) == Load(weight, rest) + weight(x)
    ensures var r := GroupLoads(weight, groups[j := rest]);
            GroupLoads(weight, groups) == r[j := r[j] + weight(x)]
  {}

  lemma {:induction false} LoadsExtend(weight: Weighing, order: seq<string>, f: seq<nat>, j: nat, m: nat)
    requires order != [] && Assigns(f, |order| - 1, m) && j < m
    ensures var n := |order| - 1;
            var r := Loads(OrderWeights(weight, order[..n]), f, n, m);
            Loads(OrderWeights(weight, order), f + [j], n + 1, m) == r[j := r[j] + weight(order[n])]
  {
    var n := |order| - 1;
    LoadsOfPrefix(OrderWeights(weight, order), f + [j], OrderWeights(weight, order[..n]), f, n, m);
  }

  lemma {:induction false} PickOut(groups: seq<seq<string>>, order: seq<string>) returns (j: nat, k: nat)
    requires order != [] && Multi(groups) == multiset(order)
    ensures j < |groups| && k < |groups[j]| && groups[j][k] == order[|order| - 1]
    ensures Multi(groups[j := Without(groups[j], k)]) == multiset(order[..|order| - 1])
  {
    var n := |order| - 1;
    PrefixMulti(order, |order|);
    assert order[..|order|] == order;
    j, k := MultiFind(groups, order[n], |groups|);
    MultiRemove(groups, j, k);
    Cancel(Multi(groups[j := Without(groups[j], k)]), multiset(order[..n]), multiset{order[n]});
  }

  /** Any grouping of the names is an assignment of the ordered list with the same loads. */
  lemma {:induction false} GroupingAssigns(weight: Weighing, order: seq<string>, groups: seq<seq<string>>)
      returns (f: seq<nat>)
    requires Multi(groups) == multiset(order)
    ensures Assigns(f, |order|, |groups|)
    ensures Loads(OrderWeights(weight, order), f, |order|, |groups|) == GroupLoads(weight, groups)
    decreases |order|
  {
    if order == [] {
      f := [];
      MultiEmpty(groups, |groups|);
    } else {
      var n := |order| - 1;
      var j, k := PickOut(groups, order);
      var rest := Without(groups[j], k);
      LoadWithout(weight, groups[j], k);
      var f' := GroupingAssigns(weight, order[..n], groups[j := rest]);
      f := f' + [j];
      GroupLoadsUpdate(weight, groups, j, rest, order[n]);
      LoadsExtend(weight, order, f', j, |groups|);
    }
  }

  lemma {:induction false} HeaviestFirstIsTotal(weight: Weighing)
    ensures TotalOrder(HeaviestFirst(weight))
  {
    LexIsTotalOrder();
  }

  lemma {:induction false} SortedDescends(weight: Weighing, order: seq<string>)
    requires SortedBy(order, HeaviestFirst(weight))
    ensures Descending(OrderWeights(weight, order))
  {}

  lemma {:induction false} OrderDescends(weight: Weighing, names: seq<string>)
    ensures Descending(OrderWeights(weight, Sort(names, HeaviestFirst(weight))))
  {
    HeaviestFirstIsTotal(weight);
    SortOrders(names, HeaviestFirst(weight));
    SortedDescends(weight, Sort(names, HeaviestFirst(weight)));
  }

  // ---------------------------------------------------------------- finishing

  lemma {:induction false} MultiSnoc(groups: seq<seq<string>>, g: seq<string>)
    ensures Multi(groups + [g]) == Multi(groups) + multiset(g)
  {
    MultiSame(groups + [g], groups, |groups|);
  }

  lemma {:induction false} GroupLoadsSnoc(weight: Weighing, groups: seq<seq<string>>, g: seq<string>)
    ensures GroupLoads(weight, groups + [g]) == GroupLoads(weight, groups) + [Load(weight, g)]
  {}

  lemma {:induction false} NonEmptyKeepsNames(b: seq<seq<string>>, n: nat)
    requires n <= |b|
    ensures Multi(NonEmpty(b, n)) == MultiUpTo(b, n)
  {
    if n > 0 {
      NonEmptyKeepsNames(b, n - 1);
      MultiSnoc(NonEmpty(b, n - 1), b[n - 1]);
    }
  }

  lemma {:induction false} NonEmptyKeepsHeaviest(weight: Weighing, b: seq<seq<string>>, n: nat)
    requires n <= |b|
    ensures Heaviest(weight, NonEmpty(b, n)) == Max(GroupLoads(weight, b)[..n])
  {
    if n > 0 {
      var loads, before := GroupLoads(weight, b), NonEmpty(b, n - 1);
      NonEmptyKeepsHeaviest(weight, b, n - 1);
      assert loads[..n] == loads[..n - 1] + [loads[n - 1]];
      MaxAppend(loads[..n - 1], loads[n - 1]);
      if b[n - 1] != [] {
        GroupLoadsSnoc(weight, before, b[n - 1]);
        MaxAppend(GroupLoads(weight, before), loads[n - 1]);
      }
    }
  }

  lemma {:induction false} MaxAppend(s: seq<nat>, x: nat)
    ensures Max(s + [x]) == if x < Max(s) then Max(s) else x
  {
    assert (s + [x])[..|s|] == s;
  }

  lemma {:induction false} NonEmptySelects(b: seq<seq<string>>, n: nat)
    requires n <= |b|
    ensures |NonEmpty(b, n)| <= n
    ensures forall s :: s in NonEmpty(b, n) ==> s != [] && s in b
  {
    if n > 0 { NonEmptySelects(b, n - 1); }
  }

  lemma {:induction false} MultiAlike(a: seq<seq<string>>, b: seq<seq<string>>, n: nat)
    requires n <= |a| && n <= |b| && forall i :: 0 <= i < n ==> multiset(a[i]) == multiset(b[i])
    ensures MultiUpTo(a, n) == MultiUpTo(b, n)
  {
    if n > 0 { MultiAlike(a, b, n - 1); }
  }

  lemma {:induction false} FinishKeeps(weight: Weighing, buckets: seq<seq<string>>)
    ensures Multi(Finish(buckets)) == Multi(buckets)
    ensures Heaviest(weight, Finish(buckets)) == Heaviest(weight, buckets)
  {
    var each := SortEach(buckets);
    NonEmptyKeepsNames(each, |each|);
    MultiAlike(each, buckets, |each|);
    NonEmptyKeepsHeaviest(weight, each, |each|);
    forall i | 0 <= i < |each| ensures Load(weight, each[i]) == Load(weight, buckets[i]) {
      LoadForgetsOrder(weight, each[i], buckets[i]);
    }
    assert GroupLoads(weight, each)[..|each|] == GroupLoads(weight, buckets);
  }

  lemma {:induction false} FinishSorts(buckets: seq<seq<string>>)
    ensures |Finish(buckets)| <= |buckets|
    ensures forall s :: s in Finish(buckets) ==> s != [] && SortedBy(s, LexLe)
  {
    var each := SortEach(buckets);
    NonEmptySelects(each, |each|);
    LexIsTotalOrder();
    forall i | 0 <= i < |each| ensures SortedBy(each[i], LexLe) {
      SortOrders(buckets[i], LexLe);
    }
  }

  // ---------------------------------------------------------------- main results

  /** The shards partition the names: non-empty, sorted, at most `workers`, nothing lost or repeated. */
  lemma {:induction false} ShardsPartition(names: seq<string>, weight: Weighing, workers: nat)
    requires workers > 0
    ensures Multi(Shards(names, weight, workers)) == multiset(names)
    ensures |Shards(names, weight, workers)| <= workers
    ensures forall s :: s in Shards(names, weight, workers) ==> s != [] && SortedBy(s, LexLe)
  {
    var order := Sort(names, HeaviestFirst(weight));
    DealKeepsNames(order, Choices(OrderWeights(weight, order), workers), |order|, workers);
    assert order[..|order|] == order;
    FinishKeeps(weight, Buckets(names, weight, workers));
    FinishSorts(Buckets(names, weight, workers));
  }

  /** The plan is the same for every order of the inventory. */
  lemma {:induction false} ShardsForgetOrder(a: seq<string>, b: seq<string>, weight: Weighing, workers: nat)
    requires workers > 0 && multiset(a) == multiset(b)
    ensures Shards(a, weight, workers) == Shards(b, weight, workers)
  {
    HeaviestFirstIsTotal(weight);
    SortForgetsOrder(a, b, HeaviestFirst(weight));
  }

  /**
   Against every way of dealing the same names to `workers` groups, the heaviest shard is
   within `(4m-1)/(3m)` of the heaviest group, and within `(2m-1)/m`.
   */
  lemma {:induction false} ShardsNearOptimal(names: seq<string>, weight: Weighing, workers: nat,
      groups: seq<seq<string>>)
    requires workers > 0 && |groups| == workers && Multi(groups) == multiset(names)
    ensures 3 * workers * Heaviest(weight, Shards(names, weight, workers))
         <= (4 * workers - 1) * Heaviest(weight, groups)
    ensures workers * Heaviest(weight, Shards(names, weight, workers)) <= (2 * workers - 1) * Heaviest(weight, groups)
  {
    var order := Sort(names, HeaviestFirst(weight));
    var w := OrderWeights(weight, order);
    var g := Choices(w, workers);
    var buckets := Buckets(names, weight, workers);
    var f := GroupingAssigns(weight, order, groups);
    MaxIsBound(GroupLoads(weight, groups));
    var loads := GroupLoads(weight, buckets);
    FinishKeeps(weight, buckets);
    MaxIsBound(loads);
    var j: nat :| j < workers && loads[j] == Max(loads);
    DealLoads(weight, order, g, |order|, workers, j);
    ChoicesAreGreedy(w, workers);
    OrderDescends(weight, names);
    LongestFirstBound(w, g, f, workers, Heaviest(weight, groups), j);
    ListBound(w, g, f, workers, Heaviest(weight, groups), j);
  }

  lemma {:induction false} LoadSame(a: Weighing, b: Weighing, group: seq<string>)
    requires forall name :: a(name) == b(name)
    ensures Load(a, group) == Load(b, group)
  {
    if group != [] { LoadSame(a, b, group[..|group| - 1]); }
  }

  lemma {:induction false} HeaviestSame(a: Weighing, b: Weighing, groups: seq<seq<string>>)
    requires forall name :: a(name) == b(name)
    ensures Heaviest(a, groups) == Heaviest(b, groups)
  {
    forall j | 0 <= j < |groups| ensures Load(a, groups[j]) == Load(b, groups[j]) {
      LoadSame(a, b, groups[j]);
    }
    assert GroupLoads(a, groups) == GroupLoads(b, groups);
  }

  /**
   The bounds for the durations on record: names of the profile count with their own duration,
   the others with the upper median, however these weights are computed.
   */
  lemma {:induction false} PlanNearOptimal(names: seq<string>, profile: seq<Timing>, weight: Weighing, workers: nat,
      groups: seq<seq<string>>)
    requires DistinctNames(profile) && Weighs(profile, weight)
    requires workers > 0 && |groups| == workers && Multi(groups) == multiset(names)
    ensures var shards := Shards(names, WeightOf(profile), workers);
            && 3 * workers * Heaviest(weight, shards) <= (4 * workers - 1) * Heaviest(weight, groups)
            && workers * Heaviest(weight, shards) <= (2 * workers - 1) * Heaviest(weight, groups)
  {
    hide Weighs, Heaviest, Shards;
    var used := WeightOf(profile);
    WeightsAreRecorded(profile);
    forall name ensures used(name) == weight(name) { WeighingUnique(profile, used, weight, name); }
    ShardsNearOptimal(names, used, workers, groups);
    HeaviestSame(used, weight, Shards(names, used, workers));
    HeaviestSame(used, weight, groups);
  }

  // ---------------------------------------------------------------- the plan is determined

  /** Two assignments that always take the first of the least loaded machines are the same. */
  lemma {:induction false} GreedyUnique(w: seq<nat>, f: seq<nat>, g: seq<nat>, m: nat, n: nat)
    requires Greedy(w, f, m) && Greedy(w, g, m) && n <= |w|
    ensures f[..n] == g[..n]
  {
    if n > 0 {
      var k := n - 1;
      GreedyUnique(w, f, g, m, k);
      assert forall i :: 0 <= i < k ==> f[..k][i] == f[i] && g[..k][i] == g[i];
      LoadsOfPrefix(w, f, w, g, k, m);
      assert PlacedLeast(w, f, m, k) && PlacedLeast(w, g, m, k);
      LeastUnique(Loads(w, f, k, m), f[k], g[k]);
      assert f[..n] == f[..k] + [f[k]] && g[..n] == g[..k] + [g[k]];
    }
  }

  lemma {:induction false} LeastUnique(totals: seq<nat>, i: nat, j: nat)
    requires IsLeast(totals, i) && IsLeast(totals, j)
    ensures i == j
  {
    var x, y := totals[i], totals[j];
    assert x == y;
  }

  /** The longer duration first, and among equal durations the name that sorts first. */
  ghost predicate LongestFirst(order: seq<string>, weight: Weighing) {
    forall i, j :: 0 <= i < j < |order| ==>
      || weight(order[i]) > weight(order[j])
      || (weight(order[i]) == weight(order[j]) && LexLe(order[i], order[j]))
  }

  /**
   The plan stated without the loops: any order of the names by falling weight and then by name,
   dealt by any assignment that takes the first of the least loaded buckets, gives these shards.
   */
  lemma {:induction false} ShardsAreThePlan(names: seq<string>, weight: Weighing, workers: nat, order: seq<string>,
      g: seq<nat>)
    requires workers > 0 && multiset(order) == multiset(names) && LongestFirst(order, weight)
    requires Greedy(OrderWeights(weight, order), g, workers)
    ensures Shards(names, weight, workers) == Finish(Deal(order, g, |order|, workers))
  {
    var le, w := HeaviestFirst(weight), OrderWeights(weight, order);
    HeaviestFirstIsTotal(weight);
    SortOrders(names, le);
    assert SortedBy(order, le);
    SortedUnique(order, Sort(names, le), le);
    ChoicesAreGreedy(w, workers);
    var f := Choices(w, workers);
    GreedyUnique(w, f, g, workers, |w|);
    assert f[..|w|] == f && g[..|w|] == g;
  }

  /** The position of a bucket among the non-empty ones. */
  function Position(buckets: seq<seq<string>>, n: nat): nat
    requires n <= |buckets|
  {
    if n == 0 then 0 else Position(buckets, n - 1) + if buckets[n - 1] == [] then 0 else 1
  }

  /** Every non-empty bucket is a shard, sorted, in the order of the buckets. */
  lemma {:induction false} FinishInOrder(buckets: seq<seq<string>>)
    ensures |Finish(buckets)| == Position(buckets, |buckets|)
    ensures forall j :: 0 <= j < |buckets| && buckets[j] != [] ==>
              && Position(buckets, j) < |Finish(buckets)|
              && multiset(Finish(buckets)[Position(buckets, j)]) == multiset(buckets[j])
              && SortedBy(Finish(buckets)[Position(buckets, j)], LexLe)
  {
    var each := SortEach(buckets);
    LexIsTotalOrder();
    forall j | 0 <= j < |buckets| ensures (each[j] == [] <==> buckets[j] == []) {}
    KeptCount(buckets, each, |buckets|);
    forall j | 0 <= j < |buckets| && buckets[j] != []
      ensures Position(buckets, j) < |Finish(buckets)| && Finish(buckets)[Position(buckets, j)] == each[j]
      ensures SortedBy(each[j], LexLe)
    {
      KeptAt(buckets, each, |buckets|, j);
      SortOrders(buckets[j], LexLe);
    }
  }

  lemma {:induction false} KeptCount(buckets: seq<seq<string>>, each: seq<seq<string>>, n: nat)
    requires n <= |buckets| == |each| && forall j :: 0 <= j < |each| ==> (each[j] == [] <==> buckets[j] == [])
    ensures |NonEmpty(each, n)| == Position(buckets, n)
  {
    if n > 0 { KeptCount(buckets, each, n - 1); }
  }

  lemma {:induction false} KeptAt(buckets: seq<seq<string>>, each: seq<seq<string>>, n: nat, j: nat)
    requires j < n <= |buckets| == |each| && forall i :: 0 <= i < |each| ==> (each[i] == [] <==> buckets[i] == [])
    requires buckets[j] != []
    ensures Position(buckets, j) < |NonEmpty(each, n)| && NonEmpty(each, n)[Position(buckets, j)] == each[j]
    decreases n
  {
    if j == n - 1 { KeptCount(buckets, each, j); } else { KeptAt(buckets, each, n - 1, j); }
  }

  // ---------------------------------------------------------------- levels

  /** Before empty buckets are dropped, bucket loads differ by at most the largest weight used. */
  lemma {:induction false} BucketsStayLevel(names: seq<string>, weight: Weighing, workers: nat, top: nat, i: nat,
      j: nat)
    requires workers > 0 && i < workers && j < workers
    requires forall x :: x in names ==> weight(x) <= top
    ensures Load(weight, Buckets(names, weight, workers)[i]) <= Load(weight, Buckets(names, weight, workers)[j]) + top
  {
    var order := Sort(names, HeaviestFirst(weight));
    var w := OrderWeights(weight, order);
    var g := Choices(w, workers);
    SameMembers(order, names);
    ChoicesAreGreedy(w, workers);
    LoadsStayLevel(w, g, |order|, workers, top);
    DealLoads(weight, order, g, |order|, workers, i);
    DealLoads(weight, order, g, |order|, workers, j);
  }

  // ---------------------------------------------------------------- exact cover

  /** The test `run` makes before any shard starts: `combined == Counter(full)` and every count is 1. */
  ghost predicate ExactCover(shards: seq<seq<string>>, full: seq<string>) {
    Multi(shards) == multiset(full) && forall x :: x in Multi(shards) ==> Multi(shards)[x] == 1
  }

  ghost predicate DuplicateFree(s: seq<string>) {
    forall i, j :: 0 <= i < j < |s| ==> s[i] != s[j]
  }

  lemma {:induction false} CountsOne(s: seq<string>)
    ensures DuplicateFree(s) <==> forall x :: x in multiset(s) ==> multiset(s)[x] == 1
  {
    if s != [] {
      var n := |s| - 1;
      var t := s[..n];
      assert s == t + [s[n]];
      CountsOne(t);
      assert multiset(s) == multiset(t) + multiset{s[n]};
      if DuplicateFree(s) {
        assert DuplicateFree(t) && s[n] !in t;
      } else if DuplicateFree(t) {
        assert s[n] in t;
        assert multiset(s)[s[n]] >= 2;
      } else {
        var x :| x in multiset(t) && multiset(t)[x] != 1;
        assert multiset(s)[x] >= 2;
      }
    }
  }

  /** A balanced plan passes the exact-cover test exactly when the inventory has no duplicate. */
  lemma {:induction false} ShardsCoverExactly(names: seq<string>, weight: Weighing, workers: nat)
    requires workers > 0
    ensures ExactCover(Shards(names, weight, workers), names) <==> DuplicateFree(names)
  {
    ShardsPartition(names, weight, workers);
    CountsOne(names);
  }
}
