/**
 The scheduling argument behind `balanced_names`: jobs in an arbitrary order, a
 choice of machine per job, the loads that choice produces, and Graham's bounds for
 the choice that always takes the least-loaded machine.
 */
module LptBound {
  import opened Sums

  function Ones(n: nat): (r: seq<nat>)
    ensures |r| == n && forall i :: 0 <= i < n ==> r[i] == 1
  {
    seq(n, _ => 1)
  }

  /** Loads of `m` machines after the first `n` jobs, job `i` going to machine `f[i]`. */
  function Loads(w: seq<nat>, f: seq<nat>, n: nat, m: nat): (r: seq<nat>)
    requires n <= |w| && n <= |f|
    requires forall i :: 0 <= i < n ==> f[i] < m
    ensures |r| == m
  {
    if n == 0 then seq(m, _ => 0)
    else
      var before := Loads(w, f, n - 1, m);
      before[f[n - 1] := before[f[n - 1]] + w[n - 1]]
  }

  ghost predicate Assigns(f: seq<nat>, n: nat, m: nat) {
    |f| == n && forall i :: 0 <= i < n ==> f[i] < m
  }

  /** The first of the least totals. */
  ghost predicate IsLeast(totals: seq<nat>, j: nat) {
    && j < |totals|
    && (forall i :: 0 <= i < |totals| ==> totals[j] <= totals[i])
    && (forall i :: 0 <= i < j ==> totals[j] < totals[i])
  }

  /** Job `k` went to a machine that was least loaded when the job was placed. */
  ghost predicate PlacedLeast(w: seq<nat>, g: seq<nat>, m: nat, k: nat)
    requires Assigns(g, |w|, m) && k < |w|
  {
    IsLeast(Loads(w, g, k, m), g[k])
  }

  ghost predicate Greedy(w: seq<nat>, g: seq<nat>, m: nat) {
    && Assigns(g, |w|, m)
    && forall k :: 0 <= k < |w| ==> PlacedLeast(w, g, m, k)
  }

  ghost predicate Descending(w: seq<nat>) {
    forall i, j :: 0 <= i <= j < |w| ==> w[j] <= w[i]
  }

  // ---------------------------------------------------------------- loads

  /** Work is conserved: the machines together carry exactly the jobs placed so far. */
  lemma {:induction false} LoadsConserve(w: seq<nat>, f: seq<nat>, n: nat, m: nat)
    requires n <= |w| && n <= |f|
    requires forall i :: 0 <= i < n ==> f[i] < m
    ensures Sum(Loads(w, f, n, m)) == Sum(w[..n])
  {
    if n == 0 {
      SumZeros(Loads(w, f, 0, m));
    } else {
      LoadsConserve(w, f, n - 1, m);
      SumUpdate(Loads(w, f, n - 1, m), f[n - 1], w[n - 1]);
      assert w[..n][..n - 1] == w[..n - 1];
    }
  }

  lemma {:induction false} LoadsGrow(w: seq<nat>, f: seq<nat>, k: nat, n: nat, m: nat)
    requires k <= n <= |w| && n <= |f|
    requires forall i :: 0 <= i < n ==> f[i] < m
    ensures forall j :: 0 <= j < m ==> Loads(w, f, k, m)[j] <= Loads(w, f, n, m)[j]
    decreases n
  {
    if k < n { LoadsGrow(w, f, k, n - 1, m); }
  }

  /** The last job of a non-empty machine. */
  lemma {:induction false} LastJob(w: seq<nat>, f: seq<nat>, n: nat, m: nat, j: nat) returns (k: nat)
    requires n <= |w| && n <= |f| && j < m
    requires forall i :: 0 <= i < n ==> f[i] < m
    requires Loads(w, f, n, m)[j] > 0
    ensures k < n && f[k] == j
    ensures Loads(w, f, n, m)[j] == Loads(w, f, k, m)[j] + w[k]
    decreases n
  {
    if f[n - 1] == j {
      k := n - 1;
    } else {
      k := LastJob(w, f, n - 1, m, j);
    }
  }

  // ---------------------------------------------------------------- arithmetic

  lemma {:induction false} Scale(m: nat, x: nat, y: nat)
    requires x <= y
    ensures m * x <= m * y && x * m <= y * m
  {
    if m > 0 { Scale(m - 1, x, y); }
  }

  lemma {:induction false} Spread(a: nat, b: nat, x: nat)
    ensures (a + b) * x == a * x + b * x
  {}

  lemma {:induction false} AveragingArithmetic(m: nat, low: nat, x: nat, limit: nat, total: nat)
    requires m > 0 && m * low <= total && total + x <= m * limit
    ensures m * (low + x) <= m * limit + (m - 1) * x
  {
    assert m * (low + x) == m * low + m * x;
    Spread(m - 1, 1, x);
  }

  lemma {:induction false} ListArithmetic(m: nat, top: nat, limit: nat, last: nat)
    requires m > 0 && m * top <= m * limit + (m - 1) * last && last <= limit
    ensures m * top <= (2 * m - 1) * limit
  {
    Scale(m - 1, last, limit);
    assert (2 * m - 1) * limit == m * limit + (m - 1) * limit by {
      Spread(m, m - 1, limit);
    }
  }

  lemma {:induction false} LongestArithmetic(m: nat, top: nat, limit: nat, last: nat)
    requires m > 0 && m * top <= m * limit + (m - 1) * last && 3 * last <= limit
    ensures 3 * m * top <= (4 * m - 1) * limit
  {
    Scale(m - 1, 3 * last, limit);
    assert (4 * m - 1) * limit == 3 * (m * limit) + (m - 1) * limit;
  }

  // ---------------------------------------------------------------- list scheduling

  /** List scheduling, before the order of the jobs matters: `m*M <= m*L + (m-1)*w[k]`. */
  lemma {:induction false} AveragingBound(w: seq<nat>, g: seq<nat>, f: seq<nat>, m: nat, limit: nat, k: nat)
    requires m > 0 && Greedy(w, g, m) && Assigns(f, |w|, m) && k < |w|
    requires Within(Loads(w, f, |w|, m), limit)
    ensures m * (Loads(w, g, k, m)[g[k]] + w[k]) <= m * limit + (m - 1) * w[k]
  {
    var before := Loads(w, g, k, m);
    var low := before[g[k]];
    assert PlacedLeast(w, g, m, k);
    SumAtLeast(before, low);
    LoadsConserve(w, g, k, m);
    LoadsConserve(w, f, k + 1, m);
    LoadsGrow(w, f, k + 1, |w|, m);
    SumAtMost(Loads(w, f, k + 1, m), limit);
    assert w[..k + 1][..k] == w[..k];
    AveragingArithmetic(m, low, w[k], limit, Sum(w[..k]));
  }

  /** A job is never heavier than the heaviest machine of any assignment. */
  lemma {:induction false} JobFits(w: seq<nat>, f: seq<nat>, m: nat, limit: nat, k: nat)
    requires Assigns(f, |w|, m) && k < |w|
    requires Within(Loads(w, f, |w|, m), limit)
    ensures w[k] <= limit
  {
    LoadsGrow(w, f, k + 1, |w|, m);
    assert w[k] <= Loads(w, f, k + 1, m)[f[k]];
  }

  // ---------------------------------------------------------------- few heavy jobs

  /** With jobs of weight at least `x`, a machine carrying `c` of them weighs at least `c*x`. */
  lemma {:induction false} CountTimesWeight(w: seq<nat>, f: seq<nat>, n: nat, m: nat, j: nat, x: nat)
    requires n <= |w| && n <= |f| && j < m
    requires forall i :: 0 <= i < n ==> f[i] < m
    requires forall i :: 0 <= i < n ==> x <= w[i]
    ensures Loads(Ones(|w|), f, n, m)[j] * x <= Loads(w, f, n, m)[j]
    decreases n
  {
    if n > 0 {
      CountTimesWeight(w, f, n - 1, m, j, x);
      var c := Loads(Ones(|w|), f, n - 1, m)[j];
      assert (c + 1) * x == c * x + x;
    }
  }

  /** A machine that counts no job is empty, so a loaded machine counts at least one. */
  lemma {:induction false} CountZero(w: seq<nat>, f: seq<nat>, n: nat, m: nat, j: nat)
    requires n <= |w| && n <= |f| && j < m
    requires forall i :: 0 <= i < n ==> f[i] < m
    ensures Loads(Ones(|w|), f, n, m)[j] == 0 ==> Loads(w, f, n, m)[j] == 0 && forall i :: 0 <= i < n ==> f[i] != j
    decreases n
  {
    if n > 0 { CountZero(w, f, n - 1, m, j); }
  }

  /** The only job on a machine that counts one. */
  lemma {:induction false} OnlyJob(w: seq<nat>, f: seq<nat>, n: nat, m: nat, j: nat) returns (s: nat)
    requires n <= |w| && n <= |f| && j < m
    requires forall i :: 0 <= i < n ==> f[i] < m
    requires Loads(Ones(|w|), f, n, m)[j] == 1
    ensures s < n && f[s] == j && Loads(w, f, n, m)[j] == w[s]
    ensures forall i :: 0 <= i < n && f[i] == j ==> i == s
    decreases n
  {
    if f[n - 1] == j {
      s := n - 1;
      CountZero(w, f, n - 1, m, j);
    } else {
      s := OnlyJob(w, f, n - 1, m, j);
    }
  }

  /** Two different jobs on one machine: it counts at least two and carries both weights. */
  lemma {:induction false} TwoJobs(w: seq<nat>, f: seq<nat>, n: nat, m: nat, a: nat, b: nat)
    requires a < b < n <= |w| && n <= |f|
    requires forall i :: 0 <= i < n ==> f[i] < m
    requires f[a] == f[b]
    ensures w[a] + w[b] <= Loads(w, f, n, m)[f[a]]
    decreases n
  {
    if b < n - 1 {
      TwoJobs(w, f, n - 1, m, a, b);
    } else {
      LoadsGrow(w, f, a + 1, b, m);
    }
  }

  /** An injection from one finite set of machines into another. */
  lemma {:induction false} Injects(a: set<nat>, b: set<nat>, h: map<nat, nat>)
    requires a <= h.Keys
    requires forall x :: x in a ==> h[x] in b
    requires forall x, y :: x in a && y in a && x != y ==> h[x] != h[y]
    ensures |a| <= |b|
    decreases |a|
  {
    if a != {} {
      var x :| x in a;
      Injects(a - {x}, b - {h[x]}, h);
    }
  }

  ghost function At(s: seq<nat>, c: nat): set<nat> {
    set j: nat | j < |s| && s[j] == c
  }

  ghost function AtMostOne(s: seq<nat>): set<nat> {
    set j: nat | j < |s| && s[j] <= 1
  }

  lemma {:induction false} CountsBelowTwo(s: seq<nat>)
    requires Within(s, 2)
    ensures Sum(s) + |AtMostOne(s)| <= 2 * |s|
  {
    var n := |s| - 1;
    if s != [] {
      CountsBelowTwo(s[..n]);
      assert AtMostOne(s) == if s[n] <= 1 then AtMostOne(s[..n]) + {n} else AtMostOne(s[..n]);
    } else {
      assert AtMostOne(s) == {};
    }
  }

  lemma {:induction false} CountsAboveOne(s: seq<nat>)
    requires forall j :: 0 <= j < |s| ==> s[j] >= 1
    ensures 2 * |s| <= Sum(s) + |At(s, 1)|
  {
    var n := |s| - 1;
    if s != [] {
      CountsAboveOne(s[..n]);
      assert At(s, 1) == if s[n] == 1 then At(s[..n], 1) + {n} else At(s[..n], 1);
    } else {
      assert At(s, 1) == {};
    }
  }

  lemma {:induction false} SumOnes(n: nat, k: nat)
    requires k <= n
    ensures Sum(Ones(n)[..k]) == k
    decreases k
  {
    if k > 0 {
      SumOnes(n, k - 1);
      assert Ones(n)[..k][..k - 1] == Ones(n)[..k - 1];
    }
  }

  /**
   If the greedy choice pushed job `k` past `limit`, a machine holding one job when `k`
   arrived holds a job too heavy to share a machine with any of the jobs `0..k`.
   */
  lemma {:induction false} SinglesStandAlone(w: seq<nat>, g: seq<nat>, f: seq<nat>, m: nat, limit: nat, k: nat,
      j: nat) returns (s: nat)
    requires m > 0 && Descending(w) && Greedy(w, g, m) && Assigns(f, |w|, m) && k < |w|
    requires Within(Loads(w, f, |w|, m), limit)
    requires Loads(w, g, k, m)[g[k]] + w[k] > limit
    requires j < m && Loads(Ones(|w|), g, k, m)[j] == 1
    ensures s < k && g[s] == j
    ensures Loads(Ones(|w|), f, k + 1, m)[f[s]] <= 1
    ensures forall t :: 0 <= t <= k && t != s ==> f[t] != f[s]
  {
    s := OnlyJob(w, g, k, m, j);
    assert PlacedLeast(w, g, m, k);
    forall t | 0 <= t <= k && t != s
      ensures f[t] != f[s]
    {
      if f[t] == f[s] {
        TwoJobs(w, f, k + 1, m, if t < s then t else s, if t < s then s else t);
        LoadsGrow(w, f, k + 1, |w|, m);
        assert false;
      }
    }
    CountAlone(f, |w|, k + 1, m, s);
  }

  lemma {:induction false} CountAlone(f: seq<nat>, size: nat, n: nat, m: nat, s: nat)
    requires n <= size && n <= |f| && s < |f| && f[s] < m
    requires forall i :: 0 <= i < n ==> f[i] < m
    requires forall t :: 0 <= t < n && t != s ==> f[t] != f[s]
    ensures Loads(Ones(size), f, n, m)[f[s]] <= if s < n then 1 else 0
    decreases n
  {
    if n > 0 { CountAlone(f, size, n - 1, m, s); }
  }

  /** Job `k` overflows `limit` on its greedy machine although `f` stays within it. */
  ghost predicate Overflows(w: seq<nat>, g: seq<nat>, f: seq<nat>, m: nat, limit: nat, k: nat) {
    && m > 0 && Descending(w) && Greedy(w, g, m) && Assigns(f, |w|, m) && k < |w|
    && Within(Loads(w, f, |w|, m), limit)
    && Loads(w, g, k, m)[g[k]] + w[k] > limit
  }

  lemma {:induction false} NoGreedyMachineEmpty(w: seq<nat>, g: seq<nat>, f: seq<nat>, m: nat, limit: nat, k: nat)
    requires Overflows(w, g, f, m, limit, k)
    ensures forall j :: 0 <= j < m ==> Loads(Ones(|w|), g, k, m)[j] >= 1
  {
    JobFits(w, f, m, limit, k);
    assert PlacedLeast(w, g, m, k);
    forall j | 0 <= j < m ensures Loads(Ones(|w|), g, k, m)[j] >= 1 {
      CountZero(w, g, k, m, j);
    }
  }

  lemma {:induction false} TwoHeavyJobsAtMost(w: seq<nat>, f: seq<nat>, m: nat, limit: nat, k: nat)
    requires Descending(w) && Assigns(f, |w|, m) && k < |w|
    requires Within(Loads(w, f, |w|, m), limit) && 3 * w[k] > limit
    ensures Within(Loads(Ones(|w|), f, k + 1, m), 2)
  {
    var fc := Loads(Ones(|w|), f, k + 1, m);
    LoadsGrow(w, f, k + 1, |w|, m);
    forall j | 0 <= j < m ensures fc[j] <= 2 {
      CountTimesWeight(w, f, k + 1, m, j, w[k]);
      if fc[j] >= 3 { Scale(w[k], 3, fc[j]); }
    }
  }

  /** The machine that the lone job of greedy machine `j` has to itself under `f`. */
  ghost predicate Home(g: seq<nat>, f: seq<nat>, k: nat, j: nat, s: nat) {
    && s < k < |g| && k < |f| && g[s] == j
    && forall t :: 0 <= t <= k && t != s ==> f[t] != f[s]
  }

  lemma {:induction false} SinglesInject(w: seq<nat>, g: seq<nat>, f: seq<nat>, m: nat, limit: nat, k: nat)
    requires Overflows(w, g, f, m, limit, k)
    ensures |At(Loads(Ones(|w|), g, k, m), 1)| <= |AtMostOne(Loads(Ones(|w|), f, k + 1, m))|
  {
    var gc, fc := Loads(Ones(|w|), g, k, m), Loads(Ones(|w|), f, k + 1, m);
    var only: map<nat, nat> := map[];
    for j := 0 to m
      invariant only.Keys == set i: nat | i < j && gc[i] == 1
      invariant forall i :: i in only ==> Home(g, f, k, i, only[i]) && f[only[i]] in AtMostOne(fc)
    {
      if gc[j] == 1 {
        var s := SinglesStandAlone(w, g, f, m, limit, k, j);
        only := only[j := s];
      }
    }
    var home := map i | i in only :: f[only[i]];
    Injects(At(gc, 1), AtMostOne(fc), home);
  }

  /**
   When every job so far weighs more than a third of `limit`, greedy is already optimal:
   job `k` lands within `limit`.  The assignment `f` puts at most two of the jobs `0..k`
   on a machine and every greedy single is alone under `f`, so an overflow would need one
   job more than there are.
   */
  lemma {:induction false} HeavyJobsFit(w: seq<nat>, g: seq<nat>, f: seq<nat>, m: nat, limit: nat, k: nat)
    requires m > 0 && Descending(w) && Greedy(w, g, m) && Assigns(f, |w|, m) && k < |w|
    requires Within(Loads(w, f, |w|, m), limit)
    requires 3 * w[k] > limit
    ensures Loads(w, g, k, m)[g[k]] + w[k] <= limit
  {
    if Overflows(w, g, f, m, limit, k) {
      var ones := Ones(|w|);
      NoGreedyMachineEmpty(w, g, f, m, limit, k);
      TwoHeavyJobsAtMost(w, f, m, limit, k);
      SinglesInject(w, g, f, m, limit, k);
      CountsAboveOne(Loads(ones, g, k, m));
      CountsBelowTwo(Loads(ones, f, k + 1, m));
      LoadsConserve(ones, g, k, m);
      LoadsConserve(ones, f, k + 1, m);
      SumOnes(|w|, k);
      SumOnes(|w|, k + 1);
      assert false;
    }
  }

  // ---------------------------------------------------------------- the bounds

  /** Graham's bound for any order of the jobs: `m*M <= (2m-1)*L`. */
  lemma {:induction false} ListBound(w: seq<nat>, g: seq<nat>, f: seq<nat>, m: nat, limit: nat, j: nat)
    requires m > 0 && Greedy(w, g, m) && Assigns(f, |w|, m) && j < m
    requires Within(Loads(w, f, |w|, m), limit)
    ensures m * Loads(w, g, |w|, m)[j] <= (2 * m - 1) * limit
  {
    var top := Loads(w, g, |w|, m)[j];
    if top > 0 {
      var k := LastJob(w, g, |w|, m, j);
      AveragingBound(w, g, f, m, limit, k);
      JobFits(w, f, m, limit, k);
      ListArithmetic(m, top, limit, w[k]);
    } else {
      ListArithmetic(m, top, limit, 0);
    }
  }

  /** Graham's bound for longest-processing-time-first: `3*m*M <= (4m-1)*L`. */
  lemma {:induction false} LongestFirstBound(w: seq<nat>, g: seq<nat>, f: seq<nat>, m: nat, limit: nat, j: nat)
    requires m > 0 && Descending(w) && Greedy(w, g, m) && Assigns(f, |w|, m) && j < m
    requires Within(Loads(w, f, |w|, m), limit)
    ensures 3 * m * Loads(w, g, |w|, m)[j] <= (4 * m - 1) * limit
  {
    var top := Loads(w, g, |w|, m)[j];
    if top == 0 {
      LongestArithmetic(m, top, limit, 0);
    } else {
      var k := LastJob(w, g, |w|, m, j);
      if 3 * w[k] > limit {
        HeavyJobsFit(w, g, f, m, limit, k);
        Scale(m, top, limit);
        LongestArithmetic(m, top, limit, 0);
      } else {
        AveragingBound(w, g, f, m, limit, k);
        LongestArithmetic(m, top, limit, w[k]);
      }
    }
  }

  /** Greedy keeps the machines level: final loads differ by at most the heaviest job. */
  lemma {:induction false} LoadsStayLevel(w: seq<nat>, g: seq<nat>, n: nat, m: nat, top: nat)
    requires n <= |w| && Greedy(w, g, m) && Within(w, top)
    ensures forall i, j :: 0 <= i < m && 0 <= j < m ==> Loads(w, g, n, m)[i] <= Loads(w, g, n, m)[j] + top
  {
    if n > 0 {
      LoadsStayLevel(w, g, n - 1, m, top);
      assert PlacedLeast(w, g, m, n - 1);
    }
  }
}
