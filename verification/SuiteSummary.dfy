/**
 The evidence chain of a sharded test run: shard results summed by `run` and `main` in
 tools/parallel_tests.py, printed as summary lines, and read back by `parallel_counts` in
 tools/gate_ledger.py.
 */
module SuiteSummary {
  import opened Options
  import opened Decimal
  import opened FieldLines
  import opened BalancedNames
  import Sums

  // ---------------------------------------------------------------- running shards

  /** Totals in the order passed, skipped, failed, leaked, log errors. */
  datatype Counts = Counts(passed: nat, skipped: nat, failed: nat, leaked: nat, errors: nat)

  const Zero := Counts(0, 0, 0, 0, 0)

  function Plus(a: Counts, b: Counts): Counts {
    Counts(a.passed + b.passed, a.skipped + b.skipped, a.failed + b.failed, a.leaked + b.leaked, a.errors + b.errors)
  }

  function Executed(c: Counts): nat { c.passed + c.skipped + c.failed }

  /** What came of one shard: whether it was cut short, and the terminal lines found in its log. */
  datatype Outcome = Outcome(timedOut: bool, interrupted: bool, broken: bool, summaries: seq<Counts>,
      executions: seq<nat>)

  datatype Status = Status(counts: Option<Counts>, failed: bool)

  /** `execute`, after the process has ended, for a shard of `expected` names. */
  function StatusOf(expected: nat, o: Outcome): Status {
    if o.broken || o.timedOut || o.interrupted || |o.summaries| != 1 || |o.executions| != 1 then Status(None, true)
    else
      var counts := o.summaries[0];
      Status(Some(counts), o.executions[0] != expected || Executed(counts) != expected)
  }

  /** One artifact: its inventory, its shards, and how each shard ended. */
  datatype Artifact = Artifact(full: seq<string>, shards: seq<seq<string>>, outcomes: seq<Outcome>)

  /** `run` starts no shard before the exact-cover test has passed. */
  ghost predicate Ran(a: Artifact) {
    ExactCover(a.shards, a.full) && |a.outcomes| == |a.shards|
  }

  function TotalsUpTo(a: Artifact, n: nat): Counts
    requires n <= |a.shards| && |a.outcomes| == |a.shards|
  {
    if n == 0 then Zero
    else
      match StatusOf(|a.shards[n - 1]|, a.outcomes[n - 1]).counts
      case None => TotalsUpTo(a, n - 1)
      case Some(c) => Plus(TotalsUpTo(a, n - 1), c)
  }

  function Totals(a: Artifact): Counts
    requires |a.outcomes| == |a.shards|
  {
    TotalsUpTo(a, |a.shards|)
  }

  predicate Complete(a: Artifact)
    requires |a.outcomes| == |a.shards|
  {
    forall i :: 0 <= i < |a.shards| ==>
      var s := StatusOf(|a.shards[i]|, a.outcomes[i]); s.counts.Some? && !s.failed
  }

  /** A shard whose counts are used: it ran to its end and its log has one summary and one execution line. */
  predicate Counted(o: Outcome) {
    !o.broken && !o.timedOut && !o.interrupted && |o.summaries| == 1 && |o.executions| == 1
  }

  /** An artifact is complete exactly when every shard counted and executed all its names, by both lines. */
  lemma {:induction false} CompleteExactly(a: Artifact)
    requires |a.outcomes| == |a.shards|
    ensures Complete(a) <==>
              forall i :: 0 <= i < |a.shards| ==>
                && Counted(a.outcomes[i])
                && a.outcomes[i].executions[0] == |a.shards[i]|
                && a.outcomes[i].summaries[0].passed + a.outcomes[i].summaries[0].skipped
                   + a.outcomes[i].summaries[0].failed == |a.shards[i]|
  {}

  function Picked(o: Outcome, pick: Counts -> nat): nat { if Counted(o) then pick(o.summaries[0]) else 0 }

  /** One column of the shard counts, zero where a shard did not count. */
  function Column(outcomes: seq<Outcome>, n: nat, pick: Counts -> nat): (r: seq<nat>)
    requires n <= |outcomes|
    ensures |r| == n
    ensures forall i :: 0 <= i < n ==> r[i] == if Counted(outcomes[i]) then pick(outcomes[i].summaries[0]) else 0
  {
    seq(n, i requires 0 <= i < n => Picked(outcomes[i], pick))
  }

  lemma {:induction false} ColumnGrows(outcomes: seq<Outcome>, n: nat, pick: Counts -> nat)
    requires n < |outcomes|
    ensures Sums.Sum(Column(outcomes, n + 1, pick))
         == Sums.Sum(Column(outcomes, n, pick)) + if Counted(outcomes[n]) then pick(outcomes[n].summaries[0]) else 0
  {
    assert Column(outcomes, n + 1, pick)[..n] == Column(outcomes, n, pick);
  }

  lemma {:induction false} TotalsSum(a: Artifact, n: nat, pick: Counts -> nat)
    requires n <= |a.shards| && |a.outcomes| == |a.shards| && pick(Zero) == 0
    requires forall x, y :: pick(Plus(x, y)) == pick(x) + pick(y)
    ensures pick(TotalsUpTo(a, n)) == Sums.Sum(Column(a.outcomes, n, pick))
  {
    if n > 0 {
      TotalsSum(a, n - 1, pick);
      ColumnGrows(a.outcomes, n - 1, pick);
      hide Column, Plus;
    }
  }

  /** The totals of an artifact are, column by column, the sums over the shards that counted. */
  lemma {:induction false} TotalsAreSums(a: Artifact)
    requires |a.outcomes| == |a.shards|
    ensures var n, t := |a.shards|, Totals(a);
            && t.passed == Sums.Sum(Column(a.outcomes, n, (c: Counts) => c.passed))
            && t.skipped == Sums.Sum(Column(a.outcomes, n, (c: Counts) => c.skipped))
            && t.failed == Sums.Sum(Column(a.outcomes, n, (c: Counts) => c.failed))
            && t.leaked == Sums.Sum(Column(a.outcomes, n, (c: Counts) => c.leaked))
            && t.errors == Sums.Sum(Column(a.outcomes, n, (c: Counts) => c.errors))
  {
    hide Column, TotalsUpTo;
    var n := |a.shards|;
    TotalsSum(a, n, (c: Counts) => c.passed);
    TotalsSum(a, n, (c: Counts) => c.skipped);
    TotalsSum(a, n, (c: Counts) => c.failed);
    TotalsSum(a, n, (c: Counts) => c.leaked);
    TotalsSum(a, n, (c: Counts) => c.errors);
  }

  function SizeUpTo(shards: seq<seq<string>>, n: nat): nat
    requires n <= |shards|
  {
    if n == 0 then 0 else SizeUpTo(shards, n - 1) + |shards[n - 1]|
  }

  lemma {:induction false} SizeIsMulti(shards: seq<seq<string>>, n: nat)
    requires n <= |shards|
    ensures SizeUpTo(shards, n) == |MultiUpTo(shards, n)|
  {
    if n > 0 {
      SizeIsMulti(shards, n - 1);
      assert |multiset(shards[n - 1])| == |shards[n - 1]|;
    }
  }

  lemma {:induction false} CompleteExecutes(a: Artifact, n: nat)
    requires |a.outcomes| == |a.shards| && n <= |a.shards| && Complete(a)
    ensures Executed(TotalsUpTo(a, n)) == SizeUpTo(a.shards, n)
  {
    if n > 0 { CompleteExecutes(a, n - 1); }
  }

  /** A complete artifact executed exactly its inventory. */
  lemma {:induction false} CompleteCovers(a: Artifact)
    requires Ran(a) && Complete(a)
    ensures Executed(Totals(a)) == |a.full|
  {
    var n := |a.shards|;
    CompleteExecutes(a, n);
    SizeIsMulti(a.shards, n);
    assert |multiset(a.full)| == |a.full|;
  }

  // ---------------------------------------------------------------- printing

  const SUITE := "parallel suite summary:"
  const ARTIFACT := "parallel artifact summary:"

  const COMMON := [
    Field(" discovered=", 20), Field(" executed=", 20), Field(" passed=", 20), Field(" skipped=", 20),
    Field(" failed=", 20), Field(" leaked=", 20), Field(" log_errors=", 20), Field(" complete=", 1)]

  function SuiteFields(): seq<Field> { [Field(SUITE + " artifacts=", 20)] + COMMON }
  function ArtifactFields(): seq<Field> { [Field(ARTIFACT + " index=", 20)] + COMMON }

  function Flag(b: bool): nat { if b then 1 else 0 }

  /** The seven numbers of a summary line. */
  function Row(discovered: nat, c: Counts): (r: seq<nat>)
    ensures |r| == 7
  {
    [discovered, Executed(c), c.passed, c.skipped, c.failed, c.leaked, c.errors]
  }

  function ArtifactRow(a: Artifact): (r: seq<nat>)
    requires |a.outcomes| == |a.shards|
    ensures |r| == 7
  {
    Row(|a.full|, Totals(a))
  }

  function ArtifactLine(index: nat, a: Artifact): string
    requires |a.outcomes| == |a.shards|
  {
    PrintFields(ArtifactFields(), [index] + ArtifactRow(a) + [Flag(Complete(a))])
  }

  /** A summary line after its own number, spelled out. */
  function Tail(discovered: nat, c: Counts, done: bool): string {
    " discovered=" + (Dec(discovered) + (" executed=" + (Dec(c.passed + c.skipped + c.failed)
    + (" passed=" + (Dec(c.passed) + (" skipped=" + (Dec(c.skipped) + (" failed=" + (Dec(c.failed)
    + (" leaked=" + (Dec(c.leaked) + (" log_errors=" + (Dec(c.errors)
    + (" complete=" + if done then "1" else "0"))))))))))))))
  }

  lemma {:induction false} PrintCons(f: Field, fields: seq<Field>, v: nat, values: seq<nat>)
    requires |fields| == |values|
    ensures PrintFields([f] + fields, [v] + values) == f.literal + (Dec(v) + PrintFields(fields, values))
  {
    assert ([f] + fields)[1..] == fields && ([v] + values)[1..] == values;
  }

  lemma {:induction false} PrintOne(f: Field, done: bool)
    ensures PrintFields([f], [Flag(done)]) == f.literal + if done then "1" else "0"
  {
    assert [f][1..] == [] && [Flag(done)][1..] == [];
    assert Dec(Flag(done)) + "" == if done then "1" else "0";
  }

  /** One field after the other, from the last to the first. */
  lemma {:induction false} TailPrinted(d: nat, c: Counts, done: bool)
    ensures PrintFields(COMMON, Row(d, c) + [Flag(done)]) == Tail(d, c, done)
  {
    hide PrintFields, Dec;
    var f8, v8 := [Field(" complete=", 1)], [Flag(done)];
    var f7, v7 := [Field(" log_errors=", 20)] + f8, [c.errors] + v8;
    var f6, v6 := [Field(" leaked=", 20)] + f7, [c.leaked] + v7;
    var f5, v5 := [Field(" failed=", 20)] + f6, [c.failed] + v6;
    var f4, v4 := [Field(" skipped=", 20)] + f5, [c.skipped] + v5;
    var f3, v3 := [Field(" passed=", 20)] + f4, [c.passed] + v4;
    var f2, v2 := [Field(" executed=", 20)] + f3, [Executed(c)] + v3;
    var f1, v1 := [Field(" discovered=", 20)] + f2, [d] + v2;
    assert COMMON == f1 && Row(d, c) + [Flag(done)] == v1;
    PrintOne(Field(" complete=", 1), done);
    PrintCons(Field(" log_errors=", 20), f8, c.errors, v8);
    PrintCons(Field(" leaked=", 20), f7, c.leaked, v7);
    PrintCons(Field(" failed=", 20), f6, c.failed, v6);
    PrintCons(Field(" skipped=", 20), f5, c.skipped, v5);
    PrintCons(Field(" passed=", 20), f4, c.passed, v4);
    PrintCons(Field(" executed=", 20), f3, Executed(c), v3);
    PrintCons(Field(" discovered=", 20), f2, d, v2);
  }

  lemma {:induction false} LinePrinted(head: string, v: nat, d: nat, c: Counts, done: bool)
    ensures PrintFields([Field(head, 20)] + COMMON, [v] + Row(d, c) + [Flag(done)])
        == head + (Dec(v) + Tail(d, c, done))
  {
    hide PrintFields, Dec, Tail, Row;
    assert [v] + Row(d, c) + [Flag(done)] == [v] + (Row(d, c) + [Flag(done)]);
    PrintCons(Field(head, 20), COMMON, v, Row(d, c) + [Flag(done)]);
    TailPrinted(d, c, done);
  }

  /** The artifact line, spelled out. */
  lemma {:induction false} ArtifactLineIs(index: nat, a: Artifact)
    requires |a.outcomes| == |a.shards|
    ensures ArtifactLine(index, a)
         == "parallel artifact summary: index=" + (Dec(index) + Tail(|a.full|, Totals(a), Complete(a)))
  {
    hide PrintFields, Dec, Tail, Row, Totals, Complete, COMMON;
    LinePrinted(ARTIFACT + " index=", index, |a.full|, Totals(a), Complete(a));
    assert ARTIFACT + " index=" == "parallel artifact summary: index=";
  }

  ghost predicate AllRan(artifacts: seq<Artifact>) {
    forall i :: 0 <= i < |artifacts| ==> Ran(artifacts[i])
  }

  function Rows(artifacts: seq<Artifact>): (r: seq<seq<nat>>)
    requires forall i :: 0 <= i < |artifacts| ==> |artifacts[i].outcomes| == |artifacts[i].shards|
    ensures |r| == |artifacts| && forall i :: 0 <= i < |r| ==> r[i] == ArtifactRow(artifacts[i])
  {
    seq(|artifacts|, i requires 0 <= i < |artifacts| => ArtifactRow(artifacts[i]))
  }

  function AddRows(a: seq<nat>, b: seq<nat>): (r: seq<nat>)
    requires |a| == |b| == 7
    ensures |r| == 7 && forall i :: 0 <= i < 7 ==> r[i] == a[i] + b[i]
  {
    seq(7, i requires 0 <= i < 7 => a[i] + b[i])
  }

  /** Column sums of the first `n` rows. */
  function SumRows(rows: seq<seq<nat>>, n: nat): (r: seq<nat>)
    requires n <= |rows| && forall i :: 0 <= i < |rows| ==> |rows[i]| == 7
    ensures |r| == 7
  {
    if n == 0 then [0, 0, 0, 0, 0, 0, 0] else AddRows(SumRows(rows, n - 1), rows[n - 1])
  }

  function SuiteTotals(artifacts: seq<Artifact>, n: nat): Counts
    requires n <= |artifacts| && forall i :: 0 <= i < |artifacts| ==> |artifacts[i].outcomes| == |artifacts[i].shards|
  {
    if n == 0 then Zero else Plus(SuiteTotals(artifacts, n - 1), Totals(artifacts[n - 1]))
  }

  function Discovered(artifacts: seq<Artifact>, n: nat): nat
    requires n <= |artifacts|
  {
    if n == 0 then 0 else Discovered(artifacts, n - 1) + |artifacts[n - 1].full|
  }

  function SuiteRow(artifacts: seq<Artifact>): (r: seq<nat>)
    requires forall i :: 0 <= i < |artifacts| ==> |artifacts[i].outcomes| == |artifacts[i].shards|
    ensures |r| == 7
  {
    Row(Discovered(artifacts, |artifacts|), SuiteTotals(artifacts, |artifacts|))
  }

  predicate AllComplete(artifacts: seq<Artifact>)
    requires forall i :: 0 <= i < |artifacts| ==> |artifacts[i].outcomes| == |artifacts[i].shards|
  {
    forall i :: 0 <= i < |artifacts| ==> Complete(artifacts[i])
  }

  function SuiteLine(artifacts: seq<Artifact>): string
    requires forall i :: 0 <= i < |artifacts| ==> |artifacts[i].outcomes| == |artifacts[i].shards|
  {
    PrintFields(SuiteFields(), [|artifacts|] + SuiteRow(artifacts) + [Flag(AllComplete(artifacts))])
  }

  /** The suite line, spelled out: the sums of the artifacts. */
  lemma {:induction false} SuiteLineIs(artifacts: seq<Artifact>)
    requires forall i :: 0 <= i < |artifacts| ==> |artifacts[i].outcomes| == |artifacts[i].shards|
    ensures var n := |artifacts|;
            SuiteLine(artifacts)
            == "parallel suite summary: artifacts="
               + (Dec(n) + Tail(Discovered(artifacts, n), SuiteTotals(artifacts, n), AllComplete(artifacts)))
  {
    var n := |artifacts|;
    hide PrintFields, Dec, Tail, Row, SuiteTotals, Discovered, AllComplete, COMMON;
    LinePrinted(SUITE + " artifacts=", n, Discovered(artifacts, n), SuiteTotals(artifacts, n), AllComplete(artifacts));
    assert SUITE + " artifacts=" == "parallel suite summary: artifacts=";
  }

  function ArtifactLines(artifacts: seq<Artifact>): (r: seq<string>)
    requires forall i :: 0 <= i < |artifacts| ==> |artifacts[i].outcomes| == |artifacts[i].shards|
    ensures |r| == |artifacts| && forall i :: 0 <= i < |r| ==> r[i] == ArtifactLine(i, artifacts[i])
  {
    seq(|artifacts|, i requires 0 <= i < |artifacts| => ArtifactLine(i, artifacts[i]))
  }

  /** The suite row is the column sum of the artifact rows. */
  lemma {:induction false} RowsSum(artifacts: seq<Artifact>, n: nat)
    requires n <= |artifacts| && forall i :: 0 <= i < |artifacts| ==> |artifacts[i].outcomes| == |artifacts[i].shards|
    ensures SumRows(Rows(artifacts), n) == Row(Discovered(artifacts, n), SuiteTotals(artifacts, n))
  {
    hide Row, AddRows, Totals;
    if n == 0 {
      RowOfNothing();
    } else {
      RowsSum(artifacts, n - 1);
      RowPlus(Discovered(artifacts, n - 1), SuiteTotals(artifacts, n - 1), |artifacts[n - 1].full|,
        Totals(artifacts[n - 1]));
    }
  }

  lemma {:induction false} RowOfNothing()
    ensures Row(0, Zero) == [0, 0, 0, 0, 0, 0, 0]
  {}

  lemma {:induction false} RowPlus(d: nat, c: Counts, e: nat, f: Counts)
    ensures AddRows(Row(d, c), Row(e, f)) == Row(d + e, Plus(c, f))
  {}

  // ---------------------------------------------------------------- reading back

  datatype Evidence = Evidence(passed: nat, total: nat, skipped: nat, failed: nat, leaked: nat, errors: nat)

  function Select(lines: seq<string>, keep: string -> bool): seq<string> {
    if lines == [] then []
    else if keep(lines[|lines| - 1]) then Select(lines[..|lines| - 1], keep) + [lines[|lines| - 1]]
    else Select(lines[..|lines| - 1], keep)
  }

  predicate IsSuite(line: string) { StartsWith(line, SUITE) }
  predicate IsArtifact(line: string) { StartsWith(line, ARTIFACT) }
  predicate IsCandidate(line: string) { IsSuite(line) || IsArtifact(line) }

  /** The row of artifact line `index`, if the line parses and is consistent. */
  function ReadArtifact(index: nat, line: string): (r: Option<seq<nat>>)
    ensures r.Some? ==> |r.value| == 7
  {
    match MatchFields(ArtifactFields(), line)
    case None => None
    case Some(v) => Judge(index, v)
  }

  /** The numbers of an artifact line must be consistent and complete. */
  function Judge(index: nat, v: seq<nat>): (r: Option<seq<nat>>)
    requires |v| == 9
    ensures r.Some? ==> |r.value| == 7
  {
    if v[0] != index || v[8] != 1 || v[1] != v[2] || v[2] != v[3] + v[4] + v[5] then None else Some(v[1..8])
  }

  lemma {:induction false} JudgePrinted(index: nat, d: nat, c: Counts, done: bool)
    ensures Judge(index, [index] + Row(d, c) + [Flag(done)])
         == if done && d == Executed(c) then Some(Row(d, c)) else None
  {
    assert ([index] + Row(d, c) + [Flag(done)])[1..8] == Row(d, c);
  }

  type Reader = f: (nat, string) -> Option<seq<nat>> | forall i, line :: f(i, line).Some? ==> |f(i, line).value| == 7
    witness (i: nat, line: string) => None

  /** The artifact loop: one row per line, or nothing. */
  function ReadRows(read: Reader, lines: seq<string>, n: nat): (r: Option<seq<seq<nat>>>)
    requires n <= |lines|
    ensures r.Some? ==> |r.value| == n && forall i :: 0 <= i < n ==> |r.value[i]| == 7
  {
    if n == 0 then Some([])
    else
      match ReadRows(read, lines, n - 1)
      case None => None
      case Some(rows) =>
        match read(n - 1, lines[n - 1])
        case None => None
        case Some(row) => Some(rows + [row])
  }

  function ReadArtifacts(lines: seq<string>): (r: Option<seq<seq<nat>>>)
    ensures r.Some? ==> |r.value| == |lines| && forall i :: 0 <= i < |lines| ==> |r.value[i]| == 7
  {
    ReadRows(ReadArtifact, lines, |lines|)
  }

  /** The decision on one suite line and the artifact lines. */
  function Decide(suite: string, artifacts: seq<string>): Option<Evidence> {
    match MatchFields(SuiteFields(), suite)
    case None => None
    case Some(v) => Settle(v, artifacts)
  }

  /** The suite's numbers against the artifact lines. */
  function Settle(v: seq<nat>, artifacts: seq<string>): Option<Evidence>
    requires |v| == 9
  {
    if v[0] == 0 || |artifacts| != v[0] then None
    else
      match ReadArtifacts(artifacts)
      case None => None
      case Some(rows) =>
        if v[8] != 1 || SumRows(rows, |rows|) != v[1..8] then None
        else Some(Evidence(v[3], v[1], v[4], v[5], v[6], v[7]))
  }

  function ParallelCounts(lines: seq<string>): Option<Evidence> {
    var candidates := Select(lines, IsCandidate);
    var suites := Select(lines, IsSuite);
    var artifacts := Select(lines, IsArtifact);
    if |suites| != 1 || candidates == [] || candidates[|candidates| - 1] != suites[0] then None
    else Decide(suites[0], artifacts)
  }

  /** The loop over artifact lines, with its early returns. */
  method ReadArtifactLoop(read: Reader, lines: seq<string>) returns (rows: Option<seq<seq<nat>>>)
    ensures rows == ReadRows(read, lines, |lines|)
  {
    var values: seq<seq<nat>> := [];
    for i := 0 to |lines|
      invariant ReadRows(read, lines, i) == Some(values)
    {
      var row := read(i, lines[i]);
      if row.None? {
        Refused(read, lines, i + 1, |lines|);
        return None;
      }
      values := values + [row.value];
    }
    return Some(values);
  }

  lemma {:induction false} Refused(read: Reader, lines: seq<string>, n: nat, m: nat)
    requires n <= m <= |lines| && ReadRows(read, lines, n).None?
    ensures ReadRows(read, lines, m).None?
    decreases m
  {
    if n < m { Refused(read, lines, n, m - 1); }
  }

  /** `parallel_counts`. */
  method ReadLog(lines: seq<string>) returns (evidence: Option<Evidence>)
    ensures evidence == ParallelCounts(lines)
  {
    hide Select, MatchFields, SumRows;
    var candidates := Select(lines, IsCandidate);
    var suites := Select(lines, IsSuite);
    var artifacts := Select(lines, IsArtifact);
    if |suites| != 1 || candidates == [] || candidates[|candidates| - 1] != suites[0] {
      return None;
    }
    var suite := MatchFields(SuiteFields(), suites[0]);
    if suite.None? {
      return None;
    }
    var v := suite.value;
    if v[0] == 0 || |artifacts| != v[0] {
      return None;
    }
    var rows := ReadArtifactLoop(ReadArtifact, artifacts);
    if rows.None? || v[8] != 1 || SumRows(rows.value, |rows.value|) != v[1..8] {
      return None;
    }
    return Some(Evidence(v[3], v[1], v[4], v[5], v[6], v[7]));
  }

  // ---------------------------------------------------------------- the chain

  lemma {:induction false} SelectNarrows(lines: seq<string>, wide: string -> bool, narrow: string -> bool)
    requires forall line :: narrow(line) ==> wide(line)
    ensures Select(Select(lines, wide), narrow) == Select(lines, narrow)
  {
    if lines != [] {
      var n := |lines| - 1;
      SelectNarrows(lines[..n], wide, narrow);
      if wide(lines[n]) { SelectSnoc(Select(lines[..n], wide), lines[n], narrow); }
    }
  }

  lemma {:induction false} SelectSnoc(lines: seq<string>, line: string, keep: string -> bool)
    ensures Select(lines + [line], keep) == Select(lines, keep) + if keep(line) then [line] else []
  {
    assert (lines + [line])[..|lines|] == lines;
    assert Select(lines, keep) + [] == Select(lines, keep);
  }

  lemma {:induction false} SelectUniform(lines: seq<string>, keep: string -> bool, b: bool)
    requires forall i :: 0 <= i < |lines| ==> keep(lines[i]) == b
    ensures Select(lines, keep) == if b then lines else []
  {
    if lines != [] {
      var n := |lines| - 1;
      SelectUniform(lines[..n], keep, b);
      assert lines == lines[..n] + [lines[n]];
    }
  }

  lemma {:induction false} PrintedPrefix(prefix: string, tag: string, rest: seq<Field>, values: seq<nat>)
    requires |values| == |rest| + 1
    ensures StartsWith(PrintFields([Field(prefix + tag, 20)] + rest, values), prefix)
  {}

  lemma {:induction false} PrefixesDiffer(line: string)
    ensures !(IsSuite(line) && IsArtifact(line))
  {
    assert SUITE[9] != ARTIFACT[9];
    if IsSuite(line) { assert line[9] == line[..|SUITE|][9]; }
    if IsArtifact(line) { assert line[9] == line[..|ARTIFACT|][9]; }
  }

  /** The eight fields after the first: seven long numbers and a flag. */
  ghost predicate CommonShape(common: seq<Field>) {
    && |common| == 8
    && (forall i :: 0 <= i < 8 ==> common[i].literal != "" && common[i].literal[0] == ' ')
    && (forall i :: 0 <= i < 7 ==> common[i].digits == 20) && common[7].digits == 1
  }

  lemma {:induction false} CommonHasShape()
    ensures CommonShape(COMMON)
  {}

  /** At most twenty digits. */
  predicate Short(n: nat) { n < Pow10(20) }

  predicate RowFits(row: seq<nat>) { forall i :: 0 <= i < |row| ==> Short(row[i]) }

  /** The numbers on the suite line have at most twenty digits. */
  predicate SuiteFits(artifacts: seq<Artifact>)
    requires forall i :: 0 <= i < |artifacts| ==> |artifacts[i].outcomes| == |artifacts[i].shards|
  {
    Short(|artifacts|) && RowFits(SuiteRow(artifacts))
  }

  lemma {:induction false} ShortIsTwenty(n: nat)
    ensures Short(n) <==> |Dec(n)| <= 20
  {
    DecLength(n, 20);
  }

  lemma {:induction false} LinePrintable(common: seq<Field>, head: Field, v: nat, row: seq<nat>, done: bool)
    requires CommonShape(common) && head.digits == 20 && |row| == 7
    ensures Separated([head] + common)
    ensures Printable([head] + common, [v] + row + [Flag(done)]) <==> Short(v) && RowFits(row)
  {
    var fields, values := [head] + common, [v] + row + [Flag(done)];
    assert |Dec(Flag(done))| == 1;
    assert forall i :: 1 <= i < 9 ==> fields[i] == common[i - 1];
    assert forall i :: 1 <= i < 8 ==> values[i] == row[i - 1];
    hide Dec, Short;
    forall i | 0 <= i < 8 ensures Short(values[i]) <==> |Dec(values[i])| <= fields[i].digits {
      ShortIsTwenty(values[i]);
    }
    if Printable(fields, values) {
      assert values[0] == v;
      forall i | 0 <= i < 7 ensures Short(row[i]) { assert values[i + 1] == row[i]; }
    }
  }

  lemma {:induction false} LineReads(head: Field, v: nat, row: seq<nat>, done: bool)
    requires head.digits == 20 && |row| == 7
    ensures var values := [v] + row + [Flag(done)];
            MatchFields([head] + COMMON, PrintFields([head] + COMMON, values))
            == if Short(v) && RowFits(row) then Some(values) else None
  {
    CommonHasShape();
    hide *;
    LinePrintable(COMMON, head, v, row, done);
    MatchOfPrint([head] + COMMON, [v] + row + [Flag(done)]);
  }

  /** An artifact line is read back exactly when the artifact is complete and its numbers are short. */
  lemma {:induction false} ArtifactReads(index: nat, a: Artifact)
    requires Ran(a)
    ensures ReadArtifact(index, ArtifactLine(index, a))
         == if Complete(a) && Short(index) && RowFits(ArtifactRow(a)) then Some(ArtifactRow(a)) else None
  {
    if Complete(a) { CompleteCovers(a); }
    hide MatchFields, PrintFields, RowFits, Short, Complete, Judge, Row, Totals, COMMON;
    LineReads(Field(ARTIFACT + " index=", 20), index, ArtifactRow(a), Complete(a));
    JudgePrinted(index, |a.full|, Totals(a), Complete(a));
  }

  predicate AllTrue(done: seq<bool>, n: nat)
    requires n <= |done|
  {
    forall i :: 0 <= i < n ==> done[i]
  }

  lemma {:induction false} RowsRead(read: Reader, lines: seq<string>, rows: seq<seq<nat>>, done: seq<bool>, n: nat)
    requires n <= |lines| == |rows| == |done|
    requires forall i :: 0 <= i < |lines| ==> read(i, lines[i]) == if done[i] then Some(rows[i]) else None
    ensures ReadRows(read, lines, n) == if AllTrue(done, n) then Some(rows[..n]) else None
  {
    if n > 0 {
      var m := n - 1;
      RowsRead(read, lines, rows, done, m);
      assert AllTrue(done, n) <==> AllTrue(done, m) && done[m];
      assert rows[..n] == rows[..m] + [rows[m]];
    }
  }

  lemma {:induction false} EntryBelow(rows: seq<seq<nat>>, n: nat, i: nat, j: nat)
    requires i < n <= |rows| && j < 7 && forall k :: 0 <= k < |rows| ==> |rows[k]| == 7
    ensures rows[i][j] <= SumRows(rows, n)[j]
  {
    if i < n - 1 { EntryBelow(rows, n - 1, i, j); }
  }

  /** No artifact has a number larger than the suite's. */
  lemma {:induction false} RowBelow(artifacts: seq<Artifact>, i: nat)
    requires AllRan(artifacts) && SuiteFits(artifacts) && i < |artifacts|
    ensures Short(i) && RowFits(ArtifactRow(artifacts[i]))
  {
    hide ArtifactRow, SumRows;
    var rows := Rows(artifacts);
    RowsSum(artifacts, |artifacts|);
    forall j | 0 <= j < 7 ensures Short(rows[i][j]) {
      EntryBelow(rows, |artifacts|, i, j);
    }
  }

  function Dones(artifacts: seq<Artifact>): (r: seq<bool>)
    requires forall i :: 0 <= i < |artifacts| ==> |artifacts[i].outcomes| == |artifacts[i].shards|
    ensures |r| == |artifacts| && forall i :: 0 <= i < |r| ==> r[i] == Complete(artifacts[i])
  {
    seq(|artifacts|, i requires 0 <= i < |artifacts| => Complete(artifacts[i]))
  }

  lemma {:induction false} ArtifactReadsAt(artifacts: seq<Artifact>, i: nat)
    requires AllRan(artifacts) && SuiteFits(artifacts) && i < |artifacts|
    ensures ReadArtifact(i, ArtifactLines(artifacts)[i])
         == if Dones(artifacts)[i] then Some(Rows(artifacts)[i]) else None
  {
    hide ReadArtifact, ArtifactLine, ArtifactRow, Complete, RowFits, Short, SuiteFits, SuiteRow;
    RowBelow(artifacts, i);
    ArtifactReads(i, artifacts[i]);
  }

  lemma {:induction false} ArtifactsRead(artifacts: seq<Artifact>)
    requires AllRan(artifacts) && SuiteFits(artifacts)
    ensures ReadArtifacts(ArtifactLines(artifacts)) == if AllComplete(artifacts) then Some(Rows(artifacts)) else None
  {
    hide ReadRows, SuiteFits;
    var n, lines, rows := |artifacts|, ArtifactLines(artifacts), Rows(artifacts);
    var done := Dones(artifacts);
    hide ReadArtifact, ArtifactLine, ArtifactRow, Complete, Rows, Ran, ArtifactLines;
    forall i | 0 <= i < n ensures ReadArtifact(i, lines[i]) == if done[i] then Some(rows[i]) else None {
      ArtifactReadsAt(artifacts, i);
    }
    RowsRead(ReadArtifact, lines, rows, done, n);
    assert AllTrue(done, n) <==> AllComplete(artifacts);
    assert rows[..n] == rows;
  }

  ghost function Expected(artifacts: seq<Artifact>): Evidence
    requires forall i :: 0 <= i < |artifacts| ==> |artifacts[i].outcomes| == |artifacts[i].shards|
  {
    var c := SuiteTotals(artifacts, |artifacts|);
    Evidence(c.passed, Discovered(artifacts, |artifacts|), c.skipped, c.failed, c.leaked, c.errors)
  }

  /** Numbers that agree with the artifact lines settle the suite. */
  lemma {:induction false} SettlePrinted(lines: seq<string>, d: nat, c: Counts, done: bool)
    ensures var v := [|lines|] + Row(d, c) + [Flag(done)];
            var rows := ReadArtifacts(lines);
            Settle(v, lines)
            == if lines == [] || !done || rows.None? || SumRows(rows.value, |lines|) != Row(d, c) then None
               else Some(Evidence(c.passed, d, c.skipped, c.failed, c.leaked, c.errors))
  {
    hide ReadArtifacts, SumRows;
    assert ([|lines|] + Row(d, c) + [Flag(done)])[1..8] == Row(d, c);
  }

  lemma {:induction false} SuiteParses(artifacts: seq<Artifact>)
    requires AllRan(artifacts)
    ensures var values := [|artifacts|] + SuiteRow(artifacts) + [Flag(AllComplete(artifacts))];
            MatchFields(SuiteFields(), SuiteLine(artifacts)) == if SuiteFits(artifacts) then Some(values) else None
  {
    var row, done := SuiteRow(artifacts), AllComplete(artifacts);
    hide MatchFields, PrintFields, RowFits, Short, SuiteRow, AllComplete, COMMON;
    LineReads(Field(SUITE + " artifacts=", 20), |artifacts|, row, done);
  }

  /**
   The reader gives a result exactly when there is an artifact, every artifact is complete and
   the numbers of the suite fit the line; the result is then the summed counts.
   */
  lemma {:induction false} DecidesExactly(artifacts: seq<Artifact>)
    requires AllRan(artifacts)
    ensures Decide(SuiteLine(artifacts), ArtifactLines(artifacts)) ==
            if artifacts != [] && AllComplete(artifacts) && SuiteFits(artifacts) then
              Some(Expected(artifacts)) else None
  {
    var n, lines, done := |artifacts|, ArtifactLines(artifacts), AllComplete(artifacts);
    hide MatchFields, SuiteLine, SuiteFields, Settle, SumRows, Row, ReadArtifacts, Rows;
    hide AllComplete, ArtifactLines, SuiteFits, Discovered, SuiteTotals;
    SuiteParses(artifacts);
    if SuiteFits(artifacts) {
      SettlePrinted(lines, Discovered(artifacts, n), SuiteTotals(artifacts, n), done);
      ArtifactsRead(artifacts);
      RowsSum(artifacts, n);
    }
  }

  lemma {:induction false} CoveredTotals(artifacts: seq<Artifact>, n: nat)
    requires AllRan(artifacts) && n <= |artifacts| && AllComplete(artifacts)
    ensures Executed(SuiteTotals(artifacts, n)) == Discovered(artifacts, n)
  {
    if n > 0 {
      CoveredTotals(artifacts, n - 1);
      CompleteCovers(artifacts[n - 1]);
    }
  }

  /** What the log holds of the printed lines, other output aside. */
  ghost predicate Logged(lines: seq<string>, artifacts: seq<Artifact>)
    requires forall i :: 0 <= i < |artifacts| ==> |artifacts[i].outcomes| == |artifacts[i].shards|
  {
    Select(lines, IsCandidate) == ArtifactLines(artifacts) + [SuiteLine(artifacts)]
  }

  lemma {:induction false} LoggedSelects(lines: seq<string>, artifacts: seq<Artifact>)
    requires AllRan(artifacts) && Logged(lines, artifacts)
    ensures Select(lines, IsSuite) == [SuiteLine(artifacts)] && Select(lines, IsArtifact) == ArtifactLines(artifacts)
  {
    var a := ArtifactLines(artifacts);
    SuiteLineStarts(artifacts);
    forall i | 0 <= i < |a| ensures IsArtifact(a[i]) && !IsSuite(a[i]) {
      ArtifactLineStarts(i, artifacts[i]);
    }
    SelectTwo(lines, a, SuiteLine(artifacts), IsCandidate, IsSuite, IsArtifact);
  }

  lemma {:induction false} SuiteLineStarts(artifacts: seq<Artifact>)
    requires AllRan(artifacts)
    ensures IsSuite(SuiteLine(artifacts)) && !IsArtifact(SuiteLine(artifacts))
  {
    PrintedPrefix(SUITE, " artifacts=", COMMON, [|artifacts|] + SuiteRow(artifacts) + [Flag(AllComplete(artifacts))]);
    PrefixesDiffer(SuiteLine(artifacts));
  }

  lemma {:induction false} ArtifactLineStarts(index: nat, a: Artifact)
    requires Ran(a)
    ensures IsArtifact(ArtifactLine(index, a)) && !IsSuite(ArtifactLine(index, a))
  {
    PrintedPrefix(ARTIFACT, " index=", COMMON, [index] + ArtifactRow(a) + [Flag(Complete(a))]);
    PrefixesDiffer(ArtifactLine(index, a));
  }

  lemma {:induction false} SelectTwo(lines: seq<string>, a: seq<string>, last: string, either: string -> bool,
      one: string -> bool, other: string -> bool)
    requires forall line :: either(line) <==> one(line) || other(line)
    requires Select(lines, either) == a + [last] && one(last) && !other(last)
    requires forall i :: 0 <= i < |a| ==> other(a[i]) && !one(a[i])
    ensures Select(lines, one) == [last] && Select(lines, other) == a
  {
    SelectNarrows(lines, either, one);
    SelectNarrows(lines, either, other);
    SelectUniform(a, one, false);
    SelectUniform(a, other, true);
    SelectSnoc(a, last, one);
    SelectSnoc(a, last, other);
    assert [] + [last] == [last] && a + [] == a;
  }

  /** A run's log is decided on the lines that the run printed. */
  lemma {:induction false} LogDecides(lines: seq<string>, artifacts: seq<Artifact>)
    requires AllRan(artifacts) && Logged(lines, artifacts)
    ensures ParallelCounts(lines) == Decide(SuiteLine(artifacts), ArtifactLines(artifacts))
  {
    LoggedSelects(lines, artifacts);
    hide Select, Decide, SuiteLine, ArtifactLines, IsSuite, IsArtifact;
    LastIsSuite(ArtifactLines(artifacts), SuiteLine(artifacts));
  }

  lemma {:induction false} LastIsSuite(a: seq<string>, suite: string)
    ensures a + [suite] != [] && (a + [suite])[|a + [suite]| - 1] == suite
  {}

  lemma {:induction false} ExpectedAccounts(artifacts: seq<Artifact>)
    requires AllRan(artifacts) && AllComplete(artifacts)
    ensures var e := Expected(artifacts); e.total == e.passed + e.skipped + e.failed
  {
    CoveredTotals(artifacts, |artifacts|);
  }

  /**
   The log of a non-interrupted run is read back exactly when there is an artifact, every artifact
   is complete and the suite's numbers have at most twenty digits; the numbers are then the summed
   shard counts and account for the whole inventory.
   */
  lemma {:induction false} LogReadsBack(lines: seq<string>, artifacts: seq<Artifact>)
    requires AllRan(artifacts) && Logged(lines, artifacts)
    ensures ParallelCounts(lines)
         == if artifacts != [] && AllComplete(artifacts) && SuiteFits(artifacts) then
           Some(Expected(artifacts)) else None
    ensures AllComplete(artifacts) ==> var e := Expected(artifacts); e.total == e.passed + e.skipped + e.failed
  {
    if AllComplete(artifacts) { ExpectedAccounts(artifacts); }
    hide *;
    LogDecides(lines, artifacts);
    DecidesExactly(artifacts);
  }
}
