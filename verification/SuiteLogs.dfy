/** Which logs `parallel_counts` of tools/gate_ledger.py believes, whoever wrote them. */
module SuiteLogs {
  import opened Options
  import opened FieldLines
  import opened SuiteSummary

  function SumCounts(cs: seq<Counts>, n: nat): Counts
    requires n <= |cs|
  {
    if n == 0 then Zero else Plus(SumCounts(cs, n - 1), cs[n - 1])
  }

  /** A complete line about an artifact or a suite: its own number, and counts that add up. */
  predicate Shows(fields: seq<Field>, line: string, v: nat, c: Counts) {
    MatchFields(fields, line) == Some([v] + Row(Executed(c), c) + [1])
  }

  /** What a log must hold to be believed. */
  ghost predicate Believable(lines: seq<string>, cs: seq<Counts>) {
    var artifacts, suites, candidates := Select(lines, IsArtifact), Select(lines, IsSuite), Select(lines, IsCandidate);
    && cs != [] && |artifacts| == |cs|
    && (forall i :: 0 <= i < |cs| ==> Shows(ArtifactFields(), artifacts[i], i, cs[i]))
    && |suites| == 1 && candidates != [] && candidates[|candidates| - 1] == suites[0]
    && Shows(SuiteFields(), suites[0], |cs|, SumCounts(cs, |cs|))
  }

  function EvidenceOf(c: Counts): Evidence {
    Evidence(c.passed, c.passed + c.skipped + c.failed, c.skipped, c.failed, c.leaked, c.errors)
  }

  function CountsOf(row: seq<nat>): Counts
    requires |row| == 7
  {
    Counts(row[2], row[3], row[4], row[5], row[6])
  }

  /** A judged row is the row of its counts, and its line shows them. */
  lemma {:induction false} JudgedShows(index: nat, v: seq<nat>)
    requires |v| == 9
    ensures Judge(index, v).Some?
       <==> exists c :: v == [index] + Row(Executed(c), c) + [1]
    ensures forall c :: v == [index] + Row(Executed(c), c) + [1] ==> Judge(index, v) == Some(Row(Executed(c), c))
    ensures Judge(index, v).Some? ==>
              var c := CountsOf(Judge(index, v).value); v == [index] + Row(Executed(c), c) + [1]
  {
    if Judge(index, v).Some? {
      var row := v[1..8];
      var c := CountsOf(row);
      assert v == [index] + Row(Executed(c), c) + [1];
    }
    forall c | v == [index] + Row(Executed(c), c) + [1] ensures Judge(index, v) == Some(Row(Executed(c), c)) {
      assert ([index] + Row(Executed(c), c) + [1])[1..8] == Row(Executed(c), c);
    }
  }

  lemma {:induction false} ArtifactShows(index: nat, line: string)
    ensures forall c :: Shows(ArtifactFields(), line, index, c) ==>
        ReadArtifact(index, line) == Some(Row(Executed(c), c))
    ensures ReadArtifact(index, line).Some? ==>
              var c := CountsOf(ReadArtifact(index, line).value);
              Shows(ArtifactFields(), line, index, c) && ReadArtifact(index, line).value == Row(Executed(c), c)
  {
    var m := MatchFields(ArtifactFields(), line);
    if m.Some? {
      hide MatchFields, Row, Judge;
      JudgedShows(index, m.value);
    }
  }

  function RowsOf(cs: seq<Counts>): (r: seq<seq<nat>>)
    ensures |r| == |cs| && forall i :: 0 <= i < |r| ==> r[i] == Row(Executed(cs[i]), cs[i])
  {
    seq(|cs|, i requires 0 <= i < |cs| => Row(Executed(cs[i]), cs[i]))
  }

  lemma {:induction false} RowsOfSum(cs: seq<Counts>, n: nat)
    requires n <= |cs|
    ensures SumRows(RowsOf(cs), n) == Row(Executed(SumCounts(cs, n)), SumCounts(cs, n))
  {
    if n == 0 {
      RowOfNothing();
    } else {
      var a, b := SumCounts(cs, n - 1), cs[n - 1];
      RowsOfSum(cs, n - 1);
      RowPlus(Executed(a), a, Executed(b), b);
      assert Executed(Plus(a, b)) == Executed(a) + Executed(b);
      hide Row, AddRows, Plus, Executed;
    }
  }

  lemma {:induction false} RowsShow(lines: seq<string>, n: nat, cs: seq<Counts>)
    requires n <= |lines| == |cs| && forall i :: 0 <= i < n ==> Shows(ArtifactFields(), lines[i], i, cs[i])
    ensures ReadRows(ReadArtifact, lines, n) == Some(RowsOf(cs)[..n])
  {
    hide Shows, ReadArtifact, Row;
    if n > 0 {
      RowsShow(lines, n - 1, cs);
      ArtifactShows(n - 1, lines[n - 1]);
      assert RowsOf(cs)[..n] == RowsOf(cs)[..n - 1] + [RowsOf(cs)[n - 1]];
    }
  }

  lemma {:induction false} ShownRows(lines: seq<string>, n: nat) returns (cs: seq<Counts>)
    requires n <= |lines| && ReadRows(ReadArtifact, lines, n).Some?
    ensures |cs| == n && ReadRows(ReadArtifact, lines, n).value == RowsOf(cs)
    ensures forall i :: 0 <= i < n ==> Shows(ArtifactFields(), lines[i], i, cs[i])
  {
    hide Shows, ReadArtifact, Row;
    if n == 0 {
      cs := [];
    } else {
      var before := ShownRows(lines, n - 1);
      ArtifactShows(n - 1, lines[n - 1]);
      var c := CountsOf(ReadArtifact(n - 1, lines[n - 1]).value);
      cs := before + [c];
      assert RowsOf(cs) == RowsOf(before) + [Row(Executed(c), c)];
    }
  }

  lemma {:induction false} CandidatesDecide(lines: seq<string>, v: seq<nat>)
    requires var suites, candidates := Select(lines, IsSuite), Select(lines, IsCandidate);
             && |suites| == 1 && candidates != [] && candidates[|candidates| - 1] == suites[0]
             && MatchFields(SuiteFields(), suites[0]) == Some(v)
    ensures |v| == 9 && ParallelCounts(lines) == Settle(v, Select(lines, IsArtifact))
  {
    hide Select, MatchFields, Settle, IsSuite, IsArtifact;
  }

  lemma {:induction false} ReadAllShow(lines: seq<string>, cs: seq<Counts>)
    requires |lines| == |cs| && forall i :: 0 <= i < |cs| ==> Shows(ArtifactFields(), lines[i], i, cs[i])
    ensures ReadArtifacts(lines) == Some(RowsOf(cs))
  {
    hide Shows, RowsOf, ReadRows;
    RowsShow(lines, |cs|, cs);
    assert RowsOf(cs)[..|cs|] == RowsOf(cs);
  }

  lemma {:induction false} ShownSettle(lines: seq<string>, cs: seq<Counts>)
    requires cs != [] && |lines| == |cs| && forall i :: 0 <= i < |cs| ==> Shows(ArtifactFields(), lines[i], i, cs[i])
    ensures var t := SumCounts(cs, |cs|);
            Settle([|cs|] + Row(Executed(t), t) + [1], lines) == Some(EvidenceOf(t))
  {
    var t := SumCounts(cs, |cs|);
    assert EvidenceOf(t) == Evidence(t.passed, Executed(t), t.skipped, t.failed, t.leaked, t.errors);
    assert Flag(true) == 1;
    hide *;
    ReadAllShow(lines, cs);
    RowsOfSum(cs, |cs|);
    SettlePrinted(lines, Executed(t), t, true);
  }

  lemma {:induction false} BelievedIsRead(lines: seq<string>, cs: seq<Counts>)
    requires Believable(lines, cs)
    ensures ParallelCounts(lines) == Some(EvidenceOf(SumCounts(cs, |cs|)))
  {
    hide Select, MatchFields, SumCounts, IsCandidate, IsSuite, IsArtifact, Row, Executed, EvidenceOf;
    hide SuiteFields, ArtifactFields, ParallelCounts, Settle;
    var t := SumCounts(cs, |cs|);
    CandidatesDecide(lines, [|cs|] + Row(Executed(t), t) + [1]);
    ShownSettle(Select(lines, IsArtifact), cs);
  }

  lemma {:induction false} SettleGives(v: seq<nat>, lines: seq<string>)
    requires |v| == 9 && Settle(v, lines).Some?
    ensures v[0] == |lines| > 0 && v[8] == 1
    ensures ReadArtifacts(lines).Some? && v[1..8] == SumRows(ReadArtifacts(lines).value, |lines|)
  {
    hide ReadArtifacts, SumRows;
  }

  lemma {:induction false} Nine(v: seq<nat>)
    requires |v| == 9
    ensures v == [v[0]] + v[1..8] + [v[8]]
  {}

  lemma {:induction false} SettledShows(v: seq<nat>, lines: seq<string>) returns (cs: seq<Counts>)
    requires |v| == 9 && Settle(v, lines).Some?
    ensures cs != [] && |cs| == |lines| && forall i :: 0 <= i < |cs| ==> Shows(ArtifactFields(), lines[i], i, cs[i])
    ensures var t := SumCounts(cs, |cs|); v == [|cs|] + Row(Executed(t), t) + [1]
  {
    hide Shows, ReadRows, Settle, SumRows, SumCounts, Row, RowsOf;
    SettleGives(v, lines);
    cs := ShownRows(lines, |lines|);
    RowsOfSum(cs, |cs|);
    Nine(v);
  }

  lemma {:induction false} ParallelGives(lines: seq<string>)
    requires ParallelCounts(lines).Some?
    ensures var suites, candidates := Select(lines, IsSuite), Select(lines, IsCandidate);
            && |suites| == 1 && candidates != [] && candidates[|candidates| - 1] == suites[0]
            && MatchFields(SuiteFields(), suites[0]).Some?
            && |MatchFields(SuiteFields(), suites[0]).value| == 9
            && Settle(MatchFields(SuiteFields(), suites[0]).value, Select(lines, IsArtifact)).Some?
  {
    hide Select, MatchFields, Settle, IsSuite, IsArtifact;
  }

  lemma {:induction false} ReadIsBelieved(lines: seq<string>) returns (cs: seq<Counts>)
    requires ParallelCounts(lines).Some?
    ensures Believable(lines, cs)
  {
    hide Select, MatchFields, Settle, IsCandidate, IsSuite, IsArtifact, SumCounts, Row, ParallelCounts, SuiteFields;
    hide ArtifactFields;
    ParallelGives(lines);
    cs := SettledShows(MatchFields(SuiteFields(), Select(lines, IsSuite)[0]).value, Select(lines, IsArtifact));
  }

  /**
   For every log: there is a result exactly when the last summary line is the only one about the suite, the
   artifact lines are numbered from zero and complete, every line's counts add up, and the suite's are their sums.
   */
  lemma {:induction false} BelievedExactly(lines: seq<string>, e: Evidence)
    ensures ParallelCounts(lines) == Some(e)
       <==> exists cs :: Believable(lines, cs) && e == EvidenceOf(SumCounts(cs, |cs|))
  {
    hide ParallelCounts, Believable, SumCounts, EvidenceOf;
    if ParallelCounts(lines) == Some(e) {
      var cs := ReadIsBelieved(lines);
      BelievedIsRead(lines, cs);
    } else {
      forall cs | Believable(lines, cs) ensures e != EvidenceOf(SumCounts(cs, |cs|)) {
        BelievedIsRead(lines, cs);
      }
    }
  }
}
