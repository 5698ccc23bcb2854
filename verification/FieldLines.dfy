/**
 Lines of labelled decimal numbers: printing them, and matching them as a regular expression
 of literals and digit runs.
 */
module FieldLines {
  import opened Options
  import opened Decimal

  /** A literal followed by a number of at most `digits` digits. */
  datatype Field = Field(literal: string, digits: nat)

  predicate StartsWith(s: string, prefix: string) { |prefix| <= |s| && s[..|prefix|] == prefix }

  function PrintFields(fields: seq<Field>, values: seq<nat>): string
    requires |fields| == |values|
  {
    if fields == [] then "" else fields[0].literal + (Dec(values[0]) + PrintFields(fields[1..], values[1..]))
  }

  /** The leading digits of a text. */
  function DigitRun(s: string): (d: string)
    ensures AllDigits(d) && StartsWith(s, d)
  {
    if s != "" && IsDigit(s[0]) then
      var d := DigitRun(s[1..]);
      assert s == [s[0]] + s[1..];
      [s[0]] + d
    else ""
  }

  /** `fullmatch`: each literal, then its run of 1 to `digits` digits, to the end of the line. */
  function MatchFields(fields: seq<Field>, s: string): (r: Option<seq<nat>>)
    ensures r.Some? ==> |r.value| == |fields|
  {
    if fields == [] then if s == "" then Some([]) else None
    else
      var f := fields[0];
      if !StartsWith(s, f.literal) then None
      else
        var rest := s[|f.literal|..];
        var d := DigitRun(rest);
        if !(1 <= |d| <= f.digits) then None
        else
          match MatchFields(fields[1..], rest[|d|..])
          case None => None
          case Some(values) => Some([Value(d)] + values)
  }

  /** Literals that cannot be confused with the number before them. */
  predicate Separated(fields: seq<Field>) {
    forall i :: 1 <= i < |fields| ==> fields[i].literal != "" && !IsDigit(fields[i].literal[0])
  }

  predicate Printable(fields: seq<Field>, values: seq<nat>) {
    |fields| == |values| && forall i :: 0 <= i < |fields| ==> |Dec(values[i])| <= fields[i].digits
  }

  lemma {:induction false} DigitRunStops(d: string, rest: string)
    requires AllDigits(d) && (rest == "" || !IsDigit(rest[0]))
    ensures DigitRun(d + rest) == d
  {
    if d == "" {
      assert d + rest == rest;
    } else {
      assert (d + rest)[1..] == d[1..] + rest;
      DigitRunStops(d[1..], rest);
      assert d == [d[0]] + d[1..];
    }
  }

  lemma {:induction false} PrintStarts(fields: seq<Field>, values: seq<nat>)
    requires |fields| == |values| && fields != [] && fields[0].literal != ""
    ensures PrintFields(fields, values) != "" && PrintFields(fields, values)[0] == fields[0].literal[0]
  {}

  /** One literal and its number, followed by something that is not a digit. */
  lemma {:induction false} MatchStep(fields: seq<Field>, v: nat, rest: string)
    requires fields != [] && (rest == "" || !IsDigit(rest[0]))
    ensures var tail := MatchFields(fields[1..], rest);
            MatchFields(fields, fields[0].literal + (Dec(v) + rest))
            == if |Dec(v)| > fields[0].digits || tail.None? then None else Some([v] + tail.value)
  {
    var literal, d := fields[0].literal, Dec(v);
    var s := literal + (d + rest);
    assert s[..|literal|] == literal && s[|literal|..] == d + rest;
    DigitRunStops(d, rest);
    assert (d + rest)[|d|..] == rest;
    ValueOfDec(v);
  }

  lemma {:induction false} PrintableTail(fields: seq<Field>, values: seq<nat>)
    requires |fields| == |values| > 0
    ensures Printable(fields, values) <==> |Dec(values[0])| <= fields[0].digits && Printable(fields[1..], values[1..])
  {
    hide Dec;
    if Printable(fields[1..], values[1..]) && |Dec(values[0])| <= fields[0].digits {
      forall i | 0 <= i < |fields| ensures |Dec(values[i])| <= fields[i].digits {
        if i > 0 { assert values[1..][i - 1] == values[i] && fields[1..][i - 1] == fields[i]; }
      }
    }
  }

  /** A printed line is matched exactly when its numbers are short enough, and gives them back. */
  lemma {:induction false} MatchOfPrint(fields: seq<Field>, values: seq<nat>)
    requires Separated(fields) && |fields| == |values|
    ensures MatchFields(fields, PrintFields(fields, values)) == if Printable(fields, values) then Some(values) else None
  {
    if fields != [] {
      PrintableTail(fields, values);
      var rest := PrintFields(fields[1..], values[1..]);
      if |fields| > 1 { PrintStarts(fields[1..], values[1..]); }
      MatchOfPrint(fields[1..], values[1..]);
      MatchStep(fields, values[0], rest);
      assert values == [values[0]] + values[1..];
    }
  }

  // ---------------------------------------------------------------- any line at all

  /** Literals and digit runs in turn. */
  function Spell(fields: seq<Field>, runs: seq<string>): string
    requires |fields| == |runs|
  {
    if fields == [] then "" else fields[0].literal + (runs[0] + Spell(fields[1..], runs[1..]))
  }

  /** Digit runs of allowed lengths with these values. */
  predicate Numerals(fields: seq<Field>, runs: seq<string>, values: seq<nat>) {
    && |fields| == |runs| == |values|
    && forall i :: 0 <= i < |runs| ==>
         AllDigits(runs[i]) && 1 <= |runs[i]| <= fields[i].digits && Value(runs[i]) == values[i]
  }

  lemma {:induction false} SpellStarts(fields: seq<Field>, runs: seq<string>)
    requires |fields| == |runs| && fields != [] && fields[0].literal != ""
    ensures Spell(fields, runs) != "" && Spell(fields, runs)[0] == fields[0].literal[0]
  {}

  lemma {:induction false} NumeralsTail(fields: seq<Field>, runs: seq<string>, values: seq<nat>)
    requires Numerals(fields, runs, values) && fields != []
    ensures Numerals(fields[1..], runs[1..], values[1..])
  {}

  lemma {:induction false} NumeralsCons(f: Field, d: string, v: nat, fields: seq<Field>, runs: seq<string>,
      values: seq<nat>)
    requires Numerals(fields, runs, values) && AllDigits(d) && 1 <= |d| <= f.digits && Value(d) == v
    ensures Numerals([f] + fields, [d] + runs, [v] + values)
  {
    hide Value;
  }

  lemma {:induction false} SpelledMatches(fields: seq<Field>, runs: seq<string>, values: seq<nat>)
    requires Separated(fields) && Numerals(fields, runs, values)
    ensures MatchFields(fields, Spell(fields, runs)) == Some(values)
  {
    if fields != [] {
      var f, d, rest := fields[0], runs[0], Spell(fields[1..], runs[1..]);
      var s := f.literal + (d + rest);
      NumeralsTail(fields, runs, values);
      SpelledMatches(fields[1..], runs[1..], values[1..]);
      if |fields| > 1 { SpellStarts(fields[1..], runs[1..]); }
      hide Value, Spell;
      DigitRunStops(d, rest);
      assert s[..|f.literal|] == f.literal && s[|f.literal|..] == d + rest;
      assert (d + rest)[|d|..] == rest;
      assert values == [values[0]] + values[1..];
    }
  }

  lemma {:induction false} MatchIsSpelled(fields: seq<Field>, s: string) returns (runs: seq<string>)
    requires MatchFields(fields, s).Some?
    ensures Numerals(fields, runs, MatchFields(fields, s).value) && s == Spell(fields, runs)
  {
    if fields == [] {
      runs := [];
    } else {
      var f := fields[0];
      var rest := s[|f.literal|..];
      var d := DigitRun(rest);
      var tail := MatchIsSpelled(fields[1..], rest[|d|..]);
      runs := [d] + tail;
      assert runs[1..] == tail && fields == [f] + fields[1..];
      NumeralsCons(f, d, Value(d), fields[1..], tail, MatchFields(fields[1..], rest[|d|..]).value);
      assert rest == d + rest[|d|..] && s == f.literal + rest;
    }
  }

  /** A line matches exactly when it is those literals with digit runs of allowed lengths, and gives their values. */
  lemma {:induction false} MatchExactly(fields: seq<Field>, s: string, values: seq<nat>)
    requires Separated(fields)
    ensures MatchFields(fields, s) == Some(values)
       <==> exists runs :: Numerals(fields, runs, values) && s == Spell(fields, runs)
  {
    hide MatchFields, Spell;
    if MatchFields(fields, s) == Some(values) {
      var runs := MatchIsSpelled(fields, s);
    } else {
      forall runs | Numerals(fields, runs, values) ensures s != Spell(fields, runs) {
        SpelledMatches(fields, runs, values);
      }
    }
  }
}
