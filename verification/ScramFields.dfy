/** The attribute lists of SCRAM messages: `fields` of tools/scram_fixture.py. */
module ScramFields {
  import opened Options
  import opened Xors
  import opened Splitting

  const COMMA: byte := 44
  const EQUALS: byte := 61
  const MAX_MESSAGE: nat := 2048

  /** One attribute: a one-byte key and its value. */
  datatype Pair = Pair(key: byte, value: Bytes)

  /** What stands before and after the first equals sign, if the key is one byte. */
  function ReadPair(part: Bytes): Option<Pair> {
    if Find(part, [EQUALS]) == 1 then Some(Pair(part[0], part[2..])) else None
  }

  /** The dictionary after the first `n` parts, or nothing once a part is malformed or a key repeats. */
  function Collect(parts: seq<Bytes>, n: nat): Option<map<byte, Bytes>>
    requires n <= |parts|
  {
    if n == 0 then Some(map[])
    else
      var before, p := Collect(parts, n - 1), ReadPair(parts[n - 1]);
      if before.None? || p.None? || p.value.key in before.value then None
      else Some(before.value[p.value.key := p.value.value])
  }

  function Fields(message: Bytes): Option<map<byte, Bytes>> {
    if 0 < |message| <= MAX_MESSAGE
    then var parts := Split(message, [COMMA]); Collect(parts, |parts|)
    else None
  }

  lemma {:induction false} CollectStops(parts: seq<Bytes>, i: nat, n: nat)
    requires i <= n <= |parts| && Collect(parts, i).None?
    ensures Collect(parts, n).None?
    decreases n
  {
    if i < n { CollectStops(parts, i, n - 1); }
  }

  method ReadFields(message: Bytes) returns (r: Option<map<byte, Bytes>>)
    ensures r == Fields(message)
  {
    if !(0 < |message| <= MAX_MESSAGE) { return None; }
    var parts := Split(message, [COMMA]);
    var result: map<byte, Bytes> := map[];
    for i := 0 to |parts|
      invariant Collect(parts, i) == Some(result)
    {
      var p := ReadPair(parts[i]);
      if p.None? || p.value.key in result {
        CollectStops(parts, i + 1, |parts|);
        return None;
      }
      result := result[p.value.key := p.value.value];
    }
    return Some(result);
  }

  // ---------------------------------------------------------------- printing

  function Printed(p: Pair): Bytes { [p.key, EQUALS] + p.value }

  function PrintedParts(pairs: seq<Pair>): (r: seq<Bytes>)
    ensures |r| == |pairs| && forall i :: 0 <= i < |r| ==> r[i] == Printed(pairs[i])
  {
    seq(|pairs|, i requires 0 <= i < |pairs| => Printed(pairs[i]))
  }

  function PrintAll(pairs: seq<Pair>): Bytes { Join(PrintedParts(pairs), [COMMA]) }

  predicate Clean(p: Pair) { p.key != COMMA && p.key != EQUALS && COMMA !in p.value }

  predicate Distinct(pairs: seq<Pair>) {
    forall i, j :: 0 <= i < j < |pairs| ==> pairs[i].key != pairs[j].key
  }

  predicate WellFormed(pairs: seq<Pair>) {
    pairs != [] && Distinct(pairs) && forall i :: 0 <= i < |pairs| ==> Clean(pairs[i])
  }

  /** What the dictionary should hold: exactly these keys, each with its value. */
  predicate Holds(m: map<byte, Bytes>, pairs: seq<Pair>, n: nat)
    requires n <= |pairs|
  {
    && (forall i :: 0 <= i < n ==> pairs[i].key in m && m[pairs[i].key] == pairs[i].value)
    && (forall k :: k in m ==> exists i :: 0 <= i < n && pairs[i].key == k)
  }

  lemma {:induction false} PairReads(p: Pair)
    requires Clean(p)
    ensures ReadPair(Printed(p)) == Some(p) && COMMA !in Printed(p)
  {
    assert Printed(p) == [p.key] + [EQUALS] + p.value;
    SplitHead([p.key], EQUALS, p.value);
    assert Printed(p)[2..] == p.value;
  }

  lemma {:induction false} PairIsPrinted(part: Bytes)
    requires ReadPair(part).Some? && COMMA !in part
    ensures Clean(ReadPair(part).value) && Printed(ReadPair(part).value) == part
  {
    FindOne(part, EQUALS);
    assert part[..1] == [part[0]];
    assert part == [part[0], part[1]] + part[2..];
  }

  predicate ReadAs(parts: seq<Bytes>, pairs: seq<Pair>) {
    |parts| == |pairs| && forall i :: 0 <= i < |parts| ==> ReadPair(parts[i]) == Some(pairs[i])
  }

  /** Distinct keys are collected completely. */
  lemma {:induction false} CollectHolds(parts: seq<Bytes>, pairs: seq<Pair>, n: nat)
    requires ReadAs(parts, pairs) && Distinct(pairs) && n <= |parts|
    ensures Collect(parts, n).Some? && Holds(Collect(parts, n).value, pairs, n)
  {
    hide ReadPair;
    if n > 0 {
      var k := n - 1;
      CollectHolds(parts, pairs, k);
      var m, p := Collect(parts, k).value, pairs[k];
      assert p.key !in m;
      var more := m[p.key := p.value];
      forall key | key in more ensures exists i :: 0 <= i < n && pairs[i].key == key {
        if key == p.key { assert pairs[k].key == key; }
      }
    }
  }

  function PairsOf(parts: seq<Bytes>): (pairs: seq<Pair>)
    ensures |pairs| == |parts|
    ensures forall i :: 0 <= i < |parts| && ReadPair(parts[i]).Some? ==> pairs[i] == ReadPair(parts[i]).value
  {
    seq(|parts|, i requires 0 <= i < |parts| =>
      if ReadPair(parts[i]).Some? then ReadPair(parts[i]).value else Pair(0, []))
  }

  /** A finished collection read every part, and no key came twice. */
  lemma {:induction false} CollectedWas(parts: seq<Bytes>, n: nat)
    requires n <= |parts| && Collect(parts, n).Some?
    ensures var pairs := PairsOf(parts);
            && (forall i :: 0 <= i < n ==> ReadPair(parts[i]) == Some(pairs[i]))
            && Distinct(pairs[..n])
            && Holds(Collect(parts, n).value, pairs, n)
  {
    hide ReadPair;
    if n > 0 {
      var k, pairs := n - 1, PairsOf(parts);
      CollectedWas(parts, k);
      var m, p := Collect(parts, k).value, pairs[k];
      forall i, j | 0 <= i < j < n ensures pairs[..n][i].key != pairs[..n][j].key {
        if j < k { assert pairs[..k][i].key != pairs[..k][j].key; }
      }
      var more := m[p.key := p.value];
      forall key | key in more ensures exists i :: 0 <= i < n && pairs[i].key == key {
        if key == p.key { assert pairs[k].key == key; }
      }
    }
  }

  // ---------------------------------------------------------------- main results

  /** A printed list of distinct keys reads back as exactly that dictionary. */
  lemma {:induction false} FieldsOfPrint(pairs: seq<Pair>)
    requires WellFormed(pairs) && |PrintAll(pairs)| <= MAX_MESSAGE
    ensures Fields(PrintAll(pairs)).Some? && Holds(Fields(PrintAll(pairs)).value, pairs, |pairs|)
  {
    hide ReadPair, Printed, Clean;
    var parts := PrintedParts(pairs);
    forall i | 0 <= i < |parts| ensures ReadPair(parts[i]) == Some(pairs[i]) && COMMA !in parts[i] {
      PairReads(pairs[i]);
    }
    SplitOfJoin(parts, COMMA);
    CollectHolds(parts, pairs, |parts|);
    assert PrintAll(pairs) != [] by {
      if PrintAll(pairs) == [] {
        assert Split(PrintAll(pairs), [COMMA]) == [[]];
        assert parts[0] == [];
        FindOne<byte>([], EQUALS);
        PairReads(pairs[0]);
        NoEmptyPair();
      }
    }
  }

  lemma {:induction false} NoEmptyPair()
    ensures ReadPair([]).None?
  {}

  /** Whatever is accepted was such a list. */
  lemma {:induction false} FieldsWerePrinted(message: Bytes)
    requires Fields(message).Some?
    ensures var pairs := PairsOf(Split(message, [COMMA]));
            WellFormed(pairs) && PrintAll(pairs) == message && Holds(Fields(message).value, pairs, |pairs|)
  {
    hide ReadPair, Printed, Clean;
    var parts := Split(message, [COMMA]);
    var pairs := PairsOf(parts);
    CollectedWas(parts, |parts|);
    assert pairs[..|parts|] == pairs;
    PiecesClean(message, COMMA);
    forall i | 0 <= i < |parts| ensures Clean(pairs[i]) && Printed(pairs[i]) == parts[i] {
      assert parts[i] in parts;
      PairIsPrinted(parts[i]);
    }
    assert PrintedParts(pairs) == parts;
    JoinOfSplit(message, [COMMA]);
  }

  /** `fields` accepts exactly the printed lists that fit. */
  lemma {:induction false} FieldsExactly(message: Bytes)
    ensures Fields(message).Some?
       <==> |message| <= 2048 && exists pairs :: WellFormed(pairs) && PrintAll(pairs) == message
  {
    if Fields(message).Some? {
      FieldsWerePrinted(message);
    } else if |message| <= MAX_MESSAGE {
      forall pairs | WellFormed(pairs) ensures PrintAll(pairs) != message {
        if PrintAll(pairs) == message { FieldsOfPrint(pairs); }
      }
    }
  }
}
