/**
 Searching a stream that arrives in chunks: `find_all` of qemu-verify/memscan.py and the
 marker counting of `PrivateLog.run` in tools/issuer_session_exec_smoke.py.
 */
module ChunkSearch {
  import opened Splitting

  /** All places below `n` where the needle starts, in order. */
  function Places<T(==)>(s: seq<T>, needle: seq<T>, n: nat): seq<nat> {
    if n == 0 then []
    else if At(s, needle, n - 1) then Places(s, needle, n - 1) + [n - 1]
    else Places(s, needle, n - 1)
  }

  function AllPlaces<T(==)>(s: seq<T>, needle: seq<T>): seq<nat> { Places(s, needle, |s|) }

  predicate Increasing(r: seq<nat>) { forall i, j :: 0 <= i < j < |r| ==> r[i] < r[j] }

  /** The list holds every place below `n`, once, in order. */
  lemma {:induction false} PlacesExact<T>(s: seq<T>, needle: seq<T>, n: nat)
    ensures Increasing(Places(s, needle, n))
    ensures forall p: nat :: p in Places(s, needle, n) <==> p < n && At(s, needle, p)
  {
    hide At;
    if n > 0 {
      PlacesExact(s, needle, n - 1);
      var r := Places(s, needle, n - 1);
      forall i | 0 <= i < |r| ensures r[i] < n - 1 {
        assert r[i] in r;
      }
    }
  }

  /** The last `k` elements, or all of them when there are fewer. */
  function Tail<T>(s: seq<T>, k: nat): (r: seq<T>)
    ensures |r| == if |s| < k then |s| else k
    ensures r == s[|s| - |r|..]
  {
    if |s| < k then s else s[|s| - k..]
  }

  // ---------------------------------------------------------------- find_all

  /** The places of a buffer, moved to where the buffer starts in the stream. */
  function Shift(places: seq<nat>, base: nat): (r: seq<nat>)
    ensures |r| == |places| && forall i :: 0 <= i < |r| ==> r[i] == base + places[i]
  {
    seq(|places|, i requires 0 <= i < |places| => base + places[i])
  }

  lemma {:induction false} ShiftSnoc(places: seq<nat>, p: nat, base: nat)
    ensures Shift(places + [p], base) == Shift(places, base) + [base + p]
  {}

  lemma {:induction false} PlaceAdds<T>(s: seq<T>, needle: seq<T>, p: nat)
    ensures Places(s, needle, p + 1) == Places(s, needle, p) + if At(s, needle, p) then [p] else []
  {
    hide At;
  }

  /** One find: what it reports is the next place. */
  lemma {:induction false} FindStep<T>(s: seq<T>, needle: seq<T>, start: nat, i: nat)
    requires needle != [] && start <= i && FindFrom(s, needle, start) == i
    ensures Places(s, needle, i + 1) == Places(s, needle, start) + [i] && i < |s|
  {
    FindFromFirst(s, needle, start);
    hide At;
    PlacesSkip(s, needle, start, i);
    PlaceAdds(s, needle, i);
    hide Places;
    AtEnds(s, needle, i);
  }

  lemma {:induction false} AtEnds<T>(s: seq<T>, needle: seq<T>, p: nat)
    requires needle != [] && At(s, needle, p)
    ensures p < |s|
  {}

  lemma {:induction false} FindLast<T>(s: seq<T>, needle: seq<T>, start: nat)
    requires needle != [] && start <= |s| && FindFrom(s, needle, start) < 0
    ensures AllPlaces(s, needle) == Places(s, needle, start)
  {
    FindFromFirst(s, needle, start);
    hide At;
    PlacesSkip(s, needle, start, |s|);
  }

  lemma {:induction false} NoPlaces<T>(s: seq<T>, needle: seq<T>)
    ensures Places(s, needle, 0) == []
  {}

  /** The inner loop: find, report, and start again one byte further. */
  method ScanBuffer<T(==)>(buf: seq<T>, needle: seq<T>, base: nat) returns (found: seq<nat>)
    requires needle != []
    ensures found == Shift(AllPlaces(buf, needle), base)
  {
    hide Places, At, FindFrom;
    found := [];
    var start := 0;
    NoPlaces(buf, needle);
    while true
      invariant start <= |buf|
      invariant found == Shift(Places(buf, needle, start), base)
      decreases |buf| - start
    {
      var i := FindFrom(buf, needle, start);
      if i < 0 {
        FindLast(buf, needle, start);
        return;
      }
      FindStep(buf, needle, start, i);
      ShiftSnoc(Places(buf, needle, start), i, base);
      found := found + [base + i];
      start := i + 1;
    }
  }

  lemma {:induction false} PlacesSkip<T>(s: seq<T>, needle: seq<T>, a: nat, b: nat)
    requires a <= b && forall p: nat :: a <= p < b ==> !At(s, needle, p)
    ensures Places(s, needle, b) == Places(s, needle, a)
    decreases b
  {
    hide At;
    if a < b {
      PlacesSkip(s, needle, a, b - 1);
    }
  }

  /** Extending the stream keeps what was found so far. */
  lemma {:induction false} PlacesExtend<T>(s: seq<T>, more: seq<T>, needle: seq<T>, n: nat)
    requires n == 0 || n - 1 + |needle| <= |s|
    ensures Places(s + more, needle, n) == Places(s, needle, n)
  {
    if n > 0 {
      PlacesExtend(s, more, needle, n - 1);
      AtInside(s, more, needle, n - 1);
    }
  }

  /** A buffer that is the end of the stream sees the places of the stream, shifted. */
  lemma {:induction false} PlacesOfSuffix<T>(s: seq<T>, needle: seq<T>, base: nat, n: nat)
    requires base + n <= |s|
    ensures Places(s, needle, base + n) == Places(s, needle, base) + Shift(Places(s[base..], needle, n), base)
  {
    hide At;
    if n > 0 {
      var rest := s[base..];
      var m := n - 1;
      PlacesOfSuffix(s, needle, base, m);
      AtSuffix(s, needle, base, m);
      PlaceAdds(s, needle, base + m);
      PlaceAdds(rest, needle, m);
      hide Places;
      ShiftSnoc(Places(rest, needle, m), m, base);
    }
  }

  lemma {:induction false} AtSuffix<T>(s: seq<T>, needle: seq<T>, base: nat, p: nat)
    requires base <= |s|
    ensures At(s[base..], needle, p) == At(s, needle, base + p)
  {
    if base + p + |needle| <= |s| {
      assert s[base..][p..p + |needle|] == s[base + p..base + p + |needle|];
    }
  }

  /** One chunk: the places in `carry + data` are exactly those that the chunk adds. */
  lemma {:induction false} ChunkAdds<T>(s: seq<T>, data: seq<T>, needle: seq<T>)
    requires needle != []
    ensures var carry := Tail(s, |needle| - 1);
            AllPlaces(s + data, needle) == AllPlaces(s, needle) + Shift(AllPlaces(carry + data, needle), |s| - |carry|)
  {
    hide Places;
    var carry, whole := Tail(s, |needle| - 1), s + data;
    var base := |s| - |carry|;
    assert whole[base..] == carry + data;
    PlacesOfSuffix(whole, needle, base, |carry + data|);
    // Every place of the old stream starts before the carried bytes.
    forall p: nat | base <= p < |s| ensures !At(s, needle, p) {}
    PlacesSkip(s, needle, base, |s|);
    PlacesExtend(s, data, needle, base);
  }

  /** The carried bytes are always the end of the stream so far. */
  lemma {:induction false} TailCarries<T>(s: seq<T>, data: seq<T>, k: nat)
    ensures Tail(Tail(s, k) + data, k) == Tail(s + data, k)
  {
    var a, b := Tail(s, k) + data, s + data;
    assert a == b[|b| - |a|..];
  }

  lemma {:induction false} ConcatNext<T>(chunks: seq<seq<T>>, i: nat)
    requires i < |chunks|
    ensures Concat(chunks[..i + 1]) == Concat(chunks[..i]) + chunks[i]
  {
    assert chunks[..i + 1][..i] == chunks[..i];
  }

  /** Every occurrence in the whole input is reported once, at its true offset, in order. */
  method FindAll<T(==)>(chunks: seq<seq<T>>, needle: seq<T>) returns (found: seq<nat>)
    requires needle != []
    ensures found == AllPlaces(Concat(chunks), needle)
    ensures forall p: nat :: p in found <==> p < |Concat(chunks)| && At(Concat(chunks), needle, p)
    ensures Increasing(found)
  {
    hide At, Places;
    NoPlaces([], needle);
    found := [];
    var carry: seq<T>, off := [], 0;
    ghost var seen: seq<T> := [];
    for i := 0 to |chunks|
      invariant seen == Concat(chunks[..i]) && off == |seen|
      invariant carry == Tail(seen, |needle| - 1)
      invariant found == AllPlaces(seen, needle)
    {
      var data := chunks[i];
      var buf := carry + data;
      var more := ScanBuffer(buf, needle, off - |carry|);
      ChunkAdds(seen, data, needle);
      TailCarries(seen, data, |needle| - 1);
      found := found + more;
      carry := if |needle| > 1 then Tail(buf, |needle| - 1) else [];
      off := off + |data|;
      seen := seen + data;
      ConcatNext(chunks, i);
    }
    assert chunks[..|chunks|] == chunks;
    PlacesExact(Concat(chunks), needle, |Concat(chunks)|);
  }

  // ---------------------------------------------------------------- counting a marker

  /** How many markers there are, counted from the left without overlap. */
  function CountIn<T(==)>(s: seq<T>, marker: seq<T>): nat
    requires marker != []
    decreases |s|
  {
    var k := Find(s, marker);
    if k < 0 then 0 else 1 + CountIn(s[k + |marker|..], marker)
  }

  /** No proper end of the marker is also a beginning of it. */
  ghost predicate BorderFree<T>(marker: seq<T>) {
    forall b :: 0 < b < |marker| ==> marker[..b] != marker[|marker| - b..]
  }

  /** Two overlapping places of a marker make a border. */
  lemma {:induction false} OverlapIsBorder<T>(s: seq<T>, marker: seq<T>, p: nat, q: nat)
    requires At(s, marker, p) && At(s, marker, q) && p < q < p + |marker|
    ensures var b := p + |marker| - q; marker[..b] == marker[|marker| - b..]
  {
    var b := p + |marker| - q;
    assert marker[..b] == s[q..q + |marker|][..b] == s[q..q + b];
    assert marker[|marker| - b..] == s[p..p + |marker|][|marker| - b..] == s[q..q + b];
  }

  lemma {:induction false} AtFits<T>(s: seq<T>, marker: seq<T>, p: nat)
    requires At(s, marker, p)
    ensures p + |marker| <= |s|
  {}

  lemma {:induction false} CountIsPlaces<T>(s: seq<T>, marker: seq<T>)
    requires marker != [] && BorderFree(marker)
    ensures CountIn(s, marker) == |AllPlaces(s, marker)|
    decreases |s|
  {
    hide At, Places, FindFrom;
    var k := Find(s, marker);
    FindFromFirst(s, marker, 0);
    if k < 0 {
      NoPlaces(s, marker);
      PlacesSkip(s, marker, 0, |s|);
    } else {
      var next := k + |marker|;
      AtFits(s, marker, k);
      CountIsPlaces(s[next..], marker);
      FindStep(s, marker, 0, k);
      NoPlaces(s, marker);
      forall p: nat | k + 1 <= p < next ensures !At(s, marker, p) {
        if At(s, marker, p) { OverlapIsBorder(s, marker, k, p); }
      }
      PlacesSkip(s, marker, k + 1, next);
      PlacesOfSuffix(s, marker, next, |s| - next);
    }
  }

  /** The reader loop of the private log: `restores` and `tail`. */
  method CountRestores<T(==)>(chunks: seq<seq<T>>, marker: seq<T>) returns (restores: nat)
    requires |marker| >= 2
    ensures restores == Restores(chunks, marker)
    ensures BorderFree(marker) ==> restores == |AllPlaces(Concat(chunks), marker)|
  {
    hide CountIn;
    restores := 0;
    var tail: seq<T> := [];
    assert Concat(chunks[..0]) == [];
    for i := 0 to |chunks|
      invariant restores == Restores(chunks[..i], marker)
      invariant tail == Tail(Concat(chunks[..i]), |marker| - 1)
    {
      var combined := tail + chunks[i];
      restores := restores + CountIn(combined, marker);
      TailCarries(Concat(chunks[..i]), chunks[i], |marker| - 1);
      tail := Tail(combined, |marker| - 1);
      RestoresNext(chunks, marker, i);
      ConcatNext(chunks, i);
    }
    assert chunks[..|chunks|] == chunks;
    if BorderFree(marker) { RestoresAreExact(chunks, marker); }
  }

  lemma {:induction false} RestoresNext<T>(chunks: seq<seq<T>>, marker: seq<T>, i: nat)
    requires |marker| >= 2 && i < |chunks|
    ensures Restores(chunks[..i + 1], marker)
         == Restores(chunks[..i], marker) + CountIn(Tail(Concat(chunks[..i]), |marker| - 1) + chunks[i], marker)
  {
    hide CountIn;
    assert chunks[..i + 1][..i] == chunks[..i];
  }

  /** What the loop adds up, chunk by chunk. */
  function Restores<T(==)>(chunks: seq<seq<T>>, marker: seq<T>): nat
    requires |marker| >= 2
  {
    if chunks == [] then 0
    else
      var n := |chunks| - 1;
      Restores(chunks[..n], marker) + CountIn(Tail(Concat(chunks[..n]), |marker| - 1) + chunks[n], marker)
  }

  /** A border-free marker is counted exactly, however the stream is cut. */
  lemma {:induction false} RestoresAreExact<T>(chunks: seq<seq<T>>, marker: seq<T>)
    requires |marker| >= 2 && BorderFree(marker)
    ensures Restores(chunks, marker) == |AllPlaces(Concat(chunks), marker)|
  {
    if chunks != [] {
      var n := |chunks| - 1;
      var s := Concat(chunks[..n]);
      RestoresAreExact(chunks[..n], marker);
      CountIsPlaces(Tail(s, |marker| - 1) + chunks[n], marker);
      ChunkAdds(s, chunks[n], marker);
    }
  }

  lemma {:induction false} OneChunk<T>(chunk: seq<T>, marker: seq<T>)
    requires |marker| >= 2
    ensures Concat([chunk]) == chunk && Restores([chunk], marker) == CountIn(chunk, marker)
  {
    hide CountIn;
    assert [chunk][..0] == [];
    assert Tail(Concat([]), |marker| - 1) + chunk == chunk;
  }

  /** A marker at the front with too little after it counts once. */
  lemma {:induction false} CountsOnce<T>(chunk: seq<T>, marker: seq<T>)
    requires marker != [] && |chunk| < 2 * |marker| && At(chunk, marker, 0)
    ensures CountIn(chunk, marker) == 1
  {
    FindIs(chunk, marker, 0);
    FindNone(chunk[|marker|..], marker);
  }

  /** A marker laid over its own border stands at two places. */
  lemma {:induction false} BorderPlaces<T>(marker: seq<T>, b: nat)
    requires 0 < b < |marker| && marker[..b] == marker[|marker| - b..]
    ensures var chunk := marker + marker[b..];
            At(chunk, marker, 0) && At(chunk, marker, |marker| - b)
  {
    var n := |marker|;
    var chunk := marker + marker[b..];
    assert chunk[0..n] == marker;
    assert chunk[n - b..n - b + n] == marker[n - b..] + marker[b..] == marker;
  }

  lemma {:induction false} TwoMembers(s: seq<nat>, x: nat, y: nat)
    requires x in s && y in s && x != y
    ensures |s| >= 2
  {}

  /** A marker with a border is miscounted already on one chunk: two overlapping copies count once. */
  lemma {:induction false} BorderMiscounts<T>(marker: seq<T>, b: nat)
    requires |marker| >= 2 && 0 < b < |marker| && marker[..b] == marker[|marker| - b..]
    ensures var chunk := marker + marker[b..];
            Restores([chunk], marker) == 1 && |AllPlaces(Concat([chunk]), marker)| >= 2
  {
    hide Restores, CountIn, Places, At, Concat;
    var chunk := marker + marker[b..];
    OneChunk(chunk, marker);
    BorderPlaces(marker, b);
    CountsOnce(chunk, marker);
    PlacesExact(chunk, marker, |chunk|);
    TwoMembers(AllPlaces(chunk, marker), 0, |marker| - b);
  }

  /** The count is right for every stream and every cutting exactly when the marker is border-free. */
  lemma {:induction false} ExactMeansBorderFree<T(!new)>(marker: seq<T>)
    requires |marker| >= 2
    ensures BorderFree(marker) <==> forall chunks :: Restores(chunks, marker) == |AllPlaces(Concat(chunks), marker)|
  {
    hide Restores, CountIn, Places, At, Concat, AllPlaces;
    if BorderFree(marker) {
      forall chunks ensures Restores(chunks, marker) == |AllPlaces(Concat(chunks), marker)| {
        RestoresAreExact(chunks, marker);
      }
    } else {
      var b :| 0 < b < |marker| && marker[..b] == marker[|marker| - b..];
      BorderMiscounts(marker, b);
    }
  }

  lemma {:induction false} FirstOnceIsBorderFree<T>(marker: seq<T>)
    requires marker != [] && marker[0] !in marker[1..]
    ensures BorderFree(marker)
  {
    forall b | 0 < b < |marker| ensures marker[..b] != marker[|marker| - b..] {
      assert marker[..b][0] == marker[0];
      assert marker[|marker| - b..][0] == marker[1..][|marker| - b - 1];
    }
  }

  /** The marker of the private log after its first byte (the dash is three bytes of UTF-8). */
  const AFTER_FIRST: seq<string> := [
    "PGRADE resume ", "\U{e2}\U{80}\U{94} restored ", "mandatory ", "World/history/",
    "events/replay/", "webhooks"]

  const RESTORED: string := "U" + Concat(AFTER_FIRST)

  lemma {:induction false} NotInConcat<T>(parts: seq<seq<T>>, x: T)
    requires forall i :: 0 <= i < |parts| ==> x !in parts[i]
    ensures x !in Concat(parts)
  {
    if parts != [] { NotInConcat(Init(parts), x); }
  }

  /** Its first byte occurs once, so restores are counted exactly. */
  lemma {:induction false} RestoredIsCounted(chunks: seq<string>)
    ensures |RESTORED| >= 2 && Restores(chunks, RESTORED) == |AllPlaces(Concat(chunks), RESTORED)|
  {
    hide Restores, AllPlaces;
    var rest := Concat(AFTER_FIRST);
    assert rest != [] by { assert AFTER_FIRST[5] == "webhooks"; }
    NotInConcat(AFTER_FIRST, 'U') by {
      assert 'U' !in AFTER_FIRST[0] && 'U' !in AFTER_FIRST[1] && 'U' !in AFTER_FIRST[2];
      assert 'U' !in AFTER_FIRST[3] && 'U' !in AFTER_FIRST[4] && 'U' !in AFTER_FIRST[5];
    }
    hide *;
    assert RESTORED[1..] == rest;
    FirstOnceIsBorderFree(RESTORED);
    RestoresAreExact(chunks, RESTORED);
  }
}
