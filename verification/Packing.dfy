/**
 Greedy packing under a UTF-8 byte budget: the rule shared by `split_text` and `compact`
 in tools/announce_bot.py, and why no order-preserving grouping needs fewer lines.
 */
module Packing {
  import opened Utf8

  /** How many bytes a character takes; a lone surrogate is replaced by one byte. */
  function Width(c: Char): (w: nat)
    ensures 1 <= w <= 4
  {
    if c < 0x80 then 1
    else if c < 0x800 then 2
    else if 0xD800 <= c < 0xE000 then 1
    else if c < 0x1_0000 then 3
    else 4
  }

  function ByteLen(s: Text): nat {
    if s == [] then 0 else ByteLen(s[..|s| - 1]) + Width(s[|s| - 1])
  }

  /** The width of a character is the length of its encoding. */
  lemma {:induction false} WidthIsBytes(c: Char)
    ensures Width(c) == |EncodeChar(c)|
  {}

  /** The count is the length of the encoded text. */
  lemma {:induction false} ByteLenIsBytes(s: Text)
    ensures ByteLen(s) == |Encode(s)|
  {
    if s != [] {
      ByteLenIsBytes(s[..|s| - 1]);
      WidthIsBytes(s[|s| - 1]);
    }
  }

  lemma {:induction false} ByteLenAppend(a: Text, b: Text)
    ensures ByteLen(a + b) == ByteLen(a) + ByteLen(b)
  {
    if b == [] {
      assert a + b == a;
    } else {
      var n := |b| - 1;
      assert (a + b)[..|a + b| - 1] == a + b[..n];
      ByteLenAppend(a, b[..n]);
    }
  }

  lemma {:induction false} ByteLenBounds(s: Text)
    ensures |s| <= ByteLen(s) <= 4 * |s|
  {
    if s != [] { ByteLenBounds(s[..|s| - 1]); }
  }

  // ---------------------------------------------------------------- the packing loop

  datatype Acc = Acc(chunks: seq<Text>, cur: Text)

  function Candidate(cur: Text, part: Text, sep: Text): Text {
    if cur == [] then part else cur + sep + part
  }

  function Flush(acc: Acc): seq<Text> {
    if acc.cur == [] then acc.chunks else acc.chunks + [acc.cur]
  }

  /** The byte budget as a test on whole lines. */
  function Within(limit: nat): Text -> bool { line => ByteLen(line) <= limit }

  /** One part: extend the current line if it still fits, else start a new one. */
  function Add(acc: Acc, part: Text, sep: Text, fits: Text -> bool): Acc {
    var candidate := Candidate(acc.cur, part, sep);
    if fits(candidate) then Acc(acc.chunks, candidate) else Acc(Flush(acc), part)
  }

  function Pack(parts: seq<Text>, n: nat, sep: Text, fits: Text -> bool): Acc
    requires n <= |parts|
  {
    if n == 0 then Acc([], []) else Add(Pack(parts, n - 1, sep, fits), parts[n - 1], sep, fits)
  }

  /** A part that can be a line of its own. */
  predicate Fit(part: Text, limit: nat) { part != [] && ByteLen(part) <= limit }

  predicate AllFit(parts: seq<Text>, limit: nat) {
    forall i :: 0 <= i < |parts| ==> Fit(parts[i], limit)
  }

  // ---------------------------------------------------------------- groupings

  /** Parts `i` up to `j` on one line. */
  function Line(parts: seq<Text>, i: nat, j: nat, sep: Text): Text
    requires j <= |parts|
  {
    if j <= i then [] else Candidate(Line(parts, i, j - 1, sep), parts[j - 1], sep)
  }

  /** An order-preserving way to break parts into lines: each line holds parts `lo` up to `hi`. */
  datatype Breaks = Start | Break(before: Breaks, lo: nat, hi: nat)

  function Count(b: Breaks): nat {
    match b
    case Start => 0
    case Break(before, _, _) => Count(before) + 1
  }

  function Lines(parts: seq<Text>, b: Breaks, sep: Text): seq<Text> {
    match b
    case Start => []
    case Break(before, lo, hi) => Lines(parts, before, sep) + [if hi <= |parts| then Line(parts, lo, hi, sep) else []]
  }

  /** Bytes of a line of parts with the given sizes and separator size. */
  function Cost(sizes: seq<nat>, gap: nat, i: nat, j: nat): nat
    requires j <= |sizes|
  {
    if j <= i then 0
    else if j == i + 1 then sizes[i]
    else Cost(sizes, gap, i, j - 1) + gap + sizes[j - 1]
  }

  /** Non-empty lines covering the first `n` parts in order, each within the limit. */
  ghost predicate Grouping(sizes: seq<nat>, gap: nat, limit: nat, b: Breaks, n: nat) {
    match b
    case Start => n == 0
    case Break(before, lo, hi) =>
      lo < hi == n <= |sizes| && Cost(sizes, gap, lo, hi) <= limit && Grouping(sizes, gap, limit, before, lo)
  }

  function Sizes(parts: seq<Text>): (r: seq<nat>)
    ensures |r| == |parts| && forall i :: 0 <= i < |r| ==> r[i] == ByteLen(parts[i])
  {
    seq(|parts|, i requires 0 <= i < |parts| => ByteLen(parts[i]))
  }

  /** The packing loop after `n` parts: the finished lines, and where the current one starts. */
  datatype Greedy = Greedy(done: Breaks, lo: nat)

  function GreedyAt(sizes: seq<nat>, gap: nat, limit: nat, n: nat): (g: Greedy)
    requires n <= |sizes|
    ensures n > 0 ==> g.lo < n
  {
    if n <= 1 then Greedy(Start, 0)
    else
      var g := GreedyAt(sizes, gap, limit, n - 1);
      if Cost(sizes, gap, g.lo, n) <= limit then g else Greedy(Break(g.done, g.lo, n - 1), n - 1)
  }

  // ---------------------------------------------------------------- the loop is the greedy grouping

  lemma {:induction false} CandidateBytes(cur: Text, part: Text, sep: Text)
    ensures ByteLen(Candidate(cur, part, sep)) == ByteLen(part) + if cur == [] then 0 else ByteLen(cur) + ByteLen(sep)
  {
    ByteLenAppend(cur + sep, part);
    ByteLenAppend(cur, sep);
  }

  /** A line of non-empty parts is non-empty and weighs its cost. */
  lemma {:induction false} LineBytes(parts: seq<Text>, i: nat, j: nat, sep: Text)
    requires i < j <= |parts| && forall k :: 0 <= k < |parts| ==> parts[k] != []
    ensures Line(parts, i, j, sep) != [] && ByteLen(Line(parts, i, j, sep)) == Cost(Sizes(parts), ByteLen(sep), i, j)
    decreases j
  {
    CandidateBytes(Line(parts, i, j - 1, sep), parts[j - 1], sep);
    if i < j - 1 { LineBytes(parts, i, j - 1, sep); }
  }

  /** One more part: the loop extends or breaks the line exactly when the costs say so. */
  lemma {:induction false} AddIsGreedy(parts: seq<Text>, n: nat, sep: Text, limit: nat, g: Greedy)
    requires g.lo < n < |parts| && AllFit(parts, limit)
    ensures Add(Acc(Lines(parts, g.done, sep), Line(parts, g.lo, n, sep)), parts[n], sep, Within(limit)) ==
            if Cost(Sizes(parts), ByteLen(sep), g.lo, n + 1) <= limit
            then Acc(Lines(parts, g.done, sep), Line(parts, g.lo, n + 1, sep))
            else Acc(Lines(parts, Break(g.done, g.lo, n), sep), parts[n])
  {
    LineBytes(parts, g.lo, n, sep);
    LineBytes(parts, g.lo, n + 1, sep);
  }

  lemma {:induction false} LineOfOne(parts: seq<Text>, i: nat, sep: Text)
    requires i < |parts|
    ensures Line(parts, i, i + 1, sep) == parts[i]
  {
    assert Line(parts, i, i, sep) == [];
  }

  /** The state of the packing loop, read off the greedy breaks. */
  lemma {:induction false} PackIsGreedy(parts: seq<Text>, n: nat, sep: Text, limit: nat)
    requires 0 < n <= |parts| && AllFit(parts, limit)
    ensures var g := GreedyAt(Sizes(parts), ByteLen(sep), limit, n);
            Pack(parts, n, sep, Within(limit)) == Acc(Lines(parts, g.done, sep), Line(parts, g.lo, n, sep))
  {
    var m := n - 1;
    LineOfOne(parts, m, sep);
    if n > 1 {
      PackIsGreedy(parts, m, sep, limit);
      AddIsGreedy(parts, m, sep, limit, GreedyAt(Sizes(parts), ByteLen(sep), limit, m));
    } else {
      assert Pack(parts, 0, sep, Within(limit)) == Acc([], []);
    }
  }

  // ---------------------------------------------------------------- fewest lines

  /** The cost of a line does not grow when parts are taken off its front. */
  lemma {:induction false} SuffixCheaper(sizes: seq<nat>, gap: nat, i: nat, k: nat, j: nat)
    requires i <= k <= j <= |sizes|
    ensures Cost(sizes, gap, k, j) <= Cost(sizes, gap, i, j)
    decreases j
  {
    if k < j { SuffixCheaper(sizes, gap, i, k, j - 1); }
  }

  /** A grouping without its last part. */
  function DropLast(b: Breaks): Breaks
    requires b.Break?
  {
    if b.lo + 1 >= b.hi then b.before else b.(hi := b.hi - 1)
  }

  lemma {:induction false} DropLastGroups(sizes: seq<nat>, gap: nat, limit: nat, b: Breaks, n: nat)
    requires n > 0 && Grouping(sizes, gap, limit, b, n)
    ensures b.Break? && Grouping(sizes, gap, limit, DropLast(b), n - 1)
  {}

  /**
   Greedy stays ahead: any grouping of the first `n` parts has at least as many lines, and
   with equally many its last line starts no later than greedy's current one.
   */
  lemma {:induction false} GreedyStaysAhead(sizes: seq<nat>, gap: nat, limit: nat, n: nat, b: Breaks)
    requires 0 < n <= |sizes| && Grouping(sizes, gap, limit, b, n)
    ensures var g := GreedyAt(sizes, gap, limit, n);
            Count(g.done) + 1 <= Count(b) && (Count(g.done) + 1 == Count(b) ==> b.lo <= g.lo)
    decreases n
  {
    DropLastGroups(sizes, gap, limit, b, n);
    if n > 1 {
      var fewer, g := DropLast(b), GreedyAt(sizes, gap, limit, n - 1);
      GreedyStaysAhead(sizes, gap, limit, n - 1, fewer);
      if b.lo <= g.lo {
        SuffixCheaper(sizes, gap, b.lo, g.lo, n);
      }
    }
  }

  // ---------------------------------------------------------------- main results

  /** The lines of a finished packing. */
  function Packed(parts: seq<Text>, sep: Text, limit: nat): seq<Text> {
    Flush(Pack(parts, |parts|, sep, Within(limit)))
  }

  function PackedBreaks(parts: seq<Text>, sep: Text, limit: nat): Breaks {
    if parts == [] then Start
    else
      var g := GreedyAt(Sizes(parts), ByteLen(sep), limit, |parts|);
      Break(g.done, g.lo, |parts|)
  }

  /** Every line of greedy is within the limit. */
  lemma {:induction false} GreedyFits(sizes: seq<nat>, gap: nat, limit: nat, n: nat)
    requires 0 < n <= |sizes| && forall i :: 0 <= i < |sizes| ==> sizes[i] <= limit
    ensures var g := GreedyAt(sizes, gap, limit, n);
            Grouping(sizes, gap, limit, g.done, g.lo) && Cost(sizes, gap, g.lo, n) <= limit
  {
    if n > 1 { GreedyFits(sizes, gap, limit, n - 1); }
  }

  lemma {:induction false} LinesCount(parts: seq<Text>, b: Breaks, sep: Text)
    ensures |Lines(parts, b, sep)| == Count(b)
  {
    if b.Break? { LinesCount(parts, b.before, sep); }
  }

  /** The packing is an order-preserving grouping in which every line fits. */
  lemma {:induction false} PackedIsGrouping(parts: seq<Text>, sep: Text, limit: nat)
    requires AllFit(parts, limit)
    ensures Grouping(Sizes(parts), ByteLen(sep), limit, PackedBreaks(parts, sep, limit), |parts|)
    ensures Packed(parts, sep, limit) == Lines(parts, PackedBreaks(parts, sep, limit), sep)
  {
    if parts != [] {
      var n, sizes := |parts|, Sizes(parts);
      GreedyFits(sizes, ByteLen(sep), limit, n);
      PackIsGreedy(parts, n, sep, limit);
      LineBytes(parts, GreedyAt(sizes, ByteLen(sep), limit, n).lo, n, sep);
    }
  }

  /** No order-preserving grouping of the parts needs fewer lines. */
  lemma {:induction false} PackedIsFewest(parts: seq<Text>, sep: Text, limit: nat, b: Breaks)
    requires AllFit(parts, limit) && Grouping(Sizes(parts), ByteLen(sep), limit, b, |parts|)
    ensures |Packed(parts, sep, limit)| <= Count(b) == |Lines(parts, b, sep)|
  {
    PackedIsGrouping(parts, sep, limit);
    LinesCount(parts, b, sep);
    LinesCount(parts, PackedBreaks(parts, sep, limit), sep);
    if parts != [] {
      GreedyStaysAhead(Sizes(parts), ByteLen(sep), limit, |parts|, b);
    }
  }

  lemma {:induction false} LinesFit(parts: seq<Text>, b: Breaks, sep: Text, limit: nat, n: nat)
    requires n <= |parts| && AllFit(parts, limit) && Grouping(Sizes(parts), ByteLen(sep), limit, b, n)
    ensures AllFit(Lines(parts, b, sep), limit)
  {
    if b.Break? {
      LinesFit(parts, b.before, sep, limit, b.lo);
      LineBytes(parts, b.lo, b.hi, sep);
    }
  }

  /** Every line fits and none is empty. */
  lemma {:induction false} PackedFits(parts: seq<Text>, sep: Text, limit: nat)
    requires AllFit(parts, limit)
    ensures AllFit(Packed(parts, sep, limit), limit)
  {
    PackedIsGrouping(parts, sep, limit);
    LinesFit(parts, PackedBreaks(parts, sep, limit), sep, limit, |parts|);
  }
}
