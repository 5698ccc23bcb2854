/** `split_text`, `compact` and the cap loop of `Bot.channel_say` in tools/announce_bot.py. */
module AnnounceText {
  import opened Options
  import opened Splitting
  import opened Utf8
  import opened Packing

  const SPACE: Char := 32
  const ELLIPSIS: Char := 0x2026
  const MAX_MESSAGE_TEXT_BYTES := 360
  /** A grey bar between spaces: colour code 14, the bar, colour reset. */
  const SEPARATOR: Text := [32, 3, 49, 52, 124, 15, 32]

  // ---------------------------------------------------------------- split_text

  /** The character loop over an over-long word, after `n` characters. */
  function Cut(chunks: seq<Text>, word: Text, n: nat, fits: Text -> bool): Acc
    requires n <= |word|
  {
    if n == 0 then Acc(chunks, [])
    else
      var a := Cut(chunks, word, n - 1, fits);
      if !fits(a.cur + [word[n - 1]]) then Acc(Flush(a), [word[n - 1]]) else Acc(a.chunks, a.cur + [word[n - 1]])
  }

  function AddWord(acc: Acc, word: Text, fits: Text -> bool): Acc {
    if word == [] then acc
    else if fits(Candidate(acc.cur, word, [SPACE])) then Acc(acc.chunks, Candidate(acc.cur, word, [SPACE]))
    else if fits(word) then Acc(Flush(acc), word)
    else Cut(Flush(acc), word, |word|, fits)
  }

  function AddWords(words: seq<Text>, n: nat, fits: Text -> bool): Acc
    requires n <= |words|
  {
    if n == 0 then Acc([], []) else AddWord(AddWords(words, n - 1, fits), words[n - 1], fits)
  }

  function WordsOf(text: Text): seq<Text> { Split(text, [SPACE]) }

  function SplitText(text: Text, limit: nat): seq<Text> {
    if ByteLen(text) <= limit then [text] else Flush(AddWords(WordsOf(text), |WordsOf(text)|, Within(limit)))
  }

  method CutWord(chunks: seq<Text>, word: Text, fits: Text -> bool) returns (a: Acc)
    ensures a == Cut(chunks, word, |word|, fits)
  {
    var done, piece: Text := chunks, [];
    for i := 0 to |word|
      invariant Acc(done, piece) == Cut(chunks, word, i, fits)
    {
      if !fits(piece + [word[i]]) {
        if piece != [] {
          done := done + [piece];
        }
        piece := [word[i]];
      } else {
        piece := piece + [word[i]];
      }
    }
    return Acc(done, piece);
  }

  /** The word loop. */
  method PackWords(words: seq<Text>, fits: Text -> bool) returns (chunks: seq<Text>)
    ensures chunks == Flush(AddWords(words, |words|, fits))
  {
    chunks := [];
    var cur: Text := [];
    for i := 0 to |words|
      invariant Acc(chunks, cur) == AddWords(words, i, fits)
    {
      var word := words[i];
      if word == [] {
        continue;
      }
      var candidate := if cur == [] then word else cur + [SPACE] + word;
      if fits(candidate) {
        cur := candidate;
        continue;
      }
      if cur != [] {
        chunks := chunks + [cur];
        cur := [];
      }
      if fits(word) {
        cur := word;
        continue;
      }
      var a := CutWord(chunks, word, fits);
      chunks, cur := a.chunks, a.cur;
    }
    if cur != [] {
      chunks := chunks + [cur];
    }
  }

  method SplitTextLoop(text: Text, limit: nat) returns (chunks: seq<Text>)
    ensures chunks == SplitText(text, limit)
  {
    if ByteLen(text) <= limit {
      return [text];
    }
    chunks := PackWords(WordsOf(text), Within(limit));
  }

  /** The characters of a word, each by itself. */
  function Singles(word: Text): (r: seq<Text>)
    ensures |r| == |word| && forall i :: 0 <= i < |r| ==> r[i] == [word[i]]
  {
    seq(|word|, i requires 0 <= i < |word| => [word[i]])
  }

  /** Cutting a word is packing its characters with nothing between them. */
  lemma {:induction false} CutIsPacking(word: Text, n: nat, fits: Text -> bool)
    requires n <= |word|
    ensures Cut([], word, n, fits) == Pack(Singles(word), n, [], fits)
  {
    if n > 0 {
      CutIsPacking(word, n - 1, fits);
      var cur, c := Cut([], word, n - 1, fits).cur, word[n - 1];
      assert Candidate(cur, [c], []) == cur + [c];
    }
  }

  /** An over-long word by itself is cut into as few pieces as the limit allows. */
  lemma {:induction false} CutIsFewest(word: Text, limit: nat, b: Breaks)
    requires AllFit(Singles(word), limit) && Grouping(Sizes(Singles(word)), 0, limit, b, |word|)
    ensures |Flush(Cut([], word, |word|, Within(limit)))| <= Count(b)
  {
    CutIsPacking(word, |word|, Within(limit));
    PackedIsFewest(Singles(word), [], limit, b);
  }

  // ---------------------------------------------------------------- every chunk fits

  predicate AccFits(a: Acc, limit: nat) { AllFit(a.chunks, limit) && ByteLen(a.cur) <= limit }

  lemma {:induction false} FlushFits(a: Acc, limit: nat)
    requires AccFits(a, limit)
    ensures AllFit(Flush(a), limit)
  {}

  lemma {:induction false} OneByteLen(c: Char)
    ensures ByteLen([c]) == Width(c)
  {
    assert [c][..0] == [];
  }

  /** Every character that has to be shown fits on a line of its own. */
  ghost predicate Narrow(text: Text, limit: nat) {
    forall c :: c in text && c != SPACE ==> Width(c) <= limit
  }

  lemma {:induction false} CutFits(chunks: seq<Text>, word: Text, n: nat, limit: nat)
    requires n <= |word| && AllFit(chunks, limit) && Narrow(word, limit) && SPACE !in word
    ensures AccFits(Cut(chunks, word, n, Within(limit)), limit)
  {
    if n > 0 {
      CutFits(chunks, word, n - 1, limit);
      OneByteLen(word[n - 1]);
      assert word[n - 1] in word;
      FlushFits(Cut(chunks, word, n - 1, Within(limit)), limit);
    }
  }

  lemma {:induction false} AddWordsFit(words: seq<Text>, n: nat, limit: nat)
    requires n <= |words| && forall w :: w in words ==> Narrow(w, limit) && SPACE !in w
    ensures AccFits(AddWords(words, n, Within(limit)), limit)
  {
    if n > 0 {
      AddWordsFit(words, n - 1, limit);
      var a, word := AddWords(words, n - 1, Within(limit)), words[n - 1];
      FlushFits(a, limit);
      CutFits(Flush(a), word, |word|, limit);
    }
  }

  /** When its characters fit, every chunk is within the byte limit, and none of a non-empty text is empty. */
  lemma {:induction false} NarrowFits(text: Text, limit: nat)
    requires Narrow(text, limit)
    ensures forall i :: 0 <= i < |SplitText(text, limit)| ==> ByteLen(SplitText(text, limit)[i]) <= limit
    ensures text != [] ==> AllFit(SplitText(text, limit), limit)
  {
    if ByteLen(text) > limit {
      var words := WordsOf(text);
      PiecesClean(text, SPACE);
      PiecesInside(text, [SPACE]);
      AddWordsFit(words, |words|, limit);
      FlushFits(AddWords(words, |words|, Within(limit)), limit);
    }
  }

  // ---------------------------------------------------------------- nothing is lost

  /** The characters other than spaces, in order. */
  function Visible(s: Text): Text {
    if s == [] then []
    else if s[|s| - 1] == SPACE then Visible(s[..|s| - 1])
    else Visible(s[..|s| - 1]) + [s[|s| - 1]]
  }

  lemma {:induction false} VisibleAppend(a: Text, b: Text)
    ensures Visible(a + b) == Visible(a) + Visible(b)
  {
    if b == [] {
      assert a + b == a;
    } else {
      var n := |b| - 1;
      assert (a + b)[..|a + b| - 1] == a + b[..n];
      VisibleAppend(a, b[..n]);
    }
  }

  /** Everything the loop holds: finished chunks and the current one. */
  function Held(a: Acc): Text { Concat(a.chunks) + a.cur }

  lemma {:induction false} ConcatSnoc(chunks: seq<Text>, x: Text)
    ensures Concat(chunks + [x]) == Concat(chunks) + x
  {
    assert (chunks + [x])[..|chunks|] == chunks;
  }

  lemma {:induction false} FlushHolds(a: Acc)
    ensures Concat(Flush(a)) == Held(a)
  {
    ConcatSnoc(a.chunks, a.cur);
    assert Concat(a.chunks) + [] == Concat(a.chunks);
  }

  lemma {:induction false} HeldPlus(a: Acc, c: Char)
    ensures Held(Acc(Flush(a), [c])) == Held(a) + [c]
    ensures Held(Acc(a.chunks, a.cur + [c])) == Held(a) + [c]
  {
    FlushHolds(a);
  }

  lemma {:induction false} CutHolds(chunks: seq<Text>, word: Text, n: nat, fits: Text -> bool)
    requires n <= |word|
    ensures Held(Cut(chunks, word, n, fits)) == Concat(chunks) + word[..n]
  {
    if n > 0 {
      CutHolds(chunks, word, n - 1, fits);
      HeldPlus(Cut(chunks, word, n - 1, fits), word[n - 1]);
      PrefixPlus(Concat(chunks), word, n);
    }
  }

  lemma {:induction false} PrefixPlus(a: Text, word: Text, n: nat)
    requires 0 < n <= |word|
    ensures a + word[..n - 1] + [word[n - 1]] == a + word[..n]
  {}

  lemma {:induction false} SpaceIsInvisible(a: Text, b: Text)
    ensures Visible(a + [SPACE] + b) == Visible(a) + Visible(b)
  {
    VisibleAppend(a + [SPACE], b);
    assert (a + [SPACE])[..|a|] == a;
  }

  /** What the loop holds after a word: the word is there, perhaps behind a space. */
  lemma {:induction false} AddWordHolds(a: Acc, word: Text, fits: Text -> bool)
    requires word != []
    ensures var h := Held(AddWord(a, word, fits)); h == Held(a) + word || h == Held(a) + [SPACE] + word
  {
    var b := AddWord(a, word, fits);
    FlushHolds(a);
    if fits(Candidate(a.cur, word, [SPACE])) {
      hide Concat, Cut;
      if a.cur == [] {
        assert Held(b) == Held(a) + word;
      } else {
        assert Held(b) == Held(a) + [SPACE] + word;
      }
    } else if fits(word) {
      assert Held(b) == Held(a) + word;
    } else {
      CutHolds(Flush(a), word, |word|, fits);
      assert word[..|word|] == word;
    }
  }

  lemma {:induction false} AddWordShows(a: Acc, word: Text, fits: Text -> bool)
    ensures Visible(Held(AddWord(a, word, fits))) == Visible(Held(a)) + Visible(word)
  {
    if word == [] {
      assert Visible(Held(a)) + [] == Visible(Held(a));
    } else {
      hide Visible, Held, AddWord;
      AddWordHolds(a, word, fits);
      VisibleAppend(Held(a), word);
      SpaceIsInvisible(Held(a), word);
    }
  }

  lemma {:induction false} PrefixShows(words: seq<Text>, n: nat)
    requires 0 < n <= |words|
    ensures Visible(Concat(words[..n])) == Visible(Concat(words[..n - 1])) + Visible(words[n - 1])
  {
    assert words[..n] == words[..n - 1] + [words[n - 1]];
    ConcatSnoc(words[..n - 1], words[n - 1]);
    VisibleAppend(Concat(words[..n - 1]), words[n - 1]);
  }

  lemma {:induction false} AddWordsShow(words: seq<Text>, n: nat, fits: Text -> bool)
    requires n <= |words|
    ensures Visible(Held(AddWords(words, n, fits))) == Visible(Concat(words[..n]))
  {
    if n > 0 {
      AddWordsShow(words, n - 1, fits);
      AddWordShows(AddWords(words, n - 1, fits), words[n - 1], fits);
      PrefixShows(words, n);
    } else {
      assert Held(Acc([], [])) == [];
    }
  }

  lemma {:induction false} ConcatCons(x: Text, rest: seq<Text>)
    ensures Concat([x] + rest) == x + Concat(rest)
  {
    ConcatAppend([x], rest);
    assert [x][..0] == [];
    assert Concat([x]) == [] + x;
  }

  lemma {:induction false} JoinShows(words: seq<Text>)
    ensures Visible(Join(words, [SPACE])) == Visible(Concat(words))
  {
    if words != [] {
      var x, rest := words[0], words[1..];
      assert words == [x] + rest;
      ConcatCons(x, rest);
      VisibleAppend(x, Concat(rest));
      if |words| == 1 {
        assert Concat(rest) == [] && x + [] == x;
      } else {
        JoinShows(rest);
        VisibleAppend(x + [SPACE], Join(rest, [SPACE]));
        assert (x + [SPACE])[..|x|] == x;
      }
    }
  }

  /** No character but a space is dropped, added or moved. */
  lemma {:induction false} SplitTextKeeps(text: Text, limit: nat)
    ensures Visible(Concat(SplitText(text, limit))) == Visible(text)
  {
    var words := WordsOf(text);
    if ByteLen(text) <= limit {
      ConcatCons(text, []);
      assert [text] + [] == [text] && text + [] == text;
    } else {
      AddWordsShow(words, |words|, Within(limit));
      FlushHolds(AddWords(words, |words|, Within(limit)));
      assert words[..|words|] == words;
      JoinShows(words);
      JoinOfSplit(text, [SPACE]);
    }
  }

  // ---------------------------------------------------------------- fewest chunks

  /** The non-empty words among the first `n`. */
  function Kept(words: seq<Text>, n: nat): seq<Text>
    requires n <= |words|
  {
    if n == 0 then []
    else if words[n - 1] == [] then Kept(words, n - 1)
    else Kept(words, n - 1) + [words[n - 1]]
  }

  lemma {:induction false} VisibleIn(s: Text, c: Char)
    ensures c in Visible(s) <==> c in s && c != SPACE
  {
    if s != [] {
      var n := |s| - 1;
      VisibleIn(s[..n], c);
      assert s == s[..n] + [s[n]];
    }
  }

  lemma {:induction false} WidthInside(s: Text, c: Char)
    requires c in s
    ensures Width(c) <= ByteLen(s)
  {
    var n := |s| - 1;
    if s[n] != c {
      assert s == s[..n] + [s[n]];
      WidthInside(s[..n], c);
    }
  }

  lemma {:induction false} InsideConcat(parts: seq<Text>, c: Char) returns (i: nat)
    requires c in Concat(parts)
    ensures i < |parts| && c in parts[i]
  {
    i := |parts| - 1;
    if c !in parts[i] { i := InsideConcat(parts[..i], c); }
  }

  /** Chunks that fit show that every character does. */
  lemma {:induction false} FittingIsNarrow(chunks: seq<Text>, text: Text, limit: nat)
    requires forall i :: 0 <= i < |chunks| ==> ByteLen(chunks[i]) <= limit
    requires forall c :: c in text && c != SPACE ==> c in Concat(chunks)
    ensures Narrow(text, limit)
  {
    forall c | c in text && c != SPACE ensures Width(c) <= limit {
      var i := InsideConcat(chunks, c);
      WidthInside(chunks[i], c);
    }
  }

  /** For every text and limit: all chunks fit exactly when every character other than a space does. */
  lemma {:induction false} SplitTextFits(text: Text, limit: nat)
    ensures (forall i :: 0 <= i < |SplitText(text, limit)| ==> ByteLen(SplitText(text, limit)[i]) <= limit)
       <==> Narrow(text, limit)
    ensures text != [] && Narrow(text, limit) ==> AllFit(SplitText(text, limit), limit)
  {
    hide SplitText, ByteLen;
    var chunks := SplitText(text, limit);
    if Narrow(text, limit) {
      NarrowFits(text, limit);
    } else if forall i :: 0 <= i < |chunks| ==> ByteLen(chunks[i]) <= limit {
      SplitTextShows(text, limit);
      FittingIsNarrow(chunks, text, limit);
    }
  }

  lemma {:induction false} SplitTextShows(text: Text, limit: nat)
    ensures forall c :: c in text && c != SPACE ==> c in Concat(SplitText(text, limit))
  {
    hide SplitText;
    SplitTextKeeps(text, limit);
    forall c | c in text && c != SPACE ensures c in Concat(SplitText(text, limit)) {
      VisibleIn(text, c);
      VisibleIn(Concat(SplitText(text, limit)), c);
    }
  }

  /** The same on the bytes that are sent: all chunks fit exactly when every character but the space does. */
  lemma {:induction false} SplitBytesFit(text: Text, limit: nat)
    ensures (forall i :: 0 <= i < |SplitText(text, limit)| ==> |Encode(SplitText(text, limit)[i])| <= limit)
       <==> (forall c :: c in text && c != SPACE ==> |EncodeChar(c)| <= limit)
  {
    hide SplitText, Encode, EncodeChar, ByteLen, Width;
    var chunks := SplitText(text, limit);
    SplitTextFits(text, limit);
    forall i | 0 <= i < |chunks| ensures ByteLen(chunks[i]) == |Encode(chunks[i])| { ByteLenIsBytes(chunks[i]); }
    forall c: Char ensures Width(c) == |EncodeChar(c)| { WidthIsBytes(c); }
  }

  /** Four bytes are enough for any text. */
  lemma {:induction false} FourIsEnough(text: Text, limit: nat)
    requires limit >= 4
    ensures Narrow(text, limit)
  {}

  lemma {:induction false} PackPrefix(a: seq<Text>, b: seq<Text>, n: nat, sep: Text, fits: Text -> bool)
    requires n <= |a| && n <= |b| && forall i :: 0 <= i < n ==> a[i] == b[i]
    ensures Pack(a, n, sep, fits) == Pack(b, n, sep, fits)
  {
    if n > 0 { PackPrefix(a, b, n - 1, sep, fits); }
  }

  lemma {:induction false} PackSnoc(parts: seq<Text>, part: Text, sep: Text, fits: Text -> bool)
    ensures Pack(parts + [part], |parts| + 1, sep, fits) == Add(Pack(parts, |parts|, sep, fits), part, sep, fits)
  {
    PackPrefix(parts, parts + [part], |parts|, sep, fits);
  }

  lemma {:induction false} KeptFit(words: seq<Text>, n: nat, fits: Text -> bool)
    requires n <= |words| && forall w :: w in words ==> fits(w)
    ensures forall w :: w in Kept(words, n) ==> w != [] && fits(w)
  {
    if n > 0 { KeptFit(words, n - 1, fits); }
  }

  lemma {:induction false} AddFitting(a: Acc, word: Text, fits: Text -> bool)
    requires fits(word)
    ensures AddWord(a, word, fits) == if word == [] then a else Add(a, word, [SPACE], fits)
  {}

  lemma {:induction false} WordsArePacked(words: seq<Text>, n: nat, fits: Text -> bool)
    requires n <= |words| && forall w :: w in words ==> fits(w)
    ensures AddWords(words, n, fits) == Pack(Kept(words, n), |Kept(words, n)|, [SPACE], fits)
  {
    if n > 0 {
      WordsArePacked(words, n - 1, fits);
      assert words[n - 1] in words;
      NextWord(words, n, fits);
    }
  }

  lemma {:induction false} WordsNext(words: seq<Text>, n: nat, fits: Text -> bool)
    requires 0 < n <= |words|
    ensures AddWords(words, n, fits) == AddWord(AddWords(words, n - 1, fits), words[n - 1], fits)
    ensures Kept(words, n) == if words[n - 1] == [] then Kept(words, n - 1) else Kept(words, n - 1) + [words[n - 1]]
  {}

  lemma {:induction false} NextWord(words: seq<Text>, n: nat, fits: Text -> bool)
    requires 0 < n <= |words| && fits(words[n - 1])
    requires AddWords(words, n - 1, fits) == Pack(Kept(words, n - 1), |Kept(words, n - 1)|, [SPACE], fits)
    ensures AddWords(words, n, fits) == Pack(Kept(words, n), |Kept(words, n)|, [SPACE], fits)
  {
    hide *;
    WordsNext(words, n, fits);
    AddFitting(AddWords(words, n - 1, fits), words[n - 1], fits);
    PackSnoc(Kept(words, n - 1), words[n - 1], [SPACE], fits);
  }

  /**
   When no word of an over-limit text is itself over the limit, the chunks are an
   order-preserving grouping of its words, and no such grouping has fewer lines.
   */
  lemma {:induction false} SplitTextIsFewest(text: Text, limit: nat, b: Breaks)
    requires ByteLen(text) > limit && forall w :: w in WordsOf(text) ==> ByteLen(w) <= limit
    ensures var words := Kept(WordsOf(text), |WordsOf(text)|);
            && AllFit(words, limit)
            && SplitText(text, limit) == Lines(words, PackedBreaks(words, [SPACE], limit), [SPACE])
            && Grouping(Sizes(words), 1, limit, PackedBreaks(words, [SPACE], limit), |words|)
            && (Grouping(Sizes(words), 1, limit, b, |words|) ==> |SplitText(text, limit)| <= Count(b))
  {
    var words := Kept(WordsOf(text), |WordsOf(text)|);
    WordsArePacked(WordsOf(text), |WordsOf(text)|, Within(limit));
    KeptFit(WordsOf(text), |WordsOf(text)|, Within(limit));
    assert forall i :: 0 <= i < |words| ==> words[i] in words;
    PackedIsGrouping(words, [SPACE], limit);
    OneByteLen(SPACE);
    if Grouping(Sizes(words), 1, limit, b, |words|) {
      PackedIsFewest(words, [SPACE], limit, b);
    }
  }

  // ---------------------------------------------------------------- compact

  /** What `\s` and `str.strip` treat as blank. */
  predicate Blank(c: Char) {
    || 9 <= c <= 13 || 28 <= c <= 32 || c == 0x85 || c == 0xA0 || c == 0x1680 || 0x2000 <= c <= 0x200A
    || c == 0x2028 || c == 0x2029 || c == 0x202F || c == 0x205F || c == 0x3000
  }

  function LStrip(s: Text): Text { if s != [] && Blank(s[0]) then LStrip(s[1..]) else s }

  function RStrip(s: Text): (r: Text)
    ensures r <= s
  {
    if s != [] && Blank(s[|s| - 1]) then RStrip(s[..|s| - 1]) else s
  }

  /** Every run of blanks becomes one space. */
  function Collapse(s: Text): Text {
    if s == [] then []
    else
      var n := |s| - 1;
      if !Blank(s[n]) then Collapse(s[..n]) + [s[n]]
      else if n > 0 && Blank(s[n - 1]) then Collapse(s[..n])
      else Collapse(s[..n]) + [SPACE]
  }

  function Clean(line: Text): Text { RStrip(LStrip(Collapse(line))) }

  // ---------------------------------------------------------------- words of a line

  /** The runs of characters that are not blank, in order. */
  function Tokens(s: Text): seq<Text> {
    if s == [] then []
    else
      var n := |s| - 1;
      var before := Tokens(s[..n]);
      if Blank(s[n]) then before
      else if n == 0 || Blank(s[n - 1]) || before == [] then before + [[s[n]]]
      else Init(before) + [Last(before) + [s[n]]]
  }

  lemma {:induction false} JoinSnoc(parts: seq<Text>, x: Text, sep: Text)
    ensures Join(parts + [x], sep) == if parts == [] then x else Join(parts, sep) + sep + x
  {
    if parts != [] {
      hide Join;
      var part, rest := parts[0], parts[1..];
      assert parts == [part] + rest && parts + [x] == [part] + (rest + [x]);
      JoinSnoc(rest, x, sep);
      JoinCons(part, rest + [x], sep);
      if rest == [] {
        JoinOne(part, sep);
      } else {
        JoinCons(part, rest, sep);
        Regroup(part, sep, Join(rest, sep), x);
      }
    } else {
      assert parts + [x] == [x];
    }
  }

  lemma {:induction false} JoinOne(part: Text, sep: Text)
    ensures Join([part], sep) == part
  {}

  lemma {:induction false} Regroup(part: Text, sep: Text, joined: Text, x: Text)
    ensures part + sep + (joined + sep + x) == (part + sep + joined) + sep + x
  {}

  lemma {:induction false} JoinGrow(parts: seq<Text>, c: Char, sep: Text)
    requires parts != []
    ensures Join(Init(parts) + [Last(parts) + [c]], sep) == Join(parts, sep) + [c]
  {
    hide Join;
    assert parts == Init(parts) + [Last(parts)];
    JoinSnoc(Init(parts), Last(parts), sep);
    JoinSnoc(Init(parts), Last(parts) + [c], sep);
    if Init(parts) != [] {
      var a := Join(Init(parts), sep) + sep;
      assert a + (Last(parts) + [c]) == (a + Last(parts)) + [c];
    }
  }

  lemma {:induction false} LStripSnoc(s: Text, c: Char)
    ensures LStrip(s + [c]) == if LStrip(s) == [] then (if Blank(c) then [] else [c]) else LStrip(s) + [c]
  {
    if s == [] {
      assert s + [c] == [c] && [c][1..] == [];
    } else {
      assert (s + [c])[1..] == s[1..] + [c];
      if Blank(s[0]) { LStripSnoc(s[1..], c); }
    }
  }

  /** Every word ends in a character that is not blank, and there is one unless all are blank. */
  lemma {:induction false} TokensEnd(s: Text)
    ensures forall i :: 0 <= i < |Tokens(s)| ==> Tokens(s)[i] != [] && !Blank(Last(Tokens(s)[i]))
    ensures s != [] && !Blank(Last(s)) ==> Tokens(s) != []
  {
    if s != [] { TokensEnd(s[..|s| - 1]); }
  }

  /** A line that is collapsed and stripped on the left, as its words say. */
  predicate IsWords(s: Text) {
    LStrip(Collapse(s))
    == Join(Tokens(s), [SPACE]) + if s != [] && Blank(Last(s)) && Tokens(s) != [] then [SPACE] else []
  }

  lemma {:induction false} CollapseSnoc(t: Text, c: Char)
    ensures Collapse(t + [c]) == if !Blank(c) then Collapse(t) + [c]
                                 else if t != [] && Blank(Last(t)) then Collapse(t) else Collapse(t) + [SPACE]
    ensures Last(t + [c]) == c
  {
    hide Blank;
    var s := t + [c];
    assert s[..|t|] == t;
  }

  lemma {:induction false} TokensSnoc(t: Text, c: Char)
    ensures var words := Tokens(t);
            Tokens(t + [c]) == if Blank(c) then words
                               else if t == [] || Blank(Last(t)) || words == [] then words + [[c]]
                               else Init(words) + [Last(words) + [c]]
  {
    hide Blank;
    var s := t + [c];
    assert s[..|t|] == t;
  }

  lemma {:induction false} BlankNext(t: Text, c: Char)
    requires IsWords(t) && Blank(c) && (t != [] && !Blank(Last(t)) ==> Tokens(t) != [])
    requires Join(Tokens(t), [SPACE]) == [] <==> Tokens(t) == []
    ensures IsWords(t + [c])
  {
    assert Blank(SPACE);
    CollapseSnoc(t, c);
    TokensSnoc(t, c);
    LStripSnoc(Collapse(t), SPACE);
    hide LStrip, Join, Collapse, Tokens, Blank;
  }

  lemma {:induction false} WordNext(t: Text, c: Char)
    requires IsWords(t) && !Blank(c) && (t != [] && !Blank(Last(t)) ==> Tokens(t) != [])
    requires Join(Tokens(t), [SPACE]) == [] <==> Tokens(t) == []
    ensures IsWords(t + [c])
  {
    var words := Tokens(t);
    CollapseSnoc(t, c);
    TokensSnoc(t, c);
    LStripSnoc(Collapse(t), c);
    JoinSnoc(words, [c], [SPACE]);
    if words != [] { JoinGrow(words, c, [SPACE]); }
    hide LStrip, Join, Collapse, Tokens, Blank;
  }

  /** Collapsed and stripped on the left, a line is its words with a space between, and one more if it ends blank. */
  lemma {:induction false} CollapsedIsWords(s: Text)
    ensures IsWords(s)
  {
    if s != [] {
      var n := |s| - 1;
      var t, c := s[..n], s[n];
      CollapsedIsWords(t);
      TokensEnd(t);
      WordsEmpty(t);
      hide LStrip, Join, Blank, Collapse, Tokens;
      if Blank(c) { BlankNext(t, c); } else { WordNext(t, c); }
      assert t + [c] == s;
    }
  }

  lemma {:induction false} WordsEmpty(s: Text)
    ensures Join(Tokens(s), [SPACE]) == [] <==> Tokens(s) == []
  {
    TokensEnd(s);
    if Tokens(s) != [] {
      JoinEnds(Tokens(s));
    }
  }

  lemma {:induction false} JoinEnds(words: seq<Text>)
    requires words != [] && Last(words) != []
    ensures Join(words, [SPACE]) != [] && Last(Join(words, [SPACE])) == Last(Last(words))
  {
    assert words == Init(words) + [Last(words)];
    JoinSnoc(Init(words), Last(words), [SPACE]);
  }

  /** A cleaned line is its words with one space between each two. */
  lemma {:induction false} CleanIsWords(line: Text)
    ensures Clean(line) == Join(Tokens(line), [SPACE])
  {
    var words := Tokens(line);
    CollapsedIsWords(line);
    TokensEnd(line);
    assert Blank(SPACE);
    if words != [] {
      JoinEnds(words);
      var text := Join(words, [SPACE]);
      hide Join, Collapse, LStrip;
      assert RStrip(text) == text;
      assert (text + [SPACE])[..|text|] == text;
    }
  }

  /** The parts that the lines contribute, in order. */
  function Parts(lines: seq<Text>, n: nat, limit: nat): seq<Text>
    requires n <= |lines|
  {
    if n == 0 then []
    else if Clean(lines[n - 1]) == [] then Parts(lines, n - 1, limit)
    else Parts(lines, n - 1, limit) + SplitText(Clean(lines[n - 1]), limit)
  }

  function Compact(lines: seq<Text>, limit: nat): seq<Text> {
    Packed(Parts(lines, |lines|, limit), SEPARATOR, limit)
  }

  /** The inner loop: the parts of one line join the packing. */
  method PackMore(a: Acc, pieces: seq<Text>, sep: Text, fits: Text -> bool, ghost parts: seq<Text>) returns (b: Acc)
    requires a == Pack(parts, |parts|, sep, fits)
    ensures b == Pack(parts + pieces, |parts + pieces|, sep, fits)
  {
    var chunks, cur := a.chunks, a.cur;
    ghost var all := parts + pieces;
    PackPrefix(parts, all, |parts|, sep, fits);
    for j := 0 to |pieces|
      invariant Acc(chunks, cur) == Pack(all, |parts| + j, sep, fits)
    {
      assert all[|parts| + j] == pieces[j];
      var candidate := if cur == [] then pieces[j] else cur + sep + pieces[j];
      if fits(candidate) {
        cur := candidate;
      } else {
        if cur != [] {
          chunks := chunks + [cur];
        }
        cur := pieces[j];
      }
    }
    return Acc(chunks, cur);
  }

  method CompactLoop(lines: seq<Text>, limit: nat) returns (chunks: seq<Text>)
    ensures chunks == Compact(lines, limit)
  {
    var a := Acc([], []);
    ghost var parts: seq<Text> := [];
    for i := 0 to |lines|
      invariant parts == Parts(lines, i, limit)
      invariant a == Pack(parts, |parts|, SEPARATOR, Within(limit))
    {
      var text := Clean(lines[i]);
      if text != [] {
        var pieces := SplitTextLoop(text, limit);
        a := PackMore(a, pieces, SEPARATOR, Within(limit), parts);
        parts := parts + pieces;
      }
    }
    return Flush(a);
  }

  lemma {:induction false} CollapseKeeps(s: Text, c: Char)
    requires c != SPACE
    ensures c in Collapse(s) <==> c in s && !Blank(c)
  {
    if s != [] {
      var n := |s| - 1;
      CollapseKeeps(s[..n], c);
      assert s == s[..n] + [s[n]];
    }
  }

  lemma {:induction false} LStripKeeps(s: Text, c: Char)
    requires !Blank(c)
    ensures c in LStrip(s) <==> c in s
  {
    if s != [] && Blank(s[0]) {
      LStripKeeps(s[1..], c);
      assert s == [s[0]] + s[1..];
    }
  }

  lemma {:induction false} RStripKeeps(s: Text, c: Char)
    requires !Blank(c)
    ensures c in RStrip(s) <==> c in s
  {
    if s != [] && Blank(s[|s| - 1]) {
      var n := |s| - 1;
      RStripKeeps(s[..n], c);
      assert s == s[..n] + [s[n]];
    }
  }

  lemma {:induction false} LStripInside(s: Text, c: Char)
    ensures c in LStrip(s) ==> c in s
  {
    if s != [] && Blank(s[0]) { LStripInside(s[1..], c); }
  }

  /** Cleaning a line drops blanks and nothing else. */
  lemma {:induction false} CleanKeeps(line: Text, c: Char)
    ensures c in Clean(line) && c != SPACE <==> c in line && !Blank(c)
  {
    hide Collapse, LStrip, RStrip;
    var a := Collapse(line);
    var b := LStrip(a);
    if c != SPACE {
      CollapseKeeps(line, c);
      if Blank(c) {
        LStripInside(a, c);
      } else {
        LStripKeeps(a, c);
        RStripKeeps(b, c);
      }
    }
  }

  /** Every character of the lines that is not blank fits on a line of its own. */
  ghost predicate NarrowLines(lines: seq<Text>, n: nat, limit: nat)
    requires n <= |lines|
  {
    forall i, c :: 0 <= i < n && c in lines[i] && !Blank(c) ==> Width(c) <= limit
  }

  lemma {:induction false} CleanIsNarrow(line: Text, limit: nat)
    ensures Narrow(Clean(line), limit) <==> forall c :: c in line && !Blank(c) ==> Width(c) <= limit
  {
    hide Clean, Blank, Width;
    forall c ensures c in Clean(line) && c != SPACE <==> c in line && !Blank(c) {
      CleanKeeps(line, c);
    }
  }

  lemma {:induction false} AllFitAppend(a: seq<Text>, b: seq<Text>, limit: nat)
    requires AllFit(a, limit) && AllFit(b, limit)
    ensures AllFit(a + b, limit)
  {
    forall i | 0 <= i < |a + b| ensures Fit((a + b)[i], limit) {
      if i >= |a| { assert (a + b)[i] == b[i - |a|]; }
    }
  }

  lemma {:induction false} PartsFit(lines: seq<Text>, n: nat, limit: nat)
    requires n <= |lines| && NarrowLines(lines, n, limit)
    ensures AllFit(Parts(lines, n, limit), limit)
  {
    if n > 0 {
      PartsFit(lines, n - 1, limit);
      var text := Clean(lines[n - 1]);
      hide Clean, SplitText, Fit, Blank;
      CleanIsNarrow(lines[n - 1], limit);
      if text != [] {
        NarrowFits(text, limit);
        AllFitAppend(Parts(lines, n - 1, limit), SplitText(text, limit), limit);
      }
    }
  }

  lemma {:induction false} PartsGrow(lines: seq<Text>, m: nat, limit: nat)
    requires m < |lines|
    ensures var text := Clean(lines[m]);
            Parts(lines, m + 1, limit) == Parts(lines, m, limit) + if text == [] then [] else SplitText(text, limit)
  {
    hide Clean, SplitText;
  }

  /** Every character that is not blank is in some part. */
  lemma {:induction false} PartsShow(lines: seq<Text>, n: nat, limit: nat, i: nat, c: Char)
    requires i < n <= |lines| && c in lines[i] && !Blank(c)
    ensures c in Concat(Parts(lines, n, limit))
  {
    hide *;
    var m := n - 1;
    var text := Clean(lines[m]);
    var more := if text == [] then [] else SplitText(text, limit);
    PartsGrow(lines, m, limit);
    ConcatAppend(Parts(lines, m, limit), more);
    if i < m {
      PartsShow(lines, m, limit, i, c);
    } else {
      CleanKeeps(lines[m], c);
      SplitTextShows(text, limit);
    }
  }

  /** Whatever is packed comes out in some line. */
  lemma {:induction false} PackHolds(parts: seq<Text>, n: nat, sep: Text, fits: Text -> bool, c: Char)
    requires n <= |parts| && c in Concat(parts[..n])
    ensures c in Held(Pack(parts, n, sep, fits))
  {
    var m := n - 1;
    assert parts[..n] == parts[..m] + [parts[m]];
    ConcatSnoc(parts[..m], parts[m]);
    FlushHolds(Pack(parts, m, sep, fits));
    if c !in parts[m] { PackHolds(parts, m, sep, fits, c); }
  }

  /** The lines with something on them, each as its words, in order. */
  function Cleaned(lines: seq<Text>): seq<Text> {
    if lines == [] then []
    else
      var words := Tokens(Last(lines));
      Cleaned(Init(lines)) + if words == [] then [] else [Join(words, [SPACE])]
  }

  /** The splits of several texts, one after the other. */
  function SplitEach(texts: seq<Text>, limit: nat): seq<Text> {
    if texts == [] then [] else SplitEach(Init(texts), limit) + SplitText(Last(texts), limit)
  }

  lemma {:induction false} PartsAreSplits(lines: seq<Text>, n: nat, limit: nat)
    requires n <= |lines|
    ensures Parts(lines, n, limit) == SplitEach(Cleaned(lines[..n]), limit)
  {
    if n > 0 {
      var m := n - 1;
      var words := Tokens(lines[m]);
      PartsAreSplits(lines, m, limit);
      CleanIsWords(lines[m]);
      WordsEmpty(lines[m]);
      hide Clean, SplitText, Join, Tokens;
      PartsGrow(lines, m, limit);
      assert Init(lines[..n]) == lines[..m] && Last(lines[..n]) == lines[m];
      if words != [] {
        var before, text := Cleaned(lines[..m]), Join(words, [SPACE]);
        assert Init(before + [text]) == before && Last(before + [text]) == text;
      } else {
        assert Cleaned(lines[..m]) + [] == Cleaned(lines[..m]);
      }
    }
  }

  /**
   When every character fits, the messages are the splits of the lines, in order, packed into groups with the
   separator between the parts of a group.
   */
  lemma {:induction false} CompactInOrder(lines: seq<Text>, limit: nat)
    requires NarrowLines(lines, |lines|, limit)
    ensures var parts, bar := SplitEach(Cleaned(lines), limit), [32, 3, 49, 52, 124, 15, 32];
            && Grouping(Sizes(parts), ByteLen(bar), limit, PackedBreaks(parts, bar, limit), |parts|)
            && Compact(lines, limit) == Lines(parts, PackedBreaks(parts, bar, limit), bar)
  {
    assert lines[..|lines|] == lines;
    PartsAreSplits(lines, |lines|, limit);
    PartsFit(lines, |lines|, limit);
    hide Parts, SplitEach, Cleaned, NarrowLines;
    PackedIsGrouping(Parts(lines, |lines|, limit), SEPARATOR, limit);
  }

  /** For all lines and limits: every message fits and is non-empty exactly when every character fits. */
  lemma {:induction false} CompactFits(lines: seq<Text>, limit: nat)
    ensures AllFit(Compact(lines, limit), limit) <==> NarrowLines(lines, |lines|, limit)
  {
    var parts := Parts(lines, |lines|, limit);
    if NarrowLines(lines, |lines|, limit) {
      PartsFit(lines, |lines|, limit);
      PackedFits(parts, SEPARATOR, limit);
    } else if AllFit(Compact(lines, limit), limit) {
      forall i, c | 0 <= i < |lines| && c in lines[i] && !Blank(c) ensures Width(c) <= limit {
        PartsShow(lines, |lines|, limit, i, c);
        ChunkHasRoom(parts, limit, c);
      }
    }
  }

  lemma {:induction false} ChunkHasRoom(parts: seq<Text>, limit: nat, c: Char)
    requires c in Concat(parts) && AllFit(Packed(parts, SEPARATOR, limit), limit)
    ensures Width(c) <= limit
  {
    assert parts[..|parts|] == parts;
    PackHolds(parts, |parts|, SEPARATOR, Within(limit), c);
    FlushHolds(Pack(parts, |parts|, SEPARATOR, Within(limit)));
    hide Pack, Flush, ByteLen;
    var chunks := Packed(parts, SEPARATOR, limit);
    var i := InsideConcat(chunks, c);
    WidthInside(chunks[i], c);
  }

  /** The same on the bytes that are sent. */
  lemma {:induction false} CompactBytesFit(lines: seq<Text>, limit: nat)
    ensures (forall i :: 0 <= i < |Compact(lines, limit)| ==>
               Compact(lines, limit)[i] != [] && |Encode(Compact(lines, limit)[i])| <= limit)
       <==> (forall i, c :: 0 <= i < |lines| && c in lines[i] && !Blank(c) ==> |EncodeChar(c)| <= limit)
  {
    hide Compact, Encode, EncodeChar, ByteLen, Width, Blank;
    var chunks := Compact(lines, limit);
    CompactFits(lines, limit);
    forall i | 0 <= i < |chunks| ensures Fit(chunks[i], limit) <==> chunks[i] != [] && |Encode(chunks[i])| <= limit {
      ByteLenIsBytes(chunks[i]);
    }
    forall c: Char ensures Width(c) == |EncodeChar(c)| { WidthIsBytes(c); }
  }

  /** The parts cannot be sent in fewer messages. */
  lemma {:induction false} CompactIsFewest(lines: seq<Text>, limit: nat, b: Breaks)
    requires NarrowLines(lines, |lines|, limit)
    requires var parts := Parts(lines, |lines|, limit);
             Grouping(Sizes(parts), ByteLen(SEPARATOR), limit, b, |parts|)
    ensures |Compact(lines, limit)| <= Count(b)
  {
    PartsFit(lines, |lines|, limit);
    PackedIsFewest(Parts(lines, |lines|, limit), SEPARATOR, limit, b);
  }

  // ---------------------------------------------------------------- channel_say

  /** A capped text is the start of the original, right-stripped, with an ellipsis. */
  ghost predicate Shortened(capped: Text, text: Text) {
    exists k :: 0 <= k <= |text| && capped == RStrip(text[..k]) + [0x2026]
  }

  /** The text before the last turn was still too long, and that turn took eight characters off its end. */
  ghost predicate JustFits(capped: Text, text: Text) {
    exists last: Text :: && (last == text || Shortened(last, text)) && |Encode(last)| > 360 && |last| > 8
                         && capped == RStrip(last[..|last| - 8]) + [0x2026]
  }

  /**
   The cap loop.  It ends because a text over 360 bytes has at least 91 characters, so each
   turn removes at least eight and adds one.
   */
  method ChannelSay(raw: Text) returns (said: Option<Text>)
    ensures said.None? <==> RStrip(LStrip(raw)) == []
    ensures said.Some? ==> said.value != [] && |Encode(said.value)| <= 360
    ensures var text := RStrip(LStrip(raw));
            said.Some? ==>
              if |Encode(text)| <= 360 then said.value == text
              else Shortened(said.value, text) && JustFits(said.value, text)
  {
    hide Encode, ByteLen, RStrip, LStrip;
    var text := RStrip(LStrip(raw));
    if text == [] {
      return None;
    }
    ghost var first := text;
    ByteLenIsBytes(first);
    while ByteLen(text) > MAX_MESSAGE_TEXT_BYTES
      invariant text != []
      invariant text == first || (|Encode(first)| > 360 && Shortened(text, first) && JustFits(text, first))
      decreases |text|
    {
      ByteLenBounds(text);
      ByteLenIsBytes(text);
      var keep := if |text| - 8 > 1 then |text| - 8 else 1;
      ShortenAgain(text, first, keep);
      text := RStrip(text[..keep]) + [ELLIPSIS];
    }
    ByteLenIsBytes(text);
    return Some(text);
  }

  lemma {:induction false} ShortenAgain(text: Text, first: Text, keep: nat)
    requires keep < |text| && (text == first || Shortened(text, first))
    ensures Shortened(RStrip(text[..keep]) + [ELLIPSIS], first)
  {
    if text != first {
      var k :| 0 <= k <= |first| && text == RStrip(first[..k]) + [ELLIPSIS];
      var front := RStrip(first[..k]);
      assert text[..keep] == front[..keep] == first[..keep];
    }
  }

  /** Taking off the last eight characters of what was shortened leaves a start of the original. */
  lemma {:induction false} ShortenedStart(last: Text, text: Text, k: nat)
    requires (last == text || Shortened(last, text)) && k < |last|
    ensures k <= |text| && last[..k] == text[..k]
  {
    if last != text {
      var j :| 0 <= j <= |text| && last == RStrip(text[..j]) + [ELLIPSIS];
      var front := RStrip(text[..j]);
      hide RStrip;
      assert last[..k] == front[..k] == text[..k];
    }
  }

  /** Eight characters are at most thirty-two bytes. */
  lemma {:induction false} EightOff(last: Text)
    requires |last| > 8 && |Encode(last)| > 360
    ensures |Encode(last[..|last| - 8])| >= 329
  {
    hide Encode, ByteLen;
    var k := |last| - 8;
    var head, tail := last[..k], last[k..];
    assert last == head + tail;
    ByteLenAppend(head, tail);
    ByteLenBounds(tail);
    ByteLenIsBytes(last);
    ByteLenIsBytes(head);
  }

  /** So a capped text keeps a start of the original of at least 329 bytes, blanks at its end aside. */
  lemma {:induction false} CapKeepsMost(capped: Text, text: Text) returns (k: nat)
    requires JustFits(capped, text)
    ensures k <= |text| && capped == RStrip(text[..k]) + [ELLIPSIS] && |Encode(text[..k])| >= 329
  {
    var last: Text :| && (last == text || Shortened(last, text)) && |Encode(last)| > 360 && |last| > 8
                      && capped == RStrip(last[..|last| - 8]) + [ELLIPSIS];
    hide *;
    k := |last| - 8;
    ShortenedStart(last, text, k);
    EightOff(last);
  }
}
