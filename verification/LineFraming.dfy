/** `LineFramer` of tools/bench_live.py: CRLF framing of a byte stream cut into reads. */
module LineFraming {
  import opened Splitting

  const CRLF := "\r\n"
  const MAX_BUFFER := 65536
  const MAX_LINE := 16384
  const READ_SIZE := 32768

  datatype Fed = Lines(lines: seq<string>) | BufferOverrun | LineOverrun

  predicate Fits(lines: seq<string>) {
    forall i :: 0 <= i < |lines| ==> |lines[i]| <= MAX_LINE
  }

  function Feed(pending: string, chunk: string): Fed {
    var pieces := Split(pending + chunk, CRLF);
    if |pending + chunk| > MAX_BUFFER then BufferOverrun
    else if !Fits(Init(pieces)) || |Last(pieces)| > MAX_LINE then LineOverrun
    else Lines(Init(pieces))
  }

  /** What `pending` holds afterwards, also when the call raises. */
  function Pending(pending: string, chunk: string): string {
    if |pending + chunk| > MAX_BUFFER then pending + chunk else Last(Split(pending + chunk, CRLF))
  }

  class LineFramer {
    var pending: string

    constructor ()
      ensures pending == ""
    {
      pending := "";
    }

    method FeedChunk(chunk: string) returns (fed: Fed)
      modifies this
      ensures fed == Feed(old(pending), chunk)
      ensures pending == Pending(old(pending), chunk)
    {
      pending := pending + chunk;
      if |pending| > MAX_BUFFER {
        return BufferOverrun;
      }
      var lines := Split(pending, CRLF);
      pending := Last(lines);
      lines := Init(lines);
      if !Fits(lines) || |pending| > MAX_LINE {
        return LineOverrun;
      }
      return Lines(lines);
    }
  }

  /** A raising call keeps what it could not frame: the whole buffer, or the unfinished rest of it. */
  lemma {:induction false} PendingIsRest(pending: string, chunk: string)
    ensures |pending| + |chunk| > 65536
        ==> Feed(pending, chunk) == BufferOverrun && Pending(pending, chunk) == pending + chunk
    ensures |pending| + |chunk| <= 65536
        ==> var pieces := Split(pending + chunk, CRLF);
            Join(Init(pieces) + [Pending(pending, chunk)], CRLF) == pending + chunk
  {
    var pieces := Split(pending + chunk, CRLF);
    JoinOfSplit(pending + chunk, CRLF);
    assert pieces == Init(pieces) + [Last(pieces)];
  }

  datatype Framing = Framed(lines: seq<string>, pending: string) | Raised

  /** A fresh framer fed every chunk in turn. */
  function FeedAll(chunks: seq<string>): Framing {
    if chunks == [] then Framed([], "")
    else
      match FeedAll(Init(chunks))
      case Raised => Raised
      case Framed(lines, pending) =>
        match Feed(pending, Last(chunks))
        case Lines(more) => Framed(lines + more, Pending(pending, Last(chunks)))
        case _ => Raised
  }

  /** What a reader could see: the complete lines and the unfinished rest of the whole stream. */
  lemma {:induction false} FramedIsSplit(chunks: seq<string>)
    requires FeedAll(chunks).Framed?
    ensures FeedAll(chunks).lines + [FeedAll(chunks).pending] == Split(Concat(chunks), CRLF)
  {
    if chunks == [] {
      FindNone("", CRLF);
    } else {
      FramedIsSplit(Init(chunks));
      var before := FeedAll(Init(chunks));
      SplitAccumulates(before.lines, before.pending, Concat(Init(chunks)), Last(chunks), CRLF);
      InitLast(before.lines, Split(before.pending + Last(chunks), CRLF));
    }
  }

  lemma {:induction false} InitLast(lines: seq<string>, t: seq<string>)
    requires t != []
    ensures lines + t == (lines + Init(t)) + [Last(t)]
  {}

  /** However a stream is cut, two framers that do not raise agree on every line and on the rest. */
  lemma {:induction false} CutsDoNotMatter(a: seq<string>, b: seq<string>)
    requires Concat(a) == Concat(b) && FeedAll(a).Framed? && FeedAll(b).Framed?
    ensures FeedAll(a) == FeedAll(b)
  {
    FramedIsSplit(a);
    FramedIsSplit(b);
    var x, y := FeedAll(a), FeedAll(b);
    var s := x.lines + [x.pending];
    assert s[..|s| - 1] == x.lines && s[|s| - 1] == x.pending;
    var t := y.lines + [y.pending];
    assert t[..|t| - 1] == y.lines && t[|t| - 1] == y.pending;
  }

  // ---------------------------------------------------------------- when a chunking raises

  predicate Reads(chunks: seq<string>) {
    forall i :: 0 <= i < |chunks| ==> |chunks[i]| <= READ_SIZE
  }

  /** At every read boundary the unfinished piece is short enough. */
  predicate CutsFit(chunks: seq<string>) {
    chunks == [] || (CutsFit(Init(chunks)) && |Last(Split(Concat(chunks), CRLF))| <= 16384)
  }

  /** No read makes the buffer too long: what was unfinished before it, and the read itself. */
  predicate BuffersFit(chunks: seq<string>) {
    || chunks == []
    || (BuffersFit(Init(chunks)) && |Last(Split(Concat(Init(chunks)), CRLF))| + |Last(chunks)| <= 65536)
  }

  /** Every finished line of the stream is short enough. */
  predicate LinesFit(stream: string) {
    var lines := Init(Split(stream, CRLF));
    forall i :: 0 <= i < |lines| ==> |lines[i]| <= 16384
  }

  lemma {:induction false} FitsAppend(a: seq<string>, b: seq<string>)
    ensures Fits(a + b) <==> Fits(a) && Fits(b)
  {
    if Fits(a + b) {
      forall i | 0 <= i < |a| ensures |a[i]| <= MAX_LINE { assert (a + b)[i] == a[i]; }
      forall i | 0 <= i < |b| ensures |b[i]| <= MAX_LINE { assert (a + b)[|a| + i] == b[i]; }
    }
  }

  lemma {:induction false} FeedExactly(pending: string, chunk: string)
    ensures var pieces := Split(pending + chunk, CRLF);
            && (Feed(pending, chunk).Lines?
                <==> |pending| + |chunk| <= 65536 && Fits(Init(pieces)) && |Last(pieces)| <= 16384)
            && (Feed(pending, chunk).Lines? ==> Pending(pending, chunk) == Last(pieces))
  {
    hide Split, Fits;
  }

  lemma {:induction false} LinesFitIs(stream: string)
    ensures LinesFit(stream) <==> Fits(Init(Split(stream, CRLF)))
  {
    hide Split;
  }

  lemma {:induction false} FeedLast(chunks: seq<string>)
    requires chunks != []
    ensures var before, chunk := FeedAll(Init(chunks)), Last(chunks);
            && (FeedAll(chunks).Framed? <==> before.Framed? && Feed(before.pending, chunk).Lines?)
            && (FeedAll(chunks).Framed? ==> FeedAll(chunks).pending == Pending(before.pending, chunk))
  {
    hide Feed, Pending;
  }

  /** What is pending is the last piece of what has been read. */
  lemma {:induction false} PendingIsLast(chunks: seq<string>)
    requires FeedAll(chunks).Framed?
    ensures FeedAll(chunks).pending == Last(Split(Concat(chunks), CRLF))
  {
    var x := FeedAll(chunks);
    FramedIsSplit(chunks);
    hide FeedAll, Split, Concat;
    assert (x.lines + [x.pending])[|x.lines|] == x.pending;
  }

  lemma {:induction false} FitLast(chunks: seq<string>)
    requires chunks != []
    ensures CutsFit(chunks) <==> CutsFit(Init(chunks)) && |Last(Split(Concat(chunks), CRLF))| <= 16384
    ensures BuffersFit(chunks)
       <==> BuffersFit(Init(chunks)) && |Last(Split(Concat(Init(chunks)), CRLF))| + |Last(chunks)| <= 65536
    ensures Concat(chunks) == Concat(Init(chunks)) + Last(chunks)
  {
    hide Split;
  }

  /**
   Feeding raises exactly when a read makes the buffer longer than 65536 bytes, a finished line
   is over 16384 bytes, or a read boundary leaves more than that unfinished.
   */
  lemma {:induction false} RaisesExactly(chunks: seq<string>)
    ensures FeedAll(chunks).Framed? <==> LinesFit(Concat(chunks)) && CutsFit(chunks) && BuffersFit(chunks)
    ensures FeedAll(chunks).Framed? ==> |FeedAll(chunks).pending| <= 16384
  {
    if chunks == [] {
      FindNone("", CRLF);
    } else {
      var front, chunk := Init(chunks), Last(chunks);
      hide *;
      RaisesExactly(front);
      RestartFits(Concat(front), chunk);
      FeedLast(chunks);
      FitLast(chunks);
      LinesFitIs(Concat(front));
      LinesFitIs(Concat(chunks));
      if FeedAll(front).Framed? {
        PendingIsLast(front);
        FeedExactly(FeedAll(front).pending, chunk);
      }
    }
  }

  /** Reads of at most 32768 bytes never make the buffer too long. */
  lemma {:induction false} ReadsNeverOverrun(chunks: seq<string>)
    requires Reads(chunks) && CutsFit(chunks)
    ensures BuffersFit(chunks)
  {
    if chunks != [] {
      ReadsNeverOverrun(Init(chunks));
      if |chunks| == 1 { FindNone("", CRLF); }
    }
  }

  lemma {:induction false} RestartFits(a: string, b: string)
    ensures var s := Split(a, CRLF);
            var t := Split(Last(s) + b, CRLF);
            && (Fits(Init(Split(a + b, CRLF))) <==> Fits(Init(s)) && Fits(Init(t)))
            && Last(Split(a + b, CRLF)) == Last(t)
  {
    var s := Split(a, CRLF);
    var t := Split(Last(s) + b, CRLF);
    SplitResumes(a, b, CRLF);
    assert Init(Init(s) + t) == Init(s) + Init(t);
    FitsAppend(Init(s), Init(t));
  }

  /** The unfinished piece at a cut is at most one byte longer than the line it grows into. */
  lemma {:induction false} UnfinishedIsShort(a: string, b: string, limit: nat)
    requires forall i :: 0 <= i < |Split(a + b, CRLF)| ==> |Split(a + b, CRLF)[i]| <= limit
    ensures |Last(Split(a, CRLF))| <= limit + 1
  {
    var s := Split(a, CRLF);
    var whole := Last(s) + b;
    var t := Split(whole, CRLF);
    SplitResumes(a, b, CRLF);
    assert Split(a + b, CRLF)[|s| - 1] == t[0];
    LastHasNone(a, CRLF);
    FindFromFirst(Last(s), CRLF, 0);
    var k := Find(whole, CRLF);
    if k >= 0 && k + 2 <= |Last(s)| {
      AtInside(Last(s), b, CRLF, k);
    }
  }

  lemma {:induction false} ShortLinesFit(chunks: seq<string>, rest: string)
    requires forall i :: 0 <= i < |Split(Concat(chunks) + rest, CRLF)| ==>
        |Split(Concat(chunks) + rest, CRLF)[i]| < MAX_LINE
    ensures CutsFit(chunks)
  {
    if chunks != [] {
      assert Concat(chunks) + rest == Concat(Init(chunks)) + (Last(chunks) + rest);
      ShortLinesFit(Init(chunks), Last(chunks) + rest);
      UnfinishedIsShort(Concat(chunks), rest, MAX_LINE - 1);
    }
  }

  /** With every line under the limit by one byte, no chunking of the stream raises. */
  lemma {:induction false} ShortLinesNeverRaise(chunks: seq<string>)
    requires Reads(chunks)
    requires forall i :: 0 <= i < |Split(Concat(chunks), CRLF)| ==> |Split(Concat(chunks), CRLF)[i]| < MAX_LINE
    ensures FeedAll(chunks).Framed?
  {
    assert Concat(chunks) + "" == Concat(chunks);
    ShortLinesFit(chunks, "");
    ReadsNeverOverrun(chunks);
    RaisesExactly(chunks);
  }

  lemma {:induction false} LineThenCrlf(x: string, tail: string)
    requires '\r' !in x && (tail == "" || tail == "\n")
    ensures Split(x + "\r" + tail, CRLF) == if tail == "\n" then [x, ""] else [x + "\r"]
  {
    var s := x + "\r" + tail;
    forall p: nat | p < |x| ensures !At(s, CRLF, p) {
      assert s[p] == x[p];
      AtFirst(s, CRLF, p);
    }
    if tail == "\n" {
      assert s[|x|..|x| + |CRLF|] == CRLF;
      FindIs(s, CRLF, |x|);
      assert s[..|x|] == x && s[|x| + |CRLF|..] == "";
      FindNone("", CRLF);
    } else {
      FindNone(s, CRLF);
      assert x + "\r" + "" == x + "\r";
    }
  }

  lemma {:induction false} FeedOne(chunk: string)
    ensures var fed := Feed("", chunk);
            FeedAll([chunk]) == if fed.Lines? then Framed(fed.lines, Pending("", chunk)) else Raised
  {
    assert Init([chunk]) == [];
    assert FeedAll([]) == Framed([], "");
    if Feed("", chunk).Lines? { assert [] + Feed("", chunk).lines == Feed("", chunk).lines; }
  }

  lemma {:induction false} WholeLinePasses(x: string)
    requires |x| == MAX_LINE && '\r' !in x
    ensures FeedAll([x + CRLF]) == Framed([x], "")
  {
    FeedOne(x + CRLF);
    LineThenCrlf(x, "\n");
    assert "" + (x + CRLF) == x + "\r" + "\n" && Init([x, ""]) == [x];
  }

  lemma {:induction false} PartLineRaises(x: string)
    requires |x| == MAX_LINE && '\r' !in x
    ensures FeedAll([x + "\r"]) == Raised
  {
    FeedOne(x + "\r");
    LineThenCrlf(x, "");
    assert "" + (x + "\r") == x + "\r" + "";
  }

  /** The one-byte margin is needed: a line of exactly 16384 bytes passes whole and raises when cut inside its CRLF. */
  lemma {:induction false} CutInsideCrlfRaises(x: string)
    requires |x| == MAX_LINE && '\r' !in x
    ensures FeedAll([x + CRLF]) == Framed([x], "") && FeedAll([x + "\r", "\n"]) == Raised
  {
    WholeLinePasses(x);
    PartLineRaises(x);
    assert Init([x + "\r", "\n"]) == [x + "\r"];
  }
}
