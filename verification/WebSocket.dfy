/**
 The WebSocket half of `Client` in tools/openbsd_runtime_smoke.py: an incremental reader of
 unmasked server frames (sections 5.2 to 5.5 of RFC 6455) that answers pings, and the
 masked frames it sends.
 */
module WebSocket {
  import opened Options
  import opened Splitting
  import opened Xors

  const MAX_MESSAGE := 0x10_0000

  // ---------------------------------------------------------------- one frame

  datatype Error =
    | MaskedFrame | OversizeFrame | NestedText | OrphanContinuation | OversizeMessage
    | BinaryFrame | CloseFrame | NotUtf8 | PongTooLarge

  datatype Head = Short | BadHead(error: Error) | Head(final: bool, opcode: nat, offset: nat, length: nat)

  /** A big-endian unsigned integer. */
  function BigEndian(s: seq<byte>): nat {
    if s == [] then 0 else 256 * BigEndian(s[..|s| - 1]) + s[|s| - 1]
  }

  /** The high byte comes first. */
  lemma {:induction false} HighByteFirst(high: byte, low: byte)
    ensures BigEndian([high, low]) == 256 * high + low
  {
    assert [high, low][..1] == [high] && [high][..0] == [];
    assert BigEndian([high]) == high;
  }

  function SizedHead(w: seq<byte>, offset: nat, length: nat): Head
    requires |w| >= 2
  {
    if w[1] >= 128 then BadHead(MaskedFrame)
    else if length > MAX_MESSAGE then BadHead(OversizeFrame)
    else Head(w[0] >= 128, w[0] % 16, offset, length)
  }

  function ReadHead(w: seq<byte>): Head {
    if |w| < 2 then Short
    else
      var length := w[1] % 128;
      if length == 126 then
        if |w| < 4 then Short else SizedHead(w, 4, BigEndian(w[2..4]))
      else if length == 127 then
        if |w| < 10 then Short else SizedHead(w, 10, BigEndian(w[2..10]))
      else SizedHead(w, 2, length)
  }

  datatype Taken = NeedMore | BadFrame(error: Error) | Taken(final: bool, opcode: nat, payload: seq<byte>, size: nat)

  /** The first frame of the buffered bytes, if it is complete. */
  function Take(w: seq<byte>): (t: Taken)
    ensures t.Taken? ==> 2 <= t.size <= |w|
  {
    match ReadHead(w)
    case Short => NeedMore
    case BadHead(e) => BadFrame(e)
    case Head(final, opcode, offset, length) =>
      if |w| < offset + length then NeedMore
      else Taken(final, opcode, w[offset..offset + length], offset + length)
  }

  lemma {:induction false} ReadHeadStable(w: seq<byte>, more: seq<byte>)
    requires !ReadHead(w).Short?
    ensures ReadHead(w + more) == ReadHead(w)
  {
    var v := w + more;
    assert v[0] == w[0] && v[1] == w[1];
    if w[1] % 128 == 126 { assert v[2..4] == w[2..4]; }
    if w[1] % 128 == 127 { assert v[2..10] == w[2..10]; }
  }

  /** A frame that can be judged is judged the same whatever arrives after it. */
  lemma {:induction false} TakeStable(w: seq<byte>, more: seq<byte>)
    requires !Take(w).NeedMore?
    ensures Take(w + more) == Take(w)
  {
    ReadHeadStable(w, more);
    var t := Take(w);
    if t.Taken? {
      var h := ReadHead(w);
      assert (w + more)[h.offset..h.offset + h.length] == w[h.offset..h.offset + h.length];
    }
  }

  // ---------------------------------------------------------------- frames into messages

  datatype Effect =
    | Returns(payload: seq<byte>)
    | Holds(fragment: Option<seq<byte>>)
    | Pongs(payload: seq<byte>)
    | Fails(error: Error, fragment: Option<seq<byte>>)

  /** What `recv` does with one complete frame; `valid` is the UTF-8 check. */
  function Handle(valid: seq<byte> -> bool, final: bool, opcode: nat, payload: seq<byte>,
      fragment: Option<seq<byte>>): Effect {
    if opcode == 1 then
      if fragment.Some? then Fails(NestedText, fragment)
      else if !final then Holds(Some(payload))
      else if !valid(payload) then Fails(NotUtf8, None)
      else Returns(payload)
    else if opcode == 0 then
      if fragment.None? then Fails(OrphanContinuation, None)
      else
        var whole := fragment.value + payload;
        if |whole| > MAX_MESSAGE then Fails(OversizeMessage, Some(whole))
        else if !final then Holds(Some(whole))
        else if !valid(whole) then Fails(NotUtf8, None)
        else Returns(whole)
    else if opcode == 2 then Fails(BinaryFrame, fragment)
    else if opcode == 9 then
      if |payload| > 65535 then Fails(PongTooLarge, fragment) else Pongs(payload)
    else if opcode == 8 then Fails(CloseFrame, fragment)
    else Holds(fragment)
  }

  const CRLF: seq<byte> := [13, 10]

  datatype Result = Message(text: seq<byte>) | NoData | Failed(error: Error)

  datatype Outcome = Outcome(result: Result, rest: seq<byte>, fragment: Option<seq<byte>>, pongs: seq<seq<byte>>)

  /** One `recv` on a stream that is all there: the reference that no chunking enters. */
  function Receive(valid: seq<byte> -> bool, stream: seq<byte>, fragment: Option<seq<byte>>): (o: Outcome)
    ensures o.result.Message? ==> |o.rest| < |stream|
    decreases |stream|
  {
    match Take(stream)
    case NeedMore => Outcome(NoData, stream, fragment, [])
    case BadFrame(e) => Outcome(Failed(e), stream, fragment, [])
    case Taken(final, opcode, payload, size) =>
      var rest := stream[size..];
      match Handle(valid, final, opcode, payload, fragment)
      case Returns(text) => Outcome(Message(text + CRLF), rest, None, [])
      case Fails(e, f) => Outcome(Failed(e), rest, f, [])
      case Holds(f) => Receive(valid, rest, f)
      case Pongs(p) => After([p], Receive(valid, rest, fragment))
  }

  /** The same outcome with earlier pongs in front. */
  function After(pongs: seq<seq<byte>>, o: Outcome): Outcome { o.(pongs := pongs + o.pongs) }

  lemma {:induction false} AfterAfter(a: seq<seq<byte>>, b: seq<seq<byte>>, o: Outcome)
    ensures After(a, After(b, o)) == After(a + b, o) && After([], o) == o
  {
    assert a + (b + o.pongs) == (a + b) + o.pongs;
    assert [] + o.pongs == o.pongs;
  }

  /** All messages and pongs of a stream, until it runs out or fails. */
  function Drain(valid: seq<byte> -> bool, stream: seq<byte>,
      fragment: Option<seq<byte>>): (r: (seq<seq<byte>>, Outcome))
    decreases |stream|
  {
    var o := Receive(valid, stream, fragment);
    if !o.result.Message? then ([], o)
    else
      var (texts, last) := Drain(valid, o.rest, o.fragment);
      ([o.result.text] + texts, After(o.pongs, last))
  }

  // ---------------------------------------------------------------- the client

  /** The bytes that still come: an empty chunk means that the peer has closed. */
  function Arriving(chunks: seq<seq<byte>>): seq<byte> {
    if chunks == [] || chunks[0] == [] then [] else chunks[0] + Arriving(chunks[1..])
  }

  /** Chunks that all hold something arrive whole. */
  lemma {:induction false} ArrivesWhole(chunks: seq<seq<byte>>)
    requires [] !in chunks
    ensures Arriving(chunks) == Concat(chunks)
  {
    if chunks != [] {
      ArrivesWhole(chunks[1..]);
      assert chunks == [chunks[0]] + chunks[1..];
      ConcatAppend([chunks[0]], chunks[1..]);
      ConcatOne(chunks[0]);
    }
  }

  class Client {
    const valid: seq<byte> -> bool
    var wire: seq<byte>
    var fragment: Option<seq<byte>>
    /** Chunks the socket has not handed out yet. */
    var input: seq<seq<byte>>
    /** Payloads of the pong frames sent. */
    var pongs: seq<seq<byte>>
    /** The unfinished IRC line and the finished ones. */
    var irc: seq<byte>
    var seen: seq<seq<byte>>

    /** Every byte not yet consumed, buffered or still in the socket. */
    ghost function Stream(): seq<byte>
      reads this
    {
      wire + Arriving(input)
    }

    constructor (valid: seq<byte> -> bool, input: seq<seq<byte>>)
      ensures this.valid == valid && this.input == input && wire == [] && fragment == None && pongs == []
      ensures irc == [] && seen == []
    {
      this.valid, this.input := valid, input;
      wire, fragment, pongs, irc, seen := [], None, [], [], [];
    }

    /** One more chunk in the buffer; fails when nothing comes in time or the peer has closed. */
    method ReadWire() returns (ok: bool, closed: bool)
      modifies this`wire, this`input
      ensures ok <==> old(input) != [] && old(input)[0] != []
      ensures closed <==> old(input) != [] && old(input)[0] == []
      ensures Stream() == old(Stream())
      ensures if ok then wire == old(wire) + old(input)[0] && input == old(input)[1..]
              else wire == old(wire) && input == old(input) && Stream() == wire
    {
      if input == [] || input[0] == [] {
        return false, input != [];
      }
      assert wire + (input[0] + Arriving(input[1..])) == wire + input[0] + Arriving(input[1..]);
      wire, input := wire + input[0], input[1..];
      return true, false;
    }

    /** However the stream was cut, the outcome is that of the whole stream. */
    method Recv() returns (result: Result)
      modifies this`wire, this`input, this`fragment, this`pongs
      ensures old(pongs) <= pongs
      ensures Receive(valid, old(Stream()), old(fragment)) == Outcome(result, Stream(), fragment, pongs[|old(pongs)|..])
    {
      hide Take, Handle;
      ghost var goal, done: seq<seq<byte>> := Receive(valid, Stream(), fragment), [];
      AfterAfter([], [], goal);
      while true
        invariant goal == After(done, Receive(valid, Stream(), fragment))
        invariant pongs == old(pongs) + done
        decreases |Stream()|, |input|
      {
        var t := Take(wire);
        if t.NeedMore? {
          var ok, _ := ReadWire();
          if !ok {
            return NoData;
          }
          continue;
        }
        TakeStable(wire, Arriving(input));
        if t.BadFrame? {
          return Failed(t.error);
        }
        assert Stream()[t.size..] == wire[t.size..] + Arriving(input);
        wire := wire[t.size..];
        var effect := Handle(valid, t.final, t.opcode, t.payload, fragment);
        match effect
        case Returns(text) =>
          fragment := None;
          return Message(text + CRLF);
        case Fails(e, f) =>
          fragment := f;
          return Failed(e);
        case Holds(f) =>
          fragment := f;
        case Pongs(p) =>
          AfterAfter(done, [p], Receive(valid, Stream(), fragment));
          pongs, done := pongs + [p], done + [p];
      }
    }

    /** `recv` until it stops returning. */
    method RecvAll() returns (texts: seq<seq<byte>>, last: Result)
      modifies this
      decreases |Stream()|
      ensures texts == Drain(valid, old(Stream()), old(fragment)).0
      ensures old(pongs) <= pongs
      ensures Drain(valid, old(Stream()), old(fragment)).1 == Outcome(last, Stream(), fragment, pongs[|old(pongs)|..])
    {
      hide Receive;
      last := Recv();
      if !last.Message? {
        return [], last;
      }
      ghost var middle := pongs;
      var text := last.text;
      texts, last := RecvAll();
      texts := [text] + texts;
      assert pongs[|old(pongs)|..] == middle[|old(pongs)|..] + pongs[|middle|..];
    }

    /** What is unfinished has no line end in it. */
    predicate Valid() reads this { Find(irc, CRLF) < 0 }

    /** One message is received and its lines are added to those seen. */
    method Collect() returns (result: Result, lines: seq<seq<byte>>)
      requires Valid()
      modifies this
      ensures Valid()
      ensures old(pongs) <= pongs
      ensures Receive(valid, old(Stream()), old(fragment)) == Outcome(result, Stream(), fragment, pongs[|old(pongs)|..])
      ensures if result.Message? then seen + [irc] == old(seen) + Split(old(irc) + result.text, CRLF)
              else seen == old(seen) && irc == old(irc)
      ensures seen == old(seen) + lines
    {
      hide Split, Find, Receive;
      result := Recv();
      lines := [];
      if !result.Message? {
        return;
      }
      irc := irc + result.text;
      lines := Split(irc, CRLF);
      LastHasNone(irc, CRLF);
      irc := Last(lines);
      lines := Init(lines);
      seen := seen + lines;
    }

    /** `collect` until it raises: the lines are those of all messages together. */
    method CollectAll()
      requires Valid()
      modifies this
      ensures Valid()
      decreases |Stream()|
      ensures seen + [irc] == old(seen) + Split(old(irc) + Concat(Drain(valid, old(Stream()), old(fragment)).0), CRLF)
    {
      ghost var texts := Drain(valid, Stream(), fragment).0;
      var result, _ := Collect();
      if !result.Message? {
        assert irc + Concat(texts) == irc;
        return;
      }
      ghost var rest, mid, open := Drain(valid, Stream(), fragment).0, seen, irc;
      CollectAll();
      assert texts == [result.text] + rest;
      CollectResumes(old(seen), old(irc), result.text, rest, mid, open);
    }
  }

  lemma {:induction false} CollectResumes(
    seen: seq<seq<byte>>, irc: seq<byte>, text: seq<byte>, rest: seq<seq<byte>>, mid: seq<seq<byte>>, open: seq<byte>)
    requires mid + [open] == seen + Split(irc + text, CRLF)
    ensures mid + Split(open + Concat(rest), CRLF) == seen + Split(irc + Concat([text] + rest), CRLF)
  {
    hide Split, Concat;
    ConcatAppend([text], rest);
    ConcatOne(text);
    var pieces, more := Split(irc + text, CRLF), Concat(rest);
    assert irc + (text + more) == (irc + text) + more;
    SplitResumes(irc + text, more, CRLF);
    assert seen + pieces == (seen + Init(pieces)) + [Last(pieces)];
    SameEnds(mid, open, seen + Init(pieces), Last(pieces));
  }

  // ---------------------------------------------------------------- legal streams

  datatype Form = Seven | Sixteen | SixtyFour

  /** A server frame: the three reserved bits are carried but not looked at. */
  datatype Frame = Frame(final: bool, reserved: nat, opcode: nat, form: Form, payload: seq<byte>)

  ghost predicate WellFormed(f: Frame) {
    && f.reserved < 8 && f.opcode < 16 && |f.payload| <= MAX_MESSAGE
    && (f.form == Seven ==> |f.payload| < 126)
    && (f.form == Sixteen ==> |f.payload| < 65536)
  }

  function ToBigEndian(n: nat, k: nat): (s: seq<byte>)
    ensures |s| == k
  {
    if k == 0 then [] else ToBigEndian(n / 256, k - 1) + [n % 256]
  }

  lemma {:induction false} BigEndianRoundTrip(n: nat, k: nat)
    requires n < Pow256(k)
    ensures BigEndian(ToBigEndian(n, k)) == n
  {
    if k > 0 {
      BigEndianRoundTrip(n / 256, k - 1);
      assert ToBigEndian(n, k)[..k - 1] == ToBigEndian(n / 256, k - 1);
    }
  }

  ghost function LengthBytes(f: Frame): seq<byte>
    requires WellFormed(f)
  {
    match f.form
    case Seven => [|f.payload|]
    case Sixteen => [126] + ToBigEndian(|f.payload|, 2)
    case SixtyFour => [127] + ToBigEndian(|f.payload|, 8)
  }

  ghost function FirstByte(f: Frame): byte
    requires WellFormed(f)
  {
    (if f.final then 128 else 0) + 16 * f.reserved + f.opcode
  }

  ghost function Encode(f: Frame): seq<byte>
    requires WellFormed(f)
  {
    [FirstByte(f)] + LengthBytes(f) + f.payload
  }

  ghost function EncodeAll(frames: seq<Frame>): seq<byte>
    requires forall f :: f in frames ==> WellFormed(f)
  {
    if frames == [] then [] else Encode(frames[0]) + EncodeAll(frames[1..])
  }

  lemma {:induction false} PowersOf256()
    ensures Pow256(2) == 65536 && Pow256(8) > MAX_MESSAGE
  {
    assert Pow256(1) == 256 && Pow256(2) == 65536 && Pow256(3) == 0x100_0000;
    assert Pow256(4) == 256 * Pow256(3) && Pow256(5) == 256 * Pow256(4) && Pow256(6) == 256 * Pow256(5);
    assert Pow256(7) == 256 * Pow256(6) && Pow256(8) == 256 * Pow256(7);
  }

  lemma {:induction false} HeadOfEncode(f: Frame, more: seq<byte>)
    requires WellFormed(f)
    ensures ReadHead(Encode(f) + more) == Head(f.final, f.opcode, 1 + |LengthBytes(f)|, |f.payload|)
  {
    var w := Encode(f) + more;
    var size := LengthBytes(f);
    assert w == [FirstByte(f)] + size + (f.payload + more);
    FirstByteParts(f);
    LengthReads(f);
    assert w[0] == FirstByte(f) && w[1] == size[0];
    if f.form == Sixteen { assert w[2..4] == size[1..]; }
    if f.form == SixtyFour { assert w[2..10] == size[1..]; }
  }

  lemma {:induction false} FirstByteParts(f: Frame)
    requires WellFormed(f)
    ensures FirstByte(f) >= 128 <==> f.final
    ensures FirstByte(f) % 16 == f.opcode
  {}

  lemma {:induction false} LengthReads(f: Frame)
    requires WellFormed(f)
    ensures var size, n := LengthBytes(f), |f.payload|;
            && size[0] < 128
            && (f.form == Seven ==> |size| == 1 && size[0] == n)
            && (f.form == Sixteen ==> |size| == 3 && size[0] == 126 && BigEndian(size[1..]) == n)
            && (f.form == SixtyFour ==> |size| == 9 && size[0] == 127 && BigEndian(size[1..]) == n)
  {
    var size, n := LengthBytes(f), |f.payload|;
    PowersOf256();
    if f.form == Sixteen {
      assert size[1..] == ToBigEndian(n, 2);
      BigEndianRoundTrip(n, 2);
    } else if f.form == SixtyFour {
      assert size[1..] == ToBigEndian(n, 8);
      BigEndianRoundTrip(n, 8);
    }
  }

  lemma {:induction false} TakeEncoded(f: Frame, more: seq<byte>)
    requires WellFormed(f)
    ensures Take(Encode(f) + more) == Taken(f.final, f.opcode, f.payload, |Encode(f)|)
    ensures (Encode(f) + more)[|Encode(f)|..] == more
  {
    HeadOfEncode(f, more);
    var offset := 1 + |LengthBytes(f)|;
    assert (Encode(f) + more)[offset..offset + |f.payload|] == f.payload;
  }

  /** A stream a server may send: text messages, whole or in fragments, with pings and pongs anywhere. */
  ghost predicate Legal(valid: seq<byte> -> bool, frames: seq<Frame>, open: Option<seq<byte>>): (legal: bool)
    ensures legal ==> forall f :: f in frames ==> WellFormed(f)
  {
    if frames == [] then true
    else
      var f, rest := frames[0], frames[1..];
      && WellFormed(f)
      && match f.opcode
         case 1 => open.None? && if f.final then valid(f.payload)
           && Legal(valid, rest, None) else Legal(valid, rest, Some(f.payload))
         case 0 =>
           && open.Some? && |open.value + f.payload| <= MAX_MESSAGE
           && if f.final then valid(open.value + f.payload)
             && Legal(valid, rest, None) else Legal(valid, rest, Some(open.value + f.payload))
         case 9 => |f.payload| <= 125 && Legal(valid, rest, open)
         case 10 => |f.payload| <= 125 && Legal(valid, rest, open)
         case _ => false
  }

  /** The complete messages a legal stream spells. */
  ghost function Texts(frames: seq<Frame>, open: Option<seq<byte>>): seq<seq<byte>> {
    if frames == [] then []
    else
      var f, rest := frames[0], frames[1..];
      var whole := if f.opcode == 0 && open.Some? then open.value + f.payload else f.payload;
      if f.opcode > 1 then Texts(rest, open)
      else if f.final then [whole] + Texts(rest, None)
      else Texts(rest, Some(whole))
  }

  /** The payloads of its pings. */
  ghost function Pings(frames: seq<Frame>): seq<seq<byte>> {
    if frames == [] then []
    else (if frames[0].opcode == 9 then [frames[0].payload] else []) + Pings(frames[1..])
  }

  ghost function WithCrlf(texts: seq<seq<byte>>): seq<seq<byte>> {
    if texts == [] then [] else [texts[0] + CRLF] + WithCrlf(texts[1..])
  }

  /** Draining a stream whose first frame completes a message. */
  lemma {:induction false} DrainReturns(valid: seq<byte> -> bool, f: Frame, more: seq<byte>,
      fragment: Option<seq<byte>>)
    requires WellFormed(f) && Handle(valid, f.final, f.opcode, f.payload, fragment).Returns?
    ensures Drain(valid, Encode(f) + more, fragment) ==
            ([Handle(valid, f.final, f.opcode, f.payload, fragment).payload + CRLF] + Drain(valid, more, None).0,
              Drain(valid, more, None).1)
  {
    TakeEncoded(f, more);
    AfterAfter([], [], Drain(valid, more, None).1);
  }

  lemma {:induction false} DrainHolds(valid: seq<byte> -> bool, f: Frame, more: seq<byte>, fragment: Option<seq<byte>>)
    requires WellFormed(f) && Handle(valid, f.final, f.opcode, f.payload, fragment).Holds?
    ensures Drain(valid, Encode(f) + more, fragment) ==
            Drain(valid, more, Handle(valid, f.final, f.opcode, f.payload, fragment).fragment)
  {
    TakeEncoded(f, more);
  }

  lemma {:induction false} DrainPongs(valid: seq<byte> -> bool, f: Frame, more: seq<byte>, fragment: Option<seq<byte>>)
    requires WellFormed(f) && Handle(valid, f.final, f.opcode, f.payload, fragment).Pongs?
    ensures Drain(valid, Encode(f) + more, fragment).0 == Drain(valid, more, fragment).0
    ensures Drain(valid, Encode(f) + more, fragment).1 == After([f.payload], Drain(valid, more, fragment).1)
  {
    TakeEncoded(f, more);
    var p := Receive(valid, more, fragment);
    assert Receive(valid, Encode(f) + more, fragment) == After([f.payload], p);
    if p.result.Message? {
      AfterAfter([f.payload], p.pongs, Drain(valid, p.rest, p.fragment).1);
    }
  }

  /** A legal stream gives back exactly its messages, each with CRLF, and one pong per ping. */
  lemma {:induction false} LegalStreamDecodes(valid: seq<byte> -> bool, frames: seq<Frame>, open: Option<seq<byte>>)
    requires Legal(valid, frames, open)
    ensures Drain(valid, EncodeAll(frames), open).0 == WithCrlf(Texts(frames, open))
    ensures var last := Drain(valid, EncodeAll(frames), open).1;
            last.result == NoData && last.rest == [] && last.pongs == Pings(frames)
  {
    if frames != [] {
      var f, rest := frames[0], frames[1..];
      var whole := if f.opcode == 0 && open.Some? then open.value + f.payload else f.payload;
      var next := if f.opcode > 1 then open else if f.final then None else Some(whole);
      LegalStreamDecodes(valid, rest, next);
      if f.opcode > 1 {
        if f.opcode == 9 {
          DrainPongs(valid, f, EncodeAll(rest), open);
        } else {
          DrainHolds(valid, f, EncodeAll(rest), open);
          assert [] + Pings(rest) == Pings(rest);
        }
      } else {
        assert [] + Pings(rest) == Pings(rest);
        if f.final {
          DrainReturns(valid, f, EncodeAll(rest), open);
          assert ([whole] + Texts(rest, None))[1..] == Texts(rest, None);
        } else {
          DrainHolds(valid, f, EncodeAll(rest), open);
        }
      }
    }
  }

  /** A fresh client over any cutting of a legal stream. */
  method ReadLegal(valid: seq<byte> -> bool, chunks: seq<seq<byte>>, ghost frames: seq<Frame>)
      returns (texts: seq<seq<byte>>, pongs: seq<seq<byte>>)
    requires Legal(valid, frames, None)
    requires Arriving(chunks) == EncodeAll(frames)
    ensures texts == WithCrlf(Texts(frames, None)) && pongs == Pings(frames)
  {
    var client := new Client(valid, chunks);
    assert client.Stream() == EncodeAll(frames);
    LegalStreamDecodes(valid, frames, None);
    var last;
    texts, last := client.RecvAll();
    pongs := client.pongs;
    assert pongs[0..] == pongs;
  }

  // ---------------------------------------------------------------- IRC lines of a legal stream

  /** A message's own lines: what stands between its line ends. */
  ghost function LinesOf(texts: seq<seq<byte>>): seq<seq<byte>> {
    if texts == [] then [] else Split(texts[0], CRLF) + LinesOf(texts[1..])
  }

  lemma {:induction false} CrlfIsFound(x: seq<byte>)
    requires Find(x, CRLF) < 0
    ensures Find(x + CRLF, CRLF) == |x|
  {
    var s := x + CRLF;
    FindFromFirst(x, CRLF, 0);
    forall p: nat | p < |x| ensures !At(s, CRLF, p) {
      if p + 2 <= |x| {
        AtInside(x, CRLF, CRLF, p);
      } else {
        assert s[p..p + 2][1] == 13;
      }
    }
    assert s[|x|..|x| + 2] == CRLF;
    FindIs(s, CRLF, |x|);
  }

  lemma {:induction false} OneClosed(x: seq<byte>)
    requires Find(x, CRLF) < 0
    ensures Split(x + CRLF, CRLF) == [x] + [[]]
  {
    CrlfIsFound(x);
    assert (x + CRLF)[..|x|] == x && (x + CRLF)[|x| + 2..] == [];
    assert Find<byte>([], CRLF) < 0;
    assert Split<byte>([], CRLF) == [[]];
  }

  /** A closed message leaves nothing unfinished. */
  lemma {:induction false} ClosedSplits(text: seq<byte>)
    ensures Split(text + CRLF, CRLF) == Split(text, CRLF) + [[]]
  {
    hide Split, Find;
    var pieces := Split(text, CRLF);
    var x := Last(pieces);
    LastHasNone(text, CRLF);
    OneClosed(x);
    SplitResumes(text, CRLF, CRLF);
    assert pieces == Init(pieces) + [x];
  }

  lemma {:induction false} MessagesSplit(texts: seq<seq<byte>>)
    ensures Split(Concat(WithCrlf(texts)), CRLF) == LinesOf(texts) + [[]]
  {
    if texts != [] {
      var a, rest := texts[0] + CRLF, WithCrlf(texts[1..]);
      MessagesSplit(texts[1..]);
      ConcatAppend([a], rest);
      ConcatOne(a);
      ClosedSplits(texts[0]);
      SplitResumes(a, Concat(rest), CRLF);
      assert Init(Split(texts[0], CRLF) + [[]]) == Split(texts[0], CRLF);
      assert [] + Concat(rest) == Concat(rest);
    }
  }

  /** A fresh client over any cutting of a legal stream sees exactly the lines of its messages. */
  method CollectLegal(valid: seq<byte> -> bool, chunks: seq<seq<byte>>, ghost frames: seq<Frame>)
      returns (seen: seq<seq<byte>>, pending: seq<byte>)
    requires Legal(valid, frames, None)
    requires Arriving(chunks) == EncodeAll(frames)
    ensures seen == LinesOf(Texts(frames, None)) && pending == []
  {
    var client := new Client(valid, chunks);
    assert client.Stream() == EncodeAll(frames);
    LegalStreamDecodes(valid, frames, None);
    client.CollectAll();
    seen, pending := client.seen, client.irc;
    ghost var texts := WithCrlf(Texts(frames, None));
    assert [] + Concat(texts) == Concat(texts);
    MessagesSplit(Texts(frames, None));
    SameEnds(seen, pending, LinesOf(Texts(frames, None)), []);
  }

  lemma {:induction false} SameEnds(a: seq<seq<byte>>, x: seq<byte>, b: seq<seq<byte>>, y: seq<byte>)
    requires a + [x] == b + [y]
    ensures a == b && x == y
  {
    assert Init(a + [x]) == a && Init(b + [y]) == b;
    assert Last(a + [x]) == x && Last(b + [y]) == y;
  }

  // ---------------------------------------------------------------- frames the client sends

  /** Each byte combined with the mask byte of its position, the mask repeating. */
  function Mask(payload: seq<byte>, mask: seq<byte>): (r: seq<byte>)
    requires |mask| == 4
    ensures |r| == |payload|
    ensures forall i :: 0 <= i < |r| ==> r[i] == Xor(payload[i], mask[i % 4])
  {
    seq(|payload|, i requires 0 <= i < |payload| => Xor(payload[i], mask[i % 4]))
  }

  /** The bytes `frame` sends, or nothing when the payload is too large for it. */
  function SentFrame(opcode: nat, payload: seq<byte>, mask: seq<byte>): Option<seq<byte>>
    requires opcode < 16 && |mask| == 4
  {
    var length := |payload|;
    if length < 126 then Some([128 + opcode, 128 + length] + mask + Mask(payload, mask))
    else if length <= 65535 then Some([128 + opcode, 254] + ToBigEndian(length, 2) + mask + Mask(payload, mask))
    else None
  }

  /** A frame is sent exactly for payloads up to 65535 bytes, in six or eight bytes more than the payload. */
  lemma {:induction false} SentFrameExactly(opcode: nat, payload: seq<byte>, mask: seq<byte>)
    requires opcode < 16 && |mask| == 4
    ensures SentFrame(opcode, payload, mask).Some? <==> |payload| <= 65535
    ensures |payload| <= 65535
        ==> |SentFrame(opcode, payload, mask).value| == |payload| + (if |payload| <= 125 then 6 else 8)
  {
    hide Mask, ToBigEndian;
  }

  /** A server reading one masked client frame: opcode, payload and what follows. */
  function ServerRead(w: seq<byte>): Option<(nat, seq<byte>, seq<byte>)> {
    if |w| < 2 || w[0] < 128 || w[1] < 128 then None
    else
      var short := w[1] - 128 < 126;
      var offset := if short then 2 else 4;
      if |w| < offset || w[1] == 255 then None
      else
        var length := if short then w[1] - 128 else BigEndian(w[2..4]);
        if |w| < offset + 4 + length then None
        else Some((w[0] % 16, Mask(w[offset + 4..offset + 4 + length], w[offset..offset + 4]),
          w[offset + 4 + length..]))
  }

  lemma {:induction false} MaskUndo(payload: seq<byte>, mask: seq<byte>)
    requires |mask| == 4
    ensures Mask(Mask(payload, mask), mask) == payload
  {
    forall i | 0 <= i < |payload| ensures Xor(Xor(payload[i], mask[i % 4]), mask[i % 4]) == payload[i] {
      XorUndo(payload[i], mask[i % 4]);
    }
  }

  /** Every frame the client can send is read back by a server: same opcode, same payload, nothing left over. */
  lemma {:induction false} SentFrameReads(opcode: nat, payload: seq<byte>, mask: seq<byte>, more: seq<byte>)
    requires opcode < 16 && |mask| == 4 && SentFrame(opcode, payload, mask).Some?
    ensures ServerRead(SentFrame(opcode, payload, mask).value + more) == Some((opcode, payload, more))
  {
    var n := |payload|;
    var head := if n < 126 then [128 + opcode, 128 + n] else [128 + opcode, 254] + ToBigEndian(n, 2);
    var w := SentFrame(opcode, payload, mask).value + more;
    assert w == head + mask + Mask(payload, mask) + more;
    if n >= 126 {
      PowersOf256();
      BigEndianRoundTrip(n, 2);
      assert w[2..4] == ToBigEndian(n, 2);
    }
    assert w[|head|..|head| + 4] == mask;
    assert w[|head| + 4..|head| + 4 + n] == Mask(payload, mask);
    assert w[|head| + 4 + n..] == more;
    MaskUndo(payload, mask);
  }

  /** A pong can be sent for every ping a legal stream may carry. */
  lemma {:induction false} PongsFit(valid: seq<byte> -> bool, frames: seq<Frame>, open: Option<seq<byte>>,
      mask: seq<byte>)
    requires Legal(valid, frames, open) && |mask| == 4
    ensures forall p :: p in Pings(frames) ==> SentFrame(10, p, mask).Some?
  {
    if frames != [] {
      var f, rest := frames[0], frames[1..];
      var whole := if f.opcode == 0 && open.Some? then open.value + f.payload else f.payload;
      PongsFit(valid, rest, if f.opcode > 1 then open else if f.final then None else Some(whole), mask);
    }
  }
}
