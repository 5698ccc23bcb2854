/**
 What the reader of tools/openbsd_runtime_smoke.py does with every stream of frames, lawful or
 not: which frame it fails on, with which error, and what it has returned by then.
 */
module WebSocketFaults {
  import opened Options
  import opened Xors
  import opened Splitting
  import opened WebSocket

  // ---------------------------------------------------------------- faults of one frame

  /** The message so far, with this frame's part. */
  ghost function Whole(f: Frame, open: Option<seq<byte>>): seq<byte> {
    if f.opcode == 0 && open.Some? then open.value + f.payload else f.payload
  }

  /** The frame completes a message. */
  ghost predicate Completes(f: Frame, open: Option<seq<byte>>) {
    f.final && ((f.opcode == 1 && open.None?) || (f.opcode == 0 && open.Some?))
  }

  /** Why a frame cannot stand where it does, given the unfinished message before it. */
  ghost predicate Faults(valid: seq<byte> -> bool, f: Frame, open: Option<seq<byte>>, e: Error) {
    match e
    case CloseFrame => f.opcode == 8
    case BinaryFrame => f.opcode == 2
    case NestedText => f.opcode == 1 && open.Some?
    case OrphanContinuation => f.opcode == 0 && open.None?
    case OversizeMessage => f.opcode == 0 && open.Some? && |open.value| + |f.payload| > 1_048_576
    case NotUtf8 => Completes(f, open) && |Whole(f, open)| <= 1_048_576 && !valid(Whole(f, open))
    case PongTooLarge => f.opcode == 9 && |f.payload| > 65_535
    case MaskedFrame => false
    case OversizeFrame => false
  }

  ghost predicate Faultless(valid: seq<byte> -> bool, f: Frame, open: Option<seq<byte>>) {
    forall e :: !Faults(valid, f, open, e)
  }

  /** The unfinished message after a frame. */
  ghost function OpenAfter(f: Frame, open: Option<seq<byte>>): Option<seq<byte>> {
    if f.opcode > 1 then open else if f.final then None else Some(Whole(f, open))
  }

  ghost function OpenAfterAll(frames: seq<Frame>, open: Option<seq<byte>>): Option<seq<byte>> {
    if frames == [] then open else OpenAfterAll(frames[1..], OpenAfter(frames[0], open))
  }

  /** No frame of the list is at fault. */
  ghost predicate Passes(valid: seq<byte> -> bool, frames: seq<Frame>, open: Option<seq<byte>>): (passes: bool)
    ensures passes ==> forall f :: f in frames ==> WellFormed(f)
  {
    if frames == [] then true
    else
      && WellFormed(frames[0]) && Faultless(valid, frames[0], open)
      && Passes(valid, frames[1..], OpenAfter(frames[0], open))
  }

  // ---------------------------------------------------------------- one frame is handled as told

  /** A frame at fault fails with that error. */
  lemma {:induction false} FaultFails(valid: seq<byte> -> bool, f: Frame, open: Option<seq<byte>>, e: Error)
    requires WellFormed(f) && Faults(valid, f, open, e)
    ensures var h := Handle(valid, f.final, f.opcode, f.payload, open); h.Fails? && h.error == e
  {}

  /** A frame without fault returns its message, is answered, or leaves the unfinished message as told. */
  lemma {:induction false} FaultlessHandled(valid: seq<byte> -> bool, f: Frame, open: Option<seq<byte>>)
    requires WellFormed(f) && Faultless(valid, f, open)
    ensures Handle(valid, f.final, f.opcode, f.payload, open)
         == if Completes(f, open) then Returns(Whole(f, open))
            else if f.opcode == 9 then Pongs(f.payload)
            else Holds(OpenAfter(f, open))
  {
    assert !Faults(valid, f, open, CloseFrame) && !Faults(valid, f, open, BinaryFrame);
    assert !Faults(valid, f, open, NestedText) && !Faults(valid, f, open, OrphanContinuation);
    assert !Faults(valid, f, open, OversizeMessage) && !Faults(valid, f, open, NotUtf8);
    assert !Faults(valid, f, open, PongTooLarge);
  }

  lemma {:induction false} FaultOrNot(valid: seq<byte> -> bool, f: Frame, open: Option<seq<byte>>) returns (e: Error)
    requires !Faultless(valid, f, open)
    ensures Faults(valid, f, open, e)
  {
    e :| Faults(valid, f, open, e);
  }

  // ---------------------------------------------------------------- streams

  /** Texts and pongs put before what is drained afterwards. */
  ghost function Put(texts: seq<seq<byte>>, pongs: seq<seq<byte>>, d: (seq<seq<byte>>, Outcome)):
      (seq<seq<byte>>, Outcome)
  {
    (texts + d.0, After(pongs, d.1))
  }

  lemma {:induction false} PutPut(a: seq<seq<byte>>, p: seq<seq<byte>>, b: seq<seq<byte>>, q: seq<seq<byte>>,
      d: (seq<seq<byte>>, Outcome))
    ensures Put(a, p, Put(b, q, d)) == Put(a + b, p + q, d) && Put([], [], d) == d
  {
    AfterAfter(p, q, d.1);
    assert a + (b + d.0) == (a + b) + d.0 && [] + d.0 == d.0;
  }

  /** What one frame returns, and what it answers. */
  ghost function TextOf(f: Frame, open: Option<seq<byte>>): seq<seq<byte>> {
    if Completes(f, open) then [Whole(f, open) + CRLF] else []
  }

  ghost function PingOf(f: Frame): seq<seq<byte>> { if f.opcode == 9 then [f.payload] else [] }

  lemma {:induction false} FrameDrains(valid: seq<byte> -> bool, f: Frame, open: Option<seq<byte>>, more: seq<byte>)
    requires WellFormed(f) && Faultless(valid, f, open)
    ensures Drain(valid, Encode(f) + more, open)
         == Put(TextOf(f, open), PingOf(f), Drain(valid, more, OpenAfter(f, open)))
  {
    var d := Drain(valid, more, OpenAfter(f, open));
    FaultlessHandled(valid, f, open);
    hide Drain, Handle, Faultless, Encode;
    if Completes(f, open) {
      DrainReturns(valid, f, more, open);
      AfterAfter([], [], d.1);
    } else if f.opcode == 9 {
      DrainPongs(valid, f, more, open);
      assert [] + d.0 == d.0;
    } else {
      DrainHolds(valid, f, more, open);
      PutPut([], [], [], [], d);
    }
  }

  /** A complete message is a final frame of the text it spells. */
  lemma {:induction false} TextsStep(f: Frame, rest: seq<Frame>, open: Option<seq<byte>>, valid: seq<byte> -> bool)
    requires Faultless(valid, f, open)
    ensures WithCrlf(Texts([f] + rest, open)) == TextOf(f, open) + WithCrlf(Texts(rest, OpenAfter(f, open)))
    ensures Pings([f] + rest) == PingOf(f) + Pings(rest)
  {
    assert !Faults(valid, f, open, NestedText) && !Faults(valid, f, open, OrphanContinuation);
    var frames := [f] + rest;
    assert frames[1..] == rest;
    var more := Texts(rest, OpenAfter(f, open));
    if Completes(f, open) {
      assert ([Whole(f, open)] + more)[1..] == more;
    } else {
      assert [] + WithCrlf(more) == WithCrlf(more);
    }
  }

  /** Whatever follows them, frames without fault give their texts and pongs and leave their unfinished message. */
  lemma {:induction false} PassingDrains(valid: seq<byte> -> bool, frames: seq<Frame>, open: Option<seq<byte>>,
      tail: seq<byte>)
    requires Passes(valid, frames, open)
    ensures Drain(valid, EncodeAll(frames) + tail, open)
         == Put(WithCrlf(Texts(frames, open)), Pings(frames), Drain(valid, tail, OpenAfterAll(frames, open)))
  {
    if frames == [] {
      assert EncodeAll(frames) + tail == tail;
      PutPut([], [], [], [], Drain(valid, tail, open));
    } else {
      var f, rest := frames[0], frames[1..];
      var next := OpenAfter(f, open);
      assert frames == [f] + rest;
      assert EncodeAll(frames) + tail == Encode(f) + (EncodeAll(rest) + tail);
      hide Drain, Encode, EncodeAll, Faultless, Texts, Pings, WithCrlf;
      PassingDrains(valid, rest, next, tail);
      FrameDrains(valid, f, open, EncodeAll(rest) + tail);
      TextsStep(f, rest, open, valid);
      PutPut(TextOf(f, open), PingOf(f), WithCrlf(Texts(rest, next)), Pings(rest),
             Drain(valid, tail, OpenAfterAll(frames, open)));
    }
  }

  lemma {:induction false} FaultDrains(valid: seq<byte> -> bool, f: Frame, open: Option<seq<byte>>, e: Error,
      more: seq<byte>)
    requires WellFormed(f) && Faults(valid, f, open, e)
    ensures var d := Drain(valid, Encode(f) + more, open);
            d.0 == [] && d.1.result == Failed(e) && d.1.rest == more && d.1.pongs == []
  {
    FaultFails(valid, f, open, e);
    TakeEncoded(f, more);
    hide Handle, Faults, Encode;
  }

  /**
   Frames without fault, then one at fault, then any bytes at all: the reader returns the messages
   before the fault, has answered the pings before it, and fails with its error.
   */
  lemma {:induction false} FaultStops(valid: seq<byte> -> bool, frames: seq<Frame>, bad: Frame, e: Error,
      more: seq<byte>)
    requires Passes(valid, frames, None) && WellFormed(bad) && Faults(valid, bad, OpenAfterAll(frames, None), e)
    ensures var d := Drain(valid, EncodeAll(frames) + (Encode(bad) + more), None);
            && d.0 == WithCrlf(Texts(frames, None))
            && d.1.result == Failed(e) && d.1.rest == more && d.1.pongs == Pings(frames)
  {
    hide Drain, Encode, EncodeAll, Faults;
    PassingDrains(valid, frames, None, Encode(bad) + more);
    FaultDrains(valid, bad, OpenAfterAll(frames, None), e, more);
    assert WithCrlf(Texts(frames, None)) + [] == WithCrlf(Texts(frames, None));
    assert Pings(frames) + [] == Pings(frames);
  }

  // ---------------------------------------------------------------- heads at fault

  /** The length field of a frame head, masked or not. */
  ghost function SizeField(form: Form, masked: bool, n: nat): seq<byte>
    requires form == Seven ==> n < 126
  {
    var bit := if masked then 128 else 0;
    match form
    case Seven => [bit + n]
    case Sixteen => [bit + 126] + ToBigEndian(n, 2)
    case SixtyFour => [bit + 127] + ToBigEndian(n, 8)
  }

  /** The length that a head announces, and where its payload starts. */
  lemma {:induction false} SizeReads(first: byte, form: Form, masked: bool, n: nat, more: seq<byte>)
    requires (form == Seven ==> n < 126) && (form == Sixteen ==> n < 65_536) && (form == SixtyFour ==> n < Pow256(8))
    ensures var w := [first] + SizeField(form, masked, n) + more;
            && |w| >= 2 && w[0] == first && (w[1] >= 128 <==> masked)
            && ReadHead(w) == SizedHead(w, 1 + |SizeField(form, masked, n)|, n)
  {
    hide SizedHead, ToBigEndian, BigEndian;
    var w := [first] + SizeField(form, masked, n) + more;
    assert w[1] == SizeField(form, masked, n)[0];
    PowersOf256();
    hide Pow256;
    if form == Sixteen {
      assert w[2..4] == ToBigEndian(n, 2);
      BigEndianRoundTrip(n, 2);
    } else if form == SixtyFour {
      assert w[2..10] == ToBigEndian(n, 8);
      BigEndianRoundTrip(n, 8);
    }
  }

  lemma {:induction false} HeadReads(first: byte, form: Form, masked: bool, n: nat, more: seq<byte>)
    requires (form == Seven ==> n < 126) && (form == Sixteen ==> n < 65_536) && (form == SixtyFour ==> n < Pow256(8))
    ensures var w := [first] + SizeField(form, masked, n) + more;
            ReadHead(w) == if masked then BadHead(MaskedFrame)
                           else if n > 1_048_576 then BadHead(OversizeFrame)
                           else Head(first >= 128, first % 16, 1 + |SizeField(form, masked, n)|, n)
  {
    SizeReads(first, form, masked, n, more);
    hide ReadHead, SizeField, Pow256;
  }

  /**
   The same for a head that no payload could save: a masked frame, or one that announces more than
   2^20 bytes, whatever its opcode and whatever follows.
   */
  lemma {:induction false} BadHeadStops(valid: seq<byte> -> bool, frames: seq<Frame>, first: byte, form: Form,
      masked: bool, n: nat, more: seq<byte>)
    requires Passes(valid, frames, None)
    requires (form == Seven ==> n < 126) && (form == Sixteen ==> n < 65_536) && (form == SixtyFour ==> n < Pow256(8))
    requires masked || n > 1_048_576
    ensures var d := Drain(valid, EncodeAll(frames) + ([first] + SizeField(form, masked, n) + more), None);
            && d.0 == WithCrlf(Texts(frames, None)) && d.1.pongs == Pings(frames)
            && d.1.result == Failed(if masked then MaskedFrame else OversizeFrame)
  {
    var w, open := [first] + SizeField(form, masked, n) + more, OpenAfterAll(frames, None);
    HeadReads(first, form, masked, n, more);
    var d := Drain(valid, w, open);
    assert d.0 == [] && d.1 == Outcome(Failed(if masked then MaskedFrame else OversizeFrame), w, open, []);
    hide Drain, EncodeAll, SizeField;
    PassingDrains(valid, frames, None, w);
    assert WithCrlf(Texts(frames, None)) + [] == WithCrlf(Texts(frames, None));
    assert Pings(frames) + [] == Pings(frames);
  }

  // ---------------------------------------------------------------- acceptance, both ways

  lemma {:induction false} NothingDrains(valid: seq<byte> -> bool, open: Option<seq<byte>>)
    ensures Drain(valid, [], open) == ([], Outcome(NoData, [], open, []))
  {}

  /** A stream of frames is read to its end exactly when none of them is at fault. */
  lemma {:induction false} ReadsExactly(valid: seq<byte> -> bool, frames: seq<Frame>, open: Option<seq<byte>>)
    requires forall f :: f in frames ==> WellFormed(f)
    ensures Drain(valid, EncodeAll(frames), open).1.result == NoData <==> Passes(valid, frames, open)
    ensures Passes(valid, frames, open) ==>
              && Drain(valid, EncodeAll(frames), open).0 == WithCrlf(Texts(frames, open))
              && Drain(valid, EncodeAll(frames), open).1.pongs == Pings(frames)
  {
    if Passes(valid, frames, open) {
      PassingDrains(valid, frames, open, []);
      NothingDrains(valid, OpenAfterAll(frames, open));
      assert EncodeAll(frames) + [] == EncodeAll(frames);
      assert WithCrlf(Texts(frames, open)) + [] == WithCrlf(Texts(frames, open));
      assert Pings(frames) + [] == Pings(frames);
    } else {
      FaultyNeverEnds(valid, frames, open);
    }
  }

  lemma {:induction false} FaultyNeverEnds(valid: seq<byte> -> bool, frames: seq<Frame>, open: Option<seq<byte>>)
    requires (forall f :: f in frames ==> WellFormed(f)) && !Passes(valid, frames, open)
    ensures Drain(valid, EncodeAll(frames), open).1.result != NoData
  {
    var f, rest := frames[0], frames[1..];
    hide Drain, Encode, Faults;
    if Faultless(valid, f, open) {
      hide Faultless;
      FrameDrains(valid, f, open, EncodeAll(rest));
      FaultyNeverEnds(valid, rest, OpenAfter(f, open));
    } else {
      var e := FaultOrNot(valid, f, open);
      FaultDrains(valid, f, open, e, EncodeAll(rest));
    }
  }

  /** What the standard lets a server send is without fault. */
  lemma {:induction false} LegalPasses(valid: seq<byte> -> bool, frames: seq<Frame>, open: Option<seq<byte>>)
    requires Legal(valid, frames, open)
    ensures Passes(valid, frames, open)
  {
    if frames != [] {
      LegalPasses(valid, frames[1..], OpenAfter(frames[0], open));
    }
  }
}
