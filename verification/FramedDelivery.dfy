/**
 The reading loop of `PhaseClient` in tools/bench_live.py: what arrives is framed into lines, and
 each line is answered, noted, refused or handed to the ledger.
 */
module FramedDelivery {
  import opened Options
  import opened Decimal
  import opened Splitting
  import opened PhasePayload
  import LineFraming
  import opened DeliveryLedgers

  /** What a client keeps beside the ledger: its milestones, its open barriers and the lines it has sent. */
  datatype Side = Side(welcome: bool, joined: bool, barriers: map<string, bool>, sent: seq<string>)

  datatype Route = Bad | Handled(side: Side) | ToLedger

  /** What stands after the last separator that starts at `p` or before, or everything. */
  function AfterLast(s: string, sep: string, p: int): string
    requires p < |s|
    decreases p + 1
  {
    if p < 0 then s
    else if At(s, sep, p) then s[p + |sep|..]
    else AfterLast(s, sep, p - 1)
  }

  function Command(line: string): string {
    var fields := Split(line, " ");
    Upper(if StartsWith(line, ':') && |fields| > 1 then fields[1] else fields[0])
  }

  predicate IsError(command: string) {
    || command == "ERROR"
    || (command != "" && AllDigits(command) && Value(command) >= 400 && command != "422")
  }

  /** An answer to a ping, which must itself be a legal line. */
  function Answer(side: Side, rest: string): Route {
    var reply := "PONG " + rest;
    if '\r' in reply || '\n' in reply || |reply| > 510 then Bad else Handled(side.(sent := side.sent + [reply]))
  }

  /** A barrier's marker: it must be open, and is open no more afterwards. */
  function Passed(side: Side, marker: string): Route {
    if marker !in side.barriers || side.barriers[marker] then Bad
    else Handled(side.(barriers := side.barriers - {marker}))
  }

  /** Which lines a client handles itself, which it cannot stand, and which are the ledger's. */
  function Dispatch(side: Side, line: string): Route {
    var words := SplitN(line, " ", 1);
    var command := Command(line);
    if Upper(words[0]) == "PING" then if |words| < 2 then Bad else Answer(side, words[1])
    else if IsError(command) then Bad
    else if command == "001" then Handled(side.(welcome := true))
    else if command == "366" && CHANNEL in Split(line, " ") then Handled(side.(joined := true))
    else if command == "PONG" then Passed(side, AfterLast(line, " :", |line| - 1))
    else ToLedger
  }

  // ---------------------------------------------------------------- deliveries reach the ledger

  /** The first word starts with what the line starts with. */
  lemma {:induction false} FirstWord(line: string, c: char)
    requires StartsWith(line, c) && c != ' '
    ensures StartsWith(SplitN(line, " ", 1)[0], c) && StartsWith(Split(line, " ")[0], c)
  {
    FindOne(line, ' ');
  }

  lemma {:induction false} HeadsAgree(s: string, n: nat)
    requires n > 0
    ensures SplitN(s, " ", n)[0] == Split(s, " ")[0]
  {}

  lemma {:induction false} SecondWord(line: string)
    requires |SplitN(line, " ", 3)| > 1
    ensures |Split(line, " ")| > 1 && Split(line, " ")[1] == SplitN(line, " ", 3)[1]
  {
    var rest := line[Find(line, " ") + 1..];
    HeadsAgree(rest, 2);
  }

  lemma {:induction false} UpperStarts(s: string, c: char)
    requires StartsWith(s, c) && !('a' <= c <= 'z')
    ensures StartsWith(Upper(s), c)
  {}

  lemma {:induction false} QuietLine(side: Side, line: string)
    requires Upper(SplitN(line, " ", 1)[0]) != "PING"
    requires var c := Command(line); !IsError(c) && c != "001" && c != "366" && c != "PONG"
    ensures Dispatch(side, line) == ToLedger
  {
    hide Command, IsError, SplitN, Upper;
  }

  /** A command that starts with neither a letter of the client's words nor a digit is not the client's. */
  lemma {:induction false} ForeignCommand(command: string, c: char)
    requires StartsWith(command, c) && c != 'E' && c != 'P' && !IsDigit(c)
    ensures !IsError(command) && command != "001" && command != "366" && command != "PONG" && command != "PING"
  {
    assert "001"[0] != c && "366"[0] != c;
  }

  lemma {:induction false} PrivmsgIsForeign()
    ensures !IsError("PRIVMSG") && "PRIVMSG" != "PONG"
  {
    assert !IsDigit("PRIVMSG"[0]) && "PRIVMSG"[1] == 'R';
  }

  lemma {:induction false} ClaimIsPrivmsg(cfg: Config, counts: map<string, nat>, recipient: nat, line: string)
    requires Identify(cfg, counts, recipient, line).Claim? && !StartsWith(line, '@')
    ensures StartsWith(line, ':') && |SplitN(line, " ", 3)| > 1 && Upper(SplitN(line, " ", 3)[1]) == "PRIVMSG"
  {
    hide SplitN, Upper, ClaimOf;
  }

  lemma {:induction false} TaggedReachesLedger(line: string, side: Side)
    requires StartsWith(line, '@')
    ensures Dispatch(side, line) == ToLedger
  {
    hide SplitN, Split, Upper, IsError, Dispatch;
    var word := SplitN(line, " ", 1)[0];
    FirstWord(line, '@');
    UpperStarts(word, '@');
    UpperStarts(Split(line, " ")[0], '@');
    ForeignCommand(Upper(word), '@');
    ForeignCommand(Command(line), '@');
    QuietLine(side, line);
  }

  /** A line that could be a delivery is neither answered nor refused before the ledger sees it. */
  lemma {:induction false} DeliveriesReachLedger(
    cfg: Config, counts: map<string, nat>, recipient: nat, line: string, side: Side)
    requires Identify(cfg, counts, recipient, line).Claim?
    ensures Dispatch(side, line) == ToLedger
  {
    hide SplitN, Split, Upper, IsError, Dispatch, Identify;
    if StartsWith(line, '@') {
      TaggedReachesLedger(line, side);
    } else {
      ClaimIsPrivmsg(cfg, counts, recipient, line);
      var word := SplitN(line, " ", 1)[0];
      FirstWord(line, ':');
      UpperStarts(word, ':');
      ForeignCommand(Upper(word), ':');
      SecondWord(line);
      PrivmsgIsForeign();
      QuietLine(side, line);
    }
  }

  // ---------------------------------------------------------------- the client's own lines

  /** A line from the server: a source, a command and the rest. */
  function ServerLine(source: string, word: string, rest: string): string { source + " " + (word + " " + rest) }

  predicate IsServer(source: string) { StartsWith(source, ':') && ' ' !in source }

  lemma {:induction false} FirstCut(a: string, rest: string)
    requires ' ' !in a
    ensures SplitN(a + " " + rest, " ", 1) == [a, rest] && Split(a + " " + rest, " ") == [a] + Split(rest, " ")
  {
    var s := a + " " + rest;
    SplitHead(a, ' ', rest);
    assert s[..|a|] == a && s[|a| + 1..] == rest;
    assert SplitN(rest, " ", 0) == [rest];
  }

  lemma {:induction false} ServerWords(source: string, word: string, rest: string)
    requires IsServer(source) && ' ' !in word
    ensures var line := ServerLine(source, word, rest);
            && SplitN(line, " ", 1)[0] == source && Upper(source) != "PING"
            && Command(line) == Upper(word)
            && Split(line, " ") == [source, word] + Split(rest, " ")
  {
    FirstCut(source, word + " " + rest);
    FirstCut(word, rest);
    UpperStarts(source, ':');
    hide Split, SplitN;
    assert [source] + ([word] + Split(rest, " ")) == [source, word] + Split(rest, " ");
  }

  lemma {:induction false} DigitsStayUpper(word: string)
    requires AllDigits(word)
    ensures Upper(word) == word
  {
    forall i | 0 <= i < |word| ensures UpperChar(word[i]) == word[i] { assert IsDigit(word[i]); }
  }

  /** Numeric replies: 400 and above end the run except 422, 001 is the welcome, 366 for the channel the join. */
  lemma {:induction false} NumericExactly(side: Side, source: string, word: string, rest: string)
    requires IsServer(source) && AllDigits(word) && word != ""
    ensures Dispatch(side, ServerLine(source, word, rest))
         == if Value(word) >= 400 && word != "422" then Bad
            else if word == "001" then Handled(side.(welcome := true))
            else if word == "366" && "#bench" in Split(rest, " ") then Handled(side.(joined := true))
            else ToLedger
  {
    assert IsDigit(word[0]) && !IsDigit(' ');
    forall i | 0 <= i < |word| ensures word[i] != ' ' { assert IsDigit(word[i]); }
    ServerWords(source, word, rest);
    DigitsStayUpper(word);
    assert source != CHANNEL && word != CHANNEL && word != "PONG" && word != "ERROR" by {
      assert CHANNEL[0] == '#' && source[0] == ':';
      assert "PONG"[0] == 'P' && "ERROR"[0] == 'E';
    }
    hide Split, SplitN, Upper, Command, Value;
    var words := Split(ServerLine(source, word, rest), " ");
    assert CHANNEL in words <==> CHANNEL in Split(rest, " ");
  }

  /** A ping is answered with the rest of its line, unless the answer could not be sent. */
  lemma {:induction false} PingExactly(side: Side, word: string, rest: string)
    requires Upper(word) == "PING" && ' ' !in word
    ensures Dispatch(side, word) == Bad
    ensures Dispatch(side, word + " " + rest)
         == if '\r' in rest || '\n' in rest || |rest| > 505 then Bad
            else Handled(side.(sent := side.sent + ["PONG " + rest]))
  {
    FirstCut(word, rest);
    FindOne(word, ' ');
    assert SplitN(word, " ", 1) == [word];
    hide Split, SplitN, Upper, Command;
    var reply := "PONG " + rest;
    assert '\r' in reply <==> '\r' in rest;
    assert '\n' in reply <==> '\n' in rest;
  }

  /** An error message ends the run, with or without a source. */
  lemma {:induction false} ErrorExactly(side: Side, source: string, word: string, rest: string)
    requires IsServer(source) && Upper(word) == "ERROR" && ' ' !in word
    ensures Dispatch(side, ServerLine(source, word, rest)) == Bad && Dispatch(side, word + " " + rest) == Bad
  {
    ServerWords(source, word, rest);
    FirstCut(word, rest);
    assert "ERROR"[0] != "PING"[0];
    if StartsWith(word, ':') { UpperStarts(word, ':'); }
    assert |word| == |Upper(word)| == 5;
    assert StartsWith(word + " " + rest, ':') <==> StartsWith(word, ':');
    hide Split, SplitN, Upper;
  }

  lemma {:induction false} AtBehind(a: string, b: string, sep: string, p: nat)
    ensures At(a + b, sep, |a| + p) <==> At(b, sep, p)
  {
    if p + |sep| <= |b| { assert (a + b)[|a| + p..|a| + p + |sep|] == b[p..p + |sep|]; }
  }

  lemma {:induction false} MarkerIsLast(head: string, marker: string, p: int)
    requires |head| <= p < |head + " :" + marker| && forall i: nat :: !At(marker, " :", i)
    ensures AfterLast(head + " :" + marker, " :", p) == marker
    decreases p
  {
    var s := head + " :" + marker;
    if p == |head| {
      assert s[p..p + 2] == " :" && s[p + 2..] == marker;
    } else {
      if p == |head| + 1 {
        assert s[p] == ':';
        AtFirst(s, " :", p);
      } else {
        AtBehind(head + " :", marker, " :", p - |head| - 2);
      }
      MarkerIsLast(head, marker, p - 1);
    }
  }

  /** An answer to a barrier closes it; one for no open barrier ends the run. */
  lemma {:induction false} BarrierExactly(side: Side, source: string, middle: string, marker: string)
    requires IsServer(source) && forall i: nat :: !At(marker, " :", i)
    ensures Dispatch(side, ServerLine(source, "PONG", middle + " :" + marker))
         == if marker in side.barriers && !side.barriers[marker]
            then Handled(side.(barriers := map k | k in side.barriers && k != marker :: side.barriers[k]))
            else Bad
  {
    hide *;
    var line := ServerLine(source, "PONG", middle + " :" + marker);
    var head := source + " PONG " + middle;
    BarrierLine(source, middle, marker);
    ServerWords(source, "PONG", middle + " :" + marker);
    MarkerIsLast(head, marker, |line| - 1);
    PongDispatch(side, line);
    PassedExactly(side, marker);
  }

  lemma {:induction false} BarrierLine(source: string, middle: string, marker: string)
    ensures ServerLine(source, "PONG", middle + " :" + marker) == source + " PONG " + middle + " :" + marker
    ensures Upper("PONG") == "PONG" && ' ' !in "PONG"
  {
    var tail := middle + " :" + marker;
    assert "PONG" + " " + tail == "PONG " + tail;
    assert source + " " + ("PONG " + tail) == source + " PONG " + tail;
  }

  lemma {:induction false} PassedExactly(side: Side, marker: string)
    ensures Passed(side, marker)
         == if marker in side.barriers && !side.barriers[marker]
            then Handled(side.(barriers := map k | k in side.barriers && k != marker :: side.barriers[k]))
            else Bad
  {
    assert side.barriers - {marker} == map k | k in side.barriers && k != marker :: side.barriers[k];
  }

  lemma {:induction false} PongDispatch(side: Side, line: string)
    requires Upper(SplitN(line, " ", 1)[0]) != "PING" && Command(line) == "PONG"
    ensures Dispatch(side, line) == Passed(side, AfterLast(line, " :", |line| - 1))
  {
    assert !IsDigit("PONG"[0]) && "PONG"[0] != "001"[0] && "PONG"[0] != "366"[0] && "PONG"[0] != "ERROR"[0];
    hide Split, SplitN, Upper, Command, AfterLast, Passed, Value;
  }

  // ---------------------------------------------------------------- reading

  /** A client at work: the ledger it shares and what is its own. */
  datatype Desk = Desk(ledger: Ledger, side: Side)

  ghost predicate Ready(cfg: Fanout, d: Desk, recipient: nat) {
    Strict(cfg) && Sound(cfg, d.ledger) && recipient < cfg.clients
  }

  ghost function Heard(cfg: Fanout, d: Desk, recipient: nat, line: string, now: int): (r: Option<Desk>)
    requires Ready(cfg, d, recipient)
    ensures r.Some? ==> Ready(cfg, r.value, recipient)
  {
    ReceiveKeeps(cfg, d.ledger, recipient, line, now);
    match Dispatch(d.side, line)
    case Bad => None
    case Handled(side) => Some(d.(side := side))
    case ToLedger =>
      if Verdict(cfg, d.ledger, recipient, line).Raised? then None
      else Some(d.(ledger := Receive(cfg, d.ledger, recipient, line, now)))
  }

  /** After the first `n` lines, or nothing once one of them raises; line `k` is stamped `clock(base + k)`. */
  ghost function Hear(cfg: Fanout, d: Desk, recipient: nat, lines: seq<string>, clock: nat -> int, base: nat, n: nat):
      (r: Option<Desk>)
    requires Ready(cfg, d, recipient) && n <= |lines|
    ensures r.Some? ==> Ready(cfg, r.value, recipient)
  {
    if n == 0 then Some(d)
    else
      var before := Hear(cfg, d, recipient, lines, clock, base, n - 1);
      if before.None? then None
      else Heard(cfg, before.value, recipient, lines[n - 1], clock(base + n - 1))
  }

  datatype Reading = Reading(desk: Desk, pending: string, lines: nat) | Failed

  /**
   Chunk by chunk: the framer is fed, and its lines are heard before the next read; an empty
   read is a disconnection.
   */
  ghost function Read(cfg: Fanout, d: Desk, recipient: nat, chunks: seq<string>, clock: nat -> int): (r: Reading)
    requires Ready(cfg, d, recipient)
    ensures r.Reading? ==> Ready(cfg, r.desk, recipient)
  {
    if chunks == [] then Reading(d, "", 0)
    else
      var before := Read(cfg, d, recipient, Init(chunks), clock);
      if before.Failed? || Last(chunks) == "" then Failed
      else
        var fed := LineFraming.Feed(before.pending, Last(chunks));
        if !fed.Lines? then Failed
        else
          var k := before.lines;
          var after := Hear(cfg, before.desk, recipient, fed.lines, clock, k, |fed.lines|);
          if after.None? then Failed
          else Reading(after.value, LineFraming.Pending(before.pending, Last(chunks)), k + |fed.lines|)
  }

  lemma {:induction false} HearNext(cfg: Fanout, d: Desk, recipient: nat, lines: seq<string>, clock: nat -> int,
      base: nat, n: nat)
    requires Ready(cfg, d, recipient) && n < |lines|
    ensures var before := Hear(cfg, d, recipient, lines, clock, base, n);
            Hear(cfg, d, recipient, lines, clock, base, n + 1)
            == if before.None? then None else Heard(cfg, before.value, recipient, lines[n], clock(base + n))
  {
    hide Ready, Heard;
  }

  lemma {:induction false} HearNothing(cfg: Fanout, d: Desk, recipient: nat, lines: seq<string>, clock: nat -> int,
      base: nat)
    requires Ready(cfg, d, recipient)
    ensures Hear(cfg, d, recipient, lines, clock, base, 0) == Some(d)
  {}

  lemma {:induction false} HearPrefix(cfg: Fanout, d: Desk, recipient: nat, a: seq<string>, b: seq<string>,
      clock: nat -> int, base: nat, n: nat)
    requires Ready(cfg, d, recipient) && n <= |a| && n <= |b|
    requires forall i :: 0 <= i < n ==> a[i] == b[i]
    ensures Hear(cfg, d, recipient, a, clock, base, n) == Hear(cfg, d, recipient, b, clock, base, n)
  {
    hide *;
    if n > 0 {
      var m := n - 1;
      HearPrefix(cfg, d, recipient, a, b, clock, base, m);
      HearNext(cfg, d, recipient, a, clock, base, m);
      HearNext(cfg, d, recipient, b, clock, base, m);
    } else {
      HearNothing(cfg, d, recipient, a, clock, base);
      HearNothing(cfg, d, recipient, b, clock, base);
    }
  }

  /** Hearing can stop anywhere and go on. */
  lemma {:induction false} HearResumes(cfg: Fanout, d: Desk, recipient: nat, a: seq<string>, b: seq<string>,
      clock: nat -> int, n: nat)
    requires Ready(cfg, d, recipient) && n <= |b|
    ensures var mid := Hear(cfg, d, recipient, a, clock, 0, |a|);
            Hear(cfg, d, recipient, a + b, clock, 0, |a| + n)
            == if mid.None? then None else Hear(cfg, mid.value, recipient, b, clock, |a|, n)
  {
    hide *;
    var mid := Hear(cfg, d, recipient, a, clock, 0, |a|);
    if n > 0 {
      var m := n - 1;
      HearResumes(cfg, d, recipient, a, b, clock, m);
      HearNext(cfg, d, recipient, a + b, clock, 0, |a| + m);
      if mid.Some? { HearNext(cfg, mid.value, recipient, b, clock, |a|, m); }
      assert (a + b)[|a| + m] == b[m];
    } else {
      HearPrefix(cfg, d, recipient, a + b, a, clock, 0, |a|);
      if mid.Some? { HearNothing(cfg, mid.value, recipient, b, clock, |a|); }
    }
  }

  /** Reading chunk by chunk is hearing the lines of the whole stream. */
  lemma {:induction false} ReadIsHear(cfg: Fanout, d: Desk, recipient: nat, chunks: seq<string>, clock: nat -> int)
    requires Ready(cfg, d, recipient) && LineFraming.FeedAll(chunks).Framed? && "" !in chunks
    ensures var framed := LineFraming.FeedAll(chunks);
            var heard := Hear(cfg, d, recipient, framed.lines, clock, 0, |framed.lines|);
            Read(cfg, d, recipient, chunks, clock)
            == if heard.None? then Failed else Reading(heard.value, framed.pending, |framed.lines|)
  {
    hide LineFraming.Feed, LineFraming.Pending, Heard, Hear, Ready;
    if chunks != [] {
      var before := LineFraming.FeedAll(Init(chunks));
      ReadIsHear(cfg, d, recipient, Init(chunks), clock);
      var more := LineFraming.Feed(before.pending, Last(chunks)).lines;
      HearResumes(cfg, d, recipient, before.lines, more, clock, |more|);
    } else {
      HearNothing(cfg, d, recipient, [], clock, 0);
    }
  }

  /** However the stream is cut within the framer's bounds, the ledger and the client end in the same state. */
  lemma {:induction false} CutsReachSameLedger(cfg: Fanout, d: Desk, recipient: nat, a: seq<string>, b: seq<string>,
      clock: nat -> int)
    requires Ready(cfg, d, recipient) && Concat(a) == Concat(b)
    requires LineFraming.FeedAll(a).Framed? && LineFraming.FeedAll(b).Framed? && "" !in a && "" !in b
    ensures Read(cfg, d, recipient, a, clock) == Read(cfg, d, recipient, b, clock)
  {
    hide *;
    LineFraming.CutsDoNotMatter(a, b);
    ReadIsHear(cfg, d, recipient, a, clock);
    ReadIsHear(cfg, d, recipient, b, clock);
  }

  // ---------------------------------------------------------------- the client and the ledger apart

  /** The client's own state after the first `n` lines, or nothing once it refuses one. */
  function SideAfter(side: Side, lines: seq<string>, n: nat): Option<Side>
    requires n <= |lines|
  {
    if n == 0 then Some(side)
    else
      var before := SideAfter(side, lines, n - 1);
      if before.None? then None
      else
        match Dispatch(before.value, lines[n - 1])
        case Bad => None
        case Handled(after) => Some(after)
        case ToLedger => before
  }

  /** The deliveries among the first `n` lines: those that the client leaves to the ledger. */
  function Deliveries(side: Side, recipient: nat, lines: seq<string>, clock: nat -> int, n: nat): seq<Event>
    requires n <= |lines|
  {
    if n == 0 then []
    else
      var before, at := Deliveries(side, recipient, lines, clock, n - 1), SideAfter(side, lines, n - 1);
      if at.Some? && Dispatch(at.value, lines[n - 1]) == ToLedger
      then before + [Delivers(recipient, lines[n - 1], clock(n - 1))]
      else before
  }

  /** The ledger after more events. */
  ghost function RunFrom(cfg: Fanout, l: Ledger, events: seq<Event>): (r: Option<Ledger>)
    requires Strict(cfg) && Sound(cfg, l)
    ensures r.Some? ==> Sound(cfg, r.value)
  {
    if events == [] then Some(l)
    else
      var before := RunFrom(cfg, l, Init(events));
      if before.None? then None else Step(cfg, before.value, Last(events))
  }

  lemma {:induction false} RunFromSnoc(cfg: Fanout, l: Ledger, events: seq<Event>, e: Event)
    requires Strict(cfg) && Sound(cfg, l)
    ensures var before := RunFrom(cfg, l, events);
            RunFrom(cfg, l, events + [e]) == if before.None? then None else Step(cfg, before.value, e)
  {
    hide Step, Strict, Sound;
    assert Init(events + [e]) == events && Last(events + [e]) == e;
  }

  /** The two put together, if neither has ended. */
  function Both(ledger: Option<Ledger>, side: Option<Side>): Option<Desk> {
    if ledger.None? || side.None? then None else Some(Desk(ledger.value, side.value))
  }

  /** One line is one delivery, one change of the client, or the end. */
  lemma {:induction false} HeardApart(cfg: Fanout, d: Desk, recipient: nat, line: string, now: int)
    requires Ready(cfg, d, recipient)
    ensures Heard(cfg, d, recipient, line, now)
         == match Dispatch(d.side, line)
            case Bad => None
            case Handled(side) => Some(Desk(d.ledger, side))
            case ToLedger => Both(Step(cfg, d.ledger, Delivers(recipient, line, now)), Some(d.side))
  {
    hide Dispatch, Sound, Verdict;
  }

  lemma {:induction false} SideNext(side: Side, lines: seq<string>, m: nat)
    requires m < |lines|
    ensures var before := SideAfter(side, lines, m);
            SideAfter(side, lines, m + 1)
            == if before.None? then None
               else match Dispatch(before.value, lines[m])
                    case Bad => None
                    case Handled(after) => Some(after)
                    case ToLedger => before
  {
    hide Dispatch;
  }

  lemma {:induction false} DeliveriesNext(side: Side, recipient: nat, lines: seq<string>, clock: nat -> int, m: nat)
    requires m < |lines|
    ensures var at := SideAfter(side, lines, m);
            Deliveries(side, recipient, lines, clock, m + 1)
            == Deliveries(side, recipient, lines, clock, m)
               + if at.Some? && Dispatch(at.value, lines[m]) == ToLedger
                 then [Delivers(recipient, lines[m], clock(m))] else []
  {
    hide Dispatch, SideAfter;
  }

  /** The ledger's side of one more line. */
  lemma {:induction false} LedgerNext(cfg: Fanout, d: Desk, recipient: nat, lines: seq<string>, clock: nat -> int,
      m: nat)
    requires Strict(cfg) && Sound(cfg, d.ledger) && m < |lines|
    ensures var at := SideAfter(d.side, lines, m);
            var before := RunFrom(cfg, d.ledger, Deliveries(d.side, recipient, lines, clock, m));
            var after := RunFrom(cfg, d.ledger, Deliveries(d.side, recipient, lines, clock, m + 1));
            if at.Some? && Dispatch(at.value, lines[m]) == ToLedger
            then after == if before.None? then
              None else Step(cfg, before.value, Delivers(recipient, lines[m], clock(m)))
            else after == before
  {
    hide *;
    var events := Deliveries(d.side, recipient, lines, clock, m);
    DeliveriesNext(d.side, recipient, lines, clock, m);
    RunFromSnoc(cfg, d.ledger, events, Delivers(recipient, lines[m], clock(m)));
    assert events + [] == events;
  }

  /** Hearing lines is two things side by side: the client's own folding, and the ledger's run of the deliveries. */
  lemma {:induction false} HearApart(cfg: Fanout, d: Desk, recipient: nat, lines: seq<string>, clock: nat -> int,
      n: nat)
    requires Strict(cfg) && Sound(cfg, d.ledger) && recipient < cfg.clients && n <= |lines|
    ensures Hear(cfg, d, recipient, lines, clock, 0, n)
         == Both(RunFrom(cfg, d.ledger, Deliveries(d.side, recipient, lines, clock, n)), SideAfter(d.side, lines, n))
  {
    hide *;
    ReadyIs(cfg, d, recipient);
    if n == 0 {
      ApartNothing(cfg, d, recipient, lines, clock);
    } else {
      var m := n - 1;
      HearApart(cfg, d, recipient, lines, clock, m);
      HearNext(cfg, d, recipient, lines, clock, 0, m);
      SideNext(d.side, lines, m);
      LedgerNext(cfg, d, recipient, lines, clock, m);
      var before := Hear(cfg, d, recipient, lines, clock, 0, m);
      BothIs(RunFrom(cfg, d.ledger, Deliveries(d.side, recipient, lines, clock, m)), SideAfter(d.side, lines, m));
      BothIs(RunFrom(cfg, d.ledger, Deliveries(d.side, recipient, lines, clock, n)), SideAfter(d.side, lines, n));
      if before.Some? {
        HeardApart(cfg, before.value, recipient, lines[m], clock(m));
        BothIs(Step(cfg, before.value.ledger, Delivers(recipient, lines[m], clock(m))), Some(before.value.side));
      }
    }
  }

  lemma {:induction false} BothIs(ledger: Option<Ledger>, side: Option<Side>)
    ensures Both(ledger, side) == if ledger.None? || side.None? then None else Some(Desk(ledger.value, side.value))
  {}

  lemma {:induction false} ReadyIs(cfg: Fanout, d: Desk, recipient: nat)
    ensures Ready(cfg, d, recipient) <==> Strict(cfg) && Sound(cfg, d.ledger) && recipient < cfg.clients
  {}

  lemma {:induction false} ApartNothing(cfg: Fanout, d: Desk, recipient: nat, lines: seq<string>, clock: nat -> int)
    requires Ready(cfg, d, recipient)
    ensures Strict(cfg) && Sound(cfg, d.ledger)
    ensures Hear(cfg, d, recipient, lines, clock, 0, 0)
         == Both(RunFrom(cfg, d.ledger, Deliveries(d.side, recipient, lines, clock, 0)), SideAfter(d.side, lines, 0))
  {
    HearNothing(cfg, d, recipient, lines, clock, 0);
  }
}
