/**
 Message identities of tools/bench_live.py: `phase_payload`, and the parsing half of
 `DeliveryLedger.receive`, which turns a complete IRC line into an identity or refuses it.
 Byte strings are strings of characters below 256.
 */
module PhasePayload {
  import opened Options
  import opened Splitting
  import opened Decimal

  const CHANNEL := "#bench"
  const MAGIC := "onyxbench"
  const PAYLOAD_SIZE := 128

  datatype Config = Config(runId: string, clients: nat)

  function Fill(n: nat): (r: string)
    ensures |r| == n && forall i :: 0 <= i < n ==> r[i] == 'x'
  {
    seq(n, _ => 'x')
  }

  /** Filled up with the letter x to 128 bytes. */
  function Pad(s: string): string {
    if |s| < PAYLOAD_SIZE then s + Fill(PAYLOAD_SIZE - |s|) else s
  }

  function Identity(phase: string, sender: nat, sequence: nat): string {
    phase + ":" + Dec(sender) + ":" + Dec(sequence) + ":"
  }

  function Payload(runId: string, phase: string, sender: nat, sequence: nat): string {
    Pad(MAGIC + ":" + runId + ":" + Identity(phase, sender, sequence))
  }

  // ---------------------------------------------------------------- receiving a line

  datatype Claim = NotPrivmsg | Refused(why: string) | Claim(phase: string, sender: nat, sequence: nat)

  function UpperChar(c: char): char {
    if 'a' <= c <= 'z' then ((c as int) - 32) as char else c
  }

  function Upper(s: string): string {
    seq(|s|, i requires 0 <= i < |s| => UpperChar(s[i]))
  }

  predicate StartsWith(s: string, c: char) { s != "" && s[0] == c }

  predicate Ascii(s: string) { forall i :: 0 <= i < |s| ==> s[i] as int < 128 }

  /** A tagged line without its tags: what stands after the first space. */
  function Untag(line: string): string {
    if StartsWith(line, '@') then
      var k := Find(line, " ");
      if k < 0 then "" else line[k + 1..]
    else line
  }

  function Parts(line: string): seq<string> { SplitN(Untag(line), " ", 3) }

  function Nick(prefix: string): string { SplitN(prefix, "!", 1)[0] }

  /** The identity checks, in the order the source makes them, on the colon fields of the payload. */
  function ClaimOf(cfg: Config, counts: map<string, nat>, recipient: nat, nick: string, payload: string,
      fields: seq<string>): Claim {
    if |fields| != 6 || !Ascii(fields[2]) then Refused("malformed message identity")
    else
      var phase, sender, sequence := fields[2], PyInt(fields[3]), PyInt(fields[4]);
      if sender.None? || sequence.None? then Refused("malformed message identity")
      else if fields[0] != MAGIC || fields[1] != cfg.runId || phase !in counts then Refused("unknown run or phase")
      else if !(0 <= sender.value < cfg.clients) || sender.value == recipient
        || !(0 <= sequence.value < counts[phase]) then
        Refused("unexpected sender/recipient/sequence")
      else if nick != ":lb" + Dec(sender.value) then
        Refused("prefix does not match sender identity")
      else if payload != Payload(cfg.runId, phase, sender.value, sequence.value) then
        Refused("payload changed")
      else Claim(phase, sender.value, sequence.value)
  }

  function IdentifyParts(cfg: Config, counts: map<string, nat>, recipient: nat, prefixed: bool,
      parts: seq<string>): Claim
    requires parts != []
  {
    var command := if prefixed && |parts| > 1 then parts[1] else parts[0];
    if Upper(command) != "PRIVMSG" then NotPrivmsg
    else if !prefixed || |parts| != 4 || parts[2] != CHANNEL || !StartsWith(parts[3], ':') then
      Refused("unexpected PRIVMSG target/framing")
    else
      var payload := parts[3][1..];
      ClaimOf(cfg, counts, recipient, Nick(parts[0]), payload, SplitN(payload, ":", 5))
  }

  function Identify(cfg: Config, counts: map<string, nat>, recipient: nat, line: string): Claim {
    IdentifyParts(cfg, counts, recipient, StartsWith(Untag(line), ':'), Parts(line))
  }

  lemma {:induction false} ClaimHolds(cfg: Config, counts: map<string, nat>, recipient: nat, nick: string,
      payload: string, fields: seq<string>)
    requires ClaimOf(cfg, counts, recipient, nick, payload, fields).Claim?
    ensures var c := ClaimOf(cfg, counts, recipient, nick, payload, fields);
            && c.phase in counts && c.sender < cfg.clients && c.sender != recipient && c.sequence < counts[c.phase]
            && payload == Payload(cfg.runId, c.phase, c.sender, c.sequence)
            && nick == ":lb" + Dec(c.sender)
  {}

  /** Accepted bytes are exactly the printed identity, so non-canonical integers never pass. */
  lemma {:induction false} ClaimIsExact(cfg: Config, counts: map<string, nat>, recipient: nat, line: string)
    requires Identify(cfg, counts, recipient, line).Claim?
    ensures var c := Identify(cfg, counts, recipient, line);
            && c.phase in counts && c.sender < cfg.clients && c.sender != recipient && c.sequence < counts[c.phase]
            && |Parts(line)| == 4
            && Parts(line)[3] == ":" + Payload(cfg.runId, c.phase, c.sender, c.sequence)
            && Nick(Parts(line)[0]) == ":lb" + Dec(c.sender)
  {
    var parts := Parts(line);
    var payload := parts[3][1..];
    assert parts[3] == [':'] + payload;
    ClaimHolds(cfg, counts, recipient, Nick(parts[0]), payload, SplitN(payload, ":", 5));
  }

  // ---------------------------------------------------------------- payloads are distinct

  function StripFill(s: string): string {
    if s != "" && s[|s| - 1] == 'x' then StripFill(s[..|s| - 1]) else s
  }

  lemma {:induction false} StripOfFill(s: string, n: nat)
    requires s != "" && s[|s| - 1] != 'x'
    ensures StripFill(s + Fill(n)) == s
  {
    if n == 0 {
      assert s + Fill(0) == s;
    } else {
      assert (s + Fill(n))[..|s| + n - 1] == s + Fill(n - 1);
      StripOfFill(s, n - 1);
    }
  }

  lemma {:induction false} StripOfPad(s: string)
    requires s != "" && s[|s| - 1] != 'x'
    ensures StripFill(Pad(s)) == s
  {
    if |s| < PAYLOAD_SIZE { StripOfFill(s, PAYLOAD_SIZE - |s|); }
  }

  lemma {:induction false} ColonPlace(a: string, d: string, b: string, e: string)
    requires a + ":" + d == b + ":" + e && AllDigits(e)
    ensures |a| <= |b|
  {
    var s := a + ":" + d;
    assert s[|a|] == ':';
    assert forall i :: |b| < i < |s| ==> s[i] == e[i - |b| - 1];
  }

  /** The number after the last colon, and everything before it, can be read off. */
  lemma {:induction false} LastNumber(a: string, m: nat, b: string, n: nat)
    requires a + ":" + Dec(m) + ":" == b + ":" + Dec(n) + ":"
    ensures a == b && m == n
  {
    var d, e := Dec(m), Dec(n);
    var s, t := a + ":" + d, b + ":" + e;
    assert s == (s + ":")[..|s + ":"| - 1] && t == (t + ":")[..|t + ":"| - 1];
    ColonPlace(a, d, b, e);
    ColonPlace(b, e, a, d);
    assert s[..|a|] == a && t[..|b|] == b;
    assert s[|a| + 1..] == d && t[|b| + 1..] == e;
    DecInjective(m, n);
  }

  /** Distinct identities never share a payload, for any run and any phase names. */
  lemma {:induction false} PayloadInjective(runId: string, p: string, s: nat, q: nat, p': string, s': nat, q': nat)
    requires Payload(runId, p, s, q) == Payload(runId, p', s', q')
    ensures p == p' && s == s' && q == q'
  {
    var head := MAGIC + ":" + runId + ":";
    var x, y := Identity(p, s, q), Identity(p', s', q');
    StripOfPad(head + x);
    StripOfPad(head + y);
    assert (head + x)[|head|..] == x && (head + y)[|head|..] == y;
    LastNumber(p + ":" + Dec(s), q, p' + ":" + Dec(s'), q');
    assert p + ":" + Dec(s) + ":" == p' + ":" + Dec(s') + ":";
    LastNumber(p, s, p', s');
  }

  // ---------------------------------------------------------------- canonical lines

  lemma {:induction false} SplitNHead(x: string, c: char, rest: string, n: nat)
    requires c !in x && n > 0
    ensures SplitN(x + [c] + rest, [c], n) == [x] + SplitN(rest, [c], n - 1)
  {
    var s := x + [c] + rest;
    SplitHead(x, c, rest);
    assert s[..|x|] == x && s[|x| + |[c]|..] == rest;
  }

  lemma {:induction false} DigitsHave(n: nat, c: char)
    requires !IsDigit(c)
    ensures c !in Dec(n)
  {}

  /** What follows the identity in a payload. */
  function Tail(runId: string, phase: string, sender: nat, sequence: nat): (r: string)
    ensures Payload(runId, phase, sender, sequence) == MAGIC + ":" + runId + ":" + Identity(phase, sender, sequence) + r
  {
    var s := MAGIC + ":" + runId + ":" + Identity(phase, sender, sequence);
    if |s| < PAYLOAD_SIZE then Fill(PAYLOAD_SIZE - |s|)
    else
      assert s + "" == s;
      ""
  }

  /** Every field followed by the separator, then the rest. */
  function Nest(xs: seq<string>, c: char, t: string): string {
    if xs == [] then t else xs[0] + [c] + Nest(xs[1..], c, t)
  }

  lemma {:induction false} SplitNZero(t: string, c: char)
    ensures SplitN(t, [c], 0) == [t]
  {}

  lemma {:induction false} SplitNest(xs: seq<string>, c: char, t: string)
    requires forall x :: x in xs ==> c !in x
    ensures SplitN(Nest(xs, c, t), [c], |xs|) == xs + [t]
  {
    hide SplitN;
    if xs == [] {
      SplitNZero(t, c);
    } else {
      assert xs[0] in xs;
      var rest := Nest(xs[1..], c, t);
      SplitNest(xs[1..], c, t);
      SplitNHead(xs[0], c, rest, |xs|);
      assert Nest(xs, c, t) == xs[0] + [c] + rest;
      hide Nest;
      assert [xs[0]] + (xs[1..] + [t]) == xs + [t];
    }
  }

  lemma {:induction false} NestAppend(xs: seq<string>, y: string, c: char, t: string)
    ensures Nest(xs + [y], c, t) == Nest(xs, c, y + [c] + t)
  {
    if xs == [] {
      assert ([] + [y])[1..] == [];
    } else {
      NestAppend(xs[1..], y, c, t);
      assert (xs + [y])[1..] == xs[1..] + [y];
    }
  }

  lemma {:induction false} Nest3(a: string, b: string, d: string, c: char, t: string)
    ensures Nest([a, b, d], c, t) == a + [c] + (b + [c] + (d + [c] + t))
  {
    assert [a, b, d][1..] == [b, d] && [b, d][1..] == [d] && [d][1..] == [];
    assert Nest([d], c, t) == d + [c] + t;
    assert Nest([b, d], c, t) == b + [c] + (d + [c] + t);
  }

  lemma {:induction false} Assoc(a: string, c: char, b: string, t: string)
    ensures (a + [c] + b) + t == a + [c] + (b + t)
  {}

  lemma {:induction false} AssocFields(a: string, b: string, d: string, e: string, f: string, c: char, t: string)
    ensures a + [c] + b + [c] + (d + [c] + e + [c] + f + [c]) + t == Nest([a, b, d, e, f], c, t)
  {
    var in1, in2 := f + [c] + t, e + [c] + (f + [c] + t);
    Nest3(a, b, d, c, in2);
    NestAppend([a, b, d], e, c, in1);
    NestAppend([a, b, d] + [e], f, c, t);
    assert [a, b, d] + [e] + [f] == [a, b, d, e, f];
    var tail := d + [c] + e + [c] + f + [c];
    assert tail == d + [c] + (e + [c] + (f + [c]));
    Assoc(d, c, e + [c] + (f + [c]), t);
    Assoc(e, c, f + [c], t);
    assert tail + t == d + [c] + in2;
    assert a + [c] + b + [c] + tail + t == a + [c] + (b + [c] + (tail + t));
  }

  lemma {:induction false} PayloadFields(runId: string, phase: string, sender: nat, sequence: nat)
    requires ':' !in runId && ':' !in phase
    ensures SplitN(Payload(runId, phase, sender, sequence), ":", 5) ==
            [MAGIC, runId, phase, Dec(sender), Dec(sequence)] + [Tail(runId, phase, sender, sequence)]
  {
    var t := Tail(runId, phase, sender, sequence);
    var xs := [MAGIC, runId, phase, Dec(sender), Dec(sequence)];
    AssocFields(MAGIC, runId, phase, Dec(sender), Dec(sequence), ':', t);
    DigitsHave(sequence, ':');
    DigitsHave(sender, ':');
    SplitNest(xs, ':', t);
  }

  /** Who a relayed line names: the nick, optionally followed by `!user@host`. */
  predicate IsSource(sender: nat, source: string) {
    var nick := ":lb" + Dec(sender);
    ' ' !in source && |source| >= |nick| && source[..|nick|] == nick && (|source| == |nick| || source[|nick|] == '!')
  }

  predicate IsTag(tag: string) {
    tag == "" || (|tag| >= 2 && tag[0] == '@' && tag[|tag| - 1] == ' ' && ' ' !in tag[..|tag| - 1])
  }

  /** A relayed message: optional tags, source, command, channel and the exact payload. */
  function Relayed(runId: string, tag: string, source: string, phase: string, sender: nat, sequence: nat): string {
    tag + Nest([source, "PRIVMSG", CHANNEL], ' ', ":" + Payload(runId, phase, sender, sequence))
  }

  lemma {:induction false} UntagRelayed(tag: string, rest: string)
    requires IsTag(tag) && !StartsWith(rest, '@')
    ensures Untag(tag + rest) == rest
  {
    if tag == "" {
      assert tag + rest == rest;
    } else {
      var head := tag[..|tag| - 1];
      assert tag + rest == head + [' '] + rest;
      SplitHead(head, ' ', rest);
      assert (tag + rest)[|head| + 1..] == rest;
    }
  }

  lemma {:induction false} SourceNick(sender: nat, source: string)
    requires IsSource(sender, source)
    ensures Nick(source) == ":lb" + Dec(sender)
    ensures StartsWith(source, ':')
  {
    var nick := ":lb" + Dec(sender);
    DigitsHave(sender, '!');
    assert '!' !in nick;
    if |source| == |nick| {
      assert source == nick;
      FindOne(source, '!');
    } else {
      assert source == nick + ['!'] + source[|nick| + 1..];
      SplitNHead(nick, '!', source[|nick| + 1..], 1);
    }
  }

  /** A line of three words and a rest, tagged or not, is taken apart as such. */
  lemma {:induction false} LineParts(tag: string, a: string, b: string, c: string, rest: string)
    requires IsTag(tag) && ' ' !in a && ' ' !in b && ' ' !in c && StartsWith(a, ':')
    ensures var line := tag + Nest([a, b, c], ' ', rest);
            StartsWith(Untag(line), ':') && Parts(line) == [a, b, c] + [rest]
  {
    var xs := [a, b, c];
    Nest3(a, b, c, ' ', rest);
    assert StartsWith(Nest(xs, ' ', rest), ':');
    UntagRelayed(tag, Nest(xs, ' ', rest));
    SplitNest(xs, ' ', rest);
  }

  lemma {:induction false} RelayedParts(runId: string, tag: string, source: string, phase: string, sender: nat,
      sequence: nat)
    requires IsTag(tag) && IsSource(sender, source)
    ensures var line := Relayed(runId, tag, source, phase, sender, sequence);
            && StartsWith(Untag(line), ':')
            && Parts(line) == [source, "PRIVMSG", CHANNEL] + [":" + Payload(runId, phase, sender, sequence)]
  {
    SourceNick(sender, source);
    LineParts(tag, source, "PRIVMSG", CHANNEL, ":" + Payload(runId, phase, sender, sequence));
  }

  lemma {:induction false} UpperPrivmsg()
    ensures Upper("PRIVMSG") == "PRIVMSG"
  {}

  /** The command is recognised in any mixture of cases, and nothing else is. */
  lemma {:induction false} AnyCase(word: string)
    ensures Upper(word) == "PRIVMSG"
       <==> |word| == 7 && forall i :: 0 <= i < 7 ==> word[i] == "PRIVMSG"[i] || word[i] == "privmsg"[i]
  {
    if |word| == 7 {
      forall i | 0 <= i < 7
        ensures UpperChar(word[i]) == "PRIVMSG"[i] <==> word[i] == "PRIVMSG"[i] || word[i] == "privmsg"[i]
      {
        UpperOne(word[i], i);
      }
    }
  }

  lemma {:induction false} UpperOne(c: char, i: nat)
    requires i < 7
    ensures UpperChar(c) == "PRIVMSG"[i] <==> c == "PRIVMSG"[i] || c == "privmsg"[i]
  {
    assert "PRIVMSG"[i] as int + 32 == "privmsg"[i] as int && 'A' <= "PRIVMSG"[i] <= 'Z';
  }

  /** A payload is its identity, filled up with the letter x to 128 bytes and no further. */
  lemma {:induction false} PayloadSize(runId: string, phase: string, sender: nat, sequence: nat)
    ensures var identity := "onyxbench:" + runId + ":" + phase + ":" + Dec(sender) + ":" + Dec(sequence) + ":";
            var payload := Payload(runId, phase, sender, sequence);
            && |payload| == (if |identity| < 128 then 128 else |identity|)
            && payload[..|identity|] == identity
            && forall i :: |identity| <= i < |payload| ==> payload[i] == 'x'
  {
    var identity := "onyxbench:" + runId + ":" + phase + ":" + Dec(sender) + ":" + Dec(sequence) + ":";
    assert identity == MAGIC + ":" + runId + ":" + Identity(phase, sender, sequence);
  }

  /** No colon survives into a field before the last. */
  lemma {:induction false} FieldsHaveNoColon(s: string, n: nat)
    ensures forall i :: 0 <= i < |SplitN(s, ":", n)| - 1 ==> ':' !in SplitN(s, ":", n)[i]
    decreases n
  {
    var k := Find(s, ":");
    FindOne(s, ':');
    if n > 0 && k >= 0 {
      FieldsHaveNoColon(s[k + |":"|..], n - 1);
    }
  }

  /**
   A relayed line is accepted for its identity exactly when that identity is expected and
   the run and phase names can survive the colon split.
   */
  lemma {:induction false} RelayedAccepted(cfg: Config, counts: map<string, nat>, recipient: nat,
                        tag: string, source: string, phase: string, sender: nat, sequence: nat)
    requires IsTag(tag) && IsSource(sender, source)
    ensures Identify(cfg, counts, recipient, Relayed(cfg.runId, tag, source, phase, sender, sequence))
        == Claim(phase, sender, sequence)
       <==> && ':' !in cfg.runId && ':' !in phase && Ascii(phase)
            && phase in counts && sender < cfg.clients && sender != recipient && sequence < counts[phase]
  {
    RelayedIdentify(cfg, counts, recipient, tag, source, phase, sender, sequence);
    ClaimOfPayload(cfg, counts, recipient, phase, sender, sequence);
  }

  /** The conditions under which an identity is expected at all. */
  predicate Expected(cfg: Config, counts: map<string, nat>, recipient: nat, p: string, s: nat, q: nat) {
    && ':' !in cfg.runId && ':' !in p && Ascii(p)
    && p in counts && s < cfg.clients && s != recipient && q < counts[p]
  }

  lemma {:induction false} ClaimOfPayload(cfg: Config, counts: map<string, nat>, recipient: nat, p: string, s: nat,
      q: nat)
    ensures var payload := Payload(cfg.runId, p, s, q);
            var c := ClaimOf(cfg, counts, recipient, ":lb" + Dec(s), payload, SplitN(payload, ":", 5));
            c == Claim(p, s, q) <==> Expected(cfg, counts, recipient, p, s, q)
  {
    hide ClaimOf, Payload, SplitN, PyInt, Dec, Tail;
    var payload := Payload(cfg.runId, p, s, q);
    var fields := SplitN(payload, ":", 5);
    if ':' !in cfg.runId && ':' !in p {
      PayloadFields(cfg.runId, p, s, q);
      PyIntOfDec(s);
      PyIntOfDec(q);
      KnownFields(cfg, counts, recipient, p, s, q, fields);
    } else {
      FieldsHaveNoColon(payload, 5);
      ColonRefused(cfg, counts, recipient, p, s, q, fields);
    }
  }

  /** What a line must be to carry message `q` of sender `s` in phase `p`. */
  predicate Carries(cfg: Config, line: string, p: string, s: nat, q: nat) {
    && StartsWith(Untag(line), ':')
    && |Parts(line)| == 4
    && Upper(Parts(line)[1]) == "PRIVMSG"
    && Parts(line)[2] == "#bench"
    && Parts(line)[3] == ":" + Payload(cfg.runId, p, s, q)
    && Nick(Parts(line)[0]) == ":lb" + Dec(s)
  }

  /** For every line: it is identified exactly when it carries an expected message, and as that message. */
  lemma {:induction false} IdentifyExactly(cfg: Config, counts: map<string, nat>, recipient: nat, line: string,
      p: string, s: nat, q: nat)
    ensures Identify(cfg, counts, recipient, line) == Claim(p, s, q)
       <==> Carries(cfg, line, p, s, q) && Expected(cfg, counts, recipient, p, s, q)
  {
    var parts, payload := Parts(line), Payload(cfg.runId, p, s, q);
    ClaimOfPayload(cfg, counts, recipient, p, s, q);
    if Identify(cfg, counts, recipient, line) == Claim(p, s, q) {
      ClaimIsExact(cfg, counts, recipient, line);
      assert (":" + payload)[1..] == payload;
      hide ClaimOf, Payload, SplitN, Untag;
    } else if Carries(cfg, line, p, s, q) {
      assert (":" + payload)[1..] == payload;
      hide ClaimOf, Payload, SplitN, Untag;
    }
  }

  /** For every line: it is passed over exactly when its command is another. */
  lemma {:induction false} IgnoredExactly(cfg: Config, counts: map<string, nat>, recipient: nat, line: string)
    ensures var words := Parts(line);
            var command := if StartsWith(Untag(line), ':') && |words| > 1 then words[1] else words[0];
            Identify(cfg, counts, recipient, line).NotPrivmsg? <==> Upper(command) != "PRIVMSG"
  {
    hide ClaimOf, Untag, SplitN;
    var words := Parts(line);
    if |words| == 4 && words[3] != "" {
      ClaimNeverIgnores(cfg, counts, recipient, Nick(words[0]), words[3][1..]);
    }
  }

  lemma {:induction false} ClaimNeverIgnores(cfg: Config, counts: map<string, nat>, recipient: nat, nick: string,
      payload: string)
    ensures !ClaimOf(cfg, counts, recipient, nick, payload, SplitN(payload, ":", 5)).NotPrivmsg?
  {}

  lemma {:induction false} RelayedIdentify(cfg: Config, counts: map<string, nat>, recipient: nat,
                        tag: string, source: string, phase: string, sender: nat, sequence: nat)
    requires IsTag(tag) && IsSource(sender, source)
    ensures var payload := Payload(cfg.runId, phase, sender, sequence);
            Identify(cfg, counts, recipient, Relayed(cfg.runId, tag, source, phase, sender, sequence)) ==
            ClaimOf(cfg, counts, recipient, ":lb" + Dec(sender), payload, SplitN(payload, ":", 5))
  {
    RelayedParts(cfg.runId, tag, source, phase, sender, sequence);
    SourceNick(sender, source);
    PrivmsgParts(cfg, counts, recipient, source, Payload(cfg.runId, phase, sender, sequence));
  }

  lemma {:induction false} PrivmsgParts(cfg: Config, counts: map<string, nat>, recipient: nat, source: string,
      payload: string)
    ensures IdentifyParts(cfg, counts, recipient, true, [source, "PRIVMSG", CHANNEL] + [":" + payload]) ==
            ClaimOf(cfg, counts, recipient, Nick(source), payload, SplitN(payload, ":", 5))
  {
    UpperPrivmsg();
    assert (":" + payload)[1..] == payload;
  }

  lemma {:induction false} ColonRefused(cfg: Config, counts: map<string, nat>, recipient: nat, phase: string,
      sender: nat, sequence: nat, fields: seq<string>)
    requires ':' in cfg.runId || ':' in phase
    requires forall i :: 0 <= i < |fields| - 1 ==> ':' !in fields[i]
    ensures ClaimOf(cfg, counts, recipient, ":lb" + Dec(sender), Payload(cfg.runId, phase, sender, sequence), fields)
         != Claim(phase, sender, sequence)
  {}

  lemma {:induction false} KnownFields(cfg: Config, counts: map<string, nat>, recipient: nat, phase: string,
      sender: nat, sequence: nat, fields: seq<string>)
    requires |fields| == 6 && fields[0] == MAGIC && fields[1] == cfg.runId && fields[2] == phase
    requires PyInt(fields[3]) == Some(sender) && PyInt(fields[4]) == Some(sequence)
    ensures ClaimOf(cfg, counts, recipient, ":lb" + Dec(sender), Payload(cfg.runId, phase, sender, sequence), fields)
        == Claim(phase, sender, sequence)
       <==> Ascii(phase) && phase in counts && sender < cfg.clients && sender != recipient && sequence < counts[phase]
  {}
}
