/**
 The SCRAM client of tools/scram_fixture.py.
 Hash, HMAC, PBKDF2 and base64 are parameters; only lengths and decoding are known of them.
 */
module Scram {
  import opened Options
  import opened Xors
  import opened Splitting
  import opened Decimal
  import opened ScramFields

  /** The primitives of one digest; `size` is its output length. */
  datatype Suite = Suite(
    size: nat,
    hash: Bytes -> Bytes,
    mac: (Bytes, Bytes) -> Bytes,
    kdf: (Bytes, Bytes, nat) -> Bytes,
    encode: Bytes -> Bytes,
    decode: Bytes -> Option<Bytes>)

  /** Base64 without line breaks: four characters for three bytes, never a comma, and it decodes. */
  ghost predicate Encodes(suite: Suite, x: Bytes) {
    && |suite.encode(x)| == 4 * ((|x| + 2) / 3)
    && COMMA !in suite.encode(x)
    && suite.decode(suite.encode(x)) == Some(x)
  }

  ghost predicate Sound(suite: Suite) {
    && suite.size <= 64
    && (forall key, text :: |suite.mac(key, text)| == suite.size)
    && (forall x :: Encodes(suite, x))
  }

  // Message pieces, as ASCII bytes.
  const LETTER_C: byte := 99
  const LETTER_I: byte := 105
  const LETTER_N: byte := 110
  const LETTER_P: byte := 112
  const LETTER_R: byte := 114
  const LETTER_S: byte := 115
  const LETTER_V: byte := 118
  const BIWS: Bytes := [98, 105, 119, 115]
  const CLIENT_KEY: Bytes := [67, 108, 105, 101, 110, 116, 32, 75, 101, 121]
  const SERVER_KEY: Bytes := [83, 101, 114, 118, 101, 114, 32, 75, 101, 121]

  predicate NonceByte(c: byte) { 0x21 <= c <= 0x7e && c != COMMA }
  predicate NonceBytes(s: Bytes) { forall i :: 0 <= i < |s| ==> NonceByte(s[i]) }

  /** Lower-case letters, digits, `_`, `-` and `.`. */
  predicate AccountByte(c: byte) { 97 <= c <= 122 || 48 <= c <= 57 || c in [95, 45, 46] }

  predicate GoodAccount(s: Bytes) { 0 < |s| <= 32 && forall i :: 0 <= i < |s| ==> AccountByte(s[i]) }
  predicate GoodNonce(s: Bytes) { 16 <= |s| <= 128 && NonceBytes(s) }

  /** The first message without its channel-binding prefix: account, then nonce. */
  function Bare(account: Bytes, nonce: Bytes): Bytes {
    [LETTER_N, EQUALS] + account + [COMMA, LETTER_R, EQUALS] + nonce
  }

  // ---------------------------------------------------------------- the challenge

  predicate Digit(c: byte) { 0x30 <= c <= 0x39 }

  /** The bytes as characters. */
  function AsText(s: Bytes): (r: string)
    ensures |r| == |s| && forall i :: 0 <= i < |s| ==> r[i] == s[i] as char
  {
    seq(|s|, i requires 0 <= i < |s| => s[i] as char)
  }

  lemma {:induction false} DigitsAreDigits(s: Bytes)
    requires forall i :: 0 <= i < |s| ==> Digit(s[i])
    ensures AllDigits(AsText(s))
  {
    forall i | 0 <= i < |s| ensures IsDigit(AsText(s)[i]) { assert Digit(s[i]); }
  }

  function Number(s: Bytes): nat
    requires forall i :: 0 <= i < |s| ==> Digit(s[i])
  {
    DigitsAreDigits(s);
    Value(AsText(s))
  }

  datatype Challenge = Challenge(nonce: Bytes, salt: Bytes, count: nat)

  predicate GoodCount(s: Bytes) {
    1 <= |s| <= 7 && (forall i :: 0 <= i < |s| ==> Digit(s[i])) && 1 <= Number(s) <= 1_000_000
  }

  /** The server's nonce extends the client's. */
  predicate Extends(own: Bytes, nonce: Bytes) {
    own <= nonce && |own| < |nonce| <= 256 && NonceBytes(nonce)
  }

  /** The checks of `respond` on the server's first message. */
  function ReadChallenge(suite: Suite, own: Bytes, serverFirst: Bytes): Option<Challenge> {
    var values := Fields(serverFirst);
    if values.None? || values.value.Keys != {LETTER_R, LETTER_S, LETTER_I} then None
    else
      var nonce, iterations := values.value[LETTER_R], values.value[LETTER_I];
      if !Extends(own, nonce) || !GoodCount(iterations) then None
      else
        var salt := suite.decode(values.value[LETTER_S]);
        if salt.None? || !(1 <= |salt.value| <= 64) then None
        else Some(Challenge(nonce, salt.value, Number(iterations)))
  }

  // ---------------------------------------------------------------- keys and proofs

  function Salted(suite: Suite, password: Bytes, c: Challenge): Bytes { suite.kdf(password, c.salt, c.count) }
  function ClientKey(suite: Suite, salted: Bytes): Bytes { suite.mac(salted, CLIENT_KEY) }
  function StoredKey(suite: Suite, salted: Bytes): Bytes { suite.hash(ClientKey(suite, salted)) }
  function ServerKey(suite: Suite, salted: Bytes): Bytes { suite.mac(salted, SERVER_KEY) }

  /** The final message without its proof: channel binding, then nonce. */
  function FinalStart(nonce: Bytes): Bytes {
    [LETTER_C, EQUALS] + BIWS + [COMMA, LETTER_R, EQUALS] + nonce
  }

  function Auth(bare: Bytes, serverFirst: Bytes, finalStart: Bytes): Bytes {
    bare + [COMMA] + serverFirst + [COMMA] + finalStart
  }

  datatype Answer = Answer(message: Bytes, signature: Bytes)

  function Answered(suite: Suite, bare: Bytes, serverFirst: Bytes, password: Bytes, c: Challenge): Answer {
    var salted := Salted(suite, password, c);
    var final := FinalStart(c.nonce);
    var auth := Auth(bare, serverFirst, final);
    var proof := XorAll(ClientKey(suite, salted), suite.mac(StoredKey(suite, salted), auth));
    Answer(final + [COMMA, LETTER_P, EQUALS] + suite.encode(proof), suite.mac(ServerKey(suite, salted), auth))
  }

  /** `verify` on a client that expects `signature`. */
  predicate Verifies(suite: Suite, signature: Bytes, serverFinal: Bytes) {
    var values := Fields(serverFinal);
    values.Some? && values.value.Keys == {LETTER_V} && suite.decode(values.value[LETTER_V]) == Some(signature)
  }

  // ---------------------------------------------------------------- the client

  class Client {
    const suite: Suite
    const nonce: Bytes
    const bare: Bytes
    const first: Bytes
    var signature: Option<Bytes>

    constructor (suite: Suite, account: Bytes, nonce: Bytes)
      requires GoodAccount(account) && GoodNonce(nonce)
      ensures this.suite == suite && this.nonce == nonce && signature == None
      ensures bare == Bare(account, nonce) && first == [LETTER_N, COMMA, COMMA] + bare
    {
      this.suite, this.nonce, this.signature := suite, nonce, None;
      bare := [LETTER_N, EQUALS] + account + [COMMA, LETTER_R, EQUALS] + nonce;
      first := [LETTER_N, COMMA, COMMA] + ([LETTER_N, EQUALS] + account + [COMMA, LETTER_R, EQUALS] + nonce);
    }

    /** Succeeds exactly on a fresh client with an acceptable challenge; a refusal changes nothing. */
    method Respond(serverFirst: Bytes, password: Bytes) returns (final: Option<Bytes>)
      modifies this`signature
      ensures signature == After(suite, nonce, bare, old(signature), Call.Respond(serverFirst, password))
      ensures final.Some? <==> old(signature).None? && ReadChallenge(suite, nonce, serverFirst).Some?
      ensures final.None? ==> signature == old(signature)
      ensures final.Some? ==>
                var answer := Answered(suite, bare, serverFirst, password,
                  ReadChallenge(suite, nonce, serverFirst).value);
                final == Some(answer.message) && signature == Some(answer.signature)
    {
      if signature.Some? { return None; }
      var values := ReadFields(serverFirst);
      if values.None? || values.value.Keys != {LETTER_R, LETTER_S, LETTER_I} { return None; }
      var given, iterations := values.value[LETTER_R], values.value[LETTER_I];
      if !Extends(nonce, given) || !GoodCount(iterations) { return None; }
      var count := Number(iterations);
      var salt := suite.decode(values.value[LETTER_S]);
      if salt.None? || !(1 <= |salt.value| <= 64) { return None; }
      var salted := suite.kdf(password, salt.value, count);
      var clientKey := suite.mac(salted, CLIENT_KEY);
      var storedKey := suite.hash(clientKey);
      var start := [LETTER_C, EQUALS] + BIWS + [COMMA, LETTER_R, EQUALS] + given;
      var auth := bare + [COMMA] + serverFirst + [COMMA] + start;
      var clientSignature := suite.mac(storedKey, auth);
      var proof := XorAll(clientKey, clientSignature);
      var serverKey := suite.mac(salted, SERVER_KEY);
      signature := Some(suite.mac(serverKey, auth));
      return Some(start + [COMMA, LETTER_P, EQUALS] + suite.encode(proof));
    }

    method Verify(serverFinal: Bytes) returns (ok: bool)
      ensures ok <==> signature.Some? && Verifies(suite, signature.value, serverFinal)
    {
      if signature.None? { return false; }
      var values := ReadFields(serverFinal);
      if values.None? || values.value.Keys != {LETTER_V} { return false; }
      return suite.decode(values.value[LETTER_V]) == signature;
    }
  }

  /** A new client, refused on anything but a known digest and canonical arguments. */
  method NewClient(suites: string -> Suite, account: Bytes, nonce: Bytes, digest: string) returns (c: Client?)
    ensures c != null <==> digest in ["sha256", "sha512"] && GoodAccount(account) && GoodNonce(nonce)
    ensures c != null ==> fresh(c) && c.suite == suites(digest) && c.nonce == nonce && c.signature == None
    ensures c != null ==> c.bare == Bare(account, nonce) && c.first == [LETTER_N, COMMA, COMMA] + c.bare
  {
    if digest !in ["sha256", "sha512"] || !GoodAccount(account) || !GoodNonce(nonce) { return null; }
    c := new Client(suites(digest), account, nonce);
  }

  // ---------------------------------------------------------------- messages of three attributes

  lemma {:induction false} JoinThree(a: Bytes, b: Bytes, c: Bytes)
    ensures Join([a, b, c], [COMMA]) == a + [COMMA] + b + [COMMA] + c
  {
    assert [a, b, c][1..] == [b, c] && [b, c][1..] == [c];
    assert Join([b, c], [COMMA]) == b + [COMMA] + c;
  }

  /** A message of three attributes reads back as those three. */
  lemma {:induction false} ThreeFields(a: Pair, b: Pair, c: Pair, message: Bytes)
    requires WellFormed([a, b, c]) && |message| <= MAX_MESSAGE
    requires message == Printed(a) + [COMMA] + Printed(b) + [COMMA] + Printed(c)
    ensures Fields(message) == Some(map[a.key := a.value, b.key := b.value, c.key := c.value])
  {
    hide Fields, Printed, Clean;
    var pairs := [a, b, c];
    assert PrintedParts(pairs) == [Printed(a), Printed(b), Printed(c)];
    JoinThree(Printed(a), Printed(b), Printed(c));
    FieldsOfPrint(pairs);
    var m := Fields(message).value;
    assert pairs[0] == a && pairs[1] == b && pairs[2] == c;
    assert m == map[a.key := a.value, b.key := b.value, c.key := c.value];
  }

  /** The client key survives the proof: its mask is lifted by the same signature. */
  lemma {:induction false} ProofUnmasks(suite: Suite, salted: Bytes, signed: Bytes)
    requires Sound(suite)
    ensures var signature := suite.mac(StoredKey(suite, salted), signed);
            var proof := XorAll(ClientKey(suite, salted), signature);
            |proof| == suite.size && XorAll(proof, signature) == ClientKey(suite, salted)
  {
    XorAllUndo(ClientKey(suite, salted), suite.mac(StoredKey(suite, salted), signed));
  }

  lemma {:induction false} NonceIsClean(nonce: Bytes)
    requires NonceBytes(nonce)
    ensures COMMA !in nonce
  {
    forall i | 0 <= i < |nonce| ensures nonce[i] != COMMA {
      assert NonceByte(nonce[i]);
    }
  }

  lemma {:induction false} CountIsClean(iterations: Bytes)
    requires GoodCount(iterations)
    ensures COMMA !in iterations
  {
    forall i | 0 <= i < |iterations| ensures iterations[i] != COMMA {
      assert Digit(iterations[i]);
    }
  }

  lemma {:induction false} FinalReads(nonce: Bytes, code: Bytes)
    requires |nonce| <= 256 && NonceBytes(nonce) && |code| <= 1024 && COMMA !in code
    ensures Fields(FinalStart(nonce) + [COMMA, LETTER_P, EQUALS] + code)
         == Some(map[LETTER_C := BIWS, LETTER_R := nonce, LETTER_P := code])
  {
    NonceIsClean(nonce);
    var a, b, c := Pair(LETTER_C, BIWS), Pair(LETTER_R, nonce), Pair(LETTER_P, code);
    assert Clean(a) && Clean(b) && Clean(c);
    var message := FinalStart(nonce) + [COMMA, LETTER_P, EQUALS] + code;
    hide Fields;
    assert message == Printed(a) + [COMMA] + Printed(b) + [COMMA] + Printed(c);
    ThreeFields(a, b, c, message);
  }

  // ---------------------------------------------------------------- the server's proof

  /** `verify` accepts exactly one attribute `v` that decodes to the expected signature. */
  lemma {:induction false} VerifiesExactly(suite: Suite, signature: Bytes, serverFinal: Bytes)
    ensures Verifies(suite, signature, serverFinal)
       <==> && 2 <= |serverFinal| <= 2048 && serverFinal[..2] == [LETTER_V, EQUALS]
            && COMMA !in serverFinal && suite.decode(serverFinal[2..]) == Some(signature)
  {
    var values := Fields(serverFinal);
    if values.Some? && values.value.Keys == {LETTER_V} {
      LoneField(serverFinal);
    }
    if 2 <= |serverFinal| <= MAX_MESSAGE && serverFinal[..2] == [LETTER_V, EQUALS] && COMMA !in serverFinal {
      var p := Pair(LETTER_V, serverFinal[2..]);
      assert serverFinal == Printed(p);
      OneField(p);
    }
  }

  lemma {:induction false} OneField(p: Pair)
    requires Clean(p) && |Printed(p)| <= MAX_MESSAGE
    ensures Fields(Printed(p)) == Some(map[p.key := p.value])
  {
    hide Fields, Printed, Clean;
    assert PrintedParts([p]) == [Printed(p)];
    FieldsOfPrint([p]);
    assert [p][0] == p;
    var m := Fields(Printed(p)).value;
    assert m == map[p.key := p.value];
  }

  lemma {:induction false} FirstTwoDiffer(pairs: seq<Pair>)
    requires Distinct(pairs)
    ensures |pairs| > 1 ==> pairs[0].key != pairs[1].key
  {}

  lemma {:induction false} LoneField(message: Bytes)
    requires Fields(message).Some? && Fields(message).value.Keys == {LETTER_V}
    ensures 2 <= |message| <= MAX_MESSAGE && message[..2] == [LETTER_V, EQUALS] && COMMA !in message
    ensures Fields(message).value[LETTER_V] == message[2..]
  {
    var m := Fields(message).value;
    FieldsWerePrinted(message);
    var pairs := PairsOf(Split(message, [COMMA]));
    assert |message| <= MAX_MESSAGE;
    hide Fields;
    assert forall i :: 0 <= i < |pairs| ==> pairs[i].key in m.Keys;
    assert pairs[0].key == LETTER_V;
    FirstTwoDiffer(pairs);
    assert |pairs| == 1 && PrintedParts(pairs) == [Printed(pairs[0])];
    PairReads(pairs[0]);
    assert message == Printed(pairs[0]);
  }

  // ---------------------------------------------------------------- an honest challenge is answered

  /** Section 7 of RFC 5802: `r=`, `s=`, `i=`. */
  function ServerFirst(suite: Suite, nonce: Bytes, salt: Bytes, iterations: Bytes): Bytes {
    [LETTER_R, EQUALS] + nonce + [COMMA, LETTER_S, EQUALS] + suite.encode(salt) + [COMMA, LETTER_I, EQUALS] + iterations
  }

  lemma {:induction false} HonestChallengeReads(suite: Suite, own: Bytes, nonce: Bytes, salt: Bytes, iterations: Bytes)
    requires Sound(suite) && Extends(own, nonce) && 1 <= |salt| <= 64 && GoodCount(iterations)
    ensures ReadChallenge(suite, own, ServerFirst(suite, nonce, salt, iterations))
         == Some(Challenge(nonce, salt, Number(iterations)))
  {
    assert Encodes(suite, salt);
    NonceIsClean(nonce);
    CountIsClean(iterations);
    var a, b, c := Pair(LETTER_R, nonce), Pair(LETTER_S, suite.encode(salt)), Pair(LETTER_I, iterations);
    assert Clean(a) && Clean(b) && Clean(c);
    var message := ServerFirst(suite, nonce, salt, iterations);
    hide Fields;
    assert message == Printed(a) + [COMMA] + Printed(b) + [COMMA] + Printed(c);
    ThreeFields(a, b, c, message);
  }

  // ---------------------------------------------------------------- any sequence of calls

  datatype Call = Respond(serverFirst: Bytes, password: Bytes) | Verify(serverFinal: Bytes)

  /** What one call leaves as the expected signature. */
  function After(suite: Suite, nonce: Bytes, bare: Bytes, signature: Option<Bytes>, call: Call): Option<Bytes> {
    match call
    case Verify(_) => signature
    case Respond(serverFirst, password) =>
      var c := ReadChallenge(suite, nonce, serverFirst);
      if signature.Some? || c.None? then signature
      else Some(Answered(suite, bare, serverFirst, password, c.value).signature)
  }

  /** The signature expected after the first `n` calls on a new client. */
  function State(suite: Suite, nonce: Bytes, bare: Bytes, calls: seq<Call>, n: nat): Option<Bytes>
    requires n <= |calls|
  {
    if n == 0 then None else After(suite, nonce, bare, State(suite, nonce, bare, calls, n - 1), calls[n - 1])
  }

  /** The `i`-th call is a `respond` that succeeds. */
  predicate Answers(suite: Suite, nonce: Bytes, bare: Bytes, calls: seq<Call>, i: nat)
    requires i < |calls|
  {
    && calls[i].Respond? && State(suite, nonce, bare, calls, i).None?
    && ReadChallenge(suite, nonce, calls[i].serverFirst).Some?
  }

  predicate Accepts(suite: Suite, nonce: Bytes, bare: Bytes, calls: seq<Call>, i: nat)
    requires i < |calls|
  {
    && calls[i].Verify? && State(suite, nonce, bare, calls, i).Some?
    && Verifies(suite, State(suite, nonce, bare, calls, i).value, calls[i].serverFinal)
  }

  lemma {:induction false} SignatureStays(suite: Suite, nonce: Bytes, bare: Bytes, calls: seq<Call>, i: nat, n: nat)
    requires i <= n <= |calls| && State(suite, nonce, bare, calls, i).Some?
    ensures State(suite, nonce, bare, calls, n) == State(suite, nonce, bare, calls, i)
    decreases n
  {
    hide ReadChallenge, Answered;
    if i < n { SignatureStays(suite, nonce, bare, calls, i, n - 1); }
  }

  /** At most one call of any run is answered. */
  lemma {:induction false} AnswersAtMostOnce(suite: Suite, nonce: Bytes, bare: Bytes, calls: seq<Call>, i: nat, j: nat)
    requires i < |calls| && j < |calls|
    requires Answers(suite, nonce, bare, calls, i) && Answers(suite, nonce, bare, calls, j)
    ensures i == j
  {
    hide ReadChallenge, Answered;
    if i < j {
      SignatureStays(suite, nonce, bare, calls, i + 1, j);
    } else if j < i {
      SignatureStays(suite, nonce, bare, calls, j + 1, i);
    }
  }

  /** An expected signature comes from exactly one earlier answer. */
  lemma {:induction false} SignatureWasAnswered(suite: Suite, nonce: Bytes, bare: Bytes, calls: seq<Call>, n: nat)
      returns (i: nat)
    requires n <= |calls| && State(suite, nonce, bare, calls, n).Some?
    ensures i < n && Answers(suite, nonce, bare, calls, i)
    ensures var c := ReadChallenge(suite, nonce, calls[i].serverFirst).value;
            State(suite, nonce, bare, calls, n)
            == Some(Answered(suite, bare, calls[i].serverFirst, calls[i].password, c).signature)
  {
    hide ReadChallenge, Answered;
    i := n - 1;
    if State(suite, nonce, bare, calls, i).Some? {
      SignatureStays(suite, nonce, bare, calls, i, n);
      i := SignatureWasAnswered(suite, nonce, bare, calls, i);
    }
  }

  /**
   An accepted `verify` proves that the other side sent the signature over the one exchange that was answered:
   the text decodes to the server's MAC of that exchange.
   */
  lemma {:induction false} AcceptedIsServer(suite: Suite, nonce: Bytes, bare: Bytes, calls: seq<Call>, k: nat)
      returns (i: nat)
    requires k < |calls| && Accepts(suite, nonce, bare, calls, k)
    ensures i < k && Answers(suite, nonce, bare, calls, i)
    ensures var c := ReadChallenge(suite, nonce, calls[i].serverFirst).value;
            var auth := Auth(bare, calls[i].serverFirst, FinalStart(c.nonce));
            var text := calls[k].serverFinal;
            && 2 <= |text| <= 2048 && text[..2] == [LETTER_V, EQUALS] && COMMA !in text
            && suite.decode(text[2..]) == Some(suite.mac(ServerKey(suite, Salted(suite, calls[i].password, c)), auth))
  {
    i := SignatureWasAnswered(suite, nonce, bare, calls, k);
    VerifiesExactly(suite, State(suite, nonce, bare, calls, k).value, calls[k].serverFinal);
  }
}
