/**
 Which challenges `respond` of tools/scram_fixture.py accepts, stated on the text itself, and
 which of them keep the order that section 7 of RFC 5802 prescribes.
 */
module ScramOrder {
  import opened Options
  import opened Xors
  import opened Splitting
  import opened Decimal
  import opened ScramFields
  import opened Scram

  /** The three attributes in one of their six orders. */
  predicate Arranges(pairs: seq<Pair>, a: Pair, b: Pair, c: Pair) {
    || pairs == [a, b, c] || pairs == [a, c, b] || pairs == [b, a, c]
    || pairs == [b, c, a] || pairs == [c, a, b] || pairs == [c, b, a]
  }

  function Nonce(value: Bytes): Pair { Pair(LETTER_R, value) }
  function Salt(value: Bytes): Pair { Pair(LETTER_S, value) }
  function Count(value: Bytes): Pair { Pair(LETTER_I, value) }

  /** What the three values must be for the client to answer with `c`. */
  predicate Acceptable(suite: Suite, own: Bytes, c: Challenge, code: Bytes, iterations: Bytes) {
    // The nonce starts with the client's own, goes on, and is printable without a comma.
    && |own| < |c.nonce| <= 256 && c.nonce[..|own|] == own
    && (forall i :: 0 <= i < |c.nonce| ==> 33 <= c.nonce[i] <= 126 && c.nonce[i] != 44)
    // The count is one to seven digits, between one and a million.
    && 1 <= |iterations| <= 7 && (forall i :: 0 <= i < |iterations| ==> 48 <= iterations[i] <= 57)
    && Value(AsText(iterations)) == c.count && 1 <= c.count <= 1_000_000
    // The salt decodes to one to sixty-four bytes.
    && 44 !in code && suite.decode(code) == Some(c.salt) && 1 <= |c.salt| <= 64
  }

  /** These are the client's own tests. */
  lemma {:induction false} AcceptableIs(suite: Suite, own: Bytes, c: Challenge, code: Bytes, iterations: Bytes)
    ensures Acceptable(suite, own, c, code, iterations)
       <==> && COMMA !in code && Extends(own, c.nonce) && GoodCount(iterations) && c.count == Number(iterations)
            && suite.decode(code) == Some(c.salt) && 1 <= |c.salt| <= 64
  {
    assert own <= c.nonce <==> |own| <= |c.nonce| && c.nonce[..|own|] == own;
    assert NonceBytes(c.nonce) <==> forall i :: 0 <= i < |c.nonce| ==> 33 <= c.nonce[i] <= 126 && c.nonce[i] != 44 by {
      forall i | 0 <= i < |c.nonce|
        ensures NonceByte(c.nonce[i]) <==> 33 <= c.nonce[i] <= 126 && c.nonce[i] != 44
      {}
    }
    assert (forall i :: 0 <= i < |iterations| ==> 48 <= iterations[i] <= 57)
      <==> (forall i :: 0 <= i < |iterations| ==> Digit(iterations[i]));
  }

  // ---------------------------------------------------------------- three attributes

  lemma {:induction false} ThreePrinted(x: Pair, y: Pair, z: Pair)
    ensures PrintAll([x, y, z]) == Printed(x) + [COMMA] + Printed(y) + [COMMA] + Printed(z)
  {
    hide Printed;
    assert PrintedParts([x, y, z]) == [Printed(x), Printed(y), Printed(z)];
    JoinThree(Printed(x), Printed(y), Printed(z));
  }

  /** In whatever order they are printed, the dictionary is the same. */
  lemma {:induction false} ArrangedReads(pairs: seq<Pair>, a: Pair, b: Pair, c: Pair)
    requires Arranges(pairs, a, b, c) && |PrintAll(pairs)| <= MAX_MESSAGE
    requires Clean(a) && Clean(b) && Clean(c) && a.key != b.key && a.key != c.key && b.key != c.key
    ensures Fields(PrintAll(pairs)) == Some(map[a.key := a.value, b.key := b.value, c.key := c.value])
  {
    hide Fields, Printed, Clean, PrintAll;
    var x, y, z := pairs[0], pairs[1], pairs[2];
    assert pairs == [x, y, z];
    ThreePrinted(x, y, z);
    ThreeFields(x, y, z, PrintAll(pairs));
    assert map[x.key := x.value, y.key := y.value, z.key := z.value]
        == map[a.key := a.value, b.key := b.value, c.key := c.value];
  }

  /** Three keys, each once, make three pairs. */
  lemma {:induction false} ThreePairs(pairs: seq<Pair>, m: map<byte, Bytes>)
    requires Distinct(pairs) && Holds(m, pairs, |pairs|) && m.Keys == {LETTER_R, LETTER_S, LETTER_I}
    ensures |pairs| == 3
  {
    var i :| 0 <= i < |pairs| && pairs[i].key == LETTER_R;
    var j :| 0 <= j < |pairs| && pairs[j].key == LETTER_S;
    var k :| 0 <= k < |pairs| && pairs[k].key == LETTER_I;
    var n := if |pairs| > 3 then 3 else 0;
    var a, b, c, d := pairs[0].key, pairs[1].key, pairs[2].key, pairs[n].key;
    assert a in m.Keys && b in m.Keys && c in m.Keys && d in m.Keys;
    assert a != b && a != c && b != c && (n == 3 ==> d != a && d != b && d != c);
    hide Holds, Distinct;
    assert n == 0;
  }

  lemma {:induction false} ExactlyThree(pairs: seq<Pair>, m: map<byte, Bytes>)
    requires Distinct(pairs) && Holds(m, pairs, |pairs|) && m.Keys == {LETTER_R, LETTER_S, LETTER_I}
    ensures Arranges(pairs, Nonce(m[LETTER_R]), Salt(m[LETTER_S]), Count(m[LETTER_I]))
  {
    ThreePairs(pairs, m);
    var x, y, z := pairs[0], pairs[1], pairs[2];
    assert x.key in m.Keys && y.key in m.Keys && z.key in m.Keys;
    assert x.value == m[x.key] && y.value == m[y.key] && z.value == m[z.key];
    assert x.key != y.key && x.key != z.key && y.key != z.key;
    hide Distinct, Holds;
    assert pairs == [x, y, z];
  }

  // ---------------------------------------------------------------- exactly these challenges

  /** The message is the three attributes, in some order. */
  ghost predicate Spells(message: Bytes, pairs: seq<Pair>, nonce: Bytes, code: Bytes, iterations: Bytes) {
    PrintAll(pairs) == message && Arranges(pairs, Nonce(nonce), Salt(code), Count(iterations))
  }

  lemma {:induction false} SpelledReads(suite: Suite, own: Bytes, message: Bytes, c: Challenge,
                                        pairs: seq<Pair>, code: Bytes, iterations: Bytes)
    requires |message| <= MAX_MESSAGE && Spells(message, pairs, c.nonce, code, iterations)
    requires Acceptable(suite, own, c, code, iterations)
    ensures ReadChallenge(suite, own, message) == Some(c)
  {
    hide Fields, PrintAll;
    AcceptableIs(suite, own, c, code, iterations);
    NonceIsClean(c.nonce);
    CountIsClean(iterations);
    ArrangedReads(pairs, Nonce(c.nonce), Salt(code), Count(iterations));
  }

  lemma {:induction false} ReadIsSpelled(suite: Suite, own: Bytes, message: Bytes)
      returns (pairs: seq<Pair>, code: Bytes, iterations: Bytes)
    requires ReadChallenge(suite, own, message).Some?
    ensures var c := ReadChallenge(suite, own, message).value;
            && |message| <= MAX_MESSAGE && WellFormed(pairs)
            && Spells(message, pairs, c.nonce, code, iterations)
            && Acceptable(suite, own, c, code, iterations)
  {
    var m := Fields(message).value;
    assert |message| <= MAX_MESSAGE;
    hide Fields, PrintAll;
    FieldsWerePrinted(message);
    pairs := PairsOf(Split(message, [COMMA]));
    ExactlyThree(pairs, m);
    code, iterations := m[LETTER_S], m[LETTER_I];
    assert Clean(Salt(code));
    AcceptableIs(suite, own, ReadChallenge(suite, own, message).value, code, iterations);
  }

  /**
   `respond` takes a challenge for `c` exactly when the message is the three attributes, in
   some order, with an extended nonce, a decodable salt and a count within bounds.
   */
  lemma {:induction false} ChallengeExactly(suite: Suite, own: Bytes, message: Bytes, c: Challenge)
    ensures ReadChallenge(suite, own, message) == Some(c)
       <==> && |message| <= 2048
            && exists pairs, code, iterations ::
                 Spells(message, pairs, c.nonce, code, iterations) && Acceptable(suite, own, c, code, iterations)
  {
    hide ReadChallenge, Spells, Acceptable;
    if ReadChallenge(suite, own, message) == Some(c) {
      var pairs, code, iterations := ReadIsSpelled(suite, own, message);
    } else if |message| <= MAX_MESSAGE {
      forall pairs, code, iterations
        | Spells(message, pairs, c.nonce, code, iterations) && Acceptable(suite, own, c, code, iterations)
        ensures false
      {
        SpelledReads(suite, own, message, c, pairs, code, iterations);
      }
    }
  }

  /** An answered challenge carries the client's own nonce at its front, and more. */
  lemma {:induction false} AnsweredNonce(suite: Suite, own: Bytes, message: Bytes)
    requires ReadChallenge(suite, own, message).Some?
    ensures var nonce := ReadChallenge(suite, own, message).value.nonce;
            |own| < |nonce| && forall i :: 0 <= i < |own| ==> nonce[i] == own[i]
  {
    hide ReadChallenge, Spells;
    var pairs, code, iterations := ReadIsSpelled(suite, own, message);
    var nonce := ReadChallenge(suite, own, message).value.nonce;
    assert nonce[..|own|] == own;
  }

  // ---------------------------------------------------------------- the order of RFC 5802

  /** The message is a nonce, a salt and a count, in this order. */
  ghost predicate InOrder(message: Bytes) {
    exists nonce, code, iterations ::
      && COMMA !in nonce && COMMA !in code && COMMA !in iterations
      && message == PrintAll([Nonce(nonce), Salt(code), Count(iterations)])
  }

  /** The first attribute is the nonce and the one after the first comma the salt. */
  predicate StartsInOrder(message: Bytes) {
    var k := Find(message, [COMMA]);
    |message| > 0 && message[0] == LETTER_R && 0 <= k && k + 1 < |message| && message[k + 1] == LETTER_S
  }

  /** The keys that open the first and the second attribute. */
  lemma {:induction false} KeysStand(x: Pair, y: Pair, z: Pair, message: Bytes)
    requires message == PrintAll([x, y, z]) && x.key != COMMA && COMMA !in x.value
    ensures var k := Find(message, [COMMA]);
            && |message| > 0 && message[0] == x.key
            && 0 <= k && k + 1 < |message| && message[k + 1] == y.key
  {
    hide Find;
    ThreePrinted(x, y, z);
    var rest := Printed(y) + [COMMA] + Printed(z);
    assert message == Printed(x) + [COMMA] + rest;
    SplitHead(Printed(x), COMMA, rest);
  }

  lemma {:induction false} SpelledInOrder(message: Bytes, pairs: seq<Pair>, nonce: Bytes, code: Bytes,
      iterations: Bytes)
    requires Spells(message, pairs, nonce, code, iterations) && WellFormed(pairs)
    ensures StartsInOrder(message) <==> pairs == [Nonce(nonce), Salt(code), Count(iterations)]
  {
    hide PrintAll, Find;
    var x, y, z := pairs[0], pairs[1], pairs[2];
    assert pairs == [x, y, z];
    assert Clean(x);
    KeysStand(x, y, z, message);
  }

  /** An accepted challenge is in the order of the standard exactly when it starts so. */
  lemma {:induction false} OrderExactly(suite: Suite, own: Bytes, message: Bytes)
    requires ReadChallenge(suite, own, message).Some?
    ensures InOrder(message) <==> StartsInOrder(message)
  {
    hide ReadChallenge, PrintAll, Find;
    var pairs, code, iterations := ReadIsSpelled(suite, own, message);
    var nonce := ReadChallenge(suite, own, message).value.nonce;
    SpelledInOrder(message, pairs, nonce, code, iterations);
    if StartsInOrder(message) {
      assert Clean(pairs[0]) && Clean(pairs[1]) && Clean(pairs[2]);
    } else {
      forall n, s, i | COMMA !in n && COMMA !in s && COMMA !in i
        ensures message != PrintAll([Nonce(n), Salt(s), Count(i)])
      {
        if message == PrintAll([Nonce(n), Salt(s), Count(i)]) { KeysStand(Nonce(n), Salt(s), Count(i), message); }
      }
    }
  }

  lemma {:induction false} ArrangedLength(pairs: seq<Pair>, a: Pair, b: Pair, c: Pair)
    requires Arranges(pairs, a, b, c)
    ensures |PrintAll(pairs)| == 8 + |a.value| + |b.value| + |c.value|
  {
    var x, y, z := pairs[0], pairs[1], pairs[2];
    assert pairs == [x, y, z];
    ThreePrinted(x, y, z);
  }

  /** The standard's own message is the first of the six orders. */
  lemma {:induction false} ServerFirstSpells(suite: Suite, nonce: Bytes, salt: Bytes, iterations: Bytes)
    ensures ServerFirst(suite, nonce, salt, iterations)
         == PrintAll([Nonce(nonce), Salt(suite.encode(salt)), Count(iterations)])
  {
    hide PrintAll;
    ThreePrinted(Nonce(nonce), Salt(suite.encode(salt)), Count(iterations));
  }

  /** Every honest challenge is understood in each of its six orders, and only the standard's own is in order. */
  lemma {:induction false} EveryOrderIsAccepted(suite: Suite, own: Bytes, nonce: Bytes, salt: Bytes, iterations: Bytes,
                                                pairs: seq<Pair>)
    requires Sound(suite) && Extends(own, nonce) && 1 <= |salt| <= 64 && GoodCount(iterations)
    requires Arranges(pairs, Nonce(nonce), Salt(suite.encode(salt)), Count(iterations))
    ensures ReadChallenge(suite, own, PrintAll(pairs)) == Some(Challenge(nonce, salt, Number(iterations)))
    ensures InOrder(PrintAll(pairs)) <==> PrintAll(pairs) == ServerFirst(suite, nonce, salt, iterations)
  {
    hide ReadChallenge, Fields, PrintAll, Find;
    var code, c := suite.encode(salt), Challenge(nonce, salt, Number(iterations));
    assert Encodes(suite, salt);
    var message := PrintAll(pairs);
    ArrangedLength(pairs, Nonce(nonce), Salt(code), Count(iterations));
    AcceptableIs(suite, own, c, code, iterations);
    SpelledReads(suite, own, message, c, pairs, code, iterations);
    NonceIsClean(nonce);
    CountIsClean(iterations);
    ServerFirstSpells(suite, nonce, salt, iterations);
    hide Extends, GoodCount, Arranges, Sound;
    if message == ServerFirst(suite, nonce, salt, iterations) {
      assert InOrder(message);
    } else {
      OrderExactly(suite, own, message);
      if StartsInOrder(message) {
        StartsAsStandard(message, pairs, nonce, code, iterations);
      }
    }
  }

  lemma {:induction false} StartsAsStandard(message: Bytes, pairs: seq<Pair>, nonce: Bytes, code: Bytes,
      iterations: Bytes)
    requires Spells(message, pairs, nonce, code, iterations) && StartsInOrder(message)
    requires COMMA !in nonce && COMMA !in code && COMMA !in iterations
    ensures pairs == [Nonce(nonce), Salt(code), Count(iterations)]
  {
    hide PrintAll, Find;
    assert WellFormed(pairs);
    SpelledInOrder(message, pairs, nonce, code, iterations);
  }

  /** Turned round, the same challenge is still accepted, against the standard. */
  lemma {:induction false} ReversedIsAccepted(suite: Suite, own: Bytes, nonce: Bytes, salt: Bytes, iterations: Bytes)
    requires Sound(suite) && Extends(own, nonce) && 1 <= |salt| <= 64 && GoodCount(iterations)
    ensures var message := PrintAll([Count(iterations), Salt(suite.encode(salt)), Nonce(nonce)]);
            ReadChallenge(suite, own, message).Some? && !InOrder(message)
  {
    hide ReadChallenge, Fields, PrintAll, Find;
    var pairs := [Count(iterations), Salt(suite.encode(salt)), Nonce(nonce)];
    EveryOrderIsAccepted(suite, own, nonce, salt, iterations, pairs);
    OrderExactly(suite, own, PrintAll(pairs));
    CountIsClean(iterations);
    KeysStand(pairs[0], pairs[1], pairs[2], PrintAll(pairs));
  }
}
