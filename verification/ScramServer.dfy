/**
 The other side of the exchange, told by RFC 5802 alone: its own keys, its own auth message and
 its own texts, and that the client of tools/scram_fixture.py agrees with it.
 */
module ScramServer {
  import opened Options
  import opened Xors
  import opened Splitting
  import opened ScramFields
  import opened Scram

  /** A text of the standard as bytes. */
  function Ascii(s: string): (r: Bytes)
    requires forall i :: 0 <= i < |s| ==> s[i] as int < 128
    ensures |r| == |s| && forall i :: 0 <= i < |s| ==> r[i] == s[i] as int
  {
    seq(|s|, i requires 0 <= i < |s| => s[i] as int)
  }

  // ---------------------------------------------------------------- section 3: keys and signatures

  function SaltedPassword(suite: Suite, password: Bytes, salt: Bytes, i: nat): Bytes { suite.kdf(password, salt, i) }

  function Stored(suite: Suite, password: Bytes, salt: Bytes, i: nat): Bytes {
    suite.hash(suite.mac(SaltedPassword(suite, password, salt, i), Ascii("Client Key")))
  }

  function ServerSignature(suite: Suite, password: Bytes, salt: Bytes, i: nat, auth: Bytes): Bytes {
    suite.mac(suite.mac(SaltedPassword(suite, password, salt, i), Ascii("Server Key")), auth)
  }

  /** The final message up to its proof. */
  function WithoutProof(final: Bytes): Bytes {
    var k := Find(final, Ascii(",p="));
    if k < 0 then final else final[..k]
  }

  /** The first message without its header, the server's message, and the final message without its proof. */
  function AuthMessage(account: Bytes, nonce: Bytes, serverFirst: Bytes, final: Bytes): Bytes {
    Join([Ascii("n=") + account + Ascii(",r=") + nonce, serverFirst, WithoutProof(final)], Ascii(","))
  }

  /** What the server asks of a final message: the header it was told, the nonce it gave, and a proof of the key. */
  predicate Accepts(suite: Suite, stored: Bytes, account: Bytes, nonce: Bytes, serverFirst: Bytes, given: Bytes,
      final: Bytes)
  {
    var values := Fields(final);
    && values.Some? && values.value.Keys == {99, 114, 112} // c, r and p
    && values.value[99] == Ascii("biws") && values.value[114] == given
    && var proof := suite.decode(values.value[112]);
       && proof.Some? && |proof.value| == suite.size
       && suite.hash(XorAll(proof.value, suite.mac(stored, AuthMessage(account, nonce, serverFirst, final)))) == stored
  }

  // ---------------------------------------------------------------- the client's texts

  /** The client's byte constants are the texts of the standard. */
  lemma {:induction false} TextsAgree()
    ensures CLIENT_KEY == Ascii("Client Key") && SERVER_KEY == Ascii("Server Key") && BIWS == Ascii("biws")
    ensures [COMMA] == Ascii(",") && [COMMA, LETTER_P, EQUALS] == Ascii(",p=")
    ensures [LETTER_N, EQUALS] == Ascii("n=") && [COMMA, LETTER_R, EQUALS] == Ascii(",r=")
  {}

  /** The first message: no channel binding, the account, the nonce. */
  lemma {:induction false} FirstMessage(account: Bytes, nonce: Bytes)
    ensures [LETTER_N, COMMA, COMMA] + Bare(account, nonce) == Ascii("n,,n=") + account + Ascii(",r=") + nonce
  {
    TextsAgree();
    var a := [LETTER_N, COMMA, COMMA] + [LETTER_N, EQUALS];
    assert a == Ascii("n,,n=");
  }

  /** The final message starts with the header `n,,` in base64, and the server's nonce. */
  lemma {:induction false} FinalMessage(nonce: Bytes)
    ensures FinalStart(nonce) == Ascii("c=biws,r=") + nonce
  {
    var a := [LETTER_C, EQUALS] + BIWS + [COMMA, LETTER_R, EQUALS];
    assert a == Ascii("c=biws,r=");
  }

  /** An account name is made of these characters. */
  lemma {:induction false} AccountAlphabet(c: byte)
    ensures AccountByte(c) <==> exists i :: 0 <= i < 39 && "abcdefghijklmnopqrstuvwxyz0123456789_-."[i] as int == c
  {
    var alphabet := "abcdefghijklmnopqrstuvwxyz0123456789_-.";
    if 97 <= c <= 122 {
      LetterAt(c - 97);
    } else if 48 <= c <= 57 {
      DigitAt(c - 48);
    } else if AccountByte(c) {
      assert alphabet[36] as int == 95 && alphabet[37] as int == 45 && alphabet[38] as int == 46;
    } else {
      forall i | 0 <= i < 39 ensures alphabet[i] as int != c {
        if i < 26 { LetterAt(i); } else if i < 36 { DigitAt(i - 26); }
      }
    }
  }

  lemma {:induction false} LetterAt(i: nat)
    requires i < 26
    ensures "abcdefghijklmnopqrstuvwxyz0123456789_-."[i] as int == 97 + i
  {}

  lemma {:induction false} DigitAt(i: nat)
    requires i < 10
    ensures "abcdefghijklmnopqrstuvwxyz0123456789_-."[26 + i] as int == 48 + i
  {}

  /** The arguments a client is made for, in plain numbers: a short name, and a nonce of visible characters but `,`. */
  lemma {:induction false} ArgumentsAre(account: Bytes, nonce: Bytes)
    ensures GoodAccount(account) <==> 1 <= |account| <= 32 && forall c :: c in account ==> AccountByte(c)
    ensures GoodNonce(nonce) <==> 16 <= |nonce| <= 128 && forall c :: c in nonce ==> 33 <= c <= 126 && c != 44
  {
    if forall c :: c in account ==> AccountByte(c) {
      forall i | 0 <= i < |account| ensures AccountByte(account[i]) { assert account[i] in account; }
    }
    if forall c :: c in nonce ==> 33 <= c <= 126 && c != 44 {
      forall i | 0 <= i < |nonce| ensures NonceByte(nonce[i]) { assert nonce[i] in nonce; }
    }
    if NonceBytes(nonce) {
      forall i | 0 <= i < |nonce| ensures 33 <= nonce[i] <= 126 && nonce[i] != 44 { assert NonceByte(nonce[i]); }
    }
  }

  // ---------------------------------------------------------------- both sides agree

  lemma {:induction false} ProofStandsLast(nonce: Bytes, code: Bytes)
    requires NonceBytes(nonce)
    ensures WithoutProof(FinalStart(nonce) + [COMMA, LETTER_P, EQUALS] + code) == FinalStart(nonce)
  {
    var start, mark := FinalStart(nonce), [COMMA, LETTER_P, EQUALS];
    var message := start + mark + code;
    TextsAgree();
    FinalMessage(nonce);
    NonceIsClean(nonce);
    hide FinalStart, Find;
    assert message[|start|..|start| + 3] == mark;
    forall p: nat | p < |start| ensures !At(message, mark, p) {
      if p == 6 {
        assert message[p + 1] == Ascii("c=biws,r=")[7];
        if p + 3 <= |message| { assert message[p..p + 3][1] == message[p + 1]; }
      } else {
        assert message[p] == start[p] != COMMA by {
          if p >= 9 { assert start[p] == nonce[p - 9]; } else { assert start[p] == Ascii("c=biws,r=")[p]; }
        }
        AtFirst(message, mark, p);
      }
    }
    FindIs(message, mark, |start|);
  }

  /** The client's auth message is the standard's. */
  lemma {:induction false} AuthAgrees(account: Bytes, own: Bytes, serverFirst: Bytes, nonce: Bytes, code: Bytes)
    requires NonceBytes(nonce)
    ensures AuthMessage(account, own, serverFirst, FinalStart(nonce) + [COMMA, LETTER_P, EQUALS] + code)
         == Auth(Bare(account, own), serverFirst, FinalStart(nonce))
  {
    ProofStandsLast(nonce, code);
    TextsAgree();
    hide WithoutProof, FinalStart;
    JoinThree(Bare(account, own), serverFirst, FinalStart(nonce));
  }

  /** The answer to any accepted challenge is accepted by the server that stored the standard's key. */
  lemma {:induction false} AnswerIsAccepted(suite: Suite, account: Bytes, own: Bytes, serverFirst: Bytes,
      password: Bytes)
    requires Sound(suite) && ReadChallenge(suite, own, serverFirst).Some?
    ensures var c := ReadChallenge(suite, own, serverFirst).value;
            var final := Answered(suite, Bare(account, own), serverFirst, password, c).message;
            Accepts(suite, Stored(suite, password, c.salt, c.count), account, own, serverFirst, c.nonce, final)
  {
    var c := ReadChallenge(suite, own, serverFirst).value;
    assert Extends(own, c.nonce);
    TextsAgree();
    hide Fields, ReadChallenge, AuthMessage, Bare, FinalStart, Auth;
    var bare, salted := Bare(account, own), Salted(suite, password, c);
    var auth := Auth(bare, serverFirst, FinalStart(c.nonce));
    var proof := XorAll(ClientKey(suite, salted), suite.mac(StoredKey(suite, salted), auth));
    ProofUnmasks(suite, salted, auth);
    assert Encodes(suite, proof);
    AuthAgrees(account, own, serverFirst, c.nonce, suite.encode(proof));
    FinalReads(c.nonce, suite.encode(proof));
  }

  /** The signature the client then waits for is the standard's, over the same auth message. */
  lemma {:induction false} SignatureAgrees(suite: Suite, account: Bytes, own: Bytes, serverFirst: Bytes,
      password: Bytes)
    requires ReadChallenge(suite, own, serverFirst).Some?
    ensures var c := ReadChallenge(suite, own, serverFirst).value;
            var answer := Answered(suite, Bare(account, own), serverFirst, password, c);
            answer.signature == ServerSignature(suite, password, c.salt, c.count,
                                                AuthMessage(account, own, serverFirst, answer.message))
  {
    var c := ReadChallenge(suite, own, serverFirst).value;
    assert Extends(own, c.nonce);
    TextsAgree();
    hide ReadChallenge, AuthMessage, Bare, FinalStart, Auth;
    var salted := Salted(suite, password, c);
    var auth := Auth(Bare(account, own), serverFirst, FinalStart(c.nonce));
    var proof := XorAll(ClientKey(suite, salted), suite.mac(StoredKey(suite, salted), auth));
    AuthAgrees(account, own, serverFirst, c.nonce, suite.encode(proof));
  }

  /** The server's final message is accepted by the client that answered, and the encoding of no other bytes is. */
  lemma {:induction false} SignatureIsAccepted(suite: Suite, account: Bytes, own: Bytes, serverFirst: Bytes,
      password: Bytes, other: Bytes)
    requires Sound(suite) && ReadChallenge(suite, own, serverFirst).Some?
    ensures var c := ReadChallenge(suite, own, serverFirst).value;
            var answer := Answered(suite, Bare(account, own), serverFirst, password, c);
            var auth := AuthMessage(account, own, serverFirst, answer.message);
            var signature := ServerSignature(suite, password, c.salt, c.count, auth);
            && Verifies(suite, answer.signature, Ascii("v=") + suite.encode(signature))
            && (other != signature ==> !Verifies(suite, answer.signature, Ascii("v=") + suite.encode(other)))
  {
    hide ReadChallenge, AuthMessage, Bare, Answered, ServerSignature, Verifies;
    SignatureAgrees(suite, account, own, serverFirst, password);
    var c := ReadChallenge(suite, own, serverFirst).value;
    var signature := Answered(suite, Bare(account, own), serverFirst, password, c).signature;
    SignatureSize(suite, account, own, serverFirst, password, c);
    FinalVerifies(suite, signature, signature);
    FinalVerifies(suite, signature, other);
  }

  lemma {:induction false} SignatureSize(suite: Suite, account: Bytes, own: Bytes, serverFirst: Bytes, password: Bytes,
      c: Challenge)
    requires Sound(suite)
    ensures |Answered(suite, Bare(account, own), serverFirst, password, c).signature| <= 64
  {}

  /** A final message with this signature is accepted exactly when it is the expected one. */
  lemma {:induction false} FinalVerifies(suite: Suite, expected: Bytes, sent: Bytes)
    requires Sound(suite) && |expected| <= 64
    ensures Verifies(suite, expected, Ascii("v=") + suite.encode(sent)) <==> sent == expected
  {
    hide Verifies;
    var text := Ascii("v=") + suite.encode(sent);
    assert Encodes(suite, sent);
    VerifiesExactly(suite, expected, text);
    assert text[2..] == suite.encode(sent) && text[..2] == Ascii("v=");
    assert Ascii("v=") == [LETTER_V, EQUALS];
  }

  /** In any sequence of calls, an accepted final message decodes to the standard's signature of the one exchange. */
  lemma {:induction false} AcceptedIsSigned(suite: Suite, account: Bytes, nonce: Bytes, calls: seq<Call>, k: nat)
      returns (i: nat)
    requires k < |calls| && Scram.Accepts(suite, nonce, Bare(account, nonce), calls, k)
    ensures i < k && Answers(suite, nonce, Bare(account, nonce), calls, i)
    ensures var c := ReadChallenge(suite, nonce, calls[i].serverFirst).value;
            var final := Answered(suite, Bare(account, nonce), calls[i].serverFirst, calls[i].password, c).message;
            var auth := AuthMessage(account, nonce, calls[i].serverFirst, final);
            && |calls[k].serverFinal| >= 2
            && suite.decode(calls[k].serverFinal[2..])
               == Some(ServerSignature(suite, calls[i].password, c.salt, c.count, auth))
  {
    hide ReadChallenge, AuthMessage, Bare, ServerSignature;
    i := AcceptedIsServer(suite, nonce, Bare(account, nonce), calls, k);
    SignatureAgrees(suite, account, nonce, calls[i].serverFirst, calls[i].password);
  }
}
