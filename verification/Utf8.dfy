/** UTF-8 as Python writes it with the `replace` error handler, and a plain decoder. */
module Utf8 {
  import opened Options
  import opened Xors

  /** A Python character: any code point, lone surrogates included. */
  type Char = c: int | 0 <= c < 0x11_0000

  type Text = seq<Char>

  predicate Surrogate(c: int) { 0xD800 <= c < 0xE000 }

  /** A continuation byte. */
  function Cont(n: nat): byte { 0x80 + n % 64 }

  /** The bytes of one character; a lone surrogate becomes a question mark. */
  function EncodeChar(c: Char): (s: Bytes)
    ensures 1 <= |s| <= 4
  {
    if c < 0x80 then [c]
    else if c < 0x800 then [0xC0 + c / 64, Cont(c)]
    else if Surrogate(c) then [63]
    else if c < 0x1_0000 then [0xE0 + c / 4096, Cont(c / 64), Cont(c)]
    else [0xF0 + c / 262_144, Cont(c / 4096), Cont(c / 64), Cont(c)]
  }

  function Encode(s: Text): Bytes {
    if s == [] then [] else Encode(s[..|s| - 1]) + EncodeChar(s[|s| - 1])
  }

  // ---------------------------------------------------------------- decoding

  predicate IsCont(b: byte) { 0x80 <= b < 0xC0 }

  /** A byte above a base. */
  function Over(b: int, base: int): int { b - base }

  datatype Step = Step(c: int, size: nat)

  /** How many bytes a sequence has by its first byte. */
  function SizeOf(b: byte): nat {
    if b < 0x80 then 1
    else if 0xC2 <= b < 0xE0 then 2
    else if 0xE0 <= b < 0xF0 then 3
    else if 0xF0 <= b < 0xF5 then 4
    else 0
  }

  /** The first character: no stray or missing continuation, no overlong form, no surrogate, nothing above 10FFFF. */
  function DecodeOne(w: Bytes): (r: Option<Step>)
    ensures r.Some? ==> 1 <= r.value.size <= |w|
  {
    if w == [] then None
    else
      var n := SizeOf(w[0]);
      if n == 0 || |w| < n then None
      else if n == 1 then Some(Step(w[0], 1))
      else if n == 2 then
        if IsCont(w[1]) then Some(Step(64 * Over(w[0], 0xC0) + Over(w[1], 0x80), 2)) else None
      else if n == 3 then
        var c := 4096 * Over(w[0], 0xE0) + 64 * Over(w[1], 0x80) + Over(w[2], 0x80);
        if IsCont(w[1]) && IsCont(w[2]) && c >= 0x800 && !Surrogate(c) then Some(Step(c, 3)) else None
      else
        var c := 262_144 * Over(w[0], 0xF0) + 4096 * Over(w[1], 0x80) + 64 * Over(w[2], 0x80) + Over(w[3], 0x80);
        if IsCont(w[1]) && IsCont(w[2]) && IsCont(w[3]) && 0x1_0000 <= c < 0x11_0000 then Some(Step(c, 4)) else None
  }

  function Decode(w: Bytes): Option<seq<int>>
    decreases |w|
  {
    if w == [] then Some([])
    else
      var one := DecodeOne(w);
      if one.None? then None
      else
        var rest := Decode(w[one.value.size..]);
        if rest.None? then None else Some([one.value.c] + rest.value)
  }

  // ---------------------------------------------------------------- the decoder inverts the encoder

  /** What is left of a character: itself, or a question mark. */
  function Kept(c: Char): int { if Surrogate(c) then 63 else c }

  lemma {:induction false} Digits64(c: nat)
    ensures c == 64 * (c / 64) + c % 64
    ensures c == 4096 * (c / 4096) + 64 * (c / 64 % 64) + c % 64
    ensures c == 262_144 * (c / 262_144) + 4096 * (c / 4096 % 64) + 64 * (c / 64 % 64) + c % 64
  {
    var a := c / 64;
    var b := a / 64;
    assert a == c / 64 && b == c / 4096 && b / 64 == c / 262_144;
  }

  lemma {:induction false} CharDecodes(c: Char, more: Bytes)
    ensures DecodeOne(EncodeChar(c) + more) == Some(Step(Kept(c), |EncodeChar(c)|))
  {
    var w := EncodeChar(c) + more;
    Digits64(c);
    assert forall i :: 0 <= i < |EncodeChar(c)| ==> w[i] == EncodeChar(c)[i];
  }

  function KeptAll(s: Text): (r: seq<int>)
    ensures |r| == |s| && forall i :: 0 <= i < |s| ==> r[i] == Kept(s[i])
  {
    seq(|s|, i requires 0 <= i < |s| => Kept(s[i]))
  }

  lemma {:induction false} EncodeCons(c: Char, s: Text)
    ensures Encode([c] + s) == EncodeChar(c) + Encode(s)
  {
    hide EncodeChar;
    var t := [c] + s;
    if s == [] {
      assert t[..0] == [];
    } else {
      var n := |s| - 1;
      assert t[..|t| - 1] == [c] + s[..n];
      EncodeCons(c, s[..n]);
    }
  }

  lemma {:induction false} DecodeNext(head: Bytes, rest: Bytes, c: int)
    requires head != [] && DecodeOne(head + rest) == Some(Step(c, |head|)) && Decode(rest).Some?
    ensures Decode(head + rest) == Some([c] + Decode(rest).value)
  {
    hide DecodeOne;
    assert (head + rest)[|head|..] == rest;
  }

  /** Every text comes back from its bytes, surrogates as question marks. */
  lemma {:induction false} TextDecodes(s: Text)
    ensures Decode(Encode(s)) == Some(KeptAll(s))
  {
    hide *;
    if s == [] {
      NothingDecodes();
    } else {
      var c, rest := s[0], s[1..];
      EncodeCons(c, rest);
      CharDecodes(c, Encode(rest));
      TextDecodes(rest);
      DecodeNext(EncodeChar(c), Encode(rest), Kept(c));
      KeptCons(c, rest);
      assert s == [c] + rest;
    }
  }

  lemma {:induction false} NothingDecodes()
    ensures Decode(Encode([])) == Some(KeptAll([]))
  {
    hide DecodeOne, EncodeChar;
  }

  lemma {:induction false} KeptCons(c: Char, rest: Text)
    ensures KeptAll([c] + rest) == [Kept(c)] + KeptAll(rest)
  {
    hide Kept;
  }
}
