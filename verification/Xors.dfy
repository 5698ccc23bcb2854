/** Bytes and exclusive or on them, bit by bit. */
module Xors {
  type byte = x: int | 0 <= x < 256
  type Bytes = seq<byte>

  /** How many strings of `k` bytes there are. */
  function Pow256(k: nat): nat { if k == 0 then 1 else 256 * Pow256(k - 1) }

  function Pow2(k: nat): nat { if k == 0 then 1 else 2 * Pow2(k - 1) }

  /** Exclusive or of the low `k` bits. */
  function XorBits(a: nat, b: nat, k: nat): (r: nat)
    ensures r < Pow2(k)
  {
    if k == 0 then 0
    else (a % 2 + b % 2) % 2 + 2 * XorBits(a / 2, b / 2, k - 1)
  }

  lemma {:induction false} LowBit(bit: nat, rest: nat)
    requires bit < 2
    ensures (bit + 2 * rest) % 2 == bit && (bit + 2 * rest) / 2 == rest
  {}

  lemma {:induction false} BitUndo(a: nat, b: nat)
    requires a < 2 && b < 2
    ensures ((a + b) % 2 + b) % 2 == a
  {}

  lemma {:induction false} XorBitsUndo(a: nat, b: nat, k: nat)
    requires a < Pow2(k)
    ensures XorBits(XorBits(a, b, k), b, k) == a
  {
    hide XorBits;
    if k > 0 {
      var bit, rest := (a % 2 + b % 2) % 2, XorBits(a / 2, b / 2, k - 1);
      XorBitsUndo(a / 2, b / 2, k - 1);
      XorUnfold(a, b, k);
      XorUnfold(bit + 2 * rest, b, k);
      LowBit(bit, rest);
      BitUndo(a % 2, b % 2);
    } else {
      XorNothing(XorBits(a, b, k), b);
    }
  }

  lemma {:induction false} XorUnfold(a: nat, b: nat, k: nat)
    requires k > 0
    ensures XorBits(a, b, k) == (a % 2 + b % 2) % 2 + 2 * XorBits(a / 2, b / 2, k - 1)
  {}

  lemma {:induction false} XorNothing(a: nat, b: nat)
    ensures XorBits(a, b, 0) == 0
  {}

  lemma {:induction false} EightBits()
    ensures Pow2(8) == 256
  {
    assert Pow2(4) == 16 && Pow2(8) == 16 * Pow2(4);
  }

  /** Bit `i` of a number. */
  function Bit(x: nat, i: nat): nat { if i == 0 then x % 2 else Bit(x / 2, i - 1) }

  lemma {:induction false} BitsDiffer(a: nat, b: nat, k: nat, i: nat)
    requires i < k
    ensures Bit(XorBits(a, b, k), i) == if Bit(a, i) == Bit(b, i) then 0 else 1
  {
    hide XorBits;
    var bit, rest := (a % 2 + b % 2) % 2, XorBits(a / 2, b / 2, k - 1);
    XorUnfold(a, b, k);
    LowBit(bit, rest);
    if i > 0 { BitsDiffer(a / 2, b / 2, k - 1, i - 1); }
  }

  function Xor(a: byte, b: byte): byte {
    EightBits();
    XorBits(a, b, 8)
  }

  /** A bit of the result is set exactly where the two bytes differ. */
  lemma {:induction false} XorIsDifference(a: byte, b: byte, i: nat)
    requires i < 8
    ensures Bit(Xor(a, b), i) == if Bit(a, i) == Bit(b, i) then 0 else 1
  {
    EightBits();
    BitsDiffer(a, b, 8, i);
  }

  lemma {:induction false} XorUndo(a: byte, b: byte)
    ensures Xor(Xor(a, b), b) == a
  {
    EightBits();
    XorBitsUndo(a, b, 8);
  }

  /** Byte by byte, as long as the shorter of the two. */
  function XorAll(x: seq<byte>, y: seq<byte>): (r: seq<byte>)
    ensures |r| == if |x| < |y| then |x| else |y|
    ensures forall i :: 0 <= i < |r| ==> r[i] == Xor(x[i], y[i])
  {
    seq(if |x| < |y| then |x| else |y|, i requires 0 <= i < |x| && i < |y| => Xor(x[i], y[i]))
  }

  /** Applying the same key twice gives the text back, cut to the key. */
  lemma {:induction false} XorAllUndo(x: seq<byte>, y: seq<byte>)
    requires |x| <= |y|
    ensures XorAll(XorAll(x, y), y) == x
  {
    forall i | 0 <= i < |x| ensures Xor(Xor(x[i], y[i]), y[i]) == x[i] {
      XorUndo(x[i], y[i]);
    }
  }
}
