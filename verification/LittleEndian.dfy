/** Little-endian unsigned integers, as `struct` packs them with `<`. */
module LittleEndian {
  import opened Xors

  function FromLE(s: Bytes): nat { if s == [] then 0 else s[0] + 256 * FromLE(s[1..]) }

  /** The low byte comes first. */
  lemma {:induction false} LowByteFirst(low: byte, high: byte)
    ensures FromLE([low, high]) == low + 256 * high
  {
    assert [low, high][1..] == [high] && [high][1..] == [];
    assert FromLE([high]) == high;
  }

  function ToLE(n: nat, k: nat): (s: Bytes)
    ensures |s| == k
  {
    if k == 0 then [] else [n % 256] + ToLE(n / 256, k - 1)
  }

  lemma {:induction false} FromOfTo(n: nat, k: nat)
    requires n < Pow256(k)
    ensures FromLE(ToLE(n, k)) == n
  {
    if k > 0 {
      FromOfTo(n / 256, k - 1);
      assert ToLE(n, k)[1..] == ToLE(n / 256, k - 1);
    }
  }

  lemma {:induction false} ToOfFrom(s: Bytes)
    ensures FromLE(s) < Pow256(|s|) && ToLE(FromLE(s), |s|) == s
  {
    if s != [] {
      ToOfFrom(s[1..]);
      var n := FromLE(s);
      assert n % 256 == s[0] && n / 256 == FromLE(s[1..]);
      assert s == [s[0]] + s[1..];
    }
  }
}
