/** Decimal printing (`str(n)`) and Python's `int(bytes)`. */
module Decimal {
  import opened Options

  predicate IsDigit(c: char) { '0' <= c <= '9' }

  function DigitValue(c: char): nat
    requires IsDigit(c)
  {
    (c as int) - ('0' as int)
  }

  function DigitChar(d: nat): (c: char)
    requires d < 10
    ensures IsDigit(c) && DigitValue(c) == d
  {
    "0123456789"[d]
  }

  predicate AllDigits(s: string) { forall i :: 0 <= i < |s| ==> IsDigit(s[i]) }

  /** `str(n)` for a non-negative integer. */
  function Dec(n: nat): (s: string)
    ensures s != "" && AllDigits(s)
  {
    if n < 10 then [DigitChar(n)] else Dec(n / 10) + [DigitChar(n % 10)]
  }

  function Value(s: string): nat
    requires AllDigits(s)
  {
    if s == "" then 0 else 10 * Value(s[..|s| - 1]) + DigitValue(s[|s| - 1])
  }

  lemma {:induction false} ValueOfDec(n: nat)
    ensures Value(Dec(n)) == n
  {
    if n >= 10 {
      ValueOfDec(n / 10);
      assert Dec(n)[..|Dec(n)| - 1] == Dec(n / 10);
    } else {
      assert Dec(n)[..0] == "";
    }
  }

  lemma {:induction false} DecInjective(a: nat, b: nat)
    requires Dec(a) == Dec(b)
    ensures a == b
  {
    ValueOfDec(a);
    ValueOfDec(b);
  }

  function Pow10(k: nat): nat { if k == 0 then 1 else 10 * Pow10(k - 1) }

  lemma {:induction false} DecLength(n: nat, k: nat)
    requires k > 0
    ensures |Dec(n)| <= k <==> n < Pow10(k)
    decreases n
  {
    if n < 10 {
      Pow10Grows(k);
    } else if k == 1 {
      assert |Dec(n)| >= 2 && Pow10(1) == 10 * Pow10(0);
    } else {
      DecLength(n / 10, k - 1);
    }
  }

  lemma {:induction false} Pow10Grows(k: nat)
    requires k > 0
    ensures Pow10(k) >= 10
  {
    if k > 1 { Pow10Grows(k - 1); } else { assert Pow10(1) == 10 * Pow10(0); }
  }

  // ---------------------------------------------------------------- int(bytes)

  predicate IsSpace(c: char) { c in " \t\n\r" || c as int == 11 || c as int == 12 }

  function LeftStrip(s: string): string {
    if s != "" && IsSpace(s[0]) then LeftStrip(s[1..]) else s
  }

  function RightStrip(s: string): string {
    if s != "" && IsSpace(s[|s| - 1]) then RightStrip(s[..|s| - 1]) else s
  }

  /** Digits with single underscores between digits, underscores removed. */
  function Ungroup(s: string): (r: Option<string>)
    ensures r.Some? ==> AllDigits(r.value) && r.value != ""
  {
    if s == "" || !IsDigit(s[0]) then None
    else if |s| == 1 then Some(s)
    else
      var rest := Ungroup(if s[1] == '_' then s[2..] else s[1..]);
      if rest.None? then None else Some([s[0]] + rest.value)
  }

  /** `int(raw)` on bytes: blanks around, an optional sign, digits with single underscores between them. */
  function PyInt(raw: string): Option<int> {
    var s := RightStrip(LeftStrip(raw));
    var negative := s != "" && s[0] == '-';
    var body := if s != "" && s[0] in "+-" then s[1..] else s;
    match Ungroup(body)
    case None => None
    case Some(digits) => var v: int := Value(digits); Some(if negative then -v else v)
  }

  lemma {:induction false} UngroupDigits(s: string)
    requires AllDigits(s) && s != ""
    ensures Ungroup(s) == Some(s)
  {
    if |s| > 1 {
      assert s[1] != '_' by { assert IsDigit(s[1]); }
      UngroupDigits(s[1..]);
      assert s == [s[0]] + s[1..];
    }
  }

  lemma {:induction false} DigitsStay(d: string)
    requires AllDigits(d) && d != ""
    ensures LeftStrip(d) == d && RightStrip(d) == d && d[0] !in "+-"
  {
    assert IsDigit(d[0]) && IsDigit(d[|d| - 1]);
  }

  lemma {:induction false} PyIntDigits(d: string)
    requires AllDigits(d) && d != ""
    ensures PyInt(d) == Some(Value(d))
  {
    DigitsStay(d);
    UngroupDigits(d);
    hide Ungroup, Value, LeftStrip, RightStrip;
  }

  /** Reading what was printed gives the number back. */
  lemma {:induction false} PyIntOfDec(n: nat)
    ensures PyInt(Dec(n)) == Some(n)
  {
    hide PyInt;
    ValueOfDec(n);
    PyIntDigits(Dec(n));
  }

  lemma {:induction false} LeadingZero(s: string)
    requires AllDigits(s)
    ensures AllDigits("0" + s) && Value("0" + s) == Value(s)
  {
    var z := "0" + s;
    if s == "" {
      assert z[..0] == "";
    } else {
      LeadingZero(s[..|s| - 1]);
      assert z[..|z| - 1] == "0" + s[..|s| - 1];
    }
  }

  lemma {:induction false} PyIntSigned(d: string)
    requires AllDigits(d) && d != ""
    ensures PyInt("+" + d) == Some(Value(d))
  {
    var s := "+" + d;
    assert IsDigit(d[|d| - 1]) && s[|s| - 1] == d[|d| - 1];
    assert LeftStrip(s) == s && RightStrip(s) == s && s[1..] == d;
    UngroupDigits(d);
    hide Ungroup, Value, LeftStrip, RightStrip;
  }

  lemma {:induction false} PyIntBlank(s: string)
    ensures PyInt(" " + s) == PyInt(s)
  {
    assert (" " + s)[1..] == s;
    assert LeftStrip(" " + s) == LeftStrip(s);
    hide Ungroup, Value, LeftStrip, RightStrip;
  }

  /** `int` reads every number in forms that are never printed: signed, padded with a zero, behind a blank. */
  lemma {:induction false} PyIntIsLax(n: nat)
    ensures PyInt("+" + Dec(n)) == PyInt("0" + Dec(n)) == PyInt(" " + Dec(n)) == Some(n)
    ensures forall m :: Dec(m) != "+" + Dec(n) && Dec(m) != "0" + Dec(n) && Dec(m) != " " + Dec(n)
  {
    hide PyInt, Value;
    var d := Dec(n);
    PyIntOfDec(n);
    ValueOfDec(n);
    PyIntSigned(d);
    LeadingZero(d);
    PyIntDigits("0" + d);
    PyIntBlank(d);
    forall m ensures Dec(m) != "+" + d && Dec(m) != "0" + d && Dec(m) != " " + d {
      NoLeadingZero(m);
      assert IsDigit(Dec(m)[0]);
    }
  }

  lemma {:induction false} NoLeadingZero(m: nat)
    ensures |Dec(m)| > 1 ==> Dec(m)[0] != '0'
    ensures m > 0 ==> Dec(m)[0] != '0'
  {
    if m >= 10 { NoLeadingZero(m / 10); }
  }
}
