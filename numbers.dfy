/** Python's `int(s)` on a string (base 10) and `str(n)` on an integer. */
module Numbers {
  import opened Outcomes
  import opened Strings

  predicate IsDigit(c: char) {
    '0' <= c <= '9'
  }

  function DigitValue(c: char): (d: nat)
    requires IsDigit(c)
    ensures d < 10
  {
    (c as int) - ('0' as int)
  }

  function DigitChar(d: nat): (c: char)
    requires d < 10
    ensures IsDigit(c) && DigitValue(c) == d
  {
    (('0' as int) + d) as char
  }

  /** The body `int()` accepts after an optional sign: ASCII digits, with
      single underscores allowed between two digits. */
  predicate IsDigitRun(s: string) {
    && s != []
    && IsDigit(s[0])
    && IsDigit(s[|s| - 1])
    && (forall k :: 0 <= k < |s| ==> IsDigit(s[k]) || s[k] == '_')
    && (forall k :: 0 <= k < |s| - 1 ==> !(s[k] == '_' && s[k + 1] == '_'))
  }

  /** The decimal value of the digits of `s`, underscores skipped. */
  function DigitsValue(s: string): nat
    requires forall k :: 0 <= k < |s| ==> IsDigit(s[k]) || s[k] == '_'
  {
    if s == [] then 0
    else if IsDigit(s[|s| - 1]) then 10 * DigitsValue(s[..|s| - 1]) + DigitValue(s[|s| - 1])
    else DigitsValue(s[..|s| - 1])
  }

  /** `int(s)`: `Some(n)` when it returns `n`, `None` when it raises ValueError.
      Surrounding whitespace is ignored and one leading sign is allowed. */
  function ParseInt(s: string): (r: Option<int>)
    ensures r.Some? ==> Strip(s) != []
    ensures r.Some? && r.value < 0 ==> Strip(s)[0] == '-'
  {
    ParseStripped(Strip(s))
  }

  /** `int()` once surrounding whitespace is gone: an optional sign, then a
      digit run. */
  function ParseStripped(t: string): (r: Option<int>)
    ensures r.Some? ==> t != []
    ensures r.Some? && r.value < 0 ==> t[0] == '-'
  {
    if t != [] && (t[0] == '-' || t[0] == '+') then
      if IsDigitRun(t[1..]) then
        var magnitude: int := DigitsValue(t[1..]);
        Some(if t[0] == '-' then -magnitude else magnitude)
      else None
    else if IsDigitRun(t) then Some(DigitsValue(t))
    else None
  }

  function NatToString(n: nat): (r: string)
    ensures r != [] && forall k :: 0 <= k < |r| ==> IsDigit(r[k])
    ensures |r| > 1 ==> r[0] != '0'
  {
    if n < 10 then [DigitChar(n)]
    else
      var front := NatToString(n / 10);
      var r := front + [DigitChar(n % 10)];
      assert r[0] == front[0];
      r
  }

  /** `str(n)`. */
  function IntToString(n: int): (r: string)
    ensures r != [] && (r[0] == '-' <==> n < 0)
  {
    if n < 0 then "-" + NatToString(-n) else NatToString(n)
  }

  lemma {:induction false} DigitsValueOfNatToString(n: nat)
    ensures DigitsValue(NatToString(n)) == n
  {
    if n >= 10 {
      var front := NatToString(n / 10);
      var r := front + [DigitChar(n % 10)];
      assert r[..|r| - 1] == front;
      DigitsValueOfNatToString(n / 10);
    }
  }

  lemma NatToStringIsDigitRun(n: nat)
    ensures IsDigitRun(NatToString(n))
  {
  }

  /** An optional sign and a digit run parse to the signed value of the digits. */
  lemma ParseStrippedOf(sign: string, digits: string)
    requires sign == "" || sign == "-" || sign == "+"
    requires IsDigitRun(digits)
    ensures ParseStripped(sign + digits) == Some(if sign == "-" then -(DigitsValue(digits) as int) else DigitsValue(digits) as int)
  {
    var t := sign + digits;
    if sign == "" {
      assert t == digits;
      ParseStrippedUnsigned(t);
    } else {
      assert t[0] == sign[0] && t[1..] == digits;
      ParseStrippedSigned(t, digits);
    }
  }

  lemma ParseStrippedUnsigned(digits: string)
    requires IsDigitRun(digits)
    ensures ParseStripped(digits) == Some(DigitsValue(digits) as int)
  {
  }

  lemma ParseStrippedSigned(t: string, digits: string)
    requires |t| > 0 && (t[0] == '-' || t[0] == '+') && t[1..] == digits && IsDigitRun(digits)
    ensures ParseStripped(t) == Some(if t[0] == '-' then -(DigitsValue(digits) as int) else DigitsValue(digits) as int)
  {
  }

  /** `int()` of an optional sign and a digit run, with any whitespace
      around them, is the signed value of the digits. */
  lemma ParseIntOfDigits(ws: string, sign: string, digits: string, ws2: string)
    requires AllSpace(ws) && AllSpace(ws2)
    requires sign == "" || sign == "-" || sign == "+"
    requires IsDigitRun(digits)
    ensures ParseInt(ws + sign + digits + ws2) == Some(if sign == "-" then -(DigitsValue(digits) as int) else DigitsValue(digits) as int)
  {
    ParseIntOfSignedDigits(ws + sign + digits + ws2, ws, sign, digits, ws2);
  }

  lemma ParseIntOfSignedDigits(s: string, ws: string, sign: string, digits: string, ws2: string)
    requires s == ws + sign + digits + ws2
    requires AllSpace(ws) && AllSpace(ws2)
    requires sign == "" || sign == "-" || sign == "+"
    requires IsDigitRun(digits)
    ensures ParseInt(s) == Some(if sign == "-" then -(DigitsValue(digits) as int) else DigitsValue(digits) as int)
  {
    var core := sign + digits;
    assert core[0] == (if sign == "" then digits[0] else sign[0]);
    PrintableNotSpace(core[0]);
    assert core[|core| - 1] == digits[|digits| - 1];
    PrintableNotSpace(core[|core| - 1]);
    assert ws + sign + digits + ws2 == ws + core + ws2;
    StripAround(ws, core, ws2);
    ParseStrippedOf(sign, digits);
  }

  /** `int(str(n)) == n`: rendering an integer and parsing it back is the identity. */
  lemma ParseIntToString(n: int)
    ensures ParseInt(IntToString(n)) == Some(n)
  {
    var m: nat := if n < 0 then -n else n;
    NatToStringIsDigitRun(m);
    DigitsValueOfNatToString(m);
    ParseIntOfRendered(IntToString(n), if n < 0 then "-" else "", NatToString(m), m);
  }

  lemma ParseIntOfRendered(s: string, sign: string, digits: string, m: nat)
    requires sign == "" || sign == "-"
    requires s == sign + digits && IsDigitRun(digits) && DigitsValue(digits) == m
    ensures ParseInt(s) == Some(if sign == "-" then -(m as int) else m as int)
  {
    assert s[0] == (if sign == "" then digits[0] else sign[0]);
    PrintableNotSpace(s[0]);
    assert s[|s| - 1] == digits[|digits| - 1];
    PrintableNotSpace(s[|s| - 1]);
    assert Strip(s) == s;
    ParseStrippedOf(sign, digits);
  }

}
