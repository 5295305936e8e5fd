/**
 * `parseInt(text, 10)` as JavaScript defines it: skip leading white space,
 * take an optional sign, then the longest run of decimal digits; with no
 * digit the result is `NaN` (here `None`). Whatever follows the digits is
 * ignored, so "12abc" reads as 12.
 */
module JsParseInt {
  import opened Wrappers

  /** `s` holds a decimal digit somewhere. */
  predicate HasDigit(s: string)
  {
    s != [] && (IsDigit(s[0]) || HasDigit(s[1..]))
  }

  /** A digit at position `k` is a digit somewhere. */
  lemma {:induction false} HasDigitAt(s: string, k: int)
    requires 0 <= k < |s| && IsDigit(s[k])
    ensures HasDigit(s)
  {
    if k > 0 {
      HasDigitAt(s[1..], k - 1);
    }
  }

  /** The characters JavaScript's `StrWhiteSpaceChar` admits: white space and line terminators. */
  predicate IsJsWhiteSpace(c: char)
  {
    var u := c as int;
    u == 0x09 || u == 0x0A || u == 0x0B || u == 0x0C || u == 0x0D || u == 0x20 ||
    u == 0xA0 || u == 0x1680 || (0x2000 <= u <= 0x200A) || u == 0x2028 || u == 0x2029 ||
    u == 0x202F || u == 0x205F || u == 0x3000 || u == 0xFEFF
  }

  predicate IsDigit(c: char)
  {
    '0' <= c <= '9'
  }

  predicate AllDigits(s: string)
  {
    forall i :: 0 <= i < |s| ==> IsDigit(s[i])
  }

  function DigitValue(c: char): (d: nat)
    requires IsDigit(c)
    ensures d < 10
  {
    c as int - '0' as int
  }

  function DigitChar(d: nat): (c: char)
    requires d < 10
    ensures IsDigit(c) && DigitValue(c) == d
  {
    ('0' as int + d) as char
  }

  /** The text after its leading white space: a suffix that does not start with white space. */
  function TrimStart(s: string): (t: string)
    ensures |t| <= |s| && t == s[|s| - |t|..]
    ensures t == [] || !IsJsWhiteSpace(t[0])
  {
    if s != [] && IsJsWhiteSpace(s[0]) then TrimStart(s[1..]) else s
  }

  /** What `TrimStart` drops is all white space. */
  lemma {:induction false} TrimStartDropsWhiteSpace(s: string)
    ensures forall i :: 0 <= i < |s| - |TrimStart(s)| ==> IsJsWhiteSpace(s[i])
  {
    if s != [] && IsJsWhiteSpace(s[0]) {
      var tail := s[1..];
      TrimStartDropsWhiteSpace(tail);
      assert TrimStart(s) == TrimStart(tail);
      forall i | 1 <= i < |s| - |TrimStart(s)|
        ensures IsJsWhiteSpace(s[i])
      {
        assert s[i] == tail[i - 1];
      }
    }
  }

  /** The longest prefix of `s` made of decimal digits. */
  function LeadingDigits(s: string): (d: string)
    ensures d <= s && AllDigits(d)
    ensures |d| == |s| || !IsDigit(s[|d|])
  {
    if s != [] && IsDigit(s[0]) then [s[0]] + LeadingDigits(s[1..]) else []
  }

  /** The number a run of decimal digits denotes, most significant digit first. */
  function DigitsValue(d: string): nat
    requires AllDigits(d)
  {
    if d == [] then 0 else DigitsValue(d[..|d| - 1]) * 10 + DigitValue(d[|d| - 1])
  }

  /** `parseInt(s, 10)`; `None` stands for `NaN`. */
  function ParseInt(s: string): (r: Option<int>)
    ensures r.Some? ==> HasDigit(s)
    ensures r.Some? && r.value < 0 ==> TrimStart(s) != [] && TrimStart(s)[0] == '-'
  {
    var t := TrimStart(s);
    var r := ParseSigned(t);
    if r.Some? then HasDigitOfSuffix(s, |s| - |t|); r else r
  }

  /** What `parseInt` reads once the white space is gone: an optional sign, then the digit run. */
  function ParseSigned(t: string): (r: Option<int>)
    ensures r.Some? ==> HasDigit(t)
    ensures r.Some? && r.value < 0 ==> t != [] && t[0] == '-'
  {
    var skip := if t != [] && (t[0] == '-' || t[0] == '+') then 1 else 0;
    var d := LeadingDigits(t[skip..]);
    if d == [] then None
    else
      assert IsDigit(t[skip]) by {
        assert d[0] == t[skip..][0];
      }
      HasDigitAt(t, skip);
      if skip == 1 && t[0] == '-' then Some(-(DigitsValue(d) as int))
      else Some(DigitsValue(d))
  }

  /** A digit in a suffix is a digit of the whole. */
  lemma {:induction false} HasDigitOfSuffix(s: string, k: int)
    requires 0 <= k <= |s| && HasDigit(s[k..])
    ensures HasDigit(s)
  {
    if k > 0 {
      assert s[1..][k - 1..] == s[k..];
      HasDigitOfSuffix(s[1..], k - 1);
    }
  }

  /** Leading white space is skipped entirely. */
  lemma {:induction false} TrimStartOfWhiteSpace(ws: string, s: string)
    requires forall i :: 0 <= i < |ws| ==> IsJsWhiteSpace(ws[i])
    ensures TrimStart(ws + s) == TrimStart(s)
  {
    if ws != [] {
      var w := ws + s;
      assert w[0] == ws[0] && IsJsWhiteSpace(w[0]);
      assert TrimStart(w) == TrimStart(w[1..]);
      assert w[1..] == ws[1..] + s;
      TrimStartOfWhiteSpace(ws[1..], s);
    } else {
      assert ws + s == s;
    }
  }

  /** After leading white space, `parseInt` reads what follows it as if it stood alone. */
  lemma ParseIntAfterWhiteSpace(ws: string, u: string)
    requires forall i :: 0 <= i < |ws| ==> IsJsWhiteSpace(ws[i])
    requires u == [] || !IsJsWhiteSpace(u[0])
    ensures ParseInt(ws + u) == ParseSigned(u)
  {
    TrimStartOfWhiteSpace(ws, u);
  }

  /** An optional sign in front of a digit run is the sign of the value. */
  predicate IsSign(sign: string)
  {
    sign == "" || sign == "+" || sign == "-"
  }

  /** A sign, a digit run and a non-digit: the signed value of the run. */
  lemma ParseSignedOfNumeral(sign: string, d: string, rest: string)
    requires IsSign(sign)
    requires d != [] && AllDigits(d)
    requires rest == [] || !IsDigit(rest[0])
    ensures ParseSigned(sign + d + rest) == Some(if sign == "-" then -(DigitsValue(d) as int) else DigitsValue(d))
  {
    LeadingDigitsOfNumeral(d, rest);
    if sign == "" {
      AppendEmpty(sign, d);
      ParseSignedOfDigits(d, rest);
    } else {
      ParseSignedAfterSign(sign, d, rest);
    }
  }

  lemma AppendEmpty(e: string, u: string)
    requires e == []
    ensures e + u == u
  {
  }

  /** Without a sign the value is that of the leading digit run. */
  lemma ParseSignedOfDigits(d: string, rest: string)
    requires d != [] && LeadingDigits(d + rest) == d
    ensures ParseSigned(d + rest) == Some(DigitsValue(d))
  {
    assert (d + rest)[0] == d[0];
  }

  /** After a sign the value is that of the digit run that follows, negated for '-'. */
  lemma ParseSignedAfterSign(sign: string, d: string, rest: string)
    requires sign == "+" || sign == "-"
    requires d != [] && LeadingDigits(d + rest) == d
    ensures ParseSigned(sign + d + rest) == Some(if sign == "-" then -(DigitsValue(d) as int) else DigitsValue(d))
  {
    var u := sign + d + rest;
    assert u[0] == sign[0];
    assert u[1..] == d + rest;
  }

  /**
   * White space, an optional sign, a digit run, then anything that does not
   * start with a digit: the signed value of the run (so " 5", "+5" and "05"
   * all read as 5).
   */
  lemma ParseIntOfNumeral(ws: string, sign: string, d: string, rest: string)
    requires forall i :: 0 <= i < |ws| ==> IsJsWhiteSpace(ws[i])
    requires IsSign(sign)
    requires d != [] && AllDigits(d)
    requires rest == [] || !IsDigit(rest[0])
    ensures ParseInt(ws + sign + d + rest) == Some(if sign == "-" then -(DigitsValue(d) as int) else DigitsValue(d))
  {
    var u := sign + d + rest;
    assert ws + sign + d + rest == ws + u;
    assert u[0] == if sign == "" then d[0] else sign[0];
    ParseIntAfterWhiteSpace(ws, u);
    ParseSignedOfNumeral(sign, d, rest);
  }

  /** A sign followed by anything but a digit has no digit run to read. */
  lemma ParseSignedWithoutLeadingDigit(sign: string, u: string)
    requires IsSign(sign)
    requires u == [] || !IsDigit(u[0])
    requires sign == "" && u != [] ==> u[0] != '+' && u[0] != '-'
    ensures ParseSigned(sign + u) == None
  {
    var v := sign + u;
    if sign != "" {
      assert v[0] == sign[0] && v[1..] == u;
    } else {
      assert v == u;
    }
  }

  /**
   * White space and an optional sign followed by anything but a digit is
   * `NaN` (".5", "a5", "--5", "- 5").
   */
  lemma ParseIntWithoutLeadingDigit(ws: string, sign: string, u: string)
    requires forall i :: 0 <= i < |ws| ==> IsJsWhiteSpace(ws[i])
    requires IsSign(sign)
    requires u == [] || !IsDigit(u[0])
    requires sign == "" && u != [] ==> !IsJsWhiteSpace(u[0]) && u[0] != '+' && u[0] != '-'
    ensures ParseInt(ws + sign + u) == None
  {
    var v := sign + u;
    assert ws + sign + u == ws + v;
    if v != [] {
      assert v[0] == if sign == "" then u[0] else sign[0];
    }
    ParseIntAfterWhiteSpace(ws, v);
    ParseSignedWithoutLeadingDigit(sign, u);
  }

  /** The decimal numeral of `n`, without leading zeros: what `String(n)` gives. */
  function Decimal(n: nat): (s: string)
    ensures |s| >= 1 && AllDigits(s)
  {
    if n < 10 then [DigitChar(n)] else Decimal(n / 10) + [DigitChar(n % 10)]
  }

  lemma {:induction false} DigitsValueOfDecimal(n: nat)
    ensures DigitsValue(Decimal(n)) == n
  {
    if n >= 10 {
      var s := Decimal(n);
      assert s[..|s| - 1] == Decimal(n / 10);
      DigitsValueOfDecimal(n / 10);
    }
  }

  /** The digit run stops at the first character that is not a digit. */
  lemma {:induction false} LeadingDigitsOfNumeral(d: string, rest: string)
    requires AllDigits(d)
    requires rest == [] || !IsDigit(rest[0])
    ensures LeadingDigits(d + rest) == d
  {
    if d != [] {
      assert (d + rest)[1..] == d[1..] + rest;
      LeadingDigitsOfNumeral(d[1..], rest);
    }
  }

  /** Reading back a written number gives it back, whatever non-digit text follows it. */
  lemma ParseIntOfDecimal(n: nat, rest: string)
    requires rest == [] || !IsDigit(rest[0])
    ensures ParseInt(Decimal(n) + rest) == Some(n)
  {
    var d := Decimal(n);
    DigitsValueOfDecimal(n);
    LeadingDigitsOfNumeral(d, rest);
    assert (d + rest)[0] == d[0];
    assert TrimStart(d + rest) == d + rest;
    ParseSignedOfDigits(d, rest);
  }

  /** The same for a minus sign in front. */
  lemma ParseIntOfNegativeDecimal(n: nat, rest: string)
    requires rest == [] || !IsDigit(rest[0])
    ensures ParseInt("-" + Decimal(n) + rest) == Some(-(n as int))
  {
    var d := Decimal(n);
    DigitsValueOfDecimal(n);
    LeadingDigitsOfNumeral(d, rest);
    assert ("-" + d + rest)[0] == '-';
    assert TrimStart("-" + d + rest) == "-" + d + rest;
    ParseSignedAfterSign("-", d, rest);
  }

  /** Text without any decimal digit is `NaN`. */
  lemma ParseIntWithoutDigits(s: string)
    requires forall i :: 0 <= i < |s| ==> !IsDigit(s[i])
    ensures ParseInt(s) == None
  {
    var t := TrimStart(s);
    if t != [] && (t[0] == '-' || t[0] == '+') {
      assert t[1..] == s[|s| - |t| + 1..];
      if t[1..] != [] {
        assert t[1..][0] == s[|s| - |t| + 1];
      }
    } else if t != [] {
      assert t[0] == s[|s| - |t|];
    }
  }
}
