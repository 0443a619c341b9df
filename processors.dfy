/**
  The processor-count setting: a number, or a string that is "MAX", a decimal
  count, or "MAX-X" (X processors fewer than the machine has, at least one).
  The machine's processor count is a parameter.
*/
module Processors {
  import opened Wrappers
  import opened Ascii

  /** A setting as given: a string, an integer or a float. */
  datatype Value = Str(s: string) | IntNum(n: int) | FloatNum(f: real)

  datatype ProcessorsError =
    | BadFormat(s: string)       // a string of none of the accepted shapes
    | AboveAvailable(v: Value)   // a number above the processor count
    | BelowOne(v: Value)         // a number below one

  /**
    Anchored match of one or more decimal digits up to the end of the string,
    where the end may also be just before one final newline.
  */
  predicate MatchesDigits(s: string) {
    (|s| > 0 && AllDigits(s)) || (|s| > 1 && s[|s| - 1] == '\n' && AllDigits(s[..|s| - 1]))
  }

  /** The digits of a string MatchesDigits accepts. */
  function DigitPart(s: string): (d: string)
    requires MatchesDigits(s)
    ensures 0 < |d| <= |s| && AllDigits(d) && s[..|d|] == d
  {
    if AllDigits(s) then s else s[..|s| - 1]
  }

  /**
    int() of a string: surrounding whitespace, an optional sign and at least one
    decimal digit; anything else is rejected.
  */
  function ParseInt(s: string): Option<int> {
    SignedDigits(TrimEnd(TrimStart(s)))
  }

  /** An optional sign followed by at least one decimal digit, and nothing else. */
  function SignedDigits(t: string): Option<int> {
    if |t| > 0 && (t[0] == '+' || t[0] == '-') then
      var d := t[1..];
      if |d| > 0 && AllDigits(d) then Some(if t[0] == '-' then 0 - DigitsValue(d) else DigitsValue(d)) else None
    else if |t| > 0 && AllDigits(t) then Some(DigitsValue(t))
    else None
  }

  predicate IsSign(sign: string) {
    sign == "" || sign == "+" || sign == "-"
  }

  /** The integer a sign and decimal digits denote. */
  function SignedValue(sign: string, d: string): int
    requires AllDigits(d)
  {
    if sign == "-" then 0 - DigitsValue(d) else DigitsValue(d)
  }

  /** Text int() reads: whitespace, an optional sign, one or more digits, whitespace. */
  ghost predicate IntText(t: string) {
    exists a, sign, d, b :: t == a + sign + d + b && AllSpace(a) && IsSign(sign) && |d| > 0 && AllDigits(d) && AllSpace(b)
  }

  /**
    Splitting on "MAX", optional whitespace, "-", optional whitespace anchored at
    the start: what follows the separator when it is there.
  */
  function AfterMaxDash(s: string): (rest: Option<string>)
    ensures rest.Some? ==> |s| >= 3 && s[..3] == "MAX"
  {
    if |s| >= 3 && s[..3] == "MAX" then
      var r := TrimStart(s[3..]);
      if |r| > 0 && r[0] == '-' then Some(TrimStart(r[1..])) else None
    else None
  }

  /** int() of a number: a float is truncated toward zero. */
  function Truncate(v: Value): (n: int)
    requires !v.Str?
    ensures v.IntNum? ==> n == v.n
    ensures v.FloatNum? ==> (n as real) <= v.f < (n as real) + 1.0 || (n as real) - 1.0 < v.f <= (n as real)
    ensures v.FloatNum? && v.f >= 0.0 ==> 0 <= n && (n as real) <= v.f
    ensures v.FloatNum? && v.f < 0.0 ==> n <= 0 && v.f <= (n as real)
  {
    match v
    case IntNum(n) => n
    case FloatNum(f) => if f >= 0.0 then f.Floor else -((-f).Floor)
  }

  function Max(a: int, b: int): int {
    if a >= b then a else b
  }

  /**
    The count a string asks for: "MAX" in any case, a plain decimal count, or
    "MAX-X" with optional whitespace around the dash; anything else is refused.
  */
  function ParseCount(s: string, maxp: int): (r: Result<int, ProcessorsError>)
    ensures r.Err? ==> r.error == BadFormat(s)
  {
    CountOf(s, Upper(s), maxp)
  }

  /** The branches of ParseCount, given the upper-cased text u of s. */
  function CountOf(s: string, u: string, maxp: int): (r: Result<int, ProcessorsError>)
    ensures r.Err? ==> r.error == BadFormat(s)
  {
    if u == "MAX" then Ok(maxp)
    else if MatchesDigits(s) then Ok(DigitsValue(DigitPart(s)))
    else
      var rest := AfterMaxDash(u);
      if rest.None? then Err(BadFormat(s))
      else
        var x := ParseInt(rest.value);
        if x.None? then Err(BadFormat(s)) else Ok(Max(maxp - x.value, 1))
  }

  /**
    The number of processors a setting asks for on a machine with maxp of them.
    A string gives an integer; a number is range-checked and returned as given.
  */
  function ParseNumProcessors(v: Value, maxp: int): (r: Result<Value, ProcessorsError>)
    ensures !v.Str? ==> (r.Ok? <==> 1 <= Truncate(v) <= maxp)
    ensures !v.Str? && r.Ok? ==> r.value == v
    ensures !v.Str? && r.Err? ==> r.error == (if Truncate(v) > maxp then AboveAvailable(v) else BelowOne(v))
    ensures v.Str? && r.Ok? ==> r.value.IntNum?
    ensures v.Str? && r.Err? ==> r.error == BadFormat(v.s)
  {
    match v
    case Str(s) =>
      var c := ParseCount(s, maxp);
      if c.Ok? then Ok(IntNum(c.value)) else Err(c.error)
    case _ =>
      var n := Truncate(v);
      if n > maxp then Err(AboveAvailable(v))
      else if n < 1 then Err(BelowOne(v))
      else Ok(v)
  }

  /** "MAX" in any letter case gives the processor count. */
  lemma MaxAnyCase(s: string, maxp: int)
    requires |s| == 3 && UpperChar(s[0]) == 'M' && UpperChar(s[1]) == 'A' && UpperChar(s[2]) == 'X'
    ensures ParseNumProcessors(Str(s), maxp) == Ok(IntNum(maxp))
  {
    assert Upper(s) == "MAX";
  }

  /** int() reads whitespace, a sign, digits and whitespace as the signed number, leading zeros and all. */
  lemma ParseIntReads(a: string, sign: string, d: string, b: string)
    requires AllSpace(a) && IsSign(sign) && |d| > 0 && AllDigits(d) && AllSpace(b)
    ensures ParseInt(a + sign + d + b) == Some(SignedValue(sign, d))
  {
    var sd := sign + d;
    assert a + sign + d + b == a + (sd + b);
    TrimmedSigned(a, sign, d, b);
    SignedDigitsReads(sign, d);
  }

  /** Trimming whitespace around a sign and digits leaves the sign and digits. */
  lemma TrimmedSigned(a: string, sign: string, d: string, b: string)
    requires AllSpace(a) && IsSign(sign) && |d| > 0 && AllDigits(d) && AllSpace(b)
    ensures TrimEnd(TrimStart(a + (sign + d + b))) == sign + d
  {
    var sd := sign + d;
    var t := sd + b;
    assert sign + d + b == t;
    TrimStartSkips(a, t);
    assert !IsSpace(t[0]) by {
      if sign == "" {
        assert t[0] == d[0] && IsDigit(d[0]);
      } else {
        assert t[0] == sign[0];
      }
    }
    TrimEndSkips(sd, b);
    assert !IsSpace(sd[|sd| - 1]) by {
      assert sd[|sd| - 1] == d[|d| - 1] && IsDigit(d[|d| - 1]);
    }
  }

  /** A sign followed by digits is read as the signed number. */
  lemma SignedDigitsReads(sign: string, d: string)
    requires IsSign(sign) && |d| > 0 && AllDigits(d)
    ensures SignedDigits(sign + d) == Some(SignedValue(sign, d))
  {
    var sd := sign + d;
    if sign == "" {
      assert sd == d;
      assert !(d[0] == '+' || d[0] == '-') by {
        assert IsDigit(d[0]);
      }
    } else {
      assert sd[0] == sign[0] && sd[1..] == d;
    }
  }

  /** int() accepts exactly the text of an optionally signed decimal number within whitespace. */
  lemma ParseIntAccepts(s: string)
    ensures ParseInt(s).Some? <==> IntText(s)
  {
    if IntText(s) {
      var a, sign, d, b :| s == a + sign + d + b && AllSpace(a) && IsSign(sign) && |d| > 0 && AllDigits(d) && AllSpace(b);
      ParseIntReads(a, sign, d, b);
    }
    if ParseInt(s).Some? {
      var a, sign, d, b := ParseIntShape(s);
    }
  }

  /** Text int() reads splits into whitespace, a sign, digits and whitespace. */
  lemma ParseIntShape(s: string) returns (a: string, sign: string, d: string, b: string)
    requires ParseInt(s).Some?
    ensures s == a + sign + d + b && AllSpace(a) && IsSign(sign) && |d| > 0 && AllDigits(d) && AllSpace(b)
  {
    var k1 := TrimStartSplit(s);
    var u := s[k1..];
    var k2 := TrimEndSplit(u);
    var t := u[..k2];
    a, b := s[..k1], u[k2..];
    assert s == a + t + b by {
      assert s == a + u && u == t + b;
    }
    assert SignedDigits(t).Some?;
    sign, d := SignSplit(t);
  }

  /** Text SignedDigits reads splits into a sign and digits. */
  lemma SignSplit(t: string) returns (sign: string, d: string)
    requires SignedDigits(t).Some?
    ensures t == sign + d && IsSign(sign) && |d| > 0 && AllDigits(d)
  {
    if t[0] == '+' || t[0] == '-' {
      sign, d := t[..1], t[1..];
    } else {
      sign, d := "", t;
    }
  }

  /** Trimming the start first does not change what int() reads. */
  lemma ParseIntAfterTrim(t: string)
    ensures ParseInt(TrimStart(t)) == ParseInt(t)
  {
    TrimStartTwice(t);
  }

  /** The digits are read as int() reads them, newline included. */
  lemma {:induction false} DigitsAsInt(s: string)
    requires MatchesDigits(s)
    ensures ParseInt(s) == Some(DigitsValue(DigitPart(s)))
  {
    var d := DigitPart(s);
    var b := s[|d|..];
    assert AllSpace(b) by {
      if |b| > 0 {
        assert b[0] == '\n';
      }
    }
    assert s == d + b;
    assert "" + "" + d + b == d + b;
    ParseIntReads("", "", d, b);
  }

  /**
    A string of decimal digits, perhaps followed by one newline, asks for the
    number int() reads from it, leading zeros included and with no range check.
  */
  lemma DigitsCount(s: string, maxp: int)
    requires MatchesDigits(s)
    ensures ParseNumProcessors(Str(s), maxp) == Ok(IntNum(DigitsValue(DigitPart(s))))
    ensures ParseInt(s) == Some(DigitsValue(DigitPart(s)))
  {
    DigitsAsInt(s);
    var d := DigitPart(s);
    assert Upper(s)[0] == s[0] by {
      assert IsDigit(d[0]) && s[0] == d[0];
    }
  }

  /** Any count written in decimal comes back unchanged, with no range check. */
  lemma {:induction false} CountRoundTrip(n: nat, maxp: int)
    ensures ParseNumProcessors(Str(NatToString(n)), maxp) == Ok(IntNum(n))
  {
    var s := NatToString(n);
    NatToStringRoundTrip(n);
    assert DigitPart(s) == s;
    DigitsCount(s, maxp);
  }

  /** The strings a setting may be: "MAX" in any case, decimal digits, or "MAX", whitespace, "-" and text int() reads. */
  ghost predicate CountText(s: string) {
    Upper(s) == "MAX" || MatchesDigits(s) ||
    exists ws, t :: Upper(s) == "MAX" + ws + "-" + t && AllSpace(ws) && IntText(t)
  }

  /** A string setting is accepted exactly when it has one of the shapes; every other string is refused. */
  lemma ParseCountAccepts(s: string, maxp: int)
    ensures ParseNumProcessors(Str(s), maxp).Ok? <==> CountText(s)
  {
    var u := Upper(s);
    if u != "MAX" && !MatchesDigits(s) {
      MaxDashAccepts(u);
    }
  }

  /** The "MAX-X" branch succeeds exactly on "MAX", whitespace, "-" and text int() reads. */
  lemma MaxDashAccepts(u: string)
    ensures (AfterMaxDash(u).Some? && ParseInt(AfterMaxDash(u).value).Some?) <==>
      exists ws, t :: u == "MAX" + ws + "-" + t && AllSpace(ws) && IntText(t)
  {
    if AfterMaxDash(u).Some? && ParseInt(AfterMaxDash(u).value).Some? {
      var ws, t := MaxDashShape(u);
    }
    if exists ws, t :: u == "MAX" + ws + "-" + t && AllSpace(ws) && IntText(t) {
      var ws, t :| u == "MAX" + ws + "-" + t && AllSpace(ws) && IntText(t);
      DashSplits(u, ws, t);
      ParseIntAfterTrim(t);
      ParseIntAccepts(t);
    }
  }

  /** Text the "MAX-X" branch accepts splits into "MAX", whitespace, "-" and text int() reads. */
  lemma MaxDashShape(u: string) returns (ws: string, t: string)
    requires AfterMaxDash(u).Some? && ParseInt(AfterMaxDash(u).value).Some?
    ensures u == "MAX" + ws + "-" + t && AllSpace(ws) && IntText(t)
  {
    var k := TrimStartSplit(u[3..]);
    var r := u[3..][k..];
    ws, t := u[3..][..k], r[1..];
    assert u == "MAX" + ws + "-" + t by {
      assert u == u[..3] + u[3..] && u[3..] == ws + r && r == [r[0]] + t;
    }
    assert AfterMaxDash(u).value == TrimStart(t);
    ParseIntAfterTrim(t);
    ParseIntAccepts(t);
  }

  /** "MAX", whitespace and a dash are split off, leaving what follows with its leading whitespace trimmed. */
  lemma DashSplits(u: string, ws: string, t: string)
    requires u == "MAX" + ws + "-" + t && AllSpace(ws)
    ensures AfterMaxDash(u) == Some(TrimStart(t))
  {
    assert u[..3] == "MAX";
    assert u[3..] == ws + ("-" + t);
    TrimStartSkips(ws, "-" + t);
    assert ("-" + t)[1..] == t;
  }

  /**
    "MAX", optional whitespace, "-" and text int() reads as x, in any letter
    case, gives max(maxp - x, 1): "max - 3", "MAX-+3" and "MAX--2" included.
  */
  lemma MaxMinusReads(s: string, ws: string, a: string, sign: string, d: string, b: string, maxp: int)
    requires AllSpace(ws) && AllSpace(a) && IsSign(sign) && |d| > 0 && AllDigits(d) && AllSpace(b)
    requires Upper(s) == "MAX" + ws + "-" + (a + sign + d + b)
    ensures ParseNumProcessors(Str(s), maxp) == Ok(IntNum(Max(maxp - SignedValue(sign, d), 1)))
  {
    var u := Upper(s);
    var t := a + sign + d + b;
    assert u != "MAX" by {
      assert |u| > 3;
    }
    assert !IsDigit(s[0]) by {
      assert u[0] == 'M';
    }
    NotDigits(s);
    DashSplits(u, ws, t);
    ParseIntAfterTrim(t);
    ParseIntReads(a, sign, d, b);
    MaxMinusShape(s, u, TrimStart(t), SignedValue(sign, d), maxp);
  }

  /** A string of the MAX-X shape whose count int() reads as k. */
  lemma MaxMinusShape(s: string, u: string, rest: string, k: int, maxp: int)
    requires u != "MAX" && !MatchesDigits(s)
    requires AfterMaxDash(u) == Some(rest) && ParseInt(rest) == Some(k)
    ensures CountOf(s, u, maxp) == Ok(Max(maxp - k, 1))
  {
  }

  /** A string that starts with a non-digit is no plain count. */
  lemma NotDigits(s: string)
    requires |s| > 1 && !IsDigit(s[0])
    ensures !MatchesDigits(s)
  {
    assert s[..|s| - 1][0] == s[0];
  }

  /** Every string setting other than a plain count asks for at least one processor. */
  lemma StringCountsPositive(s: string, maxp: int)
    requires maxp >= 1
    requires !MatchesDigits(s)
    requires ParseNumProcessors(Str(s), maxp).Ok?
    ensures ParseNumProcessors(Str(s), maxp).value.n >= 1
  {
    var r := ParseNumProcessors(Str(s), maxp);
    if Upper(s) == "MAX" {
      assert r == Ok(IntNum(maxp));
    } else {
      var rest := AfterMaxDash(Upper(s));
      assert rest.Some?;
      var x := ParseInt(rest.value);
      assert x.Some?;
      assert r == Ok(IntNum(Max(maxp - x.value, 1)));
    }
  }
}
