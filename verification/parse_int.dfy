/** JavaScript's `parseInt(s)` without a radix, on integers: leading white
    space is skipped, one sign is read, a `0x` or `0X` prefix switches to
    base sixteen, and the longest run of digits that follows is the
    number; no digits at all is NaN, here `None`. */
module JsParseInt {
  import opened Common

  /** The value of `c` as a digit of base `radix`, if it is one. */
  function DigitIn(c: char, radix: nat): (v: Option<nat>)
    requires radix == 10 || radix == 16
    ensures v.Some? ==> v.value < radix
    ensures radix == 10 ==> (v.Some? <==> IsDigit(c))
    ensures IsDigit(c) ==> v == Some(c as int - '0' as int)
  {
    if '0' <= c <= '9' then Some(c as int - '0' as int)
    else if radix == 16 && 'a' <= c <= 'f' then Some(c as int - 'a' as int + 10)
    else if radix == 16 && 'A' <= c <= 'F' then Some(c as int - 'A' as int + 10)
    else None
  }

  predicate AllIn(s: string, radix: nat)
    requires radix == 10 || radix == 16
  {
    forall i :: 0 <= i < |s| ==> DigitIn(s[i], radix).Some?
  }

  /** The longest prefix of `s` made of digits of base `radix`. */
  function DigitRun(s: string, radix: nat): (r: string)
    requires radix == 10 || radix == 16
    ensures r <= s && AllIn(r, radix)
    ensures |r| < |s| ==> DigitIn(s[|r|], radix).None?
  {
    if s == [] || DigitIn(s[0], radix).None? then []
    else
      var rest := DigitRun(s[1..], radix);
      assert s == [s[0]] + s[1..];
      [s[0]] + rest
  }

  /** The number a run of digits denotes, read most significant first. */
  function RunValue(s: string, radix: nat): (v: nat)
    requires radix == 10 || radix == 16
    requires AllIn(s, radix)
  {
    if s == [] then 0 else radix * RunValue(s[..|s| - 1], radix) + DigitIn(s[|s| - 1], radix).value
  }

  /** `s` without its leading white space. */
  function TrimStart(s: string): (r: string)
    ensures |r| <= |s|
    ensures r == [] || !IsJsSpace(r[0])
    ensures forall i :: 0 <= i < |s| - |r| ==> IsJsSpace(s[i])
  {
    if s != [] && IsJsSpace(s[0]) then TrimStart(s[1..]) else s
  }

  /** After the white space: whether a minus sign was read, and the rest. */
  function Sign(t: string): (r: (bool, string))
    ensures |r.1| <= |t|
  {
    if t != [] && (t[0] == '-' || t[0] == '+') then (t[0] == '-', t[1..]) else (false, t)
  }

  /** After the sign: the base, and the rest. */
  function Radix(u: string): (r: (nat, string))
    ensures r.0 == 10 || r.0 == 16
    ensures r.0 == 16 <==> |u| >= 2 && u[0] == '0' && (u[1] == 'x' || u[1] == 'X')
    ensures r.0 == 10 ==> r.1 == u
    ensures r.0 == 16 ==> r.1 == u[2..]
  {
    if |u| >= 2 && u[0] == '0' && (u[1] == 'x' || u[1] == 'X') then (16, u[2..]) else (10, u)
  }

  /** The digits after the sign, in the base their prefix selects. */
  function ParseUnsigned(u: string): (r: Option<nat>)
  {
    var (radix, v) := Radix(u);
    var digits := DigitRun(v, radix);
    if digits == [] then None else Some(RunValue(digits, radix))
  }

  /** The number after the white space: an optional sign, then the
      digits. */
  function ParseTrimmed(t: string): (r: Option<int>)
  {
    var (negative, u) := Sign(t);
    match ParseUnsigned(u)
    case None => None
    case Some(n) =>
      var v: int := if negative then -(n as int) else n;
      Some(v)
  }

  function ParseInt(s: string): (r: Option<int>)
  {
    ParseTrimmed(TrimStart(s))
  }

  /** In base ten a run of digits has the value printing gives back. */
  lemma {:induction false} DecimalRunValue(s: string)
    requires AllDigits(s)
    ensures AllIn(s, 10) && RunValue(s, 10) == DigitsValue(s)
  {
    if s != [] {
      DecimalRunValue(s[..|s| - 1]);
    }
  }

  /** A run of decimal digits followed by something that is not a digit is
      exactly the run. */
  lemma {:induction false} DigitRunStopsAtNonDigit(d: string, rest: string)
    requires AllDigits(d) && (rest == [] || !IsDigit(rest[0]))
    ensures DigitRun(d + rest, 10) == d
  {
    if d != [] {
      assert (d + rest)[1..] == d[1..] + rest;
      DigitRunStopsAtNonDigit(d[1..], rest);
    }
  }

  /** What may follow the digits without changing the number: nothing, or
      something that is neither a digit nor, after a lone `0`, the `x` of a
      hexadecimal prefix. */
  predicate EndsNumber(rest: string) {
    rest == [] || (!IsDigit(rest[0]) && rest[0] != 'x' && rest[0] != 'X')
  }

  lemma UnsignedReadsDigits(d: string, rest: string)
    requires d != [] && AllDigits(d) && EndsNumber(rest)
    ensures ParseUnsigned(d + rest) == Some(DigitsValue(d))
  {
    DigitRunStopsAtNonDigit(d, rest);
    DecimalRunValue(d);
    assert (d + rest)[0] == d[0];
    if |d| >= 2 {
      assert (d + rest)[1] == d[1];
    }
  }

  /** With no white space and no sign, `parseInt` is the unsigned parse. */
  lemma UnsignedStart(t: string)
    requires t != [] && IsDigit(t[0])
    ensures TrimStart(t) == t && Sign(t) == (false, t)
    ensures ParseInt(t) == if ParseUnsigned(t).Some? then Some(ParseUnsigned(t).value as int) else None
  {
  }

  /** A leading minus negates the unsigned parse. */
  lemma NegativeStart(t: string)
    requires t != [] && IsDigit(t[0])
    ensures TrimStart("-" + t) == "-" + t && Sign("-" + t) == (true, t)
    ensures ParseInt("-" + t) == if ParseUnsigned(t).Some? then Some(-(ParseUnsigned(t).value as int)) else None
  {
    var s := "-" + t;
    assert s[0] == '-' && s[1..] == t;
    NegatedAfterSign(s, t);
  }

  lemma NegatedAfterSign(s: string, t: string)
    requires s != [] && s[0] == '-' && s[1..] == t
    ensures TrimStart(s) == s && Sign(s) == (true, t)
    ensures ParseInt(s) == if ParseUnsigned(t).Some? then Some(-(ParseUnsigned(t).value as int)) else None
  {
    assert TrimStart(s) == s;
  }

  lemma ParseIntReadsDigits(d: string, rest: string)
    requires d != [] && AllDigits(d) && EndsNumber(rest)
    ensures ParseInt(d + rest) == Some(DigitsValue(d) as int)
    ensures ParseInt("-" + d + rest) == Some(-(DigitsValue(d) as int))
  {
    UnsignedReadsDigits(d, rest);
    assert (d + rest)[0] == d[0];
    UnsignedStart(d + rest);
    NegativeStart(d + rest);
    assert "-" + d + rest == "-" + (d + rest);
  }

  /** `parseInt` reads a printed number back, and ignores what follows
      the digits (`"12px"` is 12, `"1.5"` is 1). */
  lemma ParseIntReadsDecimal(n: nat, rest: string)
    requires EndsNumber(rest)
    ensures ParseInt(DecimalString(n) + rest) == Some(n as int)
    ensures ParseInt("-" + DecimalString(n) + rest) == Some(-(n as int))
  {
    ParseIntReadsDigits(DecimalString(n), rest);
    DecimalStringReadsBack(n);
  }

  /** Leading white space is skipped. */
  lemma SpaceIsSkipped(space: string, s: string)
    requires forall i :: 0 <= i < |space| ==> IsJsSpace(space[i])
    requires s == [] || !IsJsSpace(s[0])
    ensures ParseInt(space + s) == ParseInt(s)
  {
    TrimSpace(space, s);
  }

  lemma {:induction false} TrimSpace(space: string, s: string)
    requires forall i :: 0 <= i < |space| ==> IsJsSpace(space[i])
    requires s == [] || !IsJsSpace(s[0])
    ensures TrimStart(space + s) == s
  {
    if space != [] {
      assert (space + s)[1..] == space[1..] + s;
      TrimSpace(space[1..], s);
    }
  }

  /** Trimming only removes a prefix. */
  lemma {:induction false} TrimStartIsSuffix(s: string)
    ensures TrimStart(s) == s[|s| - |TrimStart(s)|..]
  {
    if s != [] && IsJsSpace(s[0]) {
      TrimStartIsSuffix(s[1..]);
    }
  }

  lemma UnsignedNoDigit(u: string)
    requires forall i :: 0 <= i < |u| ==> !IsDigit(u[i])
    ensures ParseUnsigned(u).None?
  {
    var (radix, v) := Radix(u);
    if radix == 16 {
      assert IsDigit(u[0]);
    }
  }

  /** A string without a decimal digit is NaN: even a hexadecimal number
      needs the `0` of its prefix. */
  lemma NoDigitIsNaN(s: string)
    requires forall i :: 0 <= i < |s| ==> !IsDigit(s[i])
    ensures ParseInt(s).None?
  {
    var t := TrimStart(s);
    TrimStartIsSuffix(s);
    SuffixHasNoDigit(s, |s| - |t|);
    var u := Sign(t).1;
    if u != t {
      SuffixHasNoDigit(t, 1);
    }
    UnsignedNoDigit(u);
  }

  lemma SuffixHasNoDigit(s: string, k: nat)
    requires k <= |s|
    requires forall i :: 0 <= i < |s| ==> !IsDigit(s[i])
    ensures forall i :: 0 <= i < |s[k..]| ==> !IsDigit(s[k..][i])
  {
    forall i | 0 <= i < |s[k..]|
      ensures !IsDigit(s[k..][i])
    {
      assert s[k..][i] == s[k + i];
    }
  }

  /** A `0x` prefix reads the digits in base sixteen. */
  lemma HexPrefix(h: string)
    requires h != [] && AllIn(h, 16)
    ensures ParseInt("0x" + h) == Some(RunValue(h, 16))
  {
    DigitRunWhole(h, 16);
    assert ("0x" + h)[2..] == h;
  }

  lemma {:induction false} DigitRunWhole(s: string, radix: nat)
    requires radix == 10 || radix == 16
    requires AllIn(s, radix)
    ensures DigitRun(s, radix) == s
  {
    if s != [] {
      DigitRunWhole(s[1..], radix);
    }
  }
}
