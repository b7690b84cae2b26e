/**
 * The parts of JavaScript's string and number behaviour that
 * `determineNewColor` relies on: `String.prototype.split` with a one-character
 * separator, `String.prototype.slice` with a start index, the global
 * `parseInt` without a radix (NaN is None), and the decimal text of an
 * integral Number.
 */
module JsText {
  import opened Wrappers

  /** The code points parseInt skips before the number: WhiteSpace and LineTerminator. */
  predicate IsStrWhiteSpace(c: char)
  {
    var n := c as int;
    || n == 0x09 || n == 0x0A || n == 0x0B || n == 0x0C || n == 0x0D || n == 0x20
    || n == 0xA0 || n == 0x1680 || (0x2000 <= n <= 0x200A) || n == 0x2028 || n == 0x2029
    || n == 0x202F || n == 0x205F || n == 0x3000 || n == 0xFEFF
  }

  predicate AllWhiteSpace(s: string)
  {
    forall i :: 0 <= i < |s| ==> IsStrWhiteSpace(s[i])
  }

  /** `s` without its leading white space. */
  function TrimStart(s: string): (t: string)
    ensures |t| <= |s| && t == s[|s| - |t|..]
    ensures AllWhiteSpace(s[..|s| - |t|])
    ensures t == [] || !IsStrWhiteSpace(t[0])
  {
    if s != [] && IsStrWhiteSpace(s[0]) then TrimStart(s[1..]) else s
  }

  /** The value of `c` as a digit of radix up to 36, or 36 when it is no digit at all. */
  function DigitValue(c: char): (d: nat)
    ensures d <= 36
  {
    if '0' <= c <= '9' then c as int - '0' as int
    else if 'a' <= c <= 'z' then c as int - 'a' as int + 10
    else if 'A' <= c <= 'Z' then c as int - 'A' as int + 10
    else 36
  }

  predicate IsDigit(c: char, radix: nat)
  {
    DigitValue(c) < radix
  }

  /** The length of the longest prefix of `s` made of digits of `radix`. */
  function DigitRun(s: string, radix: nat): (n: nat)
    ensures n <= |s|
    ensures forall i :: 0 <= i < n ==> IsDigit(s[i], radix)
    ensures n < |s| ==> !IsDigit(s[n], radix)
  {
    if s != [] && IsDigit(s[0], radix) then 1 + DigitRun(s[1..], radix) else 0
  }

  /** The number that the digits `ds` spell in `radix`, most significant first. */
  function DigitsValue(ds: string, radix: nat): nat
  {
    if ds == [] then 0
    else DigitsValue(ds[..|ds| - 1], radix) * radix + DigitValue(ds[|ds| - 1])
  }

  /**
   * `parseInt(s)`: skip white space, take an optional sign, read base 16
   * after a `0x` or `0X` prefix and base 10 otherwise, as many digits as
   * there are; no digit at all is NaN.
   */
  function ParseInt(s: string): Option<int>
  {
    ParseSigned(TrimStart(s))
  }

  /** parseInt after the white space: an optional sign, then the magnitude. */
  function ParseSigned(t: string): Option<int>
  {
    var sign := if t != [] && t[0] == '-' then -1 else 1;
    var u := if t != [] && (t[0] == '-' || t[0] == '+') then t[1..] else t;
    match ParseMagnitude(u)
    case None => None
    case Some(m) => Some(sign * m)
  }

  /** parseInt after the sign: base 16 after a `0x` or `0X` prefix, base 10 otherwise. */
  function ParseMagnitude(u: string): Option<nat>
  {
    if |u| >= 2 && u[0] == '0' && (u[1] == 'x' || u[1] == 'X') then ParseDigits(u[2..], 16)
    else ParseDigits(u, 10)
  }

  /** The value of the longest run of digits of `radix` at the start of `v`; no digit at all is NaN. */
  function ParseDigits(v: string, radix: nat): Option<nat>
  {
    var n := DigitRun(v, radix);
    if n == 0 then None else Some(DigitsValue(v[..n], radix))
  }

  /** Text that starts with neither white space, a sign nor a decimal digit parses to NaN. */
  lemma LeadingNonDigitIsNaN(t: string)
    requires t != [] && !IsStrWhiteSpace(t[0]) && t[0] != '-' && t[0] != '+' && !IsDigit(t[0], 10)
    ensures ParseInt(t).None?
  {
    assert TrimStart(t) == t;
    assert t[0] != '0';
    assert DigitRun(t, 10) == 0;
  }

  /** `s.slice(start)` for a non-negative start. */
  function Slice(s: string, start: nat): string
  {
    if start < |s| then s[start..] else []
  }

  /** The inverse of `Split`: the parts with `sep` between consecutive ones. */
  function Join(parts: seq<string>, sep: char): string
  {
    if parts == [] then []
    else if |parts| == 1 then parts[0]
    else parts[0] + [sep] + Join(parts[1..], sep)
  }

  /**
   * `s.split(sep)`: the maximal pieces of `s` between separators, in order;
   * the empty string splits into one empty piece.
   */
  function Split(s: string, sep: char): (parts: seq<string>)
    ensures |parts| >= 1
    ensures forall i :: 0 <= i < |parts| ==> sep !in parts[i]
    ensures Join(parts, sep) == s
  {
    if s == [] then [[]]
    else
      var rest := Split(s[1..], sep);
      if s[0] == sep then [[]] + rest
      else
        JoinPrepend(s[0], rest, sep);
        [[s[0]] + rest[0]] + rest[1..]
  }

  /** Prepending a character to the first part prepends it to the join. */
  lemma JoinPrepend(c: char, parts: seq<string>, sep: char)
    requires |parts| >= 1
    ensures Join([[c] + parts[0]] + parts[1..], sep) == [c] + Join(parts, sep)
  {
    var q := [[c] + parts[0]] + parts[1..];
    assert q[1..] == parts[1..];
  }

  /** Splitting the join of separator-free parts gives the parts back. */
  lemma {:induction false} SplitJoin(parts: seq<string>, sep: char)
    requires |parts| >= 1
    requires forall i :: 0 <= i < |parts| ==> sep !in parts[i]
    ensures Split(Join(parts, sep), sep) == parts
  {
    var p := parts[0];
    if |parts| == 1 {
      SplitPiece(p, [], sep);
    } else {
      var tail := parts[1..];
      SplitJoin(tail, sep);
      SplitPiece(p, [sep] + Join(tail, sep), sep);
      assert ([sep] + Join(tail, sep))[1..] == Join(tail, sep);
      assert parts == [p] + tail;
    }
  }

  /** A separator-free piece stays glued to whatever piece follows it. */
  lemma {:induction false} SplitPiece(p: string, s: string, sep: char)
    requires sep !in p
    requires s == [] || s[0] == sep
    ensures s == [] ==> Split(p + s, sep) == [p]
    ensures s != [] ==> Split(p + s, sep) == [p] + Split(s[1..], sep)
  {
    if p != [] {
      SplitPiece(p[1..], s, sep);
      assert (p + s)[1..] == p[1..] + s;
      assert [p[0]] + p[1..] == p;
    } else {
      assert p + s == s;
    }
  }

  function DigitChar(d: nat): (c: char)
    requires d < 10
    ensures IsDigit(c, 10) && DigitValue(c) == d
  {
    ('0' as int + d) as char
  }

  /** The decimal text of a natural number, without leading zeros. */
  function NatToString(n: nat): (s: string)
    ensures s != []
    ensures forall i :: 0 <= i < |s| ==> IsDigit(s[i], 10)
    ensures |s| > 1 ==> s[0] != '0'
  {
    if n < 10 then [DigitChar(n)] else NatToString(n / 10) + [DigitChar(n % 10)]
  }

  /** The text of an integral Number: a minus sign before the digits of a negative one. */
  function IntToString(n: int): string
  {
    if n < 0 then "-" + NatToString(-n) else NatToString(n)
  }

  /** The decimal digits read back give the number. */
  lemma {:induction false} NatToStringValue(n: nat)
    ensures DigitsValue(NatToString(n), 10) == n
  {
    if n >= 10 {
      NatToStringValue(n / 10);
      var s := NatToString(n);
      assert s[..|s| - 1] == NatToString(n / 10);
    }
  }

  /** Digits followed by a non-digit: the run stops exactly after the digits. */
  lemma {:induction false} DigitRunStops(ds: string, rest: string, radix: nat)
    requires forall i :: 0 <= i < |ds| ==> IsDigit(ds[i], radix)
    requires rest == [] || !IsDigit(rest[0], radix)
    ensures DigitRun(ds + rest, radix) == |ds|
  {
    if ds != [] {
      DigitRunStops(ds[1..], rest, radix);
      assert (ds + rest)[1..] == ds[1..] + rest;
    } else {
      assert ds + rest == rest;
    }
  }

  /** Leading white space does not change what TrimStart leaves. */
  lemma {:induction false} TrimWhiteSpace(ws: string, t: string)
    requires AllWhiteSpace(ws)
    requires t == [] || !IsStrWhiteSpace(t[0])
    ensures TrimStart(ws + t) == t
  {
    if ws != [] {
      TrimWhiteSpace(ws[1..], t);
      assert (ws + t)[0] == ws[0] && IsStrWhiteSpace(ws[0]);
      assert (ws + t)[1..] == ws[1..] + t;
    } else {
      assert ws + t == t;
    }
  }

  /** The magnitude reader takes back the decimal text of a number followed by neither a digit nor an `x`. */
  lemma MagnitudeRoundTrip(m: nat, rest: string)
    requires rest == [] || (!IsDigit(rest[0], 10) && rest[0] != 'x' && rest[0] != 'X')
    ensures ParseMagnitude(NatToString(m) + rest) == Some(m)
  {
    var ds := NatToString(m);
    var u := ds + rest;
    assert !(|u| >= 2 && u[0] == '0' && (u[1] == 'x' || u[1] == 'X')) by {
      if |ds| == 1 && rest != [] {
        assert u[1] == rest[0];
      } else if |ds| > 1 {
        assert u[1] == ds[1];
      }
    }
    DigitRunStops(ds, rest, 10);
    assert u[..|ds|] == ds;
    NatToStringValue(m);
  }

  /** The text of an integer, read from its first character on. */
  lemma SignedRoundTrip(n: int, rest: string)
    requires rest == [] || (!IsDigit(rest[0], 10) && rest[0] != 'x' && rest[0] != 'X')
    ensures ParseSigned(IntToString(n) + rest) == Some(n)
  {
    if n < 0 {
      NegativeText(n, rest);
    } else {
      NonNegativeRoundTrip(n, rest);
    }
  }

  lemma NegativeText(n: int, rest: string)
    requires n < 0
    requires rest == [] || (!IsDigit(rest[0], 10) && rest[0] != 'x' && rest[0] != 'X')
    ensures ParseSigned(IntToString(n) + rest) == Some(n)
  {
    NegativeTextIs(n, rest);
    NegativeRoundTrip(-n, rest);
  }

  lemma NegativeTextIs(n: int, rest: string)
    requires n < 0
    ensures IntToString(n) + rest == ['-'] + (NatToString(-n) + rest)
  {
  }

  lemma NonNegativeRoundTrip(m: nat, rest: string)
    requires rest == [] || (!IsDigit(rest[0], 10) && rest[0] != 'x' && rest[0] != 'X')
    ensures ParseSigned(NatToString(m) + rest) == Some(m)
  {
    var u := NatToString(m) + rest;
    assert u[0] == NatToString(m)[0];
    MagnitudeRoundTrip(m, rest);
    NoSign(u);
  }

  lemma NegativeRoundTrip(m: nat, rest: string)
    requires rest == [] || (!IsDigit(rest[0], 10) && rest[0] != 'x' && rest[0] != 'X')
    ensures ParseSigned(['-'] + (NatToString(m) + rest)) == Some(-(m as int))
  {
    var u := NatToString(m) + rest;
    MagnitudeRoundTrip(m, rest);
    MinusSign(u);
  }

  lemma NoSign(t: string)
    requires t != [] && IsDigit(t[0], 10)
    ensures ParseSigned(t) == if ParseMagnitude(t).Some? then Some(ParseMagnitude(t).value) else None
  {
    assert t[0] != '-' && t[0] != '+';
  }

  lemma MinusSign(u: string)
    ensures ParseSigned(['-'] + u) == if ParseMagnitude(u).Some? then Some(-(ParseMagnitude(u).value as int)) else None
  {
    assert (['-'] + u)[1..] == u;
  }

  /**
   * parseInt reads back the text of any integer after any white space, as
   * long as what follows the digits is neither a digit nor an `x`.
   */
  lemma ParseIntRoundTrip(ws: string, n: int, rest: string)
    requires AllWhiteSpace(ws)
    requires rest == [] || (!IsDigit(rest[0], 10) && rest[0] != 'x' && rest[0] != 'X')
    ensures ParseInt(ws + IntToString(n) + rest) == Some(n)
  {
    var t := IntToString(n) + rest;
    assert ws + IntToString(n) + rest == ws + t;
    SignedRoundTrip(n, rest);
    TrimWhiteSpace(ws, t);
  }
}
