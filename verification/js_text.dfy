/** Text and number conversions with the semantics of the JavaScript built-ins the
    modelled code relies on: `Array.prototype.join`, `String.prototype.includes`,
    `toLowerCase`, `parseInt`, `parseFloat` and the decimal rendering of integers. */
module JsText {
  import opened Wrappers

  /** `parts.join(sep)`. */
  function Join(parts: seq<string>, sep: string): string
  {
    if |parts| == 0 then ""
    else if |parts| == 1 then parts[0]
    else parts[0] + sep + Join(parts[1..], sep)
  }

  // ---------------------------------------------------------------------------
  // Substring search

  /** `needle` occurs in `hay` starting at index `i`. */
  ghost predicate OccursAt(hay: string, needle: string, i: int)
  {
    0 <= i && i + |needle| <= |hay| && hay[i..i + |needle|] == needle
  }

  /** `hay.includes(needle)`; the empty string occurs everywhere. */
  predicate Contains(hay: string, needle: string)
    decreases |hay|
  {
    if |needle| > |hay| then false
    else if hay[..|needle|] == needle then true
    else Contains(hay[1..], needle)
  }

  /** `Contains` is exactly "occurs at some index". */
  lemma {:induction false} ContainsIsOccurrence(hay: string, needle: string)
    ensures Contains(hay, needle) <==> exists i :: OccursAt(hay, needle, i)
    decreases |hay|
  {
    if |needle| > |hay| {
    } else if hay[..|needle|] == needle {
      assert OccursAt(hay, needle, 0);
    } else {
      ContainsIsOccurrence(hay[1..], needle);
      if exists i :: OccursAt(hay[1..], needle, i) {
        var i :| OccursAt(hay[1..], needle, i);
        assert hay[1..][i..i + |needle|] == hay[i + 1..i + 1 + |needle|];
        assert OccursAt(hay, needle, i + 1);
      }
      if exists i :: OccursAt(hay, needle, i) {
        var i :| OccursAt(hay, needle, i);
        assert i != 0;
        assert hay[i..i + |needle|] == hay[1..][i - 1..i - 1 + |needle|];
        assert OccursAt(hay[1..], needle, i - 1);
      }
    }
  }

  // ---------------------------------------------------------------------------
  // Splitting

  /** The part of `s` before the first `sep`, or all of `s` when there is none. */
  function Before(s: string, sep: char): (p: string)
    ensures |p| <= |s| && p == s[..|p|]
    ensures sep !in p
    ensures |p| < |s| ==> s[|p|] == sep
  {
    if |s| == 0 || s[0] == sep then "" else [s[0]] + Before(s[1..], sep)
  }

  /** `s.split(sep)` for a one-character separator: there is always at least one part. */
  function Split(s: string, sep: char): (r: seq<string>)
    ensures |r| > 0
    decreases |s|
  {
    var p := Before(s, sep);
    if |p| == |s| then [s] else [p] + Split(s[|p| + 1..], sep)
  }

  lemma {:induction false} BeforeSeparator(p: string, sep: char, rest: string)
    requires sep !in p
    ensures Before(p + rest, sep) == p + Before(rest, sep)
    decreases |p|
  {
    if |p| > 0 {
      assert (p + rest)[1..] == p[1..] + rest;
      BeforeSeparator(p[1..], sep, rest);
      assert [p[0]] + p[1..] == p;
    } else {
      assert p + rest == rest;
    }
  }

  /** Splitting undoes joining when no part contains the separator. */
  lemma {:induction false} SplitJoin(parts: seq<string>, sep: char)
    requires |parts| > 0
    requires forall i :: 0 <= i < |parts| ==> sep !in parts[i]
    ensures Split(Join(parts, [sep]), sep) == parts
    decreases |parts|
  {
    if |parts| == 1 {
      BeforeSeparator(parts[0], sep, "");
      assert parts[0] + "" == parts[0];
    } else {
      var rest := Join(parts[1..], [sep]);
      var s := Join(parts, [sep]);
      assert s == parts[0] + ([sep] + rest);
      BeforeSeparator(parts[0], sep, [sep] + rest);
      assert Before(s, sep) == parts[0];
      assert s[|parts[0]| + 1..] == rest;
      SplitJoin(parts[1..], sep);
      assert [parts[0]] + parts[1..] == parts;
    }
  }

  /** A character outside every part and the separator is outside their join. */
  lemma {:induction false} JoinExcludes(parts: seq<string>, sep: string, c: char)
    requires c !in sep
    requires forall i :: 0 <= i < |parts| ==> c !in parts[i]
    ensures c !in Join(parts, sep)
    decreases |parts|
  {
    if |parts| > 1 {
      JoinExcludes(parts[1..], sep, c);
    }
  }

  // ---------------------------------------------------------------------------
  // Lower-casing

  /** `toLowerCase` on one character, for the Latin and Cyrillic capitals; every other
      character is returned unchanged. */
  function LowerChar(c: char): char
  {
    if 'A' <= c <= 'Z' then (c as int + 32) as char
    else if '\U{0410}' <= c <= '\U{042F}' then (c as int + 32) as char
    else if '\U{0400}' <= c <= '\U{040F}' then (c as int + 80) as char
    else c
  }

  /** `s.toLowerCase()`, character by character. */
  function ToLower(s: string): string
  {
    seq(|s|, i requires 0 <= i < |s| => LowerChar(s[i]))
  }

  /** Lower-casing twice is lower-casing once. */
  lemma ToLowerIdempotent(s: string)
    ensures ToLower(ToLower(s)) == ToLower(s)
  {
    assert forall i :: 0 <= i < |s| ==> LowerChar(LowerChar(s[i])) == LowerChar(s[i]);
  }

  // ---------------------------------------------------------------------------
  // Digits and integers

  /** The white space `parseInt` and `parseFloat` skip before a number
      (StrWhiteSpaceChar in section 7.1.4.1.1 of ECMA-262). */
  predicate IsWhiteSpace(c: char)
  {
    || c == '\t' || c == '\n' || c == '\U{000B}' || c == '\U{000C}' || c == '\r' || c == ' '
    || c == '\U{00A0}' || c == '\U{1680}' || ('\U{2000}' <= c <= '\U{200A}')
    || c == '\U{2028}' || c == '\U{2029}' || c == '\U{202F}' || c == '\U{205F}'
    || c == '\U{3000}' || c == '\U{FEFF}'
  }

  /** `s` without its leading white space. */
  function TrimStart(s: string): string
  {
    if |s| > 0 && IsWhiteSpace(s[0]) then TrimStart(s[1..]) else s
  }

  predicate IsDigit(c: char)
  {
    '0' <= c <= '9'
  }

  /** The value of `c` as a digit of a radix up to 36, or 36 when it is not a digit. */
  function DigitVal(c: char): nat
  {
    if '0' <= c <= '9' then c as int - '0' as int
    else if 'a' <= c <= 'z' then c as int - 'a' as int + 10
    else if 'A' <= c <= 'Z' then c as int - 'A' as int + 10
    else 36
  }

  function DigitChar(d: nat): char
    requires d < 10
  {
    ('0' as int + d) as char
  }

  /** Decimal rendering of a non-negative integer, without leading zeros. */
  function NatToString(n: nat): (r: string)
    ensures |r| >= 1
    ensures forall i :: 0 <= i < |r| ==> IsDigit(r[i])
    ensures r[0] == '0' <==> n == 0
  {
    if n < 10 then [DigitChar(n)] else NatToString(n / 10) + [DigitChar(n % 10)]
  }

  /** `String(n)` for an integer-valued number. */
  function IntToString(n: int): string
  {
    if n < 0 then "-" + NatToString(-n) else NatToString(n)
  }

  /** The longest prefix of `s` made of digits of the given radix. */
  function DigitPrefix(s: string, radix: nat): (p: string)
    ensures p <= s
    ensures forall i :: 0 <= i < |p| ==> DigitVal(p[i]) < radix
    ensures |p| < |s| ==> DigitVal(s[|p|]) >= radix
  {
    if |s| == 0 || DigitVal(s[0]) >= radix then "" else [s[0]] + DigitPrefix(s[1..], radix)
  }

  /** The number a digit string denotes, most significant digit first. */
  function DigitsValue(ds: string, radix: nat): nat
  {
    if |ds| == 0 then 0 else DigitsValue(ds[..|ds| - 1], radix) * radix + DigitVal(ds[|ds| - 1])
  }

  /** `parseInt(s)` with no radix argument: leading white space and one sign are
      skipped, then the digits are read as `ParseUnsigned` does. `None` stands for `NaN`. */
  function ParseInt(s: string): Option<int>
  {
    var t := TrimStart(s);
    if |t| > 0 && t[0] == '-' then
      match ParseUnsigned(t[1..])
      case None => None
      case Some(m) => Some(-(m as int))
    else if |t| > 0 && t[0] == '+' then
      match ParseUnsigned(t[1..])
      case None => None
      case Some(m) => Some(m)
    else
      match ParseUnsigned(t)
      case None => None
      case Some(m) => Some(m)
  }

  /** The unsigned part of `parseInt`: a `0x` or `0X` prefix selects radix 16, otherwise
      the radix is 10, and the longest run of digits is read; no digit gives `None`. */
  function ParseUnsigned(u: string): Option<nat>
  {
    var hex := |u| >= 2 && u[0] == '0' && (u[1] == 'x' || u[1] == 'X');
    var radix := if hex then 16 else 10;
    var digits := DigitPrefix(if hex then u[2..] else u, radix);
    if |digits| == 0 then None else Some(DigitsValue(digits, radix))
  }

  lemma {:induction false} DigitsValueOfNatToString(n: nat)
    ensures DigitsValue(NatToString(n), 10) == n
    decreases n
  {
    var s := NatToString(n);
    if n >= 10 {
      DigitsValueOfNatToString(n / 10);
      assert s[..|s| - 1] == NatToString(n / 10);
    }
  }

  lemma {:induction false} DigitPrefixOfDigits(d: string, rest: string, radix: nat)
    requires forall i :: 0 <= i < |d| ==> DigitVal(d[i]) < radix
    requires |rest| == 0 || DigitVal(rest[0]) >= radix
    ensures DigitPrefix(d + rest, radix) == d
    decreases |d|
  {
    if |d| > 0 {
      assert (d + rest)[1..] == d[1..] + rest;
      DigitPrefixOfDigits(d[1..], rest, radix);
    } else {
      assert d + rest == rest;
    }
  }

  lemma ParseUnsignedOfDigits(m: nat, rest: string)
    requires |rest| == 0 || DigitVal(rest[0]) == 36
    ensures ParseUnsigned(NatToString(m) + rest) == Some(m)
  {
    var digits := NatToString(m);
    var u := digits + rest;
    assert u[0] == digits[0];
    if u[0] == '0' {
      assert m == 0 && |digits| == 1;
      assert |u| >= 2 ==> u[1] == rest[0];
    }
    DigitPrefixOfDigits(digits, rest, 10);
    DigitsValueOfNatToString(m);
  }

  /** Reading back a rendered integer: `parseInt` of the decimal text of `n`, optionally
      preceded by `+` when `n` is not negative and followed by anything that does not
      start with a letter or digit, gives `n` again. */
  lemma ParseIntOfRendering(n: int, plus: bool, rest: string)
    requires plus ==> n >= 0
    requires |rest| == 0 || DigitVal(rest[0]) == 36
    ensures ParseInt((if plus then "+" else "") + IntToString(n) + rest) == Some(n)
  {
    var m: nat := if n < 0 then -n else n;
    var sign := if n < 0 then "-" else if plus then "+" else "";
    var u := NatToString(m) + rest;
    RenderingShape(n, plus, rest);
    ParseUnsignedOfDigits(m, rest);
    assert IsDigit(u[0]);
    ParseIntOfSignedDigits(sign, u, m);
    assert (if sign == "-" then -(m as int) else m) == n;
  }

  lemma ParseIntOfSignedDigits(sign: string, u: string, m: nat)
    requires sign == "" || sign == "-" || sign == "+"
    requires |u| > 0 && IsDigit(u[0]) && ParseUnsigned(u) == Some(m)
    ensures ParseInt(sign + u) == Some(if sign == "-" then -(m as int) else m)
  {
    ParseIntOfSigned(sign, u);
  }

  /** `parseInt(String(n))` is `n`. */
  lemma ParseIntOfIntToString(n: int)
    ensures ParseInt(IntToString(n)) == Some(n)
  {
    ParseIntOfRendering(n, false, "");
    assert "" + IntToString(n) + "" == IntToString(n);
  }

  lemma RenderingShape(n: int, plus: bool, rest: string)
    requires plus ==> n >= 0
    ensures (if plus then "+" else "") + IntToString(n) + rest
         == (if n < 0 then "-" else if plus then "+" else "") + (NatToString(if n < 0 then -n else n) + rest)
  {
  }

  lemma ParseIntOfSigned(sign: string, u: string)
    requires sign == "" || sign == "-" || sign == "+"
    requires |u| > 0 && IsDigit(u[0])
    ensures ParseInt(sign + u) == match ParseUnsigned(u)
      case None => None
      case Some(m) => Some(if sign == "-" then -(m as int) else m)
  {
    if sign == "" {
      assert sign + u == u;
      NotWhiteSpace(u);
    } else {
      ParseIntAfterSign(sign[0], u);
      assert sign + u == [sign[0]] + u;
    }
  }

  lemma NotWhiteSpace(s: string)
    requires |s| > 0 && (IsDigit(s[0]) || s[0] == '-' || s[0] == '+')
    ensures TrimStart(s) == s
  {
  }

  lemma ParseIntAfterSign(sign: char, u: string)
    requires sign == '-' || sign == '+'
    ensures ParseInt([sign] + u) == match ParseUnsigned(u)
      case None => None
      case Some(m) => Some(if sign == '-' then -(m as int) else m)
  {
    NotWhiteSpace([sign] + u);
    assert ([sign] + u)[1..] == u;
  }

  // ---------------------------------------------------------------------------
  // Floating-point prefixes

  /** `!isNaN(parseFloat(s))`: after white space and one optional sign, `s` starts with
      `Infinity`, with a digit, or with a dot followed by a digit. */
  predicate ParsesAsFloat(s: string)
  {
    var t := TrimStart(s);
    var u := if |t| > 0 && (t[0] == '-' || t[0] == '+') then t[1..] else t;
    || "Infinity" <= u
    || (|u| > 0 && IsDigit(u[0]))
    || (|u| > 1 && u[0] == '.' && IsDigit(u[1]))
  }

  function Pow10(k: nat): (r: nat)
    ensures r >= 1
  {
    if k == 0 then 1 else 10 * Pow10(k - 1)
  }

  /** `parseFloat(s)` for the strings the source hands it, made of digits, commas and
      dots only: an integer part, then optionally a dot and a fraction; reading stops at
      the first other character. `None` stands for `NaN`. */
  function DecimalPrefix(s: string): (r: Option<real>)
    ensures r.None? <==> !((|s| > 0 && IsDigit(s[0])) || (|s| > 1 && s[0] == '.' && IsDigit(s[1])))
    ensures r.Some? ==> r.value >= 0.0
  {
    var whole := DigitPrefix(s, 10);
    var rest := s[|whole|..];
    var frac := if |rest| > 0 && rest[0] == '.' then DigitPrefix(rest[1..], 10) else "";
    DecimalDigitPrefix(s);
    if |whole| > 0 then
      Some(DigitsValue(whole, 10) as real + Fraction(DigitsValue(frac, 10), Pow10(|frac|)))
    else
      assert rest == s;
      if |rest| > 0 && rest[0] == '.' then DecimalDigitPrefix(rest[1..]); (if |frac| == 0 then None else Some(Fraction(DigitsValue(frac, 10), Pow10(|frac|))))
      else None
  }

  /** A decimal digit prefix is empty exactly when `s` does not start with a digit. */
  lemma DecimalDigitPrefix(s: string)
    ensures |DigitPrefix(s, 10)| == 0 <==> !(|s| > 0 && IsDigit(s[0]))
  {
  }

  /** `a / b` over the reals, for a positive denominator. */
  function Fraction(a: nat, b: nat): (r: real)
    requires b >= 1
    ensures r >= 0.0
  {
    a as real / b as real
  }

  /** `s.replace(a, b)` with one-character strings: only the first `a` is replaced. */
  function ReplaceFirst(s: string, a: char, b: char): (r: string)
    ensures |r| == |s|
    ensures a !in s ==> r == s
  {
    if |s| == 0 then ""
    else if s[0] == a then [b] + s[1..]
    else [s[0]] + ReplaceFirst(s[1..], a, b)
  }

  /** The characters of the class `[\d,\.]`. */
  predicate IsNumeric(c: char)
  {
    IsDigit(c) || c == ',' || c == '.'
  }

  /** The longest prefix of `s` made of numeric characters. */
  function NumericPrefix(s: string): (p: string)
    ensures p <= s
    ensures forall i :: 0 <= i < |p| ==> IsNumeric(p[i])
    ensures |p| < |s| ==> !IsNumeric(s[|p|])
  {
    if |s| == 0 || !IsNumeric(s[0]) then "" else [s[0]] + NumericPrefix(s[1..])
  }

  /** The first match of `/[\d,\.]+/` in `s`, if there is one. */
  function FirstNumericRun(s: string): (r: Option<string>)
    ensures r.None? <==> forall i :: 0 <= i < |s| ==> !IsNumeric(s[i])
    ensures r.Some? ==> |r.value| > 0 && forall i :: 0 <= i < |r.value| ==> IsNumeric(r.value[i])
  {
    if |s| == 0 then None
    else if IsNumeric(s[0]) then Some(NumericPrefix(s))
    else
      var r := FirstNumericRun(s[1..]);
      assert forall i :: 1 <= i < |s| ==> s[i] == s[1..][i - 1];
      r
  }

  /** `s.replace(/[^\d,\.]/g, '')`: the numeric characters of `s`, in order. */
  function KeepNumeric(s: string): (r: string)
    ensures forall i :: 0 <= i < |r| ==> IsNumeric(r[i])
    ensures (forall i :: 0 <= i < |s| ==> IsNumeric(s[i])) ==> r == s
  {
    if |s| == 0 then "" else (if IsNumeric(s[0]) then [s[0]] else "") + KeepNumeric(s[1..])
  }
}
