/**
 * The JavaScript string built-ins that the dashboard's handlers rely on:
 * trim, split and join on a one-character separator, parseInt, Number,
 * Number.prototype.toString for integers, slice, substring and toLowerCase.
 * Strings are sequences of Unicode scalar values (see README, "Left out").
 */
module JsString {
  import opened Base

  /** The WhiteSpace and LineTerminator code points of ECMA-262 (sections 12.2 and 12.3). */
  predicate IsWhiteSpace(c: char) {
    c == '\t' || c == '\n' || c == '\U{000B}' || c == '\U{000C}' || c == '\r' || c == ' '
    || c == '\U{00A0}' || c == '\U{1680}' || ('\U{2000}' <= c <= '\U{200A}')
    || c == '\U{2028}' || c == '\U{2029}' || c == '\U{202F}' || c == '\U{205F}'
    || c == '\U{3000}' || c == '\U{FEFF}'
  }

  predicate IsBlank(s: string) {
    forall i :: 0 <= i < |s| ==> IsWhiteSpace(s[i])
  }

  /** The number of white-space characters `s` starts with. */
  function LeadingWhiteSpace(s: string): (n: nat)
    ensures n <= |s| && IsBlank(s[..n])
    ensures n < |s| ==> !IsWhiteSpace(s[n])
  {
    if s != [] && IsWhiteSpace(s[0]) then
      var n := 1 + LeadingWhiteSpace(s[1..]);
      assert IsBlank(s[..n]) by {
        forall i | 1 <= i < n
          ensures IsWhiteSpace(s[..n][i])
        {
          assert s[..n][i] == s[1..][..n - 1][i - 1];
        }
      }
      n
    else 0
  }

  /** Drops leading white space (the first half of String.prototype.trim, and step 2 of parseInt). */
  function TrimStart(s: string): (r: string)
    ensures |r| <= |s| && r == s[|s| - |r|..]
    ensures r == [] || !IsWhiteSpace(r[0])
    ensures IsBlank(s[..|s| - |r|])
  {
    s[LeadingWhiteSpace(s)..]
  }

  /** Drops trailing white space. */
  function TrimEnd(s: string): (r: string)
    ensures |r| <= |s| && r == s[..|r|]
    ensures r == [] || !IsWhiteSpace(r[|r| - 1])
    ensures IsBlank(s[|r|..])
  {
    if s != [] && IsWhiteSpace(s[|s| - 1]) then
      var r := TrimEnd(s[..|s| - 1]);
      var removed := s[|r|..];
      assert IsBlank(removed) by {
        forall i | 0 <= i < |removed|
          ensures IsWhiteSpace(removed[i])
        {
          if i < |removed| - 1 {
            assert removed[i] == s[..|s| - 1][|r|..][i];
          }
        }
      }
      r
    else s
  }

  /**
   * String.prototype.trim: the text between the leading and the trailing white space,
   * which is empty exactly when the whole text is white space.
   */
  function Trim(s: string): (r: string)
    ensures LeadingWhiteSpace(s) + |r| <= |s|
    ensures r == s[LeadingWhiteSpace(s)..LeadingWhiteSpace(s) + |r|]
    ensures IsBlank(s[LeadingWhiteSpace(s) + |r|..])
    ensures r == [] || (!IsWhiteSpace(r[0]) && !IsWhiteSpace(r[|r| - 1]))
    ensures r == [] <==> IsBlank(s)
  {
    var n := LeadingWhiteSpace(s);
    var t := TrimStart(s);
    var r := TrimEnd(t);
    TrimIsTheMiddle(s, n, t, r);
    TrimEndEmpty(t);
    BlankAfterBlank(s, n);
    r
  }

  /** Trailing white space cut from a suffix of `s` is trailing white space of `s`. */
  lemma TrimIsTheMiddle(s: string, n: nat, t: string, r: string)
    requires n <= |s| && t == s[n..]
    requires |r| <= |t| && r == t[..|r|] && IsBlank(t[|r|..])
    ensures n + |r| <= |s| && r == s[n..n + |r|] && IsBlank(s[n + |r|..])
  {
    SliceOfSuffix(s, n, t, |r|);
    BlankSuffix(t[|r|..], s[n + |r|..]);
  }

  /** Behind a blank prefix, the rest is blank iff the whole is. */
  lemma BlankAfterBlank(s: string, n: nat)
    requires n <= |s| && IsBlank(s[..n])
    ensures IsBlank(s) <==> IsBlank(s[n..])
  {
    var head, tail := s[..n], s[n..];
    if IsBlank(tail) {
      forall i | 0 <= i < |s|
        ensures IsWhiteSpace(s[i])
      {
        if i < n {
          assert s[i] == head[i];
        } else {
          assert s[i] == tail[i - n];
        }
      }
    }
    if IsBlank(s) {
      forall i | 0 <= i < |tail|
        ensures IsWhiteSpace(tail[i])
      {
        assert tail[i] == s[n + i];
      }
    }
  }

  /** The prefix and the tail of a suffix of `s`, as slices of `s`. */
  lemma SliceOfSuffix(s: string, n: nat, t: string, k: nat)
    requires n <= |s| && t == s[n..] && k <= |t|
    ensures t[..k] == s[n..n + k] && t[k..] == s[n + k..]
  {
  }

  lemma BlankSuffix(a: string, b: string)
    requires IsBlank(a) && a == b
    ensures IsBlank(b)
  {
  }

  lemma {:induction false} TrimEndEmpty(s: string)
    ensures TrimEnd(s) == [] <==> IsBlank(s)
  {
    if s != [] && IsWhiteSpace(s[|s| - 1]) {
      TrimEndEmpty(s[..|s| - 1]);
      assert forall i :: 0 <= i < |s| - 1 ==> s[i] == s[..|s| - 1][i];
    }
  }

  /** Trimming a string that has no white space at either end returns it unchanged. */
  lemma TrimmedIsFixed(s: string)
    requires s == [] || (!IsWhiteSpace(s[0]) && !IsWhiteSpace(s[|s| - 1]))
    ensures Trim(s) == s
  {
  }

  /** String.prototype.split with a one-character separator (a non-empty string always gives at least one part). */
  function Split(s: string, sep: char): (parts: seq<string>)
    ensures |parts| >= 1
    ensures forall i :: 0 <= i < |parts| ==> sep !in parts[i]
  {
    if s == [] then [[]]
    else
      var rest := Split(s[1..], sep);
      if s[0] == sep then [[]] + rest
      else [[s[0]] + rest[0]] + rest[1..]
  }

  /** Array.prototype.join with a one-character separator. */
  function Join(parts: seq<string>, sep: char): (r: string)
    ensures |parts| == 0 ==> r == []
    ensures |parts| >= 1 ==> |parts[0]| <= |r| && r[..|parts[0]|] == parts[0]
    ensures |parts| >= 2 ==> |parts[0]| < |r| && r[|parts[0]|] == sep
  {
    if |parts| == 0 then []
    else if |parts| == 1 then parts[0]
    else parts[0] + [sep] + Join(parts[1..], sep)
  }

  /** Joining the parts of a split restores the string. */
  lemma {:induction false} JoinSplit(s: string, sep: char)
    ensures Join(Split(s, sep), sep) == s
  {
    if s != [] {
      var rest := Split(s[1..], sep);
      JoinSplit(s[1..], sep);
      if s[0] == sep {
        assert Split(s, sep) == [[]] + rest;
      } else {
        var parts := Split(s, sep);
        assert parts == [[s[0]] + rest[0]] + rest[1..];
        if |rest| == 1 {
          assert parts[1..] == [];
        } else {
          assert parts[1..] == rest[1..];
          assert Join(rest, sep) == rest[0] + [sep] + Join(rest[1..], sep);
        }
      }
    }
  }

  lemma {:induction false} SplitWithoutSeparator(p: string, sep: char)
    requires sep !in p
    ensures Split(p, sep) == [p]
  {
    if p != [] {
      SplitWithoutSeparator(p[1..], sep);
      assert [p[0]] + p[1..] == p;
    }
  }

  lemma {:induction false} SplitAfterPart(p: string, sep: char, rest: string)
    requires sep !in p
    ensures Split(p + [sep] + rest, sep) == [p] + Split(rest, sep)
  {
    if p == [] {
      assert p + [sep] + rest == [sep] + rest;
      assert ([sep] + rest)[1..] == rest;
    } else {
      SplitAfterPart(p[1..], sep, rest);
      var s := p + [sep] + rest;
      assert s[1..] == p[1..] + [sep] + rest;
      assert [p[0]] + p[1..] == p;
    }
  }

  /** Splitting a join of separator-free parts gives back the parts (there must be at least one part: `"".split(",")` is `[""]`). */
  lemma {:induction false} SplitJoin(parts: seq<string>, sep: char)
    requires |parts| >= 1
    requires forall i :: 0 <= i < |parts| ==> sep !in parts[i]
    ensures Split(Join(parts, sep), sep) == parts
  {
    if |parts| == 1 {
      SplitWithoutSeparator(parts[0], sep);
    } else {
      SplitJoin(parts[1..], sep);
      SplitAfterPart(parts[0], sep, Join(parts[1..], sep));
      assert [parts[0]] + parts[1..] == parts;
    }
  }

  predicate IsDecimalDigit(c: char) { '0' <= c <= '9' }

  predicate IsHexDigit(c: char) { IsDecimalDigit(c) || ('a' <= c <= 'f') || ('A' <= c <= 'F') }

  function DigitValue(c: char): (v: nat)
    requires IsHexDigit(c)
    ensures v < 16 && (IsDecimalDigit(c) ==> v < 10)
  {
    if IsDecimalDigit(c) then c as int - '0' as int
    else if 'a' <= c <= 'f' then c as int - 'a' as int + 10
    else c as int - 'A' as int + 10
  }

  predicate IsRadixDigit(c: char, radix: nat) {
    if radix == 16 then IsHexDigit(c) else IsDecimalDigit(c)
  }

  /** Length of the longest prefix of `s` made of digits in the radix. */
  function DigitPrefixLength(s: string, radix: nat): (n: nat)
    ensures n <= |s|
    ensures forall i :: 0 <= i < n ==> IsRadixDigit(s[i], radix)
    ensures n < |s| ==> !IsRadixDigit(s[n], radix)
  {
    if s != [] && IsRadixDigit(s[0], radix) then 1 + DigitPrefixLength(s[1..], radix) else 0
  }

  /** The value of a non-empty digit string read most significant digit first. */
  function DigitsValue(s: string, radix: nat): nat
    requires radix == 10 || radix == 16
    requires forall i :: 0 <= i < |s| ==> IsRadixDigit(s[i], radix)
  {
    if s == [] then 0
    else
      assert IsRadixDigit(s[|s| - 1], radix);
      DigitsValue(s[..|s| - 1], radix) * radix + DigitValue(s[|s| - 1])
  }

  /** The sign-stripped text after an optional leading '+' or '-'. */
  function StripSign(t: string): string {
    if t != [] && (t[0] == '-' || t[0] == '+') then t[1..] else t
  }

  /** The longest digit prefix of `body` as a number, or None when it is empty. */
  function ParseDigits(body: string, radix: nat): (r: Option<nat>)
    requires radix == 10 || radix == 16
  {
    var n := DigitPrefixLength(body, radix);
    if n == 0 then None else Some(DigitsValue(body[..n], radix))
  }

  /** Steps 10 to 16 of parseInt: a "0x"/"0X" prefix selects radix 16, otherwise radix 10. */
  function ParseUnsigned(u: string): Option<nat> {
    if |u| >= 2 && u[0] == '0' && (u[1] == 'x' || u[1] == 'X') then ParseDigits(u[2..], 16)
    else ParseDigits(u, 10)
  }

  /**
   * parseInt(s) with no radix (ECMA-262 section 19.2.5): skip leading white space, take an
   * optional sign, read "0x"/"0X" as a hexadecimal prefix, then the longest run of digits.
   * None stands for NaN, which is what parseInt gives when no digit follows.
   */
  function ParseInt(s: string): (r: Option<int>)
    ensures var u := StripSign(TrimStart(s));
            r.Some? ==> u != [] && IsDecimalDigit(u[0])
    ensures var u := StripSign(TrimStart(s));
            u != [] && IsDecimalDigit(u[0]) && !(|u| >= 2 && u[0] == '0' && (u[1] == 'x' || u[1] == 'X')) ==> r.Some?
    ensures r.Some? && r.value < 0 ==> TrimStart(s)[0] == '-'
  {
    var t := TrimStart(s);
    match ParseUnsigned(StripSign(t))
    case None => None
    case Some(v) =>
      var w: int := v;
      Some(if t != [] && t[0] == '-' then -w else w)
  }

  function DigitChar(d: nat): (c: char)
    requires d < 10
    ensures IsDecimalDigit(c) && DigitValue(c) == d
  {
    ('0' as int + d) as char
  }

  /** Number.prototype.toString of a non-negative integer. */
  function NatToString(n: nat): (s: string)
    ensures |s| >= 1
    ensures forall i :: 0 <= i < |s| ==> IsDecimalDigit(s[i])
    ensures s[0] == '0' ==> n == 0
  {
    if n < 10 then [DigitChar(n)] else NatToString(n / 10) + [DigitChar(n % 10)]
  }

  /**
   * Number.prototype.toString of an integer (the decimal notation JavaScript uses below 10^21):
   * a '-' exactly for a negative number, then the digits of the magnitude, with no white space.
   */
  function IntToString(n: int): (r: string)
    ensures |r| >= 1 && !IsWhiteSpace(r[0]) && !IsWhiteSpace(r[|r| - 1])
    ensures r[0] == '-' <==> n < 0
    ensures StripSign(r) == NatToString(if n < 0 then -n else n)
  {
    var digits := NatToString(if n < 0 then -n else n);
    assert IsDecimalDigit(digits[0]) && IsDecimalDigit(digits[|digits| - 1]);
    if n < 0 then
      assert ("-" + digits)[1..] == digits;
      "-" + digits
    else digits
  }

  lemma {:induction false} NatToStringValue(n: nat)
    ensures DigitsValue(NatToString(n), 10) == n
  {
    if n >= 10 {
      NatToStringValue(n / 10);
      var s := NatToString(n);
      assert s[..|s| - 1] == NatToString(n / 10);
    }
  }

  lemma {:induction false} DigitPrefixOfDigits(s: string)
    requires forall i :: 0 <= i < |s| ==> IsDecimalDigit(s[i])
    ensures DigitPrefixLength(s, 10) == |s|
  {
    if s != [] {
      DigitPrefixOfDigits(s[1..]);
    }
  }

  lemma DigitsParse(digits: string)
    requires |digits| >= 1
    requires forall i :: 0 <= i < |digits| ==> IsDecimalDigit(digits[i])
    ensures ParseDigits(digits, 10) == Some(DigitsValue(digits, 10))
  {
    DigitPrefixOfDigits(digits);
    assert digits[..|digits|] == digits;
  }

  lemma NatToStringParses(m: nat)
    ensures ParseUnsigned(NatToString(m)) == Some(m)
  {
    var digits := NatToString(m);
    DigitsParse(digits);
    NatToStringValue(m);
    assert !(|digits| >= 2 && digits[0] == '0' && digits[1] == 'x') by {
      assert IsDecimalDigit(digits[|digits| - 1]);
    }
  }

  lemma TrimStartKeeps(s: string)
    requires s == [] || !IsWhiteSpace(s[0])
    ensures TrimStart(s) == s
  {
  }

  /** parseInt is NaN on a text whose first character is neither white space, a sign nor a digit. */
  lemma ParseIntWithoutDigit(s: string)
    requires s != [] && !IsWhiteSpace(s[0]) && s[0] != '-' && s[0] != '+' && !IsDecimalDigit(s[0])
    ensures ParseInt(s) == None
  {
    TrimStartKeeps(s);
    assert StripSign(s) == s;
    assert DigitPrefixLength(s, 10) == 0;
  }

  /** parseInt reads back every integer that toString writes, so an id survives the round trip through a string. */
  lemma ParseIntToString(n: int)
    ensures ParseInt(IntToString(n)) == Some(n)
  {
    var m: nat := if n < 0 then -n else n;
    NatToStringParses(m);
    ParseIntOfSignedDigits(IntToString(n), m);
  }

  /** A text without leading white space whose unsigned part reads as `m` parses to `m` with its sign. */
  lemma ParseIntOfSignedDigits(s: string, m: nat)
    requires s != [] && !IsWhiteSpace(s[0])
    requires ParseUnsigned(StripSign(s)) == Some(m)
    ensures ParseInt(s) == Some(if s[0] == '-' then -(m as int) else m as int)
  {
    TrimStartKeeps(s);
  }

  /**
   * Number(s) for a string: white space is trimmed, the empty string is 0, an optionally signed run of
   * decimal digits is its value, and anything else is NaN (None). Fractions, exponents, hexadecimal and
   * "Infinity" are not modelled.
   */
  function ToNumber(s: string): (r: Option<int>)
    ensures IsBlank(s) ==> r == Some(0)
    ensures r.Some? && !IsBlank(s) ==> IsDecimalDigit(Trim(s)[|Trim(s)| - 1])
  {
    var t := Trim(s);
    var u := StripSign(t);
    if t == [] then Some(0)
    else if u == [] || DigitPrefixLength(u, 10) != |u| then None
    else
      var v: int := DigitsValue(u, 10);
      Some(if t[0] == '-' then -v else v)
  }

  /** Number reads back every integer that toString writes. */
  lemma ToNumberToString(n: int)
    ensures ToNumber(IntToString(n)) == Some(n)
  {
    var m: nat := if n < 0 then -n else n;
    var s := IntToString(n);
    TrimmedIsFixed(s);
    DigitPrefixOfDigits(NatToString(m));
    NatToStringValue(m);
  }

  /**
   * Where Number accepts a text that is not blank, parseInt reads the same integer from it:
   * the two conversions the pages use on ids never disagree on an integer.
   */
  lemma ToNumberAgreesWithParseInt(s: string)
    requires !IsBlank(s) && ToNumber(s).Some?
    ensures ParseInt(s) == ToNumber(s)
  {
    var v := DigitsValue(StripSign(Trim(s)), 10);
    var signed := if Trim(s)[0] == '-' then -(v as int) else v as int;
    assert ToNumber(s) == Some(signed) by { ToNumberOfDigits(s); }
    assert ParseInt(s) == Some(signed) by {
      UnsignedOfTrimStart(s);
      ParseIntFromUnsigned(s, v);
    }
  }

  /** parseInt sees the same sign and digits as Number: the trimmed text, then only white space. */
  lemma UnsignedOfTrimStart(s: string)
    requires !IsBlank(s) && ToNumber(s).Some?
    ensures TrimStart(s) != [] && TrimStart(s)[0] == Trim(s)[0]
    ensures ParseUnsigned(StripSign(TrimStart(s))) == Some(DigitsValue(StripSign(Trim(s)), 10))
  {
    var t := Trim(s);
    var u := StripSign(t);
    var w := s[LeadingWhiteSpace(s) + |t|..];
    var ts := TrimStart(s);
    ToNumberOfDigits(s);
    assert ts == t + w by { TrimStartIsTrimThenBlank(s); }
    assert StripSign(ts) == u + w by { StripSignAppend(t, w); }
    assert w == [] || IsWhiteSpace(w[0]);
    ParseUnsignedDigitsThenBlank(u, w);
  }

  /** What Number accepts in a text that is not blank: an optional sign, then decimal digits only. */
  lemma ToNumberOfDigits(s: string)
    requires !IsBlank(s) && ToNumber(s).Some?
    ensures var u := StripSign(Trim(s));
            && u != [] && (forall i :: 0 <= i < |u| ==> IsDecimalDigit(u[i]))
            && ToNumber(s) == Some(if Trim(s)[0] == '-' then -(DigitsValue(u, 10) as int) else DigitsValue(u, 10) as int)
  {
  }

  lemma ParseIntFromUnsigned(s: string, v: nat)
    requires ParseUnsigned(StripSign(TrimStart(s))) == Some(v)
    ensures TrimStart(s) != []
    ensures ParseInt(s) == Some(if TrimStart(s)[0] == '-' then -(v as int) else v as int)
  {
  }

  /** Behind the leading white space come the trimmed text and then only white space. */
  lemma TrimStartIsTrimThenBlank(s: string)
    ensures TrimStart(s) == Trim(s) + s[LeadingWhiteSpace(s) + |Trim(s)|..]
  {
    var n, t := LeadingWhiteSpace(s), Trim(s);
    assert s[n..] == s[n..n + |t|] + s[n + |t|..];
  }

  lemma StripSignAppend(t: string, w: string)
    requires t != []
    ensures StripSign(t + w) == StripSign(t) + w
  {
    if t[0] == '-' || t[0] == '+' {
      assert (t + w)[1..] == t[1..] + w;
    }
  }

  /** Decimal digits followed by white space (or nothing) read as the digits' value. */
  lemma ParseUnsignedDigitsThenBlank(u: string, w: string)
    requires u != [] && forall i :: 0 <= i < |u| ==> IsDecimalDigit(u[i])
    requires w == [] || IsWhiteSpace(w[0])
    ensures ParseUnsigned(u + w) == Some(DigitsValue(u, 10))
  {
    DigitsThenOther(u, w);
    assert (u + w)[..|u|] == u;
    if |u| < 2 && |u + w| >= 2 {
      assert (u + w)[1] == w[0];
    }
  }

  /** A run of decimal digits followed by a non-digit (or nothing) is the whole digit prefix. */
  lemma {:induction false} DigitsThenOther(u: string, w: string)
    requires forall i :: 0 <= i < |u| ==> IsDecimalDigit(u[i])
    requires w == [] || !IsDecimalDigit(w[0])
    ensures DigitPrefixLength(u + w, 10) == |u|
  {
    if u == [] {
      assert u + w == w;
    } else {
      DigitsThenOther(u[1..], w);
      assert (u + w)[1..] == u[1..] + w;
    }
  }

  /** String.prototype.slice(start, end) for non-negative arguments: both are clamped to the length. */
  function Slice(s: string, start: nat, end: nat): (r: string)
    ensures start <= end <= |s| ==> r == s[start..end]
    ensures |r| <= |s| && (end <= start ==> r == [])
    ensures start <= |s| <= end ==> r == s[start..]
  {
    var from := if start < |s| then start else |s|;
    var to := if end < |s| then end else |s|;
    if from < to then s[from..to] else []
  }

  /** String.prototype.substring(start, end) for non-negative arguments: clamped, and swapped when start > end. */
  function Substring(s: string, start: nat, end: nat): (r: string)
    ensures |r| <= |s|
    ensures start <= end <= |s| ==> r == s[start..end]
    ensures end < start && start <= |s| ==> r == s[end..start]
  {
    var a := if start < |s| then start else |s|;
    var b := if end < |s| then end else |s|;
    if a <= b then s[a..b] else s[b..a]
  }

  function ToLowerChar(c: char): char {
    if 'A' <= c <= 'Z' then (c as int + 32) as char else c
  }

  /** String.prototype.toLowerCase, for the ASCII letters (see README, "Left out"). */
  function ToLower(s: string): (r: string)
    ensures |r| == |s|
    ensures forall i :: 0 <= i < |s| ==> r[i] == ToLowerChar(s[i])
  {
    seq(|s|, i requires 0 <= i < |s| => ToLowerChar(s[i]))
  }

  /** Lower-casing twice is lower-casing once. */
  lemma ToLowerIdempotent(s: string)
    ensures ToLower(ToLower(s)) == ToLower(s)
  {
  }
}
