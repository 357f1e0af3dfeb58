/**
 * The JavaScript string operations the front-end relies on, on `seq<char>`:
 * global replacement of a literal pattern, `includes`, `trim`, ASCII
 * `toLowerCase`, `join`, the decimal rendering of an integer and the sign
 * of a string converted to a number.
 */
module JsString {
  import opened Wrappers

  /** `s` begins with `p`. */
  predicate StartsWith(s: string, p: string) {
    |p| <= |s| && s[..|p|] == p
  }

  /** `needle` occurs in `hay` at some position. */
  predicate Includes(hay: string, needle: string)
    decreases |hay|
  {
    StartsWith(hay, needle) || (|hay| > 0 && Includes(hay[1..], needle))
  }

  lemma {:induction false} IncludesNeedsRoom(hay: string, needle: string)
    requires Includes(hay, needle)
    ensures |needle| <= |hay|
    decreases |hay|
  {
    if !StartsWith(hay, needle) {
      IncludesNeedsRoom(hay[1..], needle);
    }
  }

  /** An occurrence in a suffix is an occurrence in the whole string. */
  lemma {:induction false} IncludesSuffix(hay: string, k: nat, needle: string)
    requires k <= |hay| && Includes(hay[k..], needle)
    ensures Includes(hay, needle)
    decreases k
  {
    if k > 0 {
      assert hay[1..][k - 1..] == hay[k..];
      IncludesSuffix(hay[1..], k - 1, needle);
    }
  }

  /**
   * Global replacement of a literal, non-empty pattern whose
   * replacement has no `$` patterns: occurrences are found from left to
   * right, do not overlap, and text produced by a replacement is not
   * searched again.
   */
  function ReplaceAll(s: string, pat: string, rep: string): (r: string)
    requires |pat| > 0
    ensures |rep| <= |pat| ==> |r| <= |s|
    decreases |s|
  {
    if |s| < |pat| then s
    else if StartsWith(s, pat) then rep + ReplaceAll(s[|pat|..], pat, rep)
    else [s[0]] + ReplaceAll(s[1..], pat, rep)
  }

  /** Replacing a pattern that does not occur leaves the text as it is. */
  lemma {:induction false} ReplaceAllAbsent(s: string, pat: string, rep: string)
    requires |pat| > 0 && !Includes(s, pat)
    ensures ReplaceAll(s, pat, rep) == s
    decreases |s|
  {
    if |s| >= |pat| {
      ReplaceAllAbsent(s[1..], pat, rep);
      assert [s[0]] + s[1..] == s;
    }
  }

  /** The markdown code-fence marker. */
  const Fence: string := "```"

  /** A character that does not begin the pattern is copied to the front of the result. */
  lemma ReplaceAllKeepsHead(x: string, pat: string, rep: string)
    requires |pat| > 0 && |x| > 0 && x[0] != pat[0]
    ensures |ReplaceAll(x, pat, rep)| > 0 && ReplaceAll(x, pat, rep)[0] == x[0]
  {
  }

  /** A text that does not start with two backticks keeps that property when its fences are removed. */
  lemma NoDoubleTickAfterRemoval(t: string)
    requires !StartsWith(t, "``")
    ensures !StartsWith(ReplaceAll(t, Fence, ""), "``")
  {
    if |t| >= 3 {
      if t[0] != '`' {
        ReplaceAllKeepsHead(t, Fence, "");
      } else {
        var u := t[1..];
        assert ReplaceAll(t, Fence, "") == [t[0]] + ReplaceAll(u, Fence, "");
        ReplaceAllKeepsHead(u, Fence, "");
      }
    }
  }

  /**
   * Removing every "```" leaves no "```": the left-to-right scan removes,
   * from each run of backticks, all but the last (length mod 3) of them.
   */
  lemma {:induction false} RemovingFencesLeavesNone(s: string)
    ensures !Includes(ReplaceAll(s, Fence, ""), Fence)
    decreases |s|
  {
    var r := ReplaceAll(s, Fence, "");
    if |s| < |Fence| {
      if Includes(r, Fence) {
        IncludesNeedsRoom(r, Fence);
      }
    } else if StartsWith(s, Fence) {
      assert r == ReplaceAll(s[3..], Fence, "");
      RemovingFencesLeavesNone(s[3..]);
    } else {
      var t := s[1..];
      var rt := ReplaceAll(t, Fence, "");
      assert r == [s[0]] + rt;
      RemovingFencesLeavesNone(t);
      assert r[1..] == rt;
      if s[0] == '`' {
        assert s[..3] == [s[0], s[1], s[2]] && t[..2] == [s[1], s[2]];
        NoDoubleTickAfterRemoval(t);
        if |r| >= 3 {
          assert r[..3] == [r[0], rt[0], rt[1]] && rt[..2] == [rt[0], rt[1]];
        }
      } else {
        assert r[0] == s[0];
      }
      assert !StartsWith(r, Fence);
    }
  }

  /**
   * When the replacement is one character other than a backtick, a result
   * that starts with a backtick copied it from the input.
   */
  lemma ReplaceAllTickHead(x: string, pat: string, rep: string)
    requires |pat| > 0 && |rep| == 1 && rep[0] != '`'
    requires |ReplaceAll(x, pat, rep)| > 0 && ReplaceAll(x, pat, rep)[0] == '`'
    ensures |x| > 0 && x[0] == '`'
    ensures ReplaceAll(x, pat, rep)[1..] == ReplaceAll(x[1..], pat, rep)
  {
  }

  /** A one-character replacement other than a backtick never creates a "```". */
  lemma {:induction false} ReplacingKeepsNoFence(s: string, pat: string, rep: string)
    requires |pat| > 0 && |rep| == 1 && rep[0] != '`'
    requires !Includes(s, Fence)
    ensures !Includes(ReplaceAll(s, pat, rep), Fence)
    decreases |s|
  {
    var r := ReplaceAll(s, pat, rep);
    if |s| < |pat| {
    } else if StartsWith(s, pat) {
      if Includes(s[|pat|..], Fence) {
        IncludesSuffix(s, |pat|, Fence);
      }
      ReplacingKeepsNoFence(s[|pat|..], pat, rep);
      assert r[1..] == ReplaceAll(s[|pat|..], pat, rep);
    } else {
      var t := s[1..];
      var rt := ReplaceAll(t, pat, rep);
      ReplacingKeepsNoFence(t, pat, rep);
      assert r[1..] == rt;
      if s[0] == '`' && |rt| > 0 && rt[0] == '`' {
        ReplaceAllTickHead(t, pat, rep);
        assert |s| >= 3 ==> s[..3] == [s[0], s[1], s[2]];
        ReplaceAllNoTickHead(t[1..], pat, rep);
      }
      assert |r| >= 3 ==> r[..3] == [r[0], r[1], r[2]];
    }
  }

  /** When the replacement is one character other than a backtick, a result starts with a backtick only if the input does. */
  lemma ReplaceAllNoTickHead(x: string, pat: string, rep: string)
    requires |pat| > 0 && |rep| == 1 && rep[0] != '`'
    requires x == "" || x[0] != '`'
    ensures ReplaceAll(x, pat, rep) == "" || ReplaceAll(x, pat, rep)[0] != '`'
  {
  }

  /** JavaScript's WhiteSpace and LineTerminator characters, the ones `trim` removes. */
  predicate IsJsSpace(c: char) {
    || c == '\t' || c == '\n' || c == '\U{000B}' || c == '\U{000C}' || c == '\r' || c == ' '
    || c == '\U{00A0}' || c == '\U{1680}' || ('\U{2000}' <= c <= '\U{200A}')
    || c == '\U{2028}' || c == '\U{2029}' || c == '\U{202F}' || c == '\U{205F}'
    || c == '\U{3000}' || c == '\U{FEFF}'
  }

  predicate AllSpace(s: string) {
    forall i :: 0 <= i < |s| ==> IsJsSpace(s[i])
  }

  function TrimStart(s: string): (r: string)
    ensures |r| <= |s| && r == s[|s| - |r|..]
    ensures r != "" ==> !IsJsSpace(r[0])
  {
    if s != "" && IsJsSpace(s[0]) then TrimStart(s[1..]) else s
  }

  function TrimEnd(s: string): (r: string)
    ensures |r| <= |s| && r == s[..|r|]
    ensures r != "" ==> !IsJsSpace(r[|r| - 1])
  {
    if s != "" && IsJsSpace(s[|s| - 1]) then TrimEnd(s[..|s| - 1]) else s
  }

  /** White space removed from both ends: what is left neither starts nor ends with white space. */
  function Trim(s: string): (r: string)
    ensures r != "" ==> !IsJsSpace(r[0]) && !IsJsSpace(r[|r| - 1])
  {
    var t := TrimStart(s);
    var r := TrimEnd(t);
    assert r != "" ==> r[0] == t[0];
    r
  }

  /** A string that neither starts nor ends with white space is its own trim. */
  lemma TrimNoSpace(s: string)
    requires s != "" ==> !IsJsSpace(s[0]) && !IsJsSpace(s[|s| - 1])
    ensures Trim(s) == s
  {
  }

  lemma {:induction false} TrimStartEmpty(s: string)
    ensures TrimStart(s) == "" <==> AllSpace(s)
  {
    if s != "" && IsJsSpace(s[0]) {
      TrimStartEmpty(s[1..]);
      assert AllSpace(s) <==> AllSpace(s[1..]);
    }
  }

  lemma {:induction false} TrimEndEmpty(s: string)
    ensures TrimEnd(s) == "" <==> AllSpace(s)
  {
    if s != "" && IsJsSpace(s[|s| - 1]) {
      TrimEndEmpty(s[..|s| - 1]);
      assert AllSpace(s) <==> AllSpace(s[..|s| - 1]);
    }
  }

  /** Trimming gives the empty string exactly when every character of `s` is white space. */
  lemma TrimEmptyIff(s: string)
    ensures Trim(s) == "" <==> AllSpace(s)
  {
    TrimStartEmpty(s);
    TrimEndEmpty(TrimStart(s));
  }

  /** `toLowerCase` on one character, for the ASCII letters. */
  function AsciiLower(c: char): char {
    if 'A' <= c <= 'Z' then (c as int + 32) as char else c
  }

  /** Lower-casing, restricted to ASCII letters. */
  function Lower(s: string): (r: string)
    ensures |r| == |s|
  {
    seq(|s|, i requires 0 <= i < |s| => AsciiLower(s[i]))
  }

  /** Lower-casing twice is lower-casing once. */
  lemma LowerIdempotent(s: string)
    ensures Lower(Lower(s)) == Lower(s)
  {
    assert forall i :: 0 <= i < |s| ==> AsciiLower(AsciiLower(s[i])) == AsciiLower(s[i]);
  }

  /** Joining pieces that are already strings, with `sep` between neighbours. */
  function Join(pieces: seq<string>, sep: string): string {
    if |pieces| == 0 then ""
    else if |pieces| == 1 then pieces[0]
    else pieces[0] + sep + Join(pieces[1..], sep)
  }

  function DigitChar(d: nat): char
    requires d < 10
  {
    ('0' as int + d) as char
  }

  predicate IsDigits(s: string) {
    forall i :: 0 <= i < |s| ==> '0' <= s[i] <= '9'
  }

  /** The decimal digits of `n`, most significant first, without leading zeros. */
  function NatToString(n: nat): (s: string)
    ensures |s| > 0 && IsDigits(s)
    ensures |s| > 1 ==> s[0] != '0'
  {
    if n < 10 then [DigitChar(n)] else NatToString(n / 10) + [DigitChar(n % 10)]
  }

  /** The number a string of decimal digits denotes. */
  function DecimalValue(s: string): nat
    requires IsDigits(s)
  {
    if s == "" then 0 else 10 * DecimalValue(s[..|s| - 1]) + (s[|s| - 1] as int - '0' as int)
  }

  /** Reading back the digits of `n` gives `n`. */
  lemma {:induction false} DecimalRoundTrip(n: nat)
    ensures DecimalValue(NatToString(n)) == n
  {
    if n >= 10 {
      DecimalRoundTrip(n / 10);
      var s := NatToString(n);
      assert s[..|s| - 1] == NatToString(n / 10);
    }
  }

  /** `String(n)` for an integer of at most 21 digits, where JavaScript uses plain decimal notation. */
  function IntToString(n: int): (r: string)
    ensures |r| > 0 && (r[0] == '-' <==> n < 0)
  {
    if n < 0 then "-" + NatToString(-n) else NatToString(n)
  }

  /** The first index of `s` holding `c` or `d`, or `|s|` when neither occurs. */
  function IndexOfEither(s: string, c: char, d: char): (k: nat)
    ensures k <= |s|
    ensures forall i :: 0 <= i < k ==> s[i] != c && s[i] != d
    ensures k < |s| ==> s[k] == c || s[k] == d
  {
    if s == "" || s[0] == c || s[0] == d then 0 else 1 + IndexOfEither(s[1..], c, d)
  }

  function Pow(b: nat, e: nat): nat {
    if e == 0 then 1 else b * Pow(b, e - 1)
  }

  /** The exact value `digits` × 10^`exponent` of a decimal literal. */
  datatype Decimal = Decimal(digits: nat, exponent: int)

  /** The signed integer after an exponent letter: an optional sign, then at least one digit. */
  function ExponentValue(t: string): Option<int> {
    if t != "" && (t[0] == '+' || t[0] == '-') then
      var d := t[1..];
      if d != "" && IsDigits(d) then
        var v: int := DecimalValue(d);
        Some(if t[0] == '-' then -v else v)
      else None
    else if t != "" && IsDigits(t) then Some(DecimalValue(t))
    else None
  }

  /** Digits with at most one decimal point, and at least one digit on some side of it. */
  function MantissaValue(t: string): Option<Decimal> {
    var p := IndexOfEither(t, '.', '.');
    if p == |t| then
      if t != "" && IsDigits(t) then Some(Decimal(DecimalValue(t), 0)) else None
    else
      var whole, frac := t[..p], t[p + 1..];
      if IsDigits(whole) && IsDigits(frac) && (whole != "" || frac != "") then
        Some(Decimal(DecimalValue(whole) * Pow(10, |frac|) + DecimalValue(frac), -|frac|))
      else None
  }

  /** An unsigned decimal literal other than `Infinity`: a mantissa and an optional exponent part. */
  function UnsignedDecimal(t: string): Option<Decimal> {
    var k := IndexOfEither(t, 'e', 'E');
    var mantissa := MantissaValue(t[..k]);
    if mantissa.None? then None
    else if k == |t| then mantissa
    else
      match ExponentValue(t[k + 1..])
      case None => None
      case Some(x) => Some(Decimal(mantissa.value.digits, mantissa.value.exponent + x))
  }

  /**
   * Whether a decimal rounds to a positive double. A non-zero value does,
   * unless it is at most half the smallest subnormal, 2^-1075, which rounds
   * to zero.
   */
  predicate PositiveDouble(d: Decimal) {
    d.digits > 0 && (d.exponent >= 0 || d.digits * Pow(2, 1075) > Pow(10, -d.exponent))
  }

  /** The base an `x`, `o` or `b` after a leading zero selects, or 0 for any other letter. */
  function Radix(c: char): nat {
    if c == 'x' || c == 'X' then 16
    else if c == 'o' || c == 'O' then 8
    else if c == 'b' || c == 'B' then 2
    else 0
  }

  predicate IsRadixDigit(c: char, radix: nat) {
    if radix == 16 then '0' <= c <= '9' || 'a' <= c <= 'f' || 'A' <= c <= 'F'
    else '0' <= c && c as int < '0' as int + radix
  }

  /** A binary, octal or hexadecimal integer literal, which takes no sign. */
  predicate NonDecimalLiteral(t: string) {
    && |t| > 2 && t[0] == '0' && Radix(t[1]) != 0
    && forall i :: 2 <= i < |t| ==> IsRadixDigit(t[i], Radix(t[1]))
  }

  /**
   * Whether converting `s` to a number gives a value above 0, under
   * ECMAScript's StringToNumber (section 7.1.4.1.1 of ECMA-262). Surrounding
   * white space is ignored and an empty string is 0. A decimal literal may
   * carry a sign and may be `Infinity`. A binary, octal or hexadecimal
   * literal may not carry a sign. Anything else is NaN, which is not above 0.
   */
  predicate NumericPositive(s: string) {
    TrimmedPositive(Trim(s))
  }

  /** The same test on a string with no surrounding white space. */
  predicate TrimmedPositive(t: string) {
    if NonDecimalLiteral(t) then exists i :: 2 <= i < |t| && t[i] != '0'
    else if t != "" && t[0] == '-' then false
    else UnsignedPositive(if t != "" && t[0] == '+' then t[1..] else t)
  }

  /** An unsigned decimal literal, `Infinity` included, that denotes a positive double. */
  predicate UnsignedPositive(u: string) {
    u == "Infinity" || (UnsignedDecimal(u).Some? && PositiveDouble(UnsignedDecimal(u).value))
  }

  /** A string of white space only, the empty string included, converts to 0, which is not above 0. */
  lemma BlankNotPositive(s: string)
    requires AllSpace(s)
    ensures !NumericPositive(s)
  {
    TrimEmptyIff(s);
    EmptyNotPositive();
  }

  lemma EmptyNotPositive()
    ensures !TrimmedPositive("")
  {
    var e := "";
    assert IndexOfEither(e, 'e', 'E') == 0;
    assert MantissaValue(e).None?;
  }

  /** A mantissa with a character that is neither a digit nor the point is not one. */
  lemma MantissaNeedsDigits(m: string, i: nat)
    requires i < |m| && !('0' <= m[i] <= '9') && m[i] != '.'
    ensures MantissaValue(m).None?
  {
    var p := IndexOfEither(m, '.', '.');
    if p < |m| {
      if i < p {
        assert m[..p][i] == m[i];
      } else {
        assert m[p + 1..][i - p - 1] == m[i];
      }
    }
  }

  /** A string of digits is read as a whole number with exponent 0. */
  lemma DigitsDecimal(s: string)
    requires s != "" && IsDigits(s)
    ensures UnsignedDecimal(s) == Some(Decimal(DecimalValue(s), 0))
  {
    assert IndexOfEither(s, 'e', 'E') == |s| by {
      assert forall i :: 0 <= i < |s| ==> s[i] != 'e' && s[i] != 'E';
    }
    assert IndexOfEither(s, '.', '.') == |s| by {
      assert forall i :: 0 <= i < |s| ==> s[i] != '.';
    }
    assert s[..|s|] == s;
  }

  /** A string of digits is neither a binary, octal or hexadecimal literal, nor signed, nor `Infinity`. */
  lemma DigitsPlain(s: string)
    requires s != "" && IsDigits(s)
    ensures !NonDecimalLiteral(s) && s[0] != '-' && s[0] != '+' && s != "Infinity"
  {
    if |s| > 2 {
      assert Radix(s[1]) == 0;
    }
    assert s != "Infinity" by { assert s[0] != 'I'; }
  }

  /** An unsigned string of digits converts to a positive number exactly when its value is positive. */
  lemma DigitsPositive(s: string)
    requires s != "" && IsDigits(s)
    ensures TrimmedPositive(s) <==> DecimalValue(s) > 0
  {
    DigitsPlain(s);
    DigitsDecimal(s);
    assert TrimmedPositive(s) == UnsignedPositive(s);
  }

  /** Converting the decimal form of `n` back to a number keeps the sign of `n`. */
  lemma IntToStringPositive(n: int)
    ensures NumericPositive(IntToString(n)) <==> n > 0
  {
    var s := IntToString(n);
    TrimNoSpace(s);
    if n >= 0 {
      DecimalRoundTrip(n);
      DigitsPositive(s);
    } else {
      assert s[0] == '-';
    }
  }

  /**
   * A string that is its own trim and starts with a character no numeric
   * literal starts with converts to NaN, which is not above 0.
   */
  lemma LeadingNonNumeric(s: string)
    requires s != "" && !IsJsSpace(s[0]) && !IsJsSpace(s[|s| - 1])
    requires !('0' <= s[0] <= '9') && s[0] != '.' && s[0] != '+' && s[0] != '-' && s[0] != 'I'
    ensures !NumericPositive(s)
  {
    TrimNoSpace(s);
    assert s != "Infinity";
    var k := IndexOfEither(s, 'e', 'E');
    if k > 0 {
      assert s[..k][0] == s[0];
      MantissaNeedsDigits(s[..k], 0);
    }
  }


  /** A hexadecimal literal converts to its value (31). */
  lemma HexLiteralPositive()
    ensures NumericPositive("0x1F")
  {
    var t := "0x1F";
    assert Trim(t) == t by { TrimNoSpace(t); }
    assert Radix(t[1]) == 16;
    assert IsRadixDigit(t[2], 16) && IsRadixDigit(t[3], 16);
    assert NonDecimalLiteral(t);
    assert t[2] != '0';
  }

  /** With a plus sign in front, such a literal is not a decimal literal. */
  lemma PlusNonDecimalNotPositive(t: string)
    requires NonDecimalLiteral(t)
    ensures !TrimmedPositive("+" + t)
  {
    var pos := "+" + t;
    assert pos[0] == '+' && pos[1..] == t;
    UnsignedNonDecimalNotDecimal(t);
  }

  /** A binary, octal or hexadecimal literal does not read as a decimal one. */
  lemma UnsignedNonDecimalNotDecimal(t: string)
    requires NonDecimalLiteral(t)
    ensures !UnsignedPositive(t)
  {
    assert t != "Infinity";
    var k := IndexOfEither(t, 'e', 'E');
    assert k > 1;
    assert t[..k][1] == t[1];
    MantissaNeedsDigits(t[..k], 1);
  }

  /** A binary, octal or hexadecimal literal takes no sign: with either sign it converts to NaN. */
  lemma SignedNonDecimalNotPositive(t: string)
    requires NonDecimalLiteral(t)
    ensures !NumericPositive("-" + t) && !NumericPositive("+" + t)
  {
    MinusNotPositive(t);
    NonDecimalEndsInDigit(t);
    SignKeepsTrim('+', t);
    assert ['+'] + t == "+" + t;
    PlusNonDecimalNotPositive(t);
  }

  /** A minus sign in front of any text never gives a number above 0. */
  lemma MinusNotPositive(t: string)
    ensures !NumericPositive("-" + t)
  {
    var neg := "-" + t;
    assert neg[0] == '-';
  }

  /** Such a literal ends in a digit of its base, which is not white space. */
  lemma NonDecimalEndsInDigit(t: string)
    requires NonDecimalLiteral(t)
    ensures !IsJsSpace(t[|t| - 1])
  {
    assert IsRadixDigit(t[|t| - 1], Radix(t[1]));
  }

  /** A sign in front of text that ends without white space is kept by trimming. */
  lemma SignKeepsTrim(sign: char, t: string)
    requires sign == '-' || sign == '+'
    requires t != "" && !IsJsSpace(t[|t| - 1])
    ensures Trim([sign] + t) == [sign] + t
  {
    var u := [sign] + t;
    assert u[|u| - 1] == t[|t| - 1];
    TrimNoSpace(u);
  }

  /** Decimal digits followed by a letter other than an exponent letter convert to NaN. */
  lemma DigitsThenLetterNotPositive(d: string, c: char)
    requires d != "" && IsDigits(d)
    requires ('a' <= c <= 'z' || 'A' <= c <= 'Z') && c != 'e' && c != 'E'
    ensures !NumericPositive(d + [c])
  {
    var t := d + [c];
    assert t[0] == d[0] && t[|t| - 1] == c;
    TrimNoSpace(t);
    assert !NonDecimalLiteral(t) by {
      if |t| > 2 {
        assert t[1] == d[1];
      }
    }
    assert t != "Infinity" by { assert t[0] != 'I'; }
    assert IndexOfEither(t, 'e', 'E') == |t| by {
      assert forall i :: 0 <= i < |t| ==> t[i] != 'e' && t[i] != 'E';
    }
    assert t[..|t|] == t;
    MantissaNeedsDigits(t, |d|);
  }
}
