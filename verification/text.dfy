/** String helpers over ASCII: the model's stand-ins for JavaScript's
    `toLowerCase`/`includes`/`\s` and Python's `lower`/`isalnum`/`int`.
    Non-ASCII characters are never letters, digits or white space here. */
module Text {
  import opened Wrappers

  predicate IsUpper(c: char) {
    'A' <= c <= 'Z'
  }

  predicate IsLower(c: char) {
    'a' <= c <= 'z'
  }

  predicate IsDigit(c: char) {
    '0' <= c <= '9'
  }

  predicate IsAlnumChar(c: char) {
    IsUpper(c) || IsLower(c) || IsDigit(c)
  }

  /** ASCII white space as matched by a JavaScript `\s`. */
  predicate IsSpace(c: char) {
    c == ' ' || c == '\t' || c == '\n' || c == '\r' || c == '\U{B}' || c == '\U{C}'
  }

  function LowerChar(c: char): (r: char)
    ensures !IsUpper(r)
    ensures !IsUpper(c) ==> r == c
    ensures IsUpper(c) ==> IsLower(r)
  {
    if IsUpper(c) then (c as int + 32) as char else c
  }

  /** Lower-cases every ASCII letter and leaves every other character alone. */
  function Lower(s: string): (r: string)
    ensures |r| == |s|
    ensures forall i :: 0 <= i < |s| ==> r[i] == LowerChar(s[i])
  {
    seq(|s|, i requires 0 <= i < |s| => LowerChar(s[i]))
  }

  predicate IsLowercase(s: string) {
    forall i :: 0 <= i < |s| ==> !IsUpper(s[i])
  }

  lemma LowerIsLowercase(s: string)
    ensures IsLowercase(Lower(s))
    ensures Lower(Lower(s)) == Lower(s)
  {
  }

  lemma LowercaseFixed(s: string)
    requires IsLowercase(s)
    ensures Lower(s) == s
  {
  }

  predicate IsPrefix(p: string, s: string) {
    |p| <= |s| && s[..|p|] == p
  }

  /** `needle` occurs somewhere inside `hay` (JavaScript `includes`, Python `in`). */
  predicate IsInfix(needle: string, hay: string)
    decreases |hay|
  {
    IsPrefix(needle, hay) || (|hay| > 0 && IsInfix(needle, hay[1..]))
  }

  lemma EmptyIsInfix(hay: string)
    ensures IsInfix("", hay)
  {
    assert IsPrefix("", hay);
  }

  /** Python `str.isalnum`: non-empty and every character a letter or a digit. */
  predicate IsAlnum(s: string) {
    |s| > 0 && forall i :: 0 <= i < |s| ==> IsAlnumChar(s[i])
  }

  /** Python `s.replace(c, '')`. */
  function Remove(s: string, c: char): (r: string)
    ensures c !in r
    ensures forall x :: x in r <==> x in s && x != c
    ensures |r| <= |s|
  {
    if |s| == 0 then ""
    else if s[0] == c then Remove(s[1..], c)
    else [s[0]] + Remove(s[1..], c)
  }

  lemma {:induction false} RemoveAbsent(s: string, c: char)
    requires c !in s
    ensures Remove(s, c) == s
  {
    if |s| > 0 {
      assert s[0] != c;
      RemoveAbsent(s[1..], c);
      assert s == [s[0]] + s[1..];
    }
  }

  /** JavaScript `s.replace(/\s+/g, '_')`: every maximal run of white space
      becomes one underscore. */
  function ReplaceSpaceRuns(s: string): (r: string)
    ensures forall i :: 0 <= i < |r| ==> !IsSpace(r[i])
    ensures |r| <= |s|
    decreases |s|
  {
    if |s| == 0 then ""
    else if IsSpace(s[0]) then "_" + ReplaceSpaceRuns(DropSpaces(s))
    else [s[0]] + ReplaceSpaceRuns(s[1..])
  }

  /** `s` without its leading run of white space. */
  function DropSpaces(s: string): (r: string)
    ensures |r| <= |s|
    ensures |s| > 0 && IsSpace(s[0]) ==> |r| < |s|
    ensures |r| > 0 ==> !IsSpace(r[0])
    ensures r == s[|s| - |r|..]
  {
    if |s| > 0 && IsSpace(s[0]) then DropSpaces(s[1..]) else s
  }

  lemma {:induction false} ReplaceSpaceRunsIdentity(s: string)
    requires forall i :: 0 <= i < |s| ==> !IsSpace(s[i])
    ensures ReplaceSpaceRuns(s) == s
    decreases |s|
  {
    if |s| > 0 {
      ReplaceSpaceRunsIdentity(s[1..]);
      assert s == [s[0]] + s[1..];
    }
  }

  const DigitChars: string := "0123456789"

  /** Decimal rendering of a natural number, without leading zeros. */
  function NatToString(n: nat): (r: string)
    ensures |r| > 0
    ensures forall i :: 0 <= i < |r| ==> IsDigit(r[i])
    decreases n
  {
    if n < 10 then [DigitChars[n]] else NatToString(n / 10) + [DigitChars[n % 10]]
  }

  /** Decimal rendering of an integer, with a leading minus sign when negative
      (JavaScript template-literal interpolation of an integral number). */
  function IntToString(n: int): string {
    if n < 0 then "-" + NatToString(-n) else NatToString(n)
  }

  function DigitValue(c: char): nat
    requires IsDigit(c)
  {
    c as nat - '0' as nat
  }

  /** The value of a string of decimal digits (leading zeros allowed, as in
      Python's `int`); `None` unless the string is a non-empty digit string. */
  function ParseNat(s: string): (r: Option<nat>)
    ensures r.Some? <==> |s| > 0 && forall i :: 0 <= i < |s| ==> IsDigit(s[i])
    decreases |s|
  {
    if |s| == 0 then None
    else if !IsDigit(s[|s| - 1]) then None
    else if |s| == 1 then Some(DigitValue(s[0]))
    else match ParseNat(s[..|s| - 1])
      case None => None
      case Some(v) => Some(v * 10 + DigitValue(s[|s| - 1]))
  }

  /** Rendering a number in decimal and reading it back gives the number. */
  lemma {:induction false} ParseNatToString(n: nat)
    ensures ParseNat(NatToString(n)) == Some(n)
    decreases n
  {
    var s := NatToString(n);
    if n >= 10 {
      ParseNatToString(n / 10);
      assert s[..|s| - 1] == NatToString(n / 10);
    }
  }

  // ---------------------------------------------------------------------
  // JavaScript parseInt
  // ---------------------------------------------------------------------

  /** The white space and line terminators `parseInt` skips before the
      number (StrWhiteSpaceChar of the ECMAScript grammar). */
  predicate IsJsTrimSpace(c: char) {
    || c == '\t' || c == '\n' || c == '\U{B}' || c == '\U{C}' || c == '\r' || c == ' '
    || c == '\U{A0}' || c == '\U{1680}' || '\U{2000}' <= c <= '\U{200A}'
    || c == '\U{2028}' || c == '\U{2029}' || c == '\U{202F}' || c == '\U{205F}'
    || c == '\U{3000}' || c == '\U{FEFF}'
  }

  /** The string from its first character that is not white space. */
  function TrimStart(s: string): (r: string)
    ensures |r| <= |s| && r == s[|s| - |r|..]
    ensures |r| > 0 ==> !IsJsTrimSpace(r[0])
    decreases |s|
  {
    if |s| > 0 && IsJsTrimSpace(s[0]) then TrimStart(s[1..]) else s
  }

  /** An optional leading sign: whether it is a minus, and the rest. */
  function SplitSign(t: string): (r: (bool, string))
    ensures r.1 == t || (|t| > 0 && r.1 == t[1..])
    ensures r.0 ==> |t| > 0 && t[0] == '-'
  {
    if |t| > 0 && (t[0] == '-' || t[0] == '+') then (t[0] == '-', t[1..]) else (false, t)
  }

  /** Base 16 after a `0x` or `0X` prefix, which is dropped; base 10
      otherwise. */
  function SplitRadix(u: string): (r: (nat, string))
    ensures r.0 == 10 ==> r.1 == u
    ensures r.0 == 16 ==> |u| >= 2 && u[0] == '0' && r.1 == u[2..]
    ensures r.0 == 10 || r.0 == 16
  {
    if |u| >= 2 && u[0] == '0' && (u[1] == 'x' || u[1] == 'X') then (16, u[2..]) else (10, u)
  }

  /** The value of `c` as a digit in base 10 or 16, if it is one. */
  function DigitIn(c: char, radix: nat): (r: Option<nat>)
    ensures r.Some? ==> r.value < radix
  {
    if '0' <= c <= '9' && (c as nat - '0' as nat) < radix then Some(c as nat - '0' as nat)
    else if radix == 16 && 'a' <= c <= 'f' then Some(c as nat - 'a' as nat + 10)
    else if radix == 16 && 'A' <= c <= 'F' then Some(c as nat - 'A' as nat + 10)
    else None
  }

  /** The longest prefix of `s` made of digits of the radix. */
  function LeadingDigits(s: string, radix: nat): (r: string)
    ensures |r| <= |s| && r == s[..|r|]
    ensures forall i :: 0 <= i < |r| ==> DigitIn(r[i], radix).Some?
    ensures |r| < |s| ==> DigitIn(s[|r|], radix).None?
    decreases |s|
  {
    if |s| == 0 || DigitIn(s[0], radix).None? then ""
    else
      var rest := LeadingDigits(s[1..], radix);
      assert ([s[0]] + rest)[1..] == rest;
      [s[0]] + rest
  }

  /** The number the digits spell in the radix, most significant first. */
  function DigitsValue(ds: string, radix: nat): nat
    requires forall i :: 0 <= i < |ds| ==> DigitIn(ds[i], radix).Some?
    decreases |ds|
  {
    if |ds| == 0 then 0
    else DigitsValue(ds[..|ds| - 1], radix) * radix + DigitIn(ds[|ds| - 1], radix).value
  }

  /** JavaScript `parseInt(s)` with no radix: skip leading white space, take
      an optional sign, read hexadecimal after `0x` or `0X` and decimal
      otherwise, up to the first character that is not a digit. `None` is
      `NaN`, the answer when no digit follows. */
  function JsParseInt(s: string): (r: Option<int>)
    ensures r.Some? ==> exists k :: 0 <= k < |s| && DigitIn(s[k], 10).Some?
  {
    var sign := SplitSign(TrimStart(s));
    var base := SplitRadix(sign.1);
    var ds := LeadingDigits(base.1, base.0);
    if ds == "" then None
    else
      // The first character after the sign is a decimal digit: the digit
      // itself, or the `0` of a `0x` prefix.
      var m := |s| - |sign.1|;
      assert sign.1 == s[m..];
      assert DigitIn(s[m], 10).Some?;
      var n: int := DigitsValue(ds, base.0);
      Some(if sign.0 then -n else n)
  }

  /** A string of decimal digits reads as `ParseNat` reads it. */
  lemma JsParseIntDigits(s: string)
    requires IsDigitString(s)
    ensures JsParseInt(s) == Some(ParseNat(s).value)
  {
    DigitStringReadWhole(s);
  }

  /** A minus sign followed by decimal digits reads as the negated number. */
  lemma JsParseIntNegative(s: string)
    requires |s| > 0 && s[0] == '-' && IsDigitString(s[1..])
    ensures JsParseInt(s) == Some(-(ParseNat(s[1..]).value as int))
  {
    NegativeReadWhole(s);
  }

  /** A string without any decimal digit is `NaN`. */
  lemma JsParseIntNoDigit(s: string)
    requires NoDigit(s)
    ensures JsParseInt(s).None?
  {
    NoDigitIsNaN(s);
  }

  predicate IsDigitString(s: string) {
    |s| > 0 && forall i :: 0 <= i < |s| ==> IsDigit(s[i])
  }

  predicate NoDigit(s: string) {
    forall i :: 0 <= i < |s| ==> !IsDigit(s[i])
  }

  /** A decimal digit string passes the white space, sign and prefix steps
      untouched and is read whole. */
  lemma DigitStringReadWhole(s: string)
    ensures IsDigitString(s) ==>
              && SplitSign(TrimStart(s)) == (false, s)
              && SplitRadix(s) == (10, s)
              && LeadingDigits(s, 10) == s
              && ParseNat(s) == Some(DigitsValue(s, 10))
  {
    if IsDigitString(s) {
      assert TrimStart(s) == s;
      if |s| >= 2 {
        assert IsDigit(s[1]);
      }
      AllDigitsLead(s);
      DigitsValueIsParseNat(s);
    }
  }

  /** Without a decimal digit there is no `0x` prefix and no decimal digit
      to read, so the answer is `NaN`. */
  lemma NoDigitIsNaN(s: string)
    ensures NoDigit(s) ==>
              var u := SplitSign(TrimStart(s)).1;
              LeadingDigits(SplitRadix(u).1, SplitRadix(u).0) == ""
  {
    if NoDigit(s) {
      var t := TrimStart(s);
      var u := SplitSign(t).1;
      assert NoDigit(u) by {
        forall i | 0 <= i < |u|
          ensures !IsDigit(u[i])
        {
          if u == t {
            assert u[i] == s[|s| - |t| + i];
          } else {
            assert u[i] == s[|s| - |t| + 1 + i];
          }
        }
      }
      assert SplitRadix(u) == (10, u);
      if |u| > 0 {
        assert DigitIn(u[0], 10).None?;
      }
    }
  }

  lemma {:induction false} AllDigitsLead(s: string)
    requires forall i :: 0 <= i < |s| ==> IsDigit(s[i])
    ensures LeadingDigits(s, 10) == s
    decreases |s|
  {
    if |s| > 0 {
      AllDigitsLead(s[1..]);
    }
  }

  lemma {:induction false} DigitsValueIsParseNat(s: string)
    requires IsDigitString(s)
    ensures forall i :: 0 <= i < |s| ==> DigitIn(s[i], 10).Some?
    ensures ParseNat(s) == Some(DigitsValue(s, 10))
    decreases |s|
  {
    if |s| > 1 {
      DigitsValueIsParseNat(s[..|s| - 1]);
    }
  }

  /** `parseInt` reads back every integer its decimal rendering shows:
      the role id an edit form was filled with is the one it sends. */
  lemma JsParseIntToString(n: int)
    ensures JsParseInt(IntToString(n)) == Some(n)
  {
    var m := if n < 0 then -n else n;
    ParseNatToString(m);
    if n < 0 {
      assert IntToString(n)[1..] == NatToString(m);
      JsParseIntNegative(IntToString(n));
    } else {
      JsParseIntDigits(IntToString(n));
    }
  }

  /** A minus sign followed by decimal digits is read as a sign and the
      whole digit string. */
  lemma NegativeReadWhole(s: string)
    ensures |s| > 0 && s[0] == '-' && IsDigitString(s[1..]) ==>
              && SplitSign(TrimStart(s)) == (true, s[1..])
              && SplitRadix(s[1..]) == (10, s[1..])
              && LeadingDigits(s[1..], 10) == s[1..]
              && ParseNat(s[1..]) == Some(DigitsValue(s[1..], 10))
  {
    if |s| > 0 && s[0] == '-' && IsDigitString(s[1..]) {
      assert TrimStart(s) == s;
      DigitStringReadWhole(s[1..]);
    }
  }

  /** `parseInt` stops at the first character that is not a digit:
      `"2abc"` reads as 2. */
  lemma JsParseIntStopsAtLetter()
    ensures JsParseInt("2abc") == Some(2)
  {
    var s := "2abc";
    assert TrimStart(s) == s;
    assert SplitSign(s) == (false, s);
    assert SplitRadix(s) == (10, s);
    assert s[1..] == "abc";
    assert LeadingDigits("abc", 10) == "";
    assert LeadingDigits(s, 10) == "2";
    assert "2"[..0] == "";
    assert DigitsValue("2", 10) == 2;
  }

  /** After `0x` the digits are hexadecimal: `"0x1F"` reads as 31. */
  lemma JsParseIntHex()
    ensures JsParseInt("0x1F") == Some(31)
  {
    var s := "0x1F";
    assert TrimStart(s) == s;
    assert SplitSign(s) == (false, s);
    assert s[2..] == "1F";
    assert SplitRadix(s) == (16, "1F");
    HexDigitsOneF();
  }

  /** `"1F"` is two hexadecimal digits worth 31. */
  lemma HexDigitsOneF()
    ensures LeadingDigits("1F", 16) == "1F" && DigitsValue("1F", 16) == 31
  {
    assert DigitIn('F', 16) == Some(15) && DigitIn('1', 16) == Some(1);
    assert "1F"[1..] == "F";
    assert "F"[1..] == "";
    assert LeadingDigits("F", 16) == "F";
    assert "1F"[..1] == "1";
    assert "1"[..0] == "";
    assert DigitsValue("1", 16) == 1;
  }

  /** A string without digits is `NaN`. */
  lemma JsParseIntNaN()
    ensures JsParseInt("abc") == None
  {
    assert NoDigit("abc");
    JsParseIntNoDigit("abc");
  }
}
