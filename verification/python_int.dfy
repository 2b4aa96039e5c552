/** int(s, 16) on ASCII strings. */
module PythonInt {
  import opened Bytes
  import opened Att
  import opened Hex

  const INT_SPACE: string := " \t\n\r\U{000B}\U{000C}"

  predicate IsDigitOrSeparator(c: char) {
    IsHexDigit(c) || c == '_'
  }

  predicate AllSeparated(s: string) {
    forall i :: 0 <= i < |s| ==> IsDigitOrSeparator(s[i])
  }

  /** Digits, with single underscores between them. */
  predicate IsNumeral(s: string) {
    && s != "" && s[0] != '_' && s[|s| - 1] != '_'
    && AllSeparated(s)
    && (forall i :: 0 < i < |s| ==> s[i] != '_' || s[i - 1] != '_')
  }

  function Value(s: string): nat
    requires AllSeparated(s)
  {
    if s == "" then 0
    else
      var last := s[|s| - 1];
      assert IsDigitOrSeparator(last);
      if last == '_' then Value(s[..|s| - 1]) else 16 * Value(s[..|s| - 1]) + HexValue(last)
  }

  function AfterSign(s: string): string {
    if s != "" && s[0] in "+-" then s[1..] else s
  }

  /** The prefix may be set off by an underscore. */
  function AfterPrefix(s: string): string {
    if |s| >= 2 && s[0] == '0' && s[1] in "xX" then
      if |s| > 2 && s[2] == '_' then s[3..] else s[2..]
    else s
  }

  function IntBase16(s: string): Result<int, Failure> {
    var t := Strip(s, INT_SPACE);
    var digits := AfterPrefix(AfterSign(t));
    if !IsNumeral(digits) then Err(ValueError)
    else
      var v: int := Value(digits);
      Ok(if t[0] == '-' then -v else v)
  }

  lemma {:induction false} ValueOfHex(s: string)
    requires AllHex(s)
    ensures AllSeparated(s) && Value(s) == FromHex(s)
  {
    if s != "" {
      assert IsHexDigit(s[|s| - 1]);
      ValueOfHex(s[..|s| - 1]);
    }
  }

  /** Bare hexadecimal digits are read as what they denote. */
  lemma {:induction false} IntOfHex(s: string)
    requires s != "" && AllHex(s)
    ensures IntBase16(s) == Ok(FromHex(s))
  {
    assert IsHexDigit(s[0]) && IsHexDigit(s[|s| - 1]);
    assert Strip(s, INT_SPACE) == s;
    assert |s| >= 2 ==> IsHexDigit(s[1]);
    ValueOfHex(s);
  }

  lemma {:induction false} DigitsBehind(prefix: string, digits: string)
    requires prefix in {"+", "-", "0x", "0X"} && digits != "" && AllHex(digits)
    ensures Strip(prefix + digits, INT_SPACE) == prefix + digits
    ensures AfterPrefix(AfterSign(prefix + digits)) == digits
  {
    var s := prefix + digits;
    assert IsHexDigit(digits[0]) && s[|s| - 1] == digits[|digits| - 1] && IsHexDigit(digits[|digits| - 1]);
    assert |digits| >= 2 ==> IsHexDigit(digits[1]);
    if |prefix| == 1 {
      assert AfterSign(s) == s[1..] == digits;
      assert AfterPrefix(digits) == digits;
    } else {
      assert AfterSign(s) == s && s[2..] == digits;
    }
  }

  lemma {:induction false} HexIsNumeral(digits: string)
    requires digits != "" && AllHex(digits)
    ensures IsNumeral(digits)
  {
    assert IsHexDigit(digits[0]) && IsHexDigit(digits[|digits| - 1]);
  }

  /** A sign, or a prefix in either case, may come first. */
  lemma {:induction false} IntOfSigned(prefix: string, digits: string, v: int)
    requires prefix in {"+", "-", "0x", "0X"} && digits != "" && AllHex(digits) && v == FromHex(digits)
    ensures IntBase16(prefix + digits) == Ok(if prefix == "-" then -v else v)
  {
    DigitsBehind(prefix, digits);
    HexIsNumeral(digits);
    ValueOfHex(digits);
    assert (prefix + digits)[0] == prefix[0];
  }

  /** Single underscores between digits do not count; a numeral has no others. */
  lemma {:induction false} UnderscoreSkipped(a: string, b: string)
    requires AllSeparated(a) && AllSeparated(b)
    ensures AllSeparated(a + "_" + b) && AllSeparated(a + b) && Value(a + "_" + b) == Value(a + b)
  {
    if b == "" {
      assert a + "_" + b == a + "_" && (a + "_")[..|a|] == a && a + b == a;
    } else {
      var init, s, t := b[..|b| - 1], a + "_" + b, a + b;
      UnderscoreSkipped(a, init);
      assert s[..|s| - 1] == a + "_" + init && t[..|t| - 1] == a + init;
      assert s[|s| - 1] == t[|t| - 1] == b[|b| - 1];
    }
  }
}
