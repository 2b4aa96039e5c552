/** Hexadecimal numerals and the string operations that UUID parsing uses. */
module Hex {

  predicate IsHexDigit(c: char) {
    '0' <= c <= '9' || 'a' <= c <= 'f' || 'A' <= c <= 'F'
  }

  predicate IsLowerHexDigit(c: char) {
    '0' <= c <= '9' || 'a' <= c <= 'f'
  }

  predicate AllHex(s: string) {
    forall i :: 0 <= i < |s| ==> IsHexDigit(s[i])
  }

  predicate AllLowerHex(s: string) {
    forall i :: 0 <= i < |s| ==> IsLowerHexDigit(s[i])
  }

  function HexValue(c: char): (v: nat)
    requires IsHexDigit(c)
    ensures v < 16
  {
    if '0' <= c <= '9' then (c - '0') as int
    else if 'a' <= c <= 'f' then (c - 'a') as int + 10
    else (c - 'A') as int + 10
  }

  function HexDigit(v: nat): (c: char)
    requires v < 16
    ensures IsLowerHexDigit(c) && HexValue(c) == v
  {
    if v < 10 then '0' + (v as char) else 'a' + ((v - 10) as char)
  }

  function Pow16(n: nat): (p: nat)
    ensures p > 0
  {
    if n == 0 then 1 else 16 * Pow16(n - 1)
  }

  lemma {:induction false} Pow16Adds(m: nat, n: nat)
    ensures Pow16(m + n) == Pow16(m) * Pow16(n)
  {
    if m > 0 {
      Pow16Adds(m - 1, n);
      assert Pow16(m + n) == 16 * (Pow16(m - 1) * Pow16(n));
    }
  }

  /** The low n hexadecimal digits of v, most significant first, in lower case. */
  function ToHex(v: nat, n: nat): (s: string)
    ensures |s| == n && AllLowerHex(s)
  {
    if n == 0 then "" else ToHex(v / 16, n - 1) + [HexDigit(v % 16)]
  }

  function FromHex(s: string): nat
    requires AllHex(s)
  {
    if s == "" then 0 else 16 * FromHex(s[..|s| - 1]) + HexValue(s[|s| - 1])
  }

  lemma {:induction false} FromHexBound(s: string)
    requires AllHex(s)
    ensures FromHex(s) < Pow16(|s|)
  {
    if s != "" {
      FromHexBound(s[..|s| - 1]);
    }
  }

  lemma {:induction false} FromHexOfToHex(v: nat, n: nat)
    requires v < Pow16(n)
    ensures FromHex(ToHex(v, n)) == v
  {
    if n > 0 {
      FromHexOfToHex(v / 16, n - 1);
      var s := ToHex(v, n);
      assert s[..|s| - 1] == ToHex(v / 16, n - 1);
    }
  }

  lemma {:induction false} FromHexConcat(a: string, b: string)
    requires AllHex(a) && AllHex(b)
    ensures AllHex(a + b) && FromHex(a + b) == FromHex(a) * Pow16(|b|) + FromHex(b)
  {
    if b == "" {
      assert a + b == a;
    } else {
      var init, last := b[..|b| - 1], HexValue(b[|b| - 1]);
      FromHexConcat(a, init);
      assert (a + b)[..|a + b| - 1] == a + init && (a + b)[|a + b| - 1] == b[|b| - 1];
      Shift(FromHex(a), Pow16(|init|), FromHex(init), last);
    }
  }

  lemma {:induction false} Shift(a: int, p: int, b: int, d: int)
    ensures 16 * (a * p + b) + d == a * (16 * p) + (16 * b + d)
  {
  }

  /** A lower-case numeral is the one that its value is written with. */
  lemma {:induction false} ToHexOfFromHex(s: string)
    requires AllLowerHex(s)
    ensures ToHex(FromHex(s), |s|) == s
  {
    if s != "" {
      var init := s[..|s| - 1];
      ToHexOfFromHex(init);
      assert FromHex(s) / 16 == FromHex(init) && FromHex(s) % 16 == HexValue(s[|s| - 1]);
      assert s == init + [s[|s| - 1]];
    }
  }

  function LowerChar(c: char): char {
    if 'A' <= c <= 'Z' then c - 'A' + 'a' else c
  }

  function Lower(s: string): (r: string)
    ensures |r| == |s|
    ensures forall i :: 0 <= i < |s| ==> r[i] == LowerChar(s[i])
  {
    if s == "" then "" else [LowerChar(s[0])] + Lower(s[1..])
  }

  lemma {:induction false} LowerFixes(s: string)
    requires forall i :: 0 <= i < |s| ==> LowerChar(s[i]) == s[i]
    ensures Lower(s) == s
  {
  }

  /** The same but for the case of a letter. */
  predicate SameLetter(c: char, d: char) {
    c == d || ('A' <= c <= 'Z' && c as int + 32 == d as int) || ('A' <= d <= 'Z' && d as int + 32 == c as int)
  }

  predicate SameLetters(s: string, t: string) {
    |s| == |t| && forall i :: 0 <= i < |s| ==> SameLetter(s[i], t[i])
  }

  lemma {:induction false} LowerIgnoresCase(s: string, t: string)
    requires SameLetters(s, t)
    ensures Lower(s) == Lower(t)
  {
  }

  predicate HasNoLetters(chars: string) {
    forall c :: c in chars ==> !('A' <= c <= 'Z') && !('a' <= c <= 'z')
  }

  lemma {:induction false} StripIgnoresCase(s: string, t: string, chars: string)
    requires SameLetters(s, t) && HasNoLetters(chars)
    ensures SameLetters(Strip(s, chars), Strip(t, chars))
    decreases |s|
  {
    if s != "" {
      assert SameLetter(s[0], t[0]) && SameLetter(s[|s| - 1], t[|t| - 1]);
      if s[0] in chars {
        StripIgnoresCase(s[1..], t[1..], chars);
      } else if s[|s| - 1] in chars {
        StripIgnoresCase(s[..|s| - 1], t[..|t| - 1], chars);
      }
    }
  }

  lemma {:induction false} LowerHexDigits(s: string)
    requires AllHex(s)
    ensures AllLowerHex(Lower(s)) && SameLetters(s, Lower(s)) && FromHex(Lower(s)) == FromHex(s)
  {
    if s != "" {
      var init := s[..|s| - 1];
      LowerHexDigits(init);
      LowerInit(s);
      LowerDigit(s[|s| - 1]);
      assert Lower(s) == Lower(init) + [LowerChar(s[|s| - 1])];
    }
  }

  lemma {:induction false} LowerInit(s: string)
    requires s != ""
    ensures Lower(s) == Lower(s[..|s| - 1]) + [LowerChar(s[|s| - 1])]
  {
  }

  lemma {:induction false} LowerDigit(c: char)
    requires IsHexDigit(c)
    ensures IsLowerHexDigit(LowerChar(c)) && SameLetter(c, LowerChar(c)) && HexValue(LowerChar(c)) == HexValue(c)
  {
  }

  /** Only the ends are stripped. */
  lemma {:induction false} StripEnds(left: string, s: string, right: string, chars: string)
    requires forall c :: c in left || c in right ==> c in chars
    requires s != "" && s[0] !in chars && s[|s| - 1] !in chars
    ensures Strip(left + s + right, chars) == s
    decreases |left| + |right|
  {
    var whole := left + s + right;
    if left != "" {
      assert whole[1..] == left[1..] + s + right;
      StripEnds(left[1..], s, right, chars);
    } else if right != "" {
      assert whole[..|whole| - 1] == left + s + right[..|right| - 1];
      StripEnds(left, s, right[..|right| - 1], chars);
    } else {
      assert whole == s;
    }
  }

  /** s.strip(chars): the ends are trimmed while they are in the set. */
  function Strip(s: string, chars: string): (r: string)
    ensures |r| <= |s|
    decreases |s|
  {
    if s == "" then ""
    else if s[0] in chars then Strip(s[1..], chars)
    else if s[|s| - 1] in chars then Strip(s[..|s| - 1], chars)
    else s
  }

  /** s.replace(pat, ""): occurrences are removed from left to right. */
  function RemoveAll(s: string, pat: string): (r: string)
    requires pat != ""
    decreases |s|
  {
    if |s| < |pat| then s
    else if s[..|pat|] == pat then RemoveAll(s[|pat|..], pat)
    else [s[0]] + RemoveAll(s[1..], pat)
  }

  /** Removing a pattern with a character that does not occur changes nothing. */
  lemma {:induction false} RemoveAbsent(s: string, pat: string, i: nat)
    requires i < |pat| && pat[i] !in s
    ensures RemoveAll(s, pat) == s
    decreases |s|
  {
    if |s| >= |pat| {
      assert s[..|pat|][i] in s;
      RemoveAbsent(s[1..], pat, i);
      assert s == [s[0]] + s[1..];
    }
  }

  lemma {:induction false} RemoveCharConcat(a: string, b: string, c: char)
    ensures RemoveAll(a + b, [c]) == RemoveAll(a, [c]) + RemoveAll(b, [c])
    decreases |a|
  {
    if a == "" {
      assert a + b == b;
    } else {
      assert (a + b)[1..] == a[1..] + b;
      assert (a + b)[..1] == a[..1] == [a[0]];
      RemoveCharConcat(a[1..], b, c);
    }
  }
}
