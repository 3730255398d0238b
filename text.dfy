/** String helpers with JavaScript's meaning: `trim`, `trimEnd`, `toLowerCase`,
    `includes`, `startsWith`, `String(n)` and `padStart(2, '0')`. */
module Text {

  /** The characters JavaScript's `trim` removes: WhiteSpace and LineTerminator
      (ECMAScript 2023, sections 12.2 and 12.3). */
  predicate IsSpace(c: char) {
    || c == ' ' || c == '\t' || c == '\n' || c == '\r'
    || c == '\U{000B}' || c == '\U{000C}' || c == '\U{00A0}' || c == '\U{1680}'
    || ('\U{2000}' <= c <= '\U{200A}')
    || c == '\U{2028}' || c == '\U{2029}' || c == '\U{202F}' || c == '\U{205F}'
    || c == '\U{3000}' || c == '\U{FEFF}'
  }

  predicate AllSpace(s: string) {
    forall i :: 0 <= i < |s| ==> IsSpace(s[i])
  }

  /** `s.trimStart()`: `s` without its leading white space. */
  function TrimStart(s: string): (r: string)
    ensures |r| <= |s|
  {
    if |s| > 0 && IsSpace(s[0]) then TrimStart(s[1..]) else s
  }

  /** What `TrimStart` keeps is the longest suffix of `s` that does not start
      with white space. */
  lemma {:induction false} TrimStartSpec(s: string)
    ensures var r := TrimStart(s);
      && r == s[|s| - |r|..]
      && AllSpace(s[..|s| - |r|])
      && (r == [] || !IsSpace(r[0]))
  {
    if |s| > 0 && IsSpace(s[0]) {
      var t := TrimStart(s[1..]);
      TrimStartSpec(s[1..]);
      assert s[1..][|s| - 1 - |t|..] == s[|s| - |t|..];
      assert s[1..][..|s| - 1 - |t|] == s[1..|s| - |t|];
    }
  }

  /** `s.trimEnd()`: `s` without its trailing white space. */
  function TrimEnd(s: string): (r: string)
    ensures |r| <= |s|
  {
    if |s| > 0 && IsSpace(s[|s| - 1]) then TrimEnd(s[..|s| - 1]) else s
  }

  /** What `TrimEnd` keeps is the longest prefix of `s` that does not end with
      white space. */
  lemma {:induction false} TrimEndSpec(s: string)
    ensures var r := TrimEnd(s);
      && r == s[..|r|]
      && AllSpace(s[|r|..])
      && (r == [] || !IsSpace(r[|r| - 1]))
  {
    if |s| > 0 && IsSpace(s[|s| - 1]) {
      var t := TrimEnd(s[..|s| - 1]);
      TrimEndSpec(s[..|s| - 1]);
      assert s[..|s| - 1][..|t|] == s[..|t|];
      assert s[..|s| - 1][|t|..] == s[|t|..|s| - 1];
    }
  }

  /** `s.trim()`: `s` without its leading and trailing white space. */
  function Trim(s: string): (r: string)
    ensures |r| <= |s|
    ensures r == [] || (!IsSpace(r[0]) && !IsSpace(r[|r| - 1]))
  {
    var a := TrimStart(s);
    TrimStartSpec(s);
    TrimEndSpec(a);
    assert TrimEnd(a) != [] ==> TrimEnd(a)[0] == a[0];
    TrimEnd(a)
  }

  /** Trimming yields the empty string exactly when the input is all white space. */
  lemma TrimEmptyIff(s: string)
    ensures Trim(s) == [] <==> AllSpace(s)
  {
    var a := TrimStart(s);
    TrimStartSpec(s);
    TrimEndSpec(a);
    if Trim(s) == [] {
      assert a == [];
      assert s[..|s|] == s;
    }
  }

  /** Trimming a string twice changes nothing more. */
  lemma TrimIdempotent(s: string)
    ensures Trim(Trim(s)) == Trim(s)
  {
    var t := Trim(s);
    if t != [] {
      assert !IsSpace(t[0]);
      assert TrimStart(t) == t;
      assert !IsSpace(t[|t| - 1]);
      assert TrimEnd(t) == t;
    }
  }

  /** ASCII case folding: `A`..`Z` become `a`..`z`, every other character is kept. */
  function LowerChar(c: char): (r: char)
    ensures 'A' <= c <= 'Z' ==> r as int == c as int + 32
    ensures !('A' <= c <= 'Z') ==> r == c
  {
    if 'A' <= c <= 'Z' then (c as int + 32) as char else c
  }

  /** `s.toLowerCase()` restricted to ASCII letters. */
  function ToLower(s: string): (r: string)
    ensures |r| == |s|
    ensures forall i :: 0 <= i < |s| ==> r[i] == LowerChar(s[i])
  {
    seq(|s|, i requires 0 <= i < |s| => LowerChar(s[i]))
  }

  /** Lower-casing a second time changes nothing. */
  lemma ToLowerIdempotent(s: string)
    ensures ToLower(ToLower(s)) == ToLower(s)
  {
    var t := ToLower(s);
    assert forall i :: 0 <= i < |t| ==> ToLower(t)[i] == t[i];
  }

  /** `s.trim().toLowerCase()`. */
  function TrimLower(s: string): (r: string)
    ensures |r| <= |s|
    ensures r == [] <==> AllSpace(s)
  {
    TrimEmptyIff(s);
    ToLower(Trim(s))
  }

  predicate IsPrefix(p: string, s: string) {
    |p| <= |s| && s[..|p|] == p
  }

  /** A prefix made of two parts is the first part followed by the second. */
  lemma PrefixConcat(p: string, q: string, s: string)
    ensures IsPrefix(p + q, s) <==> IsPrefix(p, s) && IsPrefix(q, s[|p|..])
  {
    if IsPrefix(p, s) && IsPrefix(q, s[|p|..]) {
      assert s[..|p| + |q|] == s[..|p|] + s[|p|..][..|q|];
    }
    if IsPrefix(p + q, s) {
      var t := s[..|p| + |q|];
      assert t[..|p|] == s[..|p|] && t[..|p|] == (p + q)[..|p|] == p;
      assert t[|p|..] == s[|p|..][..|q|] && t[|p|..] == (p + q)[|p|..] == q;
    }
  }

  /** `s.includes(sub)`: some window of `s` equals `sub`. */
  function Contains(s: string, sub: string): (r: bool)
    ensures r <==> exists i :: 0 <= i <= |s| - |sub| && IsPrefix(sub, s[i..])
    decreases |s|
  {
    if IsPrefix(sub, s) then
      assert s[0..] == s;
      true
    else if |s| <= |sub| then
      assert forall i :: 0 <= i <= |s| - |sub| ==> i == 0 && s[i..] == s;
      false
    else
      var r := Contains(s[1..], sub);
      assert forall i :: 1 <= i <= |s| ==> s[1..][i - 1..] == s[i..];
      r
  }

  function DigitChar(d: nat): char
    requires d < 10
  {
    (('0' as int) + d) as char
  }

  predicate IsDigit(c: char) {
    '0' <= c <= '9'
  }

  predicate AllDigits(s: string) {
    forall i :: 0 <= i < |s| ==> IsDigit(s[i])
  }

  /** `String(n)` for a non-negative integer: its decimal digits, without leading zeros. */
  function NatToString(n: nat): (r: string)
    ensures |r| >= 1 && AllDigits(r)
    ensures |r| > 1 ==> r[0] != '0'
    ensures |r| == 1 <==> n < 10
  {
    if n < 10 then [DigitChar(n)] else NatToString(n / 10) + [DigitChar(n % 10)]
  }

  /** The number a string of decimal digits denotes (the inverse of `NatToString`). */
  function DigitsValue(s: string): nat
    requires AllDigits(s)
  {
    if s == [] then 0 else DigitsValue(s[..|s| - 1]) * 10 + (s[|s| - 1] as int - '0' as int)
  }

  lemma {:induction false} DigitsValueOfNatToString(n: nat)
    ensures DigitsValue(NatToString(n)) == n
  {
    var r := NatToString(n);
    if n >= 10 {
      DigitsValueOfNatToString(n / 10);
      assert r[..|r| - 1] == NatToString(n / 10);
    }
  }

  /** Different numbers have different decimal forms. */
  lemma NatToStringInjective(a: nat, b: nat)
    ensures NatToString(a) == NatToString(b) ==> a == b
  {
    DigitsValueOfNatToString(a);
    DigitsValueOfNatToString(b);
  }

  /** `String(i)` for any integer: a minus sign before the digits of a negative one. */
  function IntToString(i: int): (r: string)
    ensures i >= 0 ==> r == NatToString(i)
    ensures i < 0 ==> r == "-" + NatToString(-i)
  {
    if i < 0 then "-" + NatToString(-i) else NatToString(i)
  }

  /** `String(n).padStart(2, '0')`. */
  function Pad2(n: nat): (r: string)
    ensures AllDigits(r)
    ensures n < 100 ==> |r| == 2 && DigitsValue(r) == n
    ensures n >= 100 ==> r == NatToString(n)
  {
    var d := NatToString(n);
    if |d| < 2 then
      assert DigitsValue(d) == n by { DigitsValueOfNatToString(n); }
      assert ("0" + d)[..1] == "0";
      "0" + d
    else
      assert DigitsValue(d) == n by { DigitsValueOfNatToString(n); }
      d
  }
}
