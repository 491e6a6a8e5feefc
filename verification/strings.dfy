/** The string operations the components use: slicing, whitespace removal,
    ASCII case mapping, decimal rendering and single-character splitting. */
module Strings {

  /** The characters JavaScript's regular-expression class `\s` matches. */
  predicate IsSpace(c: char) {
    || c == ' ' || c == '\t' || c == '\n' || c == '\U{000B}' || c == '\U{000C}' || c == '\r'
    || c == '\U{00A0}' || c == '\U{1680}'
    || ('\U{2000}' <= c <= '\U{200A}')
    || c == '\U{2028}' || c == '\U{2029}' || c == '\U{202F}' || c == '\U{205F}'
    || c == '\U{3000}' || c == '\U{FEFF}'
  }

  predicate NoSpaces(s: string) {
    forall i :: 0 <= i < |s| ==> !IsSpace(s[i])
  }

  /** `s.replace(/\s+/g, '')`: every whitespace character removed. */
  function StripSpaces(s: string): (r: string)
    ensures |r| <= |s|
    ensures NoSpaces(r)
    ensures NoSpaces(s) ==> r == s
    decreases |s|
  {
    if s == [] then []
    else if IsSpace(s[0]) then StripSpaces(s[1..])
    else [s[0]] + StripSpaces(s[1..])
  }

  /** Whitespace removal works character by character: a single character is
      dropped exactly when it is whitespace, and a string split in two is
      stripped part by part, so what remains is the non-whitespace characters
      in their original order. */
  lemma {:induction false} StripSpacesPiecewise(a: string, b: string, c: char)
    ensures StripSpaces([c]) == if IsSpace(c) then [] else [c]
    ensures StripSpaces(a + b) == StripSpaces(a) + StripSpaces(b)
    decreases |a|
  {
    assert [c][1..] == [];
    if a != [] {
      assert (a + b)[1..] == a[1..] + b;
      assert (a + b)[0] == a[0];
      StripSpacesPiecewise(a[1..], b, c);
    } else {
      assert a + b == b;
    }
  }

  /** `s.substring(0, n)` and `s.slice(0, n)` for n >= 0. */
  function Take(s: string, n: nat): string {
    if n <= |s| then s[..n] else s
  }

  /** `s.slice(-n)` for n > 0: the last n characters, or all of a shorter s. */
  function TakeLast(s: string, n: nat): string {
    if n <= |s| then s[|s| - n..] else s
  }

  predicate IsLowerAscii(c: char) { 'a' <= c <= 'z' }
  predicate IsUpperAscii(c: char) { 'A' <= c <= 'Z' }

  function UpperChar(c: char): char {
    if IsLowerAscii(c) then (c as int - 32) as char else c
  }

  function LowerChar(c: char): char {
    if IsUpperAscii(c) then (c as int + 32) as char else c
  }

  /** `s.toUpperCase()`, restricted to the ASCII letters. */
  function Upper(s: string): (r: string)
    ensures |r| == |s|
    ensures forall i :: 0 <= i < |s| ==> r[i] == UpperChar(s[i])
  {
    seq(|s|, i requires 0 <= i < |s| => UpperChar(s[i]))
  }

  /** `s.toLowerCase()`, restricted to the ASCII letters. */
  function Lower(s: string): (r: string)
    ensures |r| == |s|
    ensures forall i :: 0 <= i < |s| ==> r[i] == LowerChar(s[i])
  {
    seq(|s|, i requires 0 <= i < |s| => LowerChar(s[i]))
  }

  predicate IsDigit(c: char) { '0' <= c <= '9' }

  predicate AllDigits(s: string) {
    forall i :: 0 <= i < |s| ==> IsDigit(s[i])
  }

  function DigitChar(d: nat): (c: char)
    requires d < 10
  {
    ('0' as int + d) as char
  }

  function DigitValue(c: char): nat
    requires IsDigit(c)
  {
    c as int - '0' as int
  }

  /** The decimal form of a natural number, as a template literal prints it. */
  function NatToDecimal(n: nat): (r: string)
    ensures 1 <= |r|
    ensures AllDigits(r)
    ensures n < 10 <==> |r| == 1
    ensures r[0] == '0' ==> n == 0
    decreases n
  {
    if n < 10 then [DigitChar(n)]
    else
      var head := NatToDecimal(n / 10);
      assert (head + [DigitChar(n % 10)])[0] == head[0];
      head + [DigitChar(n % 10)]
  }

  /** Reads a string of decimal digits back as a number. */
  function ParseDecimal(s: string): nat
    requires AllDigits(s)
    decreases |s|
  {
    if s == [] then 0 else ParseDecimal(s[..|s| - 1]) * 10 + DigitValue(s[|s| - 1])
  }

  /** Rendering a number in decimal loses nothing: it reads back as itself. */
  lemma {:induction false} DecimalRoundTrip(n: nat)
    ensures ParseDecimal(NatToDecimal(n)) == n
    decreases n
  {
    if n >= 10 {
      var s := NatToDecimal(n);
      DecimalRoundTrip(n / 10);
      assert s[..|s| - 1] == NatToDecimal(n / 10);
    }
  }

  /** `s.split(c).pop()`: the part after the last occurrence of c, or all of s. */
  function AfterLast(s: string, c: char): (r: string)
    ensures |r| <= |s|
    ensures r == s[|s| - |r|..]
    ensures c !in r
    ensures |r| < |s| ==> s[|s| - |r| - 1] == c
    decreases |s|
  {
    if s == [] then []
    else if s[|s| - 1] == c then []
    else
      var init, last := s[..|s| - 1], s[|s| - 1];
      var t := AfterLast(init, c);
      assert s == init + [last];
      SuffixStep(init, last, t, c);
      t + [last]
  }

  /** The step of `AfterLast`: a suffix free of c grows by a last character
      other than c. */
  lemma SuffixStep(init: string, last: char, t: string, c: char)
    requires |t| <= |init| && t == init[|init| - |t|..] && c !in t && last != c
    requires |t| < |init| ==> init[|init| - |t| - 1] == c
    ensures var s, r := init + [last], t + [last];
      && |r| <= |s| && r == s[|s| - |r|..] && c !in r
      && (|r| < |s| ==> s[|s| - |r| - 1] == c)
  {
    var s := init + [last];
    assert s[|s| - |t| - 1..] == init[|init| - |t|..] + [last];
  }

  /** `s.split(c)[0]`: the part before the first occurrence of c, or all of s. */
  function BeforeFirst(s: string, c: char): (r: string)
    ensures |r| <= |s|
    ensures r == s[..|r|]
    ensures c !in r
    ensures |r| < |s| ==> s[|r|] == c
    decreases |s|
  {
    if s == [] then []
    else if s[0] == c then []
    else [s[0]] + BeforeFirst(s[1..], c)
  }

  /** Splitting at c and keeping the last part recovers a c-free tail. */
  lemma {:induction false} AfterLastSplit(p: string, tail: string, c: char)
    requires c !in tail
    ensures AfterLast(p + [c] + tail, c) == tail
    decreases |tail|
  {
    var s := p + [c] + tail;
    if tail == [] {
      assert s[|s| - 1] == c;
    } else {
      var init := tail[..|tail| - 1];
      var last := tail[|tail| - 1];
      assert tail == init + [last];
      assert last != c;
      assert s[|s| - 1] == last;
      assert s[..|s| - 1] == p + [c] + init;
      AfterLastSplit(p, init, c);
    }
  }

  /** Splitting at c and keeping the first part recovers a c-free head. */
  lemma {:induction false} BeforeFirstSplit(head: string, rest: string, c: char)
    requires c !in head
    ensures BeforeFirst(head + [c] + rest, c) == head
    decreases |head|
  {
    if head != [] {
      BeforeFirstSplit(head[1..], rest, c);
      assert (head + [c] + rest)[1..] == head[1..] + [c] + rest;
    }
  }

  /** Lower-casing forgets the case a string was written in. */
  lemma LowerForgetsCase(s: string)
    ensures Lower(Upper(s)) == Lower(s)
    ensures Lower(Lower(s)) == Lower(s)
  {
  }
}
