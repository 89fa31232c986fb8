/** String helpers standing in for the parts of Rust's `str`, `String` and
    `format!` that the model needs: decimal formatting of integers, `trim`,
    lower-casing, character replacement and `str::replace`. */
module Text {

  predicate IsDigit(c: char) {
    '0' <= c <= '9'
  }

  predicate AllDigits(s: string) {
    forall i :: 0 <= i < |s| ==> IsDigit(s[i])
  }

  function DigitChar(d: nat): (c: char)
    requires d < 10
    ensures IsDigit(c)
  {
    ['0', '1', '2', '3', '4', '5', '6', '7', '8', '9'][d]
  }

  function DigitValue(c: char): (d: nat)
    requires IsDigit(c)
    ensures d < 10
  {
    (c as int - '0' as int) as nat
  }

  lemma DigitValueOfChar(d: nat)
    requires d < 10
    ensures DigitValue(DigitChar(d)) == d
  {
  }

  /** Decimal rendering of a natural number, as `{}` formats an unsigned integer:
      no padding, no leading zeros. */
  function NatToString(n: nat): (s: string)
    ensures |s| > 0 && AllDigits(s)
    decreases n
  {
    if n < 10 then [DigitChar(n)] else NatToString(n / 10) + [DigitChar(n % 10)]
  }

  /** Decimal rendering of a signed integer, as `{}` formats an `i32`. */
  function IntToString(i: int): string {
    if i < 0 then "-" + NatToString(-i) else NatToString(i)
  }

  /** Value of a string of decimal digits. */
  function DigitsValue(s: string): nat
    requires AllDigits(s)
  {
    if |s| == 0 then 0 else DigitsValue(s[..|s| - 1]) * 10 + DigitValue(s[|s| - 1])
  }

  /** Reading back what NatToString wrote gives the number again. */
  lemma {:induction false} DigitsValueOfNatToString(n: nat)
    ensures DigitsValue(NatToString(n)) == n
    decreases n
  {
    var s := NatToString(n);
    if n < 10 {
      DigitValueOfChar(n);
    } else {
      DigitsValueOfNatToString(n / 10);
      DigitValueOfChar(n % 10);
      assert s[..|s| - 1] == NatToString(n / 10);
    }
  }

  /** Decimal rendering of `n` padded with leading zeros to at least `w`
      characters, as `{:0w}` formats an unsigned integer. */
  function Pad(n: nat, w: nat): (s: string)
    ensures AllDigits(s)
    ensures |s| == if |NatToString(n)| < w then w else |NatToString(n)|
  {
    var d := NatToString(n);
    if |d| < w then Zeros(w - |d|) + d else d
  }

  function Zeros(k: nat): (s: string)
    ensures |s| == k && forall i :: 0 <= i < k ==> s[i] == '0'
  {
    if k == 0 then "" else "0" + Zeros(k - 1)
  }

  /** Leading zeros do not change the value of a digit string. */
  lemma {:induction false} DigitsValueZeros(k: nat, d: string)
    requires AllDigits(d)
    ensures AllDigits(Zeros(k) + d) && DigitsValue(Zeros(k) + d) == DigitsValue(d)
    decreases |d|
  {
    var s := Zeros(k) + d;
    if |d| == 0 {
      assert s == Zeros(k);
      ZerosValue(k);
    } else {
      assert s[..|s| - 1] == Zeros(k) + d[..|d| - 1];
      DigitsValueZeros(k, d[..|d| - 1]);
    }
  }

  lemma {:induction false} ZerosValue(k: nat)
    ensures DigitsValue(Zeros(k)) == 0
  {
    if k > 0 {
      var z := Zeros(k);
      assert z[..k - 1] == Zeros(k - 1) by {
        assert z == "0" + Zeros(k - 1);
        ZerosSnoc(k - 1);
      }
      ZerosValue(k - 1);
    }
  }

  lemma ZerosSnoc(k: nat)
    ensures ("0" + Zeros(k))[..k] == Zeros(k)
  {
  }

  /** A padded number reads back as the number. */
  lemma PadValue(n: nat, w: nat)
    ensures DigitsValue(Pad(n, w)) == n
  {
    DigitsValueOfNatToString(n);
    var d := NatToString(n);
    if |d| < w {
      assert Pad(n, w) == Zeros(w - |d|) + d;
      DigitsValueZeros(w - |d|, d);
    } else {
      assert Pad(n, w) == d;
    }
  }

  /** How many digits `{}` writes for a number below 100 000. */
  lemma {:induction false} NatToStringLength(n: nat)
    ensures |NatToString(n)| == 1 <==> n < 10
    ensures |NatToString(n)| == 2 <==> 10 <= n < 100
    ensures |NatToString(n)| == 4 <==> 1000 <= n < 10000
    ensures |NatToString(n)| <= 2 <==> n < 100
    ensures |NatToString(n)| <= 4 <==> n < 10000
    decreases n
  {
    if n >= 10 {
      NatToStringLength(n / 10);
    }
  }

  /** `char::is_whitespace`, the Unicode White_Space property that
      `str::trim` strips. */
  predicate IsSpace(c: char) {
    || ('\t' <= c <= '\r')
    || c == ' '
    || c == '\U{0085}'
    || c == '\U{00A0}'
    || c == '\U{1680}'
    || ('\U{2000}' <= c <= '\U{200A}')
    || c == '\U{2028}' || c == '\U{2029}'
    || c == '\U{202F}' || c == '\U{205F}'
    || c == '\U{3000}'
  }

  function TrimStart(s: string): (r: string)
    ensures |r| <= |s| && r == s[|s| - |r|..]
    ensures |r| > 0 ==> !IsSpace(r[0])
    ensures forall i :: 0 <= i < |s| - |r| ==> IsSpace(s[i])
  {
    if |s| > 0 && IsSpace(s[0]) then TrimStart(s[1..]) else s
  }

  function TrimEnd(s: string): (r: string)
    ensures |r| <= |s| && r == s[..|r|]
    ensures |r| > 0 ==> !IsSpace(r[|r| - 1])
    ensures forall i :: |r| <= i < |s| ==> IsSpace(s[i])
  {
    if |s| > 0 && IsSpace(s[|s| - 1]) then TrimEnd(s[..|s| - 1]) else s
  }

  /** `str::trim`: white space removed from both ends. */
  function Trim(s: string): string {
    TrimEnd(TrimStart(s))
  }

  /** Trimming a string that has no white space at either end leaves it alone. */
  lemma TrimOfTrimmed(s: string)
    requires |s| > 0 ==> !IsSpace(s[0]) && !IsSpace(s[|s| - 1])
    ensures Trim(s) == s
  {
  }

  /** Trimming twice is trimming once. */
  lemma TrimIdempotent(s: string)
    ensures Trim(Trim(s)) == Trim(s)
  {
    var t := Trim(s);
    var u := TrimStart(s);
    assert t == TrimEnd(u);
    assert |t| > 0 ==> t[0] == u[0];
    TrimOfTrimmed(t);
  }

  /** The lower-case letter `char::to_lowercase` gives for an upper-case
      letter of the Basic Latin, Latin-1, Latin Extended-A, Greek and Cyrillic
      blocks; any other character is kept. Two letters of these blocks are
      not mapped: `İ` (U+0130), which lower-cases to two characters, and `Σ`
      (U+03A3), whose lower case depends on the letters around it. */
  function ToLowerChar(c: char): char {
    var n := c as int;
    if 'A' <= c <= 'Z' then (n + 32) as char
    else if n < 0xC0 then c
    // Latin-1: À..Ö and Ø..Þ
    else if n <= 0xDE then (if n == 0xD7 then c else (n + 32) as char)
    else if n < 0x100 then c
    // Latin Extended-A: upper case at the even code point of each pair,
    // except in Ĺ..ň and Ź..ž, where it is at the odd one
    else if n <= 0x12F || 0x132 <= n <= 0x137 || 0x14A <= n <= 0x177 then
      (if n % 2 == 0 then (n + 1) as char else c)
    else if 0x139 <= n <= 0x148 || 0x179 <= n <= 0x17E then
      (if n % 2 == 1 then (n + 1) as char else c)
    else if n == 0x178 then '\U{00FF}'
    // Greek: the accented capitals, then Α..Ρ and Τ..Ϋ
    else if n == 0x386 then '\U{03AC}'
    else if 0x388 <= n <= 0x38A then (n + 37) as char
    else if n == 0x38C then '\U{03CC}'
    else if n == 0x38E || n == 0x38F then (n + 63) as char
    else if 0x391 <= n <= 0x3A1 || 0x3A4 <= n <= 0x3AB then (n + 32) as char
    // Cyrillic: Ѐ..Џ and А..Я
    else if 0x400 <= n <= 0x40F then (n + 80) as char
    else if 0x410 <= n <= 0x42F then (n + 32) as char
    else c
  }

  /** Lower-casing maps a space, and only a space, to a space. */
  lemma ToLowerCharSpace(c: char)
    ensures ToLowerChar(c) == ' ' <==> c == ' '
  {
  }

  /** `str::to_lowercase`, letter by letter, with `ToLowerChar`. */
  function ToLower(s: string): (r: string)
    ensures |r| == |s|
    ensures forall i :: 0 <= i < |s| ==> r[i] == ToLowerChar(s[i])
  {
    if |s| == 0 then "" else [ToLowerChar(s[0])] + ToLower(s[1..])
  }

  /** `str::replace(from, to)` for single characters. */
  function ReplaceChar(s: string, from: char, to: char): (r: string)
    ensures |r| == |s|
    ensures forall i :: 0 <= i < |s| ==> r[i] == if s[i] == from then to else s[i]
  {
    if |s| == 0 then "" else [if s[0] == from then to else s[0]] + ReplaceChar(s[1..], from, to)
  }

  predicate OccursAt(pat: string, s: string, i: nat) {
    i + |pat| <= |s| && s[i..i + |pat|] == pat
  }

  predicate Contains(s: string, pat: string) {
    exists i: nat | i <= |s| :: OccursAt(pat, s, i)
  }

  /** `str::replace(pat, rep)`: every non-overlapping occurrence of `pat`,
      scanning from the left, becomes `rep`. */
  function ReplaceAll(s: string, pat: string, rep: string): string
    requires |pat| > 0
    decreases |s|
  {
    if |s| == 0 then ""
    else if |pat| <= |s| && s[..|pat|] == pat then rep + ReplaceAll(s[|pat|..], pat, rep)
    else [s[0]] + ReplaceAll(s[1..], pat, rep)
  }

  /** A string without the pattern comes back unchanged. */
  lemma {:induction false} ReplaceAllAbsent(s: string, pat: string, rep: string)
    requires |pat| > 0 && !Contains(s, pat)
    ensures ReplaceAll(s, pat, rep) == s
    decreases |s|
  {
    if |s| > 0 {
      if |pat| <= |s| && s[..|pat|] == pat {
        assert OccursAt(pat, s, 0);
      } else {
        if Contains(s[1..], pat) {
          var i: nat :| i <= |s[1..]| && OccursAt(pat, s[1..], i);
          assert s[1..][i..i + |pat|] == s[i + 1..i + 1 + |pat|];
          assert OccursAt(pat, s, i + 1);
        }
        ReplaceAllAbsent(s[1..], pat, rep);
      }
    }
  }

  /** The first occurrence of the pattern is replaced, and the scan goes on
      after it. */
  lemma {:induction false} ReplaceAllFirst(a: string, pat: string, rest: string, rep: string)
    requires |pat| > 0
    requires forall i: nat :: i < |a| ==> !OccursAt(pat, a + pat + rest, i)
    ensures ReplaceAll(a + pat + rest, pat, rep) == a + rep + ReplaceAll(rest, pat, rep)
    decreases |a|
  {
    var s := a + pat + rest;
    if |a| == 0 {
      assert s == pat + rest;
      assert s[..|pat|] == pat;
      assert s[|pat|..] == rest;
    } else {
      assert !OccursAt(pat, s, 0);
      var t := a[1..] + pat + rest;
      assert s[1..] == t;
      forall i: nat | i < |a[1..]|
        ensures !OccursAt(pat, t, i)
      {
        OccursShift(pat, s, i);
      }
      ReplaceAllFirst(a[1..], pat, rest, rep);
      assert ReplaceAll(s, pat, rep) == [s[0]] + ReplaceAll(t, pat, rep);
      assert [s[0]] + a[1..] == a;
    }
  }

  /** An occurrence in the tail is an occurrence one place further on. */
  lemma OccursShift(pat: string, s: string, i: nat)
    requires |s| > 0
    ensures OccursAt(pat, s[1..], i) <==> OccursAt(pat, s, i + 1)
  {
    if i + 1 + |pat| <= |s| {
      assert s[1..][i..i + |pat|] == s[i + 1..i + 1 + |pat|];
    }
  }

  /** Concatenation of a sequence of strings. */
  function Concat(ss: seq<string>): string {
    if |ss| == 0 then "" else Concat(ss[..|ss| - 1]) + ss[|ss| - 1]
  }

  lemma ConcatAppend(ss: seq<string>, s: string)
    ensures Concat(ss + [s]) == Concat(ss) + s
  {
    assert (ss + [s])[..|ss|] == ss;
  }
}
