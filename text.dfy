/** String helpers the bot relies on from JavaScript's standard library:
    `toLowerCase` (on ASCII letters), `trim`, `Number.prototype.toString` for
    non-negative integers and `padStart`. */
module Text {

  predicate IsDigit(c: char) {
    '0' <= c <= '9'
  }

  predicate AllDigits(s: string) {
    forall i :: 0 <= i < |s| ==> IsDigit(s[i])
  }

  function LowerChar(c: char): char {
    if 'A' <= c <= 'Z' then (c as int - 'A' as int + 'a' as int) as char else c
  }

  /** `String.prototype.toLowerCase`, restricted to the ASCII letters. */
  function Lower(s: string): (r: string)
    ensures |r| == |s|
    ensures forall i :: 0 <= i < |s| ==> r[i] == LowerChar(s[i])
  {
    seq(|s|, i requires 0 <= i < |s| => LowerChar(s[i]))
  }

  /** Lower-casing works character by character, so it distributes over concatenation. */
  lemma LowerAppend(a: string, b: string)
    ensures Lower(a + b) == Lower(a) + Lower(b)
  {
    assert forall i :: 0 <= i < |a + b| ==> Lower(a + b)[i] == (Lower(a) + Lower(b))[i];
  }

  /** A character that lower-cases to a digit was that digit. */
  lemma {:induction false} LowerOfDigits(input: string, digits: string)
    requires AllDigits(digits)
    requires Lower(input) == digits
    ensures input == digits
  {
    forall i | 0 <= i < |input|
      ensures input[i] == digits[i]
    {
      assert LowerChar(input[i]) == digits[i];
    }
  }

  /** The index of the first occurrence of `c`, or the length when there is none. */
  function IndexOf(s: string, c: char): (i: nat)
    ensures i <= |s|
    ensures c !in s[..i]
  {
    if s == [] || s[0] == c then 0 else 1 + IndexOf(s[1..], c)
  }

  /** In `prefix + [c] + rest`, with no `c` in the prefix, the first `c` ends the prefix. */
  lemma {:induction false} IndexOfAfter(prefix: string, c: char, rest: string)
    requires c !in prefix
    ensures IndexOf(prefix + [c] + rest, c) == |prefix|
  {
    if prefix != [] {
      assert (prefix + [c] + rest)[1..] == prefix[1..] + [c] + rest;
      IndexOfAfter(prefix[1..], c, rest);
    }
  }

  // ---------------------------------------------------------------------------
  // String.prototype.length

  /** The number of UTF-16 code units a character takes: two (a surrogate
      pair) above U+FFFF, one otherwise. */
  function Utf16Units(c: char): nat {
    if c >= '\U{10000}' then 2 else 1
  }

  /** `.length` of a JavaScript string, which counts UTF-16 code units. */
  function Utf16Length(s: string): nat {
    Utf16PrefixLength(s, |s|)
  }

  /** The UTF-16 length of the first `n` characters of `s`. */
  function Utf16PrefixLength(s: string, n: nat): (units: nat)
    requires n <= |s|
    ensures n <= units <= 2 * n
  {
    if n == 0 then 0 else Utf16PrefixLength(s, n - 1) + Utf16Units(s[n - 1])
  }

  /** The first characters of `a + b` that lie in `a` measure as in `a`. */
  lemma {:induction false} Utf16PrefixOfLeft(a: string, b: string, n: nat)
    requires n <= |a|
    ensures Utf16PrefixLength(a + b, n) == Utf16PrefixLength(a, n)
  {
    if n > 0 {
      Utf16PrefixOfLeft(a, b, n - 1);
    }
  }

  lemma {:induction false} Utf16PrefixOfRight(a: string, b: string, n: nat)
    requires n <= |b|
    ensures Utf16PrefixLength(a + b, |a| + n) == Utf16Length(a) + Utf16PrefixLength(b, n)
  {
    if n == 0 {
      Utf16PrefixOfLeft(a, b, |a|);
    } else {
      Utf16PrefixOfRight(a, b, n - 1);
    }
  }

  lemma Utf16LengthAppend(a: string, b: string)
    ensures Utf16Length(a + b) == Utf16Length(a) + Utf16Length(b)
  {
    Utf16PrefixOfRight(a, b, |b|);
  }

  /** Empty exactly when the string is: `current.length` is falsy only for
      the empty string. */
  lemma Utf16LengthZero(s: string)
    ensures Utf16Length(s) == 0 <==> s == []
  {
  }

  // ---------------------------------------------------------------------------
  // String.prototype.trim

  /** The characters `trim` removes: ECMAScript's WhiteSpace (TAB, VT, FF,
      ZWNBSP and every space separator of category Zs) and LineTerminator
      (LF, CR, LS, PS). */
  predicate IsJsSpace(c: char) {
    || c == '\t' || c == '\n' || c == '\U{000B}' || c == '\U{000C}' || c == '\r'
    || c == ' ' || c == '\U{00A0}' || c == '\U{1680}'
    || ('\U{2000}' <= c <= '\U{200A}')
    || c == '\U{2028}' || c == '\U{2029}' || c == '\U{202F}' || c == '\U{205F}'
    || c == '\U{3000}' || c == '\U{FEFF}'
  }

  function TrimStart(s: string): (r: string)
    ensures |r| <= |s| && r == s[|s| - |r|..]
    ensures forall k :: 0 <= k < |s| - |r| ==> IsJsSpace(s[k])
    ensures r == [] || !IsJsSpace(r[0])
  {
    if s != [] && IsJsSpace(s[0]) then
      var r := TrimStart(s[1..]);
      assert forall k :: 1 <= k < |s| - |r| ==> s[k] == s[1..][k - 1];
      r
    else s
  }

  function TrimEnd(s: string): (r: string)
    ensures |r| <= |s| && r == s[..|r|]
    ensures forall k :: |r| <= k < |s| ==> IsJsSpace(s[k])
    ensures r == [] || !IsJsSpace(r[|r| - 1])
  {
    if s != [] && IsJsSpace(s[|s| - 1]) then
      var r := TrimEnd(s[..|s| - 1]);
      assert forall k :: |r| <= k < |s| - 1 ==> s[k] == s[..|s| - 1][k];
      r
    else s
  }

  /** Everything in `s` before index `a` and from index `b` on is white space. */
  predicate OnlySpacesOutside(s: string, a: nat, b: nat)
    requires a <= b <= |s|
  {
    && (forall k :: 0 <= k < a ==> IsJsSpace(s[k]))
    && (forall k :: b <= k < |s| ==> IsJsSpace(s[k]))
  }

  /** `String.prototype.trim`: the input without the white space around it
      (see `TrimIsSlice` and `TrimPadded`). */
  function Trim(s: string): (r: string)
    ensures |r| <= |s|
    ensures r == [] || (!IsJsSpace(r[0]) && !IsJsSpace(r[|r| - 1]))
  {
    TrimEnd(TrimStart(s))
  }

  /** What `trim` removes is exactly white space: its result is a slice of the
      input with nothing but white space before and after it. An input made
      only of white space therefore trims to the empty string. */
  lemma TrimIsSlice(s: string)
    ensures exists a, b :: 0 <= a <= b <= |s| && Trim(s) == s[a..b] && OnlySpacesOutside(s, a, b)
  {
    var t := TrimStart(s);
    var a := |s| - |t|;
    var b := a + |Trim(s)|;
    SliceBetweenSpaces(s, t, Trim(s));
    assert Trim(s) == s[a..b] && OnlySpacesOutside(s, a, b);
  }

  /** A suffix `t` of `s` after white space, and a prefix `r` of `t` before
      white space, is a slice of `s` with only white space around it. */
  lemma SliceBetweenSpaces(s: string, t: string, r: string)
    requires |t| <= |s| && t == s[|s| - |t|..]
    requires forall k :: 0 <= k < |s| - |t| ==> IsJsSpace(s[k])
    requires |r| <= |t| && r == t[..|r|]
    requires forall k :: |r| <= k < |t| ==> IsJsSpace(t[k])
    ensures var a := |s| - |t|;
      r == s[a..a + |r|] && OnlySpacesOutside(s, a, a + |r|)
  {
    var a := |s| - |t|;
    forall k | a + |r| <= k < |s|
      ensures IsJsSpace(s[k])
    {
      assert s[k] == t[k - a];
    }
    assert r == s[a..a + |r|];
  }

  lemma {:induction false} TrimStartSpaces(pre: string, rest: string)
    requires forall c :: c in pre ==> IsJsSpace(c)
    requires rest == [] || !IsJsSpace(rest[0])
    ensures TrimStart(pre + rest) == rest
  {
    if pre == [] {
      assert pre + rest == rest;
    } else {
      assert pre[0] in pre;
      assert (pre + rest)[1..] == pre[1..] + rest;
      TrimStartSpaces(pre[1..], rest);
    }
  }

  lemma {:induction false} TrimEndSpaces(rest: string, post: string)
    requires forall c :: c in post ==> IsJsSpace(c)
    requires rest == [] || !IsJsSpace(rest[|rest| - 1])
    ensures TrimEnd(rest + post) == rest
  {
    if post == [] {
      assert rest + post == rest;
    } else {
      assert post[|post| - 1] in post;
      assert (rest + post)[..|rest + post| - 1] == rest + post[..|post| - 1];
      TrimEndSpaces(rest, post[..|post| - 1]);
    }
  }

  /** `trim` removes exactly the white space around a text: surrounded by any
      white space, a text that neither starts nor ends with white space is
      given back unchanged. */
  lemma TrimPadded(pre: string, text: string, post: string)
    requires forall c :: c in pre ==> IsJsSpace(c)
    requires forall c :: c in post ==> IsJsSpace(c)
    requires text != [] && !IsJsSpace(text[0]) && !IsJsSpace(text[|text| - 1])
    ensures Trim(pre + text + post) == text
  {
    assert pre + text + post == pre + (text + post);
    TrimStartSpaces(pre, text + post);
    TrimEndSpaces(text, post);
  }

  /** A string that already has no white space at either end is its own trim. */
  lemma TrimTrimmed(s: string)
    requires s == [] || (!IsJsSpace(s[0]) && !IsJsSpace(s[|s| - 1]))
    ensures Trim(s) == s
  {
  }

  // ---------------------------------------------------------------------------
  // Decimal rendering and padding

  function DigitChar(d: nat): (c: char)
    requires d < 10
    ensures IsDigit(c)
  {
    ('0' as int + d) as char
  }

  function DigitValue(c: char): (d: nat)
    requires IsDigit(c)
    ensures d < 10 && DigitChar(d) == c
  {
    c as int - '0' as int
  }

  /** The value of a string of decimal digits, most significant first. */
  function DigitsValue(s: string): nat
    requires AllDigits(s)
  {
    if s == [] then 0 else DigitsValue(s[..|s| - 1]) * 10 + DigitValue(s[|s| - 1])
  }

  function Pow10(k: nat): (p: nat)
    ensures p >= 1
  {
    if k == 0 then 1 else 10 * Pow10(k - 1)
  }

  /** `Number.prototype.toString()` of a non-negative integer: its shortest
      decimal form, with no leading zero except for 0 itself. */
  function Decimal(n: nat): (s: string)
    ensures |s| >= 1 && AllDigits(s)
    ensures s[0] == '0' <==> n == 0
  {
    if n < 10 then [DigitChar(n)] else Decimal(n / 10) + [DigitChar(n % 10)]
  }

  /** Reading back the decimal form gives the number. */
  lemma {:induction false} DecimalRoundTrip(n: nat)
    ensures DigitsValue(Decimal(n)) == n
  {
    if n >= 10 {
      var s := Decimal(n);
      assert s[..|s| - 1] == Decimal(n / 10);
      DecimalRoundTrip(n / 10);
    }
  }

  /** A number below 10^k has at most k decimal digits. */
  lemma {:induction false} DecimalLength(n: nat, k: nat)
    requires 1 <= k && n < Pow10(k)
    ensures |Decimal(n)| <= k
  {
    if n >= 10 {
      assert k >= 2;
      assert n / 10 < Pow10(k - 1);
      DecimalLength(n / 10, k - 1);
    }
  }

  lemma DecimalInjective(m: nat, n: nat)
    requires Decimal(m) == Decimal(n)
    ensures m == n
  {
    DecimalRoundTrip(m);
    DecimalRoundTrip(n);
  }

  function Repeat(c: char, n: nat): (r: string)
    ensures |r| == n && forall i :: 0 <= i < n ==> r[i] == c
  {
    if n == 0 then [] else Repeat(c, n - 1) + [c]
  }

  /** `String.prototype.padStart(width, fill)` for a one-character fill. */
  function PadStart(s: string, width: nat, fill: char): (r: string)
    ensures |r| == if |s| >= width then |s| else width
    ensures r[|r| - |s|..] == s
    ensures forall i :: 0 <= i < |r| - |s| ==> r[i] == fill
  {
    if |s| >= width then s else Repeat(fill, width - |s|) + s
  }

  /** Leading zeros do not change the value of a digit string. */
  lemma {:induction false} LeadingZeros(z: nat, s: string)
    requires AllDigits(s)
    ensures AllDigits(Repeat('0', z) + s)
    ensures DigitsValue(Repeat('0', z) + s) == DigitsValue(s)
  {
    var t := Repeat('0', z) + s;
    if s == [] {
      assert t == Repeat('0', z);
      if z > 0 {
        assert t[..|t| - 1] == Repeat('0', z - 1) + [];
        LeadingZeros(z - 1, []);
      }
    } else {
      assert t[..|t| - 1] == Repeat('0', z) + s[..|s| - 1];
      LeadingZeros(z, s[..|s| - 1]);
    }
  }
}
