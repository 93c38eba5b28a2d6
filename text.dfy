/**
 * Character-string helpers the core relies on: decimal rendering as printf's
 * "%u" and "%02u" produce it, the sign of strcmp/strncmp, and strim's
 * whitespace handling.  Strings are C strings without their terminating NUL.
 */
module Text {
  import opened Tasks

  // ---------------------------------------------------------------- decimal

  function Digit(d: nat): (c: char)
    requires d < 10
    ensures '0' <= c <= '9'
  {
    ['0', '1', '2', '3', '4', '5', '6', '7', '8', '9'][d]
  }

  function DigitValue(c: char): nat
    requires '0' <= c <= '9'
  {
    (c as int - '0' as int) as nat
  }

  predicate AllDigits(s: string) {
    forall k :: 0 <= k < |s| ==> '0' <= s[k] <= '9'
  }

  /** "%u": decimal digits without leading zeros. */
  function Dec(n: nat): (s: string)
    ensures 1 <= |s| && AllDigits(s)
    ensures |s| > 1 ==> s[0] != '0'
  {
    if n < 10 then [Digit(n)] else Dec(n / 10) + [Digit(n % 10)]
  }

  /** Reads a string of digits back as a number (the reference inverse of Dec). */
  function ParseDec(s: string): nat
    requires AllDigits(s)
  {
    if s == [] then 0 else ParseDec(s[..|s| - 1]) * 10 + DigitValue(s[|s| - 1])
  }

  lemma {:induction false} DecRoundTrip(n: nat)
    ensures ParseDec(Dec(n)) == n
  {
    if n >= 10 {
      DecRoundTrip(n / 10);
      var s := Dec(n);
      assert s[..|s| - 1] == Dec(n / 10);
    }
  }

  /** Longer numbers never print shorter. */
  lemma {:induction false} DecLengthMonotone(n: nat, m: nat)
    requires n <= m
    ensures |Dec(n)| <= |Dec(m)|
  {
    if n >= 10 {
      DecLengthMonotone(n / 10, m / 10);
    }
  }

  /** A number below 10^k (k at least 1) prints in at most k digits. */
  lemma {:induction false} DecLengthBound(n: nat, k: nat, bound: nat)
    requires k >= 1 && bound == Pow10(k) && n < bound
    ensures |Dec(n)| <= k
  {
    if n >= 10 {
      assert Pow10(1) == 10;
      assert n / 10 < Pow10(k - 1);
      assert |Dec(n)| == |Dec(n / 10)| + 1;
      DecLengthBound(n / 10, k - 1, Pow10(k - 1));
    }
  }

  function Pow10(k: nat): (p: nat)
    ensures p >= 1
  {
    if k == 0 then 1 else 10 * Pow10(k - 1)
  }

  /** "%02u" for values below 100: always two characters. */
  function Pad2(n: nat): (s: string)
    requires n < 100
    ensures |s| == 2 && AllDigits(s) && ParseDec(s) == n
  {
    DecRoundTrip(n);
    if n < 10 then ['0'] + Dec(n) else Dec(n)
  }

  // ---------------------------------------------------------------- strcmp

  /** Sign of strcmp: bytes compare as unsigned, a proper prefix sorts first. */
  function Strcmp(a: string, b: string): (r: int)
    ensures -1 <= r <= 1
  {
    if a == [] && b == [] then 0
    else if a == [] then -1
    else if b == [] then 1
    else if a[0] < b[0] then -1
    else if a[0] > b[0] then 1
    else Strcmp(a[1..], b[1..])
  }

  /** The part of s that strncmp(_, _, n) looks at: the first n characters,
      or all of s when it is shorter.  A negative n has been cast to a huge
      unsigned count, so it limits nothing. */
  function Head(s: string, n: int): (h: string)
    ensures h <= s
    ensures |h| == if 0 <= n < |s| then n else |s|
  {
    if 0 <= n < |s| then s[..n] else s
  }

  /** Sign of strncmp(a, b, n): at most n leading characters take part. */
  function Strncmp(a: string, b: string, n: int): (r: int)
    ensures -1 <= r <= 1
  {
    Strcmp(Head(a, n), Head(b, n))
  }

  lemma {:induction false} StrcmpAntisymmetric(a: string, b: string)
    ensures Strcmp(a, b) == -Strcmp(b, a)
  {
    if a != [] && b != [] && a[0] == b[0] {
      StrcmpAntisymmetric(a[1..], b[1..]);
    }
  }

  lemma {:induction false} StrcmpZeroIffEqual(a: string, b: string)
    ensures Strcmp(a, b) == 0 <==> a == b
  {
    if a != [] && b != [] && a[0] == b[0] {
      StrcmpZeroIffEqual(a[1..], b[1..]);
      if a[1..] == b[1..] {
        assert a == [a[0]] + a[1..] && b == [b[0]] + b[1..];
      }
    }
  }

  lemma {:induction false} StrcmpTransitive(a: string, b: string, c: string)
    requires Strcmp(a, b) <= 0 && Strcmp(b, c) <= 0
    ensures Strcmp(a, c) <= 0
  {
    if a != [] && b != [] && c != [] && a[0] == b[0] && b[0] == c[0] {
      StrcmpTransitive(a[1..], b[1..], c[1..]);
    }
  }

  lemma StrncmpAntisymmetric(a: string, b: string, n: int)
    ensures Strncmp(a, b, n) == -Strncmp(b, a, n)
  {
    StrcmpAntisymmetric(Head(a, n), Head(b, n));
  }

  /** strncmp is zero exactly when the compared leading parts agree. */
  lemma StrncmpZeroIffEqual(a: string, b: string, n: int)
    ensures Strncmp(a, b, n) == 0 <==> Head(a, n) == Head(b, n)
  {
    StrcmpZeroIffEqual(Head(a, n), Head(b, n));
  }

  lemma StrncmpTransitive(a: string, b: string, c: string, n: int)
    requires Strncmp(a, b, n) <= 0 && Strncmp(b, c, n) <= 0
    ensures Strncmp(a, c, n) <= 0
  {
    StrcmpTransitive(Head(a, n), Head(b, n), Head(c, n));
  }

  // ---------------------------------------------------------------- strim

  /** The characters strim treats as whitespace: backspace, form feed,
      newline, carriage return, tab and vertical tab (space is not one). */
  predicate IsTrimmed(c: char) {
    c == 8 as char || c == 12 as char || c == '\n' || c == '\r' || c == '\t' || c == 11 as char
  }

  /** strpbrk(s, ws): the first whitespace position, if any. */
  function FirstTrimmed(s: string): (r: Option<nat>)
    ensures r.Some? ==> r.value < |s| && IsTrimmed(s[r.value])
                        && forall k :: 0 <= k < r.value ==> !IsTrimmed(s[k])
    ensures r.None? ==> forall k :: 0 <= k < |s| ==> !IsTrimmed(s[k])
  {
    if s == [] then None
    else if IsTrimmed(s[0]) then Some(0)
    else match FirstTrimmed(s[1..])
      case None => None
      case Some(k) => Some(k + 1)
  }

  /** Reference meaning of strim(1, s): every whitespace character becomes a space. */
  function Spaced(s: string): string {
    seq(|s|, k requires 0 <= k < |s| => if IsTrimmed(s[k]) then ' ' else s[k])
  }

  /** Reference meaning of strim(0, s): the string ends at its first whitespace. */
  function Cut(s: string): string {
    match FirstTrimmed(s)
    case None => s
    case Some(k) => s[..k]
  }

  lemma SpacedProperties(s: string)
    ensures |Spaced(s)| == |s|
    ensures FirstTrimmed(Spaced(s)).None?
    ensures forall k :: 0 <= k < |s| && !IsTrimmed(s[k]) ==> Spaced(s)[k] == s[k]
    ensures Spaced(Spaced(s)) == Spaced(s)
  {
  }

  lemma CutProperties(s: string)
    ensures |Cut(s)| <= |s| && Cut(s) == s[..|Cut(s)|]
    ensures FirstTrimmed(Cut(s)).None?
    ensures |Cut(s)| < |s| ==> IsTrimmed(s[|Cut(s)|])
    ensures Cut(Cut(s)) == Cut(s)
  {
  }

  /** strpbrk over a character buffer holding a C string of length len. */
  method Strpbrk(str: array<char>, len: nat) returns (p: Option<nat>)
    requires len <= str.Length
    ensures p == FirstTrimmed(str[..len])
  {
    var i := 0;
    while i < len
      invariant 0 <= i <= len
      invariant forall k :: 0 <= k < i ==> !IsTrimmed(str[k])
    {
      if IsTrimmed(str[i]) {
        FirstTrimmedIs(str[..len], i);
        return Some(i);
      }
      i := i + 1;
    }
    FirstTrimmedNone(str[..len]);
    p := None;
  }

  lemma FirstTrimmedIs(s: string, i: nat)
    requires i < |s| && IsTrimmed(s[i]) && forall k :: 0 <= k < i ==> !IsTrimmed(s[k])
    ensures FirstTrimmed(s) == Some(i)
  {
  }

  lemma FirstTrimmedNone(s: string)
    requires forall k :: 0 <= k < |s| ==> !IsTrimmed(s[k])
    ensures FirstTrimmed(s) == None
  {
  }

  function CountTrimmed(s: string): nat {
    if s == [] then 0 else (if IsTrimmed(s[0]) then 1 else 0) + CountTrimmed(s[1..])
  }

  lemma {:induction false} CountTrimmedReplace(s: string, i: nat)
    requires i < |s| && IsTrimmed(s[i])
    ensures CountTrimmed(s[i := ' ']) + 1 == CountTrimmed(s)
  {
    if i > 0 {
      CountTrimmedReplace(s[1..], i - 1);
      assert s[i := ' '][1..] == s[1..][i - 1 := ' '];
    }
  }

  /**
   * strim(sp, str) on a buffer holding a C string of length len.  With sp
   * set, the loop replaces the first remaining whitespace by a space until
   * none is left; otherwise the first whitespace becomes the terminating NUL.
   * Returns the new string length.
   */
  method Strim(sp: bool, str: array<char>, len: nat) returns (newLen: nat)
    requires len <= str.Length
    modifies str
    ensures newLen <= len
    ensures sp ==> newLen == len && str[..len] == Spaced(old(str[..len]))
    ensures !sp ==> str[..newLen] == Cut(old(str[..len]))
    ensures !sp && newLen < len ==> str[newLen] == 0 as char && str[newLen + 1..len] == old(str[newLen + 1..len])
    ensures forall k :: len <= k < str.Length ==> str[k] == old(str[k])
  {
    ghost var orig := str[..len];
    if sp {
      var p := Strpbrk(str, len);
      while p.Some?
        invariant len <= str.Length
        invariant p == FirstTrimmed(str[..len])
        invariant Spaced(str[..len]) == Spaced(orig)
        invariant forall k :: len <= k < str.Length ==> str[k] == old(str[k])
        decreases CountTrimmed(str[..len])
      {
        CountTrimmedReplace(str[..len], p.value);
        ghost var before := str[..len];
        str[p.value] := ' ';
        assert str[..len] == before[p.value := ' '];
        assert Spaced(str[..len]) == Spaced(before);
        p := Strpbrk(str, len);
      }
      FirstTrimmedNoneSpaced(str[..len]);
      newLen := len;
    } else {
      var p := Strpbrk(str, len);
      if p.Some? {
        str[p.value] := 0 as char;
        newLen := p.value;
      } else {
        newLen := len;
      }
    }
  }

  lemma FirstTrimmedNoneSpaced(s: string)
    requires FirstTrimmed(s).None?
    ensures Spaced(s) == s
  {
  }
}
