/** The few Python `str` and `int` operations the views and forms rely on, stated on
    Dafny strings (a `char` is a Unicode scalar value, as a Python code point is). */
module PyStr {
  import opened Wrappers

  /** `c.isspace()`: the characters `str.strip()` removes when given no argument. */
  predicate IsSpace(c: char) {
    || ('\t' <= c <= '\r')                 // tab, line feed, vertical tab, form feed, carriage return
    || ('\U{1C}' <= c <= '\U{1F}')        // file, group, record and unit separators
    || c == ' ' || c == '\U{85}' || c == '\U{A0}' || c == '\U{1680}'
    || ('\U{2000}' <= c <= '\U{200A}')
    || c == '\U{2028}' || c == '\U{2029}' || c == '\U{202F}' || c == '\U{205F}' || c == '\U{3000}'
  }

  /** `s.lstrip(chars)`, the set of characters given as a predicate: the longest suffix of `s`
      that does not start with a dropped character. */
  function LStrip(s: string, drop: char -> bool): (r: string)
    ensures |r| <= |s| && r == s[|s| - |r|..]
    ensures r == [] || !drop(r[0])
    ensures forall i :: 0 <= i < |s| - |r| ==> drop(s[i])
  {
    if s != [] && drop(s[0]) then
      var r := LStrip(s[1..], drop);
      SuffixOfTail(s, r);
      r
    else s
  }

  /** `s.rstrip(chars)`: the longest prefix of `s` that does not end with a dropped character. */
  function RStrip(s: string, drop: char -> bool): (r: string)
    ensures |r| <= |s| && r == s[..|r|]
    ensures r == [] || !drop(r[|r| - 1])
    ensures forall i :: |r| <= i < |s| ==> drop(s[i])
  {
    if s != [] && drop(s[|s| - 1]) then
      var r := RStrip(s[..|s| - 1], drop);
      PrefixOfFront(s, r);
      r
    else s
  }

  /** A suffix of `s[1..]` is a suffix of `s`, and its elements stand one place further on. */
  lemma SuffixOfTail<T>(s: seq<T>, r: seq<T>)
    requires s != [] && |r| <= |s| - 1 && r == s[1..][|s| - 1 - |r|..]
    ensures r == s[|s| - |r|..]
    ensures forall i :: 1 <= i < |s| ==> s[i] == s[1..][i - 1]
  {
  }

  /** A prefix of `s[..|s| - 1]` is a prefix of `s`. */
  lemma PrefixOfFront<T>(s: seq<T>, r: seq<T>)
    requires s != [] && |r| <= |s| - 1 && r == s[..|s| - 1][..|r|]
    ensures r == s[..|r|]
    ensures forall i :: 0 <= i < |s| - 1 ==> s[i] == s[..|s| - 1][i]
  {
  }

  /** `s.strip(chars)`: a contiguous slice of `s` with neither end a dropped character,
      everything cut away on either side being dropped characters. */
  function Strip(s: string, drop: char -> bool): (r: string)
    ensures |r| <= |s|
    ensures var k := |s| - |LStrip(s, drop)|;
            && k + |r| <= |s| && r == s[k..k + |r|]
            && (forall i :: 0 <= i < k ==> drop(s[i]))
            && (forall i :: k + |r| <= i < |s| ==> drop(s[i]))
    ensures r == [] || (!drop(r[0]) && !drop(r[|r| - 1]))
  {
    var l := LStrip(s, drop);
    var r := RStrip(l, drop);
    SliceOfSuffix(s, l, r);
    EndsKept(l, r, drop);
    r
  }

  lemma EndsKept(l: string, r: string, drop: char -> bool)
    requires l == [] || !drop(l[0])
    requires r == [] || !drop(r[|r| - 1])
    requires |r| <= |l| && (r != [] ==> r[0] == l[0])
    ensures r == [] || (!drop(r[0]) && !drop(r[|r| - 1]))
  {
  }

  /** A prefix `r` of a suffix `l` of `s` is a slice of `s`, and what follows it in `s` is
      what follows it in `l`. */
  lemma SliceOfSuffix<T>(s: seq<T>, l: seq<T>, r: seq<T>)
    requires |l| <= |s| && l == s[|s| - |l|..]
    requires |r| <= |l| && r == l[..|r|]
    ensures var k := |s| - |l|;
            && r == s[k..k + |r|]
            && (r != [] ==> r[0] == l[0])
            && forall i :: k + |r| <= i < |s| ==> s[i] == l[i - k]
  {
  }

  /** Stripping twice removes nothing more than stripping once. */
  lemma StripIdempotent(s: string, drop: char -> bool)
    ensures Strip(Strip(s, drop), drop) == Strip(s, drop)
  {
    var t := Strip(s, drop);
    if t != [] {
      assert LStrip(t, drop) == t;
      assert RStrip(t, drop) == t;
    }
  }

  /** `s.strip()` with no argument. */
  function Trim(s: string): (r: string)
    ensures |r| <= |s|
    ensures r == [] || (!IsSpace(r[0]) && !IsSpace(r[|r| - 1]))
  {
    Strip(s, IsSpace)
  }

  /** `s.replace(pat, '')`: every occurrence of `pat`, scanned left to right without overlap, removed. */
  function RemoveSubstring(s: string, pat: string): (r: string)
    requires pat != []
    ensures |r| <= |s|
    decreases |s|
  {
    if |s| < |pat| then s
    else if s[..|pat|] == pat then RemoveSubstring(s[|pat|..], pat)
    else [s[0]] + RemoveSubstring(s[1..], pat)
  }

  /** A string in which the first character of `pat` never occurs holds no occurrence of `pat`. */
  lemma {:induction false} RemoveSubstringAbsent(s: string, pat: string)
    requires pat != []
    requires forall i :: 0 <= i < |s| ==> s[i] != pat[0]
    ensures RemoveSubstring(s, pat) == s
    decreases |s|
  {
    if |s| >= |pat| {
      assert s[..|pat|][0] == s[0];
      RemoveSubstringAbsent(s[1..], pat);
      assert [s[0]] + s[1..] == s;
    }
  }

  lemma RemoveSubstringAt(pat: string, rest: string)
    requires pat != []
    ensures RemoveSubstring(pat + rest, pat) == RemoveSubstring(rest, pat)
  {
    assert (pat + rest)[..|pat|] == pat;
    assert (pat + rest)[|pat|..] == rest;
  }

  lemma RemoveSubstringSkip(s: string, pat: string)
    requires |pat| >= 2 && |s| >= |pat| && s[1] != pat[1]
    ensures RemoveSubstring(s, pat) == [s[0]] + RemoveSubstring(s[1..], pat)
  {
    assert s[..|pat|][1] == s[1];
  }

  /** `s.replace(c, '')` for a single character. */
  function RemoveChar(s: string, c: char): (r: string)
    ensures |r| <= |s|
    ensures forall i :: 0 <= i < |r| ==> r[i] != c
    ensures (forall i :: 0 <= i < |s| ==> s[i] != c) ==> r == s
  {
    if s == [] then []
    else if s[0] == c then RemoveChar(s[1..], c)
    else [s[0]] + RemoveChar(s[1..], c)
  }

  lemma {:induction false} RemoveCharConcat(a: string, b: string, c: char)
    ensures RemoveChar(a + b, c) == RemoveChar(a, c) + RemoveChar(b, c)
  {
    if a == [] {
      assert a + b == b;
    } else {
      assert (a + b)[0] == a[0];
      assert (a + b)[1..] == a[1..] + b;
      RemoveCharConcat(a[1..], b, c);
    }
  }

  /** The ASCII part of `str.lower()`; enough to compare a value with "true" or "false",
      since no other character lower-cases to one of their letters. */
  function AsciiLower(s: string): (r: string)
    ensures |r| == |s|
  {
    seq(|s|, i requires 0 <= i < |s| => if 'A' <= s[i] <= 'Z' then (s[i] - 'A' + 'a') as char else s[i])
  }

  predicate IsDigit(c: char) { '0' <= c <= '9' }

  function DigitValue(c: char): (d: nat)
    requires IsDigit(c)
    ensures d < 10
  {
    (c - '0') as nat
  }

  function DigitChar(d: nat): (c: char)
    requires d < 10
    ensures IsDigit(c) && DigitValue(c) == d
  {
    ('0' as int + d) as char
  }

  /** The value of a string of decimal digits, most significant first. */
  function DecimalValue(ds: string): nat
    requires forall i :: 0 <= i < |ds| ==> IsDigit(ds[i])
  {
    if ds == [] then 0 else 10 * DecimalValue(ds[..|ds| - 1]) + DigitValue(ds[|ds| - 1])
  }

  /** `str(n)` for a natural number: its decimal digits without leading zeros. */
  function DecimalString(n: nat): (r: string)
    ensures r != [] && forall i :: 0 <= i < |r| ==> IsDigit(r[i])
    ensures DecimalValue(r) == n
    ensures |r| > 1 ==> r[0] != '0'
  {
    if n < 10 then [DigitChar(n)]
    else
      var r := DecimalString(n / 10) + [DigitChar(n % 10)];
      assert r[..|r| - 1] == DecimalString(n / 10);
      r
  }

  /** `n` written with at least `width` digits, padded on the left with zeros (`%0<width>d`). */
  function ZeroPad(n: nat, width: nat): (r: string)
    ensures |r| >= width
  {
    var ds := DecimalString(n);
    if |ds| >= width then ds else Zeros(width - |ds|) + ds
  }

  function Zeros(k: nat): (z: string)
    ensures |z| == k
  {
    seq(k, _ => '0')
  }

  /** Padding changes the digits' count, never their value. */
  lemma ZeroPadValue(n: nat, width: nat)
    ensures var r := ZeroPad(n, width);
            (forall i :: 0 <= i < |r| ==> IsDigit(r[i])) && DecimalValue(r) == n
  {
    var ds := DecimalString(n);
    if |ds| < width {
      DecimalValueLeadingZeros(width - |ds|, ds);
    }
  }

  lemma {:induction false} DecimalValueLeadingZeros(k: nat, ds: string)
    requires forall i :: 0 <= i < |ds| ==> IsDigit(ds[i])
    ensures var z := Zeros(k) + ds;
            (forall i :: 0 <= i < |z| ==> IsDigit(z[i])) && DecimalValue(z) == DecimalValue(ds)
  {
    var z := Zeros(k) + ds;
    if ds == [] {
      ZerosValue(k);
      assert z == Zeros(k);
    } else {
      DecimalValueLeadingZeros(k, ds[..|ds| - 1]);
      assert z[..|z| - 1] == Zeros(k) + ds[..|ds| - 1];
    }
  }

  lemma {:induction false} ZerosValue(k: nat)
    ensures (forall i :: 0 <= i < k ==> IsDigit(Zeros(k)[i])) && DecimalValue(Zeros(k)) == 0
  {
    if k > 0 {
      assert Zeros(k)[..k - 1] == Zeros(k - 1);
      ZerosValue(k - 1);
    }
  }

  /** `''.join(parts)`. */
  function Join(parts: seq<string>): (r: string)
    ensures |parts| == 1 ==> r == parts[0]
  {
    if parts == [] then [] else parts[0] + Join(parts[1..])
  }

  /** Python's grammar for the digits of `int(s)`: decimal digits, single underscores allowed
      between two digits. */
  predicate IsDigitGroupString(t: string) {
    && t != []
    && IsDigit(t[0]) && IsDigit(t[|t| - 1])
    && (forall i :: 0 <= i < |t| ==> IsDigit(t[i]) || t[i] == '_')
    && (forall i :: 0 <= i < |t| - 1 ==> !(t[i] == '_' && t[i + 1] == '_'))
  }

  /** The most decimal digits `int()` converts; a longer string is refused with `ValueError`
      (the interpreter's default for `sys.set_int_max_str_digits`). */
  const IntMaxStrDigits: nat := 4300

  /** The digits of `int(s)` after any sign: the grammar above, and no more digits than the
      limit, the underscores not counting. */
  function ParseDigits(t: string): (r: Option<nat>)
    ensures r.Some? <==> IsDigitGroupString(t) && |RemoveChar(t, '_')| <= IntMaxStrDigits
    ensures (forall i :: 0 <= i < |t| ==> IsDigit(t[i])) && t != [] ==>
              r == (if |t| <= IntMaxStrDigits then Some(DecimalValue(t)) else None)
  {
    if IsDigitGroupString(t) && |RemoveChar(t, '_')| <= IntMaxStrDigits then
      RemoveCharKeepsDigits(t);
      Some(DecimalValue(RemoveChar(t, '_')))
    else None
  }

  lemma {:induction false} RemoveCharKeepsDigits(t: string)
    requires forall i :: 0 <= i < |t| ==> IsDigit(t[i]) || t[i] == '_'
    ensures forall i :: 0 <= i < |RemoveChar(t, '_')| ==> IsDigit(RemoveChar(t, '_')[i])
  {
    if t != [] {
      RemoveCharKeepsDigits(t[1..]);
      if t[0] == '_' {
        assert RemoveChar(t, '_') == RemoveChar(t[1..], '_');
      } else {
        assert RemoveChar(t, '_') == [t[0]] + RemoveChar(t[1..], '_');
      }
    }
  }

  /** The information separators U+001C to U+001F. `isspace()` holds for them, yet `int()`
      never skips them. */
  predicate IsSeparator(c: char) {
    '\U{1C}' <= c <= '\U{1F}'
  }

  /** The characters `int(s)` skips around the digits. Characters from U+0080 on that are
      whitespace are turned into spaces and skipped; of the ASCII characters only space, tab,
      line feed, vertical tab, form feed and carriage return are skipped. Together that is
      every `isspace()` character but the four separators. */
  predicate IntSpace(c: char) {
    IsSpace(c) && !IsSeparator(c)
  }

  /** A non-empty string of decimal digits and nothing else. */
  predicate IsDecimal(s: string) {
    s != [] && forall i :: 0 <= i < |s| ==> IsDigit(s[i])
  }

  /** `int(s)` on a string, base 10: surrounding whitespace ignored, an optional sign, then
      digits; `None` where Python raises `ValueError`. A plain string of digits is read as
      its decimal value exactly when it is within the digit limit. */
  function ParseInt(s: string): (r: Option<int>)
    ensures (forall i :: 0 <= i < |s| ==> !IsDigit(s[i])) ==> r == None
    ensures IsDecimal(s) ==> r == (if |s| <= IntMaxStrDigits then Some(DecimalValue(s) as int) else None)
  {
    DigitsNotStripped(s);
    var t := Strip(s, IntSpace);
    if t == [] then None
    else if t[0] == '-' || t[0] == '+' then
      match ParseDigits(t[1..])
      case None => None
      case Some(n) => Some(if t[0] == '-' then 0 - n as int else n as int)
    else
      match ParseDigits(t)
      case None => None
      case Some(n) => Some(n)
  }

  /** A string of digits has no whitespace around it to strip. */
  lemma DigitsNotStripped(s: string)
    ensures IsDecimal(s) ==> Strip(s, IntSpace) == s && IsDigit(s[0])
  {
    if IsDecimal(s) {
      DigitIsNotSpace(s[0]);
      DigitIsNotSpace(s[|s| - 1]);
      assert LStrip(s, IntSpace) == s;
      assert RStrip(s, IntSpace) == s;
    }
  }

  /** `int(str(n)) == n`: the page numbers the listing's own links carry parse back, as long
      as they are within the digit limit. */
  lemma ParseIntDecimalString(n: nat)
    requires |DecimalString(n)| <= IntMaxStrDigits
    ensures ParseInt(DecimalString(n)) == Some(n)
  {
    assert IsDecimal(DecimalString(n));
  }

  /** A character that is neither a digit, an underscore, a sign nor skipped whitespace makes
      `int()` refuse the whole string, wherever it stands. */
  lemma StrayCharacterRefused(s: string, i: nat)
    requires i < |s|
    requires !IsDigit(s[i]) && s[i] != '_' && s[i] != '-' && s[i] != '+' && !IntSpace(s[i])
    ensures ParseInt(s) == None
  {
    var t := Strip(s, IntSpace);
    var k := |s| - |LStrip(s, IntSpace)|;
    assert k <= i < k + |t|;
    assert t[i - k] == s[i];
    if t[0] == '-' || t[0] == '+' {
      assert t[1..][i - k - 1] == s[i];
    }
  }

  /** An information separator anywhere in `int()`'s argument makes it refuse the string:
      `int("\x1c2")` and `int("2\x1f")` raise `ValueError`. */
  lemma SeparatorRefused(s: string, i: nat)
    requires i < |s| && IsSeparator(s[i])
    ensures ParseInt(s) == None
  {
    StrayCharacterRefused(s, i);
  }

  /** A decimal string longer than the digit limit is refused. */
  lemma TooManyDigitsRefused(s: string)
    requires IsDecimal(s) && |s| > IntMaxStrDigits
    ensures ParseInt(s) == None
  {
  }

  lemma DigitIsNotSpace(c: char)
    requires IsDigit(c)
    ensures !IsSpace(c) && !IntSpace(c)
  {
  }
}
