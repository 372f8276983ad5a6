/** The UUIDs that serve as a note's public `id` and as its secret `modification_code`:
    the 128-bit value as 32 hexadecimal digits (nibbles), most significant first. Two
    `uuid.UUID` objects are equal exactly when their 128-bit values are, which is equality
    of these digit sequences. */
module Uuids {
  import opened Wrappers
  import PyStr

  type Nibble = x: int | 0 <= x < 16

  type Uuid = s: seq<Nibble> | |s| == 32 witness seq(32, _ => 0)

  /** The layout of section 4.4 of RFC 4122: the version field (the high nibble of
      time_hi_and_version, digit 12) holds 4 and the two high bits of clock_seq_hi_and_reserved
      (digit 16) hold the variant 1 0. */
  predicate IsVersion4(u: Uuid) {
    u[12] == 4 && 8 <= u[16] < 12
  }

  /** `uuid.uuid4()` given its 128 random bits: the version and variant bits are forced,
      the other 122 bits are kept. */
  function Uuid4(random: Uuid): (u: Uuid)
    ensures IsVersion4(u)
    ensures forall i :: 0 <= i < 32 && i != 12 && i != 16 ==> u[i] == random[i]
    ensures u[16] % 4 == random[16] % 4
  {
    random[12 := 4][16 := 8 + random[16] % 4]
  }

  /** Every version-4 UUID is what `uuid4` makes of some random bits: of itself. */
  lemma Uuid4FixesVersion4(u: Uuid)
    requires IsVersion4(u)
    ensures Uuid4(u) == u
  {
    assert forall i :: 0 <= i < 32 ==> Uuid4(u)[i] == u[i];
  }

  predicate IsHexChar(c: char) {
    ('0' <= c <= '9') || ('a' <= c <= 'f') || ('A' <= c <= 'F')
  }

  /** The value of one hexadecimal digit, either case, as `int(c, 16)` reads it. */
  function HexValue(c: char): (n: Nibble)
    requires IsHexChar(c)
  {
    if '0' <= c <= '9' then (c - '0') as int
    else if 'a' <= c <= 'f' then (c - 'a') as int + 10
    else (c - 'A') as int + 10
  }

  /** The lower-case digit `'%x'` prints for a nibble. */
  function HexChar(n: Nibble): (c: char)
    ensures IsHexChar(c) && HexValue(c) == n
    ensures c != '-' && c != '{' && c != '}' && c != 'u'
  {
    if n < 10 then ('0' as int + n) as char else ('a' as int + n - 10) as char
  }

  function Hex(s: seq<Nibble>): (r: string)
    ensures |r| == |s|
    ensures forall i :: 0 <= i < |s| ==> r[i] == HexChar(s[i])
  {
    seq(|s|, i requires 0 <= i < |s| => HexChar(s[i]))
  }

  /** `str(u)`: the 36-character canonical form, five groups of 8, 4, 4, 4 and 12 lower-case
      hexadecimal digits joined by hyphens. */
  function Format(u: Uuid): (r: string)
    ensures |r| == 36
    ensures r[8] == '-' && r[13] == '-' && r[18] == '-' && r[23] == '-'
    ensures forall i :: 0 <= i < 36 && i != 8 && i != 13 && i != 18 && i != 23 ==> IsHexChar(r[i])
  {
    Hex(u[..8]) + "-" + (Hex(u[8..12]) + "-" + (Hex(u[12..16]) + "-" + (Hex(u[16..20]) + "-" + Hex(u[20..]))))
  }

  /** `uuid.UUID(s)`: the prefixes "urn:" and "uuid:" are deleted wherever they occur, braces
      are stripped from both ends, every hyphen is deleted, and what remains must be exactly
      32 hexadecimal digits. `None` is the `ValueError` the views catch. */
  function Parse(s: string): (r: Option<Uuid>)
    ensures |s| < 32 ==> r == None
    ensures r.Some? <==> |HexDigitsOf(s)| == 32 && forall i :: 0 <= i < 32 ==> IsHexChar(HexDigitsOf(s)[i])
    ensures r.Some? ==> forall i :: 0 <= i < 32 ==> r.value[i] == HexValue(HexDigitsOf(s)[i])
  {
    var h := HexDigitsOf(s);
    if |h| == 32 && forall i :: 0 <= i < 32 ==> IsHexChar(h[i]) then
      Some(seq(32, i requires 0 <= i < 32 => HexValue(h[i])))
    else None
  }

  /** What `uuid.UUID` hands to `int(_, 16)` once prefixes, braces and hyphens are gone. */
  function HexDigitsOf(s: string): (h: string)
    ensures |h| <= |s|
  {
    PyStr.RemoveChar(PyStr.Strip(Unprefixed(s), IsBrace), '-')
  }

  /** `s.replace('urn:', '').replace('uuid:', '')`. */
  function Unprefixed(s: string): string {
    PyStr.RemoveSubstring(PyStr.RemoveSubstring(s, "urn:"), "uuid:")
  }

  /** `uuid.UUID` reads no more of its argument than what is left once the prefixes are gone. */
  lemma ParseAfterPrefixes(s: string, t: string)
    requires Unprefixed(s) == Unprefixed(t)
    ensures Parse(s) == Parse(t)
  {
    assert HexDigitsOf(s) == HexDigitsOf(t);
  }

  predicate IsBrace(c: char) { c == '{' || c == '}' }

  lemma {:induction false} HexConcat(a: seq<Nibble>, b: seq<Nibble>)
    ensures Hex(a + b) == Hex(a) + Hex(b)
  {
  }

  /** A string holding only the hexadecimal digits of `u` parses to `u`. */
  lemma ParseOfHex(s: string, u: Uuid)
    requires HexDigitsOf(s) == Hex(u)
    ensures Parse(s) == Some(u)
  {
    var h := HexDigitsOf(s);
    assert seq(32, i requires 0 <= i < 32 => HexValue(h[i])) == u;
  }

  /** Deleting hyphens from one group, its hyphen and the rest. */
  lemma DropGroupHyphen(x: seq<Nibble>, y: string)
    ensures PyStr.RemoveChar(Hex(x) + "-" + y, '-') == Hex(x) + PyStr.RemoveChar(y, '-')
  {
    DropJoinHyphen(Hex(x), y);
    assert PyStr.RemoveChar(Hex(x), '-') == Hex(x);
  }

  lemma DropJoinHyphen(h: string, y: string)
    ensures PyStr.RemoveChar(h + "-" + y, '-') == PyStr.RemoveChar(h, '-') + PyStr.RemoveChar(y, '-')
  {
    PyStr.RemoveCharConcat(h + "-", y, '-');
    PyStr.RemoveCharConcat(h, "-", '-');
    HyphenRemoved();
  }

  lemma HyphenRemoved()
    ensures PyStr.RemoveChar("-", '-') == []
  {
    assert "-"[1..] == [];
  }

  /** Deleting the hyphens from five hyphen-joined groups leaves the digits of all five. */
  lemma DehyphenFive(a: seq<Nibble>, b: seq<Nibble>, c: seq<Nibble>, d: seq<Nibble>, e: seq<Nibble>)
    ensures PyStr.RemoveChar(Hex(a) + "-" + (Hex(b) + "-" + (Hex(c) + "-" + (Hex(d) + "-" + Hex(e)))), '-')
         == Hex(a + (b + (c + (d + e))))
  {
    var z := Hex(e);
    var y := Hex(d) + "-" + z;
    var x := Hex(c) + "-" + y;
    var w := Hex(b) + "-" + x;
    DropGroupHyphen(a, w);
    DropGroupHyphen(b, x);
    DropGroupHyphen(c, y);
    DropGroupHyphen(d, z);
    assert PyStr.RemoveChar(z, '-') == z;
    HexConcat(d, e);
    HexConcat(c, d + e);
    HexConcat(b, c + (d + e));
    HexConcat(a, b + (c + (d + e)));
  }

  lemma FormatDehyphenated(u: Uuid)
    ensures PyStr.RemoveChar(Format(u), '-') == Hex(u)
  {
    DehyphenFive(u[..8], u[8..12], u[12..16], u[16..20], u[20..]);
    assert u[..8] + (u[8..12] + (u[12..16] + (u[16..20] + u[20..]))) == u;
  }

  /** A string with no 'u' and no brace holds nothing for `uuid.UUID` to remove but hyphens. */
  lemma PlainHexDigits(f: string)
    requires forall i :: 0 <= i < |f| ==> f[i] != 'u' && !IsBrace(f[i])
    ensures HexDigitsOf(f) == PyStr.RemoveChar(f, '-')
  {
    NoPrefixToRemove(f);
    NoBraceToStrip(f);
  }

  lemma NoPrefixToRemove(f: string)
    requires forall i :: 0 <= i < |f| ==> f[i] != 'u'
    ensures Unprefixed(f) == f
  {
    PyStr.RemoveSubstringAbsent(f, "urn:");
    PyStr.RemoveSubstringAbsent(f, "uuid:");
  }

  lemma NoBraceToStrip(f: string)
    requires forall i :: 0 <= i < |f| ==> !IsBrace(f[i])
    ensures PyStr.Strip(f, IsBrace) == f
  {
    assert PyStr.LStrip(f, IsBrace) == f;
    assert PyStr.RStrip(f, IsBrace) == f;
  }

  /** The canonical form holds no prefix and no brace for `uuid.UUID` to remove. */
  lemma FormatUnwrapped(u: Uuid)
    ensures HexDigitsOf(Format(u)) == PyStr.RemoveChar(Format(u), '-')
  {
    FormatHasNoU(u);
    PlainHexDigits(Format(u));
  }

  lemma FormatHasNoU(u: Uuid)
    ensures forall i :: 0 <= i < |Format(u)| ==> Format(u)[i] != 'u' && !IsBrace(Format(u)[i])
  {
  }

  /** `uuid.UUID(str(u)) == u`: the canonical form parses back to the same UUID. This is what
      lets the creator paste the code shown at creation time into the edit and delete forms. */
  lemma {:induction false} ParseFormat(u: Uuid)
    ensures Parse(Format(u)) == Some(u)
  {
    FormatUnwrapped(u);
    FormatDehyphenated(u);
    ParseOfHex(Format(u), u);
  }

  /** Distinct UUIDs have distinct string forms. */
  lemma FormatInjective(u: Uuid, v: Uuid)
    requires Format(u) == Format(v)
    ensures u == v
  {
    ParseFormat(u);
    ParseFormat(v);
  }

  /** `uuid.UUID` also reads the "urn:uuid:" spelling of a UUID. */
  lemma {:induction false} ParseUrn(u: Uuid)
    ensures Parse("urn:uuid:" + Format(u)) == Some(u)
  {
    var f := Format(u);
    FormatHasNoU(u);
    UrnRemoved(f);
    UuidRemoved(f);
    PyStr.RemoveSubstringAbsent(f, "urn:");
    PyStr.RemoveSubstringAbsent(f, "uuid:");
    ParseAfterPrefixes("urn:uuid:" + f, f);
    ParseFormat(u);
  }

  lemma UrnRemoved(f: string)
    requires forall i :: 0 <= i < |f| ==> f[i] != 'u'
    ensures PyStr.RemoveSubstring("urn:uuid:" + f, "urn:") == "uuid:" + f
  {
    UrnRemovedSteps(f);
    NoUInIdTail(f);
    PyStr.RemoveSubstringAbsent("id:" + f, "urn:");
    UuidSpelledOut(f);
  }

  lemma UrnRemovedSteps(f: string)
    ensures PyStr.RemoveSubstring("urn:uuid:" + f, "urn:")
         == "u" + ("u" + PyStr.RemoveSubstring("id:" + f, "urn:"))
  {
    assert "urn:" + ("uuid:" + f) == "urn:uuid:" + f;
    PyStr.RemoveSubstringAt("urn:", "uuid:" + f);
    var t := "uuid:" + f;
    PyStr.RemoveSubstringSkip(t, "urn:");
    assert t[1..] == "uid:" + f;
    PyStr.RemoveSubstringSkip(t[1..], "urn:");
    assert t[1..][1..] == "id:" + f;
  }

  /** What is left of "uuid:" + f after its two leading `u`s holds no `u` when `f` holds none. */
  lemma NoUInIdTail(f: string)
    requires forall i :: 0 <= i < |f| ==> f[i] != 'u'
    ensures forall i :: 0 <= i < |"id:" + f| ==> ("id:" + f)[i] != 'u'
  {
  }

  /** The two `u`s put back in front of "id:" + f spell "uuid:" + f. */
  lemma UuidSpelledOut(f: string)
    ensures "u" + ("u" + ("id:" + f)) == "uuid:" + f
  {
  }

  lemma UuidRemoved(f: string)
    requires forall i :: 0 <= i < |f| ==> f[i] != 'u'
    ensures PyStr.RemoveSubstring("uuid:" + f, "uuid:") == f
  {
    var t := "uuid:" + f;
    assert t[..5] == "uuid:";
    assert t[5..] == f;
    PyStr.RemoveSubstringAbsent(f, "uuid:");
  }
}
