/** The pieces of the JavaScript runtime that the core relies on for text:
    the white-space set, `String.prototype.trim`, `parseInt` with no radix
    (decimal only) and the rendering of an integer `Number` as a string. */
module JsText {
  import opened Wrappers

  /** WhiteSpace and LineTerminator code points of ECMAScript (sections 12.2
      and 12.3 of ECMA-262): what `trim` strips and what `parseInt` skips. */
  predicate IsSpace(c: char) {
    if c < '\U{00A0}' then ('\t' <= c <= '\r') || c == ' '
    else
      || c == '\U{00A0}' || c == '\U{1680}' || ('\U{2000}' <= c <= '\U{200A}')
      || c == '\U{2028}' || c == '\U{2029}' || c == '\U{202F}' || c == '\U{205F}'
      || c == '\U{3000}' || c == '\U{FEFF}'
  }

  predicate IsDigit(c: char) {
    '0' <= c <= '9'
  }

  predicate AllSpace(s: string) {
    forall i :: 0 <= i < |s| ==> IsSpace(s[i])
  }

  /** A string with no white space at either end. */
  predicate IsTrimmed(s: string) {
    s == [] || (!IsSpace(s[0]) && !IsSpace(s[|s| - 1]))
  }

  /** Number of white-space characters at the start of `s`. */
  function LeadingSpaces(s: string): (k: nat)
    ensures k <= |s|
  {
    if s == [] || !IsSpace(s[0]) then 0 else 1 + LeadingSpaces(s[1..])
  }

  /** Number of white-space characters at the end of `s`. */
  function TrailingSpaces(s: string): (k: nat)
    ensures k <= |s|
  {
    if s == [] || !IsSpace(s[|s| - 1]) then 0 else 1 + TrailingSpaces(s[..|s| - 1])
  }

  /** The leading white space ends at a character that is not white space
      (or at the end of `s`). */
  lemma {:induction false} LeadingSpacesStop(s: string)
    ensures LeadingSpaces(s) == |s| || !IsSpace(s[LeadingSpaces(s)])
  {
    if s != [] && IsSpace(s[0]) {
      LeadingSpacesStop(s[1..]);
    }
  }

  /** Everything `LeadingSpaces` counts is white space. */
  lemma {:induction false} LeadingSpacesAll(s: string)
    ensures AllSpace(s[..LeadingSpaces(s)])
  {
    if s != [] && IsSpace(s[0]) {
      LeadingSpacesAll(s[1..]);
      assert s[..LeadingSpaces(s)] == [s[0]] + s[1..][..LeadingSpaces(s[1..])];
    }
  }

  /** The trailing white space starts after a character that is not white
      space (or at the start of `s`). */
  lemma {:induction false} TrailingSpacesStop(s: string)
    ensures TrailingSpaces(s) == |s| || !IsSpace(s[|s| - 1 - TrailingSpaces(s)])
  {
    if s != [] && IsSpace(s[|s| - 1]) {
      var p := s[..|s| - 1];
      TrailingSpacesStop(p);
      if TrailingSpaces(p) < |p| {
        assert s[|s| - 1 - TrailingSpaces(s)] == p[|p| - 1 - TrailingSpaces(p)];
      }
    }
  }

  /** Everything `TrailingSpaces` counts is white space. */
  lemma {:induction false} TrailingSpacesAll(s: string)
    ensures AllSpace(s[|s| - TrailingSpaces(s)..])
  {
    if s != [] && IsSpace(s[|s| - 1]) {
      var p := s[..|s| - 1];
      TrailingSpacesAll(p);
      var t, u := s[|s| - TrailingSpaces(s)..], p[|p| - TrailingSpaces(p)..];
      assert t == u + [s[|s| - 1]];
      forall i | 0 <= i < |t|
        ensures IsSpace(t[i])
      {
        if i < |u| {
          assert t[i] == u[i];
        }
      }
    }
  }

  /** `String.prototype.trim`: `s` without its leading and trailing white
      space, which is the slice that starts after the leading white space. */
  function Trim(s: string): (r: string)
    ensures IsTrimmed(r)
    ensures LeadingSpaces(s) + |r| <= |s|
    ensures r == s[LeadingSpaces(s)..LeadingSpaces(s) + |r|]
  {
    var k := LeadingSpaces(s);
    var j := TrailingSpaces(s[k..]);
    TrimSlice(s, k, j);
    s[k..|s| - j]
  }

  /** Between the leading and the trailing white space the slice is trimmed,
      and only white space follows it. */
  lemma TrimSlice(s: string, k: nat, j: nat)
    requires k == LeadingSpaces(s) && j == TrailingSpaces(s[k..])
    ensures k + j <= |s|
    ensures IsTrimmed(s[k..|s| - j]) && AllSpace(s[|s| - j..])
  {
    var t := s[k..];
    TrimmedBetween(s, k, j);
    TrailingSpacesAll(t);
    assert s[|s| - j..] == t[|t| - j..];
  }

  lemma TrimmedBetween(s: string, k: nat, j: nat)
    requires k == LeadingSpaces(s) && j == TrailingSpaces(s[k..])
    ensures k + j <= |s|
    ensures IsTrimmed(s[k..|s| - j])
  {
    var t := s[k..];
    LeadingSpacesStop(s);
    TrailingSpacesStop(t);
    var r := s[k..|s| - j];
    if r != [] {
      assert r[0] == s[k];
      assert r[|r| - 1] == t[|t| - 1 - j];
    }
  }

  /** What `trim` drops: the leading white space and white space after the
      result. */
  lemma TrimDropsOnlySpace(s: string)
    ensures AllSpace(s[..LeadingSpaces(s)])
    ensures AllSpace(s[LeadingSpaces(s) + |Trim(s)|..])
  {
    var k := LeadingSpaces(s);
    TrimSlice(s, k, TrailingSpaces(s[k..]));
    LeadingSpacesAll(s);
  }

  /** Trimming finds nothing to do on a trimmed string. */
  lemma TrimIdempotent(s: string)
    ensures Trim(Trim(s)) == Trim(s)
  {
    var r := Trim(s);
    assert LeadingSpaces(r) == 0;
    assert TrailingSpaces(r) == 0;
  }

  /** Trimming leaves nothing exactly when the string is all white space. */
  lemma TrimEmptyIffAllSpace(s: string)
    ensures Trim(s) == [] <==> AllSpace(s)
  {
    var k := LeadingSpaces(s);
    TrimDropsOnlySpace(s);
    if Trim(s) == [] {
      assert s == s[..k] + s[k..];
    } else {
      LeadingSpacesStop(s);
    }
  }

  /** Trimming never introduces a character. */
  lemma TrimKeepsCharacters(s: string, c: char)
    requires c in Trim(s)
    ensures c in s
  {
    var r := Trim(s);
    var k := LeadingSpaces(s);
    var i :| 0 <= i < |r| && r[i] == c;
    assert s[k + i] == c;
  }

  /** Trimming leaves a string without white space as it is. */
  lemma TrimWithoutSpace(s: string)
    requires forall i :: 0 <= i < |s| ==> !IsSpace(s[i])
    ensures Trim(s) == s
  {
    assert LeadingSpaces(s) == 0;
    assert s[0..] == s;
    assert TrailingSpaces(s) == 0;
  }

  // ---------------------------------------------------------------- parseInt

  function DigitValue(c: char): nat
    requires IsDigit(c)
  {
    (c as int) - ('0' as int)
  }

  function DigitChar(d: nat): (c: char)
    requires d < 10
    ensures IsDigit(c) && DigitValue(c) == d
  {
    (('0' as int) + d) as char
  }

  predicate AllDigits(s: string) {
    forall i :: 0 <= i < |s| ==> IsDigit(s[i])
  }

  /** Length of the maximal run of decimal digits at the start of `s`. */
  function DigitRun(s: string): (k: nat)
    ensures k <= |s|
    ensures AllDigits(s[..k])
    ensures k == |s| || !IsDigit(s[k])
  {
    if s == [] || !IsDigit(s[0]) then 0 else 1 + DigitRun(s[1..])
  }

  /** The value of a string of decimal digits, most significant first. */
  function DigitsValue(d: string): nat
    requires AllDigits(d)
  {
    if d == [] then 0 else 10 * DigitsValue(d[..|d| - 1]) + DigitValue(d[|d| - 1])
  }

  /** `parseInt(s)` with no radix argument: skip leading white space, take an
      optional sign, then the longest run of decimal digits; `None` (NaN) when
      that run is empty. Whatever follows the run is ignored. */
  function ParseInt(s: string): (r: Option<int>)
    ensures var t := s[LeadingSpaces(s)..];
            var u := if |t| > 0 && (t[0] == '-' || t[0] == '+') then t[1..] else t;
            r.Some? <==> |u| > 0 && IsDigit(u[0])
    ensures var t := s[LeadingSpaces(s)..];
            r.Some? && r.value < 0 ==> |t| > 0 && t[0] == '-'
  {
    ParseSigned(s[LeadingSpaces(s)..])
  }

  /** An optional sign, then the digits. */
  function ParseSigned(t: string): Option<int>
  {
    if |t| > 0 && t[0] == '-' then
      match ParseDigits(t[1..])
      case None => None
      case Some(v) => Some(-v)
    else if |t| > 0 && t[0] == '+' then ParseDigits(t[1..])
    else ParseDigits(t)
  }

  /** The value of the leading digit run, or `None` when there is none. */
  function ParseDigits(u: string): (r: Option<int>)
    ensures r.Some? <==> |u| > 0 && IsDigit(u[0])
    ensures r.Some? ==> r.value >= 0
  {
    var k := DigitRun(u);
    if k == 0 then None else Some(DigitsValue(u[..k]))
  }

  /** How a non-negative integer `Number` prints: shortest decimal digits. */
  function ShowNat(n: nat): (s: string)
    ensures |s| > 0 && AllDigits(s)
  {
    if n < 10 then [DigitChar(n)] else ShowNat(n / 10) + [DigitChar(n % 10)]
  }

  /** How an integer `Number` prints in a template literal such as `${page}`. */
  function Show(n: int): (s: string)
    ensures |s| > 0 && (s[0] == '-' <==> n < 0)
    ensures AllDigits(if n < 0 then s[1..] else s)
  {
    if n < 0 then "-" + ShowNat(-n) else ShowNat(n)
  }

  lemma {:induction false} DigitsValueOfShowNat(n: nat)
    ensures DigitsValue(ShowNat(n)) == n
  {
    if n >= 10 {
      var s := ShowNat(n / 10);
      var t := s + [DigitChar(n % 10)];
      assert t[..|t| - 1] == s;
      DigitsValueOfShowNat(n / 10);
    }
  }

  lemma {:induction false} DigitRunStopsAfter(d: string, rest: string)
    requires AllDigits(d)
    requires rest == [] || !IsDigit(rest[0])
    ensures DigitRun(d + rest) == |d|
  {
    if d != [] {
      assert (d + rest)[1..] == d[1..] + rest;
      DigitRunStopsAfter(d[1..], rest);
    }
  }

  /** A digit run followed by a non-digit reads as the run's value. */
  lemma ParseDigitsPrefix(d: string, rest: string)
    requires |d| > 0 && AllDigits(d) && (rest == [] || !IsDigit(rest[0]))
    ensures ParseDigits(d + rest) == Some(DigitsValue(d))
  {
    DigitRunStopsAfter(d, rest);
    assert (d + rest)[..|d|] == d;
  }

  /** `parseInt` of text that starts with neither white space nor a sign
      reads its digits. */
  lemma ParseUnsigned(s: string)
    requires |s| > 0 && IsDigit(s[0])
    ensures ParseInt(s) == ParseDigits(s)
  {
    assert LeadingSpaces(s) == 0;
    assert s[0..] == s;
  }

  /** `parseInt` of text that starts with a minus sign negates its digits. */
  lemma ParseNegative(t: string)
    ensures ParseInt("-" + t) == match ParseDigits(t) case None => None case Some(v) => Some(-v)
  {
    var s := "-" + t;
    assert LeadingSpaces(s) == 0;
    assert s[0..] == s && s[1..] == t;
  }

  /** `parseInt` of text that starts with a plus sign reads the digits after it. */
  lemma ParsePlus(t: string)
    ensures ParseInt("+" + t) == ParseDigits(t)
  {
    assert LeadingSpaces("+" + t) == 0;
    assert ("+" + t)[1..] == t;
  }

  /** `parseInt` reads back a printed integer, whatever non-digit text
      follows it (`"12abc"`, `"3.5"`, `"7&limit=12"`). */
  lemma ParseShowPrefix(n: int, rest: string)
    requires rest == [] || !IsDigit(rest[0])
    ensures ParseInt(Show(n) + rest) == Some(n)
  {
    if n < 0 {
      ParseShowNegative(n, rest);
    } else {
      var d := ShowNat(n);
      DigitsValueOfShowNat(n);
      ParseDigitsPrefix(d, rest);
      ParseUnsigned(d + rest);
    }
  }

  lemma ParseShowNegative(n: int, rest: string)
    requires n < 0 && (rest == [] || !IsDigit(rest[0]))
    ensures ParseInt(Show(n) + rest) == Some(n)
  {
    var d := ShowNat(-n);
    var t := d + rest;
    DigitsValueOfShowNat(-n);
    ParseDigitsPrefix(d, rest);
    assert ParseDigits(t) == Some(-n);
    ParseNegative(t);
    assert ParseInt("-" + t) == Some(n);
    SignedShow(n, rest);
  }

  lemma SignedShow(n: int, rest: string)
    requires n < 0
    ensures Show(n) + rest == "-" + (ShowNat(-n) + rest)
  {
  }

  /** `parseInt` inverts integer printing. */
  lemma ParseShow(n: int)
    ensures ParseInt(Show(n)) == Some(n)
  {
    ParseShowPrefix(n, []);
    assert Show(n) + [] == Show(n);
  }

  /** Leading white space does not change what `parseInt` reads. */
  lemma {:induction false} ParseSkipsSpace(w: string, s: string)
    requires AllSpace(w)
    ensures ParseInt(w + s) == ParseInt(s)
  {
    SpacesThenRest(w, s);
    assert (w + s)[|w| + LeadingSpaces(s)..] == s[LeadingSpaces(s)..];
  }

  lemma {:induction false} SpacesThenRest(w: string, s: string)
    requires AllSpace(w)
    ensures LeadingSpaces(w + s) == |w| + LeadingSpaces(s)
  {
    if w != [] {
      assert (w + s)[1..] == w[1..] + s;
      SpacesThenRest(w[1..], s);
    } else {
      assert w + s == s;
    }
  }

  /** A string with no digit at all parses to NaN. */
  lemma ParseWithoutDigits(s: string)
    requires forall i :: 0 <= i < |s| ==> !IsDigit(s[i])
    ensures ParseInt(s) == None
  {
  }
}
