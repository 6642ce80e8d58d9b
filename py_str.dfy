/** The Python string built-ins the core relies on: `str.isspace` on one
    character, `str.find` with its slice-index conventions, `str` of a
    non-negative `int`, and `str.join`. */
module PyStr {

  /** `c.isspace()` for a single character: CPython's whitespace table. */
  predicate IsSpace(c: char) {
    ('\t' <= c <= '\r') || ('\U{1C}' <= c <= ' ') || c == '\U{85}' || c == '\U{A0}' ||
    c == '\U{1680}' || ('\U{2000}' <= c <= '\U{200A}') || c == '\U{2028}' || c == '\U{2029}' ||
    c == '\U{202F}' || c == '\U{205F}' || c == '\U{3000}'
  }

  // ---------------------------------------------------------------------------
  // str.find(sub, start, end)
  // ---------------------------------------------------------------------------

  /** Python adjusts a negative `start` by adding the length, and then floors
      it at 0; a `start` beyond the end is left as it is. */
  function ClampStart(start: int, n: nat): (lo: nat)
    ensures start >= 0 ==> lo == start
    ensures start < 0 ==> lo < n || lo == 0
  {
    if start >= 0 then start else if start + n < 0 then 0 else start + n
  }

  /** Python caps `end` at the length, adjusts a negative `end` by adding the
      length, and floors it at 0. */
  function ClampEnd(end: int, n: nat): (hi: nat)
    ensures hi <= n
    ensures 0 <= end <= n ==> hi == end
  {
    if end > n then n else if end >= 0 then end else if end + n < 0 then 0 else end + n
  }

  predicate MatchesAt(s: string, sub: string, k: nat)
    requires k + |sub| <= |s|
  {
    s[k..k + |sub|] == sub
  }

  /** The first index `r` in `[i, hi - |sub|]` where `sub` occurs, or -1. */
  function FindFrom(s: string, sub: string, i: nat, hi: nat): (r: int)
    requires hi <= |s|
    ensures r == -1 || (i <= r && r + |sub| <= hi)
    decreases hi - i
  {
    if i + |sub| > hi then -1
    else if MatchesAt(s, sub, i) then i
    else FindFrom(s, sub, i + 1, hi)
  }

  /** `s.find(sub, start, end)`: the lowest index at which `sub` occurs inside
      the slice `s[start:end]`, or -1 when it does not occur there. */
  function Find(s: string, sub: string, start: int, end: int): (r: int)
    ensures r == -1 || (ClampStart(start, |s|) <= r && r + |sub| <= ClampEnd(end, |s|))
  {
    FindFrom(s, sub, ClampStart(start, |s|), ClampEnd(end, |s|))
  }

  /** `sub` occurs at `r` and nowhere in `[lo, r)`, or `r` is -1 and `sub`
      occurs nowhere in `[lo, hi)`. */
  predicate IsFirstMatch(s: string, sub: string, lo: nat, hi: nat, r: int)
    requires hi <= |s|
  {
    (r == -1 && forall k :: lo <= k && k + |sub| <= hi ==> !MatchesAt(s, sub, k)) ||
    (lo <= r && r + |sub| <= hi && MatchesAt(s, sub, r) &&
     forall k :: lo <= k < r ==> !MatchesAt(s, sub, k))
  }

  lemma {:induction false} FindFromIsFirst(s: string, sub: string, i: nat, hi: nat)
    requires hi <= |s|
    ensures IsFirstMatch(s, sub, i, hi, FindFrom(s, sub, i, hi))
    decreases hi - i
  {
    if i + |sub| <= hi && !MatchesAt(s, sub, i) {
      FindFromIsFirst(s, sub, i + 1, hi);
    }
  }

  /** `str.find` returns the first occurrence inside the adjusted slice. */
  lemma {:induction false} FindIsFirst(s: string, sub: string, start: int, end: int)
    ensures IsFirstMatch(s, sub, ClampStart(start, |s|), ClampEnd(end, |s|), Find(s, sub, start, end))
  {
    FindFromIsFirst(s, sub, ClampStart(start, |s|), ClampEnd(end, |s|));
  }

  /** `s.find(c, start, end)` for a one-character needle, searched for
      character by character. */
  function FindChar(s: string, c: char, start: int, end: int): (r: int)
    ensures r == -1 || (ClampStart(start, |s|) <= r < ClampEnd(end, |s|))
  {
    FindCharFrom(s, c, ClampStart(start, |s|), ClampEnd(end, |s|))
  }

  function FindCharFrom(s: string, c: char, i: nat, hi: nat): (r: int)
    requires hi <= |s|
    ensures r == -1 || (i <= r < hi)
    decreases hi - i
  {
    if i >= hi then -1
    else if s[i] == c then i
    else FindCharFrom(s, c, i + 1, hi)
  }

  lemma {:induction false} FindCharFromIsFindFrom(s: string, c: char, i: nat, hi: nat)
    requires hi <= |s|
    ensures FindCharFrom(s, c, i, hi) == FindFrom(s, [c], i, hi)
    decreases hi - i
  {
    if i < hi {
      assert MatchesAt(s, [c], i) <==> s[i] == c by {
        assert s[i..i + 1] == [s[i]];
      }
      FindCharFromIsFindFrom(s, c, i + 1, hi);
    }
  }

  /** The one-character search is `str.find` with a one-character string. */
  lemma {:induction false} FindCharIsFind(s: string, c: char, start: int, end: int)
    ensures FindChar(s, c, start, end) == Find(s, [c], start, end)
  {
    FindCharFromIsFindFrom(s, c, ClampStart(start, |s|), ClampEnd(end, |s|));
  }

  /** `c` is at `r` and nowhere in `[lo, r)`, or `r` is -1 and `c` is
      nowhere in `[lo, hi)`. */
  predicate IsFirstChar(s: string, c: char, lo: nat, hi: nat, r: int)
    requires hi <= |s|
  {
    (r == -1 && forall k :: lo <= k < hi ==> s[k] != c) ||
    (lo <= r < hi && s[r] == c && forall k :: lo <= k < r ==> s[k] != c)
  }

  lemma {:induction false} FindCharFromIsFirst(s: string, c: char, i: nat, hi: nat)
    requires hi <= |s|
    ensures IsFirstChar(s, c, i, hi, FindCharFrom(s, c, i, hi))
    decreases hi - i
  {
    if i < hi && s[i] != c {
      FindCharFromIsFirst(s, c, i + 1, hi);
    }
  }

  /** The one-character search returns the first occurrence inside the
      adjusted slice. */
  lemma {:induction false} FindCharIsFirst(s: string, c: char, start: int, end: int)
    ensures IsFirstChar(s, c, ClampStart(start, |s|), ClampEnd(end, |s|), FindChar(s, c, start, end))
  {
    FindCharFromIsFirst(s, c, ClampStart(start, |s|), ClampEnd(end, |s|));
  }

  // ---------------------------------------------------------------------------
  // str(n) for a non-negative int
  // ---------------------------------------------------------------------------

  predicate IsDigit(c: char) {
    '0' <= c <= '9'
  }

  predicate AllDigits(r: string) {
    forall i :: 0 <= i < |r| ==> IsDigit(r[i])
  }

  function DigitChar(d: nat): (c: char)
    requires d < 10
    ensures IsDigit(c)
  {
    ('0' as int + d) as char
  }

  function DigitValue(c: char): nat
    requires IsDigit(c)
  {
    c as int - '0' as int
  }

  /** `str(n)`: the decimal digits of `n`, most significant first. */
  function Decimal(n: nat): (r: string)
    ensures |r| >= 1
    decreases n
  {
    if n < 10 then [DigitChar(n)] else Decimal(n / 10) + [DigitChar(n % 10)]
  }

  /** `str(n)` is made of digits only, with no leading zero except for
      `n == 0` itself. */
  lemma {:induction false} DecimalDigits(n: nat)
    ensures AllDigits(Decimal(n))
    ensures Decimal(n)[0] == '0' <==> n == 0
    decreases n
  {
    if n >= 10 {
      DecimalDigits(n / 10);
    }
  }

  /** `int(r)` for a string of decimal digits. */
  function DecimalValue(r: string): nat
    requires AllDigits(r)
  {
    if r == [] then 0 else DecimalValue(r[..|r| - 1]) * 10 + DigitValue(r[|r| - 1])
  }

  /** Reading `str(n)` back as a number gives `n`. */
  lemma {:induction false} DecimalRoundTrip(n: nat)
    ensures AllDigits(Decimal(n)) && DecimalValue(Decimal(n)) == n
    decreases n
  {
    DecimalDigits(n);
    var r := Decimal(n);
    if n >= 10 {
      DecimalRoundTrip(n / 10);
      assert r[..|r| - 1] == Decimal(n / 10);
    }
  }

  // ---------------------------------------------------------------------------
  // sep.join(parts)
  // ---------------------------------------------------------------------------

  function Join(parts: seq<string>, sep: string): string
  {
    if |parts| == 0 then ""
    else if |parts| == 1 then parts[0]
    else parts[0] + sep + Join(parts[1..], sep)
  }
}
