/**
 * Text helpers that reproduce the JavaScript string operations the graph engine
 * relies on: decimal rendering of counters in ids such as "node-7", the first
 * run of digits in an id that the A* heuristic reads, and the id slug built
 * from a title by lower-casing it and replacing each run of characters other
 * than a-z and 0-9 by one underscore.
 */
module JsText {

  datatype Option<T> = None | Some(value: T)

  predicate IsDigit(c: char) {
    '0' <= c <= '9'
  }

  predicate AllDigits(s: string) {
    forall i :: 0 <= i < |s| ==> IsDigit(s[i])
  }

  predicate HasDigit(s: string) {
    exists i :: 0 <= i < |s| && IsDigit(s[i])
  }

  function DigitChar(d: nat): (c: char)
    requires d < 10
    ensures IsDigit(c) && c as int - '0' as int == d
  {
    ('0' as int + d) as char
  }

  /** Value of a string of decimal digits (what base-10 `parseInt` yields for it). */
  function DigitsValue(s: string): nat
    requires AllDigits(s)
  {
    if |s| == 0 then 0
    else DigitsValue(s[..|s| - 1]) * 10 + (s[|s| - 1] as int - '0' as int)
  }

  /** Decimal rendering of a natural number, as `${n}` gives it. */
  function NatToString(n: nat): string
    decreases n
  {
    if n < 10 then [DigitChar(n)] else NatToString(n / 10) + [DigitChar(n % 10)]
  }

  /** Decimal rendering round-trips through parsing, has no leading zero and is never empty. */
  lemma {:induction false} NatToStringRoundTrip(n: nat)
    ensures |NatToString(n)| > 0 && AllDigits(NatToString(n))
    ensures DigitsValue(NatToString(n)) == n
    ensures NatToString(n)[0] != '0' || n == 0
    decreases n
  {
    if n >= 10 {
      NatToStringRoundTrip(n / 10);
      var s := NatToString(n);
      var p := NatToString(n / 10);
      assert s == p + [DigitChar(n % 10)];
      assert s[..|s| - 1] == p;
    }
  }

  lemma NatToStringInjective(a: nat, b: nat)
    requires NatToString(a) == NatToString(b)
    ensures a == b
  {
    NatToStringRoundTrip(a);
    NatToStringRoundTrip(b);
  }

  // ---------------------------------------------------------------------------
  // First run of digits (what the heuristic matches in an id)

  /** Drops everything before the first digit. */
  function SkipToDigit(s: string): (t: string)
    ensures |t| <= |s| && t == s[|s| - |t|..]
    ensures |t| > 0 ==> IsDigit(t[0])
  {
    if |s| == 0 || IsDigit(s[0]) then s else SkipToDigit(s[1..])
  }

  /** The longest prefix made of digits. */
  function DigitPrefix(s: string): (t: string)
    ensures |t| <= |s| && t == s[..|t|] && AllDigits(t)
    ensures |t| < |s| ==> !IsDigit(s[|t|])
  {
    if |s| == 0 || !IsDigit(s[0]) then [] else [s[0]] + DigitPrefix(s[1..])
  }

  /** The first maximal run of digits, or None when `s` has no digit (the regex match is null). */
  function FirstDigitRun(s: string): (r: Option<string>)
    ensures r.None? <==> !HasDigit(s)
    ensures r.Some? ==> |r.value| > 0 && AllDigits(r.value)
  {
    var t := SkipToDigit(s);
    if |t| == 0 then
      assert !HasDigit(s) by {
        if HasDigit(s) {
          var i :| 0 <= i < |s| && IsDigit(s[i]);
          SkipToDigitFindsDigit(s, i);
        }
      }
      None
    else
      assert HasDigit(s) by { assert s[|s| - |t|] == t[0]; }
      Some(DigitPrefix(t))
  }

  lemma {:induction false} SkipToDigitFindsDigit(s: string, i: nat)
    requires i < |s| && IsDigit(s[i])
    ensures |SkipToDigit(s)| > 0
  {
    if !IsDigit(s[0]) {
      SkipToDigitFindsDigit(s[1..], i - 1);
    }
  }

  /** A digit-free prefix does not change the first digit run. */
  lemma {:induction false} SkipPastDigitFreePrefix(p: string, s: string)
    requires !HasDigit(p)
    ensures SkipToDigit(p + s) == SkipToDigit(s)
  {
    if |p| > 0 {
      assert !IsDigit(p[0]);
      assert (p + s)[1..] == p[1..] + s;
      assert !HasDigit(p[1..]) by {
        forall i | 0 <= i < |p[1..]| ensures !IsDigit(p[1..][i]) { assert p[1..][i] == p[i + 1]; }
      }
      SkipPastDigitFreePrefix(p[1..], s);
    } else {
      assert p + s == s;
    }
  }

  lemma {:induction false} DigitPrefixOfDigits(s: string)
    requires AllDigits(s)
    ensures DigitPrefix(s) == s
  {
    if |s| > 0 {
      DigitPrefixOfDigits(s[1..]);
    }
  }

  /** The counter ids the layouts generate read back as their counter. */
  lemma GeneratedIdDigitRun(prefix: string, k: nat)
    requires !HasDigit(prefix)
    ensures FirstDigitRun(prefix + NatToString(k)) == Some(NatToString(k))
  {
    NatToStringRoundTrip(k);
    SkipPastDigitFreePrefix(prefix, NatToString(k));
    DigitPrefixOfDigits(NatToString(k));
  }

  /** Whether `t` occurs in `s` as a contiguous part. */
  predicate Includes(s: string, t: string) {
    t <= s || (|s| > 0 && Includes(s[1..], t))
  }

  // ---------------------------------------------------------------------------
  // Slugs: lower-case, then each run of characters other than a-z and 0-9 becomes one underscore

  function ToLower(c: char): char {
    if 'A' <= c <= 'Z' then (c as int + 32) as char else c
  }

  predicate IsSlugChar(c: char) {
    'a' <= c <= 'z' || IsDigit(c)
  }

  /** Skips the rest of a run of characters that the slug replaces. */
  function SkipRun(s: string): (t: string)
    ensures |t| <= |s| && t == s[|s| - |t|..]
    ensures |t| > 0 ==> IsSlugChar(ToLower(t[0]))
  {
    if |s| > 0 && !IsSlugChar(ToLower(s[0])) then SkipRun(s[1..]) else s
  }

  /** Lower-cases `s` and replaces each maximal run of other characters with one "_". */
  function Slug(s: string): (r: string)
    decreases |s|
  {
    if |s| == 0 then []
    else if IsSlugChar(ToLower(s[0])) then [ToLower(s[0])] + Slug(s[1..])
    else "_" + Slug(SkipRun(s[1..]))
  }

  predicate IsSlug(r: string) {
    && (forall i :: 0 <= i < |r| ==> IsSlugChar(r[i]) || r[i] == '_')
    && (forall i :: 0 <= i < |r| - 1 ==> !(r[i] == '_' && r[i + 1] == '_'))
  }

  /** A slug holds only [a-z0-9_] and never two underscores in a row; an "_" is never followed by one. */
  lemma {:induction false} SlugShape(s: string)
    ensures IsSlug(Slug(s))
    ensures |Slug(s)| > 0 && Slug(s)[0] == '_' ==> |s| > 0 && !IsSlugChar(ToLower(s[0]))
    ensures |s| > 0 ==> |Slug(s)| > 0
    decreases |s|
  {
    if |s| > 0 {
      if IsSlugChar(ToLower(s[0])) {
        SlugShape(s[1..]);
      } else {
        var t := SkipRun(s[1..]);
        SlugShape(t);
        if |Slug(t)| > 0 {
          assert |t| > 0 && IsSlugChar(ToLower(t[0]));
          assert Slug(t)[0] != '_';
        }
      }
    }
  }

  lemma {:induction false} SlugOfSlugChars(r: string)
    requires forall i :: 0 <= i < |r| ==> IsSlugChar(r[i])
    ensures Slug(r) == r
  {
    if |r| > 0 {
      assert ToLower(r[0]) == r[0];
      SlugOfSlugChars(r[1..]);
      assert r == [r[0]] + r[1..];
    }
  }

  /** Slugging a slug changes nothing: the id base is stable. */
  lemma {:induction false} SlugIdempotent(r: string)
    requires IsSlug(r)
    ensures Slug(r) == r
    decreases |r|
  {
    if |r| > 0 {
      SlugTail(r);
      SlugIdempotent(r[1..]);
      SlugStep(r);
      assert r == [r[0]] + r[1..];
    }
  }

  lemma SlugTail(r: string)
    requires IsSlug(r) && |r| > 0
    ensures IsSlug(r[1..])
  {
    forall i | 0 <= i < |r[1..]| - 1 ensures !(r[1..][i] == '_' && r[1..][i + 1] == '_') {
      assert r[1..][i] == r[i + 1] && r[1..][i + 1] == r[i + 2];
    }
  }

  /** The first character of a slug is kept as it is, and an "_" is not followed by a run to skip. */
  lemma SlugStep(r: string)
    requires IsSlug(r) && |r| > 0
    ensures Slug(r) == [r[0]] + Slug(r[1..])
  {
    if r[0] == '_' {
      assert !IsSlugChar(ToLower('_'));
      assert |r| > 1 ==> r[1] != '_' && ToLower(r[1]) == r[1];
      assert SkipRun(r[1..]) == r[1..];
    } else {
      assert ToLower(r[0]) == r[0];
    }
  }
}
