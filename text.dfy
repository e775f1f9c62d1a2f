/** The string operations the JavaScript code relies on: `trim`,
    `toLowerCase`, `includes`, `Number.prototype.toString`, `padStart(2, "0")`,
    and the `HH:MM` clock strings built and parsed from them. */
module Text {
  import opened Common

  /** ECMAScript WhiteSpace and LineTerminator code points: what `trim` strips. */
  predicate IsJsWhitespace(c: char)
  {
    var n := c as int;
    n == 0x09 || n == 0x0A || n == 0x0B || n == 0x0C || n == 0x0D || n == 0x20
    || n == 0xA0 || n == 0x1680 || (0x2000 <= n <= 0x200A) || n == 0x2028
    || n == 0x2029 || n == 0x202F || n == 0x205F || n == 0x3000 || n == 0xFEFF
  }

  /** No whitespace at either end: the shape of every `trim` result. */
  predicate Trimmed(s: string)
  {
    s == [] || (!IsJsWhitespace(s[0]) && !IsJsWhitespace(s[|s| - 1]))
  }

  function TrimStart(s: string): (r: string)
    ensures |r| <= |s| && r == s[|s| - |r|..]
    ensures r == [] || !IsJsWhitespace(r[0])
    ensures forall i :: 0 <= i < |s| - |r| ==> IsJsWhitespace(s[i])
  {
    if s != [] && IsJsWhitespace(s[0]) then TrimStart(s[1..]) else s
  }

  function TrimEnd(s: string): (r: string)
    ensures |r| <= |s| && r == s[..|r|]
    ensures r == [] || !IsJsWhitespace(r[|r| - 1])
    ensures forall i :: |r| <= i < |s| ==> IsJsWhitespace(s[i])
  {
    if s != [] && IsJsWhitespace(s[|s| - 1]) then TrimEnd(s[..|s| - 1]) else s
  }

  /** `r` is the piece of `s` that starts at offset `i`. */
  predicate SliceAt(r: string, s: string, i: int)
  {
    0 <= i <= |s| - |r| && s[i..i + |r|] == r
  }

  /** `String.prototype.trim`: the longest slice of `s` with no whitespace at
      either end, obtained by dropping only whitespace. */
  function Trim(s: string): (r: string)
    ensures Trimmed(r)
    ensures |r| <= |s|
    ensures exists i :: SliceAt(r, s, i)
  {
    var a := TrimStart(s);
    var r := TrimEnd(a);
    var i := |s| - |a|;
    assert SliceAt(r, s, i);
    if r == [] then r
    else
      assert r[0] == a[0];
      r
  }

  lemma {:induction false} TrimStartOfTrimmed(s: string)
    requires s == [] || !IsJsWhitespace(s[0])
    ensures TrimStart(s) == s
  {
  }

  lemma {:induction false} TrimEndOfTrimmed(s: string)
    requires s == [] || !IsJsWhitespace(s[|s| - 1])
    ensures TrimEnd(s) == s
  {
  }

  /** A string with no whitespace at its ends is left alone by `trim`;
      hence `trim` is idempotent. */
  lemma TrimOfTrimmed(s: string)
    requires Trimmed(s)
    ensures Trim(s) == s
  {
    TrimStartOfTrimmed(s);
    TrimEndOfTrimmed(s);
  }

  /** A string of whitespace only trims to the empty string. */
  lemma TrimAllWhitespace(s: string)
    requires forall i :: 0 <= i < |s| ==> IsJsWhitespace(s[i])
    ensures Trim(s) == ""
  {
  }

  lemma TrimIdempotent(s: string)
    ensures Trim(Trim(s)) == Trim(s)
  {
    TrimOfTrimmed(Trim(s));
  }

  /** A capital letter that `toLowerCase` maps to one code point 32 places
      on: A-Z and the Latin-1 capitals À-Þ, apart from the sign ×. */
  predicate IsShiftCapital(c: char)
  {
    ('A' <= c <= 'Z') || ('\U{00C0}' <= c <= '\U{00DE}' && c != '\U{00D7}')
  }

  /** Case folding of the Latin letters a French text meets: the capitals of
      `IsShiftCapital`, Œ to œ and Ÿ to ÿ. Every other code point is kept. */
  function LowerChar(c: char): (d: char)
    ensures IsShiftCapital(c) ==> d as int == c as int + 32
    ensures c == '\U{0152}' ==> d == '\U{0153}'
    ensures c == '\U{0178}' ==> d == '\U{00FF}'
    ensures !IsShiftCapital(c) && c != '\U{0152}' && c != '\U{0178}' ==> d == c
  {
    if IsShiftCapital(c) then (c as int + 32) as char
    else if c == '\U{0152}' then '\U{0153}'
    else if c == '\U{0178}' then '\U{00FF}'
    else c
  }

  /** `String.prototype.toLowerCase`, restricted to the letters of
      `LowerChar`. */
  function ToLower(s: string): (r: string)
    ensures |r| == |s|
    ensures forall i :: 0 <= i < |s| ==> r[i] == LowerChar(s[i])
  {
    if s == [] then [] else [LowerChar(s[0])] + ToLower(s[1..])
  }

  lemma ToLowerIdempotent(s: string)
    ensures ToLower(ToLower(s)) == ToLower(s)
  {
  }

  lemma LowerCharWhitespace(c: char)
    ensures IsJsWhitespace(LowerChar(c)) <==> IsJsWhitespace(c)
  {
  }

  lemma ToLowerSplit(s: string)
    requires s != []
    ensures ToLower(s)[0] == LowerChar(s[0]) && ToLower(s)[1..] == ToLower(s[1..])
    ensures ToLower(s)[|s| - 1] == LowerChar(s[|s| - 1]) && ToLower(s)[..|s| - 1] == ToLower(s[..|s| - 1])
  {
  }

  /** Lower-casing keeps whitespace where it was, so the order in which the
      two normalisations are applied does not matter. */
  lemma {:induction false} TrimStartToLower(s: string)
    ensures TrimStart(ToLower(s)) == ToLower(TrimStart(s))
  {
    if s != [] {
      ToLowerSplit(s);
      LowerCharWhitespace(s[0]);
      if IsJsWhitespace(s[0]) {
        TrimStartToLower(s[1..]);
      }
    }
  }

  lemma {:induction false} TrimEndToLower(s: string)
    ensures TrimEnd(ToLower(s)) == ToLower(TrimEnd(s))
  {
    if s != [] {
      ToLowerSplit(s);
      LowerCharWhitespace(s[|s| - 1]);
      if IsJsWhitespace(s[|s| - 1]) {
        TrimEndToLower(s[..|s| - 1]);
      }
    }
  }

  lemma TrimToLowerCommute(s: string)
    ensures Trim(ToLower(s)) == ToLower(Trim(s))
  {
    TrimStartToLower(s);
    TrimEndToLower(TrimStart(s));
  }

  /** The e-mail normalisation `email.toLowerCase().trim()`. */
  function NormalizeEmail(s: string): (r: string)
    ensures Trimmed(r)
    ensures ToLower(r) == r
  {
    var r := Trim(ToLower(s));
    TrimToLowerCommute(s);
    ToLowerIdempotent(Trim(s));
    r
  }

  /** Applying the normalisation again (the schema's `lowercase` and `trim`
      setters do) changes nothing. */
  lemma NormalizeEmailIdempotent(s: string)
    ensures NormalizeEmail(NormalizeEmail(s)) == NormalizeEmail(s)
  {
    var e := NormalizeEmail(s);
    TrimOfTrimmed(e);
  }

  /** Non-empty, and neither end is whitespace. */
  predicate NonBlankEnds(s: string)
  {
    s != [] && !IsJsWhitespace(s[0]) && !IsJsWhitespace(s[|s| - 1])
  }

  /** A string with non-blank ends survives both normalisations non-empty. */
  lemma NonBlankEndsSurvive(s: string)
    requires NonBlankEnds(s)
    ensures Trim(s) == s
    ensures NormalizeEmail(s) == ToLower(s) && NormalizeEmail(s) != []
  {
    TrimOfTrimmed(s);
    var l := ToLower(s);
    LowerCharWhitespace(s[0]);
    LowerCharWhitespace(s[|s| - 1]);
    TrimOfTrimmed(l);
  }

  predicate IsPrefix(p: string, s: string)
  {
    |p| <= |s| && s[..|p|] == p
  }

  /** `String.prototype.includes`: `needle` occurs at some offset of `hay`. */
  function Contains(hay: string, needle: string): (r: bool)
    ensures r <==> exists i :: SliceAt(needle, hay, i)
  {
    if IsPrefix(needle, hay) then
      assert SliceAt(needle, hay, 0);
      true
    else if |hay| <= |needle| then
      false
    else
      var r := Contains(hay[1..], needle);
      ShiftedOccurrence(hay, needle);
      r
  }

  lemma ShiftedOccurrence(hay: string, needle: string)
    requires hay != [] && !IsPrefix(needle, hay)
    ensures (exists i :: SliceAt(needle, hay, i)) <==> (exists j :: SliceAt(needle, hay[1..], j))
  {
    var t := hay[1..];
    if exists i :: SliceAt(needle, hay, i) {
      var i :| SliceAt(needle, hay, i);
      assert i != 0;
      assert t[i - 1..i - 1 + |needle|] == hay[i..i + |needle|];
      assert SliceAt(needle, t, i - 1);
    }
    if exists j :: SliceAt(needle, t, j) {
      var j :| SliceAt(needle, t, j);
      assert hay[j + 1..j + 1 + |needle|] == t[j..j + |needle|];
      assert SliceAt(needle, hay, j + 1);
    }
  }

  // ------------------------------------------------------------------
  // Decimal digits

  predicate IsDigit(c: char)
  {
    '0' <= c <= '9'
  }

  function DigitChar(d: nat): (c: char)
    requires d < 10
    ensures IsDigit(c) && c as int - '0' as int == d
  {
    ('0' as int + d) as char
  }

  function DigitValue(c: char): (d: nat)
    requires IsDigit(c)
    ensures d < 10 && DigitChar(d) == c
  {
    c as int - '0' as int
  }

  predicate AllDigits(s: string)
  {
    forall i :: 0 <= i < |s| ==> IsDigit(s[i])
  }

  /** `Number.prototype.toString` of a non-negative integer. */
  function NatToString(n: nat): (r: string)
    ensures |r| >= 1 && AllDigits(r)
    ensures n < 10 <==> |r| == 1
    ensures n < 100 ==> |r| <= 2
  {
    if n < 10 then [DigitChar(n)] else NatToString(n / 10) + [DigitChar(n % 10)]
  }

  /** The value of a string of decimal digits. */
  function DecimalValue(s: string): nat
    requires AllDigits(s)
  {
    if s == [] then 0 else DecimalValue(s[..|s| - 1]) * 10 + DigitValue(s[|s| - 1])
  }

  lemma {:induction false} DecimalValueOfNatToString(n: nat)
    ensures DecimalValue(NatToString(n)) == n
  {
    var r := NatToString(n);
    if n >= 10 {
      assert r[..|r| - 1] == NatToString(n / 10);
      DecimalValueOfNatToString(n / 10);
    }
  }

  /** Distinct numbers print differently. */
  lemma NatToStringInjective(a: nat, b: nat)
    requires NatToString(a) == NatToString(b)
    ensures a == b
  {
    DecimalValueOfNatToString(a);
    DecimalValueOfNatToString(b);
  }

  /** `n.toString().padStart(2, "0")`. */
  function Pad2(n: nat): (r: string)
    ensures n < 100 ==> r == [DigitChar(n / 10), DigitChar(n % 10)]
  {
    var s := NatToString(n);
    if |s| < 2 then
      assert s == [DigitChar(n)];
      "0" + s
    else
      assert n < 100 ==> s == NatToString(n / 10) + [DigitChar(n % 10)];
      s
  }

  /** A well-formed clock string: two digits, a colon, two digits. */
  predicate IsHhMm(s: string)
  {
    |s| == 5 && IsDigit(s[0]) && IsDigit(s[1]) && s[2] == ':' && IsDigit(s[3]) && IsDigit(s[4])
  }

  /** Minute of day to `HH:MM`, as the slot loop builds `timeString`. */
  function FormatHhMm(t: nat): (r: string)
    ensures t < 6000 ==> IsHhMm(r)
  {
    Pad2(t / 60) + ":" + Pad2(t % 60)
  }

  /** Minutes of a strict `HH:MM` clock string, the shape of every entry of
      the slot table; `None` for any other shape. The lenient reading that
      `split(':').map(Number)` gives any string is `ClockMinutes`, and the two
      agree on every string the slot loop prints (`ClockMinutesOfFormat`
      beside `ParseFormat`). */
  function ParseHhMm(s: string): (r: Option<int>)
    ensures r.Some? <==> IsHhMm(s)
    ensures r.Some? ==> 0 <= r.value <= 99 * 60 + 99
  {
    if IsHhMm(s) then
      Some((DigitValue(s[0]) * 10 + DigitValue(s[1])) * 60 + DigitValue(s[3]) * 10 + DigitValue(s[4]))
    else None
  }

  /** Formatting then parsing gives back the minute of day. */
  lemma ParseFormat(t: nat)
    requires t < 6000
    ensures ParseHhMm(FormatHhMm(t)) == Some(t)
  {
    var h, m := t / 60, t % 60;
    assert Pad2(h) == [DigitChar(h / 10), DigitChar(h % 10)];
    assert Pad2(m) == [DigitChar(m / 10), DigitChar(m % 10)];
  }

  /** Two different minutes of day never print the same string. */
  lemma FormatInjective(a: nat, b: nat)
    requires a < 6000 && b < 6000 && FormatHhMm(a) == FormatHhMm(b)
    ensures a == b
  {
    ParseFormat(a);
    ParseFormat(b);
  }

  /** Two digits read as a number print back as the same two digits. */
  lemma Pad2OfDigits(c0: char, c1: char)
    requires IsDigit(c0) && IsDigit(c1)
    ensures Pad2(DigitValue(c0) * 10 + DigitValue(c1)) == [c0, c1]
  {
    var a, b := DigitValue(c0), DigitValue(c1);
    assert (a * 10 + b) / 10 == a && (a * 10 + b) % 10 == b;
  }

  /** A clock string whose minutes are below 60 is the printed form of the
      minute of day it parses to. */
  lemma FormatParse(s: string)
    requires IsHhMm(s) && DigitValue(s[3]) < 6
    ensures ParseHhMm(s).Some? && ParseHhMm(s).value >= 0
    ensures FormatHhMm(ParseHhMm(s).value) == s
  {
    var h := DigitValue(s[0]) * 10 + DigitValue(s[1]);
    var m := DigitValue(s[3]) * 10 + DigitValue(s[4]);
    var t := h * 60 + m;
    assert ParseHhMm(s) == Some(t);
    assert t / 60 == h && t % 60 == m;
    Pad2OfDigits(s[0], s[1]);
    Pad2OfDigits(s[3], s[4]);
    assert s == [s[0], s[1]] + ":" + [s[3], s[4]];
  }
}
