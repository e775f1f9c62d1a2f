/** How `getAvailableTimeSlots` reads a clock string:
    `const [h, m] = s.split(':').map(Number)` and `h * 60 + m`. */
module ClockText {
  import opened Common
  import opened Text

  /** The first element of `split(':')`: the text before the first colon,
      or the whole string when it has none. */
  function FirstField(s: string): (r: string)
    ensures ':' !in r
  {
    if s == [] || s[0] == ':' then [] else [s[0]] + FirstField(s[1..])
  }

  /** The text after the first colon, from which the second element of
      `split(':')` is taken; `None` when there is no colon, where that
      element is `undefined`. */
  function AfterColon(s: string): (r: Option<string>)
    ensures r.None? <==> ':' !in s
  {
    if s == [] then None
    else if s[0] == ':' then Some(s[1..])
    else match AfterColon(s[1..])
      case None => None
      case Some(rest) => Some(rest)
  }

  /** `Number` of a string with no whitespace at its ends: 0 for the
      empty string, the value of a string of decimal digits (leading zeros
      allowed); `None`, standing for NaN, for every other string. */
  function TrimmedNumber(t: string): Option<nat>
  {
    if t == [] then Some(0) else if AllDigits(t) then Some(DecimalValue(t)) else None
  }

  /** `Number(str)`: surrounding whitespace is ignored first. A non-empty
      run of digits has no whitespace to trim and is read at once. */
  function JsNumber(s: string): Option<nat>
  {
    if s != [] && AllDigits(s) then Some(DecimalValue(s)) else TrimmedNumber(Trim(s))
  }

  /** The shortcut agrees with trimming first: a run of digits is its own
      trimmed form. */
  lemma JsNumberTrims(s: string)
    ensures JsNumber(s) == TrimmedNumber(Trim(s))
  {
    if s != [] && AllDigits(s) {
      TrimOfTrimmed(s);
    }
  }

  /** `h * 60 + m` on two numbers, NaN when either is NaN. */
  function ClockSum(h: Option<nat>, m: Option<nat>): (r: Option<int>)
    ensures r.Some? <==> h.Some? && m.Some?
    ensures r.Some? ==> r.value == h.value * 60 + m.value
  {
    if h.Some? && m.Some? then Some(h.value * 60 + m.value) else None
  }

  /** `const [h, m] = s.split(':').map(Number); h * 60 + m`: the first two
      colon-separated fields read as numbers. A missing second field is
      `undefined`, whose number is NaN, and NaN spreads through the sum. */
  function ClockMinutes(s: string): (r: Option<int>)
    ensures r.Some? ==> ':' in s && r.value >= 0
  {
    match AfterColon(s)
    case None => None
    case Some(rest) => ClockSum(JsNumber(FirstField(s)), JsNumber(FirstField(rest)))
  }

  /** Splitting `a:b` at its first colon, when `a` has none. */
  lemma {:induction false} FieldsOf(a: string, b: string)
    requires ':' !in a
    ensures FirstField(a + ":" + b) == a && AfterColon(a + ":" + b) == Some(b)
  {
    if a != [] {
      assert (a + ":" + b)[1..] == a[1..] + ":" + b;
      FieldsOf(a[1..], b);
    }
  }

  /** A string without a colon is its own first field. */
  lemma {:induction false} FirstFieldNoColon(a: string)
    requires ':' !in a
    ensures FirstField(a) == a
  {
    if a != [] {
      FirstFieldNoColon(a[1..]);
    }
  }

  /** Two digits read as a number. */
  lemma DecimalValueTwo(s: string)
    requires |s| == 2 && AllDigits(s)
    ensures DecimalValue(s) == DigitValue(s[0]) * 10 + DigitValue(s[1])
  {
    var p := s[..1];
    assert p[..0] == [] && p[0] == s[0] && s[..|s| - 1] == p;
    assert DecimalValue(p) == DecimalValue(p[..0]) * 10 + DigitValue(s[0]);
  }

  /** `h:m` with colon-free fields reads as `Number(h) * 60 + Number(m)`. */
  lemma ClockOfFields(h: string, m: string)
    requires ':' !in h && ':' !in m
    ensures ClockMinutes(h + ":" + m) == ClockSum(JsNumber(h), JsNumber(m))
  {
    var s := h + ":" + m;
    FieldsOf(h, m);
    FirstFieldNoColon(m);
    assert AfterColon(s) == Some(m) && FirstField(s) == h && FirstField(m) == m;
  }

  /** Two numbers give their clock sum. */
  lemma ClockSumOf(x: Option<nat>, y: Option<nat>, a: nat, b: nat)
    requires x == Some(a) && y == Some(b)
    ensures ClockSum(x, y) == Some(a * 60 + b)
  {
  }

  /** `h:m` whose fields read as the numbers `a` and `b` is minute
      `a * 60 + b`. */
  lemma ClockOfNumbers(h: string, m: string, a: nat, b: nat)
    requires ':' !in h && ':' !in m && JsNumber(h) == Some(a) && JsNumber(m) == Some(b)
    ensures ClockMinutes(h + ":" + m) == Some(a * 60 + b)
  {
    ClockOfFields(h, m);
    ClockSumOf(JsNumber(h), JsNumber(m), a, b);
  }

  /** A third field does not change the reading: `h:m:x` reads as `h:m`. */
  lemma ClockSecondsIgnored(h: string, m: string, x: string)
    requires ':' !in h && ':' !in m
    ensures ClockMinutes(h + ":" + m + ":" + x) == ClockMinutes(h + ":" + m)
  {
    assert h + ":" + m + ":" + x == h + ":" + (m + ":" + x);
    FieldsOf(h, m + ":" + x);
    FieldsOf(m, x);
    FieldsOf(h, m);
    FirstFieldNoColon(m);
  }

  /** Without a colon the minutes are `undefined`, and the sum is NaN. */
  lemma NoColonIsNaN(s: string)
    requires ':' !in s
    ensures ClockMinutes(s).None?
  {
  }
}

/** What the lenient reading of `ClockText` gives on the clock strings the
    site stores: the same minute as the strict `HH:MM` reading on the slot
    table, and a minute too for the shapes the strict reading refuses. */
module ClockFacts {
  import opened Common
  import opened Text
  import opened ClockText

  /** One digit is read by `Number` as its value. */
  lemma JsNumberOneDigit(c: char)
    requires IsDigit(c)
    ensures JsNumber([c]) == Some(DigitValue(c))
  {
    var s := [c];
    assert s[..|s| - 1] == [] && s[|s| - 1] == c;
    assert DecimalValue(s) == DecimalValue(s[..|s| - 1]) * 10 + DigitValue(c);
  }

  /** Two digits are read by `Number` as their two-digit value. */
  lemma JsNumberTwoDigits(c0: char, c1: char)
    requires IsDigit(c0) && IsDigit(c1)
    ensures JsNumber([c0, c1]) == Some(DigitValue(c0) * 10 + DigitValue(c1))
  {
    DecimalValueTwo([c0, c1]);
  }

  /** A two-digit padding is a run of digits `Number` reads as the number
      padded. */
  lemma JsNumberOfPad2(n: nat)
    requires n < 100
    ensures ':' !in Pad2(n) && JsNumber(Pad2(n)) == Some(n)
  {
    var p := Pad2(n);
    assert p == [DigitChar(n / 10), DigitChar(n % 10)];
    DecimalValueTwo(p);
  }

  /** The hours and minutes of a minute of day sum back to it. */
  lemma ClockSumOfMinute(x: Option<nat>, y: Option<nat>, t: nat)
    requires x == Some(t / 60) && y == Some(t % 60)
    ensures ClockSum(x, y) == Some(t)
  {
  }

  /** Reading back a printed minute of day gives the minute: a string the
      backend's slot loop prints is read by `split(':').map(Number)` as the
      minute it names. */
  lemma ClockMinutesOfFormat(t: nat)
    requires t < 6000
    ensures ClockMinutes(FormatHhMm(t)) == Some(t)
  {
    var h, m := Pad2(t / 60), Pad2(t % 60);
    JsNumberOfPad2(t / 60);
    JsNumberOfPad2(t % 60);
    ClockOfFields(h, m);
    ClockSumOfMinute(JsNumber(h), JsNumber(m), t);
  }

  /** `s`, made of two two-digit fields `h` and `m` around a colon, reads
      as the minute `a * 60 + b` they name. */
  lemma ClockOfTwoDigitFields(s: string, h: string, m: string, a: nat, b: nat)
    requires |h| == 2 && AllDigits(h) && |m| == 2 && AllDigits(m) && s == h + ":" + m
    requires DigitValue(h[0]) * 10 + DigitValue(h[1]) == a
    requires DigitValue(m[0]) * 10 + DigitValue(m[1]) == b
    ensures ClockMinutes(s) == Some(a * 60 + b)
  {
    JsNumberTwoDigits(h[0], h[1]);
    JsNumberTwoDigits(m[0], m[1]);
    assert h == [h[0], h[1]] && m == [m[0], m[1]];
    ClockOfFields(h, m);
    ClockSumOf(JsNumber(h), JsNumber(m), a, b);
  }

  /** `s`, made of a one-digit hour `h` and a two-digit minute `m` around
      a colon, reads as the minute `a * 60 + b` they name. */
  lemma ClockOfShortHour(s: string, h: string, m: string, a: nat, b: nat)
    requires |h| == 1 && AllDigits(h) && |m| == 2 && AllDigits(m) && s == h + ":" + m
    requires DigitValue(h[0]) == a && DigitValue(m[0]) * 10 + DigitValue(m[1]) == b
    ensures ClockMinutes(s) == Some(a * 60 + b)
  {
    JsNumberOneDigit(h[0]);
    JsNumberTwoDigits(m[0], m[1]);
    assert h == [h[0]] && m == [m[0], m[1]];
    ClockOfNumbers(h, m, a, b);
  }

  /** `s`, which is `t` followed by a third field, reads as `t`. */
  lemma ClockOfThreeFields(s: string, t: string, h: string, m: string, x: string)
    requires ':' !in h && ':' !in m && s == h + ":" + m + ":" + x && t == h + ":" + m
    ensures ClockMinutes(s) == ClockMinutes(t)
  {
    ClockSecondsIgnored(h, m, x);
  }

  /** The default opening time reads as 08:00. */
  lemma DefaultOpening()
    ensures ClockMinutes("08:00") == Some(480)
  {
    ClockOfTwoDigitFields("08:00", "08", "00", 8, 0);
  }

  /** The default closing time reads as 21:00. */
  lemma DefaultClosing()
    ensures ClockMinutes("21:00") == Some(1260)
  {
    ClockOfTwoDigitFields("21:00", "21", "00", 21, 0);
  }

  /** `8:00`, with a one-digit hour, is 08:00, where the strict reading
      refuses it. */
  lemma LenientOneDigitHour()
    ensures ClockMinutes("8:00") == Some(480)
    ensures ParseHhMm("8:00").None?
  {
    ClockOfShortHour("8:00", "8", "00", 8, 0);
  }

  /** `08:00:00`, with a seconds field, is 08:00: the third field is
      ignored. */
  lemma LenientSecondsField()
    ensures ClockMinutes("08:00:00") == Some(480)
    ensures ParseHhMm("08:00:00").None?
  {
    ClockOfThreeFields("08:00:00", "08:00", "08", "00", "00");
    DefaultOpening();
  }
}
