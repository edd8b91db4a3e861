/** Report time windows: the strict ISO-8601 UTC check, relative windows such as
    "7d" or "24h", the choice between absolute, relative and default windows made by
    the /report command, and its 90-day span limit. The clock is a parameter `now`
    (milliseconds since the epoch). */
module TimeWindows {
  import opened Util
  import opened Calendar

  datatype Window = Window(since: string, until: string)

  /** Why a window could not be resolved (the thrown message text is not modelled). */
  datatype WindowError =
    | InvalidRelative      // the relative text is not digits followed by d or h
    | DateOutOfRange       // toISOString threw a RangeError
    | MissingSince         // an `until` without a `since`
    | InvalidSince
    | InvalidUntil
    | SinceAfterUntil

  datatype SpanError = Reversed | TooLarge

  const MaxDays := 90

  /** `isISO8601String`: the strict pattern, a Date that parses, and the exact text
      `toISOString` would write back. */
  function IsISO8601String(s: string): (b: bool)
    ensures b ==> |s| == 24 && ParseDate(s).Some?
  {
    MatchesIsoPattern(s)
    && var d := ParseDate(s);
       d.Some? && ToISOString(d.value) == Some(s)
  }

  /** A canonical string (pattern, 24 characters, real date) is exactly rendered back. */
  lemma RenderOfCanonical(s: string)
    requires MatchesIsoPattern(s) && |s| == 24 && ValidFields(IsoFields(s))
    ensures Render(IsoFields(s)) == s
  {
    var f := IsoFields(s);
    ZeroPadOfDigits(s[..4]);
    DigitsValueBound(s[..4]);
    assert YearText(f.year) == s[..4];
    TailOfCanonical(s, f);
    assert s == s[..4] + s[4..];
  }

  /** The part after the year is written back as it was read. */
  lemma TailOfCanonical(s: string, f: DateTime)
    requires MatchesIsoPattern(s) && |s| == 24 && f == IsoFields(s) && ValidFields(f)
    ensures TailText(f) == s[4..]
  {
    ZeroPadOfDigits(s[5..7]);
    ZeroPadOfDigits(s[8..10]);
    assert DateTail(f) == s[4..10] by {
      assert s[4..10] == [s[4]] + s[5..7] + [s[7]] + s[8..10];
    }
    ClockOfCanonical(s, f);
    assert s[4..] == s[4..10] + s[10..];
  }

  lemma ClockOfCanonical(s: string, f: DateTime)
    requires MatchesIsoPattern(s) && |s| == 24 && f == IsoFields(s) && ValidFields(f)
    ensures ClockText(f) == s[10..]
  {
    MillisOfCanonical(s, f);
    ZeroPadOfDigits(s[11..13]);
    ZeroPadOfDigits(s[14..16]);
    ZeroPadOfDigits(s[17..19]);
    ClockTextAt(f, s);
  }

  lemma ClockTextAt(f: DateTime, s: string)
    requires ValidFields(f) && |s| == 24
    requires s[10] == 'T' && s[11..13] == ZeroPad(f.hour, 2) && s[13] == ':'
    requires s[14..16] == ZeroPad(f.minute, 2) && s[16] == ':' && s[17..19] == ZeroPad(f.second, 2)
    requires s[19] == '.' && s[20..23] == ZeroPad(f.millis, 3) && s[23] == 'Z'
    ensures ClockText(f) == s[10..]
  {
    ClockPieces(s, ZeroPad(f.hour, 2), ZeroPad(f.minute, 2), ZeroPad(f.second, 2), ZeroPad(f.millis, 3));
  }

  lemma ClockPieces(s: string, h: string, m: string, sec: string, ms: string)
    requires |s| == 24
    requires s[10] == 'T' && s[11..13] == h && s[13] == ':' && s[14..16] == m && s[16] == ':'
    requires s[17..19] == sec && s[19] == '.' && s[20..23] == ms && s[23] == 'Z'
    ensures s[10..] == "T" + h + ":" + m + ":" + sec + "." + ms + "Z"
  {
    assert s[10..11] == "T";
    assert s[10..13] == s[10..11] + s[11..13] == "T" + h;
    assert s[10..14] == s[10..13] + [s[13]] == "T" + h + ":";
    assert s[10..16] == s[10..14] + s[14..16] == "T" + h + ":" + m;
    assert s[10..17] == s[10..16] + [s[16]] == "T" + h + ":" + m + ":";
    assert s[10..19] == s[10..17] + s[17..19] == "T" + h + ":" + m + ":" + sec;
    assert s[10..20] == s[10..19] + [s[19]] == "T" + h + ":" + m + ":" + sec + ".";
    assert s[10..23] == s[10..20] + s[20..23] == "T" + h + ":" + m + ":" + sec + "." + ms;
    assert s[10..] == s[10..23] + [s[23]];
  }

  lemma MillisOfCanonical(s: string, f: DateTime)
    requires MatchesIsoPattern(s) && |s| == 24 && f == IsoFields(s) && ValidFields(f)
    ensures ZeroPad(f.millis, 3) == s[20..23]
  {
    assert s[20..|s| - 1] == s[20..23];
    assert Pow10(0) == 1;
    ZeroPadOfDigits(s[20..23]);
  }

  /** `isISO8601String` accepts exactly the 24-character strings of the pattern that name
      a real calendar date: the fraction must have three digits. */
  lemma IsISO8601Characterization(s: string)
    ensures IsISO8601String(s) <==> MatchesIsoPattern(s) && |s| == 24 && ValidFields(IsoFields(s))
  {
    if IsISO8601String(s) {
      var t := ParseDate(s).value;
      var f := Fields(t);
      assert Render(f) == s;
      assert IsDigit(s[..4][0]);
      assert 0 <= f.year <= 9999;
      IsoRoundTrip(f);
    }
    if MatchesIsoPattern(s) && |s| == 24 && ValidFields(IsoFields(s)) {
      var f := IsoFields(s);
      DigitsValueBound(s[..4]);
      FourDigitYearInRange(f);
      FieldsOfTimeValue(f);
      RenderOfCanonical(s);
    }
  }

  /** The example in the function's own documentation, without a fraction, is rejected. */
  lemma DocumentedExampleRejected()
    ensures !IsISO8601String("2025-09-11T15:30:00Z")
  {
    IsISO8601Characterization("2025-09-11T15:30:00Z");
  }

  /** The evidently intended check: the pattern, naming a real date and time. */
  predicate IsUtcTimestamp(s: string)
  {
    MatchesIsoPattern(s) && ValidFields(IsoFields(s))
  }

  /** The intended check accepts what toISOString writes and the second-precision form
      the documentation shows, both naming the instant they were written from. */
  lemma IsUtcTimestampAcceptsWrittenForms(f: DateTime)
    requires ValidFields(f) && 0 <= f.year <= 9999
    ensures var s := Render(f);
            IsUtcTimestamp(s) && IsISO8601String(s)
            && IsUtcTimestamp(s[..19] + "Z")
            && ParseDate(s[..19] + "Z") == Some(TimeValue(f.(millis := 0)))
  {
    var s := Render(f);
    IsoRoundTrip(f);
    IsISO8601Characterization(s);
    SecondPrecisionParses(s, f);
  }

  /** The second-precision form of canonical text names its instant with the
      milliseconds dropped. */
  lemma SecondPrecisionParses(s: string, f: DateTime)
    requires MatchesIsoPattern(s) && |s| == 24 && IsoFields(s) == f
    requires ValidFields(f) && 0 <= f.year <= 9999
    ensures IsUtcTimestamp(s[..19] + "Z")
    ensures ParseDate(s[..19] + "Z") == Some(TimeValue(f.(millis := 0)))
  {
    SecondPrecisionForm(s);
    FourDigitYearInRange(f.(millis := 0));
  }

  /** Dropping the fraction keeps every field but the milliseconds. */
  lemma SecondPrecisionForm(s: string)
    requires MatchesIsoPattern(s) && |s| == 24
    ensures MatchesIsoPattern(s[..19] + "Z")
    ensures IsoFields(s[..19] + "Z") == IsoFields(s).(millis := 0)
  {
    var short := s[..19] + "Z";
    assert short[..4] == s[..4];
    assert short[5..7] == s[5..7] && short[8..10] == s[8..10] && short[11..13] == s[11..13];
    assert short[14..16] == s[14..16] && short[17..19] == s[17..19];
  }

  /** On canonical 24-character text the intended check and the written one agree. */
  lemma IsUtcTimestampAgreesOnCanonical(s: string)
    requires |s| == 24
    ensures IsUtcTimestamp(s) <==> IsISO8601String(s)
  {
    IsISO8601Characterization(s);
  }

  // ---------------------------------------------------------------------
  // Relative windows

  /** `/^(\d+)([dh])$/`: the count and the unit. */
  function MatchRelative(t: string): Option<(nat, char)>
  {
    if |t| >= 2 && AllDigits(t[..|t| - 1]) && (t[|t| - 1] == 'd' || t[|t| - 1] == 'h')
    then Some((DigitsValue(t[..|t| - 1]), t[|t| - 1]))
    else None
  }

  /** The relative pattern applied to `rel.trim().toLowerCase()`. */
  function ParseRelative(rel: string): Option<(nat, char)>
  {
    MatchRelative(ToLower(Trim(rel)))
  }

  /** `n` days or `n` hours in milliseconds. */
  function Span(n: nat, unit: char): int
  {
    if unit == 'd' then n * MsPerDay else n * MsPerHour
  }

  /** `relativeToWindowISO(rel)` at clock reading `now`. */
  function RelativeToWindow(rel: string, now: int): (r: Result<Window, WindowError>)
    requires -MaxTimeValue <= now <= MaxTimeValue
    ensures r == Err(InvalidRelative) <==> ParseRelative(rel).None?
    ensures r == Err(DateOutOfRange) <==>
              ParseRelative(rel).Some? && now - Span(ParseRelative(rel).value.0, ParseRelative(rel).value.1) < -MaxTimeValue
  {
    match ParseRelative(rel)
    case None => Err(InvalidRelative)
    case Some((n, unit)) =>
      var since := ToISOString(now - Span(n, unit));
      if since.None? then Err(DateOutOfRange)
      else Ok(Window(since.value, ToISOString(now).value))
  }

  lemma TrimOfUnpadded(s: string)
    requires s != [] && !IsJsWhitespace(s[0]) && !IsJsWhitespace(s[|s| - 1])
    ensures Trim(s) == s
  {
  }

  /** The relative text `digits` + `letter`, either case of the letter, lower-cases to `digits` + `unit`. */
  lemma LowerOfRelativeText(digits: string, letter: char, unit: char)
    requires AllDigits(digits) && digits != []
    requires unit == 'd' || unit == 'h'
    requires letter == unit || letter as int == unit as int - 32
    ensures Trim(digits + [letter]) == digits + [letter]
    ensures ToLower(Trim(digits + [letter])) == digits + [unit]
  {
    var u := digits + [letter];
    TrimOfUnpadded(u);
    var l := ToLower(u);
    assert |l| == |u|;
    forall i | 0 <= i < |u|
      ensures l[i] == (digits + [unit])[i]
    {
      if i < |digits| {
        assert u[i] == digits[i];
      }
    }
  }

  lemma MatchRelativeOfDigits(digits: string, unit: char, n: nat)
    requires AllDigits(digits) && digits != [] && DigitsValue(digits) == n
    requires unit == 'd' || unit == 'h'
    ensures MatchRelative(digits + [unit]) == Some((n, unit))
  {
    var t := digits + [unit];
    assert t[..|t| - 1] == digits;
  }

  /** A count written in decimal followed by d or h (any case) is read back exactly. */
  lemma ParseRelativeOfText(n: nat, unit: char, letter: char)
    requires unit == 'd' || unit == 'h'
    requires letter == unit || letter as int == unit as int - 32
    ensures ParseRelative(NatToString(n) + [letter]) == Some((n, unit))
  {
    var digits := NatToString(n);
    LowerOfRelativeText(digits, letter, unit);
    NatToStringValue(n);
    MatchRelativeOfDigits(digits, unit, n);
  }

  /** Only the trimmed, lower-cased text matters: padding changes neither the parse nor
      the window. */
  lemma ParseRelativeIgnoresPadding(p: string, rel: string, q: string, now: int)
    requires AllWhitespace(p) && AllWhitespace(q)
    requires -MaxTimeValue <= now <= MaxTimeValue
    ensures ParseRelative(p + rel + q) == ParseRelative(rel)
    ensures RelativeToWindow(p + rel + q, now) == RelativeToWindow(rel, now)
  {
    TrimIgnoresPadding(p, rel, q);
    SameParseSameWindow(p + rel + q, rel, now);
  }

  lemma SameParseSameWindow(a: string, b: string, now: int)
    requires -MaxTimeValue <= now <= MaxTimeValue
    requires ParseRelative(a) == ParseRelative(b)
    ensures RelativeToWindow(a, now) == RelativeToWindow(b, now)
  {
    if ParseRelative(a).Some? {
      var (n, unit) := ParseRelative(a).value;
      RelativeWindowShape(a, now, n, unit);
      RelativeWindowShape(b, now, n, unit);
    }
  }

  lemma RelativeWindowShape(rel: string, now: int, n: nat, unit: char)
    requires -MaxTimeValue <= now <= MaxTimeValue
    requires ParseRelative(rel) == Some((n, unit))
    ensures -MaxTimeValue <= now - Span(n, unit) ==>
              RelativeToWindow(rel, now) == Ok(Window(ToISOString(now - Span(n, unit)).value, ToISOString(now).value))
    ensures now - Span(n, unit) < -MaxTimeValue ==> RelativeToWindow(rel, now) == Err(DateOutOfRange)
  {
  }

  /** A relative window ends now and starts exactly `n` units earlier; it fails only
      when the start leaves the Date range. */
  lemma RelativeWindowSpan(rel: string, now: int, n: nat, unit: char)
    requires -MaxTimeValue <= now <= MaxTimeValue
    requires ParseRelative(rel) == Some((n, unit))
    ensures RelativeToWindow(rel, now).Ok? <==> -MaxTimeValue <= now - Span(n, unit)
    ensures RelativeToWindow(rel, now).Ok? ==>
              var w := RelativeToWindow(rel, now).value;
              ParseDate(w.until) == Some(now) && ParseDate(w.since) == Some(now - Span(n, unit))
  {
    RelativeWindowShape(rel, now, n, unit);
    var start := now - Span(n, unit);
    if -MaxTimeValue <= start {
      ParseOfToISOString(now);
      ParseOfToISOString(start);
    }
  }

  /** "0d" is the empty window at `now`. */
  lemma ZeroDaysIsEmptyWindow(now: int)
    requires -MaxTimeValue <= now <= MaxTimeValue
    ensures RelativeToWindow("0d", now).Ok?
    ensures RelativeToWindow("0d", now).value.since == RelativeToWindow("0d", now).value.until
  {
    ParseZeroDays();
    RelativeWindowShape("0d", now, 0, 'd');
    assert Span(0, 'd') == 0;
  }

  lemma ParseZeroDays()
    ensures ParseRelative("0d") == Some((0, 'd'))
  {
    ParseDigitAndUnit('0', 'd');
  }

  lemma ParseOneDay()
    ensures ParseRelative("1d") == Some((1, 'd'))
  {
    ParseDigitAndUnit('1', 'd');
  }

  lemma ParseDigitAndUnit(c: char, unit: char)
    requires IsDigit(c) && (unit == 'd' || unit == 'h')
    ensures ParseRelative([c, unit]) == Some((DigitValue(c), unit))
  {
    var t := [c, unit];
    TrimOfUnpadded(t);
    var l := ToLower(t);
    assert l[0] == t[0] && l[1] == t[1];
    assert l == t;
    assert t[..|t| - 1] == [c];
    assert [c][..0] == [];
    assert DigitsValue([c]) == DigitValue(c);
    assert MatchRelative(t) == Some((DigitValue(c), unit));
  }

  // ---------------------------------------------------------------------
  // The /report window decision

  /** A string option is truthy when present and not empty. */
  predicate Truthy(o: Option<string>)
  {
    o.Some? && o.value != ""
  }

  /** `resolveWindowFromOptions`: absolute options win over a relative one, which wins
      over the default of one day. */
  function ResolveWindowFromOptions(rel: Option<string>, since: Option<string>,
                                    until: Option<string>, now: int): (r: Result<Window, WindowError>)
    requires -MaxTimeValue <= now <= MaxTimeValue
    ensures r == Err(MissingSince) <==> !Truthy(since) && Truthy(until)
  {
    if Truthy(since) || Truthy(until) then
      var untilText := if Truthy(until) then Trim(until.value) else ToISOString(now).value;
      if !Truthy(since) then Err(MissingSince)
      else AbsoluteWindow(Trim(since.value), untilText)
    else if rel.Some? && |Trim(rel.value)| > 0 then RelativeToWindow(rel.value, now)
    else RelativeToWindow("1d", now)
  }

  /** The absolute branch once both ends are trimmed: each must pass the strict check,
      and `since` must not be later than `until`. */
  function AbsoluteWindow(sinceText: string, untilText: string): (r: Result<Window, WindowError>)
    ensures r.Ok? <==> IsISO8601String(sinceText) && IsISO8601String(untilText)
                       && ParseDate(sinceText).value <= ParseDate(untilText).value
    ensures r.Ok? ==> r.value == Window(sinceText, untilText)
  {
    if !IsISO8601String(sinceText) then Err(InvalidSince)
    else if !IsISO8601String(untilText) then Err(InvalidUntil)
    else if ParseDate(sinceText).value > ParseDate(untilText).value then Err(SinceAfterUntil)
    else Ok(Window(sinceText, untilText))
  }

  /** With an absolute option present the relative one is ignored, and an `until`
      alone is an error. */
  lemma AbsoluteOptionsWin(rel: Option<string>, since: Option<string>, until: Option<string>, now: int)
    requires -MaxTimeValue <= now <= MaxTimeValue
    requires Truthy(since) || Truthy(until)
    ensures ResolveWindowFromOptions(rel, since, until, now) == ResolveWindowFromOptions(None, since, until, now)
    ensures !Truthy(since) ==> ResolveWindowFromOptions(rel, since, until, now) == Err(MissingSince)
  {
  }

  /** An absolute window is accepted exactly when both ends are strict ISO text
      (after trimming) and `since` is not after `until`; equal ends are allowed.
      The accepted window is the trimmed text. A missing or empty `until` is the
      current instant, written by toISOString. A relative option given alongside
      is ignored. */
  lemma AbsoluteWindowAccepted(rel: Option<string>, since: string, until: Option<string>, now: int)
    requires -MaxTimeValue <= now <= MaxTimeValue
    requires since != ""
    ensures var untilText := if Truthy(until) then Trim(until.value) else ToISOString(now).value;
            var r := ResolveWindowFromOptions(rel, Some(since), until, now);
            && (r.Ok? <==> (IsISO8601String(Trim(since)) && IsISO8601String(untilText)
                            && ParseDate(Trim(since)).value <= ParseDate(untilText).value))
            && (r.Ok? ==> r.value == Window(Trim(since), untilText))
  {
    if Truthy(until) {
      AbsoluteBranch(rel, since, until.value, now);
    } else {
      SinceOnlyUntilNow(rel, since, until, now);
    }
  }

  /** With both ends given the resolver is the absolute branch on the trimmed text. */
  lemma AbsoluteBranch(rel: Option<string>, since: string, until: string, now: int)
    requires -MaxTimeValue <= now <= MaxTimeValue
    requires since != "" && until != ""
    ensures ResolveWindowFromOptions(rel, Some(since), Some(until), now)
            == AbsoluteWindow(Trim(since), Trim(until))
  {
    assert Truthy(Some(since)) && Truthy(Some(until));
  }

  /** With `since` alone, `until` defaults to the current instant. */
  lemma SinceOnlyUntilNow(rel: Option<string>, since: string, until: Option<string>, now: int)
    requires -MaxTimeValue <= now <= MaxTimeValue
    requires since != "" && !Truthy(until)
    ensures ResolveWindowFromOptions(rel, Some(since), until, now)
            == AbsoluteWindow(Trim(since), ToISOString(now).value)
  {
    assert Truthy(Some(since));
  }

  /** Without options (or with a blank relative text) the window is the last day. */
  lemma DefaultIsLastDay(rel: Option<string>, now: int)
    requires -MaxTimeValue <= now <= MaxTimeValue
    requires rel.None? || |Trim(rel.value)| == 0
    requires -MaxTimeValue <= now - MsPerDay
    ensures var r := ResolveWindowFromOptions(rel, None, None, now);
            r.Ok? && ParseDate(r.value.until) == Some(now) && ParseDate(r.value.since) == Some(now - MsPerDay)
  {
    ParseOneDay();
    RelativeWindowSpan("1d", now, 1, 'd');
    assert ResolveWindowFromOptions(rel, None, None, now) == RelativeToWindow("1d", now);
  }

  /** The span check in `execute`: a reversed window, then one longer than 90 days,
      is refused; an unparsable end compares as NaN and passes. */
  function CheckSpan(w: Window): (r: Result<(), SpanError>)
    ensures r.Ok? <==> ParseDate(w.since).None? || ParseDate(w.until).None?
                       || 0 <= ParseDate(w.until).value - ParseDate(w.since).value <= MaxDays * MsPerDay
  {
    var s := ParseDate(w.since);
    var u := ParseDate(w.until);
    if s.Some? && u.Some? && u.value < s.value then Err(Reversed)
    else if s.Some? && u.Some? && u.value - s.value > MaxDays * MsPerDay then Err(TooLarge)
    else Ok(())
  }

  /** A resolved window is never reversed, so the first span test never fires. */
  lemma ResolvedWindowNotReversed(rel: Option<string>, since: Option<string>, until: Option<string>, now: int)
    requires -MaxTimeValue <= now <= MaxTimeValue
    requires ResolveWindowFromOptions(rel, since, until, now).Ok?
    ensures CheckSpan(ResolveWindowFromOptions(rel, since, until, now).value) != Err(Reversed)
  {
    var w := ResolveWindowFromOptions(rel, since, until, now).value;
    if Truthy(since) || Truthy(until) {
      AbsoluteWindowOrdered(rel, since, until, now);
    } else {
      RelativeWindowOrdered(rel, since, until, now);
    }
    NotReversed(w);
  }

  lemma NotReversed(w: Window)
    requires ParseDate(w.since).Some? && ParseDate(w.until).Some?
    requires ParseDate(w.since).value <= ParseDate(w.until).value
    ensures CheckSpan(w) != Err(Reversed)
  {
  }

  lemma AbsoluteWindowOrdered(rel: Option<string>, since: Option<string>, until: Option<string>, now: int)
    requires -MaxTimeValue <= now <= MaxTimeValue
    requires Truthy(since) || Truthy(until)
    requires ResolveWindowFromOptions(rel, since, until, now).Ok?
    ensures var w := ResolveWindowFromOptions(rel, since, until, now).value;
            ParseDate(w.since).Some? && ParseDate(w.until).Some?
            && ParseDate(w.since).value <= ParseDate(w.until).value
  {
    var untilText := if Truthy(until) then Trim(until.value) else ToISOString(now).value;
    assert ResolveWindowFromOptions(rel, since, until, now) == AbsoluteWindow(Trim(since.value), untilText);
  }

  lemma RelativeWindowOrdered(rel: Option<string>, since: Option<string>, until: Option<string>, now: int)
    requires -MaxTimeValue <= now <= MaxTimeValue
    requires !Truthy(since) && !Truthy(until)
    requires ResolveWindowFromOptions(rel, since, until, now).Ok?
    ensures var w := ResolveWindowFromOptions(rel, since, until, now).value;
            ParseDate(w.since).Some? && ParseDate(w.until).Some?
            && ParseDate(w.since).value <= ParseDate(w.until).value
  {
    var text := if rel.Some? && |Trim(rel.value)| > 0 then rel.value else "1d";
    RelativeBranch(rel, since, until, now, text);
    RelativeTextOrdered(text, now);
  }

  /** Both ends of an accepted relative window parse, and `since` is not after `until`. */
  lemma RelativeTextOrdered(text: string, now: int)
    requires -MaxTimeValue <= now <= MaxTimeValue
    requires RelativeToWindow(text, now).Ok?
    ensures var w := RelativeToWindow(text, now).value;
            ParseDate(w.since).Some? && ParseDate(w.until).Some?
            && ParseDate(w.since).value <= ParseDate(w.until).value
  {
    var p := ParseRelative(text);
    assert p.Some?;
    RelativeWindowSpan(text, now, p.value.0, p.value.1);
    SpanNonNegative(p.value.0, p.value.1);
  }

  lemma RelativeBranch(rel: Option<string>, since: Option<string>, until: Option<string>, now: int, text: string)
    requires -MaxTimeValue <= now <= MaxTimeValue
    requires !Truthy(since) && !Truthy(until)
    requires text == if rel.Some? && |Trim(rel.value)| > 0 then rel.value else "1d"
    ensures ResolveWindowFromOptions(rel, since, until, now) == RelativeToWindow(text, now)
  {
  }

  /** A relative window of `n` days or hours passes the span limit exactly when it
      covers at most 90 days. */
  lemma RelativeSpanLimit(n: nat, unit: char, now: int)
    requires unit == 'd' || unit == 'h'
    requires -MaxTimeValue <= now <= MaxTimeValue
    requires RelativeToWindow(NatToString(n) + [unit], now).Ok?
    ensures CheckSpan(RelativeToWindow(NatToString(n) + [unit], now).value).Ok?
            <==> Span(n, unit) <= MaxDays * MsPerDay
  {
    ParseRelativeOfText(n, unit, unit);
    RelativeTextSpan(NatToString(n) + [unit], now, n, unit);
  }

  lemma RelativeTextSpan(text: string, now: int, n: nat, unit: char)
    requires -MaxTimeValue <= now <= MaxTimeValue
    requires ParseRelative(text) == Some((n, unit)) && RelativeToWindow(text, now).Ok?
    ensures CheckSpan(RelativeToWindow(text, now).value).Ok? <==> Span(n, unit) <= MaxDays * MsPerDay
  {
    var start := now - Span(n, unit);
    SpanNonNegative(n, unit);
    RelativeWindowShape(text, now, n, unit);
    assert -MaxTimeValue <= start;
    var w := Window(ToISOString(start).value, ToISOString(now).value);
    assert RelativeToWindow(text, now).value == w;
    ParseOfToISOString(now);
    ParseOfToISOString(start);
    SpanCheckOf(w, start, now);
  }

  lemma SpanNonNegative(n: nat, unit: char)
    ensures Span(n, unit) >= 0
  {
  }

  /** The span check on a window whose ends parse to `s <= u`. */
  lemma SpanCheckOf(w: Window, s: int, u: int)
    requires ParseDate(w.since) == Some(s) && ParseDate(w.until) == Some(u) && s <= u
    ensures CheckSpan(w).Ok? <==> u - s <= MaxDays * MsPerDay
  {
  }
}
