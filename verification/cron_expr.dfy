/** `buildCronExpr`, shared by both schedulers: an `"HH:mm"` time becomes the six-field
    cron expression `"0 m h * * *"` (second 0 of minute m of hour h, every day). */
module CronExpr {
  import opened Util

  /** `s.split(c)` for a one-character separator: the pieces between separators, in order;
      a string without the separator is one piece. */
  function Split(s: string, c: char): (parts: seq<string>)
    ensures |parts| >= 1
  {
    if s == [] then [""]
    else
      var rest := Split(s[1..], c);
      if s[0] == c then [""] + rest else [[s[0]] + rest[0]] + rest[1..]
  }

  /** `String(Number(s))` for the strings a time field holds: surrounding whitespace is
      ignored, a blank field is 0, digits with an optional sign are their value written
      without leading zeros (a negative zero prints as "0"), anything else is NaN. */
  function NumberText(s: string): (r: string)
    ensures r != ""
    decreases |s|
  {
    if s != [] && IsJsWhitespace(s[0]) then NumberText(s[1..])
    else if s != [] && IsJsWhitespace(s[|s| - 1]) then NumberText(s[..|s| - 1])
    else if s == "" then "0"
    else if AllDigits(s) then NatToString(DigitsValue(s))
    else if |s| >= 2 && (s[0] == '+' || s[0] == '-') && AllDigits(s[1..]) then
      var v := DigitsValue(s[1..]);
      if s[0] == '-' && v != 0 then "-" + NatToString(v) else NatToString(v)
    else "NaN"
  }

  /** Whether the cron library accepts an expression in a timezone (None: the host's);
      `new CronTime` throws where it does not. */
  type CronCheck = (string, Option<string>) -> bool

  /** `buildCronExpr(hhmm)`: the hour is the text before the first colon, the minute the
      text after it; without a colon the minute is `undefined`. */
  function BuildCronExpr(hhmm: string): (r: string)
    ensures |r| >= 10 && r[..2] == "0 " && r[|r| - 6..] == " * * *"
  {
    var parts := Split(hhmm, ':');
    var h := NumberText(parts[0]);
    var m := if |parts| >= 2 then NumberText(parts[1]) else "undefined";
    "0 " + m + " " + h + " * * *"
  }

  /** Splitting text without the separator gives the text back as one piece. */
  lemma {:induction false} SplitWithout(a: string, c: char)
    requires c !in a
    ensures Split(a, c) == [a]
  {
    if a != [] {
      SplitWithout(a[1..], c);
      assert [a[0]] + a[1..] == a;
    }
  }

  /** A piece before the first separator comes off whole. */
  lemma {:induction false} SplitFirst(a: string, c: char, rest: string)
    requires c !in a
    ensures Split(a + [c] + rest, c) == [a] + Split(rest, c)
  {
    if a == [] {
      assert a + [c] + rest == [c] + rest;
      assert ([c] + rest)[1..] == rest;
    } else {
      assert (a + [c] + rest)[1..] == a[1..] + [c] + rest;
      SplitFirst(a[1..], c, rest);
      assert [a[0]] + a[1..] == a;
    }
  }

  /** A field of digits reads as its value, leading zeros dropped. */
  lemma NumberOfDigits(s: string)
    requires s != [] && AllDigits(s)
    ensures NumberText(s) == NatToString(DigitsValue(s))
  {
    assert !IsJsWhitespace(s[0]) && !IsJsWhitespace(s[|s| - 1]);
  }

  /** Whitespace around a field is ignored. */
  lemma {:induction false} NumberIgnoresPadding(p: string, s: string)
    requires AllWhitespace(p)
    ensures NumberText(p + s) == NumberText(s)
    decreases |p|
  {
    if p == [] {
      assert p + s == s;
    } else {
      assert (p + s)[0] == p[0];
      assert (p + s)[1..] == p[1..] + s;
      NumberIgnoresPadding(p[1..], s);
    }
  }

  /** For a zero-padded `"HH:mm"` time the expression is `"0 m h * * *"` with both numbers
      written without leading zeros: `"08:05"` becomes `"0 5 8 * * *"`. */
  lemma CronOfClockTime(h: nat, m: nat)
    requires h < 100 && m < 100
    ensures BuildCronExpr(ZeroPad(h, 2) + ":" + ZeroPad(m, 2))
            == "0 " + NatToString(m) + " " + NatToString(h) + " * * *"
  {
    var hh := ZeroPad(h, 2);
    var mm := ZeroPad(m, 2);
    assert ':' !in hh by {
      assert forall i :: 0 <= i < |hh| ==> IsDigit(hh[i]);
    }
    assert ':' !in mm by {
      assert forall i :: 0 <= i < |mm| ==> IsDigit(mm[i]);
    }
    SplitFirst(hh, ':', mm);
    SplitWithout(mm, ':');
    assert Split(hh + ":" + mm, ':') == [hh, mm];
    NumberOfDigits(hh);
    NumberOfDigits(mm);
    ZeroPadValue(h, 2);
    ZeroPadValue(m, 2);
  }

  /** The default time `"08:00"` fires at minute 0 of hour 8. */
  lemma CronOfEightOClock()
    ensures BuildCronExpr("08:00") == "0 " + "0" + " " + "8" + " * * *"
  {
    SplitEightOClock();
    NumberEightOClock();
  }

  lemma SplitEightOClock()
    ensures Split("08:00", ':') == ["08", "00"]
  {
    SplitFirst("08", ':', "00");
    SplitWithout("00", ':');
    assert "08:00" == "08" + [':'] + "00";
  }

  lemma NumberEightOClock()
    ensures NumberText("08") == "8" && NumberText("00") == "0"
  {
    NumberOfDigits("08");
    DigitsEight();
    assert NatToString(8) == [DigitChar(8)] == "8";
    NumberOfDigits("00");
    DigitsZero();
    assert NatToString(0) == [DigitChar(0)] == "0";
  }

  lemma DigitsEight()
    ensures DigitsValue("08") == 8
  {
    assert "08"[..1] == "0";
  }

  lemma DigitsZero()
    ensures DigitsValue("00") == 0
  {
    assert "00"[..1] == "0";
  }

  /** A time without a colon has no minute field: the expression carries the text
      `undefined` where the minute belongs. */
  lemma CronWithoutMinute(s: string)
    requires ':' !in s
    ensures BuildCronExpr(s) == "0 " + "undefined" + " " + NumberText(s) + " * * *"
  {
    SplitWithout(s, ':');
  }
}
