/** The values of `<input type="date">` and `<input type="time">` as the
    pages see them: the "valid date string" `YYYY-MM-DD` and the "valid time
    string" `HH:MM` of sections 2.3.5.2 and 2.3.5.4 of the WHATWG HTML Living
    Standard. The pages compare these strings with `<`, `<=` and `===`; the
    lemmas here show that, because every field is fixed-width and
    zero-padded, string order is chronological order, so the rest of the
    model compares day numbers and minutes instead. */
module DateTime {
  import opened Wrappers
  import opened Text
  import opened Calendar

  /** A time of day in minutes after midnight. */
  type Minutes = t: int | 0 <= t < 1440

  const MinutesPerDay: int := 1440
  const MillisPerMinute: int := 60000

  /** The time string `HH:MM`. */
  function FormatTime(t: Minutes): string {
    Pad(t / 60, 2) + (":" + Pad(t % 60, 2))
  }

  /** Reads a time string `HH:MM`; anything else is not a valid time string. */
  function ParseTime(s: string): Option<Minutes> {
    if |s| == 5 && AllDigits(s[..2]) && s[2] == ':' && AllDigits(s[3..]) then
      var h, m := DigitsValue(s[..2]), DigitsValue(s[3..]);
      if h < 24 && m < 60 then Some(h * 60 + m) else None
    else None
  }

  /** Formatting then parsing a time gives it back. */
  lemma TimeRoundTrip(t: Minutes)
    ensures ParseTime(FormatTime(t)) == Some(t)
  {
    var s := FormatTime(t);
    assert s[..2] == Pad(t / 60, 2) && s[3..] == Pad(t % 60, 2);
    PadRoundTrip(t / 60, 2);
    PadRoundTrip(t % 60, 2);
  }

  /** Every valid time string is the format of the time it parses to, so
      time strings and `Minutes` are in one-to-one correspondence. */
  lemma TimeStringCanonical(s: string)
    requires ParseTime(s).Some?
    ensures FormatTime(ParseTime(s).value) == s
  {
    var t := ParseTime(s).value;
    var h, m := DigitsValue(s[..2]), DigitsValue(s[3..]);
    assert t / 60 == h && t % 60 == m;
    DigitsRoundTrip(s[..2]);
    DigitsRoundTrip(s[3..]);
    assert s == s[..2] + ([s[2]] + s[3..]);
  }

  /** String order on time strings is order on minutes. */
  lemma TimeStringOrder(a: Minutes, b: Minutes)
    ensures StrLess(FormatTime(a), FormatTime(b)) <==> a < b
    ensures FormatTime(a) == FormatTime(b) <==> a == b
  {
    var ha, hb, ma, mb := Pad(a / 60, 2), Pad(b / 60, 2), Pad(a % 60, 2), Pad(b % 60, 2);
    PadOrder(a / 60, b / 60, 2);
    PadOrder(a % 60, b % 60, 2);
    StrLessConcat(ha, ":" + ma, hb, ":" + mb);
    StrLessConcat(":", ma, ":", mb);
    ConcatEq(ha, ":" + ma, hb, ":" + mb);
    ConcatEq(":", ma, ":", mb);
    assert a == 60 * (a / 60) + a % 60 && b == 60 * (b / 60) + b % 60;
  }

  /** `addHours` of the booking page: `n` hours later on the clock face,
      wrapping at midnight. */
  function AddHours(t: Minutes, n: nat): Minutes {
    ((t / 60 + n) % 24) * 60 + t % 60
  }

  /** On the text, `addHours(s, n)` keeps the minutes field and replaces the
      hour field by `(h + n) % 24` padded to two digits, and yields a valid
      time string again. */
  lemma AddHoursText(s: string, n: nat)
    requires ParseTime(s).Some?
    ensures var r := FormatTime(AddHours(ParseTime(s).value, n));
      && r == Pad((DigitsValue(s[..2]) + n) % 24, 2) + s[2..]
      && ParseTime(r).Some?
  {
    var t := ParseTime(s).value;
    TimeStringCanonical(s);
    TimeRoundTrip(AddHours(t, n));
    assert AddHours(t, n) / 60 == (t / 60 + n) % 24 && AddHours(t, n) % 60 == t % 60;
    assert s[2..] == ":" + Pad(t % 60, 2);
  }

  /** The date string `YYYY-MM-DD` (four-digit years). */
  function FormatDate(d: CalendarDate): string
    requires d.year <= 9999
  {
    Pad(d.year, 4) + ("-" + (Pad(d.month, 2) + ("-" + Pad(d.day, 2))))
  }

  /** String order on date strings is chronological order. */
  lemma DateStringOrder(a: CalendarDate, b: CalendarDate)
    requires a.year <= 9999 && b.year <= 9999
    ensures StrLess(FormatDate(a), FormatDate(b)) <==> DayNumber(a) < DayNumber(b)
    ensures FormatDate(a) == FormatDate(b) <==> a == b
  {
    var ya, yb := Pad(a.year, 4), Pad(b.year, 4);
    var ma, mb := Pad(a.month, 2), Pad(b.month, 2);
    var da, db := Pad(a.day, 2), Pad(b.day, 2);
    assert Pow10(4) == 10000 && Pow10(2) == 100;
    PadOrder(a.year, b.year, 4);
    PadOrder(a.month, b.month, 2);
    PadOrder(a.day, b.day, 2);
    StrLessConcat(ya, "-" + (ma + ("-" + da)), yb, "-" + (mb + ("-" + db)));
    StrLessConcat("-", ma + ("-" + da), "-", mb + ("-" + db));
    StrLessConcat(ma, "-" + da, mb, "-" + db);
    StrLessConcat("-", da, "-", db);
    ConcatEq(ya, "-" + (ma + ("-" + da)), yb, "-" + (mb + ("-" + db)));
    ConcatEq("-", ma + ("-" + da), "-", mb + ("-" + db));
    ConcatEq(ma, "-" + da, mb, "-" + db);
    ConcatEq("-", da, "-", db);
    DayNumberOrder(a, b);
  }

  /** The text of a date field: an empty field is the empty string. */
  function DateFieldText(d: Option<CalendarDate>): string
    requires d.Some? ==> d.value.year <= 9999
  {
    match d
    case None => ""
    case Some(v) => FormatDate(v)
  }

  /** What `a < b` on two date fields computes: an empty field is before
      every filled one, and filled fields compare chronologically. */
  predicate DateBefore(a: Option<CalendarDate>, b: Option<CalendarDate>) {
    match (a, b)
    case (None, Some(_)) => true
    case (Some(x), Some(y)) => DayNumber(x) < DayNumber(y)
    case _ => false
  }

  /** `a <= b` on two date fields. */
  predicate DateNotAfter(a: Option<CalendarDate>, b: Option<CalendarDate>) {
    DateBefore(a, b) || a == b
  }

  /** `DateBefore` is exactly JavaScript's string `<` on the field texts,
      empty fields included. */
  lemma DateFieldOrder(a: Option<CalendarDate>, b: Option<CalendarDate>)
    requires a.Some? ==> a.value.year <= 9999
    requires b.Some? ==> b.value.year <= 9999
    ensures StrLess(DateFieldText(a), DateFieldText(b)) <==> DateBefore(a, b)
    ensures DateFieldText(a) == DateFieldText(b) <==> a == b
  {
    EmptyIsLeast(DateFieldText(a));
    EmptyIsLeast(DateFieldText(b));
    if a.Some? && b.Some? {
      DateStringOrder(a.value, b.value);
    }
  }

  /** The instant a date and time name, in milliseconds since 0001-01-01
      00:00 in one fixed time zone. */
  function InstantMillis(d: CalendarDate, t: Minutes): int {
    (DayNumber(d) * MinutesPerDay + t) * MillisPerMinute
  }

  /** Instants order by date first and time second. */
  lemma InstantOrder(a: CalendarDate, s: Minutes, b: CalendarDate, t: Minutes)
    ensures InstantMillis(a, s) < InstantMillis(b, t)
        <==> DayNumber(a) < DayNumber(b) || (DayNumber(a) == DayNumber(b) && s < t)
  {
  }
}
