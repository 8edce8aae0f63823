/**
 * The event timestamp of a FortiGate line: an explicit `date=`/`time=` pair
 * from the key-value body wins, the syslog header's month, day and time
 * (with the current year) are the fallback, and a `tz=` offset such as
 * `+0530` is attached to whichever is used.
 */
module Timestamp {
  import opened Text

  /** A naive `datetime.datetime` (no sub-second part). */
  datatype LocalDateTime = LocalDateTime(year: int, month: int, day: int, hour: int, minute: int, second: int)

  /** The timestamp an event carries: a local time and, when a `tz` was
      given, its offset from UTC in minutes. */
  datatype EventTs = EventTs(local: LocalDateTime, offset: Option<int>)

  predicate IsLeap(y: int) {
    y % 4 == 0 && (y % 100 != 0 || y % 400 == 0)
  }

  function DaysInMonth(y: int, m: int): (d: int)
    requires 1 <= m <= 12
    ensures 28 <= d <= 31
    ensures d == 29 <==> m == 2 && IsLeap(y)
  {
    if m == 2 then (if IsLeap(y) then 29 else 28)
    else if m == 4 || m == 6 || m == 9 || m == 11 then 30
    else 31
  }

  /** What the `datetime` constructor accepts: years 1 to 9999 (`MINYEAR`,
      `MAXYEAR`), real calendar days, a 24-hour clock. */
  predicate ValidDateTime(dt: LocalDateTime) {
    && 1 <= dt.year <= 9999
    && 1 <= dt.month <= 12
    && 1 <= dt.day <= DaysInMonth(dt.year, dt.month)
    && 0 <= dt.hour < 24
    && 0 <= dt.minute < 60
    && 0 <= dt.second < 60
  }

  /** `datetime.timezone` refuses an offset of a full day or more. */
  predicate ValidOffset(minutes: int) {
    -24 * 60 < minutes < 24 * 60
  }

  predicate IsSign(c: char) {
    c == '+' || c == '-'
  }

  predicate IsQuote(c: char) {
    c == '"'
  }

  /** The normalised offset text: `+HH:MM` or `-HH:MM`. */
  predicate TzShaped(t: string) {
    && |t| == 6
    && IsSign(t[0])
    && IsDigit(t[1]) && IsDigit(t[2])
    && t[3] == ':'
    && IsDigit(t[4]) && IsDigit(t[5])
  }

  /** A missing or empty `tz` gives nothing; otherwise whitespace and then
      double quotes are stripped, and the rest must be a sign and exactly
      four digits, which are split as `HH:MM`. */
  function TzNormalize(tz: Option<string>): (r: Option<string>)
    ensures r.Some? ==> TzShaped(r.value)
  {
    if tz.None? || tz.value == [] then None
    else
      var c := Strip(Strip(tz.value, IsSpace), IsQuote);
      if |c| == 5 && IsSign(c[0]) && AllDigits(c[1..]) then
        Some(c[..3] + ":" + c[3..])
      else None
  }

  /** Two ASCII digits at `i` as a number. */
  function Num2(s: string, i: nat): (n: nat)
    requires i + 1 < |s| && IsDigit(s[i]) && IsDigit(s[i + 1])
    ensures n < 100
  {
    DigitValue(s[i]) * 10 + DigitValue(s[i + 1])
  }

  /** The offset in minutes: `timedelta(hours=sign*HH, minutes=sign*MM)`. */
  function OffsetMinutes(t: string): (m: int)
    requires TzShaped(t)
    ensures t[0] == '+' ==> m >= 0
    ensures t[0] == '-' ==> m <= 0
  {
    var magnitude := Num2(t, 1) * 60 + Num2(t, 4);
    if t[0] == '+' then magnitude else -magnitude
  }

  /** `dt.replace(tzinfo=...)` when a normalised tz is present; nothing when
      its offset is out of range (the `timezone` constructor raises). */
  function Attach(dt: LocalDateTime, tzNorm: Option<string>): (r: Option<EventTs>)
    requires tzNorm.Some? ==> TzShaped(tzNorm.value)
    ensures r.Some? ==> r.value.local == dt
    ensures r.Some? ==> (r.value.offset.Some? <==> tzNorm.Some?)
    ensures r.None? <==> tzNorm.Some? && !ValidOffset(OffsetMinutes(tzNorm.value))
  {
    match tzNorm
    case None => Some(EventTs(dt, None))
    case Some(t) =>
      var m := OffsetMinutes(t);
      if ValidOffset(m) then Some(EventTs(dt, Some(m))) else None
  }

  lemma DigitsIn(s: string, a: nat, b: nat)
    requires a <= b <= |s| && AllDigits(s[a..b])
    ensures forall k :: a <= k < b ==> IsDigit(s[k])
  {
    forall k | a <= k < b
      ensures IsDigit(s[k])
    {
      assert s[a..b][k - a] == s[k];
    }
  }

  /** `datetime.fromisoformat` on the form `YYYY-MM-DDTHH:MM:SS`. */
  function ParseIsoLocal(s: string): (r: Option<LocalDateTime>)
    ensures r.Some? ==> ValidDateTime(r.value)
  {
    if |s| == 19 && s[4] == '-' && s[7] == '-' && s[10] == 'T' && s[13] == ':' && s[16] == ':'
       && AllDigits(s[0..4]) && AllDigits(s[5..7]) && AllDigits(s[8..10])
       && AllDigits(s[11..13]) && AllDigits(s[14..16]) && AllDigits(s[17..19])
    then
      DigitsIn(s, 0, 4);
      DigitsIn(s, 5, 7);
      DigitsIn(s, 8, 10);
      DigitsIn(s, 11, 13);
      DigitsIn(s, 14, 16);
      DigitsIn(s, 17, 19);
      var dt := LocalDateTime(Num2(s, 0) * 100 + Num2(s, 2), Num2(s, 5), Num2(s, 8),
                              Num2(s, 11), Num2(s, 14), Num2(s, 17));
      if ValidDateTime(dt) then Some(dt) else None
    else None
  }

  /** The fallback: the header time split on `:` into exactly three `int()`
      values, with the given year, month and day, through the `datetime`
      constructor. */
  function FallbackDateTime(year: int, month: int, day: int, time: string): (r: Option<LocalDateTime>)
    ensures r.Some? ==> ValidDateTime(r.value)
    ensures r.Some? ==> r.value.year == year && r.value.month == month && r.value.day == day
  {
    var parts := Split(time, ':');
    if |parts| != 3 then None
    else
      var h, m, s := ParseInt(parts[0]), ParseInt(parts[1]), ParseInt(parts[2]);
      if h.None? || m.None? || s.None? then None
      else
        var dt := LocalDateTime(year, month, day, h.value, m.value, s.value);
        if ValidDateTime(dt) then Some(dt) else None
  }

  function Lookup(kv: map<string, string>, k: string): Option<string> {
    if k in kv then Some(kv[k]) else None
  }

  /** The explicit timestamp: both `date` and `time` present and non-empty,
      joined by `T`, parsed, and the tz attached. */
  function Explicit(kv: map<string, string>, tzNorm: Option<string>): Option<EventTs>
    requires tzNorm.Some? ==> TzShaped(tzNorm.value)
  {
    if "date" in kv && "time" in kv && kv["date"] != [] && kv["time"] != [] then
      match ParseIsoLocal(kv["date"] + "T" + kv["time"])
      case None => None
      case Some(dt) => Attach(dt, tzNorm)
    else None
  }

  /** `parse_event_ts` as a value: the explicit timestamp when it can be
      built, else the header fallback, else nothing. */
  function EventTime(kv: map<string, string>, defaultYear: int, month: int, day: int, time: string): (r: Option<EventTs>)
    ensures r.Some? ==> ValidDateTime(r.value.local)
    ensures r.Some? && r.value.offset.Some? ==> ValidOffset(r.value.offset.value)
    ensures r.Some? ==> (r.value.offset.Some? <==> TzNormalize(Lookup(kv, "tz")).Some?)
  {
    var tzNorm := TzNormalize(Lookup(kv, "tz"));
    var explicit := Explicit(kv, tzNorm);
    if explicit.Some? then explicit
    else
      match FallbackDateTime(defaultYear, month, day, time)
      case None => None
      case Some(dt) => Attach(dt, tzNorm)
  }

  // ---------------------------------------------------------------------
  // ISO 8601 text, as `isoformat()` writes it
  // ---------------------------------------------------------------------

  function Pad2(n: int): (s: string)
    requires 0 <= n < 100
    ensures |s| == 2 && IsDigit(s[0]) && IsDigit(s[1])
    ensures Num2(s, 0) == n
  {
    [DigitChar(n / 10), DigitChar(n % 10)]
  }

  /** `YYYY-MM-DDTHH:MM:SS`, the year zero-padded to four digits. */
  function IsoLocal(dt: LocalDateTime): (s: string)
    requires ValidDateTime(dt)
    ensures |s| == 19
  {
    IsoDate(dt) + "T" + IsoTime(dt)
  }

  function IsoDate(dt: LocalDateTime): (s: string)
    requires ValidDateTime(dt)
    ensures |s| == 10
  {
    Pad2(dt.year / 100) + Pad2(dt.year % 100) + "-" + Pad2(dt.month) + "-" + Pad2(dt.day)
  }

  function IsoTime(dt: LocalDateTime): (s: string)
    requires ValidDateTime(dt)
    ensures |s| == 8
  {
    Pad2(dt.hour) + ":" + Pad2(dt.minute) + ":" + Pad2(dt.second)
  }

  /** `+HH:MM` or `-HH:MM`; a zero offset is written `+00:00`. */
  function IsoOffset(minutes: int): (s: string)
    requires ValidOffset(minutes)
    ensures TzShaped(s)
  {
    var a := if minutes < 0 then -minutes else minutes;
    (if minutes < 0 then "-" else "+") + Pad2(a / 60) + ":" + Pad2(a % 60)
  }

  function Iso(ts: EventTs): string
    requires ValidDateTime(ts.local)
    requires ts.offset.Some? ==> ValidOffset(ts.offset.value)
  {
    IsoLocal(ts.local) + (if ts.offset.Some? then IsoOffset(ts.offset.value) else "")
  }

  /** `parse_event_ts`: the event time as ISO text, or nothing. */
  function ParseEventTs(kv: map<string, string>, defaultYear: int, month: int, day: int, time: string): (r: Option<string>)
    ensures r.Some? <==> EventTime(kv, defaultYear, month, day, time).Some?
    ensures r.Some? ==> |r.value| == 19 || |r.value| == 25
  {
    match EventTime(kv, defaultYear, month, day, time)
    case None => None
    case Some(ts) => Some(Iso(ts))
  }

  // ---------------------------------------------------------------------
  // Properties
  // ---------------------------------------------------------------------

  /** The local part of the ISO text reads back as the same date and time. */
  lemma IsoLocalRoundTrip(dt: LocalDateTime)
    requires ValidDateTime(dt)
    ensures ParseIsoLocal(IsoLocal(dt)) == Some(dt)
  {
    var s := IsoLocal(dt);
    IsoLocalFields(dt);
    Num2Slice(s, 0);
    Num2Slice(s, 2);
    Num2Slice(s, 5);
    Num2Slice(s, 8);
    Num2Slice(s, 11);
    Num2Slice(s, 14);
    Num2Slice(s, 17);
    assert AllDigits(s[0..4]) by {
      assert s[0..4] == s[0..2] + s[2..4];
    }
  }

  /** Where each field sits in the ISO text. */
  lemma IsoLocalFields(dt: LocalDateTime)
    requires ValidDateTime(dt)
    ensures var s := IsoLocal(dt);
      && s[0..2] == Pad2(dt.year / 100) && s[2..4] == Pad2(dt.year % 100)
      && s[4] == '-' && s[5..7] == Pad2(dt.month) && s[7] == '-' && s[8..10] == Pad2(dt.day)
      && s[10] == 'T' && s[11..13] == Pad2(dt.hour) && s[13] == ':'
      && s[14..16] == Pad2(dt.minute) && s[16] == ':' && s[17..19] == Pad2(dt.second)
  {
  }

  lemma Num2Slice(s: string, i: nat)
    requires i + 2 <= |s| && IsDigit(s[i]) && IsDigit(s[i + 1])
    ensures Num2(s, i) == Num2(s[i..i + 2], 0)
  {
  }

  /** An offset written with minutes under 60 is rendered as it was written,
      except that `-00:00` comes out as `+00:00`. */
  lemma IsoOffsetRoundTrip(t: string)
    requires TzShaped(t) && Num2(t, 4) < 60
    requires ValidOffset(OffsetMinutes(t))
    requires t[0] == '+' || OffsetMinutes(t) != 0
    ensures IsoOffset(OffsetMinutes(t)) == t
  {
    var s := IsoOffset(OffsetMinutes(t));
    var a := Num2(t, 1) * 60 + Num2(t, 4);
    assert a / 60 == Num2(t, 1) && a % 60 == Num2(t, 4);
    assert Num2(s, 1) == Num2(t, 1) && Num2(s, 4) == Num2(t, 4);
    DigitsOfNum2(s, t, 1);
    DigitsOfNum2(s, t, 4);
  }

  lemma DigitsOfNum2(s: string, t: string, i: nat)
    requires i + 1 < |s| && i + 1 < |t|
    requires IsDigit(s[i]) && IsDigit(s[i + 1]) && IsDigit(t[i]) && IsDigit(t[i + 1])
    requires Num2(s, i) == Num2(t, i)
    ensures s[i] == t[i] && s[i + 1] == t[i + 1]
  {
    assert DigitValue(s[i]) == DigitValue(t[i]);
  }

  /** A sign and four digits, quoted and padded with whitespace, normalise
      to `±HH:MM`. */
  lemma TzNormalizeAccepts(pre: string, core: string, post: string)
    requires |core| == 5 && IsSign(core[0]) && AllDigits(core[1..])
    requires forall i :: 0 <= i < |pre| ==> IsSpace(pre[i])
    requires forall i :: 0 <= i < |post| ==> IsSpace(post[i])
    ensures TzNormalize(Some(pre + "\"" + core + "\"" + post)) == Some(core[..3] + ":" + core[3..])
  {
    var quoted := "\"" + core + "\"";
    assert pre + "\"" + core + "\"" + post == pre + quoted + post;
    StripAround(pre, quoted, post, IsSpace);
    assert IsDigit(core[4]);
    StripAround("\"", core, "\"", IsQuote);
  }

  /** An explicit `date`/`time` that parses (and a tz, if any, in range)
      wins over the header. */
  lemma ExplicitWins(kv: map<string, string>, defaultYear: int, month: int, day: int, time: string, dt: LocalDateTime)
    requires "date" in kv && "time" in kv && kv["date"] != [] && kv["time"] != []
    requires ParseIsoLocal(kv["date"] + "T" + kv["time"]) == Some(dt)
    requires Attach(dt, TzNormalize(Lookup(kv, "tz"))).Some?
    ensures EventTime(kv, defaultYear, month, day, time).Some?
    ensures EventTime(kv, defaultYear, month, day, time).value.local == dt
  {
  }

  /** Without a usable explicit timestamp, the header's month, day and time
      in the default year are used. */
  lemma FallbackUsed(kv: map<string, string>, defaultYear: int, month: int, day: int, time: string)
    requires "date" !in kv || "time" !in kv || kv["date"] == [] || kv["time"] == []
      || ParseIsoLocal(kv["date"] + "T" + kv["time"]).None?
    ensures EventTime(kv, defaultYear, month, day, time) ==
      match FallbackDateTime(defaultYear, month, day, time)
      case None => None
      case Some(dt) => Attach(dt, TzNormalize(Lookup(kv, "tz")))
  {
  }

  /** A tz a day or more away from UTC spoils both paths: no timestamp. */
  lemma TzOutOfRange(kv: map<string, string>, defaultYear: int, month: int, day: int, time: string)
    requires TzNormalize(Lookup(kv, "tz")).Some?
    requires !ValidOffset(OffsetMinutes(TzNormalize(Lookup(kv, "tz")).value))
    ensures EventTime(kv, defaultYear, month, day, time).None?
  {
  }

  /** February 29th outside a leap year: `datetime` raises, so no timestamp. */
  lemma NoLeapDay(kv: map<string, string>, year: int, time: string)
    requires "date" !in kv && !IsLeap(year)
    ensures EventTime(kv, year, 2, 29, time).None?
  {
    FallbackUsed(kv, year, 2, 29, time);
    assert DaysInMonth(year, 2) == 28;
  }

  /** `Jan  5 03:04:05` in 2024 without `date`, `time` or `tz`. */
  lemma HeaderExample()
    ensures ParseEventTs(map[], 2024, 1, 5, "03:04:05") == Some("2024-01-05T03:04:05")
  {
    var dt := LocalDateTime(2024, 1, 5, 3, 4, 5);
    HeaderTimeExample();
    FallbackUsed(map[], 2024, 1, 5, "03:04:05");
    assert EventTime(map[], 2024, 1, 5, "03:04:05") == Some(EventTs(dt, None));
    HeaderIso(dt);
  }

  lemma HeaderIso(dt: LocalDateTime)
    requires dt == LocalDateTime(2024, 1, 5, 3, 4, 5)
    ensures ValidDateTime(dt) && Iso(EventTs(dt, None)) == "2024-01-05T03:04:05"
  {
    assert Pad2(20) == "20" && Pad2(24) == "24" && Pad2(1) == "01" && Pad2(5) == "05";
    assert IsoDate(dt) == "2024-01-05";
    assert Pad2(3) == "03" && Pad2(4) == "04";
    assert IsoTime(dt) == "03:04:05";
  }

  lemma HeaderTimeExample()
    ensures FallbackDateTime(2024, 1, 5, "03:04:05") == Some(LocalDateTime(2024, 1, 5, 3, 4, 5))
  {
    SplitTimeExample();
    SmallIntText("03", 3);
    SmallIntText("04", 4);
    SmallIntText("05", 5);
    var parts := Split("03:04:05", ':');
    assert parts[0] == "03" && parts[1] == "04" && parts[2] == "05";
  }

  lemma SplitTimeExample()
    ensures Split("03:04:05", ':') == ["03", "04", "05"]
  {
    SplitNone("05", ':');
    SplitFirst("04", "05", ':');
    assert "04:05" == "04" + [':'] + "05";
    SplitFirst("03", "04:05", ':');
    assert "03:04:05" == "03" + [':'] + "04:05";
  }

  /** Two digits read by `int()`. */
  lemma SmallIntText(s: string, n: int)
    requires |s| == 2 && IsDigit(s[0]) && IsDigit(s[1])
    requires n == DigitValue(s[0]) * 10 + DigitValue(s[1])
    ensures ParseInt(s) == Some(n)
  {
    StripKept(s, IntSpace);
    assert DigitGroups(s);
    DropUnderscoresDigits(s);
    assert s[..1] == [s[0]] && [s[0]][..0] == [];
    assert DigitsValue(s) == DigitsValue(s[..1]) * 10 + DigitValue(s[1]);
    assert DigitsValue(s[..1]) == DigitValue(s[0]);
  }

  /** `date=2023-12-31 time=23:59:59 tz=+0530`. */
  lemma ExplicitExample()
    ensures ParseEventTs(map["date" := "2023-12-31", "time" := "23:59:59", "tz" := "+0530"], 2024, 1, 1, "00:00:00")
      == Some("2023-12-31T23:59:59+05:30")
  {
    var kv := map["date" := "2023-12-31", "time" := "23:59:59", "tz" := "+0530"];
    TzExample();
    assert Lookup(kv, "tz") == Some("+0530");
    var dt := LocalDateTime(2023, 12, 31, 23, 59, 59);
    IsoParseExample(dt);
    assert kv["date"] + "T" + kv["time"] == "2023-12-31T23:59:59";
    assert Explicit(kv, Some("+05:30")) == Some(EventTs(dt, Some(330)));
    assert EventTime(kv, 2024, 1, 1, "00:00:00") == Some(EventTs(dt, Some(330)));
    ExplicitIso(dt);
  }

  lemma ExplicitIso(dt: LocalDateTime)
    requires dt == LocalDateTime(2023, 12, 31, 23, 59, 59)
    ensures ValidDateTime(dt) && Iso(EventTs(dt, Some(330))) == "2023-12-31T23:59:59+05:30"
  {
    ExplicitIsoLocal(dt);
    assert Pad2(5) == "05" && Pad2(30) == "30";
    assert IsoOffset(330) == "+05:30";
  }

  lemma ExplicitIsoLocal(dt: LocalDateTime)
    requires dt == LocalDateTime(2023, 12, 31, 23, 59, 59)
    ensures ValidDateTime(dt) && IsoLocal(dt) == "2023-12-31T23:59:59"
  {
    assert Pad2(20) == "20" && Pad2(23) == "23" && Pad2(12) == "12" && Pad2(31) == "31";
    assert IsoDate(dt) == "2023-12-31";
    assert Pad2(59) == "59";
    assert IsoTime(dt) == "23:59:59";
  }

  lemma TzExample()
    ensures TzNormalize(Some("+0530")) == Some("+05:30")
    ensures OffsetMinutes("+05:30") == 330
  {
    StripKept("+0530", IsSpace);
    StripKept("+0530", IsQuote);
    assert "+0530"[1..] == "0530";
    assert "+0530"[..3] + ":" + "+0530"[3..] == "+05:30";
  }

  lemma IsoParseExample(dt: LocalDateTime)
    requires dt == LocalDateTime(2023, 12, 31, 23, 59, 59)
    ensures ParseIsoLocal("2023-12-31T23:59:59") == Some(dt)
  {
    ExplicitIsoLocal(dt);
    IsoLocalRoundTrip(dt);
  }
}
