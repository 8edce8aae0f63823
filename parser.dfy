/**
 * One FortiGate syslog line to either a structured event or a dead-letter
 * record: blank and binary lines are refused, the syslog envelope
 * `Mon dd HH:MM:SS host body` is matched, the month is looked up, the body
 * is read as key-value pairs and the event is assembled from them.
 */
module Parser {
  import opened Text
  import opened Kv
  import opened Timestamp

  // ---------------------------------------------------------------------
  // Binary garbage
  // ---------------------------------------------------------------------

  /** A C0 control character other than tab and line feed. */
  predicate IsBadControl(c: char) {
    c as int < 9 || (11 <= c as int < 32)
  }

  /** The number of bad control characters. */
  function BadCount(s: string): (n: nat)
    ensures n <= |s|
  {
    if s == [] then 0 else (if IsBadControl(s[0]) then 1 else 0) + BadCount(s[1..])
  }

  /** `_has_binary_garbage`: a NUL anywhere, or more than five bad control
      characters. */
  predicate HasBinaryGarbage(s: string) {
    '\0' in s || BadCount(s) > 5
  }

  predicate Clean(s: string) {
    forall i :: 0 <= i < |s| ==> !IsBadControl(s[i])
  }

  lemma {:induction false} BadCountAppend(a: string, b: string)
    ensures BadCount(a + b) == BadCount(a) + BadCount(b)
    decreases |a|
  {
    if a == [] {
      assert a + b == b;
    } else {
      assert (a + b)[1..] == a[1..] + b;
      BadCountAppend(a[1..], b);
    }
  }

  /** Text without bad control characters is never taken for binary. */
  lemma {:induction false} CleanNotGarbage(s: string)
    requires Clean(s)
    ensures BadCount(s) == 0 && !HasBinaryGarbage(s)
    decreases |s|
  {
    if s != [] {
      CleanNotGarbage(s[1..]);
    }
  }

  /** A NUL character always marks a line as binary. */
  lemma NulIsGarbage(s: string)
    requires '\0' in s
    ensures HasBinaryGarbage(s)
  {
  }

  /** Six bad control characters mark a line as binary, five do not. */
  lemma GarbageThreshold()
    ensures HasBinaryGarbage("\U{1}\U{2}\U{3}\U{4}\U{5}\U{6}")
    ensures !HasBinaryGarbage("\U{1}\U{2}\U{3}\U{4}\U{5}")
  {
    assert BadCount("\U{6}") == 1;
    assert BadCount("\U{5}\U{6}") == 2;
    assert BadCount("\U{4}\U{5}\U{6}") == 3;
    assert BadCount("\U{3}\U{4}\U{5}\U{6}") == 4;
    assert BadCount("\U{2}\U{3}\U{4}\U{5}\U{6}") == 5;
    assert BadCount("\U{5}") == 1;
    assert BadCount("\U{4}\U{5}") == 2;
    assert BadCount("\U{3}\U{4}\U{5}") == 3;
    assert BadCount("\U{2}\U{3}\U{4}\U{5}") == 4;
  }

  // ---------------------------------------------------------------------
  // The syslog envelope
  // ---------------------------------------------------------------------

  /** The named groups of the envelope pattern. */
  datatype Header = Header(mon: string, day: string, time: string, host: string, body: string)

  predicate NotSpace(c: char) {
    !IsSpace(c)
  }

  predicate IsNewline(c: char) {
    c == '\n'
  }

  predicate IsUpper(c: char) {
    'A' <= c <= 'Z'
  }

  predicate IsLower(c: char) {
    'a' <= c <= 'z'
  }

  /** `[A-Z][a-z]{2}`. */
  predicate MonthShaped(m: string) {
    |m| == 3 && IsUpper(m[0]) && IsLower(m[1]) && IsLower(m[2])
  }

  /** `\d{2}:\d{2}:\d{2}`. */
  predicate TimeShaped(t: string) {
    && |t| == 8
    && IsDigit(t[0]) && IsDigit(t[1]) && t[2] == ':'
    && IsDigit(t[3]) && IsDigit(t[4]) && t[5] == ':'
    && IsDigit(t[6]) && IsDigit(t[7])
  }

  predicate AllOf(s: string, p: char -> bool) {
    forall i :: 0 <= i < |s| ==> p(s[i])
  }

  /** The groups as the pattern can capture them. The body cannot start
      with whitespace, because the `\s+` before it is greedy. */
  predicate HeaderShaped(h: Header) {
    && MonthShaped(h.mon)
    && 1 <= |h.day| <= 2 && AllDigits(h.day)
    && TimeShaped(h.time)
    && h.host != [] && AllOf(h.host, NotSpace)
    && '\n' !in h.body
    && (h.body == [] || !IsSpace(h.body[0]))
  }

  /** The length of the longest prefix of `s` whose characters satisfy `p`. */
  function LeadingRun(s: string, p: char -> bool): (n: nat)
    ensures n <= |s|
  {
    if s != [] && p(s[0]) then 1 + LeadingRun(s[1..], p) else 0
  }

  lemma {:induction false} LeadingRunSpec(s: string, p: char -> bool)
    ensures AllOf(s[..LeadingRun(s, p)], p)
    ensures LeadingRun(s, p) < |s| ==> !p(s[LeadingRun(s, p)])
  {
    if s != [] && p(s[0]) {
      LeadingRunSpec(s[1..], p);
      var n := LeadingRun(s, p);
      assert s[..n] == [s[0]] + s[1..][..n - 1];
    }
  }

  lemma {:induction false} LeadingRunOf(run: string, rest: string, p: char -> bool)
    requires AllOf(run, p)
    requires rest == [] || !p(rest[0])
    ensures LeadingRun(run + rest, p) == |run|
    decreases |run|
  {
    if run == [] {
      assert run + rest == rest;
    } else {
      assert (run + rest)[1..] == run[1..] + rest;
      LeadingRunOf(run[1..], rest, p);
    }
  }

  /** `SYSLOG_RE.match(line)`:
      `^([A-Z][a-z]{2})\s+(\d{1,2})\s+(\d{2}:\d{2}:\d{2})\s+(\S+)\s+(.*)$`.
      Each `\s+`, `\d{1,2}` and `\S+` takes a maximal run (a shorter one
      would leave a character the next item cannot start with); `.` stops
      at a line feed and `$` also matches before a final line feed. The
      stages below read the pattern item by item from the left. */
  function MatchSyslog(line: string): (r: Option<Header>)
    ensures r.Some? ==> HeaderShaped(r.value)
  {
    if |line| < 3 || !MonthShaped(line[..3]) then None
    else MatchDay(line[..3], line[3..])
  }

  /** `\s+(\d{1,2})`, then the rest. */
  function MatchDay(mon: string, s: string): (r: Option<Header>)
    requires MonthShaped(mon)
    ensures r.Some? ==> HeaderShaped(r.value) && r.value.mon == mon
  {
    var n := LeadingRun(s, IsSpace);
    if n == 0 then None
    else
      var t := s[n..];
      var d := LeadingRun(t, IsDigit);
      if d == 0 || d > 2 then None
      else
        LeadingRunSpec(t, IsDigit);
        MatchTime(mon, t[..d], t[d..])
  }

  /** `\s+(\d{2}:\d{2}:\d{2})`, then the rest. */
  function MatchTime(mon: string, day: string, s: string): (r: Option<Header>)
    requires MonthShaped(mon) && 1 <= |day| <= 2 && AllDigits(day)
    ensures r.Some? ==> HeaderShaped(r.value) && r.value.mon == mon && r.value.day == day
  {
    var n := LeadingRun(s, IsSpace);
    if n == 0 then None
    else
      var t := s[n..];
      if |t| < 8 || !TimeShaped(t[..8]) then None
      else MatchHost(mon, day, t[..8], t[8..])
  }

  /** `\s+(\S+)`, then the body. */
  function MatchHost(mon: string, day: string, time: string, s: string): (r: Option<Header>)
    requires MonthShaped(mon) && 1 <= |day| <= 2 && AllDigits(day) && TimeShaped(time)
    ensures r.Some? ==> HeaderShaped(r.value)
    ensures r.Some? ==> r.value.mon == mon && r.value.day == day && r.value.time == time
  {
    var n := LeadingRun(s, IsSpace);
    if n == 0 then None
    else
      var t := s[n..];
      var k := LeadingRun(t, NotSpace);
      if k == 0 then None
      else
        LeadingRunSpec(t, NotSpace);
        match MatchBody(t[k..])
        case None => None
        case Some(body) => Some(Header(mon, day, time, t[..k], body))
  }

  /** `\s+(.*)$`: after a maximal whitespace run, the rest of the line up
      to an optional final line feed, which must hold no other line feed. */
  function MatchBody(s: string): (r: Option<string>)
    ensures r.Some? ==> '\n' !in r.value && (r.value == [] || !IsSpace(r.value[0]))
  {
    var n := LeadingRun(s, IsSpace);
    if n == 0 then None
    else
      var rest := s[n..];
      var body := if rest != [] && rest[|rest| - 1] == '\n' then rest[..|rest| - 1] else rest;
      if '\n' in body then None
      else
        LeadingRunSpec(s, IsSpace);
        assert body != [] ==> body[0] == rest[0];
        Some(body)
  }

  /** The line an envelope with the given whitespace runs is written as,
      followed by `nl` (nothing or one line feed). */
  function Compose(h: Header, ws1: string, ws2: string, ws3: string, ws4: string, nl: string): string {
    h.mon + (ws1 + (h.day + (ws2 + (h.time + (ws3 + (h.host + (ws4 + (h.body + nl))))))))
  }

  predicate Gap(ws: string) {
    ws != [] && AllOf(ws, IsSpace)
  }

  predicate LineEnd(nl: string) {
    nl == [] || nl == "\n"
  }

  lemma MatchBodyComplete(ws: string, body: string, nl: string)
    requires Gap(ws) && '\n' !in body && (body == [] || !IsSpace(body[0])) && LineEnd(nl)
    ensures MatchBody(ws + (body + nl)) == Some(body)
  {
    if body == [] {
      var run := ws + nl;
      assert ws + (body + nl) == run + [];
      assert AllOf(run, IsSpace);
      LeadingRunOf(run, [], IsSpace);
      assert (run + [])[|run|..] == [];
    } else {
      var rest := body + nl;
      LeadingRunOf(ws, rest, IsSpace);
      assert (ws + rest)[|ws|..] == rest;
      assert body[|body| - 1] in body;
      if nl != [] {
        assert rest[..|rest| - 1] == body;
      } else {
        assert rest == body;
      }
    }
  }

  lemma MatchHostComplete(mon: string, day: string, time: string, ws3: string, host: string, ws4: string, body: string, nl: string)
    requires MonthShaped(mon) && 1 <= |day| <= 2 && AllDigits(day) && TimeShaped(time)
    requires Gap(ws3) && host != [] && AllOf(host, NotSpace) && Gap(ws4)
    requires '\n' !in body && (body == [] || !IsSpace(body[0])) && LineEnd(nl)
    ensures MatchHost(mon, day, time, ws3 + (host + (ws4 + (body + nl)))) == Some(Header(mon, day, time, host, body))
  {
    var u := ws4 + (body + nl);
    var t := host + u;
    LeadingRunOf(ws3, t, IsSpace);
    assert (ws3 + t)[|ws3|..] == t;
    assert ws4[0] in ws4;
    LeadingRunOf(host, u, NotSpace);
    assert t[|host|..] == u && t[..|host|] == host;
    MatchBodyComplete(ws4, body, nl);
  }

  lemma MatchTimeComplete(mon: string, day: string, ws2: string, time: string, s: string)
    requires MonthShaped(mon) && 1 <= |day| <= 2 && AllDigits(day)
    requires Gap(ws2) && TimeShaped(time)
    ensures MatchTime(mon, day, ws2 + (time + s)) == MatchHost(mon, day, time, s)
  {
    LeadingRunOf(ws2, time + s, IsSpace);
    var t := time + s;
    assert (ws2 + t)[|ws2|..] == t;
    assert t[..8] == time && t[8..] == s;
  }

  lemma MatchDayComplete(mon: string, ws1: string, day: string, s: string)
    requires MonthShaped(mon) && Gap(ws1) && 1 <= |day| <= 2 && AllDigits(day)
    requires s == [] || !IsDigit(s[0])
    ensures MatchDay(mon, ws1 + (day + s)) == MatchTime(mon, day, s)
  {
    var t := day + s;
    LeadingRunOf(ws1, t, IsSpace);
    assert (ws1 + t)[|ws1|..] == t;
    LeadingRunOf(day, s, IsDigit);
    assert t[..|day|] == day && t[|day|..] == s;
  }

  /** Every well-formed envelope is matched, with exactly its groups, with
      or without a final line feed. */
  lemma MatchSyslogComplete(h: Header, ws1: string, ws2: string, ws3: string, ws4: string, nl: string)
    requires HeaderShaped(h) && LineEnd(nl)
    requires Gap(ws1) && Gap(ws2) && Gap(ws3) && Gap(ws4)
    ensures MatchSyslog(Compose(h, ws1, ws2, ws3, ws4, nl)) == Some(h)
  {
    var s5 := ws3 + (h.host + (ws4 + (h.body + nl)));
    var s3 := ws2 + (h.time + s5);
    var s1 := ws1 + (h.day + s3);
    var line := Compose(h, ws1, ws2, ws3, ws4, nl);
    assert line == h.mon + s1;
    assert line[..3] == h.mon && line[3..] == s1;
    assert ws2[0] in ws2;
    MatchDayComplete(h.mon, ws1, h.day, s3);
    MatchTimeComplete(h.mon, h.day, ws2, h.time, s5);
    MatchHostComplete(h.mon, h.day, h.time, ws3, h.host, ws4, h.body, nl);
  }

  lemma SliceSplit(s: string, k: nat)
    requires k <= |s|
    ensures s == s[..k] + s[k..]
  {
  }

  lemma MatchBodySound(s: string, body: string) returns (ws: string, nl: string)
    requires MatchBody(s) == Some(body)
    ensures Gap(ws) && LineEnd(nl)
    ensures s == ws + (body + nl)
  {
    var n := LeadingRun(s, IsSpace);
    LeadingRunSpec(s, IsSpace);
    var rest := s[n..];
    ws := s[..n];
    if rest != [] && rest[|rest| - 1] == '\n' {
      nl := "\n";
      assert body == rest[..|rest| - 1];
      assert rest == body + nl;
    } else {
      nl := [];
      assert rest == body + nl;
    }
    SliceSplit(s, n);
  }

  lemma MatchHostSound(mon: string, day: string, time: string, s: string, h: Header) returns (ws3: string, rest: string)
    requires MonthShaped(mon) && 1 <= |day| <= 2 && AllDigits(day) && TimeShaped(time)
    requires MatchHost(mon, day, time, s) == Some(h)
    ensures Gap(ws3) && MatchBody(rest) == Some(h.body)
    ensures s == ws3 + (h.host + rest)
  {
    var n := LeadingRun(s, IsSpace);
    LeadingRunSpec(s, IsSpace);
    var t := s[n..];
    var k := LeadingRun(t, NotSpace);
    rest := t[k..];
    ws3 := s[..n];
    assert h.host == t[..k];
    SliceSplit(t, k);
    SliceSplit(s, n);
  }

  lemma MatchTimeSound(mon: string, day: string, s: string, h: Header) returns (ws2: string, rest: string)
    requires MonthShaped(mon) && 1 <= |day| <= 2 && AllDigits(day)
    requires MatchTime(mon, day, s) == Some(h)
    ensures TimeShaped(h.time) && Gap(ws2) && MatchHost(mon, day, h.time, rest) == Some(h)
    ensures s == ws2 + (h.time + rest)
  {
    var n := LeadingRun(s, IsSpace);
    LeadingRunSpec(s, IsSpace);
    var t := s[n..];
    assert MatchHost(mon, day, t[..8], t[8..]) == Some(h);
    ws2 := s[..n];
    rest := t[8..];
    SliceSplit(t, 8);
    SliceSplit(s, n);
  }

  lemma MatchDaySound(mon: string, s: string, h: Header) returns (ws1: string, rest: string)
    requires MonthShaped(mon)
    requires MatchDay(mon, s) == Some(h)
    ensures 1 <= |h.day| <= 2 && AllDigits(h.day) && Gap(ws1) && MatchTime(mon, h.day, rest) == Some(h)
    ensures s == ws1 + (h.day + rest)
  {
    var n := LeadingRun(s, IsSpace);
    LeadingRunSpec(s, IsSpace);
    var t := s[n..];
    var d := LeadingRun(t, IsDigit);
    assert MatchTime(mon, t[..d], t[d..]) == Some(h);
    ws1 := s[..n];
    rest := t[d..];
    assert h.day == t[..d];
    SliceSplit(t, d);
    SliceSplit(s, n);
  }

  /** Every match is a well-formed envelope written with some whitespace
      runs, possibly followed by one line feed. */
  lemma MatchSyslogSound(line: string, h: Header) returns (ws1: string, ws2: string, ws3: string, ws4: string, nl: string)
    requires MatchSyslog(line) == Some(h)
    ensures Gap(ws1) && Gap(ws2) && Gap(ws3) && Gap(ws4) && LineEnd(nl)
    ensures line == Compose(h, ws1, ws2, ws3, ws4, nl)
  {
    var s1 := line[3..];
    assert MatchDay(line[..3], s1) == Some(h);
    SliceSplit(line, 3);
    var s3, s5, s7;
    ws1, s3 := MatchDaySound(h.mon, s1, h);
    ws2, s5 := MatchTimeSound(h.mon, h.day, s3, h);
    ws3, s7 := MatchHostSound(h.mon, h.day, h.time, s5, h);
    ws4, nl := MatchBodySound(s7, h.body);
  }

  // ---------------------------------------------------------------------
  // Months and integers
  // ---------------------------------------------------------------------

  /** `MONTHS`. */
  const Months: map<string, int> := map[
    "Jan" := 1, "Feb" := 2, "Mar" := 3, "Apr" := 4, "May" := 5, "Jun" := 6,
    "Jul" := 7, "Aug" := 8, "Sep" := 9, "Oct" := 10, "Nov" := 11, "Dec" := 12]

  const MonthNames: seq<string> :=
    ["Jan", "Feb", "Mar", "Apr", "May", "Jun", "Jul", "Aug", "Sep", "Oct", "Nov", "Dec"]

  function MonthNumber(mon: string): (r: Option<int>)
    ensures r.Some? ==> 1 <= r.value <= 12
  {
    if mon in Months then Some(Months[mon]) else None
  }

  /** The month table is a bijection between the twelve English
      abbreviations and 1 to 12. */
  lemma MonthTable(mon: string)
    ensures MonthNumber(mon).Some? <==> mon in MonthNames
    ensures MonthNumber(mon).Some? ==> MonthNames[MonthNumber(mon).value - 1] == mon
  {
  }

  /** `_to_int`: absent stays absent, and text `int()` refuses becomes
      absent. */
  function ToInt(x: Option<string>): (r: Option<int>)
    ensures x.None? ==> r.None?
  {
    match x
    case None => None
    case Some(s) => ParseInt(s)
  }

  /** `_to_int(str(i)) == i` for every `i` that `str()` renders. */
  lemma ToIntRoundTrip(i: int)
    requires |NatToString(if i < 0 then -i else i)| <= MaxStrDigits
    ensures ToInt(Some(IntToString(i))) == Some(i)
  {
    ParseIntRoundTrip(i);
  }

  /** Text without a single digit is not a number. */
  lemma ToIntNonNumeric(s: string)
    requires forall i :: 0 <= i < |s| ==> !IsDigit(s[i])
    ensures ToInt(Some(s)) == None
  {
    var a := TrimStart(s, IntSpace);
    TrimStartSpec(s, IntSpace);
    TrimEndSpec(a, IntSpace);
    var t := Strip(s, IntSpace);
    if t != [] {
      var k := if t[0] == '+' || t[0] == '-' then 1 else 0;
      if k < |t| {
        assert t[k] == a[k] == s[|s| - |a| + k];
      }
    }
  }

  // ---------------------------------------------------------------------
  // Events and dead letters
  // ---------------------------------------------------------------------

  datatype ParseStatus = Ok | Partial

  /** The event record `parse_fortigate_line` builds (`logType` is the
      `type` field). */
  datatype Event = Event(
    schemaVersion: int,
    eventId: string,
    host: string,
    eventTs: Option<string>,
    logType: Option<string>,
    subtype: Option<string>,
    level: Option<string>,
    devname: Option<string>,
    devid: Option<string>,
    vd: Option<string>,
    action: Option<string>,
    policyid: Option<int>,
    proto: Option<int>,
    service: Option<string>,
    srcip: Option<string>,
    srcport: Option<int>,
    srcintf: Option<string>,
    srcintfrole: Option<string>,
    dstip: Option<string>,
    dstport: Option<int>,
    dstintf: Option<string>,
    dstintfrole: Option<string>,
    sentbyte: Option<int>,
    rcvdbyte: Option<int>,
    sentpkt: Option<int>,
    rcvdpkt: Option<int>,
    raw: string,
    parseStatus: ParseStatus)

  datatype DlqReason = EmptyLine | NonTextOrBinary | SyslogHeaderParseFail | InvalidMonth | KvParseException
  {
    function Code(): string {
      match this
      case EmptyLine => "empty_line"
      case NonTextOrBinary => "non_text_or_binary"
      case SyslogHeaderParseFail => "syslog_header_parse_fail"
      case InvalidMonth => "invalid_month"
      case KvParseException => "kv_parse_exception"
    }
  }

  datatype DlqRecord = DlqRecord(reason: DlqReason, raw: string)

  /** The `(event, dlq)` pair, exactly one of which is present. */
  datatype LineResult = Accepted(event: Event) | Rejected(dlq: DlqRecord)

  /** `stable_event_id`: the first 32 characters of the hex SHA-256 digest of
      the raw line; `hexDigest` stands for that digest. */
  function EventId(raw: string, hexDigest: string -> string): (id: string)
    ensures |id| <= 32 && |id| <= |hexDigest(raw)|
    ensures id == hexDigest(raw)[..|id|]
    ensures |hexDigest(raw)| >= 32 ==> |id| == 32
  {
    var h := hexDigest(raw);
    if |h| <= 32 then h else h[..32]
  }

  /** A line is partial when `type`, `subtype` or `action` is missing. */
  function Status(kv: map<string, string>): (s: ParseStatus)
    ensures s == Partial <==> "type" !in kv || "subtype" !in kv || "action" !in kv
  {
    if "type" in kv && "subtype" in kv && "action" in kv then Ok else Partial
  }

  function BuildEvent(raw: string, host: string, kv: map<string, string>, eventTs: Option<string>, id: string): Event {
    Event(
      1, id, host, eventTs,
      Lookup(kv, "type"), Lookup(kv, "subtype"), Lookup(kv, "level"),
      Lookup(kv, "devname"), Lookup(kv, "devid"), Lookup(kv, "vd"), Lookup(kv, "action"),
      ToInt(Lookup(kv, "policyid")), ToInt(Lookup(kv, "proto")),
      Lookup(kv, "service"), Lookup(kv, "srcip"), ToInt(Lookup(kv, "srcport")),
      Lookup(kv, "srcintf"), Lookup(kv, "srcintfrole"),
      Lookup(kv, "dstip"), ToInt(Lookup(kv, "dstport")),
      Lookup(kv, "dstintf"), Lookup(kv, "dstintfrole"),
      ToInt(Lookup(kv, "sentbyte")), ToInt(Lookup(kv, "rcvdbyte")),
      ToInt(Lookup(kv, "sentpkt")), ToInt(Lookup(kv, "rcvdpkt")),
      raw, Status(kv))
  }

  /** `raw_line.rstrip("\n")`. */
  function StripNewlines(raw: string): string {
    TrimEnd(raw, IsNewline)
  }

  /** `parse_fortigate_line`. */
  function ParseFortigateLine(raw: string, nowYear: int, hexDigest: string -> string): (r: LineResult)
    ensures r.Rejected? ==> r.dlq.raw == raw && r.dlq.reason != KvParseException
    ensures r.Accepted? ==> r.event.raw == raw && r.event.schemaVersion == 1
    ensures r.Accepted? ==> r.event.eventId == EventId(raw, hexDigest)
  {
    var line := StripNewlines(raw);
    if line == [] then Rejected(DlqRecord(EmptyLine, raw))
    else if HasBinaryGarbage(line) then Rejected(DlqRecord(NonTextOrBinary, raw))
    else
      match MatchSyslog(line)
      case None => Rejected(DlqRecord(SyslogHeaderParseFail, raw))
      case Some(h) => ParseMatched(raw, h, nowYear, hexDigest)
  }

  /** The rest of `parse_fortigate_line` once the header has matched: the
      month lookup, the body's pairs, the timestamp and the event. */
  function ParseMatched(raw: string, h: Header, nowYear: int, hexDigest: string -> string): (r: LineResult)
    requires HeaderShaped(h)
    ensures r.Rejected? ==> r.dlq == DlqRecord(InvalidMonth, raw)
    ensures r.Accepted? ==> r.event.raw == raw && r.event.schemaVersion == 1
    ensures r.Accepted? ==> r.event.eventId == EventId(raw, hexDigest)
  {
    match MonthNumber(h.mon)
    case None => Rejected(DlqRecord(InvalidMonth, raw))
    case Some(mon) =>
      var kv := KvSpec(h.body);
      var ts := ParseEventTs(kv, nowYear, mon, DigitsValue(h.day), h.time);
      Accepted(BuildEvent(raw, h.host, kv, ts, EventId(raw, hexDigest)))
  }

  // ---------------------------------------------------------------------
  // Properties of the line parser
  // ---------------------------------------------------------------------

  /** Lines of nothing but line feeds are empty. */
  lemma EmptyLineRejected(raw: string, nowYear: int, hexDigest: string -> string)
    requires AllOf(raw, IsNewline)
    ensures ParseFortigateLine(raw, nowYear, hexDigest) == Rejected(DlqRecord(EmptyLine, raw))
  {
    TrimEndSpec(raw, IsNewline);
  }

  /** A NUL anywhere in the line makes it binary. */
  lemma NulRejected(raw: string, nowYear: int, hexDigest: string -> string)
    requires '\0' in raw
    ensures ParseFortigateLine(raw, nowYear, hexDigest) == Rejected(DlqRecord(NonTextOrBinary, raw))
  {
    var k :| 0 <= k < |raw| && raw[k] == '\0';
    TrimEndSpec(raw, IsNewline);
    var line := StripNewlines(raw);
    assert line[k] == '\0';
  }

  /** The routing decision, and every field except `event_ts`, depend only
      on the raw line, not on the year used to complete header timestamps. */
  lemma RoutingIgnoresYear(raw: string, y1: int, y2: int, hexDigest: string -> string)
    ensures var r1 := ParseFortigateLine(raw, y1, hexDigest);
      var r2 := ParseFortigateLine(raw, y2, hexDigest);
      && (r1.Rejected? ==> r1 == r2)
      && (r1.Accepted? ==> r2.Accepted? && r1.event.(eventTs := r2.event.eventTs) == r2.event)
  {
    var line := StripNewlines(raw);
    if line != [] && !HasBinaryGarbage(line) && MatchSyslog(line).Some? {
      var h := MatchSyslog(line).value;
      if MonthNumber(h.mon).Some? {
        var kv := KvSpec(h.body);
        var mon := MonthNumber(h.mon).value;
        var t1 := ParseEventTs(kv, y1, mon, DigitsValue(h.day), h.time);
        var t2 := ParseEventTs(kv, y2, mon, DigitsValue(h.day), h.time);
        var id := EventId(raw, hexDigest);
        assert ParseFortigateLine(raw, y1, hexDigest) == Accepted(BuildEvent(raw, h.host, kv, t1, id));
        assert ParseFortigateLine(raw, y2, hexDigest) == Accepted(BuildEvent(raw, h.host, kv, t2, id));
      }
    }
  }

  /** An accepted event carries the key-value pairs of its body, and is
      partial exactly when `type`, `subtype` or `action` is missing. */
  lemma AcceptedFields(raw: string, nowYear: int, hexDigest: string -> string)
    requires ParseFortigateLine(raw, nowYear, hexDigest).Accepted?
    ensures MatchSyslog(StripNewlines(raw)).Some?
    ensures var h := MatchSyslog(StripNewlines(raw)).value;
      var kv := KvSpec(h.body);
      var e := ParseFortigateLine(raw, nowYear, hexDigest).event;
      && e.host == h.host
      && e.logType == Lookup(kv, "type")
      && e.action == Lookup(kv, "action")
      && e.dstport == ToInt(Lookup(kv, "dstport"))
      && (e.parseStatus == Partial <==> "type" !in kv || "subtype" !in kv || "action" !in kv)
  {
    AcceptedBuilt(raw, nowYear, hexDigest);
    var h := MatchSyslog(StripNewlines(raw)).value;
    var kv := KvSpec(h.body);
    var ts := ParseEventTs(kv, nowYear, MonthNumber(h.mon).value, DigitsValue(h.day), h.time);
    BuildEventFields(raw, h.host, kv, ts, EventId(raw, hexDigest));
  }

  /** An accepted line went through the header match and the month lookup,
      and its event is built from the header and the body's pairs. */
  lemma AcceptedBuilt(raw: string, nowYear: int, hexDigest: string -> string)
    requires ParseFortigateLine(raw, nowYear, hexDigest).Accepted?
    ensures MatchSyslog(StripNewlines(raw)).Some?
    ensures MonthNumber(MatchSyslog(StripNewlines(raw)).value.mon).Some?
    ensures var h := MatchSyslog(StripNewlines(raw)).value;
      var kv := KvSpec(h.body);
      var ts := ParseEventTs(kv, nowYear, MonthNumber(h.mon).value, DigitsValue(h.day), h.time);
      ParseFortigateLine(raw, nowYear, hexDigest).event == BuildEvent(raw, h.host, kv, ts, EventId(raw, hexDigest))
  {
    var h := MatchSyslog(StripNewlines(raw)).value;
    assert ParseFortigateLine(raw, nowYear, hexDigest) == ParseMatched(raw, h, nowYear, hexDigest);
  }

  lemma BuildEventFields(raw: string, host: string, kv: map<string, string>, ts: Option<string>, id: string)
    ensures var e := BuildEvent(raw, host, kv, ts, id);
      && e.host == host
      && e.logType == Lookup(kv, "type")
      && e.action == Lookup(kv, "action")
      && e.dstport == ToInt(Lookup(kv, "dstport"))
      && (e.parseStatus == Partial <==> "type" !in kv || "subtype" !in kv || "action" !in kv)
  {
    var e := BuildEvent(raw, host, kv, ts, id);
    assert e.parseStatus == Status(kv);
  }

  /** A clean, well-formed line with a known month is accepted with the
      pairs of its body, however many line feeds follow it. */
  lemma WellFormedAccepted(h: Header, ws1: string, ws2: string, ws3: string, ws4: string, trailer: string,
                           nowYear: int, hexDigest: string -> string)
    requires HeaderShaped(h) && h.mon in Months && h.body != []
    requires Gap(ws1) && Gap(ws2) && Gap(ws3) && Gap(ws4)
    requires Clean(Compose(h, ws1, ws2, ws3, ws4, []))
    requires AllOf(trailer, IsNewline)
    ensures var r := ParseFortigateLine(Compose(h, ws1, ws2, ws3, ws4, []) + trailer, nowYear, hexDigest);
      && r.Accepted?
      && r.event.host == h.host
      && r.event.action == Lookup(KvSpec(h.body), "action")
      && r.event.dstport == ToInt(Lookup(KvSpec(h.body), "dstport"))
      && r.event.parseStatus == Status(KvSpec(h.body))
  {
    var line := Compose(h, ws1, ws2, ws3, ws4, []);
    var raw := line + trailer;
    assert line[|line| - 1] == h.body[|h.body| - 1];
    assert h.body[|h.body| - 1] in h.body;
    TrimEndSuffix(line, trailer, IsNewline);
    assert StripNewlines(raw) == line;
    CleanNotGarbage(line);
    MatchSyslogComplete(h, ws1, ws2, ws3, ws4, []);
    AcceptedFields(raw, nowYear, hexDigest);
  }

  /** The first failing check names the reason, in the order empty line,
      binary garbage, envelope, month; a line passing all four is accepted. */
  lemma RejectionOrder(raw: string, nowYear: int, hexDigest: string -> string)
    ensures var r := ParseFortigateLine(raw, nowYear, hexDigest);
      var line := StripNewlines(raw);
      var m := MatchSyslog(line);
      && (r == Rejected(DlqRecord(EmptyLine, raw)) <==> line == [])
      && (r == Rejected(DlqRecord(NonTextOrBinary, raw)) <==> line != [] && HasBinaryGarbage(line))
      && (r == Rejected(DlqRecord(SyslogHeaderParseFail, raw)) <==>
            line != [] && !HasBinaryGarbage(line) && m.None?)
      && (r == Rejected(DlqRecord(InvalidMonth, raw)) <==>
            line != [] && !HasBinaryGarbage(line) && m.Some? && m.value.mon !in Months)
      && (r.Accepted? <==> line != [] && !HasBinaryGarbage(line) && m.Some? && m.value.mon in Months)
  {
  }

  /** The month must be in the table even when the envelope matches. */
  lemma UnknownMonthRejected(raw: string, nowYear: int, hexDigest: string -> string)
    requires var line := StripNewlines(raw);
      line != [] && !HasBinaryGarbage(line) && MatchSyslog(line).Some?
      && MatchSyslog(line).value.mon !in Months
    ensures ParseFortigateLine(raw, nowYear, hexDigest) == Rejected(DlqRecord(InvalidMonth, raw))
  {
  }

  // ---------------------------------------------------------------------
  // Lines whose body is a rendering of pairs
  // ---------------------------------------------------------------------

  /** A visible ASCII character: neither a control character nor
      whitespace. */
  predicate Visible(c: char) {
    '!' <= c <= '~'
  }

  /** A pair that can be written bare, in visible characters only. */
  predicate VisiblePair(p: Pair) {
    Renderable(p, Plain) && AllOf(p.0, Visible) && AllOf(p.1, Visible)
  }

  lemma CleanConcat(a: string, b: string)
    requires Clean(a) && Clean(b)
    ensures Clean(a + b)
  {
    forall i | 0 <= i < |a + b| ensures !IsBadControl((a + b)[i]) {
      if i >= |a| {
        assert (a + b)[i] == b[i - |a|];
      }
    }
  }

  /** A bare rendering of visible pairs is visible text and spaces. */
  lemma PlainBodyShape(ps: seq<Pair>)
    requires ps != []
    requires forall p :: p in ps ==> VisiblePair(p)
    ensures var body := Render(ps, Plain);
      && body != [] && Clean(body) && '\n' !in body && !IsSpace(body[0])
  {
    var body := Render(ps, Plain);
    forall c | c in body
      ensures Visible(c) || c == ' '
    {
      RenderPlainChars(ps, c);
    }
    assert ps[0] in ps;
    assert body[0] == Token(ps[0], Plain)[0] == ps[0].0[0];
    forall i | 0 <= i < |body| ensures !IsBadControl(body[i]) {
      assert body[i] in body;
    }
  }

  lemma KnownMonthShaped(mon: string)
    requires mon in Months
    ensures MonthShaped(mon) && Clean(mon)
  {
  }

  /** A line whose fields are clean and whose gaps are one space is clean. */
  lemma CleanCompose(h: Header, ws: string)
    requires ws == " "
    requires Clean(h.mon) && Clean(h.host) && Clean(h.body)
    requires AllDigits(h.day) && TimeShaped(h.time)
    ensures Clean(Compose(h, ws, ws, ws, ws, []))
  {
    var s0 := h.body + [];
    assert s0 == h.body;
    var s1 := ws + s0;
    CleanConcat(ws, s0);
    var s2 := h.host + s1;
    CleanConcat(h.host, s1);
    var s3 := ws + s2;
    CleanConcat(ws, s2);
    var s4 := h.time + s3;
    assert Clean(h.time);
    CleanConcat(h.time, s3);
    var s5 := ws + s4;
    CleanConcat(ws, s4);
    var s6 := h.day + s5;
    assert Clean(h.day);
    CleanConcat(h.day, s5);
    var s7 := ws + s6;
    CleanConcat(ws, s6);
    CleanConcat(h.mon, s7);
  }

  /** A line with a known month whose body is a bare rendering of visible
      pairs is accepted, carrying the pairs' `action`, `dstport` and
      status. */
  lemma PlainPairsAccepted(mon: string, day: string, time: string, host: string, ps: seq<Pair>,
                           nowYear: int, hexDigest: string -> string)
    requires mon in Months && 1 <= |day| <= 2 && AllDigits(day) && TimeShaped(time)
    requires host != [] && AllOf(host, Visible)
    requires ps != []
    requires forall p :: p in ps ==> VisiblePair(p)
    ensures var kv := Apply(map[], ps);
      var line := Compose(Header(mon, day, time, host, Render(ps, Plain)), " ", " ", " ", " ", []);
      var r := ParseFortigateLine(line, nowYear, hexDigest);
      && r.Accepted?
      && r.event.host == host
      && r.event.action == Lookup(kv, "action")
      && r.event.dstport == ToInt(Lookup(kv, "dstport"))
      && r.event.parseStatus == Status(kv)
  {
    var body := Render(ps, Plain);
    PlainBodyShape(ps);
    KvRenderRoundTrip(ps, Plain);
    KnownMonthShaped(mon);
    var h := Header(mon, day, time, host, body);
    var ws := " ";
    CleanCompose(h, ws);
    assert Compose(h, ws, ws, ws, ws, []) + [] == Compose(h, ws, ws, ws, ws, []);
    WellFormedAccepted(h, ws, ws, ws, ws, [], nowYear, hexDigest);
  }
}
