# FortiGate syslog ingest agent — a Dafny model

This project models the core of an edge agent that turns a FortiGate
firewall's syslog file into JSON events. The agent:

- reads rotated log files once each, whole;
- follows the active log file from a stored byte offset, reading it in chunks;
- parses every line either into an event or into a dead-letter record that
  carries a reason code;
- keeps a checkpoint: the active-file position (inode, offset), the ledger of
  rotated files already ingested (capped at 5000 records) and seven
  counters.

The model has seven modules, one file each:

| file | module | what it holds |
|---|---|---|
| `text.dfy` | `Text` | characters and strings as Python sees them: `str.isspace`, the narrower whitespace `int()` skips, ASCII digits, `str(int)`, `int(str)` with its 4300-digit limit, `strip`/`rstrip`, `split`, string order, UTF-8 length |
| `kv.dfy` | `Kv` | `parse_kv`: a specification (`NextPair`, `Pairs`, `Apply`, `KvSpec`) and the imperative index scanner `ParseKv` proved equal to it |
| `timestamp.dfy` | `Timestamp` | `parse_event_ts`: the `tz` normalisation, the explicit `date`/`time` path, the header fallback, calendar validity and ISO rendering |
| `parser.dfy` | `Parser` | `_has_binary_garbage`, the `SYSLOG_RE` envelope as a hand-written matcher, `MONTHS`, `_to_int`, `stable_event_id` and `parse_fortigate_line` |
| `checkpoint.dfy` | `Checkpoint` | the checkpoint record as a class, the default state, `completed_key`, `is_completed`, `mark_completed` |
| `source_file.dfy` | `SourceFile` | `ROTATED_RE`, `list_rotated_files` (filter plus stable sort), the buffer loop of `follow_active_binary`, the offsets of `read_whole_file_lines`, `stat_file` |
| `agent.dfy` | `Agent` | `_write_dlq`, `_write_event`, `process_rotated_files`, `process_active_tail` as methods that update the checkpoint and two sinks, and `RouteAll`, the fold of one line's effect (`RouteStep`) over the lines of a pass, that specifies what they write |

The file system, the clock and the sinks are parameters:

- the directory listing is a sequence of names;
- `stat` is a function from paths to an optional `FileStat`;
- a rotated file's text is a sequence of lines;
- the active file is a sequence of chunks read from the stored offset;
- `active_inode()` is an optional inode at the start of a pass, plus one
  observation after each line is read;
- the time budget is an `expired` predicate on the line index;
- SHA-256 is a function `hexDigest`;
- UTF-8 decoding is a function `decode`;
- sink success is an `accepts` predicate on the attempt number.

The methods that route lines take the line parser as a parameter `parse`.
The two passes bind it to `LineParser(nowYear, hexDigest)`, which is
`parse_fortigate_line`.

Where the code and its design description differ, the model follows the
code:

- a rotated name is `fortigate.log-` + 8 digits + `-` + 6 digits, with an
  optional `.gz`;
- the ledger key is the plain text `path|inode|size|mtime`, not a hash. The
  key is nevertheless injective, because the three numbers never contain
  `|` (`Checkpoint.CompletedKeyInjective`);
- marking a file appends a record without deduplicating;
- offsets stamped on rotated plain-file lines are re-encoded text lengths,
  counted after newline translation;
- on an inode change in the middle of a tail pass, the line just read is
  neither counted nor routed, and the position moves to the new inode at
  offset 0, so the tail pass never routes that line. It reaches a sink only
  if the rotated-file pass later reads the renamed file whole. That pass
  routes a second time every line the tail had already taken from the file,
  so the gap against the design is duplication; the line is lost only when
  the old file never reappears under the rotated-file pattern.

## Model

| member | source | states |
|---|---|---|
| Text.NatToStringRoundTrip | edge/fortigate-ingest/bin/checkpoint.py:43 | the decimal text of a natural number reads back as that number |
| Text.IntToStringAlphabet | edge/fortigate-ingest/bin/checkpoint.py:43 | the text of any integer consists of digits and at most a leading `-` |
| Text.ParseIntRoundTrip | edge/fortigate-ingest/bin/parser_fgt_v1.py:193-199 | `int(str(i)) == i` for every integer `str()` renders, that is of at most 4300 digits |
| Text.ParseIntDigitLimit | edge/fortigate-ingest/bin/parser_fgt_v1.py:197 | a numeral of at most 4300 digits reads as its value, and one of more is refused, as `int()` does under the default `sys.get_int_max_str_digits()` |
| Text.IntToStringInjective | edge/fortigate-ingest/bin/checkpoint.py:43 | distinct integers have distinct decimal texts |
| Text.ParseIntExample | edge/fortigate-ingest/bin/parser_fgt_v1.py:197 | `int()` skips surrounding whitespace and underscores between digits, and reads leading zeros (`" 0_7\t"` is 7) |
| Text.ParseIntDoubleUnderscore | edge/fortigate-ingest/bin/parser_fgt_v1.py:197 | a doubled underscore is refused (`"1__2"` is not a number) |
| Text.ParseIntSeparatorRefused | edge/fortigate-ingest/bin/parser_fgt_v1.py:197 | the separators U+001C to U+001F count as whitespace for `str.isspace` but not for `int()`: `"\x1c5"` is not a number |
| Text.TrimEndSpec | edge/fortigate-ingest/bin/parser_fgt_v1.py:128 | `rstrip` leaves a prefix, removes only dropped characters, and the prefix does not end in one |
| Text.TrimStartSpec | edge/fortigate-ingest/bin/parser_fgt_v1.py:82 | `lstrip` leaves a suffix, removes only dropped characters, and the suffix does not start with one |
| Text.StripAround | edge/fortigate-ingest/bin/parser_fgt_v1.py:82 | stripping removes exactly the runs of dropped characters around a core that starts and ends with kept ones |
| Text.SplitJoin | edge/fortigate-ingest/bin/parser_fgt_v1.py:107 | `split` loses nothing: joining the parts with the separator gives back the text |
| Text.SplitNoSeparator | edge/fortigate-ingest/bin/parser_fgt_v1.py:107 | no part of a split contains the separator |
| Text.StrLeTotal | edge/fortigate-ingest/bin/source_file.py:22 | string order is total, so the sort key compares any two names |
| Text.StrLeTransitive | edge/fortigate-ingest/bin/source_file.py:22 | string order is transitive |
| Text.Utf8LengthAppend | edge/fortigate-ingest/bin/main.py:70 | the encoded length of a concatenation is the sum of the encoded lengths |
| Kv.SkipSpaces | edge/fortigate-ingest/bin/parser_fgt_v1.py:31-32 | the scan stops at the first non-space at or after `i`, or at the end |
| Kv.KeyEnd | edge/fortigate-ingest/bin/parser_fgt_v1.py:37-38 | the key runs to the first `=` or space, or to the end |
| Kv.UnquotedEnd | edge/fortigate-ingest/bin/parser_fgt_v1.py:63-64 | an unquoted value runs to the first space, or to the end |
| Kv.NextPair | edge/fortigate-ingest/bin/parser_fgt_v1.py:30-69 | each pair read strictly advances the index and stays within the body, so `parse_kv` terminates |
| Kv.LastValue | edge/fortigate-ingest/bin/parser_fgt_v1.py:69 | the value found for a key is the value of a pair with that key; when none is found, no pair has that key |
| Kv.ParseKv | edge/fortigate-ingest/bin/parser_fgt_v1.py:21-71 | the nested index loops build exactly the map of the pairs the specification reads |
| Kv.ReadValue | edge/fortigate-ingest/bin/parser_fgt_v1.py:44-67 | the value after `=` (quoted or bare) and the index just after it, as specified; the spaces that follow are skipped by the next pair's space skip |
| Kv.SkipSpaceRun | edge/fortigate-ingest/bin/parser_fgt_v1.py:31-32 | the loop stops where the specification's space skip stops |
| Kv.ReadKey | edge/fortigate-ingest/bin/parser_fgt_v1.py:36-38 | the loop stops where the specification's key ends |
| Kv.ReadUnquoted | edge/fortigate-ingest/bin/parser_fgt_v1.py:61-67 | the bare value and the index after it, as specified |
| Kv.ReadQuoted | edge/fortigate-ingest/bin/parser_fgt_v1.py:44-60 | the unescaped quoted value and the index after the closing quote, as specified |
| Kv.NextPairKey | edge/fortigate-ingest/bin/parser_fgt_v1.py:36-41 | every key read is non-empty and has neither `=` nor a space |
| Kv.PairsKeysWellFormed | edge/fortigate-ingest/bin/parser_fgt_v1.py:36-41 | every pair read from any index has a well-formed key |
| Kv.KvKeysWellFormed | edge/fortigate-ingest/bin/parser_fgt_v1.py:36-41 | every key of `parse_kv`'s result is non-empty and has neither `=` nor a space |
| Kv.ApplySnoc | edge/fortigate-ingest/bin/parser_fgt_v1.py:69 | storing one more pair overwrites that key's entry |
| Kv.ApplyLookup | edge/fortigate-ingest/bin/parser_fgt_v1.py:69 | after storing pairs, a key is present iff some pair has it (or it was there before), and it maps to the value of its last pair |
| Kv.KvLastValueWins | edge/fortigate-ingest/bin/parser_fgt_v1.py:36-69 | the result holds exactly the keys read, each with the value of its last occurrence |
| Kv.PairsSkipSpaces | edge/fortigate-ingest/bin/parser_fgt_v1.py:31-34 | leading spaces do not change the pairs read |
| Kv.NextPairShift | edge/fortigate-ingest/bin/parser_fgt_v1.py:30-69 | reading one pair does not depend on the text before the index |
| Kv.PairsShift | edge/fortigate-ingest/bin/parser_fgt_v1.py:30-69 | the pairs read from an index do not depend on the text before it |
| Kv.QuotedClosed | edge/fortigate-ingest/bin/parser_fgt_v1.py:47-55 | backslash escapes emit the escaped character, and the first unescaped `"` closes the value |
| Kv.QuotedUnterminated | edge/fortigate-ingest/bin/parser_fgt_v1.py:47-57 | a quote that is never closed runs to the end of the body |
| Kv.QuotedTrailingBackslash | edge/fortigate-ingest/bin/parser_fgt_v1.py:49-57 | a lone backslash at the end of the body is kept literally |
| Kv.RenderPlainChars | edge/fortigate-ingest/bin/parser_fgt_v1.py:30-69 | a bare rendering holds only spaces, `=` and characters of its keys and values |
| Kv.RenderRoundTrip | edge/fortigate-ingest/bin/parser_fgt_v1.py:30-69 | writing well-formed pairs as `k=v` or `k="escaped v"` tokens and reading them back gives the same pairs, in order |
| Kv.KvRenderRoundTrip | edge/fortigate-ingest/bin/parser_fgt_v1.py:21-71 | `parse_kv` of rendered pairs is the map of those pairs, the later pair winning a repeated key |
| Kv.KvExample | edge/fortigate-ingest/bin/parser_fgt_v1.py:21-71 | `a=1 b="x\"y" c=` reads as {a: `1`, b: `x"y`, c: empty} |
| Kv.KvStopsAtBareToken | edge/fortigate-ingest/bin/parser_fgt_v1.py:40-41 | a token without `=` ends the scan: earlier pairs are kept and the rest of the body is dropped |
| Timestamp.DaysInMonth | edge/fortigate-ingest/bin/parser_fgt_v1.py:108 | months have 28 to 31 days, and 29 exactly for February of a leap year |
| Timestamp.TzNormalize | edge/fortigate-ingest/bin/parser_fgt_v1.py:80-88 | a normalised `tz` is always a sign, two digits, `:` and two digits |
| Timestamp.TzNormalizeAccepts | edge/fortigate-ingest/bin/parser_fgt_v1.py:80-84 | a sign and four digits, quoted and padded with whitespace, normalise to `±HH:MM` |
| Timestamp.OffsetMinutes | edge/fortigate-ingest/bin/parser_fgt_v1.py:96-98 | the offset's sign follows the sign character |
| Timestamp.Attach | edge/fortigate-ingest/bin/parser_fgt_v1.py:95-101 | attaching keeps the local time, carries an offset iff a `tz` was normalised, and fails iff that offset is a day or more |
| Timestamp.ParseIsoLocal | edge/fortigate-ingest/bin/parser_fgt_v1.py:94 | whatever `fromisoformat` accepts here is a valid calendar date and time |
| Timestamp.FallbackDateTime | edge/fortigate-ingest/bin/parser_fgt_v1.py:107-108 | the fallback is a valid date and time with the default year and the header's month and day |
| Timestamp.EventTime | edge/fortigate-ingest/bin/parser_fgt_v1.py:90-118 | a resolved time is a valid date and time; its offset is in range, and present iff the `tz` normalises |
| Timestamp.ParseEventTs | edge/fortigate-ingest/bin/parser_fgt_v1.py:73-118 | text is produced iff a time is resolved, and it is 19 characters (naive) or 25 (with offset) |
| Timestamp.IsoLocalRoundTrip | edge/fortigate-ingest/bin/parser_fgt_v1.py:94-102 | the ISO text of a valid date and time parses back to it |
| Timestamp.IsoLocalFields | edge/fortigate-ingest/bin/parser_fgt_v1.py:102 | each field sits zero-padded at its fixed position of `YYYY-MM-DDTHH:MM:SS` |
| Timestamp.IsoOffsetRoundTrip | edge/fortigate-ingest/bin/parser_fgt_v1.py:99-101 | an in-range offset written with minutes under 60 is rendered as it was written |
| Timestamp.ExplicitWins | edge/fortigate-ingest/bin/parser_fgt_v1.py:92-104 | a parseable `date`/`time` with a usable `tz` takes precedence over the header |
| Timestamp.FallbackUsed | edge/fortigate-ingest/bin/parser_fgt_v1.py:106-118 | without a parseable `date`/`time`, the header's month, day and time with the default year are used, with the same `tz` |
| Timestamp.TzOutOfRange | edge/fortigate-ingest/bin/parser_fgt_v1.py:99-118 | a `tz` of a day or more spoils both paths: no timestamp |
| Timestamp.NoLeapDay | edge/fortigate-ingest/bin/parser_fgt_v1.py:106-118 | February 29th outside a leap year gives no timestamp rather than an error |
| Timestamp.HeaderExample | edge/fortigate-ingest/bin/parser_fgt_v1.py:106-116 | `Jan 5 03:04:05` in 2024, without date/time/tz keys, resolves to `2024-01-05T03:04:05` |
| Timestamp.ExplicitExample | edge/fortigate-ingest/bin/parser_fgt_v1.py:90-101 | `date=2023-12-31 time=23:59:59 tz=+0530` resolves to `2023-12-31T23:59:59+05:30`, whatever the header says |
| Timestamp.TzExample | edge/fortigate-ingest/bin/parser_fgt_v1.py:80-84 | `+0530` normalises to `+05:30`, an offset of 330 minutes |
| Parser.BadCount | edge/fortigate-ingest/bin/parser_fgt_v1.py:18 | the bad-control count never exceeds the length |
| Parser.BadCountAppend | edge/fortigate-ingest/bin/parser_fgt_v1.py:18 | the bad-control count of a concatenation is the sum of the counts |
| Parser.CleanNotGarbage | edge/fortigate-ingest/bin/parser_fgt_v1.py:15-19 | text without control characters other than tab and line feed is never binary |
| Parser.NulIsGarbage | edge/fortigate-ingest/bin/parser_fgt_v1.py:16-17 | a NUL anywhere makes text binary |
| Parser.GarbageThreshold | edge/fortigate-ingest/bin/parser_fgt_v1.py:18-19 | six bad control characters are binary, five are not |
| Parser.MatchSyslog | edge/fortigate-ingest/bin/parser_fgt_v1.py:11-13 | a match yields groups of the pattern's shapes: `[A-Z][a-z]{2}`, one or two digits, `dd:dd:dd`, a non-blank host, and a body that holds no line feed and does not start with whitespace |
| Parser.MatchSyslogComplete | edge/fortigate-ingest/bin/parser_fgt_v1.py:11-13 | every line written as month, gap, day, gap, time, gap, host, gap, body (optionally ending in one line feed) is matched, with those groups |
| Parser.MatchSyslogSound | edge/fortigate-ingest/bin/parser_fgt_v1.py:11-13 | every matched line is exactly such a composition of its groups and whitespace gaps |
| Parser.MonthNumber | edge/fortigate-ingest/bin/parser_fgt_v1.py:6-9 | a known month maps to 1..12 |
| Parser.MonthTable | edge/fortigate-ingest/bin/parser_fgt_v1.py:6-9 | the table is a bijection between the twelve English abbreviations and 1..12 |
| Parser.ToInt | edge/fortigate-ingest/bin/parser_fgt_v1.py:193-195 | a missing field stays missing (present text goes through `int()`, digit limit included) |
| Parser.ToIntRoundTrip | edge/fortigate-ingest/bin/parser_fgt_v1.py:193-199 | the text of any integer of at most 4300 digits converts back to it |
| Parser.ToIntNonNumeric | edge/fortigate-ingest/bin/parser_fgt_v1.py:196-199 | text without a single digit becomes missing rather than an error |
| Parser.EventId | edge/fortigate-ingest/bin/parser_fgt_v1.py:120-122 | the id is a prefix of the hex digest, of length 32 when the digest is that long |
| Parser.Status | edge/fortigate-ingest/bin/parser_fgt_v1.py:187-189 | `partial` iff `type`, `subtype` or `action` is missing |
| Parser.ParseFortigateLine | edge/fortigate-ingest/bin/parser_fgt_v1.py:124-191 | exactly one of event and dead letter; a dead letter carries the raw line and never the `kv_parse_exception` reason; an event carries the raw line, schema 1 and the id of the raw line |
| Parser.ParseMatched | edge/fortigate-ingest/bin/parser_fgt_v1.py:145-191 | after the envelope matches, the only possible rejection is `invalid_month` |
| Parser.RejectionOrder | edge/fortigate-ingest/bin/parser_fgt_v1.py:128-147 | the first failing check names the reason, in the order empty line, binary, envelope, month; a line passing all four is accepted (each an iff) |
| Parser.EmptyLineRejected | edge/fortigate-ingest/bin/parser_fgt_v1.py:128-130 | a line of nothing but line feeds is `empty_line` |
| Parser.NulRejected | edge/fortigate-ingest/bin/parser_fgt_v1.py:132-133 | a line with a NUL is `non_text_or_binary` |
| Parser.UnknownMonthRejected | edge/fortigate-ingest/bin/parser_fgt_v1.py:145-147 | a matched envelope whose month is not in the table is `invalid_month` |
| Parser.RoutingIgnoresYear | edge/fortigate-ingest/bin/parser_fgt_v1.py:124-191 | the routing decision and every field but `event_ts` do not depend on the current year |
| Parser.AcceptedBuilt | edge/fortigate-ingest/bin/parser_fgt_v1.py:135-185 | an accepted line matched the envelope and a known month, and its event is built from the header and the body's pairs |
| Parser.AcceptedFields | edge/fortigate-ingest/bin/parser_fgt_v1.py:154-189 | an accepted event's host, type, action and dstport come from the header and the body's map, and it is partial iff a core field is missing |
| Parser.BuildEventFields | edge/fortigate-ingest/bin/parser_fgt_v1.py:156-189 | the assembled event takes its fields from the map, numeric fields through `_to_int` |
| Parser.WellFormedAccepted | edge/fortigate-ingest/bin/parser_fgt_v1.py:128-191 | a clean well-formed line with a known month is accepted with its body's fields, however many line feeds follow it |
| Parser.PlainBodyShape | edge/fortigate-ingest/bin/parser_fgt_v1.py:12 | a bare rendering of visible pairs is a body the envelope pattern can capture, and is clean |
| Parser.CleanCompose | edge/fortigate-ingest/bin/parser_fgt_v1.py:15-19 | a line composed of clean fields and single spaces is clean |
| Parser.PlainPairsAccepted | edge/fortigate-ingest/bin/parser_fgt_v1.py:124-191 | a line with a known month whose body is `k=v` tokens is accepted with the host, action, dstport and status of those pairs |
| Checkpoint.Checkpoint.Default | edge/fortigate-ingest/bin/checkpoint.py:19-34 | the first-run state: schema 1, the default active path, no inode, offset 0, an empty ledger, all seven counters 0 |
| Checkpoint.CompletedKeyInjective | edge/fortigate-ingest/bin/checkpoint.py:42-43 | equal keys mean equal path, inode, size and mtime, even for paths that contain `\|` |
| Checkpoint.InLedgerIff | edge/fortigate-ingest/bin/checkpoint.py:45-50 | the scan finds a key iff some record has it |
| Checkpoint.Checkpoint.IsCompleted | edge/fortigate-ingest/bin/checkpoint.py:45-50 | true iff some ledger record's key is the file's key |
| Checkpoint.Capped | edge/fortigate-ingest/bin/checkpoint.py:62-63 | the capped ledger has min(length, 5000) records |
| Checkpoint.CappedSuffix | edge/fortigate-ingest/bin/checkpoint.py:62-63 | the cap keeps the most recent records in insertion order, dropping the oldest |
| Checkpoint.MarkedLast | edge/fortigate-ingest/bin/checkpoint.py:52-63 | after marking, the new record is last and its key is found |
| Checkpoint.MarkedTwice | edge/fortigate-ingest/bin/checkpoint.py:54-61 | marking the same file twice leaves two records for it: no deduplication |
| Checkpoint.MarkKeepsRecent | edge/fortigate-ingest/bin/checkpoint.py:52-63 | a record stays findable until 5000 newer ones have pushed it out |
| Checkpoint.Checkpoint.MarkCompleted | edge/fortigate-ingest/bin/checkpoint.py:52-63 | the ledger becomes the capped append of the file's record, holds at most 5000 records, and the file is completed; nothing else changes |
| SourceFile.RotatedStamp | edge/fortigate-ingest/bin/source_file.py:10 | a captured stamp is 8 digits, `-`, 6 digits |
| SourceFile.RotatedNameMatches | edge/fortigate-ingest/bin/source_file.py:10-16 | every `fortigate.log-<stamp>[.gz]` name is selected, with its stamp captured |
| SourceFile.RotatedNameSound | edge/fortigate-ingest/bin/source_file.py:10 | every selected name is the prefix, a stamp and an allowed ending |
| SourceFile.RotatedNameNoSlash | edge/fortigate-ingest/bin/source_file.py:10-19 | a selected name holds no `/` |
| SourceFile.Basename | edge/fortigate-ingest/bin/source_file.py:19 | a base name holds no `/` |
| SourceFile.BasenameAfterSlash | edge/fortigate-ingest/bin/source_file.py:16-19 | the base name of a joined path is the name joined |
| SourceFile.SortKeyOfSelected | edge/fortigate-ingest/bin/source_file.py:18-20 | a selected file sorts by its own stamp |
| SourceFile.SelectedSpec | edge/fortigate-ingest/bin/source_file.py:13-16 | a path is selected iff it joins the directory with a listed name that matches |
| SourceFile.InsertionPoint | edge/fortigate-ingest/bin/source_file.py:22 | the insertion point comes after every key at most the new key and before every greater key |
| SourceFile.InsertSorted | edge/fortigate-ingest/bin/source_file.py:22 | inserting there keeps the list sorted |
| SourceFile.InsertMultiset | edge/fortigate-ingest/bin/source_file.py:22 | inserting adds exactly the new element |
| SourceFile.InsertWithKey | edge/fortigate-ingest/bin/source_file.py:22 | inserting there appends the element to those with its key and leaves other keys' order alone |
| SourceFile.SortBy | edge/fortigate-ingest/bin/source_file.py:22 | the result is sorted, a permutation of the input, and stable: for every key, the elements with that key keep their order |
| SourceFile.ListRotatedFiles | edge/fortigate-ingest/bin/source_file.py:12-23 | the selected paths, sorted by stamp, as a permutation that keeps listing order among equal stamps |
| SourceFile.FindNewline | edge/fortigate-ingest/bin/source_file.py:62-64 | the first line feed, or none iff there is none |
| SourceFile.SplitLines | edge/fortigate-ingest/bin/source_file.py:60-66 | the lines followed by the remainder are all the bytes, every line ends in its only line feed, and the remainder has none |
| SourceFile.SplitLinesUnique | edge/fortigate-ingest/bin/source_file.py:60-66 | any lines-plus-remainder decomposition of that kind is the one the split gives |
| SourceFile.EndOffsets | edge/fortigate-ingest/bin/source_file.py:67 | one offset per line |
| SourceFile.EndOffsetsSum | edge/fortigate-ingest/bin/source_file.py:67-69 | each yielded offset is the start plus the byte length of all lines up to and including its own |
| SourceFile.EndOffsetsIncrease | edge/fortigate-ingest/bin/source_file.py:67-69 | the yielded offsets are above the start and strictly increase |
| SourceFile.DecodeAllAt | edge/fortigate-ingest/bin/source_file.py:68 | each yielded text is the decoding of its own line |
| SourceFile.DrainLines | edge/fortigate-ingest/bin/source_file.py:61-69 | the inner loop yields the decoded complete lines with their end offsets, leaves the remainder buffered and advances the offset by the lines' bytes |
| SourceFile.TakeChunk | edge/fortigate-ingest/bin/source_file.py:56-69 | reading one more chunk and draining keeps the follow invariant and accounts for every byte |
| SourceFile.FollowedAfterDrain | edge/fortigate-ingest/bin/source_file.py:60-69 | after a drain, the lines so far, the buffer and the offset still describe all bytes read |
| SourceFile.FollowActive | edge/fortigate-ingest/bin/source_file.py:47-69 | over any chunking, the lines, offsets and buffer are those of splitting all bytes read at once: bytes after the last line feed are never yielded |
| SourceFile.LineStartStep | edge/fortigate-ingest/bin/source_file.py:41-45 | the first line starts at 0, and each next one starts after the previous line's encoded length |
| SourceFile.ReadWholeFileLines | edge/fortigate-ingest/bin/source_file.py:29-45 | every line with path, inode, size and mtime; the offset is where the line starts for plain files and missing for `.gz` |
| SourceFile.MtimeSeconds | edge/fortigate-ingest/bin/source_file.py:27 | `int()` of the mtime truncates toward zero |
| Agent.Sinks.constructor | edge/fortigate-ingest/bin/sink_jsonl.py:26-30 | both sinks start empty |
| Agent.Sinks.AppendEvent | edge/fortigate-ingest/bin/sink_jsonl.py:26-27 | an attempt is counted; the event is appended iff the write succeeds; the dead-letter sink is untouched |
| Agent.Sinks.AppendDlq | edge/fortigate-ingest/bin/sink_jsonl.py:29-30 | an attempt is counted; the record is appended iff the write succeeds; the event sink is untouched |
| Agent.AfterRead | edge/fortigate-ingest/bin/main.py:69-70 | reading a line adds one line and its UTF-8 length, and no outcome |
| Agent.AfterWrite | edge/fortigate-ingest/bin/main.py:39-55 | counters only grow; exactly one outcome is counted; write failures grow iff the write failed; events grow iff an event was written; dead letters and parse failures grow together iff a dead letter was written |
| Agent.WriteDlq | edge/fortigate-ingest/bin/main.py:31-44 | a schema-1 record with reason, source and raw line is appended iff the sink accepts, with the counters per `AfterWrite`; position and ledger untouched |
| Agent.WriteEvent | edge/fortigate-ingest/bin/main.py:46-55 | the event goes out stamped with exactly path, inode and offset iff the sink accepts; the last seen time is the event's time iff written and non-empty |
| Agent.RouteLine | edge/fortigate-ingest/bin/main.py:67-78 | the counters, last event time and sinks after one line are `RouteStep` of those before: the line and its bytes counted, the event stamped with the line's source or the dead letter with the parser's reason, source and raw line appended iff the sink accepts, and the outcome counted; ledger and position untouched |
| Agent.RouteAllSnoc | edge/fortigate-ingest/bin/main.py:67-78 | routing one more line is one more `RouteStep` |
| Agent.RouteAllAppend | edge/fortigate-ingest/bin/main.py:58-80 | routing one file's lines after another's is routing their concatenation |
| Agent.RouteAllCounts | edge/fortigate-ingest/bin/main.py:31-78 | routing lines adds one line, its UTF-8 bytes, one outcome and one write attempt per line, counters only grow, the sinks are only appended to, and each sink grows by exactly what its counter counts |
| Agent.RouteAllWritten | edge/fortigate-ingest/bin/main.py:31-78 | every appended event comes from a line the parser accepted, stamped with that line's source; every appended dead letter from a line it rejected, with its reason, source and raw line; the last event time seen is kept or is the non-empty time of an appended event |
| Agent.RoutedCounts | edge/fortigate-ingest/bin/main.py:107-118 | after the first `j` lines are routed, lines, outcomes and attempts have grown by `j` and no counter has shrunk |
| Agent.RotatedRunIngestsListed | edge/fortigate-ingest/bin/main.py:57-80 | a pass ingests only listed files whose stat succeeds, each at most as often as it is listed |
| Agent.RotatedRunRecords | edge/fortigate-ingest/bin/main.py:57-80 | while the ledger has room, after a pass every listed file that still exists is in the ledger |
| Agent.RotatedRunKnown | edge/fortigate-ingest/bin/main.py:59-65 | a pass over files that are all gone or already in the ledger changes nothing and ingests nothing |
| Agent.RotatedRerunSkips | edge/fortigate-ingest/bin/main.py:57-80 | while the ledger has room, a second pass over the same files ingests nothing: no file is ingested twice |
| Agent.RouteFile | edge/fortigate-ingest/bin/main.py:67-78 | counters, last event time and sinks become `RouteAll` of the file's lines, each with the path, inode, size, mtime and start offset `read_whole_file_lines` gives it; lines, bytes and outcomes grow by the file's; ledger and position untouched |
| Agent.RotatedFile | edge/fortigate-ingest/bin/main.py:59-80 | a file is ingested iff it exists and is not in the ledger; a skipped file changes neither ledger nor counters, last event time or sinks; an ingested one has `RouteAll` of all its lines written and only then is marked; position, schema version, active path and save time untouched |
| Agent.RotatedPass | edge/fortigate-ingest/bin/main.py:58-80 | the ledger after the loop is the specified run's; counters, last event time and sinks are `RouteAll` of the ingested files' lines, file after file; lines, bytes and outcomes grow by those files'; position, schema version, active path and save time untouched |
| Agent.ProcessRotatedFiles | edge/fortigate-ingest/bin/main.py:57-80 | the files walked are the sorted selection, files with equal stamps in listing order; the ledger follows the specified run; counters, last event time and sinks are `RouteAll` with `parse_fortigate_line` of the ingested files' lines; the active position, schema version, active path and save time are untouched |
| Agent.TailStop | edge/fortigate-ingest/bin/main.py:100-124 | the stop lies between the starting line and the last line |
| Agent.TailStopSpec | edge/fortigate-ingest/bin/main.py:100-124 | the loop routes every line before the stop: it stops at the first inode change, right after the first line that exhausts the budget, or at the end; a stop on an inode change comes only after a line that left budget |
| Agent.ResetPosition | edge/fortigate-ingest/bin/main.py:90-96 | the position becomes the current inode, and the offset is kept iff the stored inode was that inode, else 0; counters, ledger, schema version, active path and save time untouched |
| Agent.TailLine | edge/fortigate-ingest/bin/main.py:107-121 | one tailed line is `RouteStep` with the active path, the inode and its end offset as source, its bytes are counted, and the offset becomes its end offset; inode, ledger, schema version, active path and save time untouched |
| Agent.TailLoop | edge/fortigate-ingest/bin/main.py:100-124 | the lines up to the stop (`TailStop`) are routed: counters, last event time and sinks are `RouteAll` of them with their end offsets; lines, bytes, outcomes and attempts grow by them; on an inode change the position is {new inode, 0}, otherwise the offset is the last routed line's end; ledger, schema version, active path and save time untouched |
| Agent.LastOffsetAfterStart | edge/fortigate-ingest/bin/main.py:120-121 | the stored offset after routing lines is beyond where the pass started |
| Agent.TailFromPosition | edge/fortigate-ingest/bin/main.py:98-124 | from the stored offset, the decoded complete lines of the file up to the stop are routed with their end offsets (`TailedFrom`); the final position is {new inode, 0} after an inode change, else the offset at the last routed line's end, strictly beyond the start; ledger, schema version, active path and save time untouched |
| Agent.ProcessActiveTail | edge/fortigate-ingest/bin/main.py:82-124 | no inode: nothing changes; otherwise the position is reset, and counters, last event time and sinks are `RouteAll` with `parse_fortigate_line` of the decoded complete lines up to the stop, with their end offsets; bytes grow by theirs; the final position is {new inode, 0} after an inode change, else the current inode with the offset at the last routed line's end (strictly beyond the start); ledger, schema version, active path and save time untouched |

## Left out

- File system I/O is not modelled: `os.listdir`, `os.stat`, `open`, `gzip` decompression, `f.seek` and the reads. The listing, the stat results, a rotated file's lines and the active file's chunks are parameters.
- Checkpoint persistence is not modelled: `load_checkpoint` reading an existing file, `save_checkpoint`, the atomic temp-file write and `updated_at`. Only the first-run default state is modelled.
- The sink modules' file appends and hour-bucketed paths are not modelled. A write succeeds or fails by the `accepts` oracle.
- `ingest_ts` and `completed_at` clock readings: the records written carry no `ingest_ts`, and `completed_at` is a `now` parameter fixed for a pass.
- `now_year` is read per line in the source. The model takes one `nowYear` per pass; `Parser.RoutingIgnoresYear` shows it affects only `event_ts`.
- SHA-256 is the parameter `hexDigest`. The model makes no collision claim and does not claim that distinct lines get distinct ids.
- UTF-8 decoding with replacement, and text-mode newline translation, are not modelled. `decode` is a parameter, and a rotated file's lines are given as decoded text.
- `datetime.fromisoformat` is modelled only on `YYYY-MM-DDTHH:MM:SS`. Other ISO forms that Python accepts are treated as unparseable.
- `\d` in the patterns is ASCII digits only. Python also accepts other Unicode decimal digits.
- `int()` is modelled on ASCII digits only. Python's `int` also takes other Unicode digits.
- `int()` refuses more than 4300 digits, the default of `sys.get_int_max_str_digits()` since Python 3.11 and in the 3.10.7 and 3.9.14 security releases. Older interpreters without the limit, and a changed limit, are not modelled.
- Text.IntToString: `str()` refusing to render more than 4300 digits is not modelled. The only integers rendered are the `os.stat` fields in the ledger key, which are far below that.
- `time.sleep` while waiting for data or for the active file is not modelled.
- `follow_active_binary` is an endless generator; the model follows a finite sequence of chunks. An empty chunk stands for a poll that found no data.
- The wall-clock time budget of `process_active_tail` is the `expired` predicate, evaluated after each routed line.
- Agent.ProcessActiveTail: when the chunks run out it returns, where the source keeps polling. The state at that point is the one the model states.
- The `main()` loop is not modelled: its flush and metrics timers, `checkpoint_fail_total` counting around `save_checkpoint`, and `append_metrics` write failures.
- `MetricsWindow` lives in a module that is not part of this model.
- `active_inode()` is the `current` and `inodeAfter` parameters.
- A file that vanishes between `stat_file` and `open` raises out of `process_rotated_files`; the model does not capture that. In the model, `contents` is total.
- SourceFile.ReadWholeFileLines: the second `stat` inside `read_whole_file_lines` is taken to agree with the one taken in `process_rotated_files`.
- The `dlq.get("reason", "parse_fail")` fallback is unreachable and not modelled, because the parser always returns a reason.
- The `kv_parse_exception` branch is unreachable: the model's `parse_kv` is total and raises nothing.
- SourceFile.SortBy: `list.sort` is Python's Timsort. It is modelled as a stable insertion sort on a sequence. Both give the same stable order, but the list is not sorted in place.
- Agent.RotatedRunRecords and Agent.RotatedRerunSkips require that the ledger keeps room for every file of the pass (at most 5000 records in all). Beyond that the cap can evict a record within the pass, and a file could be ingested again.
