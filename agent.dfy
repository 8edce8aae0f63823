/**
 * The agent's passes over its sources, as transitions of the checkpoint:
 * each line is counted, parsed and written to the event sink or the
 * dead-letter sink; a pass over the rotated files skips vanished and
 * already ingested files and marks each ingested one; a pass over the
 * active file resets the position when the inode changes and advances the
 * offset line by line.
 */
module Agent {
  import opened Text
  import opened Checkpoint
  import opened Parser
  import opened SourceFile

  // ---------------------------------------------------------------------
  // Sinks
  // ---------------------------------------------------------------------

  /** The source stamped on an event: path, inode and offset only. */
  datatype EventSource = EventSource(path: string, inode: int, offset: Option<int>)

  /** An event as written (its `ingest_ts` clock reading is not modelled). */
  datatype EventOut = EventOut(event: Event, source: EventSource)

  /** A dead-letter record as written (without its `ingest_ts`). */
  datatype DlqOut = DlqOut(schemaVersion: int, reason: string, source: SourcePos, raw: string)

  /** The two append-only sinks. Whether the `n`-th append succeeds is
      `accepts(n)`; a failed append writes nothing. */
  class Sinks {
    var events: seq<EventOut>
    var dlqs: seq<DlqOut>
    var attempts: nat
    const accepts: nat -> bool

    constructor (accepts: nat -> bool)
      ensures events == [] && dlqs == [] && attempts == 0 && this.accepts == accepts
    {
      events := [];
      dlqs := [];
      attempts := 0;
      this.accepts := accepts;
    }

    method AppendEvent(e: EventOut) returns (ok: bool)
      modifies this
      ensures ok == accepts(old(attempts)) && attempts == old(attempts) + 1
      ensures events == if ok then old(events) + [e] else old(events)
      ensures dlqs == old(dlqs)
    {
      ok := accepts(attempts);
      attempts := attempts + 1;
      if ok {
        events := events + [e];
      }
    }

    method AppendDlq(d: DlqOut) returns (ok: bool)
      modifies this
      ensures ok == accepts(old(attempts)) && attempts == old(attempts) + 1
      ensures dlqs == if ok then old(dlqs) + [d] else old(dlqs)
      ensures events == old(events)
    {
      ok := accepts(attempts);
      attempts := attempts + 1;
      if ok {
        dlqs := dlqs + [d];
      }
    }
  }

  // ---------------------------------------------------------------------
  // Counters
  // ---------------------------------------------------------------------

  /** Lines that reached an outcome: written as events, written as dead
      letters, or lost to a failed write. */
  function Outcomes(c: Counters): nat {
    c.eventsOutTotal + c.dlqOutTotal + c.writeFailTotal
  }

  /** Reading a line: one more line, and its UTF-8 length in bytes. */
  function AfterRead(c: Counters, raw: string): (r: Counters)
    ensures CountersLe(c, r)
    ensures r.linesInTotal == c.linesInTotal + 1 && r.bytesInTotal == c.bytesInTotal + Utf8Length(raw)
    ensures Outcomes(r) == Outcomes(c)
  {
    c.(linesInTotal := c.linesInTotal + 1, bytesInTotal := c.bytesInTotal + Utf8Length(raw))
  }

  /** Writing a line: a successful event write counts an event, a
      successful dead-letter write counts a dead letter and a parse
      failure, and a failed write counts a write failure. */
  function AfterWrite(c: Counters, isEvent: bool, ok: bool): (r: Counters)
    ensures CountersLe(c, r)
    ensures Outcomes(r) == Outcomes(c) + 1
    ensures r.linesInTotal == c.linesInTotal && r.bytesInTotal == c.bytesInTotal
    ensures r.checkpointFailTotal == c.checkpointFailTotal
    ensures r.writeFailTotal > c.writeFailTotal <==> !ok
    ensures r.eventsOutTotal > c.eventsOutTotal <==> ok && isEvent
    ensures r.dlqOutTotal > c.dlqOutTotal <==> ok && !isEvent
    ensures r.parseFailTotal - c.parseFailTotal == r.dlqOutTotal - c.dlqOutTotal
  {
    if !ok then c.(writeFailTotal := c.writeFailTotal + 1)
    else if isEvent then c.(eventsOutTotal := c.eventsOutTotal + 1)
    else c.(dlqOutTotal := c.dlqOutTotal + 1, parseFailTotal := c.parseFailTotal + 1)
  }

  /** A value Python treats as true: present and not the empty string. */
  predicate Truthy(ts: Option<string>) {
    ts.Some? && ts.value != ""
  }

  /** The checkpoint fields a write leaves alone. */
  twostate predicate LedgerAndPositionKept(ck: Checkpoint)
    reads ck
  {
    && LedgerKept(ck)
    && ck.activeInode == old(ck.activeInode) && ck.activeOffset == old(ck.activeOffset)
  }

  /** The ledger and the fields the agent's passes never write are as they
      were. */
  twostate predicate LedgerKept(ck: Checkpoint)
    reads ck
  {
    ck.completed == old(ck.completed) && MetadataKept(ck)
  }

  /** The fields the agent's passes never write: the schema version, the
      active path and the save time. */
  twostate predicate MetadataKept(ck: Checkpoint)
    reads ck
  {
    ck.schemaVersion == old(ck.schemaVersion) && ck.activePath == old(ck.activePath) && ck.updatedAt == old(ck.updatedAt)
  }

  // ---------------------------------------------------------------------
  // What routing writes
  // ---------------------------------------------------------------------

  /** What routing lines changes: the counters, the last event time seen,
      the two sinks and the number of write attempts. */
  datatype Written = Written(counters: Counters, lastEventTsSeen: Option<string>,
                             events: seq<EventOut>, dlqs: seq<DlqOut>, attempts: nat)

  function Snapshot(ck: Checkpoint, sinks: Sinks): Written
    reads ck, sinks
  {
    Written(ck.counters, ck.lastEventTsSeen, sinks.events, sinks.dlqs, sinks.attempts)
  }

  /** What routing depends on besides the lines: whether each write
      attempt succeeds, and the parser with its year and digest fixed. */
  datatype Env = Env(accepts: nat -> bool, parse: string -> LineResult)

  /** `parse_fortigate_line` for a given current year and digest. */
  function LineParser(nowYear: int, hexDigest: string -> string): string -> LineResult {
    raw => ParseFortigateLine(raw, nowYear, hexDigest)
  }

  /** The source an event is stamped with. */
  function Stamp(src: SourcePos): EventSource {
    EventSource(src.path, src.inode, src.offset)
  }

  /** A line to route, with the source it is written with. */
  type Item = (string, SourcePos)

  /** Routing one line: count it and its bytes, parse it, and attempt to
      write the event or the dead letter; only a successful write reaches
      the sink, and only a written event with a time moves the last event
      time seen. */
  function RouteStep(w: Written, raw: string, src: SourcePos, env: Env): Written {
    var r := env.parse(raw);
    var ok := env.accepts(w.attempts);
    var counters := AfterWrite(AfterRead(w.counters, raw), r.Accepted?, ok);
    if r.Accepted? then
      Written(counters, if ok && Truthy(r.event.eventTs) then r.event.eventTs else w.lastEventTsSeen,
              w.events + (if ok then [EventOut(r.event, Stamp(src))] else []), w.dlqs, w.attempts + 1)
    else
      Written(counters, w.lastEventTsSeen, w.events,
              w.dlqs + (if ok then [DlqOut(1, r.dlq.reason.Code(), src, raw)] else []), w.attempts + 1)
  }

  /** Routing lines one after another. */
  function RouteAll(w: Written, items: seq<Item>, env: Env): Written
    decreases |items|
  {
    if items == [] then w
    else
      var last := items[|items| - 1];
      RouteStep(RouteAll(w, items[..|items| - 1], env), last.0, last.1, env)
  }

  /** Routing one more line of `items`. */
  lemma RouteAllSnoc(w: Written, items: seq<Item>, j: nat, env: Env)
    requires j < |items|
    ensures RouteAll(w, items[..j + 1], env) == RouteStep(RouteAll(w, items[..j], env), items[j].0, items[j].1, env)
  {
    assert items[..j + 1][..j] == items[..j];
  }

  /** The UTF-8 bytes of the routed lines. */
  function RawBytes(items: seq<Item>): nat {
    if items == [] then 0 else RawBytes(items[..|items| - 1]) + Utf8Length(items[|items| - 1].0)
  }

  /** Routing `a` and then `b` is routing `a + b`. */
  lemma {:induction false} RouteAllAppend(w: Written, a: seq<Item>, b: seq<Item>, env: Env)
    ensures RouteAll(w, a + b, env) == RouteAll(RouteAll(w, a, env), b, env)
    decreases |b|
  {
    if b == [] {
      assert a + b == a;
    } else {
      var ab := a + b;
      assert ab[..|ab| - 1] == a + b[..|b| - 1];
      assert ab[|ab| - 1] == b[|b| - 1];
      RouteAllAppend(w, a, b[..|b| - 1], env);
    }
  }

  /** Routing lines counts each line, its bytes and one outcome, makes one
      write attempt per line, only appends to the sinks, and appends to a
      sink exactly as many records as it counts as written there. */
  lemma {:induction false} RouteAllCounts(w: Written, items: seq<Item>, env: Env)
    ensures var r := RouteAll(w, items, env);
      && r.attempts == w.attempts + |items|
      && r.counters.linesInTotal == w.counters.linesInTotal + |items|
      && r.counters.bytesInTotal == w.counters.bytesInTotal + RawBytes(items)
      && Outcomes(r.counters) == Outcomes(w.counters) + |items|
      && CountersLe(w.counters, r.counters)
      && |w.events| <= |r.events| && r.events[..|w.events|] == w.events
      && |w.dlqs| <= |r.dlqs| && r.dlqs[..|w.dlqs|] == w.dlqs
      && |r.events| - |w.events| == r.counters.eventsOutTotal - w.counters.eventsOutTotal
      && |r.dlqs| - |w.dlqs| == r.counters.dlqOutTotal - w.counters.dlqOutTotal
    decreases |items|
  {
    if items != [] {
      var init := items[..|items| - 1];
      var mid := RouteAll(w, init, env);
      RouteAllCounts(w, init, env);
      var r := RouteAll(w, items, env);
      CountersLeTransitive(w.counters, mid.counters, r.counters);
      assert r.events[..|w.events|] == mid.events[..|w.events|];
      assert r.dlqs[..|w.dlqs|] == mid.dlqs[..|w.dlqs|];
    }
  }

  /** `e` is what routing `item` writes to the event sink. */
  predicate EventOf(item: Item, env: Env, e: EventOut) {
    var r := env.parse(item.0);
    r.Accepted? && e == EventOut(r.event, Stamp(item.1))
  }

  /** `d` is what routing `item` writes to the dead-letter sink. */
  predicate DlqOf(item: Item, env: Env, d: DlqOut) {
    var r := env.parse(item.0);
    r.Rejected? && d == DlqOut(1, r.dlq.reason.Code(), item.1, item.0)
  }

  /** `e` is what one of `items` writes to the event sink. */
  predicate EventOfSome(items: seq<Item>, env: Env, e: EventOut) {
    exists k :: 0 <= k < |items| && EventOf(items[k], env, e)
  }

  /** `d` is what one of `items` writes to the dead-letter sink. */
  predicate DlqOfSome(items: seq<Item>, env: Env, d: DlqOut) {
    exists k :: 0 <= k < |items| && DlqOf(items[k], env, d)
  }

  /** Every event of `events` from index `from` on is what one of `items`
      writes. */
  predicate EventsFrom(events: seq<EventOut>, from: nat, items: seq<Item>, env: Env) {
    forall j :: from <= j < |events| ==> EventOfSome(items, env, events[j])
  }

  /** Every dead letter of `dlqs` from index `from` on is what one of
      `items` writes. */
  predicate DlqsFrom(dlqs: seq<DlqOut>, from: nat, items: seq<Item>, env: Env) {
    forall j :: from <= j < |dlqs| ==> DlqOfSome(items, env, dlqs[j])
  }

  /** Every record routing appends comes from one of the routed lines: an
      event from a line the parser accepted, stamped with that line's
      source, and a dead letter from a line it rejected, with the reason,
      the source and the raw line. The last event time seen is kept, or is
      the non-empty time of an appended event. */
  lemma {:induction false} RouteAllWritten(w: Written, items: seq<Item>, env: Env)
    ensures var r := RouteAll(w, items, env);
      && EventsFrom(r.events, |w.events|, items, env)
      && DlqsFrom(r.dlqs, |w.dlqs|, items, env)
      && (r.lastEventTsSeen == w.lastEventTsSeen ||
          (Truthy(r.lastEventTsSeen) &&
           exists j :: |w.events| <= j < |r.events| && r.events[j].event.eventTs == r.lastEventTsSeen))
    decreases |items|
  {
    if items != [] {
      var n := |items| - 1;
      var init := items[..n];
      var mid := RouteAll(w, init, env);
      var r := RouteAll(w, items, env);
      RouteAllWritten(w, init, env);
      RouteAllCounts(w, init, env);
      WrittenStep(w, mid, r, init, items, env);
    }
  }

  /** The inductive step of `RouteAllWritten`: the records of the last line
      come from it, and the earlier ones keep their witnesses. */
  lemma WrittenStep(w: Written, mid: Written, r: Written, init: seq<Item>, items: seq<Item>, env: Env)
    requires items != [] && init == items[..|items| - 1]
    requires r == RouteStep(mid, items[|items| - 1].0, items[|items| - 1].1, env)
    requires |w.events| <= |mid.events| && |w.dlqs| <= |mid.dlqs|
    requires EventsFrom(mid.events, |w.events|, init, env) && DlqsFrom(mid.dlqs, |w.dlqs|, init, env)
    requires mid.lastEventTsSeen == w.lastEventTsSeen ||
             (Truthy(mid.lastEventTsSeen) &&
              exists j :: |w.events| <= j < |mid.events| && mid.events[j].event.eventTs == mid.lastEventTsSeen)
    ensures EventsFrom(r.events, |w.events|, items, env) && DlqsFrom(r.dlqs, |w.dlqs|, items, env)
    ensures r.lastEventTsSeen == w.lastEventTsSeen ||
            (Truthy(r.lastEventTsSeen) &&
             exists j :: |w.events| <= j < |r.events| && r.events[j].event.eventTs == r.lastEventTsSeen)
  {
    var n := |items| - 1;
    var x := env.parse(items[n].0);
    var ok := env.accepts(mid.attempts);
    var newEvents := if x.Accepted? && ok then [EventOut(x.event, Stamp(items[n].1))] else [];
    var newDlqs := if x.Rejected? && ok then [DlqOut(1, x.dlq.reason.Code(), items[n].1, items[n].0)] else [];
    assert r.events == mid.events + newEvents && r.dlqs == mid.dlqs + newDlqs;
    EventsStep(|w.events|, mid.events, newEvents, init, items, env);
    DlqsStep(|w.dlqs|, mid.dlqs, newDlqs, init, items, env);
    if r.lastEventTsSeen != mid.lastEventTsSeen {
      assert r.events[|mid.events|].event.eventTs == r.lastEventTsSeen;
    } else if mid.lastEventTsSeen != w.lastEventTsSeen {
      var j :| |w.events| <= j < |mid.events| && mid.events[j].event.eventTs == mid.lastEventTsSeen;
      assert r.events[j] == mid.events[j];
    }
  }

  /** The events appended after `from` keep their lines when one more line,
      which writes `added`, is routed. */
  lemma EventsStep(from: nat, events: seq<EventOut>, added: seq<EventOut>, init: seq<Item>, items: seq<Item>, env: Env)
    requires items != [] && init == items[..|items| - 1]
    requires EventsFrom(events, from, init, env)
    requires forall e :: e in added ==> EventOf(items[|items| - 1], env, e)
    ensures EventsFrom(events + added, from, items, env)
  {
    var all := events + added;
    forall j | from <= j < |all|
      ensures EventOfSome(items, env, all[j])
    {
      var e := all[j];
      if j < |events| {
        assert e == events[j] && EventOfSome(init, env, e);
        var k :| 0 <= k < |init| && EventOf(init[k], env, e);
        assert items[k] == init[k];
      } else {
        assert e in added;
        assert EventOf(items[|items| - 1], env, e);
      }
    }
  }

  /** The dead letters appended after `from` keep their lines when one more
      line, which writes `added`, is routed. */
  lemma DlqsStep(from: nat, dlqs: seq<DlqOut>, added: seq<DlqOut>, init: seq<Item>, items: seq<Item>, env: Env)
    requires items != [] && init == items[..|items| - 1]
    requires DlqsFrom(dlqs, from, init, env)
    requires forall d :: d in added ==> DlqOf(items[|items| - 1], env, d)
    ensures DlqsFrom(dlqs + added, from, items, env)
  {
    var all := dlqs + added;
    forall j | from <= j < |all|
      ensures DlqOfSome(items, env, all[j])
    {
      var d := all[j];
      if j < |dlqs| {
        assert d == dlqs[j] && DlqOfSome(init, env, d);
        var k :| 0 <= k < |init| && DlqOf(init[k], env, d);
        assert items[k] == init[k];
      } else {
        assert d in added;
        assert DlqOf(items[|items| - 1], env, d);
      }
    }
  }

  // ---------------------------------------------------------------------
  // Writing one line
  // ---------------------------------------------------------------------

  /** `_write_dlq`. */
  method WriteDlq(ck: Checkpoint, sinks: Sinks, reason: string, raw: string, src: SourcePos)
    modifies ck, sinks
    ensures var ok := sinks.accepts(old(sinks.attempts));
      && ck.counters == AfterWrite(old(ck.counters), false, ok)
      && sinks.dlqs == old(sinks.dlqs) + (if ok then [DlqOut(1, reason, src, raw)] else [])
    ensures sinks.events == old(sinks.events) && sinks.attempts == old(sinks.attempts) + 1
    ensures LedgerAndPositionKept(ck) && ck.lastEventTsSeen == old(ck.lastEventTsSeen)
  {
    var ok := sinks.AppendDlq(DlqOut(1, reason, src, raw));
    if ok {
      ck.counters := ck.counters.(dlqOutTotal := ck.counters.dlqOutTotal + 1);
      ck.counters := ck.counters.(parseFailTotal := ck.counters.parseFailTotal + 1);
    } else {
      ck.counters := ck.counters.(writeFailTotal := ck.counters.writeFailTotal + 1);
    }
  }

  /** `_write_event`: the event goes out stamped with the line's path,
      inode and offset. */
  method WriteEvent(ck: Checkpoint, sinks: Sinks, event: Event, src: SourcePos)
    modifies ck, sinks
    ensures var ok := sinks.accepts(old(sinks.attempts));
      && ck.counters == AfterWrite(old(ck.counters), true, ok)
      && sinks.events == old(sinks.events) + (if ok then [EventOut(event, EventSource(src.path, src.inode, src.offset))] else [])
      && ck.lastEventTsSeen == if ok && Truthy(event.eventTs) then event.eventTs else old(ck.lastEventTsSeen)
    ensures sinks.dlqs == old(sinks.dlqs) && sinks.attempts == old(sinks.attempts) + 1
    ensures LedgerAndPositionKept(ck)
  {
    var ok := sinks.AppendEvent(EventOut(event, EventSource(src.path, src.inode, src.offset)));
    if ok {
      ck.counters := ck.counters.(eventsOutTotal := ck.counters.eventsOutTotal + 1);
      if Truthy(event.eventTs) {
        ck.lastEventTsSeen := event.eventTs;
      }
    } else {
      ck.counters := ck.counters.(writeFailTotal := ck.counters.writeFailTotal + 1);
    }
  }

  /** One line of either pass: count it, parse it with `parse`, and write
      the event or the dead letter with the parser's reason. Both passes
      bind `parse` to `LineParser(nowYear, hexDigest)`, which is
      `parse_fortigate_line`. */
  method RouteLine(ck: Checkpoint, sinks: Sinks, raw: string, src: SourcePos, parse: string -> LineResult)
    modifies ck, sinks
    ensures Snapshot(ck, sinks) == RouteStep(old(Snapshot(ck, sinks)), raw, src, Env(sinks.accepts, parse))
    ensures LedgerAndPositionKept(ck)
  {
    ck.counters := AfterRead(ck.counters, raw);
    var r := parse(raw);
    if r.Accepted? {
      WriteEvent(ck, sinks, r.event, src);
    } else {
      WriteDlq(ck, sinks, r.dlq.reason.Code(), raw, src);
    }
  }

  // ---------------------------------------------------------------------
  // The rotated-file pass
  // ---------------------------------------------------------------------

  /** The ledger record of a file as `stat` reported it. */
  function FileRecord(path: string, st: FileStat, now: int): CompletedRecord {
    var (inode, size, mtime) := StatFile(st);
    CompletedRecord(CompletedKey(path, inode, size, mtime), path, inode, size, mtime, now)
  }

  /** Whether the pass ingests `p` given the ledger so far: its `stat`
      succeeds and its key is not in the ledger. */
  predicate Ingests(ledger: seq<CompletedRecord>, p: string, stat: string -> Option<FileStat>, now: int) {
    stat(p).Some? && !InLedger(ledger, FileRecord(p, stat(p).value, now).key)
  }

  /** The ledger after a pass over `files`, and the files the pass ingests:
      a file whose `stat` fails or whose key is already in the ledger is
      passed over; any other is ingested and then marked. */
  function RotatedRun(ledger: seq<CompletedRecord>, files: seq<string>, stat: string -> Option<FileStat>, now: int)
    : (r: (seq<CompletedRecord>, seq<string>))
    decreases |files|
  {
    if files == [] then (ledger, [])
    else
      var p := files[0];
      var rest := files[1..];
      if !Ingests(ledger, p, stat, now) then
        RotatedRun(ledger, rest, stat, now)
      else
        var after := RotatedRun(Capped(ledger + [FileRecord(p, stat(p).value, now)]), rest, stat, now);
        (after.0, [p] + after.1)
  }

  /** The pass ingests only listed files whose `stat` succeeds, each at
      most as often as it is listed. */
  lemma {:induction false} RotatedRunIngestsListed(ledger: seq<CompletedRecord>, files: seq<string>,
                                                   stat: string -> Option<FileStat>, now: int)
    ensures var r := RotatedRun(ledger, files, stat, now);
      && multiset(r.1) <= multiset(files) && |r.1| <= |files|
      && forall q :: q in r.1 ==> q in files && stat(q).Some?
    decreases |files|
  {
    if files != [] {
      var p := files[0];
      assert files == [p] + files[1..];
      if Ingests(ledger, p, stat, now) {
        RotatedRunIngestsListed(Capped(ledger + [FileRecord(p, stat(p).value, now)]), files[1..], stat, now);
      } else {
        RotatedRunIngestsListed(ledger, files[1..], stat, now);
      }
    }
  }

  /** Records in a prefix of the ledger are found in the whole ledger. */
  lemma InLedgerPrefix(l: seq<CompletedRecord>, r: seq<CompletedRecord>, key: string)
    requires |l| <= |r| && r[..|l|] == l && InLedger(l, key)
    ensures InLedger(r, key)
  {
    InLedgerIff(l, key);
    InLedgerIff(r, key);
    var j :| 0 <= j < |l| && l[j].key == key;
    assert r[j] == r[..|l|][j];
  }

  /** While the ledger stays under its cap, a pass only appends, and
      afterwards every listed file whose `stat` succeeds is in it. */
  lemma {:induction false} RotatedRunRecords(ledger: seq<CompletedRecord>, files: seq<string>,
                                             stat: string -> Option<FileStat>, now: int)
    requires |ledger| + |files| <= LedgerCap
    ensures var r := RotatedRun(ledger, files, stat, now).0;
      && |ledger| <= |r| && r[..|ledger|] == ledger
      && forall j :: 0 <= j < |files| && stat(files[j]).Some? ==>
           InLedger(r, FileRecord(files[j], stat(files[j]).value, now).key)
    decreases |files|
  {
    if files != [] {
      var p := files[0];
      var rest := files[1..];
      var r := RotatedRun(ledger, files, stat, now).0;
      if Ingests(ledger, p, stat, now) {
        var rec := FileRecord(p, stat(p).value, now);
        var l1 := Capped(ledger + [rec]);
        assert l1 == ledger + [rec];
        RotatedRunRecords(l1, rest, stat, now);
        assert r == RotatedRun(l1, rest, stat, now).0;
        assert r[..|ledger|] == r[..|l1|][..|ledger|];
        MarkedLast(ledger, rec);
        InLedgerPrefix(l1, r, rec.key);
      } else {
        RotatedRunRecords(ledger, rest, stat, now);
        if stat(p).Some? {
          InLedgerPrefix(ledger, r, FileRecord(p, stat(p).value, now).key);
        }
      }
      forall j | 0 <= j < |files| && stat(files[j]).Some?
        ensures InLedger(r, FileRecord(files[j], stat(files[j]).value, now).key)
      {
        if j > 0 {
          assert files[j] == rest[j - 1];
        }
      }
    }
  }

  /** A pass over files that are all in the ledger (or gone) changes
      nothing and ingests nothing. */
  lemma {:induction false} RotatedRunKnown(ledger: seq<CompletedRecord>, files: seq<string>,
                                           stat: string -> Option<FileStat>, now: int)
    requires forall j :: 0 <= j < |files| && stat(files[j]).Some? ==>
      InLedger(ledger, FileRecord(files[j], stat(files[j]).value, now).key)
    ensures RotatedRun(ledger, files, stat, now) == (ledger, [])
    decreases |files|
  {
    if files != [] {
      assert !Ingests(ledger, files[0], stat, now);
      forall j | 0 <= j < |files[1..]| && stat(files[1..][j]).Some?
        ensures InLedger(ledger, FileRecord(files[1..][j], stat(files[1..][j]).value, now).key)
      {
        assert files[1..][j] == files[j + 1];
      }
      RotatedRunKnown(ledger, files[1..], stat, now);
    }
  }

  /** Nothing is ingested twice: while the ledger has room, a second pass
      over the same listing with the same file states ingests nothing. */
  lemma RotatedRerunSkips(ledger: seq<CompletedRecord>, files: seq<string>, stat: string -> Option<FileStat>, now: int)
    requires |ledger| + |files| <= LedgerCap
    ensures var r := RotatedRun(ledger, files, stat, now).0;
      RotatedRun(r, files, stat, now) == (r, [])
  {
    RotatedRunRecords(ledger, files, stat, now);
    RotatedRunKnown(RotatedRun(ledger, files, stat, now).0, files, stat, now);
  }

  /** The lines of the ingested files. */
  function LineCount(ps: seq<string>, contents: string -> seq<string>): nat {
    if ps == [] then 0 else LineCount(ps[..|ps| - 1], contents) + |contents(ps[|ps| - 1])|
  }

  /** Their bytes, re-encoded as UTF-8. */
  function ByteCount(ps: seq<string>, contents: string -> seq<string>): nat {
    if ps == [] then 0 else ByteCount(ps[..|ps| - 1], contents) + Utf8Length(Concat(contents(ps[|ps| - 1])))
  }

  /** The lines of a rotated file with the sources `read_whole_file_lines`
      yields for them. */
  function WholeFileItems(path: string, inode: int, size: int, mtime: int, lines: seq<string>): seq<Item> {
    seq(|lines|, j requires 0 <= j < |lines| =>
      (lines[j], SourcePos(path, inode, if EndsWith(path, ".gz") then None else Some(LineStart(lines, j)),
                           Some(size), Some(mtime))))
  }

  /** The lines of a file the pass ingests, with their sources. */
  function FileItems(p: string, stat: string -> Option<FileStat>, contents: string -> seq<string>): seq<Item> {
    if stat(p).None? then []
    else
      var (inode, size, mtime) := StatFile(stat(p).value);
      WholeFileItems(p, inode, size, mtime, contents(p))
  }

  /** The lines of the ingested files, file after file. */
  function PassItems(ps: seq<string>, stat: string -> Option<FileStat>, contents: string -> seq<string>): seq<Item> {
    if ps == [] then [] else PassItems(ps[..|ps| - 1], stat, contents) + FileItems(ps[|ps| - 1], stat, contents)
  }

  /** All lines of one rotated file, in order. */
  method RouteFile(ck: Checkpoint, sinks: Sinks, path: string, inode: int, size: int, mtime: int,
                   lines: seq<string>, parse: string -> LineResult)
    modifies ck, sinks
    ensures ck.counters.linesInTotal == old(ck.counters.linesInTotal) + |lines|
    ensures ck.counters.bytesInTotal == old(ck.counters.bytesInTotal) + Utf8Length(Concat(lines))
    ensures CountersLe(old(ck.counters), ck.counters)
    ensures Outcomes(ck.counters) == Outcomes(old(ck.counters)) + |lines|
    ensures sinks.attempts == old(sinks.attempts) + |lines|
    ensures Snapshot(ck, sinks) ==
      RouteAll(old(Snapshot(ck, sinks)), WholeFileItems(path, inode, size, mtime, lines), Env(sinks.accepts, parse))
    ensures LedgerAndPositionKept(ck)
  {
    ghost var w0 := Snapshot(ck, sinks);
    ghost var env := Env(sinks.accepts, parse);
    var srcs := ReadWholeFileLines(path, inode, size, mtime, lines);
    assert srcs == WholeFileItems(path, inode, size, mtime, lines);
    for j := 0 to |srcs|
      invariant Snapshot(ck, sinks) == RouteAll(w0, srcs[..j], env)
      invariant ck.counters.bytesInTotal == old(ck.counters.bytesInTotal) + LineStart(lines, j)
      invariant LedgerAndPositionKept(ck)
    {
      RouteLine(ck, sinks, srcs[j].0, srcs[j].1, parse);
      LineStartStep(lines, j);
      RouteAllSnoc(w0, srcs, j, env);
    }
    RoutedCounts(w0, srcs, |srcs|, env);
    assert lines[..|lines|] == lines;
    assert srcs[..|srcs|] == srcs;
  }

  /** One iteration of `process_rotated_files`: pass over a vanished or
      already ingested file; otherwise route all its lines, then mark it. */
  method RotatedFile(ck: Checkpoint, sinks: Sinks, path: string, stat: string -> Option<FileStat>,
                     contents: string -> seq<string>, now: int, parse: string -> LineResult)
    returns (ingested: bool)
    modifies ck, sinks
    ensures ingested == Ingests(old(ck.completed), path, stat, now)
    ensures !ingested ==> ck.completed == old(ck.completed) && Snapshot(ck, sinks) == old(Snapshot(ck, sinks))
    ensures ingested ==>
      && ck.completed == Capped(old(ck.completed) + [FileRecord(path, stat(path).value, now)])
      && Snapshot(ck, sinks) ==
           RouteAll(old(Snapshot(ck, sinks)), FileItems(path, stat, contents), Env(sinks.accepts, parse))
      && ck.counters.linesInTotal == old(ck.counters.linesInTotal) + |contents(path)|
      && ck.counters.bytesInTotal == old(ck.counters.bytesInTotal) + Utf8Length(Concat(contents(path)))
      && Outcomes(ck.counters) == Outcomes(old(ck.counters)) + |contents(path)|
    ensures CountersLe(old(ck.counters), ck.counters)
    ensures ck.activeInode == old(ck.activeInode) && ck.activeOffset == old(ck.activeOffset)
    ensures MetadataKept(ck)
  {
    var st := stat(path);
    if st.None? {
      return false;
    }
    var (inode, size, mtime) := StatFile(st.value);
    if ck.IsCompleted(path, inode, size, mtime) {
      assert InLedger(ck.completed, FileRecord(path, st.value, now).key);
      return false;
    }
    RouteFile(ck, sinks, path, inode, size, mtime, contents(path), parse);
    ck.MarkCompleted(path, inode, size, mtime, now);
    ingested := true;
  }

  /** `process_rotated_files` over the names the directory lists, with
      `stat` and `contents` standing for the file system; returns the
      listing it walked. */
  method ProcessRotatedFiles(ck: Checkpoint, sinks: Sinks, names: seq<string>, stat: string -> Option<FileStat>,
                             contents: string -> seq<string>, now: int, nowYear: int, hexDigest: string -> string)
    returns (files: seq<string>)
    modifies ck, sinks
    ensures SortedBy(files, SortKey) && multiset(files) == multiset(Selected(names))
    ensures forall k :: WithKey(files, SortKey, k) == WithKey(Selected(names), SortKey, k)
    ensures var run := RotatedRun(old(ck.completed), files, stat, now);
      && ck.completed == run.0
      && ck.counters.linesInTotal == old(ck.counters.linesInTotal) + LineCount(run.1, contents)
      && ck.counters.bytesInTotal == old(ck.counters.bytesInTotal) + ByteCount(run.1, contents)
      && Outcomes(ck.counters) == Outcomes(old(ck.counters)) + LineCount(run.1, contents)
      && Snapshot(ck, sinks) ==
           RouteAll(old(Snapshot(ck, sinks)), PassItems(run.1, stat, contents), Env(sinks.accepts, LineParser(nowYear, hexDigest)))
    ensures CountersLe(old(ck.counters), ck.counters)
    ensures ck.activeInode == old(ck.activeInode) && ck.activeOffset == old(ck.activeOffset)
    ensures MetadataKept(ck)
  {
    files := ListRotatedFiles(names);
    RotatedPass(ck, sinks, files, stat, contents, now, LineParser(nowYear, hexDigest));
  }

  /** The loop of `process_rotated_files` over a listing. */
  method RotatedPass(ck: Checkpoint, sinks: Sinks, files: seq<string>, stat: string -> Option<FileStat>,
                     contents: string -> seq<string>, now: int, parse: string -> LineResult)
    modifies ck, sinks
    ensures var run := RotatedRun(old(ck.completed), files, stat, now);
      && ck.completed == run.0
      && ck.counters.linesInTotal == old(ck.counters.linesInTotal) + LineCount(run.1, contents)
      && ck.counters.bytesInTotal == old(ck.counters.bytesInTotal) + ByteCount(run.1, contents)
      && Outcomes(ck.counters) == Outcomes(old(ck.counters)) + LineCount(run.1, contents)
      && Snapshot(ck, sinks) ==
           RouteAll(old(Snapshot(ck, sinks)), PassItems(run.1, stat, contents), Env(sinks.accepts, parse))
    ensures CountersLe(old(ck.counters), ck.counters)
    ensures ck.activeInode == old(ck.activeInode) && ck.activeOffset == old(ck.activeOffset)
    ensures MetadataKept(ck)
  {
    ghost var run := RotatedRun(old(ck.completed), files, stat, now);
    ghost var ingested: seq<string> := [];
    ghost var w0 := Snapshot(ck, sinks);
    ghost var env := Env(sinks.accepts, parse);
    for i := 0 to |files|
      invariant RotatedRun(ck.completed, files[i..], stat, now).0 == run.0
      invariant Snapshot(ck, sinks) == RouteAll(w0, PassItems(ingested, stat, contents), env)
      invariant ingested + RotatedRun(ck.completed, files[i..], stat, now).1 == run.1
      invariant ck.counters.linesInTotal == old(ck.counters.linesInTotal) + LineCount(ingested, contents)
      invariant ck.counters.bytesInTotal == old(ck.counters.bytesInTotal) + ByteCount(ingested, contents)
      invariant Outcomes(ck.counters) == Outcomes(old(ck.counters)) + LineCount(ingested, contents)
      invariant CountersLe(old(ck.counters), ck.counters)
      invariant ck.activeInode == old(ck.activeInode) && ck.activeOffset == old(ck.activeOffset)
      invariant MetadataKept(ck)
    {
      var path := files[i];
      ghost var before := ck.counters;
      ghost var ledger := ck.completed;
      var took := RotatedFile(ck, sinks, path, stat, contents, now, parse);
      RunAdvance(ledger, ck.completed, files, i, stat, now, took, ingested, run);
      CountersLeTransitive(old(ck.counters), before, ck.counters);
      if took {
        CountStep(ingested, path, stat, contents);
        RouteAllAppend(w0, PassItems(ingested, stat, contents), FileItems(path, stat, contents), env);
        ingested := ingested + [path];
      }
    }
    assert files[|files|..] == [];
    assert ingested == ingested + RotatedRun(ck.completed, [], stat, now).1;
  }

  /** The pass's invariant survives one file. */
  lemma RunAdvance(ledger: seq<CompletedRecord>, ledger': seq<CompletedRecord>, files: seq<string>, i: nat,
                   stat: string -> Option<FileStat>, now: int, took: bool, ingested: seq<string>,
                   run: (seq<CompletedRecord>, seq<string>))
    requires i < |files|
    requires took == Ingests(ledger, files[i], stat, now)
    requires ledger' == if took then Capped(ledger + [FileRecord(files[i], stat(files[i]).value, now)]) else ledger
    requires RotatedRun(ledger, files[i..], stat, now).0 == run.0
    requires ingested + RotatedRun(ledger, files[i..], stat, now).1 == run.1
    ensures RotatedRun(ledger', files[i + 1..], stat, now).0 == run.0
    ensures (if took then ingested + [files[i]] else ingested) + RotatedRun(ledger', files[i + 1..], stat, now).1 == run.1
  {
    RotatedRunStep(ledger, files, i, stat, now);
    if took {
      assert ingested + [files[i]] + RotatedRun(ledger', files[i + 1..], stat, now).1
          == ingested + ([files[i]] + RotatedRun(ledger', files[i + 1..], stat, now).1);
    }
  }

  lemma CountStep(ps: seq<string>, p: string, stat: string -> Option<FileStat>, contents: string -> seq<string>)
    ensures LineCount(ps + [p], contents) == LineCount(ps, contents) + |contents(p)|
    ensures ByteCount(ps + [p], contents) == ByteCount(ps, contents) + Utf8Length(Concat(contents(p)))
    ensures PassItems(ps + [p], stat, contents) == PassItems(ps, stat, contents) + FileItems(p, stat, contents)
  {
    assert (ps + [p])[..|ps|] == ps;
  }

  /** One step of the pass, as `RotatedRun` takes it. */
  lemma RotatedRunStep(ledger: seq<CompletedRecord>, files: seq<string>, i: nat, stat: string -> Option<FileStat>, now: int)
    requires i < |files|
    ensures var p := files[i];
      var next := RotatedRun(ledger, files[i + 1..], stat, now);
      RotatedRun(ledger, files[i..], stat, now) ==
        if !Ingests(ledger, p, stat, now) then next
        else
          var after := RotatedRun(Capped(ledger + [FileRecord(p, stat(p).value, now)]), files[i + 1..], stat, now);
          (after.0, [p] + after.1)
  {
    assert files[i..][0] == files[i];
    assert files[i..][1..] == files[i + 1..];
  }

  // ---------------------------------------------------------------------
  // The active-file pass
  // ---------------------------------------------------------------------

  /** `active_inode()` reports a file other than the one being read. */
  predicate Moved(seen: Option<int>, inode: int) {
    seen.Some? && seen.value != inode
  }

  /** Where the tail loop over `n` yielded lines stops, from line `j` on:
      how many lines it routes, and whether it stopped on an inode change.
      After line `k` is read the inode is observed as `inodeAfter(k)`; after
      it is routed, `expired(k)` says the time budget has run out. */
  function TailStop(n: nat, inode: int, inodeAfter: nat -> Option<int>, expired: nat -> bool, j: nat): (r: (nat, bool))
    requires j <= n
    ensures j <= r.0 <= n
    decreases n - j
  {
    if j == n then (n, false)
    else if Moved(inodeAfter(j), inode) then (j, true)
    else if expired(j) then (j + 1, false)
    else TailStop(n, inode, inodeAfter, expired, j + 1)
  }

  /** The loop routes every line before the stop and no line after it; it
      stops on the first inode change, right after the first line that
      exhausts the budget, or at the end of the lines. */
  lemma {:induction false} TailStopSpec(n: nat, inode: int, inodeAfter: nat -> Option<int>, expired: nat -> bool, j: nat)
    requires j <= n
    ensures var r := TailStop(n, inode, inodeAfter, expired, j);
      && j <= r.0 <= n
      && (forall k :: j <= k < r.0 ==> !Moved(inodeAfter(k), inode))
      && (forall k :: j <= k < r.0 - 1 ==> !expired(k))
      && (r.1 ==> r.0 < n && Moved(inodeAfter(r.0), inode))
      && (r.1 && j < r.0 ==> !expired(r.0 - 1))
      && (!r.1 && r.0 < n ==> j < r.0 && expired(r.0 - 1))
    decreases n - j
  {
    if j < n && !Moved(inodeAfter(j), inode) && !expired(j) {
      TailStopSpec(n, inode, inodeAfter, expired, j + 1);
    }
  }

  /** The tailed lines with their sources: the active path, the inode and
      each line's end offset. */
  function TailItems(inode: int, lines: seq<string>, offsets: seq<int>): seq<Item>
    requires |offsets| == |lines|
  {
    seq(|lines|, k requires 0 <= k < |lines| => (lines[k], SourcePos(ActivePath, inode, Some(offsets[k]), None, None)))
  }

  /** What a tail from offset `start` of the file with inode `inode`
      leaves, against the state `w0` before it: the lines up to where the
      loop stops are routed, the counters and attempts grow by their
      number, and the position is the end of the last routed line, or
      offset 0 of the new inode after a rotation. */
  predicate TailedFrom(w0: Written, ck: Checkpoint, sinks: Sinks, inode: int, start: int, chunks: seq<seq<byte>>,
                       decode: seq<byte> -> string, inodeAfter: nat -> Option<int>, expired: nat -> bool,
                       parse: string -> LineResult)
    reads ck, sinks
  {
    var ls := SplitLines(Concat(chunks)).0;
    var stop := TailStop(|ls|, inode, inodeAfter, expired, 0);
    && Snapshot(ck, sinks) ==
         RouteAll(w0, TailItems(inode, DecodeAll(decode, ls), EndOffsets(start, ls))[..stop.0], Env(sinks.accepts, parse))
    && ck.counters.linesInTotal == w0.counters.linesInTotal + stop.0
    && ck.counters.bytesInTotal == w0.counters.bytesInTotal + Utf8Length(Concat(DecodeAll(decode, ls)[..stop.0]))
    && Outcomes(ck.counters) == Outcomes(w0.counters) + stop.0
    && sinks.attempts == w0.attempts + stop.0
    && (stop.1 ==> ck.activeInode == inodeAfter(stop.0) && ck.activeOffset == 0)
    && (!stop.1 ==> ck.activeInode == Some(inode))
    && (!stop.1 && stop.0 == 0 ==> ck.activeOffset == start)
    && (!stop.1 && stop.0 > 0 ==> ck.activeOffset == EndOffsets(start, ls)[stop.0 - 1] > start)
  }

  /** `process_active_tail`: `current` is what `active_inode()` reports at
      the start, `chunks` the reads of the active file from the stored
      offset, `decode` the UTF-8 decoding with replacement. */
  method ProcessActiveTail(ck: Checkpoint, sinks: Sinks, current: Option<int>, chunks: seq<seq<byte>>,
                           decode: seq<byte> -> string, inodeAfter: nat -> Option<int>, expired: nat -> bool,
                           nowYear: int, hexDigest: string -> string)
    modifies ck, sinks
    ensures current.None? ==>
      && Snapshot(ck, sinks) == old(Snapshot(ck, sinks))
      && ck.activeInode == old(ck.activeInode) && ck.activeOffset == old(ck.activeOffset)
    ensures current.Some? ==>
      TailedFrom(old(Snapshot(ck, sinks)), ck, sinks, current.value,
                 if old(ck.activeInode) == current then old(ck.activeOffset) else 0,
                 chunks, decode, inodeAfter, expired, LineParser(nowYear, hexDigest))
    ensures CountersLe(old(ck.counters), ck.counters)
    ensures LedgerKept(ck)
  {
    if current.None? {
      return;
    }
    ResetPosition(ck, current.value);
    TailFromPosition(ck, sinks, current.value, chunks, decode, inodeAfter, expired, LineParser(nowYear, hexDigest));
  }

  /** The tail from the stored position on: follow the active file from
      the stored offset and run the loop over the lines read. */
  method TailFromPosition(ck: Checkpoint, sinks: Sinks, inode: int, chunks: seq<seq<byte>>, decode: seq<byte> -> string,
                          inodeAfter: nat -> Option<int>, expired: nat -> bool, parse: string -> LineResult)
    requires ck.activeInode == Some(inode)
    modifies ck, sinks
    ensures TailedFrom(old(Snapshot(ck, sinks)), ck, sinks, inode, old(ck.activeOffset), chunks, decode, inodeAfter, expired, parse)
    ensures CountersLe(old(ck.counters), ck.counters)
    ensures LedgerKept(ck)
  {
    var start := ck.activeOffset;
    var lines, offsets, _ := FollowActive(start, chunks, decode);
    ghost var ls := SplitLines(Concat(chunks)).0;
    assert |lines| == |ls| && offsets == EndOffsets(start, ls);
    ghost var routed, moved := TailLoop(ck, sinks, inode, start, lines, offsets, inodeAfter, expired, parse);
    if !moved && routed > 0 {
      LastOffsetAfterStart(start, ls, routed);
    }
  }

  /** Before tailing: a missing or different stored inode becomes the
      current one, read from offset 0. */
  method ResetPosition(ck: Checkpoint, current: int)
    modifies ck
    ensures ck.activeInode == Some(current)
    ensures ck.activeOffset == if old(ck.activeInode) == Some(current) then old(ck.activeOffset) else 0
    ensures ck.counters == old(ck.counters) && ck.completed == old(ck.completed) && MetadataKept(ck)
    ensures ck.lastEventTsSeen == old(ck.lastEventTsSeen)
  {
    if ck.activeInode.None? {
      ck.activeInode := Some(current);
      ck.activeOffset := 0;
    }
    if ck.activeInode != Some(current) {
      ck.activeInode := Some(current);
      ck.activeOffset := 0;
    }
  }

  /** A stored end offset lies past the start. */
  lemma LastOffsetAfterStart(start: int, ls: seq<seq<byte>>, k: nat)
    requires 0 < k <= |ls| && forall j :: 0 <= j < |ls| ==> IsLine(ls[j])
    ensures EndOffsets(start, ls)[k - 1] > start
  {
    EndOffsetsIncrease(start, ls);
  }

  /** The `for line, new_offset in ...` loop of `process_active_tail`: it
      routes the first `routed` lines, where `(routed, moved)` is where
      the loop stops. */
  method TailLoop(ck: Checkpoint, sinks: Sinks, inode: int, start: int, lines: seq<string>, offsets: seq<int>,
                  inodeAfter: nat -> Option<int>, expired: nat -> bool, parse: string -> LineResult)
    returns (ghost routed: nat, ghost moved: bool)
    requires |offsets| == |lines|
    requires ck.activeInode == Some(inode) && ck.activeOffset == start
    modifies ck, sinks
    ensures (routed, moved) == TailStop(|lines|, inode, inodeAfter, expired, 0)
    ensures Snapshot(ck, sinks) ==
      RouteAll(old(Snapshot(ck, sinks)), TailItems(inode, lines, offsets)[..routed], Env(sinks.accepts, parse))
    ensures ck.counters.linesInTotal == old(ck.counters.linesInTotal) + routed
    ensures ck.counters.bytesInTotal == old(ck.counters.bytesInTotal) + Utf8Length(Concat(lines[..routed]))
    ensures Outcomes(ck.counters) == Outcomes(old(ck.counters)) + routed
    ensures sinks.attempts == old(sinks.attempts) + routed
    ensures moved ==> ck.activeInode == inodeAfter(routed) && ck.activeOffset == 0
    ensures !moved ==> ck.activeInode == Some(inode) && ck.activeOffset == if routed == 0 then start else offsets[routed - 1]
    ensures CountersLe(old(ck.counters), ck.counters)
    ensures LedgerKept(ck)
  {
    ghost var w0 := Snapshot(ck, sinks);
    ghost var env := Env(sinks.accepts, parse);
    ghost var items := TailItems(inode, lines, offsets);
    ghost var stop := TailStop(|lines|, inode, inodeAfter, expired, 0);
    // The loop leaves after the line that exhausts the budget, or before a
    // line read once the inode has changed.
    var j := 0;
    while j < |lines| && !(0 < j && expired(j - 1)) && !Moved(inodeAfter(j), inode)
      invariant j <= |lines|
      invariant Snapshot(ck, sinks) == RouteAll(w0, items[..j], env)
      invariant ck.counters.bytesInTotal == old(ck.counters.bytesInTotal) + Utf8Length(Concat(lines[..j]))
      invariant 0 < j && expired(j - 1) ==> stop == (j, false)
      invariant !(0 < j && expired(j - 1)) ==> TailStop(|lines|, inode, inodeAfter, expired, j) == stop
      invariant ck.activeInode == Some(inode)
      invariant ck.activeOffset == if j == 0 then start else offsets[j - 1]
      invariant LedgerKept(ck)
    {
      TailLine(ck, sinks, inode, lines[j], offsets[j], parse);
      LineStartStep(lines, j);
      RouteAllSnoc(w0, items, j, env);
      j := j + 1;
    }
    moved := false;
    if j < |lines| && !(0 < j && expired(j - 1)) {
      ck.activeInode := inodeAfter(j);
      ck.activeOffset := 0;
      moved := true;
    }
    RoutedCounts(w0, items, j, env);
    routed := j;
  }

  /** The counters after routing the first `j` items. */
  lemma RoutedCounts(w: Written, items: seq<Item>, j: nat, env: Env)
    requires j <= |items|
    ensures var r := RouteAll(w, items[..j], env);
      && r.counters.linesInTotal == w.counters.linesInTotal + j
      && Outcomes(r.counters) == Outcomes(w.counters) + j
      && r.attempts == w.attempts + j
      && CountersLe(w.counters, r.counters)
  {
    RouteAllCounts(w, items[..j], env);
  }

  /** One routed line of the tail: written with the active path, the
      inode and the line's end offset, which then becomes the stored
      offset. */
  method TailLine(ck: Checkpoint, sinks: Sinks, inode: int, line: string, offset: int, parse: string -> LineResult)
    modifies ck, sinks
    ensures Snapshot(ck, sinks) ==
      RouteStep(old(Snapshot(ck, sinks)), line, SourcePos(ActivePath, inode, Some(offset), None, None),
                Env(sinks.accepts, parse))
    ensures ck.counters.bytesInTotal == old(ck.counters.bytesInTotal) + Utf8Length(line)
    ensures ck.activeInode == old(ck.activeInode) && ck.activeOffset == offset
    ensures LedgerKept(ck)
  {
    RouteLine(ck, sinks, line, SourcePos(ActivePath, inode, Some(offset), None, None), parse);
    ck.activeOffset := offset;
  }
}
