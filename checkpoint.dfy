/**
 * The ingest checkpoint: the active-file position, the ledger of rotated
 * files already ingested, and the counters. The ledger key is
 * `path|inode|size|mtime`; marking a file appends a record and keeps only
 * the most recent 5000.
 */
module Checkpoint {
  import opened Text

  const DefaultActivePath: string := "/data/fortigate/fortigate.log"

  /** The ledger keeps at most this many records. */
  const LedgerCap: nat := 5000

  datatype Counters = Counters(
    linesInTotal: nat,
    bytesInTotal: nat,
    eventsOutTotal: nat,
    dlqOutTotal: nat,
    parseFailTotal: nat,
    writeFailTotal: nat,
    checkpointFailTotal: nat)

  /** Every counter of `a` is at most the same counter of `b`. */
  predicate CountersLe(a: Counters, b: Counters) {
    && a.linesInTotal <= b.linesInTotal
    && a.bytesInTotal <= b.bytesInTotal
    && a.eventsOutTotal <= b.eventsOutTotal
    && a.dlqOutTotal <= b.dlqOutTotal
    && a.parseFailTotal <= b.parseFailTotal
    && a.writeFailTotal <= b.writeFailTotal
    && a.checkpointFailTotal <= b.checkpointFailTotal
  }

  lemma CountersLeTransitive(a: Counters, b: Counters, c: Counters)
    requires CountersLe(a, b) && CountersLe(b, c)
    ensures CountersLe(a, c)
  {
  }

  datatype CompletedRecord = CompletedRecord(
    key: string, path: string, inode: int, size: int, mtime: int, completedAt: int)

  // ---------------------------------------------------------------------
  // The ledger key
  // ---------------------------------------------------------------------

  function CompletedKey(path: string, inode: int, size: int, mtime: int): string {
    path + "|" + IntToString(inode) + "|" + IntToString(size) + "|" + IntToString(mtime)
  }

  /** Cutting at the last `|`: when neither tail holds a `|`, equal texts
      have equal heads and equal tails. */
  lemma LastBarSplit(a: string, x: string, c: string, y: string)
    requires '|' !in x && '|' !in y
    requires a + "|" + x == c + "|" + y
    ensures a == c && x == y
  {
    var s := a + "|" + x;
    if |x| < |y| {
      BarInLongerTail(a, x, c, y);
    } else if |y| < |x| {
      BarInLongerTail(c, y, a, x);
    }
    assert x == s[|s| - |x|..] == y;
    assert a == s[..|a|] == c;
  }

  /** If the tails differ in length, the shorter one's `|` falls inside
      the longer tail. */
  lemma BarInLongerTail(a: string, x: string, c: string, y: string)
    requires a + "|" + x == c + "|" + y && |x| < |y|
    ensures '|' in y
  {
    var s := a + "|" + x;
    assert s[|s| - |x| - 1] == '|';
    assert y[|y| - |x| - 1] == s[|s| - |x| - 1];
  }

  lemma IntTextNoBar(i: int)
    ensures '|' !in IntToString(i)
  {
    if '|' in IntToString(i) {
      IntToStringAlphabet(i, '|');
    }
  }

  lemma IntTextInjective(i: int, j: int)
    requires IntToString(i) == IntToString(j)
    ensures i == j
  {
    IntToStringInjective(i, j);
  }

  /** The key determines the file identity, even when the path holds `|`:
      the three numbers never do, so the key is cut from the right. */
  lemma CompletedKeyInjective(p1: string, i1: int, s1: int, m1: int, p2: string, i2: int, s2: int, m2: int)
    requires CompletedKey(p1, i1, s1, m1) == CompletedKey(p2, i2, s2, m2)
    ensures p1 == p2 && i1 == i2 && s1 == s2 && m1 == m2
  {
    IntTextNoBar(i1); IntTextNoBar(s1); IntTextNoBar(m1);
    IntTextNoBar(i2); IntTextNoBar(s2); IntTextNoBar(m2);
    LastBarSplit(p1 + "|" + IntToString(i1) + "|" + IntToString(s1), IntToString(m1),
                 p2 + "|" + IntToString(i2) + "|" + IntToString(s2), IntToString(m2));
    LastBarSplit(p1 + "|" + IntToString(i1), IntToString(s1), p2 + "|" + IntToString(i2), IntToString(s2));
    LastBarSplit(p1, IntToString(i1), p2, IntToString(i2));
    IntTextInjective(i1, i2);
    IntTextInjective(s1, s2);
    IntTextInjective(m1, m2);
  }

  // ---------------------------------------------------------------------
  // The ledger
  // ---------------------------------------------------------------------

  /** The scan of `is_completed`: the first record whose key matches. */
  function InLedger(ledger: seq<CompletedRecord>, key: string): bool {
    if ledger == [] then false
    else if ledger[0].key == key then true
    else InLedger(ledger[1..], key)
  }

  lemma {:induction false} InLedgerIff(ledger: seq<CompletedRecord>, key: string)
    ensures InLedger(ledger, key) <==> exists j :: 0 <= j < |ledger| && ledger[j].key == key
  {
    if ledger != [] {
      InLedgerIff(ledger[1..], key);
      if ledger[0].key != key && exists j :: 0 <= j < |ledger| && ledger[j].key == key {
        var j :| 0 <= j < |ledger| && ledger[j].key == key;
        assert ledger[1..][j - 1] == ledger[j];
      }
    }
  }

  /** The most recent `LedgerCap` records, oldest dropped first. */
  function Capped(ledger: seq<CompletedRecord>): (r: seq<CompletedRecord>)
    ensures |r| == if |ledger| > LedgerCap then LedgerCap else |ledger|
  {
    if |ledger| > LedgerCap then ledger[|ledger| - LedgerCap..] else ledger
  }

  /** Capping keeps a suffix, in order: every kept record is the record at
      the same distance from the end. */
  lemma CappedSuffix(ledger: seq<CompletedRecord>)
    ensures var r := Capped(ledger);
      forall j :: 0 <= j < |r| ==> r[j] == ledger[|ledger| - |r| + j]
  {
    if |ledger| > LedgerCap {
      var d := |ledger| - LedgerCap;
      assert Capped(ledger) == ledger[d..];
      forall j | 0 <= j < LedgerCap
        ensures ledger[d..][j] == ledger[d + j]
      {
      }
    }
  }

  /** After an append and the cap, the new record is last. */
  lemma MarkedLast(ledger: seq<CompletedRecord>, rec: CompletedRecord)
    ensures var r := Capped(ledger + [rec]);
      |r| >= 1 && r[|r| - 1] == rec && InLedger(r, rec.key)
  {
    var r := Capped(ledger + [rec]);
    CappedSuffix(ledger + [rec]);
    assert r[|r| - 1] == rec;
    InLedgerIff(r, rec.key);
  }

  /** Marking never deduplicates: marking the same file twice leaves two
      records for it at the end. */
  lemma MarkedTwice(ledger: seq<CompletedRecord>, rec: CompletedRecord)
    ensures var r := Capped(Capped(ledger + [rec]) + [rec]);
      |r| >= 2 && r[|r| - 1] == rec && r[|r| - 2] == rec
  {
    var r1 := Capped(ledger + [rec]);
    MarkedLast(ledger, rec);
    var r := Capped(r1 + [rec]);
    CappedSuffix(r1 + [rec]);
    assert r[|r| - 2] == (r1 + [rec])[|r1| - 1];
  }

  /** Records already in the ledger stay findable until 5000 newer ones
      have pushed them out. */
  lemma MarkKeepsRecent(ledger: seq<CompletedRecord>, rec: CompletedRecord, j: nat)
    requires j < |ledger| && |ledger| - j < LedgerCap
    ensures InLedger(Capped(ledger + [rec]), ledger[j].key)
  {
    var l := ledger + [rec];
    var r := Capped(l);
    CappedSuffix(l);
    assert r[j - (|l| - |r|)] == l[j] == ledger[j];
    InLedgerIff(r, ledger[j].key);
  }

  // ---------------------------------------------------------------------
  // The checkpoint record
  // ---------------------------------------------------------------------

  class Checkpoint {
    var schemaVersion: int
    var activePath: string
    var activeInode: Option<int>
    var activeOffset: int
    var lastEventTsSeen: Option<string>
    var completed: seq<CompletedRecord>
    var counters: Counters
    var updatedAt: int

    /** The state used when no checkpoint has been saved yet; `now` is the
        clock reading stored as `updated_at`. */
    constructor Default(now: int)
      ensures schemaVersion == 1
      ensures activePath == DefaultActivePath && activeInode == None && activeOffset == 0
      ensures lastEventTsSeen == None
      ensures completed == []
      ensures counters == Counters(0, 0, 0, 0, 0, 0, 0)
      ensures updatedAt == now
    {
      schemaVersion := 1;
      activePath := DefaultActivePath;
      activeInode := None;
      activeOffset := 0;
      lastEventTsSeen := None;
      completed := [];
      counters := Counters(0, 0, 0, 0, 0, 0, 0);
      updatedAt := now;
    }

    /** Whether a record with the file's key is in the ledger. */
    function IsCompleted(path: string, inode: int, size: int, mtime: int): (r: bool)
      reads this
      ensures r <==> exists j :: 0 <= j < |completed| && completed[j].key == CompletedKey(path, inode, size, mtime)
    {
      InLedgerIff(completed, CompletedKey(path, inode, size, mtime));
      InLedger(completed, CompletedKey(path, inode, size, mtime))
    }

    /** Appends the file's record, stamped `now`, then keeps the most
        recent `LedgerCap` records. */
    method MarkCompleted(path: string, inode: int, size: int, mtime: int, now: int)
      modifies this
      ensures completed == Capped(old(completed) + [CompletedRecord(CompletedKey(path, inode, size, mtime), path, inode, size, mtime, now)])
      ensures |completed| <= LedgerCap
      ensures IsCompleted(path, inode, size, mtime)
      ensures schemaVersion == old(schemaVersion) && activePath == old(activePath)
      ensures activeInode == old(activeInode) && activeOffset == old(activeOffset)
      ensures lastEventTsSeen == old(lastEventTsSeen)
      ensures counters == old(counters) && updatedAt == old(updatedAt)
    {
      var key := CompletedKey(path, inode, size, mtime);
      var rec := CompletedRecord(key, path, inode, size, mtime, now);
      completed := completed + [rec];
      if |completed| > LedgerCap {
        completed := completed[|completed| - LedgerCap..];
      }
      MarkedLast(old(completed), rec);
    }
  }
}
