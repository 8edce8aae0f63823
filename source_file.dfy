/**
 * Where the lines come from: rotated files selected by name and ordered by
 * the timestamp in the name, the active file followed through a byte
 * buffer split at line feeds, and the offsets stamped on each line.
 */
module SourceFile {
  import opened Text

  const ActivePath: string := "/data/fortigate/fortigate.log"
  const Dir: string := "/data/fortigate"

  // ---------------------------------------------------------------------
  // Rotated file names: `^fortigate\.log-(\d{8}-\d{6})(?:\.gz)?$`
  // ---------------------------------------------------------------------

  const RotatedPrefix: string := "fortigate.log-"

  /** `\d{8}-\d{6}`. */
  predicate StampShaped(t: string) {
    |t| == 15 && AllDigits(t[..8]) && t[8] == '-' && AllDigits(t[9..])
  }

  /** What may follow the stamp: an optional `.gz`, then the end of the
      name or a final line feed (`$` also matches before one). */
  predicate RotatedTail(r: string) {
    r == "" || r == ".gz" || r == "\n" || r == ".gz\n"
  }

  /** The captured stamp when the name is a rotated log. */
  function RotatedStamp(name: string): (r: Option<string>)
    ensures r.Some? ==> StampShaped(r.value)
  {
    if |name| >= 29 && name[..14] == RotatedPrefix && StampShaped(name[14..29]) && RotatedTail(name[29..])
    then Some(name[14..29])
    else None
  }

  /** Every rotated name is matched, and its stamp captured. */
  lemma RotatedNameMatches(stamp: string, tail: string)
    requires StampShaped(stamp) && RotatedTail(tail)
    ensures RotatedStamp(RotatedPrefix + stamp + tail) == Some(stamp)
  {
    var name := RotatedPrefix + stamp + tail;
    assert name[..14] == RotatedPrefix;
    assert name[14..29] == stamp;
    assert name[29..] == tail;
  }

  /** Every matched name is the prefix, its stamp and an allowed tail. */
  lemma RotatedNameSound(name: string)
    requires RotatedStamp(name).Some?
    ensures var stamp := RotatedStamp(name).value;
      && StampShaped(stamp) && RotatedTail(name[29..])
      && name == RotatedPrefix + stamp + name[29..]
  {
    assert name == name[..14] + name[14..29] + name[29..];
  }

  /** A matched name has no `/`, so it is its own base name. */
  lemma RotatedNameNoSlash(name: string)
    requires RotatedStamp(name).Some?
    ensures '/' !in name
  {
    var stamp := name[14..29];
    forall k | 0 <= k < |name|
      ensures name[k] != '/'
    {
      if k >= 29 {
        assert name[k] == name[29..][k - 29];
      } else if 22 < k {
        assert name[k] == stamp[9..][k - 23];
      } else if 14 <= k < 22 {
        assert name[k] == stamp[..8][k - 14];
      } else if k < 14 {
        assert name[k] == RotatedPrefix[k];
      }
    }
  }

  // ---------------------------------------------------------------------
  // Paths
  // ---------------------------------------------------------------------

  /** `os.path.join(dir, name)` for a relative `name`; an absolute `name`
      replaces the directory. */
  function PathJoin(dir: string, name: string): string {
    if name != [] && name[0] == '/' then name
    else if dir == [] || dir[|dir| - 1] == '/' then dir + name
    else dir + "/" + name
  }

  /** `os.path.basename`: what follows the last `/`. */
  function Basename(p: string): (b: string)
    ensures '/' !in b
  {
    if p == [] || p[|p| - 1] == '/' then []
    else Basename(p[..|p| - 1]) + [p[|p| - 1]]
  }

  lemma {:induction false} BasenameAfterSlash(dir: string, name: string)
    requires '/' !in name
    ensures Basename(dir + "/" + name) == name
    decreases |name|
  {
    var p := dir + "/" + name;
    if name == [] {
      assert p[|p| - 1] == '/';
    } else {
      var init := name[..|name| - 1];
      assert p[..|p| - 1] == dir + "/" + init;
      assert p[|p| - 1] == name[|name| - 1];
      assert name[|name| - 1] in name;
      assert forall j :: 0 <= j < |init| ==> init[j] == name[j];
      BasenameAfterSlash(dir, init);
      assert name == init + [name[|name| - 1]];
    }
  }

  // ---------------------------------------------------------------------
  // `list_rotated_files`: filter, then a stable sort by the stamp
  // ---------------------------------------------------------------------

  const MissingStampKey: string := "99999999-999999"

  /** `key_fn`: the stamp of the base name, or a key that sorts last. */
  function SortKey(p: string): string {
    match RotatedStamp(Basename(p))
    case Some(stamp) => stamp
    case None => MissingStampKey
  }

  /** A selected path is keyed by its own stamp. */
  lemma SortKeyOfSelected(name: string)
    requires RotatedStamp(name).Some?
    ensures SortKey(PathJoin(Dir, name)) == RotatedStamp(name).value
  {
    RotatedNameNoSlash(name);
    assert name[0] == 'f';
    BasenameAfterSlash(Dir, name);
  }

  /** The paths of the rotated names, in listing order. */
  function Selected(names: seq<string>): seq<string> {
    if names == [] then []
    else
      var last := names[|names| - 1];
      Selected(names[..|names| - 1]) + (if RotatedStamp(last).Some? then [PathJoin(Dir, last)] else [])
  }

  lemma {:induction false} SelectedSpec(names: seq<string>)
    ensures forall p :: p in Selected(names) <==>
      exists n :: n in names && RotatedStamp(n).Some? && p == PathJoin(Dir, n)
  {
    if names != [] {
      var init := names[..|names| - 1];
      SelectedSpec(init);
      assert names == init + [names[|names| - 1]];
    }
  }

  // A stable sort by a key function. The key is a parameter, as in
  // `list.sort(key=...)`, so these proofs never look inside it.

  predicate SortedBy(s: seq<string>, key: string -> string) {
    forall a, b :: 0 <= a < b < |s| ==> StrLe(key(s[a]), key(s[b]))
  }

  /** The elements with key `k`, in order: a sort is stable when it keeps
      this sequence for every key. */
  function WithKey(s: seq<string>, key: string -> string, k: string): seq<string> {
    if s == [] then []
    else WithKey(s[..|s| - 1], key, k) + (if key(s[|s| - 1]) == k then [s[|s| - 1]] else [])
  }

  lemma {:induction false} WithKeyAppend(a: seq<string>, b: seq<string>, key: string -> string, k: string)
    ensures WithKey(a + b, key, k) == WithKey(a, key, k) + WithKey(b, key, k)
    decreases |b|
  {
    if b == [] {
      assert a + b == a;
    } else {
      var init := b[..|b| - 1];
      assert (a + b)[..|a + b| - 1] == a + init;
      WithKeyAppend(a, init, key, k);
    }
  }

  lemma WithKeySingle(x: string, key: string -> string, k: string)
    ensures WithKey([x], key, k) == if key(x) == k then [x] else []
  {
    assert [x][..0] == [];
  }

  lemma StrLeReflexive(a: string)
    ensures StrLe(a, a)
  {
    StrLeTotal(a, a);
  }

  /** No element of `s` has key `k`. */
  lemma {:induction false} WithKeyNone(s: seq<string>, key: string -> string, k: string)
    requires forall j :: 0 <= j < |s| ==> key(s[j]) != k
    ensures WithKey(s, key, k) == []
    decreases |s|
  {
    if s != [] {
      WithKeyNone(s[..|s| - 1], key, k);
    }
  }

  /** Where an element with key `kx` goes: after every key `<= kx`, before
      every greater key. */
  method InsertionPoint(s: seq<string>, key: string -> string, kx: string) returns (p: nat)
    requires SortedBy(s, key)
    ensures p <= |s|
    ensures forall j :: 0 <= j < p ==> StrLe(key(s[j]), kx)
    ensures forall j :: p <= j < |s| ==> !StrLe(key(s[j]), kx)
  {
    p := 0;
    while p < |s| && StrLe(key(s[p]), kx)
      invariant p <= |s|
      invariant forall j :: 0 <= j < p ==> StrLe(key(s[j]), kx)
    {
      p := p + 1;
    }
    forall j | p <= j < |s|
      ensures !StrLe(key(s[j]), kx)
    {
      if StrLe(key(s[j]), kx) {
        StrLeTransitive(key(s[p]), key(s[j]), kx);
      }
    }
  }

  /** Inserting at the insertion point keeps the order. */
  lemma InsertSorted(s: seq<string>, p: nat, x: string, key: string -> string)
    requires SortedBy(s, key) && p <= |s|
    requires forall j :: 0 <= j < p ==> StrLe(key(s[j]), key(x))
    requires forall j :: p <= j < |s| ==> !StrLe(key(s[j]), key(x))
    ensures SortedBy(s[..p] + [x] + s[p..], key)
  {
    var t := s[..p] + [x] + s[p..];
    var kx := key(x);
    StrLeReflexive(kx);
    forall a, b | 0 <= a < b < |t|
      ensures StrLe(key(t[a]), key(t[b]))
    {
      if b > p {
        assert t[b] == s[b - 1];
        StrLeTotal(kx, key(s[b - 1]));
        if a < p {
          assert t[a] == s[a];
          StrLeTransitive(key(s[a]), kx, key(s[b - 1]));
        } else if a > p {
          assert t[a] == s[a - 1];
        }
      } else if b == p {
        assert t[a] == s[a];
      } else {
        assert t[a] == s[a] && t[b] == s[b];
      }
    }
  }

  /** Inserting adds the element to the multiset. */
  lemma InsertMultiset(s: seq<string>, p: nat, x: string)
    requires p <= |s|
    ensures multiset(s[..p] + [x] + s[p..]) == multiset(s) + multiset{x}
  {
    assert s == s[..p] + s[p..];
  }

  /** Inserting after every key `<= key(x)` appends `x` to the elements of
      its own key and leaves the other keys' elements alone. */
  lemma InsertWithKey(s: seq<string>, p: nat, x: string, key: string -> string, k: string)
    requires p <= |s|
    requires forall j :: p <= j < |s| ==> !StrLe(key(s[j]), key(x))
    ensures WithKey(s[..p] + [x] + s[p..], key, k) == WithKey(s, key, k) + (if key(x) == k then [x] else [])
  {
    var a, b := s[..p], s[p..];
    assert s == a + b;
    WithKeyAppend(a + [x], b, key, k);
    WithKeyAppend(a, [x], key, k);
    WithKeyAppend(a, b, key, k);
    WithKeySingle(x, key, k);
    var wa, wb, wx := WithKey(a, key, k), WithKey(b, key, k), WithKey([x], key, k);
    if key(x) == k {
      LaterKeysDiffer(s, p, x, key);
      WithKeyNone(b, key, k);
      assert wb == [] && wx == [x];
      assert wa + wx + wb == wa + wb + [x];
    } else {
      assert wx == [];
      assert wa + wx + wb == wa + wb + [];
    }
  }

  /** The elements after the insertion point have keys other than the
      inserted one's. */
  lemma LaterKeysDiffer(s: seq<string>, p: nat, x: string, key: string -> string)
    requires p <= |s|
    requires forall j :: p <= j < |s| ==> !StrLe(key(s[j]), key(x))
    ensures forall j :: 0 <= j < |s[p..]| ==> key(s[p..][j]) != key(x)
  {
    StrLeReflexive(key(x));
    forall j | 0 <= j < |s[p..]|
      ensures key(s[p..][j]) != key(x)
    {
      assert s[p..][j] == s[p + j];
    }
  }

  /** `files.sort(key=key_fn)`: a stable sort, written as an insertion
      sort. */
  method SortBy(selected: seq<string>, key: string -> string) returns (files: seq<string>)
    ensures SortedBy(files, key)
    ensures multiset(files) == multiset(selected)
    ensures forall k :: WithKey(files, key, k) == WithKey(selected, key, k)
  {
    files := [];
    var j := 0;
    while j < |selected|
      invariant j <= |selected|
      invariant SortedBy(files, key)
      invariant multiset(files) == multiset(selected[..j])
      invariant forall k :: WithKey(files, key, k) == WithKey(selected[..j], key, k)
    {
      var x := selected[j];
      var p := InsertionPoint(files, key, key(x));
      InsertSorted(files, p, x, key);
      InsertMultiset(files, p, x);
      assert selected[..j + 1] == selected[..j] + [x];
      forall k
        ensures WithKey(files[..p] + [x] + files[p..], key, k) == WithKey(selected[..j + 1], key, k)
      {
        InsertWithKey(files, p, x, key, k);
        WithKeyAppend(selected[..j], [x], key, k);
        WithKeySingle(x, key, k);
      }
      files := files[..p] + [x] + files[p..];
      j := j + 1;
    }
    assert selected[..j] == selected;
  }

  /** `list_rotated_files` over the names the directory lists: the rotated
      ones, joined to the directory, sorted stably by their stamp. */
  method ListRotatedFiles(names: seq<string>) returns (files: seq<string>)
    ensures SortedBy(files, SortKey)
    ensures multiset(files) == multiset(Selected(names))
    ensures forall k :: WithKey(files, SortKey, k) == WithKey(Selected(names), SortKey, k)
  {
    var selected: seq<string> := [];
    var i := 0;
    while i < |names|
      invariant i <= |names|
      invariant selected == Selected(names[..i])
    {
      assert names[..i + 1][..i] == names[..i];
      if RotatedStamp(names[i]).Some? {
        selected := selected + [PathJoin(Dir, names[i])];
      }
      i := i + 1;
    }
    assert names[..i] == names;
    files := SortBy(selected, SortKey);
  }

  // ---------------------------------------------------------------------
  // `follow_active_binary`: a byte buffer split at line feeds
  // ---------------------------------------------------------------------

  type byte = b: int | 0 <= b < 256

  const Newline: byte := 10

  /** `buf.find(b"\n")`: the first line feed, if any. */
  function FindNewline(b: seq<byte>): (r: Option<nat>)
    ensures r.Some? ==> r.value < |b| && b[r.value] == Newline && Newline !in b[..r.value]
    ensures r.None? <==> Newline !in b
  {
    if b == [] then None
    else if b[0] == Newline then Some(0)
    else match FindNewline(b[1..])
      case None => None
      case Some(j) =>
        assert b[..j + 1] == [b[0]] + b[1..][..j];
        Some(j + 1)
  }

  /** A complete line: it ends in its only line feed. */
  predicate IsLine(l: seq<byte>) {
    |l| >= 1 && l[|l| - 1] == Newline && Newline !in l[..|l| - 1]
  }

  function Concat<T>(ls: seq<seq<T>>): seq<T> {
    if ls == [] then [] else ls[0] + Concat(ls[1..])
  }

  lemma {:induction false} ConcatAppend<T>(a: seq<seq<T>>, b: seq<seq<T>>)
    ensures Concat(a + b) == Concat(a) + Concat(b)
  {
    if a != [] {
      assert (a + b)[0] == a[0];
      assert (a + b)[1..] == a[1..] + b;
      ConcatAppend(a[1..], b);
    } else {
      assert a + b == b;
    }
  }

  lemma ConcatSingle<T>(x: seq<T>)
    ensures Concat([x]) == x
  {
    assert [x][1..] == [];
  }

  /** The inner loop run to the end: the complete lines in order, and the
      partial tail that stays buffered. */
  function SplitLines(b: seq<byte>): (r: (seq<seq<byte>>, seq<byte>))
    ensures Concat(r.0) + r.1 == b
    ensures forall j :: 0 <= j < |r.0| ==> IsLine(r.0[j])
    ensures Newline !in r.1
    decreases |b|
  {
    match FindNewline(b)
    case None => ([], b)
    case Some(nl) =>
      var rest := SplitLines(b[nl + 1..]);
      SplitLinesCons(b, nl, rest.0, rest.1);
      FoundLine(b, nl);
      ConsLines(b[..nl + 1], rest.0);
      ([b[..nl + 1]] + rest.0, rest.1)
  }

  /** One step of the split: the first line, then the split of the rest. */
  lemma SplitLinesCons(b: seq<byte>, nl: nat, ls: seq<seq<byte>>, tail: seq<byte>)
    requires nl < |b|
    requires Concat(ls) + tail == b[nl + 1..]
    ensures Concat([b[..nl + 1]] + ls) + tail == b
  {
    var line := b[..nl + 1];
    var after := b[nl + 1..];
    ConsConcat(line, ls);
    assert b == line + after;
    AppendAssoc(line, Concat(ls), tail);
  }

  /** The bytes up to the first line feed form a line. */
  lemma FoundLine(b: seq<byte>, nl: nat)
    requires nl < |b| && b[nl] == Newline && Newline !in b[..nl]
    ensures IsLine(b[..nl + 1])
  {
    assert b[..nl + 1][..nl] == b[..nl];
  }

  lemma AppendAssoc<T>(a: seq<T>, b: seq<T>, c: seq<T>)
    ensures a + b + c == a + (b + c)
  {
  }

  lemma ConsConcat<T>(x: seq<T>, ls: seq<seq<T>>)
    ensures Concat([x] + ls) == x + Concat(ls)
  {
    assert ([x] + ls)[1..] == ls;
  }

  lemma ConsLines(line: seq<byte>, ls: seq<seq<byte>>)
    requires IsLine(line)
    requires forall j :: 0 <= j < |ls| ==> IsLine(ls[j])
    ensures var all := [line] + ls; forall j :: 0 <= j < |all| ==> IsLine(all[j])
  {
    var all := [line] + ls;
    forall j | 0 <= j < |all|
      ensures IsLine(all[j])
    {
      if j > 0 {
        assert all[j] == ls[j - 1];
      }
    }
  }

  /** The split is the only way to write the bytes as complete lines
      followed by a tail without a line feed. */
  lemma {:induction false} SplitLinesUnique(ls: seq<seq<byte>>, rest: seq<byte>)
    requires forall j :: 0 <= j < |ls| ==> IsLine(ls[j])
    requires Newline !in rest
    ensures SplitLines(Concat(ls) + rest) == (ls, rest)
  {
    var b := Concat(ls) + rest;
    if ls == [] {
      assert b == rest;
    } else {
      var l := ls[0];
      var tail := Concat(ls[1..]) + rest;
      assert b == l + tail;
      FirstLineFound(l, tail);
      assert b[|l|..] == tail;
      SplitLinesUnique(ls[1..], rest);
      assert b[..|l|] == l;
      assert [l] + ls[1..] == ls;
    }
  }

  lemma FirstLineFound(l: seq<byte>, tail: seq<byte>)
    requires IsLine(l)
    ensures FindNewline(l + tail) == Some(|l| - 1)
  {
    var b := l + tail;
    assert b[..|l| - 1] == l[..|l| - 1];
    FindNewlineAt(b, |l| - 1);
  }

  /** A line feed with none before it is the one found. */
  lemma {:induction false} FindNewlineAt(b: seq<byte>, k: nat)
    requires k < |b| && b[k] == Newline && Newline !in b[..k]
    ensures FindNewline(b) == Some(k)
  {
    if k > 0 {
      assert b[..k][0] == b[0];
      assert b[1..][..k - 1] == b[..k][1..];
      FindNewlineAt(b[1..], k - 1);
    }
  }

  /** The offsets yielded for `ls` read from `start`: each line's end. */
  function EndOffsets(start: int, ls: seq<seq<byte>>): (r: seq<int>)
    ensures |r| == |ls|
    decreases ls
  {
    if ls == [] then [] else [start + |ls[0]|] + EndOffsets(start + |ls[0]|, ls[1..])
  }

  lemma {:induction false} EndOffsetsAppend(start: int, a: seq<seq<byte>>, b: seq<seq<byte>>)
    ensures EndOffsets(start, a + b) == EndOffsets(start, a) + EndOffsets(start + |Concat(a)|, b)
    decreases a
  {
    if a == [] {
      assert a + b == b;
    } else {
      assert (a + b)[0] == a[0];
      assert (a + b)[1..] == a[1..] + b;
      EndOffsetsAppend(start + |a[0]|, a[1..], b);
    }
  }

  /** Each offset is the start plus the bytes of every line up to and
      including this one. */
  lemma {:induction false} EndOffsetsSum(start: int, ls: seq<seq<byte>>, j: nat)
    requires j < |ls|
    ensures EndOffsets(start, ls)[j] == start + |Concat(ls[..j + 1])|
    decreases j
  {
    if j == 0 {
      ConcatSingle(ls[0]);
      assert ls[..1] == [ls[0]];
    } else {
      EndOffsetsSum(start + |ls[0]|, ls[1..], j - 1);
      assert ls[..j + 1] == [ls[0]] + ls[1..][..j];
      ConcatAppend([ls[0]], ls[1..][..j]);
      ConcatSingle(ls[0]);
    }
  }

  /** Lines are never empty, so the offsets strictly increase. */
  lemma {:induction false} EndOffsetsIncrease(start: int, ls: seq<seq<byte>>)
    requires forall j :: 0 <= j < |ls| ==> IsLine(ls[j])
    ensures forall i, j :: 0 <= i < j < |EndOffsets(start, ls)| ==> EndOffsets(start, ls)[i] < EndOffsets(start, ls)[j]
    ensures forall j :: 0 <= j < |EndOffsets(start, ls)| ==> start < EndOffsets(start, ls)[j]
    decreases ls
  {
    if ls != [] {
      EndOffsetsIncrease(start + |ls[0]|, ls[1..]);
    }
  }

  /** Every line decoded, in order. */
  function DecodeAll(decode: seq<byte> -> string, ls: seq<seq<byte>>): (r: seq<string>)
    ensures |r| == |ls|
  {
    if ls == [] then [] else [decode(ls[0])] + DecodeAll(decode, ls[1..])
  }

  lemma {:induction false} DecodeAllAt(decode: seq<byte> -> string, ls: seq<seq<byte>>, j: nat)
    requires j < |ls|
    ensures DecodeAll(decode, ls)[j] == decode(ls[j])
  {
    if j > 0 {
      DecodeAllAt(decode, ls[1..], j - 1);
    }
  }

  lemma {:induction false} DecodeAllAppend(decode: seq<byte> -> string, a: seq<seq<byte>>, b: seq<seq<byte>>)
    ensures DecodeAll(decode, a + b) == DecodeAll(decode, a) + DecodeAll(decode, b)
  {
    if a == [] {
      assert a + b == b;
    } else {
      assert (a + b)[0] == a[0];
      assert (a + b)[1..] == a[1..] + b;
      DecodeAllAppend(decode, a[1..], b);
    }
  }

  /** Appending one line: the bytes grow by the line, and the offsets by
      the line's end. */
  lemma LineStep(start: int, got: seq<seq<byte>>, l: seq<byte>)
    ensures Concat(got + [l]) == Concat(got) + l
    ensures EndOffsets(start, got + [l]) == EndOffsets(start, got) + [start + |Concat(got)| + |l|]
  {
    ConcatAppend(got, [l]);
    ConcatSingle(l);
    EndOffsetsAppend(start, got, [l]);
    assert [l][1..] == [];
  }

  /** Appending a run of lines. */
  lemma LinesStep(start: int, got: seq<seq<byte>>, more: seq<seq<byte>>)
    ensures Concat(got + more) == Concat(got) + Concat(more)
    ensures EndOffsets(start, got + more) == EndOffsets(start, got) + EndOffsets(start + |Concat(got)|, more)
  {
    ConcatAppend(got, more);
    EndOffsetsAppend(start, got, more);
  }

  /** The inner loop of `follow_active_binary`: yields every complete line
      in `buf0`, decoded, with its end offset counted from `off0`, and keeps
      the partial tail. */
  method DrainLines(buf0: seq<byte>, off0: int, decode: seq<byte> -> string)
    returns (yielded: seq<string>, ends: seq<int>, buf: seq<byte>, off: int)
    ensures buf == SplitLines(buf0).1
    ensures yielded == DecodeAll(decode, SplitLines(buf0).0)
    ensures ends == EndOffsets(off0, SplitLines(buf0).0)
    ensures off == off0 + |Concat(SplitLines(buf0).0)|
  {
    buf := buf0;
    off := off0;
    yielded := [];
    ends := [];
    ghost var got: seq<seq<byte>> := [];
    while true
      invariant Concat(got) + buf == buf0
      invariant forall j :: 0 <= j < |got| ==> IsLine(got[j])
      invariant yielded == DecodeAll(decode, got)
      invariant ends == EndOffsets(off0, got)
      invariant off == off0 + |Concat(got)|
      decreases |buf|
    {
      var nl := FindNewline(buf);
      if nl.None? {
        break;
      }
      var lineBytes := buf[..nl.value + 1];
      assert lineBytes[..|lineBytes| - 1] == buf[..nl.value];
      LineStep(off0, got, lineBytes);
      DecodeAllAppend(decode, got, [lineBytes]);
      assert buf == lineBytes + buf[nl.value + 1..];
      AppendAssoc(Concat(got), lineBytes, buf[nl.value + 1..]);
      buf := buf[nl.value + 1..];
      off := off + |lineBytes|;
      yielded := yielded + [decode(lineBytes)];
      ends := ends + [off];
      got := got + [lineBytes];
    }
    SplitLinesUnique(got, buf);
  }

  /** The state of the tail after yielding the lines `read`: `buf` holds
      no line feed, and the lines and offsets yielded are those of `read`. */
  predicate Followed(offset: int, decode: seq<byte> -> string, read: seq<seq<byte>>, buf: seq<byte>,
                     lines: seq<string>, offsets: seq<int>, off: int)
  {
    && (forall j :: 0 <= j < |read| ==> IsLine(read[j]))
    && Newline !in buf
    && lines == DecodeAll(decode, read)
    && offsets == EndOffsets(offset, read)
    && off == offset + |Concat(read)|
  }

  /** `follow_active_binary(offset)` over the successive reads `chunks` (an
      empty read is the wait at the end of the file): the decoded lines it
      yields with their end offsets, and the bytes still buffered. */
  method FollowActive(offset: int, chunks: seq<seq<byte>>, decode: seq<byte> -> string)
    returns (lines: seq<string>, offsets: seq<int>, buf: seq<byte>)
    ensures buf == SplitLines(Concat(chunks)).1
    ensures lines == DecodeAll(decode, SplitLines(Concat(chunks)).0)
    ensures offsets == EndOffsets(offset, SplitLines(Concat(chunks)).0)
  {
    buf := [];
    lines := [];
    offsets := [];
    var off := offset;
    ghost var read: seq<seq<byte>> := [];
    var i := 0;
    while i < |chunks|
      invariant i <= |chunks|
      invariant Concat(read) + buf == Concat(chunks[..i])
      invariant Followed(offset, decode, read, buf, lines, offsets, off)
    {
      var chunk := chunks[i];
      ChunkStep(chunks, i);
      if chunk == [] {
        i := i + 1;
        continue;
      }
      buf, lines, offsets, off, read := TakeChunk(offset, decode, read, buf, chunk, lines, offsets, off);
      i := i + 1;
    }
    assert chunks[..i] == chunks;
    FollowedDone(offset, decode, read, buf, lines, offsets, off, Concat(chunks));
  }

  /** One read: the chunk is appended to `buf`, then every complete line
      is yielded. */
  method TakeChunk(offset: int, decode: seq<byte> -> string, ghost read: seq<seq<byte>>, buf: seq<byte>,
                   chunk: seq<byte>, lines: seq<string>, offsets: seq<int>, off: int)
    returns (buf': seq<byte>, lines': seq<string>, offsets': seq<int>, off': int, ghost read': seq<seq<byte>>)
    requires Followed(offset, decode, read, buf, lines, offsets, off)
    ensures Followed(offset, decode, read', buf', lines', offsets', off')
    ensures Concat(read') + buf' == Concat(read) + buf + chunk
  {
    var yielded, ends;
    yielded, ends, buf', off' := DrainLines(buf + chunk, off, decode);
    lines' := lines + yielded;
    offsets' := offsets + ends;
    ghost var more := SplitLines(buf + chunk).0;
    read' := read + more;
    FollowedAfterDrain(offset, decode, read, buf, chunk, lines, offsets, off, more, yielded, ends, buf', off');
  }

  lemma ChunkStep(chunks: seq<seq<byte>>, i: nat)
    requires i < |chunks|
    ensures Concat(chunks[..i + 1]) == Concat(chunks[..i]) + chunks[i]
    ensures chunks[i] == [] ==> Concat(chunks[..i + 1]) == Concat(chunks[..i])
  {
    assert chunks[..i + 1] == chunks[..i] + [chunks[i]];
    ConcatAppend(chunks[..i], [chunks[i]]);
    ConcatSingle(chunks[i]);
    if chunks[i] == [] {
      assert Concat(chunks[..i]) + chunks[i] == Concat(chunks[..i]);
    }
  }

  /** Once every read is taken, the lines yielded and the bytes buffered
      are the split of everything read. */
  lemma FollowedDone(offset: int, decode: seq<byte> -> string, read: seq<seq<byte>>, buf: seq<byte>,
                     lines: seq<string>, offsets: seq<int>, off: int, all: seq<byte>)
    requires Followed(offset, decode, read, buf, lines, offsets, off)
    requires Concat(read) + buf == all
    ensures buf == SplitLines(all).1
    ensures lines == DecodeAll(decode, SplitLines(all).0)
    ensures offsets == EndOffsets(offset, SplitLines(all).0)
  {
    SplitLinesUnique(read, buf);
  }

  /** The bytes read so far stay the lines taken plus the buffer, and
      every piece taken is still a line. */
  lemma BytesAfterDrain(read: seq<seq<byte>>, before: seq<byte>, chunk: seq<byte>,
                        more: seq<seq<byte>>, rest: seq<byte>)
    requires SplitLines(before + chunk) == (more, rest)
    requires forall j :: 0 <= j < |read| ==> IsLine(read[j])
    ensures Concat(read + more) + rest == Concat(read) + before + chunk
    ensures forall j :: 0 <= j < |read + more| ==> IsLine((read + more)[j])
    ensures Newline !in rest
  {
    ConcatAppend(read, more);
    AppendAssoc(Concat(read), before, chunk);
    AppendAssoc(Concat(read), Concat(more), rest);
    forall j | 0 <= j < |read + more|
      ensures IsLine((read + more)[j])
    {
      if j >= |read| {
        assert (read + more)[j] == more[j - |read|];
      } else {
        assert (read + more)[j] == read[j];
      }
    }
  }

  /** Draining the buffer keeps the follower's state: the lines and
      offsets yielded grow by those of the new lines. */
  lemma FollowedAfterDrain(offset: int, decode: seq<byte> -> string, read: seq<seq<byte>>, buf: seq<byte>,
                           chunk: seq<byte>, lines: seq<string>, offsets: seq<int>, off: int,
                           more: seq<seq<byte>>, yielded: seq<string>, ends: seq<int>, rest: seq<byte>, newOff: int)
    requires Followed(offset, decode, read, buf, lines, offsets, off)
    requires SplitLines(buf + chunk) == (more, rest)
    requires yielded == DecodeAll(decode, more)
    requires ends == EndOffsets(off, more)
    requires newOff == off + |Concat(more)|
    ensures Followed(offset, decode, read + more, rest, lines + yielded, offsets + ends, newOff)
    ensures Concat(read + more) + rest == Concat(read) + buf + chunk
  {
    BytesAfterDrain(read, buf, chunk, more, rest);
    DecodedAfterDrain(decode, read, more, lines, yielded);
    OffsetsAfterDrain(offset, read, more, offsets, ends, off, newOff);
  }

  lemma DecodedAfterDrain(decode: seq<byte> -> string, read: seq<seq<byte>>, more: seq<seq<byte>>,
                          lines: seq<string>, yielded: seq<string>)
    requires lines == DecodeAll(decode, read) && yielded == DecodeAll(decode, more)
    ensures lines + yielded == DecodeAll(decode, read + more)
  {
    DecodeAllAppend(decode, read, more);
  }

  lemma OffsetsAfterDrain(offset: int, read: seq<seq<byte>>, more: seq<seq<byte>>,
                          offsets: seq<int>, ends: seq<int>, off: int, newOff: int)
    requires offsets == EndOffsets(offset, read) && off == offset + |Concat(read)|
    requires ends == EndOffsets(off, more) && newOff == off + |Concat(more)|
    ensures offsets + ends == EndOffsets(offset, read + more)
    ensures newOff == offset + |Concat(read + more)|
  {
    LinesStep(offset, read, more);
  }

  // ---------------------------------------------------------------------
  // `read_whole_file_lines` and `stat_file`
  // ---------------------------------------------------------------------

  /** Where a line came from. The offset is `None` for gzip files; lines of
      the active file carry no size or mtime. */
  datatype SourcePos = SourcePos(path: string, inode: int, offset: Option<int>, size: Option<int>, mtime: Option<int>)

  predicate EndsWith(s: string, suffix: string) {
    |suffix| <= |s| && s[|s| - |suffix|..] == suffix
  }

  /** The byte offset of line `j` of a plain file: the re-encoded length of
      the lines before it. */
  function LineStart(lines: seq<string>, j: nat): nat
    requires j <= |lines|
  {
    Utf8Length(Concat(lines[..j]))
  }

  /** Consecutive starts differ by the length of the line between them. */
  lemma LineStartStep(lines: seq<string>, j: nat)
    requires j < |lines|
    ensures LineStart(lines, j + 1) == LineStart(lines, j) + Utf8Length(lines[j])
    ensures LineStart(lines, 0) == 0
  {
    assert lines[..j + 1] == lines[..j] + [lines[j]];
    ConcatAppend(lines[..j], [lines[j]]);
    ConcatSingle(lines[j]);
    Utf8LengthAppend(Concat(lines[..j]), lines[j]);
    assert lines[..0] == [];
  }

  /** `read_whole_file_lines(path)` for a file whose stat gave `inode`,
      `size` and `mtime` and whose text reads as `lines`: every line with
      its source position; a plain file's offsets are where the lines
      start, a gzip file's are `None`. */
  method ReadWholeFileLines(path: string, inode: int, size: int, mtime: int, lines: seq<string>)
    returns (out: seq<(string, SourcePos)>)
    ensures |out| == |lines|
    ensures forall j :: 0 <= j < |lines| ==> out[j].0 == lines[j]
    ensures forall j :: 0 <= j < |lines| ==>
      out[j].1 == SourcePos(path, inode, if EndsWith(path, ".gz") then None else Some(LineStart(lines, j)), Some(size), Some(mtime))
  {
    var isGz := EndsWith(path, ".gz");
    out := [];
    if isGz {
      for i := 0 to |lines|
        invariant |out| == i
        invariant forall j :: 0 <= j < i ==> out[j] == (lines[j], SourcePos(path, inode, None, Some(size), Some(mtime)))
      {
        out := out + [(lines[i], SourcePos(path, inode, None, Some(size), Some(mtime)))];
      }
    } else {
      var offset := 0;
      for i := 0 to |lines|
        invariant |out| == i
        invariant offset == LineStart(lines, i)
        invariant forall j :: 0 <= j < i ==> out[j] == (lines[j], SourcePos(path, inode, Some(LineStart(lines, j)), Some(size), Some(mtime)))
      {
        out := out + [(lines[i], SourcePos(path, inode, Some(offset), Some(size), Some(mtime)))];
        LineStartStep(lines, i);
        offset := offset + Utf8Length(lines[i]);
      }
    }
  }

  /** `int(st_mtime)`: truncation toward zero. */
  function MtimeSeconds(m: real): (r: int)
    ensures 0.0 <= m ==> r as real <= m < r as real + 1.0
    ensures m < 0.0 ==> r as real - 1.0 < m <= r as real
  {
    if m >= 0.0 then m.Floor else -((-m).Floor)
  }

  /** What `os.stat` reports about a file. */
  datatype FileStat = FileStat(inode: int, size: int, mtime: real)

  /** `stat_file`: inode, size and whole-second mtime. */
  function StatFile(st: FileStat): (int, int, int) {
    (st.inode, st.size, MtimeSeconds(st.mtime))
  }
}
