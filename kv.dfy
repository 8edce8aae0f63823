/**
 * The FortiGate key/value body grammar (`parse_kv`).
 *
 * The scan is specified as a list of (key, value) pairs read left to right
 * (`Pairs`), folded into a map where a later pair overwrites an earlier one
 * (`Apply`). `ParseKv` is the source's index scanner, proved to compute
 * exactly `KvSpec`.
 */
module Kv {
  import opened Text

  type Pair = (string, string)

  /** The first index at or after `i` that does not hold a space. */
  function SkipSpaces(b: string, i: nat): (j: nat)
    requires i <= |b|
    ensures i <= j <= |b|
    ensures j == |b| || b[j] != ' '
    decreases |b| - i
  {
    if i < |b| && b[i] == ' ' then SkipSpaces(b, i + 1) else i
  }

  /** The end of a key: the first `=` or space at or after `i`, or the end. */
  function KeyEnd(b: string, i: nat): (j: nat)
    requires i <= |b|
    ensures i <= j <= |b|
    ensures j == |b| || b[j] == '=' || b[j] == ' '
    decreases |b| - i
  {
    if i < |b| && b[i] != '=' && b[i] != ' ' then KeyEnd(b, i + 1) else i
  }

  /** The end of an unquoted value: the next space, or the end. */
  function UnquotedEnd(b: string, i: nat): (j: nat)
    requires i <= |b|
    ensures i <= j <= |b|
    ensures j == |b| || b[j] == ' '
    decreases |b| - i
  {
    if i < |b| && b[i] != ' ' then UnquotedEnd(b, i + 1) else i
  }

  /** The text of a quoted value whose opening quote sits just before `i`,
      and the index just past its closing quote (or the end of the body when
      the quote is never closed). A backslash with a character after it
      yields that character; a backslash at the very end is kept. */
  function QuotedValue(b: string, i: nat): (r: (string, nat))
    requires i <= |b|
    ensures i <= r.1 <= |b|
    decreases |b| - i
  {
    if i >= |b| then ("", |b|)
    else if b[i] == '\\' && i + 1 < |b| then
      var rest := QuotedValue(b, i + 2);
      ([b[i + 1]] + rest.0, rest.1)
    else if b[i] == '"' then ("", i + 1)
    else
      var rest := QuotedValue(b, i + 1);
      ([b[i]] + rest.0, rest.1)
  }

  /** The value that starts at `i` (just after `=`) and the index after it. */
  function ValueAt(b: string, i: nat): (r: (string, nat))
    requires i <= |b|
    ensures i <= r.1 <= |b|
  {
    if i < |b| && b[i] == '"' then QuotedValue(b, i + 1)
    else (b[i..UnquotedEnd(b, i)], UnquotedEnd(b, i))
  }

  /** The token that starts after the spaces at `i`: its pair and the index
      after its value, or nothing when the body ends or the token is not
      `key=` with a non-empty key. */
  function NextPair(b: string, i: nat): (r: Option<(Pair, nat)>)
    requires i <= |b|
    ensures r.Some? ==> i < r.value.1 <= |b|
  {
    var j := SkipSpaces(b, i);
    if j >= |b| then None
    else
      var k := KeyEnd(b, j);
      if k == j || k >= |b| || b[k] != '=' then None
      else
        var v := ValueAt(b, k + 1);
        Some(((b[j..k], v.0), v.1))
  }

  /** The pairs read from index `i` on. The scan ends at the end of the body
      or at the first token that is not `key=` with a non-empty key. */
  function Pairs(b: string, i: nat): seq<Pair>
    requires i <= |b|
    decreases |b| - i
  {
    match NextPair(b, i)
    case None => []
    case Some(next) => [next.0] + Pairs(b, next.1)
  }

  /** Stores the pairs into `m` in order, so a later key overwrites. */
  function Apply(m: map<string, string>, ps: seq<Pair>): map<string, string>
    decreases |ps|
  {
    if ps == [] then m else Apply(m[ps[0].0 := ps[0].1], ps[1..])
  }

  /** The map `parse_kv(body)` returns. */
  function KvSpec(body: string): map<string, string> {
    Apply(map[], Pairs(body, 0))
  }

  predicate WellFormedKey(k: string) {
    k != [] && '=' !in k && ' ' !in k
  }

  /** The value of the last pair whose key is `k`. */
  function LastValue(ps: seq<Pair>, k: string): (r: Option<string>)
    ensures r.Some? ==> (k, r.value) in ps
    ensures r.None? ==> forall p :: p in ps ==> p.0 != k
    decreases |ps|
  {
    if ps == [] then None
    else if ps[|ps| - 1].0 == k then Some(ps[|ps| - 1].1)
    else LastValue(ps[..|ps| - 1], k)
  }

  // ---------------------------------------------------------------------
  // The imperative scanner of the source
  // ---------------------------------------------------------------------

  /** `parse_kv`: the nested index loops of the source, building the map in
      place. It returns exactly the map the grammar above describes. */
  method ParseKv(body: string) returns (out: map<string, string>)
    ensures out == KvSpec(body)
  {
    out := map[];
    var n := |body|;
    var i: nat := 0;
    while i < n
      invariant i <= n
      invariant Apply(out, Pairs(body, i)) == KvSpec(body)
      decreases n - i
    {
      var start := i;
      i := SkipSpaceRun(body, i);
      if i >= n {
        ScanEnds(body, start, i, i);
        break;
      }
      var keyStart := i;
      i := ReadKey(body, i);
      var key := body[keyStart..i];
      if key == [] || i >= n || body[i] != '=' {
        ScanEnds(body, start, keyStart, i);
        break;
      }
      var keyEnd := i;
      i := i + 1;
      var value;
      value, i := ReadValue(body, i);
      var valueEnd := i;
      i := SkipSpaceRun(body, i);
      ScanStep(body, start, keyStart, keyEnd, valueEnd, i, out, value);
      out := out[key := value];
    }
  }

  /** The value after `=`: quoted when it opens with `"`, else up to the
      next space. */
  method ReadValue(body: string, start: nat) returns (value: string, i: nat)
    requires start <= |body|
    ensures value == ValueAt(body, start).0 && i == ValueAt(body, start).1
  {
    if start < |body| && body[start] == '"' {
      value, i := ReadQuoted(body, start + 1);
    } else {
      value, i := ReadUnquoted(body, start);
    }
  }

  /** Skips a run of spaces. */
  method SkipSpaceRun(body: string, start: nat) returns (i: nat)
    requires start <= |body|
    ensures i == SkipSpaces(body, start)
  {
    i := start;
    while i < |body| && body[i] == ' '
      invariant start <= i <= |body|
      invariant SkipSpaces(body, i) == SkipSpaces(body, start)
    {
      i := i + 1;
    }
  }

  /** Reads a key: up to `=`, a space or the end. */
  method ReadKey(body: string, start: nat) returns (i: nat)
    requires start <= |body|
    ensures i == KeyEnd(body, start)
  {
    i := start;
    while i < |body| && body[i] != '=' && body[i] != ' '
      invariant start <= i <= |body|
      invariant KeyEnd(body, i) == KeyEnd(body, start)
    {
      i := i + 1;
    }
  }

  /** Reads an unquoted value: up to a space or the end. */
  method ReadUnquoted(body: string, start: nat) returns (value: string, i: nat)
    requires start <= |body|
    ensures i == UnquotedEnd(body, start) && value == body[start..i]
  {
    i := start;
    while i < |body| && body[i] != ' '
      invariant start <= i <= |body|
      invariant UnquotedEnd(body, i) == UnquotedEnd(body, start)
    {
      i := i + 1;
    }
    value := body[start..i];
  }

  /** The outer loop of `parse_kv` stops: the body is used up, or the token
      at `j` has an empty key or no `=`. */
  lemma ScanEnds(body: string, start: nat, j: nat, k: nat)
    requires start <= j <= k <= |body|
    requires SkipSpaces(body, start) == j
    requires j < |body| ==> KeyEnd(body, j) == k && (k == j || k == |body| || body[k] != '=')
    ensures Pairs(body, start) == []
  {
  }

  /** One iteration of the outer loop of `parse_kv` stores the pair it read
      and leaves the rest of the scan to the next iteration. */
  lemma ScanStep(body: string, start: nat, j: nat, k: nat, e: nat, i: nat,
                 out: map<string, string>, value: string)
    requires start <= j < k < e <= i <= |body|
    requires SkipSpaces(body, start) == j && KeyEnd(body, j) == k && body[k] == '='
    requires ValueAt(body, k + 1).0 == value && ValueAt(body, k + 1).1 == e
    requires SkipSpaces(body, e) == i
    ensures Apply(out, Pairs(body, start)) == Apply(out[body[j..k] := value], Pairs(body, i))
  {
    assert NextPair(body, start) == Some(((body[j..k], value), e));
    PairsSkipSpaces(body, e);
    var rest := Pairs(body, i);
    assert Pairs(body, start) == [(body[j..k], value)] + rest;
    assert ([(body[j..k], value)] + rest)[1..] == rest;
  }

  /** The quoted-value loop of `parse_kv`: collects the value's characters
      from `q` (just past the opening quote) up to and past the closing
      quote. */
  method ReadQuoted(body: string, q: nat) returns (value: string, i: nat)
    requires q <= |body|
    ensures value == QuotedValue(body, q).0 && i == QuotedValue(body, q).1
  {
    var n := |body|;
    i := q;
    var chars: string := [];
    assert chars + QuotedValue(body, i).0 == QuotedValue(body, q).0;
    while i < n
      invariant q <= i <= n
      invariant QuotedValue(body, q) == (chars + QuotedValue(body, i).0, QuotedValue(body, i).1)
      decreases n - i
    {
      var ch := body[i];
      ghost var rest := QuotedValue(body, i);
      if ch == '\\' && i + 1 < n {
        assert rest.0 == [body[i + 1]] + QuotedValue(body, i + 2).0;
        assert chars + rest.0 == (chars + [body[i + 1]]) + QuotedValue(body, i + 2).0;
        chars := chars + [body[i + 1]];
        i := i + 2;
        continue;
      }
      if ch == '"' {
        assert rest == ("", i + 1);
        assert chars + rest.0 == chars;
        i := i + 1;
        return chars, i;
      }
      assert rest.0 == [ch] + QuotedValue(body, i + 1).0;
      assert chars + rest.0 == (chars + [ch]) + QuotedValue(body, i + 1).0;
      chars := chars + [ch];
      i := i + 1;
    }
    assert chars + QuotedValue(body, i).0 == chars;
    value := chars;
  }

  // ---------------------------------------------------------------------
  // Properties of the grammar
  // ---------------------------------------------------------------------

  /** Leading spaces do not change what is read. */
  lemma PairsSkipSpaces(b: string, i: nat)
    requires i <= |b|
    ensures Pairs(b, i) == Pairs(b, SkipSpaces(b, i))
  {
    var j := SkipSpaces(b, i);
    assert SkipSpaces(b, j) == j;
    assert NextPair(b, i) == NextPair(b, j);
  }

  /** No character of a key is `=` or a space. */
  lemma {:induction false} KeyEndChars(b: string, i: nat)
    requires i <= |b|
    ensures forall t :: i <= t < KeyEnd(b, i) ==> b[t] != '=' && b[t] != ' '
    decreases |b| - i
  {
    if i < |b| && b[i] != '=' && b[i] != ' ' {
      KeyEndChars(b, i + 1);
    }
  }

  lemma NextPairKey(b: string, i: nat)
    requires i <= |b|
    requires NextPair(b, i).Some?
    ensures WellFormedKey(NextPair(b, i).value.0.0)
  {
    var j := SkipSpaces(b, i);
    var k := KeyEnd(b, j);
    var key := b[j..k];
    KeyEndChars(b, j);
    forall c | c in key ensures c != '=' && c != ' ' {
      var t :| 0 <= t < |key| && key[t] == c;
      assert key[t] == b[j + t];
    }
  }

  lemma {:induction false} PairsKeysWellFormed(b: string, i: nat)
    requires i <= |b|
    ensures forall p :: p in Pairs(b, i) ==> WellFormedKey(p.0)
    decreases |b| - i
  {
    var next := NextPair(b, i);
    if next.Some? {
      NextPairKey(b, i);
      PairsKeysWellFormed(b, next.value.1);
    }
  }

  lemma {:induction false} ApplySnoc(m: map<string, string>, ps: seq<Pair>, p: Pair)
    ensures Apply(m, ps + [p]) == Apply(m, ps)[p.0 := p.1]
    decreases |ps|
  {
    if ps == [] {
      assert ps + [p] == [p];
    } else {
      assert (ps + [p])[1..] == ps[1..] + [p];
      ApplySnoc(m[ps[0].0 := ps[0].1], ps[1..], p);
    }
  }

  /** A key of the fold is a key of `m` or of some pair, and holds the value
      of the LAST pair that has it: a repeated key keeps the later value. */
  lemma {:induction false} ApplyLookup(m: map<string, string>, ps: seq<Pair>, k: string)
    ensures k in Apply(m, ps) <==> LastValue(ps, k).Some? || k in m
    ensures LastValue(ps, k).Some? ==> Apply(m, ps)[k] == LastValue(ps, k).value
    ensures LastValue(ps, k).None? && k in m ==> Apply(m, ps)[k] == m[k]
    decreases |ps|
  {
    if ps != [] {
      var init := ps[..|ps| - 1];
      var last := ps[|ps| - 1];
      assert ps == init + [last];
      ApplySnoc(m, init, last);
      ApplyLookup(m, init, k);
    }
  }

  /** Every key `parse_kv` returns is non-empty and holds neither `=` nor a
      space. */
  lemma KvKeysWellFormed(body: string)
    ensures forall k :: k in KvSpec(body) ==> WellFormedKey(k)
  {
    PairsKeysWellFormed(body, 0);
    forall k | k in KvSpec(body) ensures WellFormedKey(k) {
      ApplyLookup(map[], Pairs(body, 0), k);
    }
  }

  /** The map holds exactly the keys read, each with the value of its last
      occurrence in the body. */
  lemma KvLastValueWins(body: string, k: string)
    ensures k in KvSpec(body) <==> LastValue(Pairs(body, 0), k).Some?
    ensures k in KvSpec(body) ==> KvSpec(body)[k] == LastValue(Pairs(body, 0), k).value
  {
    ApplyLookup(map[], Pairs(body, 0), k);
  }

  // ---------------------------------------------------------------------
  // Locality: the scanners only look at the text from their start index on
  // ---------------------------------------------------------------------

  lemma {:induction false} SkipSpacesShift(x: string, y: string, i: nat)
    requires i <= |y|
    ensures SkipSpaces(x + y, |x| + i) == |x| + SkipSpaces(y, i)
    decreases |y| - i
  {
    if i < |y| && y[i] == ' ' {
      SkipSpacesShift(x, y, i + 1);
    }
  }

  lemma {:induction false} KeyEndShift(x: string, y: string, i: nat)
    requires i <= |y|
    ensures KeyEnd(x + y, |x| + i) == |x| + KeyEnd(y, i)
    decreases |y| - i
  {
    if i < |y| && y[i] != '=' && y[i] != ' ' {
      KeyEndShift(x, y, i + 1);
    }
  }

  lemma {:induction false} UnquotedEndShift(x: string, y: string, i: nat)
    requires i <= |y|
    ensures UnquotedEnd(x + y, |x| + i) == |x| + UnquotedEnd(y, i)
    decreases |y| - i
  {
    if i < |y| && y[i] != ' ' {
      UnquotedEndShift(x, y, i + 1);
    }
  }

  lemma {:induction false} QuotedValueShift(x: string, y: string, i: nat)
    requires i <= |y|
    ensures QuotedValue(x + y, |x| + i) == (QuotedValue(y, i).0, |x| + QuotedValue(y, i).1)
    decreases |y| - i
  {
    if i < |y| {
      if y[i] == '\\' && i + 1 < |y| {
        QuotedValueShift(x, y, i + 2);
      } else if y[i] != '"' {
        QuotedValueShift(x, y, i + 1);
      }
    }
  }

  lemma ValueAtShift(x: string, y: string, i: nat)
    requires i <= |y|
    ensures ValueAt(x + y, |x| + i) == (ValueAt(y, i).0, |x| + ValueAt(y, i).1)
  {
    if i < |y| && y[i] == '"' {
      QuotedValueShift(x, y, i + 1);
    } else {
      UnquotedEndShift(x, y, i);
      SliceShift(x, y, i, UnquotedEnd(y, i));
    }
  }

  lemma SliceShift(x: string, y: string, i: nat, j: nat)
    requires i <= j <= |y|
    ensures (x + y)[|x| + i..|x| + j] == y[i..j]
  {
  }

  lemma NextPairShift(x: string, y: string, i: nat)
    requires i <= |y|
    ensures NextPair(y, i).None? ==> NextPair(x + y, |x| + i).None?
    ensures NextPair(y, i).Some? ==>
      NextPair(x + y, |x| + i) == Some((NextPair(y, i).value.0, |x| + NextPair(y, i).value.1))
  {
    SkipSpacesShift(x, y, i);
    var j := SkipSpaces(y, i);
    if j < |y| {
      KeyEndShift(x, y, j);
      var k := KeyEnd(y, j);
      if k != j && k < |y| && y[k] == '=' {
        NextPairShiftFound(x, y, i, j, k);
      } else {
        NextPairShiftNoKey(x, y, i, j, k);
      }
    } else {
      NextPairAtEnd(y, i);
      NextPairAtEnd(x + y, |x| + i);
    }
  }

  lemma NextPairShiftFound(x: string, y: string, i: nat, j: nat, k: nat)
    requires i <= |y| && j == SkipSpaces(y, i) && j < |y|
    requires k == KeyEnd(y, j) && k != j && k < |y| && y[k] == '='
    requires SkipSpaces(x + y, |x| + i) == |x| + j && KeyEnd(x + y, |x| + j) == |x| + k
    ensures NextPair(y, i) == Some(((y[j..k], ValueAt(y, k + 1).0), ValueAt(y, k + 1).1))
    ensures NextPair(x + y, |x| + i) == Some(((y[j..k], ValueAt(y, k + 1).0), |x| + ValueAt(y, k + 1).1))
  {
    assert (x + y)[|x| + k] == '=';
    NextPairFound(y, i, j, k);
    NextPairFound(x + y, |x| + i, |x| + j, |x| + k);
    ValueAtShift(x, y, k + 1);
    SliceShift(x, y, j, k);
  }

  lemma NextPairShiftNoKey(x: string, y: string, i: nat, j: nat, k: nat)
    requires i <= |y| && j == SkipSpaces(y, i) && j < |y| && k == KeyEnd(y, j)
    requires !(k != j && k < |y| && y[k] == '=')
    requires SkipSpaces(x + y, |x| + i) == |x| + j && KeyEnd(x + y, |x| + j) == |x| + k
    ensures NextPair(y, i).None? && NextPair(x + y, |x| + i).None?
  {
    assert k < |y| ==> (x + y)[|x| + k] == y[k];
    NextPairNoKey(y, i, j, k);
    NextPairNoKey(x + y, |x| + i, |x| + j, |x| + k);
  }

  /** A token without `key=` ends the scan. */
  lemma NextPairNoKey(b: string, i: nat, j: nat, k: nat)
    requires i <= |b| && j == SkipSpaces(b, i) && j < |b| && k == KeyEnd(b, j)
    requires k == j || k >= |b| || b[k] != '='
    ensures NextPair(b, i).None?
  {
  }

  /** Only spaces are left: the scan ends. */
  lemma NextPairAtEnd(b: string, i: nat)
    requires i <= |b| && SkipSpaces(b, i) >= |b|
    ensures NextPair(b, i).None?
  {
  }

  /** A key ending in `=` at `k`, after the spaces skipped from `i`, is
      read as a pair whose value starts after the `=`. */
  lemma NextPairFound(b: string, i: nat, j: nat, k: nat)
    requires i <= |b| && j == SkipSpaces(b, i) && j < |b|
    requires k == KeyEnd(b, j) && k != j && k < |b| && b[k] == '='
    ensures NextPair(b, i) == Some(((b[j..k], ValueAt(b, k + 1).0), ValueAt(b, k + 1).1))
  {
  }

  /** One step of the scan, as an equation. */
  lemma PairsUnfold(b: string, i: nat)
    requires i <= |b| && NextPair(b, i).Some?
    ensures Pairs(b, i) == [NextPair(b, i).value.0] + Pairs(b, NextPair(b, i).value.1)
  {
  }

  lemma {:induction false} PairsShift(x: string, y: string, i: nat)
    requires i <= |y|
    ensures Pairs(x + y, |x| + i) == Pairs(y, i)
    decreases |y| - i
  {
    NextPairShift(x, y, i);
    var b := x + y;
    var next := NextPair(y, i);
    if next.Some? {
      var p, e := next.value.0, next.value.1;
      PairsShift(x, y, e);
      PairsShiftStep(x, y, i, p, e);
    } else {
      PairsEnd(y, i);
      PairsEnd(b, |x| + i);
    }
  }

  /** One pair read at the same place in both bodies, and the same pairs
      after it, give the same pairs. */
  lemma PairsShiftStep(x: string, y: string, i: nat, p: Pair, e: nat)
    requires i <= |y| && e <= |y|
    requires NextPair(y, i) == Some((p, e))
    requires NextPair(x + y, |x| + i) == Some((p, |x| + e))
    requires Pairs(x + y, |x| + e) == Pairs(y, e)
    ensures Pairs(x + y, |x| + i) == Pairs(y, i)
  {
    PairsUnfold(y, i);
    PairsUnfold(x + y, |x| + i);
  }

  /** The scan stops where no pair is read. */
  lemma PairsEnd(b: string, i: nat)
    requires i <= |b| && NextPair(b, i).None?
    ensures Pairs(b, i) == []
  {
  }

  // ---------------------------------------------------------------------
  // Quoted values and the escaping they undo
  // ---------------------------------------------------------------------

  /** Escapes `"` and `\` with a backslash, the form a quoted value takes. */
  function Escape(v: string): string {
    if v == [] then []
    else EscapeChar(v[0]) + Escape(v[1..])
  }

  function EscapeChar(c: char): string {
    if c == '"' || c == '\\' then ['\\', c] else [c]
  }

  /** One escaped character reads back as itself. */
  lemma QuotedEscapedChar(c: char, tail: string)
    ensures QuotedValue(EscapeChar(c) + tail, 0) ==
      ([c] + QuotedValue(tail, 0).0, |EscapeChar(c)| + QuotedValue(tail, 0).1)
  {
    var head := EscapeChar(c);
    var s := head + tail;
    QuotedValueShift(head, tail, 0);
    if c == '"' || c == '\\' {
      assert s[0] == '\\' && s[1] == c && |s| > 1;
    } else {
      assert s[0] == c;
    }
  }

  /** Reading an escaped text yields the text back and continues with
      whatever follows it. */
  lemma {:induction false} QuotedAfterEscape(v: string, t: string)
    ensures QuotedValue(Escape(v) + t, 0).0 == v + QuotedValue(t, 0).0
    ensures QuotedValue(Escape(v) + t, 0).1 == |Escape(v)| + QuotedValue(t, 0).1
    decreases |v|
  {
    if v == [] {
      assert Escape(v) + t == t;
    } else {
      var head := EscapeChar(v[0]);
      var tail := Escape(v[1..]) + t;
      EscapeSplit(v, t);
      QuotedAfterEscape(v[1..], t);
      QuotedEscapedChar(v[0], tail);
      ConsAppend(v, QuotedValue(t, 0).0);
    }
  }

  lemma EscapeSplit(v: string, t: string)
    requires v != []
    ensures Escape(v) + t == EscapeChar(v[0]) + (Escape(v[1..]) + t)
  {
    var head, rest := EscapeChar(v[0]), Escape(v[1..]);
    assert Escape(v) == head + rest;
    ConcatAssoc(head, rest, t);
  }

  lemma ConcatAssoc(a: string, b: string, c: string)
    ensures (a + b) + c == a + (b + c)
  {
  }

  lemma ConsAppend(v: string, w: string)
    requires v != []
    ensures [v[0]] + (v[1..] + w) == v + w
  {
    assert v == [v[0]] + v[1..];
  }

  /** An escaped text closed by an unescaped `"` reads back exactly, and the
      value ends just past that quote. */
  lemma QuotedClosed(v: string, rest: string)
    ensures QuotedValue(Escape(v) + "\"" + rest, 0) == (v, |Escape(v)| + 1)
  {
    QuotedAfterEscape(v, "\"" + rest);
    assert Escape(v) + "\"" + rest == Escape(v) + ("\"" + rest);
    assert v + "" == v;
  }

  /** A quote never closed runs to the end of the body. */
  lemma QuotedUnterminated(v: string)
    ensures QuotedValue(Escape(v), 0) == (v, |Escape(v)|)
  {
    QuotedAfterEscape(v, "");
    assert Escape(v) + "" == Escape(v);
    assert v + "" == v;
  }

  /** A lone backslash at the end of the body is kept literally. */
  lemma QuotedTrailingBackslash(v: string)
    ensures QuotedValue(Escape(v) + "\\", 0) == (v + "\\", |Escape(v)| + 1)
  {
    QuotedAfterEscape(v, "\\");
    var t := QuotedValue("\\", 0);
    assert t.0 == ['\\'] + QuotedValue("\\", 1).0;
    assert t.0 == "\\";
  }

  // ---------------------------------------------------------------------
  // Rendering pairs and reading them back
  // ---------------------------------------------------------------------

  /** How a value is written: `key="value"` with escapes, or bare
      `key=value`. */
  datatype Style = Quoted | Plain

  /** A value that can be written bare: no space, and not starting with a
      quote. */
  predicate PlainValue(v: string) {
    ' ' !in v && (v == [] || v[0] != '"')
  }

  predicate Renderable(p: Pair, style: Style) {
    WellFormedKey(p.0) && (style == Plain ==> PlainValue(p.1))
  }

  /** One token. */
  function Token(p: Pair, style: Style): string {
    match style
    case Quoted => p.0 + "=\"" + Escape(p.1) + "\""
    case Plain => p.0 + "=" + p.1
  }

  /** Tokens joined by single spaces. */
  function Render(ps: seq<Pair>, style: Style): string
    decreases |ps|
  {
    if ps == [] then ""
    else if |ps| == 1 then Token(ps[0], style)
    else Token(ps[0], style) + " " + Render(ps[1..], style)
  }

  /** A key with neither `=` nor a space, followed by `=`, ends at the `=`. */
  lemma {:induction false} KeyEndPrefix(k: string, y: string, i: nat)
    requires WellFormedKey(k) && i <= |k|
    requires y != [] && y[0] == '='
    ensures KeyEnd(k + y, i) == |k|
    decreases |k| - i
  {
    var b := k + y;
    if i < |k| {
      assert b[i] == k[i] && k[i] in k;
      KeyEndPrefix(k, y, i + 1);
    } else {
      assert b[|k|] == '=';
    }
  }

  /** The first token of a rendered body is read back, and the scan goes on
      right after it. */
  lemma FirstTokenRead(p: Pair, style: Style, rest: string)
    requires Renderable(p, style)
    requires rest == [] || rest[0] == ' '
    ensures NextPair(Token(p, style) + rest, 0) == Some((p, |Token(p, style)|))
  {
    if style == Quoted {
      QuotedTokenRead(p.0, p.1, rest);
    } else {
      PlainTokenRead(p.0, p.1, rest);
    }
  }

  lemma QuotedTokenRead(k: string, v: string, rest: string)
    requires WellFormedKey(k)
    ensures var t := k + "=\"" + Escape(v) + "\"";
      NextPair(t + rest, 0) == Some(((k, v), |t|))
  {
    var e := Escape(v);
    var t := k + "=\"" + e + "\"";
    var z := "\"" + (e + "\"" + rest);
    QuotedTokenSplit(k, e, rest);
    QuotedValueRead(v, rest);
    KeyValueRead(k, z);
  }

  lemma QuotedTokenSplit(k: string, e: string, rest: string)
    ensures k + "=\"" + e + "\"" + rest == k + "=" + ("\"" + (e + "\"" + rest))
    ensures |k + "=\"" + e + "\""| == |k| + 1 + (|e| + 2)
  {
  }

  /** An opening quote, the escaped value and a closing quote read back as
      the value. */
  lemma QuotedValueRead(v: string, rest: string)
    ensures ValueAt("\"" + (Escape(v) + "\"" + rest), 0) == (v, |Escape(v)| + 2)
  {
    var w := Escape(v) + "\"" + rest;
    var z := "\"" + w;
    assert z[0] == '"';
    assert ValueAt(z, 0) == QuotedValue(z, 1);
    QuotedValueShift("\"", w, 0);
    QuotedClosed(v, rest);
  }

  lemma PlainTokenRead(k: string, v: string, rest: string)
    requires WellFormedKey(k) && PlainValue(v)
    requires rest == [] || rest[0] == ' '
    ensures NextPair(k + "=" + v + rest, 0) == Some(((k, v), |k + "=" + v|))
  {
    var z := v + rest;
    PlainValueRead(v, rest);
    ConcatAssoc(k + "=", v, rest);
    KeyValueRead(k, z);
    assert |k + "=" + v| == |k| + 1 + |v|;
  }

  /** A well-formed key, `=`, and whatever the value scanner reads. */
  lemma KeyValueRead(k: string, z: string)
    requires WellFormedKey(k)
    ensures NextPair(k + "=" + z, 0) ==
      Some(((k, ValueAt(z, 0).0), |k| + 1 + ValueAt(z, 0).1))
  {
    var b := k + "=" + z;
    assert b == (k + "=") + z;
    assert b[0] == k[0] && k[0] in k;
    assert SkipSpaces(b, 0) == 0;
    assert b == k + ("=" + z);
    KeyEndPrefix(k, "=" + z, 0);
    ValueAtShift(k + "=", z, 0);
    assert b[0..|k|] == k;
  }

  /** A run of non-spaces from `i` to a space or the end is an unquoted
      value. */
  lemma {:induction false} UnquotedEndRun(b: string, i: nat, j: nat)
    requires i <= j <= |b|
    requires forall t :: i <= t < j ==> b[t] != ' '
    requires j == |b| || b[j] == ' '
    ensures UnquotedEnd(b, i) == j
    decreases j - i
  {
    if i < j {
      UnquotedEndRun(b, i + 1, j);
    }
  }

  /** A bare value runs to the next space. */
  lemma PlainValueRead(v: string, rest: string)
    requires PlainValue(v)
    requires rest == [] || rest[0] == ' '
    ensures ValueAt(v + rest, 0) == (v, |v|)
  {
    var b := v + rest;
    forall t | 0 <= t < |v| ensures b[t] != ' ' {
      assert b[t] == v[t] && v[t] in v;
    }
    UnquotedEndRun(b, 0, |v|);
    assert b[0..|v|] == v;
    if v == [] {
      assert b == rest;
    }
  }

  /** Reading a rendered body gives back every pair, in order. */
  lemma {:induction false} RenderRoundTrip(ps: seq<Pair>, style: Style)
    requires forall p :: p in ps ==> Renderable(p, style)
    ensures Pairs(Render(ps, style), 0) == ps
    decreases |ps|
  {
    if ps == [] {
      assert NextPair("", 0).None?;
      PairsEnd("", 0);
    } else if |ps| == 1 {
      assert ps == [ps[0]];
      RenderSingle(ps[0], style);
    } else {
      var rest := ps[1..];
      assert ps[0] in ps;
      assert forall p :: p in rest ==> p in ps;
      assert [ps[0]] + rest == ps;
      RenderCons(ps[0], rest, style);
      RenderRoundTrip(rest, style);
      assert Pairs(Render(ps, style), 0) == [ps[0]] + rest;
    }
  }

  /** A single token reads back as its pair. */
  lemma RenderSingle(p: Pair, style: Style)
    requires Renderable(p, style)
    ensures Pairs(Render([p], style), 0) == [p]
  {
    var t := Token(p, style);
    assert Render([p], style) == t;
    FirstTokenRead(p, style, "");
    assert t + "" == t;
    assert NextPair(t, |t|).None?;
    PairsUnfold(t, 0);
  }

  /** The first token of a rendering of two or more pairs is read, then the
      rest reads as its own rendering. */
  lemma RenderCons(p: Pair, ps: seq<Pair>, style: Style)
    requires Renderable(p, style) && ps != []
    ensures Pairs(Render([p] + ps, style), 0) == [p] + Pairs(Render(ps, style), 0)
  {
    var t := Token(p, style);
    var r := Render(ps, style);
    assert ([p] + ps)[1..] == ps;
    var b := t + " " + r;
    assert Render([p] + ps, style) == b;
    assert b == t + (" " + r);
    FirstTokenRead(p, style, " " + r);
    assert Pairs(b, 0) == [p] + Pairs(b, |t|);
    PairsAfterSpace(t, r);
  }

  /** After a token, the separating space is skipped and the scan reads the
      rest of the body as if it stood alone. */
  lemma PairsAfterSpace(t: string, r: string)
    ensures Pairs(t + " " + r, |t|) == Pairs(r, 0)
  {
    var x := t + " ";
    var b := x + r;
    assert |x| == |t| + 1;
    assert b[|t|] == x[|t|] == ' ';
    PairsSpace(b, |t|);
    PairsShift(x, r, 0);
  }

  /** A space before the next token changes nothing. */
  lemma PairsSpace(b: string, i: nat)
    requires i < |b| && b[i] == ' '
    ensures Pairs(b, i) == Pairs(b, i + 1)
  {
    assert SkipSpaces(b, i) == SkipSpaces(b, i + 1);
    assert NextPair(b, i) == NextPair(b, i + 1);
  }

  /** Every character of a bare rendering is a space, an `=`, or comes
      from one of the keys or values. */
  lemma {:induction false} RenderPlainChars(ps: seq<Pair>, c: char)
    requires c in Render(ps, Plain)
    ensures c == ' ' || c == '=' || exists p :: p in ps && (c in p.0 || c in p.1)
    decreases |ps|
  {
    assert ps[0] in ps;
    if |ps| > 1 && c !in Token(ps[0], Plain) && c != ' ' {
      RenderPlainChars(ps[1..], c);
      assert forall p :: p in ps[1..] ==> p in ps;
    }
  }

  /** `parse_kv` of a rendered body is the map of the rendered pairs. */
  lemma KvRenderRoundTrip(ps: seq<Pair>, style: Style)
    requires forall p :: p in ps ==> Renderable(p, style)
    ensures KvSpec(Render(ps, style)) == Apply(map[], ps)
  {
    RenderRoundTrip(ps, style);
  }

  // ---------------------------------------------------------------------
  // Worked examples
  // ---------------------------------------------------------------------

  /** `a=1 b="x\"y" c=` reads as {a: "1", b: `x"y`, c: ""}. */
  lemma KvExample()
    ensures KvSpec(ExampleBody) == map["a" := "1", "b" := "x\"y", "c" := ""]
  {
    var b := ExampleBody;
    ExamplePairC();
    ExamplePairB();
    ExamplePairA();
    assert Pairs(b, 15) == [];
    assert Pairs(b, 12) == [("c", "")];
    assert Pairs(b, 3) == [("b", "x\"y"), ("c", "")];
    assert Pairs(b, 0) == [("a", "1"), ("b", "x\"y"), ("c", "")];
  }

  const ExampleBody: string := "a=1 b=\"x\\\"y\" c="

  lemma ExamplePairC()
    ensures NextPair(ExampleBody, 12) == Some((("c", ""), 15)) && NextPair(ExampleBody, 15).None?
  {
    var b := ExampleBody;
    assert |b| == 15;
    assert UnquotedEnd(b, 15) == 15;
    assert KeyEnd(b, 13) == 14;
    assert SkipSpaces(b, 12) == 13;
    assert b[13..14] == "c";
    assert ValueAt(b, 15).0 == "";
  }

  lemma ExamplePairB()
    ensures NextPair(ExampleBody, 3) == Some((("b", "x\"y"), 12))
  {
    var b := ExampleBody;
    assert |b| == 15;
    assert QuotedValue(b, 11) == ("", 12);
    assert QuotedValue(b, 10).0 == ['y'] + QuotedValue(b, 11).0 == "y";
    assert QuotedValue(b, 8).0 == ['"'] + QuotedValue(b, 10).0 == "\"y";
    assert QuotedValue(b, 7).0 == ['x'] + QuotedValue(b, 8).0 == "x\"y";
    assert QuotedValue(b, 7).1 == 12;
    assert KeyEnd(b, 4) == 5;
    assert b[4..5] == "b";
  }

  lemma ExamplePairA()
    ensures NextPair(ExampleBody, 0) == Some((("a", "1"), 3))
  {
    var b := ExampleBody;
    assert |b| == 15;
    assert UnquotedEnd(b, 2) == 3;
    assert KeyEnd(b, 0) == 1;
    assert b[0..1] == "a" && b[2..3] == "1";
  }

  /** A token without `=` ends the scan; pairs before it are kept and the
      rest of the body is dropped. */
  lemma KvStopsAtBareToken()
    ensures KvSpec(BareTokenBody) == map["a" := "1"]
  {
    BareTokenFirst();
    BareTokenStop();
    PairsUnfold(BareTokenBody, 0);
    PairsEnd(BareTokenBody, 3);
  }

  const BareTokenBody: string := "a=1 junk b=2"

  lemma BareTokenFirst()
    ensures NextPair(BareTokenBody, 0) == Some((("a", "1"), 3))
  {
    var b := BareTokenBody;
    assert UnquotedEnd(b, 2) == 3;
    assert KeyEnd(b, 0) == 1;
    assert b[0..1] == "a" && b[2..3] == "1";
  }

  lemma BareTokenStop()
    ensures NextPair(BareTokenBody, 3).None?
  {
    assert KeyEnd(BareTokenBody, 4) == 8;
  }
}
