/**
 * Character classes, decimal numerals, string order and UTF-8 lengths as
 * the Python standard library defines them, shared by the parser, the
 * checkpoint ledger and the file catalog.
 */
module Text {

  datatype Option<+T> = None | Some(value: T)

  /** Python's `str.isspace()` (and so `\s` in a `str` regex and the
      characters `str.strip()` removes): the code points with
      bidirectional class WS, B or S, or general category Zs. */
  predicate IsSpace(c: char) {
    || ('\t' <= c <= '\r')
    || ('\U{1C}' <= c <= '\U{1F}')
    || c == ' '
    || c == '\U{85}'
    || c == '\U{A0}'
    || c == '\U{1680}'
    || ('\U{2000}' <= c <= '\U{200A}')
    || c == '\U{2028}'
    || c == '\U{2029}'
    || c == '\U{202F}'
    || c == '\U{205F}'
    || c == '\U{3000}'
  }

  /** The whitespace `int()` skips around a numeral: ASCII tab to
      carriage return and space stay as they are and are skipped, other
      `str.isspace()` characters above U+007F are first turned into spaces;
      the separators U+001C to U+001F are kept and so refuse the numeral. */
  predicate IntSpace(c: char) {
    IsSpace(c) && !('\U{1C}' <= c <= '\U{1F}')
  }

  predicate IsDigit(c: char) {
    '0' <= c <= '9'
  }

  predicate AllDigits(s: string) {
    forall i :: 0 <= i < |s| ==> IsDigit(s[i])
  }

  function DigitValue(c: char): (d: nat)
    requires IsDigit(c)
    ensures d < 10
  {
    (c as int) - ('0' as int)
  }

  function DigitChar(d: nat): (c: char)
    requires d < 10
    ensures IsDigit(c) && DigitValue(c) == d
  {
    (('0' as int) + d) as char
  }

  /** The value of a string of ASCII digits, most significant first. */
  function DigitsValue(s: string): nat
    requires AllDigits(s)
  {
    if s == [] then 0 else DigitsValue(s[..|s| - 1]) * 10 + DigitValue(s[|s| - 1])
  }

  /** Python's `str(n)` for a natural number: no sign, no leading zero. */
  function NatToString(n: nat): (s: string)
    ensures |s| >= 1 && AllDigits(s)
    ensures s[0] == '0' ==> n == 0
    decreases n
  {
    if n < 10 then [DigitChar(n)] else NatToString(n / 10) + [DigitChar(n % 10)]
  }

  /** Python's `str(i)` for any integer. */
  function IntToString(i: int): string {
    if i < 0 then "-" + NatToString(-i) else NatToString(i)
  }

  lemma {:induction false} NatToStringRoundTrip(n: nat)
    ensures DigitsValue(NatToString(n)) == n
    decreases n
  {
    if n >= 10 {
      NatToStringRoundTrip(n / 10);
      var s := NatToString(n);
      assert s[..|s| - 1] == NatToString(n / 10);
    }
  }

  /** Distinct integers have distinct decimal texts. */
  lemma IntToStringInjective(i: int, j: int)
    requires IntToString(i) == IntToString(j)
    ensures i == j
  {
    var a := NatToString(if i < 0 then -i else i);
    var b := NatToString(if j < 0 then -j else j);
    assert (i < 0) == (j < 0) by {
      assert IsDigit(a[0]) && IsDigit(b[0]);
    }
    if i < 0 {
      assert a == IntToString(i)[1..] && b == IntToString(j)[1..];
    }
    NatToStringRoundTrip(if i < 0 then -i else i);
    NatToStringRoundTrip(if j < 0 then -j else j);
  }

  /** A rendered integer never contains a character outside `-0123456789`. */
  lemma IntToStringAlphabet(i: int, c: char)
    requires c in IntToString(i)
    ensures c == '-' || IsDigit(c)
  {
    var s := IntToString(i);
    var k :| 0 <= k < |s| && s[k] == c;
    if i < 0 {
      assert k > 0 ==> s[k] == NatToString(-i)[k - 1];
    }
  }

  /** Lexicographic order on code points, Python's `<=` on `str`. */
  predicate StrLe(a: string, b: string) {
    a == [] || (b != [] && (a[0] < b[0] || (a[0] == b[0] && StrLe(a[1..], b[1..]))))
  }

  lemma {:induction false} StrLeTotal(a: string, b: string)
    ensures StrLe(a, b) || StrLe(b, a)
  {
    if a != [] && b != [] && a[0] == b[0] {
      StrLeTotal(a[1..], b[1..]);
    }
  }

  lemma {:induction false} StrLeTransitive(a: string, b: string, c: string)
    requires StrLe(a, b) && StrLe(b, c)
    ensures StrLe(a, c)
  {
    if a != [] && a[0] == b[0] && b[0] == c[0] {
      StrLeTransitive(a[1..], b[1..], c[1..]);
    }
  }

  /** Bytes in the UTF-8 encoding of one code point (a Dafny `char` is a
      Unicode scalar value, so there is no lone surrogate to replace). */
  function Utf8Width(c: char): (w: nat)
    ensures 1 <= w <= 4
  {
    if c as int < 0x80 then 1
    else if c as int < 0x800 then 2
    else if c as int < 0x1_0000 then 3
    else 4
  }

  /** `len(s.encode("utf-8", errors="replace"))`. */
  function Utf8Length(s: string): (n: nat)
    ensures n >= |s|
  {
    if s == [] then 0 else Utf8Length(s[..|s| - 1]) + Utf8Width(s[|s| - 1])
  }

  lemma {:induction false} Utf8LengthAppend(a: string, b: string)
    ensures Utf8Length(a + b) == Utf8Length(a) + Utf8Length(b)
    decreases |b|
  {
    if b == [] {
      assert a + b == a;
    } else {
      var b' := b[..|b| - 1];
      assert (a + b)[..|a + b| - 1] == a + b';
      assert (a + b)[|a + b| - 1] == b[|b| - 1];
      Utf8LengthAppend(a, b');
    }
  }

  /** `s.lstrip(chars)` where `drop` says which characters are in `chars`. */
  function TrimStart(s: string, drop: char -> bool): (r: string)
    ensures |r| <= |s|
  {
    if s != [] && drop(s[0]) then TrimStart(s[1..], drop) else s
  }

  /** `s.rstrip(chars)`. */
  function TrimEnd(s: string, drop: char -> bool): (r: string)
    ensures |r| <= |s|
  {
    if s != [] && drop(s[|s| - 1]) then TrimEnd(s[..|s| - 1], drop) else s
  }

  /** `s.strip(chars)`; `Strip(s, IsSpace)` is `s.strip()`. */
  function Strip(s: string, drop: char -> bool): string {
    TrimEnd(TrimStart(s, drop), drop)
  }

  /** `lstrip` removes the longest prefix of dropped characters. */
  lemma {:induction false} TrimStartSpec(s: string, drop: char -> bool)
    ensures var r := TrimStart(s, drop);
      && r == s[|s| - |r|..]
      && (forall i :: 0 <= i < |s| - |r| ==> drop(s[i]))
      && (r == [] || !drop(r[0]))
  {
    if s != [] && drop(s[0]) {
      TrimStartSpec(s[1..], drop);
    }
  }

  /** `rstrip` removes the longest suffix of dropped characters. */
  lemma {:induction false} TrimEndSpec(s: string, drop: char -> bool)
    ensures var r := TrimEnd(s, drop);
      && r == s[..|r|]
      && (forall i :: |r| <= i < |s| ==> drop(s[i]))
      && (r == [] || !drop(r[|r| - 1]))
  {
    if s != [] && drop(s[|s| - 1]) {
      var s' := s[..|s| - 1];
      TrimEndSpec(s', drop);
      var r := TrimEnd(s, drop);
      assert s'[..|r|] == s[..|r|];
    }
  }

  /** Stripping leaves alone a string whose ends are kept. */
  lemma StripKept(s: string, drop: char -> bool)
    requires s != [] && !drop(s[0]) && !drop(s[|s| - 1])
    ensures Strip(s, drop) == s
  {
  }

  /** Stripping removes any run of dropped characters around a kept core. */
  lemma {:induction false} StripAround(pre: string, core: string, post: string, drop: char -> bool)
    requires forall i :: 0 <= i < |pre| ==> drop(pre[i])
    requires forall i :: 0 <= i < |post| ==> drop(post[i])
    requires core != [] && !drop(core[0]) && !drop(core[|core| - 1])
    ensures Strip(pre + core + post, drop) == core
  {
    TrimStartPrefix(pre, core + post, drop);
    assert pre + core + post == pre + (core + post);
    TrimEndSuffix(core, post, drop);
  }

  lemma {:induction false} TrimStartPrefix(pre: string, rest: string, drop: char -> bool)
    requires forall i :: 0 <= i < |pre| ==> drop(pre[i])
    requires rest != [] && !drop(rest[0])
    ensures TrimStart(pre + rest, drop) == rest
    decreases |pre|
  {
    if pre == [] {
      assert pre + rest == rest;
    } else {
      assert (pre + rest)[1..] == pre[1..] + rest;
      TrimStartPrefix(pre[1..], rest, drop);
    }
  }

  lemma {:induction false} TrimEndSuffix(rest: string, post: string, drop: char -> bool)
    requires forall i :: 0 <= i < |post| ==> drop(post[i])
    requires rest != [] && !drop(rest[|rest| - 1])
    ensures TrimEnd(rest + post, drop) == rest
    decreases |post|
  {
    if post == [] {
      assert rest + post == rest;
    } else {
      var post' := post[..|post| - 1];
      assert (rest + post)[..|rest + post| - 1] == rest + post';
      TrimEndSuffix(rest, post', drop);
    }
  }

  /** `s.split(sep)` for a one-character separator: never empty, and no part
      holds the separator. */
  function Split(s: string, sep: char): (parts: seq<string>)
    ensures |parts| >= 1
    decreases |s|
  {
    if s == [] then [[]]
    else if s[0] == sep then [[]] + Split(s[1..], sep)
    else
      var rest := Split(s[1..], sep);
      [[s[0]] + rest[0]] + rest[1..]
  }

  /** One step of `Split`, as an equation on a first character. */
  lemma SplitCons(c: char, s: string, sep: char)
    ensures c == sep ==> Split([c] + s, sep) == [[]] + Split(s, sep)
    ensures c != sep ==> Split([c] + s, sep) == [[c] + Split(s, sep)[0]] + Split(s, sep)[1..]
  {
    assert ([c] + s)[1..] == s;
  }

  /** A text without the separator is one part. */
  lemma {:induction false} SplitNone(a: string, sep: char)
    requires sep !in a
    ensures Split(a, sep) == [a]
    decreases |a|
  {
    if a != [] {
      assert a == [a[0]] + a[1..];
      SplitNone(a[1..], sep);
      SplitCons(a[0], a[1..], sep);
    }
  }

  /** The first separator ends the first part. */
  lemma {:induction false} SplitFirst(a: string, rest: string, sep: char)
    requires sep !in a
    ensures Split(a + [sep] + rest, sep) == [a] + Split(rest, sep)
    decreases |a|
  {
    if a == [] {
      assert a + [sep] + rest == [sep] + rest;
      SplitCons(sep, rest, sep);
    } else {
      var tail := a[1..] + [sep] + rest;
      assert a + [sep] + rest == [a[0]] + tail;
      SplitFirst(a[1..], rest, sep);
      SplitCons(a[0], tail, sep);
      assert [a[0]] + a[1..] == a;
    }
  }

  /** `sep.join(parts)`. */
  function Join(parts: seq<string>, sep: char): string
    requires |parts| >= 1
    decreases |parts|
  {
    if |parts| == 1 then parts[0] else parts[0] + [sep] + Join(parts[1..], sep)
  }

  lemma {:induction false} SplitJoin(s: string, sep: char)
    ensures Join(Split(s, sep), sep) == s
    decreases |s|
  {
    if s != [] {
      SplitJoin(s[1..], sep);
      var rest := Split(s[1..], sep);
      if s[0] == sep {
        assert Split(s, sep) == [[]] + rest;
        assert ([[]] + rest)[1..] == rest;
        assert s == [] + [sep] + s[1..];
      } else {
        JoinCons(s[0], rest, sep);
        assert s == [s[0]] + s[1..];
      }
    }
  }

  /** A character put in front of the first part comes first in the join. */
  lemma JoinCons(c: char, parts: seq<string>, sep: char)
    requires |parts| >= 1
    ensures Join([[c] + parts[0]] + parts[1..], sep) == [c] + Join(parts, sep)
  {
    var ps := [[c] + parts[0]] + parts[1..];
    assert ps[0] == [c] + parts[0] && ps[1..] == parts[1..];
    if |parts| > 1 {
      assert [c] + parts[0] + [sep] + Join(parts[1..], sep) == [c] + (parts[0] + [sep] + Join(parts[1..], sep));
    }
  }

  lemma {:induction false} SplitNoSeparator(s: string, sep: char)
    ensures forall p :: p in Split(s, sep) ==> sep !in p
    decreases |s|
  {
    if s != [] {
      SplitNoSeparator(s[1..], sep);
    }
  }

  /** A base-10 literal body as `int()` accepts it: digits, with single
      underscores between digits. */
  predicate DigitGroups(s: string) {
    && s != []
    && IsDigit(s[0])
    && DigitsOrUnderscores(s)
    && (forall i :: 0 <= i < |s| && s[i] == '_' ==> i + 1 < |s| && IsDigit(s[i + 1]))
  }

  predicate DigitsOrUnderscores(s: string) {
    forall i :: 0 <= i < |s| ==> IsDigit(s[i]) || s[i] == '_'
  }

  function DropUnderscores(s: string): (r: string)
    requires DigitsOrUnderscores(s)
    ensures AllDigits(r)
  {
    if s == [] then []
    else if s[0] == '_' then DropUnderscores(s[1..])
    else [s[0]] + DropUnderscores(s[1..])
  }

  /** The default of `sys.get_int_max_str_digits()`: `int()` refuses a
      decimal numeral of more digits, and `str()` refuses to render one. */
  const MaxStrDigits := 4300

  /** Python's `int(s)` on a `str`: surrounding whitespace, an optional sign,
      then decimal digits with single underscores between them, at most
      `MaxStrDigits` of them (underscores not counted). */
  function ParseInt(s: string): (r: Option<int>)
  {
    var t := Strip(s, IntSpace);
    if t == [] then None
    else
      var digits := if t[0] == '+' || t[0] == '-' then t[1..] else t;
      if !DigitGroups(digits) then None
      else
        var ds := DropUnderscores(digits);
        if |ds| > MaxStrDigits then None
        else
          var v: int := DigitsValue(ds);
          Some(if t[0] == '-' then -v else v)
  }

  lemma {:induction false} DropUnderscoresDigits(s: string)
    requires AllDigits(s)
    ensures DropUnderscores(s) == s
  {
    if s != [] {
      DropUnderscoresDigits(s[1..]);
      assert s == [s[0]] + s[1..];
    }
  }

  /** A numeral starts and ends with characters `int()` keeps. */
  lemma NumeralEnds(s: string, n: string, neg: bool)
    requires |n| >= 1 && AllDigits(n) && s == if neg then "-" + n else n
    ensures !IntSpace(s[0]) && !IntSpace(s[|s| - 1])
  {
    assert s[|s| - 1] == n[|n| - 1];
  }

  /** `int(str(i)) == i` for every `i` that `str()` renders. */
  lemma ParseIntRoundTrip(i: int)
    requires |NatToString(if i < 0 then -i else i)| <= MaxStrDigits
    ensures ParseInt(IntToString(i)) == Some(i)
  {
    var s := IntToString(i);
    var n := NatToString(if i < 0 then -i else i);
    NatToStringRoundTrip(if i < 0 then -i else i);
    DropUnderscoresDigits(n);
    NumeralEnds(s, n, i < 0);
    StripKept(s, IntSpace);
    if i < 0 {
      assert s[1..] == n;
    }
  }

  /** `int()` ignores surrounding whitespace and underscores between
      digits, and reads leading zeros. */
  lemma ParseIntExample()
    ensures ParseInt(" 0_7\t") == Some(7)
  {
    StripAround(" ", "0_7", "\t", IntSpace);
    assert " 0_7\t" == " " + "0_7" + "\t";
    assert DropUnderscores("0_7") == "07";
    assert DigitsValue("07") == 7 by {
      assert "07"[..1] == "0";
    }
  }

  /** The digit limit is exact: a plain numeral of at most `MaxStrDigits`
      digits is read as its value, and one of more is refused. */
  lemma ParseIntDigitLimit(s: string)
    requires |s| >= 1 && AllDigits(s)
    ensures |s| <= MaxStrDigits ==> ParseInt(s) == Some(DigitsValue(s))
    ensures |s| > MaxStrDigits ==> ParseInt(s) == None
  {
    PlainNumeral(s);
  }

  /** A plain numeral is kept whole by the strip, is one digit group, and
      has no underscore to drop. */
  lemma PlainNumeral(s: string)
    requires |s| >= 1 && AllDigits(s)
    ensures Strip(s, IntSpace) == s && s[0] != '+' && s[0] != '-'
    ensures DigitGroups(s) && DropUnderscores(s) == s
  {
    assert !IntSpace(s[0]) && !IntSpace(s[|s| - 1]);
    StripKept(s, IntSpace);
    DropUnderscoresDigits(s);
  }

  /** A doubled underscore is refused. */
  lemma ParseIntDoubleUnderscore()
    ensures ParseInt("1__2") == None
  {
    StripKept("1__2", IntSpace);
    assert "1__2"[1] == '_' && "1__2"[2] == '_';
  }

  /** An information separator before a numeral refuses it, although
      `str.isspace()` counts it as whitespace. */
  lemma ParseIntSeparatorRefused()
    ensures ParseInt("\U{1C}5") == None
    ensures IsSpace('\U{1C}')
  {
    StripKept("\U{1C}5", IntSpace);
  }
}
