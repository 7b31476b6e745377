/** Character classes, decimal digits and the splitting, joining and trimming
    operations that both the Python key parser and the TypeScript file parsers
    rely on. Python's `str.split(",")` and JavaScript's `String.split(",")`
    agree for a one-character separator, so `Split` serves both. */
module Strings {

  predicate IsDigit(c: char)
  {
    '0' <= c <= '9'
  }

  predicate AllDigits(s: string)
  {
    forall k :: 0 <= k < |s| ==> IsDigit(s[k])
  }

  function DigitValue(c: char): nat
    requires IsDigit(c)
  {
    c as int - '0' as int
  }

  function DigitChar(d: nat): (c: char)
    requires d < 10
    ensures IsDigit(c) && DigitValue(c) == d
  {
    ('0' as int + d) as char
  }

  /** The value of a string of decimal digits (leading zeros allowed). */
  function DigitsToNat(s: string): nat
    requires AllDigits(s)
    decreases |s|
  {
    if s == [] then 0 else 10 * DigitsToNat(s[..|s| - 1]) + DigitValue(s[|s| - 1])
  }

  /** The canonical decimal rendering of a natural number: no leading zero. */
  function NatToString(n: nat): (s: string)
    ensures |s| > 0 && AllDigits(s)
    ensures s[0] == '0' ==> n == 0 && s == "0"
  {
    if n < 10 then [DigitChar(n)] else NatToString(n / 10) + [DigitChar(n % 10)]
  }

  /** Reading back a rendered number gives the number. */
  lemma {:induction false} NatToStringRoundTrip(n: nat)
    ensures DigitsToNat(NatToString(n)) == n
  {
    if n >= 10 {
      var s := NatToString(n);
      assert s[..|s| - 1] == NatToString(n / 10);
      NatToStringRoundTrip(n / 10);
    }
  }

  /** JavaScript's rendering of an integral number, and Python's `str` of an int. */
  function IntToString(i: int): string
  {
    if i < 0 then "-" + NatToString(-i) else NatToString(i)
  }

  /** Split at every occurrence of `sep`; the empty string splits into one empty part. */
  function Split(s: string, sep: char): (parts: seq<string>)
    ensures |parts| > 0
    decreases |s|
  {
    if s == [] then [""]
    else
      var rest := Split(s[1..], sep);
      if s[0] == sep then [""] + rest else [[s[0]] + rest[0]] + rest[1..]
  }

  /** `sep.join(parts)` / `parts.join(sep)`. */
  function Join(parts: seq<string>, sep: string): string
  {
    if parts == [] then ""
    else if |parts| == 1 then parts[0]
    else parts[0] + sep + Join(parts[1..], sep)
  }

  lemma {:induction false} SplitPrefix(p: string, rest: string, sep: char)
    requires sep !in p
    ensures Split(p + [sep] + rest, sep) == [p] + Split(rest, sep)
    decreases |p|
  {
    if p == [] {
      assert p + [sep] + rest == [sep] + rest;
    } else {
      var s := p + [sep] + rest;
      assert s[0] == p[0] && s[1..] == p[1..] + [sep] + rest;
      SplitPrefix(p[1..], rest, sep);
      assert [p[0]] + p[1..] == p;
    }
  }

  lemma {:induction false} SplitNoSep(p: string, sep: char)
    requires sep !in p
    ensures Split(p, sep) == [p]
    decreases |p|
  {
    if p != [] {
      SplitNoSep(p[1..], sep);
      assert [p[0]] + p[1..] == p;
    }
  }

  /** Splitting a joined list gives the list back when no part holds the separator. */
  lemma {:induction false} SplitJoin(parts: seq<string>, sep: char)
    requires |parts| > 0
    requires forall k :: 0 <= k < |parts| ==> sep !in parts[k]
    ensures Split(Join(parts, [sep]), sep) == parts
    decreases |parts|
  {
    if |parts| == 1 {
      SplitNoSep(parts[0], sep);
    } else {
      SplitJoin(parts[1..], sep);
      SplitPrefix(parts[0], Join(parts[1..], [sep]), sep);
      assert [parts[0]] + parts[1..] == parts;
    }
  }

  /** A join of non-empty parts starts as the first part and ends as the last. */
  lemma {:induction false} JoinEnds(parts: seq<string>, sep: string)
    requires |parts| > 0 && forall k :: 0 <= k < |parts| ==> |parts[k]| > 0
    ensures var j := Join(parts, sep);
            |j| > 0 && j[0] == parts[0][0] && j[|j| - 1] == parts[|parts| - 1][|parts[|parts| - 1]| - 1]
    decreases |parts|
  {
    if |parts| > 1 {
      JoinEnds(parts[1..], sep);
    }
  }

  /** The characters JavaScript's `trim()` and `\s` treat as white space or line terminators. */
  predicate IsJsSpace(c: char)
  {
    c == ' ' || c == '\t' || c == '\n' || c == '\r' || c == '\U{000B}' || c == '\U{000C}'
    || c == '\U{00A0}' || c == '\U{1680}' || ('\U{2000}' <= c <= '\U{200A}')
    || c == '\U{2028}' || c == '\U{2029}' || c == '\U{202F}' || c == '\U{205F}'
    || c == '\U{3000}' || c == '\U{FEFF}'
  }

  /** The white space Python's `str.strip()` and `int()` ignore around a value. */
  predicate IsPySpace(c: char)
  {
    c == ' ' || c == '\t' || c == '\n' || c == '\r' || c == '\U{000B}' || c == '\U{000C}'
    || ('\U{001C}' <= c <= '\U{001F}') || c == '\U{0085}' || c == '\U{00A0}' || c == '\U{1680}'
    || ('\U{2000}' <= c <= '\U{200A}') || c == '\U{2028}' || c == '\U{2029}'
    || c == '\U{202F}' || c == '\U{205F}' || c == '\U{3000}'
  }

  /** The characters JavaScript's `.` does not match. */
  predicate IsLineTerminator(c: char)
  {
    c == '\n' || c == '\r' || c == '\U{2028}' || c == '\U{2029}'
  }

  /** The character classes the programs strip from the ends of a string. */
  datatype Strip = JsSpace | PySpace | Parens

  predicate Stripped(k: Strip, c: char)
  {
    match k
    case JsSpace => IsJsSpace(c)
    case PySpace => IsPySpace(c)
    case Parens => c == '(' || c == ')'
  }

  function TrimStart(s: string, k: Strip): string
    decreases |s|
  {
    if s != [] && Stripped(k, s[0]) then TrimStart(s[1..], k) else s
  }

  function TrimEnd(s: string, k: Strip): string
    decreases |s|
  {
    if s != [] && Stripped(k, s[|s| - 1]) then TrimEnd(s[..|s| - 1], k) else s
  }

  /** Remove leading and trailing characters of the class `k`. */
  function Trim(s: string, k: Strip): string
  {
    TrimEnd(TrimStart(s, k), k)
  }

  /** JavaScript's `String.prototype.trim`. */
  function JsTrim(s: string): string
  {
    Trim(s, JsSpace)
  }

  lemma TrimIdentity(s: string, k: Strip)
    requires s == [] || (!Stripped(k, s[0]) && !Stripped(k, s[|s| - 1]))
    ensures Trim(s, k) == s
  {
  }

  /** Lines joined with line breaks, trimmed and split again, come back when
      no line holds a break and the text neither starts nor ends with white
      space. */
  lemma TrimmedLines(lines: seq<string>)
    requires |lines| > 0 && forall k :: 0 <= k < |lines| ==> '\n' !in lines[k] && |lines[k]| > 0
    requires !IsJsSpace(lines[0][0]) && !IsJsSpace(lines[|lines| - 1][|lines[|lines| - 1]| - 1])
    ensures JsTrim(Join(lines, "\n")) != "" && Split(JsTrim(Join(lines, "\n")), '\n') == lines
  {
    JoinEnds(lines, "\n");
    TrimIdentity(Join(lines, "\n"), JsSpace);
    SplitJoin(lines, '\n');
  }
}
