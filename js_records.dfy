/** The JavaScript values the frontend task-file code passes around
    (frontend/src/features/TaskSchedule): numbers read from decimal text,
    `parseInt`, and the two kinds of plain objects it builds. A
    `Record<string, number>` lists its keys in insertion order, and a new
    value for a present key keeps that key's place; a `Record<number, string>`
    lists its (array-index) keys in ascending numeric order. */
module JsRecords {
  import opened Wrappers
  import opened Strings

  /** A number read from decimal text, exactly: its whole part and its
      fraction digits without trailing zeros (so equal numbers are equal
      values). */
  datatype Decimal = Decimal(whole: nat, frac: string)

  predicate Canonical(d: Decimal)
  {
    AllDigits(d.frac) && (d.frac == [] || d.frac[|d.frac| - 1] != '0')
  }

  function DropTrailingZeros(s: string): (r: string)
    ensures |r| <= |s| && r == s[..|r|]
    ensures r == [] || r[|r| - 1] != '0'
    ensures forall k :: |r| <= k < |s| ==> s[k] == '0'
  {
    if s == [] || s[|s| - 1] != '0' then s else DropTrailingZeros(s[..|s| - 1])
  }

  /** `parseFloat` of digits `whole`, followed by `.` and the digits `frac`
      when `frac` is not empty. */
  function ParseFloat(whole: string, frac: string): (d: Decimal)
    requires |whole| > 0 && AllDigits(whole) && AllDigits(frac)
    ensures Canonical(d)
  {
    Decimal(DigitsToNat(whole), DropTrailingZeros(frac))
  }

  /** Decimal text: the whole digits, then `.` and the fraction digits if any. */
  function NumberText(whole: string, frac: string): string
  {
    whole + (if frac == [] then "" else "." + frac)
  }

  /** `${value}`: the number written in decimal. */
  function Render(d: Decimal): string
  {
    NumberText(NatToString(d.whole), d.frac)
  }

  /** Reading back a rendered number gives the number. */
  lemma ParseRender(d: Decimal)
    requires Canonical(d)
    ensures ParseFloat(NatToString(d.whole), d.frac) == d
  {
    NatToStringRoundTrip(d.whole);
  }

  /** JavaScript truthiness of a looked-up number: present and not zero.
      A fraction of zeros only is zero, whether or not it was written
      without trailing zeros. */
  predicate Truthy(v: Option<Decimal>)
  {
    v.Some? && !(v.value.whole == 0 && DropTrailingZeros(v.value.frac) == [])
  }

  predicate IsHexDigit(c: char)
  {
    IsDigit(c) || 'a' <= c <= 'f' || 'A' <= c <= 'F'
  }

  function HexDigitValue(c: char): nat
    requires IsHexDigit(c)
  {
    if IsDigit(c) then DigitValue(c)
    else if 'a' <= c <= 'f' then c as int - 'a' as int + 10
    else c as int - 'A' as int + 10
  }

  /** The longest prefix of `s` whose characters satisfy the radix. */
  function DigitPrefix(s: string, hex: bool): (p: string)
    ensures |p| <= |s| && p == s[..|p|]
    ensures forall k :: 0 <= k < |p| ==> (if hex then IsHexDigit(p[k]) else IsDigit(p[k]))
    ensures |p| < |s| ==> !(if hex then IsHexDigit(s[|p|]) else IsDigit(s[|p|]))
  {
    if s != [] && (if hex then IsHexDigit(s[0]) else IsDigit(s[0])) then
      var p := [s[0]] + DigitPrefix(s[1..], hex);
      assert p == s[..|p|];
      p
    else []
  }

  function RadixValue(s: string, hex: bool): nat
    requires forall k :: 0 <= k < |s| ==> (if hex then IsHexDigit(s[k]) else IsDigit(s[k]))
  {
    if s == [] then 0
    else if hex then 16 * RadixValue(s[..|s| - 1], hex) + HexDigitValue(s[|s| - 1])
    else 10 * RadixValue(s[..|s| - 1], hex) + DigitValue(s[|s| - 1])
  }

  /** The digits after any sign: a `0x`/`0X` prefix switches to base 16,
      then the longest run of digits counts; NaN (None) when that run is
      empty. */
  function ParseUnsigned(u: string): Option<nat>
  {
    var hex := |u| >= 2 && u[0] == '0' && (u[1] == 'x' || u[1] == 'X');
    var digits := DigitPrefix(if hex then u[2..] else u, hex);
    if digits == [] then None else Some(RadixValue(digits, hex))
  }

  /** `parseInt(s)` without a radix: leading white space is skipped, then an
      optional sign, then the unsigned part. */
  function ParseInt(s: string): Option<int>
  {
    var t := TrimStart(s, JsSpace);
    var negative := |t| > 0 && t[0] == '-';
    var n := ParseUnsigned(if |t| > 0 && (t[0] == '-' || t[0] == '+') then t[1..] else t);
    if n.None? then None else Some(if negative then -(n.value as int) else n.value as int)
  }

  lemma RadixDecimal(s: string)
    requires AllDigits(s)
    ensures RadixValue(s, false) == DigitsToNat(s)
  {
    if s != [] {
      RadixDecimal(s[..|s| - 1]);
    }
  }

  /** `parseInt` of a minus sign before decimal digits is the negated value. */
  lemma ParseIntNegative(a: string)
    requires |a| > 0 && AllDigits(a)
    ensures ParseInt("-" + a) == Some(-(DigitsToNat(a) as int))
  {
    NegativeDigits("-" + a, a);
  }

  lemma NegativeDigits(t: string, a: string)
    requires |a| > 0 && AllDigits(a) && |t| > 0 && t[0] == '-' && t[1..] == a
    ensures ParseInt(t) == Some(-(DigitsToNat(a) as int))
  {
    ParseIntMinus(t);
    UnsignedDigits(a);
  }

  /** A text that starts with a minus sign reads as the negated unsigned
      part after it. */
  lemma ParseIntMinus(t: string)
    requires |t| > 0 && t[0] == '-'
    ensures ParseInt(t) == if ParseUnsigned(t[1..]).None? then None else Some(-(ParseUnsigned(t[1..]).value as int))
  {
    assert TrimStart(t, JsSpace) == t;
  }

  /** `parseInt` of a run of decimal digits is its value. */
  lemma ParseIntDigits(s: string)
    requires |s| > 0 && AllDigits(s)
    ensures ParseInt(s) == Some(DigitsToNat(s) as int)
  {
    assert IsDigit(s[0]);
    assert TrimStart(s, JsSpace) == s;
    UnsignedDigits(s);
  }

  lemma UnsignedDigits(s: string)
    requires |s| > 0 && AllDigits(s)
    ensures ParseUnsigned(s) == Some(DigitsToNat(s))
  {
    assert |s| >= 2 ==> IsDigit(s[1]);
    AllDigitPrefix(s);
    RadixDecimal(s);
  }

  lemma AllDigitPrefix(s: string)
    requires AllDigits(s)
    ensures DigitPrefix(s, false) == s
  {
    assert s[..|s|] == s;
    DigitPrefixIs(s, s);
  }

  /** A `Record<string, number>`: its entries in enumeration order. */
  type StrRecord = seq<(string, Decimal)>

  predicate UniqueKeys(r: StrRecord)
  {
    forall i, j :: 0 <= i < j < |r| ==> r[i].0 != r[j].0
  }

  /** `record[k]`: the value of the first entry with key `k`, if any. */
  function Get(r: StrRecord, k: string): Option<Decimal>
  {
    if r == [] then None
    else if r[0].0 == k then Some(r[0].1)
    else Get(r[1..], k)
  }

  /** A key reads a value exactly when some entry has it, and the value
      read is that of such an entry. */
  lemma {:induction false} GetSpec(r: StrRecord, k: string)
    ensures Get(r, k).Some? <==> exists i :: 0 <= i < |r| && r[i].0 == k
    ensures Get(r, k).Some? ==> exists i :: 0 <= i < |r| && r[i] == (k, Get(r, k).value)
  {
    if r != [] && r[0].0 != k {
      GetSpec(r[1..], k);
      assert forall i :: 1 <= i < |r| ==> r[1..][i - 1] == r[i];
      if Get(r, k).Some? {
        var i :| 0 <= i < |r[1..]| && r[1..][i] == (k, Get(r, k).value);
        assert r[i + 1] == (k, Get(r, k).value);
      }
    } else if r != [] {
      assert r[0] == (k, Get(r, k).value);
    }
  }

  /** `record[k] = v`: a present key keeps its place and takes the new
      value; a new key goes last. */
  function Put(r: StrRecord, k: string, v: Decimal): (r': StrRecord)
  {
    if Get(r, k).Some? then Replace(r, k, v) else r + [(k, v)]
  }

  /** Every entry of key `k` takes the value `v`, in place. */
  function Replace(r: StrRecord, k: string, v: Decimal): (r': StrRecord)
    ensures |r'| == |r|
    ensures forall i :: 0 <= i < |r| ==> r'[i] == if r[i].0 == k then (k, v) else r[i]
  {
    if r == [] then [] else [if r[0].0 == k then (k, v) else r[0]] + Replace(r[1..], k, v)
  }

  /** Writing a key keeps the keys distinct, gives the key its new value and
      leaves every other key's value alone. */
  lemma PutGet(r: StrRecord, k: string, v: Decimal, k': string)
    requires UniqueKeys(r)
    ensures UniqueKeys(Put(r, k, v))
    ensures |Put(r, k, v)| == if Get(r, k).Some? then |r| else |r| + 1
    ensures forall i :: 0 <= i < |r| ==> Put(r, k, v)[i].0 == r[i].0
    ensures Get(Put(r, k, v), k') == if k' == k then Some(v) else Get(r, k')
  {
    var r' := Put(r, k, v);
    GetSpec(r, k);
    GetSpec(r, k');
    GetSpec(r', k');
    assert forall i :: 0 <= i < |r| ==> r'[i].0 == r[i].0 && (r[i].0 != k ==> r'[i] == r[i]);
    if exists i :: 0 <= i < |r| && r[i].0 == k' {
      var i :| 0 <= i < |r| && r[i].0 == k';
      GetAt(r, k', i);
      GetAt(r', k', i);
    } else if k' == k {
      GetAt(r', k, |r|);
    }
  }

  /** Writing a key adds no entry but the written one. */
  lemma PutEntries(r: StrRecord, k: string, v: Decimal)
    ensures forall e :: e in Put(r, k, v) ==> e in r || e == (k, v)
  {
    GetSpec(r, k);
    if Get(r, k).Some? {
      forall e | e in Put(r, k, v)
        ensures e in r || e == (k, v)
      {
        var n :| 0 <= n < |r| && Put(r, k, v)[n] == e;
      }
    }
  }

  /** With distinct keys, the value read for a key is the one at its entry. */
  lemma {:induction false} GetAt(r: StrRecord, k: string, i: int)
    requires UniqueKeys(r) && 0 <= i < |r| && r[i].0 == k
    ensures Get(r, k) == Some(r[i].1)
  {
    if i > 0 {
      GetAt(r[1..], k, i - 1);
    }
  }

  /** A `Record<number, string>` with integer keys: entries in ascending key order. */
  type NumRecord = seq<(nat, string)>

  predicate Ascending(r: NumRecord)
  {
    forall i, j :: 0 <= i < j < |r| ==> r[i].0 < r[j].0
  }

  function GetNum(r: NumRecord, k: nat): Option<string>
  {
    if r == [] then None else if r[0].0 == k then Some(r[0].1) else GetNum(r[1..], k)
  }

  /** `record[k] = v` for an integer key: it takes its place in key order,
      replacing the value of an equal key. */
  function PutNum(r: NumRecord, k: nat, v: string): (r': NumRecord)
    ensures |r'| == |r| || |r'| == |r| + 1
    ensures r' != [] && r'[0].0 == if r == [] || k < r[0].0 then k else r[0].0
    ensures forall e :: e in r' ==> e in r || e == (k, v)
    ensures Ascending(r) ==> Ascending(r')
  {
    if r == [] then [(k, v)]
    else if r[0].0 == k then [(k, v)] + r[1..]
    else if k < r[0].0 then [(k, v)] + r
    else [r[0]] + PutNum(r[1..], k, v)
  }

  /** Writing an integer key gives it its new value and leaves every other
      key's value alone. */
  lemma {:induction false} PutNumGet(r: NumRecord, k: nat, v: string, k': nat)
    requires Ascending(r)
    ensures GetNum(PutNum(r, k, v), k') == if k' == k then Some(v) else GetNum(r, k')
  {
    if r != [] && r[0].0 != k && k >= r[0].0 {
      PutNumGet(r[1..], k, v, k');
    } else if r != [] && k < r[0].0 && k' != k {
      assert GetNum([(k, v)] + r, k') == GetNum(r, k');
    }
  }

  /** The task-scheduling input the frontend builds and sends: task ids,
      setup costs keyed `"(from,to)"`, and optional families per task id. */
  datatype TaskSchedulingData = TaskSchedulingData(
    tasks: seq<int>, setupMatrix: StrRecord, families: Option<NumRecord>)

  /** The digits starting at position `p` of `s`, as many as there are. */
  function DigitsAt(s: string, p: nat): (d: string)
    requires p <= |s|
    ensures p + |d| <= |s| && d == s[p..p + |d|] && AllDigits(d)
    ensures p + |d| < |s| ==> !IsDigit(s[p + |d|])
  {
    DigitPrefix(s[p..], false)
  }

  /** The regular expression `\d+(?:\.\d+)?` at position `p`: the whole
      digits, the fraction digits (empty when there is no fraction) and
      where the match ends. Each `\d+` takes all the digits there are, and
      the fraction is taken when a point and a digit follow. */
  function MatchNumber(s: string, p: nat): (m: Option<(string, string, nat)>)
    requires p <= |s|
    ensures m.Some? ==> |m.value.0| > 0 && AllDigits(m.value.0) && AllDigits(m.value.1) && p < m.value.2 <= |s|
  {
    var w := DigitsAt(s, p);
    var q := p + |w|;
    if w == [] then None
    else if q < |s| && s[q] == '.' && DigitsAt(s, q + 1) != [] then
      var f := DigitsAt(s, q + 1);
      Some((w, f, q + 1 + |f|))
    else Some((w, "", q))
  }

  /** A matched number is the text it was matched in. */
  lemma MatchNumberSound(s: string, p: nat)
    requires p <= |s| && MatchNumber(s, p).Some?
    ensures var (w, f, e) := MatchNumber(s, p).value; e == p + |NumberText(w, f)| && s[p..e] == NumberText(w, f)
  {
    var (w, f, e) := MatchNumber(s, p).value;
    if f != [] {
      var q := p + |w|;
      assert s[p..e] == s[p..q] + [s[q]] + s[q + 1..e];
    }
  }

  /** The digit run at `p` is `d` when `d` is written there and no digit follows. */
  lemma DigitsAtIs(t: string, p: nat, d: string)
    requires p + |d| <= |t| && t[p..p + |d|] == d && AllDigits(d)
    requires p + |d| == |t| || !IsDigit(t[p + |d|])
    ensures DigitsAt(t, p) == d
  {
    assert t[p..][..|d|] == d;
    DigitPrefixIs(t[p..], d);
  }

  /** The decimal digit prefix of `s` is `d` when `s` starts with the digits
      `d` and no digit follows them. */
  lemma {:induction false} DigitPrefixIs(s: string, d: string)
    requires |d| <= |s| && s[..|d|] == d && AllDigits(d)
    requires |d| == |s| || !IsDigit(s[|d|])
    ensures DigitPrefix(s, false) == d
  {
    if d != [] {
      assert s[0] == d[0] && s[1..][..|d| - 1] == d[1..];
      DigitPrefixIs(s[1..], d[1..]);
    }
  }

  /** A number written at the end of the text is matched as written. */
  lemma MatchNumberComplete(t: string, p: nat, w: string, f: string)
    requires |w| > 0 && AllDigits(w) && AllDigits(f)
    requires p <= |t| && t[p..] == NumberText(w, f)
    ensures MatchNumber(t, p) == Some((w, f, |t|))
  {
    var k := p + |w|;
    assert t[p..k] == w;
    DigitsAtIs(t, p, w);
    if f != [] {
      assert t[k] == '.' && t[k + 1..] == f;
      DigitsAtIs(t, k + 1, f);
    }
  }
}
